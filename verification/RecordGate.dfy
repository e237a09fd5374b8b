/**
 The evolution gate over projected record contracts.

 `Violations` walks two contracts and lists what the newer one breaks. `Silent` says what an
 empty list means. On contracts whose rows have unique names, silence is a preorder, so
 checking every step of a history is as good as checking its last contract against its first.
 */
module RecordGate {
  import opened Common
  import opened RecordLayout

  // ----- the projection: contract terms only -----

  datatype FieldTerm = FieldTerm(name: string, ctype: CType, count: int, offset: nat, bytes: nat, expose: string)

  /** An older snapshot has bare rows; in a row with a rule the rule may still be null. */
  datatype Attr = Bare(key: string) | Rule(key: string, present: Option<string>)

  datatype Egress = Egress(pushFn: string, spanName: string, spanKind: string, timingForm: string,
                           dropWhen: string, attributes: seq<Attr>, enrichers: seq<string>)

  datatype Property = Property(name: string, kind: string, expose: string, ffi: string, cap: Option<int>,
                               kfilter: string, residue: string)

  datatype Consumer = Consumer(drainFn: string, toSpanFn: string, properties: seq<Property>)

  datatype Label = Label(key: string, source: string)

  datatype Metric = Metric(id: string, name: string, kind: string, unit: string, valueFrom: string,
                           labels: seq<Label>)

  datatype Channel = Channel(recordStruct: string, ringbufMap: string, recordMinBytes: int,
                             producers: seq<string>, fields: seq<FieldTerm>, egress: Option<Egress>,
                             consumer: Option<Consumer>, metrics: seq<Metric>)

  type Contract = map<string, Channel>

  datatype Violation = Violation(channel: string, term: string, subject: string)

  // ----- rows found by key -----

  /** The first row with a key. */
  function First<T>(rows: seq<T>, key: T -> string, k: string): (r: Option<T>)
    ensures r.Some? ==> r.value in rows && key(r.value) == k
    ensures r.None? <==> forall x | x in rows :: key(x) != k
  {
    if rows == [] then None
    else if key(rows[0]) == k then Some(rows[0])
    else First(rows[1..], key, k)
  }

  /** A hash filled from rows: a repeated key keeps its last value. */
  function ToHash<T, V>(rows: seq<T>, key: T -> string, val: T -> V): (m: map<string, V>)
    ensures forall k :: k in m <==> exists x | x in rows :: key(x) == k
  {
    if rows == [] then map[] else
    var last := rows[|rows| - 1];
    var m := ToHash(rows[..|rows| - 1], key, val)[key(last) := val(last)];
    assert rows == rows[..|rows| - 1] + [last];
    m
  }

  ghost predicate UniqueKeys<T>(rows: seq<T>, key: T -> string) {
    forall i, j :: 0 <= i < j < |rows| ==> key(rows[i]) != key(rows[j])
  }

  lemma {:induction false} FirstIsOnly<T>(rows: seq<T>, key: T -> string, i: nat)
    requires UniqueKeys(rows, key) && i < |rows|
    ensures First(rows, key, key(rows[i])) == Some(rows[i])
  {
    if i > 0 { FirstIsOnly(rows[1..], key, i - 1); }
  }

  lemma {:induction false} HashOfUnique<T, V>(rows: seq<T>, key: T -> string, val: T -> V, i: nat)
    requires UniqueKeys(rows, key) && i < |rows|
    ensures key(rows[i]) in ToHash(rows, key, val)
    ensures ToHash(rows, key, val)[key(rows[i])] == val(rows[i])
  {
    var n := |rows| - 1;
    if i < n { HashOfUnique(rows[..n], key, val, i); }
  }

  const FieldName := (f: FieldTerm) => f.name
  const AttrKey := (a: Attr) => a.key
  const AttrPresent := (a: Attr) => if a.Bare? then None else a.present
  const PropName := (p: Property) => p.name
  const PropResidue := (p: Property) => p.residue
  const MetricId := (m: Metric) => m.id
  const LabelKey := (l: Label) => l.key

  // ----- what silence means, term by term -----

  predicate FieldSame(o: FieldTerm, n: FieldTerm) {
    o.offset == n.offset && o.bytes == n.bytes && o.ctype == n.ctype && o.count == n.count &&
    (o.expose == n.expose || o.expose == "")
  }

  predicate FieldsKept(of: seq<FieldTerm>, nf: seq<FieldTerm>) {
    && (forall o | o in of :: First(nf, FieldName, o.name).Some? && FieldSame(o, First(nf, FieldName, o.name).value))
    && |of| <= |nf|
    && forall i :: 0 <= i < |of| ==> of[i].name == nf[i].name
  }

  predicate Included(olds: seq<string>, news: seq<string>) {
    forall x | x in olds :: x in news
  }

  predicate AttrsKept(oa: seq<Attr>, na: seq<Attr>) {
    var hash := ToHash(na, AttrKey, AttrPresent);
    forall a | a in oa :: a.key in hash && (a.Rule? ==> hash[a.key] == a.present)
  }

  predicate EgressKept(oe: Option<Egress>, ne: Option<Egress>) {
    oe.Some? ==>
    && ne.Some?
    && oe.value.pushFn == ne.value.pushFn && oe.value.spanName == ne.value.spanName
    && oe.value.spanKind == ne.value.spanKind
    && oe.value.timingForm == ne.value.timingForm && oe.value.dropWhen == ne.value.dropWhen
    && AttrsKept(oe.value.attributes, ne.value.attributes)
    && Included(oe.value.enrichers, ne.value.enrichers)
  }

  predicate LabelsKept(ol: seq<Label>, nl: seq<Label>) {
    forall l | l in ol :: First(nl, LabelKey, l.key).Some? && First(nl, LabelKey, l.key).value.source == l.source
  }

  predicate MetricSame(o: Metric, n: Metric) {
    o.name == n.name && o.kind == n.kind && o.unit == n.unit && o.valueFrom == n.valueFrom &&
    LabelsKept(o.labels, n.labels)
  }

  predicate MetricsKept(om: seq<Metric>, nm: seq<Metric>) {
    forall o | o in om :: First(nm, MetricId, o.id).Some? && MetricSame(o, First(nm, MetricId, o.id).value)
  }

  /** A derivation a reader got from the contract stays one. */
  predicate ResidueKept(op: seq<Property>, np: seq<Property>) {
    var hash := ToHash(np, PropName, PropResidue);
    forall o | o in op :: o.name in hash && o.residue == "declared" ==> hash[o.name] == "declared"
  }

  predicate PropertySame(o: Property, n: Property) {
    && o.expose == n.expose && o.kind == n.kind && o.ffi == n.ffi
    && (o.kfilter == "" ==> n.kfilter == "")
    && (o.cap.Some? && n.cap.Some? ==> o.cap.value <= n.cap.value)
  }

  predicate PropertiesKept(op: seq<Property>, np: seq<Property>) {
    forall o | o in op :: First(np, PropName, o.name).Some? && PropertySame(o, First(np, PropName, o.name).value)
  }

  predicate ConsumerKept(oc: Option<Consumer>, nc: Option<Consumer>) {
    oc.Some? ==>
    && nc.Some?
    && oc.value.drainFn == nc.value.drainFn && oc.value.toSpanFn == nc.value.toSpanFn
    && ResidueKept(oc.value.properties, nc.value.properties)
    && PropertiesKept(oc.value.properties, nc.value.properties)
  }

  predicate ChannelKept(o: Channel, n: Channel) {
    && o.recordStruct == n.recordStruct && o.ringbufMap == n.ringbufMap
    && FieldsKept(o.fields, n.fields)
    && n.recordMinBytes <= o.recordMinBytes
    && Included(o.producers, n.producers)
    && EgressKept(o.egress, n.egress)
    && MetricsKept(o.metrics, n.metrics)
    && ConsumerKept(o.consumer, n.consumer)
  }

  predicate Silent(old_: Contract, new_: Contract) {
    forall id | id in old_ :: id in new_ && ChannelKept(old_[id], new_[id])
  }

  // ----- the gate -----

  method Violations(old_: Contract, new_: Contract) returns (v: seq<Violation>)
    ensures v == [] <==> Silent(old_, new_)
  {
    v := [];
    var ids := old_.Keys;
    while ids != {}
      invariant ids <= old_.Keys
      invariant v == [] <==>
                forall id | id in old_ && id !in ids :: id in new_ && ChannelKept(old_[id], new_[id])
    {
      var id :| id in ids;
      ids := ids - {id};
      if id !in new_ {
        v := v + [Violation(id, "channel removed", "")];
      } else {
        var w := ChannelViolations(id, old_[id], new_[id]);
        v := v + w;
      }
    }
  }

  method ChannelViolations(id: string, och: Channel, nch: Channel) returns (v: seq<Violation>)
    ensures v == [] <==> ChannelKept(och, nch)
  {
    v := [];
    if och.recordStruct != nch.recordStruct { v := v + [Violation(id, "record_struct changed", "")]; }
    if och.ringbufMap != nch.ringbufMap { v := v + [Violation(id, "ringbuf_map changed", "")]; }
    var f := FieldViolations(id, och.fields, nch.fields);
    v := v + f;
    if nch.recordMinBytes > och.recordMinBytes { v := v + [Violation(id, "record_min_bytes rose", "")]; }
    var p := Missing(id, "producer gone", och.producers, nch.producers);
    v := v + p;
    var e := EgressViolations(id, och.egress, nch.egress);
    v := v + e;
    var r := ResidueViolations(id, och.consumer, nch.consumer);
    v := v + r;
    var m := MetricViolations(id, och.metrics, nch.metrics);
    v := v + m;
    var c := ConsumerViolations(id, och.consumer, nch.consumer);
    v := v + c;
  }

  method FieldViolations(id: string, of: seq<FieldTerm>, nf: seq<FieldTerm>) returns (v: seq<Violation>)
    ensures v == [] <==> FieldsKept(of, nf)
  {
    v := [];
    var removed := false;
    for i := 0 to |of|
      invariant v == [] <==> !removed
      invariant removed <==> exists o | o in of[..i] :: First(nf, FieldName, o.name).None?
    {
      if First(nf, FieldName, of[i].name).None? {
        removed := true;
        v := v + [Violation(id, "field removed", of[i].name)];
      }
    }
    assert of[..|of|] == of;
    var inOrder := |of| <= |nf| && forall i :: 0 <= i < |of| ==> of[i].name == nf[i].name;
    if !inOrder && !removed {
      v := v + [Violation(id, "fields reordered", "")];
    }
    var changed := FieldChanges(id, of, nf);
    v := v + changed;
  }

  /** The comparison of every field that is still there. */
  method FieldChanges(id: string, of: seq<FieldTerm>, nf: seq<FieldTerm>) returns (v: seq<Violation>)
    ensures v == [] <==> forall o | o in of ::
              First(nf, FieldName, o.name).None? || FieldSame(o, First(nf, FieldName, o.name).value)
  {
    v := [];
    for i := 0 to |of|
      invariant v == [] <==> forall o | o in of[..i] ::
                  First(nf, FieldName, o.name).None? || FieldSame(o, First(nf, FieldName, o.name).value)
    {
      var o := of[i];
      var found := First(nf, FieldName, o.name);
      if found.Some? {
        var n := found.value;
        if o.offset != n.offset { v := v + [Violation(id, "field offset changed", o.name)]; }
        if o.bytes != n.bytes { v := v + [Violation(id, "field bytes changed", o.name)]; }
        if o.ctype != n.ctype { v := v + [Violation(id, "field ctype changed", o.name)]; }
        if o.count != n.count { v := v + [Violation(id, "field count changed", o.name)]; }
        if o.expose != n.expose && o.expose != "" { v := v + [Violation(id, "field expose changed", o.name)]; }
      }
    }
  }

  method Missing(id: string, term: string, olds: seq<string>, news: seq<string>) returns (v: seq<Violation>)
    ensures v == [] <==> Included(olds, news)
  {
    v := [];
    for i := 0 to |olds|
      invariant v == [] <==> forall x | x in olds[..i] :: x in news
    {
      if olds[i] !in news { v := v + [Violation(id, term, olds[i])]; }
    }
  }

  method EgressViolations(id: string, oe: Option<Egress>, ne: Option<Egress>) returns (v: seq<Violation>)
    ensures v == [] <==> EgressKept(oe, ne)
  {
    v := [];
    if oe.None? { return; }
    if ne.None? { return [Violation(id, "egress removed", "")]; }
    var o, n := oe.value, ne.value;
    if o.pushFn != n.pushFn { v := v + [Violation(id, "egress push_fn changed", "")]; }
    if o.spanName != n.spanName { v := v + [Violation(id, "egress span_name changed", "")]; }
    if o.spanKind != n.spanKind { v := v + [Violation(id, "egress span_kind changed", "")]; }
    var a := AttrViolations(id, o.attributes, n.attributes);
    v := v + a;
    if o.timingForm != n.timingForm { v := v + [Violation(id, "egress timing_form changed", "")]; }
    if o.dropWhen != n.dropWhen { v := v + [Violation(id, "egress drop_when changed", "")]; }
    var m := Missing(id, "enricher gone", o.enrichers, n.enrichers);
    v := v + m;
  }

  method AttrViolations(id: string, oa: seq<Attr>, na: seq<Attr>) returns (v: seq<Violation>)
    ensures v == [] <==> AttrsKept(oa, na)
  {
    v := [];
    var hash := ToHash(na, AttrKey, AttrPresent);
    for i := 0 to |oa|
      invariant v == [] <==> forall a | a in oa[..i] :: a.key in hash
    {
      if oa[i].key !in hash { v := v + [Violation(id, "attribute removed", oa[i].key)]; }
    }
    assert oa[..|oa|] == oa;
    ghost var before := v;
    for i := 0 to |oa|
      invariant v == [] <==> (before == [] &&
                forall a | a in oa[..i] :: a.key in hash && a.Rule? ==> hash[a.key] == a.present)
    {
      if oa[i].Rule? && oa[i].key in hash && hash[oa[i].key] != oa[i].present {
        v := v + [Violation(id, "attribute presence changed", oa[i].key)];
      }
    }
  }

  method ResidueViolations(id: string, oc: Option<Consumer>, nc: Option<Consumer>) returns (v: seq<Violation>)
    ensures v == [] <==> (oc.Some? && nc.Some? ==> ResidueKept(oc.value.properties, nc.value.properties))
  {
    v := [];
    if oc.None? || nc.None? { return; }
    var op := oc.value.properties;
    var hash := ToHash(nc.value.properties, PropName, PropResidue);
    for i := 0 to |op|
      invariant v == [] <==>
                forall o | o in op[..i] :: o.name in hash && o.residue == "declared" ==> hash[o.name] == "declared"
    {
      var o := op[i];
      if o.name in hash && o.residue != hash[o.name] && o.residue != "" && o.residue == "declared" {
        v := v + [Violation(id, "property no longer declared", o.name)];
      }
    }
  }

  method MetricViolations(id: string, om: seq<Metric>, nm: seq<Metric>) returns (v: seq<Violation>)
    ensures v == [] <==> MetricsKept(om, nm)
  {
    v := [];
    for i := 0 to |om|
      invariant v == [] <==> forall o | o in om[..i] :: First(nm, MetricId, o.id).Some?
    {
      if First(nm, MetricId, om[i].id).None? { v := v + [Violation(id, "metric removed", om[i].id)]; }
    }
    assert om[..|om|] == om;
    ghost var before := v;
    for i := 0 to |om|
      invariant v == [] <==> (before == [] &&
                forall o | o in om[..i] ::
                  First(nm, MetricId, o.id).None? || MetricSame(o, First(nm, MetricId, o.id).value))
    {
      var o := om[i];
      var found := First(nm, MetricId, o.id);
      if found.Some? {
        var n := found.value;
        if o.name != n.name { v := v + [Violation(id, "metric name changed", o.id)]; }
        if o.kind != n.kind { v := v + [Violation(id, "metric kind changed", o.id)]; }
        if o.unit != n.unit { v := v + [Violation(id, "metric unit changed", o.id)]; }
        if o.valueFrom != n.valueFrom { v := v + [Violation(id, "metric value_from changed", o.id)]; }
        var l := LabelViolations(id, o.labels, n.labels);
        v := v + l;
      }
    }
  }

  method LabelViolations(id: string, ol: seq<Label>, nl: seq<Label>) returns (v: seq<Violation>)
    ensures v == [] <==> LabelsKept(ol, nl)
  {
    v := [];
    for i := 0 to |ol|
      invariant v == [] <==> forall l | l in ol[..i] :: First(nl, LabelKey, l.key).Some?
    {
      if First(nl, LabelKey, ol[i].key).None? { v := v + [Violation(id, "label lost", ol[i].key)]; }
    }
    assert ol[..|ol|] == ol;
    ghost var before := v;
    for i := 0 to |ol|
      invariant v == [] <==> (before == [] &&
                forall l | l in ol[..i] ::
                  First(nl, LabelKey, l.key).None? || First(nl, LabelKey, l.key).value.source == l.source)
    {
      var found := First(nl, LabelKey, ol[i].key);
      if found.Some? && found.value.source != ol[i].source {
        v := v + [Violation(id, "label reads another property", ol[i].key)];
      }
    }
  }

  method ConsumerViolations(id: string, oc: Option<Consumer>, nc: Option<Consumer>) returns (v: seq<Violation>)
    ensures oc.None? ==> v == []
    ensures oc.Some? && nc.None? ==> v != []
    ensures oc.Some? && nc.Some? ==>
              (v == [] <==> oc.value.drainFn == nc.value.drainFn && oc.value.toSpanFn == nc.value.toSpanFn &&
                            PropertiesKept(oc.value.properties, nc.value.properties))
  {
    v := [];
    if oc.None? { return; }
    if nc.None? { return [Violation(id, "typed consumer withdrawn", "")]; }
    if oc.value.drainFn != nc.value.drainFn { v := v + [Violation(id, "consumer drain_fn changed", "")]; }
    if oc.value.toSpanFn != nc.value.toSpanFn { v := v + [Violation(id, "consumer to_span_fn changed", "")]; }
    var p := PropertyViolations(id, oc.value.properties, nc.value.properties);
    v := v + p;
  }

  method PropertyViolations(id: string, op: seq<Property>, np: seq<Property>) returns (v: seq<Violation>)
    ensures v == [] <==> PropertiesKept(op, np)
  {
    v := [];
    for i := 0 to |op|
      invariant v == [] <==> forall o | o in op[..i] :: First(np, PropName, o.name).Some?
    {
      if First(np, PropName, op[i].name).None? { v := v + [Violation(id, "property removed", op[i].name)]; }
    }
    assert op[..|op|] == op;
    ghost var before := v;
    for i := 0 to |op|
      invariant v == [] <==> (before == [] &&
                forall o | o in op[..i] ::
                  First(np, PropName, o.name).None? || PropertySame(o, First(np, PropName, o.name).value))
    {
      var o := op[i];
      var found := First(np, PropName, o.name);
      if found.Some? {
        var n := found.value;
        if o.expose != n.expose { v := v + [Violation(id, "property expose changed", o.name)]; }
        if o.kind != n.kind { v := v + [Violation(id, "property kind changed", o.name)]; }
        if o.ffi != n.ffi { v := v + [Violation(id, "property ffi changed", o.name)]; }
        if o.kfilter == "" && n.kfilter != "" { v := v + [Violation(id, "property gained kfilter", o.name)]; }
        if o.cap.Some? && n.cap.Some? && n.cap.value < o.cap.value {
          v := v + [Violation(id, "property cap shrank", o.name)];
        }
      }
    }
  }

  // ----- silence is a preorder -----

  /** Rows have unique names. */
  ghost predicate NamedChannel(c: Channel) {
    && UniqueKeys(c.fields, FieldName)
    && (c.egress.Some? ==> UniqueKeys(c.egress.value.attributes, AttrKey))
    && (c.consumer.Some? ==> UniqueKeys(c.consumer.value.properties, PropName))
    && UniqueKeys(c.metrics, MetricId)
    && forall m | m in c.metrics :: UniqueKeys(m.labels, LabelKey)
  }

  ghost predicate WellNamed(c: Contract) {
    forall id | id in c :: NamedChannel(c[id])
  }

  /** As the generator projects it: a capacity exactly for derived properties, and no bare rows. */
  ghost predicate WellFormedChannel(c: Channel) {
    && NamedChannel(c)
    && (c.consumer.Some? ==> forall p | p in c.consumer.value.properties :: p.cap.Some? <==> p.kind == "derived")
    && (c.egress.Some? ==> forall a | a in c.egress.value.attributes :: a.Rule?)
  }

  ghost predicate WellFormed(c: Contract) {
    forall id | id in c :: WellFormedChannel(c[id])
  }

  lemma {:induction false} OwnRow<T>(rows: seq<T>, key: T -> string, x: T)
    requires UniqueKeys(rows, key) && x in rows
    ensures First(rows, key, key(x)) == Some(x)
  {
    var i :| 0 <= i < |rows| && rows[i] == x;
    FirstIsOnly(rows, key, i);
  }

  lemma {:induction false} OwnEntry<T, V>(rows: seq<T>, key: T -> string, val: T -> V, x: T)
    requires UniqueKeys(rows, key) && x in rows
    ensures key(x) in ToHash(rows, key, val) && ToHash(rows, key, val)[key(x)] == val(x)
  {
    var i :| 0 <= i < |rows| && rows[i] == x;
    HashOfUnique(rows, key, val, i);
  }

  lemma FieldsReflexive(fs: seq<FieldTerm>)
    requires UniqueKeys(fs, FieldName)
    ensures FieldsKept(fs, fs)
  {
    forall f | f in fs ensures First(fs, FieldName, f.name) == Some(f) { OwnRow(fs, FieldName, f); }
  }

  lemma MetricsReflexive(ms: seq<Metric>)
    requires UniqueKeys(ms, MetricId) && forall m | m in ms :: UniqueKeys(m.labels, LabelKey)
    ensures MetricsKept(ms, ms)
  {
    forall m | m in ms ensures First(ms, MetricId, m.id) == Some(m) && LabelsKept(m.labels, m.labels) {
      OwnRow(ms, MetricId, m);
      forall l | l in m.labels ensures First(m.labels, LabelKey, l.key) == Some(l) { OwnRow(m.labels, LabelKey, l); }
    }
  }

  lemma AttrsKeptReflexive(attrs: seq<Attr>)
    requires UniqueKeys(attrs, AttrKey)
    ensures AttrsKept(attrs, attrs)
  {
    forall a | a in attrs
      ensures a.key in ToHash(attrs, AttrKey, AttrPresent)
      ensures ToHash(attrs, AttrKey, AttrPresent)[a.key] == AttrPresent(a)
    {
      OwnEntry(attrs, AttrKey, AttrPresent, a);
    }
  }

  lemma PropertiesReflexive(ps: seq<Property>)
    requires UniqueKeys(ps, PropName)
    ensures ResidueKept(ps, ps) && PropertiesKept(ps, ps)
  {
    forall p | p in ps
      ensures First(ps, PropName, p.name) == Some(p)
      ensures p.name in ToHash(ps, PropName, PropResidue) && ToHash(ps, PropName, PropResidue)[p.name] == p.residue
    {
      OwnRow(ps, PropName, p);
      OwnEntry(ps, PropName, PropResidue, p);
    }
  }

  lemma ChannelKeptReflexive(c: Channel)
    requires NamedChannel(c)
    ensures ChannelKept(c, c)
  {
    FieldsReflexive(c.fields);
    MetricsReflexive(c.metrics);
    if c.egress.Some? { AttrsKeptReflexive(c.egress.value.attributes); }
    if c.consumer.Some? { PropertiesReflexive(c.consumer.value.properties); }
  }

  /** Fields are matched by position as well as by name. */
  lemma FieldsKeptInPlace(of: seq<FieldTerm>, nf: seq<FieldTerm>)
    requires UniqueKeys(nf, FieldName) && FieldsKept(of, nf)
    ensures |of| <= |nf| && forall i :: 0 <= i < |of| ==> of[i].name == nf[i].name && FieldSame(of[i], nf[i])
  {
    forall i | 0 <= i < |of| ensures FieldSame(of[i], nf[i]) {
      FirstIsOnly(nf, FieldName, i);
      assert of[i] in of;
    }
  }

  lemma FieldsTransitive(a: seq<FieldTerm>, b: seq<FieldTerm>, c: seq<FieldTerm>)
    requires FieldsKept(a, b) && FieldsKept(b, c)
    ensures FieldsKept(a, c)
  {
    forall o | o in a
      ensures First(c, FieldName, o.name).Some? && FieldSame(o, First(c, FieldName, o.name).value)
    {
      var y := First(b, FieldName, o.name).value;
      assert y in b && y.name == o.name;
    }
  }

  lemma MetricsTransitive(a: seq<Metric>, b: seq<Metric>, c: seq<Metric>)
    requires MetricsKept(a, b) && MetricsKept(b, c)
    ensures MetricsKept(a, c)
  {
    forall x | x in a
      ensures First(c, MetricId, x.id).Some? && MetricSame(x, First(c, MetricId, x.id).value)
    {
      var y := First(b, MetricId, x.id).value;
      var z := First(c, MetricId, y.id).value;
      forall l | l in x.labels
        ensures First(z.labels, LabelKey, l.key).Some? && First(z.labels, LabelKey, l.key).value.source == l.source
      {
        var m := First(y.labels, LabelKey, l.key).value;
      }
    }
  }

  lemma ResidueTransitive(a: seq<Property>, b: seq<Property>, c: seq<Property>)
    requires UniqueKeys(b, PropName) && PropertiesKept(a, b)
    requires ResidueKept(a, b) && ResidueKept(b, c)
    ensures ResidueKept(a, c)
  {
    var hash := ToHash(c, PropName, PropResidue);
    forall x | x in a && x.name in hash && x.residue == "declared" ensures hash[x.name] == "declared" {
      var y := First(b, PropName, x.name).value;
      OwnEntry(b, PropName, PropResidue, y);
    }
  }

  // ----- and exactly when it is transitive -----

  /** Every property with a capacity in the one has a capacity in the other. */
  predicate CapsStay(a: seq<Property>, b: seq<Property>) {
    forall p | p in a && p.cap.Some? :: First(b, PropName, p.name).Some? ==> First(b, PropName, p.name).value.cap.Some?
  }

  /** No row whose rule is null becomes a bare one. */
  predicate RulesStay(a: seq<Attr>, b: seq<Attr>) {
    forall x, y | x in a && y in b && x.key == y.key && x.Rule? && x.present.None? :: y.Rule?
  }

  lemma PropertiesTransitive(a: seq<Property>, b: seq<Property>, c: seq<Property>)
    requires CapsStay(a, b) && PropertiesKept(a, b) && PropertiesKept(b, c)
    ensures PropertiesKept(a, c)
  {
    forall x | x in a
      ensures First(c, PropName, x.name).Some? && PropertySame(x, First(c, PropName, x.name).value)
    {
      var y := First(b, PropName, x.name).value;
      var z := First(c, PropName, y.name).value;
    }
  }

  lemma AttrsTransitive(a: seq<Attr>, b: seq<Attr>, c: seq<Attr>)
    requires UniqueKeys(b, AttrKey) && RulesStay(a, b) && AttrsKept(a, b) && AttrsKept(b, c)
    ensures AttrsKept(a, c)
  {
    forall x | x in a
      ensures x.key in ToHash(c, AttrKey, AttrPresent)
      ensures x.Rule? ==> ToHash(c, AttrKey, AttrPresent)[x.key] == x.present
    {
      var y :| y in b && AttrKey(y) == x.key;
      OwnEntry(b, AttrKey, AttrPresent, y);
    }
  }

  predicate ChannelNoGap(a: Channel, b: Channel) {
    && (a.consumer.Some? && b.consumer.Some? ==> CapsStay(a.consumer.value.properties, b.consumer.value.properties))
    && (a.egress.Some? && b.egress.Some? ==> RulesStay(a.egress.value.attributes, b.egress.value.attributes))
  }

  predicate NoGap(a: Contract, b: Contract) {
    forall id | id in a && id in b :: ChannelNoGap(a[id], b[id])
  }

  lemma ChannelKeptTransitive(a: Channel, b: Channel, c: Channel)
    requires NamedChannel(b) && ChannelNoGap(a, b) && ChannelKept(a, b) && ChannelKept(b, c)
    ensures ChannelKept(a, c)
  {
    FieldsTransitive(a.fields, b.fields, c.fields);
    MetricsTransitive(a.metrics, b.metrics, c.metrics);
    if a.egress.Some? {
      AttrsTransitive(a.egress.value.attributes, b.egress.value.attributes, c.egress.value.attributes);
    }
    if a.consumer.Some? {
      var ps, qs, rs := a.consumer.value.properties, b.consumer.value.properties, c.consumer.value.properties;
      PropertiesTransitive(ps, qs, rs);
      ResidueTransitive(ps, qs, rs);
    }
  }

  /** The list with one row replaced by another of the same name. */
  lemma ReplacedRow<T>(rows: seq<T>, key: T -> string, i: nat, x: T)
    requires UniqueKeys(rows, key) && i < |rows| && key(x) == key(rows[i])
    ensures UniqueKeys(rows[i := x], key)
    ensures forall j :: 0 <= j < |rows| ==>
              First(rows[i := x], key, key(rows[j])) == Some(if j == i then x else rows[j])
  {
    var now := rows[i := x];
    assert forall j :: 0 <= j < |rows| ==> key(now[j]) == key(rows[j]);
    forall j | 0 <= j < |rows| ensures First(now, key, key(rows[j])) == Some(if j == i then x else rows[j]) {
      FirstIsOnly(now, key, j);
    }
  }

  /** A capacity that is missing lets the next release set any: here one less than the old one. */
  lemma CapShrinks(a: seq<Property>, b: seq<Property>, p: Property) returns (c: seq<Property>)
    requires UniqueKeys(b, PropName) && PropertiesKept(a, b) && p in a && p.cap.Some?
    requires First(b, PropName, p.name).value.cap.None?
    ensures PropertiesKept(b, c) && ResidueKept(b, c) && !PropertiesKept(a, c)
  {
    var y := First(b, PropName, p.name).value;
    var i :| 0 <= i < |b| && b[i] == y;
    var z := y.(cap := Some(p.cap.value - 1));
    c := b[i := z];
    ReplacedRow(b, PropName, i, z);
    forall o | o in b
      ensures First(c, PropName, o.name).Some? && PropertySame(o, First(c, PropName, o.name).value)
      ensures o.name in ToHash(c, PropName, PropResidue) && ToHash(c, PropName, PropResidue)[o.name] == o.residue
    {
      var j :| 0 <= j < |b| && b[j] == o;
      OwnEntry(c, PropName, PropResidue, c[j]);
    }
    FirstIsOnly(b, PropName, i);
    assert First(c, PropName, p.name) == Some(z);
  }

  /** A bare row lets the next release state any rule. */
  lemma RuleAppears(a: seq<Attr>, b: seq<Attr>, x: Attr, y: Attr) returns (c: seq<Attr>)
    requires UniqueKeys(b, AttrKey) && x in a && y in b && x.key == y.key && x.Rule? && x.present.None? && y.Bare?
    ensures AttrsKept(b, c) && !AttrsKept(a, c)
  {
    var i :| 0 <= i < |b| && b[i] == y;
    var z := Rule(y.key, Some("always"));
    c := b[i := z];
    ReplacedRow(b, AttrKey, i, z);
    var hash := ToHash(c, AttrKey, AttrPresent);
    forall o | o in b ensures o.key in hash && (o.Rule? ==> hash[o.key] == o.present) {
      var j :| 0 <= j < |b| && b[j] == o;
      OwnEntry(c, AttrKey, AttrPresent, c[j]);
    }
    OwnEntry(c, AttrKey, AttrPresent, c[i]);
  }

  /** A gap in a channel can be used: some channel keeps the second and does not keep the first. */
  lemma ChannelGap(a: Channel, b: Channel) returns (c: Channel)
    requires NamedChannel(b) && ChannelKept(a, b) && !ChannelNoGap(a, b)
    ensures ChannelKept(b, c) && !ChannelKept(a, c)
  {
    ChannelKeptReflexive(b);
    if a.consumer.Some? && !CapsStay(a.consumer.value.properties, b.consumer.value.properties) {
      var ps, qs := a.consumer.value.properties, b.consumer.value.properties;
      var p :| p in ps && p.cap.Some? &&
               First(qs, PropName, p.name).Some? && First(qs, PropName, p.name).value.cap.None?;
      var rs := CapShrinks(ps, qs, p);
      c := b.(consumer := Some(b.consumer.value.(properties := rs)));
    } else {
      var xs, ys := a.egress.value.attributes, b.egress.value.attributes;
      var x, y :| x in xs && y in ys && x.key == y.key && x.Rule? && x.present.None? && !y.Rule?;
      var zs := RuleAppears(xs, ys, x, y);
      c := b.(egress := Some(b.egress.value.(attributes := zs)));
    }
  }

  lemma GapIsUsed(a: Contract, b: Contract) returns (c: Contract)
    requires WellNamed(b) && Silent(a, b) && !NoGap(a, b)
    ensures Silent(b, c) && !Silent(a, c)
  {
    var id :| id in a && id in b && !ChannelNoGap(a[id], b[id]);
    var ch := ChannelGap(a[id], b[id]);
    c := b[id := ch];
    forall k | k in b && k != id ensures ChannelKept(b[k], c[k]) { ChannelKeptReflexive(b[k]); }
    assert !ChannelKept(a[id], c[id]);
  }

  /**
   For a silent step from `a` to `b`: whatever is silent after `b` is silent after `a`, if and only if
   every property with a capacity in `a` has one in `b`, and no null rule of `a` is a bare row of `b`.
   */
  lemma TransitiveExactlyWhen(a: Contract, b: Contract)
    requires WellNamed(b) && Silent(a, b)
    ensures (forall c: Contract :: Silent(b, c) ==> Silent(a, c)) <==> NoGap(a, b)
  {
    if NoGap(a, b) {
      forall c: Contract | Silent(b, c) ensures Silent(a, c) { SilentSteps(a, b, c); }
    } else {
      var c := GapIsUsed(a, b);
      assert Silent(b, c) && !Silent(a, c);
    }
  }

  lemma SilentSteps(a: Contract, b: Contract, c: Contract)
    requires WellNamed(b) && NoGap(a, b) && Silent(a, b) && Silent(b, c)
    ensures Silent(a, c)
  {
    forall id | id in a ensures id in c && ChannelKept(a[id], c[id]) {
      ChannelKeptTransitive(a[id], b[id], c[id]);
    }
  }

  lemma FormedHasNoGap(a: Channel, b: Channel)
    requires WellFormedChannel(a) && WellFormedChannel(b) && ChannelKept(a, b)
    ensures ChannelNoGap(a, b)
  {
  }

  /** Silence is reflexive and transitive on well-formed contracts. */
  lemma SilentIsPreorder(a: Contract, b: Contract, c: Contract)
    requires WellFormed(a) && WellFormed(b) && WellFormed(c)
    ensures Silent(a, a)
    ensures Silent(a, b) && Silent(b, c) ==> Silent(a, c)
  {
    forall id | id in a ensures ChannelKept(a[id], a[id]) { ChannelKeptReflexive(a[id]); }
    if Silent(a, b) && Silent(b, c) {
      forall id | id in a && id in b ensures ChannelNoGap(a[id], b[id]) { FormedHasNoGap(a[id], b[id]); }
      SilentSteps(a, b, c);
    }
  }

  /** Releases, oldest first, each let through by the gate. */
  ghost predicate History(h: seq<Contract>) {
    forall k {:trigger h[k]} :: 0 <= k < |h| ==> WellFormed(h[k]) && (k > 0 ==> Silent(h[k - 1], h[k]))
  }

  /** Checking each step of a history checks its last contract against every earlier one. */
  lemma {:induction false} StepsReachBaseline(h: seq<Contract>, i: nat, j: nat)
    requires i <= j < |h| && History(h)
    ensures Silent(h[i], h[j])
    decreases j
  {
    if i == j {
      SilentIsPreorder(h[i], h[i], h[i]);
    } else {
      StepsReachBaseline(h, i, j - 1);
      SilentIsPreorder(h[i], h[j - 1], h[j]);
    }
  }

  // ----- every published term is compared -----

  /** One field changed in place. */
  lemma {:induction false} FieldChangeSeen(ch: Channel, i: nat, f: FieldTerm)
    requires NamedChannel(ch) && i < |ch.fields| && f.name == ch.fields[i].name
    ensures var o := ch.fields[i];
            ChannelKept(ch, ch.(fields := ch.fields[i := f])) <==>
            f.offset == o.offset && f.bytes == o.bytes && f.ctype == o.ctype && f.count == o.count &&
            (o.expose == "" || f.expose == o.expose)
  {
    ChannelKeptReflexive(ch);
    ReplacedRow(ch.fields, FieldName, i, f);
    var nf := ch.fields[i := f];
    forall o | o in ch.fields
      ensures First(nf, FieldName, o.name) == Some(if o.name == f.name then f else o)
    {
      var j :| 0 <= j < |ch.fields| && ch.fields[j] == o;
    }
    assert ch.fields[i] in ch.fields;
  }

  /** One metric changed in place, its labels left alone. */
  lemma {:induction false} MetricChangeSeen(ch: Channel, i: nat, m: Metric)
    requires NamedChannel(ch) && i < |ch.metrics| && m.id == ch.metrics[i].id && m.labels == ch.metrics[i].labels
    ensures var o := ch.metrics[i];
            ChannelKept(ch, ch.(metrics := ch.metrics[i := m])) <==>
            m.name == o.name && m.kind == o.kind && m.unit == o.unit && m.valueFrom == o.valueFrom
  {
    ChannelKeptReflexive(ch);
    ReplacedMetric(ch.metrics, i, m);
    forall x | x in ch.metrics ensures LabelsKept(x.labels, x.labels) {
      assert First(ch.metrics, MetricId, x.id).Some? && MetricSame(x, First(ch.metrics, MetricId, x.id).value);
      OwnRow(ch.metrics, MetricId, x);
    }
    assert ch.metrics[i] in ch.metrics;
  }

  lemma {:induction false} ReplacedMetric(ms: seq<Metric>, i: nat, m: Metric)
    requires UniqueKeys(ms, MetricId) && i < |ms| && m.id == ms[i].id
    ensures forall o | o in ms :: First(ms[i := m], MetricId, o.id) == Some(if o.id == m.id then m else o)
    ensures forall o | o in ms && o.id == m.id :: o == ms[i]
  {
    ReplacedRow(ms, MetricId, i, m);
    forall o | o in ms
      ensures First(ms[i := m], MetricId, o.id) == Some(if o.id == m.id then m else o)
      ensures o.id == m.id ==> o == ms[i]
    {
      var j :| 0 <= j < |ms| && ms[j] == o;
    }
  }

  /** The source of one label changed. */
  lemma {:induction false} LabelChangeSeen(ch: Channel, i: nat, k: nat, l: Label)
    requires NamedChannel(ch) && i < |ch.metrics| && k < |ch.metrics[i].labels|
    requires l.key == ch.metrics[i].labels[k].key
    ensures var m := ch.metrics[i].(labels := ch.metrics[i].labels[k := l]);
            ChannelKept(ch, ch.(metrics := ch.metrics[i := m])) <==> l.source == ch.metrics[i].labels[k].source
  {
    ChannelKeptReflexive(ch);
    var o := ch.metrics[i];
    var m := o.(labels := o.labels[k := l]);
    assert o in ch.metrics;
    ReplacedMetric(ch.metrics, i, m);
    forall x | x in ch.metrics ensures LabelsKept(x.labels, x.labels) {
      assert First(ch.metrics, MetricId, x.id).Some? && MetricSame(x, First(ch.metrics, MetricId, x.id).value);
      OwnRow(ch.metrics, MetricId, x);
    }
    ReplacedRow(o.labels, LabelKey, k, l);
    forall x | x in o.labels ensures First(m.labels, LabelKey, x.key) == Some(if x.key == l.key then l else x) {
      var j :| 0 <= j < |o.labels| && o.labels[j] == x;
    }
    assert o.labels[k] in o.labels;
  }

  lemma {:induction false} PropertyRowSeen(ps: seq<Property>, i: nat, p: Property)
    requires UniqueKeys(ps, PropName) && i < |ps| && p.name == ps[i].name
    ensures var o := ps[i];
            PropertiesKept(ps, ps[i := p]) <==>
            && p.expose == o.expose && p.kind == o.kind && p.ffi == o.ffi
            && !(o.kfilter == "" && p.kfilter != "")
            && !(o.cap.Some? && p.cap.Some? && p.cap.value < o.cap.value)
  {
    var np := ps[i := p];
    ReplacedRow(ps, PropName, i, p);
    forall x | x in ps
      ensures First(np, PropName, x.name) == Some(if x.name == p.name then p else x)
      ensures x.name == p.name ==> x == ps[i]
    {
      var j :| 0 <= j < |ps| && ps[j] == x;
    }
    assert ps[i] in ps;
  }

  lemma {:induction false} ResidueRowSeen(ps: seq<Property>, i: nat, p: Property)
    requires UniqueKeys(ps, PropName) && i < |ps| && p.name == ps[i].name
    ensures ResidueKept(ps, ps[i := p]) <==> !(ps[i].residue == "declared" && p.residue != "declared")
  {
    var np := ps[i := p];
    ReplacedRow(ps, PropName, i, p);
    var hash := ToHash(np, PropName, PropResidue);
    forall x | x in ps
      ensures x.name == p.name ==> x == ps[i]
      ensures x.name in hash && hash[x.name] == if x.name == p.name then p.residue else x.residue
    {
      var j :| 0 <= j < |ps| && ps[j] == x;
      OwnEntry(np, PropName, PropResidue, np[j]);
    }
    assert ps[i] in ps;
  }

  /** One property of the typed consumer changed in place. */
  lemma {:induction false} PropertyChangeSeen(ch: Channel, i: nat, p: Property)
    requires NamedChannel(ch) && ch.consumer.Some? && i < |ch.consumer.value.properties|
    requires p.name == ch.consumer.value.properties[i].name
    ensures var ps := ch.consumer.value.properties; var o := ps[i];
            ChannelKept(ch, ch.(consumer := Some(ch.consumer.value.(properties := ps[i := p])))) <==>
            && p.expose == o.expose && p.kind == o.kind && p.ffi == o.ffi
            && !(o.kfilter == "" && p.kfilter != "")
            && !(o.cap.Some? && p.cap.Some? && p.cap.value < o.cap.value)
            && !(o.residue == "declared" && p.residue != "declared")
  {
    ChannelKeptReflexive(ch);
    PropertyRowSeen(ch.consumer.value.properties, i, p);
    ResidueRowSeen(ch.consumer.value.properties, i, p);
  }

  lemma {:induction false} AttrRowSeen(xs: seq<Attr>, i: nat, a: Attr)
    requires UniqueKeys(xs, AttrKey) && i < |xs| && a.key == xs[i].key
    ensures AttrsKept(xs, xs[i := a]) <==> xs[i].Bare? || xs[i].present == if a.Rule? then a.present else None
  {
    var na := xs[i := a];
    ReplacedRow(xs, AttrKey, i, a);
    var hash := ToHash(na, AttrKey, AttrPresent);
    forall x | x in xs
      ensures x.key == a.key ==> x == xs[i]
      ensures x.key in hash && hash[x.key] == AttrPresent(if x.key == a.key then a else x)
    {
      var j :| 0 <= j < |xs| && xs[j] == x;
      OwnEntry(na, AttrKey, AttrPresent, na[j]);
    }
    assert xs[i] in xs;
  }

  /** The presence rule of one attribute changed. */
  lemma {:induction false} AttrChangeSeen(ch: Channel, i: nat, a: Attr)
    requires NamedChannel(ch) && ch.egress.Some? && i < |ch.egress.value.attributes|
    requires a.key == ch.egress.value.attributes[i].key
    ensures var xs := ch.egress.value.attributes; var o := xs[i];
            ChannelKept(ch, ch.(egress := Some(ch.egress.value.(attributes := xs[i := a])))) <==>
            o.Bare? || o.present == if a.Rule? then a.present else None
  {
    ChannelKeptReflexive(ch);
    AttrRowSeen(ch.egress.value.attributes, i, a);
  }

  /** The single-valued terms of a channel, its egress and its consumer. */
  lemma {:induction false} PlainChangeSeen(ch: Channel, n: Channel)
    requires NamedChannel(ch) && n.producers == ch.producers && n.fields == ch.fields && n.metrics == ch.metrics
    requires n.egress.Some? == ch.egress.Some? && n.consumer.Some? == ch.consumer.Some?
    requires ch.egress.Some? ==>
               n.egress.value.attributes == ch.egress.value.attributes &&
               n.egress.value.enrichers == ch.egress.value.enrichers
    requires ch.consumer.Some? ==> n.consumer.value.properties == ch.consumer.value.properties
    ensures ChannelKept(ch, n) <==>
            && n.recordStruct == ch.recordStruct && n.ringbufMap == ch.ringbufMap
            && n.recordMinBytes <= ch.recordMinBytes
            && (ch.egress.Some? ==>
                  && n.egress.value.pushFn == ch.egress.value.pushFn
                  && n.egress.value.spanName == ch.egress.value.spanName
                  && n.egress.value.spanKind == ch.egress.value.spanKind
                  && n.egress.value.timingForm == ch.egress.value.timingForm
                  && n.egress.value.dropWhen == ch.egress.value.dropWhen)
            && (ch.consumer.Some? ==>
                  && n.consumer.value.drainFn == ch.consumer.value.drainFn
                  && n.consumer.value.toSpanFn == ch.consumer.value.toSpanFn)
  {
    ChannelKeptReflexive(ch);
  }

  /** Anything published and gone is seen: a producer, a field, the egress, an attribute, an enricher, a metric,
      a label, the consumer, a property. */
  lemma {:induction false} RemovalSeen(o: Channel, n: Channel)
    requires ChannelKept(o, n)
    ensures forall p | p in o.producers :: p in n.producers
    ensures forall f | f in o.fields :: exists g | g in n.fields :: g.name == f.name
    ensures o.egress.Some? ==>
              n.egress.Some? && forall x | x in o.egress.value.enrichers :: x in n.egress.value.enrichers
    ensures o.egress.Some? ==>
              forall a | a in o.egress.value.attributes :: exists b | b in n.egress.value.attributes :: b.key == a.key
    ensures forall m | m in o.metrics :: exists q | q in n.metrics ::
              q.id == m.id && forall l | l in m.labels :: exists k | k in q.labels :: k.key == l.key
    ensures o.consumer.Some? ==> n.consumer.Some?
    ensures o.consumer.Some? ==>
              forall p | p in o.consumer.value.properties ::
                exists q | q in n.consumer.value.properties :: q.name == p.name
  {
    forall f | f in o.fields ensures exists g | g in n.fields :: g.name == f.name {
      var g := First(n.fields, FieldName, f.name).value;
    }
    if o.egress.Some? {
      forall a | a in o.egress.value.attributes
        ensures exists b | b in n.egress.value.attributes :: b.key == a.key
      {
        var b :| b in n.egress.value.attributes && AttrKey(b) == a.key;
      }
    }
    forall m | m in o.metrics
      ensures exists q | q in n.metrics ::
                q.id == m.id && forall l | l in m.labels :: exists k | k in q.labels :: k.key == l.key
    {
      var q := First(n.metrics, MetricId, m.id).value;
      forall l | l in m.labels ensures exists k | k in q.labels :: k.key == l.key {
        var k := First(q.labels, LabelKey, l.key).value;
      }
    }
    if o.consumer.Some? {
      forall p | p in o.consumer.value.properties
        ensures exists q | q in n.consumer.value.properties :: q.name == p.name
      {
        var q := First(n.consumer.value.properties, PropName, p.name).value;
      }
    }
  }

  /** A channel whose consumer reads one property. */
  function Reads(ch: Channel, p: Property): Channel {
    ch.(consumer := Some(Consumer("", "", [p])))
  }

  /** The gap is open between contracts: a capacity that is missing for one release lets the next one
      shrink it unseen. */
  lemma CapacityGap(id: string, ch: Channel, p: Property)
    requires NamedChannel(ch)
    ensures var a := map[id := Reads(ch, p.(cap := Some(16)))];
            var b := map[id := Reads(ch, p.(cap := None))];
            var c := map[id := Reads(ch, p.(cap := Some(8)))];
            WellNamed(a) && WellNamed(b) && WellNamed(c) && Silent(a, b) && Silent(b, c) && !Silent(a, c)
  {
    var x, y, z := p.(cap := Some(16)), p.(cap := None), p.(cap := Some(8));
    OneProperty(ch, x, y);
    OneProperty(ch, y, z);
    OneProperty(ch, x, z);
    var a, b, c := map[id := Reads(ch, x)], map[id := Reads(ch, y)], map[id := Reads(ch, z)];
    assert !ChannelKept(a[id], c[id]);
  }

  /** Two channels that differ in the capacity of the one property they read. */
  lemma OneProperty(ch: Channel, p: Property, q: Property)
    requires NamedChannel(ch) && p == q.(cap := p.cap)
    ensures NamedChannel(Reads(ch, p)) && NamedChannel(Reads(ch, q))
    ensures ChannelKept(Reads(ch, p), Reads(ch, q)) <==> PropertySame(p, q)
  {
    ChannelKeptReflexive(Reads(ch, p));
    assert First([q], PropName, p.name) == Some(q);
    assert p in [p];
    OwnEntry([q], PropName, PropResidue, q);
  }
}
