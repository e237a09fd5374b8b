/**
 Metric cardinality as the record generator computes it: a bound per label, the saturating
 product per metric, the total it refuses above, and the width of a stored label value.
 */
module MetricBounds {
  import opened Common

  const MAX_SERIES: nat := 256
  const SATURATION: nat := 1000000

  datatype Form = BytesStr | BytesInt | RecordStr | RecordInt | CodeName | IntForm

  datatype Entry = Entry(code: int, name: string)
  datatype ValueMap = ValueMap(id: string, authority: string, unknown: string, archInvariant: bool, values: seq<Entry>,
                               btfMode: Option<string>, btfAnchor: string)

  datatype PubField = PubField(name: string, expose: Option<string>)
  datatype Derivation = Derivation(name: string, form: Form, impl: string, cap: int)

  datatype Label = Label(key: string, from: string, stability: string, values: Option<seq<string>>,
                         fallback: Option<string>)
  datatype Metric = Metric(id: string, isHist: bool, bounds: seq<real>, labels: seq<Label>)
  datatype Schema = Schema(fields: seq<PubField>, derived: seq<Derivation>, metrics: seq<Metric>)

  // ----- what a label reads -----

  function FindDerivation(ds: seq<Derivation>, name: string): (r: Option<Derivation>)
    ensures r.Some? ==> r.value in ds && r.value.name == name
  {
    if ds == [] then None else if ds[0].name == name then Some(ds[0]) else FindDerivation(ds[1..], name)
  }

  predicate Exposes(fs: seq<PubField>, name: string) {
    exists i :: 0 <= i < |fs| && fs[i].expose.Some? && fs[i].name == name
  }

  datatype Property = Plain | Computed(d: Derivation)

  /** find_property: an exposed field, or else a derivation. */
  function FindProperty(s: Schema, name: string): Option<Property> {
    if Exposes(s.fields, name) then Some(Plain)
    else match FindDerivation(s.derived, name)
         case None => None
         case Some(d) => Some(Computed(d))
  }

  function FindMap(maps: seq<ValueMap>, id: string): (r: Option<ValueMap>)
    ensures r.Some? ==> r.value in maps
  {
    if maps == [] then None else if maps[0].id == id then Some(maps[0]) else FindMap(maps[1..], id)
  }

  /** The unnamed rendering carries the number along. */
  predicate KeepsNumber(u: string) {
    exists i :: 0 <= i && i + 2 < |u| && u[i] == '%' && u[i + 1] == 'l' && u[i + 2] == 'd'
  }

  // ----- value maps -----

  predicate ValmapOk(m: ValueMap) {
    && m.id != "" && m.authority != "" && m.unknown != "" && m.values != [] && m.archInvariant
    && (forall i :: 0 <= i < |m.values| ==> m.values[i].name != "")
    && (forall i, j :: 0 <= j < i < |m.values| ==>
          m.values[i].code != m.values[j].code && m.values[i].name != m.values[j].name)
    && (m.btfMode.Some? ==> (m.btfMode.value == "names" || m.btfMode.value == "keys") && m.btfAnchor != "")
  }

  method CheckValmap(m: ValueMap) returns (ok: bool)
    ensures ok <==> ValmapOk(m)
    ensures !ok <==>
            || m.id == "" || m.authority == "" || m.unknown == "" || m.values == [] || !m.archInvariant
            || (exists i :: 0 <= i < |m.values| && m.values[i].name == "")
            || (exists i, j :: 0 <= j < i < |m.values| &&
                  (m.values[i].code == m.values[j].code || m.values[i].name == m.values[j].name))
            || (m.btfMode.Some? && ((m.btfMode.value != "names" && m.btfMode.value != "keys") || m.btfAnchor == ""))
  {
    if m.id == "" || m.authority == "" || m.unknown == "" || m.values == [] || !m.archInvariant { return false; }
    for i := 0 to |m.values|
      invariant forall k :: 0 <= k < i ==> m.values[k].name != ""
      invariant forall k, j :: 0 <= j < k < i ==>
                  m.values[k].code != m.values[j].code && m.values[k].name != m.values[j].name
    {
      if m.values[i].name == "" { return false; }
      for j := 0 to i
        invariant forall k :: 0 <= k < j ==>
                    m.values[i].code != m.values[k].code && m.values[i].name != m.values[k].name
      {
        if m.values[i].code == m.values[j].code || m.values[i].name == m.values[j].name { return false; }
      }
    }
    if m.btfMode.Some? {
      if m.btfMode.value != "names" && m.btfMode.value != "keys" { return false; }
      if m.btfAnchor == "" { return false; }
    }
    ok := true;
  }

  // ----- the bound on one label -----

  predicate Repeats(vs: seq<string>) {
    exists i, j :: 0 <= j < i < |vs| && vs[i] == vs[j]
  }

  /** A permitted set the generator takes: no empty value, none twice, and a fallback outside it. */
  predicate PermittedSet(vs: seq<string>, fallback: Option<string>) {
    vs != [] && fallback.Some? && fallback.value != "" && "" !in vs && !Repeats(vs) && fallback.value !in vs
  }

  function LabelBound(maps: seq<ValueMap>, s: Schema, l: Label): Option<nat> {
    if l.key == "" || l.from == "" || (l.stability != "semconv" && l.stability != "spinel") then None
    else match FindProperty(s, l.from)
    case None => None
    case Some(p) =>
      if l.values.Some? then
        if PermittedSet(l.values.value, l.fallback) then Some(|l.values.value| + 1) else None
      else if l.fallback.Some? then None
      else if p.Plain? || p.d.form != CodeName then None
      else match FindMap(maps, p.d.impl)
           case None => None
           case Some(m) => if KeepsNumber(m.unknown) then None else Some(|m.values| + 1)
  }

  /** The loop over a permitted set, with its inner loop over what came before. */
  method PermittedSetOk(vs: seq<string>, fallback: Option<string>) returns (ok: bool)
    ensures ok <==> PermittedSet(vs, fallback)
    ensures ok <==> vs != [] && (forall i :: 0 <= i < |vs| ==> vs[i] != "") &&
                    (forall i, j :: 0 <= j < i < |vs| ==> vs[i] != vs[j]) &&
                    fallback.Some? && fallback.value != "" && fallback.value !in vs
  {
    if vs == [] || fallback.None? || fallback.value == "" { return false; }
    for i := 0 to |vs|
      invariant "" !in vs[..i] && fallback.value !in vs[..i]
      invariant forall a, b :: 0 <= b < a < i ==> vs[a] != vs[b]
    {
      if vs[i] == "" { return false; }
      for k := 0 to i
        invariant forall b :: 0 <= b < k ==> vs[i] != vs[b]
      {
        if vs[i] == vs[k] { return false; }
      }
      if vs[i] == fallback.value { return false; }
    }
    assert vs[..|vs|] == vs;
    ok := true;
  }

  method ScanUnknown(u: string) returns (keeps: bool)
    ensures keeps <==> KeepsNumber(u)
  {
    for i := 0 to |u|
      invariant forall k :: 0 <= k < i && k + 2 < |u| ==> !(u[k] == '%' && u[k + 1] == 'l' && u[k + 2] == 'd')
    {
      if i + 2 < |u| && u[i] == '%' && u[i + 1] == 'l' && u[i + 2] == 'd' { return true; }
    }
    keeps := false;
  }

  /** label_bound */
  method BoundLabel(maps: seq<ValueMap>, s: Schema, l: Label) returns (r: Option<nat>)
    ensures r == LabelBound(maps, s, l)
  {
    if l.key == "" || l.from == "" || (l.stability != "semconv" && l.stability != "spinel") { return None; }
    var p := FindProperty(s, l.from);
    if p.None? { return None; }
    if l.values.Some? {
      var ok := PermittedSetOk(l.values.value, l.fallback);
      return if ok then Some(|l.values.value| + 1) else None;
    }
    if l.fallback.Some? || p.value.Plain? || p.value.d.form != CodeName { return None; }
    var m := FindMap(maps, p.value.d.impl);
    if m.None? { return None; }
    var keeps := ScanUnknown(m.value.unknown);
    r := if keeps then None else Some(|m.value.values| + 1);
  }

  /** The first derivation of a name, and the first map of an id. */
  ghost predicate IsDerivation(s: Schema, name: string, d: Derivation) {
    exists k :: 0 <= k < |s.derived| && s.derived[k] == d && d.name == name &&
                forall j :: 0 <= j < k ==> s.derived[j].name != name
  }

  ghost predicate IsMap(maps: seq<ValueMap>, id: string, m: ValueMap) {
    exists k :: 0 <= k < |maps| && maps[k] == m && m.id == id && forall j :: 0 <= j < k ==> maps[j].id != id
  }

  lemma {:induction false} DerivationFound(ds: seq<Derivation>, name: string)
    ensures FindDerivation(ds, name).None? <==> forall k :: 0 <= k < |ds| ==> ds[k].name != name
    ensures FindDerivation(ds, name).Some? ==>
              exists k :: 0 <= k < |ds| && ds[k] == FindDerivation(ds, name).value &&
                          forall j :: 0 <= j < k ==> ds[j].name != name
  {
    if ds != [] && ds[0].name != name {
      DerivationFound(ds[1..], name);
      if FindDerivation(ds[1..], name).Some? {
        var k :| 0 <= k < |ds[1..]| && ds[1..][k] == FindDerivation(ds[1..], name).value &&
                 forall j :: 0 <= j < k ==> ds[1..][j].name != name;
        assert ds[k + 1] == ds[1..][k] && forall j :: 1 <= j < k + 1 ==> ds[j] == ds[1..][j - 1];
      }
    }
  }

  lemma {:induction false} MapFound(maps: seq<ValueMap>, id: string)
    ensures FindMap(maps, id).None? <==> forall k :: 0 <= k < |maps| ==> maps[k].id != id
    ensures FindMap(maps, id).Some? ==> IsMap(maps, id, FindMap(maps, id).value)
  {
    if maps != [] {
      if maps[0].id == id {
        assert IsMap(maps, id, maps[0]);
      } else {
        MapFound(maps[1..], id);
        if FindMap(maps[1..], id).Some? {
          var m := FindMap(maps[1..], id).value;
          var k :| 0 <= k < |maps[1..]| && maps[1..][k] == m && forall j :: 0 <= j < k ==> maps[1..][j].id != id;
          assert maps[k + 1] == m && forall j :: 1 <= j < k + 1 ==> maps[j] == maps[1..][j - 1];
        }
      }
    }
  }

  /** A label with a permitted set is bounded by the set and its fallback, if it reads an exposed field or a
      derivation. */
  lemma {:induction false} SetLabelExactly(maps: seq<ValueMap>, s: Schema, l: Label)
    requires l.values.Some?
    ensures var vs := l.values.value;
            LabelBound(maps, s, l) ==
            if && l.key != "" && l.from != "" && (l.stability == "semconv" || l.stability == "spinel")
               && ((exists i :: 0 <= i < |s.fields| && s.fields[i].expose.Some? && s.fields[i].name == l.from) ||
                   (exists k :: 0 <= k < |s.derived| && s.derived[k].name == l.from))
               && vs != [] && (forall i :: 0 <= i < |vs| ==> vs[i] != "")
               && (forall i, j :: 0 <= j < i < |vs| ==> vs[i] != vs[j])
               && l.fallback.Some? && l.fallback.value != "" && l.fallback.value !in vs
            then Some(|vs| + 1) else None
  {
    DerivationFound(s.derived, l.from);
  }

  /** A label without one is bounded by a closed value map, if a derivation, and no exposed field of that name,
      feeds it with names of codes and the map renders unnamed codes alike. */
  lemma {:induction false} MapLabelExactly(maps: seq<ValueMap>, s: Schema, l: Label, d: Derivation, m: ValueMap)
    requires l.values.None? && IsDerivation(s, l.from, d) && IsMap(maps, d.impl, m)
    ensures LabelBound(maps, s, l) ==
            if && l.key != "" && l.from != "" && (l.stability == "semconv" || l.stability == "spinel")
               && (forall i :: 0 <= i < |s.fields| && s.fields[i].name == l.from ==> s.fields[i].expose.None?)
               && l.fallback.None? && d.form == CodeName
               && (forall i :: 0 <= i < |m.unknown| - 2 ==>
                     m.unknown[i] != '%' || m.unknown[i + 1] != 'l' || m.unknown[i + 2] != 'd')
            then Some(|m.values| + 1) else None
  {
    FoundIsFirst(maps, s, l.from, d, m);
  }

  lemma {:induction false} FoundIsFirst(maps: seq<ValueMap>, s: Schema, name: string, d: Derivation, m: ValueMap)
    requires IsDerivation(s, name, d) && IsMap(maps, d.impl, m)
    ensures FindDerivation(s.derived, name) == Some(d) && FindMap(maps, d.impl) == Some(m)
  {
    DerivationFound(s.derived, name);
    MapFound(maps, d.impl);
  }

  /** Without a permitted set, a derivation and its map, nothing bounds a label. */
  lemma {:induction false} UnboundLabelRefused(maps: seq<ValueMap>, s: Schema, l: Label)
    requires l.values.None?
    requires forall k, i :: 0 <= k < |s.derived| && 0 <= i < |maps| ==>
               s.derived[k].name != l.from || maps[i].id != s.derived[k].impl
    ensures LabelBound(maps, s, l) == None
  {
    DerivationFound(s.derived, l.from);
    var d := FindDerivation(s.derived, l.from);
    if d.Some? { MapFound(maps, d.value.impl); }
  }

  // ----- what a label can come out as -----

  /** snprintf into `cap` bytes, the last of them the terminator. */
  function Cut(cap: int, x: string): (y: string)
    requires cap > 0
    ensures |y| < cap && y <= x && (|x| < cap ==> y == x)
  {
    if |x| < cap then x else x[..cap - 1]
  }

  function FirstName(es: seq<Entry>, v: int): (r: Option<string>)
    ensures r.Some? ==> exists e :: e in es && e.name == r.value
  {
    if es == [] then None else if es[0].code == v then Some(es[0].name) else FirstName(es[1..], v)
  }

  /** The generated lookup of a closed map. */
  function Render(m: ValueMap, v: int): string
    requires !KeepsNumber(m.unknown)
  {
    match FirstName(m.values, v)
    case Some(name) => name
    case None => m.unknown
  }

  /** Everything a bounded label can be emitted as. */
  ghost function Outputs(maps: seq<ValueMap>, s: Schema, l: Label): set<string>
    requires LabelBound(maps, s, l).Some?
  {
    if l.values.Some? then (set v | v in l.values.value) + {l.fallback.value} else
    var d := FindProperty(s, l.from).value.d;
    if d.cap <= 0 then {} else
    var m := FindMap(maps, d.impl).value;
    (set e | e in m.values :: Cut(d.cap, e.name)) + {Cut(d.cap, m.unknown)}
  }

  lemma {:induction false} SetOfDistinct(vs: seq<string>)
    requires !Repeats(vs)
    ensures |set v | v in vs| == |vs|
  {
    if vs != [] {
      var n := |vs| - 1;
      var init := vs[..n];
      assert !Repeats(init);
      SetOfDistinct(init);
      assert (set v | v in vs) == (set v | v in init) + {vs[n]};
      assert vs[n] !in init;
    }
  }

  lemma {:induction false} NamesAtMost(cap: int, es: seq<Entry>)
    requires cap > 0
    ensures |set e | e in es :: Cut(cap, e.name)| <= |es|
  {
    if es != [] {
      var n := |es| - 1;
      NamesAtMost(cap, es[..n]);
      assert (set e | e in es :: Cut(cap, e.name)) ==
             (set e | e in es[..n] :: Cut(cap, e.name)) + {Cut(cap, es[n].name)};
    }
  }

  /** A label's bound is at least what it can be emitted as, and for a permitted set exactly that. */
  lemma LabelBoundCounts(maps: seq<ValueMap>, s: Schema, l: Label)
    requires LabelBound(maps, s, l).Some?
    ensures |Outputs(maps, s, l)| <= LabelBound(maps, s, l).value
    ensures l.values.Some? ==> |Outputs(maps, s, l)| == LabelBound(maps, s, l).value
  {
    if l.values.Some? {
      SetOfDistinct(l.values.value);
    } else {
      var d := FindProperty(s, l.from).value.d;
      if d.cap > 0 { NamesAtMost(d.cap, FindMap(maps, d.impl).value.values); }
    }
  }

  /** In a checked map every name is what its own code renders as. */
  lemma {:induction false} NamedCode(es: seq<Entry>, i: nat)
    requires i < |es| && forall a, b :: 0 <= b < a < |es| ==> es[a].code != es[b].code
    ensures FirstName(es, es[i].code) == Some(es[i].name)
  {
    if i > 0 {
      assert es[1..][i - 1] == es[i];
      NamedCode(es[1..], i - 1);
    }
  }

  lemma {:induction false} DistinctNames(cap: int, es: seq<Entry>)
    requires cap > 0 && (forall i :: 0 <= i < |es| ==> |es[i].name| < cap)
    requires forall a, b :: 0 <= b < a < |es| ==> es[a].name != es[b].name
    ensures |set e | e in es :: Cut(cap, e.name)| == |es|
  {
    if es != [] {
      var n := |es| - 1;
      var init := es[..n];
      DistinctNames(cap, init);
      assert (set e | e in es :: Cut(cap, e.name)) == (set e | e in init :: Cut(cap, e.name)) + {Cut(cap, es[n].name)};
      forall e | e in init ensures Cut(cap, e.name) != es[n].name {
        var i :| 0 <= i < n && init[i] == e;
        assert es[i].name == e.name;
      }
    }
  }

  /** For a closed map the bound is exact unless the unnamed rendering is itself one of the names. */
  lemma {:induction false} ClosedMapExact(maps: seq<ValueMap>, s: Schema, l: Label, d: Derivation, m: ValueMap)
    requires LabelBound(maps, s, l).Some? && l.values.None?
    requires FindProperty(s, l.from) == Some(Computed(d)) && FindMap(maps, d.impl) == Some(m) && ValmapOk(m)
    requires |m.unknown| < d.cap && forall i :: 0 <= i < |m.values| ==> |m.values[i].name| < d.cap
    ensures |Outputs(maps, s, l)| == LabelBound(maps, s, l).value <==>
            forall i :: 0 <= i < |m.values| ==> m.values[i].name != m.unknown
  {
    RenderedCount(d.cap, m);
    assert Cut(d.cap, m.unknown) == m.unknown;
  }

  /** The renderings of a closed map that all fit. */
  lemma RenderedCount(cap: int, m: ValueMap)
    requires ValmapOk(m) && |m.unknown| < cap && forall i :: 0 <= i < |m.values| ==> |m.values[i].name| < cap
    ensures |(set e | e in m.values :: Cut(cap, e.name)) + {m.unknown}| == |m.values| + 1 <==>
            forall i :: 0 <= i < |m.values| ==> m.values[i].name != m.unknown
  {
    var names := set e | e in m.values :: Cut(cap, e.name);
    DistinctNames(cap, m.values);
    NameCut(cap, m.values, m.unknown);
    if m.unknown in names { assert names + {m.unknown} == names; }
  }

  lemma NameCut(cap: int, es: seq<Entry>, x: string)
    requires cap > 0 && forall i :: 0 <= i < |es| ==> |es[i].name| < cap
    ensures x in (set e | e in es :: Cut(cap, e.name)) <==> exists i :: 0 <= i < |es| && es[i].name == x
  {
    if i :| 0 <= i < |es| && es[i].name == x {
      assert es[i] in es && Cut(cap, es[i].name) == x;
    }
    if e :| e in es && Cut(cap, e.name) == x {
      var i :| 0 <= i < |es| && es[i] == e;
      assert es[i].name == x;
    }
  }

  // ----- the bound on a metric -----

  ghost predicate LabelsOk(maps: seq<ValueMap>, s: Schema, ls: seq<Label>) {
    forall i :: 0 <= i < |ls| ==> LabelBound(maps, s, ls[i]).Some?
  }

  /** The exact product of the label bounds. */
  ghost function Product(maps: seq<ValueMap>, s: Schema, ls: seq<Label>): nat
    requires LabelsOk(maps, s, ls)
  {
    if ls == [] then 1 else Product(maps, s, ls[..|ls| - 1]) * LabelBound(maps, s, ls[|ls| - 1]).value
  }

  function Capped(n: nat): nat { if n > SATURATION then SATURATION else n }

  ghost function SeriesBound(maps: seq<ValueMap>, s: Schema, ls: seq<Label>): nat
    requires LabelsOk(maps, s, ls)
  {
    if ls == [] then 1 else Capped(SeriesBound(maps, s, ls[..|ls| - 1]) * LabelBound(maps, s, ls[|ls| - 1]).value)
  }

  lemma TimesGrows(a: nat, b: nat)
    requires b >= 1
    ensures a * b >= a
  {
  }

  lemma TimesMonotone(a: nat, b: nat, k: nat)
    requires a <= b
    ensures a * k <= b * k
  {
  }

  /** The loop saturates exactly when the product does not fit. */
  lemma {:induction false} SaturatesExactly(maps: seq<ValueMap>, s: Schema, ls: seq<Label>)
    requires LabelsOk(maps, s, ls)
    ensures SeriesBound(maps, s, ls) == Capped(Product(maps, s, ls)) >= 1
  {
    if ls != [] {
      var init, k := ls[..|ls| - 1], LabelBound(maps, s, ls[|ls| - 1]).value;
      SaturatesExactly(maps, s, init);
      var p := Product(maps, s, init);
      TimesGrows(p, k);
      if p > SATURATION {
        TimesGrows(SATURATION, k);
      } else {
        TimesGrows(SeriesBound(maps, s, init), k);
      }
    }
  }

  /** metric_series_bound; None where a label is refused. */
  method BoundMetric(maps: seq<ValueMap>, s: Schema, m: Metric) returns (r: Option<nat>)
    ensures r.Some? <==> LabelsOk(maps, s, m.labels)
    ensures r.Some? ==> r.value == SeriesBound(maps, s, m.labels)
  {
    var b: nat := 1;
    for i := 0 to |m.labels|
      invariant LabelsOk(maps, s, m.labels[..i]) && b == SeriesBound(maps, s, m.labels[..i])
    {
      var k := BoundLabel(maps, s, m.labels[i]);
      if k.None? { return None; }
      assert m.labels[..i + 1][..i] == m.labels[..i];
      b := b * k.value;
      if b > SATURATION { b := SATURATION; }
    }
    assert m.labels[..|m.labels|] == m.labels;
    r := Some(b);
  }

  // ----- the total -----

  /** One line of the runtime's table: a metric and the channel it reads. */
  datatype Row = Row(s: Schema, m: Metric)

  function ChannelRows(s: Schema): (rows: seq<Row>)
    ensures |rows| == |s.metrics|
  {
    seq(|s.metrics|, k requires 0 <= k < |s.metrics| => Row(s, s.metrics[k]))
  }

  /** The metrics of every channel, in publication order. */
  function Table(channels: seq<Schema>): seq<Row> {
    if channels == [] then [] else Table(channels[..|channels| - 1]) + ChannelRows(channels[|channels| - 1])
  }

  ghost predicate RowOk(maps: seq<ValueMap>, r: Row) { LabelsOk(maps, r.s, r.m.labels) }

  ghost predicate RowsOk(maps: seq<ValueMap>, rows: seq<Row>) {
    forall i :: 0 <= i < |rows| ==> RowOk(maps, rows[i])
  }

  ghost function Total(maps: seq<ValueMap>, rows: seq<Row>): nat
    requires RowsOk(maps, rows)
  {
    if rows == [] then 0 else
    Total(maps, rows[..|rows| - 1]) + SeriesBound(maps, rows[|rows| - 1].s, rows[|rows| - 1].m.labels)
  }

  ghost predicate Accepted(maps: seq<ValueMap>, rows: seq<Row>) {
    RowsOk(maps, rows) && Total(maps, rows) <= MAX_SERIES
  }

  lemma {:induction false} TotalNext(maps: seq<ValueMap>, rows: seq<Row>, r: Row)
    requires RowsOk(maps, rows) && RowOk(maps, r)
    ensures RowsOk(maps, rows + [r]) &&
            Total(maps, rows + [r]) == Total(maps, rows) + SeriesBound(maps, r.s, r.m.labels)
  {
    assert (rows + [r])[..|rows|] == rows;
  }

  /** The inner loop: the metrics of one channel, added to what the channels before it came to. */
  method AddChannel(maps: seq<ValueMap>, s: Schema, ghost before: seq<Row>, grand: nat) returns (r: Option<nat>)
    requires RowsOk(maps, before) && grand == Total(maps, before)
    ensures r.Some? <==> RowsOk(maps, before + ChannelRows(s))
    ensures r.Some? ==> r.value == Total(maps, before + ChannelRows(s))
  {
    var sum := grand;
    ghost var all := ChannelRows(s);
    assert before + all[..0] == before;
    for k := 0 to |s.metrics|
      invariant RowsOk(maps, before + all[..k]) && sum == Total(maps, before + all[..k])
    {
      var b := BoundMetric(maps, s, s.metrics[k]);
      if b.None? {
        assert !RowOk(maps, (before + all)[|before| + k]);
        return None;
      }
      assert before + all[..k + 1] == before + all[..k] + [all[k]];
      TotalNext(maps, before + all[..k], all[k]);
      sum := sum + b.value;
    }
    assert all[..|s.metrics|] == all;
    r := Some(sum);
  }

  /** The generator's loop over channels, and its refusal above the capacity. */
  method CheckTotal(maps: seq<ValueMap>, channels: seq<Schema>) returns (ok: bool)
    ensures ok <==> Accepted(maps, Table(channels))
    ensures ok <==> RowsOk(maps, Table(channels)) && Total(maps, Table(channels)) <= 256
  {
    var grand: nat := 0;
    for c := 0 to |channels|
      invariant RowsOk(maps, Table(channels[..c])) && grand == Total(maps, Table(channels[..c]))
    {
      var sum := AddChannel(maps, channels[c], Table(channels[..c]), grand);
      assert channels[..c + 1][..c] == channels[..c];
      if sum.None? {
        RefusedEarly(maps, channels, c + 1);
        return false;
      }
      grand := sum.value;
    }
    assert channels[..|channels|] == channels;
    ok := grand <= MAX_SERIES;
  }

  lemma {:induction false} RefusedEarly(maps: seq<ValueMap>, channels: seq<Schema>, c: nat)
    requires c <= |channels| && !RowsOk(maps, Table(channels[..c]))
    ensures !RowsOk(maps, Table(channels))
  {
    TablePrefix(channels, c);
    var i :| 0 <= i < |Table(channels[..c])| && !RowOk(maps, Table(channels[..c])[i]);
    assert Table(channels)[i] == Table(channels[..c])[i];
  }

  lemma {:induction false} TablePrefix(channels: seq<Schema>, c: nat)
    requires c <= |channels|
    ensures Table(channels[..c]) <= Table(channels)
  {
    if c == |channels| {
      assert channels[..c] == channels;
    } else {
      var n := |channels| - 1;
      TablePrefix(channels[..n], c);
      assert channels[..n][..c] == channels[..c];
    }
  }

  lemma {:induction false} RowWithinTotal(maps: seq<ValueMap>, rows: seq<Row>, i: nat)
    requires RowsOk(maps, rows) && i < |rows|
    ensures SeriesBound(maps, rows[i].s, rows[i].m.labels) <= Total(maps, rows)
  {
    var n := |rows| - 1;
    if i < n {
      assert rows[..n][i] == rows[i];
      RowWithinTotal(maps, rows[..n], i);
    }
  }

  /** In an accepted table every bound is the exact product: no saturation was reached. */
  lemma {:induction false} AcceptedIsExact(maps: seq<ValueMap>, rows: seq<Row>, i: nat)
    requires Accepted(maps, rows) && i < |rows|
    ensures SeriesBound(maps, rows[i].s, rows[i].m.labels) == Product(maps, rows[i].s, rows[i].m.labels) <= MAX_SERIES
  {
    RowWithinTotal(maps, rows, i);
    SaturatesExactly(maps, rows[i].s, rows[i].m.labels);
  }

  // ----- label tuples -----

  /** Every tuple a metric's labels can be emitted as. */
  ghost function Tuples(maps: seq<ValueMap>, s: Schema, ls: seq<Label>): set<seq<string>>
    requires LabelsOk(maps, s, ls)
  {
    if ls == [] then {[]} else
    var n := |ls| - 1;
    set t, x | t in Tuples(maps, s, ls[..n]) && x in Outputs(maps, s, ls[n]) :: t + [x]
  }

  ghost function Paired(a: set<seq<string>>, b: set<string>): set<seq<string>> {
    set t, x | t in a && x in b :: t + [x]
  }

  ghost function Ending(a: set<seq<string>>, x: string): set<seq<string>> {
    set t | t in a :: t + [x]
  }

  lemma {:induction false} Suffixed(a: set<seq<string>>, x: string)
    ensures |Ending(a, x)| == |a|
  {
    if a != {} {
      var t0 :| t0 in a;
      Suffixed(a - {t0}, x);
      assert Ending(a, x) == Ending(a - {t0}, x) + {t0 + [x]};
      forall t | t in a - {t0} ensures t + [x] != t0 + [x] {
        assert (t + [x])[..|t|] == t && (t0 + [x])[..|t0|] == t0;
      }
    } else {
      assert Ending(a, x) == {};
    }
  }

  lemma PairedSplit(a: set<seq<string>>, b: set<string>, x: string)
    requires x in b
    ensures Paired(a, b) == Paired(a, b - {x}) + Ending(a, x)
  {
    forall u | u in Paired(a, b) ensures u in Paired(a, b - {x}) + Ending(a, x) {
      var t, y :| t in a && y in b && u == t + [y];
      if y != x { assert y in b - {x}; }
    }
  }

  lemma PairedApart(a: set<seq<string>>, b: set<string>, x: string)
    requires x !in b
    ensures Paired(a, b) !! Ending(a, x)
  {
    forall u | u in Paired(a, b) ensures u !in Ending(a, x) {
      var t, y :| t in a && y in b && u == t + [y];
      assert u[|u| - 1] == y;
    }
  }

  lemma {:induction false} PairedCount(a: set<seq<string>>, b: set<string>)
    ensures |Paired(a, b)| == |a| * |b|
  {
    if b == {} {
      assert Paired(a, b) == {};
    } else {
      var x :| x in b;
      PairedCount(a, b - {x});
      PairedStep(a, b, x);
    }
  }

  lemma PairedStep(a: set<seq<string>>, b: set<string>, x: string)
    requires x in b && |Paired(a, b - {x})| == |a| * |b - {x}|
    ensures |Paired(a, b)| == |a| * |b|
  {
    Suffixed(a, x);
    PairedSplit(a, b, x);
    PairedApart(a, b - {x}, x);
    UnionCount(Paired(a, b - {x}), Ending(a, x));
    TimesNext(|a|, |b - {x}|);
    assert |b| == |b - {x}| + 1;
  }

  lemma UnionCount(p: set<seq<string>>, q: set<seq<string>>)
    requires p !! q
    ensures |p + q| == |p| + |q|
  {
  }

  lemma TimesNext(a: nat, n: nat)
    ensures a * (n + 1) == a * n + a
  {
  }

  lemma TimesBoth(a: nat, b: nat, p: nat, q: nat)
    requires a <= p && b <= q
    ensures a * b <= p * q
  {
    TimesMonotone(a, p, b);
    TimesMonotone(b, q, p);
  }

  /** The label tuples a metric can produce number at most the product of its label bounds. */
  lemma {:induction false} TuplesWithinProduct(maps: seq<ValueMap>, s: Schema, ls: seq<Label>)
    requires LabelsOk(maps, s, ls)
    ensures |Tuples(maps, s, ls)| <= Product(maps, s, ls)
    ensures (forall i :: 0 <= i < |ls| ==> ls[i].values.Some?) ==> |Tuples(maps, s, ls)| == Product(maps, s, ls)
  {
    if ls != [] {
      var n := |ls| - 1;
      var a, b := Tuples(maps, s, ls[..n]), Outputs(maps, s, ls[n]);
      TuplesWithinProduct(maps, s, ls[..n]);
      LabelBoundCounts(maps, s, ls[n]);
      assert Tuples(maps, s, ls) == Paired(a, b);
      PairedCount(a, b);
      TimesBoth(|a|, |b|, Product(maps, s, ls[..n]), LabelBound(maps, s, ls[n]).value);
    }
  }

  // ----- the width of a stored label value -----

  /** Room for every value a label can be stored with, terminator included. */
  ghost predicate Holds(s: Schema, l: Label, w: int) {
    if l.values.Some? then
      (forall i :: 0 <= i < |l.values.value| ==> |l.values.value[i]| < w) &&
      (l.fallback.Some? ==> |l.fallback.value| < w)
    else
      var p := FindProperty(s, l.from);
      p.Some? && p.value.Computed? ==> p.value.d.cap <= w
  }

  ghost predicate RowHolds(r: Row, w: int) {
    forall i :: 0 <= i < |r.m.labels| ==> Holds(r.s, r.m.labels[i], w)
  }

  ghost predicate TableHolds(rows: seq<Row>, w: int) {
    w >= 1 && forall i :: 0 <= i < |rows| ==> RowHolds(rows[i], w)
  }

  /** The width the generator emits: the least that holds every label of every metric. */
  method ValueWidth(rows: seq<Row>) returns (w: int)
    ensures TableHolds(rows, w)
    ensures forall v :: TableHolds(rows, v) ==> w <= v
  {
    w := 1;
    for i := 0 to |rows|
      invariant w >= 1 && forall k :: 0 <= k < i ==> RowHolds(rows[k], w)
      invariant forall v :: TableHolds(rows, v) ==> w <= v
    {
      ghost var w0 := w;
      for j := 0 to |rows[i].m.labels|
        invariant w >= w0 && forall k :: 0 <= k < j ==> Holds(rows[i].s, rows[i].m.labels[k], w)
        invariant forall v :: TableHolds(rows, v) ==> w <= v
      {
        var w1 := LabelWidth(rows[i].s, rows[i].m.labels[j], w);
        forall v | TableHolds(rows, v) ensures w1 <= v {
          assert RowHolds(rows[i], v);
        }
        w := w1;
      }
    }
  }

  method LabelWidth(s: Schema, l: Label, w0: int) returns (w: int)
    requires w0 >= 1
    ensures w >= w0 && Holds(s, l, w)
    ensures forall v :: Holds(s, l, v) && w0 <= v ==> w <= v
  {
    w := w0;
    if l.values.Some? {
      var vs := l.values.value;
      for i := 0 to |vs|
        invariant w >= w0 && forall k :: 0 <= k < i ==> |vs[k]| < w
        invariant forall v :: Holds(s, l, v) && w0 <= v ==> w <= v
      {
        if |vs[i]| + 1 > w { w := |vs[i]| + 1; }
      }
      if l.fallback.Some? && |l.fallback.value| + 1 > w { w := |l.fallback.value| + 1; }
    } else {
      var p := FindProperty(s, l.from);
      if p.Some? && p.value.Computed? && p.value.d.cap > w { w := p.value.d.cap; }
    }
  }
}
