/**
 What the gate buys on the wire.

 Along any history of releases that the gate let through, a record written by any release
 is accepted by the decoder of any other, and every field the two share decodes to the same
 bytes. What a newer reader sees in a field the older writer did not have is settled
 exactly: zero, unless the field landed in the old record's tail padding.
 */
module RecordHistory {
  import opened Common
  import opened RecordLayout
  import opened RecordGate

  /** One channel as a release declares it. */
  datatype Declaration = Declaration(schema: RecSchema, recordStruct: string, ringbufMap: string,
                                     producers: seq<string>, egress: Option<Egress>,
                                     consumer: Option<Consumer>, metrics: seq<Metric>)

  type Release = map<string, Declaration>

  function ProjectField(fs: seq<RecField>, i: nat): FieldTerm
    requires Laid(fs) && i < |fs|
  {
    var f := fs[i];
    FieldTerm(f.name, f.ctype, f.count, Offset(fs, i), Bytes(f), f.expose)
  }

  /** The contract terms of a channel: offsets and the accepted prefix come from the layout rule. */
  function Project(d: Declaration): Channel
    requires Valid(d.schema)
  {
    var fs := d.schema.fields;
    Channel(d.recordStruct, d.ringbufMap, RequiredBytes(d.schema), d.producers,
            seq(|fs|, i requires 0 <= i < |fs| => ProjectField(fs, i)), d.egress, d.consumer, d.metrics)
  }

  /** The generator and the compiler accept the declaration, and its table is typed. */
  ghost predicate Compiles(d: Declaration) {
    Valid(d.schema) && Typed(d.schema.fields) && WellFormedChannel(Project(d))
  }

  ghost predicate CompilesAll(r: Release) {
    forall id | id in r :: Compiles(r[id])
  }

  ghost function ProjectAll(r: Release): Contract
    requires CompilesAll(r)
  {
    map id | id in r :: Project(r[id])
  }

  /** Releases, oldest first, each let through by the gate. */
  ghost predicate Released(h: seq<Release>) {
    (forall k | 0 <= k < |h| :: CompilesAll(h[k])) &&
    forall k {:trigger h[k]} :: 0 <= k < |h| ==> k > 0 ==> Silent(ProjectAll(h[k - 1]), ProjectAll(h[k]))
  }

  lemma ReleasedIsHistory(h: seq<Release>, i: nat, j: nat)
    requires Released(h) && i <= j < |h|
    ensures Silent(ProjectAll(h[i]), ProjectAll(h[j]))
  {
    var cs := seq(|h|, k requires 0 <= k < |h| => ProjectAll(h[k]));
    forall k {:trigger cs[k]} | 0 <= k < |cs|
      ensures WellFormed(cs[k]) && (k > 0 ==> Silent(cs[k - 1], cs[k]))
    {
      assert cs[k] == ProjectAll(h[k]);
    }
    StepsReachBaseline(cs, i, j);
  }

  /** A published channel is kept by every later release. */
  lemma KeptBetween(h: seq<Release>, i: nat, j: nat, id: string)
    requires Released(h) && i <= j < |h| && id in h[i]
    ensures id in h[j] && Compiles(h[i][id]) && Compiles(h[j][id])
    ensures ChannelKept(Project(h[i][id]), Project(h[j][id]))
  {
    ReleasedIsHistory(h, i, j);
    assert id in ProjectAll(h[i]) && ProjectAll(h[i])[id] == Project(h[i][id]);
    assert ProjectAll(h[j])[id] == Project(h[j][id]);
  }

  /** What silence says about two versions of one channel's bytes. */
  lemma KeptExtends(o: Declaration, n: Declaration)
    requires Compiles(o) && Compiles(n) && ChannelKept(Project(o), Project(n))
    ensures Extends(o.schema.fields, n.schema.fields)
    ensures forall k :: 0 <= k < |o.schema.fields| ==>
              n.schema.fields[k].name == o.schema.fields[k].name &&
              n.schema.fields[k].ctype == o.schema.fields[k].ctype
    ensures RequiredBytes(n.schema) <= RequiredBytes(o.schema)
  {
    var fs, gs := o.schema.fields, n.schema.fields;
    FieldsKeptInPlace(Project(o).fields, Project(n).fields);
    forall k | 0 <= k < |fs|
      ensures fs[k].size == gs[k].size && fs[k].count == gs[k].count && fs[k].align == gs[k].align
      ensures gs[k].name == fs[k].name && gs[k].ctype == fs[k].ctype
    {
      assert Project(o).fields[k] == ProjectField(fs, k) && Project(n).fields[k] == ProjectField(gs, k);
      assert fs[k] in fs && gs[k] in gs;
    }
  }

  /** Both directions at once: either side may be the older one. */
  lemma CompatiblePair(w: Declaration, r: Declaration, data: seq<byte>)
    requires Compiles(w) && Compiles(r)
    requires ChannelKept(Project(w), Project(r)) || ChannelKept(Project(r), Project(w))
    requires |data| == Total(w.schema.fields)
    ensures Accepts(r.schema, data)
    ensures forall k :: 0 <= k < |w.schema.fields| && k < |r.schema.fields| ==>
              r.schema.fields[k].name == w.schema.fields[k].name &&
              Decoded(r.schema, k, data) == Decoded(w.schema, k, data)
  {
    var ws, rs := w.schema.fields, r.schema.fields;
    if ChannelKept(Project(w), Project(r)) {
      KeptExtends(w, r);
      AppendKeepsLayout(ws, rs);
    } else {
      KeptExtends(r, w);
      AppendKeepsLayout(rs, ws);
      TotalGrows(rs, ws);
    }
  }

  /** What any release declares every later one declares too, whatever is added. */
  lemma PublishedStays(h: seq<Release>, i: nat, j: nat, id: string)
    requires Released(h) && i <= j < |h| && id in h[i]
    ensures id in h[j]
    ensures var o, n := h[i][id], h[j][id];
            && n.recordStruct == o.recordStruct && n.ringbufMap == o.ringbufMap && Included(o.producers, n.producers)
            && EgressKept(o.egress, n.egress) && ConsumerKept(o.consumer, n.consumer)
            && MetricsKept(o.metrics, n.metrics)
    ensures var fs, gs := h[i][id].schema.fields, h[j][id].schema.fields;
            |fs| <= |gs| && forall k :: 0 <= k < |fs| ==>
              gs[k].name == fs[k].name && gs[k].ctype == fs[k].ctype && gs[k].count == fs[k].count &&
              (fs[k].expose == "" || gs[k].expose == fs[k].expose)
  {
    KeptBetween(h, i, j, id);
    var o, n := Project(h[i][id]), Project(h[j][id]);
    var fs, gs := h[i][id].schema.fields, h[j][id].schema.fields;
    FieldsKeptInPlace(o.fields, n.fields);
    forall k | 0 <= k < |fs|
      ensures gs[k].name == fs[k].name && gs[k].ctype == fs[k].ctype && gs[k].count == fs[k].count
      ensures fs[k].expose == "" || gs[k].expose == fs[k].expose
    {
      assert o.fields[k] == ProjectField(fs, k) && n.fields[k] == ProjectField(gs, k);
    }
  }

  /** Field `k` of a record of `w` holds, for a reader `r`, the bytes written, but for the NUL at the end of a
      `char` array. */
  ghost predicate SharedField(w: Declaration, r: Declaration, k: nat, data: seq<byte>)
    requires Valid(w.schema) && Valid(r.schema) && k < |w.schema.fields| && k < |r.schema.fields|
  {
    var f, at, got := w.schema.fields[k], Offset(w.schema.fields, k), Decoded(r.schema, k, data);
    at + Bytes(f) <= |data| && |got| == Bytes(f) &&
    forall b :: 0 <= b < Bytes(f) ==>
      got[b] == if f.ctype.Char? && f.count > 0 && b == Bytes(f) - 1 then 0 else data[at + b]
  }

  /** A record written by any release is accepted by any other release's decoder, and the fields
      they share, which are the leading ones, hold what was written. */
  lemma WireCompatible(h: seq<Release>, i: nat, j: nat, id: string, data: seq<byte>)
    requires Released(h) && i < |h| && j < |h|
    requires id in h[if i <= j then i else j]
    ensures id in h[i] && id in h[j] && Valid(h[i][id].schema) && Valid(h[j][id].schema)
    ensures |data| == Total(h[i][id].schema.fields) ==>
              Accepts(h[j][id].schema, data) &&
              forall k :: 0 <= k < |h[i][id].schema.fields| && k < |h[j][id].schema.fields| ==>
                h[j][id].schema.fields[k].name == h[i][id].schema.fields[k].name &&
                SharedField(h[i][id], h[j][id], k, data)
  {
    if i <= j { KeptBetween(h, i, j, id); } else { KeptBetween(h, j, i, id); }
    var w, r := h[i][id], h[j][id];
    if |data| == Total(w.schema.fields) {
      CompatiblePair(w, r, data);
      forall k | 0 <= k < |w.schema.fields| && k < |r.schema.fields|
        ensures SharedField(w, r, k, data)
      {
        FieldsInRecord(w.schema.fields, k);
        DecodedIsWritten(w.schema, k, data);
      }
    }
  }

  // ----- fields the writer does not have -----

  /** When field `k` reads as zero from every record of `n` bytes. */
  lemma {:induction false} ReadsZero(r: RecSchema, k: nat, n: nat)
    requires Valid(r) && Typed(r.fields) && k < |r.fields|
    ensures (forall data: seq<byte> | |data| == n :: Decoded(r, k, data) == Zeros(Bytes(r.fields[k])))
            <==> n < End(r.fields, k + 1) || (IsCString(r.fields[k]) && r.fields[k].count == 1)
  {
    var f := r.fields[k];
    assert f in r.fields;
    FieldsInRecord(r.fields, k);
    if End(r.fields, k + 1) <= n {
      if IsCString(f) && f.count == 1 {
        OneByteString(r, k, n);
      } else {
        var data: seq<byte> := seq(n, i => 1);
        assert Decoded(r, k, data)[0] == 1;
      }
    }
  }

  lemma {:induction false} OneByteString(r: RecSchema, k: nat, n: nat)
    requires Valid(r) && Typed(r.fields) && k < |r.fields| && End(r.fields, k + 1) <= n
    requires IsCString(r.fields[k]) && r.fields[k].count == 1
    ensures forall data: seq<byte> | |data| == n :: Decoded(r, k, data) == Zeros(Bytes(r.fields[k]))
  {
    assert r.fields[k] in r.fields && Bytes(r.fields[k]) == 1;
    forall data: seq<byte> | |data| == n ensures Decoded(r, k, data) == Zeros(1) {
      assert |Decoded(r, k, data)| == 1 && Decoded(r, k, data)[0] == 0;
    }
  }

  /** A field appended after the writer's release reads as zero from every record of that release
      if and only if it ends past the old record; otherwise it reads the old tail padding.
      (A one-byte string is always its own terminator.) */
  lemma {:induction false} AppendedFieldReadsZero(h: seq<Release>, i: nat, j: nat, id: string, k: nat)
    requires Released(h) && i <= j < |h| && id in h[i]
    requires id in h[j] && |h[i][id].schema.fields| <= k < |h[j][id].schema.fields|
    ensures Valid(h[i][id].schema) && Valid(h[j][id].schema)
    ensures var w, r := h[i][id].schema, h[j][id].schema;
            var f := r.fields[k];
            (forall data: seq<byte> | |data| == Total(w.fields) :: Decoded(r, k, data) == Zeros(Bytes(f)))
            <==> Total(w.fields) < End(r.fields, k + 1) || (IsCString(f) && f.count == 1)
  {
    KeptBetween(h, i, j, id);
    ReadsZero(h[j][id].schema, k, Total(h[i][id].schema.fields));
  }

  /** A `__u64` and a `__u32`, and the same with another `__u32` after them. */
  function Narrow(a: string, b: string): RecSchema {
    RecSchema([RecField(a, U64, 0, 8, 8, ""), RecField(b, U32, 0, 4, 4, "")], None)
  }

  function Wide(a: string, b: string, c: string): RecSchema {
    RecSchema(Narrow(a, b).fields + [RecField(c, U32, 0, 4, 4, "")], None)
  }

  lemma PaddedLayout(a: string, b: string, c: string)
    ensures var w, r := Narrow(a, b), Wide(a, b, c);
            Valid(w) && Valid(r) && Typed(w.fields) && Typed(r.fields) &&
            Total(w.fields) == RequiredBytes(w) == RequiredBytes(r) == 16 && Offset(r.fields, 2) == 12
    ensures Laid(Narrow(a, b).fields) && Laid(Wide(a, b, c).fields)
    ensures forall i :: 0 <= i < 2 ==> ProjectField(Narrow(a, b).fields, i) == ProjectField(Wide(a, b, c).fields, i)
  {
    var w, r := Narrow(a, b).fields, Wide(a, b, c).fields;
    assert Offset(w, 0) == 0 && End(w, 1) == 8 && Offset(w, 1) == 8 && End(w, 2) == 12;
    assert Offset(r, 0) == 0 && End(r, 1) == 8 && Offset(r, 1) == 8 && End(r, 2) == 12;
    assert Offset(r, 2) == 12 && End(r, 3) == 16;
    TypedMaxAlign(w);
    MaxAlignIsWidest(w);
    TypedMaxAlign(r);
    MaxAlignIsWidest(r);
    assert w[0] in w && r[0] in r;
  }

  /** The padding case happens: both releases compile, the gate lets the step through, and the new
      four-byte field reads a padding byte of the old record. */
  lemma PaddingIsRead(d: Declaration, a: string, b: string, c: string, data: seq<byte>)
    requires d.schema == Narrow(a, b) && Compiles(d) && c != a && c != b
    requires |data| == Total(d.schema.fields) && 12 < |data| && data[12] != 0
    ensures var e := d.(schema := Wide(a, b, c));
            Compiles(e) && ChannelKept(Project(d), Project(e)) && Decoded(e.schema, 2, data) != Zeros(4)
  {
    PaddedLayout(a, b, c);
    var e := d.(schema := Wide(a, b, c));
    var of, nf := Project(d).fields, Project(e).fields;
    assert nf == of + [ProjectField(e.schema.fields, 2)];
    assert of[0].name == a && of[1].name == b && nf[2].name == c;
    ChannelKeptReflexive(Project(d));
    KeepsMore(of, nf[2]);
    assert Decoded(e.schema, 2, data)[0] == data[12];
  }

  lemma KeepsMore(of: seq<FieldTerm>, f: FieldTerm)
    requires UniqueKeys(of, FieldName) && forall o | o in of :: o.name != f.name
    ensures UniqueKeys(of + [f], FieldName) && FieldsKept(of, of + [f])
  {
    var nf := of + [f];
    forall i, j | 0 <= i < j < |nf| ensures FieldName(nf[i]) != FieldName(nf[j]) {
      assert nf[i] in of;
    }
    forall i | 0 <= i < |of| ensures First(nf, FieldName, of[i].name) == Some(of[i]) {
      assert nf[i] == of[i];
      FirstIsOnly(nf, FieldName, i);
    }
  }
}
