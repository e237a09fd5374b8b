/**
 The runtime side of the record metrics: labels projected onto their declared sets, interned
 into a fixed array of series, and counted.

 For every run of records, the array never fills, and every series holds exactly what the
 observations with its label values came to.
 */
module MetricSeries {
  import opened Common
  import opened MetricBounds

  datatype Series = Series(metric: nat, vals: seq<string>, count: nat, sum: real, buckets: seq<nat>)
  datatype Obs = Obs(metric: int, raws: seq<Option<string>>, hasValue: bool, value: real)
  datatype Key = Key(metric: nat, vals: seq<string>)

  // ----- the specification -----

  function Project(l: Label, raw: Option<string>): string {
    var x := if raw.None? then "" else raw.value;
    if l.values.None? || x in l.values.value then x
    else if l.fallback.None? then "" else l.fallback.value
  }

  /** What a raw value of a label must come out as: itself, unless the label has a set without it; then the
      fallback. No value counts as the empty one. */
  ghost predicate Emitted(l: Label, raw: Option<string>, v: string) {
    && (raw.Some? && (l.values.None? || raw.value in l.values.value) ==> v == raw.value)
    && (raw.None? && (l.values.None? || "" in l.values.value) ==> v == "")
    && (l.values.Some? && (if raw.Some? then raw.value else "") !in l.values.value ==>
          v == if l.fallback.Some? then l.fallback.value else "")
  }

  function Projected(ls: seq<Label>, raws: seq<Option<string>>): (p: seq<string>)
    requires |ls| == |raws|
    ensures |p| == |ls|
  {
    if ls == [] then [] else
    var n := |ls| - 1;
    Projected(ls[..n], raws[..n]) + [Project(ls[n], raws[n])]
  }

  /** A call the runtime does not return from at once. */
  predicate Addressed(rows: seq<Row>, o: Obs) {
    0 <= o.metric < |rows| && |o.raws| == |rows[o.metric].m.labels|
  }

  function KeyOf(rows: seq<Row>, o: Obs): Key
    requires Addressed(rows, o)
  {
    Key(o.metric, Projected(rows[o.metric].m.labels, o.raws))
  }

  function SeriesKey(s: Series): Key { Key(s.metric, s.vals) }

  /** The first boundary at or above the value; past the last, the open bucket. */
  function Bucket(bounds: seq<real>, v: real): (b: nat)
    ensures b <= |bounds|
    ensures b < |bounds| ==> v <= bounds[b]
    ensures forall i :: 0 <= i < b ==> bounds[i] < v
  {
    if bounds == [] then 0 else if v <= bounds[0] then 0 else 1 + Bucket(bounds[1..], v)
  }

  predicate Timed(m: Metric, o: Obs) { m.isHist && o.hasValue }

  function Bump(m: Metric, s: Series, o: Obs): Series
    requires |s.buckets| == |m.bounds| + 1
  {
    var b := Bucket(m.bounds, o.value);
    if Timed(m, o) then s.(count := s.count + 1, sum := s.sum + o.value, buckets := s.buckets[b := s.buckets[b] + 1])
    else s.(count := s.count + 1)
  }

  function Stored(w: int, proj: seq<string>): (vals: seq<string>)
    requires w > 0
    ensures |vals| == |proj| && forall i :: 0 <= i < |proj| ==> vals[i] == Cut(w, proj[i])
  {
    seq(|proj|, i requires 0 <= i < |proj| => Cut(w, proj[i]))
  }

  function Fresh(w: int, m: Metric, k: Key): Series
    requires w > 0
  {
    Series(k.metric, Stored(w, k.vals), 0, 0.0, seq(|m.bounds| + 1, i => 0))
  }

  /** The first series with this key, or the length when there is none. */
  function Slot(ss: seq<Series>, k: Key): (i: nat)
    ensures i <= |ss| && (i < |ss| ==> SeriesKey(ss[i]) == k)
    ensures forall j :: 0 <= j < i ==> SeriesKey(ss[j]) != k
  {
    if ss == [] || SeriesKey(ss[0]) == k then 0 else 1 + Slot(ss[1..], k)
  }

  /** Every series belongs to a metric of the table and has its buckets. */
  ghost predicate Formed(rows: seq<Row>, ss: seq<Series>) {
    forall i :: 0 <= i < |ss| ==> ss[i].metric < |rows| && |ss[i].buckets| == |rows[ss[i].metric].m.bounds| + 1
  }

  ghost function Observe(rows: seq<Row>, w: int, ss: seq<Series>, o: Obs): (r: seq<Series>)
    requires w > 0 && Formed(rows, ss)
    ensures Formed(rows, r)
  {
    if !Addressed(rows, o) then ss else
    var m, k := rows[o.metric].m, KeyOf(rows, o);
    var i := Slot(ss, k);
    if i < |ss| then ss[i := Bump(m, ss[i], o)]
    else if |ss| >= MAX_SERIES then ss
    else ss + [Bump(m, Fresh(w, m, k), o)]
  }

  // ----- the accumulator -----

  class Accumulator {
    const rows: seq<Row>
    const width: int
    const slots: array<Series>
    var n: nat

    ghost predicate Valid()
      reads this, slots
    {
      width > 0 && slots.Length == MAX_SERIES && n <= MAX_SERIES && Formed(rows, slots[..n])
    }

    ghost function Contents(): seq<Series>
      reads this, slots
      requires n <= slots.Length
    {
      slots[..n]
    }

    constructor (rows: seq<Row>, width: int)
      requires width > 0
      ensures Valid() && fresh(slots) && Contents() == [] && this.rows == rows && this.width == width
    {
      this.rows := rows;
      this.width := width;
      slots := new Series[MAX_SERIES](i => Series(0, [], 0, 0.0, []));
      n := 0;
    }

    method ProjectOne(l: Label, raw: Option<string>) returns (x: string)
      ensures x == Project(l, raw) && Emitted(l, raw, x)
    {
      x := if raw.None? then "" else raw.value;
      if l.values.None? { return; }
      for i := 0 to |l.values.value|
        invariant x !in l.values.value[..i]
      {
        if l.values.value[i] == x { return; }
      }
      assert l.values.value[..|l.values.value|] == l.values.value;
      x := if l.fallback.None? then "" else l.fallback.value;
    }

    /** Compare label by label, as far as the call's own count goes. */
    method SameValues(vals: seq<string>, proj: seq<string>) returns (hit: bool)
      requires |vals| == |proj|
      ensures hit <==> vals == proj
    {
      for k := 0 to |proj|
        invariant vals[..k] == proj[..k]
      {
        if vals[k] != proj[k] { return false; }
      }
      assert vals[..|proj|] == vals && proj[..|proj|] == proj;
      hit := true;
    }

    /** The index of the series for these label values, making it if there is room. */
    method Intern(metric: nat, proj: seq<string>) returns (at: Option<nat>)
      requires Valid() && metric < |rows|
      modifies this`n, slots
      ensures Valid()
      ensures var k := Key(metric, proj); var i := Slot(old(Contents()), k);
              if i < old(n) then at == Some(i) && Contents() == old(Contents())
              else if old(n) >= MAX_SERIES then at == None && Contents() == old(Contents())
              else at == Some(old(n)) && Contents() == old(Contents()) + [Fresh(width, rows[metric].m, k)]
    {
      ghost var was, k := Contents(), Key(metric, proj);
      var i := 0;
      while i < n
        invariant i <= n == old(n) && slots[..] == old(slots[..])
        invariant forall j :: 0 <= j < i ==> SeriesKey(was[j]) != k
      {
        var s := slots[i];
        assert was[i] == s;
        if s.metric == metric && |s.vals| == |proj| {
          var hit := SameValues(s.vals, proj);
          if hit {
            SlotIs(was, k, i);
            return Some(i);
          }
        }
        i := i + 1;
      }
      SlotIs(was, k, n);
      if n >= MAX_SERIES { return None; }
      slots[n] := Fresh(width, rows[metric].m, Key(metric, proj));
      n := n + 1;
      at := Some(n - 1);
      assert Contents() == was + [Fresh(width, rows[metric].m, k)];
    }

    method Take(o: Obs)
      requires Valid()
      modifies this`n, slots
      ensures Valid() && Contents() == Observe(rows, width, old(Contents()), o)
    {
      if o.metric < 0 || o.metric >= |rows| { return; }
      var m := rows[o.metric].m;
      if |o.raws| != |m.labels| { return; }
      var proj: seq<string> := [];
      for i := 0 to |m.labels|
        invariant proj == Projected(m.labels[..i], o.raws[..i]) && n == old(n) && slots[..] == old(slots[..])
      {
        var x := ProjectOne(m.labels[i], o.raws[i]);
        assert m.labels[..i + 1][..i] == m.labels[..i] && o.raws[..i + 1][..i] == o.raws[..i];
        proj := proj + [x];
      }
      assert m.labels[..|m.labels|] == m.labels && o.raws[..|m.labels|] == o.raws;
      var at := Intern(o.metric, proj);
      if at.None? { return; }
      Tallied(at.value, m, o);
    }

    /** Add one observation to a series in place. */
    method Tallied(at: nat, m: Metric, o: Obs)
      requires Valid() && at < n && m == rows[slots[at].metric].m
      modifies slots
      ensures Valid() && Contents() == old(Contents())[at := Bump(m, old(Contents())[at], o)]
    {
      var s := slots[at];
      assert s == Contents()[at];
      s := s.(count := s.count + 1);
      if m.isHist && o.hasValue {
        var b := BucketOf(m.bounds, o.value);
        s := s.(buckets := s.buckets[b := s.buckets[b] + 1], sum := s.sum + o.value);
      }
      slots[at] := s;
    }

    method BucketOf(bounds: seq<real>, v: real) returns (b: nat)
      ensures b == Bucket(bounds, v)
    {
      for i := 0 to |bounds|
        invariant forall j :: 0 <= j < i ==> bounds[j] < v
      {
        if v <= bounds[i] { return i; }
      }
      b := |bounds|;
    }
  }

  lemma {:induction false} SlotIs(ss: seq<Series>, k: Key, i: nat)
    requires i <= |ss| && (i < |ss| ==> SeriesKey(ss[i]) == k)
    requires forall j :: 0 <= j < i ==> SeriesKey(ss[j]) != k
    ensures Slot(ss, k) == i
  {
  }

  // ----- what the generated intake passes -----

  /** A label without a set is fed by its closed map, through a buffer of the derivation's cap. */
  ghost predicate Rendered(maps: seq<ValueMap>, s: Schema, l: Label, raw: Option<string>)
    requires LabelBound(maps, s, l).Some?
  {
    l.values.None? ==>
      var d := FindProperty(s, l.from).value.d;
      d.cap > 1 && exists v: int :: raw == Some(Cut(d.cap, Render(FindMap(maps, d.impl).value, v)))
  }

  ghost predicate FromIntake(maps: seq<ValueMap>, rows: seq<Row>, o: Obs)
    requires RowsOk(maps, rows)
  {
    Addressed(rows, o) ==>
      var r := rows[o.metric];
      assert RowOk(maps, r);
      forall i :: 0 <= i < |r.m.labels| ==> Rendered(maps, r.s, r.m.labels[i], o.raws[i])
  }

  /** Whatever a record holds, a label comes out as one of its outputs, short enough to store whole. */
  lemma ProjectIsOutput(maps: seq<ValueMap>, s: Schema, l: Label, raw: Option<string>, w: int)
    requires LabelBound(maps, s, l).Some? && Rendered(maps, s, l, raw) && Holds(s, l, w)
    ensures Project(l, raw) in Outputs(maps, s, l) && |Project(l, raw)| < w
  {
    if l.values.None? {
      var d := FindProperty(s, l.from).value.d;
      var m := FindMap(maps, d.impl).value;
      var v: int :| raw == Some(Cut(d.cap, Render(m, v)));
      if FirstName(m.values, v).Some? {
        var e :| e in m.values && e.name == FirstName(m.values, v).value;
        assert Cut(d.cap, e.name) in Outputs(maps, s, l);
      }
    }
  }

  lemma {:induction false} ProjectedIsTuple(maps: seq<ValueMap>, s: Schema, ls: seq<Label>,
                                            raws: seq<Option<string>>, w: int)
    requires LabelsOk(maps, s, ls) && |raws| == |ls| && w > 0
    requires forall i :: 0 <= i < |ls| ==> Rendered(maps, s, ls[i], raws[i]) && Holds(s, ls[i], w)
    ensures Projected(ls, raws) in Tuples(maps, s, ls) && Stored(w, Projected(ls, raws)) == Projected(ls, raws)
  {
    if ls != [] {
      var n := |ls| - 1;
      var init, x := Projected(ls[..n], raws[..n]), Project(ls[n], raws[n]);
      ProjectedIsTuple(maps, s, ls[..n], raws[..n], w);
      ProjectIsOutput(maps, s, ls[n], raws[n], w);
      assert init in Tuples(maps, s, ls[..n]) && x in Outputs(maps, s, ls[n]);
      assert Projected(ls, raws) == init + [x];
      assert Stored(w, init + [x]) == Stored(w, init) + [Cut(w, x)];
    }
  }
}
