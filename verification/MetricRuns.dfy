/** Whole runs of the metric accumulator: bounded, never full, and exact. */
module MetricRuns {
  import opened Common
  import opened MetricBounds
  import opened MetricSeries

  ghost function Run(rows: seq<Row>, w: int, obs: seq<Obs>): (ss: seq<Series>)
    requires w > 0
    ensures Formed(rows, ss)
  {
    if obs == [] then [] else Observe(rows, w, Run(rows, w, obs[..|obs| - 1]), obs[|obs| - 1])
  }

  // ----- what a run comes to, counted without any table of series -----

  ghost predicate Counts(rows: seq<Row>, k: Key, o: Obs) {
    Addressed(rows, o) && KeyOf(rows, o) == k
  }

  ghost predicate CountsIn(rows: seq<Row>, k: Key, b: nat, o: Obs) {
    Counts(rows, k, o) && Timed(rows[o.metric].m, o) && Bucket(rows[o.metric].m.bounds, o.value) == b
  }

  ghost function Tally(rows: seq<Row>, obs: seq<Obs>, k: Key): nat {
    if obs == [] then 0 else
    Tally(rows, obs[..|obs| - 1], k) + if Counts(rows, k, obs[|obs| - 1]) then 1 else 0
  }

  ghost function TallyIn(rows: seq<Row>, obs: seq<Obs>, k: Key, b: nat): nat {
    if obs == [] then 0 else
    TallyIn(rows, obs[..|obs| - 1], k, b) + if CountsIn(rows, k, b, obs[|obs| - 1]) then 1 else 0
  }

  ghost function SumOf(rows: seq<Row>, obs: seq<Obs>, k: Key): real {
    if obs == [] then 0.0 else
    var o := obs[|obs| - 1];
    SumOf(rows, obs[..|obs| - 1], k) + if Counts(rows, k, o) && Timed(rows[o.metric].m, o) then o.value else 0.0
  }

  /** A series holds exactly what the run's observations with its key came to. */
  ghost predicate Exact(rows: seq<Row>, obs: seq<Obs>, s: Series) {
    var k := SeriesKey(s);
    && s.count == Tally(rows, obs, k) > 0
    && s.sum == SumOf(rows, obs, k)
    && (forall b :: 0 <= b < |s.buckets| ==> s.buckets[b] == TallyIn(rows, obs, k, b))
  }

  // ----- the keys there can be -----

  ghost function MetricKeys(maps: seq<ValueMap>, r: Row, n: nat): set<Key>
    requires RowOk(maps, r)
  {
    set t | t in Tuples(maps, r.s, r.m.labels) :: Key(n, t)
  }

  ghost function AllKeys(maps: seq<ValueMap>, rows: seq<Row>): set<Key>
    requires RowsOk(maps, rows)
  {
    if rows == [] then {} else
    var n := |rows| - 1;
    AllKeys(maps, rows[..n]) + MetricKeys(maps, rows[n], n)
  }

  lemma {:induction false} TaggedAtMost(ts: set<seq<string>>, n: nat)
    ensures |set t | t in ts :: Key(n, t)| <= |ts|
  {
    if ts == {} {
      assert (set t | t in ts :: Key(n, t)) == {};
    } else {
      var t0 :| t0 in ts;
      TaggedAtMost(ts - {t0}, n);
      assert (set t | t in ts :: Key(n, t)) == (set t | t in ts - {t0} :: Key(n, t)) + {Key(n, t0)};
    }
  }

  lemma {:induction false} MetricKeysAtMost(maps: seq<ValueMap>, r: Row, n: nat)
    requires RowOk(maps, r) && SeriesBound(maps, r.s, r.m.labels) <= MAX_SERIES
    ensures |MetricKeys(maps, r, n)| <= SeriesBound(maps, r.s, r.m.labels)
  {
    TaggedAtMost(Tuples(maps, r.s, r.m.labels), n);
    TuplesWithinProduct(maps, r.s, r.m.labels);
    SaturatesExactly(maps, r.s, r.m.labels);
  }

  lemma {:induction false} AllKeysAtMost(maps: seq<ValueMap>, rows: seq<Row>)
    requires Accepted(maps, rows)
    ensures |AllKeys(maps, rows)| <= Total(maps, rows)
  {
    if rows != [] {
      var n := |rows| - 1;
      assert RowOk(maps, rows[n]);
      AllKeysAtMost(maps, rows[..n]);
      MetricKeysAtMost(maps, rows[n], n);
    }
  }

  lemma {:induction false} KeyInAll(maps: seq<ValueMap>, rows: seq<Row>, k: Key)
    requires RowsOk(maps, rows) && k.metric < |rows|
    requires assert RowOk(maps, rows[k.metric]); k.vals in Tuples(maps, rows[k.metric].s, rows[k.metric].m.labels)
    ensures k in AllKeys(maps, rows)
  {
    var n := |rows| - 1;
    assert RowOk(maps, rows[n]);
    if k.metric < n {
      assert rows[..n][k.metric] == rows[k.metric];
      KeyInAll(maps, rows[..n], k);
    } else {
      assert k == Key(n, k.vals);
    }
  }

  // ----- distinct keys -----

  ghost predicate DistinctKeys(ss: seq<Series>) {
    forall i, j :: 0 <= i < j < |ss| ==> SeriesKey(ss[i]) != SeriesKey(ss[j])
  }

  ghost function Keys(ss: seq<Series>): set<Key> {
    set s | s in ss :: SeriesKey(s)
  }

  lemma {:induction false} KeysCount(ss: seq<Series>)
    requires DistinctKeys(ss)
    ensures |Keys(ss)| == |ss|
  {
    if ss != [] {
      var n := |ss| - 1;
      KeysCount(ss[..n]);
      assert Keys(ss) == Keys(ss[..n]) + {SeriesKey(ss[n])};
      forall s | s in ss[..n] ensures SeriesKey(s) != SeriesKey(ss[n]) {
        var i :| 0 <= i < n && ss[i] == s;
      }
    } else {
      assert Keys(ss) == {};
    }
  }

  lemma SubsetCount(a: set<Key>, b: set<Key>)
    requires a <= b
    ensures |a| <= |b|
  {
    assert b == a + (b - a);
  }

  // ----- the invariant of every run -----

  ghost predicate Inv(maps: seq<ValueMap>, rows: seq<Row>, obs: seq<Obs>, ss: seq<Series>)
    requires RowsOk(maps, rows)
  {
    && Formed(rows, ss)
    && DistinctKeys(ss)
    && Keys(ss) <= AllKeys(maps, rows)
    && (forall i :: 0 <= i < |ss| ==> Exact(rows, obs, ss[i]))
    && (forall k :: Tally(rows, obs, k) > 0 ==> Slot(ss, k) < |ss|)
  }

  /** What the intake passes to a metric becomes one of that metric's keys, stored whole. */
  lemma {:induction false} KeyIsKnown(maps: seq<ValueMap>, rows: seq<Row>, w: int, o: Obs)
    requires RowsOk(maps, rows) && TableHolds(rows, w) && FromIntake(maps, rows, o) && Addressed(rows, o)
    ensures KeyOf(rows, o) in AllKeys(maps, rows) && Stored(w, KeyOf(rows, o).vals) == KeyOf(rows, o).vals
  {
    var r := rows[o.metric];
    assert RowOk(maps, r) && RowHolds(r, w);
    ProjectedIsTuple(maps, r.s, r.m.labels, o.raws, w);
    KeyInAll(maps, rows, KeyOf(rows, o));
  }

  /** A key not yet there leaves room for itself. */
  lemma {:induction false} RoomForKey(maps: seq<ValueMap>, rows: seq<Row>, ss: seq<Series>, k: Key)
    requires Accepted(maps, rows) && DistinctKeys(ss) && Keys(ss) <= AllKeys(maps, rows)
    requires k in AllKeys(maps, rows) && Slot(ss, k) == |ss|
    ensures |ss| < MAX_SERIES
  {
    KeysCount(ss);
    AllKeysAtMost(maps, rows);
    assert k !in Keys(ss) by {
      forall s | s in ss ensures SeriesKey(s) != k {
        var i :| 0 <= i < |ss| && ss[i] == s;
      }
    }
    SubsetCount(Keys(ss) + {k}, AllKeys(maps, rows));
  }

  lemma BumpKeeps(m: Metric, s: Series, o: Obs)
    requires |s.buckets| == |m.bounds| + 1
    ensures SeriesKey(Bump(m, s, o)) == SeriesKey(s) && |Bump(m, s, o).buckets| == |s.buckets|
  {
  }

  /** One more observation, on the series it belongs to. */
  lemma {:induction false} BumpExact(rows: seq<Row>, obs: seq<Obs>, o: Obs, s: Series)
    requires Addressed(rows, o) && KeyOf(rows, o) == SeriesKey(s)
    requires |s.buckets| == |rows[o.metric].m.bounds| + 1
    requires s.count == Tally(rows, obs, SeriesKey(s)) && s.sum == SumOf(rows, obs, SeriesKey(s))
    requires forall b :: 0 <= b < |s.buckets| ==> s.buckets[b] == TallyIn(rows, obs, SeriesKey(s), b)
    ensures Exact(rows, obs + [o], Bump(rows[o.metric].m, s, o))
  {
    var all := obs + [o];
    assert all[..|obs|] == obs && all[|obs|] == o;
  }

  /** On every other series it changes nothing. */
  lemma OtherExact(rows: seq<Row>, obs: seq<Obs>, o: Obs, s: Series)
    requires Exact(rows, obs, s) && !Counts(rows, SeriesKey(s), o)
    ensures Exact(rows, obs + [o], s)
  {
    var all := obs + [o];
    assert all[..|obs|] == obs && all[|obs|] == o;
  }

  lemma {:induction false} NeverSeen(rows: seq<Row>, obs: seq<Obs>, k: Key, b: nat)
    requires Tally(rows, obs, k) == 0
    ensures TallyIn(rows, obs, k, b) == 0 && SumOf(rows, obs, k) == 0.0
  {
    if obs != [] { NeverSeen(rows, obs[..|obs| - 1], k, b); }
  }

  lemma {:induction false} TallyNext(rows: seq<Row>, obs: seq<Obs>, o: Obs, k: Key)
    ensures Tally(rows, obs + [o], k) == Tally(rows, obs, k) + if Counts(rows, k, o) then 1 else 0
  {
    assert (obs + [o])[..|obs|] == obs;
  }

  lemma {:induction false} SlotFound(ss: seq<Series>, k: Key, i: nat)
    requires i < |ss| && SeriesKey(ss[i]) == k
    ensures Slot(ss, k) < |ss|
  {
  }

  /** An observation of a key that has a series. */
  lemma {:induction false} StepHit(maps: seq<ValueMap>, rows: seq<Row>, w: int, obs: seq<Obs>, ss: seq<Series>, o: Obs)
    requires RowsOk(maps, rows) && w > 0 && Inv(maps, rows, obs, ss) && Addressed(rows, o)
    requires Slot(ss, KeyOf(rows, o)) < |ss|
    ensures Inv(maps, rows, obs + [o], Observe(rows, w, ss, o))
  {
    var k, m := KeyOf(rows, o), rows[o.metric].m;
    var i := Slot(ss, k);
    var next := ss[i := Bump(m, ss[i], o)];
    BumpKeeps(m, ss[i], o);
    assert forall j :: 0 <= j < |ss| ==> SeriesKey(next[j]) == SeriesKey(ss[j]);
    forall j | 0 <= j < |next| ensures Exact(rows, obs + [o], next[j]) {
      if j == i { BumpExact(rows, obs, o, ss[i]); } else { OtherExact(rows, obs, o, ss[j]); }
    }
    SameKeys(ss, next);
    forall q | Tally(rows, obs + [o], q) > 0 ensures Slot(next, q) < |next| {
      StillFound(rows, obs, o, ss, next, q);
    }
  }

  lemma {:induction false} StillFound(rows: seq<Row>, obs: seq<Obs>, o: Obs, ss: seq<Series>, next: seq<Series>, q: Key)
    requires Addressed(rows, o) && |next| == |ss| && Slot(ss, KeyOf(rows, o)) < |ss|
    requires Tally(rows, obs, q) > 0 ==> Slot(ss, q) < |ss|
    requires forall j :: 0 <= j < |ss| ==> SeriesKey(next[j]) == SeriesKey(ss[j])
    requires Tally(rows, obs + [o], q) > 0
    ensures Slot(next, q) < |next|
  {
    TallyNext(rows, obs, o, q);
    SlotFound(next, q, Slot(ss, q));
  }

  lemma SameKeys(ss: seq<Series>, next: seq<Series>)
    requires DistinctKeys(ss) && |next| == |ss| && forall j :: 0 <= j < |ss| ==> SeriesKey(next[j]) == SeriesKey(ss[j])
    ensures DistinctKeys(next) && Keys(next) <= Keys(ss)
  {
    forall s | s in next ensures SeriesKey(s) in Keys(ss) {
      var j :| 0 <= j < |next| && next[j] == s;
      assert ss[j] in ss;
    }
  }

  /** An observation of a new key. */
  lemma {:induction false} StepNew(maps: seq<ValueMap>, rows: seq<Row>, w: int, obs: seq<Obs>, ss: seq<Series>, o: Obs)
    requires Accepted(maps, rows) && TableHolds(rows, w) && Inv(maps, rows, obs, ss)
    requires Addressed(rows, o) && FromIntake(maps, rows, o) && Slot(ss, KeyOf(rows, o)) == |ss|
    ensures Inv(maps, rows, obs + [o], Observe(rows, w, ss, o))
    ensures Observe(rows, w, ss, o) == ss + [Bump(rows[o.metric].m, Fresh(w, rows[o.metric].m, KeyOf(rows, o)), o)]
  {
    var k, m := KeyOf(rows, o), rows[o.metric].m;
    KeyIsKnown(maps, rows, w, o);
    RoomForKey(maps, rows, ss, k);
    var s := Fresh(w, m, k);
    assert SeriesKey(s) == k;
    BumpKeeps(m, s, o);
    var next := ss + [Bump(m, s, o)];
    assert Tally(rows, obs, k) == 0;
    forall b | 0 <= b < |s.buckets| ensures s.buckets[b] == TallyIn(rows, obs, k, b) { NeverSeen(rows, obs, k, b); }
    NeverSeen(rows, obs, k, 0);
    BumpExact(rows, obs, o, s);
    forall j | 0 <= j < |next| ensures Exact(rows, obs + [o], next[j]) {
      if j < |ss| { OtherExact(rows, obs, o, ss[j]); }
    }
    NewKeys(maps, rows, ss, next, k);
    forall q | Tally(rows, obs + [o], q) > 0 ensures Slot(next, q) < |next| {
      TallyNext(rows, obs, o, q);
      SlotFound(next, q, if q == k then |ss| else Slot(ss, q));
    }
  }

  lemma {:induction false} NewKeys(maps: seq<ValueMap>, rows: seq<Row>, ss: seq<Series>, next: seq<Series>, k: Key)
    requires RowsOk(maps, rows) && DistinctKeys(ss) && Keys(ss) <= AllKeys(maps, rows) && k in AllKeys(maps, rows)
    requires |next| == |ss| + 1 && next[..|ss|] == ss && SeriesKey(next[|ss|]) == k && Slot(ss, k) == |ss|
    ensures DistinctKeys(next) && Keys(next) <= AllKeys(maps, rows)
  {
    NewDistinct(ss, next, k);
    forall s | s in next ensures SeriesKey(s) in Keys(ss) + {k} {
      var j :| 0 <= j < |next| && next[j] == s;
      if j < |ss| { assert next[..|ss|][j] in ss; }
    }
    assert Keys(next) <= Keys(ss) + {k};
  }

  lemma {:induction false} NewDistinct(ss: seq<Series>, next: seq<Series>, k: Key)
    requires DistinctKeys(ss) && |next| == |ss| + 1 && next[..|ss|] == ss && SeriesKey(next[|ss|]) == k &&
             Slot(ss, k) == |ss|
    ensures DistinctKeys(next)
  {
    assert forall i :: 0 <= i < |ss| ==> next[i] == next[..|ss|][i] == ss[i];
  }

  lemma StepIgnored(maps: seq<ValueMap>, rows: seq<Row>, obs: seq<Obs>, ss: seq<Series>, o: Obs)
    requires RowsOk(maps, rows) && Inv(maps, rows, obs, ss) && !Addressed(rows, o)
    ensures Inv(maps, rows, obs + [o], ss)
  {
    forall j | 0 <= j < |ss| ensures Exact(rows, obs + [o], ss[j]) { OtherExact(rows, obs, o, ss[j]); }
    forall q | Tally(rows, obs + [o], q) > 0 ensures Slot(ss, q) < |ss| { TallyNext(rows, obs, o, q); }
  }

  ghost predicate AllFromIntake(maps: seq<ValueMap>, rows: seq<Row>, obs: seq<Obs>)
    requires RowsOk(maps, rows)
  {
    forall i :: 0 <= i < |obs| ==> FromIntake(maps, rows, obs[i])
  }

  lemma {:induction false} RunInv(maps: seq<ValueMap>, rows: seq<Row>, w: int, obs: seq<Obs>)
    requires Accepted(maps, rows) && TableHolds(rows, w) && AllFromIntake(maps, rows, obs)
    ensures Inv(maps, rows, obs, Run(rows, w, obs))
  {
    if obs == [] {
      EmptyInv(maps, rows);
    } else {
      var n := |obs| - 1;
      RunInv(maps, rows, w, obs[..n]);
      StepInv(maps, rows, w, obs[..n], Run(rows, w, obs[..n]), obs[n]);
      assert obs[..n] + [obs[n]] == obs;
    }
  }

  lemma EmptyInv(maps: seq<ValueMap>, rows: seq<Row>)
    requires RowsOk(maps, rows)
    ensures Inv(maps, rows, [], [])
  {
    assert Keys([]) == {};
  }

  lemma {:induction false} StepInv(maps: seq<ValueMap>, rows: seq<Row>, w: int, obs: seq<Obs>, ss: seq<Series>, o: Obs)
    requires Accepted(maps, rows) && TableHolds(rows, w) && Inv(maps, rows, obs, ss) && FromIntake(maps, rows, o)
    ensures Inv(maps, rows, obs + [o], Observe(rows, w, ss, o))
  {
    if !Addressed(rows, o) {
      StepIgnored(maps, rows, obs, ss, o);
    } else if Slot(ss, KeyOf(rows, o)) < |ss| {
      StepHit(maps, rows, w, obs, ss, o);
    } else {
      StepNew(maps, rows, w, obs, ss, o);
    }
  }

  // ----- the main results -----

  /** Label tuples the run produced for one metric. */
  ghost function Produced(rows: seq<Row>, obs: seq<Obs>, m: nat): set<seq<string>> {
    set o | o in obs && Addressed(rows, o) && o.metric == m :: KeyOf(rows, o).vals
  }

  lemma TuplesSubset(a: set<seq<string>>, b: set<seq<string>>)
    requires a <= b
    ensures |a| <= |b|
  {
    assert b == a + (b - a);
  }

  /** Per metric, any run produces at most the exact product of the label bounds in distinct tuples. */
  lemma {:induction false} MetricWithinBound(maps: seq<ValueMap>, rows: seq<Row>, w: int, obs: seq<Obs>, m: nat)
    requires Accepted(maps, rows) && TableHolds(rows, w) && AllFromIntake(maps, rows, obs) && m < |rows|
    ensures RowOk(maps, rows[m])
    ensures |Produced(rows, obs, m)| <= SeriesBound(maps, rows[m].s, rows[m].m.labels) ==
            Product(maps, rows[m].s, rows[m].m.labels)
  {
    var r := rows[m];
    assert RowOk(maps, r) && RowHolds(r, w);
    forall o | o in obs && Addressed(rows, o) && o.metric == m
      ensures KeyOf(rows, o).vals in Tuples(maps, r.s, r.m.labels)
    {
      var i :| 0 <= i < |obs| && obs[i] == o;
      assert FromIntake(maps, rows, o);
      ProjectedIsTuple(maps, r.s, r.m.labels, o.raws, w);
    }
    TuplesSubset(Produced(rows, obs, m), Tuples(maps, r.s, r.m.labels));
    TuplesWithinProduct(maps, r.s, r.m.labels);
    AcceptedIsExact(maps, rows, m);
  }

  // ----- stated over the observations themselves -----

  /** An observation of the metric whose raw values come out as the label values of the series. */
  ghost predicate Matches(rows: seq<Row>, o: Obs, s: Series) {
    && 0 <= o.metric < |rows| && o.metric == s.metric
    && var ls := rows[o.metric].m.labels;
       |o.raws| == |ls| == |s.vals| && forall i :: 0 <= i < |ls| ==> Emitted(ls[i], o.raws[i], s.vals[i])
  }

  /** Its value is to be counted in a histogram. */
  ghost predicate MatchesTimed(rows: seq<Row>, o: Obs, s: Series) {
    Matches(rows, o, s) && rows[o.metric].m.isHist && o.hasValue
  }

  /** Above every boundary before `b`, and not above `b` itself if there is one. */
  ghost predicate MatchesIn(rows: seq<Row>, o: Obs, s: Series, b: nat) {
    MatchesTimed(rows, o, s) && var bounds := rows[o.metric].m.bounds;
    b <= |bounds| && (forall i :: 0 <= i < b ==> bounds[i] < o.value) && (b < |bounds| ==> o.value <= bounds[b])
  }

  ghost function CountMatching(rows: seq<Row>, obs: seq<Obs>, s: Series): nat {
    if obs == [] then 0 else
    CountMatching(rows, obs[..|obs| - 1], s) + if Matches(rows, obs[|obs| - 1], s) then 1 else 0
  }

  ghost function CountIn(rows: seq<Row>, obs: seq<Obs>, s: Series, b: nat): nat {
    if obs == [] then 0 else
    CountIn(rows, obs[..|obs| - 1], s, b) + if MatchesIn(rows, obs[|obs| - 1], s, b) then 1 else 0
  }

  ghost function SumMatching(rows: seq<Row>, obs: seq<Obs>, s: Series): real {
    if obs == [] then 0.0 else
    var o := obs[|obs| - 1];
    SumMatching(rows, obs[..|obs| - 1], s) + if MatchesTimed(rows, o, s) then o.value else 0.0
  }

  /** The series holds what the matching observations came to. */
  ghost predicate Holding(rows: seq<Row>, obs: seq<Obs>, s: Series) {
    && s.count == CountMatching(rows, obs, s) > 0
    && s.sum == SumMatching(rows, obs, s)
    && forall b :: 0 <= b < |s.buckets| ==> s.buckets[b] == CountIn(rows, obs, s, b)
  }

  lemma {:induction false} ProjectedAt(ls: seq<Label>, raws: seq<Option<string>>, i: nat)
    requires |ls| == |raws| && i < |ls|
    ensures Projected(ls, raws)[i] == Project(ls[i], raws[i])
  {
    var n := |ls| - 1;
    if i < n { ProjectedAt(ls[..n], raws[..n], i); }
  }

  lemma EmittedOnly(l: Label, raw: Option<string>, v: string)
    ensures Emitted(l, raw, v) <==> v == Project(l, raw)
  {
  }

  lemma {:induction false} MatchesIsCounted(rows: seq<Row>, o: Obs, s: Series)
    ensures Matches(rows, o, s) <==> Counts(rows, SeriesKey(s), o)
  {
    if Addressed(rows, o) {
      var ls := rows[o.metric].m.labels;
      forall i | 0 <= i < |ls| ensures Projected(ls, o.raws)[i] == Project(ls[i], o.raws[i]) {
        ProjectedAt(ls, o.raws, i);
      }
      forall i | 0 <= i < |ls| && i < |s.vals|
        ensures Emitted(ls[i], o.raws[i], s.vals[i]) <==> s.vals[i] == Project(ls[i], o.raws[i])
      {
        EmittedOnly(ls[i], o.raws[i], s.vals[i]);
      }
      if Matches(rows, o, s) { assert s.vals == Projected(ls, o.raws); }
    }
  }

  lemma {:induction false} BucketIs(bounds: seq<real>, v: real, b: nat)
    ensures Bucket(bounds, v) == b <==>
            b <= |bounds| && (forall i :: 0 <= i < b ==> bounds[i] < v) && (b < |bounds| ==> v <= bounds[b])
  {
  }

  lemma {:induction false} MatchesInIsCounted(rows: seq<Row>, o: Obs, s: Series, b: nat)
    ensures MatchesIn(rows, o, s, b) <==> CountsIn(rows, SeriesKey(s), b, o)
  {
    MatchesIsCounted(rows, o, s);
    if Matches(rows, o, s) { BucketIs(rows[o.metric].m.bounds, o.value, b); }
  }

  lemma {:induction false} SameCounts(rows: seq<Row>, obs: seq<Obs>, s: Series, b: nat)
    ensures CountMatching(rows, obs, s) == Tally(rows, obs, SeriesKey(s))
    ensures CountIn(rows, obs, s, b) == TallyIn(rows, obs, SeriesKey(s), b)
    ensures SumMatching(rows, obs, s) == SumOf(rows, obs, SeriesKey(s))
  {
    if obs != [] {
      var n := |obs| - 1;
      SameCounts(rows, obs[..n], s, b);
      MatchesIsCounted(rows, obs[n], s);
      MatchesInIsCounted(rows, obs[n], s, b);
    }
  }

  lemma {:induction false} ExactIsHolding(rows: seq<Row>, obs: seq<Obs>, s: Series)
    requires Exact(rows, obs, s)
    ensures Holding(rows, obs, s)
  {
    SameCounts(rows, obs, s, 0);
    forall b | 0 <= b < |s.buckets| ensures s.buckets[b] == CountIn(rows, obs, s, b) { SameCounts(rows, obs, s, b); }
  }

  /**
   After any run the array holds at most the declared total of series. Every observation the table
   addresses matches exactly one of them, and each holds the count, the sum and the buckets of the
   observations that match it.
   */
  lemma {:induction false} RunIsExact(maps: seq<ValueMap>, rows: seq<Row>, w: int, obs: seq<Obs>)
    requires Accepted(maps, rows) && TableHolds(rows, w) && AllFromIntake(maps, rows, obs)
    ensures |Run(rows, w, obs)| <= Total(maps, rows) <= 256
    ensures forall i :: 0 <= i < |Run(rows, w, obs)| ==> Holding(rows, obs, Run(rows, w, obs)[i])
    ensures forall o | o in obs && 0 <= o.metric < |rows| && |o.raws| == |rows[o.metric].m.labels| ::
              MatchesOne(rows, o, Run(rows, w, obs))
  {
    var ss := Run(rows, w, obs);
    RunInv(maps, rows, w, obs);
    KeysCount(ss);
    AllKeysAtMost(maps, rows);
    SubsetCount(Keys(ss), AllKeys(maps, rows));
    forall i | 0 <= i < |ss| ensures Holding(rows, obs, ss[i]) { ExactIsHolding(rows, obs, ss[i]); }
    forall o | o in obs && Addressed(rows, o) ensures MatchesOne(rows, o, ss) {
      TalliedOnce(rows, obs, o);
      OneMatch(rows, o, ss);
    }
  }

  ghost predicate MatchesOne(rows: seq<Row>, o: Obs, ss: seq<Series>) {
    exists i :: 0 <= i < |ss| && Matches(rows, o, ss[i]) &&
                forall j :: 0 <= j < |ss| && Matches(rows, o, ss[j]) ==> j == i
  }

  lemma {:induction false} OneMatch(rows: seq<Row>, o: Obs, ss: seq<Series>)
    requires Addressed(rows, o) && Slot(ss, KeyOf(rows, o)) < |ss| && DistinctKeys(ss)
    ensures MatchesOne(rows, o, ss)
  {
    var i := Slot(ss, KeyOf(rows, o));
    forall j | 0 <= j < |ss| ensures Matches(rows, o, ss[j]) <==> SeriesKey(ss[j]) == KeyOf(rows, o) {
      MatchesIsCounted(rows, o, ss[j]);
    }
    assert Matches(rows, o, ss[i]);
  }

  lemma {:induction false} TalliedOnce(rows: seq<Row>, obs: seq<Obs>, o: Obs)
    requires o in obs && Addressed(rows, o)
    ensures Tally(rows, obs, KeyOf(rows, o)) > 0
  {
    var n := |obs| - 1;
    if obs[n] != o { TalliedOnce(rows, obs[..n], o); }
  }
}
