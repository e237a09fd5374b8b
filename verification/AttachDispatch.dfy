/**
 The attach vocabulary: a table of method-name prefixes whose order is match order, the gate
 that refuses shadowed and repeated rows, and the walk that picks a row for a name.

 On every table the gate passes, the row picked is the one with the longest prefix that takes
 the name, so the order of the rows does not matter.
 */
module AttachDispatch {
  import opened Common

  datatype SecMode = Fixed | Template | Split2 | NoSec

  /** How a row is recognised: by a prefix of the method name, or by the class pass. */
  datatype Detect = ByPrefix(prefix: string, needsSep: bool, excludes: Option<string>) | ByClass

  datatype Row = Row(kind: string, kname: string, detect: Detect, mode: SecMode, pattern: string)

  // ----- the walk -----

  /** strstr(s, "__"): where the first separator starts. */
  function FirstSep(s: string): (r: Option<nat>)
    ensures r.Some? ==> r.value + 1 < |s| && s[r.value] == '_' && s[r.value + 1] == '_'
    ensures r.Some? ==> forall i :: 0 <= i < r.value ==> !(s[i] == '_' && s[i + 1] == '_')
    ensures r.None? ==> forall i :: 0 <= i && i + 1 < |s| ==> !(s[i] == '_' && s[i + 1] == '_')
  {
    if |s| < 2 then None
    else if s[0] == '_' && s[1] == '_' then Some(0)
    else match FirstSep(s[1..])
         case None => None
         case Some(i) => Some(i + 1)
  }

  /** The row takes the name: its prefix matches, and the rest has the separator it may need. */
  predicate Takes(r: Row, name: string) {
    r.detect.ByPrefix? && r.detect.prefix <= name &&
    (r.detect.needsSep ==> FirstSep(name[|r.detect.prefix|..]).Some?)
  }

  datatype Answer = NoAttach | Attached(row: Row, sec: Option<string>)

  function UpTo(ch: char, s: string): string {
    if s == [] || s[0] == ch then [] else [s[0]] + UpTo(ch, s[1..])
  }

  /** The category of a tracepoint, in a buffer of 128 bytes. */
  function Category(rest: string, sep: nat): string
    requires sep <= |rest|
  {
    rest[..if sep >= 128 then 127 else sep]
  }

  /** What a row that takes the name answers; an excluded rest or a missing event stops with nothing. */
  function Answers(r: Row, name: string): Answer
    requires Takes(r, name)
  {
    var rest := name[|r.detect.prefix|..];
    if r.detect.excludes.Some? && r.detect.excludes.value <= rest then NoAttach
    else match r.mode
      case Split2 =>
        (match FirstSep(rest)
         case None => NoAttach
         case Some(i) => Attached(r, Some("tracepoint/" + Category(rest, i) + "/" + rest[i + 2..])))
      case Fixed => Attached(r, Some(r.pattern))
      case Template => Attached(r, Some(UpTo('<', r.pattern) + rest))
      case NoSec => Attached(r, None)
  }

  /** The index of the first row that takes the name. */
  function FirstTaking(rows: seq<Row>, name: string): (i: nat)
    ensures i <= |rows| && (i < |rows| ==> Takes(rows[i], name)) && forall j :: 0 <= j < i ==> !Takes(rows[j], name)
  {
    if rows == [] || Takes(rows[0], name) then 0 else 1 + FirstTaking(rows[1..], name)
  }

  function Dispatch(rows: seq<Row>, name: string): Answer {
    var i := FirstTaking(rows, name);
    if i < |rows| then Answers(rows[i], name) else NoAttach
  }

  /** cc_detect_attach */
  method DetectAttach(rows: seq<Row>, name: string) returns (a: Answer)
    ensures a == Dispatch(rows, name)
  {
    for i := 0 to |rows|
      invariant forall j :: 0 <= j < i ==> !Takes(rows[j], name)
    {
      var r := rows[i];
      if !r.detect.ByPrefix? { continue; }
      if !(r.detect.prefix <= name) { continue; }
      var rest := name[|r.detect.prefix|..];
      if r.detect.needsSep && FirstSep(rest).None? { continue; }
      assert FirstTaking(rows, name) == i;
      if r.detect.excludes.Some? && r.detect.excludes.value <= rest { return NoAttach; }
      if r.mode.Split2? {
        var sep := FirstSep(rest);
        if sep.None? { return NoAttach; }
        return Attached(r, Some("tracepoint/" + Category(rest, sep.value) + "/" + rest[sep.value + 2..]));
      }
      match r.mode
      case Fixed => return Attached(r, Some(r.pattern));
      case Template => return Attached(r, Some(UpTo('<', r.pattern) + rest));
      case NoSec => return Attached(r, None);
    }
    a := NoAttach;
  }

  // ----- the gate -----

  predicate Shadows(early: Row, late: Row) {
    early.detect.ByPrefix? && late.detect.ByPrefix? && early.detect.prefix <= late.detect.prefix
  }

  predicate ShadowFree(rows: seq<Row>) {
    forall i, j :: 0 <= i < j < |rows| ==> !Shadows(rows[i], rows[j])
  }

  /** Every pair of prefix rows the wrong way round, as kind and shadowing kind. */
  method ShadowViolations(rows: seq<Row>) returns (v: seq<Pair<string, string>>)
    ensures v == [] <==> ShadowFree(rows)
  {
    v := [];
    for j := 0 to |rows|
      invariant v == [] <==> forall i, k :: 0 <= i < k < j ==> !Shadows(rows[i], rows[k])
    {
      ghost var clean := v == [];
      if rows[j].detect.ByPrefix? {
        for i := 0 to j
          invariant v == [] <==> clean && forall k :: 0 <= k < i ==> !Shadows(rows[k], rows[j])
        {
          if rows[i].detect.ByPrefix? && rows[i].detect.prefix <= rows[j].detect.prefix {
            v := v + [Pair(rows[j].kind, rows[i].kind)];
          }
        }
      }
    }
  }

  predicate Clash(a: Row, b: Row) {
    || a.kind == b.kind || a.kname == b.kname
    || (a.detect.ByPrefix? && b.detect.ByPrefix? && a.detect.prefix == b.detect.prefix)
  }

  predicate Unique(rows: seq<Row>) {
    forall i, j :: 0 <= i < j < |rows| ==> !Clash(rows[i], rows[j])
  }

  function Kinds(rows: seq<Row>): (r: seq<string>)
    ensures |r| == |rows| && forall i :: 0 <= i < |r| ==> r[i] == rows[i].kind
  {
    seq(|rows|, i requires 0 <= i < |rows| => rows[i].kind)
  }

  function Knames(rows: seq<Row>): (r: seq<string>)
    ensures |r| == |rows| && forall i :: 0 <= i < |r| ==> r[i] == rows[i].kname
  {
    seq(|rows|, i requires 0 <= i < |rows| => rows[i].kname)
  }

  /** The prefixes there are, class rows dropped. */
  function Prefixes(rows: seq<Row>): seq<string> {
    if rows == [] then [] else
    var r := rows[|rows| - 1];
    Prefixes(rows[..|rows| - 1]) + if r.detect.ByPrefix? then [r.detect.prefix] else []
  }

  ghost predicate NoRepeat(xs: seq<string>) {
    forall i, j :: 0 <= i < j < |xs| ==> xs[i] != xs[j]
  }

  /** The values a tally counts more than once. */
  method Duplicates(xs: seq<string>) returns (dup: set<string>)
    ensures dup == {} <==> NoRepeat(xs)
  {
    var tally: map<string, nat> := map[];
    dup := {};
    for i := 0 to |xs|
      invariant forall x :: x in tally <==> x in xs[..i]
      invariant dup == {} <==> NoRepeat(xs[..i])
    {
      var x := xs[i];
      assert xs[..i + 1] == xs[..i] + [x];
      if x in tally {
        dup := dup + {x};
        tally := tally[x := tally[x] + 1];
      } else {
        tally := tally[x := 1];
      }
    }
    assert xs[..|xs|] == xs;
  }

  datatype Repeated = KindRepeated | KnameRepeated | PrefixRepeated

  method UniquenessViolations(rows: seq<Row>) returns (v: seq<Repeated>)
    ensures v == [] <==> Unique(rows)
  {
    v := [];
    var kinds := Duplicates(Kinds(rows));
    if kinds != {} { v := v + [KindRepeated]; }
    var knames := Duplicates(Knames(rows));
    if knames != {} { v := v + [KnameRepeated]; }
    var prefixes := Duplicates(Prefixes(rows));
    if prefixes != {} { v := v + [PrefixRepeated]; }
    PrefixesUnique(rows);
    FieldsUnique(rows);
  }

  ghost predicate DistinctPrefixes(rows: seq<Row>) {
    forall i, j :: 0 <= i < j < |rows| && rows[i].detect.ByPrefix? && rows[j].detect.ByPrefix? ==>
      rows[i].detect.prefix != rows[j].detect.prefix
  }

  lemma {:induction false} PrefixIn(rows: seq<Row>, p: string)
    ensures p in Prefixes(rows) <==>
            exists i :: 0 <= i < |rows| && rows[i].detect.ByPrefix? && rows[i].detect.prefix == p
  {
    if rows != [] {
      var n := |rows| - 1;
      PrefixIn(rows[..n], p);
      if p in Prefixes(rows[..n]) {
        var i :| 0 <= i < n && rows[..n][i].detect.ByPrefix? && rows[..n][i].detect.prefix == p;
        assert rows[i].detect.prefix == p;
      }
      if i :| 0 <= i < n && rows[i].detect.ByPrefix? && rows[i].detect.prefix == p {
        assert rows[..n][i].detect.prefix == p;
      }
    }
  }

  lemma {:induction false} PrefixesUnique(rows: seq<Row>)
    ensures NoRepeat(Prefixes(rows)) <==> DistinctPrefixes(rows)
  {
    if rows != [] {
      var n := |rows| - 1;
      PrefixesUnique(rows[..n]);
      PrefixesStep(rows[..n], rows[n]);
      assert rows == rows[..n] + [rows[n]];
    }
  }

  lemma {:induction false} PrefixesStep(rows: seq<Row>, r: Row)
    requires NoRepeat(Prefixes(rows)) <==> DistinctPrefixes(rows)
    ensures NoRepeat(Prefixes(rows + [r])) <==> DistinctPrefixes(rows + [r])
  {
    var all := rows + [r];
    assert all[..|rows|] == rows;
    if r.detect.ByPrefix? {
      PrefixIn(rows, r.detect.prefix);
      RepeatStep(Prefixes(rows), r.detect.prefix);
      DistinctStep(rows, r);
    } else {
      assert forall i :: 0 <= i < |rows| ==> all[i] == rows[i];
      assert Prefixes(all) == Prefixes(rows);
    }
  }

  lemma RepeatStep(xs: seq<string>, x: string)
    ensures NoRepeat(xs + [x]) <==> NoRepeat(xs) && x !in xs
  {
    var ys := xs + [x];
    assert forall i :: 0 <= i < |xs| ==> ys[i] == xs[i];
    if x in xs {
      var i :| 0 <= i < |xs| && xs[i] == x;
      assert ys[i] == ys[|xs|];
    }
  }

  lemma DistinctStep(rows: seq<Row>, r: Row)
    requires r.detect.ByPrefix?
    ensures DistinctPrefixes(rows + [r]) <==>
            DistinctPrefixes(rows) &&
            !exists i :: 0 <= i < |rows| && rows[i].detect.ByPrefix? && rows[i].detect.prefix == r.detect.prefix
  {
    var all := rows + [r];
    assert forall i :: 0 <= i < |rows| ==> all[i] == rows[i];
    if DistinctPrefixes(all) {
      forall i, j | 0 <= i < j < |rows| && rows[i].detect.ByPrefix? && rows[j].detect.ByPrefix?
        ensures rows[i].detect.prefix != rows[j].detect.prefix
      {
        assert all[i] == rows[i] && all[j] == rows[j];
      }
      forall i | 0 <= i < |rows| && rows[i].detect.ByPrefix? ensures rows[i].detect.prefix != r.detect.prefix {
        assert all[i] == rows[i] && all[|rows|] == r;
      }
    }
  }

  lemma FieldsUnique(rows: seq<Row>)
    ensures Unique(rows) <==> NoRepeat(Kinds(rows)) && NoRepeat(Knames(rows)) && DistinctPrefixes(rows)
  {
    if NoRepeat(Kinds(rows)) && NoRepeat(Knames(rows)) && DistinctPrefixes(rows) {
      forall i, j | 0 <= i < j < |rows| ensures !Clash(rows[i], rows[j]) {
        assert Kinds(rows)[i] != Kinds(rows)[j] && Knames(rows)[i] != Knames(rows)[j];
      }
    }
    if Unique(rows) {
      forall i, j | 0 <= i < j < |rows| ensures rows[i].kind != rows[j].kind && rows[i].kname != rows[j].kname {
        assert !Clash(rows[i], rows[j]);
      }
      forall i, j | 0 <= i < j < |rows| && rows[i].detect.ByPrefix? && rows[j].detect.ByPrefix?
        ensures rows[i].detect.prefix != rows[j].detect.prefix
      {
        assert !Clash(rows[i], rows[j]);
      }
    }
  }

  // ----- longest prefix -----

  /** Two prefixes of one name: the shorter is a prefix of the longer. */
  lemma PrefixesNest(p: string, q: string, name: string)
    requires p <= name && q <= name && |p| <= |q|
    ensures p <= q
  {
  }

  /** Of all rows that take a name, the first has the longest prefix, and no other has one as long. */
  lemma {:induction false} FirstIsLongest(rows: seq<Row>, name: string, q: Row)
    requires ShadowFree(rows) && q in rows && Takes(q, name)
    ensures var i := FirstTaking(rows, name);
            i < |rows| && (q == rows[i] || |q.detect.prefix| < |rows[i].detect.prefix|)
  {
    var i := FirstTaking(rows, name);
    var j :| 0 <= j < |rows| && rows[j] == q;
    if i < j && |rows[i].detect.prefix| <= |q.detect.prefix| {
      PrefixesNest(rows[i].detect.prefix, q.detect.prefix, name);
      assert Shadows(rows[i], rows[j]);
      assert false;
    }
  }

  /** Any two shadow-free orders of the same rows give the same answer for every name. */
  lemma OrderIndependent(rows: seq<Row>, other: seq<Row>, name: string)
    requires ShadowFree(rows) && ShadowFree(other)
    requires forall r :: r in rows <==> r in other
    ensures Dispatch(rows, name) == Dispatch(other, name)
  {
    var i, j := FirstTaking(rows, name), FirstTaking(other, name);
    if i < |rows| {
      assert rows[i] in other;
      FirstIsLongest(other, name, rows[i]);
      assert other[j] in rows;
      FirstIsLongest(rows, name, other[j]);
    } else if j < |other| {
      assert other[j] in rows;
      FirstIsLongest(rows, name, other[j]);
    }
  }

  // ----- the section a row answers with -----

  lemma {:induction false} SepAt(s: string, n: nat)
    requires n + 1 < |s| && s[n] == '_' && s[n + 1] == '_'
    requires forall i :: 0 <= i < n ==> !(s[i] == '_' && s[i + 1] == '_')
    ensures FirstSep(s) == Some(n)
  {
  }

  lemma {:induction false} UpToIs(before: string, ch: char, after: string)
    requires ch !in before
    ensures UpTo(ch, before + [ch] + after) == before
  {
    var s := before + [ch] + after;
    if before != [] {
      assert s[1..] == before[1..] + [ch] + after;
      UpToIs(before[1..], ch, after);
    }
  }

  /** A prefix, a category without a separator, `__` and an event: the section of a tracepoint, the category cut
      at 127 characters. */
  lemma {:induction false} SplitSection(r: Row, category: string, event: string)
    requires r.detect.ByPrefix? && r.mode.Split2?
    requires forall i :: 0 <= i < |category| ==> category[i] != '_' || (i + 1 < |category| && category[i + 1] != '_')
    requires r.detect.excludes.Some? ==> !(r.detect.excludes.value <= category + "__" + event)
    ensures Takes(r, r.detect.prefix + category + "__" + event)
    ensures Answers(r, r.detect.prefix + category + "__" + event) ==
            Attached(r, Some("tracepoint/" + (if |category| < 128 then category else category[..127]) + "/" + event))
  {
    var rest, n := category + "__" + event, |category|;
    var name := r.detect.prefix + category + "__" + event;
    assert name[|r.detect.prefix|..] == rest;
    forall i | 0 <= i < n ensures !(rest[i] == '_' && rest[i + 1] == '_') {
      assert rest[i] == category[i];
      assert category[i] != '_' || (i + 1 < n && category[i + 1] != '_');
      if i + 1 < n { assert rest[i + 1] == category[i + 1]; }
    }
    SepAt(rest, n);
    assert rest[..n] == category && rest[n + 2..] == event && (n >= 127 ==> rest[..127] == category[..127]);
  }

  /** The other rows: a fixed section, the rest of the name after the pattern's placeholder, or none; and a
      tracepoint without an event. */
  lemma {:induction false} OtherSections(r: Row, rest: string, before: string, after: string)
    requires r.detect.ByPrefix? && Takes(r, r.detect.prefix + rest) && '<' !in before
    requires r.detect.excludes.Some? ==> !(r.detect.excludes.value <= rest)
    ensures r.mode.Fixed? ==> Answers(r, r.detect.prefix + rest) == Attached(r, Some(r.pattern))
    ensures r.mode.Template? && r.pattern == before + "<" + after ==>
              Answers(r, r.detect.prefix + rest) == Attached(r, Some(before + rest))
    ensures r.mode.NoSec? ==> Answers(r, r.detect.prefix + rest) == Attached(r, None)
    ensures r.mode.Split2? && (forall i :: 0 <= i < |rest| - 1 ==> rest[i] != '_' || rest[i + 1] != '_') ==>
              Answers(r, r.detect.prefix + rest) == NoAttach
  {
    assert (r.detect.prefix + rest)[|r.detect.prefix|..] == rest;
    UpToIs(before, '<', after);
  }

  /** A name whose rest starts with what the row excludes attaches to nothing, whatever rows follow. */
  lemma {:induction false} ExcludedAttachesNothing(rows: seq<Row>, i: nat, more: string)
    requires i < |rows| && rows[i].detect.ByPrefix? && rows[i].detect.excludes.Some?
    requires FirstTaking(rows, rows[i].detect.prefix + rows[i].detect.excludes.value + more) == i
    ensures Dispatch(rows, rows[i].detect.prefix + rows[i].detect.excludes.value + more) == NoAttach
  {
    var d := rows[i].detect;
    assert (d.prefix + d.excludes.value + more)[|d.prefix|..] == d.excludes.value + more;
  }

  // ----- what a shadowed row still answers -----

  lemma {:induction false} SepInRest(s: string, k: nat)
    requires k <= |s| && FirstSep(s[k..]).Some?
    ensures FirstSep(s).Some?
  {
    var i := FirstSep(s[k..]).value;
    assert s[k..][i] == s[k + i] && s[k..][i + 1] == s[k + i + 1];
  }

  /** The shorter row steps aside for the longer one: only it asks for a separator, and what the
      longer prefix adds has none. */
  predicate StepsAside(early: Row, late: Row)
    requires Shadows(early, late)
  {
    early.detect.needsSep && !late.detect.needsSep && FirstSep(late.detect.prefix[|early.detect.prefix|..]).None?
  }

  /** A shadowed row is out of reach for every name unless its shadower steps aside. */
  lemma {:induction false} ShadowedIsUnreachable(rows: seq<Row>, i: nat, j: nat, name: string)
    requires i < j < |rows| && Shadows(rows[i], rows[j]) && !StepsAside(rows[i], rows[j])
    ensures FirstTaking(rows, name) != j
  {
    if Takes(rows[j], name) {
      TakesToo(rows[i], rows[j], name);
    }
  }

  lemma TakesToo(early: Row, late: Row, name: string)
    requires Shadows(early, late) && !StepsAside(early, late) && Takes(late, name)
    ensures Takes(early, name)
  {
    var p, q := early.detect.prefix, late.detect.prefix;
    var rest := name[|p|..];
    if late.detect.needsSep {
      assert name[|q|..] == rest[|q| - |p|..];
      SepInRest(rest, |q| - |p|);
    } else if early.detect.needsSep {
      var more := q[|p|..];
      var i := FirstSep(more).value;
      assert rest[i] == more[i] && rest[i + 1] == more[i + 1];
    }
  }

  /** Of two rows the wrong way round, the later one is reached by some name if and only if the
      earlier one steps aside. */
  lemma ReachedExactlyWhen(early: Row, late: Row)
    requires Shadows(early, late)
    ensures (exists name :: FirstTaking([early, late], name) == 1) <==> StepsAside(early, late)
  {
    var rows := [early, late];
    if StepsAside(early, late) {
      var name := late.detect.prefix;
      assert !Takes(rows[0], name) && Takes(rows[1], name);
      assert FirstTaking(rows, name) == 1;
    } else {
      forall name ensures FirstTaking(rows, name) != 1 {
        assert Shadows(rows[0], rows[1]);
        ShadowedIsUnreachable(rows, 0, 1, name);
      }
    }
  }

  /** Such a pair, and the name that reaches past the shadower. */
  lemma SeparatorReaches(a: Row, b: Row)
    requires a.detect == ByPrefix("trace", true, None) && b.detect == ByPrefix("trace_exit", false, None)
    ensures Shadows(a, b) && !ShadowFree([a, b]) && FirstTaking([a, b], "trace_exit") == 1
  {
    var rows := [a, b];
    assert "trace_exit"[..5] == "trace" && "trace_exit"[5..] == "_exit";
    assert Shadows(rows[0], rows[1]) && !Takes(rows[0], "trace_exit") && Takes(rows[1], "trace_exit");
  }

  // ----- what the gate's order rule means -----

  ghost predicate LongestFirst(rows: seq<Row>, name: string) {
    forall j :: 0 <= j < |rows| && Takes(rows[j], name) ==>
      |rows[j].detect.prefix| <= |rows[FirstTaking(rows, name)].detect.prefix|
  }

  ghost predicate InNoPrefix(rows: seq<Row>, ch: char) {
    forall i :: 0 <= i < |rows| && rows[i].detect.ByPrefix? ==> ch !in rows[i].detect.prefix
  }

  /** Longest-first for every name is what shadow-free means, with or without separators; `ch` is any
      character that no prefix has. */
  lemma ShadowFreeExactly(rows: seq<Row>, ch: char)
    requires DistinctPrefixes(rows) && InNoPrefix(rows, ch)
    ensures ShadowFree(rows) <==> forall name :: LongestFirst(rows, name)
  {
    if ShadowFree(rows) {
      forall name ensures LongestFirst(rows, name) {
        forall j | 0 <= j < |rows| && Takes(rows[j], name)
          ensures |rows[j].detect.prefix| <= |rows[FirstTaking(rows, name)].detect.prefix|
        {
          FirstIsLongest(rows, name, rows[j]);
        }
      }
    }
    if forall name :: LongestFirst(rows, name) {
      forall i, j | 0 <= i < j < |rows| ensures !Shadows(rows[i], rows[j]) {
        if Shadows(rows[i], rows[j]) {
          LongestRefuted(rows, i, j, ch);
          assert false;
        }
      }
    }
  }

  /** A name just past the shadowed prefix, with a separator for whoever asks. */
  function Past(p: string, ch: char): string {
    p + [ch, '_', '_']
  }

  lemma PrefixOfPast(q: string, p: string, ch: char)
    ensures q <= Past(p, ch) ==> ch in q || q <= p
  {
    if q <= Past(p, ch) && |p| < |q| { assert q[|p|] == Past(p, ch)[|p|]; }
  }

  lemma TakesPast(r: Row, p: string, ch: char)
    requires r.detect.ByPrefix? && ch !in r.detect.prefix
    ensures Takes(r, Past(p, ch)) <==> r.detect.prefix <= p
  {
    var name, q := Past(p, ch), r.detect.prefix;
    PrefixOfPast(q, p, ch);
    if q <= p {
      assert name[|q|..][|p| - |q| + 1..] == "__";
      SepInRest(name[|q|..], |p| - |q| + 1);
    }
  }

  /** That name goes to a shorter row than the shadowed one. */
  lemma LongestRefuted(rows: seq<Row>, i: nat, j: nat, ch: char)
    requires i < j < |rows| && Shadows(rows[i], rows[j]) && DistinctPrefixes(rows) && InNoPrefix(rows, ch)
    ensures !LongestFirst(rows, Past(rows[j].detect.prefix, ch))
  {
    var p := rows[j].detect.prefix;
    var name := Past(p, ch);
    TakesPast(rows[i], p, ch);
    TakesPast(rows[j], p, ch);
    var k := FirstTaking(rows, name);
    TakesPast(rows[k], p, ch);
    assert k <= i && rows[k].detect.prefix <= p && rows[k].detect.prefix != p;
    assert |rows[k].detect.prefix| < |p| && Takes(rows[j], name);
  }
}
