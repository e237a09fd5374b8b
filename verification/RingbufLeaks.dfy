/**
 The reserve/release analysis over statement trees, against the runs of the tree.

 The scan reports a local bound to a ringbuf reservation that no submit or discard names.
 Runs are taken under every choice of branches and every meaning of raw text: a report is real
 when no run gives the reservation back.
 */
module RingbufLeaks {
  import opened Common
  import opened CAst

  datatype CStmt =
    | CRawStmt(text: string)
    | CExprStmt(expr: CExpr)
    | CDecl(ctype: string, name: string, init: Option<CExpr>)
    | CReturn(result: Option<CExpr>)
    | CBlock(stmts: seq<CStmt>)
    | CIf(cond: CExpr, thenBlock: CStmt, elseBlock: Option<CStmt>)
    | CBraceBlock(body: CStmt)

  const ACQUIRE := "bpf_ringbuf_reserve"
  const SUBMIT := "bpf_ringbuf_submit"
  const DISCARD := "bpf_ringbuf_discard"

  predicate IsRelease(callee: string) { callee == SUBMIT || callee == DISCARD }

  /** `*p` and `p` both declare `p`. */
  function StripDeclarator(name: string): string {
    if name != [] && name[0] == '*' then StripDeclarator(name[1..]) else name
  }

  /** The text of an expression when it is one token; a longer text is no local's name. */
  function ExprText(e: CExpr): Option<string> {
    match e
    case CId(s) => Some(s)
    case CLit(s) => Some(s)
    case CRaw(s) => Some(s)
    case _ => None
  }

  predicate Acquires(s: CStmt) {
    s.CDecl? && s.init.Some? && s.init.value.CCall? && s.init.value.callee == ACQUIRE
  }

  predicate Releases(s: CStmt) {
    s.CExprStmt? && s.expr.CCall? && IsRelease(s.expr.callee) && s.expr.args != []
  }

  // ----- what the scan collects, in walk order -----

  function Reserved(s: CStmt): seq<string>
    decreases s, 1
  {
    match s
    case CBlock(stmts) => ReservedAll(stmts)
    case CBraceBlock(body) => Reserved(body)
    case CIf(_, t, e) => Reserved(t) + (if e.Some? then Reserved(e.value) else [])
    case CDecl(_, name, _) => if Acquires(s) then [StripDeclarator(name)] else []
    case _ => []
  }

  function ReservedAll(stmts: seq<CStmt>): seq<string>
    decreases stmts, 0
  {
    if stmts == [] then [] else Reserved(stmts[0]) + ReservedAll(stmts[1..])
  }

  function Released(s: CStmt): seq<Option<string>>
    decreases s, 1
  {
    match s
    case CBlock(stmts) => ReleasedAll(stmts)
    case CBraceBlock(body) => Released(body)
    case CIf(_, t, e) => Released(t) + (if e.Some? then Released(e.value) else [])
    case CExprStmt(e) => if Releases(s) then [ExprText(e.args[0])] else []
    case _ => []
  }

  function ReleasedAll(stmts: seq<CStmt>): seq<Option<string>>
    decreases stmts, 0
  {
    if stmts == [] then [] else Released(stmts[0]) + ReleasedAll(stmts[1..])
  }

  /** The scan itself: one walk that appends to two lists. */
  class LeakScan {
    var reserved: seq<string>
    var released: seq<Option<string>>

    constructor ()
      ensures reserved == [] && released == []
    {
      reserved, released := [], [];
    }

    method Walk(node: CStmt)
      modifies this
      ensures reserved == old(reserved) + Reserved(node)
      ensures released == old(released) + Released(node)
      decreases node, 1
    {
      match node
      case CBlock(stmts) =>
        WalkAll(stmts);
      case CBraceBlock(body) =>
        Walk(body);
      case CIf(_, thenBlock, elseBlock) =>
        Walk(thenBlock);
        if elseBlock.Some? {
          Walk(elseBlock.value);
        }
      case CDecl(_, name, _) =>
        if Acquires(node) {
          reserved := reserved + [StripDeclarator(name)];
        }
      case CExprStmt(e) =>
        if Releases(node) {
          released := released + [ExprText(e.args[0])];
        }
      case _ =>
    }

    method WalkAll(stmts: seq<CStmt>)
      modifies this
      ensures reserved == old(reserved) + ReservedAll(stmts)
      ensures released == old(released) + ReleasedAll(stmts)
      decreases stmts, 0
    {
      for i := 0 to |stmts|
        invariant reserved + ReservedAll(stmts[i..]) == old(reserved) + ReservedAll(stmts)
        invariant released + ReleasedAll(stmts[i..]) == old(released) + ReleasedAll(stmts)
      {
        Walk(stmts[i]);
        assert stmts[i..][1..] == stmts[i + 1..];
      }
    }
  }

  /** The reported names: reserved, first occurrences only, less the released ones. */
  method Leaks(s: CStmt) returns (leaks: seq<string>)
    ensures forall p :: p in leaks <==> Reported(s, p)
    ensures forall p :: p in leaks <==> DeclaredIn(s, p) && !HandedBackIn(s, p)
    ensures forall i, j :: 0 <= i < j < |leaks| ==> leaks[i] != leaks[j]
  {
    var scan := new LeakScan();
    scan.Walk(s);
    leaks := Unreleased(scan.reserved, scan.released);
    forall p ensures Reported(s, p) <==> DeclaredIn(s, p) && !HandedBackIn(s, p) { ReportedExactly(s, p); }
  }

  method Unreleased(reserved: seq<string>, released: seq<Option<string>>) returns (leaks: seq<string>)
    ensures forall p :: p in leaks <==> p in reserved && Some(p) !in released
    ensures forall i, j :: 0 <= i < j < |leaks| ==> leaks[i] != leaks[j]
  {
    leaks := [];
    for i := 0 to |reserved|
      invariant forall p :: p in leaks <==> p in reserved[..i] && Some(p) !in released
      invariant forall i, j :: 0 <= i < j < |leaks| ==> leaks[i] != leaks[j]
    {
      var p := reserved[i];
      if p !in leaks && Some(p) !in released {
        leaks := leaks + [p];
      }
    }
  }

  ghost predicate Reported(s: CStmt, p: string) {
    p in Reserved(s) && Some(p) !in Released(s)
  }

  // ----- the report, read off the statements of the tree -----

  /** The statement stands somewhere in the tree. */
  ghost predicate Within(t: CStmt, s: CStmt) {
    t == s ||
    match s
    case CBlock(stmts) => exists i :: 0 <= i < |stmts| && Within(t, stmts[i])
    case CBraceBlock(body) => Within(t, body)
    case CIf(_, yes, no) => Within(t, yes) || (no.Some? && Within(t, no.value))
    case _ => false
  }

  function Stars(n: nat): string { seq(n, i => '*') }

  /** `T *p = bpf_ringbuf_reserve(..);` with any number of stars. */
  ghost predicate Declares(t: CStmt, p: string) {
    && t.CDecl? && t.init.Some? && t.init.value.CCall? && t.init.value.callee == "bpf_ringbuf_reserve"
    && (p == [] || p[0] != '*') && exists n: nat :: t.name == Stars(n) + p
  }

  /** `bpf_ringbuf_submit(p, ..);` or `bpf_ringbuf_discard(p, ..);` with one token for `p`. */
  ghost predicate HandsBack(t: CStmt, p: string) {
    && t.CExprStmt? && t.expr.CCall? && t.expr.args != []
    && (t.expr.callee == "bpf_ringbuf_submit" || t.expr.callee == "bpf_ringbuf_discard")
    && (t.expr.args[0] == CId(p) || t.expr.args[0] == CLit(p) || t.expr.args[0] == CRaw(p))
  }

  ghost predicate DeclaredIn(s: CStmt, p: string) { exists t :: Within(t, s) && Declares(t, p) }

  ghost predicate HandedBackIn(s: CStmt, p: string) { exists t :: Within(t, s) && HandsBack(t, p) }

  lemma {:induction false} StripsStars(name: string, p: string)
    ensures StripDeclarator(name) == p <==> (p == [] || p[0] != '*') && exists n: nat :: name == Stars(n) + p
  {
    if name != [] && name[0] == '*' {
      StripsStars(name[1..], p);
      if n: nat :| name[1..] == Stars(n) + p {
        assert name == ['*'] + name[1..] == Stars(n + 1) + p;
      }
      if (p == [] || p[0] != '*') && exists n: nat :: name == Stars(n) + p {
        var n: nat :| name == Stars(n) + p;
        assert n > 0 && name[1..] == Stars(n - 1) + p;
      }
    } else {
      assert name == Stars(0) + name;
      if n: nat :| name == Stars(n) + p { assert n == 0; }
    }
  }

  lemma {:induction false} ReservedIsDeclared(s: CStmt, p: string)
    ensures p in Reserved(s) <==> DeclaredIn(s, p)
    decreases s, 1
  {
    match s
    case CBlock(stmts) =>
      ReservedOfAll(stmts, p);
      if DeclaredIn(s, p) {
        var t :| Within(t, s) && Declares(t, p);
        var i :| 0 <= i < |stmts| && Within(t, stmts[i]);
        assert DeclaredIn(stmts[i], p);
      }
      if i :| 0 <= i < |stmts| && DeclaredIn(stmts[i], p) {
        var t :| Within(t, stmts[i]) && Declares(t, p);
        assert Within(t, s);
      }
    case CBraceBlock(body) =>
      ReservedIsDeclared(body, p);
      DeclaredUnder(s, body, p);
    case CIf(_, yes, no) =>
      ReservedIsDeclared(yes, p);
      DeclaredUnder(s, yes, p);
      if no.Some? {
        ReservedIsDeclared(no.value, p);
        DeclaredUnder(s, no.value, p);
      }
    case CDecl(_, name, _) =>
      StripsStars(name, p);
      assert Within(s, s);
    case _ =>
  }

  lemma {:induction false} DeclaredUnder(s: CStmt, t: CStmt, p: string)
    requires forall d :: Within(d, t) ==> Within(d, s)
    ensures DeclaredIn(t, p) ==> DeclaredIn(s, p)
  {
  }

  lemma {:induction false} ReservedOfAll(stmts: seq<CStmt>, p: string)
    ensures p in ReservedAll(stmts) <==> exists i :: 0 <= i < |stmts| && DeclaredIn(stmts[i], p)
    decreases stmts, 0
  {
    if stmts != [] {
      ReservedIsDeclared(stmts[0], p);
      ReservedOfAll(stmts[1..], p);
      assert forall i :: 0 <= i < |stmts| - 1 ==> stmts[1..][i] == stmts[i + 1];
      if i :| 0 <= i < |stmts| && DeclaredIn(stmts[i], p) {
        if i > 0 { assert DeclaredIn(stmts[1..][i - 1], p); }
      }
    }
  }

  lemma {:induction false} ReleasedIsHandedBack(s: CStmt, p: string)
    ensures Some(p) in Released(s) <==> HandedBackIn(s, p)
    decreases s, 1
  {
    match s
    case CBlock(stmts) =>
      ReleasedOfAll(stmts, p);
      if HandedBackIn(s, p) {
        var t :| Within(t, s) && HandsBack(t, p);
        var i :| 0 <= i < |stmts| && Within(t, stmts[i]);
        assert HandedBackIn(stmts[i], p);
      }
      if i :| 0 <= i < |stmts| && HandedBackIn(stmts[i], p) {
        var t :| Within(t, stmts[i]) && HandsBack(t, p);
        assert Within(t, s);
      }
    case CBraceBlock(body) =>
      ReleasedIsHandedBack(body, p);
      HandedBackUnder(s, body, p);
    case CIf(_, yes, no) =>
      ReleasedIsHandedBack(yes, p);
      HandedBackUnder(s, yes, p);
      if no.Some? {
        ReleasedIsHandedBack(no.value, p);
        HandedBackUnder(s, no.value, p);
      }
    case CExprStmt(_) => assert Within(s, s);
    case _ =>
  }

  lemma {:induction false} HandedBackUnder(s: CStmt, t: CStmt, p: string)
    requires forall d :: Within(d, t) ==> Within(d, s)
    ensures HandedBackIn(t, p) ==> HandedBackIn(s, p)
  {
  }

  lemma {:induction false} ReleasedOfAll(stmts: seq<CStmt>, p: string)
    ensures Some(p) in ReleasedAll(stmts) <==> exists i :: 0 <= i < |stmts| && HandedBackIn(stmts[i], p)
    decreases stmts, 0
  {
    if stmts != [] {
      ReleasedIsHandedBack(stmts[0], p);
      ReleasedOfAll(stmts[1..], p);
      assert forall i :: 0 <= i < |stmts| - 1 ==> stmts[1..][i] == stmts[i + 1];
      if i :| 0 <= i < |stmts| && HandedBackIn(stmts[i], p) {
        if i > 0 { assert HandedBackIn(stmts[1..][i - 1], p); }
      }
    }
  }

  /** A name is reported if and only if some statement of the tree reserves it and none hands it back. */
  lemma ReportedExactly(s: CStmt, p: string)
    ensures Reported(s, p) <==> DeclaredIn(s, p) && !HandedBackIn(s, p)
  {
    ReservedIsDeclared(s, p);
    ReleasedIsHandedBack(s, p);
  }

  // ----- runs -----

  datatype Event = Reserve(name: string) | Release(name: string)

  datatype Run = Run(events: seq<Event>, returned: bool)

  /**
   What text emitted verbatim means: the local a token or raw expression stands for, the names
   evaluating a raw expression gives back, and the runs a raw statement may have.
   */
  datatype Raw = Raw(local: string -> Option<string>, gives: string -> seq<string>, runs: string -> seq<Run>)

  /** A choice for every conditional and every raw statement, which its address in the tree identifies;
      zero is a condition that does not hold. */
  type Choice = seq<nat> -> nat

  /** The run a choice selects; raw text without any does nothing. */
  ghost function RawRun(m: Raw, t: string, n: nat): Run {
    var rs := m.runs(t);
    if rs == [] then Run([], false) else rs[n % |rs|]
  }

  ghost function RawEvents(m: Raw, t: string): set<Event> {
    set r, ev | r in m.runs(t) && ev in r.events :: ev
  }

  lemma RawRunEvents(m: Raw, t: string, n: nat)
    ensures Members(RawRun(m, t, n).events) <= RawEvents(m, t)
  {
    if m.runs(t) != [] { assert RawRun(m, t, n) in m.runs(t); }
  }

  lemma RawReach(m: Raw, t: string, ev: Event) returns (n: nat)
    requires ev in RawEvents(m, t)
    ensures ev in RawRun(m, t, n).events
  {
    var rs := m.runs(t);
    var run :| run in rs && ev in run.events;
    n :| n < |rs| && rs[n] == run;
    BelowModulus(n, |rs|);
  }

  lemma BelowModulus(n: nat, m: nat)
    requires n < m
    ensures n % m == n
  {
  }

  /** The local an expression stands for, seen through casts and grouping. */
  ghost function Local(m: Raw, e: CExpr): Option<string> {
    match e
    case CId(s) => Some(s)
    case CLit(s) => m.local(s)
    case CRaw(s) => m.local(s)
    case CParen(x) => Local(m, x)
    case CCast(_, x) => Local(m, x)
    case _ => None
  }

  /** What evaluating an expression gives back, wherever in it the calls are. */
  ghost function ExprEvents(m: Raw, e: CExpr): seq<Event>
    decreases e, 1
  {
    match e
    case CRaw(s) => var g := m.gives(s); seq(|g|, i requires 0 <= i < |g| => Release(g[i]))
    case CCall(callee, args) =>
      ArgEvents(m, args) +
      (if IsRelease(callee) && args != [] && Local(m, args[0]).Some? then [Release(Local(m, args[0]).value)] else [])
    case CCast(_, x) => ExprEvents(m, x)
    case CUnary(_, x) => ExprEvents(m, x)
    case CBinop(_, l, r) => ExprEvents(m, l) + ExprEvents(m, r)
    case CField(recv, _, _) => ExprEvents(m, recv)
    case CParen(x) => ExprEvents(m, x)
    case _ => []
  }

  ghost function ArgEvents(m: Raw, args: seq<CExpr>): seq<Event>
    decreases args, 0
  {
    if args == [] then [] else ExprEvents(m, args[0]) + ArgEvents(m, args[1..])
  }

  ghost function OptEvents(m: Raw, e: Option<CExpr>): seq<Event> {
    if e.Some? then ExprEvents(m, e.value) else []
  }

  ghost function DeclEvents(m: Raw, s: CStmt): seq<Event>
    requires s.CDecl?
  {
    OptEvents(m, s.init) + (if Acquires(s) then [Reserve(StripDeclarator(s.name))] else [])
  }

  /** One run. */
  ghost function Exec(m: Raw, s: CStmt, at: seq<nat>, choose: Choice): Run
    decreases s, 1
  {
    match s
    case CRawStmt(t) => RawRun(m, t, choose(at))
    case CExprStmt(e) => Run(ExprEvents(m, e), false)
    case CDecl(_, _, _) => Run(DeclEvents(m, s), false)
    case CReturn(e) => Run(OptEvents(m, e), true)
    case CBlock(stmts) => ExecAll(m, stmts, at, 0, choose)
    case CBraceBlock(body) => Exec(m, body, at + [0], choose)
    case CIf(c, t, e) =>
      var r := if choose(at) != 0 then Exec(m, t, at + [0], choose)
               else if e.Some? then Exec(m, e.value, at + [1], choose) else Run([], false);
      Run(ExprEvents(m, c) + r.events, r.returned)
  }

  ghost function ExecAll(m: Raw, stmts: seq<CStmt>, at: seq<nat>, i: nat, choose: Choice): Run
    decreases stmts, 0
  {
    if stmts == [] then Run([], false) else
    var first := Exec(m, stmts[0], at + [i], choose);
    if first.returned then first else
    var rest := ExecAll(m, stmts[1..], at, i + 1, choose);
    Run(first.events + rest.events, rest.returned)
  }

  /** Whether `p` is held at the end of a run. */
  ghost predicate Held(events: seq<Event>, p: string) {
    events != [] &&
    var last := events[|events| - 1];
    if last == Reserve(p) then true
    else if last == Release(p) then false
    else Held(events[..|events| - 1], p)
  }

  // ----- what the tree can do, read off its text -----

  /** Some branch gets past the statement without returning. */
  ghost predicate MayFall(m: Raw, s: CStmt)
    decreases s, 1
  {
    match s
    case CRawStmt(t) => exists n: nat :: !RawRun(m, t, n).returned
    case CReturn(_) => false
    case CBlock(stmts) => MayFallAll(m, stmts)
    case CBraceBlock(body) => MayFall(m, body)
    case CIf(_, t, e) => MayFall(m, t) || e.None? || MayFall(m, e.value)
    case _ => true
  }

  ghost predicate MayFallAll(m: Raw, stmts: seq<CStmt>)
    decreases stmts, 0
  {
    stmts == [] || (MayFall(m, stmts[0]) && MayFallAll(m, stmts[1..]))
  }

  ghost function Members(events: seq<Event>): set<Event> {
    set ev | ev in events
  }

  /** The events written anywhere but behind a statement that always returns. */
  ghost function Written(m: Raw, s: CStmt): set<Event>
    decreases s, 1
  {
    match s
    case CRawStmt(t) => RawEvents(m, t)
    case CExprStmt(e) => Members(ExprEvents(m, e))
    case CDecl(_, _, _) => Members(DeclEvents(m, s))
    case CReturn(e) => Members(OptEvents(m, e))
    case CBlock(stmts) => WrittenAll(m, stmts)
    case CBraceBlock(body) => Written(m, body)
    case CIf(c, t, e) => Members(ExprEvents(m, c)) + Written(m, t) + (if e.Some? then Written(m, e.value) else {})
  }

  ghost function WrittenAll(m: Raw, stmts: seq<CStmt>): set<Event>
    decreases stmts, 0
  {
    if stmts == [] then {} else
    Written(m, stmts[0]) + (if MayFall(m, stmts[0]) then WrittenAll(m, stmts[1..]) else {})
  }

  /** Whatever a run does is written in the tree, and a run that falls through may. */
  lemma {:induction false} RunEvents(m: Raw, s: CStmt, at: seq<nat>, choose: Choice)
    ensures Members(Exec(m, s, at, choose).events) <= Written(m, s)
    ensures !Exec(m, s, at, choose).returned ==> MayFall(m, s)
    decreases s, 1
  {
    match s
    case CRawStmt(t) => RawRunEvents(m, t, choose(at));
    case CBlock(stmts) => RunAllEvents(m, stmts, at, 0, choose);
    case CBraceBlock(body) => RunEvents(m, body, at + [0], choose);
    case CIf(_, t, e) =>
      RunEvents(m, t, at + [0], choose);
      if e.Some? { RunEvents(m, e.value, at + [1], choose); }
    case _ =>
  }

  lemma {:induction false} RunAllEvents(m: Raw, stmts: seq<CStmt>, at: seq<nat>, i: nat, choose: Choice)
    ensures Members(ExecAll(m, stmts, at, i, choose).events) <= WrittenAll(m, stmts)
    ensures !ExecAll(m, stmts, at, i, choose).returned ==> MayFallAll(m, stmts)
    decreases stmts, 0
  {
    if stmts != [] {
      RunEvents(m, stmts[0], at + [i], choose);
      RunAllEvents(m, stmts[1..], at, i + 1, choose);
    }
  }

  // ----- and some run does it -----

  predicate Under(at: seq<nat>, a: seq<nat>) { at <= a }

  /** The address lies under child `i` of `at` or a later one. */
  predicate FromChild(at: seq<nat>, i: nat, a: seq<nat>) { at <= a && |at| < |a| && i <= a[|at|] }

  ghost predicate AgreeFrom(c: Choice, d: Choice, at: seq<nat>, i: nat) {
    forall a: seq<nat> :: FromChild(at, i, a) ==> c(a) == d(a)
  }

  ghost predicate AgreeUnder(c: Choice, d: Choice, at: seq<nat>) {
    forall a: seq<nat> :: Under(at, a) ==> c(a) == d(a)
  }

  lemma AgreeChild(c: Choice, d: Choice, at: seq<nat>, i: nat)
    requires AgreeUnder(c, d, at)
    ensures AgreeUnder(c, d, at + [i]) && AgreeFrom(c, d, at, i)
  {
    forall a: seq<nat> | Under(at + [i], a) ensures c(a) == d(a) { assert Under(at, a); }
    forall a: seq<nat> | FromChild(at, i, a) ensures c(a) == d(a) { assert Under(at, a); }
  }

  /** A run looks only at the choices under its own address. */
  lemma {:induction false} OwnChoices(m: Raw, s: CStmt, at: seq<nat>, c: Choice, d: Choice)
    requires AgreeUnder(c, d, at)
    ensures Exec(m, s, at, c) == Exec(m, s, at, d)
    decreases s, 1
  {
    AgreeChild(c, d, at, 0);
    AgreeChild(c, d, at, 1);
    assert Under(at, at);
    match s
    case CBlock(stmts) => OwnChoicesAll(m, stmts, at, 0, c, d);
    case CBraceBlock(body) => OwnChoices(m, body, at + [0], c, d);
    case CIf(_, t, e) =>
      OwnChoices(m, t, at + [0], c, d);
      if e.Some? { OwnChoices(m, e.value, at + [1], c, d); }
    case _ =>
  }

  lemma {:induction false} OwnChoicesAll(m: Raw, stmts: seq<CStmt>, at: seq<nat>, i: nat, c: Choice, d: Choice)
    requires AgreeFrom(c, d, at, i)
    ensures ExecAll(m, stmts, at, i, c) == ExecAll(m, stmts, at, i, d)
    decreases stmts, 0
  {
    if stmts != [] {
      forall a: seq<nat> | Under(at + [i], a) ensures c(a) == d(a) {
        assert a[|at|] == (at + [i])[|at|] && FromChild(at, i, a);
      }
      OwnChoices(m, stmts[0], at + [i], c, d);
      OwnChoicesAll(m, stmts[1..], at, i + 1, c, d);
    }
  }

  /** The first choice under child `i` of `at`, the second elsewhere. */
  ghost function Split(at: seq<nat>, i: nat, first: Choice, rest: Choice): Choice {
    a => if Under(at + [i], a) then first(a) else rest(a)
  }

  lemma {:induction false} SplitRuns(m: Raw, stmts: seq<CStmt>, at: seq<nat>, i: nat, first: Choice, rest: Choice)
    requires stmts != []
    ensures var c := Split(at, i, first, rest);
            Exec(m, stmts[0], at + [i], c) == Exec(m, stmts[0], at + [i], first) &&
            ExecAll(m, stmts[1..], at, i + 1, c) == ExecAll(m, stmts[1..], at, i + 1, rest)
  {
    var c := Split(at, i, first, rest);
    OwnChoices(m, stmts[0], at + [i], c, first);
    forall a: seq<nat> | FromChild(at, i + 1, a) ensures c(a) == rest(a) {
      assert a[|at|] != (at + [i])[|at|];
    }
    OwnChoicesAll(m, stmts[1..], at, i + 1, c, rest);
  }

  /** One choice for the conditional at `at`, another under it. */
  ghost function Turn(at: seq<nat>, here: nat, under: Choice): Choice {
    a => if a == at then here else under(a)
  }

  lemma {:induction false} TurnRuns(m: Raw, s: CStmt, at: seq<nat>, i: nat, here: nat, under: Choice)
    ensures Exec(m, s, at + [i], Turn(at, here, under)) == Exec(m, s, at + [i], under)
  {
    assert forall a :: Under(at + [i], a) ==> a != at;
    OwnChoices(m, s, at + [i], Turn(at, here, under), under);
  }

  lemma {:induction false} Falls(m: Raw, s: CStmt, at: seq<nat>) returns (choose: Choice)
    requires MayFall(m, s)
    ensures !Exec(m, s, at, choose).returned
    decreases s, 1
  {
    choose := a => 0;
    match s
    case CRawStmt(t) =>
      var n: nat :| !RawRun(m, t, n).returned;
      choose := a => n;
    case CBlock(stmts) => choose := FallsAll(m, stmts, at, 0);
    case CBraceBlock(body) => choose := Falls(m, body, at + [0]);
    case CIf(_, t, e) =>
      if MayFall(m, t) {
        var under := Falls(m, t, at + [0]);
        TurnRuns(m, t, at, 0, 1, under);
        choose := Turn(at, 1, under);
      } else if e.Some? {
        var under := Falls(m, e.value, at + [1]);
        TurnRuns(m, e.value, at, 1, 0, under);
        choose := Turn(at, 0, under);
      }
    case _ =>
  }

  lemma {:induction false} FallsAll(m: Raw, stmts: seq<CStmt>, at: seq<nat>, i: nat) returns (choose: Choice)
    requires MayFallAll(m, stmts)
    ensures !ExecAll(m, stmts, at, i, choose).returned
    decreases stmts, 0
  {
    choose := a => 0;
    if stmts != [] {
      var first := Falls(m, stmts[0], at + [i]);
      var rest := FallsAll(m, stmts[1..], at, i + 1);
      SplitRuns(m, stmts, at, i, first, rest);
      choose := Split(at, i, first, rest);
    }
  }

  /** Every event written in the tree happens under some choice of branches. */
  lemma {:induction false} Reach(m: Raw, s: CStmt, at: seq<nat>, ev: Event) returns (choose: Choice)
    requires ev in Written(m, s)
    ensures ev in Exec(m, s, at, choose).events
    decreases s, 1
  {
    choose := a => 0;
    match s
    case CRawStmt(t) =>
      var n := RawReach(m, t, ev);
      choose := a => n;
    case CBlock(stmts) => choose := ReachAll(m, stmts, at, 0, ev);
    case CBraceBlock(body) => choose := Reach(m, body, at + [0], ev);
    case CIf(c, t, e) =>
      if ev !in ExprEvents(m, c) {
        if ev in Written(m, t) {
          var under := Reach(m, t, at + [0], ev);
          TurnRuns(m, t, at, 0, 1, under);
          choose := Turn(at, 1, under);
        } else {
          var under := Reach(m, e.value, at + [1], ev);
          TurnRuns(m, e.value, at, 1, 0, under);
          choose := Turn(at, 0, under);
        }
      }
    case _ =>
  }

  lemma {:induction false} ReachAll(m: Raw, stmts: seq<CStmt>, at: seq<nat>, i: nat, ev: Event)
    returns (choose: Choice)
    requires ev in WrittenAll(m, stmts)
    ensures ev in ExecAll(m, stmts, at, i, choose).events
    decreases stmts, 0
  {
    var first, rest: Choice := a => 0, a => 0;
    if ev in Written(m, stmts[0]) {
      first := Reach(m, stmts[0], at + [i], ev);
    } else {
      first := Falls(m, stmts[0], at + [i]);
      rest := ReachAll(m, stmts[1..], at, i + 1, ev);
    }
    SplitRuns(m, stmts, at, i, first, rest);
    choose := Split(at, i, first, rest);
  }

  // ----- a report is real -----

  lemma {:induction false} HeldUnlessReleased(events: seq<Event>, p: string)
    requires Reserve(p) in events && Release(p) !in events
    ensures Held(events, p)
  {
    var n := |events| - 1;
    if events[n] != Reserve(p) {
      HeldUnlessReleased(events[..n], p);
    }
  }

  /** A name the tree writes no release of is released by no run, whatever branches it takes, so
      every run that reaches the reservation ends holding it. */
  lemma {:induction false} NeverGivenBack(m: Raw, s: CStmt, choose: Choice, p: string)
    requires Release(p) !in Written(m, s)
    ensures Release(p) !in Exec(m, s, [], choose).events
    ensures Reserve(p) in Exec(m, s, [], choose).events ==> Held(Exec(m, s, [], choose).events, p)
  {
    var events := Exec(m, s, [], choose).events;
    RunEvents(m, s, [], choose);
    assert Release(p) in events ==> Release(p) in Members(events);
    if Reserve(p) in events {
      HeldUnlessReleased(events, p);
    }
  }

  /** The first argument of a release is the local's own name. */
  ghost predicate Named(m: Raw, e: CExpr) {
    e.CId? || ((e.CLit? || e.CRaw?) && m.local(e.text) == Some(e.text))
  }

  /** Every release is a statement of its own that names the local; raw text gives nothing back. */
  ghost predicate Direct(m: Raw, s: CStmt) {
    match s
    case CRawStmt(t) => forall ev | ev in RawEvents(m, t) :: ev.Reserve?
    case CExprStmt(e) =>
      if Releases(s) then Named(m, e.args[0]) && ArgEvents(m, e.args) == [] else ExprEvents(m, e) == []
    case CDecl(_, _, init) => OptEvents(m, init) == []
    case CReturn(e) => OptEvents(m, e) == []
    case CBlock(stmts) => forall i | 0 <= i < |stmts| :: Direct(m, stmts[i])
    case CBraceBlock(body) => Direct(m, body)
    case CIf(c, t, e) => ExprEvents(m, c) == [] && Direct(m, t) && (e.Some? ==> Direct(m, e.value))
  }

  lemma {:induction false} DirectGiven(m: Raw, s: CStmt, p: string)
    requires Direct(m, s) && Release(p) in Written(m, s)
    ensures Some(p) in Released(s)
    decreases s, 1
  {
    match s
    case CBlock(stmts) => DirectGivenAll(m, stmts, p);
    case CBraceBlock(body) => DirectGiven(m, body, p);
    case CIf(_, t, e) => if Release(p) in Written(m, t) { DirectGiven(m, t, p); } else { DirectGiven(m, e.value, p); }
    case _ =>
  }

  lemma {:induction false} DirectGivenAll(m: Raw, stmts: seq<CStmt>, p: string)
    requires forall i | 0 <= i < |stmts| :: Direct(m, stmts[i])
    requires Release(p) in WrittenAll(m, stmts)
    ensures Some(p) in ReleasedAll(stmts)
    decreases stmts, 0
  {
    if Release(p) in Written(m, stmts[0]) { DirectGiven(m, stmts[0], p); } else { DirectGivenAll(m, stmts[1..], p); }
  }

  /** On trees whose releases name the local directly, every report is real. */
  lemma {:induction false} LeakIsReal(m: Raw, s: CStmt, choose: Choice, p: string)
    requires Direct(m, s) && Reported(s, p)
    ensures Release(p) !in Exec(m, s, [], choose).events
    ensures Reserve(p) in Exec(m, s, [], choose).events ==> Held(Exec(m, s, [], choose).events, p)
  {
    if Release(p) in Written(m, s) {
      DirectGiven(m, s, p);
    }
    NeverGivenBack(m, s, choose, p);
  }

  /** A reported name is released by no run if and only if the tree writes no release of it that the
      scan does not recognise, and some run reserves it if and only if its declaration is not behind
      a statement that always returns. */
  lemma {:induction false} LeakIsRealExactlyWhen(m: Raw, s: CStmt, p: string)
    requires Reported(s, p)
    ensures (forall choose: Choice :: Release(p) !in Exec(m, s, [], choose).events) <==> Release(p) !in Written(m, s)
    ensures (exists choose: Choice :: Reserve(p) in Exec(m, s, [], choose).events) <==> Reserve(p) in Written(m, s)
  {
    ReachedExactly(m, s, Release(p));
    ReachedExactly(m, s, Reserve(p));
  }

  /** An event happens in some run if and only if it is written outside what a return cuts off. */
  lemma {:induction false} ReachedExactly(m: Raw, s: CStmt, ev: Event)
    ensures (exists choose: Choice :: ev in Exec(m, s, [], choose).events) <==> ev in Written(m, s)
  {
    if ev in Written(m, s) {
      var choose := Reach(m, s, [], ev);
    }
    forall choose: Choice ensures ev in Exec(m, s, [], choose).events ==> ev in Written(m, s) {
      RunEvents(m, s, [], choose);
      assert ev in Exec(m, s, [], choose).events ==> ev in Members(Exec(m, s, [], choose).events);
    }
  }

  // ----- and a leak is reported -----

  /** No raw text reserves anything. */
  ghost predicate RawOnlyReleases(m: Raw) {
    forall t, run, ev :: run in m.runs(t) && ev in run.events ==> ev.Release?
  }

  lemma RawNeverReserves(m: Raw, t: string, p: string)
    requires RawOnlyReleases(m)
    ensures Reserve(p) !in RawEvents(m, t)
  {
    var ev := Reserve(p);
    forall run | run in m.runs(t) ensures ev !in run.events { assert ev in run.events ==> ev.Release?; }
  }

  lemma {:induction false} WrittenIsDeclared(m: Raw, s: CStmt, p: string)
    requires RawOnlyReleases(m)
    ensures Reserve(p) in Written(m, s) ==> DeclaredIn(s, p)
    decreases s, 1
  {
    match s
    case CRawStmt(t) => RawNeverReserves(m, t, p);
    case CExprStmt(e) => OnlyReleases(m, e);
    case CReturn(e) => if e.Some? { OnlyReleases(m, e.value); }
    case CDecl(_, name, init) =>
      if init.Some? { OnlyReleases(m, init.value); }
      StripsStars(name, p);
      assert Within(s, s);
    case CBlock(stmts) =>
      WrittenInOne(m, stmts, p);
      if i :| 0 <= i < |stmts| && DeclaredIn(stmts[i], p) {
        var t :| Within(t, stmts[i]) && Declares(t, p);
        assert Within(t, s);
      }
    case CBraceBlock(body) =>
      WrittenIsDeclared(m, body, p);
      DeclaredUnder(s, body, p);
    case CIf(c, yes, no) =>
      OnlyReleases(m, c);
      WrittenIsDeclared(m, yes, p);
      DeclaredUnder(s, yes, p);
      if no.Some? {
        WrittenIsDeclared(m, no.value, p);
        DeclaredUnder(s, no.value, p);
      }
  }

  lemma {:induction false} WrittenInOne(m: Raw, stmts: seq<CStmt>, p: string)
    requires RawOnlyReleases(m)
    ensures Reserve(p) in WrittenAll(m, stmts) ==> exists i :: 0 <= i < |stmts| && DeclaredIn(stmts[i], p)
    decreases stmts, 0
  {
    if stmts != [] {
      WrittenIsDeclared(m, stmts[0], p);
      WrittenInOne(m, stmts[1..], p);
      if i :| 0 <= i < |stmts[1..]| && DeclaredIn(stmts[1..][i], p) { assert stmts[i + 1] == stmts[1..][i]; }
    }
  }

  /** Evaluating an expression reserves nothing. */
  lemma {:induction false} OnlyReleases(m: Raw, e: CExpr)
    ensures forall ev | ev in ExprEvents(m, e) :: ev.Release?
    decreases e, 1
  {
    match e
    case CCall(_, args) => OnlyReleasesAll(m, args);
    case CCast(_, x) => OnlyReleases(m, x);
    case CUnary(_, x) => OnlyReleases(m, x);
    case CBinop(_, l, r) =>
      OnlyReleases(m, l);
      OnlyReleases(m, r);
    case CField(recv, _, _) => OnlyReleases(m, recv);
    case CParen(x) => OnlyReleases(m, x);
    case _ =>
  }

  lemma {:induction false} OnlyReleasesAll(m: Raw, args: seq<CExpr>)
    ensures forall ev | ev in ArgEvents(m, args) :: ev.Release?
    decreases args, 0
  {
    if args != [] {
      OnlyReleases(m, args[0]);
      OnlyReleasesAll(m, args[1..]);
    }
  }

  /** Where raw text reserves nothing: what any run reserves is reported, unless a statement of the tree
      hands it back by name. */
  lemma {:induction false} LeakIsReported(m: Raw, s: CStmt, choose: Choice, p: string)
    requires RawOnlyReleases(m)
    requires Reserve(p) in Exec(m, s, [], choose).events && !HandedBackIn(s, p)
    ensures Reported(s, p)
  {
    RunEvents(m, s, [], choose);
    assert Reserve(p) in Members(Exec(m, s, [], choose).events);
    WrittenIsDeclared(m, s, p);
    ReportedExactly(s, p);
  }

  // ----- the tree the generator builds, and one it does not -----

  function Stores(texts: seq<string>): (stmts: seq<CStmt>)
    ensures |stmts| == |texts| && forall i :: 0 <= i < |texts| ==> stmts[i] == CExprStmt(CRaw(texts[i]))
  {
    seq(|texts|, i requires 0 <= i < |texts| => CExprStmt(CRaw(texts[i])))
  }

  function Submit(e: string): CStmt { CExprStmt(CCall(SUBMIT, [CRaw(e), CRaw("0")])) }

  /** The scope spnl_emit lowers to: a reservation, and under its null test the stores and the submit. */
  function EmitTree(unit: string, e: string, stores: seq<string>): CStmt {
    var args := [CRaw("&" + unit + "_events"), CRaw("sizeof(*" + e + ")"), CRaw("0")];
    CBraceBlock(CBlock([
      CDecl("struct " + unit + "_event", "*" + e, Some(CCall(ACQUIRE, args))),
      CIf(CRaw(e), CBlock(Stores(stores) + [Submit(e)]), None)]))
  }

  lemma {:induction false} RawArgs(m: Raw, args: seq<CExpr>)
    requires (forall t :: m.gives(t) == []) && forall i :: 0 <= i < |args| ==> args[i].CRaw?
    ensures ArgEvents(m, args) == []
  {
    if args != [] {
      RawArgs(m, args[1..]);
      assert ExprEvents(m, args[0]) == [];
    }
  }

  /** The stores do nothing, and the submit names the local. */
  lemma {:induction false} ScopeRuns(m: Raw, e: string, stores: seq<string>, at: seq<nat>, i: nat, choose: Choice)
    requires m.local(e) == Some(e) && forall t :: m.gives(t) == []
    ensures ExecAll(m, Stores(stores) + [Submit(e)], at, i, choose) == Run([Release(e)], false)
    ensures ReleasedAll(Stores(stores) + [Submit(e)]) == [Some(e)]
    decreases |stores|
  {
    var stmts := Stores(stores) + [Submit(e)];
    if stores == [] {
      var args := [CRaw(e), CRaw("0")];
      assert stmts == [Submit(e)] && stmts[1..] == [];
      RawArgs(m, args);
      assert Exec(m, stmts[0], at + [i], choose) == Run([Release(e)], false);
      assert Released(stmts[0]) == [Some(e)];
    } else {
      assert stmts[1..] == Stores(stores[1..]) + [Submit(e)];
      ScopeRuns(m, e, stores[1..], at, i + 1, choose);
      assert ExprEvents(m, CRaw(stores[0])) == [];
      assert Exec(m, stmts[0], at + [i], choose) == Run([], false);
    }
  }

  /** The two statements of the scope. */
  lemma EmitParts(unit: string, e: string, stores: seq<string>) returns (decl: CStmt, test: CStmt)
    ensures EmitTree(unit, e, stores) == CBraceBlock(CBlock([decl, test]))
    ensures decl == EmitTree(unit, e, []).body.stmts[0] && decl.CDecl?
    ensures test == CIf(CRaw(e), CBlock(Stores(stores) + [Submit(e)]), None)
  {
    decl, test := EmitTree(unit, e, stores).body.stmts[0], EmitTree(unit, e, stores).body.stmts[1];
  }

  /** That tree is not reported, and where raw text gives nothing back, the branch past the null test
      gives back exactly what was reserved. */
  lemma {:induction false} EmitTreeIsClean(m: Raw, unit: string, e: string, stores: seq<string>, choose: Choice)
    requires e != [] && e[0] != '*' && m.local(e) == Some(e) && forall t :: m.gives(t) == []
    ensures !Reported(EmitTree(unit, e, stores), e)
    ensures Exec(m, EmitTree(unit, e, stores), [], choose).events ==
            if choose([0, 1]) != 0 then [Reserve(e), Release(e)] else [Reserve(e)]
  {
    var decl, test := EmitParts(unit, e, stores);
    ScopeRuns(m, e, stores, [], 0, choose);
    PairReleased(decl, test, e);
    DeclReserves(m, unit, e, decl);
    TestRuns(m, e, stores, test, choose);
    PairRuns(m, decl, test, e, choose);
  }

  lemma PairReleased(decl: CStmt, test: CStmt, e: string)
    requires decl.CDecl? && test.CIf? && test.elseBlock.None? && Released(test.thenBlock) == [Some(e)]
    ensures Some(e) in Released(CBraceBlock(CBlock([decl, test])))
  {
    var stmts := [decl, test];
    assert stmts[1..] == [test] && [test][1..] == [];
    assert Released(test) == [Some(e)] + [];
    assert ReleasedAll([test]) == Released(test) + ReleasedAll([]);
    assert ReleasedAll(stmts) == Released(decl) + ReleasedAll([test]);
    assert Released(CBlock(stmts)) == ReleasedAll(stmts);
  }

  lemma {:induction false} PairRuns(m: Raw, decl: CStmt, test: CStmt, e: string, choose: Choice)
    requires decl.CDecl? && DeclEvents(m, decl) == [Reserve(e)] && !Exec(m, test, [0, 1], choose).returned
    ensures Exec(m, CBraceBlock(CBlock([decl, test])), [], choose).events ==
            [Reserve(e)] + Exec(m, test, [0, 1], choose).events
  {
    var stmts := [decl, test];
    assert stmts[1..] == [test] && [test][1..] == [];
    assert [] + [0] == [0] && [0] + [0] == [0, 0] && [0] + [1] == [0, 1];
    var run := Exec(m, test, [0, 1], choose);
    assert ExecAll(m, [test], [0], 1, choose) == Run(run.events + [], false);
    assert ExecAll(m, stmts, [0], 0, choose) == Run([Reserve(e)] + (run.events + []), false);
    assert Exec(m, CBlock(stmts), [0], choose) == ExecAll(m, stmts, [0], 0, choose);
  }

  lemma {:induction false} TestRuns(m: Raw, e: string, stores: seq<string>, test: CStmt, choose: Choice)
    requires m.local(e) == Some(e) && forall t :: m.gives(t) == []
    requires test == CIf(CRaw(e), CBlock(Stores(stores) + [Submit(e)]), None)
    ensures Exec(m, test, [0, 1], choose) == Run(if choose([0, 1]) != 0 then [Release(e)] else [], false)
  {
    ScopeRuns(m, e, stores, [0, 1, 0], 0, choose);
    assert [0, 1] + [0] == [0, 1, 0] && ExprEvents(m, CRaw(e)) == [];
    assert Exec(m, test.thenBlock, [0, 1, 0], choose) == Run([Release(e)], false);
    assert [] + [Release(e)] == [Release(e)];
  }

  lemma DeclReserves(m: Raw, unit: string, e: string, decl: CStmt)
    requires e != [] && e[0] != '*' && forall t :: m.gives(t) == []
    requires decl == EmitTree(unit, e, []).body.stmts[0]
    ensures DeclEvents(m, decl) == [Reserve(e)]
  {
    var args := decl.init.value.args;
    RawArgs(m, args);
    assert ("*" + e)[1..] == e && StripDeclarator("*" + e) == StripDeclarator(e) == e;
  }

  /** A reservation, and then raw text. */
  function ThenRaw(text: string): CStmt {
    CBlock([CDecl("struct ev", "p", Some(CCall(ACQUIRE, []))), CExprStmt(CRaw(text))])
  }

  lemma ThenRawReported(text: string)
    ensures Reported(ThenRaw(text), "p")
  {
    var stmts := ThenRaw(text).stmts;
    var decl, call := stmts[0], stmts[1];
    assert stmts[1..] == [call] && [call][1..] == [];
    assert Reserved(decl) == ["p"] && Released(decl) == [] && Released(call) == [];
    assert ReleasedAll([call]) == [] && ReleasedAll(stmts) == [] && "p" in ReservedAll(stmts);
  }

  /** Raw text that submits is not recognised either: what the report is worth depends on it. */
  lemma {:induction false} RawHidesRelease(m: Raw, text: string, choose: Choice)
    ensures Reported(ThenRaw(text), "p")
    ensures Release("p") in Exec(m, ThenRaw(text), [], choose).events <==> "p" in m.gives(text)
  {
    ThenRawReported(text);
    var stmts := ThenRaw(text).stmts;
    var decl, call := stmts[0], stmts[1];
    assert stmts[1..] == [call] && [call][1..] == [];
    assert Exec(m, decl, [0], choose) == Run([Reserve("p")], false);
    var given := ExprEvents(m, CRaw(text));
    assert Exec(m, call, [1], choose) == Run(given, false);
    assert ExecAll(m, [call], [], 1, choose) == Run(given + [], false);
    assert [] + [0] == [0] && ExecAll(m, stmts, [], 0, choose).events == [Reserve("p")] + given;
    if "p" in m.gives(text) {
      var i :| 0 <= i < |m.gives(text)| && m.gives(text)[i] == "p";
      assert given[i] == Release("p");
    }
  }

  /** A release through a cast gives the reservation back and is not recognised: the report
      on this tree is wrong on every run. */
  lemma {:induction false} CastHidesRelease(m: Raw, ctype: string, choose: Choice)
    ensures var s := CBlock([CDecl("struct ev", "p", Some(CCall(ACQUIRE, []))),
                             CExprStmt(CCall(SUBMIT, [CCast(ctype, CId("p"))]))]);
            Reported(s, "p") && Exec(m, s, [], choose).events == [Reserve("p"), Release("p")]
  {
    var decl := CDecl("struct ev", "p", Some(CCall(ACQUIRE, [])));
    var args := [CCast(ctype, CId("p"))];
    var call := CExprStmt(CCall(SUBMIT, args));
    var stmts := [decl, call];
    assert stmts[1..] == [call] && [call][1..] == [];
    assert Reserved(decl) == ["p"] && Released(decl) == [];
    assert Released(call) == [None];
    assert ReleasedAll([call]) == [None];
    assert ArgEvents(m, args) == ExprEvents(m, args[0]) + ArgEvents(m, []) == [];
    assert Local(m, args[0]) == Local(m, CId("p")) == Some("p");
    assert ExprEvents(m, call.expr) == [] + [Release("p")];
    assert Exec(m, decl, [0], choose) == Run([Reserve("p")], false);
    assert Exec(m, call, [1], choose) == Run([Release("p")], false);
    assert ExecAll(m, [call], [], 1, choose) == Run([Release("p")], false);
    assert [] + [0] == [0] && ExecAll(m, stmts, [], 0, choose).events == [Reserve("p")] + [Release("p")];
  }
}
