/**
 The presence and drop predicates of the record contract: the generator's second grammar.

 `PredOne` parses one predicate at the front of a text; the methods at the end are the same
 parser over its cursor, emitting C or the published tree.
 */
module Predicates {
  import opened Common
  import opened TextScan
  import opened CSyntax
  import opened IntExpr

  datatype Test = NonEmpty | Empty | NonZero | Zero

  datatype PredAst =
    | Always
    | Never
    | Both(isAll: bool, args: seq<PredAst>)
    | ByteEq(field: string, index: nat, ch: char)
    | FieldTest(test: Test, name: string, isStr: bool)
    | DerivedTest(test: Test, name: string, isStr: bool)

  type PredRead = Option<Pair<PredAst, string>>
  type PredsRead = Option<Pair<seq<PredAst>, string>>

  // ----- keywords, character by character -----

  predicate AlwaysAt(s: string) {
    CharAt(s, 0, 'a') && CharAt(s, 1, 'l') && CharAt(s, 2, 'w') &&
    CharAt(s, 3, 'a') && CharAt(s, 4, 'y') && CharAt(s, 5, 's')
  }

  predicate NeverAt(s: string) {
    CharAt(s, 0, 'n') && CharAt(s, 1, 'e') && CharAt(s, 2, 'v') && CharAt(s, 3, 'e') && CharAt(s, 4, 'r')
  }

  predicate AllAt(s: string) { CharAt(s, 0, 'a') && CharAt(s, 1, 'l') && CharAt(s, 2, 'l') && CharAt(s, 3, '(') }

  predicate AnyAt(s: string) { CharAt(s, 0, 'a') && CharAt(s, 1, 'n') && CharAt(s, 2, 'y') && CharAt(s, 3, '(') }

  predicate ByteEqAt(s: string) {
    CharAt(s, 0, 'b') && CharAt(s, 1, 'y') && CharAt(s, 2, 't') && CharAt(s, 3, 'e') && CharAt(s, 4, '_') &&
    CharAt(s, 5, 'e') && CharAt(s, 6, 'q') && CharAt(s, 7, '(')
  }

  predicate EmptyAt(s: string, i: nat) {
    CharAt(s, i, 'e') && CharAt(s, i + 1, 'm') && CharAt(s, i + 2, 'p') && CharAt(s, i + 3, 't') &&
    CharAt(s, i + 4, 'y') && CharAt(s, i + 5, '(')
  }

  predicate ZeroAt(s: string, i: nat) {
    CharAt(s, i, 'z') && CharAt(s, i + 1, 'e') && CharAt(s, i + 2, 'r') &&
    CharAt(s, i + 3, 'o') && CharAt(s, i + 4, '(')
  }

  predicate NonAt(s: string) { CharAt(s, 0, 'n') && CharAt(s, 1, 'o') && CharAt(s, 2, 'n') }

  /** The unary word at the front, and its length with the parenthesis. */
  function TestAt(s: string): (r: Option<Pair<Test, nat>>)
    ensures r.Some? ==> 0 < r.value.snd <= |s|
  {
    if NonAt(s) && EmptyAt(s, 3) then Some(Pair(NonEmpty, 9))
    else if EmptyAt(s, 0) then Some(Pair(Empty, 6))
    else if NonAt(s) && ZeroAt(s, 3) then Some(Pair(NonZero, 8))
    else if ZeroAt(s, 0) then Some(Pair(Zero, 5))
    else None
  }

  predicate WantsStr(t: Test) { t.NonEmpty? || t.Empty? }

  // ----- the parse -----

  function PredOne(c: Channel, s: string): (r: PredRead)
    ensures r.Some? ==> |r.value.snd| < |s|
    decreases |s|, 0
  {
    var t := SkipBlanks(s);
    if AlwaysAt(t) then Some(Pair(Always, t[6..]))
    else if NeverAt(t) then Some(Pair(Never, t[5..]))
    else if AllAt(t) || AnyAt(t) then PredBoth(c, AllAt(t), t[4..])
    else if ByteEqAt(t) then PredByteEq(c, t[8..])
    else if TestAt(t).Some? then PredTest(c, TestAt(t).value.fst, t[TestAt(t).value.snd..])
    else None
  }

  function PredBoth(c: Channel, isAll: bool, s: string): (r: PredRead)
    ensures r.Some? ==> |r.value.snd| < |s|
    decreases |s|, 10
  {
    match PredArgs(c, s)
    case None => None
    case Some(Pair(args, rest)) =>
      if |args| < 2 then None else
      match Eat(')', rest)
      case None => None
      case Some(rest1) => Some(Pair(Both(isAll, args), rest1))
  }

  /** One or more operands with commas between them. */
  function PredArgs(c: Channel, s: string): (r: PredsRead)
    ensures r.Some? ==> |r.value.snd| < |s| && r.value.fst != []
    decreases |s|, 5
  {
    match PredOne(c, s)
    case None => None
    case Some(Pair(p, rest)) =>
      match Eat(',', rest)
      case None => Some(Pair([p], SkipBlanks(rest)))
      case Some(rest1) =>
        match PredArgs(c, rest1)
        case None => None
        case Some(Pair(ps, rest2)) => Some(Pair([p] + ps, rest2))
  }

  function PredByteEq(c: Channel, s: string): (r: PredRead)
    ensures r.Some? ==> |r.value.snd| < |s|
  {
    var t := SkipBlanks(s);
    var n := WordLength(t);
    var f := FindField(c.fields, t[..n]);
    if f.None? || f.value.count <= 0 then None else
    match Eat(',', t[n..])
    case None => None
    case Some(rest) => PredIndex(f.value, SkipBlanks(rest))
  }

  /** The index of byte_eq, which must lie inside the field, and what follows it. */
  function PredIndex(f: FieldDecl, u: string): (r: PredRead)
    ensures r.Some? ==> |r.value.snd| < |u|
  {
    var m := DigitLength(u);
    if m == 0 || Value(10, u[..m]) >= f.count then None else
    match Eat(',', u[m..])
    case None => None
    case Some(rest) => PredChar(f.name, Value(10, u[..m]), SkipBlanks(rest))
  }

  /** A character between single quotes, and the closing parenthesis. */
  function PredChar(field: string, index: nat, s: string): (r: PredRead)
    ensures r.Some? ==> |r.value.snd| < |s|
  {
    if |s| < 3 || s[0] != '\'' || s[2] != '\'' then None else
    match Eat(')', s[3..])
    case None => None
    case Some(rest) => Some(Pair(ByteEq(field, index, s[1]), rest))
  }

  function PredTest(c: Channel, test: Test, s: string): (r: PredRead)
    ensures r.Some? ==> |r.value.snd| < |s|
  {
    var t := SkipBlanks(s);
    var n := WordLength(t);
    match Eat(')', t[n..])
    case None => None
    case Some(rest) =>
      var f, k := FindField(c.fields, t[..n]), FindDerived(c.derived, t[..n]);
      if f.Some? == k.Some? then None
      else if f.Some? then
        var isStr := f.value.count > 0;
        if isStr != WantsStr(test) then None else Some(Pair(FieldTest(test, t[..n], isStr), rest))
      else
        var isStr := c.derived[k.value].expose == "str";
        if isStr != WantsStr(test) then None else Some(Pair(DerivedTest(test, t[..n], isStr), rest))
  }

  // ----- a whole declared predicate -----

  datatype Rule = Stated(p: PredAst) | Unexpressible

  const REFUSAL := "unexpressible("

  /** pred_c: a predicate, or a refusal with a reason of twenty characters or more. */
  function ParsePred(c: Channel, text: string): Option<Rule> {
    if text == [] then None
    else if REFUSAL <= text then
      if text[|text| - 1] == ')' && |text| >= 14 + 20 + 1 then Some(Unexpressible) else None
    else match PredOne(c, text)
      case None => None
      case Some(Pair(p, rest)) => if SkipBlanks(rest) == [] then Some(Stated(p)) else None
  }

  // ----- the two outputs -----

  datatype JsonPred =
    | JAlways
    | JNever
    | JBoth(isAll: bool, args: seq<JsonPred>)
    | JByteEq(field: string, index: nat, byte: nat)
    | JTest(test: Test, isField: bool, name: string)

  /** Decimal, as %ld prints it. */
  function NatText(n: nat): (s: string)
    ensures s != [] && AllDigits(s)
  {
    if n < 10 then [DigitChar(n)] else NatText(n / 10) + [DigitChar(n % 10)]
  }

  function DigitChar(n: nat): (ch: char)
    requires n < 10
    ensures IsDigit(ch) && Digit(ch) == n
  {
    '0' + n as char
  }

  function EmptyHelper(id: string, name: string): string {
    "spnl_recd_" + id + "_" + name + "_empty"
  }

  function Field(name: string): Tokens { [Ident("r"), Arrow, Ident(name)] }

  function Call(h: string): Tokens { [Ident(h), LParen, Ident("r"), RParen] }

  /** `==` for the tests that ask for nothing there, `!=` for the others. */
  function Comparison(t: Test): BinOp { if t.Empty? || t.Zero? then EqEq else NotEq }

  function EmitPred(id: string, p: PredAst): Tokens
    decreases p, 1
  {
    match p
    case Always => [Atom("1")]
    case Never => [Atom("0")]
    case Both(isAll, args) => Wrap(EmitJoined(id, if isAll then AndAnd else OrOr, args))
    case ByteEq(f, i, ch) =>
      Wrap(Field(f) + [LBracket, Atom(NatText(i)), RBracket] + [Punct(EqEq)] + [Atom(['\'', ch, '\''])])
    case FieldTest(t, f, isStr) =>
      if isStr then Wrap(Field(f) + [LBracket, Atom("0"), RBracket] + [Punct(Comparison(t))] + [Atom("'\\0'")])
      else Wrap(Field(f) + [Punct(Comparison(t))] + [Atom("0")])
    case DerivedTest(t, d, isStr) =>
      if isStr then Wrap((if t.Empty? || t.Zero? then [] else [Punct(Bang)]) + Call(EmptyHelper(id, d)))
      else Wrap(Call(Helper(id, d)) + [Punct(Comparison(t))] + [Atom("0")])
  }

  function EmitJoined(id: string, op: BinOp, ps: seq<PredAst>): Tokens
    decreases ps, 0
  {
    if ps == [] then []
    else if |ps| == 1 then EmitPred(id, ps[0])
    else EmitPred(id, ps[0]) + [Punct(op)] + EmitJoined(id, op, ps[1..])
  }

  function EmitPredJson(p: PredAst): JsonPred
    decreases p, 1
  {
    match p
    case Always => JAlways
    case Never => JNever
    case Both(isAll, args) => JBoth(isAll, EmitPredsJson(args))
    case ByteEq(f, i, ch) => JByteEq(f, i, ch as nat)
    case FieldTest(t, f, _) => JTest(t, true, f)
    case DerivedTest(t, d, _) => JTest(t, false, d)
  }

  function EmitPredsJson(ps: seq<PredAst>): (js: seq<JsonPred>)
    ensures |js| == |ps|
    decreases ps, 0
  {
    if ps == [] then [] else [EmitPredJson(ps[0])] + EmitPredsJson(ps[1..])
  }

  // ----- the parser as it runs -----

  datatype PredOut = PredC(ts: Tokens) | PredJ(j: JsonPred)

  function EmitOut(json: bool, id: string, p: PredAst): PredOut {
    if json then PredJ(EmitPredJson(p)) else PredC(EmitPred(id, p))
  }

  /** The operands collected so far, with the joiner between them. */
  datatype PredAcc = AccC(ts: Tokens) | AccJ(js: seq<JsonPred>)

  ghost function EmitAcc(json: bool, id: string, op: BinOp, ps: seq<PredAst>): PredAcc {
    if json then AccJ(EmitPredsJson(ps)) else AccC(EmitJoined(id, op, ps))
  }

  function Append(acc: PredAcc, n: nat, op: BinOp, inner: PredOut): PredAcc {
    if acc.AccC? && inner.PredC? then AccC(if n == 0 then inner.ts else acc.ts + [Punct(op)] + inner.ts)
    else if acc.AccJ? && inner.PredJ? then AccJ(acc.js + [inner.j])
    else acc
  }

  lemma {:induction false} JoinedMore(id: string, op: BinOp, ps: seq<PredAst>, p: PredAst)
    requires ps != []
    ensures EmitJoined(id, op, ps + [p]) == EmitJoined(id, op, ps) + [Punct(op)] + EmitPred(id, p)
  {
    var qs := ps + [p];
    assert qs[1..] == ps[1..] + [p];
    if |ps| == 1 {
      assert qs[1..] == [p] && ps == [ps[0]];
      assert EmitJoined(id, op, [p]) == EmitPred(id, p);
    } else {
      JoinedMore(id, op, ps[1..], p);
    }
  }

  lemma {:induction false} JsonMore(ps: seq<PredAst>, p: PredAst)
    ensures EmitPredsJson(ps + [p]) == EmitPredsJson(ps) + [EmitPredJson(p)]
  {
    var qs := ps + [p];
    if ps == [] {
      assert qs == [p] && qs[1..] == [];
    } else {
      assert qs[1..] == ps[1..] + [p];
      JsonMore(ps[1..], p);
    }
  }

  lemma AppendEmits(json: bool, id: string, op: BinOp, ps: seq<PredAst>, p: PredAst)
    ensures Append(EmitAcc(json, id, op, ps), |ps|, op, EmitOut(json, id, p)) == EmitAcc(json, id, op, ps + [p])
  {
    if json { JsonMore(ps, p); }
    else if ps == [] { assert [] + [p] == [p]; }
    else { JoinedMore(id, op, ps, p); }
  }

  ghost predicate Matches(json: bool, id: string, want: PredRead, out: Option<PredOut>, rest: string) {
    if want.None? then out.None? else out == Some(EmitOut(json, id, want.value.fst)) && rest == want.value.snd
  }

  method PredOneAt(cur: ExprCur) returns (out: Option<PredOut>)
    requires cur.Valid()
    modifies cur`p
    ensures cur.Valid() && old(cur.p) <= cur.p
    ensures Matches(cur.json, cur.c.id, PredOne(cur.c, old(cur.Rest())), out, cur.Rest())
    decreases |cur.text| - cur.p, 0
  {
    cur.Ws();
    ghost var t := cur.Rest();
    var s := cur.text[cur.p..];
    if AlwaysAt(s) {
      cur.p := cur.p + 6;
      assert cur.Rest() == t[6..];
      out := Some(EmitOut(cur.json, cur.c.id, Always));
    } else if NeverAt(s) {
      cur.p := cur.p + 5;
      assert cur.Rest() == t[5..];
      out := Some(EmitOut(cur.json, cur.c.id, Never));
    } else if AllAt(s) || AnyAt(s) {
      cur.p := cur.p + 4;
      assert cur.Rest() == t[4..];
      out := BothAt(cur, AllAt(s));
    } else if ByteEqAt(s) {
      cur.p := cur.p + 8;
      assert cur.Rest() == t[8..];
      out := ByteEqArgs(cur);
    } else if TestAt(s).Some? {
      var w := TestAt(s).value;
      cur.p := cur.p + w.snd;
      assert cur.Rest() == t[w.snd..];
      out := TestArg(cur, w.fst);
    } else {
      out := None;
    }
  }

  /** The loop of all() and any(): how many operands there were, and their text joined. */
  method OperandsAt(cur: ExprCur, op: BinOp) returns (out: Option<Pair<nat, PredAcc>>)
    requires cur.Valid()
    modifies cur`p
    ensures cur.Valid() && old(cur.p) <= cur.p
    ensures var want := PredArgs(cur.c, old(cur.Rest()));
            if want.None? then out.None?
            else out == Some(Pair(|want.value.fst|, EmitAcc(cur.json, cur.c.id, op, want.value.fst))) &&
                 cur.Rest() == want.value.snd
    decreases |cur.text| - cur.p, 5
  {
    var acc := if cur.json then AccJ([]) else AccC([]);
    var n := 0;
    ghost var ps: seq<PredAst> := [];
    ghost var want := PredArgs(cur.c, cur.Rest());
    var more := true;
    assert want == Prepend(ps, want) by { if want.Some? { assert [] + want.value.fst == want.value.fst; } }
    while more
      invariant cur.Valid() && old(cur.p) <= cur.p && n == |ps|
      invariant acc == EmitAcc(cur.json, cur.c.id, op, ps)
      invariant more ==> want == Prepend(ps, PredArgs(cur.c, cur.Rest()))
      invariant !more ==> want == Some(Pair(ps, cur.Rest()))
      decreases more, |cur.text| - cur.p
    {
      ghost var s := cur.Rest();
      var inner := PredOneAt(cur);
      if inner.None? {
        return None;
      }
      ghost var p := PredOne(cur.c, s).value.fst;
      ghost var after := cur.Rest();
      AppendEmits(cur.json, cur.c.id, op, ps, p);
      acc := Append(acc, n, op, inner.value);
      n := n + 1;
      more := cur.EatChar(',');
      PrependStep(cur.c, ps, s, p, after);
      ps := ps + [p];
    }
    out := Some(Pair(n, acc));
  }

  method BothAt(cur: ExprCur, isAll: bool) returns (out: Option<PredOut>)
    requires cur.Valid()
    modifies cur`p
    ensures cur.Valid() && old(cur.p) <= cur.p
    ensures Matches(cur.json, cur.c.id, PredBoth(cur.c, isAll, old(cur.Rest())), out, cur.Rest())
    decreases |cur.text| - cur.p, 10
  {
    var operands := OperandsAt(cur, if isAll then AndAnd else OrOr);
    if operands.None? || operands.value.fst < 2 {
      return None;
    }
    var acc := operands.value.snd;
    var ok := cur.EatChar(')');
    if !ok {
      return None;
    }
    out := Some(if acc.AccJ? then PredJ(JBoth(isAll, acc.js)) else PredC(Wrap(acc.ts)));
  }

  ghost function Prepend(ps: seq<PredAst>, r: PredsRead): PredsRead {
    if r.None? then None else Some(Pair(ps + r.value.fst, r.value.snd))
  }

  lemma {:induction false} PrependStep(c: Channel, ps: seq<PredAst>, s: string, p: PredAst, rest: string)
    requires PredOne(c, s) == Some(Pair(p, rest))
    ensures Prepend(ps, PredArgs(c, s)) ==
            match Eat(',', rest)
            case None => Some(Pair(ps + [p], SkipBlanks(rest)))
            case Some(rest1) => Prepend(ps + [p], PredArgs(c, rest1))
  {
    var comma := Eat(',', rest);
    if comma.Some? && PredArgs(c, comma.value).Some? {
      var more := PredArgs(c, comma.value).value.fst;
      assert ps + ([p] + more) == ps + [p] + more;
    }
  }

  method ByteEqArgs(cur: ExprCur) returns (out: Option<PredOut>)
    requires cur.Valid()
    modifies cur`p
    ensures cur.Valid() && old(cur.p) <= cur.p
    ensures Matches(cur.json, cur.c.id, PredByteEq(cur.c, old(cur.Rest())), out, cur.Rest())
  {
    cur.Ws();
    var w := cur.Word();
    var f := FindField(cur.c.fields, w);
    if f.None? || f.value.count <= 0 { return None; }
    var ok := cur.EatChar(',');
    if !ok { return None; }
    cur.Ws();
    out := IndexArg(cur, f.value);
  }

  method IndexArg(cur: ExprCur, f: FieldDecl) returns (out: Option<PredOut>)
    requires cur.Valid()
    modifies cur`p
    ensures cur.Valid() && old(cur.p) <= cur.p
    ensures Matches(cur.json, cur.c.id, PredIndex(f, old(cur.Rest())), out, cur.Rest())
  {
    var d := cur.Digits();
    if d == [] || Value(10, d) >= f.count { return None; }
    var ok := cur.EatChar(',');
    if !ok { return None; }
    cur.Ws();
    out := QuotedChar(cur, f.name, Value(10, d));
  }

  method QuotedChar(cur: ExprCur, field: string, index: nat) returns (out: Option<PredOut>)
    requires cur.Valid()
    modifies cur`p
    ensures cur.Valid() && old(cur.p) <= cur.p
    ensures Matches(cur.json, cur.c.id, PredChar(field, index, old(cur.Rest())), out, cur.Rest())
  {
    ghost var s := cur.Rest();
    if |cur.text| - cur.p < 3 || cur.text[cur.p] != '\'' || cur.text[cur.p + 2] != '\'' { return None; }
    var lit := cur.text[cur.p + 1];
    cur.p := cur.p + 3;
    assert cur.Rest() == s[3..];
    var ok := cur.EatChar(')');
    if !ok { return None; }
    out := Some(EmitOut(cur.json, cur.c.id, ByteEq(field, index, lit)));
  }

  method TestArg(cur: ExprCur, test: Test) returns (out: Option<PredOut>)
    requires cur.Valid()
    modifies cur`p
    ensures cur.Valid() && old(cur.p) <= cur.p
    ensures Matches(cur.json, cur.c.id, PredTest(cur.c, test, old(cur.Rest())), out, cur.Rest())
  {
    cur.Ws();
    var w := cur.Word();
    var ok := cur.EatChar(')');
    if !ok { return None; }
    var f, k := FindField(cur.c.fields, w), FindDerived(cur.c.derived, w);
    if f.None? && k.None? { return None; }
    if f.Some? && k.Some? { return None; }
    if f.Some? {
      var isStr := f.value.count > 0;
      if isStr != WantsStr(test) { return None; }
      out := Some(EmitOut(cur.json, cur.c.id, FieldTest(test, w, isStr)));
    } else {
      var isStr := cur.c.derived[k.value].expose == "str";
      if isStr != WantsStr(test) { return None; }
      out := Some(EmitOut(cur.json, cur.c.id, DerivedTest(test, w, isStr)));
    }
  }

  datatype RuleOut = Condition(p: PredOut) | Refused

  /** pred_c */
  method PredText(c: Channel, json: bool, text: string) returns (out: Option<RuleOut>)
    ensures out == match ParsePred(c, text)
                   case None => None
                   case Some(Unexpressible) => Some(Refused)
                   case Some(Stated(p)) => Some(Condition(EmitOut(json, c.id, p)))
  {
    if text == [] { return None; }
    if REFUSAL <= text {
      if text[|text| - 1] != ')' { return None; }
      if |text| < 14 + 20 + 1 { return None; }
      return Some(Refused);
    }
    var cur := new ExprCur(c, "", json, text);
    assert text[0..] == text;
    var p := PredOneAt(cur);
    if p.None? { return None; }
    cur.Ws();
    if cur.p < |text| { return None; }
    out := Some(Condition(p.value));
  }
}
