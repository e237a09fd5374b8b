/**
 What a declared predicate means, as the C condition the generator emits and as the tree it
 publishes.
 */
module PredicateMeaning {
  import opened Common
  import opened TextScan
  import opened CSyntax
  import opened CAst
  import opened IntExpr
  import opened IntExprMeaning
  import opened IntExprAgree
  import opened Predicates
  import RecordLayout

  // ----- the emitted condition, read back -----

  function FieldTree(f: string): Tree { Member(Name("r"), f, true) }

  function PredTree(id: string, p: PredAst): Tree
    decreases p, 1
  {
    match p
    case Always => Leaf("1")
    case Never => Leaf("0")
    case Both(isAll, args) => if args == [] then Leaf("0") else
      JoinedTree(id, if isAll then AndAnd else OrOr, PredTree(id, args[0]), args[1..])
    case ByteEq(f, i, ch) => BinaryOf(EqEq, Index(FieldTree(f), Leaf(NatText(i))), Leaf(['\'', ch, '\'']))
    case FieldTest(t, f, isStr) =>
      if isStr then BinaryOf(Comparison(t), Index(FieldTree(f), Leaf("0")), Leaf("'\\0'"))
      else BinaryOf(Comparison(t), FieldTree(f), Leaf("0"))
    case DerivedTest(t, d, isStr) =>
      if isStr then
        var call := CallTo(EmptyHelper(id, d), [Name("r")]);
        if t.Empty? || t.Zero? then call else UnaryOf(Bang, call)
      else BinaryOf(Comparison(t), CallTo(Helper(id, d), [Name("r")]), Leaf("0"))
  }

  /** `&&` and `||` associate to the left. */
  function JoinedTree(id: string, op: BinOp, acc: Tree, ps: seq<PredAst>): Tree
    decreases ps, 0
  {
    if ps == [] then acc else JoinedTree(id, op, BinaryOf(op, acc, PredTree(id, ps[0])), ps[1..])
  }

  /** all() and any() have at least one operand, as the grammar gives them. */
  ghost predicate NonVoid(p: PredAst) {
    p.Both? ==> p.args != [] && forall i :: 0 <= i < |p.args| ==> NonVoid(p.args[i])
  }

  lemma AtomIsPrimary(s: string)
    ensures IsPrimary([Atom(s)], Leaf(s))
  {
    forall rest: Tokens ensures ParsePostfix([Atom(s)] + rest) == PostfixTail(Leaf(s), rest) {
      assert ([Atom(s)] + rest)[1..] == rest;
    }
  }

  lemma FieldIsPrimary(f: string)
    ensures IsPrimary(Field(f), FieldTree(f))
  {
    PrintedIsPrimary(CField(CId("r"), f, true));
  }

  lemma CallIsPrimary(h: string)
    ensures IsPrimary(Call(h), CallTo(h, [Name("r")]))
  {
    var args := [CId("r")];
    assert PrintArgs(args) == Print(args[0]) == [Ident("r")];
    assert Print(CCall(h, args)) == Call(h);
    assert EraseAll(args) == [Erase(args[0])] + EraseAll(args[1..]) == [Name("r")];
    PrintedIsPrimary(CCall(h, args));
  }

  lemma SubscriptIsPrimary(f: string, i: string)
    ensures IsPrimary(Field(f) + [LBracket, Atom(i), RBracket], Index(FieldTree(f), Leaf(i)))
  {
    FieldIsPrimary(f);
    AtomIsPrimary(i);
    var ts := Field(f) + [LBracket, Atom(i), RBracket];
    forall rest: Tokens ensures ParsePostfix(ts + rest) == PostfixTail(Index(FieldTree(f), Leaf(i)), rest) {
      var inner := [Atom(i)] + ([RBracket] + rest);
      assert ts + rest == Field(f) + ([LBracket] + inner);
      assert ([LBracket] + inner)[1..] == inner && ([RBracket] + rest)[1..] == rest;
      PrimaryIsExpr(inner, Leaf(i), [RBracket] + rest);
    }
  }

  lemma NotCallIsPrimary(h: string)
    ensures IsPrimary(Wrap([Punct(Bang)] + Call(h)), UnaryOf(Bang, CallTo(h, [Name("r")])))
  {
    var args := [CId("r")];
    var e := CParen(CUnary(Bang, CCall(h, args)));
    assert PrintArgs(args) == Print(args[0]) == [Ident("r")];
    assert Print(CCall(h, args)) == Call(h);
    assert Print(e.inner) == [Punct(Bang)] + Call(h);
    assert EraseAll(args) == [Erase(args[0])] + EraseAll(args[1..]) == [Name("r")];
    assert Erase(e) == Erase(e.inner) == UnaryOf(Bang, Erase(CCall(h, args)));
    PrintedIsPrimary(e);
  }

  lemma {:induction false} PredIsPrimary(id: string, p: PredAst)
    requires NonVoid(p)
    ensures IsPrimary(EmitPred(id, p), PredTree(id, p))
    decreases p, 1
  {
    match p
    case Always => AtomIsPrimary("1");
    case Never => AtomIsPrimary("0");
    case Both(isAll, args) => BothIsPrimary(id, if isAll then AndAnd else OrOr, args);
    case ByteEq(f, i, ch) =>
      SubscriptIsPrimary(f, NatText(i));
      AtomIsPrimary(['\'', ch, '\'']);
      BinaryIsPrimary(Field(f) + [LBracket, Atom(NatText(i)), RBracket], Index(FieldTree(f), Leaf(NatText(i))), EqEq,
                      [Atom(['\'', ch, '\''])], Leaf(['\'', ch, '\'']));
    case FieldTest(t, f, isStr) => FieldTestIsPrimary(t, f, isStr);
    case DerivedTest(t, d, isStr) => DerivedTestIsPrimary(id, t, d, isStr);
  }

  lemma {:induction false} FieldTestIsPrimary(t: Test, f: string, isStr: bool)
    ensures IsPrimary(EmitPred("", FieldTest(t, f, isStr)), PredTree("", FieldTest(t, f, isStr)))
  {
    if isStr {
      SubscriptIsPrimary(f, "0");
      AtomIsPrimary("'\\0'");
      BinaryIsPrimary(Field(f) + [LBracket, Atom("0"), RBracket], Index(FieldTree(f), Leaf("0")), Comparison(t),
                      [Atom("'\\0'")], Leaf("'\\0'"));
    } else {
      FieldIsPrimary(f);
      AtomIsPrimary("0");
      BinaryIsPrimary(Field(f), FieldTree(f), Comparison(t), [Atom("0")], Leaf("0"));
    }
  }

  lemma {:induction false} DerivedTestIsPrimary(id: string, t: Test, d: string, isStr: bool)
    ensures IsPrimary(EmitPred(id, DerivedTest(t, d, isStr)), PredTree(id, DerivedTest(t, d, isStr)))
  {
    if isStr {
      var h := EmptyHelper(id, d);
      CallIsPrimary(h);
      GroupIsPrimary(Call(h), CallTo(h, [Name("r")]));
      NotCallIsPrimary(h);
      assert [] + Call(h) == Call(h);
    } else {
      CallIsPrimary(Helper(id, d));
      AtomIsPrimary("0");
      BinaryIsPrimary(Call(Helper(id, d)), CallTo(Helper(id, d), [Name("r")]), Comparison(t), [Atom("0")], Leaf("0"));
    }
  }

  lemma {:induction false} BothIsPrimary(id: string, op: BinOp, ps: seq<PredAst>)
    requires (op.AndAnd? || op.OrOr?) && ps != [] && forall i :: 0 <= i < |ps| ==> NonVoid(ps[i])
    ensures IsPrimary(Wrap(EmitJoined(id, op, ps)), JoinedTree(id, op, PredTree(id, ps[0]), ps[1..]))
    decreases ps, 1
  {
    var t := JoinedTree(id, op, PredTree(id, ps[0]), ps[1..]);
    var inner := EmitJoined(id, op, ps);
    forall rest: Tokens ensures ParsePostfix(Wrap(inner) + rest) == PostfixTail(t, rest) {
      var after := [RParen] + rest;
      PredIsPrimary(id, ps[0]);
      var chain := JoinedAfter(id, op, ps, after);
      PostfixAtLevel(EmitPred(id, ps[0]) + chain, PredTree(id, ps[0]), chain, Level(op));
      ChainReads(id, op, PredTree(id, ps[0]), ps[1..], chain, after);
      Loosen(inner + after, t, after, Level(op), 1);
      WrapReads(inner, t, rest);
    }
  }

  /** What follows the first operand. */
  lemma {:induction false} JoinedAfter(id: string, op: BinOp, ps: seq<PredAst>, after: Tokens) returns (chain: Tokens)
    requires ps != []
    ensures EmitJoined(id, op, ps) + after == EmitPred(id, ps[0]) + chain
    ensures chain == if |ps| == 1 then after else [Punct(op)] + (EmitJoined(id, op, ps[1..]) + after)
  {
    if |ps| == 1 {
      chain := after;
    } else {
      chain := [Punct(op)] + (EmitJoined(id, op, ps[1..]) + after);
      assert EmitPred(id, ps[0]) + [Punct(op)] + EmitJoined(id, op, ps[1..]) + after == EmitPred(id, ps[0]) + chain;
    }
  }

  /** One operand joined on the right of what has been read. */
  lemma {:induction false} ChainStep(op: BinOp, acc: Tree, ts: Tokens, t: Tree, next: Tokens)
    requires (op.AndAnd? || op.OrOr?) && IsPrimary(ts, t) && Stops(Level(op) + 1, next)
    ensures ParseTail(Level(op), acc, [Punct(op)] + (ts + next)) == ParseTail(Level(op), BinaryOf(op, acc, t), next)
  {
    AtFront(ts, t, next);
    PostfixAtLevel(ts + next, t, next, Level(op) + 1);
    StopsHere(Level(op) + 1, t, next);
    TailStep(op, acc, ts + next, t, next);
  }

  /** The remaining operands, each joined on the right of what has been read. */
  lemma {:induction false} ChainReads(id: string, op: BinOp, acc: Tree, ps: seq<PredAst>, chain: Tokens, after: Tokens)
    requires (op.AndAnd? || op.OrOr?) && Stops(1, after) && forall i :: 0 <= i < |ps| ==> NonVoid(ps[i])
    requires chain == if ps == [] then after else [Punct(op)] + (EmitJoined(id, op, ps) + after)
    ensures ParseTail(Level(op), acc, chain) == Some(Pair(JoinedTree(id, op, acc, ps), after))
    decreases ps, 0
  {
    if ps == [] {
      StopsHere(Level(op), acc, after);
    } else {
      var next := JoinedAfter(id, op, ps, after);
      PredIsPrimary(id, ps[0]);
      ChainStep(op, acc, EmitPred(id, ps[0]), PredTree(id, ps[0]), next);
      ChainReads(id, op, BinaryOf(op, acc, PredTree(id, ps[0])), ps[1..], next, after);
    }
  }

  lemma {:induction false} PredReadsBack(id: string, p: PredAst)
    requires NonVoid(p)
    ensures Parse(EmitPred(id, p)) == Some(PredTree(id, p))
  {
    assert EmitPred(id, p) + [] == EmitPred(id, p);
    PredIsPrimary(id, p);
    PrimaryIsExpr(EmitPred(id, p), PredTree(id, p), []);
  }

  // ----- meanings -----

  /** A record as a condition sees it: the bytes of its fields and the results of the helpers. Whether
      plain `char` is signed is up to the compiler (6.2.5). */
  datatype Record = Record(byteAt: (string, nat) -> byte, call: string -> int, charSigned: bool)

  function TypeOf(c: Channel, f: string): RecordLayout.CType {
    if FindField(c.fields, f).Some? then FindField(c.fields, f).value.ctype else RecordLayout.UnsignedChar
  }

  function Radix(n: nat): nat { if n == 0 then 1 else 256 * Radix(n - 1) }

  /** `n` bytes of a field, the lowest first. */
  ghost function Little(r: Record, f: string, from: nat, n: nat): nat
    decreases n
  {
    if n == 0 then 0 else r.byteAt(f, from) + 256 * Little(r, f, from + 1, n - 1)
  }

  ghost predicate IsSigned(r: Record, t: RecordLayout.CType) {
    t.S8? || t.S16? || t.S32? || t.S64? || (t.Char? && r.charSigned)
  }

  /** What C reads at an index: a whole element of the field's type, a scalar being the first. */
  ghost function Element(r: Record, c: Channel, f: string, i: nat): int {
    var t := TypeOf(c, f);
    var w := RecordLayout.SizeOf(t);
    var u := Little(r, f, i * w, w);
    if IsSigned(r, t) && 2 * u >= Radix(w) then u - Radix(w) else u
  }

  ghost predicate AllZero(r: Record, f: string, n: nat) {
    forall k :: 0 <= k < n ==> r.byteAt(f, k) == 0
  }

  /** A character that stands for itself between single quotes (6.4.4.4), in the basic range; a carriage
      return ends the line to some compilers. */
  predicate PlainChar(ch: char) {
    ch != '\'' && ch != '\\' && ch != '\n' && ch != '\r' && ch as nat < 128
  }

  function CharConstant(s: string): Option<int> {
    if s == "'\\0'" then Some(0)
    else if |s| == 3 && s[0] == '\'' && s[2] == '\'' && PlainChar(s[1]) then Some(s[1] as nat)
    else None
  }

  function Truth(b: bool): int { if b then 1 else 0 }

  /** The value of an emitted condition; none where it is not C. */
  ghost function EvalCond(r: Record, c: Channel, t: Tree): Option<int> {
    match t
    case Leaf(s) =>
      if CharConstant(s).Some? then CharConstant(s)
      else if CLiteral(s).Some? then Some(CLiteral(s).value)
      else None
    case Member(recv, f, arrow) =>
      if recv == Name("r") && arrow && !StructField(c, f) then Some(Element(r, c, f, 0)) else None
    case Index(base, i) =>
      if base.Member? && base.recv == Name("r") && base.arrow && !StructField(c, base.field) &&
         i.Leaf? && CLiteral(i.text).Some?
      then Some(Element(r, c, base.field, CLiteral(i.text).value)) else None
    case CallTo(h, args) => if args == [Name("r")] then Some(r.call(h)) else None
    case UnaryOf(op, x) =>
      var v := EvalCond(r, c, x);
      if op.Bang? && v.Some? then Some(Truth(v.value == 0)) else None
    case BinaryOf(op, a, b) =>
      var x, y := EvalCond(r, c, a), EvalCond(r, c, b);
      if x.None? || y.None? then None
      else if op.EqEq? then Some(Truth(x.value == y.value))
      else if op.NotEq? then Some(Truth(x.value != y.value))
      else if op.AndAnd? then Some(Truth(x.value != 0 && y.value != 0))
      else if op.OrOr? then Some(Truth(x.value != 0 || y.value != 0))
      else None
    case _ => None
  }

  /** What a test asks of a value, or of whether there is one. */
  predicate Holds(t: Test, nothing: bool) { if t.Empty? || t.Zero? then nothing else !nothing }

  /** The published tree, as a reader evaluates it: indices count bytes, and a scalar is zero when all
      its bytes are. */
  ghost predicate EvalPublished(r: Record, c: Channel, j: JsonPred) {
    match j
    case JAlways => true
    case JNever => false
    case JBoth(isAll, args) =>
      if isAll then forall i | 0 <= i < |args| :: EvalPublished(r, c, args[i])
      else exists i | 0 <= i < |args| :: EvalPublished(r, c, args[i])
    case JByteEq(f, i, b) => r.byteAt(f, i) == b
    case JTest(t, isField, name) =>
      if isField && WantsStr(t) then Holds(t, r.byteAt(name, 0) == 0)
      else if isField then Holds(t, AllZero(r, name, RecordLayout.SizeOf(TypeOf(c, name))))
      else if WantsStr(t) then Holds(t, r.call(EmptyHelper(c.id, name)) != 0)
      else Holds(t, r.call(Helper(c.id, name)) == 0)
  }

  /** As the parser builds them: tests over the kind of property they are for. */
  ghost predicate WellKinded(p: PredAst) {
    match p
    case Both(_, args) => args != [] && forall i :: 0 <= i < |args| ==> WellKinded(args[i])
    case FieldTest(t, _, isStr) => isStr == WantsStr(t)
    case DerivedTest(t, _, isStr) => isStr == WantsStr(t)
    case _ => true
  }

  /** Every byte literal can be written between quotes as it is, every index fits a type, and no field
      it names is a struct. */
  ghost predicate Writable(c: Channel, p: PredAst) {
    match p
    case Both(_, args) => forall i :: 0 <= i < |args| ==> Writable(c, args[i])
    case ByteEq(f, i, ch) => PlainChar(ch) && i < TWO63 && !StructField(c, f)
    case FieldTest(_, f, _) => !StructField(c, f)
    case _ => true
  }

  /** Every array it looks into has elements of one byte. */
  ghost predicate ByteSized(c: Channel, p: PredAst) {
    match p
    case Both(_, args) => forall i :: 0 <= i < |args| ==> ByteSized(c, args[i])
    case ByteEq(f, _, _) => RecordLayout.SizeOf(TypeOf(c, f)) == 1
    case FieldTest(_, f, isStr) => isStr ==> RecordLayout.SizeOf(TypeOf(c, f)) == 1
    case _ => true
  }

  lemma {:induction false} NatTextValue(n: nat)
    ensures Value(10, NatText(n)) == n && !LeadingZero(NatText(n)) && (n > 0 ==> NatText(n)[0] != '0')
  {
    var s := NatText(n);
    if n < 10 {
      assert s[..0] == "";
      assert n > 0 ==> s[0] != '0' by { assert Digit(s[0]) == n; }
    } else {
      NatTextValue(n / 10);
      assert s[..|s| - 1] == NatText(n / 10);
      assert s[0] == NatText(n / 10)[0];
    }
  }

  lemma {:induction false} KindedIsNonVoid(p: PredAst)
    requires WellKinded(p)
    ensures NonVoid(p)
  {
    if p.Both? {
      forall i | 0 <= i < |p.args| ensures NonVoid(p.args[i]) { KindedIsNonVoid(p.args[i]); }
    }
  }

  // ----- elements and bytes -----

  lemma {:induction false} LittleZero(r: Record, f: string, from: nat, n: nat)
    ensures Little(r, f, from, n) == 0 <==> forall k :: from <= k < from + n ==> r.byteAt(f, k) == 0
    decreases n
  {
    if n > 0 { LittleZero(r, f, from + 1, n - 1); }
  }

  lemma {:induction false} LittleTop(r: Record, f: string, from: nat, n: nat)
    requires n > 0 && r.byteAt(f, from + n - 1) > 0
    ensures Little(r, f, from, n) >= Radix(n - 1)
    decreases n
  {
    if n > 1 { LittleTop(r, f, from + 1, n - 1); }
  }

  lemma {:induction false} LittleBelow(r: Record, f: string, from: nat, n: nat)
    ensures Little(r, f, from, n) < Radix(n)
    decreases n
  {
    if n > 0 { LittleBelow(r, f, from + 1, n - 1); }
  }

  /** A scalar is zero in C exactly when all its bytes are. */
  lemma {:induction false} ScalarIsZero(r: Record, c: Channel, f: string)
    ensures Element(r, c, f, 0) == 0 <==> AllZero(r, f, RecordLayout.SizeOf(TypeOf(c, f)))
  {
    var w := RecordLayout.SizeOf(TypeOf(c, f));
    LittleZero(r, f, 0, w);
    LittleBelow(r, f, 0, w);
  }

  /** Where elements are bytes, an element is a given plain value exactly when its byte is. */
  lemma {:induction false} ElementIsByte(r: Record, c: Channel, f: string, i: nat, x: nat)
    requires RecordLayout.SizeOf(TypeOf(c, f)) == 1 && x < 128
    ensures Element(r, c, f, i) == x <==> r.byteAt(f, i) == x
  {
    assert Little(r, f, i, 1) == r.byteAt(f, i) + 256 * Little(r, f, i + 1, 0);
    assert Radix(1) == 256 * Radix(0);
  }

  /** The record whose bytes are all one but for one of them. */
  function Ones(i: nat, x: byte): Record { Record((f, k) => if k == i then x else 1, h => 0, true) }

  /** Where they are wider, that record has the byte and not the element. */
  lemma {:induction false} ElementIsWider(c: Channel, f: string, i: nat, x: nat)
    requires RecordLayout.SizeOf(TypeOf(c, f)) > 1 && x < 128
    ensures Ones(i, x).byteAt(f, i) == x && Element(Ones(i, x), c, f, i) != x
  {
    var r, w := Ones(i, x), RecordLayout.SizeOf(TypeOf(c, f));
    assert i * w + w - 1 > i by { assert i * w >= i; }
    LittleTop(r, f, i * w, w);
    LittleBelow(r, f, i * w, w);
    assert Radix(1) == 256 * Radix(0);
    RadixGrows(1, w - 1);
  }

  lemma {:induction false} RadixGrows(m: nat, n: nat)
    requires m <= n
    ensures Radix(m) <= Radix(n)
    decreases n
  {
    if m < n { RadixGrows(m, n - 1); }
  }

  // ----- the two meanings -----

  /** Condition and published tree say the same of this record. */
  ghost predicate Agrees(r: Record, c: Channel, p: PredAst) {
    var v := EvalCond(r, c, PredTree(c.id, p));
    v.Some? && ((v.value != 0) == EvalPublished(r, c, EmitPredJson(p)))
  }

  /** The condition is C exactly when it is writable, and where arrays are of bytes it says what the
      published tree says. */
  ghost predicate SameMeaning(r: Record, c: Channel, p: PredAst) {
    && (EvalCond(r, c, PredTree(c.id, p)).Some? <==> Writable(c, p))
    && (Writable(c, p) && ByteSized(c, p) ==> Agrees(r, c, p))
  }

  lemma {:induction false} ConditionIsPublished(r: Record, c: Channel, p: PredAst)
    requires WellKinded(p)
    ensures SameMeaning(r, c, p)
    decreases p, 1
  {
    match p
    case Always => assert Value(10, "1") == 1 by { assert "1"[..0] == ""; }
    case Never => ZeroLiteral();
    case Both(isAll, args) => BothIsPublished(r, c, isAll, args);
    case ByteEq(f, i, ch) => ByteEqIsPublished(r, c, f, i, ch);
    case FieldTest(_, _, _) => TestIsPublished(r, c, p);
    case DerivedTest(_, _, _) => TestIsPublished(r, c, p);
  }

  lemma {:induction false} ByteEqIsPublished(r: Record, c: Channel, f: string, i: nat, ch: char)
    ensures SameMeaning(r, c, ByteEq(f, i, ch))
  {
    ByteEqValue(r, c, f, i, ch);
    if PlainChar(ch) && RecordLayout.SizeOf(TypeOf(c, f)) == 1 { ElementIsByte(r, c, f, i, ch as nat); }
  }

  /** The emitted comparison of an element with a character. */
  lemma {:induction false} ByteEqValue(r: Record, c: Channel, f: string, i: nat, ch: char)
    ensures EvalCond(r, c, PredTree(c.id, ByteEq(f, i, ch))) ==
            if Writable(c, ByteEq(f, i, ch)) then Some(Truth(Element(r, c, f, i) == ch as nat)) else None
  {
    NatTextValue(i);
    var left, right := Index(FieldTree(f), Leaf(NatText(i))), Leaf(['\'', ch, '\'']);
    assert EvalCond(r, c, left) ==
           if i < TWO63 && !StructField(c, f) then Some(Element(r, c, f, i)) else None;
    QuotedValue(r, c, ch);
  }

  lemma {:induction false} QuotedValue(r: Record, c: Channel, ch: char)
    ensures EvalCond(r, c, Leaf(['\'', ch, '\''])) == if PlainChar(ch) then Some(ch as nat) else None
  {
    var s := ['\'', ch, '\''];
    assert !IsDigit(s[0]) && !AllDigits(s) && |s| == 3 && |"'\\0'"| == 4;
  }

  lemma {:induction false} TestIsPublished(r: Record, c: Channel, p: PredAst)
    requires WellKinded(p) && (p.FieldTest? || p.DerivedTest?)
    ensures SameMeaning(r, c, p)
  {
    ZeroLiteral();
    if p.FieldTest? {
      ScalarIsZero(r, c, p.name);
      if p.isStr && RecordLayout.SizeOf(TypeOf(c, p.name)) == 1 { ElementIsByte(r, c, p.name, 0, 0); }
    }
  }

  lemma ZeroLiteral()
    ensures CLiteral("0") == Some(0) && CharConstant("'\\0'") == Some(0) && CharConstant("0") == None
  {
    assert "0"[..0] == "" && Value(10, "") == 0;
  }

  /** Conjunction or disjunction, from a value on the left. */
  predicate Fold(isAll: bool, a: bool, b: bool) { if isAll then a && b else a || b }

  lemma {:induction false} BothIsPublished(r: Record, c: Channel, isAll: bool, ps: seq<PredAst>)
    requires ps != [] && forall i :: 0 <= i < |ps| ==> WellKinded(ps[i])
    ensures SameMeaning(r, c, Both(isAll, ps))
    decreases ps, 1
  {
    ConditionIsPublished(r, c, ps[0]);
    JoinedIsPublished(r, c, isAll, PredTree(c.id, ps[0]), ps[1..]);
    AllOfJson(r, c, ps);
    VerdictStep(r, c, isAll, ps);
    if |ps| == 1 { assert ps[1..] == []; }
    WritableStep(c, ps);
    if AllByteSized(c, ps) { ByteSizedStep(c, ps); }
  }

  ghost predicate AllWritable(c: Channel, ps: seq<PredAst>) {
    forall i :: 0 <= i < |ps| ==> Writable(c, ps[i])
  }

  ghost predicate AllByteSized(c: Channel, ps: seq<PredAst>) {
    forall i :: 0 <= i < |ps| ==> ByteSized(c, ps[i])
  }

  lemma {:induction false} ByteSizedStep(c: Channel, ps: seq<PredAst>)
    requires ps != [] && AllByteSized(c, ps)
    ensures ByteSized(c, ps[0]) && AllByteSized(c, ps[1..])
  {
    forall i | 0 <= i < |ps[1..]| ensures ByteSized(c, ps[1..][i]) { assert ps[1..][i] == ps[i + 1]; }
  }

  lemma {:induction false} WritableStep(c: Channel, ps: seq<PredAst>)
    requires ps != []
    ensures AllWritable(c, ps) <==> Writable(c, ps[0]) && AllWritable(c, ps[1..])
  {
    var rest := ps[1..];
    if forall i :: 0 <= i < |ps| ==> Writable(c, ps[i]) {
      forall i | 0 <= i < |rest| ensures Writable(c, rest[i]) { assert rest[i] == ps[i + 1]; }
    }
    if Writable(c, ps[0]) && forall i :: 0 <= i < |rest| ==> Writable(c, rest[i]) {
      forall i | 0 <= i < |ps| ensures Writable(c, ps[i]) { if i > 0 { assert ps[i] == rest[i - 1]; } }
    }
  }

  /** The verdict over a sequence of operands. */
  ghost predicate Verdict(r: Record, c: Channel, isAll: bool, ps: seq<PredAst>) {
    if isAll then forall i | 0 <= i < |ps| :: EvalPublished(r, c, EmitPredJson(ps[i]))
    else exists i | 0 <= i < |ps| :: EvalPublished(r, c, EmitPredJson(ps[i]))
  }

  lemma {:induction false} JsonAt(ps: seq<PredAst>, i: nat)
    requires i < |ps|
    ensures EmitPredsJson(ps)[i] == EmitPredJson(ps[i])
  {
    if i > 0 { JsonAt(ps[1..], i - 1); }
  }

  lemma AllOfJson(r: Record, c: Channel, ps: seq<PredAst>)
    ensures forall isAll :: EvalPublished(r, c, JBoth(isAll, EmitPredsJson(ps))) == Verdict(r, c, isAll, ps)
  {
    forall i | 0 <= i < |ps| ensures EmitPredsJson(ps)[i] == EmitPredJson(ps[i]) { JsonAt(ps, i); }
  }

  lemma {:induction false} VerdictStep(r: Record, c: Channel, isAll: bool, ps: seq<PredAst>)
    requires ps != []
    ensures Verdict(r, c, isAll, ps) ==
            Fold(isAll, EvalPublished(r, c, EmitPredJson(ps[0])), Verdict(r, c, isAll, ps[1..]))
  {
    if isAll {
      assert forall i :: 1 <= i < |ps| ==> ps[1..][i - 1] == ps[i];
      if Verdict(r, c, true, ps) {
        forall i | 0 <= i < |ps[1..]| ensures EvalPublished(r, c, EmitPredJson(ps[1..][i])) {
          assert ps[1..][i] == ps[i + 1];
        }
      }
    } else {
      if Verdict(r, c, false, ps[1..]) {
        var i :| 0 <= i < |ps[1..]| && EvalPublished(r, c, EmitPredJson(ps[1..][i]));
        assert ps[1..][i] == ps[i + 1];
      }
      if Verdict(r, c, false, ps) && !EvalPublished(r, c, EmitPredJson(ps[0])) {
        var i :| 0 <= i < |ps| && EvalPublished(r, c, EmitPredJson(ps[i]));
        assert ps[1..][i - 1] == ps[i];
      }
    }
  }

  lemma {:induction false} JoinedIsPublished(r: Record, c: Channel, isAll: bool, acc: Tree, ps: seq<PredAst>)
    requires forall i :: 0 <= i < |ps| ==> WellKinded(ps[i])
    ensures var op: BinOp := if isAll then AndAnd else OrOr;
            var a, v := EvalCond(r, c, acc), EvalCond(r, c, JoinedTree(c.id, op, acc, ps));
            && (v.Some? <==> a.Some? && AllWritable(c, ps))
            && (v.Some? && AllByteSized(c, ps) ==>
                  ((v.value != 0) ==
                   if ps == [] then a.value != 0 else Fold(isAll, a.value != 0, Verdict(r, c, isAll, ps))))
    decreases ps, 0
  {
    if ps != [] {
      var op: BinOp := if isAll then AndAnd else OrOr;
      ConditionIsPublished(r, c, ps[0]);
      assert forall i :: 0 <= i < |ps| - 1 ==> ps[1..][i] == ps[i + 1];
      JoinedIsPublished(r, c, isAll, BinaryOf(op, acc, PredTree(c.id, ps[0])), ps[1..]);
      JoinEval(r, c, isAll, acc, PredTree(c.id, ps[0]));
      VerdictStep(r, c, isAll, ps);
      WritableStep(c, ps);
      if AllByteSized(c, ps) { ByteSizedStep(c, ps); }
    }
  }

  lemma JoinEval(r: Record, c: Channel, isAll: bool, acc: Tree, x: Tree)
    ensures var op: BinOp := if isAll then AndAnd else OrOr;
            var a, b, v := EvalCond(r, c, acc), EvalCond(r, c, x), EvalCond(r, c, BinaryOf(op, acc, x));
            && (v.Some? <==> a.Some? && b.Some?)
            && (v.Some? ==> ((v.value != 0) == Fold(isAll, a.value != 0, b.value != 0)))
  {
  }

  // ----- what the parser produces -----

  lemma {:induction false} OneIsKinded(c: Channel, s: string)
    ensures PredOne(c, s).Some? ==> WellKinded(PredOne(c, s).value.fst)
    decreases |s|, 0
  {
    var t := SkipBlanks(s);
    if !AlwaysAt(t) && !NeverAt(t) && (AllAt(t) || AnyAt(t)) {
      ArgsAreKinded(c, t[4..]);
      var r := PredBoth(c, AllAt(t), t[4..]);
      assert r.Some? ==> r.value.fst == Both(AllAt(t), PredArgs(c, t[4..]).value.fst);
    }
  }

  lemma {:induction false} ArgsAreKinded(c: Channel, s: string)
    ensures PredArgs(c, s).Some? ==>
              forall i :: 0 <= i < |PredArgs(c, s).value.fst| ==> WellKinded(PredArgs(c, s).value.fst[i])
    decreases |s|, 5
  {
    OneIsKinded(c, s);
    var p := PredOne(c, s);
    if p.Some? && Eat(',', p.value.snd).Some? {
      ArgsAreKinded(c, Eat(',', p.value.snd).value);
    }
  }

  // ----- and only where arrays are of bytes -----

  /** Every test in it says the same, as condition and as tree, of every record. */
  ghost predicate PartsAgree(c: Channel, p: PredAst) {
    if p.Both? then forall i :: 0 <= i < |p.args| ==> PartsAgree(c, p.args[i])
    else forall r: Record :: Agrees(r, c, p)
  }

  lemma {:induction false} WideByteParts(c: Channel, f: string, i: nat, ch: char)
    requires Writable(c, ByteEq(f, i, ch)) && !ByteSized(c, ByteEq(f, i, ch))
    ensures EvalPublished(Ones(i, ch as nat), c, EmitPredJson(ByteEq(f, i, ch)))
    ensures EvalCond(Ones(i, ch as nat), c, PredTree(c.id, ByteEq(f, i, ch))) == Some(0)
  {
    ByteEqValue(Ones(i, ch as nat), c, f, i, ch);
    ElementIsWider(c, f, i, ch as nat);
  }

  lemma {:induction false} WideTestParts(c: Channel, t: Test, f: string)
    requires Writable(c, FieldTest(t, f, true)) && !ByteSized(c, FieldTest(t, f, true)) && WantsStr(t)
    ensures !Agrees(Ones(0, 0), c, FieldTest(t, f, true))
  {
    ZeroLiteral();
    ElementIsWider(c, f, 0, 0);
    assert EvalCond(Ones(0, 0), c, Index(FieldTree(f), Leaf("0"))) == Some(Element(Ones(0, 0), c, f, 0));
    assert EvalCond(Ones(0, 0), c, Leaf("'\\0'")) == Some(0);
  }

  /** A condition that is C agrees with its tree test by test, over all records, exactly when every array
      it looks into has elements of one byte. */
  lemma {:induction false} PartsAgreeExactly(c: Channel, p: PredAst)
    requires WellKinded(p) && Writable(c, p)
    ensures PartsAgree(c, p) <==> ByteSized(c, p)
  {
    if p.Both? {
      forall i | 0 <= i < |p.args| ensures PartsAgree(c, p.args[i]) <==> ByteSized(c, p.args[i]) {
        PartsAgreeExactly(c, p.args[i]);
      }
    } else if ByteSized(c, p) {
      forall r: Record ensures Agrees(r, c, p) { ConditionIsPublished(r, c, p); }
    } else if p.ByteEq? {
      WideByteParts(c, p.field, p.index, p.ch);
      assert !Agrees(Ones(p.index, p.ch as nat), c, p);
    } else {
      WideTestParts(c, p.test, p.name);
    }
  }

  /** For every predicate the generator accepts and every record: the emitted condition, read by a C
      compiler, is C exactly when no field it names is a struct and no byte literal is a quote, a
      backslash, a line break or outside ASCII. It is then true exactly when the published tree is, if the
      arrays it looks into have elements of one byte, and test by test only then. */
  lemma {:induction false} PredicateReadingsAgree(r: Record, c: Channel, text: string)
    requires ParsePred(c, text).Some? && ParsePred(c, text).value.Stated?
    ensures var p := ParsePred(c, text).value.p;
            && Parse(EmitPred(c.id, p)) == Some(PredTree(c.id, p)) && SameMeaning(r, c, p)
            && (Writable(c, p) ==> (PartsAgree(c, p) <==> ByteSized(c, p)))
  {
    OneIsKinded(c, text);
    var p := PredOne(c, text).value.fst;
    KindedIsNonVoid(p);
    PredReadsBack(c.id, p);
    ConditionIsPublished(r, c, p);
    if Writable(c, p) { PartsAgreeExactly(c, p); }
  }

  // ----- the inputs at which it is not C -----

  lemma TestAlone(c: Channel, f: FieldDecl)
    requires c.fields == [f] && c.derived == [] && f.count <= 0 && IsName(f.name)
    ensures ParsePred(c, "zero(" + f.name + ")") == Some(Stated(FieldTest(Zero, f.name, false)))
  {
    var s, name := "zero(" + f.name + ")", f.name;
    assert s[0] == 'z' && SkipBlanks(s) == s && ZeroAt(s, 0) && !NonAt(s);
    assert s[5..] == name + ")";
    WordBefore(name, ")");
    assert IsWord(name[0]) && SkipBlanks(s[5..]) == s[5..];
    assert s[5..][..|name|] == name && s[5..][|name|..] == ")" && ")"[1..] == "";
    assert FindField(c.fields, name) == Some(f);
    assert REFUSAL[0] == 'u';
  }

  /** A test of a field whose type is a struct is accepted, and what is emitted is not C. */
  lemma {:induction false} StructTestAccepted(r: Record, id: string)
    ensures var c := Channel(id, [FieldDecl("hdr", RecordLayout.EventHdr, 0)], []);
            ParsePred(c, "zero(hdr)") == Some(Stated(FieldTest(Zero, "hdr", false))) &&
            EvalCond(r, c, PredTree(id, FieldTest(Zero, "hdr", false))) == None
  {
    var f := FieldDecl("hdr", RecordLayout.EventHdr, 0);
    var c := Channel(id, [f], []);
    TestAlone(c, f);
    assert "zero(" + "hdr" + ")" == "zero(hdr)";
    ConditionIsPublished(r, c, FieldTest(Zero, "hdr", false));
  }

  function ByteEqText(name: string, ch: char): string { "byte_eq(" + (name + (",0,'" + [ch] + "')")) }

  /** A byte comparison with a quote, a backslash or any other character between the quotes. */
  lemma ByteEqAlone(c: Channel, f: FieldDecl, ch: char)
    requires c.fields == [f] && f.count > 0 && IsName(f.name)
    ensures ParsePred(c, ByteEqText(f.name, ch)) == Some(Stated(ByteEq(f.name, 0, ch)))
  {
    var s := ByteEqText(f.name, ch);
    var args := f.name + (",0,'" + [ch] + "')");
    ByteEqWord(args, s);
    ByteEqArgsAlone(c, f, args, ch);
    ByteEqWhole(c, s, ByteEq(f.name, 0, ch));
  }

  lemma {:induction false} ByteEqWhole(c: Channel, s: string, p: PredAst)
    requires SkipBlanks(s) == s && ByteEqAt(s) && PredByteEq(c, s[8..]) == Some(Pair(p, ""))
    ensures ParsePred(c, s) == Some(Stated(p))
  {
    assert s[0] == 'b' && REFUSAL[0] == 'u';
    assert PredOne(c, s) == Some(Pair(p, ""));
  }

  lemma {:induction false} ByteEqWord(args: string, s: string)
    requires s == "byte_eq(" + args
    ensures SkipBlanks(s) == s && ByteEqAt(s) && s[8..] == args
  {
    assert s[0] == 'b';
  }

  lemma ByteEqArgsAlone(c: Channel, f: FieldDecl, s: string, ch: char)
    requires c.fields == [f] && f.count > 0 && IsName(f.name) && s == f.name + (",0,'" + [ch] + "')")
    ensures PredByteEq(c, s) == Some(Pair(ByteEq(f.name, 0, ch), ""))
  {
    var t := ",0,'" + [ch] + "')";
    WordBefore(f.name, t);
    assert IsWord(f.name[0]) && s[0] == f.name[0] && SkipBlanks(s) == s;
    assert s[..|f.name|] == f.name && s[|f.name|..] == t && SkipBlanks(t) == t;
    assert FindField(c.fields, f.name) == Some(f);
    IndexAlone(f, t[1..], ch);
  }

  lemma {:induction false} IndexAlone(f: FieldDecl, u: string, ch: char)
    requires f.count > 0 && u == "0,'" + [ch] + "')"
    ensures SkipBlanks(u) == u && PredIndex(f, u) == Some(Pair(ByteEq(f.name, 0, ch), ""))
  {
    var v := ",'" + [ch] + "')";
    assert u == "0" + v;
    DigitsBefore("0", v);
    assert u[..1] == "0" && u[1..] == v && v[1..] == "'" + [ch] + "')";
    assert Value(10, "0") == 0 by { assert "0"[..0] == ""; }
    assert v[1..][3..] == ")" && ")"[1..] == "";
    assert SkipBlanks(v[1..]) == v[1..] && SkipBlanks(v) == v;
  }

  /** A quote between quotes is accepted, and what is emitted is not C. */
  lemma {:induction false} QuoteAccepted(r: Record, id: string)
    ensures var c := Channel(id, [FieldDecl("raw", RecordLayout.UnsignedChar, 64)], []);
            ParsePred(c, ByteEqText("raw", '\'')) == Some(Stated(ByteEq("raw", 0, '\''))) &&
            EvalCond(r, c, PredTree(id, ByteEq("raw", 0, '\''))) == None
  {
    var f := FieldDecl("raw", RecordLayout.UnsignedChar, 64);
    var c := Channel(id, [f], []);
    ByteEqAlone(c, f, '\'');
    ConditionIsPublished(r, c, ByteEq("raw", 0, '\''));
  }

  /** A byte comparison in an array of 32-bit elements is accepted; in this record the tree holds and
      the condition is false. */
  lemma {:induction false} WideArrayAccepted(id: string)
    ensures var c := Channel(id, [FieldDecl("ports", RecordLayout.U32, 4)], []);
            var p := ByteEq("ports", 0, 'A');
            ParsePred(c, ByteEqText("ports", 'A')) == Some(Stated(p)) &&
            EvalPublished(Ones(0, 65), c, EmitPredJson(p)) && EvalCond(Ones(0, 65), c, PredTree(id, p)) == Some(0)
  {
    var f := FieldDecl("ports", RecordLayout.U32, 4);
    var c := Channel(id, [f], []);
    ByteEqAlone(c, f, 'A');
    assert TypeOf(c, "ports") == RecordLayout.U32;
    WideByteParts(c, "ports", 0, 'A');
  }
}
