/**
 The readings of a declared expression agree, and the derivations they define are well founded.
 */
module IntExprAgree {
  import opened Common
  import opened TextScan
  import opened CSyntax
  import opened CAst
  import opened IntExpr
  import opened IntExprMeaning
  import Bits
  import RecordLayout

  // ----- literals -----

  predicate LeadingZero(d: string) { |d| > 1 && d[0] == '0' }

  const TWO63: int := 0x8000_0000_0000_0000
  const TWO64: int := 0x1_0000_0000_0000_0000

  predicate Octal(d: string) { forall i :: 0 <= i < |d| ==> d[i] != '8' && d[i] != '9' }

  /** An integer constant in C (6.4.4.1): a leading zero makes it octal, where 8 and 9 do not exist; a
      decimal one has a signed type or none, an octal one may be unsigned. */
  function CLiteral(d: string): Option<nat> {
    if d == [] || !AllDigits(d) then None
    else if !LeadingZero(d) then if Value(10, d) < TWO63 then Some(Value(10, d)) else None
    else if Octal(d) && Value(8, d) < TWO64 then Some(Value(8, d))
    else None
  }

  /** A JSON number: decimal, and not with a leading zero. */
  function JsonLiteral(d: string): Option<nat> {
    if d == [] || !AllDigits(d) || LeadingZero(d) then None else Some(Value(10, d))
  }

  // ----- meanings, over any interpretation of fields, helpers and arithmetic -----

  /** `helper` is the long a helper returns; `asLong` and `asU64` are the two conversions around it. */
  datatype Algebra<!T> = Algebra(lit: nat -> T, field: string -> T, helper: string -> T, op: (Op, T, T) -> T,
                                 less: (T, T) -> bool, greater: (T, T) -> bool, asLong: T -> T, asU64: T -> T)

  predicate IsArithmetic(op: Op) {
    op.Star? || op.Slash? || op.Plus? || op.Minus? || op.Shl? || op.Shr?
  }

  /** The smaller is the first operand only if it is less than the second; likewise the larger. */
  ghost function Extreme<T>(alg: Algebra<T>, isMin: bool, a: Option<T>, b: Option<T>): Option<T> {
    if a.None? || b.None? then None
    else if (if isMin then alg.less(a.value, b.value) else alg.greater(a.value, b.value)) then a else b
  }

  ghost function Apply<T>(alg: Algebra<T>, op: Op, a: Option<T>, b: Option<T>): Option<T> {
    if a.None? || b.None? then None else Some(alg.op(op, a.value, b.value))
  }

  ghost function MapValue<T>(f: T -> T, v: Option<T>): Option<T> {
    if v.None? then None else Some(f(v.value))
  }

  /** A struct has no value in arithmetic. */
  ghost function FieldValue<T>(alg: Algebra<T>, c: Channel, f: string): Option<T> {
    if StructField(c, f) then None else Some(alg.field(f))
  }

  /** The value of a C expression of the generator's vocabulary, where it is one. */
  ghost function EvalC<T>(alg: Algebra<T>, c: Channel, t: Tree): Option<T> {
    match t
    case Leaf(d) => if CLiteral(d).Some? then Some(alg.lit(CLiteral(d).value)) else None
    case Name(f) => FieldValue(alg, c, f)
    case Member(recv, f, arrow) => if recv == Name("r") && arrow then FieldValue(alg, c, f) else None
    case CastOf(ctype, x) =>
      if ctype == "uint64_t" && x.CallTo? && x.args == [Name("r")] then Some(alg.asU64(alg.helper(x.callee))) else None
    case CallTo(callee, args) =>
      if callee == "derived" && |args| == 1 && args[0].Name? then Some(alg.helper(Helper(c.id, args[0].name)))
      else if (callee == "min" || callee == "max") && |args| == 2 then
        Extreme(alg, callee == "min", EvalC(alg, c, args[0]), EvalC(alg, c, args[1]))
      else None
    case BinaryOf(op, a, b) => if IsArithmetic(op) then Apply(alg, op, EvalC(alg, c, a), EvalC(alg, c, b)) else None
    case Choose(q, y, n) =>
      if !q.BinaryOf? || !(q.bop.Lt? || q.bop.Gt?) then None else
      var a, b := EvalC(alg, c, q.left), EvalC(alg, c, q.right);
      if a.None? || b.None? then None
      else if (if q.bop.Lt? then alg.less(a.value, b.value) else alg.greater(a.value, b.value)) then EvalC(alg, c, y)
      else EvalC(alg, c, n)
    case _ => None
  }

  /** The value of the published tree. */
  ghost function EvalJson<T>(alg: Algebra<T>, c: Channel, j: Json): Option<T> {
    match j
    case JLit(d) => if JsonLiteral(d).Some? then Some(alg.lit(JsonLiteral(d).value)) else None
    case JField(f) => FieldValue(alg, c, f)
    case JDerived(d) => Some(alg.helper(Helper(c.id, d)))
    case JOp(op, a, b) =>
      var x, y := EvalJson(alg, c, a), EvalJson(alg, c, b);
      match op
      case JMin => Extreme(alg, true, x, y)
      case JMax => Extreme(alg, false, x, y)
      case JBin(o) => Apply(alg, o, x, y)
  }

  /** Every operator is one the grammar has, and every literal is a run of digits. */
  ghost predicate Generated(e: IntAst) {
    match e
    case Lit(d) => d != [] && AllDigits(d)
    case FieldRef(_) | DerivedRef(_) => true
    case Group(x) => Generated(x)
    case MinMax(_, a, b) => Generated(a) && Generated(b)
    case Bin(op, a, b) => IsArithmetic(op) && Generated(a) && Generated(b)
  }

  // ----- the conditions, read off the expression -----

  /** Its tree can be read: no struct field, and no literal with a leading zero. */
  ghost predicate Readable(c: Channel, e: IntAst) {
    match e
    case Lit(d) => !LeadingZero(d)
    case FieldRef(f) => !StructField(c, f)
    case DerivedRef(_) => true
    case Group(x) => Readable(c, x)
    case MinMax(_, a, b) => Readable(c, a) && Readable(c, b)
    case Bin(_, a, b) => Readable(c, a) && Readable(c, b)
  }

  /** It is C: no struct field, no octal literal with an 8 or a 9, and no literal too large for a type. */
  ghost predicate IsC(c: Channel, e: IntAst) {
    match e
    case Lit(d) => CLiteral(d).Some?
    case FieldRef(f) => !StructField(c, f)
    case DerivedRef(_) => true
    case Group(x) => IsC(c, x)
    case MinMax(_, a, b) => IsC(c, a) && IsC(c, b)
    case Bin(_, a, b) => IsC(c, a) && IsC(c, b)
  }

  ghost predicate ReadsDerived(e: IntAst) {
    match e
    case Lit(_) | FieldRef(_) => false
    case DerivedRef(_) => true
    case Group(x) => ReadsDerived(x)
    case MinMax(_, a, b) => ReadsDerived(a) || ReadsDerived(b)
    case Bin(_, a, b) => ReadsDerived(a) || ReadsDerived(b)
  }

  /** The conversion to uint64_t changes no derivation the expression reads. */
  ghost predicate Unchanged<T>(alg: Algebra<T>, c: Channel, e: IntAst) {
    match e
    case Lit(_) | FieldRef(_) => true
    case DerivedRef(d) => alg.asU64(alg.helper(Helper(c.id, d))) == alg.helper(Helper(c.id, d))
    case Group(x) => Unchanged(alg, c, x)
    case MinMax(_, a, b) => Unchanged(alg, c, a) && Unchanged(alg, c, b)
    case Bin(_, a, b) => Unchanged(alg, c, a) && Unchanged(alg, c, b)
  }

  lemma {:induction false} NothingToChange<T>(alg: Algebra<T>, c: Channel, e: IntAst)
    requires !ReadsDerived(e)
    ensures Unchanged(alg, c, e)
  {
    match e
    case Group(x) => NothingToChange(alg, c, x);
    case MinMax(_, a, b) =>
      NothingToChange(alg, c, a);
      NothingToChange(alg, c, b);
    case Bin(_, a, b) =>
      NothingToChange(alg, c, a);
      NothingToChange(alg, c, b);
    case _ =>
  }

  lemma {:induction false} ErasePair(callee: string, a: CExpr, b: CExpr)
    ensures Erase(CCall(callee, [a, b])) == CallTo(callee, [Erase(a), Erase(b)])
  {
    var args := [a, b];
    assert args[1..] == [b] && [b][1..] == [];
    assert EraseAll([b]) == [Erase(b)];
  }

  lemma EraseOne(d: string)
    ensures Erase(CCall("derived", [CId(d)])) == CallTo("derived", [Name(d)])
  {
    var args := [CId(d)];
    assert EraseAll(args) == [Erase(args[0])] + EraseAll(args[1..]) == [Name(d)];
  }

  lemma {:induction false} DeclaredPair<T>(alg: Algebra<T>, c: Channel, isMin: bool, a: IntAst, b: IntAst)
    ensures EvalC(alg, c, Erase(Declared(MinMax(isMin, a, b)))) ==
            Extreme(alg, isMin, EvalC(alg, c, Erase(Declared(a))), EvalC(alg, c, Erase(Declared(b))))
  {
    ErasePair(if isMin then "min" else "max", Declared(a), Declared(b));
  }

  lemma {:induction false} EmittedPair<T>(alg: Algebra<T>, c: Channel, isMin: bool, a: IntAst, b: IntAst)
    ensures EvalC(alg, c, EmittedTree(c.id, MinMax(isMin, a, b))) ==
            Extreme(alg, isMin, EvalC(alg, c, EmittedTree(c.id, a)), EvalC(alg, c, EmittedTree(c.id, b)))
  {
  }

  /** Where the conversion changes nothing that is read, the emitted C has the declared value. */
  lemma {:induction false} EmittedIsDeclared<T>(alg: Algebra<T>, c: Channel, e: IntAst)
    requires Generated(e) && Unchanged(alg, c, e)
    ensures EvalC(alg, c, EmittedTree(c.id, e)) == EvalC(alg, c, Erase(Declared(e)))
  {
    match e
    case Lit(_) =>
    case FieldRef(_) =>
    case DerivedRef(d) => EraseOne(d);
    case Group(x) => EmittedIsDeclared(alg, c, x);
    case MinMax(isMin, a, b) =>
      EmittedIsDeclared(alg, c, a);
      EmittedIsDeclared(alg, c, b);
      EmittedPair(alg, c, isMin, a, b);
      DeclaredPair(alg, c, isMin, a, b);
    case Bin(op, a, b) =>
      EmittedIsDeclared(alg, c, a);
      EmittedIsDeclared(alg, c, b);
  }

  /** The emitted text is C exactly when every field and every literal in it is. */
  lemma {:induction false} EmittedHasValue<T>(alg: Algebra<T>, c: Channel, e: IntAst)
    requires Generated(e)
    ensures EvalC(alg, c, EmittedTree(c.id, e)).Some? <==> IsC(c, e)
  {
    match e
    case Lit(_) =>
    case FieldRef(_) =>
    case DerivedRef(_) =>
    case Group(x) => EmittedHasValue(alg, c, x);
    case MinMax(isMin, a, b) =>
      EmittedHasValue(alg, c, a);
      EmittedHasValue(alg, c, b);
      EmittedPair(alg, c, isMin, a, b);
    case Bin(_, a, b) =>
      EmittedHasValue(alg, c, a);
      EmittedHasValue(alg, c, b);
  }

  lemma {:induction false} DeclaredHasValue<T>(alg: Algebra<T>, c: Channel, e: IntAst)
    requires Generated(e)
    ensures EvalC(alg, c, Erase(Declared(e))).Some? <==> IsC(c, e)
  {
    match e
    case Lit(_) =>
    case FieldRef(_) =>
    case DerivedRef(d) => EraseOne(d);
    case Group(x) => DeclaredHasValue(alg, c, x);
    case MinMax(isMin, a, b) =>
      DeclaredHasValue(alg, c, a);
      DeclaredHasValue(alg, c, b);
      DeclaredPair(alg, c, isMin, a, b);
    case Bin(_, a, b) =>
      DeclaredHasValue(alg, c, a);
      DeclaredHasValue(alg, c, b);
  }

  lemma {:induction false} PublishedHasValue<T>(alg: Algebra<T>, c: Channel, e: IntAst)
    requires Generated(e)
    ensures EvalJson(alg, c, EmitJson(e)).Some? <==> Readable(c, e)
  {
    match e
    case Lit(_) =>
    case FieldRef(_) =>
    case DerivedRef(_) =>
    case Group(x) => PublishedHasValue(alg, c, x);
    case MinMax(_, a, b) =>
      PublishedHasValue(alg, c, a);
      PublishedHasValue(alg, c, b);
    case Bin(_, a, b) =>
      PublishedHasValue(alg, c, a);
      PublishedHasValue(alg, c, b);
  }

  /** The published tree has the value of the declared text exactly when the tree can be read and the
      text is C. */
  lemma {:induction false} PublishedIsDeclared<T>(alg: Algebra<T>, c: Channel, e: IntAst)
    requires Generated(e)
    ensures var j := EvalJson(alg, c, EmitJson(e));
            j.Some? && j == EvalC(alg, c, Erase(Declared(e))) <==> Readable(c, e) && IsC(c, e)
  {
    PublishedHasValue(alg, c, e);
    DeclaredHasValue(alg, c, e);
    if Readable(c, e) && IsC(c, e) { SameValue(alg, c, e); }
  }

  lemma {:induction false} SameValue<T>(alg: Algebra<T>, c: Channel, e: IntAst)
    requires Generated(e) && Readable(c, e) && IsC(c, e)
    ensures EvalJson(alg, c, EmitJson(e)) == EvalC(alg, c, Erase(Declared(e)))
  {
    match e
    case Lit(_) =>
    case FieldRef(_) =>
    case DerivedRef(d) => EraseOne(d);
    case Group(x) => SameValue(alg, c, x);
    case MinMax(isMin, a, b) =>
      SameValue(alg, c, a);
      SameValue(alg, c, b);
      DeclaredPair(alg, c, isMin, a, b);
    case Bin(_, a, b) =>
      SameValue(alg, c, a);
      SameValue(alg, c, b);
  }

  // ----- the conversion shows, under some interpretation -----

  /** Values are whether a conversion happened: everything else carries it on. */
  ghost function Marking(): Algebra<bool> {
    Algebra(n => false, f => false, h => false,
            (o, a, b) => a || b, (a, b) => a && !b, (a, b) => a && !b, a => a, a => true)
  }

  lemma {:induction false} MarkedExactly(c: Channel, e: IntAst)
    requires Generated(e) && IsC(c, e)
    ensures EvalC(Marking(), c, EmittedTree(c.id, e)) == Some(ReadsDerived(e))
    ensures EvalC(Marking(), c, Erase(Declared(e))) == Some(false)
  {
    var alg := Marking();
    match e
    case Lit(_) =>
    case FieldRef(_) =>
    case DerivedRef(d) => EraseOne(d);
    case Group(x) => MarkedExactly(c, x);
    case MinMax(isMin, a, b) =>
      MarkedExactly(c, a);
      MarkedExactly(c, b);
      EmittedPair(alg, c, isMin, a, b);
      DeclaredPair(alg, c, isMin, a, b);
    case Bin(_, a, b) =>
      MarkedExactly(c, a);
      MarkedExactly(c, b);
  }

  /** The emitted C has the declared value under every interpretation exactly when no derivation is read. */
  lemma {:induction false} AlwaysAgreesExactly(c: Channel, e: IntAst)
    requires Generated(e) && IsC(c, e)
    ensures (forall alg: Algebra<bool> :: EvalC(alg, c, EmittedTree(c.id, e)) == EvalC(alg, c, Erase(Declared(e)))) <==>
            !ReadsDerived(e)
  {
    if ReadsDerived(e) {
      MarkedExactly(c, e);
    } else {
      forall alg: Algebra<bool> ensures EvalC(alg, c, EmittedTree(c.id, e)) == EvalC(alg, c, Erase(Declared(e))) {
        NothingToChange(alg, c, e);
        EmittedIsDeclared(alg, c, e);
      }
    }
  }

  // ----- what the parser produces -----

  lemma {:induction false} LevelGenerates(c: Channel, self: string, k: nat, s: string)
    requires SHIFT <= k <= PRIMARY && ExLevel(c, self, k, s).Some?
    ensures Generated(ExLevel(c, self, k, s).value.fst)
    decreases |s|, 3 + PRIMARY - k
  {
    if k == PRIMARY {
      PrimGenerates(c, self, s);
    } else {
      LevelGenerates(c, self, k + 1, s);
      var r := ExLevel(c, self, k + 1, s).value;
      TailGenerates(c, self, k, r.fst, r.snd);
    }
  }

  lemma {:induction false} TailGenerates(c: Channel, self: string, k: nat, a: IntAst, s: string)
    requires SHIFT <= k < PRIMARY && ExTail(c, self, k, a, s).Some? && Generated(a)
    ensures Generated(ExTail(c, self, k, a, s).value.fst)
    decreases |s|, 1
  {
    var t := SkipBlanks(s);
    if OpAt(k, t).Some? {
      LevelGenerates(c, self, k + 1, t[OpLength(k)..]);
      var r := ExLevel(c, self, k + 1, t[OpLength(k)..]).value;
      TailGenerates(c, self, k, Bin(OpAt(k, t).value, a, r.fst), r.snd);
    }
  }

  lemma {:induction false} PrimGenerates(c: Channel, self: string, s: string)
    requires ExPrim(c, self, s).Some?
    ensures Generated(ExPrim(c, self, s).value.fst)
    decreases |s|, 2
  {
    var t := SkipBlanks(s);
    if CharAt(t, 0, '(') {
      LevelGenerates(c, self, SHIFT, t[1..]);
    } else if MinAt(t) || MaxAt(t) {
      LevelGenerates(c, self, SHIFT, t[4..]);
      LevelGenerates(c, self, SHIFT, Eat(',', ExLevel(c, self, SHIFT, t[4..]).value.snd).value);
    } else if !DerivedAt(t) && IsDigit(t[0]) {
      assert DigitLength(t) > 0;
    }
  }

  // ----- the main result -----

  ghost function ReadAsC(text: string): Option<Tree> {
    if Lex(text).Some? then Parse(Lex(text).value) else None
  }

  /**
   For every text the generator accepts and every interpretation. The emitted C and the declared text
   parse as C. The emitted C has a value exactly when no field is a struct, no octal literal has an 8
   or a 9 and every literal fits a type; the published tree exactly when no field is a struct and no
   literal has a leading zero, and it is the declared value exactly when both hold. The emitted C has
   the declared value wherever the conversion to uint64_t changes no derivation that is read; it has
   it under every interpretation exactly when none is read.
   */
  lemma {:induction false} ReadingsAgree<T>(alg: Algebra<T>, c: Channel, self: string, text: string)
    requires WellNamed(c) && ParseInt(c, self, text).Some?
    ensures var e := ParseInt(c, self, text).value;
            var emitted, declared := Parse(EmitC(c.id, e)), ReadAsC(text);
            && emitted.Some? && declared.Some?
            && (EvalC(alg, c, emitted.value).Some? <==> IsC(c, e))
            && (EvalJson(alg, c, EmitJson(e)).Some? <==> Readable(c, e))
            && (EvalJson(alg, c, EmitJson(e)).Some? && EvalJson(alg, c, EmitJson(e)) == EvalC(alg, c, declared.value)
                <==> Readable(c, e) && IsC(c, e))
            && (Unchanged(alg, c, e) ==> EvalC(alg, c, emitted.value) == EvalC(alg, c, declared.value))
    ensures var e := ParseInt(c, self, text).value;
            var emitted, declared := Parse(EmitC(c.id, e)).value, ReadAsC(text).value;
            IsC(c, e) ==>
              ((forall any: Algebra<bool> :: EvalC(any, c, emitted) == EvalC(any, c, declared)) <==> !ReadsDerived(e))
  {
    var e := ParseInt(c, self, text).value;
    LevelGenerates(c, self, SHIFT, text);
    EmittedReadsBack(c.id, e);
    DeclaredReadsAsC(c, self, text);
    EmittedHasValue(alg, c, e);
    PublishedHasValue(alg, c, e);
    PublishedIsDeclared(alg, c, e);
    if Unchanged(alg, c, e) { EmittedIsDeclared(alg, c, e); }
    if IsC(c, e) { AlwaysAgreesExactly(c, e); }
  }

  // ----- the inputs at which the readings part -----

  /** A primary before nothing, or before an operator no rule from `k` on takes. */
  lemma {:induction false} PassUp(c: Channel, self: string, k: nat, s: string, e: IntAst, rest: string)
    requires SHIFT <= k <= PRIMARY && ExPrim(c, self, s) == Some(Pair(e, rest)) && SkipBlanks(rest) == rest
    requires forall j :: k <= j < PRIMARY ==> OpAt(j, rest).None?
    ensures ExLevel(c, self, k, s) == Some(Pair(e, rest))
    decreases PRIMARY - k
  {
    if k < PRIMARY { PassUp(c, self, k + 1, s, e, rest); }
  }

  lemma {:induction false} LiteralAlone(c: Channel, self: string, s: string)
    requires s != [] && AllDigits(s)
    ensures ExPrim(c, self, s) == Some(Pair(Lit(s), ""))
  {
    assert s == s + [] && s[..|s|] == s && s[|s|..] == "";
    DigitsBefore(s, []);
    assert IsDigit(s[0]) && SkipBlanks(s) == s;
  }

  lemma {:induction false} FieldAlone(c: Channel, self: string, s: string)
    requires IsName(s) && FindField(c.fields, s).Some? && FindField(c.fields, s).value.count <= 0
    requires !MinAt(s) && !MaxAt(s) && !DerivedAt(s)
    ensures ParseInt(c, self, s) == Some(FieldRef(s))
  {
    assert s == s + [] && s[..|s|] == s && s[|s|..] == "";
    WordBefore(s, []);
    assert IsWord(s[0]) && SkipBlanks(s) == s;
    assert ExPrim(c, self, s) == Some(Pair(FieldRef(s), ""));
    PassUp(c, self, SHIFT, s, FieldRef(s), "");
  }

  lemma {:induction false} DerivedAlone(c: Channel, self: string, d: string, rest: string)
    requires IsName(d) && MayRead(c, self, d)
    ensures ExPrim(c, self, "derived(" + d + ")" + rest) == Some(Pair(DerivedRef(d), rest))
  {
    var s := "derived(" + d + ")" + rest;
    assert s[0] == 'd' && SkipBlanks(s) == s && DerivedAt(s);
    assert s[8..] == d + (")" + rest);
    WordBefore(d, ")" + rest);
    assert IsWord(d[0]) && SkipBlanks(s[8..]) == s[8..];
    assert s[8..][..|d|] == d && s[8..][|d|..] == ")" + rest;
    assert (")" + rest)[1..] == rest && SkipBlanks(")" + rest) == ")" + rest;
  }

  /** The leading-zero case is accepted: `010` is 8 to a C compiler and no number to a JSON reader. */
  lemma {:induction false} OctalLiteral<T>(alg: Algebra<T>, c: Channel, self: string)
    ensures ParseInt(c, self, "010") == Some(Lit("010"))
    ensures EvalC(alg, c, EmittedTree(c.id, Lit("010"))) == Some(alg.lit(8))
    ensures EvalJson(alg, c, EmitJson(Lit("010"))) == None
  {
    var s := "010";
    LiteralAlone(c, self, s);
    PassUp(c, self, SHIFT, s, Lit(s), "");
    assert s[..2] == "01" && s[..2][..1] == "0" && s[..2][..1][..0] == "";
    assert Value(8, "0") == 0 && Value(8, "01") == 1 && Value(8, s) == 8;
  }

  /** One, and `n` zeros. */
  function Round(n: nat): string { "1" + seq(n, i => '0') }

  function Ten(n: nat): nat { if n == 0 then 1 else 10 * Ten(n - 1) }

  lemma {:induction false} RoundValue(n: nat)
    ensures AllDigits(Round(n)) && !LeadingZero(Round(n)) && Value(10, Round(n)) == Ten(n)
  {
    if n == 0 {
      assert "1"[..0] == "" && Round(0) == "1";
    } else {
      RoundValue(n - 1);
      assert Round(n)[..n] == Round(n - 1) && Round(n)[n] == '0';
    }
  }

  lemma NineteenZeros()
    ensures Ten(19) == 10_000_000_000_000_000_000
  {
    assert Ten(4) == 10_000;
    assert Ten(8) == 100_000_000;
    assert Ten(12) == 1_000_000_000_000;
    assert Ten(16) == 10_000_000_000_000_000;
  }

  /** Every literal that no type of C holds is accepted: a number in the tree and no constant in C. */
  lemma {:induction false} TooLarge<T>(alg: Algebra<T>, c: Channel, self: string, d: string)
    requires d != [] && AllDigits(d) && !LeadingZero(d) && Value(10, d) >= TWO63
    ensures ParseInt(c, self, d) == Some(Lit(d)) && EvalC(alg, c, EmittedTree(c.id, Lit(d))) == None
    ensures EvalJson(alg, c, EmitJson(Lit(d))) == Some(alg.lit(Value(10, d)))
  {
    LiteralAlone(c, self, d);
    PassUp(c, self, SHIFT, d, Lit(d), "");
  }

  /** 10^19 is one. */
  lemma {:induction false} HugeLiteral<T>(alg: Algebra<T>, c: Channel, self: string)
    ensures ParseInt(c, self, Round(19)) == Some(Lit(Round(19)))
    ensures EvalC(alg, c, EmittedTree(c.id, Lit(Round(19)))) == None
    ensures EvalJson(alg, c, EmitJson(Lit(Round(19)))) == Some(alg.lit(10_000_000_000_000_000_000))
  {
    RoundValue(19);
    NineteenZeros();
    TooLarge(alg, c, self, Round(19));
  }

  /** A field whose type is a struct is accepted, and what is emitted is not C. */
  lemma {:induction false} StructIsAccepted<T>(alg: Algebra<T>, id: string, self: string)
    ensures var c := Channel(id, [FieldDecl("hdr", RecordLayout.EventHdr, 0)], []);
            ParseInt(c, self, "hdr") == Some(FieldRef("hdr")) && EvalC(alg, c, EmittedTree(id, FieldRef("hdr"))) == None
  {
    FieldAlone(Channel(id, [FieldDecl("hdr", RecordLayout.EventHdr, 0)], []), self, "hdr");
  }

  // ----- the conversion in 64-bit C arithmetic -----

  /** A 64-bit integer of C, signed or unsigned. */
  datatype CInt = CInt(unsigned: bool, v: int)

  function ToU64(x: CInt): CInt { CInt(true, x.v % TWO64) }

  function ToLong(x: CInt): CInt { CInt(false, (x.v + TWO63) % TWO64 - TWO63) }

  /** The usual arithmetic conversions (6.3.1.8): one unsigned operand makes both unsigned. */
  function Usual(unsigned: bool, x: CInt): int { if unsigned then ToU64(x).v else x.v }

  /** Division toward zero (6.5.5). */
  function Quotient(a: int, b: int): int
    requires b != 0
  {
    var q := (if a < 0 then -a else a) / (if b < 0 then -b else b);
    if (a < 0) == (b < 0) then q else -q
  }

  function Wrapped(unsigned: bool, r: int): CInt {
    if unsigned then ToU64(CInt(true, r)) else ToLong(CInt(false, r))
  }

  /** A shift has the type of its left operand (6.5.7). Where C defines no value, one is picked: a signed
      result out of range wraps, a shift by a negative count does nothing, division by zero gives 0. */
  function Arithmetic(op: Op, x: CInt, y: CInt): CInt {
    if op.Shl? || op.Shr? then
      if y.v < 0 then x
      else if op.Shl? then Wrapped(x.unsigned, x.v * Bits.Pow2(y.v))
      else CInt(x.unsigned, x.v / Bits.Pow2(y.v))
    else
      var u := x.unsigned || y.unsigned;
      var a, b := Usual(u, x), Usual(u, y);
      Wrapped(u, if op.Minus? then a - b else if op.Star? then a * b
                 else if op.Slash? then if b == 0 then 0 else Quotient(a, b)
                 else a + b)
  }

  function C64(field: string -> CInt, helper: string -> CInt): Algebra<CInt> {
    Algebra(n => CInt(n >= TWO63, n), field, helper, Arithmetic,
            (x: CInt, y: CInt) => var u := x.unsigned || y.unsigned; Usual(u, x) < Usual(u, y),
            (x: CInt, y: CInt) => var u := x.unsigned || y.unsigned; Usual(u, x) > Usual(u, y), ToLong, ToU64)
  }

  /** Two rows over the signed fields `a` and `b`: `d` is their difference, `q` an eighth of it. */
  function SignedRows(id: string): Channel {
    Channel(id, [FieldDecl("a", RecordLayout.S64, 0), FieldDecl("b", RecordLayout.S64, 0)],
            [DerivedDecl("d", "int"), DerivedDecl("q", "int")])
  }

  lemma EarlierRow(id: string)
    ensures MayRead(SignedRows(id), "q", "d")
  {
    var c := SignedRows(id);
    assert FindDerived(c.derived, "d") == Some(0);
    assert c.derived[0].name == "d" && c.derived[1].name == "q";
  }

  lemma ShiftParses(id: string)
    ensures ParseInt(SignedRows(id), "q", "derived(d)>>3") == Some(Bin(Shr, DerivedRef("d"), Lit("3")))
  {
    EarlierRow(id);
    ShiftOfRow(SignedRows(id), "q");
  }

  lemma ShiftOfRow(c: Channel, self: string)
    requires MayRead(c, self, "d")
    ensures ParseInt(c, self, "derived(d)>>3") == Some(Bin(Shr, DerivedRef("d"), Lit("3")))
  {
    var s := "derived(d)>>3";
    DerivedAlone(c, self, "d", ">>3");
    assert "derived(" + "d" + ")" + ">>3" == s;
    PassUp(c, self, 9, s, DerivedRef("d"), ">>3");
    assert ">>3"[2..] == "3" && OpAt(8, ">>3") == Some(Shr);
    LiteralAlone(c, self, "3");
    PassUp(c, self, 9, "3", Lit("3"), "");
    assert ExTail(c, self, SHIFT, Bin(Shr, DerivedRef("d"), Lit("3")), "") ==
           Some(Pair(Bin(Shr, DerivedRef("d"), Lit("3")), ""));
  }

  /** The record with `a` 0 and `b` 8, and helpers that return -8. */
  function Sample(): Algebra<CInt> { C64(f => CInt(false, if f == "b" then 8 else 0), h => CInt(false, -8)) }

  /** In that record `d` is -8, as C and as a tree. */
  lemma {:induction false} DifferenceIsRead(id: string)
    ensures var c, d := SignedRows(id), Bin(Minus, FieldRef("a"), FieldRef("b"));
            EvalC(Sample(), c, EmittedTree(id, d)) == EvalJson(Sample(), c, EmitJson(d)) == Some(CInt(false, -8)) &&
            ToLong(CInt(false, -8)) == CInt(false, -8)
  {
    var c := SignedRows(id);
    assert c.fields[0].name == "a" && c.fields[1].name == "b" && c.fields[1..][0] == c.fields[1];
    assert !StructField(c, "a") && !StructField(c, "b");
  }

  lemma {:induction false} ShiftValues(id: string)
    ensures var c, q := SignedRows(id), Bin(Shr, DerivedRef("d"), Lit("3"));
            EvalJson(Sample(), c, EmitJson(q)) == Some(CInt(false, -1)) &&
            EvalC(Sample(), c, EmittedTree(id, q)) == Some(CInt(true, 0x1FFF_FFFF_FFFF_FFFF)) &&
            ToLong(CInt(true, 0x1FFF_FFFF_FFFF_FFFF)).v == 0x1FFF_FFFF_FFFF_FFFF
  {
    assert "3"[..0] == "" && Value(10, "") == 0 && Value(10, "3") == 3;
    assert Bits.Pow2(3) == 8 by { assert Bits.Pow2(1) == 2; }
    assert (-8) / 8 == -1 && (TWO64 - 8) / 8 == 0x1FFF_FFFF_FFFF_FFFF && (-8) % TWO64 == TWO64 - 8;
  }

  /** `derived(d)>>3` is accepted; where `d` is -8 it is -1 as a tree, and the C shifts 2^64 - 8. */
  lemma {:induction false} ConversionShows(id: string)
    ensures var c, d := SignedRows(id), Bin(Minus, FieldRef("a"), FieldRef("b"));
            var q := Bin(Shr, DerivedRef("d"), Lit("3"));
            ParseInt(c, "q", "derived(d)>>3") == Some(q) &&
            EvalC(Sample(), c, EmittedTree(id, d)) == Some(CInt(false, -8)) &&
            EvalJson(Sample(), c, EmitJson(q)) == Some(CInt(false, -1)) &&
            EvalC(Sample(), c, EmittedTree(id, q)) == Some(CInt(true, 0x1FFF_FFFF_FFFF_FFFF))
  {
    ShiftParses(id);
    DifferenceIsRead(id);
    ShiftValues(id);
  }

  /** An unsigned operand on the left absorbs the conversion: `duration_ns - derived(offcpu_ns)` has one value. */
  lemma {:induction false} UnsignedAbsorbs(field: string -> CInt, helper: string -> CInt, c: Channel,
                                           op: BinOp, f: string, d: string)
    requires (op.Plus? || op.Minus? || op.Star?) && !StructField(c, f) && field(f).unsigned
    ensures var alg, e := C64(field, helper), Bin(op, FieldRef(f), DerivedRef(d));
            EvalJson(alg, c, EmitJson(e)) == EvalC(alg, c, EmittedTree(c.id, e))
  {
    var h := helper(Helper(c.id, d));
    assert ToU64(ToU64(h)) == ToU64(h);
  }

  // ----- the two modes accept the same texts -----

  ghost predicate RefsOk(c: Channel, self: string, e: IntAst) {
    match e
    case Lit(_) | FieldRef(_) => true
    case DerivedRef(d) => MayRead(c, self, d)
    case Group(x) => RefsOk(c, self, x)
    case MinMax(_, a, b) => RefsOk(c, self, a) && RefsOk(c, self, b)
    case Bin(_, a, b) => RefsOk(c, self, a) && RefsOk(c, self, b)
  }

  /** Parsing on behalf of `other` what was accepted on behalf of `self`. */
  ghost predicate SameParse(c: Channel, other: string, was: Read, now: Read) {
    was.Some? ==> now == if RefsOk(c, other, was.value.fst) then was else None
  }

  lemma {:induction false} LevelFor(c: Channel, self: string, other: string, k: nat, s: string)
    requires SHIFT <= k <= PRIMARY
    ensures SameParse(c, other, ExLevel(c, self, k, s), ExLevel(c, other, k, s))
    decreases |s|, 3 + PRIMARY - k
  {
    if k == PRIMARY {
      PrimFor(c, self, other, s);
    } else {
      LevelFor(c, self, other, k + 1, s);
      var r := ExLevel(c, self, k + 1, s);
      if r.Some? { TailFor(c, self, other, k, r.value.fst, r.value.snd); }
    }
  }

  lemma {:induction false} TailFor(c: Channel, self: string, other: string, k: nat, a: IntAst, s: string)
    requires SHIFT <= k < PRIMARY
    ensures var was := ExTail(c, self, k, a, s);
            was.Some? ==> (RefsOk(c, other, was.value.fst) ==> RefsOk(c, other, a)) &&
                          (RefsOk(c, other, a) ==> SameParse(c, other, was, ExTail(c, other, k, a, s)))
    decreases |s|, 1
  {
    var t := SkipBlanks(s);
    if OpAt(k, t).Some? {
      var u := t[OpLength(k)..];
      LevelFor(c, self, other, k + 1, u);
      var r := ExLevel(c, self, k + 1, u);
      if r.Some? { TailFor(c, self, other, k, Bin(OpAt(k, t).value, a, r.value.fst), r.value.snd); }
    }
  }

  lemma {:induction false} PrimFor(c: Channel, self: string, other: string, s: string)
    ensures SameParse(c, other, ExPrim(c, self, s), ExPrim(c, other, s))
    decreases |s|, 2
  {
    var t := SkipBlanks(s);
    if CharAt(t, 0, '(') {
      LevelFor(c, self, other, SHIFT, t[1..]);
    } else if MinAt(t) || MaxAt(t) {
      ArgsFor(c, self, other, MinAt(t), t[4..]);
    }
  }

  lemma {:induction false} ArgsFor(c: Channel, self: string, other: string, isMin: bool, s: string)
    ensures SameParse(c, other, ExMinMax(c, self, isMin, s), ExMinMax(c, other, isMin, s))
    decreases |s|, 20
  {
    LevelFor(c, self, other, SHIFT, s);
    var a := ExLevel(c, self, SHIFT, s);
    if a.Some? && Eat(',', a.value.snd).Some? {
      LevelFor(c, self, other, SHIFT, Eat(',', a.value.snd).value);
    }
  }

  /** The tree is published under the name "json". What the header mode accepted for a derivation is
      accepted again, with the same parse, exactly when no derivation it reads is called "json" or
      declared after one that is. */
  lemma {:induction false} PublishedExactlyWhen(c: Channel, self: string, text: string)
    requires ParseInt(c, self, text).Some?
    ensures ParseInt(c, "json", text) ==
            if RefsOk(c, "json", ParseInt(c, self, text).value) then ParseInt(c, self, text) else None
  {
    LevelFor(c, self, "json", SHIFT, text);
  }

  /** A derivation named json is read by the header and refused when the tree is published. */
  lemma JsonNameRefused(id: string)
    ensures var c := Channel(id, [], [DerivedDecl("json", "int"), DerivedDecl("q", "int")]);
            ParseInt(c, "q", "derived(json)") == Some(DerivedRef("json")) &&
            ParseInt(c, "json", "derived(json)") == None
  {
    var c := Channel(id, [], [DerivedDecl("json", "int"), DerivedDecl("q", "int")]);
    assert FindDerived(c.derived, "json") == Some(0);
    assert c.derived[0].name == "json" && c.derived[1].name == "q";
    assert MayRead(c, "q", "json");
    DerivedAlone(c, "q", "json", "");
    assert "derived(" + "json" + ")" + "" == "derived(json)";
    PassUp(c, "q", SHIFT, "derived(json)", DerivedRef("json"), "");
    PublishedExactlyWhen(c, "q", "derived(json)");
  }

  // ----- derivations are well founded -----

  /** How a derivation is implemented: a declared expression, or a function elsewhere. */
  datatype Body = Expr(text: string) | Function

  /** The header mode accepts the table. */
  ghost predicate Accepted(c: Channel, bodies: seq<Body>) {
    |bodies| == |c.derived| &&
    forall k :: 0 <= k < |bodies| && bodies[k].Expr? ==> ParseInt(c, c.derived[k].name, bodies[k].text).Some?
  }

  /** Every derivation it reads is a row before `k`. */
  ghost predicate ReadsBefore(c: Channel, k: nat, e: IntAst) {
    match e
    case Lit(_) | FieldRef(_) => true
    case DerivedRef(d) => FindDerived(c.derived, d).Some? && FindDerived(c.derived, d).value < k
    case Group(x) => ReadsBefore(c, k, x)
    case MinMax(_, a, b) => ReadsBefore(c, k, a) && ReadsBefore(c, k, b)
    case Bin(_, a, b) => ReadsBefore(c, k, a) && ReadsBefore(c, k, b)
  }

  lemma {:induction false} AllowedIsBefore(c: Channel, k: nat, e: IntAst)
    requires k < |c.derived| && RefsOk(c, c.derived[k].name, e)
    ensures ReadsBefore(c, k, e)
  {
    match e
    case Lit(_) =>
    case FieldRef(_) =>
    case DerivedRef(d) =>
    case Group(x) => AllowedIsBefore(c, k, x);
    case MinMax(_, a, b) =>
      AllowedIsBefore(c, k, a);
      AllowedIsBefore(c, k, b);
    case Bin(_, a, b) =>
      AllowedIsBefore(c, k, a);
      AllowedIsBefore(c, k, b);
  }

  lemma {:induction false} RowReadsEarlierRows(c: Channel, bodies: seq<Body>, k: nat)
    requires Accepted(c, bodies) && k < |bodies| && bodies[k].Expr?
    ensures ReadsBefore(c, k, ParseInt(c, c.derived[k].name, bodies[k].text).value)
  {
    var self := c.derived[k].name;
    LevelFor(c, self, self, SHIFT, bodies[k].text);
    AllowedIsBefore(c, k, ParseInt(c, self, bodies[k].text).value);
  }

  /** The long row `k` has, following `derived()` references from row to row as the generated C does:
      the row number is the measure that shows this ends. */
  ghost function RowValue<T>(alg: Algebra<T>, c: Channel, bodies: seq<Body>, k: nat): Option<T>
    requires Accepted(c, bodies) && k < |bodies|
    decreases k, 1
  {
    if bodies[k].Function? then Some(alg.helper(Helper(c.id, c.derived[k].name))) else
    RowReadsEarlierRows(c, bodies, k);
    MapValue(alg.asLong, ExprValue(alg, c, bodies, k, ParseInt(c, c.derived[k].name, bodies[k].text).value))
  }

  ghost function ExprValue<T>(alg: Algebra<T>, c: Channel, bodies: seq<Body>, k: nat, e: IntAst): Option<T>
    requires Accepted(c, bodies) && ReadsBefore(c, k, e)
    decreases k, 0, e
  {
    match e
    case Lit(d) => if CLiteral(d).Some? then Some(alg.lit(CLiteral(d).value)) else None
    case FieldRef(f) => FieldValue(alg, c, f)
    case DerivedRef(d) => MapValue(alg.asU64, RowValue(alg, c, bodies, FindDerived(c.derived, d).value))
    case Group(x) => ExprValue(alg, c, bodies, k, x)
    case MinMax(isMin, a, b) =>
      Extreme(alg, isMin, ExprValue(alg, c, bodies, k, a), ExprValue(alg, c, bodies, k, b))
    case Bin(op, a, b) =>
      if !IsArithmetic(op) then None
      else Apply(alg, op, ExprValue(alg, c, bodies, k, a), ExprValue(alg, c, bodies, k, b))
  }

  /** Every helper returns its emitted expression, converted to long. */
  ghost predicate Implements<T>(alg: Algebra<T>, c: Channel, bodies: seq<Body>)
    requires Accepted(c, bodies)
  {
    forall k :: 0 <= k < |bodies| && bodies[k].Expr? ==>
      Some(alg.helper(Helper(c.id, c.derived[k].name))) ==
      MapValue(alg.asLong, EvalC(alg, c, EmittedTree(c.id, ParseInt(c, c.derived[k].name, bodies[k].text).value)))
  }

  /** Helpers that implement their declarations have the one value the table determines. */
  lemma {:induction false} HelpersAreDetermined<T>(alg: Algebra<T>, c: Channel, bodies: seq<Body>, k: nat)
    requires Accepted(c, bodies) && Implements(alg, c, bodies) && k < |bodies|
    ensures RowValue(alg, c, bodies, k) == Some(alg.helper(Helper(c.id, c.derived[k].name)))
    decreases k, 1
  {
    if bodies[k].Expr? {
      RowReadsEarlierRows(c, bodies, k);
      ExprIsDetermined(alg, c, bodies, k, ParseInt(c, c.derived[k].name, bodies[k].text).value);
    }
  }

  lemma {:induction false} ExprIsDetermined<T>(alg: Algebra<T>, c: Channel, bodies: seq<Body>, k: nat, e: IntAst)
    requires Accepted(c, bodies) && Implements(alg, c, bodies) && ReadsBefore(c, k, e) && k < |bodies|
    ensures ExprValue(alg, c, bodies, k, e) == EvalC(alg, c, EmittedTree(c.id, e))
    decreases k, 0, e
  {
    match e
    case Lit(_) =>
    case FieldRef(_) =>
    case DerivedRef(d) =>
      var j := FindDerived(c.derived, d).value;
      HelpersAreDetermined(alg, c, bodies, j);
      assert c.derived[j].name == d;
    case Group(x) => ExprIsDetermined(alg, c, bodies, k, x);
    case MinMax(isMin, a, b) =>
      ExprIsDetermined(alg, c, bodies, k, a);
      ExprIsDetermined(alg, c, bodies, k, b);
      EmittedPair(alg, c, isMin, a, b);
    case Bin(_, a, b) =>
      ExprIsDetermined(alg, c, bodies, k, a);
      ExprIsDetermined(alg, c, bodies, k, b);
  }
}
