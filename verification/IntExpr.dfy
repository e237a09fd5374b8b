/**
 The arithmetic derivations of the record contract: one parser, two outputs.

 The generator reads a declared expression twice with the same code, once emitting C and
 once emitting a tree for readers in other languages. Here the parser works on characters,
 the emitted C is read back with the C grammar, and so is the declared text itself.
 */
module IntExpr {
  import opened Common
  import opened TextScan
  import opened CSyntax
  import RecordLayout

  // ----- what an expression may name -----

  datatype FieldDecl = FieldDecl(name: string, ctype: RecordLayout.CType, count: int)
  datatype DerivedDecl = DerivedDecl(name: string, expose: string)

  /** A channel's id, fields and derivations, in declaration order. */
  datatype Channel = Channel(id: string, fields: seq<FieldDecl>, derived: seq<DerivedDecl>)

  function FindField(fs: seq<FieldDecl>, name: string): (r: Option<FieldDecl>)
    ensures r.Some? ==> r.value in fs && r.value.name == name
    ensures r.None? ==> forall f | f in fs :: f.name != name
  {
    if fs == [] then None else if fs[0].name == name then Some(fs[0]) else FindField(fs[1..], name)
  }

  /** The name is a field whose type is a struct, which no operator takes. */
  predicate StructField(c: Channel, name: string) {
    FindField(c.fields, name).Some? && FindField(c.fields, name).value.ctype.EventHdr?
  }

  /** The row of a derivation, by name. */
  function FindDerived(ds: seq<DerivedDecl>, name: string): (r: Option<nat>)
    ensures r.Some? ==> r.value < |ds| && ds[r.value].name == name
    ensures r.None? ==> forall d | d in ds :: d.name != name
  {
    if ds == [] then None
    else if ds[0].name == name then Some(0)
    else match FindDerived(ds[1..], name)
         case None => None
         case Some(i) => Some(i + 1)
  }

  /** A row named `name` that a row named `self` precedes or is. */
  predicate DeclaredLater(ds: seq<DerivedDecl>, self: string, name: string) {
    exists i, j :: 0 <= i <= j < |ds| && ds[i].name == self && ds[j].name == name
  }

  /** What `derived()` may read while the derivation `self` is being generated. */
  predicate MayRead(c: Channel, self: string, name: string) {
    var k := FindDerived(c.derived, name);
    k.Some? && c.derived[k.value].expose == "int" && name != self && !DeclaredLater(c.derived, self, name)
  }

  // ----- the parse -----

  datatype IntAst =
    | Lit(digits: string)
    | FieldRef(name: string)
    | DerivedRef(name: string)
    | Group(e: IntAst)
    | MinMax(isMin: bool, a: IntAst, b: IntAst)
    | Bin(op: BinOp, a: IntAst, b: IntAst)

  const SHIFT: nat := 8
  const PRIMARY: nat := 11

  type Read = Option<Pair<IntAst, string>>

  predicate CharAt(s: string, i: nat, ch: char) { i < |s| && s[i] == ch }

  /** The operator a rule looks for: `*` `/`, `+` `-`, or `<<` `>>`. */
  function OpAt(k: nat, s: string): (r: Option<BinOp>)
    ensures r.Some? ==> Level(r.value) == k && |s| >= OpLength(k)
  {
    if k == 10 && CharAt(s, 0, '*') then Some(Star)
    else if k == 10 && CharAt(s, 0, '/') then Some(Slash)
    else if k == 9 && CharAt(s, 0, '+') then Some(Plus)
    else if k == 9 && CharAt(s, 0, '-') then Some(Minus)
    else if k == 8 && CharAt(s, 0, '<') && CharAt(s, 1, '<') then Some(Shl)
    else if k == 8 && CharAt(s, 0, '>') && CharAt(s, 1, '>') then Some(Shr)
    else None
  }

  predicate MinAt(s: string) { CharAt(s, 0, 'm') && CharAt(s, 1, 'i') && CharAt(s, 2, 'n') && CharAt(s, 3, '(') }

  predicate MaxAt(s: string) { CharAt(s, 0, 'm') && CharAt(s, 1, 'a') && CharAt(s, 2, 'x') && CharAt(s, 3, '(') }

  predicate DerivedAt(s: string) {
    CharAt(s, 0, 'd') && CharAt(s, 1, 'e') && CharAt(s, 2, 'r') && CharAt(s, 3, 'i') &&
    CharAt(s, 4, 'v') && CharAt(s, 5, 'e') && CharAt(s, 6, 'd') && CharAt(s, 7, '(')
  }

  function OpLength(k: nat): (n: nat)
    ensures n > 0
  {
    if k == 8 then 2 else 1
  }

  /** ex_eat of one character. */
  function Eat(ch: char, s: string): (r: Option<string>)
    ensures r.Some? ==> |r.value| < |s|
  {
    var t := SkipBlanks(s);
    if t != [] && t[0] == ch then Some(t[1..]) else None
  }

  function ExLevel(c: Channel, self: string, k: nat, s: string): (r: Read)
    requires SHIFT <= k <= PRIMARY
    ensures r.Some? ==> |r.value.snd| < |s|
    decreases |s|, 3 + PRIMARY - k
  {
    if k == PRIMARY then ExPrim(c, self, s) else
    match ExLevel(c, self, k + 1, s)
    case None => None
    case Some(Pair(a, rest)) => ExTail(c, self, k, a, rest)
  }

  function ExTail(c: Channel, self: string, k: nat, a: IntAst, s: string): (r: Read)
    requires SHIFT <= k < PRIMARY
    ensures r.Some? ==> |r.value.snd| <= |s|
    decreases |s|, 1
  {
    var t := SkipBlanks(s);
    var op := OpAt(k, t);
    if op.None? then Some(Pair(a, t)) else
    match ExLevel(c, self, k + 1, t[OpLength(k)..])
    case None => None
    case Some(Pair(b, rest)) => ExTail(c, self, k, Bin(op.value, a, b), rest)
  }

  function ExPrim(c: Channel, self: string, s: string): (r: Read)
    ensures r.Some? ==> |r.value.snd| < |s| && !r.value.fst.Bin?
    decreases |s|, 2
  {
    var t := SkipBlanks(s);
    if CharAt(t, 0, '(') then ExGroup(c, self, t[1..])
    else if MinAt(t) || MaxAt(t) then ExMinMax(c, self, MinAt(t), t[4..])
    else if DerivedAt(t) then ExDerived(c, self, t[8..])
    else if t != [] && IsDigit(t[0]) then
      var n := DigitLength(t);
      Some(Pair(Lit(t[..n]), t[n..]))
    else if t != [] && IsAlpha(t[0]) then
      var n := WordLength(t);
      var f := FindField(c.fields, t[..n]);
      if f.None? || f.value.count > 0 then None else Some(Pair(FieldRef(t[..n]), t[n..]))
    else None
  }

  function ExGroup(c: Channel, self: string, s: string): (r: Read)
    ensures r.Some? ==> |r.value.snd| < |s| && !r.value.fst.Bin?
    decreases |s|, 20
  {
    match ExLevel(c, self, SHIFT, s)
    case None => None
    case Some(Pair(e, rest)) =>
      match Eat(')', rest)
      case None => None
      case Some(rest1) => Some(Pair(Group(e), rest1))
  }

  function ExMinMax(c: Channel, self: string, isMin: bool, s: string): (r: Read)
    ensures r.Some? ==> |r.value.snd| < |s| && !r.value.fst.Bin?
    decreases |s|, 20
  {
    match ExLevel(c, self, SHIFT, s)
    case None => None
    case Some(Pair(a, rest)) =>
      match Eat(',', rest)
      case None => None
      case Some(rest1) =>
        match ExLevel(c, self, SHIFT, rest1)
        case None => None
        case Some(Pair(b, rest2)) =>
          match Eat(')', rest2)
          case None => None
          case Some(rest3) => Some(Pair(MinMax(isMin, a, b), rest3))
  }

  function ExDerived(c: Channel, self: string, s: string): (r: Read)
    ensures r.Some? ==> |r.value.snd| < |s| && !r.value.fst.Bin?
  {
    var t := SkipBlanks(s);
    var n := WordLength(t);
    match Eat(')', t[n..])
    case None => None
    case Some(rest) => if MayRead(c, self, t[..n]) then Some(Pair(DerivedRef(t[..n]), rest)) else None
  }

  /** int_expr_c: the whole text, or nothing. `self` is the derivation being generated. */
  function ParseInt(c: Channel, self: string, text: string): Option<IntAst> {
    match ExLevel(c, self, SHIFT, text)
    case None => None
    case Some(Pair(e, rest)) => if SkipBlanks(rest) == [] then Some(e) else None
  }

  // ----- which names an expression may read -----

  lemma {:induction false} FieldFound(fs: seq<FieldDecl>, name: string, i: nat)
    requires i < |fs| && fs[i].name == name && forall j :: 0 <= j < i ==> fs[j].name != name
    ensures FindField(fs, name) == Some(fs[i])
  {
    if i > 0 {
      assert forall j :: 0 <= j < i - 1 ==> fs[1..][j] == fs[j + 1];
      FieldFound(fs[1..], name, i - 1);
    }
  }

  lemma {:induction false} DerivedFound(ds: seq<DerivedDecl>, name: string, i: nat)
    requires i < |ds| && ds[i].name == name && forall j :: 0 <= j < i ==> ds[j].name != name
    ensures FindDerived(ds, name) == Some(i)
  {
    if i > 0 {
      assert forall j :: 0 <= j < i - 1 ==> ds[1..][j] == ds[j + 1];
      DerivedFound(ds[1..], name, i - 1);
    }
  }

  lemma {:induction false} PrimaryAlone(c: Channel, self: string, text: string)
    requires ExPrim(c, self, text).Some? ==> ExPrim(c, self, text).value.snd == []
    ensures var r := ExPrim(c, self, text);
            ParseInt(c, self, text) == if r.Some? then Some(r.value.fst) else None
  {
    var r := ExPrim(c, self, text);
    assert ExLevel(c, self, 11, text) == r;
    assert ExLevel(c, self, 10, text) == r;
    assert ExLevel(c, self, 9, text) == r;
    assert ExLevel(c, self, 8, text) == r;
  }

  /** A name alone is accepted exactly if its first field is no array. */
  lemma {:induction false} FieldReadExactly(c: Channel, self: string, w: string, i: nat)
    requires IsName(w)
    ensures (forall f | f in c.fields :: f.name != w) ==> ParseInt(c, self, w) == None
    ensures i < |c.fields| && c.fields[i].name == w && (forall j :: 0 <= j < i ==> c.fields[j].name != w) ==>
              ParseInt(c, self, w) == if c.fields[i].count <= 0 then Some(FieldRef(w)) else None
  {
    WordBefore(w, []);
    assert w + [] == w && w[..|w|] == w;
    if i < |c.fields| && c.fields[i].name == w && forall j :: 0 <= j < i ==> c.fields[j].name != w {
      FieldFound(c.fields, w, i);
    }
    PrimaryAlone(c, self, w);
  }

  /** `derived(w)` is accepted exactly if the first derivation of that name is an int and none of that name is
      the derivation being generated or declared after it. */
  lemma {:induction false} DerivedReadExactly(c: Channel, self: string, w: string, k: nat)
    requires forall i :: 0 <= i < |w| ==> IsWord(w[i])
    ensures (forall d | d in c.derived :: d.name != w) ==> ParseInt(c, self, "derived(" + w + ")") == None
    ensures k < |c.derived| && c.derived[k].name == w && (forall j :: 0 <= j < k ==> c.derived[j].name != w) ==>
              ParseInt(c, self, "derived(" + w + ")") ==
              if && c.derived[k].expose == "int"
                 && (forall i, j :: 0 <= i <= j < |c.derived| && c.derived[i].name == self ==> c.derived[j].name != w)
              then Some(DerivedRef(w)) else None
  {
    var t := "derived(" + w + ")";
    DerivedArgument(c, self, w);
    if k < |c.derived| && c.derived[k].name == w && forall j :: 0 <= j < k ==> c.derived[j].name != w {
      DerivedFound(c.derived, w, k);
    }
    PrimaryAlone(c, self, t);
  }

  lemma {:induction false} DerivedArgument(c: Channel, self: string, w: string)
    requires forall i :: 0 <= i < |w| ==> IsWord(w[i])
    ensures ExPrim(c, self, "derived(" + w + ")") == if MayRead(c, self, w) then Some(Pair(DerivedRef(w), [])) else None
  {
    var t := "derived(" + w + ")";
    var u := w + ")";
    assert DerivedAt(t) && t[8..] == u && SkipBlanks(t) == t;
    WordBefore(w, ")");
    assert SkipBlanks(u) == u && u[..|w|] == w && u[|w|..] == ")";
  }

  // ----- the two outputs -----

  datatype Json =
    | JLit(digits: string) | JField(name: string) | JDerived(name: string)
    | JOp(op: JsonOp, a: Json, b: Json)
  datatype JsonOp = JMin | JMax | JBin(op: BinOp)

  /** The generated helper that computes a derivation. */
  function Helper(id: string, name: string): string {
    "spnl_recd_" + id + "_" + name + "_val"
  }

  function Wrap(ts: Tokens): Tokens { [LParen] + ts + [RParen] }

  function EmitC(id: string, e: IntAst): Tokens {
    match e
    case Lit(d) => [Atom(d)]
    case FieldRef(f) => [Ident("r"), Arrow, Ident(f)]
    case DerivedRef(d) => Wrap([CastTo("uint64_t"), Ident(Helper(id, d)), LParen, Ident("r"), RParen])
    case Group(x) => Wrap(EmitC(id, x))
    case MinMax(isMin, a, b) =>
      var x, y := Wrap(EmitC(id, a)), Wrap(EmitC(id, b));
      Wrap(x + [Punct(if isMin then Lt else Gt)] + y + [Question] + x + [Colon] + y)
    case Bin(op, a, b) => Wrap(Wrap(EmitC(id, a)) + [Punct(op)] + Wrap(EmitC(id, b)))
  }

  function EmitJson(e: IntAst): Json {
    match e
    case Lit(d) => JLit(d)
    case FieldRef(f) => JField(f)
    case DerivedRef(d) => JDerived(d)
    case Group(x) => EmitJson(x)
    case MinMax(isMin, a, b) => JOp(if isMin then JMin else JMax, EmitJson(a), EmitJson(b))
    case Bin(op, a, b) => JOp(JBin(op), EmitJson(a), EmitJson(b))
  }

  // ----- the parser as it runs: one cursor, one output buffer, a mode -----

  datatype Out = CText(ts: Tokens) | JsonText(j: Json)

  function Emit(json: bool, id: string, e: IntAst): Out {
    if json then JsonText(EmitJson(e)) else CText(EmitC(id, e))
  }

  function EmitBin(op: BinOp, a: Out, b: Out): Out {
    if a.JsonText? && b.JsonText? then JsonText(JOp(JBin(op), a.j, b.j))
    else if a.CText? && b.CText? then CText(Wrap(Wrap(a.ts) + [Punct(op)] + Wrap(b.ts)))
    else a
  }

  function EmitMinMax(isMin: bool, a: Out, b: Out): Out {
    if a.JsonText? && b.JsonText? then JsonText(JOp(if isMin then JMin else JMax, a.j, b.j))
    else if a.CText? && b.CText? then
      var x, y := Wrap(a.ts), Wrap(b.ts);
      CText(Wrap(x + [Punct(if isMin then Lt else Gt)] + y + [Question] + x + [Colon] + y))
    else a
  }

  lemma {:induction false} TailGoesOn(c: Channel, self: string, k: nat, a: IntAst, s: string, b: IntAst, rest: string)
    requires SHIFT <= k < PRIMARY && OpAt(k, SkipBlanks(s)).Some?
    requires ExLevel(c, self, k + 1, SkipBlanks(s)[OpLength(k)..]) == Some(Pair(b, rest))
    ensures ExTail(c, self, k, a, s) == ExTail(c, self, k, Bin(OpAt(k, SkipBlanks(s)).value, a, b), rest)
  {
  }

  lemma BinEmits(json: bool, id: string, op: BinOp, a: IntAst, b: IntAst)
    ensures EmitBin(op, Emit(json, id, a), Emit(json, id, b)) == Emit(json, id, Bin(op, a, b))
  {
  }

  lemma MinMaxEmits(json: bool, id: string, isMin: bool, a: IntAst, b: IntAst)
    ensures EmitMinMax(isMin, Emit(json, id, a), Emit(json, id, b)) == Emit(json, id, MinMax(isMin, a, b))
  {
  }

  /** What a sub-parse at the cursor must have done. */
  ghost predicate Agrees(json: bool, id: string, want: Read, out: Option<Out>, rest: string) {
    if want.None? then out.None? else out == Some(Emit(json, id, want.value.fst)) && rest == want.value.snd
  }

  class ExprCur {
    const text: string
    const c: Channel
    const self: string
    const json: bool
    var p: nat

    constructor (c: Channel, self: string, json: bool, text: string)
      ensures this.c == c && this.self == self && this.json == json && this.text == text && p == 0
    {
      this.c, this.self, this.json, this.text, p := c, self, json, text, 0;
    }

    ghost predicate Valid()
      reads this
    {
      p <= |text|
    }

    ghost function Rest(): string
      requires Valid()
      reads this
    {
      text[p..]
    }

    method Ws()
      requires Valid()
      modifies this`p
      ensures Valid() && old(p) <= p && Rest() == SkipBlanks(old(Rest()))
    {
      while p < |text| && IsBlank(text[p])
        invariant Valid() && old(p) <= p && SkipBlanks(Rest()) == SkipBlanks(old(Rest()))
      {
        assert Rest()[1..] == text[p + 1..];
        p := p + 1;
      }
    }

    /** ex_eat */
    method EatChar(ch: char) returns (ok: bool)
      requires Valid()
      modifies this`p
      ensures Valid() && old(p) <= p && ok == Eat(ch, old(Rest())).Some?
      ensures Rest() == if ok then Eat(ch, old(Rest())).value else SkipBlanks(old(Rest()))
    {
      Ws();
      ok := p < |text| && text[p] == ch;
      if ok {
        assert Rest()[1..] == text[p + 1..];
        p := p + 1;
      }
    }

    method Word() returns (w: string)
      requires Valid()
      modifies this`p
      ensures Valid() && old(p) <= p
      ensures var s := old(Rest()); w == s[..WordLength(s)] && Rest() == s[WordLength(s)..]
    {
      var st := p;
      while p < |text| && IsWord(text[p])
        invariant Valid() && st <= p && (p - st) + WordLength(Rest()) == WordLength(old(Rest()))
      {
        assert Rest()[1..] == text[p + 1..];
        p := p + 1;
      }
      w := text[st..p];
    }

    method Digits() returns (w: string)
      requires Valid()
      modifies this`p
      ensures Valid() && old(p) <= p
      ensures var s := old(Rest()); w == s[..DigitLength(s)] && Rest() == s[DigitLength(s)..]
    {
      var st := p;
      while p < |text| && IsDigit(text[p])
        invariant Valid() && st <= p && (p - st) + DigitLength(Rest()) == DigitLength(old(Rest()))
      {
        assert Rest()[1..] == text[p + 1..];
        p := p + 1;
      }
      w := text[st..p];
    }

    /** ex_mul, ex_add and ex_shift: an operand, then the loop. */
    method Binary(k: nat) returns (out: Option<Out>)
      requires Valid() && SHIFT <= k <= PRIMARY
      modifies this`p
      ensures Valid() && old(p) <= p
      ensures Agrees(json, c.id, ExLevel(c, self, k, old(Rest())), out, Rest())
      decreases |text| - p, 3 + PRIMARY - k
    {
      if k == PRIMARY {
        out := Prim();
      } else {
        ghost var want := ExLevel(c, self, k + 1, Rest());
        out := Binary(k + 1);
        if out.Some? {
          out := Operators(k, want.value.fst, out.value);
        }
      }
    }

    /** The loop of ex_mul, ex_add and ex_shift, which overwrites `a` with each combination. */
    method Operators(k: nat, ghost e0: IntAst, a0: Out) returns (out: Option<Out>)
      requires Valid() && SHIFT <= k < PRIMARY && a0 == Emit(json, c.id, e0)
      modifies this`p
      ensures Valid() && old(p) <= p
      ensures Agrees(json, c.id, ExTail(c, self, k, e0, old(Rest())), out, Rest())
      decreases |text| - p, 1
    {
      ghost var e := e0;
      ghost var want := ExTail(c, self, k, e0, Rest());
      var a := a0;
      while true
        invariant Valid() && old(p) <= p && a == Emit(json, c.id, e)
        invariant want == ExTail(c, self, k, e, Rest())
        decreases |text| - p
      {
        ghost var s := Rest();
        var op := Operator(k);
        if op.None? {
          return Some(a);
        }
        ghost var operand := ExLevel(c, self, k + 1, Rest());
        var b := Binary(k + 1);
        if b.None? {
          return None;
        }
        TailGoesOn(c, self, k, e, s, operand.value.fst, Rest());
        BinEmits(json, c.id, op.value, e, operand.value.fst);
        a := EmitBin(op.value, a, b.value);
        e := Bin(op.value, e, operand.value.fst);
      }
    }

    /** The next operator of a level, past any blanks. */
    method Operator(k: nat) returns (op: Option<BinOp>)
      requires Valid() && SHIFT <= k < PRIMARY
      modifies this`p
      ensures Valid() && old(p) <= p && op == OpAt(k, SkipBlanks(old(Rest())))
      ensures Rest() == if op.None? then SkipBlanks(old(Rest())) else SkipBlanks(old(Rest()))[OpLength(k)..]
      ensures op.Some? ==> old(p) < p
    {
      Ws();
      op := OpAt(k, text[p..]);
      if op.Some? {
        ghost var here := Rest();
        p := p + OpLength(k);
        assert Rest() == here[OpLength(k)..];
      }
    }

    method Prim() returns (out: Option<Out>)
      requires Valid()
      modifies this`p
      ensures Valid() && old(p) <= p
      ensures Agrees(json, c.id, ExPrim(c, self, old(Rest())), out, Rest())
      decreases |text| - p, 2
    {
      Ws();
      ghost var t := Rest();
      if CharAt(text, p, '(') {
        p := p + 1;
        assert Rest() == t[1..];
        out := Parenthesised();
      } else if MinAt(text[p..]) || MaxAt(text[p..]) {
        var isMin := text[p + 1] == 'i';
        p := p + 4;
        assert Rest() == t[4..];
        out := MinMaxArgs(isMin);
      } else if DerivedAt(text[p..]) {
        p := p + 8;
        assert Rest() == t[8..];
        out := DerivedName();
      } else if p < |text| && IsDigit(text[p]) {
        var d := Digits();
        out := Some(Emit(json, c.id, Lit(d)));
      } else if p < |text| && IsAlpha(text[p]) {
        var w := Word();
        var f := FindField(c.fields, w);
        out := if f.None? || f.value.count > 0 then None else Some(Emit(json, c.id, FieldRef(w)));
      } else {
        out := None;
      }
    }

    method Parenthesised() returns (out: Option<Out>)
      requires Valid()
      modifies this`p
      ensures Valid() && old(p) <= p
      ensures Agrees(json, c.id, ExGroup(c, self, old(Rest())), out, Rest())
      decreases |text| - p, 20
    {
      var a := Binary(SHIFT);
      if a.None? { return None; }
      var ok := EatChar(')');
      if !ok { return None; }
      out := Some(if json then a.value else CText(Wrap(a.value.ts)));
    }

    method MinMaxArgs(isMin: bool) returns (out: Option<Out>)
      requires Valid()
      modifies this`p
      ensures Valid() && old(p) <= p
      ensures Agrees(json, c.id, ExMinMax(c, self, isMin, old(Rest())), out, Rest())
      decreases |text| - p, 20
    {
      ghost var s0 := Rest();
      var a := Binary(SHIFT);
      if a.None? { return None; }
      ghost var s1 := Rest();
      var ok := EatChar(',');
      if !ok { return None; }
      ghost var s2 := Rest();
      var b := Binary(SHIFT);
      if b.None? { return None; }
      ghost var s3 := Rest();
      ok := EatChar(')');
      if !ok { return None; }
      ghost var x, y := ExLevel(c, self, SHIFT, s0).value.fst, ExLevel(c, self, SHIFT, s2).value.fst;
      assert ExMinMax(c, self, isMin, s0) == Some(Pair(MinMax(isMin, x, y), Rest()));
      MinMaxEmits(json, c.id, isMin, x, y);
      out := Some(EmitMinMax(isMin, a.value, b.value));
    }

    method DerivedName() returns (out: Option<Out>)
      requires Valid()
      modifies this`p
      ensures Valid() && old(p) <= p
      ensures Agrees(json, c.id, ExDerived(c, self, old(Rest())), out, Rest())
    {
      Ws();
      var w := Word();
      var ok := EatChar(')');
      if !ok || !MayRead(c, self, w) { return None; }
      out := Some(Emit(json, c.id, DerivedRef(w)));
    }
  }

  /** int_expr_c */
  method IntExprOut(c: Channel, self: string, json: bool, text: string) returns (out: Option<Out>)
    ensures out == match ParseInt(c, self, text)
                   case None => None
                   case Some(e) => Some(Emit(json, c.id, e))
  {
    var cur := new ExprCur(c, self, json, text);
    assert text[0..] == text;
    out := cur.Binary(SHIFT);
    if out.None? { return; }
    cur.Ws();
    if cur.p < |text| { return None; }
  }
}
