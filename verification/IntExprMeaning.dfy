/**
 What a declared expression means, read three ways: as the C the generator emits, as the tree
 it publishes, and as the declared text itself under the C grammar.
 */
module IntExprMeaning {
  import opened Common
  import opened TextScan
  import opened CSyntax
  import opened CAst
  import opened IntExpr

  // ----- the emitted C, read back -----

  function EmittedTree(id: string, e: IntAst): Tree {
    match e
    case Lit(d) => Leaf(d)
    case FieldRef(f) => Member(Name("r"), f, true)
    case DerivedRef(d) => CastOf("uint64_t", CallTo(Helper(id, d), [Name("r")]))
    case Group(x) => EmittedTree(id, x)
    case MinMax(isMin, a, b) =>
      var x, y := EmittedTree(id, a), EmittedTree(id, b);
      Choose(BinaryOf(if isMin then Lt else Gt, x, y), x, y)
    case Bin(op, a, b) => BinaryOf(op, EmittedTree(id, a), EmittedTree(id, b))
  }

  lemma {:induction false} EmittedIsPrimary(id: string, e: IntAst)
    ensures IsPrimary(EmitC(id, e), EmittedTree(id, e))
  {
    match e
    case Lit(d) =>
      forall rest: Tokens ensures ParsePostfix([Atom(d)] + rest) == PostfixTail(Leaf(d), rest) {
        assert ([Atom(d)] + rest)[1..] == rest;
      }
    case FieldRef(f) => PrintedIsPrimary(CField(CId("r"), f, true));
    case DerivedRef(d) => HelperIsPrimary(Helper(id, d));
    case Group(x) =>
      EmittedIsPrimary(id, x);
      GroupIsPrimary(EmitC(id, x), EmittedTree(id, x));
    case MinMax(isMin, a, b) =>
      var x, y := EmittedTree(id, a), EmittedTree(id, b);
      var tx, ty := Wrap(EmitC(id, a)), Wrap(EmitC(id, b));
      EmittedIsPrimary(id, a);
      EmittedIsPrimary(id, b);
      GroupIsPrimary(EmitC(id, a), x);
      GroupIsPrimary(EmitC(id, b), y);
      ChooseIsPrimary(tx, x, if isMin then Lt else Gt, ty, y, tx, x, ty, y);
    case Bin(op, a, b) =>
      EmittedIsPrimary(id, a);
      EmittedIsPrimary(id, b);
      GroupIsPrimary(EmitC(id, a), EmittedTree(id, a));
      GroupIsPrimary(EmitC(id, b), EmittedTree(id, b));
      BinaryIsPrimary(Wrap(EmitC(id, a)), EmittedTree(id, a), op, Wrap(EmitC(id, b)), EmittedTree(id, b));
  }

  /** What the tree printer prints at the tightest level is a primary expression too. */
  lemma {:induction false} PrintedIsPrimary(e: CExpr)
    requires ExprLevel(e) == POSTFIX
    ensures IsPrimary(Print(e), Erase(e))
  {
    forall rest: Tokens ensures ParsePostfix(Print(e) + rest) == PostfixTail(Erase(e), rest) {
      PostfixRoundTrip(e, rest);
    }
    PrintStartsPrimary(e);
  }

  lemma {:induction false} PrintStartsPrimary(e: CExpr)
    requires ExprLevel(e) == POSTFIX
    ensures StartsPrimary(Print(e))
  {
    if e.CField? && ExprLevel(e.recv) == POSTFIX { PrintStartsPrimary(e.recv); }
  }

  lemma HelperIsPrimary(h: string)
    ensures IsPrimary(Wrap([CastTo("uint64_t"), Ident(h), LParen, Ident("r"), RParen]),
                      CastOf("uint64_t", CallTo(h, [Name("r")])))
  {
    var args := [CId("r")];
    var call := CCall(h, args);
    var cast := CCast("uint64_t", call);
    assert PrintArgs(args) == Print(args[0]) == [Ident("r")];
    assert Print(call) == [Ident(h), LParen, Ident("r"), RParen];
    assert Print(cast) == [CastTo("uint64_t")] + Print(call);
    assert Print(CParen(cast)) == Wrap([CastTo("uint64_t"), Ident(h), LParen, Ident("r"), RParen]);
    assert EraseAll(args) == [Erase(args[0])] + EraseAll(args[1..]) == [Name("r")];
    assert Erase(CParen(cast)) == Erase(cast) == CastOf("uint64_t", Erase(call));
    PrintedIsPrimary(CParen(cast));
  }

  /** A C compiler reads the emitted expression with the operators where the parse put them. */
  lemma {:induction false} EmittedReadsBack(id: string, e: IntAst)
    ensures Parse(EmitC(id, e)) == Some(EmittedTree(id, e))
  {
    assert EmitC(id, e) + [] == EmitC(id, e);
    EmittedIsPrimary(id, e);
    PrimaryIsExpr(EmitC(id, e), EmittedTree(id, e), []);
  }

  // ----- the declared text, read as C -----

  /** A punctuator that C would read as part of a longer one. */
  predicate Merges(ch: char, s: string) {
    s != [] &&
    (|| s[0] == '='
     || (ch == '+' && s[0] == '+')
     || (ch == '-' && (s[0] == '-' || s[0] == '>'))
     || (ch == '/' && (s[0] == '/' || s[0] == '*')))
  }

  /** C's tokens, as far as the grammar below needs them; longest match. */
  function FirstToken(t: string): (r: Option<Pair<Token, string>>)
    requires t != []
    ensures r.Some? ==> |r.value.snd| < |t|
  {
    if IsWord(t[0]) then
      var n := WordLength(t);
      if IsAlpha(t[0]) then Some(Pair(Ident(t[..n]), t[n..]))
      else if AllDigits(t[..n]) then Some(Pair(Atom(t[..n]), t[n..]))
      else None
    else if t[0] == '(' then Some(Pair(LParen, t[1..]))
    else if t[0] == ')' then Some(Pair(RParen, t[1..]))
    else if t[0] == ',' then Some(Pair(Comma, t[1..]))
    else if (t[0] == '<' || t[0] == '>') && CharAt(t, 1, t[0]) && !Merges(t[0], t[2..]) then
      Some(Pair(Punct(if t[0] == '<' then Shl else Shr), t[2..]))
    else if Merges(t[0], t[1..]) then None
    else if t[0] == '+' then Some(Pair(Punct(Plus), t[1..]))
    else if t[0] == '-' then Some(Pair(Punct(Minus), t[1..]))
    else if t[0] == '*' then Some(Pair(Punct(Star), t[1..]))
    else if t[0] == '/' then Some(Pair(Punct(Slash), t[1..]))
    else None
  }

  function Lex(s: string): Option<Tokens>
    decreases |s|
  {
    var t := SkipBlanks(s);
    if t == [] then Some([]) else
    match FirstToken(t)
    case None => None
    case Some(Pair(tok, rest)) =>
      match Lex(rest)
      case None => None
      case Some(ts) => Some([tok] + ts)
  }

  /** The declared expression as a tree: `min`, `max` and `derived` are calls. */
  function Declared(e: IntAst): CExpr {
    match e
    case Lit(d) => CLit(d)
    case FieldRef(f) => CId(f)
    case DerivedRef(d) => CCall("derived", [CId(d)])
    case Group(x) => CParen(Declared(x))
    case MinMax(isMin, a, b) => CCall(if isMin then "min" else "max", [Declared(a), Declared(b)])
    case Bin(op, a, b) => CBinop(op, Declared(a), Declared(b))
  }

  /** Derivations are named as properties can be. */
  ghost predicate WellNamed(c: Channel) {
    forall d | d in c.derived :: IsName(d.name)
  }

  lemma {:induction false} SkipTwice(s: string)
    ensures SkipBlanks(SkipBlanks(s)) == SkipBlanks(s) && Lex(SkipBlanks(s)) == Lex(s)
  {
    var t := SkipBlanks(s);
    assert SkipBlanks(t) == t;
  }

  /** One token and the rest. */
  lemma {:induction false} LexFirst(t: string, tok: Token, rest: string, rs: Tokens)
    requires t != [] && !IsBlank(t[0]) && FirstToken(t) == Some(Pair(tok, rest)) && Lex(rest) == Some(rs)
    ensures Lex(t) == Some([tok] + rs)
  {
    assert SkipBlanks(t) == t;
  }

  /** An operand starts where an operator before it cannot run into it. */
  predicate OperandStart(s: string) {
    s != [] && (IsBlank(s[0]) || s[0] == '(' || IsWord(s[0]))
  }

  lemma {:induction false} LevelStarts(c: Channel, self: string, k: nat, s: string)
    requires SHIFT <= k <= PRIMARY && ExLevel(c, self, k, s).Some?
    ensures OperandStart(s)
    decreases PRIMARY - k
  {
    if k < PRIMARY { LevelStarts(c, self, k + 1, s); }
  }

  /** The tree of a rule's result is at that rule's level. */
  lemma {:induction false} LevelOfResult(c: Channel, self: string, k: nat, s: string)
    requires SHIFT <= k <= PRIMARY && ExLevel(c, self, k, s).Some?
    ensures k <= ExprLevel(Declared(ExLevel(c, self, k, s).value.fst))
    decreases PRIMARY - k
  {
    if k < PRIMARY {
      LevelOfResult(c, self, k + 1, s);
      var r := ExLevel(c, self, k + 1, s).value;
      TailLevel(c, self, k, r.fst, r.snd);
    }
  }

  lemma {:induction false} TailLevel(c: Channel, self: string, k: nat, a: IntAst, s: string)
    requires SHIFT <= k < PRIMARY && ExTail(c, self, k, a, s).Some? && k <= ExprLevel(Declared(a))
    ensures k <= ExprLevel(Declared(ExTail(c, self, k, a, s).value.fst))
    decreases |s|
  {
    var t := SkipBlanks(s);
    if OpAt(k, t).Some? {
      var r := ExLevel(c, self, k + 1, t[OpLength(k)..]).value;
      TailLevel(c, self, k, Bin(OpAt(k, t).value, a, r.fst), r.snd);
    }
  }

  lemma {:induction false} PrintBin(op: BinOp, a: IntAst, b: IntAst)
    requires Level(op) <= ExprLevel(Declared(a)) && Level(op) < ExprLevel(Declared(b))
    ensures Print(Declared(Bin(op, a, b))) == Print(Declared(a)) + [Punct(op)] + Print(Declared(b))
  {
    PrintedBinop(op, Declared(a), Declared(b), []);
    var e := Declared(Bin(op, a, b));
    assert Print(e) + [] == Print(e);
    assert Print(Declared(a)) + ([Punct(op)] + (Print(Declared(b)) + [])) ==
           Print(Declared(a)) + [Punct(op)] + Print(Declared(b));
  }

  /** The lexer on an operator and what follows it. */
  lemma {:induction false} LexOp(k: nat, t: string, rs: Tokens)
    requires SHIFT <= k < PRIMARY && OpAt(k, t).Some?
    requires OperandStart(t[OpLength(k)..]) && Lex(t[OpLength(k)..]) == Some(rs)
    ensures Lex(t) == Some([Punct(OpAt(k, t).value)] + rs)
  {
    assert SkipBlanks(t) == t;
    if k == 8 {
      assert !Merges(t[0], t[2..]);
    } else {
      assert t[1..][0] == t[1];
    }
  }

  lemma {:induction false} LexChar(ch: char, s: string, rest: string, rs: Tokens)
    requires ch == ')' || ch == ','
    requires Eat(ch, s) == Some(rest) && Lex(rest) == Some(rs)
    ensures Lex(s) == Some([if ch == ')' then RParen else Comma] + rs) && Boundary(s)
  {
    SkipTwice(s);
    assert s[0] == ch || IsBlank(s[0]);
  }

  lemma {:induction false} LexWord(t: string, n: nat, rs: Tokens)
    requires t != [] && IsAlpha(t[0]) && n == WordLength(t) && Lex(t[n..]) == Some(rs)
    ensures Lex(t) == Some([Ident(t[..n])] + rs)
  {
    assert SkipBlanks(t) == t;
  }

  /** What the parser consumed at a level lexes to the printed tree. */
  lemma {:induction false} LexLevel(c: Channel, self: string, k: nat, s: string, rs: Tokens)
    requires WellNamed(c) && SHIFT <= k <= PRIMARY && ExLevel(c, self, k, s).Some?
    requires Boundary(ExLevel(c, self, k, s).value.snd) && Lex(ExLevel(c, self, k, s).value.snd) == Some(rs)
    ensures Lex(s) == Some(Print(Declared(ExLevel(c, self, k, s).value.fst)) + rs)
    decreases |s|, 3 + PRIMARY - k
  {
    if k == PRIMARY {
      LexPrim(c, self, s, rs);
    } else {
      var r := ExLevel(c, self, k + 1, s).value;
      LevelOfResult(c, self, k + 1, s);
      var mid := LexTail(c, self, k, r.fst, r.snd, rs);
      LexLevel(c, self, k + 1, s, mid + rs);
      Assoc(Print(Declared(r.fst)), mid, rs);
    }
  }

  lemma Assoc(a: Tokens, b: Tokens, c: Tokens)
    ensures a + (b + c) == (a + b) + c
  {
  }

  lemma Glue(pa: Tokens, tok: Token, pb: Tokens, more: Tokens, rs: Tokens)
    ensures [tok] + (pb + (more + rs)) == ([tok] + pb + more) + rs
    ensures pa + [tok] + pb + more == pa + ([tok] + pb + more)
  {
  }

  lemma {:induction false} LexTail(c: Channel, self: string, k: nat, a: IntAst, s: string, rs: Tokens)
    returns (mid: Tokens)
    requires WellNamed(c) && SHIFT <= k < PRIMARY && ExTail(c, self, k, a, s).Some? && k <= ExprLevel(Declared(a))
    requires Boundary(ExTail(c, self, k, a, s).value.snd) && Lex(ExTail(c, self, k, a, s).value.snd) == Some(rs)
    ensures Print(Declared(ExTail(c, self, k, a, s).value.fst)) == Print(Declared(a)) + mid
    ensures Lex(s) == Some(mid + rs) && Boundary(s)
    decreases |s|, 1
  {
    var t := SkipBlanks(s);
    SkipTwice(s);
    if OpAt(k, t).None? {
      mid := [];
      assert Print(Declared(a)) + [] == Print(Declared(a)) && [] + rs == rs;
    } else {
      mid := LexOperand(c, self, k, a, t, rs);
    }
  }

  lemma {:induction false} LexOperand(c: Channel, self: string, k: nat, a: IntAst, t: string, rs: Tokens)
    returns (mid: Tokens)
    requires WellNamed(c) && SHIFT <= k < PRIMARY && ExTail(c, self, k, a, t).Some? && k <= ExprLevel(Declared(a))
    requires Boundary(ExTail(c, self, k, a, t).value.snd) && Lex(ExTail(c, self, k, a, t).value.snd) == Some(rs)
    requires SkipBlanks(t) == t && OpAt(k, t).Some?
    ensures Print(Declared(ExTail(c, self, k, a, t).value.fst)) == Print(Declared(a)) + mid
    ensures Lex(t) == Some(mid + rs)
    decreases |t|, 0
  {
    var op, u := OpAt(k, t).value, t[OpLength(k)..];
    var r := ExLevel(c, self, k + 1, u).value;
    LevelStarts(c, self, k + 1, u);
    LevelOfResult(c, self, k + 1, u);
    PrintBin(op, a, r.fst);
    var more := LexTail(c, self, k, Bin(op, a, r.fst), r.snd, rs);
    LexLevel(c, self, k + 1, u, more + rs);
    LexOp(k, t, Print(Declared(r.fst)) + (more + rs));
    mid := [Punct(op)] + Print(Declared(r.fst)) + more;
    Glue(Print(Declared(a)), Punct(op), Print(Declared(r.fst)), more, rs);
  }

  lemma {:induction false} LexPrim(c: Channel, self: string, s: string, rs: Tokens)
    requires WellNamed(c) && ExPrim(c, self, s).Some?
    requires Boundary(ExPrim(c, self, s).value.snd) && Lex(ExPrim(c, self, s).value.snd) == Some(rs)
    ensures Lex(s) == Some(Print(Declared(ExPrim(c, self, s).value.fst)) + rs)
    decreases |s|, 2
  {
    var t := SkipBlanks(s);
    SkipTwice(s);
    if CharAt(t, 0, '(') {
      LexGroup(c, self, t[1..], rs);
      assert t == "(" + t[1..];
    } else if MinAt(t) || MaxAt(t) {
      LexMinMax(c, self, MinAt(t), t, rs);
    } else if DerivedAt(t) {
      LexDerived(c, self, t, rs);
    } else {
      LexLeaf(c, self, t, rs);
    }
  }

  /** A literal or a field. */
  lemma {:induction false} LexLeaf(c: Channel, self: string, t: string, rs: Tokens)
    requires t != [] && (IsDigit(t[0]) || IsAlpha(t[0])) && SkipBlanks(t) == t
    requires var n := if IsDigit(t[0]) then DigitLength(t) else WordLength(t);
             Boundary(t[n..]) && Lex(t[n..]) == Some(rs)
    ensures IsDigit(t[0]) ==> Lex(t) == Some(Print(CLit(t[..DigitLength(t)])) + rs)
    ensures IsAlpha(t[0]) ==> Lex(t) == Some(Print(CId(t[..WordLength(t)])) + rs)
  {
    if IsDigit(t[0]) {
      var n := DigitLength(t);
      assert t == t[..n] + t[n..];
      WordBefore(t[..n], t[n..]);
    } else {
      LexWord(t, WordLength(t), rs);
    }
  }

  lemma {:induction false} LexGroup(c: Channel, self: string, s: string, rs: Tokens)
    requires WellNamed(c) && ExGroup(c, self, s).Some? && Lex(ExGroup(c, self, s).value.snd) == Some(rs)
    ensures Lex("(" + s) == Some(Print(Declared(ExGroup(c, self, s).value.fst)) + rs)
    decreases |s|, 20
  {
    var r := ExLevel(c, self, SHIFT, s).value;
    LexChar(')', r.snd, ExGroup(c, self, s).value.snd, rs);
    LexLevel(c, self, SHIFT, s, [RParen] + rs);
    var t := "(" + s;
    assert SkipBlanks(t) == t && t[1..] == s;
    assert [LParen] + (Print(Declared(r.fst)) + ([RParen] + rs)) == Print(CParen(Declared(r.fst))) + rs;
  }

  /** Two arguments and the closing parenthesis. */
  lemma {:induction false} LexArgs(c: Channel, self: string, isMin: bool, s: string, rs: Tokens)
    requires WellNamed(c)
    requires ExMinMax(c, self, isMin, s).Some? && Lex(ExMinMax(c, self, isMin, s).value.snd) == Some(rs)
    ensures var e := ExMinMax(c, self, isMin, s).value.fst;
            e.MinMax? && e.isMin == isMin &&
            Lex(s) == Some(Print(Declared(e.a)) + ([Comma] + (Print(Declared(e.b)) + ([RParen] + rs))))
    decreases |s|, 20
  {
    var x := ExLevel(c, self, SHIFT, s).value;
    var s1 := Eat(',', x.snd).value;
    var y := ExLevel(c, self, SHIFT, s1).value;
    LexChar(')', y.snd, ExMinMax(c, self, isMin, s).value.snd, rs);
    LexLevel(c, self, SHIFT, s1, [RParen] + rs);
    LexChar(',', x.snd, s1, Print(Declared(y.fst)) + ([RParen] + rs));
    LexLevel(c, self, SHIFT, s, [Comma] + (Print(Declared(y.fst)) + ([RParen] + rs)));
  }

  lemma {:induction false} LexMinMax(c: Channel, self: string, isMin: bool, t: string, rs: Tokens)
    requires WellNamed(c) && (if isMin then MinAt(t) else MaxAt(t))
    requires ExMinMax(c, self, isMin, t[4..]).Some? && Lex(ExMinMax(c, self, isMin, t[4..]).value.snd) == Some(rs)
    ensures Lex(t) == Some(Print(Declared(ExMinMax(c, self, isMin, t[4..]).value.fst)) + rs)
    decreases |t|, 0
  {
    var e := ExMinMax(c, self, isMin, t[4..]).value.fst;
    LexArgs(c, self, isMin, t[4..], rs);
    LexPair(isMin, t, Declared(e.a), Declared(e.b), rs);
  }

  /** The call a min or a max lexes to, once its arguments are known. */
  lemma LexPair(isMin: bool, t: string, a: CExpr, b: CExpr, rs: Tokens)
    requires (if isMin then MinAt(t) else MaxAt(t)) &&
             Lex(t[4..]) == Some(Print(a) + ([Comma] + (Print(b) + ([RParen] + rs))))
    ensures Lex(t) == Some(Print(CCall(if isMin then "min" else "max", [a, b])) + rs)
  {
    WordEnds(t, 3);
    LexCall(t, 3, Print(a) + ([Comma] + (Print(b) + ([RParen] + rs))));
    PrintPair(t[..3], a, b, rs);
    assert t[..3] == if isMin then "min" else "max";
  }

  lemma {:induction false} PrintPair(callee: string, a: CExpr, b: CExpr, rs: Tokens)
    ensures [Ident(callee), LParen] + (Print(a) + ([Comma] + (Print(b) + ([RParen] + rs)))) ==
            Print(CCall(callee, [a, b])) + rs
  {
    var args := [a, b];
    assert args[1..] == [b];
    assert PrintArgs([b]) == Print(b);
    assert PrintArgs(args) == Print(a) + [Comma] + Print(b);
  }

  lemma {:induction false} LexOpen(u: string, rs: Tokens)
    requires CharAt(u, 0, '(') && Lex(u[1..]) == Some(rs)
    ensures Lex(u) == Some([LParen] + rs)
  {
    LexFirst(u, LParen, u[1..], rs);
  }

  /** A word and the parenthesis right after it. */
  lemma {:induction false} LexCall(t: string, n: nat, rs: Tokens)
    requires n == WordLength(t) < |t| && IsAlpha(t[0]) && t[n] == '('
    requires Lex(t[n + 1..]) == Some(rs)
    ensures Lex(t) == Some([Ident(t[..n]), LParen] + rs)
  {
    var u := t[n..];
    assert u[0] == '(' && u[1..] == t[n + 1..];
    LexOpen(u, rs);
    LexWord(t, n, [LParen] + rs);
    TwoTokens(Ident(t[..n]), LParen, rs);
  }

  lemma TwoTokens(a: Token, b: Token, rs: Tokens)
    ensures [a] + ([b] + rs) == [a, b] + rs
  {
  }

  lemma {:induction false} WordEnds(t: string, n: nat)
    requires n < |t| && (forall i :: 0 <= i < n ==> IsWord(t[i])) && !IsWord(t[n])
    ensures WordLength(t) == n
  {
    assert t == t[..n] + t[n..];
    WordBefore(t[..n], t[n..]);
  }

  lemma {:induction false} LexDerived(c: Channel, self: string, t: string, rs: Tokens)
    requires WellNamed(c) && DerivedAt(t)
    requires ExDerived(c, self, t[8..]).Some? && Lex(ExDerived(c, self, t[8..]).value.snd) == Some(rs)
    ensures Lex(t) == Some(Print(Declared(ExDerived(c, self, t[8..]).value.fst)) + rs)
  {
    var name := LexName(c, self, t[8..], rs);
    WordEnds(t, 7);
    LexCall(t, 7, [Ident(name)] + ([RParen] + rs));
    assert t[..7] == "derived";
    PrintedDerived(name, rs);
  }

  lemma PrintedDerived(name: string, rs: Tokens)
    ensures [Ident("derived"), LParen] + ([Ident(name)] + ([RParen] + rs)) == Print(Declared(DerivedRef(name))) + rs
  {
    var args := [CId(name)];
    assert PrintArgs(args) == Print(args[0]) == [Ident(name)];
  }

  lemma LexName(c: Channel, self: string, s: string, rs: Tokens) returns (name: string)
    requires WellNamed(c) && ExDerived(c, self, s).Some? && Lex(ExDerived(c, self, s).value.snd) == Some(rs)
    ensures ExDerived(c, self, s).value.fst == DerivedRef(name)
    ensures Lex(s) == Some([Ident(name)] + ([RParen] + rs))
  {
    var u := SkipBlanks(s);
    var n := WordLength(u);
    name := u[..n];
    var k := FindDerived(c.derived, name).value;
    assert c.derived[k] in c.derived && IsName(name) && name[0] == u[0];
    LexChar(')', u[n..], ExDerived(c, self, s).value.snd, rs);
    LexWord(u, n, [RParen] + rs);
    SkipTwice(s);
  }

  /** Text the generator accepts is, read as C, the expression the generator took it for. */
  lemma {:induction false} DeclaredReadsAsC(c: Channel, self: string, text: string)
    requires WellNamed(c) && ParseInt(c, self, text).Some?
    ensures Lex(text).Some? && Parse(Lex(text).value) == Some(Erase(Declared(ParseInt(c, self, text).value)))
  {
    var r := ExLevel(c, self, SHIFT, text).value;
    SkipTwice(r.snd);
    assert Boundary(r.snd) by { if r.snd != [] { assert IsBlank(r.snd[0]); } }
    LexLevel(c, self, SHIFT, text, []);
    assert Print(Declared(r.fst)) + [] == Print(Declared(r.fst));
    RoundTrip(Declared(r.fst));
  }
}
