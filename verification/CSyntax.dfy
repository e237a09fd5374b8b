/**
 The expression grammar of ISO C11, sections 6.5.1 to 6.5.15, on tokens.

 A recursive-descent parser from token sequences to abstract trees. It knows nothing
 about how any program in this project prints C: it is the reading a C compiler gives
 to what they print. Comma and assignment expressions, `sizeof` and the increment
 operators are not part of it. A call's callee is a name.
 */
module CSyntax {
  import opened Common

  datatype Op =
    | OrOr | AndAnd | BitOr | BitXor | BitAnd | EqEq | NotEq
    | Lt | Le | Gt | Ge | Shl | Shr | Plus | Minus | Star | Slash | Percent
    | Bang | Tilde

  /** `CastTo` is a whole parenthesised type name: telling it from a parenthesised
      expression needs the type names in scope, which is the lexer's business here. */
  datatype Token =
    | Atom(text: string)
    | Ident(name: string)
    | Punct(op: Op)
    | CastTo(ctype: string)
    | LParen | RParen | LBracket | RBracket | Comma | Dot | Arrow | Question | Colon

  predicate IsBinary(op: Op) { !op.Bang? && !op.Tilde? }

  predicate IsUnary(op: Op) {
    op.BitAnd? || op.Star? || op.Plus? || op.Minus? || op.Bang? || op.Tilde?
  }

  type BinOp = op: Op | IsBinary(op) witness Plus
  type UnOp = op: Op | IsUnary(op) witness Minus

  datatype Tree =
    | Leaf(text: string)
    | Name(name: string)
    | CallTo(callee: string, args: seq<Tree>)
    | CastOf(ctype: string, arg: Tree)
    | UnaryOf(uop: UnOp, arg: Tree)
    | BinaryOf(bop: BinOp, left: Tree, right: Tree)
    | Member(recv: Tree, field: string, arrow: bool)
    | Index(base: Tree, index: Tree)
    | Choose(cond: Tree, yes: Tree, no: Tree)

  // The grammar's levels, loosest first: conditional-expression is 0,
  // logical-OR-expression 1, and so on down to cast-expression and postfix-expression.
  const MULTIPLICATIVE: nat := 10
  const UNARY: nat := 11
  const POSTFIX: nat := 12

  /** The section of 6.5 in which a binary operator is introduced, as a level. */
  function Level(op: BinOp): (k: nat)
    ensures 1 <= k <= MULTIPLICATIVE
  {
    match op
    case OrOr => 1
    case AndAnd => 2
    case BitOr => 3
    case BitXor => 4
    case BitAnd => 5
    case EqEq | NotEq => 6
    case Lt | Le | Gt | Ge => 7
    case Shl | Shr => 8
    case Plus | Minus => 9
    case Star | Slash | Percent => 10
  }

  /** The tightest level whose rule derives this tree without outer parentheses. */
  function TreeLevel(t: Tree): nat {
    match t
    case Choose(_, _, _) => 0
    case BinaryOf(op, _, _) => Level(op)
    case CastOf(_, _) | UnaryOf(_, _) => UNARY
    case _ => POSTFIX
  }

  type Tokens = seq<Token>
  type Parsed = Option<Pair<Tree, Tokens>>
  type ParsedArgs = Option<Pair<seq<Tree>, Tokens>>

  /** The next token is an operator that the rule at level `k` consumes. */
  predicate Continues(k: nat, ts: Tokens) {
    ts != [] && ts[0].Punct? && IsBinary(ts[0].op) && Level(ts[0].op) == k
  }

  // ----- the parser: each function returns the tree and the unread tokens -----

  /** conditional-expression (6.5.15) */
  function ParseExpr(ts: Tokens): (r: Parsed)
    ensures r.Some? ==> |r.value.snd| < |ts|
    decreases |ts|, 20
  {
    match ParseLevel(1, ts)
    case None => None
    case Some(Pair(c, rest)) =>
      if rest == [] || rest[0] != Question then Some(Pair(c, rest)) else
      match ParseExpr(rest[1..])
      case None => None
      case Some(Pair(y, rest1)) =>
        if rest1 == [] || rest1[0] != Colon then None else
        match ParseExpr(rest1[1..])
        case None => None
        case Some(Pair(n, rest2)) => Some(Pair(Choose(c, y, n), rest2))
  }

  /** The left-associative binary rules (6.5.5 to 6.5.14), one per level. */
  function ParseLevel(k: nat, ts: Tokens): (r: Parsed)
    requires 1 <= k <= UNARY
    ensures r.Some? ==> |r.value.snd| < |ts|
    decreases |ts|, 2 + UNARY - k
  {
    if k == UNARY then ParseUnary(ts) else
    match ParseLevel(k + 1, ts)
    case None => None
    case Some(Pair(t, rest)) => ParseTail(k, t, rest)
  }

  function ParseTail(k: nat, acc: Tree, ts: Tokens): (r: Parsed)
    requires 1 <= k <= MULTIPLICATIVE
    ensures r.Some? ==> |r.value.snd| <= |ts|
    decreases |ts|, 0
  {
    if !Continues(k, ts) then Some(Pair(acc, ts)) else
    match ParseLevel(k + 1, ts[1..])
    case None => None
    case Some(Pair(t, rest)) => ParseTail(k, BinaryOf(ts[0].op, acc, t), rest)
  }

  /** cast-expression and unary-expression (6.5.4, 6.5.3) */
  function ParseUnary(ts: Tokens): (r: Parsed)
    ensures r.Some? ==> |r.value.snd| < |ts|
    decreases |ts|, 1
  {
    if ts == [] then None
    else if ts[0].CastTo? then
      match ParseUnary(ts[1..])
      case None => None
      case Some(Pair(t, rest)) => Some(Pair(CastOf(ts[0].ctype, t), rest))
    else if ts[0].Punct? then
      if !IsUnary(ts[0].op) then None else
      match ParseUnary(ts[1..])
      case None => None
      case Some(Pair(t, rest)) => Some(Pair(UnaryOf(ts[0].op, t), rest))
    else ParsePostfix(ts)
  }

  /** postfix-expression (6.5.2) over primary-expression (6.5.1) */
  function ParsePostfix(ts: Tokens): (r: Parsed)
    ensures r.Some? ==> |r.value.snd| < |ts|
    decreases |ts|, 0
  {
    if ts == [] then None
    else match ts[0]
    case Atom(s) => PostfixTail(Leaf(s), ts[1..])
    case Ident(s) => PostfixTail(Name(s), ts[1..])
    case LParen =>
      (match ParseExpr(ts[1..])
       case None => None
       case Some(Pair(t, rest)) =>
         if rest == [] || rest[0] != RParen then None else PostfixTail(t, rest[1..]))
    case _ => None
  }

  function PostfixTail(acc: Tree, ts: Tokens): (r: Parsed)
    ensures r.Some? ==> |r.value.snd| <= |ts|
    decreases |ts|, 0
  {
    if 2 <= |ts| && (ts[0].Dot? || ts[0].Arrow?) && ts[1].Ident? then
      PostfixTail(Member(acc, ts[1].name, ts[0].Arrow?), ts[2..])
    else if 1 <= |ts| && ts[0].LParen? && acc.Name? then
      match ParseArgs(ts[1..])
      case None => None
      case Some(Pair(args, rest)) => PostfixTail(CallTo(acc.name, args), rest)
    else if 1 <= |ts| && ts[0].LBracket? then
      match ParseExpr(ts[1..])
      case None => None
      case Some(Pair(i, rest)) =>
        if rest == [] || rest[0] != RBracket then None else PostfixTail(Index(acc, i), rest[1..])
    else Some(Pair(acc, ts))
  }

  /** The arguments of a call, after its opening parenthesis and through the closing one. */
  function ParseArgs(ts: Tokens): (r: ParsedArgs)
    ensures r.Some? ==> |r.value.snd| < |ts|
    decreases |ts|, 30
  {
    if ts != [] && ts[0].RParen? then Some(Pair([], ts[1..])) else ParseArgList(ts)
  }

  function ParseArgList(ts: Tokens): (r: ParsedArgs)
    ensures r.Some? ==> |r.value.snd| < |ts|
    decreases |ts|, 25
  {
    match ParseExpr(ts)
    case None => None
    case Some(Pair(t, rest)) =>
      if rest == [] then None
      else if rest[0].RParen? then Some(Pair([t], rest[1..]))
      else if rest[0].Comma? then
        match ParseArgList(rest[1..])
        case None => None
        case Some(Pair(more, rest1)) => Some(Pair([t] + more, rest1))
      else None
  }

  /** The reading of a whole token sequence as one expression. */
  function Parse(ts: Tokens): (r: Option<Tree>) {
    match ParseExpr(ts)
    case None => None
    case Some(Pair(t, rest)) => if rest == [] then Some(t) else None
  }

  // ----- where a sub-parse stops -----

  /** No rule at level `k` or tighter can go on reading here. */
  predicate Stops(k: nat, ts: Tokens) {
    ts == [] ||
    (!ts[0].Dot? && !ts[0].Arrow? && !ts[0].LParen? && !ts[0].LBracket? &&
     (ts[0].Punct? && IsBinary(ts[0].op) ==> Level(ts[0].op) < k))
  }

  predicate StartsPrimary(ts: Tokens) {
    ts != [] && (ts[0].Atom? || ts[0].Ident? || ts[0].LParen?)
  }

  /** A primary or postfix expression is an expression of every looser level, where nothing
      tighter can go on reading after it. */
  lemma {:induction false} PostfixAtLevel(ts: Tokens, t: Tree, rest: Tokens, k: nat)
    requires 1 <= k <= UNARY && StartsPrimary(ts) && Stops(k + 1, rest)
    requires ParsePostfix(ts) == PostfixTail(t, rest)
    ensures if k == UNARY then ParseUnary(ts) == Some(Pair(t, rest)) else ParseLevel(k, ts) == ParseTail(k, t, rest)
    decreases UNARY - k
  {
    if k < UNARY { PostfixAtLevel(ts, t, rest, k + 1); }
  }

  lemma {:induction false} TailStep(op: BinOp, acc: Tree, right: Tokens, t: Tree, rest: Tokens)
    requires ParseLevel(Level(op) + 1, right) == Some(Pair(t, rest))
    ensures ParseTail(Level(op), acc, [Punct(op)] + right) == ParseTail(Level(op), BinaryOf(op, acc, t), rest)
  {
    var ts := [Punct(op)] + right;
    assert ts[1..] == right;
  }

  /** Where no rule at level `k` can go on, the rule at level `k` returns what it has. */
  lemma {:induction false} StopsHere(k: nat, acc: Tree, rest: Tokens)
    requires Stops(k, rest)
    ensures 1 <= k <= MULTIPLICATIVE ==> ParseTail(k, acc, rest) == Some(Pair(acc, rest))
    ensures PostfixTail(acc, rest) == Some(Pair(acc, rest))
  {
  }

  /** What a tight rule read stays what the looser rules read, if none of them can go on. */
  lemma {:induction false} Loosen(ts: Tokens, t: Tree, rest: Tokens, k: nat, j: nat)
    requires 1 <= j <= k <= UNARY && Stops(1, rest) && ParseLevel(k, ts) == Some(Pair(t, rest))
    ensures ParseLevel(j, ts) == Some(Pair(t, rest))
    decreases k - j
  {
    if j < k { Loosen(ts, t, rest, k, j + 1); }
  }

  lemma {:induction false} PrimaryIsExpr(ts: Tokens, t: Tree, rest: Tokens)
    requires StartsPrimary(ts) && ParsePostfix(ts) == PostfixTail(t, rest)
    requires Stops(1, rest) && (rest == [] || !rest[0].Question?)
    ensures ParseExpr(ts) == Some(Pair(t, rest))
  {
    PostfixAtLevel(ts, t, rest, 1);
  }

  lemma {:induction false} WrapReads(inner: Tokens, t: Tree, rest: Tokens)
    requires ParseExpr(inner + ([RParen] + rest)) == Some(Pair(t, [RParen] + rest))
    ensures ParsePostfix([LParen] + inner + [RParen] + rest) == PostfixTail(t, rest)
  {
    var ts := [LParen] + inner + [RParen] + rest;
    assert ts[1..] == inner + ([RParen] + rest);
    assert ([RParen] + rest)[1..] == rest;
  }

  /** Two primary expressions and an operator between them. */
  lemma {:induction false} BinaryReads(ts: Tokens, x: Tree, op: BinOp, right: Tokens, y: Tree, rest: Tokens)
    requires StartsPrimary(ts) && ParsePostfix(ts) == PostfixTail(x, [Punct(op)] + right)
    requires StartsPrimary(right) && ParsePostfix(right) == PostfixTail(y, rest)
    requires Stops(1, rest)
    ensures ParseLevel(1, ts) == Some(Pair(BinaryOf(op, x, y), rest))
  {
    var k := Level(op);
    PostfixAtLevel(ts, x, [Punct(op)] + right, k);
    PostfixAtLevel(right, y, rest, k + 1);
    StopsHere(k + 1, y, rest);
    TailStep(op, x, right, y, rest);
    StopsHere(k, BinaryOf(op, x, y), rest);
    Loosen(ts, BinaryOf(op, x, y), rest, k, 1);
  }

  // ----- token sequences that are one primary expression -----

  ghost predicate IsPrimary(ts: Tokens, t: Tree) {
    StartsPrimary(ts) && forall rest: Tokens :: ParsePostfix(ts + rest) == PostfixTail(t, rest)
  }

  lemma GroupIsPrimary(ts: Tokens, t: Tree)
    requires IsPrimary(ts, t)
    ensures IsPrimary([LParen] + ts + [RParen], t)
  {
    forall rest: Tokens ensures ParsePostfix([LParen] + ts + [RParen] + rest) == PostfixTail(t, rest) {
      PrimaryIsExpr(ts + ([RParen] + rest), t, [RParen] + rest);
      WrapReads(ts, t, rest);
    }
  }

  lemma {:induction false} AtFront(ts: Tokens, t: Tree, rest: Tokens)
    requires IsPrimary(ts, t)
    ensures StartsPrimary(ts + rest) && ParsePostfix(ts + rest) == PostfixTail(t, rest)
  {
  }

  /** x op y, at level 1, before anything no binary rule goes on with. */
  lemma {:induction false} BinaryBefore(tx: Tokens, x: Tree, op: BinOp, ty: Tokens, y: Tree, rest: Tokens)
    requires IsPrimary(tx, x) && IsPrimary(ty, y) && Stops(1, rest)
    ensures ParseLevel(1, tx + [Punct(op)] + ty + rest) == Some(Pair(BinaryOf(op, x, y), rest))
  {
    var right := ty + rest;
    assert tx + [Punct(op)] + ty + rest == tx + ([Punct(op)] + right);
    AtFront(tx, x, [Punct(op)] + right);
    AtFront(ty, y, rest);
    BinaryReads(tx + ([Punct(op)] + right), x, op, right, y, rest);
  }

  lemma BinaryIsPrimary(tx: Tokens, x: Tree, op: BinOp, ty: Tokens, y: Tree)
    requires IsPrimary(tx, x) && IsPrimary(ty, y)
    ensures IsPrimary([LParen] + (tx + [Punct(op)] + ty) + [RParen], BinaryOf(op, x, y))
  {
    var inner := tx + [Punct(op)] + ty;
    forall rest: Tokens
      ensures ParsePostfix([LParen] + inner + [RParen] + rest) == PostfixTail(BinaryOf(op, x, y), rest)
    {
      BinaryBefore(tx, x, op, ty, y, [RParen] + rest);
      WrapReads(inner, BinaryOf(op, x, y), rest);
    }
  }

  lemma {:induction false} ChooseReads(ts: Tokens, c: Tree, yes: Tokens, y: Tree, no: Tokens, n: Tree, rest: Tokens)
    requires ParseLevel(1, ts) == Some(Pair(c, [Question] + yes))
    requires ParseExpr(yes) == Some(Pair(y, [Colon] + no)) && ParseExpr(no) == Some(Pair(n, rest))
    ensures ParseExpr(ts) == Some(Pair(Choose(c, y, n), rest))
  {
    assert ([Question] + yes)[1..] == yes && ([Colon] + no)[1..] == no;
  }

  /** x op y ? a : b */
  lemma {:induction false} ChooseBefore(tx: Tokens, x: Tree, op: BinOp, ty: Tokens, y: Tree,
                                        ta: Tokens, a: Tree, tb: Tokens, b: Tree, rest: Tokens)
    requires IsPrimary(tx, x) && IsPrimary(ty, y) && IsPrimary(ta, a) && IsPrimary(tb, b)
    requires Stops(1, rest) && (rest == [] || !rest[0].Question?)
    ensures ParseExpr(tx + [Punct(op)] + ty + ([Question] + (ta + ([Colon] + (tb + rest))))) ==
            Some(Pair(Choose(BinaryOf(op, x, y), a, b), rest))
  {
    var no := tb + rest;
    var yes := ta + ([Colon] + no);
    BinaryBefore(tx, x, op, ty, y, [Question] + yes);
    PrimaryIsExpr(yes, a, [Colon] + no);
    PrimaryIsExpr(no, b, rest);
    ChooseReads(tx + [Punct(op)] + ty + ([Question] + yes), BinaryOf(op, x, y), yes, a, no, b, rest);
  }

  lemma ChooseIsPrimary(tx: Tokens, x: Tree, op: BinOp, ty: Tokens, y: Tree, ta: Tokens, a: Tree, tb: Tokens, b: Tree)
    requires IsPrimary(tx, x) && IsPrimary(ty, y) && IsPrimary(ta, a) && IsPrimary(tb, b)
    ensures IsPrimary([LParen] + (tx + [Punct(op)] + ty + [Question] + ta + [Colon] + tb) + [RParen],
                      Choose(BinaryOf(op, x, y), a, b))
  {
    var inner := tx + [Punct(op)] + ty + [Question] + ta + [Colon] + tb;
    var t := Choose(BinaryOf(op, x, y), a, b);
    forall rest: Tokens ensures ParsePostfix([LParen] + inner + [RParen] + rest) == PostfixTail(t, rest) {
      var after := [RParen] + rest;
      ChooseBefore(tx, x, op, ty, y, ta, a, tb, b, after);
      assert inner + after == tx + [Punct(op)] + ty + ([Question] + (ta + ([Colon] + (tb + after))));
      WrapReads(inner, t, rest);
    }
  }
}
