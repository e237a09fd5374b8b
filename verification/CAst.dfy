/**
 The C expression trees of the code generator and their one printer, as tokens.

 The printer adds parentheses from a numeric precedence table. What is proved here is
 that a C compiler reads the printed tokens back as the tree that was printed, and that
 no shorter token sequence would have been read as that tree.
 */
module CAst {
  import opened Common
  import opened CSyntax

  datatype CExpr =
    | CLit(text: string)
    | CId(name: string)
    | CRaw(text: string)
    | CCall(callee: string, args: seq<CExpr>)
    | CCast(ctype: string, operand: CExpr)
    | CUnary(uop: UnOp, operand: CExpr)
    | CBinop(bop: BinOp, lhs: CExpr, rhs: CExpr)
    | CField(recv: CExpr, field: string, arrow: bool)
    | CParen(inner: CExpr)

  const CAST_PREC := 80
  const UNARY_PREC := 80
  const POSTFIX_PREC := 90
  const PRIMARY_PREC := 100

  function BinopPrec(op: BinOp): nat {
    match op
    case OrOr => 20
    case AndAnd => 25
    case BitOr => 30
    case BitXor => 35
    case BitAnd => 40
    case EqEq | NotEq => 45
    case Lt | Le | Gt | Ge => 50
    case Shl | Shr => 55
    case Plus | Minus => 60
    case Star | Slash | Percent => 70
  }

  function Prec(e: CExpr): nat {
    match e
    case CCall(_, _) | CField(_, _, _) => POSTFIX_PREC
    case CCast(_, _) => CAST_PREC
    case CUnary(_, _) => UNARY_PREC
    case CBinop(op, _, _) => BinopPrec(op)
    case _ => PRIMARY_PREC
  }

  function Print(e: CExpr): Tokens
    decreases e, 1
  {
    match e
    case CLit(s) => [Atom(s)]
    case CId(s) => [Ident(s)]
    case CRaw(s) => [Atom(s)]
    case CParen(inner) => [LParen] + Print(inner) + [RParen]
    case CCall(callee, args) => [Ident(callee), LParen] + PrintArgs(args) + [RParen]
    case CField(recv, field, arrow) =>
      ParenIf(recv, Prec(recv) < POSTFIX_PREC) + [if arrow then Arrow else Dot, Ident(field)]
    case CCast(ctype, x) => [CastTo(ctype)] + ParenIf(x, Prec(x) < CAST_PREC)
    case CUnary(op, x) => [Punct(op)] + ParenIf(x, Prec(x) < UNARY_PREC)
    case CBinop(op, l, r) =>
      ParenIf(l, Prec(l) < BinopPrec(op)) + [Punct(op)] + ParenIf(r, Prec(r) <= BinopPrec(op))
  }

  function ParenIf(child: CExpr, wrap: bool): Tokens
    decreases child, 2
  {
    if wrap then [LParen] + Print(child) + [RParen] else Print(child)
  }

  function PrintArgs(args: seq<CExpr>): Tokens
    decreases args, 0
  {
    if args == [] then []
    else if |args| == 1 then Print(args[0])
    else Print(args[0]) + [Comma] + PrintArgs(args[1..])
  }

  /** The tree an expression denotes: its own shape, with explicit grouping erased. */
  function Erase(e: CExpr): Tree
    decreases e, 1
  {
    match e
    case CLit(s) => Leaf(s)
    case CId(s) => Name(s)
    case CRaw(s) => Leaf(s)
    case CParen(inner) => Erase(inner)
    case CCall(callee, args) => CallTo(callee, EraseAll(args))
    case CField(recv, field, arrow) => Member(Erase(recv), field, arrow)
    case CCast(ctype, x) => CastOf(ctype, Erase(x))
    case CUnary(op, x) => UnaryOf(op, Erase(x))
    case CBinop(op, l, r) => BinaryOf(op, Erase(l), Erase(r))
  }

  function EraseAll(args: seq<CExpr>): (ts: seq<Tree>)
    ensures |ts| == |args|
    decreases args, 0
  {
    if args == [] then [] else [Erase(args[0])] + EraseAll(args[1..])
  }

  // ----- the table orders operators exactly as the grammar does -----

  /** The level at which an expression may be printed bare. */
  function ExprLevel(e: CExpr): nat {
    match e
    case CBinop(op, _, _) => Level(op)
    case CCast(_, _) | CUnary(_, _) => UNARY
    case _ => POSTFIX
  }

  lemma TableMatchesGrammar(a: CExpr, b: CExpr)
    ensures Prec(a) < Prec(b) ==> ExprLevel(a) <= ExprLevel(b)
    ensures ExprLevel(a) < ExprLevel(b) ==> Prec(a) < Prec(b)
    ensures a.CBinop? || b.CBinop? ==> (Prec(a) < Prec(b) <==> ExprLevel(a) < ExprLevel(b))
  {
  }

  // ----- round trip -----

  lemma {:induction false} PostfixRoundTrip(e: CExpr, rest: Tokens)
    requires ExprLevel(e) == POSTFIX
    ensures ParsePostfix(Print(e) + rest) == PostfixTail(Erase(e), rest)
    decreases e, 1
  {
    if e.CParen? {
      GroupRoundTrip(e.inner, rest);
    } else if e.CCall? {
      CallRoundTrip(e.callee, e.args, rest);
    } else if e.CField? {
      FieldRoundTrip(e.recv, e.field, e.arrow, rest);
    } else {
      var ts := Print(e) + rest;
      assert ts[1..] == rest;
    }
  }

  lemma {:induction false} CallRoundTrip(callee: string, args: seq<CExpr>, rest: Tokens)
    ensures ParsePostfix([Ident(callee), LParen] + PrintArgs(args) + [RParen] + rest)
         == PostfixTail(CallTo(callee, EraseAll(args)), rest)
    decreases args, 5
  {
    var ts := [Ident(callee), LParen] + PrintArgs(args) + [RParen] + rest;
    var after := PrintArgs(args) + [RParen] + rest;
    var called := ts[1..];
    assert called[1..] == after;
    ArgsRoundTrip(args, rest);
    assert ParsePostfix(ts) == PostfixTail(Name(callee), called);
  }

  lemma {:induction false} FieldRoundTrip(recv: CExpr, field: string, arrow: bool, rest: Tokens)
    ensures ParsePostfix(Print(CField(recv, field, arrow)) + rest)
         == PostfixTail(Member(Erase(recv), field, arrow), rest)
    decreases recv, 40
  {
    var tail := [if arrow then Arrow else Dot, Ident(field)] + rest;
    OperandRoundTrip(recv, POSTFIX, tail);
    assert Print(CField(recv, field, arrow)) + rest == ParenIf(recv, ExprLevel(recv) < POSTFIX) + tail;
    assert tail[2..] == rest;
  }

  /** A parenthesised expression is one primary expression. */
  lemma {:induction false} GroupRoundTrip(e: CExpr, rest: Tokens)
    ensures ParsePostfix([LParen] + Print(e) + [RParen] + rest) == PostfixTail(Erase(e), rest)
    decreases e, 20
  {
    var ts := [LParen] + Print(e) + [RParen] + rest;
    var after := [RParen] + rest;
    assert ts[1..] == Print(e) + after;
    ExprRoundTrip(e, after);
    assert after[1..] == rest;
  }

  /** An operand printed for a rule at level `k` is read back by that rule. */
  lemma {:induction false} OperandRoundTrip(e: CExpr, k: nat, rest: Tokens)
    requires 1 <= k <= POSTFIX
    requires k < POSTFIX ==> Stops(k + 1, rest)
    ensures var ts := ParenIf(e, ExprLevel(e) < k) + rest;
            if k == POSTFIX then ParsePostfix(ts) == PostfixTail(Erase(e), rest)
            else if k == UNARY then ParseUnary(ts) == Some(Pair(Erase(e), rest))
            else ParseLevel(k, ts) == ParseTail(k, Erase(e), rest)
    decreases e, 30, UNARY + 1 - k
  {
    if ExprLevel(e) >= k {
      if k == POSTFIX { PostfixRoundTrip(e, rest); } else { LevelRoundTrip(e, k, rest); }
    } else {
      GroupRoundTrip(e, rest);
      if k < POSTFIX { PostfixAtLevel([LParen] + Print(e) + [RParen] + rest, Erase(e), rest, k); }
    }
  }

  lemma {:induction false} LevelRoundTrip(e: CExpr, k: nat, rest: Tokens)
    requires 1 <= k <= UNARY && k <= ExprLevel(e) && Stops(k + 1, rest)
    ensures if k == UNARY then ParseUnary(Print(e) + rest) == Some(Pair(Erase(e), rest))
            else ParseLevel(k, Print(e) + rest) == ParseTail(k, Erase(e), rest)
    decreases e, 10, UNARY - k
  {
    if k < UNARY && k < ExprLevel(e) {
      LevelRoundTrip(e, k + 1, rest);
    } else if k < UNARY {
      BinopRoundTrip(e.bop, e.lhs, e.rhs, rest);
    } else {
      UnaryRoundTrip(e, rest);
    }
  }

  lemma {:induction false} UnaryRoundTrip(e: CExpr, rest: Tokens)
    requires UNARY <= ExprLevel(e) && Stops(UNARY + 1, rest)
    ensures ParseUnary(Print(e) + rest) == Some(Pair(Erase(e), rest))
    decreases e, 9
  {
    if e.CCast? || e.CUnary? {
      var ts := Print(e) + rest;
      assert ts[1..] == ParenIf(e.operand, ExprLevel(e.operand) < UNARY) + rest;
      OperandRoundTrip(e.operand, UNARY, rest);
    } else {
      PostfixRoundTrip(e, rest);
      FirstToken(e);
    }
  }

  lemma {:induction false} BinopRoundTrip(op: BinOp, l: CExpr, r: CExpr, rest: Tokens)
    requires Stops(Level(op) + 1, rest)
    ensures ParseLevel(Level(op), Print(CBinop(op, l, r)) + rest)
         == ParseTail(Level(op), BinaryOf(op, Erase(l), Erase(r)), rest)
    decreases CBinop(op, l, r), 5
  {
    var k := Level(op);
    var right := ParenIf(r, ExprLevel(r) < k + 1) + rest;
    PrintedBinop(op, l, r, rest);
    OperandRoundTrip(l, k, [Punct(op)] + right);
    OperandRoundTrip(r, k + 1, rest);
    StopsHere(k + 1, Erase(r), rest);
    TailStep(op, Erase(l), right, Erase(r), rest);
  }

  lemma {:induction false} PrintedBinop(op: BinOp, l: CExpr, r: CExpr, rest: Tokens)
    ensures Print(CBinop(op, l, r)) + rest
         == ParenIf(l, ExprLevel(l) < Level(op)) + ([Punct(op)] + (ParenIf(r, ExprLevel(r) < Level(op) + 1) + rest))
  {
    TableMatchesGrammar(l, CBinop(op, l, r));
    TableMatchesGrammar(CBinop(op, l, r), r);
  }

  lemma {:induction false} FirstToken(e: CExpr)
    ensures Print(e) != []
    ensures ExprLevel(e) == POSTFIX ==> !Print(e)[0].CastTo? && !Print(e)[0].Punct?
    ensures !Print(e)[0].RParen?
  {
    match e
    case CField(recv, _, _) => FirstToken(recv);
    case CBinop(_, l, _) => FirstToken(l);
    case _ =>
  }

  lemma {:induction false} ExprRoundTrip(e: CExpr, rest: Tokens)
    requires Stops(1, rest) && (rest == [] || !rest[0].Question?)
    ensures ParseExpr(Print(e) + rest) == Some(Pair(Erase(e), rest))
    decreases e, 15
  {
    LevelRoundTrip(e, 1, rest);
  }

  lemma {:induction false} ArgsRoundTrip(args: seq<CExpr>, rest: Tokens)
    ensures ParseArgs(PrintArgs(args) + [RParen] + rest) == Some(Pair(EraseAll(args), rest))
    decreases args, 1
  {
    var ts := PrintArgs(args) + [RParen] + rest;
    if args == [] {
      assert ts[1..] == rest;
    } else {
      FirstToken(args[0]);
      ArgListRoundTrip(args, rest);
    }
  }

  lemma {:induction false} ArgListRoundTrip(args: seq<CExpr>, rest: Tokens)
    requires args != []
    ensures ParseArgList(PrintArgs(args) + [RParen] + rest) == Some(Pair(EraseAll(args), rest))
    decreases args, 0
  {
    var ts := PrintArgs(args) + [RParen] + rest;
    if |args| == 1 {
      var after := [RParen] + rest;
      assert ts == Print(args[0]) + after;
      ExprRoundTrip(args[0], after);
      assert after[1..] == rest;
      assert EraseAll(args) == [Erase(args[0])];
    } else {
      var more := PrintArgs(args[1..]) + [RParen] + rest;
      var after := [Comma] + more;
      assert ts == Print(args[0]) + after;
      ExprRoundTrip(args[0], after);
      assert after[1..] == more;
      ArgListRoundTrip(args[1..], rest);
    }
  }

  /** A C compiler reads the printed tokens as the tree that was printed. */
  lemma {:induction false} RoundTrip(e: CExpr)
    ensures Parse(Print(e)) == Some(Erase(e))
  {
    assert Print(e) + [] == Print(e);
    ExprRoundTrip(e, []);
  }

  // ----- minimality -----

  /** How many tokens the printer spends on a tree. */
  ghost function Length(t: Tree): nat
    decreases t, 1
  {
    match t
    case Leaf(_) | Name(_) => 1
    case CallTo(_, args) => 3 + ArgsLength(args)
    case CastOf(_, x) => 1 + LengthAt(x, UNARY)
    case UnaryOf(_, x) => 1 + LengthAt(x, UNARY)
    case BinaryOf(op, l, r) => LengthAt(l, Level(op)) + 1 + LengthAt(r, Level(op) + 1)
    case Member(recv, _, _) => LengthAt(recv, POSTFIX) + 2
    case Index(base, i) => LengthAt(base, POSTFIX) + 2 + Length(i)
    case Choose(c, y, n) => LengthAt(c, 1) + 1 + Length(y) + 1 + Length(n)
  }

  /** ... and on the same tree as an operand of the rule at level `k`. */
  ghost function LengthAt(t: Tree, k: nat): nat
    decreases t, 2
  {
    if TreeLevel(t) < k then Length(t) + 2 else Length(t)
  }

  ghost function ArgsLength(args: seq<Tree>): nat
    decreases args, 0
  {
    if args == [] then 0
    else if |args| == 1 then Length(args[0])
    else Length(args[0]) + 1 + ArgsLength(args[1..])
  }

  ghost predicate ParenFree(e: CExpr) {
    match e
    case CParen(_) => false
    case CCall(_, args) => forall i | 0 <= i < |args| :: ParenFree(args[i])
    case CField(recv, _, _) => ParenFree(recv)
    case CCast(_, x) => ParenFree(x)
    case CUnary(_, x) => ParenFree(x)
    case CBinop(_, l, r) => ParenFree(l) && ParenFree(r)
    case _ => true
  }

  lemma {:induction false} PrintLength(e: CExpr)
    requires ParenFree(e)
    ensures |Print(e)| == Length(Erase(e))
    ensures TreeLevel(Erase(e)) == ExprLevel(e)
    decreases e, 1
  {
    match e
    case CCall(_, args) => PrintArgsLength(args);
    case CField(recv, _, _) => PrintLength(recv);
    case CCast(_, x) => PrintLength(x);
    case CUnary(_, x) => PrintLength(x);
    case CBinop(op, l, r) =>
      PrintLength(l);
      PrintLength(r);
      TableMatchesGrammar(l, e);
      TableMatchesGrammar(e, r);
    case _ =>
  }

  lemma {:induction false} PrintArgsLength(args: seq<CExpr>)
    requires forall i | 0 <= i < |args| :: ParenFree(args[i])
    ensures |PrintArgs(args)| == ArgsLength(EraseAll(args))
    decreases args, 0
  {
    if args != [] {
      PrintLength(args[0]);
      PrintArgsLength(args[1..]);
      assert EraseAll(args)[1..] == EraseAll(args[1..]);
    }
  }

  // Every parse spends at least as many tokens as the printer would.

  ghost predicate Spends(ts: Tokens, r: Parsed, k: nat, before: nat) {
    r.Some? ==> |r.value.snd| <= |ts| && LengthAt(r.value.fst, k) <= before + (|ts| - |r.value.snd|)
  }

  lemma {:induction false} ExprSpends(ts: Tokens)
    ensures Spends(ts, ParseExpr(ts), 0, 0)
    decreases |ts|, 20
  {
    LevelSpends(1, ts);
    var c := ParseLevel(1, ts);
    if c.Some? && c.value.snd != [] && c.value.snd[0] == Question {
      var rest := c.value.snd[1..];
      ExprSpends(rest);
      var y := ParseExpr(rest);
      if y.Some? && y.value.snd != [] && y.value.snd[0] == Colon {
        ExprSpends(y.value.snd[1..]);
      }
    }
  }

  lemma {:induction false} LevelSpends(k: nat, ts: Tokens)
    requires 1 <= k <= UNARY
    ensures Spends(ts, ParseLevel(k, ts), k, 0)
    decreases |ts|, 2 + UNARY - k
  {
    if k == UNARY {
      UnarySpends(ts);
    } else {
      LevelSpends(k + 1, ts);
      var r := ParseLevel(k + 1, ts);
      if r.Some? {
        TailSpends(k, r.value.fst, |ts| - |r.value.snd|, r.value.snd);
      }
    }
  }

  lemma {:induction false} TailSpends(k: nat, acc: Tree, before: nat, ts: Tokens)
    requires 1 <= k <= MULTIPLICATIVE && LengthAt(acc, k) <= before
    ensures Spends(ts, ParseTail(k, acc, ts), k, before)
    decreases |ts|, 0
  {
    if Continues(k, ts) {
      LevelSpends(k + 1, ts[1..]);
      var r := ParseLevel(k + 1, ts[1..]);
      if r.Some? {
        TailSpends(k, BinaryOf(ts[0].op, acc, r.value.fst), before + |ts| - |r.value.snd|, r.value.snd);
      }
    }
  }

  lemma {:induction false} UnarySpends(ts: Tokens)
    ensures Spends(ts, ParseUnary(ts), UNARY, 0)
    decreases |ts|, 1
  {
    if ts != [] {
      if ts[0].CastTo? || ts[0].Punct? {
        UnarySpends(ts[1..]);
      } else {
        PostfixSpends(ts);
      }
    }
  }

  lemma {:induction false} PostfixSpends(ts: Tokens)
    ensures Spends(ts, ParsePostfix(ts), POSTFIX, 0)
    decreases |ts|, 0
  {
    if ts != [] {
      match ts[0]
      case Atom(s) => PostfixTailSpends(Leaf(s), 1, ts[1..]);
      case Ident(s) => PostfixTailSpends(Name(s), 1, ts[1..]);
      case LParen =>
        ExprSpends(ts[1..]);
        var r := ParseExpr(ts[1..]);
        if r.Some? && r.value.snd != [] && r.value.snd[0] == RParen {
          PostfixTailSpends(r.value.fst, |ts| - |r.value.snd[1..]|, r.value.snd[1..]);
        }
      case _ =>
    }
  }

  lemma {:induction false} PostfixTailSpends(acc: Tree, before: nat, ts: Tokens)
    requires LengthAt(acc, POSTFIX) <= before
    ensures Spends(ts, PostfixTail(acc, ts), POSTFIX, before)
    decreases |ts|, 0
  {
    if 2 <= |ts| && (ts[0].Dot? || ts[0].Arrow?) && ts[1].Ident? {
      PostfixTailSpends(Member(acc, ts[1].name, ts[0].Arrow?), before + 2, ts[2..]);
    } else if 1 <= |ts| && ts[0].LParen? && acc.Name? {
      ArgsSpend(ts[1..]);
      var r := ParseArgs(ts[1..]);
      if r.Some? {
        PostfixTailSpends(CallTo(acc.name, r.value.fst), before + |ts| - |r.value.snd|, r.value.snd);
      }
    } else if 1 <= |ts| && ts[0].LBracket? {
      ExprSpends(ts[1..]);
      var r := ParseExpr(ts[1..]);
      if r.Some? && r.value.snd != [] && r.value.snd[0] == RBracket {
        PostfixTailSpends(Index(acc, r.value.fst), before + |ts| - |r.value.snd[1..]|, r.value.snd[1..]);
      }
    }
  }

  lemma {:induction false} ArgsSpend(ts: Tokens)
    ensures ParseArgs(ts).Some? ==> ArgsLength(ParseArgs(ts).value.fst) < |ts| - |ParseArgs(ts).value.snd|
    decreases |ts|, 30
  {
    if ts == [] || !ts[0].RParen? { ArgListSpends(ts); }
  }

  lemma {:induction false} ArgListSpends(ts: Tokens)
    ensures var r := ParseArgList(ts);
            r.Some? ==> r.value.fst != [] && ArgsLength(r.value.fst) < |ts| - |r.value.snd|
    decreases |ts|, 25
  {
    ExprSpends(ts);
    var r := ParseExpr(ts);
    if r.Some? && r.value.snd != [] && r.value.snd[0].Comma? {
      var rest := r.value.snd[1..];
      ArgListSpends(rest);
      var more := ParseArgList(rest);
      if more.Some? {
        assert ([r.value.fst] + more.value.fst)[1..] == more.value.fst;
      }
    }
  }

  /** No token sequence that a C compiler reads as the tree is shorter than the printed one,
      so every parenthesis the printer adds is needed. */
  lemma {:induction false} Minimal(e: CExpr, ts: Tokens)
    requires ParenFree(e)
    requires Parse(ts) == Some(Erase(e))
    ensures |Print(e)| <= |ts|
  {
    ExprSpends(ts);
    PrintLength(e);
  }
}
