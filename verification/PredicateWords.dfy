/**
 A declared predicate read a third way: as words, numbers and quoted characters put together by
 calls, each word with its own meaning. What the generator publishes says the same.
 */
module PredicateWords {
  import opened Common
  import opened TextScan
  import opened IntExpr
  import opened Predicates
  import opened PredicateMeaning
  import RecordLayout

  // ----- the text as a term, whatever its words are -----

  datatype Term = Word(w: string) | Quote(ch: char) | Call(name: string, args: seq<Term>)

  type TermRead = Option<Pair<Term, string>>
  type TermsRead = Option<Pair<seq<Term>, string>>

  /** A word may be empty: so may the name of a field. */
  function ReadTerm(s: string): (r: TermRead)
    ensures r.Some? ==> |r.value.snd| <= |s|
    decreases |s|, 0
  {
    var t := SkipBlanks(s);
    if CharAt(t, 0, '\'') then
      if CharAt(t, 2, '\'') then Some(Pair(Quote(t[1]), t[3..])) else None
    else
      var n := WordLength(t);
      if !CharAt(t, n, '(') then Some(Pair(Word(t[..n]), t[n..]))
      else match ReadTerms(t[n + 1..])
        case None => None
        case Some(Pair(args, rest)) => Some(Pair(Call(t[..n], args), rest))
  }

  /** One or more terms, with commas between them and a parenthesis after. */
  function ReadTerms(s: string): (r: TermsRead)
    ensures r.Some? ==> |r.value.snd| < |s|
    decreases |s|, 1
  {
    match ReadTerm(s)
    case None => None
    case Some(Pair(t, rest)) =>
      var u := SkipBlanks(rest);
      if CharAt(u, 0, ')') then Some(Pair([t], u[1..]))
      else if !CharAt(u, 0, ',') then None
      else match ReadTerms(u[1..])
        case None => None
        case Some(Pair(ts, rest1)) => Some(Pair([t] + ts, rest1))
  }

  /** The whole text as one term. */
  function ReadText(text: string): Option<Term> {
    var r := ReadTerm(text);
    if r.Some? && SkipBlanks(r.value.snd) == [] then Some(r.value.fst) else None
  }

  // ----- what the words say of a record -----

  /** A string is empty when its first byte is NUL, or when the helper of its derivation says so. */
  ghost predicate IsEmpty(r: Record, c: Channel, name: string) {
    if FindField(c.fields, name).Some? then r.byteAt(name, 0) == 0
    else r.call("spnl_recd_" + c.id + "_" + name + "_empty") != 0
  }

  /** A number is zero when all its bytes are, or when the helper of its derivation returns zero. */
  ghost predicate IsZero(r: Record, c: Channel, name: string) {
    if FindField(c.fields, name).Some?
    then forall k :: 0 <= k < RecordLayout.SizeOf(FindField(c.fields, name).value.ctype) ==> r.byteAt(name, k) == 0
    else r.call("spnl_recd_" + c.id + "_" + name + "_val") == 0
  }

  ghost predicate Says(r: Record, c: Channel, t: Term) {
    match t
    case Word(w) => w == "always"
    case Quote(_) => false
    case Call(name, args) =>
      if name == "all" then forall i :: 0 <= i < |args| ==> Says(r, c, args[i])
      else if name == "any" then exists i :: 0 <= i < |args| && Says(r, c, args[i])
      else if name == "byte_eq" then
        |args| == 3 && args[0].Word? && args[1].Word? && AllDigits(args[1].w) && args[2].Quote? &&
        r.byteAt(args[0].w, Value(10, args[1].w)) == args[2].ch as nat
      else if |args| != 1 || !args[0].Word? then false
      else if name == "nonempty" then !IsEmpty(r, c, args[0].w)
      else if name == "empty" then IsEmpty(r, c, args[0].w)
      else if name == "nonzero" then !IsZero(r, c, args[0].w)
      else name == "zero" && IsZero(r, c, args[0].w)
  }

  // ----- the parsed predicate, term by term -----

  function TestWord(t: Test): string {
    match t
    case NonEmpty => "nonempty"
    case Empty => "empty"
    case NonZero => "nonzero"
    case Zero => "zero"
  }

  ghost predicate Denotes(c: Channel, t: Term, p: PredAst)
    decreases p
  {
    match p
    case Always => t == Word("always")
    case Never => t == Word("never")
    case Both(isAll, ps) =>
      t.Call? && t.name == (if isAll then "all" else "any") && |t.args| == |ps| &&
      forall i :: 0 <= i < |ps| ==> Denotes(c, t.args[i], ps[i])
    case ByteEq(f, i, ch) =>
      t.Call? && t.name == "byte_eq" && |t.args| == 3 && t.args[0] == Word(f) && t.args[2] == Quote(ch) &&
      t.args[1].Word? && AllDigits(t.args[1].w) && Value(10, t.args[1].w) == i
    case FieldTest(test, f, isStr) =>
      t == Call(TestWord(test), [Word(f)]) && FindField(c.fields, f).Some? && isStr == WantsStr(test)
    case DerivedTest(test, d, isStr) =>
      t == Call(TestWord(test), [Word(d)]) && FindField(c.fields, d).None? && isStr == WantsStr(test)
  }

  // ----- reading back -----

  lemma {:induction false} WordIs(t: string, w: string)
    requires w != [] && w <= t && (forall i :: 0 <= i < |w| ==> IsWord(w[i])) && Boundary(t[|w|..])
    ensures WordLength(t) == |w| && t[..|w|] == w && SkipBlanks(t) == t && !CharAt(t, 0, '\'')
  {
    assert t == w + t[|w|..];
    WordBefore(w, t[|w|..]);
    assert IsWord(t[0]);
  }

  lemma AlwaysWord(t: string)
    requires AlwaysAt(t)
    ensures "always" <= t
  {
    assert t[..6] == "always";
  }

  lemma NeverWord(t: string)
    requires NeverAt(t)
    ensures "never" <= t
  {
    assert t[..5] == "never";
  }

  lemma BothWord(t: string)
    requires AllAt(t) || AnyAt(t)
    ensures (if AllAt(t) then "all" else "any") <= t && t[3] == '('
  {
    assert t[..3] == if AllAt(t) then "all" else "any";
  }

  lemma ByteEqWordAt(t: string)
    requires ByteEqAt(t)
    ensures "byte_eq" <= t && t[7] == '('
  {
    assert t[..7] == "byte_eq";
  }

  lemma NonEmptyWord(t: string)
    requires NonAt(t) && EmptyAt(t, 3)
    ensures "nonempty" <= t && t[8] == '('
  {
    assert t[..8] == "nonempty";
  }

  lemma EmptyWord(t: string)
    requires EmptyAt(t, 0)
    ensures "empty" <= t && t[5] == '('
  {
    assert t[..5] == "empty";
  }

  lemma NonZeroWord(t: string)
    requires NonAt(t) && ZeroAt(t, 3)
    ensures "nonzero" <= t && t[7] == '('
  {
    assert t[..7] == "nonzero";
  }

  lemma ZeroWord(t: string)
    requires ZeroAt(t, 0)
    ensures "zero" <= t && t[4] == '('
  {
    assert t[..4] == "zero";
  }

  lemma TestWordAt(t: string)
    requires TestAt(t).Some?
    ensures var w, n := TestWord(TestAt(t).value.fst), TestAt(t).value.snd;
            n == |w| + 1 && w <= t && t[|w|] == '('
  {
    if NonAt(t) && EmptyAt(t, 3) { NonEmptyWord(t); }
    else if EmptyAt(t, 0) { EmptyWord(t); }
    else if NonAt(t) && ZeroAt(t, 3) { NonZeroWord(t); }
    else { ZeroWord(t); }
  }

  /** A word and a parenthesis start a call. */
  lemma {:induction false} CallReads(s: string, w: string)
    requires var t := SkipBlanks(s);
             w != [] && w <= t && (forall i :: 0 <= i < |w| ==> IsWord(w[i])) && CharAt(t, |w|, '(')
    ensures var inner := ReadTerms(SkipBlanks(s)[|w| + 1..]);
            ReadTerm(s) == if inner.Some? then Some(Pair(Call(w, inner.value.fst), inner.value.snd)) else None
  {
    WordIs(SkipBlanks(s), w);
  }

  /** A word before anything that cannot lengthen it or make it a call. */
  lemma {:induction false} WordReads(s: string, n: nat)
    requires var t := SkipBlanks(s); n == WordLength(t) && !CharAt(t, 0, '\'') && !CharAt(t, n, '(')
    ensures ReadTerm(s) == Some(Pair(Word(SkipBlanks(s)[..n]), SkipBlanks(s)[n..]))
  {
  }

  ghost predicate Stops(rest: string) { rest == [] || (!IsWord(rest[0]) && rest[0] != '(') }

  lemma {:induction false} EatStops(ch: char, rest: string)
    requires Eat(ch, rest).Some? && (ch == ',' || ch == ')')
    ensures Stops(rest) && CharAt(SkipBlanks(rest), 0, ch) && SkipBlanks(rest)[1..] == Eat(ch, rest).value
  {
  }

  ghost predicate ReadsAs(c: Channel, s: string, p: PredAst, rest: string) {
    var r := ReadTerm(s);
    r.Some? && r.value.snd == rest && Denotes(c, r.value.fst, p)
  }

  lemma {:induction false} OneReads(c: Channel, s: string)
    requires PredOne(c, s).Some? && Stops(PredOne(c, s).value.snd)
    ensures ReadsAs(c, s, PredOne(c, s).value.fst, PredOne(c, s).value.snd)
    decreases |s|, 10
  {
    var t := SkipBlanks(s);
    if AlwaysAt(t) || NeverAt(t) {
      PlainReads(c, s, t);
    } else if AllAt(t) || AnyAt(t) {
      var w := if AllAt(t) then "all" else "any";
      BothWord(t);
      CallReads(s, w);
      BothReads(c, AllAt(t), t[4..]);
    } else if ByteEqAt(t) {
      ComparisonReads(c, s, t);
    } else {
      TestReads(c, s, t);
    }
  }

  lemma {:induction false} PlainReads(c: Channel, s: string, t: string)
    requires t == SkipBlanks(s) && (AlwaysAt(t) || NeverAt(t)) && Stops(if AlwaysAt(t) then t[6..] else t[5..])
    ensures AlwaysAt(t) ==> ReadsAs(c, s, Always, t[6..])
    ensures !AlwaysAt(t) ==> ReadsAs(c, s, Never, t[5..])
  {
    if AlwaysAt(t) {
      AlwaysWord(t);
      WordIs(t, "always");
      WordReads(s, 6);
    } else {
      NeverWord(t);
      WordIs(t, "never");
      WordReads(s, 5);
    }
  }

  lemma {:induction false} ComparisonReads(c: Channel, s: string, t: string)
    requires t == SkipBlanks(s) && ByteEqAt(t) && PredByteEq(c, t[8..]).Some?
    ensures var r := PredByteEq(c, t[8..]).value; ReadsAs(c, s, r.fst, r.snd)
  {
    ByteEqWordAt(t);
    CallReads(s, "byte_eq");
    ByteEqReads(c, t[8..]);
  }

  lemma {:induction false} TestReads(c: Channel, s: string, t: string)
    requires t == SkipBlanks(s) && TestAt(t).Some?
    requires PredTest(c, TestAt(t).value.fst, t[TestAt(t).value.snd..]).Some?
    ensures var r := PredTest(c, TestAt(t).value.fst, t[TestAt(t).value.snd..]).value; ReadsAs(c, s, r.fst, r.snd)
  {
    var test, n := TestAt(t).value.fst, TestAt(t).value.snd;
    TestWordAt(t);
    CallReads(s, TestWord(test));
    NameReads(c, test, t[n..]);
  }

  lemma {:induction false} NameReads(c: Channel, test: Test, s: string)
    requires PredTest(c, test, s).Some?
    ensures var r := PredTest(c, test, s).value; var inner := ReadTerms(s);
            inner.Some? && inner.value.snd == r.snd && Denotes(c, Call(TestWord(test), inner.value.fst), r.fst)
  {
    var t := SkipBlanks(s);
    var n := WordLength(t);
    EatStops(')', t[n..]);
    assert SkipBlanks(t) == t;
    WordReads(s, n);
  }

  lemma {:induction false} ByteEqReads(c: Channel, s: string)
    requires PredByteEq(c, s).Some?
    ensures var r := PredByteEq(c, s).value; var inner := ReadTerms(s);
            inner.Some? && inner.value.snd == r.snd && Denotes(c, Call("byte_eq", inner.value.fst), r.fst)
  {
    var t := SkipBlanks(s);
    var n := WordLength(t);
    var f := FindField(c.fields, t[..n]).value;
    EatStops(',', t[n..]);
    assert SkipBlanks(t) == t;
    WordReads(s, n);
    var rest := Eat(',', t[n..]).value;
    IndexReads(f, rest);
  }

  lemma {:induction false} IndexReads(f: FieldDecl, s: string)
    requires PredIndex(f, SkipBlanks(s)).Some?
    ensures var r := PredIndex(f, SkipBlanks(s)).value; var inner := ReadTerms(s);
            r.fst.ByteEq? && r.fst.field == f.name && inner.Some? && inner.value.snd == r.snd &&
            var ts := inner.value.fst;
            |ts| == 2 && ts[1] == Quote(r.fst.ch) &&
            ts[0].Word? && AllDigits(ts[0].w) && Value(10, ts[0].w) == r.fst.index
  {
    var u := SkipBlanks(s);
    var m := DigitLength(u);
    EatStops(',', u[m..]);
    DigitsAreWord(u);
    WordReads(s, m);
    var rest := Eat(',', u[m..]).value;
    CharReads(f.name, Value(10, u[..m]), rest);
  }

  lemma {:induction false} DigitsAreWord(u: string)
    requires Stops(u[DigitLength(u)..])
    ensures WordLength(u) == DigitLength(u)
  {
    if u != [] && IsDigit(u[0]) {
      assert u[1..][DigitLength(u[1..])..] == u[DigitLength(u)..];
      DigitsAreWord(u[1..]);
    } else {
      assert u[0..] == u;
    }
  }

  lemma {:induction false} CharReads(field: string, index: nat, s: string)
    requires PredChar(field, index, SkipBlanks(s)).Some?
    ensures var r := PredChar(field, index, SkipBlanks(s)).value;
            r.fst == ByteEq(field, index, SkipBlanks(s)[1]) && ReadTerms(s) == Some(Pair([Quote(r.fst.ch)], r.snd))
  {
    EatStops(')', SkipBlanks(s)[3..]);
  }

  lemma {:induction false} BothReads(c: Channel, isAll: bool, s: string)
    requires PredBoth(c, isAll, s).Some?
    ensures var r := PredBoth(c, isAll, s).value; var inner := ReadTerms(s);
            inner.Some? && inner.value.snd == r.snd &&
            Denotes(c, Call(if isAll then "all" else "any", inner.value.fst), r.fst)
    decreases |s|, 20
  {
    var rest := PredArgs(c, s).value.snd;
    EatStops(')', rest);
    ArgsRead(c, s);
  }

  lemma {:induction false} ArgsRead(c: Channel, s: string)
    requires PredArgs(c, s).Some? && Eat(')', PredArgs(c, s).value.snd).Some?
    ensures var r := PredArgs(c, s).value; var inner := ReadTerms(s);
            inner.Some? && inner.value.snd == Eat(')', r.snd).value && |inner.value.fst| == |r.fst| &&
            forall i :: 0 <= i < |r.fst| ==> Denotes(c, inner.value.fst[i], r.fst[i])
    decreases |s|, 15
  {
    var p, rest := PredOne(c, s).value.fst, PredOne(c, s).value.snd;
    if Eat(',', rest).Some? {
      EatStops(',', rest);
      OneReads(c, s);
      ArgsRead(c, Eat(',', rest).value);
    } else {
      var u := SkipBlanks(rest);
      assert SkipBlanks(u) == u;
      EatStops(')', u);
      LastStops(rest);
      OneReads(c, s);
    }
  }

  lemma {:induction false} LastStops(rest: string)
    requires CharAt(SkipBlanks(rest), 0, ')')
    ensures Stops(rest)
  {
  }

  // ----- and the meaning -----

  lemma {:induction false} DenotedMeans(r: Record, c: Channel, t: Term, p: PredAst)
    requires Denotes(c, t, p)
    ensures Says(r, c, t) <==> EvalPublished(r, c, EmitPredJson(p))
    decreases p
  {
    match p
    case Both(isAll, ps) =>
      AllOfJson(r, c, ps);
      forall i | 0 <= i < |ps| ensures Says(r, c, t.args[i]) <==> EvalPublished(r, c, EmitPredJson(ps[i])) {
        DenotedMeans(r, c, t.args[i], ps[i]);
      }
      BothMeans(r, c, isAll, t.args, ps);
    case _ =>
  }

  lemma {:induction false} BothMeans(r: Record, c: Channel, isAll: bool, ts: seq<Term>, ps: seq<PredAst>)
    requires |ts| == |ps|
    requires forall i :: 0 <= i < |ps| ==> (Says(r, c, ts[i]) <==> EvalPublished(r, c, EmitPredJson(ps[i])))
    ensures Says(r, c, Call(if isAll then "all" else "any", ts)) <==> Verdict(r, c, isAll, ps)
  {
    assert "all" != "any";
  }

  /**
   Every text the generator accepts as a predicate reads as a term, and of every record the published
   tree says what the words of the text say.
   */
  lemma {:induction false} WordsArePublished(r: Record, c: Channel, text: string)
    requires ParsePred(c, text).Some? && ParsePred(c, text).value.Stated?
    ensures ReadText(text).Some?
    ensures Says(r, c, ReadText(text).value) <==> EvalPublished(r, c, EmitPredJson(ParsePred(c, text).value.p))
  {
    var p, rest := PredOne(c, text).value.fst, PredOne(c, text).value.snd;
    assert Stops(rest);
    OneReads(c, text);
    DenotedMeans(r, c, ReadTerm(text).value.fst, p);
  }
}
