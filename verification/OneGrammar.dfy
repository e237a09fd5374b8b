/**
 Two parsers, one grammar: the reader gate and the generator take the same predicates.

 What the generator accepts, the gate passes, and what the gate passes, the generator accepts
 once its white space is made blank. The texts on which they part are told exactly.
 */
module OneGrammar {
  import opened Common
  import opened TextScan
  import opened IntExpr
  import opened Predicates
  import opened ReaderGate
  import opened TwoParsers
  import opened SharedNames
  import opened WhiteSpace
  import opened PredicateMeaning
  import RecordLayout

  // ----- stripping -----

  ghost predicate AllSpace(b: string) {
    forall i :: 0 <= i < |b| ==> IsSpace(b[i])
  }

  lemma {:induction false} SkippedAway(b: string)
    requires SkipBlanks(b) == []
    ensures AllSpace(b)
  {
    if b != [] {
      SkippedAway(b[1..]);
      assert forall i :: 1 <= i < |b| ==> b[i] == b[1..][i - 1];
    }
  }

  lemma {:induction false} RStripped(a: string, b: string)
    requires a != [] && !IsSpace(a[|a| - 1]) && AllSpace(b)
    ensures RStrip(a + b) == a
  {
    if b == [] {
      assert a + b == a;
    } else {
      assert (a + b)[..|a + b| - 1] == a + b[..|b| - 1];
      RStripped(a, b[..|b| - 1]);
    }
  }

  // ----- what the generator accepts -----

  lemma {:induction false} SkipTwice(c: Channel, s: string)
    ensures PredOne(c, SkipBlanks(s)) == PredOne(c, s)
  {
    var t := SkipBlanks(s);
    assert SkipBlanks(t) == t;
  }

  lemma {:induction false} KeywordFirst(c: Channel, s: string)
    requires PredOne(c, s).Some?
    ensures SkipBlanks(s) != [] && IsAlpha(SkipBlanks(s)[0]) && SkipBlanks(s)[0] != 'u'
  {
  }

  /** The stripped text is the predicate with nothing around it. */
  lemma {:induction false} StrippedPredicate(c: Channel, text: string)
    requires PredOne(c, text).Some? && SkipBlanks(PredOne(c, text).value.snd) == []
    ensures PredOne(c, Strip(text)) == Some(Pair(PredOne(c, text).value.fst, []))
    ensures IsSuffix(SkipBlanks(text), text) && Strip(text) <= SkipBlanks(text)
  {
    var t, rest := SkipBlanks(text), PredOne(c, text).value.snd;
    KeywordFirst(c, text);
    SameSkip(text);
    SkipIsSuffix(text);
    SkipTwice(c, text);
    OneEnds(c, t);
    var a := EndsSplit(rest, t);
    SkippedAway(rest);
    RStripped(a, rest);
    OneCut(c, a, rest);
    assert PredOne(c, a).value.snd + rest == rest;
  }

  /** A predicate the generator accepts passes the gate exactly when no byte comparison is shadowed and
      none is with a newline. */
  lemma {:induction false} GeneratedPasses(c: Channel, text: string, p: PredAst)
    requires Named(c) && ParsePred(c, text) == Some(Stated(p))
    ensures GateRule(AllProps(c.fields, c.derived), text) == [] <==> Unshadowed(c, p) && OneLine(p)
  {
    StrippedPredicate(c, text);
    var t := Strip(text);
    SameOne(c, t);
    KeywordFirst(c, text);
    assert t[0] == SkipBlanks(text)[0];
    assert REFUSAL[0] == 'u';
    assert Strip([]) == [];
  }

  /** A refusal the generator accepts passes exactly when its reason is twenty characters once stripped. */
  lemma RefusalPasses(c: Channel, text: string)
    requires ParsePred(c, text) == Some(Unexpressible)
    ensures REFUSAL <= text && text[|text| - 1] == ')'
    ensures GateRule(AllProps(c.fields, c.derived), text) == [] <==> |Strip(Reason(text))| >= 20
    ensures Strip(Reason(text)) == Reason(text) ==> GateRule(AllProps(c.fields, c.derived), text) == []
  {
    assert text[0] == REFUSAL[0] == 'u';
    assert Strip(text) == text;
  }

  // ----- text after a predicate does not change it -----

  lemma {:induction false} SkipMore(s: string, b: string)
    requires SkipBlanks(s) != []
    ensures SkipBlanks(s + b) == SkipBlanks(s) + b
  {
    if IsBlank(s[0]) {
      assert (s + b)[1..] == s[1..] + b;
      SkipMore(s[1..], b);
    }
  }

  lemma {:induction false} WordMore(s: string, b: string)
    requires WordLength(s) < |s|
    ensures WordLength(s + b) == WordLength(s)
  {
    if IsWord(s[0]) {
      assert (s + b)[1..] == s[1..] + b;
      WordMore(s[1..], b);
    }
  }

  lemma {:induction false} DigitMore(s: string, b: string)
    requires DigitLength(s) < |s|
    ensures DigitLength(s + b) == DigitLength(s)
  {
    if IsDigit(s[0]) {
      assert (s + b)[1..] == s[1..] + b;
      DigitMore(s[1..], b);
    }
  }

  lemma {:induction false} OneMore(c: Channel, s: string, b: string)
    requires PredOne(c, s).Some?
    ensures PredOne(c, s + b) == Some(Pair(PredOne(c, s).value.fst, PredOne(c, s).value.snd + b))
    decreases |s|, 10
  {
    KeywordFirst(c, s);
    SkipMore(s, b);
    var t := SkipBlanks(s);
    KeywordsBefore(t, b);
    if AlwaysAt(t) {
      DropBefore(t, b, 6);
    } else if NeverAt(t) {
      DropBefore(t, b, 5);
    } else if AllAt(t) || AnyAt(t) {
      DropBefore(t, b, 4);
      BothMore(c, AllAt(t), t[4..], b);
    } else if ByteEqAt(t) {
      DropBefore(t, b, 8);
      ByteEqMore(c, t[8..], b);
    } else {
      TestMore(c, t, b);
    }
  }

  lemma {:induction false} BothMore(c: Channel, isAll: bool, s: string, b: string)
    requires PredBoth(c, isAll, s).Some?
    ensures PredBoth(c, isAll, s + b) ==
            Some(Pair(PredBoth(c, isAll, s).value.fst, PredBoth(c, isAll, s).value.snd + b))
    decreases |s|, 20
  {
    ArgsMore(c, s, b);
    EatMore(')', PredArgs(c, s).value.snd, b);
  }

  lemma {:induction false} ArgsMore(c: Channel, s: string, b: string)
    requires PredArgs(c, s).Some? && PredArgs(c, s).value.snd != []
    ensures PredArgs(c, s + b) == Some(Pair(PredArgs(c, s).value.fst, PredArgs(c, s).value.snd + b))
    decreases |s|, 15
  {
    OneMore(c, s, b);
    var rest := PredOne(c, s).value.snd;
    if Eat(',', rest).Some? {
      EatMore(',', rest, b);
      ArgsMore(c, Eat(',', rest).value, b);
    } else {
      SkipMore(rest, b);
    }
  }

  lemma {:induction false} WordArgMore(ch: char, s: string, b: string)
    requires !IsWord(ch) && var t := SkipBlanks(s); Eat(ch, t[WordLength(t)..]).Some?
    ensures var was, now := SkipBlanks(s), SkipBlanks(s + b); var n := WordLength(was);
            WordLength(now) == n && was[..n] == now[..n] && Eat(ch, now[n..]) == Some(Eat(ch, was[n..]).value + b)
  {
    SkipMore(s, b);
    var t := SkipBlanks(s);
    WordMore(t, b);
    DropBefore(t, b, WordLength(t));
    EatMore(ch, t[WordLength(t)..], b);
  }

  lemma ZeroEmptyMore(t: string, b: string, i: nat)
    ensures EmptyAt(t, i) ==> EmptyAt(t + b, i)
    ensures ZeroAt(t, i) ==> ZeroAt(t + b, i)
    ensures NonAt(t) ==> NonAt(t + b)
  {
  }

  lemma TestKeyword(t: string, b: string)
    requires TestAt(t).Some?
    ensures TestAt(t + b) == TestAt(t) && !AlwaysAt(t + b) && !NeverAt(t + b) && !AllAt(t + b) && !AnyAt(t + b) &&
            !ByteEqAt(t + b)
  {
    ZeroEmptyMore(t, b, 0);
    ZeroEmptyMore(t, b, 3);
  }

  lemma TestMore(c: Channel, t: string, b: string)
    requires TestAt(t).Some?
    requires var w := TestAt(t).value; PredTest(c, w.fst, t[w.snd..]).Some?
    ensures TestAt(t + b) == TestAt(t) && !AlwaysAt(t + b) && !NeverAt(t + b) && !AllAt(t + b) && !AnyAt(t + b) &&
            !ByteEqAt(t + b)
    ensures var w := TestAt(t).value; var was := PredTest(c, w.fst, t[w.snd..]).value;
            PredTest(c, w.fst, (t + b)[w.snd..]) == Some(Pair(was.fst, was.snd + b))
  {
    var w := TestAt(t).value;
    TestKeyword(t, b);
    DropBefore(t, b, w.snd);
    WordArgMore(')', t[w.snd..], b);
  }

  lemma ByteEqMore(c: Channel, s: string, b: string)
    requires PredByteEq(c, s).Some?
    ensures PredByteEq(c, s + b) == Some(Pair(PredByteEq(c, s).value.fst, PredByteEq(c, s).value.snd + b))
  {
    var t := SkipBlanks(s);
    var n := WordLength(t);
    WordArgMore(',', s, b);
    var rest := Eat(',', t[n..]).value;
    SkipMore(rest, b);
    IndexMore(FindField(c.fields, t[..n]).value, SkipBlanks(rest), b);
  }

  lemma IndexMore(f: FieldDecl, u: string, b: string)
    requires PredIndex(f, u).Some?
    ensures PredIndex(f, u + b) == Some(Pair(PredIndex(f, u).value.fst, PredIndex(f, u).value.snd + b))
  {
    var m := DigitLength(u);
    DigitMore(u, b);
    DropBefore(u, b, m);
    assert (u + b)[..m] == u[..m];
    EatMore(',', u[m..], b);
    var rest := Eat(',', u[m..]).value;
    SkipMore(rest, b);
    var v := SkipBlanks(rest);
    DropBefore(v, b, 3);
    EatMore(')', v[3..], b);
  }

  // ----- what the gate passes -----

  /** A name that is both a field and a derivation. */
  predicate Shared(c: Channel, name: string) {
    (forall i :: 0 <= i < |name| ==> IsWord(name[i])) &&
    FindField(c.fields, name).Some? && FindDerived(c.derived, name).Some?
  }

  /** No such name stands in the text. */
  ghost predicate Apart(c: Channel, s: string) {
    forall i, j :: 0 <= i <= j <= |s| ==> !Shared(c, s[i..j])
  }

  lemma ApartDrop(c: Channel, s: string, n: nat)
    requires Apart(c, s) && n <= |s|
    ensures Apart(c, s[n..])
  {
    forall i, j | 0 <= i <= j <= |s[n..]| ensures !Shared(c, s[n..][i..j]) {
      assert s[n..][i..j] == s[n + i..n + j];
    }
  }

  lemma ApartTake(c: Channel, s: string, n: nat)
    requires Apart(c, s) && n <= |s|
    ensures Apart(c, s[..n]) && !Shared(c, s[..n])
  {
    forall i, j | 0 <= i <= j <= |s[..n]| ensures !Shared(c, s[..n][i..j]) {
      assert s[..n][i..j] == s[i..j];
    }
    assert s[..n] == s[0..n];
  }

  lemma {:induction false} ApartSuffix(c: Channel, rest: string, s: string)
    requires Apart(c, s) && IsSuffix(rest, s)
    ensures Apart(c, rest)
  {
    if rest != s {
      ApartDrop(c, s, 1);
      ApartSuffix(c, rest, s[1..]);
    }
  }

  /** White space made blank makes no name. */
  lemma ApartBlanked(c: Channel, s: string)
    requires Apart(c, s)
    ensures Apart(c, Blanked(s))
  {
    var t := Blanked(s);
    forall i, j | 0 <= i <= j <= |t| ensures !Shared(c, t[i..j]) {
      if forall k :: 0 <= k < j - i ==> IsWord(t[i..j][k]) {
        forall k | 0 <= k < j - i ensures t[i..j][k] == s[i..j][k] { assert t[i..j][k] == t[i + k]; }
        assert t[i..j] == s[i..j];
      }
    }
  }

  /** A text for both: no name with two meanings, and no white space but blanks and quoted bytes. */
  ghost predicate Fine(c: Channel, s: string) { Quiet(s) && Apart(c, s) }

  lemma FineDrop(c: Channel, s: string, n: nat)
    requires Fine(c, s) && n <= |s| && (n > 0 ==> s[n - 1] != '\'')
    ensures Fine(c, s[n..])
  {
    ApartDrop(c, s, n);
    forall i | 0 <= i < |s[n..]| && OddSpace(s[n..][i]) ensures Quoted(s[n..], i) {
      assert s[n..][i] == s[n + i] && Quoted(s, n + i);
    }
  }

  lemma {:induction false} StripIsSkip(c: Channel, s: string)
    requires Fine(c, s)
    ensures LStrip(s) == SkipBlanks(s) && Fine(c, SkipBlanks(s))
  {
    if s != [] && IsBlank(s[0]) {
      FineDrop(c, s, 1);
      StripIsSkip(c, s[1..]);
    }
  }

  lemma {:induction false} WordStays(c: Channel, s: string)
    requires Fine(c, s)
    ensures !Shared(c, s[..WordLength(s)]) && Fine(c, s[WordLength(s)..])
  {
    ApartTake(c, s, WordLength(s));
    FineDrop(c, s, WordLength(s));
  }

  /** A property of the gate's is a field or a derivation, not both, with the same shape. */
  lemma {:induction false} PropIs(c: Channel, name: string)
    requires Named(c) && name in AllProps(c.fields, c.derived)
    requires FindField(c.fields, name).None? || FindDerived(c.derived, name).None?
    ensures FindField(c.fields, name).Some? != FindDerived(c.derived, name).Some?
    ensures var p := AllProps(c.fields, c.derived)[name];
            var f, k := FindField(c.fields, name), FindDerived(c.derived, name);
            if f.Some? then p == Prop(true, f.value.count > 0, f.value.count)
            else k.Some? && p == Prop(false, c.derived[k.value].expose == "str", 0)
  {
    PropFound(c, c.derived, name);
    var f := FindField(c.fields, name);
    if f.Some? { FieldProp(c, name); } else { DerivedProp(c, name); }
  }

  /** Parsed, leaving the same text, which is a text for both again. */
  ghost predicate Passed(c: Channel, r: PredRead, rest: string) {
    r.Some? && r.value.snd == rest && Fine(c, rest)
  }

  lemma {:induction false} BackOne(c: Channel, s: string)
    requires Named(c) && Fine(c, s) && GateOne(AllProps(c.fields, c.derived), s).snd == []
    ensures Passed(c, PredOne(c, s), GateOne(AllProps(c.fields, c.derived), s).fst)
    decreases |s|, 10
  {
    var t := SkipBlanks(s);
    StripIsSkip(c, s);
    if AlwaysAt(t) {
      FineDrop(c, t, 6);
    } else if NeverAt(t) {
      FineDrop(c, t, 5);
    } else if AllAt(t) || AnyAt(t) {
      FineDrop(c, t, 4);
      BackBoth(c, AllAt(t), t[4..]);
    } else {
      BackSimple(c, s, t);
    }
  }

  lemma {:induction false} BackSimple(c: Channel, s: string, t: string)
    requires Named(c) && Fine(c, t) && t == SkipBlanks(s) == LStrip(s)
    requires !AlwaysAt(t) && !NeverAt(t) && !AllAt(t) && !AnyAt(t) &&
             GateOne(AllProps(c.fields, c.derived), s).snd == []
    ensures Passed(c, PredOne(c, s), GateOne(AllProps(c.fields, c.derived), s).fst)
  {
    if ByteEqAt(t) {
      GateOfByteEq(AllProps(c.fields, c.derived), s);
      FineDrop(c, t, 8);
      BackByteEq(c, t[8..]);
    } else {
      var w := TestAt(t).value;
      assert t[w.snd - 1] == '(';
      FineDrop(c, t, w.snd);
      BackTest(c, w.fst, t[w.snd..]);
    }
  }

  lemma {:induction false} BackBoth(c: Channel, isAll: bool, s: string)
    requires Named(c) && Fine(c, s) && GateBoth(AllProps(c.fields, c.derived), s).snd == []
    ensures Passed(c, PredBoth(c, isAll, s), GateBoth(AllProps(c.fields, c.derived), s).fst)
    decreases |s|, 20
  {
    var a := GateArgs(AllProps(c.fields, c.derived), s);
    assert a.snd.snd == [];
    BackArgs(c, s);
    StripIsSkip(c, a.snd.fst);
    FineDrop(c, SkipBlanks(a.snd.fst), 1);
  }

  lemma {:induction false} BackArgs(c: Channel, s: string)
    requires Named(c) && Fine(c, s) && GateArgs(AllProps(c.fields, c.derived), s).snd.snd == []
    ensures var r, g := PredArgs(c, s), GateArgs(AllProps(c.fields, c.derived), s);
            r.Some? && |r.value.fst| == g.fst && r.value.snd == g.snd.fst && Fine(c, g.snd.fst)
    decreases |s|, 15
  {
    var props := AllProps(c.fields, c.derived);
    assert GateOne(props, s).snd == [];
    BackOne(c, s);
    var rest := PredOne(c, s).value.snd;
    StripIsSkip(c, rest);
    var t := LStrip(rest);
    if CharAt(t, 0, ',') {
      FineDrop(c, t, 1);
      BackArgs(c, t[1..]);
    }
  }

  lemma BackTest(c: Channel, test: Test, s: string)
    requires Named(c) && Fine(c, s)
    requires var m := WordThen(')', s); m.Some? && GateTest(AllProps(c.fields, c.derived), test, m.value.fst) == []
    ensures Passed(c, PredTest(c, test, s), WordThen(')', s).value.snd)
  {
    StripIsSkip(c, s);
    var t := SkipBlanks(s);
    WordStays(c, t);
    StripIsSkip(c, t[WordLength(t)..]);
    PropIs(c, t[..WordLength(t)]);
    FineDrop(c, SkipBlanks(t[WordLength(t)..]), 1);
  }

  lemma BackByteEq(c: Channel, s: string)
    requires Named(c) && Fine(c, s)
    requires var m := ByteEqMatch(s);
             m.Some? && GateByte(AllProps(c.fields, c.derived), m.value.fst.fst, Value(10, m.value.fst.snd)) == []
    ensures Passed(c, PredByteEq(c, s), ByteEqMatch(s).value.snd)
  {
    StripIsSkip(c, s);
    var t := SkipBlanks(s);
    var n := WordLength(t);
    WordStays(c, t);
    StripIsSkip(c, t[n..]);
    PropIs(c, t[..n]);
    var u := SkipBlanks(t[n..]);
    FineDrop(c, u, 1);
    StripIsSkip(c, u[1..]);
    BackIndex(c, FindField(c.fields, t[..n]).value, u[1..]);
  }

  lemma {:induction false} BackIndex(c: Channel, f: FieldDecl, s: string)
    requires Fine(c, s)
    requires var d := DigitsThen(',', s); d.Some? && Value(10, d.value.fst) < f.count && QuotedThen(d.value.snd).Some?
    ensures Passed(c, PredIndex(f, SkipBlanks(s)), QuotedThen(DigitsThen(',', s).value.snd).value)
  {
    StripIsSkip(c, s);
    var u := SkipBlanks(s);
    var m := DigitLength(u);
    FineDrop(c, u, m);
    StripIsSkip(c, u[m..]);
    var rest := SkipBlanks(u[m..]);
    FineDrop(c, rest, 1);
    StripIsSkip(c, rest[1..]);
    BackChar(c, f.name, Value(10, u[..m]), rest[1..]);
  }

  lemma {:induction false} BackChar(c: Channel, field: string, index: nat, s: string)
    requires Fine(c, s) && QuotedThen(s).Some?
    ensures Passed(c, PredChar(field, index, SkipBlanks(s)), QuotedThen(s).value)
  {
    StripIsSkip(c, s);
    var v := SkipBlanks(s);
    var after := v[3..];
    QuoteAfter(v);
    ClosesFinely(c, v, after);
  }

  /** White space that only counts as quoted is followed by a quote. */
  lemma {:induction false} QuoteAfter(v: string)
    requires Quiet(v)
    ensures |v| > 3 && OddSpace(v[3]) ==> !CharAt(LStrip(v[3..]), 0, ')')
  {
    if |v| > 3 && OddSpace(v[3]) {
      assert Quoted(v, 3);
      assert v[3..][1..][0] == v[4] && LStrip(v[3..]) == v[3..][1..];
    }
  }

  /** After the closing quote comes no white space but blanks, so the gate skips what the generator does. */
  lemma {:induction false} ClosesFinely(c: Channel, v: string, after: string)
    requires Fine(c, v) && |v| >= 3 && after == v[3..] && (after == [] || !OddSpace(after[0]))
    requires CharAt(LStrip(after), 0, ')')
    ensures LStrip(after) == SkipBlanks(after) && Fine(c, LStrip(after)[1..])
  {
    ApartDrop(c, v, 3);
    forall i | 0 <= i < |after| && OddSpace(after[i]) ensures Quoted(after, i) {
      assert after[i] == v[3 + i] && Quoted(v, 3 + i);
    }
    StripIsSkip(c, after);
    FineDrop(c, LStrip(after), 1);
  }

  // ----- one grammar -----

  lemma {:induction false} StripKeeps(s: string)
    ensures AllSpace(s[|RStrip(s)|..])
  {
    if s != [] && IsSpace(s[|s| - 1]) {
      var t, n := s[..|s| - 1], |RStrip(s)|;
      StripKeeps(t);
      assert s[n..] == t[n..] + [s[|s| - 1]];
    }
  }

  lemma {:induction false} SkipJoined(a: string, b: string)
    requires SkipBlanks(a) == [] && SkipBlanks(b) == []
    ensures SkipBlanks(a + b) == []
  {
    if a == [] {
      assert a + b == b;
    } else {
      assert (a + b)[1..] == a[1..] + b;
      SkipJoined(a[1..], b);
    }
  }

  lemma {:induction false} AllSpaceStrips(s: string)
    requires AllSpace(s)
    ensures LStrip(s) == []
  {
    if s != [] {
      assert forall i :: 0 <= i < |s| - 1 ==> s[1..][i] == s[i + 1];
      AllSpaceStrips(s[1..]);
    }
  }

  lemma {:induction false} OnlySpace(s: string)
    requires Strip(s) == []
    ensures AllSpace(s)
  {
    if s != [] && IsSpace(s[0]) {
      OnlySpace(s[1..]);
      assert forall i :: 1 <= i < |s| ==> s[i] == s[1..][i - 1];
    } else {
      StripKeeps(s);
      assert s[0..] == s;
    }
  }

  lemma {:induction false} SuffixEnd(rest: string, s: string)
    requires IsSuffix(rest, s) && rest != []
    ensures s != [] && rest[|rest| - 1] == s[|s| - 1]
  {
    if rest != s { SuffixEnd(rest, s[1..]); }
  }

  /** What stripping takes off the end of a text for both is blanks. */
  lemma {:induction false} FineEnd(c: Channel, u: string)
    requires Fine(c, u)
    ensures Fine(c, RStrip(u)) && SkipBlanks(u[|RStrip(u)|..]) == []
  {
    var t := RStrip(u);
    var b := u[|t|..];
    StripKeeps(u);
    assert t == u[..|t|];
    ApartTake(c, u, |t|);
    forall i | 0 <= i < |t| && OddSpace(t[i]) ensures Quoted(t, i) { assert t[i] == u[i] && Quoted(u, i); }
    SpaceEnd(u, |t|);
    BlanksSkip(b);
  }

  lemma SpaceEnd(u: string, n: nat)
    requires Quiet(u) && n <= |u| && AllSpace(u[n..])
    ensures forall i :: 0 <= i < |u[n..]| ==> IsBlank(u[n..][i])
  {
    forall i | n <= i < |u| ensures IsSpace(u[i]) && !Quoted(u, i) {
      assert u[n..][i - n] == u[i];
      if i + 1 < |u| { assert u[n..][i + 1 - n] == u[i + 1]; }
    }
  }

  lemma {:induction false} BlanksSkip(b: string)
    requires forall i :: 0 <= i < |b| ==> IsBlank(b[i])
    ensures SkipBlanks(b) == []
  {
    if b != [] { BlanksSkip(b[1..]); }
  }

  lemma {:induction false} PassedIsGenerated(c: Channel, text: string)
    requires Named(c) && Fine(c, text) && !(REFUSAL <= Strip(text))
    requires GateRule(AllProps(c.fields, c.derived), text) == []
    ensures ParsePred(c, text).Some?
  {
    var u, t := SkipBlanks(text), Strip(text);
    StripIsSkip(c, text);
    FineEnd(c, u);
    var g := GateOne(AllProps(c.fields, c.derived), t);
    assert g.snd == [] && Strip(g.fst) == [];
    BackOne(c, t);
    OneEnds(c, t);
    EndsSuffix(g.fst, t);
    OnlySpace(g.fst);
    if g.fst != [] { SuffixEnd(g.fst, t); }
    assert g.fst == [];
    var b := u[|t|..];
    assert u == t + b;
    OneMore(c, t, b);
    SkipTwice(c, text);
    SkipJoined(g.fst, b);
    NotARefusal(c, text);
  }

  lemma {:induction false} NotARefusal(c: Channel, text: string)
    requires PredOne(c, text).Some?
    ensures !(REFUSAL <= text)
  {
    KeywordFirst(c, text);
    assert REFUSAL[0] == 'u';
  }

  /** Where no name has two meanings, nothing the generator accepts is shadowed. */
  lemma {:induction false} ApartOne(c: Channel, s: string)
    requires Apart(c, s) && PredOne(c, s).Some?
    ensures Unshadowed(c, PredOne(c, s).value.fst)
    decreases |s|, 10
  {
    var t := SkipBlanks(s);
    SkipIsSuffix(s);
    ApartSuffix(c, t, s);
    if !AlwaysAt(t) && !NeverAt(t) {
      if AllAt(t) || AnyAt(t) {
        ApartDrop(c, t, 4);
        ApartArgs(c, t[4..]);
      } else if ByteEqAt(t) {
        ApartDrop(c, t, 8);
        ApartByte(c, t[8..]);
      }
    }
  }

  lemma {:induction false} ApartArgs(c: Channel, s: string)
    requires Apart(c, s) && PredArgs(c, s).Some?
    ensures AllUnshadowed(c, PredArgs(c, s).value.fst)
    decreases |s|, 15
  {
    ApartOne(c, s);
    var p, rest := PredOne(c, s).value.fst, PredOne(c, s).value.snd;
    if Eat(',', rest).Some? {
      var rest1 := Eat(',', rest).value;
      OneEnds(c, s);
      EndsSuffix(rest, s);
      EatIsSuffix(',', rest);
      SuffixTransitive(rest1, rest, s);
      ApartSuffix(c, rest1, s);
      ApartArgs(c, rest1);
      assert ([p] + PredArgs(c, rest1).value.fst)[1..] == PredArgs(c, rest1).value.fst;
    } else {
      assert [p][1..] == [];
    }
  }

  lemma {:induction false} ApartByte(c: Channel, s: string)
    requires Apart(c, s) && PredByteEq(c, s).Some?
    ensures Unshadowed(c, PredByteEq(c, s).value.fst)
  {
    var t := SkipBlanks(s);
    SkipIsSuffix(s);
    ApartSuffix(c, t, s);
    ApartTake(c, t, WordLength(t));
  }

  /** What each side asks of a text that is no refusal: the gate, that it is a predicate once its white
      space is blank and compares no byte with a newline; the generator, that it is one as it stands. */
  lemma {:induction false} SamePredicates(c: Channel, text: string)
    requires Named(c) && Apart(c, text) && !(REFUSAL <= Strip(text))
    ensures var r := ParsePred(c, Blanked(text));
            && (r.Some? ==> r.value.Stated?)
            && (GateRule(AllProps(c.fields, c.derived), text) == [] <==> r.Some? && OneLine(r.value.p))
            && (ParsePred(c, text).Some? <==> r.Some? && text == Blanked(text))
  {
    var t := Blanked(text);
    BlankedIsQuiet(text);
    ApartBlanked(c, text);
    GateSeesBlanks(AllProps(c.fields, c.derived), text);
    NoRefusal(c, t);
    NoRefusal(c, text);
    if ParsePred(c, t).Some? {
      ApartOne(c, t);
      GeneratedPasses(c, t, PredOne(c, t).value.fst);
    }
    if GateRule(AllProps(c.fields, c.derived), t) == [] { PassedIsGenerated(c, t); }
    if ParsePred(c, text).Some? { AcceptedIsQuiet(c, text); }
  }

  /** A refusal stays one when stripped. */
  lemma NoRefusal(c: Channel, text: string)
    requires !(REFUSAL <= Strip(text))
    ensures ParsePred(c, text).Some? ==> ParsePred(c, text).value.Stated?
  {
    RefusalStripped(text);
  }

  lemma {:induction false} RefusalStripped(text: string)
    ensures REFUSAL <= text && text[|text| - 1] == ')' ==> Strip(text) == text
  {
    if REFUSAL <= text { assert text[0] == REFUSAL[0] == 'u'; }
  }

  // ----- names with two meanings -----

  lemma VisibleIsApart(c: Channel, s: string)
    ensures Apart(Visible(c), s)
  {
    var v := Visible(c);
    forall i, j | 0 <= i <= j <= |s| ensures !Shared(v, s[i..j]) {
      var f := FindField(v.fields, s[i..j]);
      if f.Some? { assert f.value in v.fields; }
    }
  }

  /** On every text that is no refusal the gate is the generator's parser, for the channel without its
      shadowed fields and the text with its white space made blank, except that it takes no newline as a
      byte. */
  lemma {:induction false} GateIsGenerator(c: Channel, text: string)
    requires Named(c) && !(REFUSAL <= Strip(text))
    ensures var r := ParsePred(Visible(c), Blanked(text));
            && (r.Some? ==> r.value.Stated?)
            && (GateRule(AllProps(c.fields, c.derived), text) == [] <==> r.Some? && OneLine(r.value.p))
  {
    VisibleIsNamed(c);
    VisibleIsApart(c, text);
    SameProps(c);
    SamePredicates(Visible(c), text);
  }

  // ----- refusals -----

  predicate Closed(t: string) { REFUSAL <= t && t[|t| - 1] == ')' }

  lemma {:induction false} SkippedFirst(s: string)
    ensures LStrip(SkipBlanks(s)) == LStrip(s)
  {
    if s != [] && IsBlank(s[0]) { SkippedFirst(s[1..]); }
  }

  /** What each side asks of a text that is a refusal once stripped: the generator strips nothing. */
  lemma {:induction false} SameRefusals(c: Channel, text: string)
    requires REFUSAL <= Strip(text)
    ensures ParsePred(c, text).Some? <==> text == Strip(text) && Closed(text) && |Reason(text)| >= 20
    ensures GateRule(AllProps(c.fields, c.derived), text) == [] <==>
            Closed(Strip(text)) && |Strip(Reason(Strip(text)))| >= 20
  {
    var t := Strip(text);
    assert t[0] == REFUSAL[0] == 'u';
    if REFUSAL <= text {
      assert text[0] == REFUSAL[0];
      assert LStrip(text) == text;
      assert text[|text| - 1] == ')' ==> t == text;
    } else {
      assert text != t;
      SkippedFirst(text);
      if PredOne(c, text).Some? { KeywordFirst(c, text); }
    }
  }

  /** The two sides part on a refusal with white space around it whose reason is long enough, and on one
      without whose reason is long enough only with its own. */
  predicate OddRefusal(text: string) {
    var t := Strip(text);
    Closed(t) && if text == t then |Strip(Reason(t))| < 20 <= |Reason(t)| else |Strip(Reason(t))| >= 20
  }

  /** And on a predicate that has white space other than blanks or compares a byte with a newline, but not
      both. */
  ghost predicate OddPredicate(c: Channel, text: string) {
    var r := ParsePred(c, Blanked(text));
    r.Some? && r.value.Stated? && (text == Blanked(text)) != OneLine(r.value.p)
  }

  /** For every text that names no property with two meanings: gate and generator agree exactly when it is
      neither an odd refusal nor an odd predicate. */
  lemma {:induction false} SameGrammar(c: Channel, text: string)
    requires Named(c) && Apart(c, text)
    ensures (GateRule(AllProps(c.fields, c.derived), text) == [] <==> ParsePred(c, text).Some?) <==>
            if REFUSAL <= Strip(text) then !OddRefusal(text) else !OddPredicate(c, text)
  {
    if REFUSAL <= Strip(text) {
      SameRefusals(c, text);
      if Closed(Strip(text)) { StripShorter(Reason(Strip(text))); }
    } else {
      SamePredicates(c, text);
    }
  }

  lemma StripShorter(reason: string)
    ensures |Strip(reason)| <= |reason|
  {
  }

  // ----- the inputs at which they part -----

  function Filled(ch: char): (s: string)
    ensures |s| == 20 && forall i :: 0 <= i < |s| ==> s[i] == ch
  {
    seq(20, i => ch)
  }

  /** A reason of twenty blanks is long enough for the generator and none for the gate. */
  lemma BlankReason(c: Channel)
    ensures var text := REFUSAL + Filled(' ') + ")";
            ParsePred(c, text) == Some(Unexpressible) && GateRule(AllProps(c.fields, c.derived), text) != []
  {
    var text := REFUSAL + Filled(' ') + ")";
    assert |REFUSAL| == 14 && |text| == 35 && REFUSAL <= text && text[34] == ')';
    RefusalPasses(c, text);
    assert Reason(text) == Filled(' ');
    AllSpaceStrips(Filled(' '));
  }

  lemma {:induction false} Indented(t: string)
    requires t != [] && !IsSpace(t[0]) && !IsSpace(t[|t| - 1])
    ensures Strip([' '] + ([' '] + t)) == t && SkipBlanks([' '] + ([' '] + t)) == t
  {
    var u := [' '] + t;
    var text := [' '] + u;
    assert text[1..] == u && u[1..] == t;
    assert LStrip(t) == t && LStrip(u) == LStrip(t) && LStrip(text) == LStrip(u);
    assert SkipBlanks(t) == t && SkipBlanks(u) == SkipBlanks(t) && SkipBlanks(text) == SkipBlanks(u);
  }

  /** Two blanks before a refusal with a reason pass the gate, and the generator refuses them. */
  lemma BlanksBefore(c: Channel)
    ensures var text := [' '] + ([' '] + (REFUSAL + Filled('x') + ")"));
            GateRule(AllProps(c.fields, c.derived), text) == [] && ParsePred(c, text) == None
  {
    var t := REFUSAL + Filled('x') + ")";
    var text := [' '] + ([' '] + t);
    assert |REFUSAL| == 14 && |t| == 35 && REFUSAL <= t && t[34] == ')' && t[0] == REFUSAL[0] == 'u';
    Indented(t);
    assert Reason(t) == Filled('x');
    assert text[0] == ' ' && !(REFUSAL <= text);
    if PredOne(c, text).Some? { KeywordFirst(c, text); }
  }

  /** A byte array and a derivation of the same name. */
  function Shadowing(id: string): Channel {
    Channel(id, [FieldDecl("raw", RecordLayout.UnsignedChar, 64)], [DerivedDecl("raw", "str")])
  }

  lemma ShadowingIsNamed(id: string)
    ensures Named(Shadowing(id)) && !Unshadowed(Shadowing(id), ByteEq("raw", 0, 'x'))
  {
    assert FindDerived(Shadowing(id).derived, "raw") == Some(0);
  }

  /** A byte comparison in a field that a derivation shadows is generated, and the gate complains of it. */
  lemma ShadowedByte(id: string)
    ensures ParsePred(Shadowing(id), ByteEqText("raw", 'x')) == Some(Stated(ByteEq("raw", 0, 'x')))
    ensures GateRule(AllProps(Shadowing(id).fields, Shadowing(id).derived), ByteEqText("raw", 'x')) != []
  {
    ByteEqAlone(Shadowing(id), Shadowing(id).fields[0], 'x');
    ShadowingIsNamed(id);
    GeneratedPasses(Shadowing(id), ByteEqText("raw", 'x'), ByteEq("raw", 0, 'x'));
  }

  lemma {:induction false} AlwaysReads(props: Props)
    ensures Strip("always") == "always" && GateRule(props, "always") == []
  {
    var s := "always";
    assert s[0] == 'a' && s[5] == 's' && AlwaysAt(s) && s[6..] == "";
    assert REFUSAL[0] == 'u' && Strip("") == "";
  }

  lemma {:induction false} NewlineStrips(s: string)
    ensures Strip(['\n'] + s) == Strip(s)
  {
    assert (['\n'] + s)[1..] == s;
  }

  lemma SameWhenStripped(props: Props, s: string, t: string)
    requires Strip(s) == Strip(t)
    ensures GateRule(props, s) == GateRule(props, t)
  {
  }

  /** A newline before `always` passes the gate, and the generator refuses it. */
  lemma {:induction false} NewlineBefore(c: Channel)
    ensures var text := ['\n'] + "always";
            GateRule(AllProps(c.fields, c.derived), text) == [] && ParsePred(c, text) == None
  {
    var text := ['\n'] + "always";
    AlwaysReads(AllProps(c.fields, c.derived));
    NewlineStrips("always");
    SameWhenStripped(AllProps(c.fields, c.derived), text, "always");
    assert text[0] == '\n' && REFUSAL[0] == 'u';
    if PredOne(c, text).Some? { KeywordFirst(c, text); }
  }

  /** A byte comparison with a newline is generated, and the gate complains of it. */
  lemma {:induction false} NewlineByte(id: string)
    ensures var c := Channel(id, [FieldDecl("raw", RecordLayout.UnsignedChar, 64)], []);
            ParsePred(c, ByteEqText("raw", '\n')) == Some(Stated(ByteEq("raw", 0, '\n'))) &&
            GateRule(AllProps(c.fields, c.derived), ByteEqText("raw", '\n')) != []
  {
    var f := FieldDecl("raw", RecordLayout.UnsignedChar, 64);
    var c := Channel(id, [f], []);
    ByteEqAlone(c, f, '\n');
    GeneratedPasses(c, ByteEqText("raw", '\n'), ByteEq("raw", 0, '\n'));
  }
}
