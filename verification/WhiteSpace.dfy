/**
 White space that is no blank. The reader gate skips any of it, the generator only blanks.

 The gate reads a text as it reads the same text with such white space made blank, and what
 the generator accepts has none, but for a byte between its quotes.
 */
module WhiteSpace {
  import opened Common
  import opened TextScan
  import opened IntExpr
  import opened Predicates
  import opened ReaderGate

  predicate OddSpace(ch: char) { IsSpace(ch) && !IsBlank(ch) }

  predicate Quoted(s: string, i: nat) {
    0 < i && i + 1 < |s| && s[i - 1] == '\'' && s[i + 1] == '\''
  }

  /** The text with its white space made blank, a byte between quotes excepted. */
  function Blanked(s: string): (t: string)
    ensures |t| == |s|
  {
    seq(|s|, i requires 0 <= i < |s| => if OddSpace(s[i]) && !Quoted(s, i) then ' ' else s[i])
  }

  /** Nothing to make blank. */
  ghost predicate Quiet(s: string) {
    forall i :: 0 <= i < |s| && OddSpace(s[i]) ==> Quoted(s, i)
  }

  lemma BlankedIsQuiet(s: string)
    ensures Quiet(Blanked(s)) && (Quiet(s) <==> Blanked(s) == s)
  {
    var t := Blanked(s);
    forall i | 0 <= i < |t| && OddSpace(t[i]) ensures Quoted(t, i) {
      assert Quoted(s, i) && t[i - 1] == s[i - 1] && t[i + 1] == s[i + 1];
    }
    if t == s {
      forall i | 0 <= i < |s| && OddSpace(s[i]) ensures Quoted(s, i) { assert t[i] == s[i]; }
    }
  }

  // ----- the gate does not tell them apart -----

  /** Equal but for white space outside quotes that the second has as a blank. */
  ghost predicate Alike(s: string, t: string) {
    |s| == |t| && forall i :: 0 <= i < |s| ==> s[i] == t[i] || (OddSpace(s[i]) && t[i] == ' ' && !Quoted(s, i))
  }

  lemma BlankedIsAlike(s: string)
    ensures Alike(s, Blanked(s))
  {
  }

  lemma AlikeDrop(s: string, t: string, n: nat)
    requires Alike(s, t) && n <= |s|
    ensures Alike(s[n..], t[n..])
  {
    var u, v := s[n..], t[n..];
    forall i | 0 <= i < |u| ensures u[i] == v[i] || (OddSpace(u[i]) && v[i] == ' ' && !Quoted(u, i)) {
      assert u[i] == s[n + i] && v[i] == t[n + i];
      if Quoted(u, i) { assert Quoted(s, n + i); }
    }
  }

  lemma AlikeTake(s: string, t: string, n: nat)
    requires Alike(s, t) && n <= |s|
    ensures Alike(s[..n], t[..n])
  {
    var u, v := s[..n], t[..n];
    forall i | 0 <= i < |u| ensures u[i] == v[i] || (OddSpace(u[i]) && v[i] == ' ' && !Quoted(u, i)) {
      assert u[i] == s[i] && v[i] == t[i];
      if Quoted(u, i) { assert Quoted(s, i); }
    }
  }

  lemma {:induction false} AlikeLStrip(s: string, t: string)
    requires Alike(s, t)
    ensures Alike(LStrip(s), LStrip(t))
    decreases |s|
  {
    if s != [] && IsSpace(s[0]) {
      AlikeDrop(s, t, 1);
      AlikeLStrip(s[1..], t[1..]);
    }
  }

  lemma {:induction false} AlikeRStrip(s: string, t: string)
    requires Alike(s, t)
    ensures Alike(RStrip(s), RStrip(t))
    decreases |s|
  {
    if s != [] && IsSpace(s[|s| - 1]) {
      AlikeTake(s, t, |s| - 1);
      AlikeRStrip(s[..|s| - 1], t[..|s| - 1]);
    }
  }

  lemma AlikeStrip(s: string, t: string)
    requires Alike(s, t)
    ensures Alike(Strip(s), Strip(t))
  {
    AlikeLStrip(s, t);
    AlikeRStrip(LStrip(s), LStrip(t));
  }

  lemma AlikeAt(s: string, t: string)
    requires Alike(s, t)
    ensures forall i: nat, ch :: !IsSpace(ch) ==> CharAt(s, i, ch) == CharAt(t, i, ch)
  {
  }

  lemma AlikeForm(s: string, t: string)
    requires Alike(s, t)
    ensures AlwaysAt(s) == AlwaysAt(t) && NeverAt(s) == NeverAt(t) && AllAt(s) == AllAt(t) && AnyAt(s) == AnyAt(t)
    ensures ByteEqAt(s) == ByteEqAt(t) && TestAt(s) == TestAt(t)
  {
    AlikeAt(s, t);
  }

  lemma {:induction false} AlikeWord(s: string, t: string)
    requires Alike(s, t)
    ensures WordLength(s) == WordLength(t) && s[..WordLength(s)] == t[..WordLength(s)]
    decreases |s|
  {
    if s != [] && IsWord(s[0]) {
      AlikeDrop(s, t, 1);
      AlikeWord(s[1..], t[1..]);
    }
  }

  lemma {:induction false} AlikeDigits(s: string, t: string)
    requires Alike(s, t)
    ensures DigitLength(s) == DigitLength(t) && s[..DigitLength(s)] == t[..DigitLength(s)]
    decreases |s|
  {
    if s != [] && IsDigit(s[0]) {
      AlikeDrop(s, t, 1);
      AlikeDigits(s[1..], t[1..]);
    }
  }

  /** Two matches with the same group and alike rests. */
  ghost predicate AlikeMatch<T(!new)>(a: Option<Pair<T, string>>, b: Option<Pair<T, string>>) {
    a.Some? == b.Some? && (a.Some? ==> a.value.fst == b.value.fst && Alike(a.value.snd, b.value.snd))
  }

  lemma AlikeWordThen(ch: char, s: string, t: string)
    requires Alike(s, t) && !IsSpace(ch)
    ensures AlikeMatch(WordThen(ch, s), WordThen(ch, t))
  {
    AlikeLStrip(s, t);
    var u, v := LStrip(s), LStrip(t);
    AlikeWord(u, v);
    AlikeGroup(ch, u, v, WordLength(u));
  }

  lemma AlikeDigitsThen(ch: char, s: string, t: string)
    requires Alike(s, t) && !IsSpace(ch)
    ensures AlikeMatch(DigitsThen(ch, s), DigitsThen(ch, t))
  {
    AlikeLStrip(s, t);
    var u, v := LStrip(s), LStrip(t);
    AlikeDigits(u, v);
    AlikeGroup(ch, u, v, DigitLength(u));
  }

  /** What follows a group: white space and one character. */
  lemma AlikeGroup(ch: char, u: string, v: string, n: nat)
    requires Alike(u, v) && n <= |u| && !IsSpace(ch)
    ensures var x, y := LStrip(u[n..]), LStrip(v[n..]);
            CharAt(x, 0, ch) == CharAt(y, 0, ch) && (CharAt(x, 0, ch) ==> Alike(x[1..], y[1..]))
  {
    AlikeDrop(u, v, n);
    AlikeLStrip(u[n..], v[n..]);
    var x, y := LStrip(u[n..]), LStrip(v[n..]);
    AlikeAt(x, y);
    if CharAt(x, 0, ch) { AlikeDrop(x, y, 1); }
  }

  lemma AlikeQuotedThen(s: string, t: string)
    requires Alike(s, t)
    ensures QuotedThen(s).Some? == QuotedThen(t).Some?
    ensures QuotedThen(s).Some? ==> Alike(QuotedThen(s).value, QuotedThen(t).value)
  {
    AlikeLStrip(s, t);
    var u, v := LStrip(s), LStrip(t);
    AlikeAt(u, v);
    assert CharAt(u, 0, '\'') == CharAt(v, 0, '\'') && CharAt(u, 2, '\'') == CharAt(v, 2, '\'');
    if |u| >= 3 && u[0] == '\'' && u[2] == '\'' {
      assert Quoted(u, 1) && u[1] == v[1];
      AlikeGroup(')', u, v, 3);
    }
  }

  lemma AlikeByteEq(s: string, t: string)
    requires Alike(s, t)
    ensures AlikeMatch(ByteEqMatch(s), ByteEqMatch(t))
  {
    AlikeWordThen(',', s, t);
    var w, x := WordThen(',', s), WordThen(',', t);
    if w.Some? {
      AlikeDigitsThen(',', w.value.snd, x.value.snd);
      var d, e := DigitsThen(',', w.value.snd), DigitsThen(',', x.value.snd);
      if d.Some? { AlikeQuotedThen(d.value.snd, e.value.snd); }
    }
  }

  ghost predicate AlikeRead(a: GateRead, b: GateRead) {
    a.snd == b.snd && Alike(a.fst, b.fst)
  }

  lemma {:induction false} AlikeOne(props: Props, s: string, t: string)
    requires Alike(s, t)
    ensures AlikeRead(GateOne(props, s), GateOne(props, t))
    decreases |s|, 0
  {
    AlikeLStrip(s, t);
    var u, v := LStrip(s), LStrip(t);
    AlikeForm(u, v);
    if AlwaysAt(u) {
      AlikeDrop(u, v, 6);
    } else if NeverAt(u) {
      AlikeDrop(u, v, 5);
    } else if AllAt(u) || AnyAt(u) {
      AlikeDrop(u, v, 4);
      AlikeBoth(props, u[4..], v[4..]);
    } else {
      AlikeSimple(props, s, t);
    }
  }

  lemma {:induction false} AlikeSimple(props: Props, s: string, t: string)
    requires Alike(LStrip(s), LStrip(t))
    requires var u := LStrip(s); !AlwaysAt(u) && !NeverAt(u) && !AllAt(u) && !AnyAt(u)
    ensures AlikeRead(GateOne(props, s), GateOne(props, t))
  {
    var u, v := LStrip(s), LStrip(t);
    AlikeForm(u, v);
    if ByteEqAt(u) {
      AlikeDrop(u, v, 8);
      AlikeByteEq(u[8..], v[8..]);
    }
    if TestAt(u).Some? {
      var n := TestAt(u).value.snd;
      AlikeDrop(u, v, n);
      AlikeWordThen(')', u[n..], v[n..]);
    }
  }

  lemma {:induction false} AlikeBoth(props: Props, s: string, t: string)
    requires Alike(s, t)
    ensures AlikeRead(GateBoth(props, s), GateBoth(props, t))
    decreases |s|, 10
  {
    AlikeArgs(props, s, t);
    var x, y := GateArgs(props, s).snd.fst, GateArgs(props, t).snd.fst;
    assert x[0..] == x && y[0..] == y;
    AlikeGroup(')', x, y, 0);
  }

  lemma {:induction false} AlikeArgs(props: Props, s: string, t: string)
    requires Alike(s, t)
    ensures GateArgs(props, s).fst == GateArgs(props, t).fst
    ensures AlikeRead(GateArgs(props, s).snd, GateArgs(props, t).snd)
    decreases |s|, 5
  {
    AlikeOne(props, s, t);
    var p, q := GateOne(props, s), GateOne(props, t);
    assert p.fst[0..] == p.fst && q.fst[0..] == q.fst;
    AlikeGroup(',', p.fst, q.fst, 0);
    AlikeLStrip(p.fst, q.fst);
    var u, v := LStrip(p.fst), LStrip(q.fst);
    if CharAt(u, 0, ',') { AlikeArgs(props, u[1..], v[1..]); }
  }

  lemma AlikeRefusal(s: string, t: string)
    requires Alike(s, t)
    ensures REFUSAL <= s <==> REFUSAL <= t
  {
    forall i | 0 <= i < |REFUSAL| && i < |s| ensures REFUSAL[i] == s[i] <==> REFUSAL[i] == t[i] {
      assert !IsSpace(REFUSAL[i]);
    }
  }

  /** A predicate draws the same complaints with its white space made blank. */
  lemma {:induction false} GateSeesBlanks(props: Props, text: string)
    requires !(REFUSAL <= Strip(text))
    ensures !(REFUSAL <= Strip(Blanked(text))) && GateRule(props, Blanked(text)) == GateRule(props, text)
  {
    BlankedIsAlike(text);
    var s, t := Strip(text), Strip(Blanked(text));
    AlikeStrip(text, Blanked(text));
    AlikeRefusal(s, t);
    if s != [] {
      AlikeOne(props, s, t);
      AlikeStrip(GateOne(props, s).fst, GateOne(props, t).fst);
    }
  }

  // ----- the generator takes none -----

  lemma QuietJoin(a: string, b: string)
    requires Quiet(a) && Quiet(b)
    ensures Quiet(a + b)
  {
    var s := a + b;
    forall i | 0 <= i < |s| && OddSpace(s[i]) ensures Quoted(s, i) {
      if i < |a| { assert Quoted(a, i); } else { assert s[i] == b[i - |a|] && Quoted(b, i - |a|); }
    }
  }

  /** What stands before the rest is quiet. */
  ghost predicate TookQuietly(s: string, rest: string) {
    exists a :: s == a + rest && Quiet(a)
  }

  lemma TookBoth(s: string, t: string, rest: string)
    requires TookQuietly(s, t) && TookQuietly(t, rest)
    ensures TookQuietly(s, rest)
  {
    var a :| s == a + t && Quiet(a);
    var b :| t == b + rest && Quiet(b);
    QuietJoin(a, b);
    assert s == (a + b) + rest;
  }

  lemma TookSome(s: string, n: nat)
    requires n <= |s| && forall i :: 0 <= i < n ==> !OddSpace(s[i])
    ensures TookQuietly(s, s[n..])
  {
    assert s == s[..n] + s[n..] && Quiet(s[..n]);
  }

  lemma {:induction false} TookBlanks(s: string)
    ensures TookQuietly(s, SkipBlanks(s))
  {
    if s != [] && IsBlank(s[0]) {
      TookBlanks(s[1..]);
      TookSome(s, 1);
      TookBoth(s, s[1..], SkipBlanks(s));
    } else {
      TookSome(s, 0);
      assert s[0..] == s;
    }
  }

  lemma TookEat(ch: char, s: string)
    requires Eat(ch, s).Some? && !IsSpace(ch)
    ensures TookQuietly(s, Eat(ch, s).value)
  {
    TookBlanks(s);
    TookSome(SkipBlanks(s), 1);
    TookBoth(s, SkipBlanks(s), Eat(ch, s).value);
  }

  /** Some characters and then, past blanks, one more. */
  lemma TookThen(ch: char, s: string, n: nat)
    requires n <= |s| && (forall i :: 0 <= i < n ==> !OddSpace(s[i])) && Eat(ch, s[n..]).Some? && !IsSpace(ch)
    ensures TookQuietly(s, Eat(ch, s[n..]).value)
  {
    TookSome(s, n);
    TookEat(ch, s[n..]);
    TookBoth(s, s[n..], Eat(ch, s[n..]).value);
  }

  lemma {:induction false} TookChar(field: string, index: nat, s: string)
    requires PredChar(field, index, s).Some?
    ensures TookQuietly(s, PredChar(field, index, s).value.snd)
  {
    assert s == s[..3] + s[3..] && Quiet(s[..3]) by { assert !OddSpace(s[0]) && !OddSpace(s[2]) && Quoted(s[..3], 1); }
    TookEat(')', s[3..]);
    TookBoth(s, s[3..], Eat(')', s[3..]).value);
  }

  lemma {:induction false} TookByteEq(c: Channel, s: string)
    requires PredByteEq(c, s).Some?
    ensures TookQuietly(s, PredByteEq(c, s).value.snd)
  {
    var t := SkipBlanks(s);
    var n := WordLength(t);
    var f := FindField(c.fields, t[..n]).value;
    TookBlanks(s);
    TookThen(',', t, n);
    var rest := Eat(',', t[n..]).value;
    TookBoth(s, t, rest);
    TookBlanks(rest);
    TookBoth(s, rest, SkipBlanks(rest));
    TookIndex(f, SkipBlanks(rest));
    TookBoth(s, SkipBlanks(rest), PredByteEq(c, s).value.snd);
  }

  lemma {:induction false} TookIndex(f: FieldDecl, u: string)
    requires PredIndex(f, u).Some?
    ensures TookQuietly(u, PredIndex(f, u).value.snd)
  {
    var m := DigitLength(u);
    TookThen(',', u, m);
    var rest := Eat(',', u[m..]).value;
    TookBlanks(rest);
    TookBoth(u, rest, SkipBlanks(rest));
    TookChar(f.name, Value(10, u[..m]), SkipBlanks(rest));
    TookBoth(u, SkipBlanks(rest), PredIndex(f, u).value.snd);
  }

  lemma {:induction false} TookTest(c: Channel, test: Test, s: string)
    requires PredTest(c, test, s).Some?
    ensures TookQuietly(s, PredTest(c, test, s).value.snd)
  {
    var t := SkipBlanks(s);
    TookBlanks(s);
    TookThen(')', t, WordLength(t));
    TookBoth(s, t, PredTest(c, test, s).value.snd);
  }

  lemma {:induction false} TookOne(c: Channel, s: string)
    requires PredOne(c, s).Some?
    ensures TookQuietly(s, PredOne(c, s).value.snd)
    decreases |s|, 0
  {
    var t, rest := SkipBlanks(s), PredOne(c, s).value.snd;
    TookBlanks(s);
    if AlwaysAt(t) {
      TookSome(t, 6);
    } else if NeverAt(t) {
      TookSome(t, 5);
    } else if AllAt(t) || AnyAt(t) {
      TookSome(t, 4);
      TookOperands(c, AllAt(t), t[4..]);
      TookBoth(t, t[4..], rest);
    } else {
      TookSimple(c, t, rest);
    }
    TookBoth(s, t, rest);
  }

  lemma {:induction false} TookOperands(c: Channel, isAll: bool, s: string)
    requires PredBoth(c, isAll, s).Some?
    ensures TookQuietly(s, PredBoth(c, isAll, s).value.snd)
    decreases |s|, 10
  {
    TookArgs(c, s);
    var after := PredArgs(c, s).value.snd;
    TookEat(')', after);
    TookBoth(s, after, PredBoth(c, isAll, s).value.snd);
  }

  lemma FormHasNone(t: string)
    ensures ByteEqAt(t) ==> forall i :: 0 <= i < 8 ==> !OddSpace(t[i])
    ensures TestAt(t).Some? ==> forall i :: 0 <= i < TestAt(t).value.snd ==> !OddSpace(t[i])
  {
  }

  lemma {:induction false} TookSimple(c: Channel, t: string, rest: string)
    requires !AlwaysAt(t) && !NeverAt(t) && !AllAt(t) && !AnyAt(t) && SkipBlanks(t) == t
    requires PredOne(c, t).Some? && PredOne(c, t).value.snd == rest
    ensures TookQuietly(t, rest)
  {
    FormHasNone(t);
    if ByteEqAt(t) {
      TookSome(t, 8);
      TookByteEq(c, t[8..]);
      TookBoth(t, t[8..], rest);
    } else {
      var w := TestAt(t).value;
      TookSome(t, w.snd);
      TookTest(c, w.fst, t[w.snd..]);
      TookBoth(t, t[w.snd..], rest);
    }
  }

  lemma {:induction false} TookArgs(c: Channel, s: string)
    requires PredArgs(c, s).Some?
    ensures TookQuietly(s, PredArgs(c, s).value.snd)
    decreases |s|, 5
  {
    TookOne(c, s);
    var rest := PredOne(c, s).value.snd;
    if Eat(',', rest).Some? {
      var rest1 := Eat(',', rest).value;
      TookEat(',', rest);
      TookBoth(s, rest, rest1);
      TookArgs(c, rest1);
      TookBoth(s, rest1, PredArgs(c, s).value.snd);
    } else {
      TookBlanks(rest);
      TookBoth(s, rest, SkipBlanks(rest));
    }
  }

  /** A predicate the generator accepts has no white space but blanks and quoted bytes. */
  lemma {:induction false} AcceptedIsQuiet(c: Channel, text: string)
    requires PredOne(c, text).Some? && SkipBlanks(PredOne(c, text).value.snd) == []
    ensures Quiet(text)
  {
    var rest := PredOne(c, text).value.snd;
    TookOne(c, text);
    TookBlanks(rest);
    TookBoth(text, rest, []);
    var a :| text == a + [] && Quiet(a);
    assert text == a;
  }
}
