/**
 The generator's predicate parser and the reader gate's, in step on every text the first accepts.
 */
module TwoParsers {
  import opened Common
  import opened TextScan
  import opened IntExpr
  import opened Predicates
  import opened ReaderGate

  /** No name is empty, and none stands twice among the fields or twice among the derivations. */
  ghost predicate Named(c: Channel) {
    && (forall i :: 0 <= i < |c.fields| ==> c.fields[i].name != "")
    && (forall i :: 0 <= i < |c.derived| ==> c.derived[i].name != "")
    && (forall i, j :: 0 <= i < j < |c.fields| ==> c.fields[i].name != c.fields[j].name)
    && (forall i, j :: 0 <= i < j < |c.derived| ==> c.derived[i].name != c.derived[j].name)
  }

  /** No byte is compared in a field whose name a derivation takes over. */
  ghost predicate Unshadowed(c: Channel, p: PredAst)
    decreases p, 1
  {
    match p
    case Both(_, args) => AllUnshadowed(c, args)
    case ByteEq(f, _, _) => FindDerived(c.derived, f).None?
    case _ => true
  }

  ghost predicate AllUnshadowed(c: Channel, ps: seq<PredAst>)
    decreases ps, 0
  {
    ps == [] || (Unshadowed(c, ps[0]) && AllUnshadowed(c, ps[1..]))
  }

  /** No byte is compared with a newline. */
  ghost predicate OneLine(p: PredAst)
    decreases p, 1
  {
    match p
    case Both(_, args) => AllOneLine(args)
    case ByteEq(_, _, ch) => ch != '\n'
    case _ => true
  }

  ghost predicate AllOneLine(ps: seq<PredAst>)
    decreases ps, 0
  {
    ps == [] || (OneLine(ps[0]) && AllOneLine(ps[1..]))
  }

  // ----- the two vocabularies -----

  lemma {:induction false} FieldPropAt(fs: seq<FieldDecl>, i: nat)
    requires i < |fs| && forall a, b :: 0 <= a < b < |fs| ==> fs[a].name != fs[b].name
    ensures fs[i].name in FieldProps(fs) && FieldProps(fs)[fs[i].name] == Prop(true, fs[i].count > 0, fs[i].count)
  {
    var n := |fs| - 1;
    if i < n { FieldPropAt(fs[..n], i); }
  }

  lemma {:induction false} FieldStays(fs: seq<FieldDecl>, ds: seq<DerivedDecl>, name: string)
    requires name in FieldProps(fs) && forall j :: 0 <= j < |ds| ==> ds[j].name != name
    ensures name in AllProps(fs, ds) && AllProps(fs, ds)[name] == FieldProps(fs)[name]
  {
    if ds != [] { FieldStays(fs, ds[..|ds| - 1], name); }
  }

  lemma {:induction false} DerivedPropAt(fs: seq<FieldDecl>, ds: seq<DerivedDecl>, j: nat)
    requires j < |ds| && forall a, b :: 0 <= a < b < |ds| ==> ds[a].name != ds[b].name
    ensures ds[j].name in AllProps(fs, ds) && AllProps(fs, ds)[ds[j].name] == Prop(false, ds[j].expose == "str", 0)
  {
    var n := |ds| - 1;
    if j < n { DerivedPropAt(fs, ds[..n], j); }
  }

  lemma {:induction false} FieldProp(c: Channel, name: string)
    requires Named(c) && FindField(c.fields, name).Some? && FindDerived(c.derived, name).None?
    ensures var f := FindField(c.fields, name).value; var props := AllProps(c.fields, c.derived);
            name != "" && name in props && props[name] == Prop(true, f.count > 0, f.count)
  {
    var f := FindField(c.fields, name).value;
    var i :| 0 <= i < |c.fields| && c.fields[i] == f;
    FieldPropAt(c.fields, i);
    FieldStays(c.fields, c.derived, name);
  }

  lemma {:induction false} DerivedProp(c: Channel, name: string)
    requires Named(c) && FindDerived(c.derived, name).Some?
    ensures var d := c.derived[FindDerived(c.derived, name).value]; var props := AllProps(c.fields, c.derived);
            name != "" && name in props && props[name] == Prop(false, d.expose == "str", 0)
  {
    DerivedPropAt(c.fields, c.derived, FindDerived(c.derived, name).value);
  }

  // ----- the two scanners -----

  /** Skipping blanks and stripping agree in front of anything that is not white space. */
  lemma {:induction false} SameSkip(s: string)
    requires SkipBlanks(s) != [] && !IsSpace(SkipBlanks(s)[0])
    ensures LStrip(s) == SkipBlanks(s)
  {
    if IsBlank(s[0]) { SameSkip(s[1..]); }
  }

  lemma {:induction false} SameEat(ch: char, s: string)
    requires Eat(ch, s).Some? && !IsSpace(ch)
    ensures var u := LStrip(s); CharAt(u, 0, ch) && u[1..] == Eat(ch, s).value
  {
    SameSkip(s);
  }

  lemma {:induction false} SameWord(ch: char, s: string)
    requires !IsSpace(ch)
    requires var t := SkipBlanks(s); WordLength(t) > 0 && Eat(ch, t[WordLength(t)..]).Some?
    ensures var t := SkipBlanks(s);
            WordThen(ch, s) == Some(Pair(t[..WordLength(t)], Eat(ch, t[WordLength(t)..]).value))
  {
    var t := SkipBlanks(s);
    assert IsWord(t[0]);
    SameSkip(s);
    SameEat(ch, t[WordLength(t)..]);
  }

  lemma {:induction false} SameDigits(ch: char, s: string)
    requires !IsSpace(ch)
    requires var t := SkipBlanks(s); DigitLength(t) > 0 && Eat(ch, t[DigitLength(t)..]).Some?
    ensures var t := SkipBlanks(s);
            DigitsThen(ch, s) == Some(Pair(t[..DigitLength(t)], Eat(ch, t[DigitLength(t)..]).value))
  {
    var t := SkipBlanks(s);
    assert IsDigit(t[0]);
    SameSkip(s);
    SameEat(ch, t[DigitLength(t)..]);
  }

  // ----- one predicate -----

  /** What is left of a text is the end of it. */
  ghost predicate IsSuffix(r: string, s: string) {
    r == s || (s != [] && IsSuffix(r, s[1..]))
  }

  lemma {:induction false} SuffixTransitive(a: string, b: string, c: string)
    requires IsSuffix(a, b) && IsSuffix(b, c)
    ensures IsSuffix(a, c)
  {
    if b != c { SuffixTransitive(a, b, c[1..]); }
  }

  lemma {:induction false} DropIsSuffix(s: string, n: nat)
    requires n <= |s|
    ensures IsSuffix(s[n..], s)
  {
    if n == 0 {
      assert s[0..] == s;
    } else {
      assert s[n..] == s[1..][n - 1..];
      DropIsSuffix(s[1..], n - 1);
    }
  }

  lemma {:induction false} SkipIsSuffix(s: string)
    ensures IsSuffix(SkipBlanks(s), s)
  {
    if s != [] && IsBlank(s[0]) { SkipIsSuffix(s[1..]); }
  }

  lemma {:induction false} EatIsSuffix(ch: char, s: string)
    requires Eat(ch, s).Some?
    ensures IsSuffix(Eat(ch, s).value, s)
  {
    var t := SkipBlanks(s);
    SkipIsSuffix(s);
    DropIsSuffix(t, 1);
    SuffixTransitive(t[1..], t, s);
  }

  /** A proper suffix, and what was taken before it ends in something that is not white space. */
  ghost predicate Ends(rest: string, s: string) {
    s != [] && if s[1..] == rest then !IsSpace(s[0]) else Ends(rest, s[1..])
  }

  lemma {:induction false} EndsSuffix(rest: string, s: string)
    requires Ends(rest, s)
    ensures IsSuffix(rest, s) && |rest| < |s|
  {
    if s[1..] != rest { EndsSuffix(rest, s[1..]); }
  }

  lemma {:induction false} EndsWithin(rest: string, t: string, s: string)
    requires Ends(rest, t) && IsSuffix(t, s)
    ensures Ends(rest, s)
  {
    if t != s {
      EndsWithin(rest, t, s[1..]);
      EndsSuffix(rest, s[1..]);
    }
  }

  lemma {:induction false} EndsDrop(t: string, n: nat)
    requires 0 < n <= |t| && !IsSpace(t[n - 1])
    ensures Ends(t[n..], t)
  {
    if n > 1 {
      assert t[n..] == t[1..][n - 1..];
      EndsDrop(t[1..], n - 1);
    }
  }

  /** The text before the rest, which ends in something that is not white space. */
  lemma {:induction false} EndsSplit(rest: string, s: string) returns (a: string)
    requires Ends(rest, s)
    ensures s == a + rest && a != [] && !IsSpace(a[|a| - 1])
  {
    if s[1..] == rest {
      a := [s[0]];
    } else {
      var b := EndsSplit(rest, s[1..]);
      a := [s[0]] + b;
      assert s == [s[0]] + s[1..];
    }
  }

  lemma {:induction false} EndsAfter(rest: string, t: string, n: nat)
    requires n <= |t| && Ends(rest, t[n..])
    ensures Ends(rest, t)
  {
    DropIsSuffix(t, n);
    EndsWithin(rest, t[n..], t);
  }

  lemma {:induction false} EatEnds(ch: char, t: string, s: string)
    requires Eat(ch, t).Some? && !IsSpace(ch) && IsSuffix(t, s)
    ensures Ends(Eat(ch, t).value, s)
  {
    var u := SkipBlanks(t);
    SkipIsSuffix(t);
    EndsDrop(u, 1);
    EndsWithin(u[1..], u, t);
    EndsWithin(u[1..], t, s);
  }

  lemma {:induction false} OneEnds(c: Channel, s: string)
    requires PredOne(c, s).Some?
    ensures Ends(PredOne(c, s).value.snd, s)
    decreases |s|, 0
  {
    var t := SkipBlanks(s);
    SkipIsSuffix(s);
    var rest := PredOne(c, s).value.snd;
    assert Ends(rest, t) by {
      if AlwaysAt(t) {
        EndsDrop(t, 6);
      } else if NeverAt(t) {
        EndsDrop(t, 5);
      } else if AllAt(t) || AnyAt(t) {
        BothEnds(c, AllAt(t), t[4..]);
        EndsAfter(rest, t, 4);
      } else if ByteEqAt(t) {
        ByteEqEnds(c, t[8..]);
        EndsAfter(rest, t, 8);
      } else {
        TestEnds(c, TestAt(t).value.fst, t[TestAt(t).value.snd..]);
        EndsAfter(rest, t, TestAt(t).value.snd);
      }
    }
    EndsWithin(rest, t, s);
  }

  lemma {:induction false} BothEnds(c: Channel, isAll: bool, s: string)
    requires PredBoth(c, isAll, s).Some?
    ensures Ends(PredBoth(c, isAll, s).value.snd, s)
    decreases |s|, 10
  {
    ArgsSuffix(c, s);
    EatEnds(')', PredArgs(c, s).value.snd, s);
  }

  lemma {:induction false} ArgsSuffix(c: Channel, s: string)
    requires PredArgs(c, s).Some?
    ensures IsSuffix(PredArgs(c, s).value.snd, s)
    decreases |s|, 5
  {
    OneEnds(c, s);
    var rest := PredOne(c, s).value.snd;
    EndsSuffix(rest, s);
    if Eat(',', rest).Some? {
      var rest1 := Eat(',', rest).value;
      EatIsSuffix(',', rest);
      ArgsSuffix(c, rest1);
      SuffixTransitive(PredArgs(c, rest1).value.snd, rest1, rest);
      SuffixTransitive(PredArgs(c, rest1).value.snd, rest, s);
    } else {
      SkipIsSuffix(rest);
      SuffixTransitive(SkipBlanks(rest), rest, s);
    }
  }

  lemma {:induction false} TestEnds(c: Channel, test: Test, s: string)
    requires PredTest(c, test, s).Some?
    ensures Ends(PredTest(c, test, s).value.snd, s)
  {
    var t := SkipBlanks(s);
    TestRest(c, test, s);
    SkipIsSuffix(s);
    DropIsSuffix(t, WordLength(t));
    SuffixTransitive(t[WordLength(t)..], t, s);
    EatEnds(')', t[WordLength(t)..], s);
  }

  lemma {:induction false} TestRest(c: Channel, test: Test, s: string)
    requires PredTest(c, test, s).Some?
    ensures var t := SkipBlanks(s); Eat(')', t[WordLength(t)..]) == Some(PredTest(c, test, s).value.snd)
  {
  }

  lemma {:induction false} ByteEqEnds(c: Channel, s: string)
    requires PredByteEq(c, s).Some?
    ensures Ends(PredByteEq(c, s).value.snd, s)
  {
    var t := SkipBlanks(s);
    var n := WordLength(t);
    var rest := Eat(',', t[n..]).value;
    SkipIsSuffix(s);
    DropIsSuffix(t, n);
    SuffixTransitive(t[n..], t, s);
    EatIsSuffix(',', t[n..]);
    SuffixTransitive(rest, t[n..], s);
    SkipIsSuffix(rest);
    SuffixTransitive(SkipBlanks(rest), rest, s);
    var f := FindField(c.fields, t[..n]).value;
    IndexEnds(f, SkipBlanks(rest));
    EndsWithin(PredIndex(f, SkipBlanks(rest)).value.snd, SkipBlanks(rest), s);
  }

  lemma {:induction false} IndexEnds(f: FieldDecl, u: string)
    requires PredIndex(f, u).Some?
    ensures Ends(PredIndex(f, u).value.snd, u)
  {
    var m := DigitLength(u);
    var rest := Eat(',', u[m..]).value;
    DropIsSuffix(u, m);
    EatIsSuffix(',', u[m..]);
    SuffixTransitive(rest, u[m..], u);
    SkipIsSuffix(rest);
    var v := SkipBlanks(rest);
    SuffixTransitive(v, rest, u);
    DropIsSuffix(v, 3);
    SuffixTransitive(v[3..], v, u);
    EatEnds(')', v[3..], u);
  }

  // ----- in step -----

  /** The gate complains exactly of a shadowed byte comparison and of one with a newline, and leaves the
      same text where there is none of the latter. */
  ghost predicate InStep(c: Channel, p: PredAst, rest: string, g: GateRead) {
    (OneLine(p) ==> g.fst == rest) && (g.snd == [] <==> Unshadowed(c, p) && OneLine(p))
  }

  lemma {:induction false} SameOne(c: Channel, s: string)
    requires Named(c) && PredOne(c, s).Some?
    ensures InStep(c, PredOne(c, s).value.fst, PredOne(c, s).value.snd, GateOne(AllProps(c.fields, c.derived), s))
    decreases |s|, 1
  {
    var t := SkipBlanks(s);
    SameSkip(s);
    if AllAt(t) || AnyAt(t) {
      SameBoth(c, AllAt(t), t[4..]);
    } else {
      SameSimple(c, s, t);
    }
  }

  /** The forms without operands of their own kind. */
  lemma {:induction false} SameSimple(c: Channel, s: string, t: string)
    requires Named(c) && PredOne(c, s).Some? && t == SkipBlanks(s) == LStrip(s)
    requires !AllAt(t) && !AnyAt(t)
    ensures InStep(c, PredOne(c, s).value.fst, PredOne(c, s).value.snd, GateOne(AllProps(c.fields, c.derived), s))
  {
    if AlwaysAt(t) || NeverAt(t) {
    } else if ByteEqAt(t) {
      GateOfByteEq(AllProps(c.fields, c.derived), s);
      SameByteEq(c, t[8..]);
    } else {
      SameTest(c, TestAt(t).value.fst, t[TestAt(t).value.snd..]);
    }
  }

  lemma {:induction false} GateOfByteEq(props: Props, s: string)
    requires ByteEqAt(LStrip(s))
    ensures var m := ByteEqMatch(LStrip(s)[8..]);
            GateOne(props, s) ==
            if m.Some? then Pair(m.value.snd, GateByte(props, m.value.fst.fst, Value(10, m.value.fst.snd)))
            else Pair("", [NotAForm])
  {
    var t := LStrip(s);
    assert t[0] == 'b' && TestAt(t).None?;
  }

  lemma {:induction false} SameBoth(c: Channel, isAll: bool, s: string)
    requires Named(c) && PredBoth(c, isAll, s).Some?
    ensures var r := PredBoth(c, isAll, s).value; InStep(c, r.fst, r.snd, GateBoth(AllProps(c.fields, c.derived), s))
    decreases |s|, 10
  {
    var rest := PredArgs(c, s).value.snd;
    SameEat(')', rest);
    ArgsSkipped(c, s);
    SameArgs(c, s);
  }

  /** The operand list leaves the cursor past any blanks. */
  lemma {:induction false} ArgsSkipped(c: Channel, s: string)
    requires PredArgs(c, s).Some?
    ensures SkipBlanks(PredArgs(c, s).value.snd) == PredArgs(c, s).value.snd
    decreases |s|
  {
    var rest := PredOne(c, s).value.snd;
    if Eat(',', rest).Some? { ArgsSkipped(c, Eat(',', rest).value); }
  }

  lemma {:induction false} SameArgs(c: Channel, s: string)
    requires Named(c) && PredArgs(c, s).Some?
    requires var rest := PredArgs(c, s).value.snd; rest != [] && !IsSpace(rest[0]) && rest[0] != ','
    ensures var r, g := PredArgs(c, s).value, GateArgs(AllProps(c.fields, c.derived), s);
            && (AllOneLine(r.fst) ==> g.fst == |r.fst| && g.snd.fst == r.snd)
            && (g.snd.snd == [] <==> AllUnshadowed(c, r.fst) && AllOneLine(r.fst))
    decreases |s|, 5
  {
    SameOne(c, s);
    var p, rest := PredOne(c, s).value.fst, PredOne(c, s).value.snd;
    if Eat(',', rest).Some? {
      SameEat(',', rest);
      var rest1 := Eat(',', rest).value;
      SameArgs(c, rest1);
      if OneLine(p) { GateMore(AllProps(c.fields, c.derived), s, rest, rest1); }
      assert ([p] + PredArgs(c, rest1).value.fst)[1..] == PredArgs(c, rest1).value.fst;
    } else {
      SameSkip(rest);
      assert [p][1..] == [];
    }
  }

  /** One operand and the comma after it, as the gate reads them. */
  lemma {:induction false} GateMore(props: Props, s: string, rest: string, rest1: string)
    requires GateOne(props, s).fst == rest
    requires var t := LStrip(rest); CharAt(t, 0, ',') && t[1..] == rest1
    ensures var g, more := GateArgs(props, s), GateArgs(props, rest1);
            g.fst == 1 + more.fst && g.snd.fst == more.snd.fst &&
            (g.snd.snd == [] <==> GateOne(props, s).snd == [] && more.snd.snd == [])
  {
  }

  lemma SameTest(c: Channel, test: Test, s: string)
    requires Named(c) && PredTest(c, test, s).Some?
    ensures var props := AllProps(c.fields, c.derived); var m := WordThen(')', s);
            m.Some? && m.value.snd == PredTest(c, test, s).value.snd && GateTest(props, test, m.value.fst) == []
  {
    var t := SkipBlanks(s);
    var name := t[..WordLength(t)];
    if FindField(c.fields, name).Some? { FieldProp(c, name); } else { DerivedProp(c, name); }
    SameWord(')', s);
  }

  lemma SameByteEq(c: Channel, s: string)
    requires Named(c) && PredByteEq(c, s).Some?
    ensures var props := AllProps(c.fields, c.derived); var m, r := ByteEqMatch(s), PredByteEq(c, s).value;
            if OneLine(r.fst) then
              m.Some? && InStep(c, r.fst, r.snd,
                                Pair(m.value.snd, GateByte(props, m.value.fst.fst, Value(10, m.value.fst.snd))))
            else m.None?
  {
    var t := SkipBlanks(s);
    var n := WordLength(t);
    var rest := Eat(',', t[n..]).value;
    if FindDerived(c.derived, t[..n]).None? { FieldProp(c, t[..n]); } else { DerivedProp(c, t[..n]); }
    assert n > 0;
    SameWord(',', s);
    var u := SkipBlanks(rest);
    SameDigits(',', rest);
    var rest1 := Eat(',', u[DigitLength(u)..]).value;
    SameQuoted(t[..n], Value(10, u[..DigitLength(u)]), rest1);
  }

  lemma {:induction false} SameQuoted(field: string, index: nat, rest: string)
    requires PredChar(field, index, SkipBlanks(rest)).Some?
    ensures var r := PredChar(field, index, SkipBlanks(rest)).value;
            QuotedThen(rest) == if OneLine(r.fst) then Some(r.snd) else None
  {
    SameSkip(rest);
    SameEat(')', SkipBlanks(rest)[3..]);
  }

  // ----- a parse looks only at what it takes -----

  lemma {:induction false} SkipCut(s: string, b: string)
    requires |SkipBlanks(s + b)| >= |b|
    ensures SkipBlanks(s + b) == SkipBlanks(s) + b
  {
    if s == [] {
      assert s + b == b;
    } else if IsBlank(s[0]) {
      assert (s + b)[1..] == s[1..] + b;
      SkipCut(s[1..], b);
    }
  }

  lemma {:induction false} EatMore(ch: char, s: string, b: string)
    requires Eat(ch, s).Some?
    ensures Eat(ch, s + b) == Some(Eat(ch, s).value + b)
  {
    if IsBlank(s[0]) {
      assert (s + b)[1..] == s[1..] + b;
      EatMore(ch, s[1..], b);
    } else {
      assert (s + b)[1..] == s[1..] + b;
    }
  }

  lemma EatCut(ch: char, s: string, b: string)
    requires Eat(ch, s + b).Some? && |Eat(ch, s + b).value| >= |b|
    ensures Eat(ch, s).Some? && Eat(ch, s + b).value == Eat(ch, s).value + b
  {
    SkipCut(s, b);
    var t := SkipBlanks(s);
    assert (t + b)[1..] == t[1..] + b;
  }

  lemma {:induction false} WordCut(s: string, b: string)
    requires WordLength(s + b) < |s|
    ensures WordLength(s) == WordLength(s + b)
  {
    if IsWord(s[0]) {
      assert (s + b)[1..] == s[1..] + b;
      WordCut(s[1..], b);
    }
  }

  lemma {:induction false} DigitCut(s: string, b: string)
    requires DigitLength(s + b) < |s|
    ensures DigitLength(s) == DigitLength(s + b)
  {
    if IsDigit(s[0]) {
      assert (s + b)[1..] == s[1..] + b;
      DigitCut(s[1..], b);
    }
  }

  lemma DropBefore(s: string, b: string, n: nat)
    requires n <= |s|
    ensures (s + b)[n..] == s[n..] + b
  {
  }

  /** A keyword the shorter text has, the longer has; one that ends inside the shorter, both have. */
  lemma KeywordsBefore(t: string, b: string)
    ensures AlwaysAt(t) ==> AlwaysAt(t + b)
    ensures NeverAt(t) ==> NeverAt(t + b)
    ensures AllAt(t) ==> AllAt(t + b)
    ensures AnyAt(t) ==> AnyAt(t + b)
    ensures ByteEqAt(t) ==> ByteEqAt(t + b)
    ensures |t| >= 6 && AlwaysAt(t + b) ==> AlwaysAt(t)
    ensures |t| >= 5 && NeverAt(t + b) ==> NeverAt(t)
    ensures |t| >= 4 ==> AllAt(t) == AllAt(t + b) && AnyAt(t) == AnyAt(t + b)
    ensures |t| >= 8 && ByteEqAt(t + b) ==> ByteEqAt(t)
  {
  }

  lemma {:induction false} OneCut(c: Channel, s: string, b: string)
    requires PredOne(c, s + b).Some? && |PredOne(c, s + b).value.snd| >= |b|
    ensures PredOne(c, s).Some? && PredOne(c, s + b).value == Pair(PredOne(c, s).value.fst, PredOne(c, s).value.snd + b)
    decreases |s|, 10
  {
    SkipCut(s, b);
    var t := SkipBlanks(s);
    KeywordsBefore(t, b);
    if AlwaysAt(t + b) {
      DropBefore(t, b, 6);
    } else if NeverAt(t + b) {
      DropBefore(t, b, 5);
    } else if AllAt(t + b) || AnyAt(t + b) {
      BothCut(c, t, b);
    } else if ByteEqAt(t + b) {
      DropBefore(t, b, 8);
      ByteEqCut(c, t[8..], b);
    } else {
      TestCut(c, t, b);
    }
  }

  lemma {:induction false} BothCut(c: Channel, t: string, b: string)
    requires AllAt(t + b) || AnyAt(t + b)
    requires var r := PredBoth(c, AllAt(t + b), (t + b)[4..]); r.Some? && |r.value.snd| >= |b|
    ensures |t| >= 4 && (AllAt(t) || AnyAt(t))
    ensures var was, now := PredBoth(c, AllAt(t + b), (t + b)[4..]), PredBoth(c, AllAt(t), t[4..]);
            now.Some? && was.value == Pair(now.value.fst, now.value.snd + b)
    decreases |t|, 0
  {
    DropBefore(t, b, 4);
    var rest := PredArgs(c, t[4..] + b).value.snd;
    ArgsCut(c, t[4..], b);
    EatCut(')', PredArgs(c, t[4..]).value.snd, b);
  }

  lemma {:induction false} ArgsCut(c: Channel, s: string, b: string)
    requires PredArgs(c, s + b).Some? && |PredArgs(c, s + b).value.snd| >= |b|
    ensures PredArgs(c, s).Some?
    ensures PredArgs(c, s + b).value == Pair(PredArgs(c, s).value.fst, PredArgs(c, s).value.snd + b)
    decreases |s|, 15
  {
    var rest := PredOne(c, s + b).value.snd;
    OneCut(c, s, b);
    var now := PredOne(c, s).value.snd;
    if Eat(',', rest).Some? {
      EatCut(',', now, b);
      ArgsCut(c, Eat(',', now).value, b);
    } else {
      if Eat(',', now).Some? { EatMore(',', now, b); }
      SkipCut(now, b);
    }
  }

  lemma TestCut(c: Channel, t: string, b: string)
    requires TestAt(t + b).Some? && !AlwaysAt(t + b) && !NeverAt(t + b) && !AllAt(t + b) && !AnyAt(t + b) &&
             !ByteEqAt(t + b)
    requires var w := TestAt(t + b).value; var r := PredTest(c, w.fst, (t + b)[w.snd..]);
             r.Some? && |r.value.snd| >= |b|
    ensures TestAt(t) == TestAt(t + b)
    ensures var w := TestAt(t + b).value;
            var was, now := PredTest(c, w.fst, (t + b)[w.snd..]), PredTest(c, w.fst, t[w.snd..]);
            now.Some? && was.value == Pair(now.value.fst, now.value.snd + b)
  {
    var w := TestAt(t + b).value;
    TestRest(c, w.fst, (t + b)[w.snd..]);
    TestWordCut(t, b);
    DropBefore(t, b, w.snd);
    WordArgCut(')', t[w.snd..], b);
  }

  /** The unary word, when it ends inside the shorter text. */
  lemma TestWordCut(t: string, b: string)
    requires TestAt(t + b).Some? && TestAt(t + b).value.snd <= |t|
    ensures TestAt(t) == TestAt(t + b)
  {
  }

  /** A word and the delimiter after it. */
  lemma {:induction false} WordArgCut(ch: char, s: string, b: string)
    requires var t := SkipBlanks(s + b); var e := Eat(ch, t[WordLength(t)..]); e.Some? && |e.value| >= |b|
    ensures var was, now := SkipBlanks(s + b), SkipBlanks(s); var n := WordLength(was);
            WordLength(now) == n && was[..n] == now[..n] && Eat(ch, now[n..]).Some? &&
            Eat(ch, was[n..]).value == Eat(ch, now[n..]).value + b
  {
    SkipCut(s, b);
    var t := SkipBlanks(s);
    WordCut(t, b);
    DropBefore(t, b, WordLength(t));
    EatCut(ch, t[WordLength(t)..], b);
  }

  lemma ByteEqCut(c: Channel, s: string, b: string)
    requires PredByteEq(c, s + b).Some? && |PredByteEq(c, s + b).value.snd| >= |b|
    ensures PredByteEq(c, s).Some?
    ensures PredByteEq(c, s + b).value == Pair(PredByteEq(c, s).value.fst, PredByteEq(c, s).value.snd + b)
  {
    var was := SkipBlanks(s + b);
    var n := WordLength(was);
    var rest := Eat(',', was[n..]).value;
    WordArgCut(',', s, b);
    var now := SkipBlanks(s);
    var rest1 := Eat(',', now[n..]).value;
    SkipCut(rest1, b);
    IndexCut(FindField(c.fields, now[..n]).value, SkipBlanks(rest1), b);
  }

  lemma IndexCut(f: FieldDecl, u: string, b: string)
    requires PredIndex(f, u + b).Some? && |PredIndex(f, u + b).value.snd| >= |b|
    ensures PredIndex(f, u).Some?
    ensures PredIndex(f, u + b).value == Pair(PredIndex(f, u).value.fst, PredIndex(f, u).value.snd + b)
  {
    var m := DigitLength(u + b);
    DigitCut(u, b);
    DropBefore(u, b, m);
    assert (u + b)[..m] == u[..m];
    EatCut(',', u[m..], b);
    var rest := Eat(',', u[m..]).value;
    SkipCut(rest, b);
    CharCut(f.name, Value(10, u[..m]), SkipBlanks(rest), b);
  }

  lemma CharCut(field: string, index: nat, s: string, b: string)
    requires PredChar(field, index, s + b).Some? && |PredChar(field, index, s + b).value.snd| >= |b|
    ensures PredChar(field, index, s).Some?
    ensures PredChar(field, index, s + b).value ==
            Pair(PredChar(field, index, s).value.fst, PredChar(field, index, s).value.snd + b)
  {
    DropBefore(s, b, 3);
    EatCut(')', s[3..], b);
  }
}
