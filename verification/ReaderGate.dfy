/**
 The reader gate's own parser of the predicate grammar, and its agreement with the generator's.

 The gate reads the published contract with stripping, prefix tests and anchored regular
 expressions, and collects complaints instead of stopping. Which predicates the generator
 accepts and the gate passes is settled in `OneGrammar`, from the two parsers compared in
 `TwoParsers`.
 */
module ReaderGate {
  import opened Common
  import opened TextScan
  import opened IntExpr
  import opened Predicates

  datatype Complaint =
    | EmptyRule | RefusalNotClosed | NoRealReason | TrailingText
    | FewOperands | NotClosed | UnknownProperty | NotAByte | WrongShape | NotAForm

  // ----- Ruby's whitespace -----

  predicate IsSpace(c: char) {
    IsBlank(c) || c == '\n' || c == '\r' || c == 11 as char || c == 12 as char || c == 0 as char
  }

  function LStrip(s: string): (r: string)
    ensures |r| <= |s| && (r != [] ==> !IsSpace(r[0]))
    ensures s != [] && !IsSpace(s[0]) ==> r == s
  {
    if s != [] && IsSpace(s[0]) then LStrip(s[1..]) else s
  }

  function RStrip(s: string): (r: string)
    ensures r <= s && (r != [] ==> !IsSpace(r[|r| - 1]))
    ensures s != [] && !IsSpace(s[|s| - 1]) ==> r == s
  {
    if s != [] && IsSpace(s[|s| - 1]) then RStrip(s[..|s| - 1]) else s
  }

  function Strip(s: string): string { RStrip(LStrip(s)) }

  // ----- the channel's vocabulary as the gate sees it -----

  datatype Prop = Prop(isField: bool, isStr: bool, count: int)

  type Props = map<string, Prop>

  function FieldProps(fs: seq<FieldDecl>): Props {
    if fs == [] then map[] else
    var f := fs[|fs| - 1];
    FieldProps(fs[..|fs| - 1])[f.name := Prop(true, f.count > 0, f.count)]
  }

  function AllProps(fs: seq<FieldDecl>, ds: seq<DerivedDecl>): Props {
    if ds == [] then FieldProps(fs) else
    var d := ds[|ds| - 1];
    AllProps(fs, ds[..|ds| - 1])[d.name := Prop(false, d.expose == "str", 0)]
  }

  /** `properties`: fields first, then derivations over them. */
  method Properties(c: Channel) returns (props: Props)
    ensures props == AllProps(c.fields, c.derived)
  {
    props := map[];
    for i := 0 to |c.fields|
      invariant props == FieldProps(c.fields[..i])
    {
      var f := c.fields[i];
      assert c.fields[..i + 1][..i] == c.fields[..i];
      props := props[f.name := Prop(true, f.count > 0, f.count)];
    }
    assert c.fields[..|c.fields|] == c.fields;
    for i := 0 to |c.derived|
      invariant props == AllProps(c.fields, c.derived[..i])
    {
      var d := c.derived[i];
      assert c.derived[..i + 1][..i] == c.derived[..i];
      props := props[d.name := Prop(false, d.expose == "str", 0)];
    }
    assert c.derived[..|c.derived|] == c.derived;
  }

  // ----- the gate's parser -----

  type GateRead = Pair<string, seq<Complaint>>

  /** A word, blanks, then `ch`; the two groups a pattern needs. */
  function WordThen(ch: char, s: string): (r: Option<Pair<string, string>>)
    ensures r.Some? ==> |r.value.snd| < |s| && |r.value.fst| <= |s|
  {
    var t := LStrip(s);
    var n := WordLength(t);
    var u := LStrip(t[n..]);
    if n > 0 && CharAt(u, 0, ch) then Some(Pair(t[..n], u[1..])) else None
  }

  function DigitsThen(ch: char, s: string): (r: Option<Pair<string, string>>)
    ensures r.Some? ==> |r.value.snd| < |s| && AllDigits(r.value.fst)
  {
    var t := LStrip(s);
    var n := DigitLength(t);
    var u := LStrip(t[n..]);
    if n > 0 && CharAt(u, 0, ch) then Some(Pair(t[..n], u[1..])) else None
  }

  /** `'(.)'\s*\)` */
  function QuotedThen(s: string): (r: Option<string>)
    ensures r.Some? ==> |r.value| < |s|
  {
    var t := LStrip(s);
    if |t| < 3 || t[0] != '\'' || t[1] == '\n' || t[2] != '\'' then None else
    var u := LStrip(t[3..]);
    if CharAt(u, 0, ')') then Some(u[1..]) else None
  }

  /** The byte_eq pattern after its parenthesis: name, index, and what the match leaves. */
  function ByteEqMatch(s: string): (r: Option<Pair<Pair<string, string>, string>>)
    ensures r.Some? ==> |r.value.snd| < |s| && AllDigits(r.value.fst.snd)
  {
    var w := WordThen(',', s);
    if w.None? then None else
    var d := DigitsThen(',', w.value.snd);
    if d.None? then None else
    var q := QuotedThen(d.value.snd);
    if q.None? then None else Some(Pair(Pair(w.value.fst, d.value.fst), q.value))
  }

  function Complain(bad: bool, what: Complaint): seq<Complaint> {
    if bad then [what] else []
  }

  /** pred_one: what is left of the text, and the complaints. */
  function GateOne(props: Props, s0: string): (r: GateRead)
    ensures |r.fst| <= |s0|
    decreases |s0|, 0
  {
    var s := LStrip(s0);
    if AlwaysAt(s) then Pair(s[6..], [])
    else if NeverAt(s) then Pair(s[5..], [])
    else if AllAt(s) || AnyAt(s) then GateBoth(props, s[4..])
    else if ByteEqAt(s) && ByteEqMatch(s[8..]).Some? then
      var m := ByteEqMatch(s[8..]).value;
      Pair(m.snd, GateByte(props, m.fst.fst, Value(10, m.fst.snd)))
    else if TestAt(s).Some? && WordThen(')', s[TestAt(s).value.snd..]).Some? then
      var m := WordThen(')', s[TestAt(s).value.snd..]).value;
      Pair(m.snd, GateTest(props, TestAt(s).value.fst, m.fst))
    else Pair("", [NotAForm])
  }

  function GateByte(props: Props, name: string, index: nat): seq<Complaint> {
    if name !in props then [UnknownProperty]
    else Complain(!props[name].isField || props[name].count <= index, NotAByte)
  }

  function GateTest(props: Props, test: Test, name: string): seq<Complaint> {
    if name !in props then [UnknownProperty] else Complain(props[name].isStr != WantsStr(test), WrongShape)
  }

  function GateBoth(props: Props, s: string): (r: GateRead)
    ensures |r.fst| <= |s|
    decreases |s|, 10
  {
    var a := GateArgs(props, s);
    var errs := a.snd.snd + Complain(a.fst < 2, FewOperands);
    var t := LStrip(a.snd.fst);
    if CharAt(t, 0, ')') then Pair(t[1..], errs) else Pair("", errs + [NotClosed])
  }

  /** The operand loop: how many there were, what is left, the complaints. */
  function GateArgs(props: Props, s: string): (r: Pair<nat, GateRead>)
    ensures |r.snd.fst| <= |s|
    decreases |s|, 5
  {
    var p := GateOne(props, s);
    var t := LStrip(p.fst);
    if CharAt(t, 0, ',') then
      var more := GateArgs(props, t[1..]);
      Pair(1 + more.fst, Pair(more.snd.fst, p.snd + more.snd.snd))
    else Pair(1, Pair(t, p.snd))
  }

  /** parse_pred: all complaints about one declared rule. */
  function GateRule(props: Props, text: string): seq<Complaint> {
    var t := Strip(text);
    if t == [] then [EmptyRule]
    else if REFUSAL <= t then
      if t[|t| - 1] != ')' then [RefusalNotClosed] else Complain(|Strip(Reason(t))| < 20, NoRealReason)
    else
      var p := GateOne(props, t);
      p.snd + Complain(Strip(p.fst) != [], TrailingText)
  }

  /** What stands between the parentheses of a refusal. */
  function Reason(t: string): string
    requires REFUSAL <= t && t[|t| - 1] == ')'
  {
    t[14..|t| - 1]
  }

  // ----- the same parser, pushing complaints as it goes -----

  /** What the operand loop ends with, from a count and complaints it already has. */
  ghost function After(n: nat, errs: seq<Complaint>, g: Pair<nat, GateRead>): Pair<nat, GateRead> {
    Pair(n + g.fst, Pair(g.snd.fst, errs + g.snd.snd))
  }

  lemma {:induction false} AfterStep(props: Props, n: nat, errs: seq<Complaint>, s: string)
    ensures var p := GateOne(props, s); var t := LStrip(p.fst);
            After(n, errs, GateArgs(props, s)) ==
            if CharAt(t, 0, ',') then After(n + 1, errs + p.snd, GateArgs(props, t[1..]))
            else Pair(n + 1, Pair(t, errs + p.snd))
  {
    var p := GateOne(props, s);
    var t := LStrip(p.fst);
    ArgsStep(props, s);
    if CharAt(t, 0, ',') { AfterMore(n, errs, p.snd, GateArgs(props, t[1..])); }
  }

  lemma AfterMore(n: nat, errs: seq<Complaint>, first: seq<Complaint>, g: Pair<nat, GateRead>)
    ensures After(n, errs, Pair(1 + g.fst, Pair(g.snd.fst, first + g.snd.snd))) == After(n + 1, errs + first, g)
  {
    assert errs + (first + g.snd.snd) == errs + first + g.snd.snd;
  }

  lemma {:induction false} ArgsStep(props: Props, s: string)
    ensures var p := GateOne(props, s); var t := LStrip(p.fst);
            GateArgs(props, s) ==
            if CharAt(t, 0, ',') then
              var more := GateArgs(props, t[1..]); Pair(1 + more.fst, Pair(more.snd.fst, p.snd + more.snd.snd))
            else Pair(1, Pair(t, p.snd))
  {
  }

  class Gate {
    const props: Props
    var errs: seq<Complaint>

    constructor (props: Props)
      ensures this.props == props && errs == []
    {
      this.props := props;
      errs := [];
    }

    method PredOneIn(s0: string) returns (rest: string)
      modifies this`errs
      ensures rest == GateOne(props, s0).fst && errs == old(errs) + GateOne(props, s0).snd
      decreases |s0|, 0
    {
      var s := LStrip(s0);
      if AlwaysAt(s) {
        rest := s[6..];
      } else if NeverAt(s) {
        rest := s[5..];
      } else if AllAt(s) || AnyAt(s) {
        rest := OperandsIn(s[4..]);
      } else if ByteEqAt(s) && ByteEqMatch(s[8..]).Some? {
        var m := ByteEqMatch(s[8..]).value;
        errs := errs + GateByte(props, m.fst.fst, Value(10, m.fst.snd));
        rest := m.snd;
      } else if TestAt(s).Some? && WordThen(')', s[TestAt(s).value.snd..]).Some? {
        var m := WordThen(')', s[TestAt(s).value.snd..]).value;
        errs := errs + GateTest(props, TestAt(s).value.fst, m.fst);
        rest := m.snd;
      } else {
        errs := errs + [NotAForm];
        rest := "";
      }
    }

    /** The loop over the operands of all() and any(). */
    method OperandLoop(s: string) returns (n: nat, rest: string)
      modifies this`errs
      ensures n == GateArgs(props, s).fst && rest == GateArgs(props, s).snd.fst
      ensures errs == old(errs) + GateArgs(props, s).snd.snd
      decreases |s|, 5
    {
      rest := s;
      n := 0;
      var more := true;
      ghost var want := After(n, errs, GateArgs(props, s));
      while more
        invariant |rest| <= |s|
        invariant more ==> After(n, errs, GateArgs(props, rest)) == want
        invariant !more ==> Pair(n, Pair(rest, errs)) == want
        decreases more, |rest|
      {
        AfterStep(props, n, errs, rest);
        rest := PredOneIn(rest);
        n := n + 1;
        rest := LStrip(rest);
        more := CharAt(rest, 0, ',');
        if more {
          rest := rest[1..];
        }
      }
    }

    method OperandsIn(s: string) returns (rest: string)
      modifies this`errs
      ensures rest == GateBoth(props, s).fst && errs == old(errs) + GateBoth(props, s).snd
      decreases |s|, 10
    {
      var n;
      n, rest := OperandLoop(s);
      if n < 2 {
        errs := errs + [FewOperands];
      }
      var t := LStrip(rest);
      if CharAt(t, 0, ')') {
        rest := t[1..];
      } else {
        errs := errs + [NotClosed];
        rest := "";
      }
    }

    method ParseRule(text: string)
      modifies this`errs
      ensures errs == old(errs) + GateRule(props, text)
    {
      var t := Strip(text);
      if t == [] {
        errs := errs + [EmptyRule];
        return;
      }
      if REFUSAL <= t {
        if t[|t| - 1] != ')' {
          errs := errs + [RefusalNotClosed];
          return;
        }
        if |Strip(Reason(t))| < 20 {
          errs := errs + [NoRealReason];
        }
        return;
      }
      var rest := PredOneIn(t);
      if Strip(rest) != [] {
        errs := errs + [TrailingText];
      }
    }
  }
}
