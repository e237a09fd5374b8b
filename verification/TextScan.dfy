/** Scanning declared text: the character classes and cursors the generator's grammars share. */
module TextScan {

  predicate IsDigit(c: char) { '0' <= c <= '9' }

  predicate IsAlpha(c: char) { 'a' <= c <= 'z' || 'A' <= c <= 'Z' || c == '_' }

  /** What isalnum() or an underscore accepts. */
  predicate IsWord(c: char) { IsAlpha(c) || IsDigit(c) }

  predicate IsBlank(c: char) { c == ' ' || c == '\t' }

  function SkipBlanks(s: string): (r: string)
    ensures |r| <= |s|
    ensures r != [] ==> !IsBlank(r[0])
    ensures s != [] && !IsBlank(s[0]) ==> r == s
  {
    if s != [] && IsBlank(s[0]) then SkipBlanks(s[1..]) else s
  }

  /** The length of the longest run of word characters at the front. */
  function WordLength(s: string): (n: nat)
    ensures n <= |s| && (forall i :: 0 <= i < n ==> IsWord(s[i])) && (n < |s| ==> !IsWord(s[n]))
  {
    if s != [] && IsWord(s[0]) then 1 + WordLength(s[1..]) else 0
  }

  function DigitLength(s: string): (n: nat)
    ensures n <= |s| && (forall i :: 0 <= i < n ==> IsDigit(s[i])) && (n < |s| ==> !IsDigit(s[n]))
  {
    if s != [] && IsDigit(s[0]) then 1 + DigitLength(s[1..]) else 0
  }

  predicate AllDigits(s: string) {
    forall i :: 0 <= i < |s| ==> IsDigit(s[i])
  }

  function Digit(c: char): nat
    requires IsDigit(c)
  {
    c as nat - '0' as nat
  }

  /** The number a run of digits spells in a base. */
  function Value(base: nat, d: string): nat
    requires AllDigits(d)
  {
    if d == [] then 0 else Value(base, d[..|d| - 1]) * base + Digit(d[|d| - 1])
  }

  /** A name as the declared languages spell one. */
  predicate IsName(s: string) {
    s != [] && IsAlpha(s[0]) && forall i :: 0 <= i < |s| ==> IsWord(s[i])
  }

  /** The text goes on with something that cannot lengthen a word before it. */
  predicate Boundary(s: string) {
    s == [] || !IsWord(s[0])
  }

  lemma {:induction false} WordBefore(w: string, rest: string)
    requires (forall i :: 0 <= i < |w| ==> IsWord(w[i])) && Boundary(rest)
    ensures WordLength(w + rest) == |w|
  {
    if w != [] {
      assert (w + rest)[1..] == w[1..] + rest;
      WordBefore(w[1..], rest);
    }
  }

  lemma {:induction false} DigitsBefore(w: string, rest: string)
    requires AllDigits(w) && (rest == [] || !IsDigit(rest[0]))
    ensures DigitLength(w + rest) == |w|
  {
    if w != [] {
      assert (w + rest)[1..] == w[1..] + rest;
      DigitsBefore(w[1..], rest);
    }
  }
}
