/** Unsigned words as naturals, and the bit operations on them. */
module Bits {
  import opened Arith

  function Pow2(n: nat): (p: nat)
    ensures p > 0
  {
    if n == 0 then 1 else 2 * Pow2(n - 1)
  }

  const WORD: nat := 64

  /** A 64-bit unsigned word. */
  ghost predicate Fits(w: nat) { w < Pow2(WORD) }

  predicate Bit(w: nat, k: nat) {
    if k == 0 then w % 2 == 1 else Bit(w / 2, k - 1)
  }

  /** w | 1 << k */
  function WithBit(w: nat, k: nat): nat {
    if k == 0 then w / 2 * 2 + 1 else WithBit(w / 2, k - 1) * 2 + w % 2
  }

  /** want & ~have */
  function AndNot(want: nat, have: nat): nat {
    if want == 0 then 0 else
    AndNot(want / 2, have / 2) * 2 + if want % 2 == 1 && have % 2 == 0 then 1 else 0
  }

  lemma Halve(q: nat, r: nat)
    requires r < 2
    ensures (q * 2 + r) / 2 == q && (q * 2 + r) % 2 == r
  {
  }

  /** Setting one bit sets that bit and changes no other. */
  lemma {:induction false} SetBit(w: nat, i: nat, k: nat)
    ensures Bit(WithBit(w, k), i) <==> Bit(w, i) || i == k
  {
    if k == 0 {
      Halve(w / 2, 1);
    } else {
      Halve(WithBit(w / 2, k - 1), w % 2);
      if i > 0 { SetBit(w / 2, i - 1, k - 1); }
    }
  }

  lemma {:induction false} SetFits(w: nat, k: nat, n: nat)
    requires w < Pow2(n) && k < n
    ensures WithBit(w, k) < Pow2(n)
  {
    if k > 0 { SetFits(w / 2, k - 1, n - 1); }
  }

  /** Bit `k` is the last one of `w >> k`. */
  lemma {:induction false} BitIsShifted(w: nat, k: nat)
    ensures Bit(w, k) <==> (w / Pow2(k)) % 2 == 1
  {
    if k > 0 {
      BitIsShifted(w / 2, k - 1);
      HalvesTwice(w, Pow2(k - 1));
    }
  }

  lemma HalvesTwice(w: nat, p: nat)
    requires p > 0
    ensures w / 2 / p == w / (2 * p)
  {
    var q := w / 2 / p;
    assert w / 2 == p * q + (w / 2) % p;
    assert w == 2 * (w / 2) + w % 2;
    var r := 2 * ((w / 2) % p) + w % 2;
    assert w == (2 * p) * q + r && 0 <= r < 2 * p;
    DivModUnique(w, 2 * p, q, r);
  }

  lemma {:induction false} NoBits(k: nat)
    ensures !Bit(0, k)
  {
    if k > 0 { NoBits(k - 1); }
  }

  /** A bit is left when the first word has it and the second does not. */
  lemma {:induction false} ClearedBit(want: nat, have: nat, k: nat)
    ensures Bit(AndNot(want, have), k) <==> Bit(want, k) && !Bit(have, k)
  {
    if want == 0 {
      NoBits(k);
    } else {
      Halve(AndNot(want / 2, have / 2), if want % 2 == 1 && have % 2 == 0 then 1 else 0);
      if k > 0 { ClearedBit(want / 2, have / 2, k - 1); }
    }
  }

  /** A word that is not zero has a bit among its lowest n. */
  lemma {:induction false} SomeBit(w: nat, n: nat) returns (k: nat)
    requires 0 < w < Pow2(n)
    ensures k < n && Bit(w, k)
  {
    if w % 2 == 1 {
      k := 0;
    } else {
      var j := SomeBit(w / 2, n - 1);
      k := j + 1;
    }
  }

  lemma {:induction false} AndNotFits(want: nat, have: nat)
    ensures AndNot(want, have) <= want
  {
    if want > 0 { AndNotFits(want / 2, have / 2); }
  }
}
