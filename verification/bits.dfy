/** Single bits of non-negative integers: the meaning of `&`, `|=` and `&^=` with one-bit masks. */
module Bits {

  function Pow2(n: nat): (r: nat)
    ensures r > 0
  {
    if n == 0 then 1 else 2 * Pow2(n - 1)
  }

  /** Whether bit `i` of `v` is set: `v & (1 << i) != 0`. */
  predicate Bit(v: nat, i: nat) {
    if i == 0 then v % 2 == 1 else Bit(v / 2, i - 1)
  }

  /** `v` with bit `i` set (`v |= 1 << i`) or cleared (`v &^= 1 << i`). */
  function SetBit(v: nat, i: nat, on: bool): (r: nat) {
    if i == 0 then v / 2 * 2 + (if on then 1 else 0)
    else SetBit(v / 2, i - 1, on) * 2 + v % 2
  }

  lemma {:induction false} SetBitReads(v: nat, i: nat, on: bool, j: nat)
    ensures Bit(SetBit(v, i, on), j) == if i == j then on else Bit(v, j)
  {
    if i == 0 {
    } else if j == 0 {
    } else {
      SetBitReads(v / 2, i - 1, on, j - 1);
    }
  }

  lemma HalfBound(v: nat, half: nat)
    ensures v < 2 * half <==> v / 2 < half
  {
  }

  lemma {:induction false} SetBitBound(v: nat, i: nat, on: bool, n: nat)
    requires i < n && v < Pow2(n)
    ensures SetBit(v, i, on) < Pow2(n)
  {
    HalfBound(v, Pow2(n - 1));
    if i > 0 {
      SetBitBound(v / 2, i - 1, on, n - 1);
      HalfBound(SetBit(v, i, on), Pow2(n - 1));
    }
  }

  /** The bits of a number glued from two fields are the bits of the fields. */
  lemma {:induction false} GluedBit(h: nat, l: nat, k: nat, i: nat)
    requires l < Pow2(k)
    ensures Bit(h * Pow2(k) + l, i) == if i < k then Bit(l, i) else Bit(h, i - k)
  {
    if k == 0 {
    } else {
      var t := h * Pow2(k - 1);
      assert h * Pow2(k) == 2 * t;
      assert (2 * t + l) / 2 == t + l / 2 && (2 * t + l) % 2 == l % 2;
      if i > 0 {
        GluedBit(h, l / 2, k - 1, i - 1);
      }
    }
  }

  /** A bounded number is determined by its bits. */
  lemma {:induction false} BitsDetermine(v: nat, w: nat, n: nat)
    requires v < Pow2(n) && w < Pow2(n)
    requires forall i: nat :: i < n ==> Bit(v, i) == Bit(w, i)
    ensures v == w
  {
    if n == 0 {
    } else {
      assert Bit(v, 0) == Bit(w, 0);
      forall i: nat | i < n - 1 ensures Bit(v / 2, i) == Bit(w / 2, i) {
        assert Bit(v, i + 1) == Bit(w, i + 1);
      }
      BitsDetermine(v / 2, w / 2, n - 1);
    }
  }

  lemma Pow2Is256()
    ensures Pow2(8) == 256
  {
    assert Pow2(4) == 16;
  }
}
