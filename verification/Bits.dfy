/**
 Unsigned machine words as natural numbers, and the bitwise operators the
 sources apply to them.  `Bit(w, k)` is the k-th binary digit; every operator
 is characterised bit by bit, and `Extensional` turns equal bits into equal words.
 */
module Bits {

  function Pow2(n: nat): (p: nat)
    ensures p >= 1
  {
    if n == 0 then 1 else 2 * Pow2(n - 1)
  }

  predicate Bit(w: nat, k: nat)
  {
    if k == 0 then w % 2 == 1 else Bit(w / 2, k - 1)
  }

  function And(v: nat, w: nat): (r: nat)
    decreases v
  {
    if v == 0 then 0
    else 2 * And(v / 2, w / 2) + (if v % 2 == 1 && w % 2 == 1 then 1 else 0)
  }

  function Or(v: nat, w: nat): (r: nat)
    decreases v
  {
    if v == 0 then w
    else 2 * Or(v / 2, w / 2) + (if v % 2 == 1 || w % 2 == 1 then 1 else 0)
  }

  function Xor(v: nat, w: nat): (r: nat)
    decreases v
  {
    if v == 0 then w
    else 2 * Xor(v / 2, w / 2) + (if v % 2 != w % 2 then 1 else 0)
  }

  /** The one's complement of an n-bit word. */
  function Not(n: nat, w: nat): (r: nat)
    requires w < Pow2(n)
  {
    Pow2(n) - 1 - w
  }

  /** The mask (1 << n) - 1. */
  function Ones(n: nat): (m: nat)
  {
    Pow2(n) - 1
  }

  /** w >> m */
  function Shr(w: nat, m: nat): (r: nat)
  {
    if m == 0 then w else Shr(w / 2, m - 1)
  }

  /** w << m, in a word wide enough for the result. */
  function Shl(w: nat, m: nat): (r: nat)
  {
    if m == 0 then w else 2 * Shl(w, m - 1)
  }

  /** One plus the position of the lowest set bit, and 0 for 0 (find first set). */
  function Ffs(w: nat): (r: nat)
    ensures r == 0 <==> w == 0
    ensures r > 0 ==> Bit(w, r - 1) && forall k: nat | k < r - 1 :: !Bit(w, k)
  {
    if w == 0 then 0 else if w % 2 == 1 then 1 else 1 + Ffs(w / 2)
  }

  lemma {:induction false} BitZero(k: nat)
    ensures !Bit(0, k)
  {
    if k > 0 { BitZero(k - 1); }
  }

  lemma {:induction false} BitAnd(v: nat, w: nat, k: nat)
    ensures Bit(And(v, w), k) == (Bit(v, k) && Bit(w, k))
    decreases k
  {
    if v == 0 {
      BitZero(k);
    } else if k > 0 {
      BitAnd(v / 2, w / 2, k - 1);
    }
  }

  lemma {:induction false} BitOr(v: nat, w: nat, k: nat)
    ensures Bit(Or(v, w), k) == (Bit(v, k) || Bit(w, k))
    decreases k
  {
    if v == 0 {
      BitZero(k);
    } else if k > 0 {
      BitOr(v / 2, w / 2, k - 1);
    }
  }

  lemma {:induction false} BitXor(v: nat, w: nat, k: nat)
    ensures Bit(Xor(v, w), k) == (Bit(v, k) != Bit(w, k))
    decreases k
  {
    if v == 0 {
      BitZero(k);
    } else if k > 0 {
      BitXor(v / 2, w / 2, k - 1);
    }
  }

  lemma {:induction false} BitNot(n: nat, w: nat, k: nat)
    requires w < Pow2(n)
    ensures k < n ==> Bit(Not(n, w), k) == !Bit(w, k)
  {
    if n > 0 && k > 0 {
      BitNot(n - 1, w / 2, k - 1);
      assert Not(n, w) / 2 == Not(n - 1, w / 2);
    }
  }

  lemma {:induction false} BitOnes(n: nat, k: nat)
    ensures Bit(Ones(n), k) == (k < n)
  {
    if n == 0 {
      BitZero(k);
    } else if k > 0 {
      assert Ones(n) / 2 == Ones(n - 1);
      BitOnes(n - 1, k - 1);
    }
  }

  lemma {:induction false} BitPow2(n: nat, k: nat)
    ensures Bit(Pow2(n), k) == (k == n)
  {
    if n == 0 {
      if k > 0 { BitZero(k - 1); }
    } else if k > 0 {
      BitPow2(n - 1, k - 1);
    }
  }

  lemma {:induction false} BitHigh(n: nat, w: nat, k: nat)
    requires w < Pow2(n) && n <= k
    ensures !Bit(w, k)
  {
    if n == 0 {
      BitZero(k);
    } else {
      BitHigh(n - 1, w / 2, k - 1);
    }
  }

  lemma {:induction false} Extensional(n: nat, v: nat, w: nat)
    requires v < Pow2(n) && w < Pow2(n)
    requires forall k: nat | k < n :: Bit(v, k) == Bit(w, k)
    ensures v == w
  {
    if n > 0 {
      forall k: nat | k < n - 1 ensures Bit(v / 2, k) == Bit(w / 2, k) {
        assert Bit(v, k + 1) == Bit(w, k + 1);
      }
      Extensional(n - 1, v / 2, w / 2);
      assert Bit(v, 0) == Bit(w, 0);
    }
  }

  lemma {:induction false} AndBound(v: nat, w: nat)
    ensures And(v, w) <= v && And(v, w) <= w
    decreases v
  {
    if v > 0 {
      AndBound(v / 2, w / 2);
    }
  }

  lemma {:induction false} OrBound(n: nat, v: nat, w: nat)
    requires v < Pow2(n) && w < Pow2(n)
    ensures Or(v, w) < Pow2(n)
  {
    if v > 0 {
      OrBound(n - 1, v / 2, w / 2);
    }
  }

  lemma {:induction false} BitShr(w: nat, m: nat, k: nat)
    ensures Bit(Shr(w, m), k) == Bit(w, m + k)
  {
    if m > 0 {
      BitShr(w / 2, m - 1, k);
    }
  }

  lemma {:induction false} BitShl(w: nat, m: nat, k: nat)
    ensures Bit(Shl(w, m), k) == (m <= k && Bit(w, k - m))
  {
    if m > 0 && k > 0 {
      BitShl(w, m - 1, k - 1);
    }
  }

  lemma {:induction false} ShrBound(m: nat, n: nat, w: nat)
    requires m <= n && w < Pow2(n)
    ensures Shr(w, m) < Pow2(n - m)
  {
    if m > 0 {
      ShrBound(m - 1, n - 1, w / 2);
    }
  }

  lemma {:induction false} Pow2Monotone(m: nat, n: nat)
    requires m <= n
    ensures Pow2(m) <= Pow2(n)
  {
    if m < n { Pow2Monotone(m, n - 1); }
  }

  lemma Pow2Byte(n: nat)
    ensures Pow2(n + 8) == 256 * Pow2(n)
  {
    assert Pow2(n + 2) == 4 * Pow2(n);
    assert Pow2(n + 4) == 4 * Pow2(n + 2);
    assert Pow2(n + 6) == 4 * Pow2(n + 4);
  }

  /** Equal words have equal bits; a differing pair of words differs in some bit. */
  lemma {:induction false} DifferingBit(n: nat, v: nat, w: nat) returns (k: nat)
    requires v < Pow2(n) && w < Pow2(n) && v != w
    ensures k < n && Bit(v, k) != Bit(w, k)
  {
    if v % 2 != w % 2 {
      k := 0;
    } else {
      var j := DifferingBit(n - 1, v / 2, w / 2);
      k := j + 1;
    }
  }
}
