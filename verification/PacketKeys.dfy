/**
 The keys the generators write.  A key is two words: the number of the key, and the
 same number with its lowest bits copied to the top, where the receiver looks for the
 insert block.
 */
module PacketKeys {
  import opened Arithmetic
  import opened Bits
  import opened GpuHash
  import opened Wire

  /** The second word of a key; rte_bswap32 of one byte moves it to the top byte. */
  function HashWord(key: Quad, bits: nat): (h: Quad)
    requires bits <= 8
  {
    if bits == 0 then key
    else
      var swapped := (key % 0x100) * 0x100_0000;
      var top := (swapped * Pow2(8 - bits)) % 0x1_0000_0000;
      OrFits(top, key);
      Or(top, key)
  }

  lemma OrFits(a: Quad, b: Quad)
    ensures Or(a, b) < 0x1_0000_0000
  {
    hide Or;
    QuadSize();
    OrBound(32, a, b);
  }

  lemma QuadSize()
    ensures Pow2(32) == 0x1_0000_0000 && Pow2(24) == 0x100_0000 && Pow2(8) == 0x100
  {
    Pow2Byte(0);
    Pow2Byte(8);
    Pow2Byte(16);
    Pow2Byte(24);
  }

  /** Where the receiver puts an insert: hash >> (32 - bits). */
  function InsertBlock(hash: Quad, bits: nat): (b: nat)
    requires bits <= 8
  {
    if bits == 0 then 0 else Shr(hash, 32 - bits)
  }

  // ----- powers of two ------------------------------------------------------

  lemma {:induction false} Pow2Add(m: nat, n: nat)
    ensures Pow2(m + n) == Pow2(m) * Pow2(n)
  {
    if m > 0 {
      Pow2Add(m - 1, n);
      assert Pow2(m + n) == 2 * (Pow2(m - 1) * Pow2(n));
    }
  }

  lemma {:induction false} ShlIsTimes(w: nat, m: nat)
    ensures Shl(w, m) == w * Pow2(m)
  {
    if m > 0 { ShlIsTimes(w, m - 1); }
  }

  /** Of a word moved up by 32 - n in 32 bits only the lowest n digits remain. */
  lemma ShiftedOut(w: nat, n: nat)
    requires n <= 32
    ensures (w * Pow2(32 - n)) % 0x1_0000_0000 == (w % Pow2(n)) * Pow2(32 - n)
  {
    hide Pow2;
    QuadSize();
    Pow2Add(n, 32 - n);
    var p, s, q, r := Pow2(n), Pow2(32 - n), w / Pow2(n), w % Pow2(n);
    assert w == p * q + r;
    assert (p * q + r) * s == p * s * q + r * s;
    Below(r, p, s);
    RemainderOf(w * s, p * s, q, r * s);
  }

  lemma Below(r: nat, p: nat, s: nat)
    requires r < p && s > 0
    ensures r * s < p * s
  {
    assert p * s - r * s == s * (p - r);
    Scaled(s, p - r);
  }

  lemma {:induction false} LowDigits(w: nat, n: nat, k: nat)
    ensures Bit(w % Pow2(n), k) == (k < n && Bit(w, k))
  {
    if n == 0 {
      BitZero(k);
    } else {
      var v := w / 2 % Pow2(n - 1);
      Halved(w, Pow2(n - 1));
      assert w % Pow2(n) == 2 * v + w % 2;
      if k > 0 { LowDigits(w / 2, n - 1, k - 1); }
    }
  }

  lemma Halved(w: nat, p: nat)
    requires p > 0
    ensures w % (2 * p) == 2 * (w / 2 % p) + w % 2
  {
    var q, r := w / 2 / p, w / 2 % p;
    assert w / 2 == p * q + r;
    assert w == 2 * p * q + (2 * r + w % 2);
    RemainderOf(w, 2 * p, q, 2 * r + w % 2);
  }

  // ----- what a key word holds ----------------------------------------------

  /** Digit by digit, for every key: the key itself, and its lowest digits once more at the top. */
  lemma HashWordDigit(key: Quad, bits: nat, k: nat)
    requires bits <= 8 && k < 32
    ensures Bit(HashWord(key, bits), k) == (Bit(key, k) || (k >= 32 - bits && Bit(key, k - (32 - bits))))
  {
    hide Bit, Or, Pow2;
    if bits > 0 {
      var m, low := 32 - bits, key % Pow2(bits);
      TopIs(key, bits);
      ShlIsTimes(low, m);
      BitOr(low * Pow2(m), key, k);
      BitShl(low, m, k);
      if k >= m { LowDigits(key, bits, k - m); }
    }
  }

  lemma TopIs(key: Quad, bits: nat)
    requires 0 < bits <= 8
    ensures ((key % 0x100) * 0x100_0000 * Pow2(8 - bits)) % 0x1_0000_0000 == (key % Pow2(bits)) * Pow2(32 - bits)
  {
    hide Pow2;
    QuadSize();
    Pow2Add(24, 8 - bits);
    var b := key % 0x100;
    assert b * 0x100_0000 * Pow2(8 - bits) == b * Pow2(32 - bits);
    ShiftedOut(b, bits);
    LowestByte(key, bits);
  }

  lemma LowestByte(key: nat, bits: nat)
    requires bits <= 8
    ensures key % 0x100 % Pow2(bits) == key % Pow2(bits)
  {
    hide Pow2;
    QuadSize();
    Pow2Add(bits, 8 - bits);
    RemainderTwice(key, Pow2(bits), Pow2(8 - bits), 0x100);
  }

  lemma RemainderTwice(w: nat, p: nat, s: nat, m: nat)
    requires p > 0 && m > 0 && m == p * s
    ensures w % m % p == w % p
  {
    var q, r := w / m, w % m;
    Quotient(w, m, q, r);
    var u, v := r / p, r % p;
    Quotient(r, p, u, v);
    Regrouped(p, s, q, u);
    RemainderOf(w, p, s * q + u, v);
  }

  lemma Quotient(w: nat, m: nat, q: nat, r: nat)
    requires m > 0 && q == w / m && r == w % m
    ensures w == m * q + r && r < m
  {
  }

  lemma Regrouped(p: nat, s: nat, q: nat, u: nat)
    ensures p * s * q + p * u == p * (s * q + u)
  {
  }

  /** Consecutive keys go round all insert blocks. */
  lemma NextBlock(key: Quad, bits: nat)
    requires bits <= 8 && key + 1 < 0x1_0000_0000 && key + 1 < Pow2(32 - bits)
    ensures InsertBlock(HashWord(key + 1, bits), bits) == (InsertBlock(HashWord(key, bits), bits) + 1) % Pow2(bits)
  {
    hide HashWord, Pow2, InsertBlock;
    BlockIs(key, bits);
    BlockIs(key + 1, bits);
    NextOf(key, Pow2(bits));
  }

  lemma NextOf(key: nat, p: nat)
    requires p > 0
    ensures (key + 1) % p == (key % p + 1) % p
  {
    NextRemainder(key, p);
    if key % p + 1 < p { RemainderOf(key % p + 1, p, 0, key % p + 1); }
  }

  /** A key goes to the insert block of its lowest bits. */
  lemma BlockIs(key: Quad, bits: nat)
    requires bits <= 8 && key < Pow2(32 - bits)
    ensures InsertBlock(HashWord(key, bits), bits) == key % Pow2(bits)
  {
    hide HashWord, Bit, Shr;
    if bits > 0 {
      var h, m := HashWord(key, bits), 32 - bits;
      QuadSize();
      ShrBound(m, 32, h);
      forall k: nat | k < bits ensures Bit(Shr(h, m), k) == Bit(key % Pow2(bits), k) {
        BitShr(h, m, k);
        HashWordDigit(key, bits, m + k);
        BitHigh(m, key, m + k);
        LowDigits(key, bits, k);
      }
      Extensional(bits, Shr(h, m), key % Pow2(bits));
    }
  }

  /** Whatever block a key goes to, its home bucket is its number. */
  lemma HomeOfKey(key: Quad, bits: nat)
    requires bits <= 8
    ensures Home(HashWord(key, bits)) == key % BUC_NUM
  {
    hide HashWord, Bit, Home, Pow2;
    QuadSize();
    var h := HashWord(key, bits);
    forall k: nat | k < HASH_BITS ensures Bit(Home(h), k) == Bit(key % BUC_NUM, k) {
      HomeBit(h, k);
      HashWordDigit(key, bits, k);
      LowDigits(key, HASH_BITS, k);
    }
    Extensional(HASH_BITS, Home(h), key % BUC_NUM);
  }

  /** Key 1 with eight insert blocks. */
  lemma FirstKey()
    ensures HashWord(1, 3) == 0x2000_0001 && InsertBlock(0x2000_0001, 3) == 1
  {
    hide Or;
    assert Pow2(5) == 32 && Pow2(3) == 8;
    QuadSize();
    Pow2Monotone(29, 32);
    assert Or(0x2000_0000, 1) == 0x2000_0001 by { OrOne(0x1000_0000); }
    KeyOne();
    BlockIs(1, 3);
  }

  lemma KeyOne()
    ensures 1 < Pow2(29)
  {
    Pow2Monotone(1, 29);
  }

  lemma OrOne(w: nat)
    ensures Or(2 * w, 1) == 2 * w + 1
  {
    OrZero(w);
  }

  lemma {:induction false} OrZero(w: nat)
    ensures Or(w, 0) == w
  {
    if w > 0 { OrZero(w / 2); }
  }
}
