/**
 The reversed clock that picks items for eviction.  A set bit marks an item not
 used since the hand last passed.  Visiting a word evicts all its set bits and
 complements it; touching an item clears its bit.
 */
module ClockSpec {
  import opened Bits

  const BITSPERWORD: nat := 64

  /** uint64_t */
  type Word64 = w: nat | w < 0x1_0000_0000_0000_0000 witness 0

  lemma Word64Size()
    ensures Pow2(64) == 0x1_0000_0000_0000_0000
  {
    Pow2Byte(0);
    Pow2Byte(8);
    Pow2Byte(16);
    Pow2Byte(24);
    Pow2Byte(32);
    Pow2Byte(40);
    Pow2Byte(48);
    Pow2Byte(56);
  }

  /** The hand stands before word `walker` of the `current` words in use. */
  datatype Clock = Clock(words: seq<Word64>, current: nat, walker: nat)

  ghost predicate Running(c: Clock)
  {
    c.walker < c.current <= |c.words|
  }

  /** The bit of item p. */
  predicate Idle(c: Clock, p: nat)
    requires p / BITSPERWORD < |c.words|
  {
    Bit(c.words[p / BITSPERWORD], p % BITSPERWORD)
  }

  function Complement(w: Word64): (r: Word64)
  {
    Word64Size();
    Not(64, w)
  }

  /** The positions of the set bits from lo on, in ascending order. */
  function SetBits(w: Word64, lo: nat): (s: seq<nat>)
    requires lo <= BITSPERWORD
    decreases BITSPERWORD - lo
  {
    if lo == BITSPERWORD then []
    else (if Bit(w, lo) then [lo] else []) + SetBits(w, lo + 1)
  }

  function Offsets(word: nat, bits: seq<nat>): (s: seq<nat>)
    ensures |s| == |bits|
  {
    seq(|bits|, k requires 0 <= k < |bits| => word * BITSPERWORD + bits[k])
  }

  /** What the hand evicts at its next visit. */
  function Emits(c: Clock): seq<nat>
    requires Running(c)
  {
    Offsets(c.walker, SetBits(c.words[c.walker], 0))
  }

  function Visit(c: Clock): (c': Clock)
    requires Running(c)
    ensures Running(c') && c'.current == c.current && |c'.words| == |c.words|
  {
    Clock(c.words[c.walker := Complement(c.words[c.walker])],
          c.current,
          if c.walker + 1 == c.current then 0 else c.walker + 1)
  }

  /** map[word] &= ~(1 << bit) */
  function ClearBit(w: Word64, k: nat): (r: Word64)
    requires k < BITSPERWORD
  {
    Word64Size();
    PowFits(k);
    AndBound(w, Complement(Pow2(k)));
    And(w, Complement(Pow2(k)))
  }

  lemma {:induction false} PowFits(k: nat)
    requires k < BITSPERWORD
    ensures Pow2(k) < 0x1_0000_0000_0000_0000
  {
    Word64Size();
    Pow2Monotone(k, 63);
    assert Pow2(64) == 2 * Pow2(63);
  }

  function Touch(c: Clock, p: nat): (c': Clock)
    requires p / BITSPERWORD < |c.words|
    ensures Running(c) ==> Running(c')
  {
    c.(words := c.words[p / BITSPERWORD := ClearBit(c.words[p / BITSPERWORD], p % BITSPERWORD)])
  }

  /** n visits in a row, and all they evict. */
  function After(c: Clock, n: nat): (c': Clock)
    requires Running(c)
    ensures Running(c') && c'.current == c.current && |c'.words| == |c.words|
  {
    if n == 0 then c else Visit(After(c, n - 1))
  }

  function Evicted(c: Clock, n: nat): seq<nat>
    requires Running(c)
  {
    if n == 0 then [] else Evicted(c, n - 1) + Emits(After(c, n - 1))
  }

  // ----- bits and lists -----------------------------------------------------

  lemma ComplementBit(w: Word64, k: nat)
    requires k < BITSPERWORD
    ensures Bit(Complement(w), k) == !Bit(w, k)
  {
    Word64Size();
    BitNot(64, w, k);
  }

  lemma ClearBitBit(w: Word64, j: nat, k: nat)
    requires j < BITSPERWORD && k < BITSPERWORD
    ensures Bit(ClearBit(w, j), k) == (Bit(w, k) && k != j)
  {
    PowFits(j);
    BitAnd(w, Complement(Pow2(j)), k);
    ComplementBit(Pow2(j), k);
    BitPow2(j, k);
  }

  lemma {:induction false} SetBitsMember(w: Word64, lo: nat, k: nat)
    requires lo <= BITSPERWORD
    ensures k in SetBits(w, lo) <==> lo <= k < BITSPERWORD && Bit(w, k)
    decreases BITSPERWORD - lo
  {
    hide Bit;
    if lo < BITSPERWORD {
      SetBitsMember(w, lo + 1, k);
    }
  }

  /** The set bits come in strictly ascending order. */
  lemma {:induction false} SetBitsAscend(w: Word64, lo: nat)
    requires lo <= BITSPERWORD
    ensures forall a, b | 0 <= a < b < |SetBits(w, lo)| :: SetBits(w, lo)[a] < SetBits(w, lo)[b]
    ensures forall a | 0 <= a < |SetBits(w, lo)| :: lo <= SetBits(w, lo)[a] < BITSPERWORD
    ensures |SetBits(w, lo)| <= BITSPERWORD - lo
    decreases BITSPERWORD - lo
  {
    hide Bit;
    if lo < BITSPERWORD {
      SetBitsAscend(w, lo + 1);
    }
  }

  /** In a strictly ascending list everything occurs at most once. */
  lemma {:induction false} AscendingCount(s: seq<nat>, k: nat)
    requires forall a, b | 0 <= a < b < |s| :: s[a] < s[b]
    ensures multiset(s)[k] == if k in s then 1 else 0
  {
    if s != [] {
      var n := |s| - 1;
      AscendingCount(s[..n], k);
      assert s == s[..n] + [s[n]];
    }
  }

  lemma SetBitsCount(w: Word64, k: nat)
    ensures multiset(SetBits(w, 0))[k] == (if k < BITSPERWORD && Bit(w, k) then 1 else 0)
    ensures forall b | b in SetBits(w, 0) :: b < BITSPERWORD
  {
    hide Bit, SetBits;
    SetBitsAscend(w, 0);
    SetBitsMember(w, 0, k);
    AscendingCount(SetBits(w, 0), k);
  }

  lemma {:induction false} OffsetsCount(word: nat, bits: seq<nat>, p: nat)
    requires forall b | b in bits :: b < BITSPERWORD
    ensures multiset(Offsets(word, bits))[p] == (if p / BITSPERWORD == word then multiset(bits)[p % BITSPERWORD] else 0)
  {
    if bits == [] {
      assert Offsets(word, bits) == [];
    } else {
      var n := |bits| - 1;
      assert bits == bits[..n] + [bits[n]];
      assert bits[n] in bits;
      assert Offsets(word, bits) == Offsets(word, bits[..n]) + [word * BITSPERWORD + bits[n]];
      forall b | b in bits[..n] ensures b < BITSPERWORD {
        assert b in bits;
      }
      OffsetsCount(word, bits[..n], p);
    }
  }

  /** A visit evicts item p at most once, and only if the hand is on its word and it is idle. */
  lemma EmitsCount(c: Clock, p: nat)
    requires Running(c)
    ensures p / BITSPERWORD == c.walker ==> p / BITSPERWORD < |c.words|
    ensures multiset(Emits(c))[p] == (if p / BITSPERWORD == c.walker && Idle(c, p) then 1 else 0)
  {
    SetBitsCount(c.words[c.walker], p % BITSPERWORD);
    OffsetsCount(c.walker, SetBits(c.words[c.walker], 0), p);
  }
}
