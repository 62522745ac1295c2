/**
 Layout and mask arithmetic of the GPU hash index: 2^24 buckets of eight
 (signature, location) slots, split into eight regions by the top three bits
 of the bucket number.
 */
module GpuHash {
  import opened Bits

  const ELEM_NUM: nat := 8
  const MEM_P: nat := 30
  const BUC_P: nat := 6
  const IBLOCK_P: nat := 3
  const HASH_BITS: nat := MEM_P - BUC_P
  const BLOCK_BITS: nat := MEM_P - BUC_P - IBLOCK_P
  const MAX_CUCKOO_NUM: nat := 5

  const BUC_NUM: nat := 0x100_0000 // 2^HASH_BITS
  const HASH_MASK: nat := Ones(HASH_BITS)
  const BLOCK_HASH_MASK: nat := Ones(BLOCK_BITS)

  /** uint32_t */
  type Word = w: nat | w < 0x1_0000_0000 witness 0

  /** The first candidate bucket of a hash. */
  function Home(hash: Word): (i: nat)
    ensures i < BUC_NUM
  {
    MasksFit();
    AndBound(hash, HASH_MASK);
    And(hash, HASH_MASK)
  }

  /** The second candidate bucket: the signature is mixed into the low bits only. */
  function Alt(hash: Word, sig: Word): (i: nat)
    ensures i < BUC_NUM
  {
    MasksFit();
    var mixed := Or(And(Xor(hash, sig), BLOCK_HASH_MASK), And(hash, Not(32, BLOCK_HASH_MASK)));
    AndBound(mixed, HASH_MASK);
    And(mixed, HASH_MASK)
  }

  /** The region of a bucket: its top IBLOCK_P bits. */
  function Region(i: nat): (r: nat)
  {
    Shr(i, BLOCK_BITS)
  }

  /** The bits of a signature that take part in the bucket choice. */
  function Low(sig: Word): (l: nat)
    ensures l < Pow2(BLOCK_BITS)
  {
    AndBound(sig, BLOCK_HASH_MASK);
    And(sig, BLOCK_HASH_MASK)
  }

  ghost predicate InPair(i: nat, hash: Word, sig: Word)
  {
    i == Home(hash) || i == Alt(hash, sig)
  }

  lemma MasksFit()
    ensures Pow2(32) == 0x1_0000_0000 && Pow2(HASH_BITS) == BUC_NUM
    ensures BLOCK_HASH_MASK < Pow2(32) && HASH_MASK < BUC_NUM
  {
    Pow2Byte(0);
    Pow2Byte(8);
    Pow2Byte(16);
    Pow2Byte(24);
    Pow2Monotone(BLOCK_BITS, HASH_BITS);
  }

  lemma HomeBit(hash: Word, k: nat)
    ensures Bit(Home(hash), k) == (k < HASH_BITS && Bit(hash, k))
  {
    BitAnd(hash, HASH_MASK, k);
    BitOnes(HASH_BITS, k);
  }

  lemma LowBit(sig: Word, k: nat)
    ensures Bit(Low(sig), k) == (k < BLOCK_BITS && Bit(sig, k))
  {
    BitAnd(sig, BLOCK_HASH_MASK, k);
    BitOnes(BLOCK_BITS, k);
  }

  /** Digit by digit, the alternative bucket flips exactly the low digits set in the signature. */
  lemma AltBit(hash: Word, sig: Word, k: nat)
    ensures Bit(Alt(hash, sig), k) ==
            (k < HASH_BITS && (Bit(hash, k) != (k < BLOCK_BITS && Bit(sig, k))))
  {
    MasksFit();
    var lo := And(Xor(hash, sig), BLOCK_HASH_MASK);
    var hi := And(hash, Not(32, BLOCK_HASH_MASK));
    BitAnd(Or(lo, hi), HASH_MASK, k);
    BitOnes(HASH_BITS, k);
    BitOr(lo, hi, k);
    BitAnd(Xor(hash, sig), BLOCK_HASH_MASK, k);
    BitXor(hash, sig, k);
    BitOnes(BLOCK_BITS, k);
    BitAnd(hash, Not(32, BLOCK_HASH_MASK), k);
    if k < 32 {
      BitNot(32, BLOCK_HASH_MASK, k);
    }
  }

  /** Applying the alternative-bucket map twice comes back home. */
  lemma AltInvolution(hash: Word, sig: Word)
    ensures Alt(Alt(hash, sig), sig) == Home(hash)
    ensures Alt(Home(hash), sig) == Alt(hash, sig)
  {
    MasksFit();
    var a: Word := Alt(hash, sig);
    var h: Word := Home(hash);
    forall k: nat | k < HASH_BITS
      ensures Bit(Alt(a, sig), k) == Bit(h, k)
      ensures Bit(Alt(h, sig), k) == Bit(a, k)
    {
      AltBit(a, sig, k);
      AltBit(hash, sig, k);
      AltBit(h, sig, k);
      HomeBit(hash, k);
    }
    Extensional(HASH_BITS, Alt(a, sig), h);
    Extensional(HASH_BITS, Alt(h, sig), a);
  }

  /** Reaching a bucket from a bucket that is already reduced is the plain low-bit flip. */
  lemma HomeIdempotent(i: Word)
    requires i < BUC_NUM
    ensures Home(i) == i
  {
    MasksFit();
    forall k: nat | k < HASH_BITS ensures Bit(Home(i), k) == Bit(i, k) {
      HomeBit(i, k);
    }
    Extensional(HASH_BITS, Home(i), i);
  }

  /** Both candidate buckets of an entry lie in one region. */
  lemma PairInOneRegion(hash: Word, sig: Word)
    ensures Region(Alt(hash, sig)) == Region(Home(hash)) < Pow2(IBLOCK_P)
  {
    MasksFit();
    ShrBound(BLOCK_BITS, HASH_BITS, Alt(hash, sig));
    ShrBound(BLOCK_BITS, HASH_BITS, Home(hash));
    forall k: nat | k < IBLOCK_P ensures Bit(Region(Alt(hash, sig)), k) == Bit(Region(Home(hash)), k) {
      BitShr(Alt(hash, sig), BLOCK_BITS, k);
      BitShr(Home(hash), BLOCK_BITS, k);
      AltBit(hash, sig, BLOCK_BITS + k);
      HomeBit(hash, BLOCK_BITS + k);
    }
    Extensional(IBLOCK_P, Region(Alt(hash, sig)), Region(Home(hash)));
  }

  /** The two buckets an unchanged hash gives two signatures agree exactly when their low bits do. */
  lemma AltEqual(hash: Word, s1: Word, s2: Word)
    ensures Alt(hash, s1) == Alt(hash, s2) <==> Low(s1) == Low(s2)
  {
    MasksFit();
    if Low(s1) == Low(s2) {
      forall k: nat | k < HASH_BITS ensures Bit(Alt(hash, s1), k) == Bit(Alt(hash, s2), k) {
        AltBit(hash, s1, k);
        AltBit(hash, s2, k);
        LowBit(s1, k);
        LowBit(s2, k);
      }
      Extensional(HASH_BITS, Alt(hash, s1), Alt(hash, s2));
    } else {
      var k := DifferingBit(BLOCK_BITS, Low(s1), Low(s2));
      AltBit(hash, s1, k);
      AltBit(hash, s2, k);
      LowBit(s1, k);
      LowBit(s2, k);
    }
  }

  /** A signature without low bits has one candidate bucket only. */
  lemma AltIsHome(hash: Word, sig: Word)
    ensures Alt(hash, sig) == Home(hash) <==> Low(sig) == 0
  {
    MasksFit();
    var z: Word := 0;
    AltEqual(hash, sig, z);
    LowBitsOfZero();
    forall k: nat | k < HASH_BITS ensures Bit(Alt(hash, z), k) == Bit(Home(hash), k) {
      AltBit(hash, z, k);
      HomeBit(hash, k);
      BitZero(k);
    }
    Extensional(HASH_BITS, Alt(hash, z), Home(hash));
  }

  lemma LowBitsOfZero()
    ensures Low(0) == 0
  {
  }

  /**
   Displacement as written keeps the inserted element's hash and mixes in the
   victim's signature.  Evicted from a bucket of its own pair, the victim lands
   in its own pair exactly when the evicting signature has no low bits or shares
   its low bits with the victim.
   */
  lemma VictimStaysInPair(hash: Word, sig: Word, victimHash: Word, victimSig: Word)
    requires InPair(Alt(hash, sig), victimHash, victimSig)
    ensures InPair(Alt(hash, victimSig), victimHash, victimSig) <==>
            (Low(sig) == 0 || Low(sig) == Low(victimSig))
  {
    var b: Word := Alt(hash, sig);
    AltInvolution(hash, sig);
    AltInvolution(victimHash, victimSig);
    HomeIdempotent(b);
    // The pair, seen from the bucket the victim is in.
    assert {Home(victimHash), Alt(victimHash, victimSig)} == {b, Alt(b, victimSig)};
    AltEqual(hash, sig, victimSig);
    AltOfAlt(hash, sig, victimSig);
  }

  lemma AltOfAlt(hash: Word, sig: Word, victimSig: Word)
    ensures Alt(Alt(hash, sig), victimSig) == Alt(hash, victimSig) <==> Low(sig) == 0
  {
    MasksFit();
    var b: Word := Alt(hash, sig);
    if Low(sig) == 0 {
      forall k: nat | k < HASH_BITS ensures Bit(Alt(b, victimSig), k) == Bit(Alt(hash, victimSig), k) {
        AltBit(hash, sig, k);
        AltBit(b, victimSig, k);
        AltBit(hash, victimSig, k);
        LowBit(sig, k);
        BitZero(k);
      }
      Extensional(HASH_BITS, Alt(b, victimSig), Alt(hash, victimSig));
    } else {
      var k := DifferingBit(BLOCK_BITS, Low(sig), 0);
      BitZero(k);
      LowBit(sig, k);
      AltBit(hash, sig, k);
      AltBit(b, victimSig, k);
      AltBit(hash, victimSig, k);
    }
  }

  /** With the hash moved on to the bucket left behind, the victim always reaches its other bucket. */
  lemma AdvancedHashStaysInPair(i: Word, victimHash: Word, victimSig: Word)
    requires i < BUC_NUM && InPair(i, victimHash, victimSig)
    ensures InPair(Alt(i, victimSig), victimHash, victimSig)
    ensures {i, Alt(i, victimSig)} == {Home(victimHash), Alt(victimHash, victimSig)}
  {
    AltInvolution(victimHash, victimSig);
    HomeIdempotent(i);
  }

  /** From hash 0 a small signature leads to the bucket of its own number. */
  lemma AltOfZero(sig: Word)
    requires sig < BUC_NUM && Low(sig) == sig
    ensures Alt(0, sig) == sig
  {
    MasksFit();
    forall k: nat | k < HASH_BITS ensures Bit(Alt(0, sig), k) == Bit(sig, k) {
      AltBit(0, sig, k);
      LowBit(sig, k);
      BitZero(k);
    }
    Extensional(HASH_BITS, Alt(0, sig), sig);
  }
}
