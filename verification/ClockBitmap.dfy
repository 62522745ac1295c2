/**
 The bitmap of one slab class, updated in place, proved against the clock.
 */
module ClockBitmap {
  import opened Bits
  import opened ClockSpec
  import opened ClockFairness

  const ALL_ONES: Word64 := 0xFFFF_FFFF_FFFF_FFFF

  // ----- the mask-and-ffs idiom ---------------------------------------------

  /** The mask lets the positions from lo on through. */
  ghost predicate MaskFrom(mask: Word64, lo: nat)
  {
    forall k: nat | k < BITSPERWORD :: Bit(mask, k) == (lo <= k)
  }

  lemma AllOnesMask()
    ensures ALL_ONES == Complement(0)
    ensures MaskFrom(ALL_ONES, 0)
  {
    Word64Size();
    forall k: nat | k < BITSPERWORD ensures Bit(ALL_ONES, k) {
      ComplementBit(0, k);
      BitZero(k);
    }
  }

  /** ~((1 << n) - 1) */
  function MaskAbove(n: nat): (m: Word64)
    requires n < BITSPERWORD
    ensures MaskFrom(m, n)
  {
    PowFits(n);
    MaskAboveBits(n);
    Complement(Ones(n))
  }

  lemma MaskAboveBits(n: nat)
    requires n < BITSPERWORD
    ensures Ones(n) < 0x1_0000_0000_0000_0000 && MaskFrom(Complement(Ones(n)), n)
  {
    PowFits(n);
    forall k: nat | k < BITSPERWORD ensures Bit(Complement(Ones(n)), k) == (n <= k) {
      ComplementBit(Ones(n), k);
      BitOnes(n, k);
    }
  }

  lemma {:induction false} NoSetBits(w: Word64, lo: nat)
    requires lo <= BITSPERWORD && forall k: nat | lo <= k < BITSPERWORD :: !Bit(w, k)
    ensures SetBits(w, lo) == []
    decreases BITSPERWORD - lo
  {
    if lo < BITSPERWORD { NoSetBits(w, lo + 1); }
  }

  lemma {:induction false} FirstSetBit(w: Word64, lo: nat, j: nat)
    requires lo <= j < BITSPERWORD && Bit(w, j) && forall k: nat | lo <= k < j :: !Bit(w, k)
    ensures SetBits(w, lo) == [j] + SetBits(w, j + 1)
    decreases j - lo
  {
    if lo < j { FirstSetBit(w, lo + 1, j); }
  }

  /** One step of the inner loop: ffs under the mask splits off the next set bit, or says there is none. */
  lemma MaskedFfs(w: Word64, mask: Word64, lo: nat)
    requires lo < BITSPERWORD && MaskFrom(mask, lo)
    ensures var f := Ffs(And(w, mask));
            if f == 0 then SetBits(w, lo) == []
            else lo < f <= BITSPERWORD && SetBits(w, lo) == [f - 1] + SetBits(w, f)
  {
    hide Bit, SetBits, And;
    var v := And(w, mask);
    var f := Ffs(v);
    forall k: nat | k < BITSPERWORD ensures Bit(v, k) == (Bit(w, k) && lo <= k) {
      BitAnd(w, mask, k);
    }
    if f == 0 {
      forall k: nat | lo <= k < BITSPERWORD ensures !Bit(w, k) {
        BitZero(k);
      }
      NoSetBits(w, lo);
    } else {
      if f > BITSPERWORD {
        BitAnd(w, mask, f - 1);
        Word64Size();
        BitHigh(BITSPERWORD, w, f - 1);
      }
      FirstSetBit(w, lo, f - 1);
    }
  }

  // ----- termination --------------------------------------------------------

  function ZeroWords(words: seq<Word64>, n: nat): nat
    requires n <= |words|
  {
    if n == 0 then 0 else ZeroWords(words, n - 1) + (if words[n - 1] == 0 then 1 else 0)
  }

  lemma {:induction false} ZeroWordsUpdate(words: seq<Word64>, n: nat, k: nat, w: Word64)
    requires n <= |words| && k < |words|
    ensures ZeroWords(words[k := w], n) + (if k < n && words[k] == 0 then 1 else 0) ==
            ZeroWords(words, n) + (if k < n && w == 0 then 1 else 0)
  {
    if n > 0 { ZeroWordsUpdate(words, n - 1, k, w); }
  }

  /** A visit to a word without set bits leaves one all-zero word fewer. */
  lemma IdleVisit(c: Clock)
    requires Running(c) && Emits(c) == []
    ensures ZeroWords(Visit(c).words, c.current) < ZeroWords(c.words, c.current)
  {
    var w := c.words[c.walker];
    if w != 0 {
      Word64Size();
      var k := DifferingBit(64, w, 0);
      BitZero(k);
      SetBitsMember(w, 0, k);
    }
    AllOnesMask();
    ZeroWordsUpdate(c.words, c.current, c.walker, Complement(w));
  }

  // ----- the structure ------------------------------------------------------

  class Bitmap {
    const words: array<Word64>
    var currentSize: nat
    var walker: nat
    var offsetMask: Word64

    ghost predicate Valid()
      reads this
    {
      && words.Length * BITSPERWORD < 0x8000_0000
      && (currentSize == 0 ==> walker == 0)
      && (currentSize > 0 ==> walker < currentSize < words.Length)
      && offsetMask == ALL_ONES
    }

    ghost function Value(): (c: Clock)
      reads this, words
    {
      Clock(words[..], currentSize, walker)
    }

    /** All items of later slabs start idle. */
    constructor (elemNum: nat)
      requires elemNum % BITSPERWORD == 0 && elemNum < 0x8000_0000
      ensures Valid() && fresh(words) && words.Length == elemNum / BITSPERWORD
      ensures currentSize == 0 && walker == 0
      ensures forall p: nat | p < elemNum :: Idle(Value(), p)
    {
      words := new Word64[elemNum / BITSPERWORD](_ => ALL_ONES);
      currentSize, walker, offsetMask := 0, 0, ALL_ONES;
      new;
      AllOnesMask();
    }

    /**
     bitmap_evict_batch.  The batch is what the hand meets in the fewest visits
     that yield num items, so it overshoots by less than one word.
     */
    method EvictBatch(offsets: array<nat>, num: nat) returns (i: nat, ghost visits: nat)
      requires Valid() && currentSize > 0
      requires 0 < num && num + 63 <= offsets.Length
      modifies this, words, offsets
      ensures Valid() && currentSize == old(currentSize)
      ensures num <= i <= num + 63
      ensures Running(old(Value())) && Value() == After(old(Value()), visits)
      ensures offsets[..i] == Evicted(old(Value()), visits)
      ensures visits > 0 && |Evicted(old(Value()), visits - 1)| < num
      ensures num <= BITSPERWORD * currentSize ==>
                visits <= 2 * currentSize && forall a, b | 0 <= a < b < i :: offsets[a] != offsets[b]
    {
      hide Evicted, After, Emits, Visit, ALL_ONES;
      ghost var start := Value();
      i, visits := 0, 0;
      EvictedNothing(start);
      while i < num
        invariant Valid() && currentSize == start.current && Running(start)
        invariant Value() == After(start, visits)
        invariant i <= num + 63 && i <= offsets.Length && offsets[..i] == Evicted(start, visits)
        invariant visits > 0 ==> |Evicted(start, visits - 1)| < num
        invariant visits == 0 ==> i == 0
        decreases if i < num then num - i else 0, ZeroWords(words[..], currentSize)
      {
        ghost var c := Value();
        ghost var measure := ZeroWords(words[..], currentSize);
        ghost var i0 := i;
        i := VisitWord(offsets, num, i);
        visits := visits + 1;
        EvictedOneMore(start, visits - 1);
        assert offsets[..i] == offsets[..i0] + offsets[i0..i];
        if i == i0 {
          IdleVisit(c);
        }
      }
      if num <= BITSPERWORD * currentSize {
        BatchDistinct(start, visits);
        assert forall a | 0 <= a < i :: offsets[a] == offsets[..i][a];
      }
    }

    /** One pass of the outer loop: the word under the hand is drained and complemented. */
    method VisitWord(offsets: array<nat>, num: nat, i0: nat) returns (i: nat)
      requires Valid() && currentSize > 0
      requires i0 < num && num + 63 <= offsets.Length
      modifies this, words, offsets
      ensures Valid() && currentSize == old(currentSize)
      ensures Running(old(Value())) && Value() == Visit(old(Value()))
      ensures i0 <= i <= i0 + 64
      ensures offsets[..i0] == old(offsets[..i0])
      ensures offsets[i0..i] == Emits(old(Value()))
    {
      hide SetBits, ALL_ONES, Offsets, Complement;
      var record := words[walker];
      i := DrainWord(offsets, i0);
      words[walker] := Complement(record);
      walker := walker + 1;
      if walker == currentSize {
        walker := 0;
      }
      offsetMask := ALL_ONES;
    }

    /** The inner loop: the offsets of all set bits of the word under the hand, lowest first. */
    method DrainWord(offsets: array<nat>, i0: nat) returns (i: nat)
      requires Valid() && currentSize > 0
      requires i0 + 64 <= offsets.Length
      modifies this`offsetMask, offsets
      ensures i0 <= i <= i0 + 64
      ensures offsets[..i0] == old(offsets[..i0])
      ensures offsets[i0..i] == Offsets(walker, SetBits(words[walker], 0))
    {
      hide SetBits, ALL_ONES, Offsets, MaskFrom, Complement, And, Ffs, Bit;
      i := i0;
      ghost var lo := 0;
      ghost var todo := Offsets(walker, SetBits(words[walker], 0));
      AllOnesMask();
      while true
        invariant lo <= 63 && MaskFrom(offsetMask, lo)
        invariant i0 <= i <= i0 + lo
        invariant offsets[..i0] == old(offsets[..i0])
        invariant todo == Offsets(walker, SetBits(words[walker], lo))
        invariant offsets[i0..i] + todo == Offsets(walker, SetBits(words[walker], 0))
        decreases 64 - lo
      {
        MaskedFfs(words[walker], offsetMask, lo);
        var j := Ffs(And(words[walker], offsetMask)) - 1;
        if j < 0 {
          NoOffsets(walker);
          break;
        }
        ghost var emitted := offsets[i0..i];
        OneOffset(walker, j, SetBits(words[walker], j + 1));
        todo := Offsets(walker, SetBits(words[walker], j + 1));
        offsets[i] := walker * BITSPERWORD + j;
        i := i + 1;
        assert offsets[i0..i] == emitted + [walker * BITSPERWORD + j];
        if j == 63 {
          NoSetBits(words[walker], 64);
          NoOffsets(walker);
          break;
        }
        offsetMask := MaskAbove(j + 1);
        lo := j + 1;
      }
    }

    /** bitmap_update: growth that would use up the reserved words is refused. */
    method Update(newElemNum: nat) returns (r: int)
      requires Valid() && newElemNum % BITSPERWORD == 0
      modifies this
      ensures Valid()
      ensures r == if old(currentSize) + newElemNum / BITSPERWORD >= words.Length then -1 else 0
      ensures old(Running(Value())) ==> Value() == Step(old(Value()), Grown(newElemNum / BITSPERWORD))
      ensures currentSize == if r == 0 then old(currentSize) + newElemNum / BITSPERWORD else old(currentSize)
      ensures walker == old(walker)
    {
      if currentSize + newElemNum / BITSPERWORD >= words.Length {
        return -1;
      }
      currentSize := currentSize + newElemNum / BITSPERWORD;
      return 0;
    }

    /** bitmap_touch. */
    method TouchItem(pos: nat)
      requires Valid() && pos / BITSPERWORD < words.Length
      modifies words
      ensures Value() == Touch(old(Value()), pos)
      ensures !Idle(Value(), pos)
    {
      ClearBitBit(words[pos / BITSPERWORD], pos % BITSPERWORD, pos % BITSPERWORD);
      words[pos / BITSPERWORD] := ClearBit(words[pos / BITSPERWORD], pos % BITSPERWORD);
    }
  }

  lemma EvictedNothing(c: Clock)
    requires Running(c)
    ensures Evicted(c, 0) == [] && After(c, 0) == c
  {
  }

  lemma EvictedOneMore(c: Clock, n: nat)
    requires Running(c)
    ensures Evicted(c, n + 1) == Evicted(c, n) + Emits(After(c, n))
    ensures After(c, n + 1) == Visit(After(c, n))
  {
  }

  lemma NoOffsets(word: nat)
    ensures Offsets(word, []) == []
  {
  }

  lemma OneOffset(word: nat, j: nat, rest: seq<nat>)
    ensures Offsets(word, [j] + rest) == [word * BITSPERWORD + j] + Offsets(word, rest)
  {
  }
}
