/**
 Runs that go wrong, from the first insert on: an entry displaced out of sight,
 an insert that leaves no trace, and a signature that gets into a bucket twice.
 */
module CuckooExamples {
  import opened Bits
  import opened GpuHash
  import opened Wrappers
  import opened CuckooSpec
  import opened CuckooLaws
  import opened CuckooPlacement
  import opened CuckooNewEntry
  import opened SlotVotes
  import opened EvictionRace
  import opened EvictionRuns

  // ----- filling buckets ----------------------------------------------------

  /** The first n lanes hold these signatures, and the locations from firstLoc on. */
  ghost function Filled(sigs: Lanes, firstLoc: Word, n: nat): Bucket
    requires firstLoc < 1000
  {
    Bucket(seq(ELEM_NUM, l requires 0 <= l < ELEM_NUM => if l < n then sigs[l] else 0),
           seq(ELEM_NUM, l requires 0 <= l < ELEM_NUM => if l < n then firstLoc + l else 0))
  }

  ghost function EmptyBucket(): Bucket
  {
    Bucket(seq(ELEM_NUM, _ => 0), seq(ELEM_NUM, _ => 0))
  }

  ghost function EmptyTable(): (t: Table)
    ensures forall i: nat | i < BUC_NUM :: t[i] == EmptyBucket()
  {
    var b := EmptyBucket();
    seq(BUC_NUM, _ => b)
  }

  /** Inserts for n keys with hash h. */
  ghost function FillOps(h: Word, sigs: Lanes, firstLoc: Word, n: nat): (ops: seq<Op>)
    requires firstLoc < 1000 && n <= ELEM_NUM
    ensures |ops| == n
  {
    seq(n, k requires 0 <= k < n => Ins(Elem(sigs[k], h, firstLoc + k)))
  }

  /** Inserted in this order, each signature finds its place in the next lane. */
  ghost predicate Stacks(sigs: Lanes)
  {
    && (forall l: nat | l < ELEM_NUM :: sigs[l] != 0 && sigs[l] % ELEM_NUM <= l)
    && (forall k: nat, l: nat | k < l < ELEM_NUM :: sigs[k] != sigs[l])
  }

  lemma FirstFree(b: Bucket, major: nat, n: nat)
    requires major <= n < ELEM_NUM && forall l: nat | l < ELEM_NUM :: b.sig[l] == 0 <==> n <= l
    ensures EmptyLane(b, major) == Some(n)
  {
    hide FirstLane;
    var f := FirstLane(b.sig, 0, major, ELEM_NUM);
    assert b.sig[n] == 0;
    assert f.Some?;
  }

  lemma FilledLanes(sigs: Lanes, firstLoc: Word, n: nat)
    requires Stacks(sigs) && firstLoc < 1000 && n < ELEM_NUM
    ensures var b := Filled(sigs, firstLoc, n);
            && MatchLane(b, sigs[n]).None? && EmptyLane(b, sigs[n] % ELEM_NUM) == Some(n)
            && Put(b, n, Entry(sigs[n], firstLoc + n)) == Filled(sigs, firstLoc, n + 1)
  {
    hide MatchLane;
    var b := Filled(sigs, firstLoc, n);
    assert forall l: nat | l < ELEM_NUM :: b.sig[l] != sigs[n] && (b.sig[l] == 0 <==> n <= l);
    FirstFree(b, sigs[n] % ELEM_NUM, n);
  }

  lemma FillOne(t: Table, h: Word, sigs: Lanes, firstLoc: Word, n: nat)
    requires Stacks(sigs) && firstLoc < 1000 && n < ELEM_NUM
    requires h < BUC_NUM && t[h] == Filled(sigs, firstLoc, n)
    ensures Insert(t, Elem(sigs[n], h, firstLoc + n), false).table == t[h := Filled(sigs, firstLoc, n + 1)]
  {
    hide Alt, Home, Major, Chain, MatchLane, EmptyLane, Filled, Put, Stacks;
    HomeIdempotent(h);
    MajorIsMod(sigs[n]);
    FilledLanes(sigs, firstLoc, n);
    assert sigs[n] != 0 by { Stacked(sigs, n); }
  }

  lemma Stacked(sigs: Lanes, n: nat)
    requires Stacks(sigs) && n < ELEM_NUM
    ensures sigs[n] != 0
  {
  }

  /** Keys of one hash fill their home bucket lane by lane. */
  lemma {:induction false} FillBucket(t: Table, h: Word, sigs: Lanes, firstLoc: Word, n: nat)
    requires Stacks(sigs) && firstLoc < 1000 && n <= ELEM_NUM
    requires h < BUC_NUM && t[h] == EmptyBucket()
    ensures Run(t, FillOps(h, sigs, firstLoc, n), false) == t[h := Filled(sigs, firstLoc, n)]
  {
    hide Insert, Stacks;
    if n == 0 {
      assert Filled(sigs, firstLoc, 0) == EmptyBucket();
    } else {
      FillBucket(t, h, sigs, firstLoc, n - 1);
      assert FillOps(h, sigs, firstLoc, n)[..n - 1] == FillOps(h, sigs, firstLoc, n - 1);
      FillOne(t[h := Filled(sigs, firstLoc, n - 1)], h, sigs, firstLoc, n - 1);
    }
  }

  // ----- displaced out of sight ---------------------------------------------

  const HOME0: seq<Word> := [8, 9, 10, 11, 12, 13, 14, 15]
  const HOME1: seq<Word> := [16, 17, 18, 19, 20, 21, 22, 23]

  /** Sixteen keys, eight at home in bucket 0 and eight in bucket 1. */
  ghost function CrowdedOps(): seq<Op>
  {
    FillOps(0, HOME0, 100, ELEM_NUM) + FillOps(1, HOME1, 200, ELEM_NUM)
  }

  /** Buckets 0 and 1 are full of entries at home there; all others are empty. */
  ghost function CrowdedTable(): (t: Table)
    ensures forall i: nat | i < BUC_NUM :: t[i] == CrowdedBucket(i)
  {
    EmptyTable()[0 := Filled(HOME0, 100, ELEM_NUM)][1 := Filled(HOME1, 200, ELEM_NUM)]
  }

  ghost function CrowdedBucket(i: nat): Bucket
  {
    if i == 0 then Filled(HOME0, 100, ELEM_NUM) else if i == 1 then Filled(HOME1, 200, ELEM_NUM) else EmptyBucket()
  }

  lemma CrowdedIsReached()
    ensures Run(EmptyTable(), CrowdedOps(), false) == CrowdedTable()
  {
    hide Insert, Filled, EmptyTable, EmptyBucket, FillOps, Stacks;
    HomesStack();
    var t := EmptyTable();
    FillBucket(t, 0, HOME0, 100, ELEM_NUM);
    FillBucket(t[0 := Filled(HOME0, 100, ELEM_NUM)], 1, HOME1, 200, ELEM_NUM);
    RunAppend(t, FillOps(0, HOME0, 100, ELEM_NUM), FillOps(1, HOME1, 200, ELEM_NUM), false);
  }

  ghost function CrowdedHome(loc: Word): Word
  {
    if 200 <= loc < 300 then 1 else 0
  }

  lemma SmallBuckets()
    ensures Home(0) == 0 && Home(1) == 1 && Alt(0, 1) == 1 && Alt(0, 17) == 17 && Alt(1, 17) != 17
    ensures Major(1) == 1
  {
    HomeIdempotent(0);
    HomeIdempotent(1);
    assert Ones(3) == 7;
    LowSmall(1);
    LowSmall(17);
    AltOfZero(1);
    AltOfZero(17);
    AltInvolution(0, 17);
    AltInvolution(1, 17);
  }

  lemma LowSmall(sig: Word)
    requires sig < 32
    ensures Low(sig) == sig
  {
    MasksFit();
    assert Pow2(5) == 32;
    forall k: nat | k < HASH_BITS ensures Bit(Low(sig), k) == Bit(sig, k) {
      LowBit(sig, k);
      if 5 <= k { BitHigh(5, sig, k); }
    }
    Extensional(HASH_BITS, Low(sig), sig);
  }

  lemma CrowdedIsPlaced()
    ensures Placed(CrowdedTable(), CrowdedHome) && AllUnique(CrowdedTable())
  {
    hide Alt;
    HomeIdempotent(0);
    HomeIdempotent(1);
    var t := CrowdedTable();
    forall i: nat, l: nat | i < BUC_NUM && l < ELEM_NUM ensures SlotPlaced(t, i, l, CrowdedHome) {
      assert t[i] == CrowdedBucket(i);
    }
    forall i: nat | i < BUC_NUM ensures UniqueSigs(t[i]) {
      assert t[i] == CrowdedBucket(i);
    }
  }

  /**
   Seventeen inserts into an empty index.  The last, of signature 1, finds its home
   bucket 0 full, is sent on to bucket 1, and displaces signature 17 into bucket
   17, where no search for its key looks.
   */
  lemma DisplacedOutOfSight()
    ensures var t := Run(EmptyTable(), CrowdedOps(), false);
            var t' := Run(EmptyTable(), CrowdedOps() + [Ins(Elem(1, 0, 300))], false);
            && Placed(t, CrowdedHome) && AllUnique(t)
            && Found(t, 17, 1, 201)
            && !Placed(t', CrowdedHome)
            && !Found(t', 17, 1, 201)
  {
    hide Alt, Home, Major, FirstLane, CrowdedTable, Low, EmptyTable, CrowdedOps, Insert;
    SmallBuckets();
    CrowdedIsPlaced();
    CrowdedIsReached();
    var t := CrowdedTable();
    var ops := CrowdedOps();
    assert (ops + [Ins(Elem(1, 0, 300))])[..|ops|] == ops;
    assert t[0] == CrowdedBucket(0) && t[1] == CrowdedBucket(1) && t[17] == CrowdedBucket(17);
    EveryLiveEntryIsFound(t, CrowdedHome, 1, 1);
    CrowdedChain(t);
  }

  lemma CrowdedChain(t: Table)
    requires t == CrowdedTable()
    ensures var t' := Insert(t, Elem(1, 0, 300), false).table;
            !Placed(t', CrowdedHome) && !Found(t', 17, 1, 201)
  {
    hide Alt, Home, Major, CrowdedTable, Low, Insert, Chain;
    SmallBuckets();
    var v := Entry(17, 201);
    var t1 := PutAt(t, 1, 1, Entry(1, 300));
    assert t[0] == CrowdedBucket(0) && t[1] == CrowdedBucket(1) && t[17] == CrowdedBucket(17);
    CrowdedFirst(t);
    var l := CrowdedSecond(t1);
    var t' := Insert(t, Elem(1, 0, 300), false).table;
    assert t' == PutAt(t1, 17, l, v);
    assert !SlotPlaced(t', 17, l, CrowdedHome);
    var j := Alt(1, 17);
    assert t[j] == CrowdedBucket(j);
    assert 17 !in t'[1].sig;
    assert 17 !in t'[j].sig;
  }

  lemma CrowdedFirst(t: Table)
    requires t[0] == Filled(HOME0, 100, ELEM_NUM) && t[1] == Filled(HOME1, 200, ELEM_NUM)
    ensures Insert(t, Elem(1, 0, 300), false).table ==
            Chain(PutAt(t, 1, 1, Entry(1, 300)), 0, 1, Entry(17, 201), 1, false).table
  {
    hide Alt, Home, Major, Low;
    SmallBuckets();
    assert MatchLane(t[0], 1).None? && EmptyLane(t[0], 1).None?;
    assert MatchLane(t[1], 1).None? && EmptyLane(t[1], 1).None?;
    assert EntryAt(t, 1, 1) == Entry(17, 201);
  }

  lemma CrowdedSecond(t: Table) returns (l: nat)
    requires t[17].sig == seq(ELEM_NUM, _ => 0)
    ensures l < ELEM_NUM && Chain(t, 0, 1, Entry(17, 201), 1, false).table == PutAt(t, 17, l, Entry(17, 201))
  {
    hide Alt, Home, Major, Low, FirstLane;
    SmallBuckets();
    assert t[17].sig[0] == 0;
    assert MatchLane(t[17], 17).None?;
    l := EmptyLane(t[17], 1).value;
  }

  // ----- an insert that leaves no trace -------------------------------------

  /** Signature 1 + 2^21 in lane 1 has the same low bits as signature 1. */
  const LOOKALIKE: Word := 0x20_0001
  const HOME1A: seq<Word> := [16, LOOKALIKE, 18, 19, 20, 21, 22, 23]

  ghost function BouncingOps(): seq<Op>
  {
    FillOps(0, HOME0, 100, ELEM_NUM) + FillOps(1, HOME1A, 200, ELEM_NUM)
  }

  lemma {:induction false} BitOfSum(w: nat, n: nat, k: nat)
    requires k < n
    ensures Bit(w + Pow2(n), k) == Bit(w, k)
  {
    if k > 0 {
      assert (w + Pow2(n)) / 2 == w / 2 + Pow2(n - 1);
      BitOfSum(w / 2, n - 1, k - 1);
    }
  }

  lemma LookalikeLow()
    ensures Low(LOOKALIKE) == Low(1)
  {
    hide Low;
    MasksFit();
    forall k: nat | k < HASH_BITS ensures Bit(Low(LOOKALIKE), k) == Bit(Low(1), k) {
      LowBit(LOOKALIKE, k);
      LowBit(1, k);
      if k < BLOCK_BITS {
        assert Pow2(21) == 0x20_0000;
        BitOfSum(1, BLOCK_BITS, k);
      }
    }
    Extensional(HASH_BITS, Low(LOOKALIKE), Low(1));
  }

  lemma Home1AStacks()
    ensures Stacks(HOME1A)
  {
  }

  /**
   Seventeen inserts into an empty index.  The last, of signature 1, finds both its
   buckets full; the entry in its way has the same low bits, so the two throw each
   other out until the new one is dropped.  The index is as before.
   */
  lemma BouncedOut()
    ensures var t := Run(EmptyTable(), BouncingOps(), false);
            Run(EmptyTable(), BouncingOps() + [Ins(Elem(1, 0, 300))], false) == t && Reported(t, 1, 0) == 0
  {
    hide Alt, Home, Major, Low, Insert, EmptyTable, FillOps, Filled, EmptyBucket, Stacks, AllUnique, Clean, Lookup;
    Home0Stacks();
    Home1AStacks();
    SmallBuckets();
    LookalikeLow();
    var t0, a, b := EmptyTable(), FillOps(0, HOME0, 100, ELEM_NUM), FillOps(1, HOME1A, 200, ELEM_NUM);
    FillBucket(t0, 0, HOME0, 100, ELEM_NUM);
    FillBucket(t0[0 := Filled(HOME0, 100, ELEM_NUM)], 1, HOME1A, 200, ELEM_NUM);
    RunAppend(t0, a, b, false);
    EmptyIsUnique();
    FillClean(0, HOME0, 100);
    FillClean(1, HOME1A, 200);
    CleanBoth(a, b);
    RunUnique(t0, BouncingOps(), false);
    var t := Run(t0, BouncingOps(), false);
    assert t[0] == Filled(HOME0, 100, ELEM_NUM) && t[1] == Filled(HOME1A, 200, ELEM_NUM);
    BouncedFull();
    SameLowBitsForgotten(t, Elem(1, 0, 300));
    var ops := BouncingOps() + [Ins(Elem(1, 0, 300))];
    assert ops[..|ops| - 1] == BouncingOps();
  }

  lemma BouncedFull()
    ensures var b := Filled(HOME0, 100, ELEM_NUM); FullBucket(b) && 1 !in b.sig
    ensures var b := Filled(HOME1A, 200, ELEM_NUM); FullBucket(b) && 1 !in b.sig && b.sig[1] == LOOKALIKE
  {
  }

  // ----- races --------------------------------------------------------------

  /** A group that has come from its full home bucket. */
  function Arriving(e: Entry, hash: Word): Hand
  {
    Hand(e, hash, Major(e.sig), 0, false)
  }

  lemma OwnLane(b: Bucket, major: Lane)
    requires b.sig[major] == 0
    ensures EmptyLane(b, major) == Some(major)
  {
  }

  lemma ChecksOut(s: State, g: nat)
    requires Checks(s, g) && s.hands[g].value.entry.sig !in s.table[Target(s.hands[g].value)].sig
    ensures Check(s, g) == s.(hands := s.hands[g := Some(s.hands[g].value.(checked := true))])
  {
    hide Target, FirstLane;
  }

  /** Both groups make their check, find nothing, and a round follows in which both survive unless they share a slot. */
  lemma CheckedRound(s: State, x: Hand, y: Hand) returns (s1: State, s2: State, s3: State)
    requires s.hands == [Some(x), Some(y)] && !x.checked && !y.checked
    requires x.entry.sig !in s.table[Target(x)].sig && y.entry.sig !in s.table[Target(y)].sig
    ensures Checks(s, 0) && s1 == Check(s, 0) && Checks(s1, 1) && s2 == Check(s1, 1) && Round(s2, s3)
    ensures s2 == s.(hands := [Some(x.(checked := true)), Some(y.(checked := true))]) && Racing(s2, 0) && Racing(s2, 1)
    ensures Wins(Ballot(s2), s3.table, 0)
    ensures (SameSlot(Ballot(s2), 0, 1) ==> x.entry.sig == y.entry.sig) ==> Wins(Ballot(s2), s3.table, 1)
  {
    hide Target, Elected, Round, Check, Wins, Ballot;
    ChecksOut(s, 0);
    s1 := Check(s, 0);
    TargetUnchecked(x);
    TargetUnchecked(y);
    ChecksOut(s1, 1);
    s2 := Check(s1, 1);
    s3 := SomeRound(s2, 0, 1);
  }

  lemma TargetUnchecked(h: Hand)
    ensures Target(h.(checked := true)) == Target(h)
  {
  }

  /**
   After a round a group that has survived in a full bucket holds its victim; buckets
   nobody voted on are as before.
   */
  lemma Evicts(s: State, s': State, g: nat)
    requires Round(s, s') && Racing(s, g) && Wins(Ballot(s), s'.table, g) && Crowded(s.table, s.hands[g].value)
             && s.hands[g].value.n == 0
    ensures |s'.hands| == |s.hands|
    ensures var h := s.hands[g].value;
            s'.hands[g] == Some(Hand(EntryAt(s.table, Target(h), h.major), h.hash, h.major, 1, false))
  {
    hide Target, Landed, Ballot, Wins, Losses;
    assert s'.hands[g] == NextHand(s, s'.table, g);
  }

  lemma Untouched(s: State, s': State, k: nat)
    requires Round(s, s') && k < BUC_NUM
    requires forall g: nat | Racing(s, g) :: Target(s.hands[g].value) != k
    ensures s'.table[k].sig == s.table[k].sig
  {
    hide Landed, Losses, NextHand, Target, Elected;
    forall l: nat | l < ELEM_NUM ensures s'.table[k].sig[l] == s.table[k].sig[l] {
      var w := SigOutcome(Ballot(s), s.table, s'.table, k, l);
    }
  }

  /**
   Two inserts with full second buckets whose victims have one signature and are
   sent to one bucket: the victims vote for different lanes, and both get in.
   */
  lemma VictimsDuplicate(t: Table, hash: Word, x: Entry, y: Entry, v: Word)
    returns (trace: seq<State>, steps: seq<Step>)
    requires x.sig != 0 && y.sig != 0 && v != 0 && Major(x.sig) != Major(y.sig)
    requires Alt(hash, x.sig) != Alt(hash, y.sig) && Alt(hash, v) != Alt(hash, x.sig)
             && Alt(hash, v) != Alt(hash, y.sig)
    requires FullBucket(t[Alt(hash, x.sig)]) && x.sig !in t[Alt(hash, x.sig)].sig
             && t[Alt(hash, x.sig)].sig[Major(x.sig)] == v
    requires FullBucket(t[Alt(hash, y.sig)]) && y.sig !in t[Alt(hash, y.sig)].sig
             && t[Alt(hash, y.sig)].sig[Major(y.sig)] == v
    requires v !in t[Alt(hash, v)].sig && t[Alt(hash, v)].sig[Major(x.sig)] == 0 == t[Alt(hash, v)].sig[Major(y.sig)]
    ensures Races(trace, steps) && steps == [Checking(0), Checking(1), Rounding, Checking(0), Checking(1), Rounding]
    ensures trace[0] == State(t, [Some(Arriving(x, hash)), Some(Arriving(y, hash))], multiset{})
    ensures !AllUnique(trace[6].table)
  {
    hide Alt, EmptyLane, Major, Round, Check, Wins, Ballot, AllUnique;
    var k := Alt(hash, v);
    var s := State(t, [Some(Arriving(x, hash)), Some(Arriving(y, hash))], multiset{});
    var s1, s2, s3 := CheckedRound(s, Arriving(x, hash), Arriving(y, hash));
    FullIsCrowded(t[Alt(hash, x.sig)], Major(x.sig));
    FullIsCrowded(t[Alt(hash, y.sig)], Major(y.sig));
    Evicts(s2, s3, 0);
    Evicts(s2, s3, 1);
    Untouched(s2, s3, k);
    var p, q := s3.hands[0].value, s3.hands[1].value;
    assert s3.hands == [Some(p), Some(q)] && p.entry.sig == v == q.entry.sig;
    var s4, s5, s6 := CheckedRound(s3, p, q);
    OwnLane(s3.table[k], p.major);
    OwnLane(s3.table[k], q.major);
    assert Elected(s5.table, s5.hands[0].value) == p.major != q.major == Elected(s5.table, s5.hands[1].value);
    BothWinDuplicates(s5, s6, 0, 1);
    trace := [s, s1, s2, s3, s4, s5, s6];
    steps := [Checking(0), Checking(1), Rounding, Checking(0), Checking(1), Rounding];
  }

  lemma FullIsCrowded(b: Bucket, major: nat)
    requires major < ELEM_NUM && FullBucket(b)
    ensures EmptyLane(b, major).None?
  {
    hide FirstLane;
  }

  const HOME2: seq<Word> := [24, 25, 17, 27, 28, 29, 30, 31]

  ghost function RacedOps(): seq<Op>
  {
    CrowdedOps() + FillOps(2, HOME2, 300, ELEM_NUM)
  }

  /**
   Twenty-four single inserts, and then signatures 1 and 2 race for their second
   buckets 1 and 2, home bucket 0 being full: signature 17, displaced from both,
   ends up in bucket 17 twice.
   */
  lemma SignatureTwice() returns (trace: seq<State>, steps: seq<Step>)
    ensures Races(trace, steps) && |steps| == 6
    ensures trace[0].table == Run(EmptyTable(), RacedOps(), false)
    ensures trace[0].hands == [Some(Arriving(Entry(1, 400), 0)), Some(Arriving(Entry(2, 401), 0))]
    ensures FullBucket(trace[0].table[Home(0)]) && New(trace[0]) && AllUnique(trace[0].table)
            && !AllUnique(trace[6].table)
  {
    hide Alt, Home, Major, Insert, EmptyTable, FillOps, AllUnique, Filled, EmptyBucket, CrowdedTable, CrowdedOps;
    var t := Run(EmptyTable(), RacedOps(), false);
    RacedTable(t);
    UniqueRun();
    trace, steps := VictimsDuplicate(t, 0, Entry(1, 400), Entry(2, 401), 17);
  }

  lemma UniqueRun()
    ensures AllUnique(Run(EmptyTable(), RacedOps(), false))
  {
    hide Run, FillOps, EmptyTable, AllUnique, Clean, Stacks;
    EmptyIsUnique();
    HomesStack();
    FillClean(0, HOME0, 100);
    FillClean(1, HOME1, 200);
    FillClean(2, HOME2, 300);
    CleanBoth(FillOps(0, HOME0, 100, ELEM_NUM), FillOps(1, HOME1, 200, ELEM_NUM));
    CleanBoth(CrowdedOps(), FillOps(2, HOME2, 300, ELEM_NUM));
    RunUnique(EmptyTable(), RacedOps(), false);
  }

  lemma HomesStack()
    ensures Stacks(HOME0) && Stacks(HOME1) && Stacks(HOME2)
  {
    hide Stacks;
    Home0Stacks();
    Home1Stacks();
    Home2Stacks();
  }

  lemma Home0Stacks()
    ensures Stacks(HOME0)
  {
  }

  lemma Home1Stacks()
    ensures Stacks(HOME1)
  {
  }

  lemma Home2Stacks()
    ensures Stacks(HOME2)
  {
  }

  lemma EmptyIsUnique()
    ensures AllUnique(EmptyTable())
  {
    hide EmptyTable;
    assert UniqueSigs(EmptyBucket());
  }

  lemma CleanBoth(a: seq<Op>, b: seq<Op>)
    requires Clean(a) && Clean(b)
    ensures Clean(a + b)
  {
  }

  lemma FillClean(h: Word, sigs: Lanes, firstLoc: Word)
    requires Stacks(sigs) && firstLoc < 1000
    ensures Clean(FillOps(h, sigs, firstLoc, ELEM_NUM))
  {
  }

  lemma RacedTable(t: Table)
    requires t == Run(EmptyTable(), RacedOps(), false)
    ensures Home(0) == 0 && Alt(0, 1) == 1 && Alt(0, 2) == 2 && Alt(0, 17) == 17 && Major(1) == 1 && Major(2) == 2
    ensures FullBucket(t[0]) && FullBucket(t[1]) && FullBucket(t[2])
    ensures 1 !in t[1].sig && t[1].sig[1] == 17 && 2 !in t[2].sig && t[2].sig[2] == 17
    ensures 17 !in t[17].sig && t[17].sig[1] == 0 == t[17].sig[2]
  {
    hide Alt, Home, Major, Insert, Run, EmptyTable, FillOps, Stacks;
    HomesStack();
    SmallBuckets();
    LowSmall(2);
    AltOfZero(2);
    MajorIsMod(2);
    CrowdedIsReached();
    var c := CrowdedTable();
    assert c[0] == CrowdedBucket(0) && c[1] == CrowdedBucket(1) && c[2] == CrowdedBucket(2)
        && c[17] == CrowdedBucket(17);
    RunAppend(EmptyTable(), CrowdedOps(), FillOps(2, HOME2, 300, ELEM_NUM), false);
    FillBucket(c, 2, HOME2, 300, ELEM_NUM);
    assert t == c[2 := Filled(HOME2, 300, ELEM_NUM)];
  }
}
