/**
 The kernels over the bucket array, updated in place.  One group of eight lanes
 runs at a time, so a claimed slot is always found claimed on the re-check; the
 race between groups is the subject of module SlotRace.
 */
module CuckooKernel {
  import opened Bits
  import opened GpuHash
  import opened CuckooSpec
  import opened CuckooLaws

  // ----- ballots ------------------------------------------------------------

  /** Bit j of the vote of lanes k.. says whether lane k + j holds x. */
  function Ballot(s: Lanes, x: Word, k: nat): (v: nat)
    requires k <= ELEM_NUM
    decreases ELEM_NUM - k
  {
    if k == ELEM_NUM then 0 else 2 * Ballot(s, x, k + 1) + (if s[k] == x then 1 else 0)
  }

  lemma {:induction false} BallotBit(s: Lanes, x: Word, k: nat, j: nat)
    requires k <= ELEM_NUM
    ensures Bit(Ballot(s, x, k), j) <==> k + j < ELEM_NUM && s[k + j] == x
    decreases ELEM_NUM - k
  {
    if k == ELEM_NUM {
      BitZero(j);
    } else if j > 0 {
      BallotBit(s, x, k + 1, j - 1);
    }
  }

  /** The lane of the first set bit, where bits 16.. repeat the lanes from 0. */
  function Leader(ballot: nat): (l: nat)
    requires ballot != 0
    ensures l < ELEM_NUM
  {
    Major(Leading(ballot))
  }

  function Leading(ballot: nat): (w: Word)
    requires ballot != 0
  {
    if Ffs(ballot) - 1 < 32 then Ffs(ballot) - 1 else 0
  }

  /** Lanes below the major lane are moved behind the others: 16 bits to 32 bits. */
  function Rotated(ballot: nat, mlMask: nat): nat
    requires mlMask < Pow2(32)
  {
    Or(Shl(And(ballot, mlMask), 16), And(ballot, Not(32, mlMask)))
  }

  lemma LeaderIs(v: nat)
    requires v != 0 && Ffs(v) <= 32
    ensures Leader(v) == (Ffs(v) - 1) % ELEM_NUM
  {
    MajorIsMod(Ffs(v) - 1);
  }

  lemma MatchBallot(b: Bucket, sig: Word)
    ensures Ballot(b.sig, sig, 0) != 0 <==> MatchLane(b, sig).Some?
    ensures Ballot(b.sig, sig, 0) != 0 ==> Leader(Ballot(b.sig, sig, 0)) == MatchLane(b, sig).value
  {
    hide Ballot, Leader, FirstLane, Ffs, Bit;
    var v := Ballot(b.sig, sig, 0);
    var m := MatchLane(b, sig);
    if v != 0 {
      var f := Ffs(v) - 1;
      BallotBit(b.sig, sig, 0, f);
      if m.Some? { BallotBit(b.sig, sig, 0, m.value); }
      LeaderIs(v);
    } else if m.Some? {
      BallotBit(b.sig, sig, 0, m.value);
      BitZero(m.value);
    }
  }

  lemma RotatedBit(b: Bucket, major: nat, k: nat)
    requires major < ELEM_NUM
    ensures Ones(major) < Pow2(32)
    ensures Bit(Rotated(Ballot(b.sig, 0, 0), Ones(major)), k) <==>
            || (major <= k < ELEM_NUM && b.sig[k] == 0)
            || (16 <= k < 16 + major && b.sig[k - 16] == 0)
  {
    hide Bit, Ballot, Pow2, And, Or, Shl, Not, Ones;
    MaskFits(major);
    var v, m := Ballot(b.sig, 0, 0), Ones(major);
    BitOr(Shl(And(v, m), 16), And(v, Not(32, m)), k);
    BitShl(And(v, m), 16, k);
    if 16 <= k {
      BitAnd(v, m, k - 16);
      BitOnes(major, k - 16);
      BallotBit(b.sig, 0, 0, k - 16);
    }
    BitAnd(v, Not(32, m), k);
    BallotBit(b.sig, 0, 0, k);
    if k < 32 {
      BitNot(32, m, k);
      BitOnes(major, k);
    }
  }

  lemma MaskFits(major: nat)
    requires major < ELEM_NUM
    ensures Ones(major) < Pow2(32)
  {
    Pow2Monotone(major, 32);
  }

  /** The rotated ballot elects the first empty lane from the major lane on, wrapping around. */
  lemma EmptyBallot(b: Bucket, major: nat)
    requires major < ELEM_NUM
    ensures Ones(major) < Pow2(32)
    ensures var v := Rotated(Ballot(b.sig, 0, 0), Ones(major));
            && (v != 0 <==> EmptyLane(b, major).Some?)
            && (v != 0 ==> Leader(v) == EmptyLane(b, major).value)
  {
    hide Bit, Ballot, Rotated, Pow2, Ones, Leader, FirstLane, Ffs;
    MaskFits(major);
    var v := Rotated(Ballot(b.sig, 0, 0), Ones(major));
    var e := EmptyLane(b, major);
    // The bit that stands for the elected lane.
    var bit := if e.None? then 0 else if e.value < major then 16 + e.value else e.value;
    if e.Some? {
      RotatedBit(b, major, bit);
      BitZero(bit);
    }
    if v != 0 {
      var f := Ffs(v) - 1;
      RotatedBit(b, major, f);
      var first := FirstLane(b.sig, 0, major, ELEM_NUM);
      assert f == bit;
      LeaderIs(v);
    }
  }

  // ----- the table ----------------------------------------------------------

  datatype Query = Query(sig: Word, hash: Word)

  class HashTable {
    const buckets: array<Bucket>

    ghost predicate Valid()
    {
      buckets.Length == BUC_NUM
    }

    ghost function Contents(): (t: Table)
      requires Valid()
      reads buckets
    {
      buckets[..]
    }

    constructor ()
      ensures Valid() && fresh(buckets)
      ensures forall i: nat, l: nat | i < BUC_NUM && l < ELEM_NUM :: Contents()[i].sig[l] == 0
    {
      buckets := new Bucket[BUC_NUM](_ => Bucket(seq(ELEM_NUM, _ => 0), seq(ELEM_NUM, _ => 0)));
    }

    method WriteSig(i: nat, l: nat, sig: Word)
      requires Valid() && i < BUC_NUM && l < ELEM_NUM
      modifies buckets
      ensures Contents() == old(Contents())[i := Bucket(old(buckets[i]).sig[l := sig], old(buckets[i]).loc)]
    {
      var b := buckets[i];
      buckets[i] := Bucket(b.sig[l := sig], b.loc);
    }

    method WriteLoc(i: nat, l: nat, loc: Word)
      requires Valid() && i < BUC_NUM && l < ELEM_NUM
      modifies buckets
      ensures Contents() == old(Contents())[i := Bucket(old(buckets[i]).sig, old(buckets[i]).loc[l := loc])]
    {
      var b := buckets[i];
      buckets[i] := Bucket(b.sig, b.loc[l := loc]);
    }

    /** Claim a slot: the signature first, then the location. */
    method WriteSlot(i: nat, l: nat, e: Entry)
      requires Valid() && i < BUC_NUM && l < ELEM_NUM
      modifies buckets
      ensures Contents() == PutAt(old(Contents()), i, l, e)
    {
      WriteSig(i, l, e.sig);
      WriteLoc(i, l, e.loc);
    }

    /** A slot that has the signature already gets the location only. */
    method RefreshSlot(i: nat, l: nat, e: Entry)
      requires Valid() && i < BUC_NUM && l < ELEM_NUM && buckets[i].sig[l] == e.sig
      modifies buckets
      ensures Contents() == PutAt(old(Contents()), i, l, e)
    {
      assert buckets[i].sig[l := e.sig] == buckets[i].sig;
      WriteLoc(i, l, e.loc);
    }

    /** hash_insert_cuckoo for one element. */
    method InsertOne(r: Elem)
      requires Valid()
      modifies buckets
      ensures Contents() == Insert(old(Contents()), r, false).table
    {
      hide Alt, Home, MatchLane, EmptyLane, Chain, Major, Ballot, Rotated, Leader, PutAt;
      if r.sig == 0 && r.loc == 0 {
        return;
      }
      var sig, hash, loc := r.sig, r.hash, r.loc;
      var i := Home(hash);
      var b := buckets[i];
      var ballot := Ballot(b.sig, sig, 0);
      MatchBallot(b, sig);
      if ballot != 0 {
        var chosen := Leader(ballot);
        RefreshSlot(i, chosen, Entry(sig, loc));
        return;
      }

      var major := Major(r.sig);
      EmptyBallot(b, major);
      ballot := Rotated(Ballot(b.sig, 0, 0), Ones(major));
      if ballot != 0 {
        var chosen := Leader(ballot);
        WriteSlot(i, chosen, Entry(sig, loc));
        return;
      }
      ReplaceChain(r, major);
    }

    /** The part of the kernel from the second bucket on. */
    method ReplaceChain(r: Elem, major: nat)
      requires Valid() && major == Major(r.sig)
      modifies buckets
      ensures Contents() == Chain(old(Contents()), r.hash, major, Entry(r.sig, r.loc), 0, false).table
    {
      hide Alt, MatchLane, EmptyLane, Major, Ballot, Rotated, Leader, PutAt;
      var sig, loc, cuckooNum := r.sig, r.loc, 0;
      ghost var goal := Chain(Contents(), r.hash, major, Entry(sig, loc), 0, false).table;
      while true
        invariant cuckooNum <= MAX_CUCKOO_NUM
        invariant Chain(Contents(), r.hash, major, Entry(sig, loc), cuckooNum, false).table == goal
        decreases MAX_CUCKOO_NUM - cuckooNum
      {
        var second := Alt(r.hash, sig);
        var b := buckets[second];
        var ballot := Ballot(b.sig, sig, 0);
        MatchBallot(b, sig);
        if ballot != 0 {
          var chosen := Leader(ballot);
          RefreshSlot(second, chosen, Entry(sig, loc));
          return;
        }
        EmptyBallot(b, major);
        ballot := Rotated(Ballot(b.sig, 0, 0), Ones(major));
        if ballot != 0 {
          var chosen := Leader(ballot);
          WriteSlot(second, chosen, Entry(sig, loc));
          return;
        }
        var newSig, newLoc := b.sig[major], b.loc[major];
        WriteSlot(second, major, Entry(sig, loc));
        if cuckooNum < MAX_CUCKOO_NUM {
          cuckooNum := cuckooNum + 1;
          sig, loc := newSig, newLoc;
        } else {
          return;
        }
      }
    }

    /** One insert block: its elements one after the other. */
    method InsertBlock(block: seq<Elem>)
      requires Valid()
      modifies buckets
      ensures Contents() == Run(old(Contents()), seq(|block|, k requires 0 <= k < |block| => Ins(block[k])), false)
    {
      ghost var ops := seq(|block|, k requires 0 <= k < |block| => Ins(block[k]));
      for id := 0 to |block|
        invariant Contents() == Run(old(Contents()), ops[..id], false)
      {
        assert ops[..id + 1][..id] == ops[..id];
        InsertOne(block[id]);
      }
      assert ops[..|block|] == ops;
    }

    /** hash_delete for one element. */
    method DeleteOne(r: Elem)
      requires Valid()
      modifies buckets
      ensures Contents() == Delete(old(Contents()), r)
    {
      hide Alt, Home;
      var e := Entry(r.sig, r.loc);
      var held := ClearLanes(Home(r.hash), e);
      if held {
        return;
      }
      assert ClearBucket(old(buckets[Home(r.hash)]), e).sig == old(buckets[Home(r.hash)]).sig;
      assert Contents() == old(Contents());
      held := ClearLanes(Alt(r.hash, r.sig), e);
    }

    method ClearLanes(i: nat, e: Entry) returns (held: bool)
      requires Valid() && i < BUC_NUM
      modifies buckets
      ensures held == Holds(old(buckets[i]), e)
      ensures Contents() == old(Contents())[i := ClearBucket(old(buckets[i]), e)]
    {
      ghost var b := buckets[i];
      held := false;
      for lane := 0 to ELEM_NUM
        invariant buckets[i].loc == b.loc
        invariant forall l: nat | l < ELEM_NUM ::
                    buckets[i].sig[l] == if l < lane && b.sig[l] == e.sig && b.loc[l] == e.loc then 0 else b.sig[l]
        invariant held == exists l: nat | l < lane :: b.sig[l] == e.sig && b.loc[l] == e.loc
        invariant Contents() == old(Contents())[i := buckets[i]]
      {
        if buckets[i].sig[lane] == e.sig && buckets[i].loc[lane] == e.loc {
          WriteSig(i, lane, 0);
          held := true;
        }
      }
      assert buckets[i].sig == ClearBucket(b, e).sig;
    }

    /** The eight lanes write in any order; the last matching one wins. */
    method SearchBucket(i: nat, sig: Word, out: array<Word>, k: nat)
      requires Valid() && i < BUC_NUM && k < out.Length && out[k] == 0
      modifies out
      ensures LaneWrites(buckets[i], sig, out[k])
      ensures forall m | 0 <= m < out.Length && m != k :: out[m] == old(out[m])
    {
      var b := buckets[i];
      var pending: set<nat> := {0, 1, 2, 3, 4, 5, 6, 7};
      ghost var wrote := false;
      while pending != {}
        invariant forall l | l in pending :: 0 <= l < ELEM_NUM
        invariant !wrote ==> out[k] == 0 && forall l: nat | l < ELEM_NUM && l !in pending :: b.sig[l] != sig
        invariant wrote ==> exists l: nat | l < ELEM_NUM :: b.sig[l] == sig && b.loc[l] == out[k]
        invariant forall m | 0 <= m < out.Length && m != k :: out[m] == old(out[m])
        decreases pending
      {
        var lane :| lane in pending;
        pending := pending - {lane};
        if b.sig[lane] == sig {
          out[k] := b.loc[lane];
          wrote := true;
        }
      }
    }

    /** hash_search: two answers per query into a zeroed output array. */
    method Search(queries: seq<Query>, out: array<Word>)
      requires Valid() && out.Length == 2 * |queries|
      requires forall m | 0 <= m < out.Length :: out[m] == 0
      modifies out
      ensures forall id | 0 <= id < |queries| ::
                && LaneWrites(buckets[Home(queries[id].hash)], queries[id].sig, out[2 * id])
                && LaneWrites(buckets[Alt(queries[id].hash, queries[id].sig)], queries[id].sig, out[2 * id + 1])
      ensures AllUnique(Contents()) ==> forall id | 0 <= id < |queries| && queries[id].sig != 0 ::
                && out[2 * id] == Lookup(buckets[Home(queries[id].hash)], queries[id].sig)
                && out[2 * id + 1] == Lookup(buckets[Alt(queries[id].hash, queries[id].sig)], queries[id].sig)
    {
      hide Alt, Home, LaneWrites, Lookup;
      for id := 0 to |queries|
        invariant forall m | 2 * id <= m < out.Length :: out[m] == 0
        invariant forall d | 0 <= d < id ::
                    && LaneWrites(buckets[Home(queries[d].hash)], queries[d].sig, out[2 * d])
                    && LaneWrites(buckets[Alt(queries[d].hash, queries[d].sig)], queries[d].sig, out[2 * d + 1])
      {
        SearchBucket(Home(queries[id].hash), queries[id].sig, out, 2 * id);
        SearchBucket(Alt(queries[id].hash, queries[id].sig), queries[id].sig, out, 2 * id + 1);
      }
      if AllUnique(Contents()) {
        forall id | 0 <= id < |queries| && queries[id].sig != 0
          ensures out[2 * id] == Lookup(buckets[Home(queries[id].hash)], queries[id].sig)
          ensures out[2 * id + 1] == Lookup(buckets[Alt(queries[id].hash, queries[id].sig)], queries[id].sig)
        {
          var q := queries[id];
          assert UniqueSigs(Contents()[Home(q.hash)]) && UniqueSigs(Contents()[Alt(q.hash, q.sig)]);
          SearchIsLookup(buckets[Home(q.hash)], q.sig, out[2 * id]);
          SearchIsLookup(buckets[Alt(q.hash, q.sig)], q.sig, out[2 * id + 1]);
        }
      }
    }
  }
}
