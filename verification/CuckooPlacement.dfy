/**
 Where entries end up.  `homeOf` gives, for the location of a stored item, the
 hash of that item's key; a table is placed when every live entry sits in one
 of the two buckets a search for its key looks at.
 */
module CuckooPlacement {
  import opened GpuHash
  import opened CuckooSpec
  import opened CuckooLaws

  ghost predicate SlotPlaced(t: Table, i: nat, l: nat, homeOf: Word -> Word)
    requires i < BUC_NUM && l < ELEM_NUM
  {
    t[i].sig[l] == 0 || InPair(i, homeOf(t[i].loc[l]), t[i].sig[l])
  }

  ghost predicate Placed(t: Table, homeOf: Word -> Word)
  {
    forall i: nat, l: nat | i < BUC_NUM && l < ELEM_NUM :: SlotPlaced(t, i, l, homeOf)
  }

  /** In a placed table of duplicate-free buckets a search finds every live entry under its own key. */
  lemma EveryLiveEntryIsFound(t: Table, homeOf: Word -> Word, i: nat, l: nat)
    requires Placed(t, homeOf) && AllUnique(t)
    requires i < BUC_NUM && l < ELEM_NUM && t[i].sig[l] != 0
    ensures Found(t, t[i].sig[l], homeOf(t[i].loc[l]), t[i].loc[l])
  {
    assert SlotPlaced(t, i, l, homeOf);
    assert UniqueSigs(t[i]);
    BucketMapItems(t[i], EntryAt(t, i, l));
    assert Holds(t[i], EntryAt(t, i, l));
  }

  // ----- the repaired chain -------------------------------------------------

  lemma PutPlaced(t: Table, homeOf: Word -> Word, i: nat, l: nat, e: Entry)
    requires i < BUC_NUM && l < ELEM_NUM && Placed(t, homeOf)
    requires InPair(i, homeOf(e.loc), e.sig)
    ensures Placed(PutAt(t, i, l, e), homeOf)
  {
    hide InPair;
    var t' := PutAt(t, i, l, e);
    forall j: nat, k: nat | j < BUC_NUM && k < ELEM_NUM ensures SlotPlaced(t', j, k, homeOf) {
      assert SlotPlaced(t, j, k, homeOf);
    }
  }

  lemma {:induction false} RepairedChainPlaced(t: Table, homeOf: Word -> Word, hash: Word, major: nat, e: Entry, n: nat)
    requires major < ELEM_NUM && n <= MAX_CUCKOO_NUM && e.sig != 0 && Placed(t, homeOf)
    requires InPair(Alt(hash, e.sig), homeOf(e.loc), e.sig)
    ensures Placed(Chain(t, hash, major, e, n, true).table, homeOf)
    decreases MAX_CUCKOO_NUM - n
  {
    hide Alt, MatchLane, EmptyLane, PutAt, Placed;
    var i := Alt(hash, e.sig);
    match MatchLane(t[i], e.sig)
    case Some(l) => PutPlaced(t, homeOf, i, l, e);
    case None =>
      match EmptyLane(t[i], major)
      case Some(l) => PutPlaced(t, homeOf, i, l, e);
      case None =>
        PutPlaced(t, homeOf, i, major, e);
        if n < MAX_CUCKOO_NUM {
          var v := EntryAt(t, i, major);
          VictimIsPlaced(t, homeOf, i, major);
          AdvancedHashStaysInPair(i, homeOf(v.loc), v.sig);
          RepairedChainPlaced(PutAt(t, i, major, e), homeOf, i, major, v, n + 1);
        }
  }

  lemma VictimIsPlaced(t: Table, homeOf: Word -> Word, i: nat, l: nat)
    requires i < BUC_NUM && l < ELEM_NUM && Placed(t, homeOf) && t[i].sig[l] != 0
    ensures InPair(i, homeOf(t[i].loc[l]), t[i].sig[l])
  {
    assert SlotPlaced(t, i, l, homeOf);
  }

  lemma RepairedInsertPlaced(t: Table, homeOf: Word -> Word, r: Elem)
    requires Placed(t, homeOf) && r.sig != 0 && homeOf(r.loc) == r.hash
    ensures Placed(Insert(t, r, true).table, homeOf)
  {
    hide Alt, Home;
    var e, i := Entry(r.sig, r.loc), Home(r.hash);
    match MatchLane(t[i], r.sig)
    case Some(l) => PutPlaced(t, homeOf, i, l, e);
    case None =>
      match EmptyLane(t[i], Major(r.sig))
      case Some(l) => PutPlaced(t, homeOf, i, l, e);
      case None => RepairedChainPlaced(t, homeOf, r.hash, Major(r.sig), e, 0);
  }

  lemma DeletePlaced(t: Table, homeOf: Word -> Word, r: Elem)
    requires Placed(t, homeOf)
    ensures Placed(Delete(t, r), homeOf)
  {
    hide Alt, Home, InPair;
    forall i: nat, l: nat | i < BUC_NUM && l < ELEM_NUM ensures SlotPlaced(Delete(t, r), i, l, homeOf) {
      assert SlotPlaced(t, i, l, homeOf);
    }
  }

  /** The hashes of h' are those of h wherever a live entry of t points. */
  ghost predicate Rekeyed(t: Table, h: Word -> Word, h': Word -> Word)
  {
    forall i: nat, l: nat | i < BUC_NUM && l < ELEM_NUM && t[i].sig[l] != 0 :: h'(t[i].loc[l]) == h(t[i].loc[l])
  }

  lemma RekeyedPlaced(t: Table, h: Word -> Word, h': Word -> Word)
    requires Placed(t, h) && Rekeyed(t, h, h')
    ensures Placed(t, h')
  {
    hide InPair;
    forall i: nat, l: nat | i < BUC_NUM && l < ELEM_NUM ensures SlotPlaced(t, i, l, h') {
      assert SlotPlaced(t, i, l, h);
    }
  }

  /**
   Step k of a run in which locations are reused: before it, items may have been
   given to other keys as long as no live entry points to them, and an insert
   carries the location of an item with its own hash.
   */
  ghost predicate KeyedStep(t: Table, ops: seq<Op>, homes: seq<Word -> Word>, k: nat)
    requires |homes| == |ops| + 1 && k < |ops|
  {
    && Rekeyed(Run(t, ops[..k], true), homes[k], homes[k + 1])
    && (ops[k].Ins? ==> ops[k].elem.sig != 0 && homes[k + 1](ops[k].elem.loc) == ops[k].elem.hash)
  }

  /** homes[k] gives the hash of the key in each item when k operations are done. */
  ghost predicate Keyed(t: Table, ops: seq<Op>, homes: seq<Word -> Word>)
  {
    |homes| == |ops| + 1 && forall k: nat | k < |ops| :: KeyedStep(t, ops, homes, k)
  }

  lemma KeyedPrefix(t: Table, ops: seq<Op>, homes: seq<Word -> Word>)
    requires ops != [] && Keyed(t, ops, homes)
    ensures Keyed(t, ops[..|ops| - 1], homes[..|ops|])
  {
    hide Rekeyed, Run;
    var n := |ops| - 1;
    var before, homesBefore := ops[..n], homes[..n + 1];
    forall k: nat | k < n ensures KeyedStep(t, before, homesBefore, k) {
      assert KeyedStep(t, ops, homes, k);
      assert before[..k] == ops[..k];
    }
  }

  /**
   Over every run of inserts and deletes, with items changing hands in between,
   the repaired index keeps every entry in its own pair.
   */
  lemma {:induction false} RepairedRunPlaced(t: Table, ops: seq<Op>, homes: seq<Word -> Word>)
    requires Keyed(t, ops, homes) && Placed(t, homes[0])
    ensures Placed(Run(t, ops, true), homes[|ops|])
  {
    hide Placed, Rekeyed, Insert, Delete;
    if ops != [] {
      var n := |ops| - 1;
      var s := Run(t, ops[..n], true);
      KeyedPrefix(t, ops, homes);
      RepairedRunPlaced(t, ops[..n], homes[..n + 1]);
      assert KeyedStep(t, ops, homes, n);
      RekeyedPlaced(s, homes[n], homes[n + 1]);
      match ops[n]
      case Ins(r) => RepairedInsertPlaced(s, homes[n + 1], r);
      case Del(r) => DeletePlaced(s, homes[n + 1], r);
    }
  }

  /**
   Started empty, the repaired index answers every search for a live entry with its
   location, whatever has happened.
   */
  lemma RepairedIndexFindsAll(t: Table, ops: seq<Op>, homes: seq<Word -> Word>, i: nat, l: nat)
    requires forall j: nat, k: nat | j < BUC_NUM && k < ELEM_NUM :: t[j].sig[k] == 0
    requires Keyed(t, ops, homes) && i < BUC_NUM && l < ELEM_NUM
    ensures var t' := Run(t, ops, true);
            t'[i].sig[l] != 0 ==> Found(t', t'[i].sig[l], homes[|ops|](t'[i].loc[l]), t'[i].loc[l])
  {
    hide Run, Found, Rekeyed;
    assert AllUnique(t) && Placed(t, homes[0]);
    assert Clean(ops) by {
      forall k: nat | k < |ops| && ops[k].Ins? ensures ops[k].elem.sig != 0 {
        assert KeyedStep(t, ops, homes, k);
      }
    }
    RunUnique(t, ops, true);
    RepairedRunPlaced(t, ops, homes);
    if Run(t, ops, true)[i].sig[l] != 0 {
      EveryLiveEntryIsFound(Run(t, ops, true), homes[|ops|], i, l);
    }
  }

  // ----- the chain as written -----------------------------------------------

  /**
   Whether the chain as written leaves every entry in its own pair, computed
   ahead of the insert from the signatures met: `ok` says that the entry in hand
   is on its way to its pair, `bad` are the buckets whose major lane the chain
   has filled with an entry that does not belong there.
   */
  ghost predicate Faithful(t: Table, hash: Word, major: nat, e: Entry, ok: bool, bad: set<nat>, n: nat)
    requires major < ELEM_NUM && n <= MAX_CUCKOO_NUM
    decreases MAX_CUCKOO_NUM - n
  {
    var i := Alt(hash, e.sig);
    match MatchLane(t[i], e.sig)
    case Some(l) => ok && (if l == major then bad - {i} else bad) == {}
    case None =>
      match EmptyLane(t[i], major)
      case Some(l) => ok && (if l == major then bad - {i} else bad) == {}
      case None =>
        var v := EntryAt(t, i, major);
        var bad' := if ok then bad - {i} else bad + {i};
        if n < MAX_CUCKOO_NUM then
          var ok' := i !in bad && (Low(e.sig) == 0 || Low(e.sig) == Low(v.sig));
          Faithful(PutAt(t, i, major, e), hash, major, v, ok', bad', n + 1)
        else
          bad' == {}
  }

  /** Exactly the major lanes of the buckets in `bad` hold an entry outside its pair, put there by this chain. */
  ghost predicate PlacedBut(t: Table, homeOf: Word -> Word, hash: Word, major: nat, bad: set<nat>)
    requires major < ELEM_NUM
  {
    && (forall i | i in bad :: 0 <= i < BUC_NUM && !SlotPlaced(t, i, major, homeOf) && Alt(hash, t[i].sig[major]) == i)
    && (forall i: nat, l: nat | i < BUC_NUM && l < ELEM_NUM && !(i in bad && l == major) :: SlotPlaced(t, i, l, homeOf))
  }

  lemma PutPlacedBut(t: Table, homeOf: Word -> Word, hash: Word, major: nat, bad: set<nat>, l: nat, e: Entry)
    requires major < ELEM_NUM && l < ELEM_NUM && e.sig != 0 && PlacedBut(t, homeOf, hash, major, bad)
    ensures var i := Alt(hash, e.sig); var t' := PutAt(t, i, l, e);
            && (InPair(i, homeOf(e.loc), e.sig) ==>
                  PlacedBut(t', homeOf, hash, major, if l == major then bad - {i} else bad))
            && (!InPair(i, homeOf(e.loc), e.sig) ==> !SlotPlaced(t', i, l, homeOf))
            && (!InPair(i, homeOf(e.loc), e.sig) && l == major ==> PlacedBut(t', homeOf, hash, major, bad + {i}))
  {
    hide InPair, Alt;
    var i := Alt(hash, e.sig);
    var t' := PutAt(t, i, l, e);
    forall j: nat, k: nat | j < BUC_NUM && k < ELEM_NUM && (j != i || k != l)
      ensures SlotPlaced(t', j, k, homeOf) == SlotPlaced(t, j, k, homeOf)
      ensures t'[j].sig[k] == t[j].sig[k]
    {
    }
  }

  lemma PlacedButNone(t: Table, homeOf: Word -> Word, hash: Word, major: nat, bad: set<nat>)
    requires major < ELEM_NUM && PlacedBut(t, homeOf, hash, major, bad)
    ensures Placed(t, homeOf) <==> bad == {}
  {
    hide InPair, Alt;
    if bad != {} {
      var i :| i in bad;
      assert !SlotPlaced(t, i, major, homeOf);
    }
  }

  lemma {:induction false} ChainPlacedIff(t: Table, homeOf: Word -> Word, hash: Word, major: nat, e: Entry, ok: bool,
                                          bad: set<nat>, n: nat)
    requires major < ELEM_NUM && n <= MAX_CUCKOO_NUM && e.sig != 0
    requires PlacedBut(t, homeOf, hash, major, bad)
    requires ok <==> InPair(Alt(hash, e.sig), homeOf(e.loc), e.sig)
    ensures Placed(Chain(t, hash, major, e, n, false).table, homeOf) <==> Faithful(t, hash, major, e, ok, bad, n)
    decreases MAX_CUCKOO_NUM - n
  {
    hide Alt, MatchLane, EmptyLane, PutAt, Placed, PlacedBut, SlotPlaced, InPair, Low;
    var i := Alt(hash, e.sig);
    match MatchLane(t[i], e.sig)
    case Some(l) => LastWritePlacedIff(t, homeOf, hash, major, e, ok, bad, l);
    case None =>
      match EmptyLane(t[i], major)
      case Some(l) => LastWritePlacedIff(t, homeOf, hash, major, e, ok, bad, l);
      case None =>
        PutPlacedBut(t, homeOf, hash, major, bad, major, e);
        var t', v := PutAt(t, i, major, e), EntryAt(t, i, major);
        var bad' := if ok then bad - {i} else bad + {i};
        if n < MAX_CUCKOO_NUM {
          var ok' := i !in bad && (Low(e.sig) == 0 || Low(e.sig) == Low(v.sig));
          VictimOkIff(t, homeOf, hash, major, e, bad);
          ChainPlacedIff(t', homeOf, hash, major, v, ok', bad', n + 1);
        } else {
          PlacedButNone(t', homeOf, hash, major, bad');
        }
  }

  lemma LastWritePlacedIff(t: Table, homeOf: Word -> Word, hash: Word, major: nat, e: Entry, ok: bool, bad: set<nat>,
                           l: nat)
    requires major < ELEM_NUM && l < ELEM_NUM && e.sig != 0
    requires PlacedBut(t, homeOf, hash, major, bad)
    requires ok <==> InPair(Alt(hash, e.sig), homeOf(e.loc), e.sig)
    ensures Placed(PutAt(t, Alt(hash, e.sig), l, e), homeOf) <==>
            (ok && (if l == major then bad - {Alt(hash, e.sig)} else bad) == {})
  {
    hide Alt, PutAt, PlacedBut, SlotPlaced, InPair;
    var i := Alt(hash, e.sig);
    PutPlacedBut(t, homeOf, hash, major, bad, l, e);
    if ok {
      PlacedButNone(PutAt(t, i, l, e), homeOf, hash, major, if l == major then bad - {i} else bad);
    } else {
      assert !SlotPlaced(PutAt(t, i, l, e), i, l, homeOf);
    }
  }

  lemma VictimOkIff(t: Table, homeOf: Word -> Word, hash: Word, major: nat, e: Entry, bad: set<nat>)
    requires major < ELEM_NUM && PlacedBut(t, homeOf, hash, major, bad)
    requires t[Alt(hash, e.sig)].sig[major] != 0
    ensures var i := Alt(hash, e.sig); var v := EntryAt(t, i, major);
            InPair(Alt(hash, v.sig), homeOf(v.loc), v.sig) <==>
            (i !in bad && (Low(e.sig) == 0 || Low(e.sig) == Low(v.sig)))
  {
    hide Alt, InPair, Low;
    var i := Alt(hash, e.sig);
    var v := EntryAt(t, i, major);
    if i in bad {
      assert !SlotPlaced(t, i, major, homeOf);
    } else {
      assert SlotPlaced(t, i, major, homeOf);
      VictimStaysInPair(hash, e.sig, homeOf(v.loc), v.sig);
    }
  }

  /** When an insert as written keeps a placed table placed: always, unless it displaces unfaithfully. */
  lemma InsertPlacedIff(t: Table, homeOf: Word -> Word, r: Elem)
    requires Placed(t, homeOf) && r.sig != 0 && homeOf(r.loc) == r.hash
    ensures Placed(Insert(t, r, false).table, homeOf) <==>
            || MatchLane(t[Home(r.hash)], r.sig).Some?
            || EmptyLane(t[Home(r.hash)], Major(r.sig)).Some?
            || Faithful(t, r.hash, Major(r.sig), Entry(r.sig, r.loc), true, {}, 0)
  {
    hide Alt, Home, Faithful, Chain;
    var e, i := Entry(r.sig, r.loc), Home(r.hash);
    match MatchLane(t[i], r.sig)
    case Some(l) => PutPlaced(t, homeOf, i, l, e);
    case None =>
      match EmptyLane(t[i], Major(r.sig))
      case Some(l) => PutPlaced(t, homeOf, i, l, e);
      case None => ChainPlacedIff(t, homeOf, r.hash, Major(r.sig), e, true, {}, 0);
  }

  /**
   One displacement into a free slot: harmless only if the inserted signature has no
   low bits.  A victim with the same low bits would have come back to the full bucket.
   */
  lemma OneDisplacementPlacedIff(t: Table, homeOf: Word -> Word, r: Elem)
    requires Placed(t, homeOf) && r.sig != 0 && homeOf(r.loc) == r.hash
    requires |Insert(t, r, false).writes| == 2 && Insert(t, r, false).loss.NoLoss?
    ensures var v := EntryAt(t, Alt(r.hash, r.sig), Major(r.sig));
            Low(v.sig) != Low(r.sig) && (Placed(Insert(t, r, false).table, homeOf) <==> Low(r.sig) == 0)
  {
    hide Alt, Home, Low, Placed;
    var e, i := Entry(r.sig, r.loc), Alt(r.hash, r.sig);
    InsertPlacedIff(t, homeOf, r);
    var v := EntryAt(t, i, Major(r.sig));
    var t' := PutAt(t, i, Major(r.sig), e);
    var rest := Chain(t', r.hash, Major(r.sig), v, 1, false);
    assert Insert(t, r, false) == Chain(t, r.hash, Major(r.sig), e, 0, false);
    assert |rest.writes| == 1;
    if Low(v.sig) == Low(r.sig) {
      AltEqual(r.hash, r.sig, v.sig);
      NoRoom(t, i, Major(r.sig), e);
    }
  }

  /** Replacing an entry makes no room. */
  lemma NoRoom(t: Table, i: nat, major: nat, e: Entry)
    requires i < BUC_NUM && major < ELEM_NUM && e.sig != 0 && EmptyLane(t[i], major).None?
    ensures EmptyLane(PutAt(t, i, major, e)[i], major).None?
  {
    hide FirstLane;
  }
}
