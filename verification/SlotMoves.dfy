/**
 A round of the home-bucket loop, step by step.  Nothing separates the votes of one
 warp from the signature writes of another, so a group may vote after others have
 written; only then comes the barrier.
 */
module SlotMoves {
  import opened GpuHash
  import opened Wrappers
  import opened CuckooSpec
  import opened CuckooLaws
  import opened SlotVotes

  type Groups = map<nat, Elem>

  datatype Move =
    | Voting(g: nat)    // the group looks for an empty lane
    | Writing(g: nat)   // it writes its signature into the lane it has found

  /** What has happened since the last barrier: the votes cast, those who found no lane, and who has written. */
  datatype Phase = Phase(table: Table, votes: Votes, full: set<nat>, written: set<nat>)

  function Bucket0(groups: Groups, g: nat): (i: BucketNo)
    requires g in groups
  {
    Home(groups[g].hash)
  }

  function EntryOf(groups: Groups, g: nat): Entry
    requires g in groups
  {
    Entry(groups[g].sig, groups[g].loc)
  }

  predicate May(pending: set<nat>, p: Phase, a: Move)
  {
    match a
    case Voting(g) => g in pending && g !in p.votes && g !in p.full
    case Writing(g) => g in p.votes && g !in p.written
  }

  function SetSig(t: Table, i: BucketNo, l: Lane, sig: Word): Table
  {
    PutAt(t, i, l, Entry(sig, t[i].loc[l]))
  }

  function AfterMove(groups: Groups, pending: set<nat>, p: Phase, a: Move): Phase
    requires pending <= groups.Keys && May(pending, p, a)
  {
    match a
    case Voting(g) =>
      var i := Bucket0(groups, g);
      match EmptyLane(p.table[i], Major(groups[g].sig)) {
        case Some(l) => p.(votes := p.votes[g := Vote(i, l, EntryOf(groups, g))])
        case None => p.(full := p.full + {g})
      }
    case Writing(g) =>
      var x := p.votes[g];
      p.(table := SetSig(p.table, x.bucket, x.lane, x.entry.sig), written := p.written + {g})
  }

  predicate Legal(groups: Groups, t: Table, pending: set<nat>, moves: seq<Move>)
    requires pending <= groups.Keys
    decreases |moves|, 0
  {
    moves == [] ||
    (var n := |moves| - 1;
     Legal(groups, t, pending, moves[..n]) && May(pending, Play(groups, t, pending, moves[..n]), moves[n]))
  }

  function Play(groups: Groups, t: Table, pending: set<nat>, moves: seq<Move>): Phase
    requires pending <= groups.Keys && Legal(groups, t, pending, moves)
    decreases |moves|, 1
  {
    if moves == [] then Phase(t, map[], {}, {})
    else
      var n := |moves| - 1;
      AfterMove(groups, pending, Play(groups, t, pending, moves[..n]), moves[n])
  }

  /** Everybody has voted, and everybody with a lane has written. */
  predicate AtBarrier(pending: set<nat>, p: Phase)
  {
    pending <= p.votes.Keys + p.full && p.votes.Keys <= p.written
  }

  // ----- slots in the order of their first writes ---------------------------

  datatype Slot = Slot(bucket: nat, lane: nat)

  function SlotOf(x: Vote): Slot
  {
    Slot(x.bucket, x.lane)
  }

  function Slots(groups: Groups, t: Table, pending: set<nat>, moves: seq<Move>): seq<Slot>
    requires pending <= groups.Keys && Legal(groups, t, pending, moves)
  {
    if moves == [] then []
    else
      var n := |moves| - 1;
      var slots := Slots(groups, t, pending, moves[..n]);
      match moves[n]
      case Voting(_) => slots
      case Writing(g) => Adding(slots, SlotOf(Play(groups, t, pending, moves[..n]).votes[g]))
  }

  function Adding(slots: seq<Slot>, x: Slot): seq<Slot>
  {
    if x in slots then slots else slots + [x]
  }

  /** The vote was cast on bucket b, when the first n of the slots had been written. */
  ghost predicate Saw(t: Table, slots: seq<Slot>, x: Vote, b: Bucket, n: nat)
  {
    && n <= |slots| && SlotOf(x) !in slots[..n]
    && EmptyLane(b, Major(x.entry.sig)) == Some(x.lane)
    && forall k: nat | k < ELEM_NUM :: b.sig[k] != 0 <==> t[x.bucket].sig[k] != 0 || Slot(x.bucket, k) in slots[..n]
  }

  ghost predicate CastInOrder(t: Table, slots: seq<Slot>, x: Vote)
  {
    exists b: Bucket, n: nat :: Saw(t, slots, x, b, n)
  }

  /** A slot holds a signature iff it did before or somebody has written there. */
  ghost predicate FilledBy(t: Table, slots: seq<Slot>, t': Table)
  {
    forall i: nat, k: nat | i < BUC_NUM && k < ELEM_NUM ::
      t'[i].sig[k] != 0 <==> t[i].sig[k] != 0 || Slot(i, k) in slots
  }

  predicate Distinct(slots: seq<Slot>)
  {
    forall j, k | 0 <= j < k < |slots| :: slots[j] != slots[k]
  }

  /** The slots are those of the votes written. */
  predicate SlotsOf(votes: Votes, written: set<nat>, slots: seq<Slot>)
  {
    && Distinct(slots) && written <= votes.Keys
    && (forall g | g in written :: SlotOf(votes[g]) in slots)
    && (forall x | x in slots :: exists g :: g in written && SlotOf(votes[g]) == x)
  }

  /** Who has voted, and for what. */
  ghost predicate VotesOf(groups: Groups, pending: set<nat>, p: Phase)
    requires pending <= groups.Keys
  {
    && p.votes.Keys <= pending && p.full <= pending && p.votes.Keys !! p.full
    && (forall g | g in p.votes :: p.votes[g].bucket == Bucket0(groups, g) && p.votes[g].entry == EntryOf(groups, g))
    && (forall g | g in p.full :: FullBucket(p.table[Bucket0(groups, g)]))
  }

  ghost predicate InPhase(groups: Groups, t: Table, pending: set<nat>, p: Phase, slots: seq<Slot>)
    requires pending <= groups.Keys
  {
    && VotesOf(groups, pending, p)
    && FilledBy(t, slots, p.table)
    && SlotsOf(p.votes, p.written, slots)
    && forall g | g in p.votes :: CastInOrder(t, slots, p.votes[g])
  }

  /** The groups have nonzero signatures. */
  ghost predicate Live(groups: Groups)
  {
    forall g | g in groups :: groups[g].sig != 0
  }

  lemma VotingStays(groups: Groups, t: Table, pending: set<nat>, p: Phase, slots: seq<Slot>, g: nat)
    requires pending <= groups.Keys && InPhase(groups, t, pending, p, slots) && May(pending, p, Voting(g))
    ensures InPhase(groups, t, pending, AfterMove(groups, pending, p, Voting(g)), slots)
  {
    hide Home, EmptyLane, Major, FilledBy, Distinct;
    var i := Bucket0(groups, g);
    var b := p.table[i];
    match EmptyLane(b, Major(groups[g].sig))
    case Some(l) => VoteIsCast(t, slots, p.table, Vote(i, l, EntryOf(groups, g)));
    case None => NoEmptyLane(b, Major(groups[g].sig));
  }

  lemma VoteIsCast(t: Table, slots: seq<Slot>, t': Table, x: Vote)
    requires FilledBy(t, slots, t') && EmptyLane(t'[x.bucket], Major(x.entry.sig)) == Some(x.lane)
    ensures CastInOrder(t, slots, x)
  {
    hide EmptyLane, Major;
    assert slots[..|slots|] == slots;
    assert t'[x.bucket].sig[x.lane] == 0;
    assert Saw(t, slots, x, t'[x.bucket], |slots|);
  }

  lemma NoEmptyLane(b: Bucket, major: nat)
    requires major < ELEM_NUM && EmptyLane(b, major).None?
    ensures FullBucket(b)
  {
  }

  lemma WritingStays(groups: Groups, t: Table, pending: set<nat>, p: Phase, slots: seq<Slot>, g: nat)
    requires pending <= groups.Keys && Live(groups) && InPhase(groups, t, pending, p, slots)
             && May(pending, p, Writing(g))
    ensures InPhase(groups, t, pending, AfterMove(groups, pending, p, Writing(g)), Adding(slots, SlotOf(p.votes[g])))
  {
    hide Home, CastInOrder, FilledBy, SlotsOf;
    var p' := AfterMove(groups, pending, p, Writing(g));
    var x := p.votes[g];
    var slots' := Adding(slots, SlotOf(x));
    WrittenFills(t, slots, p.table, x);
    OneMoreSlot(p.votes, p.written, slots, g);
    forall h | h in p.votes ensures CastInOrder(t, slots', p.votes[h]) {
      StillCast(t, slots, slots', p.votes[h]);
    }
    forall h | h in p.full ensures FullBucket(p'.table[Bucket0(groups, h)]) {
      StaysFullBucket(p.table, x, Bucket0(groups, h));
    }
  }

  lemma WrittenFills(t: Table, slots: seq<Slot>, t': Table, x: Vote)
    requires FilledBy(t, slots, t') && x.entry.sig != 0
    ensures FilledBy(t, Adding(slots, SlotOf(x)), SetSig(t', x.bucket, x.lane, x.entry.sig))
  {
    var u := SetSig(t', x.bucket, x.lane, x.entry.sig);
    forall i: nat, k: nat | i < BUC_NUM && k < ELEM_NUM
      ensures u[i].sig[k] != 0 <==> t[i].sig[k] != 0 || Slot(i, k) in Adding(slots, SlotOf(x))
    {
      assert t'[i].sig[k] != 0 <==> t[i].sig[k] != 0 || Slot(i, k) in slots;
    }
  }

  lemma StaysFullBucket(t: Table, x: Vote, i: nat)
    requires i < BUC_NUM && x.entry.sig != 0 && FullBucket(t[i])
    ensures FullBucket(SetSig(t, x.bucket, x.lane, x.entry.sig)[i])
  {
  }

  lemma OneMoreSlot(votes: Votes, written: set<nat>, slots: seq<Slot>, g: nat)
    requires SlotsOf(votes, written, slots) && g in votes
    ensures SlotsOf(votes, written + {g}, Adding(slots, SlotOf(votes[g])))
  {
    var slots' := Adding(slots, SlotOf(votes[g]));
    forall x | x in slots' ensures exists h :: h in written + {g} && SlotOf(votes[h]) == x {
      if x in slots {
        var h :| h in written && SlotOf(votes[h]) == x;
        assert h in written + {g};
      } else {
        assert g in written + {g};
      }
    }
  }

  lemma StillCast(t: Table, slots: seq<Slot>, slots': seq<Slot>, x: Vote)
    requires CastInOrder(t, slots, x) && slots <= slots'
    ensures CastInOrder(t, slots', x)
  {
    hide EmptyLane, Major;
    var b: Bucket, n: nat :| Saw(t, slots, x, b, n);
    assert slots'[..n] == slots[..n];
    assert Saw(t, slots', x, b, n);
  }

  lemma {:induction false} AlwaysInPhase(groups: Groups, t: Table, pending: set<nat>, moves: seq<Move>)
    requires pending <= groups.Keys && Live(groups) && Legal(groups, t, pending, moves)
    ensures InPhase(groups, t, pending, Play(groups, t, pending, moves), Slots(groups, t, pending, moves))
  {
    hide InPhase, AfterMove, May, Live;
    if moves == [] {
      NothingMoved(groups, t, pending);
    } else {
      var n := |moves| - 1;
      AlwaysInPhase(groups, t, pending, moves[..n]);
      var p, slots := Play(groups, t, pending, moves[..n]), Slots(groups, t, pending, moves[..n]);
      match moves[n]
      case Voting(g) => VotingStays(groups, t, pending, p, slots, g);
      case Writing(g) => MayWrite(pending, p, g); WritingStays(groups, t, pending, p, slots, g);
    }
  }

  lemma MayWrite(pending: set<nat>, p: Phase, g: nat)
    requires May(pending, p, Writing(g))
    ensures g in p.votes
  {
  }

  lemma NothingMoved(groups: Groups, t: Table, pending: set<nat>)
    requires pending <= groups.Keys
    ensures InPhase(groups, t, pending, Phase(t, map[], {}, {}), [])
  {
  }

  // ----- winners in the order of their slots --------------------------------

  /** Whoever is listed comes behind somebody for every slot written before its own. */
  ghost predicate SlotsFirst(v: Votes, slots: seq<Slot>, order: seq<nat>)
  {
    forall x: nat, j: nat, i: nat |
      x < |order| && j < i < |slots| && order[x] in v && SlotOf(v[order[x]]) == slots[i] ::
      SlotBefore(v, slots[j], order, x)
  }

  ghost predicate SlotBefore(v: Votes, slot: Slot, order: seq<nat>, x: nat)
    requires x <= |order|
  {
    exists y: nat :: y < x && order[y] in v && SlotOf(v[order[y]]) == slot
  }

  /** The winners of the first n slots, slot by slot, in each the one whose entry stays last. */
  ghost predicate ListsSlots(v: Votes, t': Table, slots: seq<Slot>, n: nat, order: seq<nat>)
    requires n <= |slots|
  {
    && (forall k, m | 0 <= k < m < |order| :: order[k] != order[m])
    && (forall g :: g in order <==> g in v && Wins(v, t', g) && SlotOf(v[g]) in slots[..n])
    && (forall j: nat | j < n :: SlotBefore(v, slots[j], order, |order|))
    && (forall k: nat | k < |order| && LastInSlot(v, order, k) :: EntryStays(v, t', order[k]))
    && SlotsFirst(v, slots, order)
  }

  /** Every slot is somebody's. */
  ghost predicate AllWanted(v: Votes, slots: seq<Slot>)
  {
    forall x | x in slots :: x.bucket < BUC_NUM && x.lane < ELEM_NUM && Wanted(v, x.bucket, x.lane)
  }

  lemma {:induction false} OrderBySlots(v: Votes, t: Table, t': Table, slots: seq<Slot>, n: nat)
    returns (order: seq<nat>)
    requires Landed(v, t, t') && Distinct(slots) && AllWanted(v, slots) && n <= |slots|
    ensures ListsSlots(v, t', slots, n, order)
  {
    hide Landed, ListsSlots, Distinct, Listed, Wins;
    if n == 0 {
      order := [];
      NobodyListed(v, t', slots);
    } else {
      var before := OrderBySlots(v, t, t', slots, n - 1);
      var x := slots[n - 1];
      assert x in slots;
      SlotOutcome(v, t, t', x.bucket, x.lane);
      var w := Owner(v, t', x.bucket, x.lane);
      var others := set g | g in v && Wins(v, t', g) && SlotOf(v[g]) == x && g != w;
      order := before + (Listed(others) + [w]);
      NextSlot(v, t', slots, n - 1, before, w, Listed(others));
    }
  }

  lemma NobodyListed(v: Votes, t': Table, slots: seq<Slot>)
    ensures ListsSlots(v, t', slots, 0, [])
  {
  }

  /** The owner of the next slot behind its other winners. */
  lemma NextSlot(v: Votes, t': Table, slots: seq<Slot>, n: nat, before: seq<nat>, w: nat, others: seq<nat>)
    requires n < |slots| && Distinct(slots) && ListsSlots(v, t', slots, n, before)
    requires slots[n].bucket < BUC_NUM && slots[n].lane < ELEM_NUM && Owns(v, t', w, slots[n].bucket, slots[n].lane)
    requires forall g :: g in others <==> g in v && Wins(v, t', g) && SlotOf(v[g]) == slots[n] && g != w
    requires forall k, m | 0 <= k < m < |others| :: others[k] != others[m]
    ensures ListsSlots(v, t', slots, n + 1, before + (others + [w]))
  {
    hide Wins, SlotsFirst, LastInSlot, EntryStays, SlotBefore, Distinct;
    var block := others + [w];
    var order := before + block;
    assert slots[..n + 1] == slots[..n] + [slots[n]];
    NotEarlier(slots, n);
    DistinctJoined(others, [w]);
    DistinctJoined(before, block);
    OwnerStays(v, t', w, slots[n]);
    LastOfBlock(v, t', before, others, w);
    BlockFirst(v, t', slots, n, before, block);
    forall g ensures g in order <==> g in v && Wins(v, t', g) && SlotOf(v[g]) in slots[..n + 1] {
      assert g in order <==> g in before || g in others || g == w;
    }
    forall j: nat | j < n + 1 ensures SlotBefore(v, slots[j], order, |order|) {
      if j < n { SlotStays(v, slots[j], before, block); } else { EndsIn(v, slots[n], order); }
    }
  }

  lemma OwnerStays(v: Votes, t': Table, w: nat, x: Slot)
    requires x.bucket < BUC_NUM && x.lane < ELEM_NUM && Owns(v, t', w, x.bucket, x.lane)
    ensures w in v && Wins(v, t', w) && SlotOf(v[w]) == x && EntryStays(v, t', w)
  {
  }

  lemma SlotStays(v: Votes, x: Slot, before: seq<nat>, more: seq<nat>)
    requires SlotBefore(v, x, before, |before|)
    ensures SlotBefore(v, x, before + more, |before + more|)
  {
    var y: nat :| y < |before| && before[y] in v && SlotOf(v[before[y]]) == x;
    assert (before + more)[y] == before[y];
  }

  lemma EndsIn(v: Votes, x: Slot, order: seq<nat>)
    requires order != [] && order[|order| - 1] in v && SlotOf(v[order[|order| - 1]]) == x
    ensures SlotBefore(v, x, order, |order|)
  {
  }

  lemma NotEarlier(slots: seq<Slot>, n: nat)
    requires n < |slots| && Distinct(slots)
    ensures slots[n] !in slots[..n]
  {
  }

  lemma LastOfBlock(v: Votes, t': Table, before: seq<nat>, others: seq<nat>, w: nat)
    requires forall k: nat | k < |before| && LastInSlot(v, before, k) :: EntryStays(v, t', before[k])
    requires w in v && EntryStays(v, t', w) && forall g | g in others :: g in v && SlotOf(v[g]) == SlotOf(v[w])
    ensures var order := before + (others + [w]);
            forall k: nat | k < |order| && LastInSlot(v, order, k) :: EntryStays(v, t', order[k])
  {
    hide EntryStays;
    var order := before + (others + [w]);
    forall k: nat | k < |order| && LastInSlot(v, order, k) ensures EntryStays(v, t', order[k]) {
      if k < |before| {
        forall m | k < m < |before| ensures !SameSlot(v, before[k], before[m]) {
          assert !SameSlot(v, order[k], order[m]);
        }
        assert LastInSlot(v, before, k);
      } else {
        assert order[|order| - 1] == w;
        assert k < |order| - 1 ==> !SameSlot(v, order[k], w);
        assert forall j: nat | |before| <= j < |order| - 1 :: order[j] in others;
      }
    }
  }

  /** Every earlier slot has its owner in front of the block. */
  lemma BlockFirst(v: Votes, t': Table, slots: seq<Slot>, n: nat, before: seq<nat>, block: seq<nat>)
    requires n < |slots| && Distinct(slots) && SlotsFirst(v, slots, before)
    requires forall g | g in before :: g in v && SlotOf(v[g]) in slots[..n]
    requires forall j: nat | j < n :: SlotBefore(v, slots[j], before, |before|)
    requires forall g | g in block :: g in v && SlotOf(v[g]) == slots[n]
    ensures SlotsFirst(v, slots, before + block)
  {
    var order := before + block;
    forall x: nat, j: nat, i: nat
      | x < |order| && j < i < |slots| && order[x] in v && SlotOf(v[order[x]]) == slots[i]
      ensures SlotBefore(v, slots[j], order, x)
    {
      var y: nat;
      if x < |before| {
        assert SlotBefore(v, slots[j], before, x);
        y :| y < x && before[y] in v && SlotOf(v[before[y]]) == slots[j];
      } else {
        assert order[x] in block;
        y :| y < |before| && before[y] in v && SlotOf(v[before[y]]) == slots[j];
      }
      assert order[y] == before[y];
    }
  }
}
