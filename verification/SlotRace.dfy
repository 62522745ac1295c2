/**
 The race for home-bucket slots between any number of lane groups.  In each round
 every pending group votes on its bucket, those who found an empty lane write, votes
 and writes of different groups in any order; then, behind the barrier, each of them
 looks whether its own signature survived.
 */
module SlotRace {
  import opened GpuHash
  import opened Wrappers
  import opened CuckooSpec
  import opened CuckooLaws
  import opened SlotVotes
  import opened SlotMoves

  /** `won` are the groups that got a slot, `full` those that found no empty lane. */
  datatype Race = Race(table: Table, pending: set<nat>, won: set<nat>, full: set<nat>)

  ghost function Winners(v: Votes, t': Table): set<nat>
  {
    set g | g in v && Wins(v, t', g)
  }

  /** One round with these votes and writes. */
  ghost predicate Round(groups: Groups, s: Race, moves: seq<Move>, s': Race)
    requires s.pending <= groups.Keys
  {
    && Legal(groups, s.table, s.pending, moves)
    && var p := Play(groups, s.table, s.pending, moves);
       && AtBarrier(s.pending, p)
       // which of several writers of one slot survives, and whose location stays, is open
       && Landed(p.votes, s.table, s'.table)
       && s'.won == s.won + Winners(p.votes, s'.table)
       // groups without an empty lane leave for their second bucket
       && s'.full == s.full + p.full
       && s'.pending == p.votes.Keys - Winners(p.votes, s'.table)
  }

  /** No group has two fates. */
  ghost predicate Inv(groups: Groups, s: Race)
  {
    && s.pending <= groups.Keys && s.won <= groups.Keys && s.full <= groups.Keys
    && s.won !! s.pending && s.won !! s.full && s.full !! s.pending
  }

  /** No group still racing has its signature in its bucket (the kernel checked before the race). */
  ghost predicate Fresh(groups: Groups, s: Race)
    requires s.pending <= groups.Keys
  {
    forall g | g in s.pending :: groups[g].sig !in s.table[Bucket0(groups, g)].sig
  }

  // ----- one round ----------------------------------------------------------

  /** The votes of a round, as the lemmas below need them. */
  ghost predicate Ordered(groups: Groups, t: Table, v: Votes, slots: seq<Slot>)
  {
    && LiveVotes(v) && Distinct(slots) && AllWanted(v, slots)
    && forall g | g in v :: g in groups && CastOn(groups, t, v[g], slots, g)
  }

  ghost predicate CastOn(groups: Groups, t: Table, x: Vote, slots: seq<Slot>, g: nat)
    requires g in groups
  {
    && x.bucket == Bucket0(groups, g) && x.entry == EntryOf(groups, g)
    && t[x.bucket].sig[x.lane] == 0
    && CastInOrder(t, slots, x) && SlotOf(x) in slots
  }

  lemma RoundOrdered(groups: Groups, t: Table, pending: set<nat>, moves: seq<Move>)
    requires pending <= groups.Keys && Live(groups) && Legal(groups, t, pending, moves)
    requires AtBarrier(pending, Play(groups, t, pending, moves))
    ensures var p, slots := Play(groups, t, pending, moves), Slots(groups, t, pending, moves);
            && Ordered(groups, t, p.votes, slots)
            && p.votes.Keys + p.full == pending && p.votes.Keys !! p.full
  {
    hide Home, CastInOrder, FilledBy, Distinct;
    AlwaysInPhase(groups, t, pending, moves);
    var p, slots := Play(groups, t, pending, moves), Slots(groups, t, pending, moves);
    forall g | g in p.votes ensures t[p.votes[g].bucket].sig[p.votes[g].lane] == 0 {
      EmptyBefore(t, slots, p.votes[g]);
    }
    forall x | x in slots ensures x.bucket < BUC_NUM && x.lane < ELEM_NUM && Wanted(p.votes, x.bucket, x.lane) {
      var g :| g in p.written && SlotOf(p.votes[g]) == x;
      assert Wants(p.votes, g, x.bucket, x.lane);
    }
  }

  lemma EmptyBefore(t: Table, slots: seq<Slot>, x: Vote)
    requires CastInOrder(t, slots, x)
    ensures t[x.bucket].sig[x.lane] == 0
  {
    hide Major;
    var b: Bucket, n: nat :| Saw(t, slots, x, b, n);
    assert b.sig[x.lane] == 0;
  }

  /**
   A slot that was written ends up with the whole entry of one pending group,
   which goes on to finish; every other slot, full ones among them, is as before.
   */
  lemma RoundFills(groups: Groups, s: Race, moves: seq<Move>, s': Race, i: nat, l: nat)
    requires Live(groups) && Inv(groups, s) && Round(groups, s, moves, s')
    requires i < BUC_NUM && l < ELEM_NUM
    ensures var v := Play(groups, s.table, s.pending, moves).votes;
            if Wanted(v, i, l) then
              && s.table[i].sig[l] == 0
              && exists g ::
                   g in groups && g in s'.won && Wants(v, g, i, l) && EntryAt(s'.table, i, l) == EntryOf(groups, g)
            else EntryAt(s'.table, i, l) == EntryAt(s.table, i, l)
  {
    hide Play, Home, Landed, CastInOrder, Wanted, Slots;
    var v := Play(groups, s.table, s.pending, moves).votes;
    RoundOrdered(groups, s.table, s.pending, moves);
    SlotOutcome(v, s.table, s'.table, i, l);
    if Wanted(v, i, l) {
      var g := Owner(v, s'.table, i, l);
      assert g in Winners(v, s'.table);
    }
  }

  lemma RoundKeepsInv(groups: Groups, s: Race, moves: seq<Move>, s': Race)
    requires Live(groups) && Inv(groups, s) && Round(groups, s, moves, s')
    ensures Inv(groups, s')
  {
    hide Play, Landed, Wins, Ordered, Slots;
    RoundOrdered(groups, s.table, s.pending, moves);
  }

  // ----- how long a race lasts ----------------------------------------------

  function EmptyLanes(b: Bucket, n: nat): (c: nat)
    requires n <= ELEM_NUM
    ensures c <= n
  {
    if n == 0 then 0 else EmptyLanes(b, n - 1) + (if b.sig[n - 1] == 0 then 1 else 0)
  }

  lemma {:induction false} FewerEmpty(b: Bucket, b': Bucket, l: nat, n: nat)
    requires n <= ELEM_NUM && l < ELEM_NUM && b.sig[l] == 0 && b'.sig[l] != 0
    requires forall k: nat | k < ELEM_NUM && b.sig[k] != 0 :: b'.sig[k] != 0
    ensures EmptyLanes(b', n) + (if l < n then 1 else 0) <= EmptyLanes(b, n)
  {
    if n > 0 { FewerEmpty(b, b', l, n - 1); }
  }

  /** A group that is still racing has seen its bucket fill up by at least one slot. */
  lemma RoundFillsBucket(groups: Groups, s: Race, moves: seq<Move>, s': Race, g: nat)
    requires Live(groups) && Inv(groups, s) && Round(groups, s, moves, s') && g in s'.pending
    ensures g in s.pending
    ensures EmptyLanes(s'.table[Bucket0(groups, g)], ELEM_NUM) < EmptyLanes(s.table[Bucket0(groups, g)], ELEM_NUM)
  {
    hide Play, Home, Landed, CastInOrder, Slots, EmptyLanes, LiveVotes;
    RoundOrdered(groups, s.table, s.pending, moves);
    var v := Play(groups, s.table, s.pending, moves).votes;
    assert Wants(v, g, v[g].bucket, v[g].lane);
    assert Wanted(v, v[g].bucket, v[g].lane);
    StaysFull(v, s.table, s'.table, v[g].bucket);
    FewerEmpty(s.table[v[g].bucket], s'.table[v[g].bucket], v[g].lane, ELEM_NUM);
  }

  ghost predicate Races(groups: Groups, trace: seq<Race>, rounds: seq<seq<Move>>)
  {
    && |trace| == |rounds| + 1
    && Inv(groups, trace[0])
    && forall k: nat | k < |rounds| :: Follows(groups, trace, rounds, k)
  }

  /** Round k leads from state k to state k + 1. */
  ghost predicate Follows(groups: Groups, trace: seq<Race>, rounds: seq<seq<Move>>, k: nat)
    requires |trace| == |rounds| + 1 && k < |rounds|
  {
    trace[k].pending <= groups.Keys && Round(groups, trace[k], rounds[k], trace[k + 1])
  }

  lemma {:induction false} RaceInv(groups: Groups, trace: seq<Race>, rounds: seq<seq<Move>>, k: nat)
    requires Live(groups) && Races(groups, trace, rounds) && k <= |rounds|
    ensures Inv(groups, trace[k])
  {
    hide Inv, Round, Live;
    if k > 0 {
      RaceInv(groups, trace, rounds, k - 1);
      assert Follows(groups, trace, rounds, k - 1);
      RoundKeepsInv(groups, trace[k - 1], rounds[k - 1], trace[k]);
    }
  }

  /** A group still racing after k rounds started on a bucket with at least k empty slots. */
  lemma {:induction false} RaceBound(groups: Groups, trace: seq<Race>, rounds: seq<seq<Move>>, k: nat, g: nat)
    requires Live(groups) && Races(groups, trace, rounds) && k <= |rounds| && g in trace[k].pending
    ensures g in groups && g in trace[0].pending
    ensures EmptyLanes(trace[k].table[Bucket0(groups, g)], ELEM_NUM) + k <=
            EmptyLanes(trace[0].table[Bucket0(groups, g)], ELEM_NUM)
    ensures k <= ELEM_NUM
  {
    hide Round, EmptyLanes, Bucket0, Live;
    RaceInv(groups, trace, rounds, k);
    if k > 0 {
      RaceInv(groups, trace, rounds, k - 1);
      assert Follows(groups, trace, rounds, k - 1);
      RoundFillsBucket(groups, trace[k - 1], rounds[k - 1], trace[k], g);
      RaceBound(groups, trace, rounds, k - 1, g);
    }
  }

  /** Every group ends in exactly one way, and one that leaves without a slot leaves a full bucket behind. */
  lemma {:induction false} RaceOutcome(groups: Groups, trace: seq<Race>, rounds: seq<seq<Move>>, k: nat, g: nat)
    requires Live(groups) && Races(groups, trace, rounds) && trace[0].full == {} && k <= |rounds|
    requires g in trace[0].pending
    ensures Inv(groups, trace[k]) && (g in trace[k].pending || g in trace[k].won || g in trace[k].full)
    ensures g in trace[k].full ==> FullBucket(trace[k].table[Bucket0(groups, g)])
    ensures k > ELEM_NUM ==> g !in trace[k].pending
  {
    hide Round, Live, Bucket0;
    RaceInv(groups, trace, rounds, k);
    if k > 0 {
      RaceInv(groups, trace, rounds, k - 1);
      RaceOutcome(groups, trace, rounds, k - 1, g);
      assert Follows(groups, trace, rounds, k - 1);
      RoundOutcome(groups, trace[k - 1], rounds[k - 1], trace[k], g);
      if g in trace[k].pending {
        RaceBound(groups, trace, rounds, k, g);
      }
    }
  }

  lemma RoundOutcome(groups: Groups, s: Race, moves: seq<Move>, s': Race, g: nat)
    requires Live(groups) && Inv(groups, s) && Round(groups, s, moves, s') && g in groups
    requires g in s.pending || g in s.won || g in s.full
    requires g in s.full ==> FullBucket(s.table[Bucket0(groups, g)])
    ensures g in s'.pending || g in s'.won || g in s'.full
    ensures g in s'.full ==> FullBucket(s'.table[Bucket0(groups, g)])
  {
    hide Play, Home, Landed, CastInOrder, Slots, Wins, FullBucket, Distinct;
    RoundOrdered(groups, s.table, s.pending, moves);
    AlwaysInPhase(groups, s.table, s.pending, moves);
    var p, slots := Play(groups, s.table, s.pending, moves), Slots(groups, s.table, s.pending, moves);
    if g in s'.full {
      if g in s.full {
        FullStays(p.votes, s.table, [], s.table, s'.table, Bucket0(groups, g));
      } else {
        FullStays(p.votes, s.table, slots, p.table, s'.table, Bucket0(groups, g));
      }
    }
  }

  /** A bucket that was full at some moment of the round is full after it. */
  lemma FullStays(v: Votes, t: Table, slots: seq<Slot>, seen: Table, t': Table, i: BucketNo)
    requires LiveVotes(v) && Landed(v, t, t') && AllWanted(v, slots) && FullBucket(seen[i])
    requires seen == t || FilledBy(t, slots, seen)
    ensures FullBucket(t'[i])
  {
    hide Landed, LiveVotes, Wanted;
    StaysFull(v, t, t', i);
    forall l: nat | l < ELEM_NUM ensures t'[i].sig[l] != 0 {
      assert seen[i].sig[l] != 0;
      if t[i].sig[l] == 0 { assert Slot(i, l) in slots; }
    }
  }

  /** From every state a round is possible. */
  lemma SomeRound(groups: Groups, s: Race) returns (moves: seq<Move>, s': Race)
    requires Live(groups) && s.pending <= groups.Keys
    ensures Round(groups, s, moves, s')
  {
    hide Landed, Play, Legal, Wins, Listed;
    NothingYet(groups, s.table, s.pending);
    moves := VotesFrom(groups, s.table, s.pending, [], s.pending);
    moves := WritesFrom(groups, s.table, s.pending, moves, Play(groups, s.table, s.pending, moves).votes.Keys);
    var p := Play(groups, s.table, s.pending, moves);
    var t := SomeOutcome(p.votes, s.table, 0, 0);
    s' := RoundTo(groups, s, moves, t);
  }

  lemma NothingYet(groups: Groups, t: Table, pending: set<nat>)
    requires pending <= groups.Keys
    ensures Legal(groups, t, pending, []) && Play(groups, t, pending, []) == Phase(t, map[], {}, {})
  {
  }

  lemma OneMove(groups: Groups, t: Table, pending: set<nat>, moves: seq<Move>, a: Move)
    requires pending <= groups.Keys && Legal(groups, t, pending, moves)
             && May(pending, Play(groups, t, pending, moves), a)
    ensures Legal(groups, t, pending, moves + [a])
    ensures Play(groups, t, pending, moves + [a]) == AfterMove(groups, pending, Play(groups, t, pending, moves), a)
  {
    assert (moves + [a])[..|moves|] == moves;
  }

  /** The groups that have not voted yet do so, one after the other. */
  lemma VotesFrom(groups: Groups, t: Table, pending: set<nat>, moves: seq<Move>, left: set<nat>)
    returns (more: seq<Move>)
    requires pending <= groups.Keys && Legal(groups, t, pending, moves) && left <= pending
    requires var p := Play(groups, t, pending, moves);
             left !! p.votes.Keys && left !! p.full && pending <= left + p.votes.Keys + p.full
    ensures Legal(groups, t, pending, more)
    ensures var p, q := Play(groups, t, pending, moves), Play(groups, t, pending, more);
            pending <= q.votes.Keys + q.full && q.written == p.written
    decreases left
  {
    hide Play, Legal, EmptyLane, Major;
    more := moves;
    if left != {} {
      var g :| g in left;
      OneMove(groups, t, pending, moves, Voting(g));
      more := VotesFrom(groups, t, pending, moves + [Voting(g)], left - {g});
    }
  }

  lemma WritesFrom(groups: Groups, t: Table, pending: set<nat>, moves: seq<Move>, left: set<nat>)
    returns (more: seq<Move>)
    requires pending <= groups.Keys && Legal(groups, t, pending, moves)
    requires var p := Play(groups, t, pending, moves);
             left <= p.votes.Keys && left !! p.written && p.votes.Keys <= left + p.written
                 && pending <= p.votes.Keys + p.full
    ensures Legal(groups, t, pending, more) && AtBarrier(pending, Play(groups, t, pending, more))
    decreases left
  {
    hide Play, Legal;
    more := moves;
    if left != {} {
      var g :| g in left;
      OneMove(groups, t, pending, moves, Writing(g));
      more := WritesFrom(groups, t, pending, moves + [Writing(g)], left - {g});
    }
  }

  // ----- the race as a sequence of single inserts ---------------------------

  /** The lane elected does not change while that lane stays empty and full lanes stay full. */
  lemma ElectionIsStable(b: Bucket, b': Bucket, major: nat)
    requires major < ELEM_NUM && EmptyLane(b, major).Some?
    requires b'.sig[EmptyLane(b, major).value] == 0
    requires forall k: nat | k < ELEM_NUM && b.sig[k] != 0 :: b'.sig[k] != 0
    ensures EmptyLane(b', major) == EmptyLane(b, major)
  {
    hide FirstLane;
    var first, first' := FirstLane(b.sig, 0, major, ELEM_NUM), FirstLane(b'.sig, 0, major, ELEM_NUM);
    var again, again' := FirstLane(b.sig, 0, 0, major), FirstLane(b'.sig, 0, 0, major);
  }

  function Inserts(groups: Groups, order: seq<nat>): (ops: seq<Op>)
    requires forall g | g in order :: g in groups
    ensures |ops| == |order|
  {
    seq(|order|, k requires 0 <= k < |order| => assert order[k] in order; Ins(groups[order[k]]))
  }

  /** An insert whose home bucket is empty at the lane elected on b, or holds the signature there and nowhere else. */
  lemma InsertAt(b: Bucket, t: Table, r: Elem, i: nat, c: nat)
    requires r.sig != 0 && i == Home(r.hash) && c < ELEM_NUM && EmptyLane(b, Major(r.sig)) == Some(c)
    requires forall l: nat | l < ELEM_NUM && l != c :: t[i].sig[l] != r.sig
    requires forall l: nat | l < ELEM_NUM && b.sig[l] != 0 :: t[i].sig[l] != 0
    requires t[i].sig[c] == 0 || t[i].sig[c] == r.sig
    ensures Insert(t, r, false).table == PutAt(t, i, c, Entry(r.sig, r.loc))
  {
    hide Home, EmptyLane, Major, Chain, FirstLane;
    if t[i].sig[c] == 0 {
      ElectionIsStable(b, t[i], Major(r.sig));
    }
  }

  /** The next winner, inserted on its own, claims the slot it elected in the race, or replaces the location there. */
  lemma NextWinner(groups: Groups, t: Table, t': Table, v: Votes, slots: seq<Slot>, order: seq<nat>, n: nat)
    requires Ordered(groups, t, v, slots) && NewVotes(v, t) && AgreeingVotes(v)
    requires ListsSlots(v, t', slots, |slots|, order) && n < |order|
    ensures forall g | g in order :: g in v && g in groups
    ensures order[n] in order
    ensures Insert(Fold(v, t, order, n), groups[order[n]], false).table == Fold(v, t, order, n + 1)
  {
    hide Home, EmptyLane, Major, Chain, LastInSlot, EntryStays, SlotsFirst, Saw, Distinct, NewVotes, AgreeingVotes;
    hide Wins;
    var g := order[n];
    assert g in order;
    var f, r, x := Fold(v, t, order, n), groups[g], v[g];
    var b: Bucket, m: nat :| Saw(t, slots, x, b, m);
    forall l: nat | l < ELEM_NUM
      ensures l != x.lane ==> f[x.bucket].sig[l] != r.sig
      ensures b.sig[l] != 0 ==> f[x.bucket].sig[l] != 0
      ensures l == x.lane ==> f[x.bucket].sig[l] == 0 || f[x.bucket].sig[l] == r.sig
    {
      LaneAfter(v, t, t', order, n, l);
      if b.sig[l] != 0 {
        SeenIsFilled(t, t', v, slots, order, n, b, m, l);
      }
    }
    SawLane(t, slots, x, b, m);
    InsertAt(b, f, r, x.bucket, x.lane);
  }

  lemma SawLane(t: Table, slots: seq<Slot>, x: Vote, b: Bucket, m: nat)
    requires Saw(t, slots, x, b, m)
    ensures EmptyLane(b, Major(x.entry.sig)) == Some(x.lane)
  {
  }

  /** What the group has seen filled has been filled by then. */
  lemma SeenIsFilled(t: Table, t': Table, v: Votes, slots: seq<Slot>, order: seq<nat>, n: nat, b: Bucket, m: nat,
                     l: nat)
    requires LiveVotes(v) && Distinct(slots) && ListsSlots(v, t', slots, |slots|, order) && n < |order| && l < ELEM_NUM
    requires NewVotes(v, t) && AgreeingVotes(v) && forall g | g in v :: t[v[g].bucket].sig[v[g].lane] == 0
    requires order[n] in v && SlotOf(v[order[n]]) in slots && Saw(t, slots, v[order[n]], b, m) && b.sig[l] != 0
    ensures forall g | g in order :: g in v
    ensures Fold(v, t, order, n)[v[order[n]].bucket].sig[l] != 0
  {
    hide EmptyLane, Major, LastInSlot, EntryStays, NewVotes, AgreeingVotes, Wins, Fold, SlotsFirst;
    var x := v[order[n]];
    LaneAfter(v, t, t', order, n, l);
    if t[x.bucket].sig[l] == 0 {
      var y := FilledBefore(v, slots, order, n, m, Slot(x.bucket, l));
      FoldSig(v, t, t', order, n, y, x.bucket, l);
    }
  }

  /** Whoever is listed before n for a slot among the first m. */
  lemma FilledBefore(v: Votes, slots: seq<Slot>, order: seq<nat>, n: nat, m: nat, z: Slot) returns (y: nat)
    requires SlotsFirst(v, slots, order) && n < |order| && order[n] in v && SlotOf(v[order[n]]) in slots
    requires m <= |slots| && SlotOf(v[order[n]]) !in slots[..m] && z in slots[..m]
    ensures y < n && order[y] in v && SlotOf(v[order[y]]) == z
  {
    var j: nat :| j < m && slots[..m][j] == z;
    var i: nat :| i < |slots| && slots[i] == SlotOf(v[order[n]]);
    assert forall k: nat | k < m :: slots[..m][k] == slots[k];
    assert SlotBefore(v, slots[j], order, n);
    y :| y < n && order[y] in v && SlotOf(v[order[y]]) == slots[j];
  }

  /** The winners, each once, in an order in which their single inserts build the table. */
  ghost predicate Linear(groups: Groups, t: Table, winners: set<nat>, t': Table, order: seq<nat>)
  {
    && (forall k, m | 0 <= k < m < |order| :: order[k] != order[m])
    && (forall g :: g in order <==> g in winners)
    && (forall g | g in order :: g in groups)
    && Run(t, Inserts(groups, order), false) == t'
  }

  /** All winners inserted one by one, in the order they are listed, build the table of the round. */
  lemma {:induction false} WinnersRun(groups: Groups, t: Table, t': Table, v: Votes, slots: seq<Slot>,
                                      order: seq<nat>, n: nat)
    requires Ordered(groups, t, v, slots) && NewVotes(v, t) && AgreeingVotes(v)
    requires ListsSlots(v, t', slots, |slots|, order) && n <= |order|
    ensures forall g | g in order :: g in v && g in groups
    ensures forall g | g in order[..n] :: g in groups
    ensures Run(t, Inserts(groups, order[..n]), false) == Fold(v, t, order, n)
  {
    hide Insert, Inserts, Run, LastInSlot, EntryStays, SlotsFirst, SlotBefore, Distinct, NewVotes, AgreeingVotes;
    hide Wins, CastOn;
    hide LiveVotes, AllWanted;
    forall g | g in order[..n] ensures g in order {
    }
    if n == 0 {
      NobodyYet(groups, t, v, order);
    } else {
      WinnersRun(groups, t, t', v, slots, order, n - 1);
      NextWinner(groups, t, t', v, slots, order, n - 1);
      InsertsPrefix(groups, order, n);
      RunLast(t, Inserts(groups, order[..n]));
    }
  }

  lemma NobodyYet(groups: Groups, t: Table, v: Votes, order: seq<nat>)
    requires forall g | g in order :: g in v && g in groups
    ensures order[..0] == [] && Run(t, Inserts(groups, order[..0]), false) == t == Fold(v, t, order, 0)
  {
  }

  lemma RunLast(t: Table, ops: seq<Op>)
    requires ops != []
    ensures Run(t, ops, false) == Step(Run(t, ops[..|ops| - 1], false), ops[|ops| - 1], false)
  {
  }

  lemma InsertsPrefix(groups: Groups, order: seq<nat>, n: nat)
    requires 0 < n <= |order| && forall g | g in order :: g in groups
    ensures order[n - 1] in order && (forall g | g in order[..n] :: g in groups)
            && (forall g | g in order[..n - 1] :: g in groups)
    ensures Inserts(groups, order[..n]) == Inserts(groups, order[..n - 1]) + [Ins(groups[order[n - 1]])]
  {
  }

  /** Voters of one signature agree. */
  ghost predicate Agrees(groups: Groups, s: Race, moves: seq<Move>)
    requires s.pending <= groups.Keys
  {
    Legal(groups, s.table, s.pending, moves) && AgreeingVotes(Play(groups, s.table, s.pending, moves).votes)
  }

  lemma FreshVotes(groups: Groups, s: Race, v: Votes)
    requires s.pending <= groups.Keys && Fresh(groups, s) && v.Keys <= s.pending
    requires forall g | g in v :: v[g].bucket == Bucket0(groups, g) && v[g].entry == EntryOf(groups, g)
    ensures NewVotes(v, s.table)
  {
    hide Home;
  }

  /** A round in which voters of one signature agree is single inserts of its winners. */
  lemma RoundLinearizes(groups: Groups, s: Race, moves: seq<Move>, s': Race) returns (order: seq<nat>)
    requires Live(groups) && Inv(groups, s) && Fresh(groups, s) && Round(groups, s, moves, s')
             && Agrees(groups, s, moves)
    ensures Linear(groups, s.table, s'.won - s.won, s'.table, order)
    ensures Inv(groups, s') && Fresh(groups, s')
  {
    hide Play, Legal, Landed, Fold, Slots, Run, Inserts, AgreeingVotes, NewVotes, Fresh, Wins, Distinct, AllWanted;
    hide LiveVotes, CastInOrder;
    hide LastInSlot, EntryStays, SlotsFirst, SlotBefore;
    var v, slots := Play(groups, s.table, s.pending, moves).votes, Slots(groups, s.table, s.pending, moves);
    RoundOrdered(groups, s.table, s.pending, moves);
    FreshVotes(groups, s, v);
    order := OrderBySlots(v, s.table, s'.table, slots, |slots|);
    assert slots[..|slots|] == slots;
    WinnersRun(groups, s.table, s'.table, v, slots, order, |order|);
    assert order[..|order|] == order;
    AllListed(v, s'.table, slots, order);
    LandedIsFold(v, s.table, s'.table, order);
    RoundKeepsInv(groups, s, moves, s');
    LosersFresh(groups, s, moves, s');
  }

  lemma AllListed(v: Votes, t': Table, slots: seq<Slot>, order: seq<nat>)
    requires ListsSlots(v, t', slots, |slots|, order) && forall g | g in v :: SlotOf(v[g]) in slots
    ensures Listing(v, t', order) && forall g :: g in order <==> g in Winners(v, t')
  {
    hide LastInSlot, EntryStays;
    assert slots[..|slots|] == slots;
    WinnersVote(v, t');
  }

  lemma LosersFresh(groups: Groups, s: Race, moves: seq<Move>, s': Race)
    requires Live(groups) && Inv(groups, s) && Fresh(groups, s) && Round(groups, s, moves, s')
             && Agrees(groups, s, moves)
    requires Inv(groups, s')
    ensures Fresh(groups, s')
  {
    hide Play, Legal, Landed, Slots, Home, NewVotes, AgreeingVotes, Distinct, AllWanted, LiveVotes, CastInOrder;
    var v := Play(groups, s.table, s.pending, moves).votes;
    RoundOrdered(groups, s.table, s.pending, moves);
    FreshVotes(groups, s, v);
    forall g | g in s'.pending ensures groups[g].sig !in s'.table[Bucket0(groups, g)].sig {
      LoserIsNew(v, s.table, s'.table, g);
    }
  }

  /** In all of the first k rounds voters of one signature agree. */
  ghost predicate AllAgree(groups: Groups, trace: seq<Race>, rounds: seq<seq<Move>>, k: nat)
    requires |trace| == |rounds| + 1 && k <= |rounds|
  {
    forall j: nat | j < k :: trace[j].pending <= groups.Keys && Agrees(groups, trace[j], rounds[j])
  }

  /**
   The whole race, however its conflicts fall, equals single inserts of the winners
   one after the other: no winner twice, nobody else's entry in the table.
   */
  lemma {:induction false} RaceLinearizes(groups: Groups, trace: seq<Race>, rounds: seq<seq<Move>>, k: nat)
    returns (order: seq<nat>)
    requires Live(groups) && Races(groups, trace, rounds) && Fresh(groups, trace[0]) && trace[0].won == {}
    requires k <= |rounds| && AllAgree(groups, trace, rounds, k)
    ensures Linear(groups, trace[0].table, trace[k].won, trace[k].table, order)
    ensures Inv(groups, trace[k]) && Fresh(groups, trace[k])
  {
    hide Round, Live, Fresh, Agrees, Inv, Linear;
    RaceInv(groups, trace, rounds, k);
    if k == 0 {
      order := [];
      NoWinners(groups, trace[0].table);
    } else {
      var s, s' := trace[k - 1], trace[k];
      var before := RaceLinearizes(groups, trace, rounds, k - 1);
      assert Follows(groups, trace, rounds, k - 1);
      var more := RoundLinearizes(groups, s, rounds[k - 1], s');
      WonGrows(groups, s, rounds[k - 1], s');
      order := before + more;
      LinearJoined(groups, trace[0].table, s.won, s.table, before, s'.won, s'.table, more);
    }
  }

  lemma NoWinners(groups: Groups, t: Table)
    ensures Linear(groups, t, {}, t, [])
  {
  }

  lemma WonGrows(groups: Groups, s: Race, moves: seq<Move>, s': Race)
    requires s.pending <= groups.Keys && Round(groups, s, moves, s')
    ensures s.won <= s'.won
  {
    hide Play, Legal, Landed;
  }

  lemma LinearJoined(groups: Groups, t0: Table, won: set<nat>, t: Table, before: seq<nat>,
                     won': set<nat>, t': Table, more: seq<nat>)
    requires Linear(groups, t0, won, t, before) && Linear(groups, t, won' - won, t', more) && won <= won'
    ensures Linear(groups, t0, won', t', before + more)
  {
    hide Run;
    var order := before + more;
    DistinctJoined(before, more);
    forall g ensures g in order <==> g in won' {
      assert g in order <==> g in before || g in more;
    }
    RunAppend(t0, Inserts(groups, before), Inserts(groups, more), false);
    assert Inserts(groups, order) == Inserts(groups, before) + Inserts(groups, more);
  }

  // ----- when voters of one signature agree ---------------------------------

  /** No two groups with one home bucket bring one signature. */
  ghost predicate SigsApart(groups: Groups)
  {
    forall g, h | g in groups && h in groups && g != h && Bucket0(groups, g) == Bucket0(groups, h) ::
      groups[g].sig != groups[h].sig
  }

  /** With distinct signatures they always do, whoever votes after whose write. */
  lemma ApartAgrees(groups: Groups, s: Race, moves: seq<Move>)
    requires Live(groups) && s.pending <= groups.Keys && SigsApart(groups) && Legal(groups, s.table, s.pending, moves)
    ensures Agrees(groups, s, moves)
  {
    hide Play, Home, FilledBy, SlotsOf, CastInOrder, Slots;
    AlwaysInPhase(groups, s.table, s.pending, moves);
  }

  ghost predicate VotesFirst(moves: seq<Move>, n: nat)
  {
    n <= |moves| && (forall k | 0 <= k < n :: moves[k].Voting?) && forall k | n <= k < |moves| :: moves[k].Writing?
  }

  /** If all vote before anybody writes, as the groups of one warp do, they agree, equal signatures or not. */
  lemma VotesFirstAgrees(groups: Groups, s: Race, moves: seq<Move>, n: nat)
    requires s.pending <= groups.Keys && Legal(groups, s.table, s.pending, moves) && VotesFirst(moves, n)
    ensures Agrees(groups, s, moves)
  {
    hide Play, Home, EmptyLane, Major, Legal;
    SameView(groups, s.table, s.pending, moves, n);
  }

  ghost predicate CastHere(groups: Groups, t: Table, x: Vote, g: nat)
    requires g in groups
  {
    && x.bucket == Bucket0(groups, g) && x.entry == EntryOf(groups, g)
    && EmptyLane(t[x.bucket], Major(groups[g].sig)) == Some(x.lane)
  }

  lemma {:induction false} SameView(groups: Groups, t: Table, pending: set<nat>, moves: seq<Move>, n: nat)
    requires pending <= groups.Keys && Legal(groups, t, pending, moves) && VotesFirst(moves, n)
    ensures var p := Play(groups, t, pending, moves);
            && (n == |moves| ==> p.table == t)
            && forall g | g in p.votes :: g in groups && CastHere(groups, t, p.votes[g], g)
  {
    hide EmptyLane, Major, Home, PutAt;
    if moves != [] {
      var k := |moves| - 1;
      SameView(groups, t, pending, moves[..k], if n > k then k else n);
    }
  }

  /**
   Otherwise they need not: a group that votes after the write of another with its
   signature elects another lane, and the bucket holds the signature twice.
   */
  lemma LateVoteDuplicates(s: Race, hash: Word, sig: Word, a: Word, b: Word)
    returns (groups: Groups, moves: seq<Move>, s': Race)
    requires sig != 0 && s.pending == {0, 1} && sig !in s.table[Home(hash)].sig
    requires exists k: nat, l: nat :: k < l < ELEM_NUM && s.table[Home(hash)].sig[k] == 0 == s.table[Home(hash)].sig[l]
    ensures groups == map[0 := Elem(sig, hash, a), 1 := Elem(sig, hash, b)]
    ensures moves == [Voting(0), Writing(0), Voting(1), Writing(1)]
    ensures Fresh(groups, s) && Round(groups, s, moves, s') && !AllUnique(s'.table)
  {
    hide Home, EmptyLane, Major, Play, Legal, Landed, Wins, Fresh, AllUnique, Live;
    groups := map[0 := Elem(sig, hash, a), 1 := Elem(sig, hash, b)];
    moves := [Voting(0), Writing(0), Voting(1), Writing(1)];
    var p := TwoLanes(groups, s.table, hash);
    var t' := SomeOutcome(p.votes, s.table, 0, 1);
    s' := RoundTo(groups, s, moves, t');
    TwoWinners(p.votes, t', 0, 1);
    FreshPair(groups, s);
  }

  /** Both groups vote and write, one after the other, while the bucket has two empty lanes. */
  lemma TwoLanes(groups: Groups, t: Table, hash: Word) returns (p: Phase)
    requires groups.Keys == {0, 1} && groups[0].hash == hash == groups[1].hash && groups[0].sig != 0
    requires exists k: nat, l: nat :: k < l < ELEM_NUM && t[Home(hash)].sig[k] == 0 == t[Home(hash)].sig[l]
    ensures var moves := [Voting(0), Writing(0), Voting(1), Writing(1)];
            Legal(groups, t, {0, 1}, moves) && p == Play(groups, t, {0, 1}, moves)
    ensures AtBarrier({0, 1}, p) && p.votes.Keys == {0, 1}
    ensures p.votes[0].bucket == Home(hash) == p.votes[1].bucket && p.votes[0].lane != p.votes[1].lane
    ensures p.votes[0].entry == EntryOf(groups, 0) && p.votes[1].entry == EntryOf(groups, 1)
  {
    hide Home, EmptyLane, Major, Play, Legal;
    var i := Home(hash);
    NothingYet(groups, t, {0, 1});
    var k: nat, l: nat :| k < l < ELEM_NUM && t[i].sig[k] == 0 == t[i].sig[l];
    OneMove(groups, t, {0, 1}, [], Voting(0));
    assert [] + [Voting(0)] == [Voting(0)];
    var x := Play(groups, t, {0, 1}, [Voting(0)]).votes[0];
    OneMove(groups, t, {0, 1}, [Voting(0)], Writing(0));
    assert [Voting(0)] + [Writing(0)] == [Voting(0), Writing(0)];
    var t2 := SetSig(t, i, x.lane, x.entry.sig);
    assert t2[i].sig[if x.lane == k then l else k] == 0;
    OneMove(groups, t, {0, 1}, [Voting(0), Writing(0)], Voting(1));
    assert [Voting(0), Writing(0)] + [Voting(1)] == [Voting(0), Writing(0), Voting(1)];
    OneMove(groups, t, {0, 1}, [Voting(0), Writing(0), Voting(1)], Writing(1));
    assert [Voting(0), Writing(0), Voting(1)] + [Writing(1)] == [Voting(0), Writing(0), Voting(1), Writing(1)];
    p := Play(groups, t, {0, 1}, [Voting(0), Writing(0), Voting(1), Writing(1)]);
  }

  lemma FreshPair(groups: Groups, s: Race)
    requires s.pending == {0, 1} == groups.Keys
    requires forall g | g in groups :: groups[g].sig !in s.table[Home(groups[g].hash)].sig
    ensures Fresh(groups, s)
  {
  }

  /** The round to a possible table. */
  lemma RoundTo(groups: Groups, s: Race, moves: seq<Move>, t': Table) returns (s': Race)
    requires s.pending <= groups.Keys && Legal(groups, s.table, s.pending, moves)
    requires var p := Play(groups, s.table, s.pending, moves); AtBarrier(s.pending, p) && Landed(p.votes, s.table, t')
    ensures Round(groups, s, moves, s') && s'.table == t'
  {
    hide Play, Legal, Landed, Wins;
    var p := Play(groups, s.table, s.pending, moves);
    var winners := Winners(p.votes, t');
    s' := Race(t', p.votes.Keys - winners, s.won + winners, s.full + p.full);
  }

  lemma InsertsUnique(groups: Groups, t: Table, winners: set<nat>, t': Table, order: seq<nat>)
    requires Live(groups) && AllUnique(t) && Linear(groups, t, winners, t', order)
    ensures AllUnique(t')
  {
    hide AllUnique, Run;
    var ops := Inserts(groups, order);
    forall k: nat | k < |ops| ensures ops[k].Ins? && ops[k].elem.sig != 0 {
      assert order[k] in order;
    }
    RunUnique(t, ops, false);
  }

  /**
   Exactly when a round of votes and writes is single inserts of its winners, whoever
   survives: if and only if voters of one signature agree.
   */
  lemma RoundLinearizesIff(groups: Groups, s: Race, moves: seq<Move>)
    requires Live(groups) && Inv(groups, s) && Fresh(groups, s) && AllUnique(s.table)
    requires Legal(groups, s.table, s.pending, moves)
    requires AtBarrier(s.pending, Play(groups, s.table, s.pending, moves))
    ensures (forall s': Race | Round(groups, s, moves, s') ::
               exists order: seq<nat> :: Linear(groups, s.table, s'.won - s.won, s'.table, order)) <==>
            Agrees(groups, s, moves)
  {
    hide Play, Legal, Landed, AllUnique, Linear, Fresh, Live, Wins, AtBarrier;
    if Agrees(groups, s, moves) {
      forall s': Race | Round(groups, s, moves, s')
        ensures exists order: seq<nat> :: Linear(groups, s.table, s'.won - s.won, s'.table, order)
      {
        var order := RoundLinearizes(groups, s, moves, s');
      }
    } else {
      var s' := DuplicatingRound(groups, s, moves);
      forall order: seq<nat> ensures !Linear(groups, s.table, s'.won - s.won, s'.table, order) {
        if Linear(groups, s.table, s'.won - s.won, s'.table, order) {
          InsertsUnique(groups, s.table, s'.won - s.won, s'.table, order);
        }
      }
    }
  }

  lemma DuplicatingRound(groups: Groups, s: Race, moves: seq<Move>) returns (s': Race)
    requires Live(groups) && Inv(groups, s) && !Agrees(groups, s, moves)
    requires Legal(groups, s.table, s.pending, moves)
    requires AtBarrier(s.pending, Play(groups, s.table, s.pending, moves))
    ensures Round(groups, s, moves, s') && !AllUnique(s'.table)
  {
    hide Play, Legal, Landed, AllUnique, Wins, Distinct, AllWanted, CastOn;
    RoundOrdered(groups, s.table, s.pending, moves);
    var v := Play(groups, s.table, s.pending, moves).votes;
    var g, h :| g in v && h in v && v[g].bucket == v[h].bucket && v[g].entry.sig == v[h].entry.sig
        && v[g].lane != v[h].lane;
    var t' := SomeOutcome(v, s.table, g, h);
    s' := RoundTo(groups, s, moves, t');
    TwoWinners(v, t', g, h);
  }
}
