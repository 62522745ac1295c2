/**
 Second-bucket races without full buckets: as long as voters of one signature
 agree, such a race is the second-bucket parts of single inserts in some order.
 */
module EvictionChains {
  import opened GpuHash
  import opened Wrappers
  import opened CuckooSpec
  import opened SlotVotes
  import opened EvictionRace
  import opened EvictionRuns

  /** The second-bucket part of a single insert. */
  function ChainOf(t: Table, h: Hand): Table
  {
    Chain(t, h.hash, h.major, h.entry, h.n, false).table
  }

  function ChainRun(t: Table, hands: seq<Hand>): Table
  {
    if hands == [] then t else ChainOf(ChainRun(t, hands[..|hands| - 1]), hands[|hands| - 1])
  }

  lemma {:induction false} ChainRunAppend(t: Table, a: seq<Hand>, b: seq<Hand>)
    ensures ChainRun(t, a + b) == ChainRun(ChainRun(t, a), b)
  {
    hide ChainOf;
    if b == [] {
      assert a + b == a;
    } else {
      var n := |b| - 1;
      assert (a + b)[..|a| + n] == a + b[..n];
      ChainRunAppend(t, a, b[..n]);
    }
  }

  /** What these groups hold, whether or not they have made their check. */
  function HandsOf(s: State, order: seq<nat>): (hs: seq<Hand>)
    requires forall g | g in order :: g < |s.hands| && s.hands[g].Some?
    ensures |hs| == |order|
  {
    seq(|order|, k requires 0 <= k < |order| => assert order[k] in order; Plain(s.hands[order[k]].value))
  }

  function Plain(h: Hand): Hand
  {
    h.(checked := false)
  }

  /** No racing group meets a full bucket. */
  ghost predicate Roomy(s: State)
  {
    forall g: nat | Racing(s, g) :: !Crowded(s.table, s.hands[g].value)
  }

  /** A chain whose bucket is empty at the lane elected before, or holds the signature there and nowhere else. */
  lemma ChainAt(b: Bucket, t: Table, h: Hand, c: nat)
    requires h.entry.sig != 0 && c < ELEM_NUM && EmptyLane(b, h.major) == Some(c)
    requires forall l: nat | l < ELEM_NUM && l != c :: t[Target(h)].sig[l] != h.entry.sig
    requires forall l: nat | l < ELEM_NUM && b.sig[l] != 0 :: t[Target(h)].sig[l] != 0
    requires t[Target(h)].sig[c] == 0 || t[Target(h)].sig[c] == h.entry.sig
    ensures ChainOf(t, h) == PutAt(t, Target(h), c, h.entry)
  {
    hide Alt, EmptyLane, FirstLane;
    if t[Target(h)].sig[c] == 0 {
      SlotRace.ElectionIsStable(b, t[Target(h)], h.major);
    }
  }

  lemma RoomyBallot(s: State)
    requires Roomy(s)
    ensures var v := Ballot(s); forall g | g in v :: s.table[v[g].bucket].sig[v[g].lane] == 0
  {
    hide Crowded, Target;
  }

  lemma NextSurvivor(s: State, s': State, order: seq<nat>, n: nat)
    requires Live(s) && New(s) && Agreeing(s) && Roomy(s) && Listing(Ballot(s), s'.table, order) && n < |order|
    ensures forall g | g in order :: g in Ballot(s)
    ensures order[n] in order && Racing(s, order[n])
    ensures ChainOf(Fold(Ballot(s), s.table, order, n), Plain(s.hands[order[n]].value)) ==
            Fold(Ballot(s), s.table, order, n + 1)
  {
    hide Target, EmptyLane, LastInSlot, EntryStays, NewVotes, AgreeingVotes, ChainOf;
    var v, g := Ballot(s), order[n];
    assert g in order;
    RoomyBallot(s);
    LiveBallot(s);
    var t, h := Fold(v, s.table, order, n), s.hands[g].value;
    forall l: nat | l < ELEM_NUM
      ensures l != v[g].lane ==> t[v[g].bucket].sig[l] != h.entry.sig
      ensures s.table[v[g].bucket].sig[l] != 0 ==> t[v[g].bucket].sig[l] != 0
      ensures l == v[g].lane ==> t[v[g].bucket].sig[l] == 0 || t[v[g].bucket].sig[l] == h.entry.sig
    {
      LaneAfter(v, s.table, s'.table, order, n, l);
    }
    PlainTarget(h);
    assert EmptyLane(s.table[v[g].bucket], h.major) == Some(v[g].lane);
    ChainAt(s.table[v[g].bucket], t, Plain(h), v[g].lane);
  }

  lemma PlainTarget(h: Hand)
    ensures Target(Plain(h)) == Target(h)
  {
  }

  /** The survivors of a round, in the order of a listing, one chain after the other. */
  lemma {:induction false} RoundIsChains(s: State, s': State, order: seq<nat>, n: nat)
    requires Live(s) && New(s) && Agreeing(s) && Roomy(s) && Listing(Ballot(s), s'.table, order) && n <= |order|
    ensures forall g | g in order :: g in Ballot(s) && Racing(s, g)
    ensures forall g | g in order[..n] :: g in order && Racing(s, g)
    ensures ChainRun(s.table, HandsOf(s, order[..n])) == Fold(Ballot(s), s.table, order, n)
  {
    hide ChainOf, ChainRun, Live, New, Agreeing, Roomy, LastInSlot, EntryStays, Target, Elected, HandsOf, Plain, Fold;
    forall g | g in order ensures g in Ballot(s) && Racing(s, g) {
      assert Wins(Ballot(s), s'.table, g);
    }
    forall g | g in order[..n] ensures g in order {
    }
    if n == 0 {
      NobodyYet(s, order, Ballot(s));
    } else {
      RoundIsChains(s, s', order, n - 1);
      NextSurvivor(s, s', order, n - 1);
      HandsOfPrefix(s, order, n);
      ChainRunLast(s.table, HandsOf(s, order[..n]));
    }
  }

  lemma NobodyYet(s: State, order: seq<nat>, v: Votes)
    requires forall g | g in order :: g in v && g < |s.hands| && s.hands[g].Some?
    ensures order[..0] == [] && ChainRun(s.table, HandsOf(s, order[..0])) == s.table == Fold(v, s.table, order, 0)
  {
  }

  lemma HandsOfPrefix(s: State, order: seq<nat>, n: nat)
    requires 0 < n <= |order| && forall g | g in order :: g < |s.hands| && s.hands[g].Some?
    ensures (forall g | g in order[..n] :: g in order) && (forall g | g in order[..n - 1] :: g in order)
            && order[n - 1] in order
    ensures HandsOf(s, order[..n]) == HandsOf(s, order[..n - 1]) + [Plain(s.hands[order[n - 1]].value)]
  {
  }

  lemma ChainRunLast(t: Table, hs: seq<Hand>)
    requires hs != []
    ensures ChainRun(t, hs) == ChainOf(ChainRun(t, hs[..|hs| - 1]), hs[|hs| - 1])
  {
  }

  /** A check that finds its signature is a whole chain. */
  lemma CheckIsChain(s: State, g: nat)
    requires Checks(s, g)
    ensures Check(s, g).table ==
            if Check(s, g).hands[g].None? then ChainOf(s.table, Plain(s.hands[g].value)) else s.table
  {
    hide Alt, MatchLane;
  }

  /** All rounds among the first k steps meet no full bucket, and voters of one signature agree. */
  ghost predicate Smooth(trace: seq<State>, steps: seq<Step>, k: nat)
    requires |trace| == |steps| + 1 && k <= |steps|
  {
    forall j: nat | j < k && steps[j] == Rounding :: Roomy(trace[j]) && Agreeing(trace[j])
  }

  /** Those who have finished, in the order in which their chains give the table. */
  ghost predicate Finished(first: State, s: State, order: seq<nat>)
  {
    && |s.hands| == |first.hands|
    && (forall i, j | 0 <= i < j < |order| :: order[i] != order[j])
    && (forall g | g in order :: g < |s.hands| && first.hands[g].Some? && s.hands[g].None?)
    && (forall g: nat | g < |s.hands| && g !in order ::
          && s.hands[g].Some? == first.hands[g].Some?
          && (s.hands[g].Some? ==> Plain(s.hands[g].value) == Plain(first.hands[g].value)))
    && ChainRun(first.table, HandsOf(first, order)) == s.table
  }

  lemma FinishMore(first: State, s: State, s': State, order: seq<nat>, more: seq<nat>)
    requires Finished(first, s, order) && |s'.hands| == |s.hands|
    requires forall i, j | 0 <= i < j < |more| :: more[i] != more[j]
    requires forall g | g in more :: g < |s.hands| && s.hands[g].Some? && s'.hands[g].None?
    requires forall g: nat | g < |s.hands| && g !in more ::
               && s'.hands[g].Some? == s.hands[g].Some?
               && (s.hands[g].Some? ==> Plain(s'.hands[g].value) == Plain(s.hands[g].value))
    requires ChainRun(s.table, HandsOf(s, more)) == s'.table
    ensures Finished(first, s', order + more)
  {
    hide ChainRun, Plain;
    var all := order + more;
    DistinctJoined(order, more);
    forall g ensures g in all <==> g in order || g in more {
    }
    assert HandsOf(first, all) == HandsOf(first, order) + HandsOf(s, more) by {
      forall k: nat | k < |all| ensures HandsOf(first, all)[k] == (HandsOf(first, order) + HandsOf(s, more))[k] {
        assert all[k] in all;
        if k >= |order| {
          assert more[k - |order|] in more;
          assert all[k] !in order;
        }
      }
    }
    ChainRunAppend(first.table, HandsOf(first, order), HandsOf(s, more));
  }

  /** A smooth race is the second-bucket parts of its finished groups' inserts, one after the other. */
  lemma {:induction false} RaceIsChains(trace: seq<State>, steps: seq<Step>, k: nat) returns (order: seq<nat>)
    requires Races(trace, steps) && k <= |steps| && New(trace[0]) && Smooth(trace, steps, k)
    ensures Finished(trace[0], trace[k], order) && New(trace[k])
  {
    hide Live, New, Round, Check, Roomy, Agreeing, Finished;
    if k == 0 {
      order := [];
      NothingFinished(trace[0]);
    } else {
      order := RaceIsChains(trace, steps, k - 1);
      RaceLive(trace, steps, k - 1);
      assert Follows(trace, steps, k - 1);
      var s, s' := trace[k - 1], trace[k];
      var more;
      match steps[k - 1] {
        case Checking(g) =>
          more := CheckFinishes(trace[0], s, g, order);
          CheckNew(s, g);
        case Rounding =>
          more := RoundFinishes(trace[0], s, s', order);
          RoundNew(s, s');
      }
      order := order + more;
    }
  }

  lemma NothingFinished(s: State)
    ensures Finished(s, s, [])
  {
  }

  lemma CheckFinishes(first: State, s: State, g: nat, order: seq<nat>) returns (more: seq<nat>)
    requires Checks(s, g) && Finished(first, s, order)
    ensures Finished(first, Check(s, g), order + more)
  {
    hide Finished, ChainOf, MatchLane, Target;
    CheckIsChain(s, g);
    var s' := Check(s, g);
    more := if s'.hands[g].None? then [g] else [];
    OneChain(s.table, HandsOf(s, more));
    FinishMore(first, s, s', order, more);
  }

  lemma OneChain(t: Table, hs: seq<Hand>)
    ensures hs == [] ==> ChainRun(t, hs) == t
    ensures |hs| == 1 ==> ChainRun(t, hs) == ChainOf(t, hs[0])
  {
  }

  lemma RoundFinishes(first: State, s: State, s': State, order: seq<nat>) returns (more: seq<nat>)
    requires Live(s) && New(s) && Agreeing(s) && Roomy(s) && Round(s, s') && Finished(first, s, order)
    ensures Finished(first, s', order + more)
  {
    hide Live, New, Agreeing, Finished, Landed, Losses, Target, Elected, LastInSlot, EntryStays, Crowded, ChainRun;
    hide Fold;
    more := SomeListing(Ballot(s), s.table, s'.table);
    RoundIsChains(s, s', more, |more|);
    assert more[..|more|] == more;
    LandedIsFold(Ballot(s), s.table, s'.table, more);
    forall g: nat | g < |s.hands|
      ensures g in more ==> s.hands[g].Some? && s'.hands[g].None?
      ensures g !in more ==> s'.hands[g] == s.hands[g]
    {
      assert s'.hands[g] == NextHand(s, s'.table, g);
    }
    FinishMore(first, s, s', order, more);
  }
}
