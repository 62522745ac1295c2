/**
 Whole races for second buckets: checks and lockstep rounds in any order, from
 groups that hold the entry they were asked to insert.
 */
module EvictionRuns {
  import opened GpuHash
  import opened CuckooSpec
  import opened EvictionRace
  import opened SlotVotes

  datatype Step = Checking(g: nat) | Rounding

  /** Step k leads from state k to state k + 1. */
  ghost predicate Follows(trace: seq<State>, steps: seq<Step>, k: nat)
    requires |trace| == |steps| + 1 && k < |steps|
  {
    match steps[k]
    case Checking(g) => Checks(trace[k], g) && trace[k + 1] == Check(trace[k], g)
    case Rounding => Round(trace[k], trace[k + 1])
  }

  predicate Checks(s: State, g: nat)
  {
    g < |s.hands| && s.hands[g].Some? && !s.hands[g].value.checked
  }

  ghost predicate Races(trace: seq<State>, steps: seq<Step>)
  {
    && |trace| == |steps| + 1
    && Live(trace[0])
    && forall k: nat | k < |steps| :: Follows(trace, steps, k)
  }

  /** No round among the first k steps starts with two groups of one signature sharing a lane of a full bucket. */
  ghost predicate AllParted(trace: seq<State>, steps: seq<Step>, k: nat)
    requires |trace| == |steps| + 1 && k <= |steps|
  {
    forall j: nat | j < k && steps[j] == Rounding :: Parted(trace[j])
  }

  /** All rounds among the first k steps start with the voters of one signature and bucket agreeing. */
  ghost predicate AllAgreeing(trace: seq<State>, steps: seq<Step>, k: nat)
    requires |trace| == |steps| + 1 && k <= |steps|
  {
    forall j: nat | j < k && steps[j] == Rounding :: Agreeing(trace[j])
  }

  lemma {:induction false} RaceLive(trace: seq<State>, steps: seq<Step>, k: nat)
    requires Races(trace, steps) && k <= |steps|
    ensures Live(trace[k]) && |trace[k].hands| == |trace[0].hands|
  {
    hide Live, Round, Check;
    if k > 0 {
      RaceLive(trace, steps, k - 1);
      assert Follows(trace, steps, k - 1);
      var s, s' := trace[k - 1], trace[k];
      match steps[k - 1]
      case Checking(g) => CheckLive(s, g); CheckHands(s, g);
      case Rounding => RoundLive(s, s'); RoundHands(s, s');
    }
  }

  lemma CheckHands(s: State, g: nat)
    requires Checks(s, g)
    ensures |Check(s, g).hands| == |s.hands|
    ensures |Check(s, g).lost| + Active(Check(s, g).hands, |s.hands|) <= |s.lost| + Active(s.hands, |s.hands|)
  {
    hide Target, MatchLane;
    ActiveUpdate(s.hands, g, Check(s, g).hands[g], |s.hands|);
  }

  lemma RoundHands(s: State, s': State)
    requires Round(s, s')
    ensures |s'.hands| == |s.hands|
    ensures |s'.lost| + Active(s'.hands, |s'.hands|) <= |s.lost| + Active(s.hands, |s.hands|)
            + |Doubles(s, s'.table, |s.hands|)|
  {
    hide Landed, Ballot, NextHand, Losses, Doubles;
    FewLosses(s, s', |s.hands|);
  }

  // ----- conservation -------------------------------------------------------

  /** The victims that have been carried on by one group too many. */
  ghost function Doubled(trace: seq<State>, steps: seq<Step>, k: nat): multiset<Entry>
    requires |trace| == |steps| + 1 && k <= |steps|
  {
    if k == 0 then multiset{}
    else
      var s, s' := trace[k - 1], trace[k];
      Doubled(trace, steps, k - 1) + (if steps[k - 1] == Rounding then Doubles(s, s'.table, |s.hands|) else multiset{})
  }

  /** The account of any race, however its conflicts fall. */
  lemma {:induction false} RaceAccounts(trace: seq<State>, steps: seq<Step>, k: nat, e: Entry)
    requires Races(trace, steps) && k <= |steps| && e.sig != 0
    ensures Total(trace[k], e) == Total(trace[0], e) + Doubled(trace, steps, k)[e]
    ensures |trace[k].hands| == |trace[0].hands|
    ensures |trace[k].lost| + Active(trace[k].hands, |trace[k].hands|) <=
            |trace[0].lost| + Active(trace[0].hands, |trace[0].hands|) + |Doubled(trace, steps, k)|
  {
    hide Live, Round, Check, Total, Active, Doubles;
    if k > 0 {
      RaceAccounts(trace, steps, k - 1, e);
      assert Follows(trace, steps, k - 1);
      var s, s' := trace[k - 1], trace[k];
      match steps[k - 1]
      case Checking(g) => CheckConserves(s, g, e); CheckHands(s, g);
      case Rounding => RoundAccounts(s, s', e); RoundHands(s, s');
    }
  }

  /**
   Through a whole race in which no two groups of one signature share a lane of a
   full bucket: every entry that was in the table or in hand is in the table, in
   hand, or counted as lost, each as often as before.
   */
  lemma {:induction false} RaceConserves(trace: seq<State>, steps: seq<Step>, k: nat, e: Entry)
    requires Races(trace, steps) && k <= |steps| && e.sig != 0 && AllParted(trace, steps, k)
    ensures Total(trace[k], e) == Total(trace[0], e)
  {
    hide Live, Round, Check, Total, Parted;
    if k > 0 {
      RaceConserves(trace, steps, k - 1, e);
      assert Follows(trace, steps, k - 1);
      match steps[k - 1]
      case Checking(g) => CheckConserves(trace[k - 1], g, e);
      case Rounding => RoundConserves(trace[k - 1], trace[k], e);
    }
  }

  // ----- duplicate-free buckets ---------------------------------------------

  /** Through a whole race in which voters of one signature and bucket agree, no bucket gets a signature twice. */
  lemma {:induction false} RaceUnique(trace: seq<State>, steps: seq<Step>, k: nat)
    requires Races(trace, steps) && k <= |steps| && New(trace[0]) && AllUnique(trace[0].table)
             && AllAgreeing(trace, steps, k)
    ensures New(trace[k]) && AllUnique(trace[k].table)
  {
    hide Live, New, Round, Check, AllUnique, Agreeing;
    if k > 0 {
      RaceUnique(trace, steps, k - 1);
      RaceLive(trace, steps, k - 1);
      assert Follows(trace, steps, k - 1);
      var s, s' := trace[k - 1], trace[k];
      match steps[k - 1]
      case Checking(g) => CheckNew(s, g); CheckUnique(s, g);
      case Rounding => RoundNew(s, s'); RoundUnique(s, s');
    }
  }

  // ----- progress -----------------------------------------------------------

  /** In how many of the first k steps group g took part in a round. */
  function Rounds(trace: seq<State>, steps: seq<Step>, k: nat, g: nat): nat
    requires |trace| == |steps| + 1 && k <= |steps|
  {
    if k == 0 then 0
    else Rounds(trace, steps, k - 1, g) + (if Racing(trace[k - 1], g) && steps[k - 1] == Rounding then 1 else 0)
  }

  /** No group races for more than 9 * 6 rounds. */
  lemma {:induction false} RaceEnds(trace: seq<State>, steps: seq<Step>, k: nat, g: nat)
    requires Races(trace, steps) && k <= |steps| && g < |trace[0].hands|
    ensures |trace[k].hands| == |trace[0].hands| && Rounds(trace, steps, k, g) + Rank(trace[k], g) <= Rank(trace[0], g)
    ensures Rounds(trace, steps, k, g) <= (ELEM_NUM + 1) * (MAX_CUCKOO_NUM + 1)
  {
    hide Live, Round, Check, Rank, Racing;
    RaceLive(trace, steps, k);
    if k > 0 {
      RaceEnds(trace, steps, k - 1, g);
      RaceLive(trace, steps, k - 1);
      assert Follows(trace, steps, k - 1);
      var s, s' := trace[k - 1], trace[k];
      match steps[k - 1]
      case Checking(c) => CheckRank(s, c, g);
      case Rounding => RoundProgress(s, s', g);
    }
  }

  lemma CheckRank(s: State, c: nat, g: nat)
    requires Checks(s, c) && g < |s.hands|
    ensures |Check(s, c).hands| == |s.hands| && Rank(Check(s, c), g) <= Rank(s, g)
  {
    hide MatchLane, SlotRace.EmptyLanes;
    SameSigs(s, c);
    if s.hands[g].Some? {
      var i := Target(s.hands[g].value);
      NoMoreEmpty(s.table[i], Check(s, c).table[i], ELEM_NUM);
    }
  }

  // ----- a group on its own -------------------------------------------------

  datatype Result = Result(table: Table, lost: multiset<Entry>)

  /** How a race with one group must end: as the displacement chain of a single insert does. */
  ghost function Future(s: State): Result
    requires |s.hands| == 1
  {
    match s.hands[0]
    case None => Result(s.table, s.lost)
    case Some(h) =>
      var o := Chain(s.table, h.hash, h.major, h.entry, h.n, false);
      Result(o.table, if o.loss.NoLoss? then s.lost else s.lost + multiset{o.loss.entry})
  }

  lemma CheckFuture(s: State)
    requires |s.hands| == 1 && Checks(s, 0)
    ensures Future(Check(s, 0)) == Future(s)
  {
    hide Alt, MatchLane, EmptyLane, PutAt;
  }

  /** Alone, a group always survives. */
  lemma LoneSurvivor(s: State, s': State)
    requires |s.hands| == 1 && Racing(s, 0) && Round(s, s')
    ensures Wins(Ballot(s), s'.table, 0) && Stays(Ballot(s), s'.table, 0)
    ensures var h := s.hands[0].value; s'.table == PutAt(s.table, Target(h), Elected(s.table, h), h.entry)
  {
    hide Target, Elected, NextHand, Losses, Landed;
    var v, h := Ballot(s), s.hands[0].value;
    var i, l := v[0].bucket, v[0].lane;
    assert Wants(v, 0, i, l);
    assert Wanted(v, i, l);
    SlotOutcome(v, s.table, s'.table, i, l);
    assert Owner(v, s'.table, i, l) == 0;
    RoundIsSequential(s, s');
    assert Mid(s, s'.table, 0) == s.table;
  }

  /** One step of the chain of a group whose signature is not in the bucket. */
  lemma ChainUnfolds(t: Table, h: Hand)
    requires MatchLane(t[Target(h)], h.entry.sig).None?
    ensures var o := Chain(t, h.hash, h.major, h.entry, h.n, false);
            var t' := PutAt(t, Target(h), Elected(t, h), h.entry);
            if !Crowded(t, h) then o.table == t' && o.loss == NoLoss
            else if h.n == MAX_CUCKOO_NUM then o.table == t' && o.loss == Exhausted(Victim(t, h))
            else
              var rest := Chain(t', h.hash, h.major, Victim(t, h), h.n + 1, false);
              o.table == rest.table && o.loss == rest.loss
  {
    hide Alt, MatchLane, EmptyLane, PutAt;
  }

  lemma LoneHand(s: State, s': State)
    requires |s.hands| == 1 && Round(s, s')
    ensures |s'.hands| == 1 && s'.hands[0] == NextHand(s, s'.table, 0)
    ensures s'.lost == s.lost + Superseded(s, s'.table, 0) + GivenUp(s, s'.table, 0)
  {
    hide NextHand, Superseded, GivenUp, Landed, Ballot;
    assert Losses(s, s'.table, 0) == multiset{};
  }

  lemma RoundFuture(s: State, s': State)
    requires |s.hands| == 1 && New(s) && Round(s, s')
    ensures |s'.hands| == 1 && Future(s') == Future(s)
  {
    hide New, Round, NextHand, Wins, Ballot, Superseded, GivenUp, Chain;
    LoneHand(s, s');
    if Racing(s, 0) {
      RacingFuture(s, s');
    } else {
      IdleFuture(s, s');
    }
  }

  lemma IdleFuture(s: State, s': State)
    requires |s.hands| == 1 == |s'.hands| && !Racing(s, 0) && Round(s, s')
    requires s'.hands[0] == NextHand(s, s'.table, 0)
    requires s'.lost == s.lost + Superseded(s, s'.table, 0) + GivenUp(s, s'.table, 0)
    ensures Future(s') == Future(s)
  {
    hide Target, Crowded, Elected, Victim, Round, Wins, Stays, Chain, Ballot;
    NobodyWins(s, s');
    NobodyRaces(s, s');
  }

  lemma RacingFuture(s: State, s': State)
    requires |s.hands| == 1 == |s'.hands| && New(s) && Racing(s, 0) && Round(s, s')
    requires s'.hands[0] == NextHand(s, s'.table, 0)
    requires s'.lost == s.lost + Superseded(s, s'.table, 0) + GivenUp(s, s'.table, 0)
    ensures Future(s') == Future(s)
  {
    hide Target, Crowded, Elected, Victim, FirstLane, PutAt, Round, Wins, Stays, Chain;
    LoneSurvivor(s, s');
    assert 0 in Ballot(s);
    ChainUnfolds(s.table, s.hands[0].value);
  }

  lemma NobodyWins(s: State, s': State)
    requires !Racing(s, 0)
    ensures !Wins(Ballot(s), s'.table, 0)
  {
  }

  lemma NobodyRaces(s: State, s': State)
    requires |s.hands| == 1 && !Racing(s, 0) && Round(s, s')
    ensures s'.table == s.table
  {
    hide Target, Elected, NextHand, Losses, Landed;
    RoundIsSequential(s, s');
    assert Mid(s, s'.table, 0) == s.table;
    assert 0 !in Ballot(s);
  }

  /** So the race, run by one group, is the second-bucket part of the sequential insert. */
  lemma {:induction false} LoneGroupIsChain(trace: seq<State>, steps: seq<Step>, k: nat)
    requires Races(trace, steps) && k <= |steps| && |trace[0].hands| == 1 && New(trace[0])
    ensures |trace[k].hands| == 1 && Future(trace[k]) == Future(trace[0]) && New(trace[k])
  {
    hide Live, New, Round, Check, Future;
    RaceLive(trace, steps, k);
    if k > 0 {
      LoneGroupIsChain(trace, steps, k - 1);
      RaceLive(trace, steps, k - 1);
      assert Follows(trace, steps, k - 1);
      var s, s' := trace[k - 1], trace[k];
      match steps[k - 1]
      case Checking(g) => CheckFuture(s); CheckNew(s, g);
      case Rounding => RoundFuture(s, s'); RoundNew(s, s');
    }
  }
}
