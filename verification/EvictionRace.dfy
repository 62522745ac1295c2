/**
 The race for second buckets between any number of lane groups, displacements
 included.  A group holds an entry; it first looks for its signature in the
 second bucket, then takes part in lockstep rounds: vote, barrier, write the
 signature, barrier, look whose signature survived.  In a full bucket the group
 remembers the entry it is about to replace; if it survives it goes on with that
 entry, and if it does not it gives up its own.
 */
module EvictionRace {
  import opened GpuHash
  import opened Wrappers
  import opened CuckooSpec
  import opened CuckooLaws
  import opened SlotVotes
  import SlotRace

  type Moves = n: nat | n <= MAX_CUCKOO_NUM

  /** The entry in a group's hand, and how far the group has come. */
  datatype Hand = Hand(entry: Entry, hash: Word, major: Lane, n: Moves, checked: bool)

  /** One hand per group, none for a group that has finished; `lost` counts the entries overwritten or given up. */
  datatype State = State(table: Table, hands: seq<Option<Hand>>, lost: multiset<Entry>)

  function Target(h: Hand): (i: BucketNo)
  {
    Alt(h.hash, h.entry.sig)
  }

  predicate Crowded(t: Table, h: Hand)
  {
    EmptyLane(t[Target(h)], h.major).None?
  }

  function Elected(t: Table, h: Hand): (l: Lane)
    ensures !Crowded(t, h) ==> t[Target(h)].sig[l] == 0
  {
    match EmptyLane(t[Target(h)], h.major)
    case Some(l) => l
    case None => h.major
  }

  function Victim(t: Table, h: Hand): Entry
  {
    EntryAt(t, Target(h), Elected(t, h))
  }

  predicate Racing(s: State, g: nat)
  {
    g < |s.hands| && s.hands[g].Some? && s.hands[g].value.checked
  }

  /** The votes of all groups that have made their check. */
  function Ballot(s: State): (v: Votes)
    ensures forall g: nat :: g in v <==> Racing(s, g)
    ensures forall g: nat | g in v :: Racing(s, g) &&
              var h := s.hands[g].value; v[g] == Vote(Target(h), Elected(s.table, h), h.entry)
  {
    map g: nat | g < |s.hands| && Racing(s, g) ::
      Vote(Target(s.hands[g].value), Elected(s.table, s.hands[g].value), s.hands[g].value.entry)
  }

  /** What group g holds after the round. */
  function NextHand(s: State, t': Table, g: nat): Option<Hand>
    requires g < |s.hands|
  {
    if !Racing(s, g) then s.hands[g]
    else
      var h, won := s.hands[g].value, Wins(Ballot(s), t', g);
      if !Crowded(s.table, h) then
        if won then None else s.hands[g]
      else if won && h.n < MAX_CUCKOO_NUM then
        Some(Hand(Victim(s.table, h), h.hash, h.major, h.n + 1, false))
      else None
  }

  /** Of several survivors in one slot, all but one are overwritten, as a second insert of the signature would do it. */
  ghost function Superseded(s: State, t': Table, g: nat): multiset<Entry>
    requires g < |s.hands|
  {
    if Wins(Ballot(s), t', g) && !Stays(Ballot(s), t', g) then multiset{s.hands[g].value.entry} else multiset{}
  }

  /** In a full bucket a loser gives up its entry, and a survivor without moves left its victim. */
  function GivenUp(s: State, t': Table, g: nat): multiset<Entry>
    requires g < |s.hands|
  {
    if !Racing(s, g) || !Crowded(s.table, s.hands[g].value) then multiset{}
    else
      var h := s.hands[g].value;
      if !Wins(Ballot(s), t', g) then multiset{h.entry}
      else if h.n < MAX_CUCKOO_NUM then multiset{}
      else multiset{Victim(s.table, h)}
  }

  ghost function Losses(s: State, t': Table, n: nat): multiset<Entry>
    requires n <= |s.hands|
  {
    if n == 0 then multiset{} else Losses(s, t', n - 1) + Superseded(s, t', n - 1) + GivenUp(s, t', n - 1)
  }

  /** One lockstep round of all groups that have made their check. */
  ghost predicate Round(s: State, s': State)
  {
    && |s'.hands| == |s.hands|
    && Landed(Ballot(s), s.table, s'.table)
    && (forall g: nat | g < |s.hands| :: s'.hands[g] == NextHand(s, s'.table, g))
    && s'.lost == s.lost + Losses(s, s'.table, |s.hands|)
  }

  /**
   A group that has just reached its second bucket replaces the location of its own
   signature there, or joins the race.
   */
  function Check(s: State, g: nat): (s': State)
    requires g < |s.hands| && s.hands[g].Some?
  {
    var h := s.hands[g].value;
    match MatchLane(s.table[Target(h)], h.entry.sig)
    case Some(l) =>
      State(PutAt(s.table, Target(h), l, h.entry), s.hands[g := None],
          s.lost + multiset{EntryAt(s.table, Target(h), l)})
    case None =>
      s.(hands := s.hands[g := Some(h.(checked := true))])
  }

  /** Groups g and h bring one signature and vote for one lane of a full bucket. */
  predicate Share(s: State, g: nat, h: nat)
  {
    && Racing(s, g) && Racing(s, h)
    && s.hands[g].value.entry.sig == s.hands[h].value.entry.sig
    && SameSlot(Ballot(s), g, h) && Crowded(s.table, s.hands[g].value)
  }

  /** No two groups do. */
  ghost predicate Parted(s: State)
  {
    forall g: nat, h: nat | Share(s, g, h) :: g == h
  }

  /** Racing groups that bring one signature into one bucket vote for one lane. */
  ghost predicate Agreeing(s: State)
  {
    AgreeingVotes(Ballot(s))
  }

  /** Entries in hand are live. */
  ghost predicate Live(s: State)
  {
    forall g: nat | g < |s.hands| && s.hands[g].Some? :: s.hands[g].value.entry.sig != 0
  }

  /** A racing group's signature is not in its bucket. */
  ghost predicate New(s: State)
  {
    NewVotes(Ballot(s), s.table)
  }

  lemma EmptyVictim(t: Table, h: Hand)
    ensures !Crowded(t, h) ==> Victim(t, h).sig == 0
    ensures Crowded(t, h) ==> Victim(t, h).sig != 0
  {
  }

  /**
   From every state a round is possible, and the winners of two slots, or of one
   slot if the signatures are the same, can be chosen.
   */
  lemma SomeRound(s: State, g: nat, h: nat) returns (s': State)
    ensures Round(s, s')
    ensures Racing(s, g) ==> Wins(Ballot(s), s'.table, g)
    ensures Racing(s, h) && (SameSlot(Ballot(s), g, h) ==> s.hands[g].value.entry.sig == s.hands[h].value.entry.sig) ==>
              Wins(Ballot(s), s'.table, h)
  {
    hide Ballot, NextHand, Losses, Landed, Wins;
    var t := SomeOutcome(Ballot(s), s.table, g, h);
    s' := State(t, seq(|s.hands|, k requires 0 <= k < |s.hands| => NextHand(s, t, k)),
        s.lost + Losses(s, t, |s.hands|));
  }

  // ----- conservation -------------------------------------------------------

  /** The table after those of the first n groups whose entries stay have written. */
  ghost function Mid(s: State, t': Table, n: nat): Table
  {
    if n == 0 then s.table
    else
      var v, g := Ballot(s), n - 1;
      if Stays(v, t', g) then PutAt(Mid(s, t', n - 1), v[g].bucket, v[g].lane, v[g].entry) else Mid(s, t', n - 1)
  }

  lemma {:induction false} MidOwned(s: State, t': Table, n: nat, i: nat, l: nat)
    requires i < BUC_NUM && l < ELEM_NUM
    ensures EntryAt(Mid(s, t', n), i, l) ==
            if Owned(Ballot(s), t', i, l) && Owner(Ballot(s), t', i, l) < n then EntryAt(t', i, l)
            else EntryAt(s.table, i, l)
  {
    hide Ballot, Stays, Owned, Wins;
    if n > 0 {
      var g: nat := n - 1;
      MidOwned(s, t', g, i, l);
      StaysIsOwner(Ballot(s), t', g, i, l);
      if Stays(Ballot(s), t', g) {
        StaysWins(Ballot(s), t', g);
        StaysIsOwner(Ballot(s), t', g, Ballot(s)[g].bucket, Ballot(s)[g].lane);
      }
    }
  }

  /** A round is, one after the other, the writes of the groups whose entries stay. */
  lemma RoundIsSequential(s: State, s': State)
    requires Round(s, s')
    ensures Mid(s, s'.table, |s.hands|) == s'.table
  {
    hide Ballot, Landed, NextHand, Losses, Mid, Owned, Wanted;
    var v, t, n := Ballot(s), Mid(s, s'.table, |s.hands|), |s.hands|;
    forall i: nat | i < BUC_NUM ensures t[i] == s'.table[i] {
      forall l: nat | l < ELEM_NUM ensures EntryAt(t, i, l) == EntryAt(s'.table, i, l) {
        SlotOutcome(v, s.table, s'.table, i, l);
        MidOwned(s, s'.table, n, i, l);
        if Owned(v, s'.table, i, l) {
          OwnerRaces(s, s'.table, i, l);
        }
      }
      SameBucket(t, s'.table, i);
    }
  }

  lemma OwnerRaces(s: State, t': Table, i: nat, l: nat)
    requires i < BUC_NUM && l < ELEM_NUM && Owned(Ballot(s), t', i, l)
    ensures Owner(Ballot(s), t', i, l) < |s.hands|
  {
    assert Owner(Ballot(s), t', i, l) in Ballot(s);
  }

  function HandCopies(h: Option<Hand>, e: Entry): nat
  {
    if h.Some? && h.value.entry == e then 1 else 0
  }

  /** How many of the first n groups hold e. */
  function InHand(hands: seq<Option<Hand>>, e: Entry, n: nat): nat
    requires n <= |hands|
  {
    if n == 0 then 0 else InHand(hands, e, n - 1) + HandCopies(hands[n - 1], e)
  }

  /** All copies of e: in the table, in hand, and lost. */
  ghost function Total(s: State, e: Entry): nat
  {
    Copies(s.table, e) + InHand(s.hands, e, |s.hands|) + s.lost[e]
  }

  /** What is counted twice: the victim that an overwritten survivor carries on, or gives up, as well. */
  ghost function Double(s: State, t': Table, g: nat): multiset<Entry>
  {
    if Wins(Ballot(s), t', g) && !Stays(Ballot(s), t', g) && Crowded(s.table, s.hands[g].value)
    then multiset{Victim(s.table, s.hands[g].value)} else multiset{}
  }

  ghost function Doubles(s: State, t': Table, n: nat): multiset<Entry>
  {
    if n == 0 then multiset{} else Doubles(s, t', n - 1) + Double(s, t', n - 1)
  }

  /** The write of the next group, seen from its slot: nobody before it has written there. */
  lemma NextWrite(s: State, t': Table, g: nat)
    requires Stays(Ballot(s), t', g)
    ensures Racing(s, g) && var h := s.hands[g].value;
            EntryAt(Mid(s, t', g), Target(h), Elected(s.table, h)) == Victim(s.table, h)
  {
    hide Target, Elected, Mid, Owned;
    var v := Ballot(s);
    StaysWins(v, t', g);
    StaysIsOwner(v, t', g, v[g].bucket, v[g].lane);
    assert Wants(v, g, v[g].bucket, v[g].lane);
    MidOwned(s, t', g, v[g].bucket, v[g].lane);
  }

  lemma MidStep(s: State, t': Table, g: nat, e: Entry)
    requires g < |s.hands| && e.sig != 0
    ensures Copies(Mid(s, t', g + 1), e) + HandCopies(NextHand(s, t', g), e)
            + (Superseded(s, t', g) + GivenUp(s, t', g))[e] ==
            Copies(Mid(s, t', g), e) + HandCopies(s.hands[g], e) + Double(s, t', g)[e]
  {
    hide Target, Elected, Copies, Crowded, Stays, Wins, PutAt;
    if Stays(Ballot(s), t', g) {
      StaysWins(Ballot(s), t', g);
      var h := s.hands[g].value;
      NextWrite(s, t', g);
      EmptyVictim(s.table, h);
      CopiesPut(Mid(s, t', g), Target(h), Elected(s.table, h), h.entry, e);
    } else if Wins(Ballot(s), t', g) {
      WinnerRaces(s, t', g);
    }
  }

  lemma WinnerRaces(s: State, t': Table, g: nat)
    requires Wins(Ballot(s), t', g)
    ensures Racing(s, g)
  {
  }

  lemma {:induction false} MidAccounts(s: State, s': State, n: nat, e: Entry)
    requires n <= |s.hands| && e.sig != 0
    requires |s'.hands| == |s.hands| && forall g: nat | g < |s.hands| :: s'.hands[g] == NextHand(s, s'.table, g)
    ensures Copies(Mid(s, s'.table, n), e) + InHand(s'.hands, e, n) + Losses(s, s'.table, n)[e] ==
            Copies(s.table, e) + InHand(s.hands, e, n) + Doubles(s, s'.table, n)[e]
  {
    hide Copies, NextHand, Superseded, GivenUp, HandCopies, PutAt, Stays, Double, Ballot;
    if n > 0 {
      MidAccounts(s, s', n - 1, e);
      MidStep(s, s'.table, n - 1, e);
    }
  }

  /** The account of any round, whoever wins: nothing vanishes, and only doubled victims are counted twice. */
  lemma RoundAccounts(s: State, s': State, e: Entry)
    requires Round(s, s') && e.sig != 0
    ensures Total(s', e) == Total(s, e) + Doubles(s, s'.table, |s.hands|)[e]
  {
    hide Copies, NextHand, Losses, Mid, InHand, Landed, Ballot, Doubles;
    RoundIsSequential(s, s');
    MidAccounts(s, s', |s.hands|, e);
  }

  /** Whoever is overwritten in a full bucket shares a lane with the one whose entry stays. */
  lemma OverwrittenShares(s: State, s': State, g: nat) returns (w: nat)
    requires Round(s, s') && Wins(Ballot(s), s'.table, g) && !Stays(Ballot(s), s'.table, g)
             && Crowded(s.table, s.hands[g].value)
    ensures w != g && Share(s, g, w)
  {
    hide Landed, Target, Elected, NextHand, Losses, Crowded;
    var v := Ballot(s);
    assert Wants(v, g, v[g].bucket, v[g].lane);
    assert Wanted(v, v[g].bucket, v[g].lane);
    SlotOutcome(v, s.table, s'.table, v[g].bucket, v[g].lane);
    w := Owner(v, s'.table, v[g].bucket, v[g].lane);
  }

  lemma NobodyDoubled(s: State, s': State, g: nat)
    requires Parted(s) && Round(s, s')
    ensures Double(s, s'.table, g) == multiset{}
  {
    hide Parted, Round, Stays, Crowded, Ballot, Share, Wins, Target, Elected, Victim;
    WinnerOnly(s, s'.table, g);
    if Wins(Ballot(s), s'.table, g) && !Stays(Ballot(s), s'.table, g) && Crowded(s.table, s.hands[g].value) {
      var w := OverwrittenShares(s, s', g);
      PartedApart(s, g, w);
    }
  }

  lemma {:induction false} NothingDoubled(s: State, s': State, n: nat)
    requires Parted(s) && Round(s, s') && n <= |s.hands|
    ensures Doubles(s, s'.table, n) == multiset{}
  {
    hide Parted, Round, Double;
    if n > 0 {
      NothingDoubled(s, s', n - 1);
      NobodyDoubled(s, s', n - 1);
    }
  }

  lemma WinnerOnly(s: State, t': Table, g: nat)
    ensures Wins(Ballot(s), t', g) ==> Racing(s, g) && s.hands[g].Some?
  {
  }

  lemma PartedApart(s: State, g: nat, w: nat)
    requires Parted(s) && Share(s, g, w)
    ensures g == w
  {
  }

  /** If no two groups of one signature share a lane of a full bucket, a round conserves every entry. */
  lemma RoundConserves(s: State, s': State, e: Entry)
    requires Parted(s) && Round(s, s') && e.sig != 0
    ensures Total(s', e) == Total(s, e)
  {
    hide Parted, Round, Total, Doubles;
    RoundAccounts(s, s', e);
    NothingDoubled(s, s', |s.hands|);
  }

  lemma {:induction false} DoubleCounts(s: State, t': Table, n: nat, g: nat)
    requires g < n && Wins(Ballot(s), t', g) && !Stays(Ballot(s), t', g) && Crowded(s.table, s.hands[g].value)
    ensures Racing(s, g) && Doubles(s, t', n)[Victim(s.table, s.hands[g].value)] > 0
  {
    hide Stays, Crowded, Victim, Target, Elected, Double, Wins, Ballot;
    DoubleHas(s, t', g);
    if g < n - 1 { DoubleCounts(s, t', n - 1, g); }
  }

  lemma DoubleHas(s: State, t': Table, g: nat)
    requires Wins(Ballot(s), t', g) && !Stays(Ballot(s), t', g) && Crowded(s.table, s.hands[g].value)
    ensures Racing(s, g) && Double(s, t', g)[Victim(s.table, s.hands[g].value)] > 0
  {
    hide Stays, Crowded, Victim, Target, Elected;
    WinnerRaces(s, t', g);
  }

  /**
   Exactly when rounds conserve: every round from a state keeps every entry as often
   as it was if and only if no two groups of one signature share a lane of a full bucket.
   */
  lemma RoundsConserveIff(s: State)
    ensures (forall s': State, e: Entry | Round(s, s') && e.sig != 0 :: Total(s', e) == Total(s, e)) <==> Parted(s)
  {
    hide Parted, Round, Total;
    if Parted(s) {
      forall s': State, e: Entry | Round(s, s') && e.sig != 0 ensures Total(s', e) == Total(s, e) {
        RoundConserves(s, s', e);
      }
    } else {
      var s', e := DoublingRound(s);
    }
  }

  lemma DoublingRound(s: State) returns (s': State, e: Entry)
    requires !Parted(s)
    ensures Round(s, s') && e.sig != 0 && Total(s', e) > Total(s, e)
  {
    hide Target, Elected, Round, Total, Doubles, Crowded, Victim;
    var g: nat, h: nat :| Share(s, g, h) && g != h;
    s' := SomeRound(s, g, h);
    var v := Ballot(s);
    StaysIsOwner(v, s'.table, g, v[g].bucket, v[g].lane);
    StaysIsOwner(v, s'.table, h, v[g].bucket, v[g].lane);
    ShareCrowded(s, g, h);
    var x := if Stays(v, s'.table, g) then h else g;
    e := Victim(s.table, s.hands[x].value);
    EmptyVictim(s.table, s.hands[x].value);
    DoubleCounts(s, s'.table, |s.hands|, x);
    RoundAccounts(s, s', e);
  }

  /** Whether a bucket is full does not depend on the lane the search starts from. */
  lemma ShareCrowded(s: State, g: nat, h: nat)
    requires Share(s, g, h)
    ensures Crowded(s.table, s.hands[h].value) && s.hands[g].value.major == s.hands[h].value.major
    ensures Victim(s.table, s.hands[g].value) == Victim(s.table, s.hands[h].value)
  {
    hide Target, FirstLane;
  }

  // ----- checks -------------------------------------------------------------

  lemma {:induction false} InHandUpdate(hands: seq<Option<Hand>>, g: nat, x: Option<Hand>, e: Entry, n: nat)
    requires g < |hands| && n <= |hands|
    ensures InHand(hands[g := x], e, n) + (if g < n then HandCopies(hands[g], e) else 0) ==
            InHand(hands, e, n) + (if g < n then HandCopies(x, e) else 0)
  {
    hide HandCopies;
    if n > 0 { InHandUpdate(hands, g, x, e, n - 1); }
  }

  lemma CheckConserves(s: State, g: nat, e: Entry)
    requires g < |s.hands| && s.hands[g].Some? && e.sig != 0
    ensures Total(Check(s, g), e) == Total(s, e)
  {
    hide Target, Copies, InHand, MatchLane, PutAt;
    var h := s.hands[g].value;
    var s' := Check(s, g);
    InHandUpdate(s.hands, g, s'.hands[g], e, |s.hands|);
    var m := MatchLane(s.table[Target(h)], h.entry.sig);
    if m.Some? {
      CopiesPut(s.table, Target(h), m.value, h.entry, e);
    }
  }

  // ----- duplicate-free buckets ---------------------------------------------

  /** As long as racing groups with one signature in one bucket vote for one lane, no bucket gets a signature twice. */
  lemma RoundUnique(s: State, s': State)
    requires Agreeing(s) && New(s) && Round(s, s') && AllUnique(s.table)
    ensures AllUnique(s'.table)
  {
    hide Landed, Ballot, NextHand, Losses, AllUnique, NewVotes, AgreeingVotes;
    LandedUnique(Ballot(s), s.table, s'.table);
  }

  /** Two groups with one signature that win two lanes of one bucket leave it there twice. */
  lemma BothWinDuplicates(s: State, s': State, g: nat, h: nat)
    requires Live(s) && Racing(s, g) && Racing(s, h) && s.hands[g].value.entry.sig == s.hands[h].value.entry.sig
    requires Target(s.hands[g].value) == Target(s.hands[h].value)
    requires Elected(s.table, s.hands[g].value) != Elected(s.table, s.hands[h].value)
    requires Wins(Ballot(s), s'.table, g) && Wins(Ballot(s), s'.table, h)
    ensures !AllUnique(s'.table)
  {
    hide Target, Elected, Wins, AllUnique;
    TwoWinners(Ballot(s), s'.table, g, h);
  }

  /**
   Exactly when rounds keep buckets duplicate-free: every round does if and only if
   racing groups with one signature in one bucket vote for one lane.
   */
  lemma RoundsUniqueIff(s: State)
    requires Live(s) && New(s) && AllUnique(s.table)
    ensures (forall s': State | Round(s, s') :: AllUnique(s'.table)) <==> Agreeing(s)
  {
    hide Round, AllUnique, NewVotes, Target, Elected;
    if Agreeing(s) {
      forall s': State | Round(s, s') ensures AllUnique(s'.table) {
        RoundUnique(s, s');
      }
    } else {
      var v := Ballot(s);
      var g, h :| g in v && h in v && v[g].bucket == v[h].bucket && v[g].entry.sig == v[h].entry.sig
          && v[g].lane != v[h].lane;
      var s' := SomeRound(s, g, h);
      BothWinDuplicates(s, s', g, h);
    }
  }

  lemma RoundLive(s: State, s': State)
    requires Live(s) && Round(s, s')
    ensures Live(s')
  {
    hide Target, Elected, Losses, Landed, Ballot, Wins;
    forall g: nat | g < |s'.hands| && s'.hands[g].Some? ensures s'.hands[g].value.entry.sig != 0 {
      assert s'.hands[g] == NextHand(s, s'.table, g);
      if Racing(s, g) { EmptyVictim(s.table, s.hands[g].value); }
    }
  }

  lemma RoundNew(s: State, s': State)
    requires Agreeing(s) && New(s) && Round(s, s')
    ensures New(s')
  {
    hide Target, Elected, Losses, Landed, AgreeingVotes, Ballot, Wins;
    var v, v' := Ballot(s), Ballot(s');
    forall g | g in v' ensures v'[g].entry.sig !in s'.table[v'[g].bucket].sig {
      assert s'.hands[g] == NextHand(s, s'.table, g);
      LoserIsNew(v, s.table, s'.table, g);
    }
  }

  /** A check leaves all signatures as they were. */
  lemma SameSigs(s: State, g: nat)
    requires g < |s.hands| && s.hands[g].Some?
    ensures forall i: nat | i < BUC_NUM :: Check(s, g).table[i].sig == s.table[i].sig
  {
    hide Target, FirstLane;
    var h := s.hands[g].value;
    var m := MatchLane(s.table[Target(h)], h.entry.sig);
    if m.Some? {
      assert s.table[Target(h)].sig[m.value := h.entry.sig] == s.table[Target(h)].sig;
    }
  }

  lemma CheckLive(s: State, g: nat)
    requires Live(s) && g < |s.hands| && s.hands[g].Some?
    ensures Live(Check(s, g))
  {
    hide MatchLane, PutAt, Target;
  }

  lemma CheckNew(s: State, g: nat)
    requires New(s) && g < |s.hands| && s.hands[g].Some?
    ensures New(Check(s, g))
  {
    hide FirstLane, PutAt, Elected, Alt;
    SameSigs(s, g);
    var s' := Check(s, g);
    var v, v' := Ballot(s), Ballot(s');
    forall k | k in v' ensures v'[k].entry.sig !in s'.table[v'[k].bucket].sig {
      assert s'.table[v'[k].bucket].sig == s.table[v'[k].bucket].sig;
      if k == g {
        assert MatchLane(s.table[v'[k].bucket], v'[k].entry.sig).None?;
      } else {
        assert k in v;
      }
    }
  }

  lemma CheckUnique(s: State, g: nat)
    requires Live(s) && AllUnique(s.table) && g < |s.hands| && s.hands[g].Some?
    ensures AllUnique(Check(s, g).table)
  {
    hide Target, FirstLane, AllUnique;
    var h := s.hands[g].value;
    var i := Target(h);
    var m := MatchLane(s.table[i], h.entry.sig);
    if m.Some? {
      UniqueAt(s.table, i);
      PutUnique(s.table, i, m.value, h.entry);
    }
  }

  // ----- progress -----------------------------------------------------------

  /** How many more rounds a group can take part in. */
  function Rank(s: State, g: nat): (r: nat)
    requires g < |s.hands|
    ensures r <= (ELEM_NUM + 1) * (MAX_CUCKOO_NUM + 1)
  {
    match s.hands[g]
    case None => 0
    case Some(h) => (ELEM_NUM + 1) * (MAX_CUCKOO_NUM - h.n) + SlotRace.EmptyLanes(s.table[Target(h)], ELEM_NUM) + 1
  }

  lemma {:induction false} NoMoreEmpty(b: Bucket, b': Bucket, n: nat)
    requires n <= ELEM_NUM && forall k: nat | k < ELEM_NUM && b.sig[k] != 0 :: b'.sig[k] != 0
    ensures SlotRace.EmptyLanes(b', n) <= SlotRace.EmptyLanes(b, n)
  {
    if n > 0 { NoMoreEmpty(b, b', n - 1); }
  }

  lemma LiveBallot(s: State)
    requires Live(s)
    ensures LiveVotes(Ballot(s))
  {
    hide Target, Elected;
  }

  /** A round brings every racing group nearer to its end, and sets no other back. */
  lemma RoundProgress(s: State, s': State, g: nat)
    requires Live(s) && Round(s, s') && g < |s.hands|
    ensures |s'.hands| == |s.hands| && (if Racing(s, g) then Rank(s', g) < Rank(s, g) else Rank(s', g) <= Rank(s, g))
  {
    hide Target, Live, Losses, Landed, Ballot, Wins, SlotRace.EmptyLanes;
    assert s'.hands[g] == NextHand(s, s'.table, g);
    if s.hands[g].Some? && s'.hands[g] == s.hands[g] {
      var h := s.hands[g].value;
      LiveBallot(s);
      StaysFull(Ballot(s), s.table, s'.table, Target(h));
      if Racing(s, g) {
        RetryFills(s, s', g);
      } else {
        NoMoreEmpty(s.table[Target(h)], s'.table[Target(h)], ELEM_NUM);
      }
    }
  }

  /** Whoever has to try again has seen an empty slot of the bucket go. */
  lemma RetryFills(s: State, s': State, g: nat)
    requires Live(s) && Round(s, s') && Racing(s, g) && s'.hands[g] == s.hands[g]
    ensures var i := Target(s.hands[g].value);
            SlotRace.EmptyLanes(s'.table[i], ELEM_NUM) < SlotRace.EmptyLanes(s.table[i], ELEM_NUM)
  {
    hide Target, Live, Losses, Landed, Wins, SlotRace.EmptyLanes;
    var v := Ballot(s);
    assert s'.hands[g] == NextHand(s, s'.table, g);
    assert !Crowded(s.table, s.hands[g].value);
    assert Wants(v, g, v[g].bucket, v[g].lane);
    LiveBallot(s);
    StaysFull(v, s.table, s'.table, v[g].bucket);
    SlotRace.FewerEmpty(s.table[v[g].bucket], s'.table[v[g].bucket], v[g].lane, ELEM_NUM);
  }

  /** How many groups have not finished. */
  function Active(hands: seq<Option<Hand>>, n: nat): nat
    requires n <= |hands|
  {
    if n == 0 then 0 else Active(hands, n - 1) + (if hands[n - 1].Some? then 1 else 0)
  }

  /** A group loses one entry at its end; only an overwritten one in a full bucket loses another. */
  lemma OneLoss(s: State, t': Table, g: nat)
    requires g < |s.hands|
    ensures |Superseded(s, t', g) + GivenUp(s, t', g)| + (if NextHand(s, t', g).Some? then 1 else 0) <=
            (if s.hands[g].Some? then 1 else 0) + |Double(s, t', g)|
  {
    hide Target, Elected, Crowded, Stays;
  }

  lemma {:induction false} FewLosses(s: State, s': State, n: nat)
    requires n <= |s.hands| == |s'.hands| && forall g: nat | g < |s.hands| :: s'.hands[g] == NextHand(s, s'.table, g)
    ensures |Losses(s, s'.table, n)| + Active(s'.hands, n) <= Active(s.hands, n) + |Doubles(s, s'.table, n)|
  {
    hide Superseded, GivenUp, NextHand, Double;
    if n > 0 {
      FewLosses(s, s', n - 1);
      OneLoss(s, s'.table, n - 1);
    }
  }

  lemma {:induction false} ActiveUpdate(hands: seq<Option<Hand>>, g: nat, x: Option<Hand>, n: nat)
    requires g < |hands| && n <= |hands|
    ensures Active(hands[g := x], n) + (if g < n && hands[g].Some? then 1 else 0) ==
            Active(hands, n) + (if g < n && x.Some? then 1 else 0)
  {
    if n > 0 { ActiveUpdate(hands, g, x, n - 1); }
  }
}
