/**
 Two groups of one signature that survive in one lane of a full bucket both carry
 its old entry on.  From then on they are twins: in a race whose rounds wait for
 all checks, the table ends up as if one of them had stopped.
 */
module EvictionTwins {
  import opened GpuHash
  import opened Wrappers
  import opened CuckooSpec
  import opened SlotVotes
  import opened EvictionRace
  import opened EvictionRuns

  /** The same entry on the same way. */
  predicate Alike(x: Hand, y: Hand)
  {
    x.entry == y.entry && x.major == y.major && Home(x.hash) == Home(y.hash)
  }

  lemma AlikeTarget(x: Hand, y: Hand)
    requires Alike(x, y)
    ensures Target(x) == Target(y)
  {
    AltInvolution(x.hash, x.entry.sig);
    AltInvolution(y.hash, y.entry.sig);
  }

  /** Groups g and h are twins before their checks; h will stop no later than g. */
  ghost predicate Twins(s: State, g: nat, h: nat)
  {
    && g < |s.hands| && h < |s.hands| && g != h
    && s.hands[g].Some? && s.hands[h].Some? && !s.hands[g].value.checked && !s.hands[h].value.checked
    && Alike(s.hands[g].value, s.hands[h].value) && s.hands[g].value.n <= s.hands[h].value.n
  }

  /** Whoever shares a lane of a full bucket, survives, and may move on, has a twin then. */
  lemma SharersAreTwins(s: State, s': State, g: nat, h: nat)
    requires Share(s, g, h) && g != h && Round(s, s') && Wins(Ballot(s), s'.table, g)
    requires s.hands[g].value.n <= s.hands[h].value.n < MAX_CUCKOO_NUM
    ensures Twins(s', g, h)
  {
    hide Target, Elected, Crowded, Landed, Losses, Victim, Wins;
    ShareCrowded(s, g, h);
    var x, y := s.hands[g].value, s.hands[h].value;
    assert Wins(Ballot(s), s'.table, h) by { SharedWin(s, s', g, h); }
    assert s'.hands[g] == NextHand(s, s'.table, g) && s'.hands[h] == NextHand(s, s'.table, h);
    SameHome(x, y);
  }

  lemma SharedWin(s: State, s': State, g: nat, h: nat)
    requires Share(s, g, h) && Wins(Ballot(s), s'.table, g)
    ensures Wins(Ballot(s), s'.table, h)
  {
    hide Target, Elected, Crowded;
  }

  lemma SameHome(x: Hand, y: Hand)
    requires Target(x) == Target(y) && x.entry.sig == y.entry.sig
    ensures Home(x.hash) == Home(y.hash)
  {
    AltInvolution(x.hash, x.entry.sig);
    AltInvolution(y.hash, y.entry.sig);
  }

  // ----- one vote less ------------------------------------------------------

  /** Of two equal votes one can be left out. */
  lemma VoteLess(v: Votes, v': Votes, t: Table, t': Table, g: nat, h: nat)
    requires g in v && h in v && g != h && v[g] == v[h] && v' == v - {h} && Landed(v, t, t')
    ensures Landed(v', t, t') && forall k: nat | k != h :: Wins(v', t', k) == Wins(v, t', k)
  {
    forall i: nat, l: nat | i < BUC_NUM && l < ELEM_NUM
      ensures Wanted(v, i, l) <==> Wanted(v', i, l)
      ensures (exists k: nat :: Claims(v, t', k, i, l)) <==> (exists k: nat :: Claims(v', t', k, i, l))
      ensures forall k: nat | Wants(v, k, i, l) :: exists m: nat :: Wants(v', m, i, l) && v'[m].entry == v[k].entry
      ensures forall k: nat | Claims(v, t', k, i, l) ::
                exists m: nat :: Claims(v', t', m, i, l) && v'[m].entry == v[k].entry
    {
      LessAt(v, v', t', g, h, i, l);
    }
  }

  /** The other of the two votes stands in for the one left out. */
  lemma LessAt(v: Votes, v': Votes, t': Table, g: nat, h: nat, i: nat, l: nat)
    requires g in v && h in v && g != h && v[g] == v[h] && v' == v - {h}
    ensures Wanted(v, i, l) <==> Wanted(v', i, l)
    ensures (exists k: nat :: Claims(v, t', k, i, l)) <==> (exists k: nat :: Claims(v', t', k, i, l))
    ensures forall k: nat | Wants(v, k, i, l) :: exists m: nat :: Wants(v', m, i, l) && v'[m].entry == v[k].entry
    ensures forall k: nat | Claims(v, t', k, i, l) ::
              exists m: nat :: Claims(v', t', m, i, l) && v'[m].entry == v[k].entry
  {
    hide Wins, Claims;
    forall k: nat | Wants(v, k, i, l) ensures Wants(v', if k == h then g else k, i, l) {
    }
    forall k: nat | Wants(v', k, i, l) ensures Wants(v, k, i, l) {
    }
    forall k: nat | Claims(v, t', k, i, l)
      ensures k in v && var m := if k == h then g else k;
                Claims(v', t', m, i, l) && m in v' && v'[m].entry == v[k].entry
    {
      LessVote(v, v', t', g, h, i, l, k);
    }
    forall k: nat | Claims(v', t', k, i, l) ensures Claims(v, t', k, i, l) {
      LessVote(v, v', t', g, h, i, l, k);
    }
  }

  lemma LessVote(v: Votes, v': Votes, t': Table, g: nat, h: nat, i: nat, l: nat, k: nat)
    requires g in v && h in v && g != h && v[g] == v[h] && v' == v - {h}
    ensures Claims(v, t', k, i, l) ==>
              k in v && var m := if k == h then g else k;
                Claims(v', t', m, i, l) && m in v' && v'[m].entry == v[k].entry
    ensures Claims(v', t', k, i, l) ==> Claims(v, t', k, i, l)
  {
  }

  // ----- the race without a twin --------------------------------------------

  /** s2 is s without group h, up to what is counted as lost, at the same point of a check phase. */
  ghost predicate Without(s: State, s2: State, g: nat, h: nat)
  {
    && g < |s.hands| && h < |s.hands| && g != h && |s2.hands| == |s.hands|
    && s2.hands[h].None? && (forall k: nat | k < |s.hands| && k != g && k != h :: s2.hands[k] == s.hands[k])
    && (Both(s, s2, g, h) || Half(s, s2, g, h) || Hit(s, s2, g, h) || Single(s, s2, g, h))
  }

  /** Both twins have checked, or neither. */
  predicate Both(s: State, s2: State, g: nat, h: nat)
    requires g < |s.hands| && h < |s.hands| && |s2.hands| == |s.hands|
  {
    && s.hands[g].Some? && s.hands[h].Some? && Alike(s.hands[g].value, s.hands[h].value)
    && s.hands[g].value.n <= s.hands[h].value.n && s.hands[g].value.checked == s.hands[h].value.checked
    && s2.hands[g] == s.hands[g] && s2.table == s.table
  }

  /** One has checked, in vain. */
  predicate Half(s: State, s2: State, g: nat, h: nat)
    requires g < |s.hands| && h < |s.hands| && |s2.hands| == |s.hands|
  {
    && s.hands[g].Some? && s.hands[h].Some? && Alike(s.hands[g].value, s.hands[h].value)
    && s.hands[g].value.n <= s.hands[h].value.n && s.hands[g].value.checked != s.hands[h].value.checked
    && s2.hands[g] == Some(s.hands[g].value.(checked := false)) && s2.table == s.table
    && s.hands[g].value.entry.sig !in s.table[Target(s.hands[g].value)].sig
  }

  /** One has checked and found the signature; the other is about to write the same entry there. */
  predicate Hit(s: State, s2: State, g: nat, h: nat)
    requires g < |s.hands| && h < |s.hands| && |s2.hands| == |s.hands|
  {
    && s.hands[g].Some? != s.hands[h].Some?
    && s2.hands[g].Some?
    && var x, y := if s.hands[g].Some? then s.hands[g].value else s.hands[h].value, s2.hands[g].value;
       && !x.checked && !y.checked && Alike(x, y)
       && SameSigned(s.table, s2.table)
       && var m := MatchLane(s.table[Target(y)], y.entry.sig);
          m.Some? && PutAt(s.table, Target(y), m.value, y.entry) == PutAt(s2.table, Target(y), m.value, y.entry)
  }

  /** The twin left over, or none. */
  predicate Single(s: State, s2: State, g: nat, h: nat)
    requires g < |s.hands| && h < |s.hands| && |s2.hands| == |s.hands|
  {
    s.hands[h].None? && s2.hands[g] == s.hands[g] && s2.table == s.table
  }

  predicate SameSigned(t: Table, t2: Table)
  {
    forall i: nat | i < BUC_NUM :: t[i].sig == t2[i].sig
  }

  lemma SameMatch(b: Bucket, b2: Bucket, sig: Word)
    requires b.sig == b2.sig
    ensures MatchLane(b, sig) == MatchLane(b2, sig)
  {
  }

  /** A match stays where it is as long as signatures do. */
  lemma SameSignedMatch(t: Table, t2: Table, h: Hand)
    requires SameSigned(t, t2)
    ensures MatchLane(t[Target(h)], h.entry.sig) == MatchLane(t2[Target(h)], h.entry.sig)
  {
    hide Alt, FirstLane, MatchLane;
    SameMatch(t[Target(h)], t2[Target(h)], h.entry.sig);
  }

  lemma CheckSigned(s: State, k: nat)
    requires k < |s.hands| && s.hands[k].Some?
    ensures SameSigned(s.table, Check(s, k).table)
  {
    hide Check;
    SameSigs(s, k);
  }

  lemma PutTwice(t: Table, i: nat, l: nat, x: Entry, j: nat, m: nat, y: Entry)
    requires i < BUC_NUM && l < ELEM_NUM && j < BUC_NUM && m < ELEM_NUM
    ensures i == j && l == m ==> PutAt(PutAt(t, i, l, x), j, m, y) == PutAt(t, j, m, y)
    ensures i != j || l != m ==> PutAt(PutAt(t, i, l, x), j, m, y) == PutAt(PutAt(t, j, m, y), i, l, x)
  {
    if i == j {
      var b := t[i];
      if l == m {
        assert Put(Put(b, l, x), m, y) == Put(b, m, y);
      } else {
        assert Put(Put(b, l, x), m, y) == Put(Put(b, m, y), l, x);
      }
    } else {
      assert PutAt(PutAt(t, i, l, x), j, m, y) == PutAt(PutAt(t, j, m, y), i, l, x);
    }
  }

  /** A check of some other group, on both sides. */
  lemma OtherCheck(s: State, s2: State, g: nat, h: nat, k: nat)
    requires Without(s, s2, g, h) && k != g && k != h && Checks(s, k)
    ensures Checks(s2, k) && Without(Check(s, k), Check(s2, k), g, h)
  {
    hide Hit, Half, Both, Single, Check;
    assert s2.hands[k] == s.hands[k];
    if Hit(s, s2, g, h) {
      HitCheck(s, s2, g, h, k);
      SameTurn(s, s2, g, h, k);
    } else if Half(s, s2, g, h) {
      HalfCheck(s, s2, g, h, k);
      SameTurn(s, s2, g, h, k);
    } else {
      PlainCheck(s, s2, g, h, k);
      SameTurn(s, s2, g, h, k);
    }
  }

  /** A check does the same to a group's hand on both sides, and nothing to the others'. */
  lemma SameTurn(s: State, s2: State, g: nat, h: nat, k: nat)
    requires |s2.hands| == |s.hands| && g < |s.hands| && h < |s.hands| && g != h && s2.hands[h].None?
    requires k != g && k != h && Checks(s, k) && s2.hands[k] == s.hands[k] && SameSigned(s.table, s2.table)
    requires forall j: nat | j < |s.hands| && j != g && j != h :: s2.hands[j] == s.hands[j]
    ensures var s', s2' := Check(s, k), Check(s2, k);
            && |s2'.hands| == |s'.hands| == |s.hands| && s2'.hands[h].None?
            && forall j: nat | j < |s'.hands| && j != g && j != h :: s2'.hands[j] == s'.hands[j]
  {
    hide Target, MatchLane, PutAt, SameSigned;
    SameSignedMatch(s.table, s2.table, s.hands[k].value);
  }

  lemma PlainCheck(s: State, s2: State, g: nat, h: nat, k: nat)
    requires Without(s, s2, g, h) && (Both(s, s2, g, h) || Single(s, s2, g, h)) && k != g && k != h && Checks(s, k)
    ensures SameSigned(s.table, s2.table)
    ensures Both(Check(s, k), Check(s2, k), g, h) || Single(Check(s, k), Check(s2, k), g, h)
  {
    hide Target, MatchLane, PutAt, Alike, Hit, Half;
  }

  lemma HalfCheck(s: State, s2: State, g: nat, h: nat, k: nat)
    requires Without(s, s2, g, h) && Half(s, s2, g, h) && k != g && k != h && Checks(s, k)
    ensures SameSigned(s.table, s2.table) && Half(Check(s, k), Check(s2, k), g, h)
  {
    hide Alt, MatchLane, PutAt, Alike;
    SameSigs(s, k);
  }

  lemma HitCheck(s: State, s2: State, g: nat, h: nat, k: nat)
    requires Without(s, s2, g, h) && Hit(s, s2, g, h) && k != g && k != h && Checks(s, k)
    ensures SameSigned(s.table, s2.table) && Hit(Check(s, k), Check(s2, k), g, h)
  {
    hide Alt, MatchLane, PutAt, Alike, SameSigned;
    var x, y := s.hands[k].value, s2.hands[g].value;
    var i, l := Target(y), MatchLane(s.table[Target(y)], y.entry.sig).value;
    SameSignedMatch(s.table, s2.table, x);
    CheckSigned(s, k);
    CheckSigned(s2, k);
    SignedTrans(s.table, s2.table, Check(s, k).table, Check(s2, k).table);
    SameSignedMatch(s.table, Check(s, k).table, y);
    var m := MatchLane(s.table[Target(x)], x.entry.sig);
    if m.Some? {
      PutTwice(s.table, Target(x), m.value, x.entry, i, l, y.entry);
      PutTwice(s2.table, Target(x), m.value, x.entry, i, l, y.entry);
    }
  }

  lemma SignedTrans(a: Table, b: Table, c: Table, d: Table)
    requires SameSigned(a, b) && SameSigned(a, c) && SameSigned(b, d)
    ensures SameSigned(c, d)
  {
  }

  /** A check of one of the twins: the race without h waits for the second one. */
  lemma TwinCheck(s: State, s2: State, g: nat, h: nat, k: nat) returns (wait: bool)
    requires Without(s, s2, g, h) && (k == g || k == h) && Checks(s, k)
    ensures !wait ==> Checks(s2, g)
    ensures Without(Check(s, k), if wait then s2 else Check(s2, g), g, h)
  {
    hide Target, FirstLane, PutAt, SameSigned;
    wait := Both(s, s2, g, h);
    if Both(s, s2, g, h) {
      FirstCheck(s, s2, g, h, k);
    } else if Half(s, s2, g, h) {
      AlikeTarget(s.hands[g].value, s.hands[h].value);
      SecondCheck(s, s2, g, h, k);
    } else if Hit(s, s2, g, h) {
      HitLast(s, s2, g, h, k);
    }
  }

  lemma FirstCheck(s: State, s2: State, g: nat, h: nat, k: nat)
    requires Without(s, s2, g, h) && Both(s, s2, g, h) && (k == g || k == h) && Checks(s, k)
    ensures Without(Check(s, k), s2, g, h)
  {
    hide Target, FirstLane, PutAt, SameSigned, Home;
    AlikeTarget(s.hands[g].value, s.hands[h].value);
    var x := s.hands[k].value;
    var m := MatchLane(s.table[Target(x)], x.entry.sig);
    CheckSigned(s, k);
    if m.Some? {
      PutTwice(s.table, Target(x), m.value, x.entry, Target(x), m.value, x.entry);
      SameSignedMatch(s.table, Check(s, k).table, x);
      SignedBack(s.table, Check(s, k).table);
    } else {
      CheckedTarget(s.hands[g].value);
      CheckedTarget(s.hands[h].value);
    }
  }

  lemma SignedBack(a: Table, b: Table)
    requires SameSigned(a, b)
    ensures SameSigned(b, a)
  {
  }

  lemma CheckedTarget(h: Hand)
    ensures Target(h.(checked := true)) == Target(h) == Target(h.(checked := false))
  {
  }

  lemma SecondCheck(s: State, s2: State, g: nat, h: nat, k: nat)
    requires Without(s, s2, g, h) && Half(s, s2, g, h) && (k == g || k == h) && Checks(s, k)
    requires Target(s.hands[g].value) == Target(s.hands[h].value)
    ensures Checks(s2, g) && Both(Check(s, k), Check(s2, g), g, h)
  {
    hide Target, FirstLane, Home;
    CheckedTarget(s.hands[g].value);
    var x := s.hands[k].value;
    assert MatchLane(s.table[Target(x)], x.entry.sig).None?;
    assert MatchLane(s2.table[Target(s2.hands[g].value)], s2.hands[g].value.entry.sig).None?;
  }

  lemma HitLast(s: State, s2: State, g: nat, h: nat, k: nat)
    requires Without(s, s2, g, h) && Hit(s, s2, g, h) && (k == g || k == h) && Checks(s, k)
    ensures Checks(s2, g) && Single(Check(s, k), Check(s2, g), g, h)
  {
    hide Target, FirstLane, MatchLane, PutAt, SameSigned, Home;
    var x, y := s.hands[k].value, s2.hands[g].value;
    AlikeTarget(x, y);
    SameSignedMatch(s.table, s2.table, y);
  }

  /** A round of checked groups, on both sides. */
  lemma TwinRound(s: State, s': State, s2: State, g: nat, h: nat) returns (s2': State)
    requires Without(s, s2, g, h) && Round(s, s') && Settled(s)
    ensures Round(s2, s2') && Settled(s2) && Without(s', s2', g, h)
  {
    hide Landed, Losses, Ballot, Alike, NextHand, Wins, Half, Hit, Settled;
    AtRound(s, s2, g, h);
    BallotLess(s, s2, g, h);
    LessSettled(s, s2, g, h);
    LandedLess(s, s', s2, g, h);
    s2' := RoundTo(s2, s'.table);
    forall k: nat | k < |s.hands| && k != h ensures s2'.hands[k] == s'.hands[k] {
      SameNext(s, s2, s'.table, k);
    }
    AfterRound(s, s', s2, s2', g, h);
  }

  lemma LandedLess(s: State, s': State, s2: State, g: nat, h: nat)
    requires Without(s, s2, g, h) && (Both(s, s2, g, h) || Single(s, s2, g, h))
    requires Landed(Ballot(s), s.table, s'.table) && Ballot(s2) == Ballot(s) - {h} && s2.table == s.table
    requires Both(s, s2, g, h) ==> Racing(s, g) && Racing(s, h)
    requires Single(s, s2, g, h) ==> h !in Ballot(s)
    ensures Landed(Ballot(s2), s2.table, s'.table)
    ensures forall k: nat | k != h :: Wins(Ballot(s2), s'.table, k) == Wins(Ballot(s), s'.table, k)
  {
    hide Landed, Alike, Target, Elected, Wins;
    if Both(s, s2, g, h) {
      EqualVotes(s, g, h);
      VoteLess(Ballot(s), Ballot(s2), s.table, s'.table, g, h);
    } else {
      assert Ballot(s2) == Ballot(s);
    }
  }

  /** The round that leads to a possible table. */
  lemma RoundTo(s: State, t': Table) returns (s': State)
    requires Landed(Ballot(s), s.table, t')
    ensures Round(s, s') && s'.table == t'
  {
    hide Ballot, NextHand, Losses, Landed;
    s' := State(t', seq(|s.hands|, k requires 0 <= k < |s.hands| => NextHand(s, t', k)),
        s.lost + Losses(s, t', |s.hands|));
  }

  /** Every group still in the race has made its check. */
  ghost predicate Settled(s: State)
  {
    forall k: nat | k < |s.hands| && s.hands[k].Some? :: s.hands[k].value.checked
  }

  /** At a round both twins vote, or one of them has gone. */
  lemma AtRound(s: State, s2: State, g: nat, h: nat)
    requires Without(s, s2, g, h) && Settled(s)
    ensures Both(s, s2, g, h) || Single(s, s2, g, h)
    ensures Both(s, s2, g, h) ==> Racing(s, g) && Racing(s, h)
  {
    hide Alike, SameSigned, Target, MatchLane, PutAt;
  }

  lemma BallotLess(s: State, s2: State, g: nat, h: nat)
    requires Without(s, s2, g, h) && (Both(s, s2, g, h) || Single(s, s2, g, h))
    ensures Ballot(s2) == Ballot(s) - {h} && s2.table == s.table
    ensures Single(s, s2, g, h) ==> h !in Ballot(s)
  {
    hide Target, Elected, Alike, Half, Hit, Home, Ballot, Racing;
    var v, v2 := Ballot(s), Ballot(s2);
    forall k: nat
      ensures k in v2 <==> k in v && k != h
      ensures k in v2 ==> v2[k] == v[k]
    {
      VoteKept(s, s2, g, h, k);
    }
    assert Single(s, s2, g, h) ==> h !in v by { AbsentVote(s, h); }
  }

  lemma VoteKept(s: State, s2: State, g: nat, h: nat, k: nat)
    requires Without(s, s2, g, h) && (Both(s, s2, g, h) || Single(s, s2, g, h))
    ensures k in Ballot(s2) <==> k in Ballot(s) && k != h
    ensures k in Ballot(s2) ==> Ballot(s2)[k] == Ballot(s)[k]
  {
    hide Target, Elected, Alike, Half, Hit, Home, Ballot;
    assert k < |s.hands| && k != h ==> s2.hands[k] == s.hands[k];
  }

  lemma AbsentVote(s: State, h: nat)
    ensures h in Ballot(s) ==> h < |s.hands| && s.hands[h].Some?
  {
  }

  lemma LessSettled(s: State, s2: State, g: nat, h: nat)
    requires Without(s, s2, g, h) && Settled(s) && (Both(s, s2, g, h) || Single(s, s2, g, h))
    ensures Settled(s2)
  {
    hide Alike, Half, Hit;
  }

  lemma EqualVotes(s: State, g: nat, h: nat)
    requires Racing(s, g) && Racing(s, h) && Alike(s.hands[g].value, s.hands[h].value)
    ensures Ballot(s)[g] == Ballot(s)[h]
  {
    hide Target, EmptyLane;
    AlikeTarget(s.hands[g].value, s.hands[h].value);
  }

  lemma SameNext(s: State, s2: State, t': Table, k: nat)
    requires k < |s.hands| == |s2.hands| && s2.hands[k] == s.hands[k] && s2.table == s.table
    requires Wins(Ballot(s2), t', k) == Wins(Ballot(s), t', k)
    ensures NextHand(s2, t', k) == NextHand(s, t', k)
  {
    hide Ballot, Target, Elected, Crowded, Wins;
  }

  lemma AfterRound(s: State, s': State, s2: State, s2': State, g: nat, h: nat)
    requires Without(s, s2, g, h) && Round(s, s') && Settled(s) && (Both(s, s2, g, h) || Single(s, s2, g, h))
    requires |s2'.hands| == |s'.hands| && s2'.table == s'.table
    requires s2'.hands[h] == NextHand(s2, s'.table, h)
    requires forall k: nat | k < |s.hands| && k != h :: s2'.hands[k] == s'.hands[k]
    ensures Without(s', s2', g, h)
  {
    hide Landed, Losses, Target, Elected, Crowded, Home, SameSigned, Hit, Half;
    assert s'.hands[g] == NextHand(s, s'.table, g) && s'.hands[h] == NextHand(s, s'.table, h);
    if Both(s, s2, g, h) {
      EqualVotes(s, g, h);
      AlikeCrowded(s.table, s.hands[g].value, s.hands[h].value);
    }
  }

  lemma AlikeCrowded(t: Table, x: Hand, y: Hand)
    requires Alike(x, y)
    ensures Crowded(t, x) == Crowded(t, y) && Elected(t, x) == Elected(t, y) && Victim(t, x) == Victim(t, y)
  {
    hide Target, EmptyLane;
    AlikeTarget(x, y);
  }

  // ----- whole races --------------------------------------------------------

  /** Rounds wait until all groups in the race have made their checks. */
  ghost predicate Lockstep(trace: seq<State>, steps: seq<Step>)
    requires |trace| == |steps| + 1
  {
    forall k: nat | k < |steps| && steps[k] == Rounding :: Settled(trace[k])
  }

  /**
   Twins merge: the same race without one of them goes through the same tables, and
   all other groups do the same in it.
   */
  lemma {:induction false} TwinsMerge(trace: seq<State>, steps: seq<Step>, g: nat, h: nat)
    returns (trace2: seq<State>, steps2: seq<Step>)
    requires Races(trace, steps) && Lockstep(trace, steps) && Twins(trace[0], g, h)
    ensures Races(trace2, steps2) && Lockstep(trace2, steps2)
            && trace2[0] == trace[0].(hands := trace[0].hands[h := None])
    ensures Without(trace[|steps|], trace2[|steps2|], g, h)
    decreases |steps|
  {
    hide Round, Check, Without, Settled;
    var s0 := trace[0];
    if steps == [] {
      trace2, steps2 := [s0.(hands := s0.hands[h := None])], [];
      StartsWithout(s0, g, h);
    } else {
      var n := |steps| - 1;
      PrefixRaces(trace, steps);
      trace2, steps2 := TwinsMerge(trace[..n + 1], steps[..n], g, h);
      var s, s', s2 := trace[n], trace[n + 1], trace2[|steps2|];
      assert Follows(trace, steps, n);
      match steps[n] {
        case Checking(k) =>
          if k == g || k == h {
            var wait := TwinCheck(s, s2, g, h, k);
            if !wait {
              Longer(trace2, steps2, Checking(g), Check(s2, g));
              trace2, steps2 := trace2 + [Check(s2, g)], steps2 + [Checking(g)];
            }
          } else {
            OtherCheck(s, s2, g, h, k);
            Longer(trace2, steps2, Checking(k), Check(s2, k));
            trace2, steps2 := trace2 + [Check(s2, k)], steps2 + [Checking(k)];
          }
        case Rounding =>
          var s2' := TwinRound(s, s', s2, g, h);
          Longer(trace2, steps2, Rounding, s2');
          trace2, steps2 := trace2 + [s2'], steps2 + [Rounding];
      }
    }
  }

  lemma StartsWithout(s: State, g: nat, h: nat)
    requires Twins(s, g, h) && Live(s)
    ensures var s2 := s.(hands := s.hands[h := None]); Without(s, s2, g, h) && Live(s2) && Races([s2], [])
  {
    hide Alike;
  }

  lemma PrefixRaces(trace: seq<State>, steps: seq<Step>)
    requires Races(trace, steps) && Lockstep(trace, steps) && steps != []
    ensures var n := |steps| - 1; Races(trace[..n + 1], steps[..n]) && Lockstep(trace[..n + 1], steps[..n])
  {
    hide Round, Check, Settled, Live;
    var n := |steps| - 1;
    var before, first := trace[..n + 1], steps[..n];
    forall k: nat | k < n ensures Follows(before, first, k) {
      assert Follows(trace, steps, k);
    }
  }

  lemma Longer(trace: seq<State>, steps: seq<Step>, a: Step, s': State)
    requires Races(trace, steps)
    requires match a
             case Checking(g) => Checks(trace[|steps|], g) && s' == Check(trace[|steps|], g)
             case Rounding => Round(trace[|steps|], s')
    requires a == Rounding ==> Settled(trace[|steps|])
    ensures Races(trace + [s'], steps + [a])
    ensures Lockstep(trace, steps) ==> Lockstep(trace + [s'], steps + [a])
  {
    hide Round, Check, Live, Settled;
    forall k: nat | k < |steps| + 1 ensures Follows(trace + [s'], steps + [a], k) {
      if k < |steps| { assert Follows(trace, steps, k); }
    }
  }

  /** When the race is over, the tables are the same. */
  lemma MergedTables(trace: seq<State>, steps: seq<Step>, g: nat, h: nat)
    returns (trace2: seq<State>, steps2: seq<Step>)
    requires Races(trace, steps) && Lockstep(trace, steps) && Twins(trace[0], g, h)
    requires forall k: nat | k < |trace[|steps|].hands| :: trace[|steps|].hands[k].None?
    ensures Races(trace2, steps2) && Lockstep(trace2, steps2)
            && trace2[0] == trace[0].(hands := trace[0].hands[h := None])
    ensures trace2[|steps2|].table == trace[|steps|].table
    ensures forall k: nat | k < |trace2[|steps2|].hands| :: trace2[|steps2|].hands[k].None?
  {
    hide Follows, Lockstep, Twins, Both, Half, Live;
    trace2, steps2 := TwinsMerge(trace, steps, g, h);
    OnlySingle(trace[|steps|], trace2[|steps2|], g, h);
  }

  lemma OnlySingle(s: State, s2: State, g: nat, h: nat)
    requires Without(s, s2, g, h) && s.hands[g].None? && s.hands[h].None?
    ensures Single(s, s2, g, h)
  {
  }
}
