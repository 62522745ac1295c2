/**
 One lockstep round of writes, whoever casts the votes.  Each voter writes its
 signature to the slot it has elected, a barrier, and those who find their own
 signature there write their location.  Which of several writers of one slot
 survives is arbitrary, and so is whose location stays if several do.
 */
module SlotVotes {
  import opened GpuHash
  import opened CuckooSpec
  import opened CuckooLaws

  type BucketNo = i: nat | i < BUC_NUM

  type Lane = l: nat | l < ELEM_NUM

  datatype Vote = Vote(bucket: BucketNo, lane: Lane, entry: Entry)

  type Votes = map<nat, Vote>

  predicate Wants(v: Votes, g: nat, i: nat, l: nat)
  {
    g in v && v[g].bucket == i && v[g].lane == l
  }

  ghost predicate Wanted(v: Votes, i: nat, l: nat)
  {
    exists g: nat :: Wants(v, g, i, l)
  }

  /** After the barrier the voter finds its own signature in its slot. */
  predicate Wins(v: Votes, t': Table, g: nat)
  {
    g in v && t'[v[g].bucket].sig[v[g].lane] == v[g].entry.sig
  }

  predicate Claims(v: Votes, t': Table, g: nat, i: nat, l: nat)
  {
    Wants(v, g, i, l) && Wins(v, t', g)
  }

  /** The table after the votes have been cast on t. */
  ghost predicate Landed(v: Votes, t: Table, t': Table)
  {
    // a slot somebody wants holds the signature of one of those, any other slot its old one
    && (forall i: nat, l: nat | i < BUC_NUM && l < ELEM_NUM ::
          if Wanted(v, i, l)
          then exists g: nat :: Wants(v, g, i, l) && t'[i].sig[l] == v[g].entry.sig
          else t'[i].sig[l] == t[i].sig[l])
    // the location comes from one of those who find their signature
    && (forall i: nat, l: nat | i < BUC_NUM && l < ELEM_NUM ::
          if exists g: nat :: Claims(v, t', g, i, l)
          then exists g: nat :: Claims(v, t', g, i, l) && t'[i].loc[l] == v[g].entry.loc
          else t'[i].loc[l] == t[i].loc[l])
  }

  // ----- slots --------------------------------------------------------------

  /** Voter g claims the slot, and the slot holds its whole entry. */
  predicate Owns(v: Votes, t': Table, g: nat, i: nat, l: nat)
    requires i < BUC_NUM && l < ELEM_NUM
  {
    Claims(v, t', g, i, l) && EntryAt(t', i, l) == v[g].entry
  }

  ghost predicate Owned(v: Votes, t': Table, i: nat, l: nat)
    requires i < BUC_NUM && l < ELEM_NUM
  {
    exists g: nat :: Owns(v, t', g, i, l)
  }

  /** Of several claimants of a slot, the one whose entry stays. */
  ghost function Owner(v: Votes, t': Table, i: nat, l: nat): (g: nat)
    requires i < BUC_NUM && l < ELEM_NUM && Owned(v, t', i, l)
    ensures Owns(v, t', g, i, l)
  {
    var g: nat :| Owns(v, t', g, i, l);
    g
  }

  /** The voter's entry is the one that stays in its slot. */
  ghost predicate Stays(v: Votes, t': Table, g: nat)
  {
    g in v && Owned(v, t', v[g].bucket, v[g].lane) && Owner(v, t', v[g].bucket, v[g].lane) == g
  }

  lemma StaysIsOwner(v: Votes, t': Table, g: nat, i: nat, l: nat)
    requires i < BUC_NUM && l < ELEM_NUM
    ensures Stays(v, t', g) && Wants(v, g, i, l) ==> Owned(v, t', i, l) && g == Owner(v, t', i, l)
    ensures Owned(v, t', i, l) && g == Owner(v, t', i, l) ==> Stays(v, t', g) && Wants(v, g, i, l)
    ensures Stays(v, t', g) ==> Wins(v, t', g) && EntryAt(t', v[g].bucket, v[g].lane) == v[g].entry
  {
  }

  /** A slot somebody wants is owned; any other is as before. */
  lemma SlotOutcome(v: Votes, t: Table, t': Table, i: nat, l: nat)
    requires Landed(v, t, t') && i < BUC_NUM && l < ELEM_NUM
    ensures Wanted(v, i, l) <==> Owned(v, t', i, l)
    ensures !Wanted(v, i, l) ==> EntryAt(t', i, l) == EntryAt(t, i, l)
  {
    if Wanted(v, i, l) {
      var g: nat :| Wants(v, g, i, l) && t'[i].sig[l] == v[g].entry.sig;
      assert Claims(v, t', g, i, l);
      var h: nat :| Claims(v, t', h, i, l) && t'[i].loc[l] == v[h].entry.loc;
      assert Owns(v, t', h, i, l);
    } else {
      assert forall g: nat :: !Claims(v, t', g, i, l);
    }
  }

  /** The signature in a slot afterwards: that of a voter, or the old one. */
  lemma SigOutcome(v: Votes, t: Table, t': Table, i: nat, l: nat) returns (w: nat)
    requires Landed(v, t, t') && i < BUC_NUM && l < ELEM_NUM
    ensures if Wanted(v, i, l) then Wants(v, w, i, l) && t'[i].sig[l] == v[w].entry.sig
            else t'[i].sig[l] == t[i].sig[l]
  {
    hide Claims;
    w := 0;
    if Wanted(v, i, l) {
      w :| Wants(v, w, i, l) && t'[i].sig[l] == v[w].entry.sig;
    }
  }

  /** Voters are live. */
  ghost predicate LiveVotes(v: Votes)
  {
    forall g | g in v :: v[g].entry.sig != 0
  }

  lemma StaysFull(v: Votes, t: Table, t': Table, i: nat)
    requires LiveVotes(v) && Landed(v, t, t') && i < BUC_NUM
    ensures forall k: nat | k < ELEM_NUM && (t[i].sig[k] != 0 || Wanted(v, i, k)) :: t'[i].sig[k] != 0
  {
    hide Landed;
    forall k: nat | k < ELEM_NUM && (t[i].sig[k] != 0 || Wanted(v, i, k)) ensures t'[i].sig[k] != 0 {
      var w := SigOutcome(v, t, t', i, k);
    }
  }

  // ----- every vote has an outcome ------------------------------------------

  /** Of those who want a slot, g if it is one, else h if it is one, else any. */
  ghost function Favourite(v: Votes, g: nat, h: nat, i: nat, l: nat): (w: nat)
    requires Wanted(v, i, l)
    ensures Wants(v, w, i, l)
  {
    if Wants(v, g, i, l) then g
    else if Wants(v, h, i, l) then h
    else var w: nat :| Wants(v, w, i, l); w
  }

  ghost function EntryAfter(v: Votes, t: Table, g: nat, h: nat, i: nat, l: nat): Entry
    requires i < BUC_NUM && l < ELEM_NUM
  {
    if Wanted(v, i, l) then v[Favourite(v, g, h, i, l)].entry else EntryAt(t, i, l)
  }

  ghost function BucketAfter(v: Votes, t: Table, g: nat, h: nat, i: nat): Bucket
    requires i < BUC_NUM
  {
    Bucket(seq(ELEM_NUM, l requires 0 <= l < ELEM_NUM => EntryAfter(v, t, g, h, i, l).sig),
           seq(ELEM_NUM, l requires 0 <= l < ELEM_NUM => EntryAfter(v, t, g, h, i, l).loc))
  }

  ghost function TableAfter(v: Votes, t: Table, g: nat, h: nat): (t': Table)
    ensures forall i: nat, l: nat | i < BUC_NUM && l < ELEM_NUM :: EntryAt(t', i, l) == EntryAfter(v, t, g, h, i, l)
  {
    seq(BUC_NUM, i requires 0 <= i < BUC_NUM => BucketAfter(v, t, g, h, i))
  }

  lemma FavouriteClaims(v: Votes, t: Table, g: nat, h: nat, i: nat, l: nat)
    requires i < BUC_NUM && l < ELEM_NUM
    ensures var t' := TableAfter(v, t, g, h);
            if Wanted(v, i, l) then Owns(v, t', Favourite(v, g, h, i, l), i, l)
            else EntryAt(t', i, l) == EntryAt(t, i, l) && forall k: nat :: !Claims(v, t', k, i, l)
  {
    assert EntryAt(TableAfter(v, t, g, h), i, l) == EntryAfter(v, t, g, h, i, l);
  }

  predicate SameSlot(v: Votes, g: nat, h: nat)
  {
    g in v && h in v && v[g].bucket == v[h].bucket && v[g].lane == v[h].lane
  }

  /** There is an outcome in which g survives, and so does h, unless they want one slot with two signatures. */
  lemma SomeOutcome(v: Votes, t: Table, g: nat, h: nat) returns (t': Table)
    ensures Landed(v, t, t')
    ensures g in v ==> Wins(v, t', g)
    ensures h in v && (SameSlot(v, g, h) ==> v[g].entry.sig == v[h].entry.sig) ==> Wins(v, t', h)
  {
    hide Wanted, TableAfter;
    t' := TableAfter(v, t, g, h);
    forall i: nat, l: nat | i < BUC_NUM && l < ELEM_NUM
      ensures if Wanted(v, i, l) then exists w: nat :: Wants(v, w, i, l) && t'[i].sig[l] == v[w].entry.sig
              else t'[i].sig[l] == t[i].sig[l]
      ensures if exists w: nat :: Claims(v, t', w, i, l)
              then exists w: nat :: Claims(v, t', w, i, l) && t'[i].loc[l] == v[w].entry.loc
              else t'[i].loc[l] == t[i].loc[l]
    {
      FavouriteClaims(v, t, g, h, i, l);
    }
    FavouriteWins(v, t, g, h);
  }

  lemma FavouriteWins(v: Votes, t: Table, g: nat, h: nat)
    ensures var t' := TableAfter(v, t, g, h);
            && (g in v ==> Wins(v, t', g))
            && (h in v && (SameSlot(v, g, h) ==> v[g].entry.sig == v[h].entry.sig) ==> Wins(v, t', h))
  {
    hide TableAfter;
    if g in v {
      assert Wants(v, g, v[g].bucket, v[g].lane);
      FavouriteClaims(v, t, g, h, v[g].bucket, v[g].lane);
    }
    if h in v {
      assert Wants(v, h, v[h].bucket, v[h].lane);
      FavouriteClaims(v, t, g, h, v[h].bucket, v[h].lane);
    }
  }

  // ----- one write after the other ------------------------------------------

  /** The first n of these voters write, one after the other. */
  function Fold(v: Votes, t: Table, order: seq<nat>, n: nat): Table
    requires n <= |order| && forall g | g in order :: g in v
  {
    if n == 0 then t
    else
      var g := order[n - 1];
      PutAt(Fold(v, t, order, n - 1), v[g].bucket, v[g].lane, v[g].entry)
  }

  lemma {:induction false} FoldOther(v: Votes, t: Table, order: seq<nat>, n: nat, i: nat, l: nat)
    requires n <= |order| && (forall g | g in order :: g in v) && i < BUC_NUM && l < ELEM_NUM
    requires forall k: nat | k < n :: !Wants(v, order[k], i, l)
    ensures EntryAt(Fold(v, t, order, n), i, l) == EntryAt(t, i, l)
  {
    if n > 0 {
      FoldOther(v, t, order, n - 1, i, l);
      assert !Wants(v, order[n - 1], i, l);
    }
  }

  lemma {:induction false} FoldLast(v: Votes, t: Table, order: seq<nat>, n: nat, k: nat, i: nat, l: nat)
    requires k < n <= |order| && (forall g | g in order :: g in v) && i < BUC_NUM && l < ELEM_NUM
    requires Wants(v, order[k], i, l) && forall m: nat | k < m < n :: !Wants(v, order[m], i, l)
    ensures EntryAt(Fold(v, t, order, n), i, l) == v[order[k]].entry
  {
    if k < n - 1 {
      FoldLast(v, t, order, n - 1, k, i, l);
      assert !Wants(v, order[n - 1], i, l);
    }
  }

  /** A slot that winners have written keeps their common signature. */
  lemma {:induction false} FoldSig(v: Votes, t: Table, t': Table, order: seq<nat>, n: nat, k: nat, i: nat, l: nat)
    requires k < n <= |order| && (forall g | g in order :: g in v && Wins(v, t', g)) && i < BUC_NUM && l < ELEM_NUM
    requires Wants(v, order[k], i, l)
    ensures forall g | g in order :: g in v
    ensures Fold(v, t, order, n)[i].sig[l] == v[order[k]].entry.sig
  {
    assert order[k] in order && order[n - 1] in order;
    if k < n - 1 {
      FoldSig(v, t, t', order, n - 1, k, i, l);
    }
  }

  /** Nobody behind number k of the list wants its slot. */
  ghost predicate LastInSlot(v: Votes, order: seq<nat>, k: nat)
    requires k < |order|
  {
    forall m | k < m < |order| :: !SameSlot(v, order[k], order[m])
  }

  /** All winners, each once, and in each slot the one whose entry stays listed last. */
  ghost predicate Listing(v: Votes, t': Table, order: seq<nat>)
  {
    && (forall k, m | 0 <= k < m < |order| :: order[k] != order[m])
    && (forall g :: g in order <==> Wins(v, t', g))
    && (forall k: nat | k < |order| && LastInSlot(v, order, k) :: EntryStays(v, t', order[k]))
  }

  predicate EntryStays(v: Votes, t': Table, g: nat)
  {
    g in v && EntryAt(t', v[g].bucket, v[g].lane) == v[g].entry
  }

  /** The last of a list for a slot. */
  lemma {:induction false} LastAt(v: Votes, order: seq<nat>, n: nat, i: nat, l: nat, k: nat) returns (m: nat)
    requires k < n <= |order| && Wants(v, order[k], i, l)
    ensures m < n && Wants(v, order[m], i, l) && forall j: nat | m < j < n :: !Wants(v, order[j], i, l)
  {
    hide Wants;
    if Wants(v, order[n - 1], i, l) {
      m := n - 1;
    } else {
      m := LastAt(v, order, n - 1, i, l, k);
    }
  }

  /** The outcome is the winners' writes in the order of a listing. */
  lemma LandedIsFold(v: Votes, t: Table, t': Table, order: seq<nat>)
    requires Landed(v, t, t') && Listing(v, t', order)
    ensures (forall g | g in order :: g in v) && Fold(v, t, order, |order|) == t'
  {
    hide Landed, Fold, LastInSlot;
    var f := Fold(v, t, order, |order|);
    forall i: nat | i < BUC_NUM ensures f[i] == t'[i] {
      forall l: nat | l < ELEM_NUM ensures EntryAt(f, i, l) == EntryAt(t', i, l) {
        SameEntry(v, t, t', order, i, l);
      }
      SameBucket(f, t', i);
    }
  }

  lemma SameEntry(v: Votes, t: Table, t': Table, order: seq<nat>, i: nat, l: nat)
    requires Landed(v, t, t') && Listing(v, t', order) && i < BUC_NUM && l < ELEM_NUM
    ensures forall g | g in order :: g in v
    ensures EntryAt(Fold(v, t, order, |order|), i, l) == EntryAt(t', i, l)
  {
    hide Landed, Fold;
    SlotOutcome(v, t, t', i, l);
    if Wanted(v, i, l) {
      var g := Owner(v, t', i, l);
      assert g in order;
      var k :| 0 <= k < |order| && order[k] == g;
      var m := LastAt(v, order, |order|, i, l, k);
      FoldLast(v, t, order, |order|, m, i, l);
      assert LastInSlot(v, order, m);
    } else {
      forall k: nat | k < |order| ensures !Wants(v, order[k], i, l) {
        assert !Wanted(v, i, l);
      }
      FoldOther(v, t, order, |order|, i, l);
    }
  }

  /** The members of a set in some order. */
  ghost function Listed(gs: set<nat>): (s: seq<nat>)
    ensures forall g :: g in s <==> g in gs
    ensures forall k, m | 0 <= k < m < |s| :: s[k] != s[m]
  {
    if gs == {} then [] else var g :| g in gs; Listed(gs - {g}) + [g]
  }

  lemma DistinctJoined(first: seq<nat>, last: seq<nat>)
    requires forall k, m | 0 <= k < m < |first| :: first[k] != first[m]
    requires forall k, m | 0 <= k < m < |last| :: last[k] != last[m]
    requires forall g | g in first :: g !in last
    ensures var all := first + last; forall k, m | 0 <= k < m < |all| :: all[k] != all[m]
  {
    var all := first + last;
    forall k, m | 0 <= k < m < |all| ensures all[k] != all[m] {
      if k < |first| <= m {
        assert all[k] in first && all[m] in last;
      }
    }
  }

  /** Every outcome has a listing: those whose entries stay behind the others. */
  lemma SomeListing(v: Votes, t: Table, t': Table) returns (order: seq<nat>)
    requires Landed(v, t, t')
    ensures Listing(v, t', order)
  {
    hide Wins, Landed, Stays, LastInSlot, EntryStays, Listed;
    var winners := set g | g in v && Wins(v, t', g);
    assert forall g :: g in winners <==> Wins(v, t', g) by { WinnersVote(v, t'); }
    var stay := set g | g in winners && Stays(v, t', g);
    var first, last := Listed(winners - stay), Listed(stay);
    order := first + last;
    DistinctJoined(first, last);
    forall g ensures g in order <==> g in winners {
      assert g in order <==> g in first || g in last;
    }
    forall k: nat | k < |order| && LastInSlot(v, order, k) ensures EntryStays(v, t', order[k]) {
      assert order[k] in order;
      forall g | Stays(v, t', g) ensures g in last {
        StaysWins(v, t', g);
      }
      LastStays(v, t, t', first, last, k);
    }
  }

  lemma WinnersVote(v: Votes, t': Table)
    ensures forall g | Wins(v, t', g) :: g in v
  {
  }

  lemma StaysWins(v: Votes, t': Table, g: nat)
    requires Stays(v, t', g)
    ensures g in v && Wins(v, t', g)
  {
    StaysIsOwner(v, t', g, v[g].bucket, v[g].lane);
  }

  lemma LastStays(v: Votes, t: Table, t': Table, first: seq<nat>, last: seq<nat>, k: nat)
    requires Landed(v, t, t') && k < |first + last| && LastInSlot(v, first + last, k) && Wins(v, t', (first + last)[k])
    requires forall g | Stays(v, t', g) :: g in last
    requires forall g | g in last :: Stays(v, t', g)
    ensures EntryStays(v, t', (first + last)[k])
  {
    hide Landed, Stays;
    var order := first + last;
    var g := order[k];
    var i, l := v[g].bucket, v[g].lane;
    assert Wants(v, g, i, l);
    SlotOutcome(v, t, t', i, l);
    assert Wanted(v, i, l);
    var w := Owner(v, t', i, l);
    StaysIsOwner(v, t', w, i, l);
    var m :| 0 <= m < |last| && last[m] == w;
    assert order[|first| + m] == w;
    assert SameSlot(v, g, w);
    if k >= |first| {
      assert g == last[k - |first|];
      StaysIsOwner(v, t', g, i, l);
    } else {
      assert false;
    }
  }

  // ----- voters of one signature --------------------------------------------

  /** No voter's signature is in its bucket yet. */
  ghost predicate NewVotes(v: Votes, t: Table)
  {
    forall g | g in v :: v[g].entry.sig !in t[v[g].bucket].sig
  }

  /** Voters who bring one signature into one bucket want one lane. */
  ghost predicate AgreeingVotes(v: Votes)
  {
    forall g, h | g in v && h in v ::
      v[g].bucket == v[h].bucket && v[g].entry.sig == v[h].entry.sig ==> v[g].lane == v[h].lane
  }

  /** A voter that does not survive still finds its signature nowhere in its bucket. */
  lemma LoserIsNew(v: Votes, t: Table, t': Table, g: nat)
    requires NewVotes(v, t) && AgreeingVotes(v) && Landed(v, t, t') && g in v && !Wins(v, t', g)
    ensures v[g].entry.sig !in t'[v[g].bucket].sig
  {
    hide Landed;
    var i := v[g].bucket;
    forall l: nat | l < ELEM_NUM ensures t'[i].sig[l] != v[g].entry.sig {
      var w := SigOutcome(v, t, t', i, l);
    }
  }

  /** Two voters of one signature that win two lanes of one bucket leave it there twice. */
  lemma TwoWinners(v: Votes, t': Table, g: nat, h: nat)
    requires g in v && h in v && v[g].bucket == v[h].bucket && v[g].lane != v[h].lane
    requires v[g].entry.sig == v[h].entry.sig != 0 && Wins(v, t', g) && Wins(v, t', h)
    ensures !AllUnique(t')
  {
    var c := t'[v[g].bucket];
    if v[g].lane < v[h].lane { assert !UniqueSigs(c); } else { assert v[h].lane < v[g].lane && !UniqueSigs(c); }
  }

  /** No bucket gets a signature twice. */
  lemma LandedUnique(v: Votes, t: Table, t': Table)
    requires NewVotes(v, t) && AgreeingVotes(v) && Landed(v, t, t') && AllUnique(t)
    ensures AllUnique(t')
  {
    hide Landed, NewVotes, AgreeingVotes;
    forall i: nat | i < BUC_NUM ensures UniqueSigs(t'[i]) {
      assert UniqueSigs(t[i]);
      forall k: nat, l: nat | k < l < ELEM_NUM ensures t'[i].sig[k] == t'[i].sig[l] ==> t'[i].sig[k] == 0 {
        TwoSlots(v, t, t', i, k, l);
      }
    }
  }

  lemma TwoSlots(v: Votes, t: Table, t': Table, i: nat, k: nat, l: nat)
    requires NewVotes(v, t) && AgreeingVotes(v) && Landed(v, t, t') && i < BUC_NUM && k < l < ELEM_NUM
             && UniqueSigs(t[i])
    ensures t'[i].sig[k] == t'[i].sig[l] ==> t'[i].sig[k] == 0
  {
    hide Landed, Wanted;
    var g := SigOutcome(v, t, t', i, k);
    var h := SigOutcome(v, t, t', i, l);
  }

  /** A lane of the next winner's bucket after the first n have written. */
  lemma LaneAfter(v: Votes, t: Table, t': Table, order: seq<nat>, n: nat, l: nat)
    requires LiveVotes(v) && NewVotes(v, t) && AgreeingVotes(v) && n < |order| && l < ELEM_NUM
    requires forall g | g in order :: g in v && Wins(v, t', g) && t[v[g].bucket].sig[v[g].lane] == 0
    ensures order[n] in order && forall g | g in order :: g in v
    ensures var f := Fold(v, t, order, n); var x := v[order[n]];
            && (l != x.lane ==> f[x.bucket].sig[l] != x.entry.sig)
            && (t[x.bucket].sig[l] != 0 ==> f[x.bucket].sig[l] != 0)
            && (l == x.lane ==> f[x.bucket].sig[l] == 0 || f[x.bucket].sig[l] == x.entry.sig)
  {
    hide Fold;
    assert order[n] in order;
    var x := v[order[n]];
    if k: nat :| k < n && Wants(v, order[k], x.bucket, l) {
      assert order[k] in order;
      FoldSig(v, t, t', order, n, k, x.bucket, l);
    } else {
      FoldOther(v, t, order, n, x.bucket, l);
      assert Fold(v, t, order, n)[x.bucket].sig[l] == EntryAt(t, x.bucket, l).sig;
    }
  }
}
