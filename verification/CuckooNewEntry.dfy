/**
 What becomes of the entry an insert brings.  The displacement chain can come back
 to the bucket it has put the new entry in, and then lose it.
 */
module CuckooNewEntry {
  import opened GpuHash
  import opened CuckooSpec
  import opened CuckooLaws

  /** The entry `x` is in hand, or already in the second bucket of its key. */
  lemma {:induction false} ChainHolds(t: Table, hash: Word, major: nat, e: Entry, n: nat, x: Entry)
    requires major < ELEM_NUM && n <= MAX_CUCKOO_NUM && e.sig != 0 && x.sig != 0
    requires e == x || Holds(t[Alt(hash, x.sig)], x)
    ensures var o := Chain(t, hash, major, e, n, false);
            (!o.loss.NoLoss? && o.loss.entry == x) || Holds(o.table[Alt(hash, x.sig)], x)
    decreases MAX_CUCKOO_NUM - n
  {
    hide Alt, MatchLane, EmptyLane, PutAt, Holds;
    var i := Alt(hash, e.sig);
    match MatchLane(t[i], e.sig)
    case Some(l) => PutHolds(t, i, l, e, x, Alt(hash, x.sig));
    case None =>
      match EmptyLane(t[i], major)
      case Some(l) => PutHolds(t, i, l, e, x, Alt(hash, x.sig));
      case None =>
        PutHolds(t, i, major, e, x, Alt(hash, x.sig));
        if n < MAX_CUCKOO_NUM {
          ChainHolds(PutAt(t, i, major, e), hash, major, EntryAt(t, i, major), n + 1, x);
        }
  }

  lemma PutHolds(t: Table, i: nat, l: nat, e: Entry, x: Entry, j: nat)
    requires i < BUC_NUM && j < BUC_NUM && l < ELEM_NUM
    requires e == x ==> i == j
    requires e == x || Holds(t[j], x)
    ensures Holds(PutAt(t, i, l, e)[j], x) || EntryAt(t, i, l) == x
  {
    if e == x {
      assert PutAt(t, i, l, e)[j].sig[l] == x.sig;
    } else {
      var k: nat :| k < ELEM_NUM && t[j].sig[k] == x.sig && t[j].loc[k] == x.loc;
      assert EntryAt(t, i, l) != x ==> PutAt(t, i, l, e)[j].sig[k] == x.sig;
    }
  }

  /** What the sender makes of the two outputs of a search: the first nonzero one. */
  ghost function Reported(t: Table, sig: Word, hash: Word): Word
  {
    if Lookup(t[Home(hash)], sig) != 0 then Lookup(t[Home(hash)], sig) else Lookup(t[Alt(hash, sig)], sig)
  }

  /** A signature gets into its own second bucket by the chain, and into no other. */
  lemma {:induction false} ChainElsewhere(t: Table, hash: Word, major: nat, e: Entry, n: nat, sig: Word, j: nat)
    requires major < ELEM_NUM && n <= MAX_CUCKOO_NUM && j < BUC_NUM && j != Alt(hash, sig)
    requires sig !in t[j].sig
    ensures sig !in Chain(t, hash, major, e, n, false).table[j].sig
    decreases MAX_CUCKOO_NUM - n
  {
    hide Alt, MatchLane, EmptyLane;
    var i := Alt(hash, e.sig);
    if MatchLane(t[i], e.sig).None? && EmptyLane(t[i], major).None? && n < MAX_CUCKOO_NUM {
      ChainElsewhere(PutAt(t, i, major, e), hash, major, EntryAt(t, i, major), n + 1, sig, j);
    }
  }

  lemma AbsentLookup(b: Bucket, sig: Word)
    requires sig !in b.sig
    ensures Lookup(b, sig) == 0
  {
  }

  /**
   After an insert a search is answered with the new location, unless the chain came back
   and lost that very entry.
   */
  lemma InsertedIsFound(t: Table, r: Elem)
    requires AllUnique(t) && r.sig != 0 && r.loc != 0
    ensures var o := Insert(t, r, false);
            (!o.loss.NoLoss? && o.loss.entry == Entry(r.sig, r.loc)) || Reported(o.table, r.sig, r.hash) == r.loc
  {
    hide Alt, Home, Chain, Lookup, BucketMap;
    var x := Entry(r.sig, r.loc);
    var o := Insert(t, r, false);
    InsertUnique(t, r, false);
    var i, j := Home(r.hash), Alt(r.hash, r.sig);
    assert UniqueSigs(o.table[i]) && UniqueSigs(o.table[j]);
    HeldLookup(o.table[i], x);
    HeldLookup(o.table[j], x);
    match MatchLane(t[i], r.sig)
    case Some(l) => PutHolds(t, i, l, x, x, i); assert o.table[i].sig[l] == r.sig;
    case None =>
      match EmptyLane(t[i], Major(r.sig))
      case Some(l) => PutHolds(t, i, l, x, x, i); assert o.table[i].sig[l] == r.sig;
      case None =>
        ChainHolds(t, r.hash, Major(r.sig), x, 0, x);
        if i != j {
          ChainElsewhere(t, r.hash, Major(r.sig), x, 0, r.sig, i);
          AbsentLookup(o.table[i], r.sig);
        }
  }

  lemma HeldLookup(b: Bucket, e: Entry)
    requires UniqueSigs(b) && e.sig != 0 && e.loc != 0
    ensures Holds(b, e) <==> Lookup(b, e.sig) == e.loc
  {
    BucketMapItems(b, e);
  }

  /** A fresh entry is what a search reports after its insert exactly when it is not the one the insert loses. */
  lemma FreshInsertedIsFoundIff(t: Table, r: Elem)
    requires AllUnique(t) && r.sig != 0 && r.loc != 0 && Copies(t, Entry(r.sig, r.loc)) == 0
    ensures var o := Insert(t, r, false);
            Reported(o.table, r.sig, r.hash) == r.loc <==> (o.loss.NoLoss? || o.loss.entry != Entry(r.sig, r.loc))
  {
    hide Lookup, Insert;
    var x := Entry(r.sig, r.loc);
    var o := Insert(t, r, false);
    InsertedIsFound(t, r);
    InsertConserves(t, r, false, x);
    if Reported(o.table, r.sig, r.hash) == r.loc {
      InsertUnique(t, r, false);
      var i := if Lookup(o.table[Home(r.hash)], r.sig) == r.loc then Home(r.hash) else Alt(r.hash, r.sig);
      assert UniqueSigs(o.table[i]);
      HeldLookup(o.table[i], x);
      HeldIsCounted(o.table, i, x);
    }
  }

  // ----- when the new entry is forgotten ------------------------------------

  lemma PutBack(t: Table, i: nat, l: nat, e: Entry)
    requires i < BUC_NUM && l < ELEM_NUM
    ensures PutAt(PutAt(t, i, l, e), i, l, EntryAt(t, i, l)) == t
  {
    var b := Put(Put(t[i], l, e), l, EntryAt(t, i, l));
    assert b.sig == t[i].sig && b.loc == t[i].loc;
  }

  /**
   Two hands that belong in one full bucket throw each other out of one lane until
   the chain gives up; which of them stays depends on how many moves are left.
   */
  lemma {:induction false} Bounce(t: Table, hash: Word, major: nat, a: Entry, b: Entry, n: nat)
    requires major < ELEM_NUM && n <= MAX_CUCKOO_NUM && a.sig != 0 && b.sig != 0 && a.sig != b.sig
    requires Alt(hash, a.sig) == Alt(hash, b.sig) && EntryAt(t, Alt(hash, a.sig), major) == b
    requires FullBucket(t[Alt(hash, a.sig)])
    requires forall l: nat | l < ELEM_NUM && l != major ::
             t[Alt(hash, a.sig)].sig[l] != a.sig && t[Alt(hash, a.sig)].sig[l] != b.sig
    ensures var o := Chain(t, hash, major, a, n, false); var i := Alt(hash, a.sig);
            if (MAX_CUCKOO_NUM - n) % 2 == 0 then o.table == PutAt(t, i, major, a) && o.loss == Exhausted(b)
            else o.table == t && o.loss == Exhausted(a)
    ensures |Chain(t, hash, major, a, n, false).writes| == MAX_CUCKOO_NUM + 1 - n
    decreases MAX_CUCKOO_NUM - n
  {
    hide Alt, FirstLane;
    var i := Alt(hash, a.sig);
    var t' := PutAt(t, i, major, a);
    assert MatchLane(t[i], a.sig).None? && EmptyLane(t[i], major).None?;
    if n < MAX_CUCKOO_NUM {
      Bounce(t', hash, major, b, a, n + 1);
      PutBack(t, i, major, a);
    }
  }

  /**
   Whether the chain, which has put entry x into its second bucket and now holds e,
   loses x again, computed from the signatures it meets.  The first hand with the
   low bits of x comes back to that bucket: with the signature of x it replaces the
   location, and otherwise it drives x out for good if an even number of moves is left.
   */
  ghost predicate Forgets(t: Table, hash: Word, major: nat, x: Entry, e: Entry, n: nat)
    requires major < ELEM_NUM && n <= MAX_CUCKOO_NUM
    decreases MAX_CUCKOO_NUM - n
  {
    var i := Alt(hash, e.sig);
    if Low(e.sig) == Low(x.sig) then
      if MatchLane(t[i], e.sig).Some? then e.sig == x.sig && e.loc != x.loc else (MAX_CUCKOO_NUM - n) % 2 == 0
    else
      && MatchLane(t[i], e.sig).None? && EmptyLane(t[i], major).None? && n < MAX_CUCKOO_NUM
      && Forgets(PutAt(t, i, major, e), hash, major, x, EntryAt(t, i, major), n + 1)
  }

  lemma {:induction false} ChainForgetsIff(t: Table, hash: Word, major: nat, x: Entry, e: Entry, n: nat)
    requires major < ELEM_NUM && n <= MAX_CUCKOO_NUM && x.sig != 0 && e.sig != 0
    requires var i := Alt(hash, x.sig); EntryAt(t, i, major) == x && FullBucket(t[i]) && UniqueSigs(t[i])
    ensures Holds(Chain(t, hash, major, e, n, false).table[Alt(hash, x.sig)], x) <==> !Forgets(t, hash, major, x, e, n)
    decreases MAX_CUCKOO_NUM - n
  {
    hide Alt, Low, MatchLane, EmptyLane, Holds, FullBucket, UniqueSigs;
    AltEqual(hash, x.sig, e.sig);
    var i, j := Alt(hash, x.sig), Alt(hash, e.sig);
    if i == j {
      Comeback(t, hash, major, x, e, n);
    } else {
      HoldsAt(t[i], major, x);
      if MatchLane(t[j], e.sig).None? && EmptyLane(t[j], major).None? && n < MAX_CUCKOO_NUM {
        FullSlot(t[j], major);
        ChainForgetsIff(PutAt(t, j, major, e), hash, major, x, EntryAt(t, j, major), n + 1);
      }
    }
  }

  lemma HoldsAt(b: Bucket, l: nat, x: Entry)
    requires l < ELEM_NUM && b.sig[l] == x.sig && b.loc[l] == x.loc
    ensures Holds(b, x)
  {
  }

  lemma FullSlot(b: Bucket, major: nat)
    requires major < ELEM_NUM && EmptyLane(b, major).None?
    ensures b.sig[major] != 0
  {
  }

  /** A hand with the low bits of x is back at the bucket of x. */
  lemma Comeback(t: Table, hash: Word, major: nat, x: Entry, e: Entry, n: nat)
    requires major < ELEM_NUM && n <= MAX_CUCKOO_NUM && x.sig != 0 && e.sig != 0 && Alt(hash, e.sig) == Alt(hash, x.sig)
    requires var i := Alt(hash, x.sig); EntryAt(t, i, major) == x && FullBucket(t[i]) && UniqueSigs(t[i])
    ensures var i := Alt(hash, x.sig);
            Holds(Chain(t, hash, major, e, n, false).table[i], x) <==>
            !(if MatchLane(t[i], e.sig).Some? then e.sig == x.sig && e.loc != x.loc else (MAX_CUCKOO_NUM - n) % 2 == 0)
  {
    hide Alt, FirstLane, Chain;
    var i := Alt(hash, x.sig);
    var m := MatchLane(t[i], e.sig);
    if m.Some? {
      Replaced(t, hash, major, e, n);
      assert m.value != major ==> t[i].sig[major] != t[i].sig[m.value];
      if m.value != major {
        HoldsAt(PutAt(t, i, m.value, e)[i], major, x);
      } else {
        OnlyAt(PutAt(t, i, major, e)[i], major, x);
      }
    } else {
      Bounce(t, hash, major, e, x, n);
      HoldsAt(t[i], major, x);
      OnlyAt(PutAt(t, i, major, e)[i], major, x);
    }
  }

  lemma Replaced(t: Table, hash: Word, major: nat, e: Entry, n: nat)
    requires major < ELEM_NUM && n <= MAX_CUCKOO_NUM && MatchLane(t[Alt(hash, e.sig)], e.sig).Some?
    ensures var i := Alt(hash, e.sig);
            Chain(t, hash, major, e, n, false).table == PutAt(t, i, MatchLane(t[i], e.sig).value, e)
  {
    hide Alt, MatchLane;
  }

  lemma OnlyAt(b: Bucket, l: nat, x: Entry)
    requires l < ELEM_NUM && forall k: nat | k < ELEM_NUM && k != l :: b.sig[k] != x.sig
    ensures Holds(b, x) <==> b.sig[l] == x.sig && b.loc[l] == x.loc
  {
  }

  /** Both buckets of the key are full without it, and the chain forgets it. */
  ghost predicate Forgotten(t: Table, r: Elem)
  {
    var i, j, p := Home(r.hash), Alt(r.hash, r.sig), Major(r.sig);
    && MatchLane(t[i], r.sig).None? && EmptyLane(t[i], p).None?
    && MatchLane(t[j], r.sig).None? && EmptyLane(t[j], p).None?
    && Forgets(PutAt(t, j, p, Entry(r.sig, r.loc)), r.hash, p, Entry(r.sig, r.loc), EntryAt(t, j, p), 1)
  }

  /** What is reported of a key whose home bucket does not hold it, or holds it alone. */
  lemma ReportedIff(t: Table, r: Elem)
    requires AllUnique(t) && r.sig != 0 && r.loc != 0
    requires Home(r.hash) == Alt(r.hash, r.sig) || r.sig !in t[Home(r.hash)].sig
    ensures Reported(t, r.sig, r.hash) == r.loc <==> Holds(t[Alt(r.hash, r.sig)], Entry(r.sig, r.loc))
  {
    hide Lookup, Holds;
    var i, j := Home(r.hash), Alt(r.hash, r.sig);
    assert UniqueSigs(t[j]);
    HeldLookup(t[j], Entry(r.sig, r.loc));
    if i != j { AbsentLookup(t[i], r.sig); }
  }

  /** Right after its insert a search reports the new location if and only if the key is not forgotten. */
  lemma InsertReportedIff(t: Table, r: Elem)
    requires AllUnique(t) && r.sig != 0 && r.loc != 0
    ensures Reported(Insert(t, r, false).table, r.sig, r.hash) == r.loc <==> !Forgotten(t, r)
  {
    hide Alt, Home, Chain, Forgets, Reported, Holds, MatchLane, EmptyLane, AllUnique;
    var x, i, j, p := Entry(r.sig, r.loc), Home(r.hash), Alt(r.hash, r.sig), Major(r.sig);
    InsertUnique(t, r, false);
    if MatchLane(t[i], r.sig).None? && EmptyLane(t[i], p).None? {
      ChainReported(t, r);
    } else {
      InsertedAtHome(t, r);
    }
  }

  /** For an entry the table did not hold: it is forgotten exactly when it is what the insert loses. */
  lemma ForgottenIsTheLoss(t: Table, r: Elem)
    requires AllUnique(t) && r.sig != 0 && r.loc != 0 && Copies(t, Entry(r.sig, r.loc)) == 0
    ensures var o := Insert(t, r, false); Forgotten(t, r) <==> !o.loss.NoLoss? && o.loss.entry == Entry(r.sig, r.loc)
  {
    hide Insert, Reported, Forgotten;
    InsertReportedIff(t, r);
    FreshInsertedIsFoundIff(t, r);
  }

  lemma InsertedAtHome(t: Table, r: Elem)
    requires AllUnique(t) && r.sig != 0 && r.loc != 0
    requires MatchLane(t[Home(r.hash)], r.sig).Some? || EmptyLane(t[Home(r.hash)], Major(r.sig)).Some?
    ensures Reported(Insert(t, r, false).table, r.sig, r.hash) == r.loc
  {
    hide Alt, Home, MatchLane, EmptyLane, Lookup, AllUnique;
    var x, i := Entry(r.sig, r.loc), Home(r.hash);
    var t' := Insert(t, r, false).table;
    InsertUnique(t, r, false);
    UniqueAt(t', i);
    var m := MatchLane(t[i], r.sig);
    var l := if m.Some? then m.value else EmptyLane(t[i], Major(r.sig)).value;
    HoldsAt(t'[i], l, x);
    HeldLookup(t'[i], x);
  }

  lemma ChainReported(t: Table, r: Elem)
    requires AllUnique(t) && r.sig != 0 && r.loc != 0
    requires MatchLane(t[Home(r.hash)], r.sig).None? && EmptyLane(t[Home(r.hash)], Major(r.sig)).None?
    ensures Reported(Insert(t, r, false).table, r.sig, r.hash) == r.loc <==> !Forgotten(t, r)
  {
    hide Alt, Home, Forgets, Reported, Holds, MatchLane, EmptyLane, AllUnique, Chain;
    var x, i, j, p := Entry(r.sig, r.loc), Home(r.hash), Alt(r.hash, r.sig), Major(r.sig);
    var t' := Insert(t, r, false).table;
    InsertUnique(t, r, false);
    if i != j { ChainElsewhere(t, r.hash, p, x, 0, r.sig, i); }
    ReportedIff(t', r);
    FirstWrite(t, r.hash, p, x);
    if MatchLane(t[j], r.sig).None? && EmptyLane(t[j], p).None? {
      UniqueAt(t, j);
      PutUnique(t, j, p, x);
      UniqueAt(PutAt(t, j, p, x), j);
      FullAfter(t[j], p, x);
      ChainForgetsIff(PutAt(t, j, p, x), r.hash, p, x, EntryAt(t, j, p), 1);
    } else {
      var m := MatchLane(t[j], r.sig);
      HoldsAt(t'[j], if m.Some? then m.value else EmptyLane(t[j], p).value, x);
    }
  }

  /** The first step of a chain. */
  lemma FirstWrite(t: Table, hash: Word, major: nat, x: Entry)
    requires major < ELEM_NUM
    ensures var o := Chain(t, hash, major, x, 0, false); var j := Alt(hash, x.sig);
            match MatchLane(t[j], x.sig)
            case Some(l) => o.table == PutAt(t, j, l, x)
            case None =>
              match EmptyLane(t[j], major)
              case Some(l) => o.table == PutAt(t, j, l, x)
              case None =>
                var rest := Chain(PutAt(t, j, major, x), hash, major, EntryAt(t, j, major), 1, false);
                o.table == rest.table && o.loss == rest.loss && |o.writes| == 1 + |rest.writes|
  {
    hide Alt, MatchLane, EmptyLane;
  }

  lemma FullAfter(b: Bucket, major: nat, x: Entry)
    requires major < ELEM_NUM && x.sig != 0 && EmptyLane(b, major).None?
    ensures FullBucket(Put(b, major, x)) && b.sig[major] != 0
  {
  }

  /**
   A guard on the table alone.  Both buckets of the key full without it, and the
   entry in the way with the same low bits as the key: the insert changes nothing
   at all, and the key cannot be found.
   */
  lemma SameLowBitsForgotten(t: Table, r: Elem)
    requires AllUnique(t) && r.sig != 0
    requires FullBucket(t[Home(r.hash)]) && r.sig !in t[Home(r.hash)].sig
    requires FullBucket(t[Alt(r.hash, r.sig)]) && r.sig !in t[Alt(r.hash, r.sig)].sig
    requires Low(t[Alt(r.hash, r.sig)].sig[Major(r.sig)]) == Low(r.sig)
    ensures Insert(t, r, false).table == t && Insert(t, r, false).loss == Exhausted(Entry(r.sig, r.loc))
    ensures |Insert(t, r, false).writes| == 6
    ensures Reported(t, r.sig, r.hash) == 0
  {
    hide Alt, Home, Low, Major, Chain, FirstLane, Lookup;
    var x, i, j, p := Entry(r.sig, r.loc), Home(r.hash), Alt(r.hash, r.sig), Major(r.sig);
    var v := EntryAt(t, j, p);
    assert UniqueSigs(t[j]);
    AltEqual(r.hash, r.sig, v.sig);
    FirstWrite(t, r.hash, p, x);
    assert MatchLane(t[i], r.sig).None? && EmptyLane(t[i], p).None?;
    assert MatchLane(t[j], r.sig).None? && EmptyLane(t[j], p).None?;
    var t' := PutAt(t, j, p, x);
    Bounce(t', r.hash, p, v, x, 1);
    PutBack(t, j, p, x);
    AbsentLookup(t[i], r.sig);
    AbsentLookup(t[j], r.sig);
  }
}
