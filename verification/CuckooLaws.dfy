/**
 Laws of the index over single operations and over whole runs: entries are
 conserved, buckets stay duplicate-free, and what a search reports.
 */
module CuckooLaws {
  import opened GpuHash
  import opened CuckooSpec

  // ----- conservation -------------------------------------------------------

  /** 1 if e is stored in this slot, else 0. */
  ghost function InSlot(b: Bucket, l: nat, e: Entry): nat
    requires l < ELEM_NUM
  {
    if b.sig[l] == e.sig && b.loc[l] == e.loc then 1 else 0
  }

  ghost function LaneCopies(b: Bucket, e: Entry, n: nat): nat
    requires n <= ELEM_NUM
  {
    if n == 0 then 0 else LaneCopies(b, e, n - 1) + InSlot(b, n - 1, e)
  }

  /** How many slots of the table store e: the multiplicity of e among the live entries. */
  ghost function Copies(t: seq<Bucket>, e: Entry): nat
  {
    if t == [] then 0 else Copies(t[..|t| - 1], e) + LaneCopies(t[|t| - 1], e, ELEM_NUM)
  }

  ghost function LostCopies(o: Outcome, e: Entry): nat
  {
    if o.loss.NoLoss? then 0 else One(o.loss.entry, e)
  }

  ghost function One(x: Entry, e: Entry): nat
  {
    if x == e then 1 else 0
  }

  lemma {:induction false} PutLanes(b: Bucket, l: nat, x: Entry, e: Entry, n: nat)
    requires l < ELEM_NUM && n <= ELEM_NUM
    ensures LaneCopies(Put(b, l, x), e, n) + (if l < n then InSlot(b, l, e) else 0) ==
            LaneCopies(b, e, n) + (if l < n then One(x, e) else 0)
  {
    if n > 0 {
      PutLanes(b, l, x, e, n - 1);
    }
  }

  lemma {:induction false} CopiesUpdate(t: seq<Bucket>, i: nat, b: Bucket, e: Entry)
    requires i < |t|
    ensures Copies(t[i := b], e) + LaneCopies(t[i], e, ELEM_NUM) == Copies(t, e) + LaneCopies(b, e, ELEM_NUM)
  {
    var n := |t| - 1;
    var t' := t[i := b];
    if i == n {
      assert t'[..n] == t[..n];
    } else {
      CopiesUpdate(t[..n], i, b, e);
      assert t'[..n] == t[..n][i := b];
    }
  }

  lemma CopiesPut(t: Table, i: nat, l: nat, x: Entry, e: Entry)
    requires i < BUC_NUM && l < ELEM_NUM
    ensures Copies(PutAt(t, i, l, x), e) + One(EntryAt(t, i, l), e) == Copies(t, e) + One(x, e)
  {
    PutLanes(t[i], l, x, e, ELEM_NUM);
    CopiesUpdate(t, i, Put(t[i], l, x), e);
  }

  lemma {:induction false} HeldInLanes(b: Bucket, l: nat, e: Entry, n: nat)
    requires l < n <= ELEM_NUM && b.sig[l] == e.sig && b.loc[l] == e.loc
    ensures LaneCopies(b, e, n) > 0
  {
    if l < n - 1 { HeldInLanes(b, l, e, n - 1); }
  }

  lemma {:induction false} HeldIsCounted(t: seq<Bucket>, i: nat, e: Entry)
    requires i < |t| && Holds(t[i], e)
    ensures Copies(t, e) > 0
  {
    if i == |t| - 1 {
      var l: nat :| l < ELEM_NUM && t[i].sig[l] == e.sig && t[i].loc[l] == e.loc;
      HeldInLanes(t[i], l, e, ELEM_NUM);
    } else {
      HeldIsCounted(t[..|t| - 1], i, e);
    }
  }

  lemma {:induction false} ChainConserves(t: Table, hash: Word, major: nat, x: Entry, n: nat, advance: bool, e: Entry)
    requires major < ELEM_NUM && n <= MAX_CUCKOO_NUM && e.sig != 0
    ensures var o := Chain(t, hash, major, x, n, advance);
            Copies(o.table, e) + LostCopies(o, e) == Copies(t, e) + One(x, e)
    decreases MAX_CUCKOO_NUM - n
  {
    hide Alt, Copies, PutAt, MatchLane, EmptyLane;
    var i := Alt(hash, x.sig);
    match MatchLane(t[i], x.sig)
    case Some(l) => CopiesPut(t, i, l, x, e);
    case None =>
      match EmptyLane(t[i], major)
      case Some(l) => CopiesPut(t, i, l, x, e);
      case None =>
        CopiesPut(t, i, major, x, e);
        if n < MAX_CUCKOO_NUM {
          ChainConserves(PutAt(t, i, major, x), if advance then i else hash, major,
                         EntryAt(t, i, major), n + 1, advance, e);
        }
  }

  /** Nothing appears or disappears but the new entry and at most one lost one. */
  lemma InsertConserves(t: Table, r: Elem, advance: bool, e: Entry)
    requires r.sig != 0 && e.sig != 0
    ensures var o := Insert(t, r, advance);
            Copies(o.table, e) + LostCopies(o, e) == Copies(t, e) + One(Entry(r.sig, r.loc), e)
  {
    var x, i := Entry(r.sig, r.loc), Home(r.hash);
    match MatchLane(t[i], r.sig)
    case Some(l) => CopiesPut(t, i, l, x, e);
    case None =>
      match EmptyLane(t[i], Major(r.sig))
      case Some(l) => CopiesPut(t, i, l, x, e);
      case None => ChainConserves(t, r.hash, Major(r.sig), x, 0, advance, e);
  }

  lemma {:induction false} ClearLanes(b: Bucket, x: Entry, e: Entry, n: nat)
    requires n <= ELEM_NUM && x.sig != 0 && e.sig != 0
    ensures LaneCopies(ClearBucket(b, x), e, n) == if e == x then 0 else LaneCopies(b, e, n)
  {
    if n > 0 { ClearLanes(b, x, e, n - 1); }
  }

  lemma {:induction false} OneCopy(b: Bucket, e: Entry, n: nat)
    requires n <= ELEM_NUM && e.sig != 0 && UniqueSigs(b)
    ensures LaneCopies(b, e, n) == if exists l: nat :: l < n && b.sig[l] == e.sig && b.loc[l] == e.loc then 1 else 0
  {
    if n > 0 { OneCopy(b, e, n - 1); }
  }

  /** A delete takes away one copy of its entry, if a candidate bucket has it, and nothing else. */
  lemma DeleteConserves(t: Table, r: Elem, e: Entry)
    requires AllUnique(t) && r.sig != 0 && e.sig != 0
    ensures var x := Entry(r.sig, r.loc);
            Copies(Delete(t, r), e) +
            (if e == x && (Holds(t[Home(r.hash)], x) || Holds(t[Alt(r.hash, r.sig)], x)) then 1 else 0) == Copies(t, e)
  {
    hide Alt, Home, Copies;
    var x := Entry(r.sig, r.loc);
    var i := if Holds(t[Home(r.hash)], x) then Home(r.hash) else Alt(r.hash, r.sig);
    assert UniqueSigs(t[i]);
    ClearLanes(t[i], x, e, ELEM_NUM);
    OneCopy(t[i], e, ELEM_NUM);
    CopiesUpdate(t, i, ClearBucket(t[i], x), e);
  }

  ghost predicate FullBucket(b: Bucket)
  {
    forall l: nat | l < ELEM_NUM :: b.sig[l] != 0
  }

  lemma {:induction false} ChainWrites(t: Table, hash: Word, major: nat, e: Entry, n: nat, advance: bool)
    requires major < ELEM_NUM && n <= MAX_CUCKOO_NUM && e.sig != 0
    ensures var o := Chain(t, hash, major, e, n, advance);
            && 1 <= |o.writes| <= MAX_CUCKOO_NUM + 1 - n
            && (o.loss.Exhausted? ==> |o.writes| == MAX_CUCKOO_NUM + 1 - n)
            && (|o.writes| > 1 ==> FullBucket(t[Alt(hash, e.sig)]))
    decreases MAX_CUCKOO_NUM - n
  {
    hide Alt, MatchLane, EmptyLane, PutAt;
    var i := Alt(hash, e.sig);
    if MatchLane(t[i], e.sig).None? && EmptyLane(t[i], major).None? && n < MAX_CUCKOO_NUM {
      ChainWrites(PutAt(t, i, major, e), if advance then i else hash, major, EntryAt(t, i, major), n + 1, advance);
    }
  }

  lemma {:induction false} ChainOverwrites(t: Table, hash: Word, major: nat, e: Entry, n: nat, advance: bool)
    requires major < ELEM_NUM && n <= MAX_CUCKOO_NUM && e.sig != 0
    requires Chain(t, hash, major, e, n, advance).loss.Overwritten?
    ensures var o := Chain(t, hash, major, e, n, advance);
            |o.writes| > 0 && o.loss.entry.sig == o.writes[|o.writes| - 1].entry.sig
    decreases MAX_CUCKOO_NUM - n
  {
    hide Alt, MatchLane, EmptyLane, PutAt;
    var i := Alt(hash, e.sig);
    if MatchLane(t[i], e.sig).None? {
      var t' := PutAt(t, i, major, e);
      var rest := Chain(t', if advance then i else hash, major, EntryAt(t, i, major), n + 1, advance);
      ChainOverwrites(t', if advance then i else hash, major, EntryAt(t, i, major), n + 1, advance);
      var w := Chain(t, hash, major, e, n, advance).writes;
      assert w[|w| - 1] == rest.writes[|rest.writes| - 1];
    }
  }

  lemma {:induction false} ChainMeetsFull(t: Table, hash: Word, major: nat, e: Entry, n: nat, advance: bool, k: nat)
    requires major < ELEM_NUM && n <= MAX_CUCKOO_NUM && e.sig != 0
    requires var o := Chain(t, hash, major, e, n, advance); o.loss.Exhausted? && k < |o.writes|
    ensures var i := Chain(t, hash, major, e, n, advance).writes[k].bucket; i < BUC_NUM && FullBucket(t[i])
    decreases MAX_CUCKOO_NUM - n
  {
    hide Alt, MatchLane, EmptyLane;
    var i := Alt(hash, e.sig);
    if k > 0 {
      var t' := PutAt(t, i, major, e);
      ChainMeetsFull(t', if advance then i else hash, major, EntryAt(t, i, major), n + 1, advance, k - 1);
      var rest := Chain(t', if advance then i else hash, major, EntryAt(t, i, major), n + 1, advance);
      assert Chain(t, hash, major, e, n, advance).writes[k] == rest.writes[k - 1];
    }
  }

  /**
   An entry is lost only under its own signature or at the end of a chain of
   MAX_CUCKOO_NUM + 1 writes that met nothing but full buckets; and a displaced
   entry costs its bucket's being full.
   */
  lemma InsertLoss(t: Table, r: Elem, advance: bool)
    requires r.sig != 0
    ensures var o := Insert(t, r, advance);
            && 1 <= |o.writes| <= MAX_CUCKOO_NUM + 1
            && (o.loss.Overwritten? ==> o.loss.entry.sig == o.writes[|o.writes| - 1].entry.sig)
            && (o.loss.Exhausted? ==>
                  && |o.writes| == MAX_CUCKOO_NUM + 1
                  && FullBucket(t[Home(r.hash)])
                  && forall k: nat | k < |o.writes| ::
                     o.writes[k].bucket < BUC_NUM && FullBucket(t[o.writes[k].bucket]))
            && (|o.writes| > 1 ==> FullBucket(t[Home(r.hash)]) && FullBucket(t[Alt(r.hash, r.sig)]))
  {
    hide Alt, Home, Chain;
    var i := Home(r.hash);
    if MatchLane(t[i], r.sig).None? && EmptyLane(t[i], Major(r.sig)).None? {
      ChainWrites(t, r.hash, Major(r.sig), Entry(r.sig, r.loc), 0, advance);
      var o := Insert(t, r, advance);
      if o.loss.Overwritten? {
        ChainOverwrites(t, r.hash, Major(r.sig), Entry(r.sig, r.loc), 0, advance);
      }
      forall k: nat | o.loss.Exhausted? && k < |o.writes|
        ensures o.writes[k].bucket < BUC_NUM && FullBucket(t[o.writes[k].bucket])
      {
        ChainMeetsFull(t, r.hash, Major(r.sig), Entry(r.sig, r.loc), 0, advance, k);
      }
    }
  }

  lemma SameBucket(t: Table, t': Table, i: nat)
    requires i < BUC_NUM && forall l: nat | l < ELEM_NUM :: EntryAt(t, i, l) == EntryAt(t', i, l)
    ensures t[i] == t'[i]
  {
    forall l: nat | l < ELEM_NUM ensures t[i].sig[l] == t'[i].sig[l] && t[i].loc[l] == t'[i].loc[l] {
      assert EntryAt(t, i, l) == EntryAt(t', i, l);
    }
    assert t[i].sig == t'[i].sig && t[i].loc == t'[i].loc;
  }

  // ----- duplicate-free buckets ---------------------------------------------

  lemma PutUnique(t: Table, i: nat, l: nat, e: Entry)
    requires i < BUC_NUM && l < ELEM_NUM && AllUnique(t)
    requires forall k: nat | k < ELEM_NUM && k != l :: t[i].sig[k] != e.sig
    ensures AllUnique(PutAt(t, i, l, e))
  {
    assert UniqueSigs(t[i]);
    assert UniqueSigs(Put(t[i], l, e));
    forall j: nat | j < BUC_NUM ensures UniqueSigs(PutAt(t, i, l, e)[j]) {
      if j != i {
        assert UniqueSigs(t[j]);
      }
    }
  }

  lemma {:induction false} ChainUnique(t: Table, hash: Word, major: nat, e: Entry, n: nat, advance: bool)
    requires major < ELEM_NUM && n <= MAX_CUCKOO_NUM && e.sig != 0 && AllUnique(t)
    ensures AllUnique(Chain(t, hash, major, e, n, advance).table)
    decreases MAX_CUCKOO_NUM - n
  {
    hide Alt, MatchLane, EmptyLane, PutAt;
    var i := Alt(hash, e.sig);
    var b := t[i];
    assert UniqueSigs(b);
    match MatchLane(b, e.sig)
    case Some(l) => PutUnique(t, i, l, e);
    case None =>
      match EmptyLane(b, major)
      case Some(l) => PutUnique(t, i, l, e);
      case None =>
        PutUnique(t, i, major, e);
        if n < MAX_CUCKOO_NUM {
          ChainUnique(PutAt(t, i, major, e), if advance then i else hash, major, EntryAt(t, i, major), n + 1, advance);
        }
  }

  lemma InsertUnique(t: Table, r: Elem, advance: bool)
    requires r.sig != 0 && AllUnique(t)
    ensures AllUnique(Insert(t, r, advance).table)
  {
    var e, i := Entry(r.sig, r.loc), Home(r.hash);
    assert UniqueSigs(t[i]);
    match MatchLane(t[i], r.sig)
    case Some(l) => PutUnique(t, i, l, e);
    case None =>
      match EmptyLane(t[i], Major(r.sig))
      case Some(l) => PutUnique(t, i, l, e);
      case None => ChainUnique(t, r.hash, Major(r.sig), e, 0, advance);
  }

  lemma UniqueAt(t: Table, i: nat)
    requires AllUnique(t) && i < BUC_NUM
    ensures UniqueSigs(t[i])
  {
  }

  lemma ClearUnique(b: Bucket, e: Entry)
    requires UniqueSigs(b)
    ensures UniqueSigs(ClearBucket(b, e))
  {
    var c := ClearBucket(b, e);
    forall k: nat, l: nat | k < l < ELEM_NUM && c.sig[k] == c.sig[l] ensures c.sig[k] == 0 {
    }
  }

  lemma DeleteUnique(t: Table, r: Elem)
    requires AllUnique(t)
    ensures AllUnique(Delete(t, r))
  {
    var e := Entry(r.sig, r.loc);
    forall i: nat | i < BUC_NUM ensures UniqueSigs(Delete(t, r)[i]) {
      assert UniqueSigs(t[i]);
      ClearUnique(t[i], e);
    }
  }

  // ----- runs ---------------------------------------------------------------

  datatype Op = Ins(elem: Elem) | Del(elem: Elem)

  function Step(t: Table, op: Op, advance: bool): Table
  {
    match op
    case Ins(r) => Insert(t, r, advance).table
    case Del(r) => Delete(t, r)
  }

  function Run(t: Table, ops: seq<Op>, advance: bool): Table
  {
    if ops == [] then t else Step(Run(t, ops[..|ops| - 1], advance), ops[|ops| - 1], advance)
  }

  lemma {:induction false} RunAppend(t: Table, a: seq<Op>, b: seq<Op>, advance: bool)
    ensures Run(t, a + b, advance) == Run(Run(t, a, advance), b, advance)
  {
    hide Step;
    if b == [] {
      assert a + b == a;
    } else {
      var n := |b| - 1;
      assert (a + b)[..|a| + n] == a + b[..n];
      RunAppend(t, a, b[..n], advance);
    }
  }

  /** Inserts carry a nonzero signature. */
  ghost predicate Clean(ops: seq<Op>)
  {
    forall k: nat | k < |ops| && ops[k].Ins? :: ops[k].elem.sig != 0
  }

  /** No run ever puts one signature into a bucket twice. */
  lemma {:induction false} RunUnique(t: Table, ops: seq<Op>, advance: bool)
    requires AllUnique(t) && Clean(ops)
    ensures AllUnique(Run(t, ops, advance))
  {
    if ops != [] {
      var n := |ops| - 1;
      RunUnique(t, ops[..n], advance);
      match ops[n]
      case Ins(r) => InsertUnique(Run(t, ops[..n], advance), r, advance);
      case Del(r) => DeleteUnique(Run(t, ops[..n], advance), r);
    }
  }

  // ----- searching ----------------------------------------------------------

  /** r is what some matching lane wrote, or the initial 0 when no lane matched. */
  ghost predicate LaneWrites(b: Bucket, sig: Word, r: Word)
  {
    if MatchLane(b, sig).None? then r == 0
    else exists l: nat :: l < ELEM_NUM && b.sig[l] == sig && b.loc[l] == r
  }

  /** In a duplicate-free bucket the racing lanes can only write the map's answer. */
  lemma SearchIsLookup(b: Bucket, sig: Word, r: Word)
    requires UniqueSigs(b) && sig != 0
    ensures LaneWrites(b, sig, r) <==> r == Lookup(b, sig)
  {
    var m := MatchLane(b, sig);
    if m.Some? {
      assert sig in b.sig;
      forall l: nat | l < ELEM_NUM && b.sig[l] == sig ensures l == m.value {
      }
    }
  }

  /** The map of a duplicate-free bucket holds exactly the live slots. */
  lemma BucketMapItems(b: Bucket, e: Entry)
    requires UniqueSigs(b) && e.sig != 0
    ensures Holds(b, e) <==> (e.sig in BucketMap(b) && BucketMap(b)[e.sig] == e.loc)
  {
    var m := MatchLane(b, e.sig);
    if m.Some? {
      assert e.sig in b.sig;
      forall l: nat | l < ELEM_NUM && b.sig[l] == e.sig ensures l == m.value {
      }
    }
  }

  ghost predicate Found(t: Table, sig: Word, hash: Word, loc: Word)
  {
    Lookup(t[Home(hash)], sig) == loc || Lookup(t[Alt(hash, sig)], sig) == loc
  }

  /** A deleted entry is found afterwards exactly when both candidate buckets had held it. */
  lemma DeletedIsGone(t: Table, r: Elem)
    requires AllUnique(t) && r.sig != 0 && r.loc != 0
    ensures var e := Entry(r.sig, r.loc);
            Found(Delete(t, r), r.sig, r.hash, r.loc) <==>
            (Home(r.hash) != Alt(r.hash, r.sig) && Holds(t[Home(r.hash)], e) && Holds(t[Alt(r.hash, r.sig)], e))
  {
    var e := Entry(r.sig, r.loc);
    var t' := Delete(t, r);
    var i, j := Home(r.hash), Alt(r.hash, r.sig);
    assert UniqueSigs(t[i]) && UniqueSigs(t[j]);
    DeleteUnique(t, r);
    assert UniqueSigs(t'[i]) && UniqueSigs(t'[j]);
    BucketMapItems(t[i], e);
    BucketMapItems(t[j], e);
    BucketMapItems(t'[i], e);
    BucketMapItems(t'[j], e);
    ClearedIsGone(t[i], e);
    ClearedIsGone(t[j], e);
  }

  lemma ClearedIsGone(b: Bucket, e: Entry)
    requires e.sig != 0
    ensures !Holds(ClearBucket(b, e), e)
  {
  }
}
