/**
 The cuckoo index as a function on table values: what one search, insert or
 delete does when one group of eight lanes works alone.  The flag `advance`
 selects between the displacement chain of the source (`false`), which keeps
 the hash of the inserted element for every victim, and the repaired chain
 (`true`), which moves the hash on to the bucket just left.
 */
module CuckooSpec {
  import opened Bits
  import opened GpuHash
  import opened Wrappers

  type Lanes = s: seq<Word> | |s| == ELEM_NUM ghost witness seq(ELEM_NUM, _ => 0)

  datatype Bucket = Bucket(sig: Lanes, loc: Lanes)

  type Table = t: seq<Bucket> | |t| == BUC_NUM
    ghost witness seq(BUC_NUM, _ => Bucket(seq(ELEM_NUM, _ => 0), seq(ELEM_NUM, _ => 0)))

  /** What a slot stores: an empty slot is one whose signature is 0. */
  datatype Entry = Entry(sig: Word, loc: Word)

  /** An insert or delete request. */
  datatype Elem = Elem(sig: Word, hash: Word, loc: Word)

  /** The first lane in lo..hi holding x. */
  function FirstLane(s: Lanes, x: Word, lo: nat, hi: nat): (r: Option<nat>)
    requires lo <= hi <= ELEM_NUM
    ensures r.Some? ==> lo <= r.value < hi && s[r.value] == x
    ensures forall k: nat | lo <= k < (if r.Some? then r.value else hi) :: s[k] != x
    decreases hi - lo
  {
    if lo == hi then None
    else if s[lo] == x then Some(lo)
    else FirstLane(s, x, lo + 1, hi)
  }

  function MatchLane(b: Bucket, sig: Word): (r: Option<nat>)
    ensures r.Some? ==> r.value < ELEM_NUM && b.sig[r.value] == sig
    ensures r.None? <==> forall k: nat | k < ELEM_NUM :: b.sig[k] != sig
  {
    FirstLane(b.sig, sig, 0, ELEM_NUM)
  }

  /** The lane a full bucket gives up, and where the search for an empty lane starts. */
  function Major(sig: Word): (l: nat)
    ensures l < ELEM_NUM
  {
    AndBound(sig, Ones(3));
    And(sig, Ones(3))
  }

  lemma MajorIsMod(w: Word)
    ensures Major(w) == w % ELEM_NUM
  {
    hide And, Ones;
    var h := w / 2;
    var q := h / 2;
    LowDigits(w, 2);
    LowDigits(h, 1);
    LowDigits(q, 0);
    ThreeDigits(w);
  }

  lemma ThreeDigits(w: nat)
    ensures w % 8 == 2 * (2 * ((w / 2 / 2) % 2) + (w / 2) % 2) + w % 2
  {
  }

  lemma LowDigits(w: nat, n: nat)
    ensures And(w, Ones(n + 1)) == 2 * And(w / 2, Ones(n)) + w % 2
    ensures n == 0 ==> And(w / 2, Ones(n)) == 0
  {
    assert Ones(n + 1) == 2 * Ones(n) + 1;
    AndBound(w / 2, Ones(n));
  }

  /** The first empty lane from `major` on, wrapping around. */
  function EmptyLane(b: Bucket, major: nat): (r: Option<nat>)
    requires major < ELEM_NUM
    ensures r.Some? ==> r.value < ELEM_NUM && b.sig[r.value] == 0
    ensures r.None? <==> forall k: nat | k < ELEM_NUM :: b.sig[k] != 0
  {
    match FirstLane(b.sig, 0, major, ELEM_NUM)
    case Some(l) => Some(l)
    case None => FirstLane(b.sig, 0, 0, major)
  }

  function Put(b: Bucket, l: nat, e: Entry): (r: Bucket)
    requires l < ELEM_NUM
  {
    Bucket(b.sig[l := e.sig], b.loc[l := e.loc])
  }

  datatype Loss =
    | NoLoss
    | Overwritten(entry: Entry) // its location was replaced under the same signature
    | Exhausted(entry: Entry)   // the chain gave up on it

  datatype Write = Write(bucket: nat, lane: nat, entry: Entry)

  datatype Outcome = Outcome(table: Table, loss: Loss, writes: seq<Write>)

  function PutAt(t: Table, i: nat, l: nat, e: Entry): (r: Table)
    requires i < BUC_NUM && l < ELEM_NUM
  {
    t[i := Put(t[i], l, e)]
  }

  function EntryAt(t: Table, i: nat, l: nat): Entry
    requires i < BUC_NUM && l < ELEM_NUM
  {
    Entry(t[i].sig[l], t[i].loc[l])
  }

  /**
   The second-bucket part of an insert: `e` is the entry in hand, `major` the
   lane fixed by the inserted signature, `n` the number of displacements made.
   */
  function Chain(t: Table, hash: Word, major: nat, e: Entry, n: nat, advance: bool): (o: Outcome)
    requires major < ELEM_NUM && n <= MAX_CUCKOO_NUM
    decreases MAX_CUCKOO_NUM - n
  {
    var i := Alt(hash, e.sig);
    match MatchLane(t[i], e.sig)
    case Some(l) =>
      Outcome(PutAt(t, i, l, e), Overwritten(EntryAt(t, i, l)), [Write(i, l, e)])
    case None =>
      match EmptyLane(t[i], major)
      case Some(l) =>
        Outcome(PutAt(t, i, l, e), NoLoss, [Write(i, l, e)])
      case None =>
        var victim := EntryAt(t, i, major);
        var t' := PutAt(t, i, major, e);
        if n < MAX_CUCKOO_NUM then
          var rest := Chain(t', if advance then i else hash, major, victim, n + 1, advance);
          Outcome(rest.table, rest.loss, [Write(i, major, e)] + rest.writes)
        else
          Outcome(t', Exhausted(victim), [Write(i, major, e)])
  }

  /** The home bucket is tried first; a request of all zeros is skipped. */
  function Insert(t: Table, r: Elem, advance: bool): (o: Outcome)
  {
    if r.sig == 0 && r.loc == 0 then Outcome(t, NoLoss, [])
    else
      var e, i := Entry(r.sig, r.loc), Home(r.hash);
      match MatchLane(t[i], r.sig)
      case Some(l) =>
        Outcome(PutAt(t, i, l, e), Overwritten(EntryAt(t, i, l)), [Write(i, l, e)])
      case None =>
        match EmptyLane(t[i], Major(r.sig))
        case Some(l) => Outcome(PutAt(t, i, l, e), NoLoss, [Write(i, l, e)])
        case None => Chain(t, r.hash, Major(r.sig), e, 0, advance)
  }

  /** Every lane holding exactly this entry is emptied; its location stays behind. */
  function ClearBucket(b: Bucket, e: Entry): (r: Bucket)
    ensures r.loc == b.loc
    ensures forall l: nat | l < ELEM_NUM ::
              r.sig[l] == if b.sig[l] == e.sig && b.loc[l] == e.loc then 0 else b.sig[l]
  {
    Bucket(seq(ELEM_NUM, l requires 0 <= l < ELEM_NUM =>
      if b.sig[l] == e.sig && b.loc[l] == e.loc then 0 else b.sig[l]), b.loc)
  }

  predicate Holds(b: Bucket, e: Entry)
  {
    exists l: nat | l < ELEM_NUM :: b.sig[l] == e.sig && b.loc[l] == e.loc
  }

  /** The second bucket is cleared only when the first did not hold the entry. */
  function Delete(t: Table, r: Elem): (t': Table)
  {
    var e, i := Entry(r.sig, r.loc), Home(r.hash);
    if Holds(t[i], e) then t[i := ClearBucket(t[i], e)]
    else
      var j := Alt(r.hash, r.sig);
      t[j := ClearBucket(t[j], e)]
  }

  // ----- one bucket as a map ------------------------------------------------

  ghost predicate UniqueSigs(b: Bucket)
  {
    forall k: nat, l: nat | k < l < ELEM_NUM :: b.sig[k] == b.sig[l] ==> b.sig[k] == 0
  }

  ghost predicate AllUnique(t: Table)
  {
    forall i: nat | i < BUC_NUM :: UniqueSigs(t[i])
  }

  /** The abstract content of a bucket. */
  ghost function BucketMap(b: Bucket): map<Word, Word>
  {
    map s: Word | s in b.sig && s != 0 :: b.loc[MatchLane(b, s).value]
  }

  /** 0 stands for "not found". */
  ghost function Lookup(b: Bucket, sig: Word): Word
  {
    if sig in BucketMap(b) then BucketMap(b)[sig] else 0
  }
}
