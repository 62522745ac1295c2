/**
 A GET from the index to the reply: what the two search results of a request come to,
 said by what the two candidate buckets of its key hold.
 */
module GetPath {
  import opened GpuHash
  import opened CuckooSpec
  import opened CuckooLaws
  import opened CuckooNewEntry
  import opened ReplySpec

  /** What the search kernel leaves: for each query two results, by the lanes of its two buckets. */
  ghost predicate Searched(t: Table, out: seq<Word>, sigs: seq<Word>, hashes: seq<Word>)
  {
    && |hashes| == |sigs| && |out| == 2 * |sigs|
    && forall k: nat | k < |sigs| :: SearchedAt(t, out, k, sigs[k], hashes[k])
  }

  ghost predicate SearchedAt(t: Table, out: seq<Word>, k: nat, sig: Word, hash: Word)
    requires 2 * k + 1 < |out|
  {
    LaneWrites(t[Home(hash)], sig, out[2 * k]) && LaneWrites(t[Alt(hash, sig)], sig, out[2 * k + 1])
  }

  ghost predicate SmallValues(items: nat -> Item)
  {
    forall l: nat :: |items(l).value| < 0x1_0000_0000
  }

  /** The item the index names for the key, or a miss. */
  ghost function AnswerTo(t: Table, sig: Word, hash: Word, items: nat -> Item): Reply
    requires SmallValues(items)
  {
    var loc := Reported(t, sig, hash);
    if loc == 0 then NotFound() else ReplySpec.Found(items(loc))
  }

  /** In a duplicate-free index the sender's choice between the two results is that item. */
  lemma ReplyIsAnswer(t: Table, out: seq<Word>, k: nat, sig: Word, hash: Word, items: nat -> Item)
    requires SmallValues(items) && AllUnique(t) && sig != 0
    requires 2 * k + 1 < |out| && SearchedAt(t, out, k, sig, hash)
    ensures ReplyTo(out, k, items) == AnswerTo(t, sig, hash, items)
  {
    hide Home, Alt, LaneWrites, Lookup, ReplySpec.Found;
    UniqueAt(t, Home(hash));
    UniqueAt(t, Alt(hash, sig));
    SearchIsLookup(t[Home(hash)], sig, out[2 * k]);
    SearchIsLookup(t[Alt(hash, sig)], sig, out[2 * k + 1]);
  }

  /**
   An entry in the home bucket, or in the second one while the home bucket does not hold
   the signature, is answered with its item.
   */
  lemma HeldIsFound(t: Table, sig: Word, hash: Word, loc: Word, items: nat -> Item)
    requires SmallValues(items) && AllUnique(t) && sig != 0 && loc != 0
    requires Holds(t[Home(hash)], Entry(sig, loc)) ||
             (Holds(t[Alt(hash, sig)], Entry(sig, loc)) && sig !in t[Home(hash)].sig)
    ensures AnswerTo(t, sig, hash, items) == ReplySpec.Found(items(loc))
  {
    hide Home, Alt, Holds, Lookup, ReplySpec.Found;
    UniqueAt(t, Home(hash));
    UniqueAt(t, Alt(hash, sig));
    HeldLookup(t[Home(hash)], Entry(sig, loc));
    HeldLookup(t[Alt(hash, sig)], Entry(sig, loc));
    if !Holds(t[Home(hash)], Entry(sig, loc)) {
      AbsentLookup(t[Home(hash)], sig);
    }
  }

  /** A candidate bucket holds the signature with a location. */
  ghost predicate Listed(b: Bucket, sig: Word)
  {
    exists loc: Word :: loc != 0 && Holds(b, Entry(sig, loc))
  }

  /** A request is missed exactly when neither candidate bucket holds its signature with a location. */
  lemma MissIff(t: Table, sig: Word, hash: Word, items: nat -> Item)
    requires SmallValues(items) && AllUnique(t) && sig != 0
    ensures AnswerTo(t, sig, hash, items) == NotFound() <==>
            !Listed(t[Home(hash)], sig) && !Listed(t[Alt(hash, sig)], sig)
    ensures AnswerTo(t, sig, hash, items).hit <==> AnswerTo(t, sig, hash, items) != NotFound()
  {
    hide Home, Alt, Lookup, Listed;
    UniqueAt(t, Home(hash));
    UniqueAt(t, Alt(hash, sig));
    ListedLookup(t[Home(hash)], sig);
    ListedLookup(t[Alt(hash, sig)], sig);
  }

  lemma ListedLookup(b: Bucket, sig: Word)
    requires UniqueSigs(b) && sig != 0
    ensures Listed(b, sig) <==> Lookup(b, sig) != 0
  {
    hide Lookup, Holds;
    if Listed(b, sig) {
      var loc: Word :| loc != 0 && Holds(b, Entry(sig, loc));
      HeldLookup(b, Entry(sig, loc));
    }
    if Lookup(b, sig) != 0 {
      HeldLookup(b, Entry(sig, Lookup(b, sig)));
    }
  }
}
