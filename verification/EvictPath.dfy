/**
 From a SET to the eviction of its item: the delete job queued for the item names the
 very entry that the SET has put into the index.
 */
module EvictPath {
  import opened Wire
  import PacketSpec
  import opened GpuHash
  import opened CuckooSpec
  import opened CuckooLaws
  import opened CuckooNewEntry
  import opened ItemStore

  /** The evictor reads signature and hash from the first two words of the item's key. */
  function WordsOf(key: seq<Byte>): KeyWords
    requires |key| >= 8
  {
    KeyWords(Get32(key, 0), Get32(key, 4))
  }

  /** What the receiver hands to the insert kernel for a SET whose item has this location. */
  function InsertElem(r: PacketSpec.Request, loc: Word): Elem
    requires r.Insert?
  {
    Elem(r.sig, r.hash, loc)
  }

  /** The job for item number k of those evicted. */
  lemma JobNamesEntry(key: seq<Byte>, value: seq<Byte>, locs: seq<nat>, keyOf: nat -> KeyWords, k: nat)
    requires |key| >= 8 && k < |locs| && locs[k] < 0x1_0000_0000 && keyOf(locs[k]) == WordsOf(key)
    ensures var job := Jobs(locs, keyOf)[k];
            && job.sig < 0x1_0000_0000 && job.hash < 0x1_0000_0000 && job.loc < 0x1_0000_0000
            && Elem(job.sig, job.hash, job.loc) == InsertElem(PacketSpec.RequestOf(PacketSpec.Set(key, value)), locs[k])
  {
    hide Get32;
  }

  /** A new key's entry, inserted and then deleted by the job of its item, is gone. */
  lemma EvictedIsGone(t: Table, key: seq<Byte>, value: seq<Byte>, locs: seq<nat>, keyOf: nat -> KeyWords, k: nat)
    requires |key| >= 8 && k < |locs| && 0 < locs[k] < 0x1_0000_0000 && keyOf(locs[k]) == WordsOf(key)
    requires var r := InsertElem(PacketSpec.RequestOf(PacketSpec.Set(key, value)), locs[k]);
             AllUnique(t) && r.sig != 0 && r.sig !in t[Home(r.hash)].sig && r.sig !in t[Alt(r.hash, r.sig)].sig
    ensures var r, job := InsertElem(PacketSpec.RequestOf(PacketSpec.Set(key, value)), locs[k]), Jobs(locs, keyOf)[k];
            && job.sig < 0x1_0000_0000 && job.hash < 0x1_0000_0000 && job.loc < 0x1_0000_0000
            && !Found(Delete(Insert(t, r, false).table, Elem(job.sig, job.hash, job.loc)), r.sig, r.hash, r.loc)
  {
    hide Get32, Insert, Delete, Found, AllUnique, Holds;
    JobNamesEntry(key, value, locs, keyOf, k);
    var r := InsertElem(PacketSpec.RequestOf(PacketSpec.Set(key, value)), locs[k]);
    InsertUnique(t, r, false);
    OneBucketOnly(t, r);
    DeletedIsGone(Insert(t, r, false).table, r);
  }

  /** A new key does not get into both its buckets. */
  lemma OneBucketOnly(t: Table, r: Elem)
    requires r.sig != 0 && r.sig !in t[Home(r.hash)].sig && r.sig !in t[Alt(r.hash, r.sig)].sig
    ensures var t', e := Insert(t, r, false).table, Entry(r.sig, r.loc);
            Home(r.hash) != Alt(r.hash, r.sig) ==> !Holds(t'[Home(r.hash)], e) || !Holds(t'[Alt(r.hash, r.sig)], e)
  {
    hide Home, Alt, Chain, EmptyLane;
    var i, j := Home(r.hash), Alt(r.hash, r.sig);
    if i != j {
      assert MatchLane(t[i], r.sig).None?;
      if EmptyLane(t[i], Major(r.sig)).None? {
        ChainElsewhere(t, r.hash, Major(r.sig), Entry(r.sig, r.loc), 0, r.sig, i);
      }
    }
  }
}
