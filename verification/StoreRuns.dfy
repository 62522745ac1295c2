/**
 Whole runs of BATCH_ALLOC by any number of workers on a new store: when memory
 becomes full, what is taken back from its users and when, and how many bytes the slabs
 have.
 */
module StoreRuns {
  import opened Wrappers
  import opened SlabSpec
  import opened FreeLists
  import opened ItemStore

  datatype Alloc = Alloc(key: Key, it: nat, evicted: seq<nat>)

  ghost predicate Runs(limit: nat, sizes: seq<nat>, keys: set<Key>, trace: seq<Stock>, allocs: seq<Alloc>)
  {
    && |sizes| == CLASSES && (forall key | key in keys :: key.cls < CLASSES)
    && |trace| == |allocs| + 1 && trace[0] == Stock(Start(keys), 0, false)
    && forall k: nat | k < |allocs| :: Follows(limit, sizes, trace, allocs, k)
  }

  /** Allocation k leads from stock k to stock k + 1. */
  ghost predicate Follows(limit: nat, sizes: seq<nat>, trace: seq<Stock>, allocs: seq<Alloc>, k: nat)
    requires |sizes| == CLASSES && |trace| == |allocs| + 1 && k < |allocs|
  {
    var a := allocs[k];
    a.key.cls < CLASSES && Allocates(limit, sizes[a.key.cls], a.key, trace[k], trace[k + 1], a.it, a.evicted)
  }

  // ----- one worker among many ----------------------------------------------

  lemma {:induction false} EvicteesInView(s: System, key: Key, offsets: seq<nat>)
    requires key in s.heads
    ensures Evictees(s, key, offsets) == Evictees(View(s, key), key, offsets)
  {
    hide Evictee, EvictAll;
    if offsets != [] {
      var n := |offsets| - 1;
      EvicteesInView(s, key, offsets[..n]);
      EvictAllInView(s, key, offsets[..n]);
    }
  }

  /** What a worker does on its own list it does to the whole system, the other lists staying as they are. */
  lemma AllocatesInView(limit: nat, size: nat, key: Key, s: Stock, v: Stock, it: nat, evicted: seq<nat>)
    requires key in s.sys.heads && key in v.sys.heads
    requires Allocates(limit, size, key, s.(sys := View(s.sys, key)), v, it, evicted)
    ensures Allocates(limit, size, key, s, v.(sys := Update(s.sys, key, v.sys)), it, evicted)
  {
    hide SlabRefused, EvictAll, Evictees, Step, InClass;
    var w := s.(sys := View(s.sys, key));
    var f: Stock :| Fills(limit, size, key, w, f, evicted) && TakesFirst(key, f, v, it);
    var filled := f.(sys := Update(s.sys, key, f.sys));
    if s.sys.heads[key].Some? {
      assert filled.sys == s.sys;
    } else if s.full || SlabRefused(limit, size, s.malloced, s.sys.m, key.cls) {
      var offsets: seq<nat> :| TakesBack(key, w.sys, f.sys, offsets, evicted);
      EvictAllInView(s.sys, key, offsets);
      EvicteesInView(s.sys, key, offsets);
      assert TakesBack(key, s.sys, filled.sys, offsets, evicted);
    } else {
      StepInView(s.sys, CarveFor(key));
    }
    StepInView(filled.sys, PopFor(key));
    OnlyKey(limit, size, key, w, f, evicted);
    assert View(filled.sys, key) == f.sys;
    assert TakesFirst(key, filled, v.(sys := Update(s.sys, key, v.sys)), it);
  }

  lemma OnlyKey(limit: nat, size: nat, key: Key, w: Stock, f: Stock, evicted: seq<nat>)
    requires key in w.sys.heads && w.sys.heads.Keys == {key} && key.cls < |w.sys.m.slabs|
    requires Fills(limit, size, key, w, f, evicted)
    ensures f.sys.heads.Keys == {key}
  {
    hide SlabRefused, EvictAll, Evictees, Carve, CarvedHead, InClass;
  }

  // ----- sound lists --------------------------------------------------------

  lemma AllocatesKeeps(limit: nat, size: nat, key: Key, s: Stock, s': Stock, it: nat, evicted: seq<nat>, lists: Lists)
    returns (lists': Lists)
    requires Inv(s.sys, lists) && Allocates(limit, size, key, s, s', it, evicted)
    ensures Inv(s'.sys, lists') && s'.sys.heads.Keys == s.sys.heads.Keys
    ensures |s.sys.m.slabs| == CLASSES
    ensures s'.sys.m.slabs == if Carves(limit, size, key, s) then Carve(s.sys.m, key.cls).slabs else s.sys.m.slabs
  {
    hide Inv, EvictAll, Evictees, Step, Carve;
    var filled: Stock :| Fills(limit, size, key, s, filled, evicted) && TakesFirst(key, filled, s', it);
    var mid := lists;
    StepShape(s.sys, key);
    if s.sys.heads[key].Some? {
    } else if s.full || SlabRefused(limit, size, s.malloced, s.sys.m, key.cls) {
      var offsets: seq<nat> :| TakesBack(key, s.sys, filled.sys, offsets, evicted);
      mid := EvictAllKeeps(s.sys, lists, key, offsets);
    } else {
      mid := CarveKeeps(s.sys, lists, key);
    }
    PopShape(filled.sys, key);
    lists' := PopKeeps(filled.sys, mid, key);
    SoundSlabs(s.sys, lists);
  }

  lemma SoundSlabs(s: System, lists: Lists)
    requires Inv(s, lists)
    ensures |s.m.slabs| == CLASSES
  {
  }

  /** A new slab is carved: the list is empty, and no slab has been refused. */
  ghost predicate Carves(limit: nat, size: nat, key: Key, s: Stock)
    requires key in s.sys.heads && key.cls < |s.sys.m.slabs|
  {
    s.sys.heads[key].None? && !s.full && !SlabRefused(limit, size, s.malloced, s.sys.m, key.cls)
  }

  lemma StepShape(s: System, key: Key)
    requires key in s.heads && key.cls < |s.m.slabs|
    ensures var s' := Step(s, CarveFor(key)); s'.m == Carve(s.m, key.cls) && s'.heads.Keys == s.heads.Keys
  {
    hide Carve, CarvedHead;
  }

  lemma PopShape(s: System, key: Key)
    requires key in s.heads
    ensures var s' := Step(s, PopFor(key)); s'.m.slabs == s.m.slabs && s'.heads.Keys == s.heads.Keys
  {
  }

  lemma {:induction false} RunKeeps(limit: nat, sizes: seq<nat>, keys: set<Key>, trace: seq<Stock>,
                                    allocs: seq<Alloc>, k: nat) returns (lists: Lists)
    requires Runs(limit, sizes, keys, trace, allocs) && k <= |allocs|
    ensures Inv(trace[k].sys, lists)
  {
    hide Inv, Allocates;
    if k == 0 {
      lists := map key | key in keys :: [];
      StartInv(keys);
    } else {
      var before := RunKeeps(limit, sizes, keys, trace, allocs, k - 1);
      assert Follows(limit, sizes, trace, allocs, k - 1);
      var a := allocs[k - 1];
      lists := AllocatesKeeps(limit, sizes[a.key.cls], a.key, trace[k - 1], trace[k], a.it, a.evicted, before);
    }
  }

  // ----- when memory is full ------------------------------------------------

  /** Allocation k has found an empty list and no room for a slab. */
  ghost predicate RefusedAt(limit: nat, sizes: seq<nat>, trace: seq<Stock>, allocs: seq<Alloc>, k: nat)
    requires |sizes| == CLASSES && |trace| == |allocs| + 1 && k < |allocs|
  {
    var s, key := trace[k], allocs[k].key;
    && key in s.sys.heads && key.cls < |s.sys.m.slabs| && key.cls < CLASSES
    && s.sys.heads[key].None? && SlabRefused(limit, sizes[key.cls], s.malloced, s.sys.m, key.cls)
  }

  ghost predicate RefusedBefore(limit: nat, sizes: seq<nat>, trace: seq<Stock>, allocs: seq<Alloc>, k: nat)
    requires |sizes| == CLASSES && |trace| == |allocs| + 1 && k <= |allocs|
  {
    exists j: nat :: j < k && RefusedAt(limit, sizes, trace, allocs, j)
  }

  lemma RefusedNext(limit: nat, sizes: seq<nat>, trace: seq<Stock>, allocs: seq<Alloc>, k: nat)
    requires |sizes| == CLASSES && |trace| == |allocs| + 1 && k < |allocs|
    ensures RefusedBefore(limit, sizes, trace, allocs, k + 1) <==>
            RefusedBefore(limit, sizes, trace, allocs, k) || RefusedAt(limit, sizes, trace, allocs, k)
  {
    hide RefusedAt;
  }

  /** How one allocation changes whether memory is full. */
  lemma AllocatesFull(limit: nat, size: nat, key: Key, s: Stock, s': Stock, it: nat, evicted: seq<nat>)
    requires Allocates(limit, size, key, s, s', it, evicted)
    ensures s'.full <==>
            s.full || (s.sys.heads[key].None? && SlabRefused(limit, size, s.malloced, s.sys.m, key.cls))
    ensures !s'.full || s.sys.heads[key].Some? ==> evicted == []
    ensures s'.malloced == if Carves(limit, size, key, s) then s.malloced + size * PERSLAB else s.malloced
  {
    hide SlabRefused, Step, EvictAll, Evictees;
  }

  /**
   Memory is full exactly when a slab has been refused to somebody with an empty list;
   before that nothing has ever been taken back.
   */
  lemma {:induction false} FullIff(limit: nat, sizes: seq<nat>, keys: set<Key>, trace: seq<Stock>,
                                   allocs: seq<Alloc>, k: nat)
    requires Runs(limit, sizes, keys, trace, allocs) && k <= |allocs|
    ensures trace[k].full <==> RefusedBefore(limit, sizes, trace, allocs, k)
    ensures !trace[k].full ==> forall j: nat | j < k :: allocs[j].evicted == []
  {
    hide Allocates, RefusedBefore, SlabRefused;
    if k == 0 {
      NobodyBefore(limit, sizes, trace, allocs);
    } else {
      FullIff(limit, sizes, keys, trace, allocs, k - 1);
      assert Follows(limit, sizes, trace, allocs, k - 1);
      var a := allocs[k - 1];
      AllocatesHas(limit, sizes[a.key.cls], a.key, trace[k - 1], trace[k], a.it, a.evicted);
      AllocatesFull(limit, sizes[a.key.cls], a.key, trace[k - 1], trace[k], a.it, a.evicted);
      RefusedNext(limit, sizes, trace, allocs, k - 1);
    }
  }

  lemma NobodyBefore(limit: nat, sizes: seq<nat>, trace: seq<Stock>, allocs: seq<Alloc>)
    requires |sizes| == CLASSES && |trace| == |allocs| + 1
    ensures !RefusedBefore(limit, sizes, trace, allocs, 0)
  {
  }

  lemma AllocatesHas(limit: nat, size: nat, key: Key, s: Stock, s': Stock, it: nat, evicted: seq<nat>)
    requires Allocates(limit, size, key, s, s', it, evicted)
    ensures key in s.sys.heads && key.cls < |s.sys.m.slabs|
  {
  }

  // ----- items in use -------------------------------------------------------

  predicate InUse(m: Mem, loc: nat)
  {
    loc in m.flags && m.flags[loc] == IN_USE
  }

  /** The item handed out was free; without eviction all others in use stay so. */
  lemma AllocatesUse(limit: nat, size: nat, key: Key, s: Stock, s': Stock, it: nat, evicted: seq<nat>, lists: Lists)
    requires Inv(s.sys, lists) && Allocates(limit, size, key, s, s', it, evicted)
    ensures InUse(s'.sys.m, it)
    ensures !s'.full ==> !InUse(s.sys.m, it) && forall loc | InUse(s.sys.m, loc) :: InUse(s'.sys.m, loc)
  {
    hide Inv, EvictAll, Evictees, Carve, CarvedHead, Chain;
    var filled: Stock :| Fills(limit, size, key, s, filled, evicted) && TakesFirst(key, filled, s', it);
    if !s'.full {
      var mid := lists;
      if s.sys.heads[key].None? {
        mid := CarveKeeps(s.sys, lists, key);
        forall loc | InUse(s.sys.m, loc) ensures InUse(filled.sys.m, loc) {
          SoundCarved(s.sys, lists);
          CarveLeaves(s.sys.m, key.cls, loc);
        }
      }
      var after := PopKeeps(filled.sys, mid, key);
    }
  }

  lemma SoundCarved(s: System, lists: Lists)
    requires Inv(s, lists)
    ensures Carved(s.m)
  {
  }

  lemma CarveLeaves(m: Mem, cls: nat, loc: nat)
    requires Carved(m) && Carvable(m, cls) && loc in m.flags
    ensures loc in Carve(m, cls).flags && Carve(m, cls).flags[loc] == m.flags[loc]
  {
    hide Carved, NewLocs;
    if loc in NewLocs(m, cls) {
      NewIsNew(m, cls, loc);
    }
  }

  /** Until a slab has been refused, an item once handed out stays in use, and is not handed out again. */
  lemma {:induction false} StaysAllocated(limit: nat, sizes: seq<nat>, keys: set<Key>, trace: seq<Stock>,
                                          allocs: seq<Alloc>, j: nat, k: nat)
    requires Runs(limit, sizes, keys, trace, allocs) && j < k <= |allocs|
    requires !RefusedBefore(limit, sizes, trace, allocs, k)
    ensures InUse(trace[k].sys.m, allocs[j].it)
    ensures k < |allocs| && !RefusedBefore(limit, sizes, trace, allocs, k + 1) ==> allocs[k].it != allocs[j].it
  {
    hide Allocates, RefusedBefore, Inv;
    var before := RunKeeps(limit, sizes, keys, trace, allocs, k - 1);
    FullIff(limit, sizes, keys, trace, allocs, k);
    assert Follows(limit, sizes, trace, allocs, k - 1);
    var a := allocs[k - 1];
    AllocatesUse(limit, sizes[a.key.cls], a.key, trace[k - 1], trace[k], a.it, a.evicted, before);
    if j < k - 1 {
      RefusedNext(limit, sizes, trace, allocs, k - 1);
      StaysAllocated(limit, sizes, keys, trace, allocs, j, k - 1);
    }
    if k < |allocs| && !RefusedBefore(limit, sizes, trace, allocs, k + 1) {
      var lists := RunKeeps(limit, sizes, keys, trace, allocs, k);
      FullIff(limit, sizes, keys, trace, allocs, k + 1);
      assert Follows(limit, sizes, trace, allocs, k);
      var b := allocs[k];
      AllocatesUse(limit, sizes[b.key.cls], b.key, trace[k], trace[k + 1], b.it, b.evicted, lists);
    }
  }

  // ----- bytes --------------------------------------------------------------

  /** All bytes in slabs of the first n classes. */
  function SlabBytes(sizes: seq<nat>, slabs: seq<nat>, n: nat): nat
    requires n <= |sizes| == |slabs|
  {
    if n == 0 then 0 else SlabBytes(sizes, slabs, n - 1) + sizes[n - 1] * PERSLAB * slabs[n - 1]
  }

  /** One slab for each of the first n classes that has any. */
  function FirstSlabs(sizes: seq<nat>, slabs: seq<nat>, n: nat): nat
    requires n <= |sizes| == |slabs|
  {
    if n == 0 then 0 else FirstSlabs(sizes, slabs, n - 1) + if slabs[n - 1] > 0 then sizes[n - 1] * PERSLAB else 0
  }

  lemma {:induction false} OneMoreSlab(sizes: seq<nat>, slabs: seq<nat>, c: nat, n: nat)
    requires n <= |sizes| == |slabs| && c < |slabs|
    ensures var slabs' := slabs[c := slabs[c] + 1]; var len := sizes[c] * PERSLAB;
            && SlabBytes(sizes, slabs', n) == SlabBytes(sizes, slabs, n) + (if c < n then len else 0)
            && FirstSlabs(sizes, slabs', n) == FirstSlabs(sizes, slabs, n) + (if c < n && slabs[c] == 0 then len else 0)
  {
    if n > 0 {
      OneMoreSlab(sizes, slabs, c, n - 1);
      if c == n - 1 {
        assert sizes[c] * PERSLAB * (slabs[c] + 1) == sizes[c] * PERSLAB * slabs[c] + sizes[c] * PERSLAB;
      }
    }
  }

  lemma {:induction false} NoSlabs(sizes: seq<nat>, slabs: seq<nat>, n: nat)
    requires n <= |sizes| == |slabs| && forall c | 0 <= c < |slabs| :: slabs[c] == 0
    ensures SlabBytes(sizes, slabs, n) == 0 == FirstSlabs(sizes, slabs, n)
  {
    if n > 0 { NoSlabs(sizes, slabs, n - 1); }
  }

  /**
   The bytes counted are those of the slabs, and they exceed the limit by no more than
   one slab for each class that has any.
   */
  lemma {:induction false} MemoryBound(limit: nat, sizes: seq<nat>, keys: set<Key>, trace: seq<Stock>,
                                       allocs: seq<Alloc>, k: nat)
    requires Runs(limit, sizes, keys, trace, allocs) && k <= |allocs|
    ensures |trace[k].sys.m.slabs| == CLASSES
    ensures trace[k].malloced == SlabBytes(sizes, trace[k].sys.m.slabs, CLASSES)
    ensures limit > 0 ==> trace[k].malloced <= limit + FirstSlabs(sizes, trace[k].sys.m.slabs, CLASSES)
  {
    hide Allocates, Inv, SlabBytes, FirstSlabs, Carve;
    if k == 0 {
      NoSlabs(sizes, trace[0].sys.m.slabs, CLASSES);
    } else {
      MemoryBound(limit, sizes, keys, trace, allocs, k - 1);
      var before := RunKeeps(limit, sizes, keys, trace, allocs, k - 1);
      assert Follows(limit, sizes, trace, allocs, k - 1);
      var s, s', a := trace[k - 1], trace[k], allocs[k - 1];
      AllocatesHas(limit, sizes[a.key.cls], a.key, s, s', a.it, a.evicted);
      AllocatesFull(limit, sizes[a.key.cls], a.key, s, s', a.it, a.evicted);
      var lists := AllocatesKeeps(limit, sizes[a.key.cls], a.key, s, s', a.it, a.evicted, before);
      if Carves(limit, sizes[a.key.cls], a.key, s) {
        SlabsAfterCarve(s.sys.m, a.key.cls);
        OneMoreSlab(sizes, s.sys.m.slabs, a.key.cls, CLASSES);
      }
    }
  }

  /**
   When a worker gets a new slab: its list is empty, none has been refused before, the
   slab fits into what the limit leaves or is the first of its class, and the class keeps
   below 2^28 items.
   */
  lemma GrowsIff(limit: nat, sizes: seq<nat>, keys: set<Key>, trace: seq<Stock>, allocs: seq<Alloc>, k: nat)
    requires Runs(limit, sizes, keys, trace, allocs) && k < |allocs|
    ensures var s, s', key := trace[k].sys, trace[k + 1].sys, allocs[k].key;
            && key in s.heads && |s.m.slabs| == CLASSES && key.cls < CLASSES
            && (s'.m.slabs != s.m.slabs <==>
                  && s.heads[key].None? && !RefusedBefore(limit, sizes, trace, allocs, k)
                  && (limit == 0 || s.m.slabs[key.cls] == 0 ||
                      SlabBytes(sizes, s.m.slabs, CLASSES) + 0x8000 * sizes[key.cls] <= limit)
                  && 0x8000 * (s.m.slabs[key.cls] + 1) < 0x1000_0000)
  {
    hide Allocates, Inv, SlabBytes, Carve, RefusedBefore;
    var lists := RunKeeps(limit, sizes, keys, trace, allocs, k);
    MemoryBound(limit, sizes, keys, trace, allocs, k);
    FullIff(limit, sizes, keys, trace, allocs, k);
    assert Follows(limit, sizes, trace, allocs, k);
    var s, s', a := trace[k], trace[k + 1], allocs[k];
    AllocatesHas(limit, sizes[a.key.cls], a.key, s, s', a.it, a.evicted);
    var lists' := AllocatesKeeps(limit, sizes[a.key.cls], a.key, s, s', a.it, a.evicted, lists);
    if Carves(limit, sizes[a.key.cls], a.key, s) {
      SlabsAfterCarve(s.sys.m, a.key.cls);
    }
  }
}
