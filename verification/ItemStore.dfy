/**
 The slab allocator and the batch evictor over the items' memory, updated in
 place and proved against the steps of module FreeLists.
 */
module ItemStore {
  import opened Wrappers
  import opened ClockSpec
  import opened ClockBitmap
  import opened SlabSpec
  import opened FreeLists

  /** The first two words of an item's key. */
  datatype KeyWords = KeyWords(sig: nat, hash: nat)

  datatype DeleteJob = DeleteJob(sig: nat, hash: nat, loc: nat)

  /** Evicting a list of offsets one after the other. */
  function EvictAll(s: System, key: Key, offsets: seq<nat>): (s': System)
    requires key in s.heads
    ensures s'.heads.Keys == s.heads.Keys
  {
    if offsets == [] then s
    else Step(EvictAll(s, key, offsets[..|offsets| - 1]), EvictFor(key, offsets[|offsets| - 1]))
  }

  /** The items among them that were in use at their turn, in that order. */
  function Evictees(s: System, key: Key, offsets: seq<nat>): (locs: seq<nat>)
    requires key in s.heads
  {
    if offsets == [] then []
    else
      var n := |offsets| - 1;
      var m := EvictAll(s, key, offsets[..n]).m;
      var loc := Evictee(key, offsets[n]);
      Evictees(s, key, offsets[..n]) + (if loc in m.flags && m.flags[loc] == IN_USE then [loc] else [])
  }

  function Jobs(locs: seq<nat>, keyOf: nat -> KeyWords): seq<DeleteJob>
  {
    seq(|locs|, k requires 0 <= k < |locs| => DeleteJob(keyOf(locs[k]).sig, keyOf(locs[k]).hash, locs[k]))
  }

  const ITEM_ALIGN_BYTES: nat := 8

  /** The next multiple of the alignment. */
  function Aligned(size: nat): (r: nat)
    ensures r % ITEM_ALIGN_BYTES == 0 && size <= r < size + ITEM_ALIGN_BYTES
  {
    if size % ITEM_ALIGN_BYTES == 0 then size else size + ITEM_ALIGN_BYTES - size % ITEM_ALIGN_BYTES
  }

  /** size *= factor, truncated. */
  function Scaled(size: nat, factor: real): (r: nat)
    requires factor >= 0.0
    ensures r as real <= size as real * factor < r as real + 1.0
  {
    (size as real * factor).Floor
  }

  /** A bitmap as it is before the first slab of its class. */
  ghost predicate Unused(b: Bitmap)
    reads b
  {
    b.Valid() && b.words.Length * BITSPERWORD == MAX_ELEM && b.currentSize == 0
  }

  // ----- one allocation -----------------------------------------------------

  /** The lists and items, the bytes in slabs, and whether memory counts as full. */
  datatype Stock = Stock(sys: System, malloced: nat, full: bool)

  /** No slab of chunks of this size any more: over the limit with one slab there, or the bitmap at its cap. */
  ghost predicate SlabRefused(limit: nat, size: nat, malloced: nat, m: Mem, cls: nat)
    requires cls < |m.slabs|
  {
    (limit > 0 && malloced + size * PERSLAB > limit && m.slabs[cls] > 0) || !Carvable(m, cls)
  }

  /**
   The list of the key before an item is taken from it: as it is, filled up by one new
   slab, or, once a slab has been refused, by the items taken back from their users.
   */
  ghost predicate Fills(limit: nat, size: nat, key: Key, s: Stock, filled: Stock, evicted: seq<nat>)
    requires key in s.sys.heads && key.cls < |s.sys.m.slabs|
  {
    if s.sys.heads[key].Some? then filled == s && evicted == []
    else if s.full || SlabRefused(limit, size, s.malloced, s.sys.m, key.cls) then
      && filled.full && filled.malloced == s.malloced
      && exists offsets: seq<nat> :: TakesBack(key, s.sys, filled.sys, offsets, evicted)
    else
      filled == Stock(Step(s.sys, CarveFor(key)), s.malloced + size * PERSLAB, false) && evicted == []
  }

  ghost predicate TakesBack(key: Key, s: System, s': System, offsets: seq<nat>, evicted: seq<nat>)
    requires key in s.heads
  {
    InClass(offsets, s.m, key.cls) && s' == EvictAll(s, key, offsets) && evicted == Evictees(s, key, offsets)
  }

  /** One BATCH_ALLOC for list `key` that hands out item it. */
  ghost predicate Allocates(limit: nat, size: nat, key: Key, s: Stock, s': Stock, it: nat, evicted: seq<nat>)
  {
    && key in s.sys.heads && key.cls < |s.sys.m.slabs|
    && exists filled: Stock :: Fills(limit, size, key, s, filled, evicted) && TakesFirst(key, filled, s', it)
  }

  ghost predicate TakesFirst(key: Key, filled: Stock, s': Stock, it: nat)
  {
    && key in filled.sys.heads && filled.sys.heads[key] == Some(it)
    && s' == Stock(Step(filled.sys, PopFor(key)), filled.malloced, filled.full)
  }

  /** The delete jobs of the buffer the receiver is filling. */
  class DeleteBuf {
    const deleteIn: array<DeleteJob>
    var num: nat

    constructor (max: nat)
      ensures num == 0 && deleteIn.Length == max && fresh(deleteIn)
    {
      deleteIn := new DeleteJob[max](_ => DeleteJob(0, 0, 0));
      num := 0;
    }
  }

  class Store {
    const sizes: seq<nat>
    const memLimit: nat
    const bitmaps: seq<Bitmap>
    var slabs: seq<nat>
    var flags: map<nat, nat>
    var next: map<nat, Option<nat>>
    var memMalloced: nat
    var memoryFull: bool

    function Memory(): Mem
      reads this
    {
      Mem(slabs, flags, next)
    }

    /** The store as the owner of one list sees it. */
    function Seen(key: Key, list: Option<nat>): Stock
      reads this
    {
      Stock(System(Memory(), map[key := list]), memMalloced, memoryFull)
    }

    ghost predicate Valid()
      reads this, bitmaps
    {
      && |sizes| == CLASSES && |bitmaps| == CLASSES
      && (forall i, j | 0 <= i < j < CLASSES :: bitmaps[i] != bitmaps[j] && bitmaps[i].words != bitmaps[j].words)
      && Carved(Memory())
      && forall c | 0 <= c < CLASSES ::
           bitmaps[c].Valid() && bitmaps[c].words.Length * BITSPERWORD == MAX_ELEM
           && bitmaps[c].currentSize * BITSPERWORD == PERSLAB * slabs[c]
    }

    /**
     slabs_init without preallocation: aligned chunk sizes that grow by `factor`,
     an empty bitmap for every class, no slab yet.  `size0` is the size of an item
     header with the smallest key and value.
     */
    constructor (limit: nat, factor: real, size0: nat)
      requires factor >= 0.0
      ensures Valid() && !memoryFull && memMalloced == 0 && memLimit == limit
      ensures forall keys | forall key: Key | key in keys :: key.cls < CLASSES :: Memory() == Start(keys).m
      ensures forall i | 0 <= i < CLASSES :: fresh(bitmaps[i]) && fresh(bitmaps[i].words) && bitmaps[i].currentSize == 0
      ensures sizes[0] == Aligned(size0) && forall i | 0 < i < CLASSES ::
              sizes[i] == Aligned(Scaled(sizes[i - 1], factor))
    {
      var size: nat, ss: seq<nat>, bs: seq<Bitmap> := size0, [], [];
      for i := 0 to CLASSES
        invariant |ss| == |bs| == i
        invariant i == 0 ==> size == size0
        invariant i > 0 ==> ss[0] == Aligned(size0) && size == Scaled(ss[i - 1], factor)
        invariant forall k | 0 < k < i :: ss[k] == Aligned(Scaled(ss[k - 1], factor))
        invariant forall k | 0 <= k < i :: fresh(bs[k]) && fresh(bs[k].words) && Unused(bs[k])
        invariant forall j, k | 0 <= j < k < i :: bs[j] != bs[k] && bs[j].words != bs[k].words
      {
        if size % ITEM_ALIGN_BYTES != 0 {
          size := size + ITEM_ALIGN_BYTES - size % ITEM_ALIGN_BYTES;
        }
        var b := new Bitmap(MAX_ELEM);
        ss, bs := ss + [size], bs + [b];
        size := Scaled(size, factor);
      }
      sizes, memLimit, bitmaps := ss, limit, bs;
      slabs, flags, next := seq(CLASSES, _ => 0), map[], map[];
      memMalloced, memoryFull := 0, false;
    }

    /**
     do_slabs_alloc_batch: refused by the memory limit, unless this is the first
     slab of its class, or by the cap of the bitmap.
     */
    method AllocBatch(id: nat) returns (head: Option<nat>)
      requires Valid() && id < CLASSES
      modifies this, bitmaps[id]
      ensures Valid()
      ensures |old(slabs)| == CLASSES
      ensures head.None? <==> SlabRefused(memLimit, sizes[id], old(memMalloced), old(Memory()), id)
      ensures head.None? ==> memoryFull && Memory() == old(Memory()) && memMalloced == old(memMalloced)
      ensures head.None? ==> bitmaps[id].Value() == old(bitmaps[id].Value())
      ensures head.Some? ==>
                && Carvable(old(Memory()), id) && Memory() == Carve(old(Memory()), id)
                   && head == CarvedHead(old(Memory()), id)
                && memMalloced == old(memMalloced) + sizes[id] * PERSLAB && memoryFull == old(memoryFull)
    {
      hide Carved, Carve, CarvedHead;
      var len := sizes[id] * PERSLAB;
      ghost var m := Memory();
      assert |slabs| == CLASSES by { CarvedSlabs(m); }
      if memLimit > 0 && memMalloced + len > memLimit && slabs[id] > 0 {
        memoryFull := true;
        return None;
      }
      var refused := bitmaps[id].Update(PERSLAB);
      if refused == -1 {
        memoryFull := true;
        return None;
      }
      CarveIsCarved(m, id);
      SlabsAfterCarve(m, id);
      head := CarveSlab(id);
      memMalloced := memMalloced + len;
    }

    method CarveSlab(id: nat) returns (head: Option<nat>)
      requires Carvable(Memory(), id)
      modifies this`flags, this`next, this`slabs
      ensures Memory() == Carve(old(Memory()), id) && head == CarvedHead(old(Memory()), id) && head.Some?
    {
      hide LocOf, AddrOf, NewLocs, Chain;
      ghost var m := Memory();
      var first := NewLoc(Memory(), id, 0);
      WriteItems(id);
      slabs := slabs[id := slabs[id] + 1];
      SecondItem(m, id);
      head := if first == 0 then next[first] else Some(first);
    }

    /** The loop that writes the headers of a new slab's items. */
    method WriteItems(id: nat)
      requires Carvable(Memory(), id)
      modifies this`flags, this`next
      ensures flags == Carve(old(Memory()), id).flags && next == Carve(old(Memory()), id).next
    {
      hide LocOf, NewLocs, AddrOf, Tagged, Carve, NewLoc, Link;
      ghost var m := Memory();
      ghost var locs := NewLocs(m, id);
      ghost var free := (l: nat) => ITEM_FREE;
      ghost var link := Link(locs[PERSLAB - 1]);
      CarveIsTagged(m, id);
      assert locs[..0] == [];
      TaggedNothing(m.flags, free);
      TaggedNothing(m.next, link);
      for x := 0 to PERSLAB
        invariant slabs == m.slabs
        invariant flags == m.flags + Tagged(locs[..x], free)
        invariant next == m.next + Tagged(locs[..x], link)
      {
        var loc := NewLoc(Memory(), id, x);
        SameNewLoc(m, Memory(), id, x);
        NewItem(m, id, x);
        TaggedOneMore(m.flags, locs[..x], loc, free);
        TaggedOneMore(m.next, locs[..x], loc, link);
        flags := flags[loc := ITEM_FREE];
        next := next[loc := if x == PERSLAB - 1 then None else Some(loc + 1)];
      }
      assert locs[..PERSLAB] == locs;
    }

    /** An item in use becomes free and heads the list; one that is free already is skipped. */
    method Reclaim(key: Key, offset: nat, itList: Option<nat>) returns (itList': Option<nat>, loc: nat, freed: bool)
      requires Carved(Memory()) && |slabs| == CLASSES && key.cls < CLASSES && offset < PERSLAB * slabs[key.cls]
      modifies this`flags, this`next
      ensures Carved(Memory()) && slabs == old(slabs)
      ensures loc == Evictee(key, offset) && freed == (loc in old(flags) && old(flags)[loc] == IN_USE)
      ensures System(Memory(), map[key := itList']) ==
              Step(System(old(Memory()), map[key := itList]), EvictFor(key, offset))
    {
      hide Carved, Evictee, OffsetOf, ClassOf;
      EvicteeIsCarved(Memory(), key, offset);
      loc := Evictee(key, offset);
      itList', freed := itList, false;
      if flags[loc] == IN_USE {
        ghost var m := Memory();
        flags, next := flags[loc := ITEM_FREE], next[loc := itList];
        itList', freed := Some(loc), true;
        CarvedFlags(m, Memory());
      }
    }

    /**
     item_alloc_batch once memory is full.  Each evicted item gets a delete job,
     except the last one when the job buffer runs full, which ends the batch.
     */
    method EvictBatch(key: Key, num: nat, batch: DeleteBuf, max: nat, keyOf: nat -> KeyWords)
      returns (itList: Option<nat>, ghost emitted: seq<nat>, ghost visits: nat, ghost taken: nat, ghost full: bool)
      requires Valid() && key.cls < CLASSES && bitmaps[key.cls].currentSize > 0 && 0 < num
      requires batch.num <= max <= batch.deleteIn.Length
      modifies this`flags, this`next, bitmaps[key.cls], bitmaps[key.cls].words, batch, batch.deleteIn
      ensures Valid()
      ensures num <= |emitted| <= num + 63 && taken <= |emitted|
      ensures Running(old(bitmaps[key.cls].Value())) && emitted == Evicted(old(bitmaps[key.cls].Value()), visits)
      ensures System(Memory(), map[key := itList]) ==
              EvictAll(System(old(Memory()), map[key := None]), key, emitted[..taken])
      ensures Queued(batch, max, old(batch.num), Evictees(System(old(Memory()), map[key := None]), key,
              emitted[..taken]), full, keyOf)
      ensures full || taken == |emitted|
      ensures InClass(emitted, old(Memory()), key.cls)
    {
      hide Carved, Evicted, EvictAll, Evictees, Running, Queued;
      var offsets := new nat[num + 63];
      var evictNum: nat;
      evictNum, visits := EvictOffsets(key.cls, num, offsets);
      emitted := offsets[..evictNum];
      assert |slabs| == CLASSES by { CarvedSlabs(Memory()); }
      assert forall k | 0 <= k < evictNum :: offsets[k] == emitted[k];
      itList, taken, full := ReclaimAll(key, offsets, evictNum, batch, max, keyOf);
    }

    /** The clock of the class names the items to evict. */
    method EvictOffsets(id: nat, num: nat, offsets: array<nat>) returns (evictNum: nat, ghost visits: nat)
      requires Valid() && id < CLASSES && bitmaps[id].currentSize > 0 && 0 < num && num + 63 <= offsets.Length
      modifies bitmaps[id], bitmaps[id].words, offsets
      ensures Valid() && num <= evictNum <= num + 63 && |slabs| == CLASSES
      ensures Running(old(bitmaps[id].Value())) && offsets[..evictNum] == Evicted(old(bitmaps[id].Value()), visits)
      ensures forall k | 0 <= k < evictNum :: offsets[..evictNum][k] < PERSLAB * slabs[id]
    {
      hide Carved, Evicted, Running;
      ghost var clock := bitmaps[id].Value();
      evictNum, visits := bitmaps[id].EvictBatch(offsets, num);
      CarvedSlabs(Memory());
      forall k | 0 <= k < evictNum ensures offsets[..evictNum][k] < PERSLAB * slabs[id] {
        OffsetInRange(clock, visits, offsets[..evictNum][k]);
      }
    }

    method ReclaimAll(key: Key, offsets: array<nat>, evictNum: nat, batch: DeleteBuf, max: nat, keyOf: nat -> KeyWords)
      returns (itList: Option<nat>, ghost i: nat, ghost full: bool)
      requires Carved(Memory()) && |slabs| == CLASSES && key.cls < CLASSES && evictNum <= offsets.Length
      requires forall k | 0 <= k < evictNum :: offsets[k] < PERSLAB * slabs[key.cls]
      requires batch.num <= max <= batch.deleteIn.Length
      modifies this`flags, this`next, batch, batch.deleteIn
      ensures Carved(Memory()) && slabs == old(slabs) && i <= evictNum
      ensures System(Memory(), map[key := itList]) ==
              EvictAll(System(old(Memory()), map[key := None]), key, old(offsets[..evictNum])[..i])
      ensures Queued(batch, max, old(batch.num), Evictees(System(old(Memory()), map[key := None]), key,
              old(offsets[..evictNum])[..i]), full, keyOf)
      ensures full || i == evictNum
    {
      hide Carved, Evictee, EvictAll, Evictees, Queued, Step, Jobs;
      ghost var start := System(Memory(), map[key := None]);
      ghost var num0, emitted := batch.num, offsets[..evictNum];
      ghost var evicted: seq<nat> := [];
      var n, stop := 0, false;
      itList := None;
      NothingEvicted(start, key, keyOf);
      NothingQueued(batch, max, keyOf);
      assert emitted[..0] == [];
      while n < evictNum && !stop
        invariant n <= evictNum && Carved(Memory()) && slabs == start.m.slabs && batch.deleteIn.Length >= max
        invariant offsets[..evictNum] == emitted
        invariant System(Memory(), map[key := itList]) == EvictAll(start, key, emitted[..n])
        invariant evicted == Evictees(start, key, emitted[..n])
        invariant Queued(batch, max, num0, evicted, stop, keyOf)
        decreases evictNum - n
      {
        var offset := offsets[n];
        assert offset == emitted[n];
        OneMoreOffset(start, key, emitted, n);
        var loc, freed;
        itList, loc, freed := Reclaim(key, offset, itList);
        n := n + 1;
        if freed {
          stop := QueueDelete(batch, max, loc, keyOf, num0, evicted);
          evicted := evicted + [loc];
        }
      }
      i, full := n, stop;
    }

    /**
     item_alloc_batch: a fresh slab while memory lasts, and from then on the
     items the clock gives up.  No list at all means that every item the clock
     named was free already; the source exits then.
     */
    method ItemAllocBatch(key: Key, num: nat, batch: DeleteBuf, max: nat, keyOf: nat -> KeyWords)
      returns (itList: Option<nat>, ghost emitted: seq<nat>, ghost visits: nat, ghost taken: nat, ghost full: bool)
      requires Valid() && key.cls < CLASSES && 0 < num && batch.num <= max <= batch.deleteIn.Length
      requires memoryFull ==> bitmaps[key.cls].currentSize > 0
      modifies this, bitmaps[key.cls], bitmaps[key.cls].words, batch, batch.deleteIn
      ensures Valid() && taken <= |emitted| && |old(slabs)| == CLASSES
      ensures memoryFull <==>
              old(memoryFull) || SlabRefused(memLimit, sizes[key.cls], old(memMalloced), old(Memory()), key.cls)
      ensures memMalloced == if memoryFull then old(memMalloced) else old(memMalloced) + sizes[key.cls] * PERSLAB
      ensures !memoryFull ==> batch.deleteIn[..] == old(batch.deleteIn[..])
      ensures !memoryFull ==>
                && Carvable(old(Memory()), key.cls) && taken == 0 && batch.num == old(batch.num)
                && System(Memory(), map[key := itList]) == Step(System(old(Memory()), map[key := None]), CarveFor(key))
      ensures memoryFull ==>
                && Running(old(bitmaps[key.cls].Value())) && emitted == Evicted(old(bitmaps[key.cls].Value()), visits)
                && num <= |emitted| <= num + 63 && (full || taken == |emitted|)
                   && InClass(emitted, old(Memory()), key.cls)
                && System(Memory(), map[key := itList]) ==
                   EvictAll(System(old(Memory()), map[key := None]), key, emitted[..taken])
      ensures memoryFull ==>
                Queued(batch, max, old(batch.num), Evictees(System(old(Memory()), map[key := None]), key,
                    emitted[..taken]), full, keyOf)
      ensures itList.None? <==> memoryFull && Evictees(System(old(Memory()), map[key := None]), key,
              emitted[..taken]) == []
      ensures itList.Some? ==> itList.value in flags
    {
      hide Carved, Evicted, EvictAll, Evictees, Running, Queued, Carve, Evictee;
      ghost var start := System(Memory(), map[key := None]);
      itList, emitted, visits, taken, full := None, [], 0, 0, false;
      assert |slabs| == CLASSES by { CarvedSlabs(Memory()); }
      if !memoryFull {
        itList := AllocBatch(key.cls);
        if itList.Some? {
          CarvedHeadIs(start.m, key.cls);
          return;
        }
        GrownClass(start.m, key.cls);
      }
      itList, emitted, visits, taken, full := EvictBatch(key, num, batch, max, keyOf);
      EvictedHead(start, key, emitted[..taken]);
    }

    /**
     BATCH_ALLOC: the first item of the worker's list, which is filled up before
     if it is empty.  `filled` is the store in between.
     */
    method BatchAlloc(key: Key, list: Option<nat>, num: nat, batch: DeleteBuf, max: nat, keyOf: nat -> KeyWords)
      returns (it: Option<nat>, list': Option<nat>, ghost filled: System,
               ghost emitted: seq<nat>, ghost visits: nat, ghost taken: nat, ghost full: bool)
      requires Valid() && key.cls < CLASSES && 0 < num && batch.num <= max <= batch.deleteIn.Length
      requires memoryFull ==> bitmaps[key.cls].currentSize > 0
      requires list.Some? ==> list.value in flags
      modifies this, bitmaps[key.cls], bitmaps[key.cls].words, batch, batch.deleteIn
      ensures Valid()
      ensures list.Some? ==> filled == System(old(Memory()), map[key := list])
      ensures list.None? ==> Refilled(System(old(Memory()), map[key := list]), key, filled)
      ensures list.None? && !memoryFull ==> filled == Step(System(old(Memory()), map[key := list]), CarveFor(key))
      ensures list.None? && memoryFull ==>
                && Running(old(bitmaps[key.cls].Value())) && emitted == Evicted(old(bitmaps[key.cls].Value()), visits)
                && num <= |emitted| <= num + 63 && taken <= |emitted| && (full || taken == |emitted|)
                && filled == EvictAll(System(old(Memory()), map[key := list]), key, emitted[..taken])
                && Queued(batch, max, old(batch.num), Evictees(System(old(Memory()), map[key := list]), key,
                   emitted[..taken]), full, keyOf)
      ensures key in filled.heads && it == filled.heads[key]
      ensures System(Memory(), map[key := list']) == Step(filled, PopFor(key))
      ensures !memoryFull || list.Some? ==> batch.num == old(batch.num) && batch.deleteIn[..] == old(batch.deleteIn[..])
      ensures it.Some? ==>
                Allocates(memLimit, sizes[key.cls], key, old(Seen(key, list)), Seen(key, list'), it.value,
                          if list.None? && memoryFull
                          then Evictees(System(old(Memory()), map[key := list]), key, emitted[..taken]) else [])
    {
      hide Carved, Evicted, EvictAll, Evictees, Running, Queued, Carve, Refilled, InClass, Carvable, SlabRefused, Fills;
      CarvedSlabs(Memory());
      ghost var start := System(Memory(), map[key := list]);
      var head := list;
      emitted, visits, taken, full := [], 0, 0, false;
      if list == None {
        head, emitted, visits, taken, full := ItemAllocBatch(key, num, batch, max, keyOf);
        if memoryFull {
          FilledByEvicting(start, key, emitted, taken);
        } else {
          FilledByCarving(start, key);
        }
      }
      filled := System(Memory(), map[key := head]);
      it, list' := head, None;
      ghost var mid := Stock(filled, memMalloced, memoryFull);
      HowFilled(memLimit, sizes[key.cls], key, old(Seen(key, list)), mid, emitted, taken);
      if head.Some? {
        list' := TakeItem(head.value);
        assert TakesFirst(key, mid, Seen(key, list'), head.value);
      }
    }

    /** The item comes into use; returns the one behind it. */
    method TakeItem(loc: nat) returns (list': Option<nat>)
      requires Carved(Memory()) && loc in flags
      modifies this`flags
      ensures Carved(Memory()) && Memory() == PopFree(old(Memory()), loc) && loc in next && list' == next[loc]
    {
      hide Carved;
      ghost var m := Memory();
      CarvedSlabs(m);
      assert loc in m.flags.Keys;
      list' := next[loc];
      flags := flags[loc := IN_USE];
      CarvedFlags(m, Memory());
    }
  }

  /** All offsets lie in slabs of the class. */
  ghost predicate InClass(offsets: seq<nat>, m: Mem, cls: nat)
  {
    cls < |m.slabs| && forall k | 0 <= k < |offsets| :: offsets[k] < PERSLAB * m.slabs[cls]
  }

  /** A list is filled by carving one slab or by evicting items of the class. */
  ghost predicate Refilled(s: System, key: Key, s': System)
    requires key in s.heads
  {
    || (Carvable(s.m, key.cls) && s' == Step(s, CarveFor(key)))
    || exists offsets: seq<nat> :: InClass(offsets, s.m, key.cls) && s' == EvictAll(s, key, offsets)
  }

  lemma FilledByEvicting(s: System, key: Key, offsets: seq<nat>, n: nat)
    requires key in s.heads && n <= |offsets| && InClass(offsets, s.m, key.cls)
    ensures Refilled(s, key, EvictAll(s, key, offsets[..n]))
  {
    hide EvictAll, Step;
    assert InClass(offsets[..n], s.m, key.cls);
  }

  lemma HowFilled(limit: nat, size: nat, key: Key, s: Stock, filled: Stock, emitted: seq<nat>, n: nat)
    requires key in s.sys.heads && key.cls < |s.sys.m.slabs|
    requires s.sys.heads[key].Some? ==> filled == s
    requires s.sys.heads[key].None? ==>
               && (filled.full <==> s.full || SlabRefused(limit, size, s.malloced, s.sys.m, key.cls))
               && filled.malloced == (if filled.full then s.malloced else s.malloced + size * PERSLAB)
               && (!filled.full ==> filled.sys == Step(s.sys, CarveFor(key)))
               && (filled.full ==> n <= |emitted| && InClass(emitted, s.sys.m, key.cls) &&
                                   filled.sys == EvictAll(s.sys, key, emitted[..n]))
    ensures n <= |emitted| || s.sys.heads[key].Some? || !filled.full
    ensures Fills(limit, size, key, s, filled,
                  if s.sys.heads[key].None? && filled.full then Evictees(s.sys, key, emitted[..n]) else [])
  {
    hide EvictAll, Evictees, SlabRefused, Step;
    if s.sys.heads[key].None? && filled.full {
      assert TakesBack(key, s.sys, filled.sys, emitted[..n], Evictees(s.sys, key, emitted[..n]));
    }
  }

  lemma FilledByCarving(s: System, key: Key)
    requires key in s.heads && Carvable(s.m, key.cls)
    ensures Refilled(s, key, Step(s, CarveFor(key)))
  {
    hide EvictAll, Carve;
  }

  // ----- one worker among many ----------------------------------------------

  /** What a worker sees of the system: the memory and the list in its hand. */
  function View(s: System, key: Key): (v: System)
    requires key in s.heads
    ensures v.heads.Keys == {key}
  {
    System(s.m, map[key := s.heads[key]])
  }

  /** The system after one worker has changed its view to v. */
  function Update(s: System, key: Key, v: System): System
    requires key in s.heads && key in v.heads
  {
    System(v.m, s.heads[key := v.heads[key]])
  }

  lemma StepInView(s: System, a: Action)
    requires a.key in s.heads && (a.CarveFor? ==> a.key.cls < |s.m.slabs|)
    ensures a.key in Step(View(s, a.key), a).heads && Step(s, a) == Update(s, a.key, Step(View(s, a.key), a))
  {
    hide Carve, CarvedHead, Evictee;
  }

  lemma {:induction false} EvictAllInView(s: System, key: Key, offsets: seq<nat>)
    requires key in s.heads
    ensures EvictAll(s, key, offsets) == Update(s, key, EvictAll(View(s, key), key, offsets))
  {
    hide Step;
    if offsets != [] {
      var n := |offsets| - 1;
      var v := EvictAll(View(s, key), key, offsets[..n]);
      EvictAllInView(s, key, offsets[..n]);
      StepInView(EvictAll(s, key, offsets[..n]), EvictFor(key, offsets[n]));
      assert View(EvictAll(s, key, offsets[..n]), key) == v;
    }
  }

  lemma {:induction false} EvictAllKeeps(s: System, lists: Lists, key: Key, offsets: seq<nat>) returns (lists': Lists)
    requires Inv(s, lists) && key in s.heads && InClass(offsets, s.m, key.cls)
    ensures Inv(EvictAll(s, key, offsets), lists') && EvictAll(s, key, offsets).m.slabs == s.m.slabs
  {
    hide Inv;
    lists' := lists;
    if offsets != [] {
      var n := |offsets| - 1;
      lists' := EvictAllKeeps(s, lists, key, offsets[..n]);
      lists' := EvictKeeps(EvictAll(s, key, offsets[..n]), lists', key, offsets[n]);
    }
  }

  /**
   Whatever the other workers hold, BATCH_ALLOC keeps the lists sound, and the
   item it returns was free, of the class wanted, and is in nobody's list.
   */
  lemma BatchAllocKeeps(s: System, lists: Lists, key: Key, filled: System) returns (lists': Lists)
    requires Inv(s, lists) && key in s.heads
    requires if s.heads[key].Some? then filled == View(s, key) else Refilled(View(s, key), key, filled)
    requires key in filled.heads && filled.heads[key].Some?
    ensures var s' := Update(s, key, Step(filled, PopFor(key))); var loc := filled.heads[key].value;
            && Inv(s', lists') && !InSome(lists', loc)
            && loc in filled.m.flags && filled.m.flags[loc] == ITEM_FREE && loc != 0 && ClassOf(loc) == key.cls
            && loc in s'.m.flags && s'.m.flags[loc] == IN_USE
  {
    hide Inv, InSome, EvictAll, Step, ClassOf, CarvedHead, Carve;
    var t := Update(s, key, filled);
    var mid := lists;
    if s.heads[key].Some? {
      assert t == s;
    } else if Carvable(s.m, key.cls) && filled == Step(View(s, key), CarveFor(key)) {
      StepInView(s, CarveFor(key));
      CarvedKey(View(s, key), key);
      mid := CarveKeeps(s, lists, key);
    } else {
      var offsets: seq<nat> :| InClass(offsets, s.m, key.cls) && filled == EvictAll(View(s, key), key, offsets);
      EvictAllInView(s, key, offsets);
      mid := EvictAllKeeps(s, lists, key, offsets);
    }
    lists' := PopKeeps(t, mid, key);
    StepInView(t, PopFor(key));
    assert View(t, key) == filled;
    assert Update(t, key, Step(filled, PopFor(key))) == Update(s, key, Step(filled, PopFor(key)));
  }

  lemma CarvedKey(v: System, key: Key)
    requires key in v.heads && key.cls < |v.m.slabs|
    ensures Step(v, CarveFor(key)).heads.Keys == v.heads.Keys
  {
    hide Carve, CarvedHead;
  }

  /** The evictor's list is empty only if nothing was evicted; its head is carved. */
  lemma {:induction false} EvictedHead(s: System, key: Key, offsets: seq<nat>)
    requires key in s.heads && s.heads[key] == None
    ensures EvictAll(s, key, offsets).heads[key] == None <==> Evictees(s, key, offsets) == []
    ensures var s' := EvictAll(s, key, offsets); s'.heads[key].Some? ==> s'.heads[key].value in s'.m.flags
  {
    hide Evictee;
    if offsets != [] {
      EvictedHead(s, key, offsets[..|offsets| - 1]);
    }
  }

  lemma CarvedHeadIs(m: Mem, cls: nat)
    requires Carvable(m, cls)
    ensures CarvedHead(m, cls).Some? && CarvedHead(m, cls).value in Carve(m, cls).flags
  {
    hide LocOf, AddrOf;
    NewLocIs(m, cls, 0);
    NewLocIs(m, cls, 1);
    assert NewLocs(m, cls)[0] in NewLocs(m, cls) && NewLocs(m, cls)[1] in NewLocs(m, cls);
  }

  /** A slab is refused only to a class that has one already. */
  lemma GrownClass(m: Mem, cls: nat)
    requires Carved(m) && cls < CLASSES
    ensures |m.slabs| == CLASSES && (!Carvable(m, cls) ==> m.slabs[cls] > 0)
  {
  }

  /** How far the delete jobs of the items evicted so far have been queued. */
  ghost predicate Queued(batch: DeleteBuf, max: nat, num0: nat, evicted: seq<nat>, full: bool, keyOf: nat -> KeyWords)
    reads batch, batch.deleteIn
  {
    var queued := batch.num - num0;
    && 0 <= queued <= |evicted| && batch.num <= max <= batch.deleteIn.Length
    && batch.deleteIn[num0..batch.num] == Jobs(evicted[..queued], keyOf)
    && (if full then queued == |evicted| - 1 && batch.num + 1 >= max else queued == |evicted|)
    && (num0 < max ==> batch.num < max)
  }

  /** The buffer takes jobs until one more would fill it, and the batch ends with the item whose job is that one. */
  lemma QueuedCount(batch: DeleteBuf, max: nat, num0: nat, evicted: seq<nat>, full: bool, keyOf: nat -> KeyWords)
    requires num0 < max && Queued(batch, max, num0, evicted, full, keyOf)
    ensures batch.num == if num0 + |evicted| < max then num0 + |evicted| else max - 1
    ensures full <==> num0 + |evicted| == max
  {
  }

  method QueueDelete(batch: DeleteBuf, max: nat, loc: nat, keyOf: nat -> KeyWords, ghost num0: nat,
                     ghost evicted: seq<nat>)
    returns (full: bool)
    requires Queued(batch, max, num0, evicted, false, keyOf)
    modifies batch, batch.deleteIn
    ensures Queued(batch, max, num0, evicted + [loc], full, keyOf)
  {
    hide Jobs;
    ghost var more := evicted + [loc];
    ghost var n := |evicted|;
    assert evicted[..n] == evicted && more[..n] == evicted && more[..n + 1] == more;
    OneMoreJob(more, keyOf);
    if batch.num >= max {
      return true;
    }
    batch.deleteIn[batch.num] := DeleteJob(keyOf(loc).sig, keyOf(loc).hash, loc);
    if batch.num + 1 >= max {
      return true;
    }
    batch.num := batch.num + 1;
    return false;
  }

  ghost function Tagged<T>(locs: seq<nat>, f: nat -> T): map<nat, T>
  {
    map l | l in locs :: f(l)
  }

  lemma TaggedOneMore<T>(m: map<nat, T>, locs: seq<nat>, loc: nat, f: nat -> T)
    ensures m + Tagged(locs + [loc], f) == (m + Tagged(locs, f))[loc := f(loc)]
  {
  }

  lemma TaggedNothing<T>(m: map<nat, T>, f: nat -> T)
    ensures m + Tagged([], f) == m
  {
  }

  /** What the next field of an item in a new slab holds. */
  ghost function Link(last: nat): nat -> Option<nat>
  {
    l => if l == last then None else Some(l + 1)
  }

  lemma NewItem(m: Mem, id: nat, x: nat)
    requires Carvable(m, id) && x < PERSLAB
    ensures var locs := NewLocs(m, id); var loc := NewLoc(m, id, x);
            && locs[..x + 1] == locs[..x] + [loc]
            && Link(locs[PERSLAB - 1])(loc) == if x == PERSLAB - 1 then None else Some(loc + 1)
  {
    hide LocOf, NewLocs, AddrOf;
    NewLocIs(m, id, x);
    NewLocIs(m, id, PERSLAB - 1);
  }

  lemma CarveIsTagged(m: Mem, id: nat)
    requires Carvable(m, id)
    ensures Carve(m, id).flags == m.flags + Tagged(NewLocs(m, id), l => ITEM_FREE)
    ensures Carve(m, id).next == m.next + Tagged(NewLocs(m, id), Link(NewLocs(m, id)[PERSLAB - 1]))
  {
    hide NewLocs;
  }

  lemma SameNewLoc(m: Mem, m': Mem, id: nat, x: nat)
    requires Carvable(m, id) && m'.slabs == m.slabs
    ensures NewLoc(m', id, x) == NewLoc(m, id, x)
  {
  }

  lemma SlabsAfterCarve(m: Mem, id: nat)
    requires Carvable(m, id)
    ensures Carve(m, id).slabs == m.slabs[id := m.slabs[id] + 1]
  {
  }

  /** The item behind item 0 heads the list when item 0 does not. */
  lemma SecondItem(m: Mem, id: nat)
    requires Carvable(m, id)
    ensures NewLoc(m, id, 0) == 0 ==> 0 in Carve(m, id).next && Carve(m, id).next[0] == CarvedHead(m, id)
  {
    hide LocOf, AddrOf;
    NewLocIs(m, id, 0);
    NewLocIs(m, id, 1);
    NewLocIs(m, id, PERSLAB - 1);
    assert NewLocs(m, id)[0] in NewLocs(m, id);
  }

  lemma NothingEvicted(s: System, key: Key, keyOf: nat -> KeyWords)
    requires key in s.heads
    ensures EvictAll(s, key, []) == s && Evictees(s, key, []) == [] && Jobs([], keyOf) == []
  {
  }

  lemma NothingQueued(batch: DeleteBuf, max: nat, keyOf: nat -> KeyWords)
    requires batch.num <= max <= batch.deleteIn.Length
    ensures Queued(batch, max, batch.num, [], false, keyOf)
  {
  }

  lemma OneMoreOffset(s: System, key: Key, offsets: seq<nat>, n: nat)
    requires key in s.heads && n < |offsets|
    ensures var before := EvictAll(s, key, offsets[..n]); var loc := Evictee(key, offsets[n]);
            && EvictAll(s, key, offsets[..n + 1]) == Step(before, EvictFor(key, offsets[n]))
            && Evictees(s, key, offsets[..n + 1]) ==
               Evictees(s, key, offsets[..n]) + (if loc in before.m.flags && before.m.flags[loc] == IN_USE then [loc]
                   else [])
  {
    assert offsets[..n + 1][..n] == offsets[..n];
  }

  lemma OneMoreJob(locs: seq<nat>, keyOf: nat -> KeyWords)
    requires locs != []
    ensures var n := |locs| - 1;
            Jobs(locs, keyOf) == Jobs(locs[..n], keyOf) + [DeleteJob(keyOf(locs[n]).sig, keyOf(locs[n]).hash, locs[n])]
  {
  }

  /** The evictor hands out offsets of carved items only. */
  lemma OffsetInRange(c: Clock, n: nat, offset: nat)
    requires Running(c) && offset in Evicted(c, n)
    ensures offset < BITSPERWORD * c.current
  {
    ClockFairness.EvictedInRange(c, n, offset);
  }
}
