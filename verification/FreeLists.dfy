/**
 No item is ever handed out twice.  Any number of workers carve, evict and pop
 in any interleaving; each keeps one free list per slab class, threaded through
 the items themselves.
 */
module FreeLists {
  import opened Wrappers
  import opened SlabSpec

  /** A worker's list for a class. */
  datatype Key = Key(worker: nat, cls: nat)

  datatype System = System(m: Mem, heads: map<Key, Option<nat>>)

  datatype Action =
    | CarveFor(key: Key)               // slabs_alloc_batch into an empty list
    | EvictFor(key: Key, offset: nat)  // one step of the eviction loop
    | PopFor(key: Key)                 // BATCH_ALLOC

  function Evictee(key: Key, offset: nat): nat
  {
    LocOf(Addr(key.cls, offset / PERSLAB, offset % PERSLAB))
  }

  /** Slabs are carved up to the cap; offsets come from the bitmap of carved slabs. */
  ghost predicate Enabled(s: System, a: Action)
  {
    && a.key in s.heads
    && match a
       case CarveFor(key) => Carvable(s.m, key.cls) && s.heads[key] == None
       case EvictFor(key, offset) => key.cls < |s.m.slabs| && offset < PERSLAB * s.m.slabs[key.cls]
       case PopFor(key) => s.heads[key].Some?
  }

  function Step(s: System, a: Action): System
    requires a.key in s.heads && (a.CarveFor? ==> a.key.cls < |s.m.slabs|)
  {
    match a
    case CarveFor(key) => System(Carve(s.m, key.cls), s.heads[key := CarvedHead(s.m, key.cls)])
    case EvictFor(key, offset) =>
      var loc := Evictee(key, offset);
      if loc in s.m.flags && s.m.flags[loc] == IN_USE
      then System(PushFree(s.m, loc, s.heads[key]), s.heads[key := Some(loc)])
      else s
    case PopFor(key) =>
      match s.heads[key]
      case None => s
      case Some(loc) =>
        System(PopFree(s.m, loc), s.heads[key := if loc in s.m.next then s.m.next[loc] else None])
  }

  /** The lists the heads lead to. */
  type Lists = map<Key, seq<nat>>

  /** Exactly the items of the carved slabs exist. */
  ghost predicate Carved(m: Mem)
  {
    && |m.slabs| == CLASSES
    && (forall c: nat | c < CLASSES :: PERSLAB * m.slabs[c] < MAX_ELEM)
    && m.next.Keys == m.flags.Keys
    && (forall l | l in m.flags :: 0 <= l && Owns(m, l) && LocOf(AddrOf(l)) == l)
    && (forall a: Addr | a.cls < CLASSES && a.slab < m.slabs[a.cls] && a.x < PERSLAB :: LocOf(a) in m.flags)
  }

  ghost predicate Owns(m: Mem, l: nat)
    requires |m.slabs| == CLASSES
  {
    var a := AddrOf(l);
    a.cls < CLASSES && a.slab < m.slabs[a.cls] && a.x < PERSLAB
  }

  /** key's list, well formed: acyclic, all its items carved, free, of its class, and not item 0. */
  ghost predicate ListOk(s: System, lists: Lists, key: Key)
    requires key in s.heads && key in lists
  {
    && key.cls < CLASSES
    && Chain(s.m.next, s.heads[key], lists[key])
    && NoDup(lists[key])
    && forall l | l in lists[key] :: l in s.m.flags && s.m.flags[l] == ITEM_FREE && l != 0 && ClassOf(l) == key.cls
  }

  ghost predicate Linked(s: System, lists: Lists)
  {
    s.heads.Keys == lists.Keys && forall key | key in lists :: ListOk(s, lists, key)
  }

  /** No item lies in two lists. */
  ghost predicate Apart(lists: Lists)
  {
    forall k1, k2, l | k1 in lists && k2 in lists && l in lists[k1] && l in lists[k2] :: k1 == k2
  }

  ghost predicate InSome(lists: Lists, l: nat)
  {
    exists key :: key in lists && l in lists[key]
  }

  /** An item is either in use, or free and in a list; item 0 is free and in none. */
  ghost predicate Covered(m: Mem, lists: Lists)
  {
    && (forall l | l in m.flags :: m.flags[l] == ITEM_FREE || m.flags[l] == IN_USE)
    && (forall l | l in m.flags && m.flags[l] == ITEM_FREE && l != 0 :: InSome(lists, l))
    && (0 in m.flags ==> m.flags[0] == ITEM_FREE)
  }

  ghost predicate Inv(s: System, lists: Lists)
  {
    Carved(s.m) && Linked(s, lists) && Apart(lists) && Covered(s.m, lists)
  }

  /** Free means: in exactly one list, or item 0. */
  lemma FreeIff(s: System, lists: Lists, l: nat)
    requires Inv(s, lists) && l in s.m.flags
    ensures s.m.flags[l] == ITEM_FREE <==> l == 0 || InSome(lists, l)
  {
    if InSome(lists, l) {
      var key :| key in lists && l in lists[key];
      assert ListOk(s, lists, key);
    }
  }

  lemma CarvedFlags(m: Mem, m': Mem)
    requires Carved(m) && m'.slabs == m.slabs && m'.flags.Keys == m.flags.Keys && m'.next.Keys == m.next.Keys
    ensures Carved(m')
  {
    hide LocOf, AddrOf;
    forall l | l in m'.flags ensures l in m.flags {
      assert l in m'.flags.Keys;
    }
    forall a: Addr | a.cls < CLASSES && a.slab < m'.slabs[a.cls] && a.x < PERSLAB ensures LocOf(a) in m'.flags {
      assert LocOf(a) in m.flags.Keys;
    }
  }

  // ----- popping ------------------------------------------------------------

  lemma ChainSplit(next: map<nat, Option<nat>>, head: Option<nat>, s: seq<nat>)
    requires Chain(next, head, s) && head.Some?
    ensures s != [] && s[0] == head.value && head.value in next && Chain(next, next[head.value], s[1..])
  {
  }

  lemma PopTarget(s: System, lists: Lists, key: Key)
    requires Linked(s, lists) && key in s.heads && s.heads[key].Some?
    ensures var loc := s.heads[key].value;
            && loc in s.m.flags && s.m.flags[loc] == ITEM_FREE && loc != 0 && ClassOf(loc) == key.cls
               && key.cls < CLASSES
            && key in lists && lists[key] != [] && loc == lists[key][0]
            && loc in s.m.next && Chain(s.m.next, s.m.next[loc], lists[key][1..])
            && (forall l | l in lists[key] :: l == loc || l in lists[key][1..])
            && (forall l | l in lists[key][1..] :: l in lists[key] && l != loc)
            && NoDup(lists[key][1..])
  {
    hide ClassOf, Chain;
    var list := lists[key];
    assert ListOk(s, lists, key);
    ChainSplit(s.m.next, s.heads[key], list);
    assert list == [list[0]] + list[1..];
    forall l | l in list[1..] ensures l in list && l != list[0] {
      var j :| 0 <= j < |list[1..]| && list[1..][j] == l;
      assert list[j + 1] == l;
    }
  }

  lemma PopLinked(s: System, lists: Lists, key: Key)
    requires Linked(s, lists) && Apart(lists) && key in s.heads && s.heads[key].Some? && |s.m.slabs| == CLASSES
    ensures key in lists && lists[key] != [] && key.cls < CLASSES
    ensures Linked(Step(s, PopFor(key)), lists[key := lists[key][1..]])
  {
    hide ClassOf, Chain, NoDup;
    PopTarget(s, lists, key);
    var loc := s.heads[key].value;
    var s' := Step(s, PopFor(key));
    var lists' := lists[key := lists[key][1..]];
    forall k | k in lists' ensures ListOk(s', lists', k) {
      assert ListOk(s, lists, k);
      assert k != key ==> loc !in lists[k];
    }
  }

  lemma PopApart(s: System, lists: Lists, key: Key)
    requires Linked(s, lists) && Apart(lists) && key in s.heads && s.heads[key].Some?
    ensures key in lists && lists[key] != [] && Apart(lists[key := lists[key][1..]])
    ensures forall k | k in lists :: s.heads[key].value in lists[k] <==> k == key
    ensures !InSome(lists[key := lists[key][1..]], s.heads[key].value)
  {
    hide ListOk;
    PopTarget(s, lists, key);
    var lists' := lists[key := lists[key][1..]];
    forall k1, k2, l | k1 in lists' && k2 in lists' && l in lists'[k1] && l in lists'[k2] ensures k1 == k2 {
      assert l in lists[k1] && l in lists[k2];
    }
  }

  lemma PopCovered(s: System, lists: Lists, key: Key)
    requires Linked(s, lists) && Covered(s.m, lists) && key in s.heads && s.heads[key].Some? && |s.m.slabs| == CLASSES
    ensures key in lists && lists[key] != [] && key.cls < CLASSES
    ensures Covered(Step(s, PopFor(key)).m, lists[key := lists[key][1..]])
  {
    hide ListOk;
    PopTarget(s, lists, key);
    var lists' := lists[key := lists[key][1..]];
    var m' := Step(s, PopFor(key)).m;
    forall l | l in m'.flags && m'.flags[l] == ITEM_FREE && l != 0 ensures InSome(lists', l) {
      var k :| k in lists && l in lists[k];
      assert l in lists'[k];
    }
  }

  /** Item loc is carved, free, not item 0, of the class wanted, and in no list but key's. */
  ghost predicate Allocatable(s: System, lists: Lists, key: Key, loc: nat)
  {
    && loc in s.m.flags && s.m.flags[loc] == ITEM_FREE
    && loc != 0 && ClassOf(loc) == key.cls && key.cls < CLASSES
    && forall k | k in lists :: loc in lists[k] <==> k == key
  }

  /** The item popped was free and in this worker's list alone; afterwards it is in use and in no list. */
  lemma PopKeeps(s: System, lists: Lists, key: Key) returns (lists': Lists)
    requires Inv(s, lists) && key in s.heads && s.heads[key].Some?
    ensures Allocatable(s, lists, key, s.heads[key].value)
    ensures Inv(Step(s, PopFor(key)), lists')
    ensures var m := Step(s, PopFor(key)).m; s.heads[key].value in m.flags && m.flags[s.heads[key].value] == IN_USE
    ensures !InSome(lists', s.heads[key].value)
  {
    hide Linked, Apart, Covered, InSome, Carved;
    CarvedSlabs(s.m);
    PopTarget(s, lists, key);
    PopLinked(s, lists, key);
    PopApart(s, lists, key);
    PopCovered(s, lists, key);
    lists' := lists[key := lists[key][1..]];
    CarvedFlags(s.m, Step(s, PopFor(key)).m);
  }

  lemma CarvedSlabs(m: Mem)
    requires Carved(m)
    ensures |m.slabs| == CLASSES && m.next.Keys == m.flags.Keys
  {
  }

  // ----- evicting -----------------------------------------------------------

  lemma EvicteeIsCarved(m: Mem, key: Key, offset: nat)
    requires Carved(m) && key.cls < CLASSES && offset < PERSLAB * m.slabs[key.cls]
    ensures var loc := Evictee(key, offset);
            loc in m.flags && loc in m.next && ClassOf(loc) == key.cls && OffsetOf(loc) == offset
  {
    var a := Addr(key.cls, offset / PERSLAB, offset % PERSLAB);
    LocRoundTrip(a);
    assert AddrOf(LocOf(a)) == a;
    assert LocOf(a) in m.next.Keys;
  }

  lemma ChainCons(next: map<nat, Option<nat>>, loc: nat, s: seq<nat>)
    requires loc in next && Chain(next, next[loc], s)
    ensures Chain(next, Some(loc), [loc] + s)
  {
    assert ([loc] + s)[1..] == s;
  }

  /** The lists after item loc has been put in front of key's. */
  lemma PushLinked(s: System, lists: Lists, key: Key, loc: nat)
    requires Linked(s, lists) && key in s.heads && key in lists && s.m.next.Keys == s.m.flags.Keys
    requires loc in s.m.flags && loc in s.m.next && s.m.flags[loc] == IN_USE && loc != 0 && ClassOf(loc) == key.cls
    ensures Linked(System(PushFree(s.m, loc, s.heads[key]), s.heads[key := Some(loc)]),
            lists[key := [loc] + lists[key]])
    ensures !InSome(lists, loc)
  {
    hide ClassOf, Chain;
    var s' := System(PushFree(s.m, loc, s.heads[key]), s.heads[key := Some(loc)]);
    var lists' := lists[key := [loc] + lists[key]];
    forall k | k in lists ensures loc !in lists[k] {
      assert ListOk(s, lists, k);
    }
    forall k | k in lists' ensures ListOk(s', lists', k) {
      assert ListOk(s, lists, k);
      forall l | l in lists[k] ensures l in s.m.next {
        assert l in s.m.flags.Keys;
      }
      ChainFrame(s.m.next, s'.m.next, s.heads[k], lists[k]);
      if k == key {
        ChainCons(s'.m.next, loc, lists[key]);
      }
    }
  }

  lemma PushApart(lists: Lists, key: Key, loc: nat)
    requires Apart(lists) && key in lists && !InSome(lists, loc)
    ensures Apart(lists[key := [loc] + lists[key]])
  {
    var lists' := lists[key := [loc] + lists[key]];
    forall k1, k2, l | k1 in lists' && k2 in lists' && l in lists'[k1] && l in lists'[k2] ensures k1 == k2 {
      assert l == loc || (l in lists[k1] && l in lists[k2]);
    }
  }

  lemma PushCovered(m: Mem, lists: Lists, key: Key, loc: nat, head: Option<nat>)
    requires Covered(m, lists) && key in lists
    ensures Covered(PushFree(m, loc, head), lists[key := [loc] + lists[key]])
  {
    var lists' := lists[key := [loc] + lists[key]];
    var m' := PushFree(m, loc, head);
    forall l | l in m'.flags && m'.flags[l] == ITEM_FREE && l != 0 ensures InSome(lists', l) {
      if l == loc {
        assert l in lists'[key];
      } else {
        var k :| k in lists && l in lists[k];
        assert l in lists'[k];
      }
    }
  }

  /** An item that is free already is left alone; one in use enters exactly one list. */
  lemma EvictKeeps(s: System, lists: Lists, key: Key, offset: nat) returns (lists': Lists)
    requires Inv(s, lists) && Enabled(s, EvictFor(key, offset))
    ensures |s.m.slabs| == CLASSES && Inv(Step(s, EvictFor(key, offset)), lists')
    ensures Evictee(key, offset) in s.m.flags
    ensures lists' == if s.m.flags[Evictee(key, offset)] == IN_USE && key in lists
                      then lists[key := [Evictee(key, offset)] + lists[key]] else lists
  {
    hide Linked, Apart, InSome, Carved, ClassOf, OffsetOf, Evictee;
    CarvedSlabs(s.m);
    var loc := Evictee(key, offset);
    EvicteeIsCarved(s.m, key, offset);
    assert key in lists by { LinkedKeys(s, lists); }
    lists' := lists;
    if s.m.flags[loc] == IN_USE {
      PushLinked(s, lists, key, loc);
      PushApart(lists, key, loc);
      PushCovered(s.m, lists, key, loc, s.heads[key]);
      lists' := lists[key := [loc] + lists[key]];
      CarvedFlags(s.m, PushFree(s.m, loc, s.heads[key]));
    }
  }

  lemma LinkedKeys(s: System, lists: Lists)
    requires Linked(s, lists)
    ensures s.heads.Keys == lists.Keys
  {
  }

  // ----- carving ------------------------------------------------------------

  lemma NewIsNew(m: Mem, cls: nat, l: nat)
    requires Carved(m) && Carvable(m, cls) && l in NewLocs(m, cls)
    ensures l !in m.flags
  {
    hide LocOf, AddrOf;
    var x :| 0 <= x < PERSLAB && NewLocs(m, cls)[x] == l;
    NewLocIs(m, cls, x);
  }

  lemma CarveOwns(m: Mem, cls: nat, l: nat)
    requires Carved(m) && Carvable(m, cls) && l in Carve(m, cls).flags
    ensures |Carve(m, cls).slabs| == CLASSES
    ensures Owns(Carve(m, cls), l) && LocOf(AddrOf(l)) == l
  {
    hide LocOf, AddrOf;
    if l in m.flags {
      assert Owns(m, l);
    } else {
      var x :| 0 <= x < PERSLAB && NewLocs(m, cls)[x] == l;
      NewLocIs(m, cls, x);
    }
  }

  lemma CarveHolds(m: Mem, cls: nat, a: Addr)
    requires Carved(m) && Carvable(m, cls)
    requires a.cls < CLASSES && a.slab < Carve(m, cls).slabs[a.cls] && a.x < PERSLAB
    ensures LocOf(a) in Carve(m, cls).flags
  {
    hide LocOf, AddrOf;
    if a.slab < m.slabs[a.cls] {
      assert LocOf(a) in m.flags;
    } else {
      NewLocIs(m, cls, a.x);
      assert a == Addr(cls, m.slabs[cls], a.x);
      assert NewLocs(m, cls)[a.x] in NewLocs(m, cls);
    }
  }

  lemma CarveIsCarved(m: Mem, cls: nat)
    requires Carved(m) && Carvable(m, cls)
    ensures Carved(Carve(m, cls))
  {
    hide LocOf, AddrOf, Owns, NewLocs;
    var m' := Carve(m, cls);
    forall l | l in m'.flags ensures Owns(m', l) && LocOf(AddrOf(l)) == l {
      CarveOwns(m, cls, l);
    }
    forall a: Addr | a.cls < CLASSES && a.slab < m'.slabs[a.cls] && a.x < PERSLAB ensures LocOf(a) in m'.flags {
      CarveHolds(m, cls, a);
    }
  }

  lemma ZeroIsFirst(m: Mem, cls: nat, x: nat)
    requires Carvable(m, cls) && x < PERSLAB && NewLoc(m, cls, x) == 0
    ensures x == 0
  {
    hide LocOf, AddrOf;
    NewLocIs(m, cls, x);
  }

  /** The list of a carved slab has all its items but item 0. */
  lemma CarvedListIs(m: Mem, cls: nat, l: nat)
    requires Carvable(m, cls)
    ensures l in CarvedList(m, cls) <==> l in NewLocs(m, cls) && l != 0
    ensures l in NewLocs(m, cls) ==> ClassOf(l) == cls
  {
    hide LocOf, AddrOf, NewLoc, NewLocs;
    var locs := NewLocs(m, cls);
    NewLocIs(m, cls, 0);
    NewLocsNoDup(m, cls);
    if l in locs {
      var x :| 0 <= x < PERSLAB && locs[x] == l;
      NewLocIs(m, cls, x);
      if l == 0 {
        ZeroIsFirst(m, cls, x);
      } else if NewLoc(m, cls, 0) == 0 {
        assert locs[1..][x - 1] == l;
      }
    }
    if NewLoc(m, cls, 0) == 0 && l in locs[1..] {
      var y :| 0 <= y < PERSLAB - 1 && locs[1..][y] == l;
      assert locs[y + 1] == l && locs[0] == 0;
    }
  }

  lemma ChainEnd(next: map<nat, Option<nat>>, s: seq<nat>)
    requires Chain(next, None, s)
    ensures s == []
  {
  }

  lemma CarveLinked(s: System, lists: Lists, key: Key)
    requires Carved(s.m) && Linked(s, lists) && Enabled(s, CarveFor(key))
    ensures key.cls < |s.m.slabs|
    ensures Linked(Step(s, CarveFor(key)), lists[key := CarvedList(s.m, key.cls)])
    ensures key in lists && lists[key] == []
    ensures forall k, l | k in lists && l in lists[k] :: l in s.m.flags
  {
    hide LocOf, AddrOf, ClassOf, Chain, NoDup, NewLoc, NewLocs, CarvedList, CarvedHead, Owns;
    var s' := Step(s, CarveFor(key));
    var cls := key.cls;
    var list := CarvedList(s.m, cls);
    var lists' := lists[key := list];
    assert ListOk(s, lists, key);
    ChainEnd(s.m.next, lists[key]);
    forall k | k in lists' ensures ListOk(s', lists', k) {
      if k == key {
        CarvedChain(s.m, cls);
        NewLocsNoDup(s.m, cls);
        forall l | l in list ensures l in s'.m.flags && s'.m.flags[l] == ITEM_FREE && l != 0 && ClassOf(l) == cls {
          CarvedListIs(s.m, cls, l);
        }
      } else {
        assert ListOk(s, lists, k);
        forall l | l in lists[k] ensures l !in NewLocs(s.m, cls) {
          if l in NewLocs(s.m, cls) { NewIsNew(s.m, cls, l); }
        }
        ChainFrame(s.m.next, s'.m.next, s.heads[k], lists[k]);
      }
    }
    forall k, l | k in lists && l in lists[k] ensures l in s.m.flags {
      assert ListOk(s, lists, k);
    }
  }

  lemma CarveApart(m: Mem, lists: Lists, key: Key)
    requires Carved(m) && Carvable(m, key.cls) && Apart(lists) && key in lists && lists[key] == []
    requires forall k, l | k in lists && l in lists[k] :: l in m.flags
    ensures Apart(lists[key := CarvedList(m, key.cls)])
  {
    hide Carved, CarvedList;
    var lists' := lists[key := CarvedList(m, key.cls)];
    forall k1, k2, l | k1 in lists' && k2 in lists' && l in lists'[k1] && l in lists'[k2] ensures k1 == k2 {
      if l in CarvedList(m, key.cls) {
        CarvedListIs(m, key.cls, l);
        NewIsNew(m, key.cls, l);
      }
    }
  }

  lemma CarveCovered(m: Mem, lists: Lists, key: Key)
    requires Carved(m) && Carvable(m, key.cls) && Covered(m, lists) && key in lists && lists[key] == []
    ensures Covered(Carve(m, key.cls), lists[key := CarvedList(m, key.cls)])
  {
    hide Carved, CarvedList, NewLocs;
    var lists' := lists[key := CarvedList(m, key.cls)];
    var m' := Carve(m, key.cls);
    forall l | l in m'.flags && m'.flags[l] == ITEM_FREE && l != 0 ensures InSome(lists', l) {
      if l in NewLocs(m, key.cls) {
        CarvedListIs(m, key.cls, l);
        assert l in lists'[key];
      } else {
        var k :| k in lists && l in lists[k];
        assert l in lists'[k];
      }
    }
  }

  /** A fresh slab brings only new items, and never hands out item 0. */
  lemma CarveKeeps(s: System, lists: Lists, key: Key) returns (lists': Lists)
    requires Inv(s, lists) && Enabled(s, CarveFor(key))
    ensures key.cls < |s.m.slabs| && Inv(Step(s, CarveFor(key)), lists')
  {
    hide Carved, Linked, Apart, Covered, Carvable, CarvedList, Carve;
    CarveLinked(s, lists, key);
    CarveApart(s.m, lists, key);
    CarveCovered(s.m, lists, key);
    CarveIsCarved(s.m, key.cls);
    lists' := lists[key := CarvedList(s.m, key.cls)];
  }

  // ----- runs ---------------------------------------------------------------

  function Start(keys: set<Key>): System
  {
    System(Mem(seq(CLASSES, _ => 0), map[], map[]), map key | key in keys :: None)
  }

  /** Any interleaving of the workers' steps from an empty store. */
  ghost predicate Run(keys: set<Key>, trace: seq<System>, acts: seq<Action>)
  {
    && (forall key | key in keys :: key.cls < CLASSES)
    && |trace| == |acts| + 1
    && trace[0] == Start(keys)
    && forall k: nat | k < |acts| :: Follows(trace, acts, k)
  }

  /** Action k leads from state k to state k + 1. */
  ghost predicate Follows(trace: seq<System>, acts: seq<Action>, k: nat)
    requires |trace| == |acts| + 1 && k < |acts|
  {
    Enabled(trace[k], acts[k]) && trace[k + 1] == Step(trace[k], acts[k])
  }

  lemma {:induction false} RunInv(keys: set<Key>, trace: seq<System>, acts: seq<Action>, k: nat) returns (lists: Lists)
    requires Run(keys, trace, acts) && k <= |acts|
    ensures Inv(trace[k], lists)
  {
    hide Inv, Step, Enabled;
    if k == 0 {
      lists := map key | key in keys :: [];
      StartInv(keys);
    } else {
      var before := RunInv(keys, trace, acts, k - 1);
      assert Follows(trace, acts, k - 1);
      lists := StepKeeps(trace[k - 1], before, acts[k - 1]);
    }
  }

  lemma StartInv(keys: set<Key>)
    requires forall key | key in keys :: key.cls < CLASSES
    ensures Inv(Start(keys), map key | key in keys :: [])
  {
  }

  lemma StepKeeps(s: System, lists: Lists, a: Action) returns (lists': Lists)
    requires Inv(s, lists) && Enabled(s, a)
    ensures Inv(Step(s, a), lists')
  {
    hide Inv, Step, Carvable;
    match a
    case CarveFor(key) => lists' := CarveKeeps(s, lists, key);
    case EvictFor(key, offset) => lists' := EvictKeeps(s, lists, key, offset);
    case PopFor(key) => lists' := PopKeeps(s, lists, key);
  }

  /** An item in use stays in use until it is evicted. */
  lemma {:induction false} StaysInUse(keys: set<Key>, trace: seq<System>, acts: seq<Action>, loc: nat, i: nat, j: nat)
    requires Run(keys, trace, acts) && i <= j <= |acts|
    requires loc in trace[i].m.flags && trace[i].m.flags[loc] == IN_USE
    requires forall m | i <= m < j && acts[m].EvictFor? :: Evictee(acts[m].key, acts[m].offset) != loc
    ensures loc in trace[j].m.flags && trace[j].m.flags[loc] == IN_USE
  {
    hide Inv, Enabled, Step, Evictee;
    if i < j {
      StaysInUse(keys, trace, acts, loc, i, j - 1);
      assert Follows(trace, acts, j - 1);
      var lists := RunInv(keys, trace, acts, j - 1);
      StepKeepsUse(trace[j - 1], lists, acts[j - 1], loc);
    }
  }

  lemma StepKeepsUse(s: System, lists: Lists, a: Action, loc: nat)
    requires Inv(s, lists) && Enabled(s, a)
    requires loc in s.m.flags && s.m.flags[loc] == IN_USE
    requires a.EvictFor? ==> Evictee(a.key, a.offset) != loc
    ensures loc in Step(s, a).m.flags && Step(s, a).m.flags[loc] == IN_USE
  {
    hide Inv, Carvable, Chain, Evictee, Carve;
    if a.CarveFor? {
      CarveKeepsUse(s, lists, a.key, loc);
    }
  }

  lemma CarveKeepsUse(s: System, lists: Lists, key: Key, loc: nat)
    requires Inv(s, lists) && Enabled(s, CarveFor(key)) && loc in s.m.flags
    ensures loc in Carve(s.m, key.cls).flags && Carve(s.m, key.cls).flags[loc] == s.m.flags[loc]
  {
    hide Linked, Apart, Covered, Carved;
    if loc in NewLocs(s.m, key.cls) {
      NewIsNew(s.m, key.cls, loc);
    }
  }

  /** Action i pops item loc. */
  ghost predicate Pops(trace: seq<System>, acts: seq<Action>, i: nat, loc: nat)
    requires |trace| == |acts| + 1 && i < |acts|
  {
    acts[i].PopFor? && acts[i].key in trace[i].heads && trace[i].heads[acts[i].key] == Some(loc)
  }

  /** No double allocation: between two allocations of one item, to whichever workers, it has been evicted. */
  lemma NoDoubleAllocation(keys: set<Key>, trace: seq<System>, acts: seq<Action>, i: nat, j: nat, loc: nat)
    requires Run(keys, trace, acts) && i < j < |acts|
    requires Pops(trace, acts, i, loc) && Pops(trace, acts, j, loc)
    ensures exists m: nat :: i < m < j && acts[m].EvictFor? && Evictee(acts[m].key, acts[m].offset) == loc
  {
    hide Inv, Carvable, Chain, Evictee;
    assert Follows(trace, acts, i) && Follows(trace, acts, j);
    var lists := RunInv(keys, trace, acts, i);
    var lists' := PopKeeps(trace[i], lists, acts[i].key);
    var later := RunInv(keys, trace, acts, j);
    var later' := PopKeeps(trace[j], later, acts[j].key);
    if forall m: nat | i < m < j && acts[m].EvictFor? :: Evictee(acts[m].key, acts[m].offset) != loc {
      StaysInUse(keys, trace, acts, loc, i + 1, j);
    }
  }

  /** What a worker pops is its own: free before, of its class, not item 0, and in nobody's list afterwards. */
  lemma PopIsExclusive(keys: set<Key>, trace: seq<System>, acts: seq<Action>, i: nat, loc: nat)
    returns (lists: Lists, lists': Lists)
    requires Run(keys, trace, acts) && i < |acts| && Pops(trace, acts, i, loc)
    ensures Inv(trace[i], lists) && Allocatable(trace[i], lists, acts[i].key, loc)
    ensures Inv(trace[i + 1], lists') && !InSome(lists', loc)
  {
    hide Inv, Allocatable, InSome;
    assert Follows(trace, acts, i);
    lists := RunInv(keys, trace, acts, i);
    lists' := PopKeeps(trace[i], lists, acts[i].key);
  }
}
