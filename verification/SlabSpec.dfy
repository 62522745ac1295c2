/**
 Items in slabs: the 32-bit locations that name them, and the operations that
 carve slabs and move items between use and the workers' free lists.
 */
module SlabSpec {
  import opened Wrappers

  const PERSLAB: nat := 0x8000            // items in a slab, 1 << perslab_bits
  const CLASSES: nat := 8                 // 1 << SLAB_ID_BITS
  const CLASS_UNIT: nat := 0x2000_0000    // 1 << (loc_bits - SLAB_ID_BITS)
  const MAX_ELEM: nat := 0x1000_0000      // slabclass_max_elem_num

  const IN_USE: nat := 0
  const ITEM_FREE: nat := 1

  /** Where an item lies: index x in slab number `slab` of its class. */
  datatype Addr = Addr(cls: nat, slab: nat, x: nat)

  /** The location written into an item when its slab is carved, modulo 2^32. */
  function LocOf(a: Addr): (loc: nat)
  {
    (a.cls * CLASS_UNIT + PERSLAB * a.slab + a.x) % 0x1_0000_0000
  }

  /** loc >> (loc_bits - SLAB_ID_BITS) */
  function ClassOf(loc: nat): nat
  {
    loc / CLASS_UNIT
  }

  /** (loc << SLAB_ID_BITS) >> SLAB_ID_BITS on 32 bits */
  function OffsetOf(loc: nat): nat
  {
    (loc * 8 % 0x1_0000_0000) / 8
  }

  /** slab_loc_to_ptr */
  function AddrOf(loc: nat): Addr
  {
    Addr(ClassOf(loc), OffsetOf(loc) / PERSLAB, OffsetOf(loc) % PERSLAB)
  }

  /** A place in one of the slabs the bitmap's cap admits. */
  predicate InRange(a: Addr)
  {
    a.cls < CLASSES && a.x < PERSLAB && PERSLAB * (a.slab + 1) < MAX_ELEM
  }

  /** A location leads back to the item that bears it, and its offset is the item's index in the class. */
  lemma LocRoundTrip(a: Addr)
    requires InRange(a)
    ensures AddrOf(LocOf(a)) == a
    ensures LocOf(a) < 0x1_0000_0000 && OffsetOf(LocOf(a)) == PERSLAB * a.slab + a.x
    ensures LocOf(a) == a.cls * CLASS_UNIT + PERSLAB * a.slab + a.x
  {
    var offset := PERSLAB * a.slab + a.x;
    assert offset < MAX_ELEM;
    var loc := a.cls * CLASS_UNIT + offset;
    assert loc < 0x1_0000_0000;
    assert loc * 8 % 0x1_0000_0000 == offset * 8;
  }

  lemma LocInjective(a: Addr, b: Addr)
    requires InRange(a) && InRange(b) && LocOf(a) == LocOf(b)
    ensures a == b
  {
    LocRoundTrip(a);
    LocRoundTrip(b);
  }

  // ----- memory -------------------------------------------------------------

  /** The flags and next fields of all items carved, by location, and the number of slabs of each class. */
  datatype Mem = Mem(slabs: seq<nat>, flags: map<nat, nat>, next: map<nat, Option<nat>>)

  /** The location of item x of the slab about to be carved. */
  function NewLoc(m: Mem, cls: nat, x: nat): nat
    requires cls < |m.slabs|
  {
    LocOf(Addr(cls, m.slabs[cls], x))
  }

  function NewLocs(m: Mem, cls: nat): (s: seq<nat>)
    requires cls < |m.slabs|
    ensures |s| == PERSLAB
  {
    seq(PERSLAB, x requires 0 <= x < PERSLAB => NewLoc(m, cls, x))
  }

  /** Carving: every item of the new slab is free and points to its neighbour, the last one nowhere. */
  function Carve(m: Mem, cls: nat): (m': Mem)
    requires cls < |m.slabs|
  {
    var locs := NewLocs(m, cls);
    Mem(m.slabs[cls := m.slabs[cls] + 1],
        m.flags + (map l | l in locs :: ITEM_FREE),
        m.next + (map l | l in locs :: if l == locs[PERSLAB - 1] then None else Some(l + 1)))
  }

  /** The head of a carved slab's list; the item with location 0 is passed over. */
  function CarvedHead(m: Mem, cls: nat): (head: Option<nat>)
    requires cls < |m.slabs|
  {
    if NewLoc(m, cls, 0) == 0 then Some(NewLoc(m, cls, 1)) else Some(NewLoc(m, cls, 0))
  }

  /** An item in use becomes free, in front of the list. */
  function PushFree(m: Mem, loc: nat, head: Option<nat>): Mem
  {
    Mem(m.slabs, m.flags[loc := ITEM_FREE], m.next[loc := head])
  }

  /** The first item of a list comes into use; its next field keeps its value. */
  function PopFree(m: Mem, loc: nat): Mem
  {
    Mem(m.slabs, m.flags[loc := IN_USE], m.next)
  }

  // ----- free lists ---------------------------------------------------------

  /** Following next from head meets exactly the items of s and then the end. */
  predicate Chain(next: map<nat, Option<nat>>, head: Option<nat>, s: seq<nat>)
    decreases s
  {
    if s == [] then head == None
    else head == Some(s[0]) && s[0] in next && Chain(next, next[s[0]], s[1..])
  }

  ghost predicate NoDup(s: seq<nat>)
  {
    forall i, j | 0 <= i < j < |s| :: s[i] != s[j]
  }

  lemma {:induction false} ChainFrame(next: map<nat, Option<nat>>, next': map<nat, Option<nat>>, head: Option<nat>,
                                      s: seq<nat>)
    requires Chain(next, head, s)
    requires forall l | l in s :: l in next' && (l in next ==> next'[l] == next[l])
    ensures Chain(next', head, s)
    decreases s
  {
    if s != [] {
      assert s[0] in s;
      forall l | l in s[1..] ensures l in s {
      }
      ChainFrame(next, next', next[s[0]], s[1..]);
    }
  }

  /** The items of a carved slab that go into the list. */
  function CarvedList(m: Mem, cls: nat): (s: seq<nat>)
    requires cls < |m.slabs|
  {
    if NewLoc(m, cls, 0) == 0 then NewLocs(m, cls)[1..] else NewLocs(m, cls)
  }

  ghost predicate Carvable(m: Mem, cls: nat)
  {
    && |m.slabs| == CLASSES && cls < CLASSES
    && PERSLAB * (m.slabs[cls] + 1) < MAX_ELEM
  }

  lemma NewLocIs(m: Mem, cls: nat, x: nat)
    requires Carvable(m, cls) && x < PERSLAB
    ensures NewLoc(m, cls, x) == cls * CLASS_UNIT + PERSLAB * m.slabs[cls] + x
    ensures AddrOf(NewLoc(m, cls, x)) == Addr(cls, m.slabs[cls], x)
    ensures NewLocs(m, cls)[x] == NewLoc(m, cls, x)
  {
    LocRoundTrip(Addr(cls, m.slabs[cls], x));
  }

  lemma NewLocsNoDup(m: Mem, cls: nat)
    requires Carvable(m, cls)
    ensures NoDup(NewLocs(m, cls)) && NoDup(CarvedList(m, cls))
  {
    hide LocOf, AddrOf;
    forall i, j | 0 <= i < j < PERSLAB ensures NewLocs(m, cls)[i] != NewLocs(m, cls)[j] {
      NewLocIs(m, cls, i);
      NewLocIs(m, cls, j);
    }
  }

  lemma {:induction false} CarvedChainFrom(m: Mem, cls: nat, x: nat)
    requires Carvable(m, cls) && x < PERSLAB
    ensures Chain(Carve(m, cls).next, Some(NewLoc(m, cls, x)), NewLocs(m, cls)[x..])
    decreases PERSLAB - x
  {
    hide LocOf, AddrOf;
    var locs := NewLocs(m, cls);
    NewLocIs(m, cls, x);
    NewLocIs(m, cls, PERSLAB - 1);
    assert locs[x] in locs;
    if x < PERSLAB - 1 {
      CarvedChainFrom(m, cls, x + 1);
      NewLocIs(m, cls, x + 1);
      assert locs[x..][1..] == locs[x + 1..];
    } else {
      assert locs[x..] == [locs[x]];
    }
  }

  lemma CarvedChain(m: Mem, cls: nat)
    requires Carvable(m, cls)
    ensures Chain(Carve(m, cls).next, CarvedHead(m, cls), CarvedList(m, cls))
  {
    hide LocOf, Carve;
    CarvedChainFrom(m, cls, 0);
    CarvedChainFrom(m, cls, 1);
    assert NewLocs(m, cls)[0..] == NewLocs(m, cls);
  }
}
