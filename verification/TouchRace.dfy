/**
 Touches as the running senders make them: without the bitmap's lock, each one a
 load of the item's word and a store of the word with the item's bit cleared,
 between any two steps of a visit by the evicting thread.
 */
module TouchRace {
  import opened Bits
  import opened ClockSpec

  /**
   One word of the bitmap, what each thread has last read of it, and how far the
   visiting thread has come: all bits below `lo` are masked, `out` lists what it evicts.
   */
  datatype Cell = Cell(word: Word64, copies: map<nat, Word64>, lo: nat, out: seq<nat>)

  datatype Act =
    | Load(a: nat)
    | Touched(a: nat, k: nat)   // thread a stores its copy with bit k cleared
    | Drained                   // the evictor looks for the next set bit of the word as it is now
    | Visited(a: nat)           // the evictor stores the complement of its copy

  predicate Possible(c: Cell, act: Act)
  {
    match act
    case Load(_) => true
    case Touched(a, k) => a in c.copies && k < BITSPERWORD
    case Drained => c.lo < BITSPERWORD
    case Visited(a) => a in c.copies
  }

  /** The lowest set bit from lo on, or 64. */
  function NextIdle(w: Word64, lo: nat): (j: nat)
    requires lo <= BITSPERWORD
    ensures lo <= j <= BITSPERWORD && (j < BITSPERWORD ==> Bit(w, j))
    ensures forall k: nat | lo <= k < j :: !Bit(w, k)
    decreases BITSPERWORD - lo
  {
    if lo == BITSPERWORD || Bit(w, lo) then lo else NextIdle(w, lo + 1)
  }

  function Apply(c: Cell, act: Act): (c': Cell)
  {
    match act
    case Load(a) => c.(copies := c.copies[a := c.word])
    case Touched(a, k) => if a in c.copies && k < BITSPERWORD then c.(word := ClearBit(c.copies[a], k)) else c
    case Drained =>
      if c.lo >= BITSPERWORD then c
      else
        var j := NextIdle(c.word, c.lo);
        if j < BITSPERWORD then c.(lo := j + 1, out := c.out + [j]) else c.(lo := BITSPERWORD)
    case Visited(a) => if a in c.copies then c.(word := Complement(c.copies[a])) else c
  }

  function Play(c: Cell, acts: seq<Act>): (c': Cell)
  {
    if acts == [] then c else Apply(Play(c, acts[..|acts| - 1]), acts[|acts| - 1])
  }

  /** No store by an evictor, and each act possible at its turn. */
  ghost predicate Touching(c: Cell, acts: seq<Act>)
  {
    forall n: nat | n < |acts| :: !acts[n].Visited? && Possible(Play(c, acts[..n]), acts[n])
  }

  ghost predicate Loaded(acts: seq<Act>, n: nat, a: nat)
    requires n <= |acts|
  {
    exists m: nat :: m < n && acts[m] == Load(a)
  }

  /** Act n writes back bit k from a copy of the word that c holds, for the sake of another item. */
  ghost predicate WritesBack(c: Cell, acts: seq<Act>, k: nat, n: nat)
    requires n < |acts|
  {
    && acts[n].Touched? && acts[n].k != k
    && acts[n].a in c.copies && Bit(c.copies[acts[n].a], k) && !Loaded(acts, n, acts[n].a)
  }

  ghost predicate NobodyWritesBack(c: Cell, acts: seq<Act>, k: nat)
  {
    forall n: nat | n < |acts| :: !WritesBack(c, acts, k, n)
  }

  ghost predicate ClearUntil(c: Cell, acts: seq<Act>, k: nat, n: nat)
    requires n <= |acts|
  {
    forall m: nat | m <= n :: !Bit(Play(c, acts[..m]).word, k)
  }

  lemma PlayNext(c: Cell, acts: seq<Act>, n: nat)
    requires n < |acts|
    ensures Play(c, acts[..n + 1]) == Apply(Play(c, acts[..n]), acts[n])
  {
    assert acts[..n + 1][..n] == acts[..n];
  }

  /** As long as the bit is clear, whoever has read the word since has read it clear. */
  lemma {:induction false} CopyIs(c: Cell, acts: seq<Act>, k: nat, n: nat, a: nat)
    requires n <= |acts| && Touching(c, acts) && ClearUntil(c, acts, k, n)
    requires a in Play(c, acts[..n]).copies
    ensures if Loaded(acts, n, a) then !Bit(Play(c, acts[..n]).copies[a], k)
            else a in c.copies && Play(c, acts[..n]).copies[a] == c.copies[a]
  {
    hide Bit, ClearBit, Complement, Loaded, Play, Touching;
    if n == 0 {
      assert acts[..0] == [];
      NothingDone(c, acts, a);
    } else {
      PlayNext(c, acts, n - 1);
      LoadedNext(acts, n - 1, a);
      assert !Bit(Play(c, acts[..n - 1]).word, k);
      if acts[n - 1] != Load(a) {
        CopyIs(c, acts, k, n - 1, a);
      }
    }
  }

  lemma NothingDone(c: Cell, acts: seq<Act>, a: nat)
    ensures Play(c, []) == c && !Loaded(acts, 0, a)
  {
  }

  lemma LoadedNext(acts: seq<Act>, n: nat, a: nat)
    requires n < |acts|
    ensures Loaded(acts, n + 1, a) <==> Loaded(acts, n, a) || acts[n] == Load(a)
  {
  }

  lemma {:induction false} NotWrittenBack(c: Cell, acts: seq<Act>, k: nat, n: nat)
    requires k < BITSPERWORD && n <= |acts| && Touching(c, acts) && !Bit(c.word, k)
    requires forall m: nat | m < n :: !WritesBack(c, acts, k, m)
    ensures ClearUntil(c, acts, k, n)
  {
    hide Bit, ClearBit, WritesBack;
    if n == 0 {
      assert acts[..0] == [];
    } else {
      NotWrittenBack(c, acts, k, n - 1);
      StaysClear(c, acts, k, n - 1);
    }
  }

  lemma StaysClear(c: Cell, acts: seq<Act>, k: nat, n: nat)
    requires k < BITSPERWORD && n < |acts| && Touching(c, acts) && ClearUntil(c, acts, k, n)
    ensures Bit(Play(c, acts[..n + 1]).word, k) <==> WritesBack(c, acts, k, n)
  {
    hide Bit, ClearBit, Play;
    PlayNext(c, acts, n);
    var s := Play(c, acts[..n]);
    assert Possible(s, acts[n]);
    assert !Bit(s.word, k);
    if acts[n].Touched? {
      CopyIs(c, acts, k, n, acts[n].a);
      ClearBitBit(s.copies[acts[n].a], acts[n].k, k);
    }
  }

  /**
   A touch lasts through any number of other touches if and only if no thread that
   had read the word before it, with the item's bit still set, writes the word back
   for another item without reading it again.
   */
  lemma TouchLastsIff(c: Cell, a: nat, k: nat, acts: seq<Act>)
    requires Possible(c, Touched(a, k)) && Touching(Apply(c, Touched(a, k)), acts)
    ensures var c' := Apply(c, Touched(a, k));
            ClearUntil(c', acts, k, |acts|) <==> NobodyWritesBack(c', acts, k)
  {
    hide Bit, ClearBit, WritesBack;
    ClearBitBit(c.copies[a], k, k);
    var c' := Apply(c, Touched(a, k));
    if NobodyWritesBack(c', acts, k) {
      NotWrittenBack(c', acts, k, |acts|);
    } else if ClearUntil(c', acts, k, |acts|) {
      var n: nat :| n < |acts| && WritesBack(c', acts, k, n);
      assert ClearUntil(c', acts, k, n);
      StaysClear(c', acts, k, n);
      assert false;
    }
  }

  /**
   A touch that falls between a visit's load and store counts as after the visit for an
   idle item, as before it for a busy one.
   */
  lemma TouchDuringVisit(c: Cell, a: nat, e: nat, k: nat)
    requires a != e && k < BITSPERWORD
    ensures var split := Play(c, [Load(e), Load(a), Touched(a, k), Visited(e)]);
            var visitFirst := Play(c, [Load(e), Visited(e), Load(a), Touched(a, k)]);
            var touchFirst := Play(c, [Load(a), Touched(a, k), Load(e), Visited(e)]);
            Bit(split.word, k) == (if Bit(c.word, k) then Bit(visitFirst.word, k) else Bit(touchFirst.word, k))
  {
    hide Bit, ClearBit, Complement;
    var w := c.word;
    Four(c, Load(e), Load(a), Touched(a, k), Visited(e));
    Four(c, Load(e), Visited(e), Load(a), Touched(a, k));
    Four(c, Load(a), Touched(a, k), Load(e), Visited(e));
    ClearBitBit(w, k, k);
    ComplementBit(w, k);
    ClearBitBit(Complement(w), k, k);
    ComplementBit(ClearBit(w, k), k);
  }

  // ----- a whole visit ------------------------------------------------------

  /** Act n takes the scan past bit k. */
  predicate Passes(c: Cell, acts: seq<Act>, k: nat, n: nat)
    requires n < |acts|
  {
    acts[n].Drained? && Play(c, acts[..n]).lo <= k < Play(c, acts[..n + 1]).lo
  }

  /** The scan comes past bit k while it is set. */
  ghost predicate PassedIdle(c: Cell, acts: seq<Act>, k: nat, n: nat)
    requires n <= |acts|
  {
    exists m: nat :: m < n && Passes(c, acts, k, m) && Bit(Play(c, acts[..m]).word, k)
  }

  lemma PassedNext(c: Cell, acts: seq<Act>, k: nat, n: nat)
    requires n < |acts|
    ensures PassedIdle(c, acts, k, n + 1) <==>
            PassedIdle(c, acts, k, n) || (Passes(c, acts, k, n) && Bit(Play(c, acts[..n]).word, k))
  {
    hide Bit, Passes, Play;
  }

  lemma {:induction false} ScanGrows(c: Cell, acts: seq<Act>, m: nat, n: nat)
    requires m <= n <= |acts|
    ensures Play(c, acts[..m]).lo <= Play(c, acts[..n]).lo
  {
    hide Bit, Play;
    if m < n {
      ScanGrows(c, acts, m, n - 1);
      PlayNext(c, acts, n - 1);
    }
  }

  /** What a scan that starts at bit 0 has evicted: the items that were idle as it came past them. */
  lemma {:induction false} EvictedAre(c: Cell, acts: seq<Act>, k: nat, n: nat)
    requires n <= |acts| && c.lo == 0 && c.out == [] && k < BITSPERWORD
    ensures k in Play(c, acts[..n]).out <==> PassedIdle(c, acts, k, n)
  {
    hide Bit, PassedIdle, Play;
    if n == 0 {
      assert acts[..0] == [];
      NothingPassed(c, acts, k);
    } else {
      EvictedAre(c, acts, k, n - 1);
      PlayNext(c, acts, n - 1);
      PassedNext(c, acts, k, n - 1);
    }
  }

  lemma NothingPassed(c: Cell, acts: seq<Act>, k: nat)
    ensures Play(c, []) == c && !PassedIdle(c, acts, k, 0)
  {
  }

  /** Acts of other threads leave what thread e has read alone. */
  lemma {:induction false} KeepsCopy(c: Cell, acts: seq<Act>, e: nat, n: nat)
    requires n <= |acts| && e in c.copies && Load(e) !in acts
    ensures e in Play(c, acts[..n]).copies && Play(c, acts[..n]).copies[e] == c.copies[e]
  {
    hide Play;
    if n == 0 {
      assert acts[..0] == [];
      NothingPassed(c, acts, 0);
    } else {
      KeepsCopy(c, acts, e, n - 1);
      PlayNext(c, acts, n - 1);
      assert acts[n - 1] in acts;
    }
  }

  /**
   A visit of thread e with any loads and touches of others between its steps.  It
   evicts the items that are idle as the scan comes past them; its store then leaves
   exactly those idle that were busy at its load, whatever was touched in between.
   */
  lemma VisitWithTouches(c: Cell, e: nat, acts: seq<Act>, k: nat)
    requires c.lo == 0 && c.out == [] && k < BITSPERWORD
    requires e in c.copies && c.copies[e] == c.word && Load(e) !in acts && Touching(c, acts)
    ensures var c' := Play(c, acts + [Visited(e)]);
            && (k in c'.out <==> PassedIdle(c, acts, k, |acts|))
            && (Bit(c'.word, k) <==> !Bit(c.word, k))
  {
    hide Bit, PassedIdle, Play, Complement;
    var all := acts + [Visited(e)];
    assert all[..|acts|] == acts == acts[..|acts|] && all[..|acts| + 1] == all;
    PlayNext(c, all, |acts|);
    KeepsCopy(c, acts, e, |acts|);
    EvictedAre(c, acts, k, |acts|);
    ComplementBit(c.word, k);
  }

  lemma {:induction false} PlayAppend(c: Cell, a: seq<Act>, b: seq<Act>)
    ensures Play(c, a + b) == Play(Play(c, a), b)
  {
    if b == [] {
      assert a + b == a;
    } else {
      var n := |b| - 1;
      assert (a + b)[..|a| + n] == a + b[..n];
      PlayAppend(c, a, b[..n]);
    }
  }

  /**
   An item touched in the middle of a visit, before the scan has come to it and with
   no thread writing its bit back, is not evicted in this visit; if it was idle at the
   visit's load it is not left idle either.
   */
  lemma TouchedInTime(c: Cell, e: nat, acts: seq<Act>, k: nat, m: nat)
    requires c.lo == 0 && c.out == [] && k < BITSPERWORD
    requires e in c.copies && c.copies[e] == c.word && Load(e) !in acts && Touching(c, acts)
    requires m < |acts| && acts[m].Touched? && acts[m].k == k && Play(c, acts[..m]).lo <= k
    requires NobodyWritesBack(Play(c, acts[..m + 1]), acts[m + 1..], k)
    ensures var c' := Play(c, acts + [Visited(e)]);
            k !in c'.out && (Bit(c.word, k) ==> !Bit(c'.word, k))
  {
    hide Bit, ClearBit, WritesBack, Touching, Passes, Play;
    VisitWithTouches(c, e, acts, k);
    var s, rest := Play(c, acts[..m + 1]), acts[m + 1..];
    RestTouching(c, acts, m);
    ClearedAt(c, acts, m);
    NotWrittenBack(s, rest, k, |rest|);
    forall n: nat | n < |acts| && Passes(c, acts, k, n) ensures !Bit(Play(c, acts[..n]).word, k) {
      PassesLate(c, acts, k, m, n);
      assert acts[..n] == acts[..m + 1] + rest[..n - m - 1];
      PlayAppend(c, acts[..m + 1], rest[..n - m - 1]);
    }
  }

  lemma PassesLate(c: Cell, acts: seq<Act>, k: nat, m: nat, n: nat)
    requires m < |acts| && n < |acts| && acts[m].Touched? && Play(c, acts[..m]).lo <= k && Passes(c, acts, k, n)
    ensures m < n
  {
    hide Play;
    if n < m {
      ScanGrows(c, acts, n + 1, m);
    }
  }

  lemma ClearedAt(c: Cell, acts: seq<Act>, m: nat)
    requires m < |acts| && acts[m].Touched? && Touching(c, acts)
    ensures !Bit(Play(c, acts[..m + 1]).word, acts[m].k)
  {
    hide Bit, ClearBit, Play;
    PlayNext(c, acts, m);
    var s := Play(c, acts[..m]);
    assert Possible(s, acts[m]);
    ClearBitBit(s.copies[acts[m].a], acts[m].k, acts[m].k);
  }

  lemma RestTouching(c: Cell, acts: seq<Act>, m: nat)
    requires m < |acts| && Touching(c, acts)
    ensures Touching(Play(c, acts[..m + 1]), acts[m + 1..])
  {
    hide Play, Possible;
    var s, rest := Play(c, acts[..m + 1]), acts[m + 1..];
    forall n: nat | n < |rest| ensures !rest[n].Visited? && Possible(Play(s, rest[..n]), rest[n]) {
      PlayAppend(c, acts[..m + 1], rest[..n]);
      assert acts[..m + 1] + rest[..n] == acts[..m + 1 + n];
      assert !acts[m + 1 + n].Visited? && Possible(Play(c, acts[..m + 1 + n]), acts[m + 1 + n]);
    }
  }

  lemma Four(c: Cell, a0: Act, a1: Act, a2: Act, a3: Act)
    ensures Play(c, [a0, a1, a2, a3]) == Apply(Apply(Apply(Apply(c, a0), a1), a2), a3)
  {
    var acts := [a0, a1, a2, a3];
    assert acts[..3][..2] == acts[..2] && acts[..2][..1] == acts[..1] && acts[..1][..0] == [];
    PlayNext(c, acts, 0);
    PlayNext(c, acts, 1);
    PlayNext(c, acts, 2);
    PlayNext(c, acts, 3);
    assert acts[..4] == acts && acts[..0] == [];
  }
}
