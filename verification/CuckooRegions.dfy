/**
 Region independence.  An operation reads and writes only the buckets of the
 region its hash falls into, so the final content of a region depends on the
 operations aimed at it and on their order alone.
 */
module CuckooRegions {
  import opened GpuHash
  import opened CuckooSpec
  import opened CuckooLaws

  function RegionOf(op: Op): nat
  {
    Region(Home(op.elem.hash))
  }

  ghost predicate AgreeOn(t1: Table, t2: Table, region: nat)
  {
    forall i: nat | i < BUC_NUM && Region(i) == region :: t1[i] == t2[i]
  }

  lemma ChainRegion(hash: Word, sig: Word, advance: bool)
    ensures Region(Alt(hash, sig)) == Region(Home(hash))
    ensures Region(Home(if advance then Alt(hash, sig) else hash)) == Region(Home(hash))
  {
    PairInOneRegion(hash, sig);
    HomeIdempotent(Alt(hash, sig));
  }

  lemma {:induction false} ChainFrame(t: Table, hash: Word, major: nat, e: Entry, n: nat, advance: bool, j: nat)
    requires major < ELEM_NUM && n <= MAX_CUCKOO_NUM
    requires j < BUC_NUM && Region(j) != Region(Home(hash))
    ensures Chain(t, hash, major, e, n, advance).table[j] == t[j]
    decreases MAX_CUCKOO_NUM - n
  {
    hide Alt, Home, Region, MatchLane, EmptyLane;
    ChainRegion(hash, e.sig, advance);
    var i := Alt(hash, e.sig);
    if MatchLane(t[i], e.sig).None? && EmptyLane(t[i], major).None? && n < MAX_CUCKOO_NUM {
      ChainFrame(PutAt(t, i, major, e), if advance then i else hash, major, EntryAt(t, i, major), n + 1, advance, j);
    }
  }

  lemma {:induction false} ChainLocal(t1: Table, t2: Table, hash: Word, major: nat, e: Entry, n: nat, advance: bool)
    requires major < ELEM_NUM && n <= MAX_CUCKOO_NUM
    requires AgreeOn(t1, t2, Region(Home(hash)))
    ensures AgreeOn(Chain(t1, hash, major, e, n, advance).table, Chain(t2, hash, major, e, n, advance).table,
            Region(Home(hash)))
    decreases MAX_CUCKOO_NUM - n
  {
    hide Alt, Home, Region, MatchLane, EmptyLane;
    ChainRegion(hash, e.sig, advance);
    var i := Alt(hash, e.sig);
    assert t1[i] == t2[i];
    if MatchLane(t1[i], e.sig).None? && EmptyLane(t1[i], major).None? && n < MAX_CUCKOO_NUM {
      ChainLocal(PutAt(t1, i, major, e), PutAt(t2, i, major, e), if advance then i else hash, major,
                 EntryAt(t1, i, major), n + 1, advance);
    }
  }

  /** An operation leaves every other region as it was. */
  lemma StepFrame(t: Table, op: Op, advance: bool, j: nat)
    requires j < BUC_NUM && Region(j) != RegionOf(op)
    ensures Step(t, op, advance)[j] == t[j]
  {
    hide Alt, Home, Region, Chain;
    var r := op.elem;
    PairInOneRegion(r.hash, r.sig);
    if op.Ins? {
      ChainFrame(t, r.hash, Major(r.sig), Entry(r.sig, r.loc), 0, advance, j);
    }
  }

  /** Its effect on its own region is a function of that region. */
  lemma StepLocal(t1: Table, t2: Table, op: Op, advance: bool)
    requires AgreeOn(t1, t2, RegionOf(op))
    ensures AgreeOn(Step(t1, op, advance), Step(t2, op, advance), RegionOf(op))
  {
    hide Alt, Home, Region, Chain;
    var r := op.elem;
    PairInOneRegion(r.hash, r.sig);
    assert t1[Home(r.hash)] == t2[Home(r.hash)];
    assert t1[Alt(r.hash, r.sig)] == t2[Alt(r.hash, r.sig)];
    if op.Ins? {
      ChainLocal(t1, t2, r.hash, Major(r.sig), Entry(r.sig, r.loc), 0, advance);
    }
  }

  function Only(ops: seq<Op>, region: nat): seq<Op>
  {
    if ops == [] then []
    else
      var op := ops[|ops| - 1];
      Only(ops[..|ops| - 1], region) + (if RegionOf(op) == region then [op] else [])
  }

  /** A region ends up as if only its own operations had run. */
  lemma {:induction false} RunProjects(t: Table, ops: seq<Op>, advance: bool, region: nat)
    ensures AgreeOn(Run(t, ops, advance), Run(t, Only(ops, region), advance), region)
  {
    hide Step, Region;
    if ops != [] {
      var n := |ops| - 1;
      var op := ops[n];
      var mine := Only(ops[..n], region);
      RunProjects(t, ops[..n], advance, region);
      if RegionOf(op) == region {
        assert Only(ops, region) == mine + [op];
        assert (mine + [op])[..|mine|] == mine;
        StepLocal(Run(t, ops[..n], advance), Run(t, mine, advance), op, advance);
      } else {
        assert Only(ops, region) == mine;
        forall i: nat | i < BUC_NUM && Region(i) == region
          ensures Run(t, ops, advance)[i] == Run(t, mine, advance)[i]
        {
          StepFrame(Run(t, ops[..n], advance), op, advance, i);
        }
      }
    }
  }

  /**
   Two schedules that order the operations of every single region alike build the
   same table: blocks working on different regions may be interleaved freely.
   */
  lemma SchedulesAgree(t: Table, ops1: seq<Op>, ops2: seq<Op>, advance: bool)
    requires forall region: nat :: Only(ops1, region) == Only(ops2, region)
    ensures Run(t, ops1, advance) == Run(t, ops2, advance)
  {
    var t1, t2 := Run(t, ops1, advance), Run(t, ops2, advance);
    forall i: nat | i < BUC_NUM ensures t1[i] == t2[i] {
      var region := Region(i);
      RunProjects(t, ops1, advance, region);
      RunProjects(t, ops2, advance, region);
      assert Only(ops1, region) == Only(ops2, region);
    }
  }

  /** Operations of two different regions commute. */
  lemma DifferentRegionsCommute(t: Table, a: Op, b: Op, advance: bool)
    requires RegionOf(a) != RegionOf(b)
    ensures Step(Step(t, a, advance), b, advance) == Step(Step(t, b, advance), a, advance)
  {
    hide Step, RegionOf;
    forall region: nat ensures Only([a, b], region) == Only([b, a], region) {
      assert [a, b][..1] == [a] && [b, a][..1] == [b];
    }
    SchedulesAgree(t, [a, b], [b, a], advance);
    assert [a, b][..1] == [a] && [b, a][..1] == [b];
    assert Run(t, [a], advance) == Step(t, a, advance);
    assert Run(t, [b], advance) == Step(t, b, advance);
  }
}
