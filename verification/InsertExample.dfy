/**
 An insert that is taken for counted although it is not: three swaps, and the
 clearing in between, fall between the write of the element and the count.
 */
module InsertExample {
  import opened BatchSpec
  import opened TripleBuffer
  import opened InsertRetry

  const MAX_TOTAL: int := 1000
  const MAX_BLOCK: int := 1000

  /** One step. */
  ghost predicate Moves(s: Insert, a: Step, s': Insert)
  {
    Shaped(s) && Can(s, a) && s' == Do(s, a, MAX_TOTAL, MAX_BLOCK)
  }

  /** The steps lead from s to s'. */
  ghost predicate Leads(s: Insert, steps: seq<Step>, s': Insert)
  {
    if steps == [] then s == s'
    else var n := |steps| - 1; exists m: Insert :: Leads(s, steps[..n], m) && Moves(m, steps[n], s')
  }

  lemma Then(s: Insert, steps: seq<Step>, m: Insert, a: Step, s': Insert)
    requires Leads(s, steps, m) && Moves(m, a, s')
    ensures Leads(s, steps + [a], s')
  {
    hide Moves;
    assert (steps + [a])[..|steps|] == steps;
  }

  lemma Nothing(s: Insert)
    ensures Leads(s, [], s)
  {
  }

  /** The steps make a run. */
  lemma {:induction false} LeadsIsRun(elem: int, steps: seq<Step>, s: Insert) returns (trace: seq<Insert>)
    requires Leads(Start(elem), steps, s)
    ensures Runs(trace, steps, MAX_TOTAL, MAX_BLOCK) && trace[0] == Start(elem) && trace[|steps|] == s
  {
    hide Start, Moves;
    if steps == [] {
      trace := [s];
    } else {
      var n := |steps| - 1;
      var m: Insert :| Leads(Start(elem), steps[..n], m) && Moves(m, steps[n], s);
      var before := LeadsIsRun(elem, steps[..n], m);
      trace := before + [s];
      forall k: nat | k < |steps| ensures Follows(trace, steps, MAX_TOTAL, MAX_BLOCK, k) {
        if k < n {
          assert Follows(before, steps[..n], MAX_TOTAL, MAX_BLOCK, k);
        } else {
          MoveFollows(m, steps[n], s);
        }
      }
    }
  }

  lemma MoveFollows(m: Insert, a: Step, s: Insert)
    requires Moves(m, a, s)
    ensures Shaped(m) && Can(m, a) && s == Do(m, a, MAX_TOTAL, MAX_BLOCK)
  {
  }

  /** The worker after n full turns of its buffers. */
  function Turned(n: nat): Worker
  {
    Worker(Batch([Buf([]), Buf([]), Buf([])], n % 3, NONE, NONE, (n + 1) % 3, (n + 2) % 3, if n == 0 then -1 else 0),
        Waiting, n, n, n, n, [], [])
  }

  /** The receiver inserting the second element, a: its state while it works on buffer 0. */
  function Second(w: Worker, c: Counts, a: int, b: int, pc: Pc, tmp: int, stale: bool): Insert
  {
    Insert(w, [c, Counts(0, 0), Counts(0, 0)], [map[0 := a, 1 := b], map[], map[]], pc, 0, tmp, b, 0, Counts(1, 1),
        1, stale, false)
  }

  function First(c: Counts, a: int, pc: Pc, written: bool, tmp: int): Insert
  {
    Insert(Turned(0), [c, Counts(0, 0), Counts(0, 0)], [if written then map[0 := a] else map[], map[], map[]], pc, 0,
        tmp, a, 0, Counts(0, 0), 0, false, false)
  }

  // ----- the first insert ---------------------------------------------------

  lemma FirstWritten(a: int)
    ensures Start(a) == First(Counts(0, 0), a, Reading, false, 0)
    ensures Moves(First(Counts(0, 0), a, Reading, false, 0), Receive, First(Counts(0, 0), a, HasId, false, 0))
    ensures Moves(First(Counts(0, 0), a, HasId, false, 0), Receive, First(Counts(0, 0), a, Checked, false, 0))
    ensures Moves(First(Counts(0, 0), a, Checked, false, 0), Receive, First(Counts(0, 0), a, Written, true, 0))
  {
  }

  lemma FirstCounted(a: int)
    ensures Moves(First(Counts(0, 0), a, Written, true, 0), Receive, First(Counts(0, 0), a, BlockLoaded, true, 0))
    ensures Moves(First(Counts(0, 0), a, BlockLoaded, true, 0), Receive, First(Counts(0, 1), a, BlockStored, true, 0))
    ensures Moves(First(Counts(0, 1), a, BlockStored, true, 0), Receive, First(Counts(0, 1), a, TotalLoaded, true, 0))
    ensures Moves(First(Counts(0, 1), a, TotalLoaded, true, 0), Receive, First(Counts(1, 1), a, TotalStored, true, 0))
    ensures Moves(First(Counts(1, 1), a, TotalStored, true, 0), Receive, First(Counts(1, 1), a, Finished, true, 0))
  {
  }

  lemma InsertFirst(a: int) returns (steps: seq<Step>)
    ensures Leads(Start(a), steps, First(Counts(1, 1), a, Finished, true, 0))
  {
    hide Leads, Moves, First, Start;
    var s := Start(a);
    FirstWritten(a);
    FirstCounted(a);
    steps := [];
    Nothing(s);
    Then(s, steps, s, Receive, First(Counts(0, 0), a, HasId, false, 0));
    steps := steps + [Receive];
    Then(s, steps, First(Counts(0, 0), a, HasId, false, 0), Receive, First(Counts(0, 0), a, Checked, false, 0));
    steps := steps + [Receive];
    Then(s, steps, First(Counts(0, 0), a, Checked, false, 0), Receive, First(Counts(0, 0), a, Written, true, 0));
    steps := steps + [Receive];
    Then(s, steps, First(Counts(0, 0), a, Written, true, 0), Receive, First(Counts(0, 0), a, BlockLoaded, true, 0));
    steps := steps + [Receive];
    Then(s, steps, First(Counts(0, 0), a, BlockLoaded, true, 0), Receive, First(Counts(0, 1), a, BlockStored, true, 0));
    steps := steps + [Receive];
    Then(s, steps, First(Counts(0, 1), a, BlockStored, true, 0), Receive, First(Counts(0, 1), a, TotalLoaded, true, 0));
    steps := steps + [Receive];
    Then(s, steps, First(Counts(0, 1), a, TotalLoaded, true, 0), Receive, First(Counts(1, 1), a, TotalStored, true, 0));
    steps := steps + [Receive];
    Then(s, steps, First(Counts(1, 1), a, TotalStored, true, 0), Receive, First(Counts(1, 1), a, Finished, true, 0));
    steps := steps + [Receive];
  }

  // ----- the second insert --------------------------------------------------

  /** The second insert before its write. */
  function Fresh(a: int, b: int, pc: Pc): Insert
  {
    Insert(Turned(0), [Counts(1, 1), Counts(0, 0), Counts(0, 0)], [map[0 := a], map[], map[]], pc, 0, 0, b, 0,
           if pc == Reading then Counts(0, 0) else Counts(1, 1), 0, false, false)
  }

  lemma SecondWritten(a: int, b: int)
    ensures Moves(First(Counts(1, 1), a, Finished, true, 0), Begin(b), Fresh(a, b, Reading))
    ensures Moves(Fresh(a, b, Reading), Receive, Fresh(a, b, HasId))
    ensures Moves(Fresh(a, b, HasId), Receive, Fresh(a, b, Checked))
    ensures Moves(Fresh(a, b, Checked), Receive, Second(Turned(0), Counts(1, 1), a, b, Written, 0, false))
  {
  }

  lemma WriteSecond(s: Insert, before: seq<Step>, a: int, b: int) returns (steps: seq<Step>)
    requires Leads(s, before, First(Counts(1, 1), a, Finished, true, 0))
    ensures Leads(s, steps, Second(Turned(0), Counts(1, 1), a, b, Written, 0, false))
  {
    hide Leads, Moves, First, Fresh, Second;
    SecondWritten(a, b);
    Then(s, before, First(Counts(1, 1), a, Finished, true, 0), Begin(b), Fresh(a, b, Reading));
    steps := before + [Begin(b)];
    Then(s, steps, Fresh(a, b, Reading), Receive, Fresh(a, b, HasId));
    steps := steps + [Receive];
    Then(s, steps, Fresh(a, b, HasId), Receive, Fresh(a, b, Checked));
    steps := steps + [Receive];
    Then(s, steps, Fresh(a, b, Checked), Receive, Second(Turned(0), Counts(1, 1), a, b, Written, 0, false));
    steps := steps + [Receive];
  }

  // ----- three turns of the buffers -----------------------------------------

  /** The worker whose scheduler has taken buffer n. */
  function Swapped(n: nat): Worker
    requires n < 3
  {
    Worker(Batch([Buf([]), Buf([]), Buf([])], (n + 1) % 3, n, NONE, (n + 2) % 3, NONE, if n == 0 then -1 else 0),
        Waiting, n + 1, n, n, n, [], [])
  }

  /** The worker whose sender has buffer n. */
  function Handed(n: nat, sender: SenderPc): Worker
    requires n < 3
  {
    Worker(Batch([Buf([]), Buf([]), Buf([])], (n + 1) % 3, NONE, n, (n + 2) % 3, NONE, 0), sender, n + 1, n + 1, n,
        n, [], [])
  }

  function GivenBack(n: nat): Worker
    requires n < 3
  {
    Worker(Batch([Buf([]), Buf([]), Buf([])], (n + 1) % 3, NONE, n, (n + 2) % 3, n, 0), Pushed, n + 1, n + 1, n + 1,
        n, [], [])
  }

  lemma HandOver(n: nat, c: Counts, a: int, b: int, stale: bool)
    requires n < 3
    ensures Moves(Second(Turned(n), c, a, b, Written, 0, stale), TakeBuffer,
            Second(Swapped(n), c, a, b, Written, 0, stale))
    ensures Moves(Second(Swapped(n), c, a, b, Written, 0, stale), GiveBuffer(true),
            Second(Handed(n, Waiting), c, a, b, Written, 0, stale))
    ensures Moves(Second(Handed(n, Waiting), c, a, b, Written, 0, stale), See,
            Second(Handed(n, Sending), c, a, b, Written, 0, stale))
  {
  }

  lemma GiveBack(n: nat, c: Counts, a: int, b: int, stale: bool)
    requires n < 3
    ensures Moves(Second(Handed(n, Sending), c, a, b, Written, 0, stale), Refreshing,
            Second(Handed(n, Refreshed), c, a, b, Written, 0, stale))
    ensures Moves(Second(Handed(n, Refreshed), c, a, b, Written, 0, stale), Pushing,
            Second(GivenBack(n), c, a, b, Written, 0, stale))
    ensures Moves(Second(GivenBack(n), c, a, b, Written, 0, stale), Resetting,
            Second(Turned(n + 1), c, a, b, Written, 0, stale))
  {
  }

  lemma ClearFirst(a: int, b: int)
    ensures Moves(Second(Handed(0, Sending), Counts(1, 1), a, b, Written, 0, false), ClearTotal,
                  Second(Handed(0, Sending), Counts(0, 1), a, b, Written, 0, false))
    ensures Moves(Second(Handed(0, Sending), Counts(0, 1), a, b, Written, 0, false), ClearBlock,
                  Second(Handed(0, Sending), Counts(0, 0), a, b, Written, 0, true))
  {
  }

  lemma TakeTurn(s: Insert, before: seq<Step>, n: nat, c: Counts, a: int, b: int, stale: bool)
    returns (steps: seq<Step>)
    requires n < 3 && Leads(s, before, Second(Turned(n), c, a, b, Written, 0, stale))
    ensures Leads(s, steps, Second(Handed(n, Sending), c, a, b, Written, 0, stale))
  {
    hide Leads, Moves, Second, Turned, Swapped, Handed;
    HandOver(n, c, a, b, stale);
    Then(s, before, Second(Turned(n), c, a, b, Written, 0, stale), TakeBuffer,
        Second(Swapped(n), c, a, b, Written, 0, stale));
    steps := before + [TakeBuffer];
    Then(s, steps, Second(Swapped(n), c, a, b, Written, 0, stale), GiveBuffer(true),
        Second(Handed(n, Waiting), c, a, b, Written, 0, stale));
    steps := steps + [GiveBuffer(true)];
    Then(s, steps, Second(Handed(n, Waiting), c, a, b, Written, 0, stale), See,
        Second(Handed(n, Sending), c, a, b, Written, 0, stale));
    steps := steps + [See];
  }

  lemma EndTurn(s: Insert, before: seq<Step>, n: nat, c: Counts, a: int, b: int, stale: bool) returns (steps: seq<Step>)
    requires n < 3 && Leads(s, before, Second(Handed(n, Sending), c, a, b, Written, 0, stale))
    ensures Leads(s, steps, Second(Turned(n + 1), c, a, b, Written, 0, stale))
  {
    hide Leads, Moves, Second, Turned, GivenBack, Handed;
    GiveBack(n, c, a, b, stale);
    Then(s, before, Second(Handed(n, Sending), c, a, b, Written, 0, stale), Refreshing,
        Second(Handed(n, Refreshed), c, a, b, Written, 0, stale));
    steps := before + [Refreshing];
    Then(s, steps, Second(Handed(n, Refreshed), c, a, b, Written, 0, stale), Pushing,
        Second(GivenBack(n), c, a, b, Written, 0, stale));
    steps := steps + [Pushing];
    Then(s, steps, Second(GivenBack(n), c, a, b, Written, 0, stale), Resetting,
        Second(Turned(n + 1), c, a, b, Written, 0, stale));
    steps := steps + [Resetting];
  }

  /** In the first turn the sender clears the buffer the receiver is still writing to. */
  lemma ThreeTurns(s: Insert, before: seq<Step>, a: int, b: int) returns (steps: seq<Step>)
    requires Leads(s, before, Second(Turned(0), Counts(1, 1), a, b, Written, 0, false))
    ensures Leads(s, steps, Second(Turned(3), Counts(0, 0), a, b, Written, 0, true))
  {
    hide Leads, Moves, Second, Turned, Handed;
    steps := TakeTurn(s, before, 0, Counts(1, 1), a, b, false);
    ClearFirst(a, b);
    Then(s, steps, Second(Handed(0, Sending), Counts(1, 1), a, b, Written, 0, false), ClearTotal,
         Second(Handed(0, Sending), Counts(0, 1), a, b, Written, 0, false));
    steps := steps + [ClearTotal];
    Then(s, steps, Second(Handed(0, Sending), Counts(0, 1), a, b, Written, 0, false), ClearBlock,
         Second(Handed(0, Sending), Counts(0, 0), a, b, Written, 0, true));
    steps := steps + [ClearBlock];
    steps := EndTurn(s, steps, 0, Counts(0, 0), a, b, true);
    steps := TakeTurn(s, steps, 1, Counts(0, 0), a, b, true);
    steps := EndTurn(s, steps, 1, Counts(0, 0), a, b, true);
    steps := TakeTurn(s, steps, 2, Counts(0, 0), a, b, true);
    steps := EndTurn(s, steps, 2, Counts(0, 0), a, b, true);
  }

  // ----- the count ----------------------------------------------------------

  lemma SecondCounted(a: int, b: int)
    ensures var w := Turned(3);
            && Moves(Second(w, Counts(0, 0), a, b, Written, 0, true), Receive,
               Second(w, Counts(0, 0), a, b, BlockLoaded, 0, true))
            && Moves(Second(w, Counts(0, 0), a, b, BlockLoaded, 0, true), Receive,
               Second(w, Counts(0, 1), a, b, BlockStored, 0, true))
            && Moves(Second(w, Counts(0, 1), a, b, BlockStored, 0, true), Receive,
               Second(w, Counts(0, 1), a, b, TotalLoaded, 0, true))
            && Moves(Second(w, Counts(0, 1), a, b, TotalLoaded, 0, true), Receive,
               Second(w, Counts(1, 1), a, b, TotalStored, 0, true))
            && Moves(Second(w, Counts(1, 1), a, b, TotalStored, 0, true), Receive,
               Second(w, Counts(1, 1), a, b, Finished, 0, true))
  {
  }

  /** The receiver counts, and finds its buffer id unchanged. */
  lemma CountSecond(s: Insert, before: seq<Step>, a: int, b: int) returns (steps: seq<Step>)
    requires Leads(s, before, Second(Turned(3), Counts(0, 0), a, b, Written, 0, true))
    ensures Leads(s, steps, Second(Turned(3), Counts(1, 1), a, b, Finished, 0, true))
  {
    hide Leads, Moves, Second, Turned;
    SecondCounted(a, b);
    var w := Turned(3);
    steps := before;
    Then(s, steps, Second(w, Counts(0, 0), a, b, Written, 0, true), Receive,
        Second(w, Counts(0, 0), a, b, BlockLoaded, 0, true));
    steps := steps + [Receive];
    Then(s, steps, Second(w, Counts(0, 0), a, b, BlockLoaded, 0, true), Receive,
        Second(w, Counts(0, 1), a, b, BlockStored, 0, true));
    steps := steps + [Receive];
    Then(s, steps, Second(w, Counts(0, 1), a, b, BlockStored, 0, true), Receive,
        Second(w, Counts(0, 1), a, b, TotalLoaded, 0, true));
    steps := steps + [Receive];
    Then(s, steps, Second(w, Counts(0, 1), a, b, TotalLoaded, 0, true), Receive,
        Second(w, Counts(1, 1), a, b, TotalStored, 0, true));
    steps := steps + [Receive];
    Then(s, steps, Second(w, Counts(1, 1), a, b, TotalStored, 0, true), Receive,
        Second(w, Counts(1, 1), a, b, Finished, 0, true));
    steps := steps + [Receive];
  }

  /**
   Two inserts from an empty pipeline.  The second finishes after three swaps: one
   element is counted, but it is the first one once more, and the second is not.
   */
  lemma ThreeSwapsLoseInsert(a: int, b: int) returns (trace: seq<Insert>, steps: seq<Step>)
    ensures Runs(trace, steps, MAX_TOTAL, MAX_BLOCK) && trace[0] == Start(a)
    ensures var s := trace[|steps|];
            && |s.counts| == 3 && |s.entries| == 3 && s.id == 0 && s.pc == Finished && s.elem == b
               && s.w.taken == s.since + 3
            && s.counts[0] == Counts(1, 1) && s.entries[0] == map[0 := a, 1 := b] && !Counted(s)
  {
    hide Leads, Runs, Start;
    steps := InsertFirst(a);
    steps := WriteSecond(Start(a), steps, a, b);
    steps := ThreeTurns(Start(a), steps, a, b);
    steps := CountSecond(Start(a), steps, a, b);
    trace := LeadsIsRun(a, steps, Second(Turned(3), Counts(1, 1), a, b, Finished, 0, true));
  }
}
