/**
 The lock-free insert of the receiver, step by step.  It reads the buffer id,
 adds its element and counts it without a lock, and looks at the id again: if
 the scheduler has swapped the buffer meanwhile it takes its counts back and
 tries again.  Scheduler and sender move freely between any two of its steps,
 and every increment and decrement is a separate load and store.
 */
module InsertRetry {
  import opened BatchSpec
  import opened TripleBuffer

  /** The insert counters of one buffer: in all, and of the insert block the element belongs to. */
  datatype Counts = Counts(total: int, block: int)

  /** What the receiver has done in its present attempt. */
  datatype Pc =
    | Reading            // about to read receiver_buf_id
    | HasId              // id read
    | Checked            // the limits allow one more element
    | Written            // the element is in its place
    | BlockLoaded | BlockStored
    | TotalLoaded | TotalStored
    | Undoing            // the id has changed
    | UndoTotalLoaded | UndoTotalStored | TotalUndone
    | UndoBlockLoaded | UndoBlockStored | Undone
    | Finished           // left the loop, element counted
    | Rejected           // left the loop, a limit was reached

  datatype Insert = Insert(
    w: Worker,
    counts: seq<Counts>,
    entries: seq<map<int, int>>,   // per buffer: the elements of the block by position
    pc: Pc,
    id: nat,                       // the id read
    tmp: int,                      // the counter being changed
    elem: int,                     // the element being inserted
    since: nat,                    // swaps made before the id was read
    before: Counts,                // the counts of the buffer at that moment
    pos: int,                      // where the element was written
    stale: bool,                   // the block was cleared between the write and the load of its count
    wiped: bool)                   // the block was cleared after its count was stored

  datatype Step =
    | TakeBuffer
    | GiveBuffer(executed: bool)
    | See | ClearTotal | ClearBlock | Refreshing | Pushing | Resetting
    | Receive
    | Begin(elem: int)             // the next SET

  /** One step of the receiver's insert, with at most maxTotal jobs a buffer and maxBlock a block. */
  function Advance(s: Insert, maxTotal: int, maxBlock: int): Insert
    requires |s.counts| == 3 && |s.entries| == 3 && s.id < 3 && 0 <= s.w.batch.receiverBufId < 3
  {
    var c := s.counts[s.id];
    match s.pc
    case Reading =>
      var id := s.w.batch.receiverBufId;
      s.(pc := HasId, id := id, since := s.w.taken, before := s.counts[id])
    case HasId => s.(pc := if c.total >= maxTotal || c.block + 1 >= maxBlock then Rejected else Checked)
    case Checked =>
      s.(pc := Written, entries := s.entries[s.id := s.entries[s.id][c.block := s.elem]], pos := c.block,
          stale := false, wiped := false)
    case Written => s.(pc := BlockLoaded, tmp := c.block)
    case BlockLoaded => s.(pc := BlockStored, counts := s.counts[s.id := c.(block := s.tmp + 1)])
    case BlockStored => s.(pc := TotalLoaded, tmp := c.total)
    case TotalLoaded => s.(pc := TotalStored, counts := s.counts[s.id := c.(total := s.tmp + 1)])
    case TotalStored => s.(pc := if s.id != s.w.batch.receiverBufId then Undoing else Finished)
    case Undoing => s.(pc := UndoTotalLoaded, tmp := c.total)
    case UndoTotalLoaded => s.(pc := UndoTotalStored, counts := s.counts[s.id := c.(total := s.tmp - 1)])
    case UndoTotalStored =>
      s.(pc := TotalUndone, counts := if c.total < 0 then s.counts[s.id := c.(total := 0)] else s.counts)
    case TotalUndone => s.(pc := UndoBlockLoaded, tmp := c.block)
    case UndoBlockLoaded => s.(pc := UndoBlockStored, counts := s.counts[s.id := c.(block := s.tmp - 1)])
    case UndoBlockStored =>
      s.(pc := Undone, counts := if c.block < 0 then s.counts[s.id := c.(block := 0)] else s.counts)
    case Undone => s.(pc := Reading)
    case Finished => s
    case Rejected => s
  }

  /**
   The sender may clear while it holds the buffer, in any order and as often as it likes,
   if its jobs were executed.
   */
  predicate Can(s: Insert, a: Step)
  {
    match a
    case TakeBuffer => s.w.taken == s.w.given
    case GiveBuffer(_) => s.w.taken == s.w.given + 1 && s.w.batch.senderBufId == NONE
    case See => s.w.sender == Waiting && s.w.batch.senderBufId != NONE
    case ClearTotal => s.w.sender == Sending && s.w.batch.delay == 0
    case ClearBlock => s.w.sender == Sending && s.w.batch.delay == 0
    case Refreshing => s.w.sender == Sending
    case Pushing => s.w.sender == Refreshed
    case Resetting => s.w.sender == Pushed
    case Receive => true
    case Begin(_) => s.pc == Finished || s.pc == Rejected
  }

  /** The block counter of the attempt has been stored and not taken back. */
  predicate Stored(pc: Pc)
  {
    pc == BlockStored || pc == TotalLoaded || pc == TotalStored || pc == Finished
  }

  function Do(s: Insert, a: Step, maxTotal: int, maxBlock: int): Insert
    requires |s.counts| == 3 && |s.entries| == 3 && s.id < 3 && BatchOk(s.w.batch)
  {
    var w := s.w;
    match a
    case TakeBuffer => s.(w := w.(batch := Take(w.batch), taken := w.taken + 1))
    case GiveBuffer(executed) => s.(w := w.(batch := Give(w.batch, executed), given := w.given + 1))
    case See => s.(w := w.(sender := Sending))
    case ClearTotal =>
      var q := w.batch.senderBufId;
      if q < 0 then s else s.(counts := s.counts[q := s.counts[q].(total := 0)])
    case ClearBlock =>
      var q := w.batch.senderBufId;
      if q < 0 then s
      else s.(counts := s.counts[q := s.counts[q].(block := 0)],
              stale := s.stale || (q == s.id && s.pc == Written),
              wiped := s.wiped || (q == s.id && Stored(s.pc)))
    case Refreshing => s.(w := w.(sender := Refreshed))
    case Pushing => s.(w := w.(batch := Push(w.batch), sender := Pushed, pushed := w.pushed + 1))
    case Resetting => s.(w := w.(batch := Reset(w.batch), sender := Waiting, reset := w.reset + 1))
    case Receive => Advance(s, maxTotal, maxBlock)
    case Begin(elem) => s.(pc := Reading, elem := elem)
  }

  ghost predicate Sound(s: Insert)
  {
    && |s.counts| == 3 && |s.entries| == 3 && s.id < 3
    && Rotating(s.w)
    && s.since <= s.w.taken
    && (s.pc != Reading ==> s.id == s.since % 3)
  }

  lemma SoundOk(s: Insert)
    requires Sound(s)
    ensures BatchOk(s.w.batch) && s.w.batch.receiverBufId == s.w.taken % 3
    ensures s.w.sender == Sending ==> s.w.batch.senderBufId != NONE && s.w.batch.senderBufId != s.w.batch.receiverBufId
  {
  }

  lemma EnvironmentRotates(s: Insert, a: Step)
    requires Rotating(s.w) && Can(s, a) && a != Receive && |s.counts| == 3 && |s.entries| == 3 && s.id < 3
    ensures BatchOk(s.w.batch)
    ensures Rotating(Do(s, a, 0, 0).w)
  {
    hide Rotating, Take, Give, Push, Reset, BatchOk;
    BatchIsOk(s.w);
    match a
    case TakeBuffer => RotatingTake(s.w);
    case GiveBuffer(executed) => RotatingGive(s.w, executed);
    case Pushing => RotatingPush(s.w);
    case See => SenderRotates(s.w);
    case Refreshing => SenderRotates(s.w);
    case Resetting => SenderRotates(s.w);
    case _ =>
  }

  lemma BatchIsOk(w: Worker)
    requires Rotating(w)
    ensures BatchOk(w.batch)
  {
  }

  lemma SenderRotates(w: Worker)
    requires Rotating(w)
    ensures w.sender == Waiting && w.batch.senderBufId != NONE ==> Rotating(w.(sender := Sending))
    ensures w.sender == Sending ==> Rotating(w.(sender := Refreshed))
    ensures w.sender == Pushed ==> Rotating(w.(batch := Reset(w.batch), sender := Waiting, reset := w.reset + 1))
  {
  }

  // ----- what an attempt leaves behind --------------------------------------

  /** x is the value from before the attempt, or cleared. */
  predicate Old(x: int, before: int)
  {
    x == before || x == 0
  }

  /** The counters between the steps of an attempt, whatever the sender clears in between. */
  ghost predicate Accounted(s: Insert)
    requires |s.counts| == 3 && s.id < 3
  {
    var c, t, b := s.counts[s.id], s.before.total, s.before.block;
    && t >= 0 && b >= 0
    && match s.pc
       case Reading => true
       case HasId => Old(c.total, t) && Old(c.block, b)
       case Checked => Old(c.total, t) && Old(c.block, b)
       case Written => Old(c.total, t) && Old(c.block, b)
       case BlockLoaded => Old(c.total, t) && Old(c.block, b) && Old(s.tmp, b)
       case BlockStored => Old(c.total, t) && More(c.block, b)
       case TotalLoaded => Old(c.total, t) && More(c.block, b) && Old(s.tmp, t)
       case TotalStored => More(c.total, t) && More(c.block, b)
       case Undoing => More(c.total, t) && More(c.block, b)
       case UndoTotalLoaded => More(c.total, t) && More(c.block, b) && More(s.tmp, t)
       case UndoTotalStored => (Old(c.total, t) || c.total == -1) && More(c.block, b)
       case TotalUndone => Old(c.total, t) && More(c.block, b)
       case UndoBlockLoaded => Old(c.total, t) && More(c.block, b) && More(s.tmp, b)
       case UndoBlockStored => Old(c.total, t) && (Old(c.block, b) || c.block == -1)
       case Undone => Old(c.total, t) && Old(c.block, b)
       case Finished => c.total >= 0 && c.block >= 0
       case Rejected => Old(c.total, t) && Old(c.block, b)
  }

  /** x is one more than an old value, or cleared since. */
  predicate More(x: int, before: int)
  {
    x == before + 1 || x == 1 || x == 0
  }

  /** An unchanged number of swaps means an unchanged buffer: then the counts are exactly one step ahead. */
  ghost predicate Undisturbed(s: Insert)
    requires |s.counts| == 3 && |s.entries| == 3 && s.id < 3
  {
    s.w.taken == s.since ==>
      (var c, t, b := s.counts[s.id], s.before.total, s.before.block;
       match s.pc
       case HasId => c == s.before
       case Checked => c == s.before
       case Written => c == s.before && Placed(s)
       case BlockLoaded => c == s.before && s.tmp == b && Placed(s)
       case BlockStored => c == Counts(t, b + 1) && Placed(s)
       case TotalLoaded => c == Counts(t, b + 1) && s.tmp == t && Placed(s)
       case TotalStored => c == Counts(t + 1, b + 1) && Placed(s)
       case Finished => c == Counts(t + 1, b + 1) && Placed(s)
       case Rejected => c == s.before
       case _ => true)
  }

  /** The element stands right behind those that were counted before. */
  predicate Placed(s: Insert)
    requires |s.entries| == 3 && s.id < 3
  {
    s.pos == s.before.block && At(s, s.pos)
  }

  predicate At(s: Insert, pos: int)
    requires |s.entries| == 3 && s.id < 3
  {
    pos in s.entries[s.id] && s.entries[s.id][pos] == s.elem
  }

  /** The block counter once the element is written, by what the sender has cleared when. */
  ghost predicate Positioned(s: Insert)
    requires |s.counts| == 3 && |s.entries| == 3 && s.id < 3
  {
    var c := s.counts[s.id];
    && (s.pc == Written || s.pc == BlockLoaded || Stored(s.pc) ==> s.pos >= 0 && At(s, s.pos))
    && (s.pc == Written ==> c.block == if s.stale then 0 else s.pos)
    && (s.pc == BlockLoaded ==> s.tmp == if s.stale then 0 else s.pos)
    && (Stored(s.pc) ==> c.block == if s.wiped then 0 else if s.stale then 1 else s.pos + 1)
    && (s.pc == Written || s.pc == BlockLoaded ==> !s.wiped)
  }

  ghost predicate NonNegative(s: Insert)
    requires |s.counts| == 3
  {
    forall k | 0 <= k < 3 && (k != s.id || s.pc == Reading) :: s.counts[k].total >= 0 && s.counts[k].block >= 0
  }

  ghost predicate Inv(s: Insert)
  {
    Sound(s) && Accounted(s) && Undisturbed(s) && Positioned(s) && NonNegative(s)
  }

  /** The receiver starts its first insert on an empty pipeline. */
  function Start(elem: int): (s: Insert)
  {
    Insert(Worker(InitBatch(), Waiting, 0, 0, 0, 0, [], []), [Counts(0, 0), Counts(0, 0), Counts(0, 0)],
        [map[], map[], map[]],
           Reading, 0, 0, elem, 0, Counts(0, 0), 0, false, false)
  }

  lemma StartInv(elem: int)
    ensures Inv(Start(elem)) && Shaped(Start(elem))
  {
  }

  lemma ReceiveSound(s: Insert, maxTotal: int, maxBlock: int)
    requires Sound(s)
    ensures BatchOk(s.w.batch) && Sound(Advance(s, maxTotal, maxBlock))
    ensures s.pc == TotalStored && Advance(s, maxTotal, maxBlock).pc == Finished && s.w.taken < s.since + 3 ==>
            s.w.taken == s.since
  {
    hide Rotating, BatchOk;
    SoundOk(s);
  }

  lemma ReceiveAccounts(s: Insert, maxTotal: int, maxBlock: int)
    requires Sound(s) && Accounted(s) && (s.pc == Reading ==> NonNegative(s))
    ensures BatchOk(s.w.batch)
    ensures var s' := Advance(s, maxTotal, maxBlock); |s'.counts| == 3 && s'.id < 3 && Accounted(s')
  {
    hide Rotating, BatchOk;
    SoundOk(s);
  }

  lemma ReceiveNonNegative(s: Insert, maxTotal: int, maxBlock: int)
    requires Sound(s) && NonNegative(s) && (s.pc == Undone ==> s.counts[s.id].total >= 0 && s.counts[s.id].block >= 0)
    ensures BatchOk(s.w.batch)
    ensures var s' := Advance(s, maxTotal, maxBlock); |s'.counts| == 3 && s'.id < 3 && NonNegative(s')
  {
    hide Rotating, BatchOk;
    SoundOk(s);
  }

  lemma ReceiveCounts(s: Insert, maxTotal: int, maxBlock: int)
    requires Sound(s) && Undisturbed(s)
    ensures BatchOk(s.w.batch)
    ensures var s' := Advance(s, maxTotal, maxBlock);
            |s'.counts| == 3 && |s'.entries| == 3 && s'.id < 3 && Undisturbed(s')
  {
    hide Rotating, BatchOk;
    SoundOk(s);
  }

  lemma ReceivePositions(s: Insert, maxTotal: int, maxBlock: int)
    requires Sound(s) && Positioned(s) && (s.pc == Checked ==> s.counts[s.id].block >= 0)
    ensures BatchOk(s.w.batch)
    ensures var s' := Advance(s, maxTotal, maxBlock);
            |s'.counts| == 3 && |s'.entries| == 3 && s'.id < 3 && Positioned(s')
  {
    hide Rotating, BatchOk;
    SoundOk(s);
  }

  lemma EnvironmentKeeps(s: Insert, a: Step)
    requires Inv(s) && Can(s, a) && a != Receive && !a.Begin?
    ensures BatchOk(s.w.batch)
    ensures Inv(Do(s, a, 0, 0))
  {
    hide Rotating, Take, Give, Push, Reset, BatchOk, Accounted, Undisturbed, Positioned, NonNegative;
    SoundOk(s);
    EnvironmentRotates(s, a);
    EnvironmentAccounts(s, a);
    EnvironmentPositions(s, a);
  }

  lemma EnvironmentAccounts(s: Insert, a: Step)
    requires Inv(s) && Can(s, a) && a != Receive && !a.Begin?
    ensures BatchOk(s.w.batch)
    ensures var s' := Do(s, a, 0, 0); |s'.counts| == 3 && s'.id < 3 && Accounted(s') && NonNegative(s')
  {
    hide Rotating, Take, Give, Push, Reset, BatchOk, Undisturbed, Positioned;
    SoundOk(s);
  }

  lemma EnvironmentPositions(s: Insert, a: Step)
    requires Inv(s) && Can(s, a) && a != Receive && !a.Begin?
    ensures BatchOk(s.w.batch)
    ensures var s' := Do(s, a, 0, 0);
            |s'.counts| == 3 && |s'.entries| == 3 && s'.id < 3 && Undisturbed(s') && Positioned(s')
  {
    hide Rotating, Take, Give, Push, Reset, BatchOk, Accounted, NonNegative;
    SoundOk(s);
  }

  /** The next SET inherits the invariant. */
  lemma BeginKeeps(s: Insert, elem: int)
    requires Inv(s) && Can(s, Begin(elem))
    ensures BatchOk(s.w.batch)
    ensures Inv(Do(s, Begin(elem), 0, 0))
  {
    hide Rotating, BatchOk;
    SoundOk(s);
  }

  lemma StepKeeps(s: Insert, a: Step, maxTotal: int, maxBlock: int)
    requires Inv(s) && Shaped(s) && Can(s, a)
    ensures Inv(Do(s, a, maxTotal, maxBlock))
    ensures s.pc == TotalStored && Do(s, a, maxTotal, maxBlock).pc == Finished && s.w.taken < s.since + 3 ==>
            s.w.taken == s.since
  {
    hide Sound, Undisturbed, Positioned, NonNegative, Advance;
    if a == Receive {
      ReceiveSound(s, maxTotal, maxBlock);
      ReceiveAccounts(s, maxTotal, maxBlock);
      ReceiveNonNegative(s, maxTotal, maxBlock);
      ReceiveCounts(s, maxTotal, maxBlock);
      ReceivePositions(s, maxTotal, maxBlock);
    } else if a.Begin? {
      BeginKeeps(s, a.elem);
    } else {
      EnvironmentKeeps(s, a);
    }
  }

  // ----- whole runs ---------------------------------------------------------

  ghost predicate Shaped(s: Insert)
  {
    |s.counts| == 3 && |s.entries| == 3 && s.id < 3 && BatchOk(s.w.batch)
  }

  /** A run of the three threads over any number of inserts. */
  ghost predicate Runs(trace: seq<Insert>, steps: seq<Step>, maxTotal: int, maxBlock: int)
  {
    && |trace| == |steps| + 1
    && (exists elem: int :: trace[0] == Start(elem))
    && forall k: nat | k < |steps| :: Follows(trace, steps, maxTotal, maxBlock, k)
  }

  /** Step k leads from state k to state k + 1. */
  ghost predicate Follows(trace: seq<Insert>, steps: seq<Step>, maxTotal: int, maxBlock: int, k: nat)
    requires |trace| == |steps| + 1 && k < |steps|
  {
    var s := trace[k];
    Shaped(s) && Can(s, steps[k]) && trace[k + 1] == Do(s, steps[k], maxTotal, maxBlock)
  }

  lemma {:induction false} RunInv(trace: seq<Insert>, steps: seq<Step>, maxTotal: int, maxBlock: int, k: nat)
    requires Runs(trace, steps, maxTotal, maxBlock) && k <= |steps|
    ensures Inv(trace[k])
  {
    hide Inv, Shaped, Can, Do, Start;
    if k == 0 {
      var elem: int :| trace[0] == Start(elem);
      StartInv(elem);
    } else {
      RunInv(trace, steps, maxTotal, maxBlock, k - 1);
      assert Follows(trace, steps, maxTotal, maxBlock, k - 1);
      StepKeeps(trace[k - 1], steps[k - 1], maxTotal, maxBlock);
    }
  }

  /** Step k ends an attempt with success. */
  ghost predicate Finishes(trace: seq<Insert>, steps: seq<Step>, k: nat)
    requires |trace| == |steps| + 1 && k < |steps|
  {
    trace[k].pc == TotalStored && trace[k + 1].pc == Finished
  }

  /**
   Once the receiver has left the loop, with fewer than three swaps in the attempt,
   the element is counted exactly once, and the buffer that counts it is the one the
   scheduler takes next.
   */
  lemma {:induction false} CountedInNextBatch(trace: seq<Insert>, steps: seq<Step>, maxTotal: int, maxBlock: int,
                                              k: nat, n: nat)
    requires Runs(trace, steps, maxTotal, maxBlock) && k < n <= |steps| && Finishes(trace, steps, k)
    requires trace[k].w.taken < trace[k].since + 3
    requires forall j | k < j < n :: steps[j] != TakeBuffer && !steps[j].Begin?
    ensures var s := trace[n];
            && |s.counts| == 3 && |s.entries| == 3 && s.id < 3
            && s.pc == Finished && Placed(s)
            && s.before == trace[k].before && s.elem == trace[k].elem
            && s.counts[s.id] == Counts(s.before.total + 1, s.before.block + 1)
            && Take(s.w.batch).gpuBufId == s.id
  {
    FinishedStays(trace, steps, maxTotal, maxBlock, k, n);
    RunInv(trace, steps, maxTotal, maxBlock, n);
    SoundOk(trace[n]);
  }

  lemma {:induction false} FinishedStays(trace: seq<Insert>, steps: seq<Step>, maxTotal: int, maxBlock: int, k: nat,
                                         n: nat)
    requires Runs(trace, steps, maxTotal, maxBlock) && k < n <= |steps| && Finishes(trace, steps, k)
    requires trace[k].w.taken < trace[k].since + 3
    requires forall j | k < j < n :: steps[j] != TakeBuffer && !steps[j].Begin?
    ensures trace[n].pc == Finished && trace[n].w.taken == trace[n].since
    ensures trace[n].before == trace[k].before && trace[n].elem == trace[k].elem
  {
    hide Inv, Rotating, Take, Give, Push, Reset, BatchOk;
    RunInv(trace, steps, maxTotal, maxBlock, n - 1);
    assert Follows(trace, steps, maxTotal, maxBlock, n - 1);
    if n == k + 1 {
      StepKeeps(trace[k], steps[k], maxTotal, maxBlock);
    } else {
      FinishedStays(trace, steps, maxTotal, maxBlock, k, n - 1);
    }
  }

  /** An attempt that is given up leaves both counters as it found them, or as the sender cleared them. */
  lemma AbandonedLeavesNoTrace(trace: seq<Insert>, steps: seq<Step>, maxTotal: int, maxBlock: int, k: nat)
    requires Runs(trace, steps, maxTotal, maxBlock) && k <= |steps|
    requires trace[k].pc == Undone || trace[k].pc == Rejected
    ensures var s := trace[k];
            && |s.counts| == 3 && s.id < 3
            && Old(s.counts[s.id].total, s.before.total) && Old(s.counts[s.id].block, s.before.block)
  {
    hide Rotating;
    RunInv(trace, steps, maxTotal, maxBlock, k);
  }

  /** The comparison of ids sees the number of swaps modulo three only: three swaps look like none. */
  lemma ComparisonPassesIff(s: Insert, maxTotal: int, maxBlock: int)
    requires Sound(s) && s.pc == TotalStored
    ensures BatchOk(s.w.batch)
    ensures Advance(s, maxTotal, maxBlock).pc == Finished <==> (s.w.taken - s.since) % 3 == 0
  {
    hide Rotating, BatchOk;
    SoundOk(s);
  }

  /** The place the element was written to is among those the block counts. */
  predicate Counted(s: Insert)
    requires |s.counts| == 3 && |s.entries| == 3 && s.id < 3
  {
    0 <= s.pos < s.counts[s.id].block && At(s, s.pos)
  }

  /**
   When a finished attempt is counted, however many swaps it has seen: if and only if
   its block has not been cleared since the count was stored, nor between the write and
   the load of the count, unless the element was the first of the block.
   */
  lemma FinishedCountedIff(trace: seq<Insert>, steps: seq<Step>, maxTotal: int, maxBlock: int, k: nat)
    requires Runs(trace, steps, maxTotal, maxBlock) && k <= |steps| && trace[k].pc == Finished
    ensures var s := trace[k];
            && |s.counts| == 3 && |s.entries| == 3 && s.id < 3
            && (Counted(s) <==> !s.wiped && (s.stale ==> s.pos == 0))
  {
    hide Rotating;
    RunInv(trace, steps, maxTotal, maxBlock, k);
  }

  // ----- the limits ---------------------------------------------------------

  /** The counters and the places written so far are within the limits. */
  ghost predicate WithinLimits(s: Insert, maxTotal: int, maxBlock: int)
    requires |s.counts| == 3 && |s.entries| == 3
  {
    && (forall k: nat | k < 3 :: s.counts[k].total <= maxTotal && s.counts[k].block < maxBlock)
    && (forall k: nat, pos | k < 3 && pos in s.entries[k] :: 0 <= pos < maxBlock - 1)
  }

  /** A limit allows no more element. */
  predicate AtLimit(s: Insert, maxTotal: int, maxBlock: int)
    requires |s.counts| == 3 && s.id < 3
  {
    s.counts[s.id].total == maxTotal || s.counts[s.id].block == maxBlock - 1
  }

  /** Between the look at the counters and their stores there is room for one more. */
  ghost predicate RoomAhead(s: Insert, maxTotal: int, maxBlock: int)
    requires |s.counts| == 3 && s.id < 3
  {
    var c := s.counts[s.id];
    match s.pc
    case Checked => c.total < maxTotal && c.block + 1 < maxBlock
    case Written => c.total < maxTotal && c.block + 1 < maxBlock
    case BlockLoaded => c.total < maxTotal && s.tmp + 1 < maxBlock
    case BlockStored => c.total < maxTotal
    case TotalLoaded => s.tmp < maxTotal
    case UndoTotalLoaded => s.tmp <= maxTotal
    case UndoBlockLoaded => s.tmp < maxBlock
    case _ => true
  }

  ghost predicate Limited(s: Insert, maxTotal: int, maxBlock: int)
    requires |s.counts| == 3 && |s.entries| == 3 && s.id < 3
  {
    WithinLimits(s, maxTotal, maxBlock) && RoomAhead(s, maxTotal, maxBlock)
  }

  lemma StartLimited(elem: int, maxTotal: int, maxBlock: int)
    requires maxTotal >= 0 && maxBlock >= 1
    ensures Limited(Start(elem), maxTotal, maxBlock)
  {
  }

  lemma ReceiveRoom(s: Insert, maxTotal: int, maxBlock: int)
    requires Inv(s) && Limited(s, maxTotal, maxBlock) && maxTotal >= 0 && maxBlock >= 1
    ensures BatchOk(s.w.batch)
    ensures var s' := Advance(s, maxTotal, maxBlock);
            |s'.counts| == 3 && |s'.entries| == 3 && s'.id < 3 && RoomAhead(s', maxTotal, maxBlock)
  {
    hide Rotating, BatchOk, Undisturbed, Positioned, Accounted, NonNegative;
    SoundOk(s);
  }

  lemma ReceiveWithin(s: Insert, maxTotal: int, maxBlock: int)
    requires Inv(s) && Limited(s, maxTotal, maxBlock) && maxTotal >= 0 && maxBlock >= 1
    ensures BatchOk(s.w.batch)
    ensures var s' := Advance(s, maxTotal, maxBlock);
            |s'.counts| == 3 && |s'.entries| == 3 && s'.id < 3 && WithinLimits(s', maxTotal, maxBlock)
  {
    hide Rotating, BatchOk, Undisturbed, Positioned, Accounted, NonNegative;
    SoundOk(s);
    CheckedBlock(s);
  }

  lemma CheckedBlock(s: Insert)
    requires Inv(s)
    ensures s.pc == Checked ==> s.counts[s.id].block >= 0
  {
    hide Rotating, Undisturbed, Positioned;
  }

  lemma OtherLimited(s: Insert, a: Step, maxTotal: int, maxBlock: int)
    requires Inv(s) && Shaped(s) && Can(s, a) && a != Receive
    requires Limited(s, maxTotal, maxBlock) && maxTotal >= 0 && maxBlock >= 1
    ensures var s' := Do(s, a, maxTotal, maxBlock);
            |s'.counts| == 3 && |s'.entries| == 3 && s'.id < 3 && Limited(s', maxTotal, maxBlock)
  {
    hide Rotating, Take, Give, Push, Reset, Undisturbed, Positioned;
  }

  /**
   Over every run from the start: no buffer counts more than maxTotal jobs, no block
   maxBlock or more, and no element is ever written at position maxBlock - 1 or behind it.
   */
  lemma {:induction false} AlwaysLimited(trace: seq<Insert>, steps: seq<Step>, maxTotal: int, maxBlock: int, k: nat)
    requires Runs(trace, steps, maxTotal, maxBlock) && k <= |steps| && maxTotal >= 0 && maxBlock >= 1
    ensures Shaped(trace[k]) && Limited(trace[k], maxTotal, maxBlock)
  {
    hide Inv, Can, Do, Start, Limited, BatchOk;
    RunInv(trace, steps, maxTotal, maxBlock, k);
    InvShaped(trace[k]);
    if k == 0 {
      var elem: int :| trace[0] == Start(elem);
      StartLimited(elem, maxTotal, maxBlock);
    } else {
      AlwaysLimited(trace, steps, maxTotal, maxBlock, k - 1);
      RunInv(trace, steps, maxTotal, maxBlock, k - 1);
      assert Follows(trace, steps, maxTotal, maxBlock, k - 1);
      NextLimited(trace[k - 1], steps[k - 1], maxTotal, maxBlock);
    }
  }

  lemma InvShaped(s: Insert)
    requires Inv(s)
    ensures Shaped(s)
  {
    hide Rotating, BatchOk;
    SoundOk(s);
  }

  lemma NextLimited(s: Insert, a: Step, maxTotal: int, maxBlock: int)
    requires Inv(s) && Shaped(s) && Can(s, a) && Limited(s, maxTotal, maxBlock) && maxTotal >= 0 && maxBlock >= 1
    ensures var s' := Do(s, a, maxTotal, maxBlock);
            |s'.counts| == 3 && |s'.entries| == 3 && s'.id < 3 && Limited(s', maxTotal, maxBlock)
  {
    hide Inv, Can, BatchOk, WithinLimits, RoomAhead, Advance;
    if a == Receive {
      ReceiveRoom(s, maxTotal, maxBlock);
      ReceiveWithin(s, maxTotal, maxBlock);
    } else {
      OtherLimited(s, a, maxTotal, maxBlock);
    }
  }

  /**
   An insert is rejected exactly when the receiver looks at the counters and finds its
   buffer or its block full to the last place; no other step of any run rejects one.
   */
  lemma RejectedIff(trace: seq<Insert>, steps: seq<Step>, maxTotal: int, maxBlock: int, k: nat)
    requires Runs(trace, steps, maxTotal, maxBlock) && k < |steps| && maxTotal >= 0 && maxBlock >= 1
    ensures |trace[k].counts| == 3 && trace[k].id < 3
    ensures trace[k].pc != Rejected && trace[k + 1].pc == Rejected <==>
            trace[k].pc == HasId && steps[k] == Receive && AtLimit(trace[k], maxTotal, maxBlock)
  {
    hide Inv, BatchOk, Take, Give, Push, Reset;
    AlwaysLimited(trace, steps, maxTotal, maxBlock, k);
    assert Follows(trace, steps, maxTotal, maxBlock, k);
  }

  /** With room left the element is written right behind the last one the block counts. */
  lemma WrittenNext(trace: seq<Insert>, steps: seq<Step>, maxTotal: int, maxBlock: int, k: nat)
    requires Runs(trace, steps, maxTotal, maxBlock) && k < |steps| && maxTotal >= 0 && maxBlock >= 1
    requires trace[k].pc == Checked && steps[k] == Receive
    ensures var s, s' := trace[k], trace[k + 1];
            && |s.counts| == 3 && |s.entries| == 3 == |s'.entries| && s.id < 3
            && s.counts[s.id].total < maxTotal && s.counts[s.id].block < maxBlock - 1
            && s'.entries == s.entries[s.id := s.entries[s.id][s.counts[s.id].block := s.elem]]
  {
    hide Inv, BatchOk;
    AlwaysLimited(trace, steps, maxTotal, maxBlock, k);
    assert Follows(trace, steps, maxTotal, maxBlock, k);
  }
}
