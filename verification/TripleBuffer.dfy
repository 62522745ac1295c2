/**
 The pipeline of receivers, scheduler and senders as interleaved steps.  The
 scheduler works in cycles over all workers; it keeps one buffer id for all of
 them, the one it took from the last worker.
 */
module TripleBuffer {
  import opened BatchSpec

  /** Where the scheduler stands in its cycle; the index is the next worker. */
  datatype SchedulerPc = Idle | Taking(next: nat) | Taken | Ran | Giving(next: nat)

  datatype SenderPc = Waiting | Sending | Refreshed | Pushed

  /** A worker, with the history of its hand-overs: how often each has happened so far. */
  datatype Worker = Worker(
    batch: Batch,
    sender: SenderPc,
    taken: nat,
    given: nat,
    pushed: nat,
    reset: nat,
    received: seq<Job>,             // the jobs received so far
    kernels: seq<multiset<Job>>)    // the insert and delete kernels run so far, each on all its jobs at once

  datatype State = State(
    workers: seq<Worker>,
    pc: SchedulerPc,
    schedInsDel: nat,
    gpuBufId: int,        // the id returned by mega_gpu_get_batch
    cycles: nat,          // cycles completed
    execute: bool,        // this cycle runs the insert and delete kernels
    failed: bool)         // "Three buffers available" was reached

  datatype Action =
    | BeginCycle
    | TakeOne
    | RunKernels
    | BeginGiving
    | GiveOne
    | Receiving(w: nat, job: Job)
    | SeeBuffer(w: nat)
    | RefreshBuffer(w: nat)
    | PushBuffer(w: nat)
    | ResetSender(w: nat)

  function Init(workerNum: nat, schedInsDel: nat): State
  {
    var w := Worker(InitBatch(), Waiting, 0, 0, 0, 0, [], []);
    State(seq(workerNum, _ => w), Idle, schedInsDel, NONE, 0, false, false)
  }

  /** When a step can be taken: the loops that spin on a shared variable wait here. */
  predicate Enabled(s: State, a: Action)
  {
    match a
    case BeginCycle => s.pc == Idle && |s.workers| > 0
    case TakeOne => s.pc.Taking? && s.pc.next < |s.workers|
    case RunKernels => s.pc == Taken && 0 <= s.gpuBufId < 3 && forall w | w in s.workers :: |w.batch.bufs| == 3
    case BeginGiving => s.pc == Ran
    case GiveOne => s.pc.Giving? && s.pc.next < |s.workers| && s.workers[s.pc.next].batch.senderBufId == NONE
    case Receiving(w, job) => w < |s.workers| && BatchOk(s.workers[w].batch)
    case SeeBuffer(w) => w < |s.workers| && s.workers[w].sender == Waiting && s.workers[w].batch.senderBufId != NONE
    case RefreshBuffer(w) =>
      && w < |s.workers| && s.workers[w].sender == Sending
      && 0 <= s.workers[w].batch.senderBufId < |s.workers[w].batch.bufs|
    case PushBuffer(w) => w < |s.workers| && s.workers[w].sender == Refreshed
    case ResetSender(w) => w < |s.workers| && s.workers[w].sender == Pushed
  }

  function SetWorker(s: State, w: nat, x: Worker): State
    requires w < |s.workers|
  {
    s.(workers := s.workers[w := x])
  }

  /** The delete kernel and then the insert kernel read the buffer numbered id of every worker. */
  function Execute(w: Worker, id: nat): Worker
    requires id < |w.batch.bufs|
  {
    var jobs := w.batch.bufs[id].jobs;
    w.(kernels := w.kernels + [OfKind(jobs, false), OfKind(jobs, true)])
  }

  /** With N = schedInsDelMax, kernels run when the countdown has reached 0. */
  function Apply(s: State, a: Action, schedInsDelMax: nat): (s': State)
    requires Enabled(s, a)
    ensures |s'.workers| == |s.workers|
  {
    match a
    case BeginCycle => s.(pc := Taking(0))
    case TakeOne =>
      var i := s.pc.next;
      var w := s.workers[i];
      var w' := w.(batch := Take(w.batch), taken := w.taken + 1);
      SetWorker(s, i, w').(gpuBufId := w'.batch.gpuBufId, pc := if i + 1 == |s.workers| then Taken else Taking(i + 1))
    case RunKernels =>
      if s.schedInsDel > 0 then
        s.(schedInsDel := s.schedInsDel - 1, execute := false, pc := Ran)
      else
        s.(schedInsDel := schedInsDelMax, execute := true, pc := Ran,
           workers := seq(|s.workers|, i requires 0 <= i < |s.workers| => assert s.workers[i] in s.workers;
               Execute(s.workers[i], s.gpuBufId)))
    case BeginGiving => s.(pc := Giving(0))
    case GiveOne =>
      var i := s.pc.next;
      var w := s.workers[i];
      var s' := SetWorker(s, i, w.(batch := Give(w.batch, s.schedInsDel == schedInsDelMax), given := w.given + 1));
      if i + 1 == |s.workers| then s'.(pc := Idle, cycles := s.cycles + 1) else s'.(pc := Giving(i + 1))
    case Receiving(w, job) =>
      var x := s.workers[w];
      SetWorker(s, w, x.(batch := Receive(x.batch, job), received := x.received + [job]))
    case SeeBuffer(w) => SetWorker(s, w, s.workers[w].(sender := Sending))
    case RefreshBuffer(w) =>
      SetWorker(s, w, s.workers[w].(batch := Refresh(s.workers[w].batch), sender := Refreshed))
    case PushBuffer(w) =>
      var x := s.workers[w];
      var x' := x.(batch := Push(x.batch), sender := Pushed, pushed := x.pushed + 1);
      SetWorker(s, w, x').(failed := s.failed || PushFails(x.batch))
    case ResetSender(w) =>
      var x := s.workers[w];
      SetWorker(s, w, x.(batch := Reset(x.batch), sender := Waiting, reset := x.reset + 1))
  }

  /** Runs: every action was enabled when it happened. */
  predicate Legal(workerNum: nat, N: nat, run: seq<Action>)
    decreases |run|, 0
  {
    run == [] ||
    (var n := |run| - 1; Legal(workerNum, N, run[..n]) && Enabled(After(workerNum, N, run[..n]), run[n]))
  }

  function After(workerNum: nat, N: nat, run: seq<Action>): (s: State)
    requires Legal(workerNum, N, run)
    ensures |s.workers| == workerNum
    decreases |run|, 1
  {
    if run == [] then Init(workerNum, N)
    else var n := |run| - 1; Apply(After(workerNum, N, run[..n]), run[n], N)
  }

  // ----- the hidden invariant -----------------------------------------------

  /**
   All variables follow from the four hand-over counts: the receiver works on
   buffer number `taken` modulo 3, the GPU on number `given`, the sender on
   number `reset`, and the available ones follow the receiver's.
   */
  ghost predicate Rotating(w: Worker)
  {
    var b := w.batch;
    && |b.bufs| == 3
    && w.given <= w.taken <= w.given + 1
    && w.reset <= w.given <= w.reset + 1
    && w.reset <= w.pushed <= w.given
    && b.receiverBufId == w.taken % 3
    && b.gpuBufId == (if w.taken == w.given then NONE else w.given % 3)
    && b.senderBufId == (if w.given == w.reset then NONE else w.reset % 3)
    && b.available0 == (if w.pushed + 2 - w.taken > 0 then (w.taken + 1) % 3 else NONE)
    && b.available1 == (if w.pushed + 2 - w.taken > 1 then (w.taken + 2) % 3 else NONE)
    && (w.sender == Pushed <==> w.pushed == w.reset + 1)
    && (w.sender == Sending || w.sender == Refreshed ==> w.given == w.reset + 1)
  }

  /** How many buffers of worker i the scheduler has taken and given by now. */
  ghost function TakenBy(s: State, i: nat): nat
  {
    match s.pc
    case Idle => s.cycles
    case Taking(n) => if i < n then s.cycles + 1 else s.cycles
    case _ => s.cycles + 1
  }

  ghost function GivenBy(s: State, i: nat): nat
  {
    match s.pc
    case Giving(n) => if i < n then s.cycles + 1 else s.cycles
    case _ => s.cycles
  }

  ghost predicate InStep(s: State)
  {
    && (forall i | 0 <= i < |s.workers| ::
          Rotating(s.workers[i]) && s.workers[i].taken == TakenBy(s, i) && s.workers[i].given == GivenBy(s, i))
    && (s.pc.Taking? ==> s.pc.next < |s.workers|)
    && (s.pc.Giving? ==> s.pc.next < |s.workers|)
    && ((s.pc == Taken || s.pc == Ran || s.pc.Giving?) ==> s.gpuBufId == s.cycles % 3)
    && (s.pc.Taking? && s.pc.next > 0 ==> s.gpuBufId == s.cycles % 3)
    && (s.pc != Idle ==> |s.workers| > 0)
    && !s.failed
  }

  /** A swap always finds an available buffer. */
  lemma RotatingTake(w: Worker)
    requires Rotating(w) && w.taken == w.given
    ensures w.batch.available0 != NONE
    ensures Rotating(w.(batch := Take(w.batch), taken := w.taken + 1))
    ensures Take(w.batch).gpuBufId == w.taken % 3
  {
  }

  lemma RotatingGive(w: Worker, executed: bool)
    requires Rotating(w) && w.taken == w.given + 1 && w.batch.senderBufId == NONE
    ensures Rotating(w.(batch := Give(w.batch, executed), given := w.given + 1))
  {
  }

  /** The sender always finds room to give its buffer back. */
  lemma RotatingPush(w: Worker)
    requires Rotating(w) && w.sender == Refreshed
    ensures !PushFails(w.batch)
    ensures Rotating(w.(batch := Push(w.batch), sender := Pushed, pushed := w.pushed + 1))
  {
  }

  lemma RotatingReceive(w: Worker, job: Job)
    requires Rotating(w)
    ensures BatchOk(w.batch)
    ensures Rotating(w.(batch := Receive(w.batch, job), received := w.received + [job]))
  {
  }

  lemma RotatingSee(w: Worker)
    requires Rotating(w) && w.batch.senderBufId != NONE && w.sender == Waiting
    ensures Rotating(w.(sender := Sending))
  {
  }

  lemma RotatingRefresh(w: Worker)
    requires Rotating(w) && w.sender == Sending
    ensures BatchOk(w.batch) && w.batch.senderBufId != NONE
    ensures Rotating(w.(batch := Refresh(w.batch), sender := Refreshed))
  {
  }

  lemma RotatingReset(w: Worker)
    requires Rotating(w) && w.sender == Pushed
    ensures Rotating(w.(batch := Reset(w.batch), sender := Waiting, reset := w.reset + 1))
  {
  }

  lemma RotatingExecute(w: Worker)
    requires Rotating(w) && w.taken == w.given + 1
    ensures w.batch.gpuBufId == w.given % 3 && Rotating(Execute(w, w.given % 3))
  {
  }

  lemma WorkerStep(s: State, w: nat, x: Worker)
    requires InStep(s) && w < |s.workers|
    requires Rotating(x) && x.taken == s.workers[w].taken && x.given == s.workers[w].given
    ensures InStep(SetWorker(s, w, x))
  {
    hide Rotating;
  }

  lemma TakeInStep(s: State, N: nat)
    requires InStep(s) && Enabled(s, TakeOne)
    ensures InStep(Apply(s, TakeOne, N))
  {
    hide Rotating, Take;
    RotatingTake(s.workers[s.pc.next]);
  }

  lemma GiveInStep(s: State, N: nat)
    requires InStep(s) && Enabled(s, GiveOne)
    ensures InStep(Apply(s, GiveOne, N))
  {
    hide Rotating, Give;
    RotatingGive(s.workers[s.pc.next], s.schedInsDel == N);
  }

  lemma RunInStep(s: State, N: nat)
    requires InStep(s) && Enabled(s, RunKernels)
    ensures InStep(Apply(s, RunKernels, N))
  {
    hide Rotating;
    var s' := Apply(s, RunKernels, N);
    forall i | 0 <= i < |s.workers|
      ensures Rotating(s'.workers[i]) && s'.workers[i].taken == s.workers[i].taken
              && s'.workers[i].given == s.workers[i].given
    {
      RotatingExecute(s.workers[i]);
    }
  }

  lemma ApplyInStep(s: State, a: Action, N: nat)
    requires InStep(s) && Enabled(s, a)
    ensures InStep(Apply(s, a, N))
  {
    hide Rotating, Take, Give, InStep, Enabled, Apply;
    match a
    case BeginCycle => StartInStep(s, N);
    case TakeOne => TakeInStep(s, N);
    case RunKernels => RunInStep(s, N);
    case BeginGiving => StartInStep(s, N);
    case GiveOne => GiveInStep(s, N);
    case Receiving(w, job) => ReceiveInStep(s, w, job, N);
    case SeeBuffer(w) => SeeInStep(s, w, N);
    case RefreshBuffer(w) => RefreshInStep(s, w, N);
    case PushBuffer(w) => PushInStep(s, w, N);
    case ResetSender(w) => ResetInStep(s, w, N);
  }

  lemma RotatingAt(s: State, w: nat)
    requires InStep(s) && w < |s.workers|
    ensures Rotating(s.workers[w])
  {
  }

  lemma ReceiveInStep(s: State, w: nat, job: Job, N: nat)
    requires InStep(s) && Enabled(s, Receiving(w, job))
    ensures InStep(Apply(s, Receiving(w, job), N))
  {
    hide Rotating, InStep, Receive, BatchOk, SetWorker;
    RotatingAt(s, w);
    var x := s.workers[w];
    RotatingReceive(x, job);
    WorkerStep(s, w, x.(batch := Receive(x.batch, job), received := x.received + [job]));
  }

  lemma SeeInStep(s: State, w: nat, N: nat)
    requires InStep(s) && Enabled(s, SeeBuffer(w))
    ensures InStep(Apply(s, SeeBuffer(w), N))
  {
    hide Rotating, InStep, Refresh, Reset, BatchOk, SetWorker;
    RotatingAt(s, w);
    var x := s.workers[w];
    RotatingSee(x);
    WorkerStep(s, w, x.(sender := Sending));
  }

  lemma RefreshInStep(s: State, w: nat, N: nat)
    requires InStep(s) && Enabled(s, RefreshBuffer(w))
    ensures InStep(Apply(s, RefreshBuffer(w), N))
  {
    hide Rotating, InStep, Refresh, Reset, BatchOk, SetWorker;
    RotatingAt(s, w);
    var x := s.workers[w];
    RotatingRefresh(x);
    WorkerStep(s, w, x.(batch := Refresh(x.batch), sender := Refreshed));
  }

  lemma PushInStep(s: State, w: nat, N: nat)
    requires InStep(s) && Enabled(s, PushBuffer(w))
    ensures InStep(Apply(s, PushBuffer(w), N))
  {
    hide Rotating, InStep, Push, PushFails;
    RotatingAt(s, w);
    var x := s.workers[w];
    var x' := x.(batch := Push(x.batch), sender := Pushed, pushed := x.pushed + 1);
    RotatingPush(x);
    WorkerStep(s, w, x');
    NotFailed(SetWorker(s, w, x'), PushFails(x.batch));
  }

  lemma ResetInStep(s: State, w: nat, N: nat)
    requires InStep(s) && Enabled(s, ResetSender(w))
    ensures InStep(Apply(s, ResetSender(w), N))
  {
    hide Rotating, InStep, Refresh, Reset, BatchOk, SetWorker;
    RotatingAt(s, w);
    var x := s.workers[w];
    RotatingReset(x);
    WorkerStep(s, w, x.(batch := Reset(x.batch), sender := Waiting, reset := x.reset + 1));
  }

  lemma NotFailed(s: State, fails: bool)
    requires InStep(s) && !fails
    ensures InStep(s.(failed := s.failed || fails))
  {
    hide Rotating;
    assert s.(failed := s.failed || fails) == s;
  }

  lemma StartInStep(s: State, N: nat)
    requires InStep(s)
    ensures Enabled(s, BeginCycle) ==> InStep(Apply(s, BeginCycle, N))
    ensures Enabled(s, BeginGiving) ==> InStep(Apply(s, BeginGiving, N))
  {
    hide Rotating;
  }

  lemma {:induction false} AlwaysInStep(workerNum: nat, N: nat, run: seq<Action>)
    requires Legal(workerNum, N, run)
    ensures InStep(After(workerNum, N, run)) && |After(workerNum, N, run).workers| == workerNum
  {
    if run != [] {
      var n := |run| - 1;
      AlwaysInStep(workerNum, N, run[..n]);
      ApplyInStep(After(workerNum, N, run[..n]), run[n], N);
    }
  }

  // ----- what the invariant buys --------------------------------------------

  /** Who holds which buffer, in the order the buffers go round. */
  function Held(id: int): (s: seq<int>)
  {
    if id == NONE then [] else [id]
  }

  function Ring(w: Worker): (s: seq<int>)
  {
    var b := w.batch;
    [b.receiverBufId] + Held(b.available0) + Held(b.available1) +
    (if w.sender == Pushed then [] else Held(b.senderBufId)) + Held(b.gpuBufId)
  }

  /**
   Receiver, available queue, sender and GPU together always hold the rotation
   r, r+1, r+2 of the three buffers: none is lost and none has two owners, not
   even while a sender has given its buffer back but still shows its id.
   */
  lemma OneOwnerEach(workerNum: nat, N: nat, run: seq<Action>, i: nat)
    requires Legal(workerNum, N, run) && i < workerNum
    ensures var w := After(workerNum, N, run).workers[i];
            Ring(w) == [w.taken % 3, (w.taken + 1) % 3, (w.taken + 2) % 3]
  {
    hide Rotating, Ring, After;
    AlwaysInStep(workerNum, N, run);
    RingRotates(After(workerNum, N, run).workers[i]);
  }

  lemma RingRotates(w: Worker)
    requires Rotating(w)
    ensures Ring(w) == [w.taken % 3, (w.taken + 1) % 3, (w.taken + 2) % 3]
  {
    var b := w.batch;
    var queue := Held(b.available0) + Held(b.available1);
    var rest := (if w.sender == Pushed then [] else Held(b.senderBufId)) + Held(b.gpuBufId);
    assert Ring(w) == [b.receiverBufId] + queue + rest;
    var n := w.pushed + 2 - w.taken;
    assert |queue| == n && |rest| == 2 - n;
  }

  /**
   The one id the scheduler keeps is the buffer it has taken from every worker,
   although mega_gpu_get_batch returns the last worker's only.
   */
  lemma OneIdForAll(workerNum: nat, N: nat, run: seq<Action>, i: nat)
    requires Legal(workerNum, N, run) && i < workerNum
    ensures var s := After(workerNum, N, run);
            && (s.pc == Taken || s.pc == Ran ==> s.workers[i].batch.gpuBufId == s.gpuBufId)
            && (s.pc.Giving? && i >= s.pc.next ==> s.workers[i].batch.gpuBufId == s.gpuBufId)
            && (s.pc.Giving? && i < s.pc.next ==> s.workers[i].batch.gpuBufId == NONE)
            && (s.pc != Idle && !s.pc.Taking? ==> s.gpuBufId == s.cycles % 3)
  {
    AlwaysInStep(workerNum, N, run);
    assert Rotating(After(workerNum, N, run).workers[i]);
  }

  /** A swap finds an available buffer and an idle GPU slot, and "Three buffers available" is never reached. */
  lemma NoAssertionFails(workerNum: nat, N: nat, run: seq<Action>)
    requires Legal(workerNum, N, run)
    ensures var s := After(workerNum, N, run);
            && !s.failed
            && (s.pc.Taking? ==> s.pc.next < workerNum && var b := s.workers[s.pc.next].batch;
               b.available0 != NONE && b.gpuBufId == NONE)
  {
    AlwaysInStep(workerNum, N, run);
    var s := After(workerNum, N, run);
    if s.pc.Taking? {
      assert Rotating(s.workers[s.pc.next]);
      RotatingTake(s.workers[s.pc.next]);
    }
  }

  /** Array accesses by buffer id are in range whenever the program gets there: only spinning ever waits. */
  lemma OnlySpinningWaits(workerNum: nat, N: nat, run: seq<Action>, i: nat, job: Job)
    requires Legal(workerNum, N, run) && i < workerNum
    ensures var s := After(workerNum, N, run);
            && Enabled(s, Receiving(i, job))
            && (s.pc == Taken ==> Enabled(s, RunKernels))
            && (s.workers[i].sender == Sending ==> Enabled(s, RefreshBuffer(i)))
  {
    hide After, Legal, Enabled, InStep;
    AlwaysInStep(workerNum, N, run);
    OnlySpinning(After(workerNum, N, run), i, job);
  }

  lemma OnlySpinning(s: State, i: nat, job: Job)
    requires InStep(s) && i < |s.workers|
    ensures Enabled(s, Receiving(i, job))
    ensures s.pc == Taken ==> Enabled(s, RunKernels)
    ensures s.workers[i].sender == Sending ==> Enabled(s, RefreshBuffer(i))
  {
    hide Rotating, BatchOk;
    BufsOk(s.workers[i]);
    forall w | w in s.workers ensures |w.batch.bufs| == 3 {
      var k :| 0 <= k < |s.workers| && s.workers[k] == w;
      BufsOk(w);
    }
  }

  lemma BufsOk(w: Worker)
    requires Rotating(w)
    ensures BatchOk(w.batch) && |w.batch.bufs| == 3
    ensures w.sender == Sending ==> 0 <= w.batch.senderBufId < 3
  {
  }
}
