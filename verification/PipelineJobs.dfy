/**
 What happens to insert and delete jobs in the pipeline: in which cycles the
 kernels for them run, and that over any run every job is executed at most once
 and none is lost.
 */
module PipelineJobs {
  import opened Arithmetic
  import opened BatchSpec
  import opened TripleBuffer

  // ----- the schedule -------------------------------------------------------

  /** The countdown, and whether the kernels run, follow from the number of the cycle. */
  ghost predicate OnSchedule(s: State, N: nat)
  {
    if s.pc == Ran || s.pc.Giving? then
      && s.schedInsDel == N - (s.cycles + 1) % (N + 1)
      && (s.execute <==> (s.cycles + 1) % (N + 1) == 0)
    else
      s.schedInsDel == N - s.cycles % (N + 1)
  }

  lemma ApplyOnSchedule(s: State, a: Action, N: nat)
    requires OnSchedule(s, N) && Enabled(s, a)
    ensures OnSchedule(Apply(s, a, N), N)
  {
    NextRemainder(s.cycles, N + 1);
  }

  /** With NUM_SCHED_INS_DEL = N, cycle k (counted from 1) executes inserts and deletes iff N + 1 divides k. */
  lemma {:induction false} AlwaysOnSchedule(workerNum: nat, N: nat, run: seq<Action>)
    requires Legal(workerNum, N, run)
    ensures OnSchedule(After(workerNum, N, run), N)
  {
    hide OnSchedule, Apply;
    if run == [] {
      InitOnSchedule(workerNum, N);
    } else {
      var n := |run| - 1;
      AlwaysOnSchedule(workerNum, N, run[..n]);
      ApplyOnSchedule(After(workerNum, N, run[..n]), run[n], N);
    }
  }

  lemma InitOnSchedule(workerNum: nat, N: nat)
    ensures OnSchedule(Init(workerNum, N), N)
  {
  }

  // ----- jobs ---------------------------------------------------------------

  function Union(kernels: seq<multiset<Job>>): multiset<Job>
  {
    if kernels == [] then multiset{} else Union(kernels[..|kernels| - 1]) + kernels[|kernels| - 1]
  }

  lemma UnionNext(kernels: seq<multiset<Job>>, k: multiset<Job>)
    ensures Union(kernels + [k]) == Union(kernels) + k
  {
    assert (kernels + [k])[..|kernels|] == kernels;
  }

  /** The jobs executed so far. */
  function JobsRun(w: Worker): multiset<Job>
  {
    Union(w.kernels)
  }

  /** The two kernels together run every job of the buffer as often as it is there. */
  lemma ExecuteRuns(w: Worker, id: nat)
    requires id < |w.batch.bufs|
    ensures JobsRun(Execute(w, id)) == JobsRun(w) + multiset(w.batch.bufs[id].jobs)
  {
    hide OfKind;
    var jobs := w.batch.bufs[id].jobs;
    var d, x := OfKind(jobs, false), OfKind(jobs, true);
    UnionNext(w.kernels, d);
    UnionNext(w.kernels + [d], x);
    assert w.kernels + [d, x] == w.kernels + [d] + [x];
    assert d + x == multiset(jobs);
  }

  /** The scheduler holds buffers whose insert and delete jobs it has just executed. */
  predicate Executed(s: State)
  {
    (s.pc == Ran || s.pc.Giving?) && s.execute
  }

  /**
   The jobs in buffer x have been executed and are waiting to be cleared: the
   GPU holds the buffer and has run its kernels on it in this cycle, or the
   sender holds it, unrefreshed, from a cycle that did.
   */
  predicate Done(w: Worker, executed: bool, x: nat)
  {
    || (executed && w.batch.gpuBufId == x)
    || ((w.sender == Waiting || w.sender == Sending) && w.batch.senderBufId == x && w.batch.delay == 0)
  }

  function Waits(w: Worker, executed: bool, x: nat): multiset<Job>
    requires x < |w.batch.bufs|
  {
    if Done(w, executed, x) then multiset{} else multiset(w.batch.bufs[x].jobs)
  }

  /** What is held for clearing has indeed been executed. */
  ghost predicate Settled(w: Worker, executed: bool)
    requires |w.batch.bufs| == 3
  {
    forall x: nat | x < 3 && Done(w, executed, x) :: multiset(w.batch.bufs[x].jobs) <= JobsRun(w)
  }

  ghost predicate Conserved(w: Worker, executed: bool)
  {
    && |w.batch.bufs| == 3
    && Settled(w, executed)
    && multiset(w.received) ==
       JobsRun(w) + Waits(w, executed, 0) + Waits(w, executed, 1) + Waits(w, executed, 2)
  }

  /** As long as no job moves, conservation depends on which buffers are done. */
  lemma DoneDecides(w: Worker, executed: bool, w': Worker, executed': bool)
    requires Conserved(w, executed)
    requires w'.batch.bufs == w.batch.bufs && w'.received == w.received && w'.kernels == w.kernels
    requires forall x: nat | x < 3 :: Done(w', executed', x) == Done(w, executed, x)
    ensures Conserved(w', executed')
  {
    hide Done;
  }

  /** Receiver, GPU and an unreleased sender hold different buffers. */
  lemma Apart(w: Worker)
    requires Rotating(w)
    ensures var b := w.batch;
            && |b.bufs| == 3 && 0 <= b.receiverBufId < 3
            && NONE <= b.gpuBufId < 3 && NONE <= b.senderBufId < 3
            && b.gpuBufId != b.receiverBufId
            && (w.sender != Pushed ==>
                  b.senderBufId != b.receiverBufId && (b.senderBufId == NONE || b.senderBufId != b.gpuBufId))
            && (w.sender == Sending || w.sender == Refreshed ==> b.senderBufId != NONE)
            && (w.taken == w.given + 1 ==> b.gpuBufId == w.given % 3)
            && (w.taken == w.given ==> b.gpuBufId == NONE)
  {
  }

  lemma ReceiveWaits(w: Worker, executed: bool, job: Job, x: nat)
    requires Rotating(w) && x < 3
    ensures |w.batch.bufs| == 3 && 0 <= w.batch.receiverBufId < 3
    ensures Waits(w.(batch := Receive(w.batch, job), received := w.received + [job]), executed, x) ==
            Waits(w, executed, x) + (if x == w.batch.receiverBufId then multiset{job} else multiset{})
  {
    hide Rotating;
    Apart(w);
  }

  lemma ReceiveSettled(w: Worker, executed: bool, job: Job)
    requires Rotating(w) && |w.batch.bufs| == 3 && Settled(w, executed)
    ensures 0 <= w.batch.receiverBufId < 3
    ensures Settled(w.(batch := Receive(w.batch, job), received := w.received + [job]), executed)
  {
    hide Rotating;
    Apart(w);
  }

  lemma ReceiveConserves(w: Worker, executed: bool, job: Job)
    requires Rotating(w) && Conserved(w, executed)
    ensures Conserved(w.(batch := Receive(w.batch, job), received := w.received + [job]), executed)
  {
    hide Rotating, Waits, Done, Settled;
    ReceiveSettled(w, executed, job);
    ReceiveWaits(w, executed, job, 0);
    ReceiveWaits(w, executed, job, 1);
    ReceiveWaits(w, executed, job, 2);
    assert multiset(w.received + [job]) == multiset(w.received) + multiset{job};
  }

  lemma ExecuteWaits(w: Worker, x: nat)
    requires Rotating(w) && w.taken == w.given + 1 && x < 3
    ensures |w.batch.bufs| == 3
    ensures Waits(Execute(w, w.given % 3), true, x) == if x == w.given % 3 then multiset{} else Waits(w, false, x)
    ensures x == w.given % 3 ==> Waits(w, false, x) == multiset(w.batch.bufs[x].jobs)
  {
    hide Rotating;
    Apart(w);
  }

  lemma ExecuteSettled(w: Worker)
    requires Rotating(w) && w.taken == w.given + 1 && |w.batch.bufs| == 3 && Settled(w, false)
    ensures Settled(Execute(w, w.given % 3), true)
  {
    hide Rotating;
    Apart(w);
    var w' := Execute(w, w.given % 3);
    var jobs := w.batch.bufs[w.given % 3].jobs;
    ExecuteRuns(w, w.given % 3);
    forall x: nat | x < 3 && Done(w', true, x) ensures multiset(w'.batch.bufs[x].jobs) <= JobsRun(w') {
      if x != w.given % 3 {
        assert Done(w, false, x);
      }
    }
  }

  lemma ExecuteConserves(w: Worker)
    requires Rotating(w) && w.taken == w.given + 1 && Conserved(w, false)
    ensures Conserved(Execute(w, w.given % 3), true)
  {
    hide Rotating, Waits, Done, Settled;
    ExecuteSettled(w);
    ExecuteWaits(w, 0);
    ExecuteWaits(w, 1);
    ExecuteWaits(w, 2);
    var jobs := w.batch.bufs[w.given % 3].jobs;
    ExecuteRuns(w, w.given % 3);
  }

  lemma GiveConserves(w: Worker, executed: bool)
    requires Rotating(w) && w.batch.senderBufId == NONE && Conserved(w, executed)
    ensures Conserved(w.(batch := Give(w.batch, executed), given := w.given + 1), executed)
    ensures w.sender == Waiting
  {
    hide Conserved;
    DoneDecides(w, executed, w.(batch := Give(w.batch, executed), given := w.given + 1), executed);
  }

  /** The sender's buffer, executed, waits for nothing before it is cleared nor after. */
  lemma RefreshWaits(w: Worker, executed: bool, x: nat)
    requires |w.batch.bufs| == 3 && x < 3 && w.sender == Sending && w.batch.delay == 0 && 0 <= w.batch.senderBufId < 3
    requires Settled(w, executed)
    ensures var w' := w.(batch := Refresh(w.batch), sender := Refreshed);
            && Waits(w', executed, x) == Waits(w, executed, x)
            && (Done(w', executed, x) ==> multiset(w'.batch.bufs[x].jobs) <= JobsRun(w))
  {
    if x != w.batch.senderBufId {
      assert Done(w.(batch := Refresh(w.batch), sender := Refreshed), executed, x) == Done(w, executed, x);
    }
  }

  lemma RefreshConserves(w: Worker, executed: bool)
    requires Rotating(w) && w.sender == Sending && Conserved(w, executed)
    ensures w.batch.senderBufId != NONE
    ensures Conserved(w.(batch := Refresh(w.batch), sender := Refreshed), executed)
  {
    hide Rotating, Waits, Done;
    Apart(w);
    var w' := w.(batch := Refresh(w.batch), sender := Refreshed);
    if w.batch.delay == 0 {
      forall x: nat | x < 3
        ensures Waits(w', executed, x) == Waits(w, executed, x)
        ensures Done(w', executed, x) ==> multiset(w'.batch.bufs[x].jobs) <= JobsRun(w)
      {
        RefreshWaits(w, executed, x);
      }
    } else {
      NothingToClear(w, executed);
    }
  }

  lemma NothingToClear(w: Worker, executed: bool)
    requires Conserved(w, executed) && w.sender == Sending && w.batch.delay != 0
    ensures Conserved(w.(sender := Refreshed), executed)
  {
    hide Conserved;
    DoneDecides(w, executed, w.(sender := Refreshed), executed);
  }

  lemma TakeConserves(w: Worker)
    requires Rotating(w) && w.taken == w.given && Conserved(w, false)
    ensures Conserved(w.(batch := Take(w.batch), taken := w.taken + 1), false)
  {
    hide Conserved;
    DoneDecides(w, false, w.(batch := Take(w.batch), taken := w.taken + 1), false);
  }

  lemma SeeConserves(w: Worker, executed: bool)
    requires Rotating(w) && Conserved(w, executed) && w.sender == Waiting
    ensures Conserved(w.(sender := Sending), executed)
  {
    hide Rotating, Conserved;
    DoneDecides(w, executed, w.(sender := Sending), executed);
  }

  lemma PushKeeps(b: Batch)
    ensures var b' := Push(b);
            && b'.bufs == b.bufs && b'.gpuBufId == b.gpuBufId && b'.senderBufId == b.senderBufId && b'.delay == b.delay
  {
  }

  lemma PushConserves(w: Worker, executed: bool)
    requires Conserved(w, executed) && w.sender == Refreshed
    ensures Conserved(w.(batch := Push(w.batch), sender := Pushed, pushed := w.pushed + 1), executed)
  {
    hide Push, Conserved;
    PushKeeps(w.batch);
    DoneDecides(w, executed, w.(batch := Push(w.batch), sender := Pushed, pushed := w.pushed + 1), executed);
  }

  lemma ResetConserves(w: Worker, executed: bool)
    requires Rotating(w) && Conserved(w, executed) && w.sender == Pushed
    ensures Conserved(w.(batch := Reset(w.batch), sender := Waiting, reset := w.reset + 1), executed)
  {
    hide Conserved;
    DoneDecides(w, executed, w.(batch := Reset(w.batch), sender := Waiting, reset := w.reset + 1), executed);
  }

  /** While the GPU holds no buffer, it makes no difference whether the cycle executes. */
  lemma NothingHeld(w: Worker, executed: bool)
    requires Rotating(w) && w.taken == w.given && Conserved(w, executed)
    ensures Conserved(w, !executed)
  {
    hide Rotating, Conserved;
    Apart(w);
    DoneDecides(w, executed, w, !executed);
  }

  lemma SchedulerConserves(s: State, a: Action, i: nat, N: nat)
    requires InStep(s) && OnSchedule(s, N) && i < |s.workers| && Enabled(s, a)
    requires a == BeginCycle || a == TakeOne || a == RunKernels || a == BeginGiving || a == GiveOne
    requires Conserved(s.workers[i], Executed(s))
    ensures var s' := Apply(s, a, N); Conserved(s'.workers[i], Executed(s'))
  {
    hide Rotating, Conserved, Take, Give, Execute;
    var s' := Apply(s, a, N);
    var w := s.workers[i];
    match a
    case TakeOne => if i == s.pc.next { TakeConserves(w); }
    case RunKernels => if s'.execute { ExecuteConserves(w); }
    case GiveOne =>
      if i == s.pc.next { GiveConserves(w, s.execute); }
      if s'.pc == Idle && Executed(s) {
        GivenConserves(s, i, N);
      }
    case _ =>
  }

  /** After the last hand-over of a cycle the GPU holds nothing. */
  lemma GivenConserves(s: State, i: nat, N: nat)
    requires InStep(s) && OnSchedule(s, N) && i < |s.workers| && Enabled(s, GiveOne)
    requires Executed(s) && Apply(s, GiveOne, N).pc == Idle && Conserved(s.workers[i], true)
    ensures Conserved(Apply(s, GiveOne, N).workers[i], false)
  {
    hide Rotating, Conserved, Give;
    var s' := Apply(s, GiveOne, N);
    GiveInStep(s, N);
    if i == s.pc.next { GiveConserves(s.workers[i], s.execute); }
    NothingHeld(s'.workers[i], true);
  }

  lemma WorkerConserves(s: State, a: Action, i: nat, N: nat)
    requires InStep(s) && i < |s.workers| && Enabled(s, a)
    requires !(a == BeginCycle || a == TakeOne || a == RunKernels || a == BeginGiving || a == GiveOne)
    requires Conserved(s.workers[i], Executed(s))
    ensures var s' := Apply(s, a, N); Conserved(s'.workers[i], Executed(s'))
  {
    hide Rotating, Conserved, Receive, Refresh, Push, Reset;
    var w := s.workers[i];
    match a
    case Receiving(k, job) => if k == i { ReceiveConserves(w, Executed(s), job); }
    case RefreshBuffer(k) => if k == i { RefreshConserves(w, Executed(s)); }
    case SeeBuffer(k) => if k == i { SeeConserves(w, Executed(s)); }
    case PushBuffer(k) => if k == i { PushConserves(w, Executed(s)); }
    case ResetSender(k) => if k == i { ResetConserves(w, Executed(s)); }
  }

  /**
   Over every run, the jobs a worker has received are those executed, each as
   often as it was received, plus those waiting, unexecuted, in its three buffers.
   */
  lemma {:induction false} JobsConserved(workerNum: nat, N: nat, run: seq<Action>, i: nat)
    requires Legal(workerNum, N, run) && i < workerNum
    ensures var s := After(workerNum, N, run); var w := s.workers[i]; var e := Executed(s);
            && |w.batch.bufs| == 3 && Settled(w, e)
            && multiset(w.received) == JobsRun(w) + Waits(w, e, 0) + Waits(w, e, 1) + Waits(w, e, 2)
  {
    hide InStep, OnSchedule, Enabled, Apply, Waits, Executed;
    if run == [] {
      InitConserved(workerNum, N, i);
    } else {
      var n := |run| - 1;
      var s, a := After(workerNum, N, run[..n]), run[n];
      AlwaysInStep(workerNum, N, run[..n]);
      AlwaysOnSchedule(workerNum, N, run[..n]);
      JobsConserved(workerNum, N, run[..n], i);
      if a == BeginCycle || a == TakeOne || a == RunKernels || a == BeginGiving || a == GiveOne {
        SchedulerConserves(s, a, i, N);
      } else {
        WorkerConserves(s, a, i, N);
      }
    }
  }

  lemma InitConserved(workerNum: nat, N: nat, i: nat)
    requires i < workerNum
    ensures var s := Init(workerNum, N); Conserved(s.workers[i], Executed(s))
  {
  }

  /** Hence distinct jobs are executed at most once, however often their buffer comes round. */
  lemma ExecutedAtMostOnce(workerNum: nat, N: nat, run: seq<Action>, i: nat, job: Job)
    requires Legal(workerNum, N, run) && i < workerNum
    requires multiset(After(workerNum, N, run).workers[i].received)[job] <= 1
    ensures JobsRun(After(workerNum, N, run).workers[i])[job] <= 1
  {
    hide After, Waits;
    JobsConserved(workerNum, N, run, i);
    var s := After(workerNum, N, run);
    var w, e := s.workers[i], Executed(s);
    assert multiset(w.received)[job] ==
           (JobsRun(w) + Waits(w, e, 0) + Waits(w, e, 1) + Waits(w, e, 2))[job];
  }

  /** Whenever a sender clears the insert and delete jobs of its buffer, all of them have been executed. */
  lemma OnlyExecutedJobsAreCleared(workerNum: nat, N: nat, run: seq<Action>, i: nat)
    requires Legal(workerNum, N, run) && i < workerNum
    requires Enabled(After(workerNum, N, run), RefreshBuffer(i))
    ensures var w := After(workerNum, N, run).workers[i];
            w.batch.delay == 0 ==> multiset(w.batch.bufs[w.batch.senderBufId].jobs) <= JobsRun(w)
  {
    hide After, Executed, Waits;
    JobsConserved(workerNum, N, run, i);
    var s := After(workerNum, N, run);
    var w := s.workers[i];
    assert w.batch.delay == 0 ==> Done(w, Executed(s), w.batch.senderBufId);
  }
}
