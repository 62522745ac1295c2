/**
 When jobs are executed, and in which order.  A job waits in its buffer for the
 first cycle that works on that buffer and executes; then the delete kernel runs
 all deletes of the buffer, and after it the insert kernel all its inserts.
 */
module PipelineOrder {
  import opened Arithmetic
  import opened BatchSpec
  import opened TripleBuffer
  import opened PipelineJobs
  import opened PipelineSchedule

  // ----- the cycle of a job -------------------------------------------------

  /** Cycle k (from 0) executes the buffer that was being filled when c buffers had been taken. */
  predicate Due(N: nat, c: nat, k: nat)
  {
    k >= c && k % 3 == c % 3 && (k + 1) % (N + 1) == 0
  }

  predicate FirstDue(N: nat, c: nat, k: nat)
  {
    Due(N, c, k) && forall j: nat | j < k :: !Due(N, c, j)
  }

  /** No cycle among the first r does. */
  predicate NotDue(N: nat, c: nat, r: nat)
  {
    forall k: nat | k < r :: !Due(N, c, k)
  }

  /** How many of the first r cycles execute. */
  function Executing(N: nat, r: nat): nat
  {
    r / (N + 1)
  }

  lemma NextExecuting(N: nat, r: nat)
    ensures Executing(N, r + 1) == Executing(N, r) + if (r + 1) % (N + 1) == 0 then 1 else 0
  {
    NextQuotient(r, N + 1);
    NextRemainder(r, N + 1);
  }

  /** The place of a job's kernel among all kernels, if cycle k executes it. */
  function KernelNo(N: nat, k: nat, job: Job): nat
  {
    2 * Executing(N, k) + if job.InsertJob? then 1 else 0
  }

  /** How many cycles have run their kernels, or skipped them. */
  function CyclesRun(s: State): nat
  {
    s.cycles + if s.pc == Ran || s.pc.Giving? then 1 else 0
  }

  lemma {:induction false} LeastDue(N: nat, c: nat, r: nat) returns (k: nat)
    requires !NotDue(N, c, r)
    ensures k < r && FirstDue(N, c, k)
  {
    hide Due;
    if NotDue(N, c, r - 1) {
      k := r - 1;
    } else {
      k := LeastDue(N, c, r - 1);
    }
  }

  /** Executing cycles are N + 1 apart. */
  lemma LaterKernel(N: nat, j: nat, k: nat, a: Job, b: Job)
    requires (j + 1) % (N + 1) == 0 && (k + 1) % (N + 1) == 0 && j < k
    ensures KernelNo(N, j, a) < KernelNo(N, k, b)
  {
    var m := N + 1;
    NextMultiple(j, m);
    NextMultiple(k, m);
    SmallerFactor(m, j / m + 1, k / m + 1);
  }

  lemma NextMultiple(k: nat, m: nat)
    requires m > 0 && (k + 1) % m == 0
    ensures k + 1 == m * (k / m + 1)
  {
    NextQuotient(k, m);
    NextRemainder(k, m);
    assert k + 1 == m * ((k + 1) / m);
  }

  // ----- the kernels run so far ---------------------------------------------

  /** The sender may clear the buffer it holds iff its cycle, number `reset`, has executed it. */
  predicate DelayFits(w: Worker, N: nat)
  {
    (w.sender == Waiting || w.sender == Sending) && w.batch.senderBufId != NONE ==>
      (w.batch.delay == 0 <==> (w.reset + 1) % (N + 1) == 0)
  }

  /** Two kernels for each executing cycle. */
  predicate KernelsFit(s: State, i: nat, N: nat)
    requires i < |s.workers|
  {
    |s.workers[i].kernels| == 2 * Executing(N, CyclesRun(s)) && DelayFits(s.workers[i], N)
  }

  lemma RunFits(s: State, i: nat, N: nat)
    requires OnSchedule(s, N) && i < |s.workers| && Enabled(s, RunKernels) && KernelsFit(s, i, N)
    ensures KernelsFit(Apply(s, RunKernels, N), i, N)
  {
    hide OnSchedule, OfKind, Executing;
    NextExecuting(N, s.cycles);
    RunsWhen(s, N);
  }

  lemma RunsWhen(s: State, N: nat)
    requires OnSchedule(s, N) && s.pc == Taken
    ensures s.schedInsDel == 0 <==> (s.cycles + 1) % (N + 1) == 0
    ensures s.schedInsDel == 0 <==> s.cycles % (N + 1) == N
  {
    NextRemainder(s.cycles, N + 1);
  }

  lemma GiveFits(s: State, i: nat, N: nat)
    requires InStep(s) && OnSchedule(s, N) && i < |s.workers| && Enabled(s, GiveOne) && KernelsFit(s, i, N)
    ensures KernelsFit(Apply(s, GiveOne, N), i, N)
  {
    hide Executing;
    assert Rotating(s.workers[i]);
  }

  lemma TakeFits(s: State, a: Action, i: nat, N: nat)
    requires i < |s.workers| && Enabled(s, a) && KernelsFit(s, i, N)
    requires a == BeginCycle || a == TakeOne || a == BeginGiving || a.Receiving?
    ensures KernelsFit(Apply(s, a, N), i, N)
  {
    hide Executing;
  }

  lemma SenderFits(s: State, a: Action, i: nat, N: nat)
    requires i < |s.workers| && Enabled(s, a) && KernelsFit(s, i, N)
    requires a.SeeBuffer? || a.RefreshBuffer? || a.PushBuffer? || a.ResetSender?
    ensures KernelsFit(Apply(s, a, N), i, N)
  {
    hide Executing;
  }

  lemma StepFits(s: State, a: Action, i: nat, N: nat)
    requires InStep(s) && OnSchedule(s, N) && i < |s.workers| && Enabled(s, a) && KernelsFit(s, i, N)
    ensures KernelsFit(Apply(s, a, N), i, N)
  {
    hide Enabled, InStep, OnSchedule, KernelsFit, Apply;
    if a == RunKernels {
      RunFits(s, i, N);
    } else if a == GiveOne {
      GiveFits(s, i, N);
    } else if a == BeginCycle || a == TakeOne || a == BeginGiving || a.Receiving? {
      TakeFits(s, a, i, N);
    } else {
      SenderFits(s, a, i, N);
    }
  }

  /** After every run a worker's kernels are two for each executing cycle there has been. */
  lemma {:induction false} AlwaysFits(workerNum: nat, N: nat, run: seq<Action>, i: nat)
    requires Legal(workerNum, N, run) && i < workerNum
    ensures KernelsFit(After(workerNum, N, run), i, N)
  {
    hide InStep, OnSchedule, Enabled, Apply, KernelsFit;
    if run == [] {
      InitFits(workerNum, N, i);
    } else {
      var n := |run| - 1;
      AlwaysInStep(workerNum, N, run[..n]);
      AlwaysOnSchedule(workerNum, N, run[..n]);
      AlwaysFits(workerNum, N, run[..n], i);
      StepFits(After(workerNum, N, run[..n]), run[n], i, N);
    }
  }

  lemma InitFits(workerNum: nat, N: nat, i: nat)
    requires i < workerNum
    ensures KernelsFit(Init(workerNum, N), i, N)
  {
    RemainderOf(0, N + 1, 0, 0);
  }

  // ----- following one job --------------------------------------------------

  /**
   A job received when c buffers had been taken: it is in its buffer until the first
   cycle due, and from then on in that cycle's delete or insert kernel.
   */
  ghost predicate Tracked(s: State, i: nat, N: nat, c: nat, job: Job)
    requires i < |s.workers|
  {
    var w := s.workers[i];
    && |w.batch.bufs| == 3 && c <= w.taken
    && (NotDue(N, c, CyclesRun(s)) ==> job in w.batch.bufs[c % 3].jobs)
    && forall k: nat | k < CyclesRun(s) && FirstDue(N, c, k) ::
         KernelNo(N, k, job) < |w.kernels| && job in w.kernels[KernelNo(N, k, job)]
  }

  /** As long as no cycle was due, nobody holds the buffer for clearing. */
  lemma NotDone(s: State, i: nat, N: nat, c: nat)
    requires InStep(s) && OnSchedule(s, N) && i < |s.workers| && KernelsFit(s, i, N)
    requires c <= s.workers[i].taken && NotDue(N, c, CyclesRun(s))
    ensures !Done(s.workers[i], Executed(s), c % 3)
  {
    var w := s.workers[i];
    assert Rotating(w);
    if Executed(s) && w.batch.gpuBufId == c % 3 {
      SameTurn(c, s.cycles);
      assert Due(N, c, s.cycles);
    } else if Done(w, Executed(s), c % 3) {
      SameTurn(c, w.reset);
      assert Due(N, c, w.reset);
    }
  }

  lemma SameTurn(c: nat, k: nat)
    requires c % 3 == k % 3 && c <= k + 2
    ensures c <= k
  {
  }

  lemma StartsTracked(s: State, i: nat, N: nat, job: Job)
    requires InStep(s) && i < |s.workers| && Enabled(s, Receiving(i, job))
    ensures Tracked(Apply(s, Receiving(i, job), N), i, N, s.workers[i].taken, job)
  {
    assert Rotating(s.workers[i]);
  }

  /** Steps that neither run kernels nor clear a buffer. */
  lemma StaysTracked(s: State, a: Action, i: nat, N: nat, c: nat, job: Job)
    requires InStep(s) && i < |s.workers| && Enabled(s, a) && Tracked(s, i, N, c, job)
    requires a != RunKernels && a != RefreshBuffer(i)
    ensures Tracked(Apply(s, a, N), i, N, c, job)
  {
    hide InStep, Push, KernelNo, FirstDue, NotDue;
    PushKeeps(s.workers[i].batch);
    GivingHasNext(s, a, N);
  }

  lemma GivingHasNext(s: State, a: Action, N: nat)
    requires Enabled(s, a) && a != RunKernels
    ensures CyclesRun(Apply(s, a, N)) == CyclesRun(s)
  {
  }

  lemma RefreshTracked(s: State, i: nat, N: nat, c: nat, job: Job)
    requires InStep(s) && OnSchedule(s, N) && i < |s.workers| && Enabled(s, RefreshBuffer(i))
    requires KernelsFit(s, i, N) && Tracked(s, i, N, c, job)
    ensures Tracked(Apply(s, RefreshBuffer(i), N), i, N, c, job)
  {
    hide InStep, OnSchedule, KernelNo, FirstDue, NotDue, KernelsFit;
    if NotDue(N, c, CyclesRun(s)) {
      NotDone(s, i, N, c);
    }
  }

  lemma RunTracked(s: State, i: nat, N: nat, c: nat, job: Job)
    requires InStep(s) && OnSchedule(s, N) && i < |s.workers| && Enabled(s, RunKernels)
    requires KernelsFit(s, i, N) && Tracked(s, i, N, c, job)
    ensures Tracked(Apply(s, RunKernels, N), i, N, c, job)
  {
    hide InStep, KernelNo, OfKind;
    var s' := Apply(s, RunKernels, N);
    var w, w', k := s.workers[i], s'.workers[i], s.cycles;
    RunsBuffer(s, i, N);
    if NotDue(N, c, k + 1) {
      assert NotDue(N, c, k);
    }
    forall j: nat | j < k + 1 && FirstDue(N, c, j)
      ensures KernelNo(N, j, job) < |w'.kernels| && job in w'.kernels[KernelNo(N, j, job)]
    {
      if j == k {
        assert NotDue(N, c, k);
        RunsJob(w, w', N, k, job);
      }
    }
  }

  /** What the step does to the worker: two more kernels iff N + 1 divides the number of the cycle. */
  lemma RunsBuffer(s: State, i: nat, N: nat)
    requires InStep(s) && OnSchedule(s, N) && i < |s.workers| && Enabled(s, RunKernels) && KernelsFit(s, i, N)
    ensures var s' := Apply(s, RunKernels, N); var w, w' := s.workers[i], s'.workers[i];
            && CyclesRun(s) == s.cycles && CyclesRun(s') == s.cycles + 1
            && |w.batch.bufs| == 3 && w'.batch == w.batch && w'.taken == w.taken
            && |w.kernels| == 2 * Executing(N, s.cycles)
            && w' == if (s.cycles + 1) % (N + 1) == 0 then Execute(w, s.cycles % 3) else w
  {
    hide OnSchedule, OfKind, Executing;
    assert Rotating(s.workers[i]);
    RunsWhen(s, N);
  }

  lemma RunsJob(w: Worker, w': Worker, N: nat, k: nat, job: Job)
    requires |w.batch.bufs| == 3 && |w.kernels| == 2 * Executing(N, k) && w' == Execute(w, k % 3)
    requires job in w.batch.bufs[k % 3].jobs
    ensures KernelNo(N, k, job) < |w'.kernels| && job in w'.kernels[KernelNo(N, k, job)]
  {
    assert job in multiset(w.batch.bufs[k % 3].jobs);
  }

  /** Action m of the run receives the job for worker i, c buffers having been taken by then. */
  ghost predicate Arrives(workerNum: nat, N: nat, run: seq<Action>, m: nat, i: nat, job: Job, c: nat)
  {
    && m < |run| && i < workerNum && LegalPrefix(workerNum, N, run, m)
    && run[m] == Receiving(i, job) && After(workerNum, N, run[..m]).workers[i].taken == c
  }

  /**
   When and where every job is executed, in every run and for every N: in the delete
   or insert kernel of the first cycle due, and until that cycle it is in its buffer.
   */
  lemma {:induction false} ExecutedInTurn(workerNum: nat, N: nat, run: seq<Action>, m: nat, i: nat, job: Job, c: nat)
    requires Legal(workerNum, N, run) && Arrives(workerNum, N, run, m, i, job, c)
    ensures Tracked(After(workerNum, N, run), i, N, c, job)
  {
    hide InStep, OnSchedule, Enabled, Apply, KernelsFit, Tracked;
    var n := |run| - 1;
    var s, a := After(workerNum, N, run[..n]), run[n];
    AlwaysInStep(workerNum, N, run[..n]);
    if m == n {
      StartsTracked(s, i, N, job);
    } else {
      assert run[..n][..m] == run[..m];
      ExecutedInTurn(workerNum, N, run[..n], m, i, job, c);
      AlwaysOnSchedule(workerNum, N, run[..n]);
      AlwaysFits(workerNum, N, run[..n], i);
      if a == RunKernels {
        RunTracked(s, i, N, c, job);
      } else if a == RefreshBuffer(i) {
        RefreshTracked(s, i, N, c, job);
      } else {
        StaysTracked(s, a, i, N, c, job);
      }
    }
  }

  // ----- one job before the other -------------------------------------------

  /** Job b is executed, and a neither before nor together with it. */
  ghost predicate Overtaken(w: Worker, a: Job, b: Job)
  {
    exists y: nat :: y < |w.kernels| && b in w.kernels[y] && NotUpTo(w, a, y)
  }

  predicate NotUpTo(w: Worker, a: Job, y: nat)
    requires y < |w.kernels|
  {
    forall x: nat | x <= y :: a !in w.kernels[x]
  }

  predicate Once(w: Worker, job: Job)
  {
    multiset(w.received)[job] <= 1
  }

  lemma {:induction false} InUnion(kernels: seq<multiset<Job>>, x: nat, y: nat, job: Job)
    requires x < |kernels| && job in kernels[x]
    ensures job in Union(kernels)
    ensures x < y < |kernels| && job in kernels[y] ==> Union(kernels)[job] >= 2
  {
    var n := |kernels| - 1;
    if x < n { InUnion(kernels[..n], x, y, job); }
  }

  /** A job received once is in no other kernel than its own. */
  lemma OwnKernel(workerNum: nat, N: nat, run: seq<Action>, m: nat, i: nat, job: Job, c: nat, x: nat)
    returns (k: nat)
    requires Legal(workerNum, N, run) && Arrives(workerNum, N, run, m, i, job, c)
    requires var w := After(workerNum, N, run).workers[i]; Once(w, job) && x < |w.kernels| && job in w.kernels[x]
    ensures k < CyclesRun(After(workerNum, N, run)) && FirstDue(N, c, k) && x == KernelNo(N, k, job)
  {
    hide InStep, OnSchedule, KernelsFit, Waits, FirstDue, NotDue, After, Legal, CyclesRun, KernelNo, Executed;
    var s := After(workerNum, N, run);
    AlwaysInStep(workerNum, N, run);
    AlwaysOnSchedule(workerNum, N, run);
    AlwaysFits(workerNum, N, run, i);
    ExecutedInTurn(workerNum, N, run, m, i, job, c);
    JobsConserved(workerNum, N, run, i);
    var w := s.workers[i];
    RunAtMostOnce(w, Executed(s), job);
    InUnion(w.kernels, x, x, job);
    if NotDue(N, c, CyclesRun(s)) {
      NotDone(s, i, N, c);
      WaitingNotRun(w, Executed(s), c % 3, job);
      assert false;
    }
    k := LeastDue(N, c, CyclesRun(s));
    var z := KernelNo(N, k, job);
    InUnion(w.kernels, x, z, job);
    InUnion(w.kernels, z, x, job);
  }

  lemma RunAtMostOnce(w: Worker, executed: bool, job: Job)
    requires Conserved(w, executed) && Once(w, job)
    ensures Union(w.kernels)[job] <= 1
  {
    hide Waits;
    assert multiset(w.received)[job] ==
           (JobsRun(w) + Waits(w, executed, 0) + Waits(w, executed, 1) + Waits(w, executed, 2))[job];
  }

  lemma WaitingNotRun(w: Worker, executed: bool, x: nat, job: Job)
    requires Conserved(w, executed) && Once(w, job) && x < 3 && !Done(w, executed, x) && job in w.batch.bufs[x].jobs
    ensures job !in Union(w.kernels)
  {
    hide Done;
    assert job in Waits(w, executed, x);
    assert multiset(w.received)[job] ==
           (JobsRun(w) + Waits(w, executed, 0) + Waits(w, executed, 1) + Waits(w, executed, 2))[job];
  }

  /**
   With 3 dividing N + 1, a job received into buffer 0 or 1 is never executed,
   however long the pipeline goes on: it waits in its buffer for good.
   */
  lemma StarvedJobNeverExecutes(workerNum: nat, N: nat, run: seq<Action>, m: nat, i: nat, job: Job)
    requires Legal(workerNum, N, run) && m < |run| && i < workerNum && (N + 1) % 3 == 0
    requires LegalPrefix(workerNum, N, run, m) && run[m] == Receiving(i, job)
    requires After(workerNum, N, run[..m]).workers[i].batch.receiverBufId < 2
    ensures var x := After(workerNum, N, run[..m]).workers[i].batch.receiverBufId;
            var w := After(workerNum, N, run).workers[i];
            0 <= x < |w.batch.bufs| && job in w.batch.bufs[x].jobs && (Once(w, job) ==> job !in JobsRun(w))
  {
    hide After, Legal, InStep, OnSchedule, KernelsFit, Waits, Done, Executed;
    AlwaysInStep(workerNum, N, run[..m]);
    var c := ReceivesInto(After(workerNum, N, run[..m]), i);
    ExecutedInTurn(workerNum, N, run, m, i, job, c);
    var s := After(workerNum, N, run);
    forall k: nat ensures !Due(N, c, k) {
      if Due(N, c, k) { StarvedCycle(N, k + 1); }
    }
    AlwaysInStep(workerNum, N, run);
    AlwaysOnSchedule(workerNum, N, run);
    AlwaysFits(workerNum, N, run, i);
    JobsConserved(workerNum, N, run, i);
    NotDone(s, i, N, c);
    if Once(s.workers[i], job) {
      WaitingNotRun(s.workers[i], Executed(s), c % 3, job);
    }
  }

  lemma ReceivesInto(s: State, i: nat) returns (c: nat)
    requires InStep(s) && i < |s.workers|
    ensures c == s.workers[i].taken && s.workers[i].batch.receiverBufId == c % 3
  {
    c := s.workers[i].taken;
    assert Rotating(s.workers[i]);
  }

  /** Job a's cycle and kernel come after those of b, in cycle k, or never come. */
  ghost predicate RunsLater(N: nat, c: nat, a: Job, k: nat, b: Job)
  {
    forall j: nat | FirstDue(N, c, j) :: KernelNo(N, k, b) < KernelNo(N, j, a)
  }

  /** Of two jobs of a worker, the second is executed without the first exactly when its kernel comes first. */
  lemma OvertakenIff(workerNum: nat, N: nat, run: seq<Action>, i: nat,
                     m1: nat, a: Job, c1: nat, m2: nat, b: Job, c2: nat)
    requires Legal(workerNum, N, run)
    requires Arrives(workerNum, N, run, m1, i, a, c1) && Arrives(workerNum, N, run, m2, i, b, c2)
    requires var w := After(workerNum, N, run).workers[i]; Once(w, a) && Once(w, b)
    ensures var s := After(workerNum, N, run);
            Overtaken(s.workers[i], a, b) <==>
            exists k: nat :: k < CyclesRun(s) && FirstDue(N, c2, k) && RunsLater(N, c1, a, k, b)
  {
    hide After, Legal, Arrives, FirstDue, NotDue, CyclesRun, KernelNo, RunsLater, NotUpTo;
    var s := After(workerNum, N, run);
    ArrivesLegally(workerNum, N, run, m1, i, a, c1);
    var w := s.workers[i];
    if Overtaken(w, a, b) {
      var y: nat :| y < |w.kernels| && b in w.kernels[y] && NotUpTo(w, a, y);
      var k := OwnKernel(workerNum, N, run, m2, i, b, c2, y);
      NotYet(workerNum, N, run, i, m1, a, c1, b, k, c2);
    } else if k: nat :| k < CyclesRun(s) && FirstDue(N, c2, k) && RunsLater(N, c1, a, k, b) {
      ExecutedInTurn(workerNum, N, run, m2, i, b, c2);
      var y := KernelNo(N, k, b);
      NoneUpTo(workerNum, N, run, i, m1, a, c1, b, k);
      assert false;
    }
  }

  lemma ArrivesLegally(workerNum: nat, N: nat, run: seq<Action>, m: nat, i: nat, job: Job, c: nat)
    requires Arrives(workerNum, N, run, m, i, job, c)
    ensures i < workerNum
  {
  }

  lemma NotYet(workerNum: nat, N: nat, run: seq<Action>, i: nat, m: nat, a: Job, c: nat, b: Job, k: nat, c2: nat)
    requires Legal(workerNum, N, run) && Arrives(workerNum, N, run, m, i, a, c)
    requires var s := After(workerNum, N, run); var w := s.workers[i];
             && k < CyclesRun(s) && FirstDue(N, c2, k)
             && KernelNo(N, k, b) < |w.kernels| && NotUpTo(w, a, KernelNo(N, k, b))
    ensures RunsLater(N, c, a, k, b)
  {
    hide After, Legal, CyclesRun, KernelNo, Arrives;
    var s := After(workerNum, N, run);
    ExecutedInTurn(workerNum, N, run, m, i, a, c);
    forall j: nat | FirstDue(N, c, j) ensures KernelNo(N, k, b) < KernelNo(N, j, a) {
      if j >= CyclesRun(s) {
        LaterKernel(N, k, j, b, a);
      }
    }
  }

  lemma NoneUpTo(workerNum: nat, N: nat, run: seq<Action>, i: nat, m: nat, a: Job, c: nat, b: Job, k: nat)
    requires Legal(workerNum, N, run) && Arrives(workerNum, N, run, m, i, a, c) && RunsLater(N, c, a, k, b)
    requires var w := After(workerNum, N, run).workers[i]; Once(w, a) && KernelNo(N, k, b) < |w.kernels|
    ensures NotUpTo(After(workerNum, N, run).workers[i], a, KernelNo(N, k, b))
  {
    hide After, Legal, CyclesRun, KernelNo, Arrives, FirstDue;
    ArrivesLegally(workerNum, N, run, m, i, a, c);
    var w := After(workerNum, N, run).workers[i];
    forall x: nat | x <= KernelNo(N, k, b) ensures a !in w.kernels[x] {
      if a in w.kernels[x] {
        var j := OwnKernel(workerNum, N, run, m, i, a, c, x);
      }
    }
  }

  // ----- every cycle executes -----------------------------------------------

  lemma DueAtOnce(c: nat, k: nat)
    ensures FirstDue(0, c, k) <==> k == c
  {
    assert Due(0, c, c);
    assert k < c ==> !Due(0, c, k);
  }

  lemma {:induction false} TakenGrows(workerNum: nat, N: nat, run: seq<Action>, m: nat, i: nat)
    requires Legal(workerNum, N, run) && m <= |run| && LegalPrefix(workerNum, N, run, m) && i < workerNum
    ensures After(workerNum, N, run[..m]).workers[i].taken <= After(workerNum, N, run).workers[i].taken
  {
    hide Apply, Enabled;
    if m == |run| {
      assert run[..m] == run;
    } else {
      var n := |run| - 1;
      assert run[..n][..m] == run[..m];
      TakenGrows(workerNum, N, run[..n], m, i);
      ApplyTaken(After(workerNum, N, run[..n]), run[n], i, N);
    }
  }

  lemma ApplyTaken(s: State, a: Action, i: nat, N: nat)
    requires Enabled(s, a) && i < |s.workers|
    ensures s.workers[i].taken <= Apply(s, a, N).workers[i].taken
    ensures !a.Receiving? ==> Apply(s, a, N).workers[i].received == s.workers[i].received
  {
  }

  /**
   With N = 0 a job is overtaken by a later one exactly when both were collected in
   one buffer, the earlier is an insert and the later a delete.
   */
  lemma OvertakenAtZeroIff(workerNum: nat, run: seq<Action>, i: nat,
                           m1: nat, a: Job, c1: nat, m2: nat, b: Job, c2: nat)
    requires Legal(workerNum, 0, run) && m1 < m2
    requires Arrives(workerNum, 0, run, m1, i, a, c1) && Arrives(workerNum, 0, run, m2, i, b, c2)
    requires var w := After(workerNum, 0, run).workers[i]; Once(w, a) && Once(w, b)
    ensures var s := After(workerNum, 0, run);
            Overtaken(s.workers[i], a, b) <==> c1 == c2 < CyclesRun(s) && a.InsertJob? && b.DeleteJob?
  {
    hide After, Legal, FirstDue, CyclesRun, Overtaken;
    OvertakenIff(workerNum, 0, run, i, m1, a, c1, m2, b, c2);
    assert run[..m2][..m1] == run[..m1];
    assert LegalPrefix(workerNum, 0, run[..m2], m1);
    TakenGrows(workerNum, 0, run[..m2], m1, i);
    forall k: nat ensures FirstDue(0, c1, k) <==> k == c1 {
      DueAtOnce(c1, k);
    }
    forall k: nat ensures FirstDue(0, c2, k) <==> k == c2 {
      DueAtOnce(c2, k);
    }
    assert RunsLater(0, c1, a, c2, b) <==> KernelNo(0, c2, b) < KernelNo(0, c1, a);
  }

  // ----- jobs overtaken -----------------------------------------------------

  lemma {:induction false} QuietReceived(workerNum: nat, N: nat, run: seq<Action>, m: nat, i: nat)
    requires Legal(workerNum, N, run) && m <= |run| && LegalPrefix(workerNum, N, run, m) && i < workerNum
             && Quiet(run, m)
    ensures After(workerNum, N, run).workers[i].received == After(workerNum, N, run[..m]).workers[i].received
  {
    hide Apply, Enabled;
    if m == |run| {
      assert run[..m] == run;
    } else {
      var n := |run| - 1;
      assert run[..n][..m] == run[..m];
      QuietReceived(workerNum, N, run[..n], m, i);
      ApplyTaken(After(workerNum, N, run[..n]), run[n], i, N);
    }
  }

  /** On to the kernels of cycle n, while nothing is received. */
  lemma Onward(workerNum: nat, N: nat, run: seq<Action>, n: nat) returns (later: seq<Action>)
    requires Legal(workerNum, N, run) && workerNum > 0
    requires var s := After(workerNum, N, run); s.cycles <= n && (s.cycles == n ==> !s.pc.Giving?)
    ensures run <= later && Legal(workerNum, N, later) && LegalPrefix(workerNum, N, later, |run|)
    ensures var s, s' := After(workerNum, N, run), After(workerNum, N, later);
            && s'.pc == Ran && s'.cycles == n && s'.workers[0].taken == n + 1
            && s'.workers[0].received == s.workers[0].received
  {
    hide After, Legal, InStep;
    AlwaysInStep(workerNum, N, run);
    if After(workerNum, N, run).cycles == n {
      later := ReachRan(workerNum, N, run);
    } else {
      later := ReachCycle(workerNum, N, run, n);
    }
    assert later[..|run|] == run;
    QuietReceived(workerNum, N, later, |run|, 0);
    AlwaysInStep(workerNum, N, later);
    TakenAtRan(After(workerNum, N, later));
  }

  lemma TakenAtRan(s: State)
    requires InStep(s) && s.pc == Ran && |s.workers| > 0
    ensures s.workers[0].taken == s.cycles + 1
  {
  }

  lemma Received(workerNum: nat, N: nat, run: seq<Action>, job: Job) returns (later: seq<Action>)
    requires Legal(workerNum, N, run) && workerNum > 0
    ensures later == run + [Receiving(0, job)] && Legal(workerNum, N, later)
    ensures var s, s' := After(workerNum, N, run), After(workerNum, N, later);
            && s'.pc == s.pc && s'.cycles == s.cycles && s'.workers[0].taken == s.workers[0].taken
            && s'.workers[0].received == s.workers[0].received + [job]
            && Arrives(workerNum, N, later, |run|, 0, job, s.workers[0].taken)
  {
    OnlySpinningWaits(workerNum, N, run, 0, job);
    later := run + [Receiving(0, job)];
    Extended(workerNum, N, run, Receiving(0, job));
    assert later[..|run|] == run;
  }

  lemma StillArrives(workerNum: nat, N: nat, run: seq<Action>, later: seq<Action>, m: nat, job: Job, c: nat)
    requires Arrives(workerNum, N, run, m, 0, job, c) && run <= later
    ensures Arrives(workerNum, N, later, m, 0, job, c)
  {
    assert later[..m] == run[..m];
  }

  lemma NothingYet(workerNum: nat, N: nat)
    requires workerNum > 0
    ensures Legal(workerNum, N, [])
    ensures var s := After(workerNum, N, []);
            s.pc == Idle && s.cycles == 0 && s.workers[0].taken == 0 && s.workers[0].received == []
  {
  }

  /** To a moment when n buffers have been taken and nothing has been received. */
  lemma ReachTaken(workerNum: nat, N: nat, n: nat) returns (run: seq<Action>)
    requires workerNum > 0
    ensures Legal(workerNum, N, run)
    ensures var s := After(workerNum, N, run);
            && s.cycles <= n && (s.cycles == n ==> !s.pc.Giving?)
            && s.workers[0].taken == n && s.workers[0].received == []
  {
    hide After, Legal;
    NothingYet(workerNum, N);
    run := [];
    if n > 0 {
      run := Onward(workerNum, N, run, n - 1);
    }
  }

  /** Job a arrives when c buffers have been taken, job b when n have, and the kernels of cycle n run. */
  lemma TwoJobs(workerNum: nat, N: nat, a: Job, c: nat, b: Job, n: nat)
    returns (run: seq<Action>, m1: nat, m2: nat)
    requires workerNum > 0 && a != b && c <= n
    ensures Legal(workerNum, N, run) && After(workerNum, N, run).workers[0].received == [a, b]
    ensures m1 < m2 && Arrives(workerNum, N, run, m1, 0, a, c) && Arrives(workerNum, N, run, m2, 0, b, n)
    ensures CyclesRun(After(workerNum, N, run)) == n + 1
  {
    hide After, Legal, Arrives;
    run := ReachTaken(workerNum, N, c);
    m1 := |run|;
    run := Received(workerNum, N, run, a);
    var first := run;
    if c < n {
      run := Onward(workerNum, N, run, n - 1);
    }
    m2 := |run|;
    StillArrives(workerNum, N, first, run, m1, a, c);
    run := SecondJob(workerNum, N, run, m1, a, c, b, n);
  }

  lemma SecondJob(workerNum: nat, N: nat, run: seq<Action>, m1: nat, a: Job, c: nat, b: Job, n: nat)
    returns (later: seq<Action>)
    requires Legal(workerNum, N, run) && workerNum > 0 && Arrives(workerNum, N, run, m1, 0, a, c)
    requires var s := After(workerNum, N, run);
             && s.cycles <= n && (s.cycles == n ==> !s.pc.Giving?)
             && s.workers[0].taken == n && s.workers[0].received == [a]
    ensures Legal(workerNum, N, later) && After(workerNum, N, later).workers[0].received == [a, b]
    ensures Arrives(workerNum, N, later, m1, 0, a, c) && Arrives(workerNum, N, later, |run|, 0, b, n)
    ensures CyclesRun(After(workerNum, N, later)) == n + 1
  {
    hide After, Legal, Arrives;
    var second := Received(workerNum, N, run, b);
    later := Onward(workerNum, N, second, n);
    StillArrives(workerNum, N, run, later, m1, a, c);
    StillArrives(workerNum, N, second, later, |run|, b, n);
  }

  /**
   Whatever N is: a worker receives an insert and then a delete, and only the delete has
   been executed when its kernel ends.
   */
  lemma DeleteOvertakesInsert(workerNum: nat, N: nat) returns (run: seq<Action>, m1: nat, m2: nat)
    requires workerNum > 0
    ensures Legal(workerNum, N, run) && m1 < m2
    ensures Arrives(workerNum, N, run, m1, 0, InsertJob(1), N) && Arrives(workerNum, N, run, m2, 0, DeleteJob(1), N)
    ensures var w := After(workerNum, N, run).workers[0];
            w.received == [InsertJob(1), DeleteJob(1)] && Overtaken(w, InsertJob(1), DeleteJob(1))
  {
    hide After, Legal, Arrives, CyclesRun, FirstDue;
    var a, b := InsertJob(1), DeleteJob(1);
    run, m1, m2 := TwoJobs(workerNum, N, a, N, b, N);
    OvertakenIff(workerNum, N, run, 0, m1, a, N, m2, b, N);
    forall k: nat ensures FirstDue(N, N, k) ==> k >= N {
      DueFrom(N, N, k);
    }
    DueFrom(N, N, N);
    forall j: nat | FirstDue(N, N, j) ensures KernelNo(N, N, b) < KernelNo(N, j, a) {
      DueFrom(N, N, j);
      if j > N { LaterKernel(N, N, j, b, a); }
    }
    assert RunsLater(N, N, a, N, b);
  }

  lemma DueFrom(N: nat, c: nat, k: nat)
    ensures FirstDue(N, c, k) ==> k >= c && k % 3 == c % 3 && (k + 1) % (N + 1) == 0
    ensures FirstDue(N, N, N) && (N + 1) % (N + 1) == 0
    ensures c <= N && (k + 1) % (N + 1) == 0 ==> k >= N
  {
    RemainderOf(N + 1, N + 1, 1, 0);
    assert Due(N, N, N);
    if k < N {
      RemainderOf(k + 1, N + 1, 0, k + 1);
    }
  }

  /** For N > 0 a job can be overtaken by one that arrives in a later cycle, of whatever kinds they are. */
  lemma LaterBufferOvertakes(workerNum: nat, N: nat, a: Job, b: Job)
    returns (run: seq<Action>, m1: nat, m2: nat, c: nat)
    requires workerNum > 0 && N > 0 && a != b
    ensures Legal(workerNum, N, run) && m1 < m2 && c < N
    ensures Arrives(workerNum, N, run, m1, 0, a, c) && Arrives(workerNum, N, run, m2, 0, b, N)
    ensures var w := After(workerNum, N, run).workers[0]; w.received == [a, b] && Overtaken(w, a, b)
  {
    hide After, Legal, Arrives, CyclesRun, FirstDue;
    c := if N % 3 == 0 then 1 else 0;
    run, m1, m2 := TwoJobs(workerNum, N, a, c, b, N);
    OvertakenIff(workerNum, N, run, 0, m1, a, c, m2, b, N);
    DueFrom(N, N, N);
    forall j: nat | FirstDue(N, c, j) ensures KernelNo(N, N, b) < KernelNo(N, j, a) {
      DueFrom(N, c, j);
      LaterKernel(N, N, j, b, a);
    }
    assert RunsLater(N, c, a, N, b);
  }

  /** No job of worker i is overtaken by one that arrives in a later cycle. */
  ghost predicate KeepsBuffers(workerNum: nat, N: nat, run: seq<Action>, i: nat)
    requires Legal(workerNum, N, run) && i < workerNum
  {
    var w := After(workerNum, N, run).workers[i];
    forall m1: nat, a: Job, c1: nat, m2: nat, b: Job, c2: nat |
      Arrives(workerNum, N, run, m1, i, a, c1) && Arrives(workerNum, N, run, m2, i, b, c2) ::
      c1 < c2 && Once(w, a) && Once(w, b) ==> !Overtaken(w, a, b)
  }

  ghost predicate AllKeepBuffers(workerNum: nat, N: nat, run: seq<Action>)
  {
    Legal(workerNum, N, run) ==> forall i: nat | i < workerNum :: KeepsBuffers(workerNum, N, run, i)
  }

  /**
   In every run the buffers of every worker are executed in the order they were filled in,
   iff every cycle executes.
   */
  lemma BufferOrderKeptIff(workerNum: nat, N: nat)
    requires workerNum > 0
    ensures (forall run: seq<Action> :: AllKeepBuffers(workerNum, N, run)) <==> N == 0
  {
    hide After, Legal, Arrives, Overtaken;
    if N == 0 {
      forall run: seq<Action> ensures AllKeepBuffers(workerNum, 0, run) {
        if Legal(workerNum, 0, run) {
          forall i: nat | i < workerNum ensures KeepsBuffers(workerNum, 0, run, i) {
            EachBufferKept(workerNum, run, i);
          }
        }
      }
    } else {
      var a, b := InsertJob(1), InsertJob(2);
      var run, m1, m2, c := LaterBufferOvertakes(workerNum, N, a, b);
      assert !KeepsBuffers(workerNum, N, run, 0);
      assert !AllKeepBuffers(workerNum, N, run);
    }
  }

  lemma EachBufferKept(workerNum: nat, run: seq<Action>, i: nat)
    requires Legal(workerNum, 0, run) && i < workerNum
    ensures KeepsBuffers(workerNum, 0, run, i)
  {
    hide After, Legal, Arrives, Overtaken;
    var w := After(workerNum, 0, run).workers[i];
    forall m1: nat, a: Job, c1: nat, m2: nat, b: Job, c2: nat |
      Arrives(workerNum, 0, run, m1, i, a, c1) && Arrives(workerNum, 0, run, m2, i, b, c2)
      ensures c1 < c2 && Once(w, a) && Once(w, b) ==> !Overtaken(w, a, b)
    {
      if c1 < c2 && Once(w, a) && Once(w, b) {
        ArrivesBefore(workerNum, run, i, m1, a, c1, m2, b, c2);
        OvertakenAtZeroIff(workerNum, run, i, m1, a, c1, m2, b, c2);
      }
    }
  }

  lemma ArrivesBefore(workerNum: nat, run: seq<Action>, i: nat, m1: nat, a: Job, c1: nat, m2: nat, b: Job, c2: nat)
    requires Arrives(workerNum, 0, run, m1, i, a, c1) && Arrives(workerNum, 0, run, m2, i, b, c2) && c1 < c2
    ensures m1 < m2
  {
    hide After, Legal;
    if m2 <= m1 {
      assert run[..m1][..m2] == run[..m2];
      assert LegalPrefix(workerNum, 0, run[..m1], m2);
      TakenGrows(workerNum, 0, run[..m1], m2, i);
    }
  }
}
