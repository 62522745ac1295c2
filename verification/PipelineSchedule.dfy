/**
 Which buffers the pipeline executes.  The scheduler and the senders can always
 move, so every cycle is reached from every state; whether every buffer is
 executed again and again depends on NUM_SCHED_INS_DEL.
 */
module PipelineSchedule {
  import opened Arithmetic
  import opened BatchSpec
  import opened TripleBuffer
  import opened PipelineJobs

  // ----- cycle numbers ------------------------------------------------------

  /** Cycle k processes buffer (k - 1) % 3 of every worker. */
  function CycleBuffer(k: nat): nat
    requires k > 0
  {
    (k - 1) % 3
  }

  /** Any 3 * (N + 1) cycles in a row have one that processes buffer b and executes its inserts. */
  lemma NextExecution(N: nat, b: nat, m: nat) returns (k: nat)
    requires (N + 1) % 3 != 0 && b < 3
    ensures m < k <= m + 3 * (N + 1) && CycleBuffer(k) == b && k % (N + 1) == 0
  {
    var p := N + 1;
    var j := m / p + 1;
    var d := TurnOf(p, j, b);
    k := p * (j + d);
    MultipleOf(j + d, p);
    Window(p, m, d);
    BufferOf(k, b);
  }

  /** Of three multiples of p in a row one leaves remainder b + 1 modulo 3. */
  lemma TurnOf(p: nat, j: nat, b: nat) returns (d: nat)
    requires p % 3 != 0 && b < 3
    ensures d < 3 && (p * (j + d)) % 3 == (b + 1) % 3
  {
    var turn := if p % 3 == 1 then b + 1 else 2 * (b + 1);
    d := (turn + 2 * j) % 3;
    var x := j + d;
    assert x % 3 == turn % 3;
    Times(p, x);
    if p % 3 == 1 {
      assert (p % 3) * x == x;
    } else {
      assert (p % 3) * x == 2 * x;
    }
  }

  lemma Window(p: nat, m: nat, d: nat)
    requires p > 0 && d < 3
    ensures m < p * (m / p + 1 + d) <= m + 3 * p
  {
    var q, r := m / p, m % p;
    assert m == p * q + r;
    assert p * (q + 1 + d) == p * q + p + p * d;
    assert p * d == if d == 0 then 0 else if d == 1 then p else 2 * p;
  }

  lemma BufferOf(k: nat, b: nat)
    requires k > 0 && b < 3 && k % 3 == (b + 1) % 3
    ensures CycleBuffer(k) == b
  {
  }

  /** A product's remainder modulo 3 depends on the factor's. */
  lemma Times(p: nat, c: nat)
    ensures (p * c) % 3 == ((p % 3) * c) % 3
  {
    assert p * c == 3 * ((p / 3) * c) + (p % 3) * c;
  }

  /** Otherwise only the buffer of every third cycle is ever executed. */
  lemma StarvedCycle(N: nat, k: nat)
    requires (N + 1) % 3 == 0 && k > 0 && k % (N + 1) == 0
    ensures CycleBuffer(k) == 2
  {
    var a := (N + 1) / 3;
    var j := k / (N + 1);
    assert k == (N + 1) * j;
    assert (N + 1) * j == 3 * (a * j);
  }

  /**
   In every run: cycle number k processes buffer CycleBuffer(k) and executes inserts and
   deletes iff N + 1 divides k.
   */
  lemma RanBuffer(workerNum: nat, N: nat, run: seq<Action>)
    requires Legal(workerNum, N, run) && After(workerNum, N, run).pc == Ran
    ensures var s := After(workerNum, N, run); var k := s.cycles + 1;
            s.gpuBufId == CycleBuffer(k) && (s.execute <==> k % (N + 1) == 0)
  {
    hide After;
    AlwaysInStep(workerNum, N, run);
    AlwaysOnSchedule(workerNum, N, run);
  }

  /** With 3 dividing N + 1, an executing cycle of any run works on buffer 2. */
  lemma StarvedBuffer(workerNum: nat, N: nat, run: seq<Action>)
    requires Legal(workerNum, N, run) && After(workerNum, N, run).pc == Ran && After(workerNum, N, run).execute
    requires (N + 1) % 3 == 0
    ensures After(workerNum, N, run).gpuBufId == 2
  {
    hide After;
    RanBuffer(workerNum, N, run);
    StarvedCycle(N, After(workerNum, N, run).cycles + 1);
  }

  // ----- the pipeline never stops -------------------------------------------

  /** The step the scheduler takes next, or the one of the sender it waits for. */
  function Turn(s: State): Action
    requires s.pc.Giving? ==> s.pc.next < |s.workers|
  {
    match s.pc
    case Idle => BeginCycle
    case Taking(_) => TakeOne
    case Taken => RunKernels
    case Ran => BeginGiving
    case Giving(i) =>
      if s.workers[i].batch.senderBufId == NONE then GiveOne
      else match s.workers[i].sender
        case Waiting => SeeBuffer(i)
        case Sending => RefreshBuffer(i)
        case Refreshed => PushBuffer(i)
        case Pushed => ResetSender(i)
  }

  /** No deadlock: in every state that can be reached the next step is possible. */
  lemma TurnIsEnabled(s: State)
    requires InStep(s) && |s.workers| > 0
    ensures Enabled(s, Turn(s)) && !Turn(s).Receiving?
  {
    if s.pc == Taken {
      forall w | w in s.workers ensures |w.batch.bufs| == 3 {
        var k :| 0 <= k < |s.workers| && s.workers[k] == w;
        assert Rotating(s.workers[k]);
      }
    } else if s.pc.Giving? {
      assert Rotating(s.workers[s.pc.next]);
    }
  }

  function SenderLeft(w: Worker): nat
  {
    if w.batch.senderBufId == NONE then 0
    else match w.sender
      case Waiting => 4
      case Sending => 3
      case Refreshed => 2
      case Pushed => 1
  }

  /** At most so many turns until the kernels have run. */
  function Distance(s: State): nat
    requires (s.pc.Giving? || s.pc.Taking?) ==> s.pc.next < |s.workers|
  {
    var n := |s.workers|;
    match s.pc
    case Idle => n + 2
    case Taking(i) => n - i + 1
    case Taken => 1
    case Ran => 0
    case Giving(i) => 5 * (n - i) + n + 2 + SenderLeft(s.workers[i])
  }

  lemma TurnProgress(s: State, N: nat)
    requires InStep(s) && |s.workers| > 0 && s.pc != Ran && Enabled(s, Turn(s))
    ensures var s' := Apply(s, Turn(s), N);
            && ((s'.pc.Giving? || s'.pc.Taking?) ==> s'.pc.next < |s'.workers|)
            && Distance(s') < Distance(s)
            && s'.cycles + (if s'.pc.Giving? then 1 else 0) == s.cycles + (if s.pc.Giving? then 1 else 0)
  {
    hide Rotating, Take, Give, Refresh, Push, Execute;
    if s.pc.Giving? { RefreshKeepsId(s.workers[s.pc.next].batch); }
  }

  lemma RefreshKeepsId(b: Batch)
    ensures 0 <= b.senderBufId < |b.bufs| ==> Refresh(b).senderBufId == b.senderBufId
    ensures Push(b).senderBufId == b.senderBufId
  {
  }

  /** From point m on nothing is received. */
  ghost predicate Quiet(run: seq<Action>, m: nat)
  {
    forall k: nat | m <= k < |run| :: !run[k].Receiving?
  }

  lemma Extended(workerNum: nat, N: nat, run: seq<Action>, a: Action)
    requires Legal(workerNum, N, run) && Enabled(After(workerNum, N, run), a)
    ensures Legal(workerNum, N, run + [a])
    ensures After(workerNum, N, run + [a]) == Apply(After(workerNum, N, run), a, N)
  {
    assert (run + [a])[..|run|] == run;
  }

  /** Every run can be continued until the kernels of the cycle in hand, or of the next, have run. */
  lemma {:induction false} ReachRan(workerNum: nat, N: nat, run: seq<Action>) returns (later: seq<Action>)
    requires Legal(workerNum, N, run) && workerNum > 0 && InStep(After(workerNum, N, run))
    ensures run <= later && Quiet(later, |run|) && Legal(workerNum, N, later) && After(workerNum, N, later).pc == Ran
    ensures var s := After(workerNum, N, run);
            After(workerNum, N, later).cycles == s.cycles + (if s.pc.Giving? then 1 else 0)
    decreases Distance(After(workerNum, N, run))
  {
    hide InStep, After, Legal, Distance, Apply, Enabled, Turn;
    var s := After(workerNum, N, run);
    later := run;
    if s.pc != Ran {
      InStepBounds(s);
      TurnIsEnabled(s);
      TurnProgress(s, N);
      Extended(workerNum, N, run, Turn(s));
      AlwaysInStep(workerNum, N, run + [Turn(s)]);
      later := ReachRan(workerNum, N, run + [Turn(s)]);
    }
  }

  lemma InStepBounds(s: State)
    requires InStep(s)
    ensures (s.pc.Giving? || s.pc.Taking?) ==> s.pc.next < |s.workers|
  {
  }

  /** And on to any later cycle. */
  lemma {:induction false} ReachCycle(workerNum: nat, N: nat, run: seq<Action>, c: nat) returns (later: seq<Action>)
    requires Legal(workerNum, N, run) && workerNum > 0 && After(workerNum, N, run).cycles < c
    ensures run < later && Quiet(later, |run|) && Legal(workerNum, N, later)
    ensures After(workerNum, N, later).pc == Ran && After(workerNum, N, later).cycles == c
    decreases c - After(workerNum, N, run).cycles, 1
  {
    hide InStep, After, Legal;
    AlwaysInStep(workerNum, N, run);
    later := ReachRan(workerNum, N, run);
    if After(workerNum, N, later).cycles < c {
      var s := After(workerNum, N, later);
      AlwaysInStep(workerNum, N, later);
      Extended(workerNum, N, later, BeginGiving);
      var giving := later + [BeginGiving];
      AlwaysInStep(workerNum, N, giving);
      var next := ReachRan(workerNum, N, giving);
      later := next;
      if After(workerNum, N, next).cycles < c {
        later := ReachCycle(workerNum, N, next, c);
      }
    }
    assert |later| == |run| ==> later == run;
  }

  // ----- every buffer in its turn -------------------------------------------

  ghost predicate LegalPrefix(workerNum: nat, N: nat, run: seq<Action>, m: nat)
    requires m <= |run|
  {
    Legal(workerNum, N, run[..m])
  }

  lemma {:induction false} PrefixIsLegal(workerNum: nat, N: nat, run: seq<Action>, m: nat)
    requires Legal(workerNum, N, run) && m <= |run|
    ensures LegalPrefix(workerNum, N, run, m)
  {
    if m == |run| {
      assert run[..m] == run;
    } else {
      var n := |run| - 1;
      assert run[..n][..m] == run[..m];
      PrefixIsLegal(workerNum, N, run[..n], m);
    }
  }

  lemma ApplyCycles(s: State, a: Action, N: nat)
    requires Enabled(s, a)
    ensures var s' := Apply(s, a, N);
            && s.cycles <= s'.cycles <= s.cycles + 1
            && (s'.cycles > s.cycles ==> s.pc.Giving?)
            && (s'.pc.Giving? && s'.cycles == s.cycles ==> s.pc.Giving? || s.pc == Ran)
            && (s'.pc.Giving? ==> s'.cycles == s.cycles)
  {
  }

  lemma {:induction false} CyclesGrow(workerNum: nat, N: nat, run: seq<Action>, m: nat)
    requires Legal(workerNum, N, run) && m <= |run| && LegalPrefix(workerNum, N, run, m)
    ensures After(workerNum, N, run[..m]).cycles <= After(workerNum, N, run).cycles
  {
    hide Apply, Enabled;
    if m == |run| {
      assert run[..m] == run;
    } else {
      var n := |run| - 1;
      assert run[..n][..m] == run[..m];
      CyclesGrow(workerNum, N, run[..n], m);
      ApplyCycles(After(workerNum, N, run[..n]), run[n], N);
    }
  }

  /** A run that has completed a cycle, or is handing its buffers over, has run the kernels of that cycle. */
  lemma {:induction false} PassedRan(workerNum: nat, N: nat, run: seq<Action>, c: nat) returns (n: nat)
    requires Legal(workerNum, N, run)
    requires var s := After(workerNum, N, run); s.cycles > c || (s.cycles == c && (s.pc == Ran || s.pc.Giving?))
    ensures n <= |run| && LegalPrefix(workerNum, N, run, n)
    ensures var s := After(workerNum, N, run[..n]); s.pc == Ran && s.cycles == c
  {
    hide Apply, Enabled;
    var s := After(workerNum, N, run);
    if s.pc == Ran && s.cycles == c {
      n := |run|;
      assert run[..n] == run;
    } else {
      var k := |run| - 1;
      ApplyCycles(After(workerNum, N, run[..k]), run[k], N);
      n := PassedRan(workerNum, N, run[..k], c);
      assert run[..k][..n] == run[..n];
    }
  }

  ghost predicate ExecutesAt(workerNum: nat, N: nat, run: seq<Action>, b: nat, n: nat)
    requires n <= |run|
  {
    LegalPrefix(workerNum, N, run, n) &&
    var s := After(workerNum, N, run[..n]); s.pc == Ran && s.execute && s.gpuBufId == b
  }

  /** Buffer b is executed somewhere behind point m of the run. */
  ghost predicate ExecutesFrom(workerNum: nat, N: nat, run: seq<Action>, m: nat, b: nat)
  {
    exists n: nat :: m <= n <= |run| && ExecutesAt(workerNum, N, run, b, n)
  }

  /** Behind point m the run completes more than 3 * (N + 1) cycles. */
  ghost predicate GoesOn(workerNum: nat, N: nat, run: seq<Action>, m: nat)
  {
    && Legal(workerNum, N, run) && m <= |run| && LegalPrefix(workerNum, N, run, m)
    && After(workerNum, N, run).cycles > After(workerNum, N, run[..m]).cycles + 3 * (N + 1)
  }

  lemma ExecutedInTime(workerNum: nat, N: nat, run: seq<Action>, m: nat, b: nat)
    requires (N + 1) % 3 != 0 && b < 3 && GoesOn(workerNum, N, run, m)
    ensures ExecutesFrom(workerNum, N, run, m, b)
  {
    hide After, Legal;
    var c0 := After(workerNum, N, run[..m]).cycles;
    var k := NextExecution(N, b, c0 + 1);
    var n := PassedRan(workerNum, N, run, k - 1);
    RanBuffer(workerNum, N, run[..n]);
    if n < m {
      assert run[..m][..n] == run[..n];
      assert LegalPrefix(workerNum, N, run[..m], n);
      CyclesGrow(workerNum, N, run[..m], n);
    }
    assert ExecutesAt(workerNum, N, run, b, n);
  }

  /**
   In every run each buffer is executed within any stretch of more than 3 * (N + 1)
   cycles, if and only if 3 does not divide N + 1.
   */
  lemma EveryBufferExecutesIff(workerNum: nat, N: nat)
    requires workerNum > 0
    ensures (forall run: seq<Action>, m: nat, b: nat | GoesOn(workerNum, N, run, m) && b < 3 ::
               ExecutesFrom(workerNum, N, run, m, b)) <==> (N + 1) % 3 != 0
  {
    hide GoesOn, ExecutesFrom;
    if (N + 1) % 3 != 0 {
      forall run: seq<Action>, m: nat, b: nat | GoesOn(workerNum, N, run, m) && b < 3
        ensures ExecutesFrom(workerNum, N, run, m, b)
      {
        ExecutedInTime(workerNum, N, run, m, b);
      }
    } else {
      var run := LongRun(workerNum, N);
      NeverBuffer0(workerNum, N, run, 0);
    }
  }

  /** Such stretches exist. */
  lemma LongRun(workerNum: nat, N: nat) returns (run: seq<Action>)
    requires workerNum > 0
    ensures GoesOn(workerNum, N, run, 0)
  {
    hide After, Legal;
    NothingIsLegal(workerNum, N);
    run := ReachCycle(workerNum, N, [], 3 * (N + 1) + 1);
    assert run[..0] == [];
  }

  lemma NothingIsLegal(workerNum: nat, N: nat)
    ensures Legal(workerNum, N, []) && After(workerNum, N, []).cycles == 0
  {
  }

  lemma NeverBuffer0(workerNum: nat, N: nat, run: seq<Action>, m: nat)
    requires (N + 1) % 3 == 0
    ensures !ExecutesFrom(workerNum, N, run, m, 0)
  {
    hide After, Legal;
    if ExecutesFrom(workerNum, N, run, m, 0) {
      var n: nat :| m <= n <= |run| && ExecutesAt(workerNum, N, run, 0, n);
      StarvedBuffer(workerNum, N, run[..n]);
    }
  }
}
