/**
 * What every run of the worker pool guarantees: conservation of jobs and checksums, no state in which
 * everybody waits, an end after finitely many steps, and a complete account at that end.
 */
module WorkerPoolResults {
  import opened CheckedMath
  import opened Sequences
  import opened WorkerPool

  // ---- Sums over the workers ----

  function Sum(workers: seq<Worker>, f: Worker -> nat): nat {
    if workers == [] then 0 else Sum(workers[..|workers| - 1], f) + f(workers[|workers| - 1])
  }

  lemma {:induction false} SumUpdate(workers: seq<Worker>, t: nat, w: Worker, f: Worker -> nat)
    requires t < |workers|
    ensures Sum(workers[t := w], f) + f(workers[t]) == Sum(workers, f) + f(w)
  {
    var n := |workers| - 1;
    if t < n {
      assert workers[t := w][..n] == workers[..n][t := w];
      SumUpdate(workers[..n], t, w, f);
    } else {
      assert workers[t := w][..n] == workers[..n];
    }
  }

  lemma {:induction false} SumWithin(workers: seq<Worker>, workers': seq<Worker>, f: Worker -> nat, slack: nat)
    requires |workers'| == |workers|
    requires forall t {:trigger workers'[t]} :: 0 <= t < |workers| ==> f(workers[t]) <= f(workers'[t]) <= f(workers[t]) + slack
    ensures Sum(workers, f) <= Sum(workers', f) <= Sum(workers, f) + |workers| * slack
  {
    if workers != [] {
      var n := |workers| - 1;
      var front, front' := workers[..n], workers'[..n];
      assert forall t {:trigger front'[t]} :: 0 <= t < n ==> front'[t] == workers'[t] && front[t] == workers[t];
      SumWithin(front, front', f, slack);
      OneMoreSlack(n, slack);
    }
  }

  lemma OneMoreSlack(n: nat, slack: nat)
    ensures (n + 1) * slack == n * slack + slack
  {
  }

  lemma {:induction false} SumOfZeros(workers: seq<Worker>, f: Worker -> nat)
    requires forall t :: 0 <= t < |workers| ==> f(workers[t]) == 0
    ensures Sum(workers, f) == 0
  {
    if workers != [] {
      SumOfZeros(workers[..|workers| - 1], f);
    }
  }

  // ---- Conservation ----

  /** Jobs a worker has consumed or holds. */
  function Load(w: Worker): nat {
    w.consumed + (if w.pc.Holding? then 1 else 0)
  }

  function Consumed(w: Worker): nat {
    w.consumed
  }

  function Checksum(w: Worker): nat {
    w.checksum
  }

  /** The checksum a worker has accumulated, with the job it holds. */
  function LoadedChecksum(c: Config, w: Worker): nat {
    w.checksum + (if w.pc.Holding? then c.value(w.pc.id) else 0)
  }

  function ValueLoad(c: Config): Worker -> nat {
    (w: Worker) => LoadedChecksum(c, w)
  }

  function QueueValue(c: Config, queue: seq<nat>): nat {
    if queue == [] then 0 else QueueValue(c, queue[..|queue| - 1]) + c.value(queue[|queue| - 1])
  }

  lemma {:induction false} QueueValueFirst(c: Config, queue: seq<nat>)
    requires queue != []
    ensures QueueValue(c, queue) == c.value(queue[0]) + QueueValue(c, queue[1..])
  {
    var n := |queue| - 1;
    if n > 0 {
      QueueValueFirst(c, queue[..n]);
      assert queue[1..][..n - 1] == queue[..n][1..];
    }
  }

  /** Equal modulo 2^64. */
  predicate Congruent(a: int, b: int) {
    (a - b) % MODULUS == 0
  }

  /** Every job produced is queued, held or consumed, and so is its checksum. */
  ghost predicate Conserved(c: Config, s: State) {
    && Sum(s.workers, Load) + |s.queue| == s.produced
    && Congruent(Sum(s.workers, ValueLoad(c)) + QueueValue(c, s.queue), s.expected)
    && s.expected < MODULUS
  }

  lemma CongruentSum(a: int, b: int, x: int, y: int)
    requires Congruent(a, b) && Congruent(x, y)
    ensures Congruent(a + x, b + y)
  {
    var k, l := (a - b) / MODULUS, (x - y) / MODULUS;
    assert a - b == k * MODULUS && x - y == l * MODULUS;
    assert a + x - (b + y) == (k + l) * MODULUS;
  }

  lemma CongruentTransitive(a: int, b: int, d: int)
    requires Congruent(a, b) && Congruent(b, d)
    ensures Congruent(a, d)
  {
    var k, l := (a - b) / MODULUS, (b - d) / MODULUS;
    assert a - b == k * MODULUS && b - d == l * MODULUS;
    assert a - d == (k + l) * MODULUS;
  }

  lemma RemainderIsCongruent(a: nat)
    ensures Congruent(a, a % MODULUS) && Congruent(a % MODULUS, a)
  {
    var q := a / MODULUS;
    assert a == q * MODULUS + a % MODULUS;
    assert a - a % MODULUS == q * MODULUS;
    assert a % MODULUS - a == -q * MODULUS;
  }

  /** Adding the same value on both sides, with the right side reduced. */
  lemma AddToBoth(total: nat, expected: nat, v: nat)
    requires Congruent(total, expected)
    ensures Congruent(total + v, (expected + v) % MODULUS)
  {
    assert Congruent(v, v);
    CongruentSum(total, expected, v, v);
    RemainderIsCongruent(expected + v);
    hide Congruent;
    CongruentTransitive(total + v, expected + v, (expected + v) % MODULUS);
  }

  /** Reducing one summand on the left side. */
  lemma ReduceSummand(rest: nat, a: nat, expected: nat)
    requires Congruent(rest + a, expected)
    ensures Congruent(rest + a % MODULUS, expected)
  {
    assert Congruent(rest, rest);
    RemainderIsCongruent(a);
    CongruentSum(rest, rest, a % MODULUS, a);
    hide Congruent;
    CongruentTransitive(rest + a % MODULUS, rest + a, expected);
  }

  lemma WakingMovesNoJob(c: Config, workers: seq<Worker>, woken: set<nat>)
    ensures Sum(Wake(workers, woken), Load) == Sum(workers, Load)
    ensures Sum(Wake(workers, woken), ValueLoad(c)) == Sum(workers, ValueLoad(c))
  {
    SumWithin(workers, Wake(workers, woken), Load, 0);
    SumWithin(workers, Wake(workers, woken), ValueLoad(c), 0);
  }

  lemma PushConserves(c: Config, s: State, woken: set<nat>)
    requires Conserved(c, s) && Enabled(c, s, Push(woken))
    ensures Conserved(c, After(c, s, Push(woken)))
  {
    hide Congruent, Sum, Wake, WakesSome, ValueLoad;
    var s' := After(c, s, Push(woken));
    WakingMovesNoJob(c, s.workers, woken);
    assert s'.queue[..|s.queue|] == s.queue;
    AddToBoth(Sum(s.workers, ValueLoad(c)) + QueueValue(c, s.queue), s.expected, c.value(s.produced));
  }

  lemma PopConserves(c: Config, s: State, t: nat)
    requires Conserved(c, s) && Enabled(c, s, Pop(t))
    ensures Conserved(c, After(c, s, Pop(t)))
  {
    var w := s.workers[t].(pc := Holding(s.queue[0]));
    SumUpdate(s.workers, t, w, Load);
    SumUpdate(s.workers, t, w, ValueLoad(c));
    QueueValueFirst(c, s.queue);
    hide Sum, QueueValue, Congruent;
  }

  lemma ProcessConserves(c: Config, s: State, t: nat)
    requires Conserved(c, s) && Enabled(c, s, Process(t))
    ensures Conserved(c, After(c, s, Process(t)))
  {
    hide Sum, QueueValue, Congruent, Valid;
    var s' := After(c, s, Process(t));
    var before := LoadedChecksum(c, s.workers[t]);
    SumUpdate(s.workers, t, s'.workers[t], Load);
    SumUpdate(s.workers, t, s'.workers[t], ValueLoad(c));
    assert s'.workers == s.workers[t := s'.workers[t]];
    AtLeastOne(s.workers, t, ValueLoad(c));
    ReduceSummand(Sum(s.workers, ValueLoad(c)) + QueueValue(c, s.queue) - before, before, s.expected);
  }

  lemma {:induction false} AtLeastOne(workers: seq<Worker>, t: nat, f: Worker -> nat)
    requires t < |workers|
    ensures f(workers[t]) <= Sum(workers, f)
  {
    if t < |workers| - 1 {
      AtLeastOne(workers[..|workers| - 1], t, f);
    }
  }

  lemma OthersConserve(c: Config, s: State, s': State)
    requires Conserved(c, s) && s'.queue == s.queue && s'.produced == s.produced && s'.expected == s.expected
    requires |s'.workers| == |s.workers|
    requires forall t {:trigger s'.workers[t]} :: 0 <= t < |s.workers|
               ==> Load(s'.workers[t]) == Load(s.workers[t]) && ValueLoad(c)(s'.workers[t]) == ValueLoad(c)(s.workers[t])
    ensures Conserved(c, s')
  {
    SumWithin(s.workers, s'.workers, Load, 0);
    SumWithin(s.workers, s'.workers, ValueLoad(c), 0);
    hide Sum, QueueValue, Congruent, ValueLoad;
  }

  lemma ConservedKept(c: Config, s: State, e: Event)
    requires Conserved(c, s) && Enabled(c, s, e)
    ensures Conserved(c, After(c, s, e))
  {
    hide Conserved, WakesSome;
    match e
    case Push(woken) => PushConserves(c, s, woken);
    case Pop(t) => PopConserves(c, s, t);
    case Process(t) => ProcessConserves(c, s, t);
    case _ => OthersConserve(c, s, After(c, s, e));
  }

  // ---- Runs ----

  ghost predicate Inv(c: Config, s: State) {
    ExactlyOnce(c, s) && NoneForgotten(c, s) && RecordsKept(c, s) && Conserved(c, s)
  }

  lemma InitialInv(c: Config, s: State)
    requires Initial(c, s)
    ensures Inv(c, s)
  {
    SumOfZeros(s.workers, Load);
    SumOfZeros(s.workers, ValueLoad(c));
  }

  lemma {:induction false} RunKeepsInv(c: Config, ss: seq<State>, es: seq<Event>, k: nat)
    requires Run(c, ss, es) && k <= |es|
    ensures Inv(c, ss[k])
  {
    hide ExactlyOnce, NoneForgotten, RecordsKept, Conserved, Initial, Enabled, After;
    if k == 0 {
      InitialInv(c, ss[0]);
    } else {
      RunKeepsInv(c, ss, es, k - 1);
      assert Enabled(c, ss[k - 1], es[k - 1]);
      ExactlyOnceKept(c, ss[k - 1], es[k - 1]);
      NoneForgottenKept(c, ss[k - 1], es[k - 1]);
      RecordsStay(c, ss[k - 1], es[k - 1]);
      ConservedKept(c, ss[k - 1], es[k - 1]);
    }
  }

  // ---- Nobody waits for ever ----

  /** Some thread can take a step of its own, and main need not stop early for it. */
  ghost predicate CanStep(c: Config, s: State) {
    exists e :: !Spurious(e) && Enabled(c, s, e) && (e.Stop? ==> s.produced >= c.jobs)
  }

  lemma AwakeWorkerCanStep(c: Config, s: State, t: nat)
    requires t < |s.workers| && Awake(s.workers[t].pc) && (s.queue != [] || s.closed)
    ensures CanStep(c, s)
  {
    var e := if s.workers[t].pc.Holding? then Process(t) else if s.queue == [] then PopExits(t) else Pop(t);
    assert Enabled(c, s, e);
  }

  /**
   * In every reachable state before the end some thread can take a step of its own, and one other than
   * stopping early while jobs are left to make: there is no state in which the producer and every
   * unfinished worker wait without a signal on its way.
   */
  lemma NoDeadlock(c: Config, ss: seq<State>, es: seq<Event>, k: nat)
    requires Run(c, ss, es) && k <= |es| && ss[k].main != Finished
    ensures CanStep(c, ss[k])
  {
    var s := ss[k];
    RunKeepsInv(c, ss, es, k);
    hide Conserved, ExactlyOnce, Run, CanStep;
    match s.main
    case Making => MakingCanStep(c, s);
    case Pushing => PushCanStep(c, s);
    case Blocked =>
      assert c.capacity > 0 && SomeAwake(s);
      var t :| 0 <= t < |s.workers| && Awake(s.workers[t].pc);
      AwakeWorkerCanStep(c, s, t);
    case Closing => ClosingCanStep(c, s);
    case Joining => JoiningCanStep(c, s);
  }

  lemma MakingCanStep(c: Config, s: State)
    requires s.main == Making
    ensures CanStep(c, s)
  {
    if s.produced < c.jobs {
      assert Enabled(c, s, Make);
    } else {
      assert Enabled(c, s, Stop);
    }
  }

  lemma ClosingCanStep(c: Config, s: State)
    requires s.main == Closing
    ensures CanStep(c, s)
  {
    assert Enabled(c, s, Close);
  }

  lemma JoiningCanStep(c: Config, s: State)
    requires NoneForgotten(c, s) && s.main == Joining
    ensures CanStep(c, s)
  {
    hide CanStep;
    if t :| 0 <= t < |s.workers| && s.workers[t].pc != Exited {
      AwakeWorkerCanStep(c, s, t);
    } else {
      JoinCanStep(c, s);
    }
  }

  lemma JoinCanStep(c: Config, s: State)
    requires s.main == Joining && forall t :: 0 <= t < |s.workers| ==> s.workers[t].pc == Exited
    ensures CanStep(c, s)
  {
    assert Enabled(c, s, Join);
  }

  lemma PushCanStep(c: Config, s: State)
    requires s.main == Pushing
    ensures CanStep(c, s)
  {
    if s.closed {
      assert Enabled(c, s, PushRefused);
    } else if |s.queue| == c.capacity {
      assert Enabled(c, s, PushBlocks);
    } else if exists t :: At(s, t, Waiting) {
      var t :| At(s, t, Waiting);
      assert WakesSome(s, {t}) && Enabled(c, s, Push({t}));
    } else {
      assert WakesSome(s, {}) && Enabled(c, s, Push({}));
    }
  }

  // ---- The end is reached ----

  function Weight(w: Worker): nat {
    match w.pc
    case Exited => 0
    case Waiting => 0
    case Ready => 1
    case Holding(_) => 2
  }

  function MainWeight(m: Main, workers: nat): nat {
    match m
    case Making => workers + 4
    case Pushing => workers + 3
    case Blocked => workers + 2
    case Closing => workers + 2
    case Joining => 1
    case Finished => 0
  }

  /** What producing and handling `jobs` more jobs may take. */
  function Work(jobs: int, workers: nat): int {
    jobs * (workers + 6)
  }

  /** What is left to do. */
  function Measure(c: Config, s: State): int {
    Work(c.jobs - s.produced, |s.workers|) + MainWeight(s.main, |s.workers|) + 3 * |s.queue| + Sum(s.workers, Weight)
  }

  lemma OneJobLess(jobs: int, workers: nat)
    ensures Work(jobs - 1, workers) == Work(jobs, workers) - workers - 6
  {
  }

  lemma WakingAddsLittle(workers: seq<Worker>, woken: set<nat>)
    ensures Sum(Wake(workers, woken), Weight) <= Sum(workers, Weight) + |workers|
    ensures Sum(WakeAll(workers), Weight) <= Sum(workers, Weight) + |workers|
  {
    SumWithin(workers, Wake(workers, woken), Weight, 1);
    SumWithin(workers, WakeAll(workers), Weight, 1);
  }

  lemma PushDecreases(c: Config, s: State, woken: set<nat>)
    requires Enabled(c, s, Push(woken))
    ensures Measure(c, After(c, s, Push(woken))) < Measure(c, s)
  {
    hide Work, WakesSome, Sum, Wake;
    WakingAddsLittle(s.workers, woken);
    OneJobLess(c.jobs - s.produced, |s.workers|);
  }

  lemma CloseDecreases(c: Config, s: State)
    requires Enabled(c, s, Close)
    ensures Measure(c, After(c, s, Close)) < Measure(c, s)
  {
    hide Work, Sum, WakeAll;
    WakingAddsLittle(s.workers, {});
  }

  lemma WorkerStepCounts(c: Config, s: State, e: Event, t: nat)
    requires Enabled(c, s, e) && ByWorker(e) && e.t == t
    ensures t < |s.workers| && Measure(c, After(c, s, e)) <= Measure(c, s) + (if Spurious(e) then 1 else -1)
  {
    var s' := After(c, s, e);
    SumUpdate(s.workers, t, s'.workers[t], Weight);
    assert s'.workers == s.workers[t := s'.workers[t]];
    hide Work, Sum, QueueValue, LoadedChecksum;
  }

  lemma StepDecreasesMeasure(c: Config, s: State, e: Event)
    requires Enabled(c, s, e)
    ensures !Spurious(e) ==> Measure(c, After(c, s, e)) < Measure(c, s)
    ensures Spurious(e) ==> Measure(c, After(c, s, e)) <= Measure(c, s) + 1
  {
    hide Work, Sum, WakesSome;
    if ByWorker(e) {
      WorkerStepCounts(c, s, e, e.t);
    } else {
      match e
      case Push(woken) => PushDecreases(c, s, woken);
      case Close => CloseDecreases(c, s);
      case _ =>
    }
  }

  function CountSpurious(es: seq<Event>): nat {
    if es == [] then 0 else CountSpurious(es[..|es| - 1]) + (if Spurious(es[|es| - 1]) then 1 else 0)
  }

  lemma MeasureNotNegative(c: Config, s: State)
    requires ExactlyOnce(c, s)
    ensures Measure(c, s) >= 0
  {
    assert c.jobs - s.produced >= 0;
    NotNegative(c.jobs - s.produced, |s.workers|);
    hide Work, Sum, ExactlyOnce;
  }

  lemma NotNegative(a: int, n: nat)
    requires a >= 0
    ensures Work(a, n) >= 0
  {
  }

  /** A run is no longer than the work at its start and twice its spurious wakeups. */
  lemma {:induction false} RunsAreBounded(c: Config, ss: seq<State>, es: seq<Event>, k: nat)
    requires Run(c, ss, es) && k <= |es|
    ensures 0 <= Measure(c, ss[k]) && Measure(c, ss[k]) + k <= Measure(c, ss[0]) + 2 * CountSpurious(es[..k])
  {
    hide Measure, After, Enabled, ExactlyOnce, NoneForgotten, Conserved, Initial, Spurious;
    RunKeepsInv(c, ss, es, k);
    MeasureNotNegative(c, ss[k]);
    if k > 0 {
      RunsAreBounded(c, ss, es, k - 1);
      assert Enabled(c, ss[k - 1], es[k - 1]);
      assert es[..k][..k - 1] == es[..k - 1];
      StepDecreasesMeasure(c, ss[k - 1], es[k - 1]);
    }
  }

  // ---- The account at the end ----

  /**
   * When main has joined every worker: the queue is empty, every job that was produced was consumed and
   * seen exactly once with its payload intact and its record freed, no duplicate or invalid job was
   * counted, and the checksums agree.
   */
  lemma EndsWithEverything(c: Config, ss: seq<State>, es: seq<Event>, k: nat)
    requires Run(c, ss, es) && k <= |es| && ss[k].main == Finished
    ensures var s := ss[k];
            && s.queue == [] && s.records == map[] && Sum(s.workers, Consumed) == s.produced
            && (forall id: nat :: id in s.seen <==> id < s.produced)
            && (forall t :: 0 <= t < |s.workers| ==> s.workers[t].duplicates == 0 && s.workers[t].invalid == 0)
            && Sum(s.workers, Checksum) % MODULUS == s.expected
  {
    var s := ss[k];
    RunKeepsInv(c, ss, es, k);
    if |s.workers| > 0 {
      assert s.workers[0].pc == Exited;
    }
    assert s.queue == [];
    forall id: nat | id < s.produced
      ensures id in s.seen
    {
      assert !exists t :: At(s, t, Holding(id));
    }
    assert s.records.Keys == {};
    NothingHeld(c, s);
    hide ExactlyOnce, NoneForgotten, RecordsKept, Sum;
    CongruentReduced(Sum(s.workers, Checksum), s.expected);
  }

  lemma NothingHeld(c: Config, s: State)
    requires forall t :: 0 <= t < |s.workers| ==> s.workers[t].pc == Exited
    ensures Sum(s.workers, Consumed) == Sum(s.workers, Load)
    ensures Sum(s.workers, Checksum) == Sum(s.workers, ValueLoad(c))
  {
    SumSame(s.workers, Consumed, Load);
    SumSame(s.workers, Checksum, ValueLoad(c));
  }

  lemma {:induction false} SumSame(workers: seq<Worker>, f: Worker -> nat, g: Worker -> nat)
    requires forall t :: 0 <= t < |workers| ==> f(workers[t]) == g(workers[t])
    ensures Sum(workers, f) == Sum(workers, g)
  {
    if workers != [] {
      SumSame(workers[..|workers| - 1], f, g);
    }
  }

  lemma CongruentReduced(a: nat, b: nat)
    requires Congruent(a, b) && b < MODULUS
    ensures a % MODULUS == b
  {
    var k := (a - b) / MODULUS;
    assert a == k * MODULUS + b;
  }

  // ---- Every job is produced ----

  /** Main still has jobs to make, or has made all of them. */
  ghost predicate OnTheWay(c: Config, s: State) {
    s.main == Making || s.main == Pushing || s.main == Blocked || s.produced == c.jobs
  }

  lemma OnTheWayStep(c: Config, s: State, e: Event)
    requires NoneForgotten(c, s) && Enabled(c, s, e) && OnTheWay(c, s) && (e.Stop? ==> s.produced == c.jobs)
    ensures OnTheWay(c, After(c, s, e))
  {
    hide WakesSome, SomeAwake;
  }

  lemma {:induction false} OnTheWayAt(c: Config, ss: seq<State>, es: seq<Event>, k: nat)
    requires Run(c, ss, es) && k <= |es| && ss[0].main == Making
    requires forall n {:trigger es[n]} :: 0 <= n < k && es[n].Stop? ==> ss[n].produced == c.jobs
    ensures OnTheWay(c, ss[k])
  {
    hide ExactlyOnce, NoneForgotten, Conserved, RecordsKept, Enabled, After;
    if k > 0 {
      OnTheWayAt(c, ss, es, k - 1);
      RunKeepsInv(c, ss, es, k - 1);
      assert Enabled(c, ss[k - 1], es[k - 1]);
      OnTheWayStep(c, ss[k - 1], es[k - 1]);
    }
  }

  /**
   * Unless main stops early, for a failed allocation, every job is produced by the end, and so consumed:
   * no push is ever refused.
   */
  lemma AllJobsAreDone(c: Config, ss: seq<State>, es: seq<Event>, k: nat)
    requires Run(c, ss, es) && k <= |es| && ss[0].main == Making && ss[k].main == Finished
    requires forall n {:trigger es[n]} :: 0 <= n < k && es[n].Stop? ==> ss[n].produced == c.jobs
    ensures ss[k].produced == c.jobs && Sum(ss[k].workers, Consumed) == c.jobs
    ensures forall id: nat :: id in ss[k].seen <==> id < c.jobs
  {
    OnTheWayAt(c, ss, es, k);
    EndsWithEverything(c, ss, es, k);
  }

  /** No push is refused in any run: main alone closes the queue, when it has pushed its last job. */
  lemma NoPushIsRefused(c: Config, ss: seq<State>, es: seq<Event>, k: nat)
    requires Run(c, ss, es) && k < |es|
    ensures !es[k].PushRefused?
  {
    hide ExactlyOnce, Conserved, RecordsKept, Initial;
    RunKeepsInv(c, ss, es, k);
    assert Enabled(c, ss[k], es[k]);
  }
}
