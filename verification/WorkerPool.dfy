/**
 * The worker pool (examples/worker_pool.c): one producer and any number of workers over the bounded
 * queue. Every critical section is one step, since the mutex is held throughout; a wait releases the
 * mutex and blocks in the same step; a signal wakes at least one waiter; any waiter may wake spuriously.
 */
module WorkerPool {
  import opened CheckedMath
  import opened Sequences

  /** Checksum and payload bytes of each job are fixed by the seed. */
  datatype Config = Config(jobs: nat, capacity: nat, value: nat -> nat, payload: nat -> seq<nat>)

  datatype Pc = Ready | Waiting | Holding(id: nat) | Exited

  /** A worker and the result record it accumulates. */
  datatype Worker = Worker(pc: Pc, consumed: nat, duplicates: nat, invalid: nat, checksum: nat)

  /** The main thread: producing, pushing or blocked in a push, closing, joining, done. */
  datatype Main = Making | Pushing | Blocked | Closing | Joining | Finished

  /** `records` holds the payload of every job record that is allocated. */
  datatype State = State(queue: seq<nat>, closed: bool, main: Main, produced: nat, expected: nat,
                         seen: set<nat>, records: map<nat, seq<nat>>, workers: seq<Worker>)

  datatype Event =
    | Make
    | Stop
    | PushBlocks
    | Push(woken: set<nat>)
    | PushRefused
    | Close
    | Join
    | PopWaits(t: nat)
    | PopExits(t: nat)
    | Pop(t: nat)
    | Process(t: nat)
    | WakeMain
    | WakeWorker(t: nat)

  predicate Spurious(e: Event) {
    e.WakeMain? || e.WakeWorker?
  }

  ghost predicate At(s: State, t: nat, pc: Pc) {
    t < |s.workers| && s.workers[t].pc == pc
  }

  /** Signalling wakes at least one waiting worker, if there is one. */
  ghost predicate WakesSome(s: State, woken: set<nat>) {
    && (forall t :: t in woken ==> At(s, t, Waiting))
    && ((exists t :: At(s, t, Waiting)) ==> woken != {})
  }

  ghost predicate Enabled(c: Config, s: State, e: Event) {
    match e
    case Make => s.main == Making && s.produced < c.jobs
    case Stop => s.main == Making
    case PushBlocks => s.main == Pushing && |s.queue| == c.capacity && !s.closed
    case Push(woken) => s.main == Pushing && |s.queue| != c.capacity && !s.closed && WakesSome(s, woken)
    case PushRefused => s.main == Pushing && s.closed
    case Close => s.main == Closing
    case Join => s.main == Joining && forall t :: 0 <= t < |s.workers| ==> s.workers[t].pc == Exited
    case PopWaits(t) => At(s, t, Ready) && s.queue == [] && !s.closed
    case PopExits(t) => At(s, t, Ready) && s.queue == [] && s.closed
    case Pop(t) => At(s, t, Ready) && s.queue != []
    case Process(t) => t < |s.workers| && s.workers[t].pc.Holding?
    case WakeMain => s.main == Blocked
    case WakeWorker(t) => At(s, t, Waiting)
  }

  function SetPc(s: State, t: nat, pc: Pc): State
    requires t < |s.workers|
  {
    s.(workers := s.workers[t := s.workers[t].(pc := pc)])
  }

  function Wake(workers: seq<Worker>, woken: set<nat>): (r: seq<Worker>)
    ensures |r| == |workers|
  {
    seq(|workers|, t requires 0 <= t < |workers| =>
      if t in woken && workers[t].pc == Waiting then workers[t].(pc := Ready) else workers[t])
  }

  function WakeAll(workers: seq<Worker>): (r: seq<Worker>)
    ensures |r| == |workers|
  {
    seq(|workers|, t requires 0 <= t < |workers| =>
      if workers[t].pc == Waiting then workers[t].(pc := Ready) else workers[t])
  }

  /** `job_is_valid`: the record still has the payload that was written for it. */
  function Valid(c: Config, s: State, id: nat): bool {
    id in s.records && s.records[id] == c.payload(id)
  }

  /** What a worker does with a job it holds: mark it seen, check its payload, add up, free its record. */
  function Processed(c: Config, s: State, t: nat, id: nat): State
    requires t < |s.workers|
  {
    var w := s.workers[t];
    var invalid := w.invalid + (if id >= c.jobs then 1 else 0) + (if Valid(c, s, id) then 0 else 1);
    var duplicates := w.duplicates + (if id < c.jobs && id in s.seen then 1 else 0);
    var seen := if id < c.jobs then s.seen + {id} else s.seen;
    s.(seen := seen, records := s.records - {id},
       workers := s.workers[t := Worker(Ready, w.consumed + 1, duplicates, invalid, (w.checksum + c.value(id)) % MODULUS)])
  }

  ghost function After(c: Config, s: State, e: Event): State
    requires Enabled(c, s, e)
  {
    match e
    case Make => s.(main := Pushing, records := s.records[s.produced := c.payload(s.produced)])
    case Stop => s.(main := Closing)
    case PushBlocks => s.(main := Blocked)
    case Push(woken) =>
      s.(queue := s.queue + [s.produced], produced := s.produced + 1, main := Making,
         expected := (s.expected + c.value(s.produced)) % MODULUS, workers := Wake(s.workers, woken))
    case PushRefused => s.(main := Closing, records := s.records - {s.produced})
    case Close => s.(closed := true, main := Joining, workers := WakeAll(s.workers))
    case Join => s.(main := Finished)
    case PopWaits(t) => SetPc(s, t, Waiting)
    case PopExits(t) => SetPc(s, t, Exited)
    case Pop(t) =>
      SetPc(s, t, Holding(s.queue[0])).(queue := s.queue[1..], main := if s.main == Blocked then Pushing else s.main)
    case Process(t) => Processed(c, s, t, s.workers[t].pc.id)
    case WakeMain => s.(main := Pushing)
    case WakeWorker(t) => SetPc(s, t, Ready)
  }

  /** Workers have been started and nothing has been produced; after a failed start main only closes. */
  ghost predicate Initial(c: Config, s: State) {
    && s.queue == [] && !s.closed && s.produced == 0 && s.expected == 0 && s.seen == {} && s.records == map[]
    && (forall t :: 0 <= t < |s.workers| ==> s.workers[t] == Worker(Ready, 0, 0, 0, 0))
    && (s.main == Closing || (s.main == Making && |s.workers| > 0))
  }

  ghost predicate Run(c: Config, ss: seq<State>, es: seq<Event>) {
    && c.capacity > 0 && |ss| == |es| + 1 && Initial(c, ss[0])
    && forall k {:trigger es[k]} :: 0 <= k < |es| ==> Enabled(c, ss[k], es[k]) && ss[k + 1] == After(c, ss[k], es[k])
  }

  // ---- Exactly once ----

  /** How many jobs have left the queue. */
  function Taken(s: State): int {
    s.produced - |s.queue|
  }

  /** The queue holds consecutive jobs, the first taken next. */
  ghost predicate InOrder(queue: seq<nat>, first: int) {
    forall i :: 0 <= i < |queue| ==> queue[i] == first + i
  }

  /** Jobs leave in the order they entered, and each that left is held by one worker or seen, never both. */
  ghost predicate ExactlyOnce(c: Config, s: State) {
    && 0 <= Taken(s) && s.produced <= c.jobs && |s.queue| <= c.capacity
    && InOrder(s.queue, Taken(s))
    && (forall id: nat :: id in s.seen ==> id < Taken(s))
    && (forall t :: 0 <= t < |s.workers| && s.workers[t].pc.Holding?
                    ==> s.workers[t].pc.id < Taken(s) && s.workers[t].pc.id !in s.seen)
    && (forall t, u :: 0 <= t < u < |s.workers| && s.workers[t].pc.Holding? && s.workers[u].pc.Holding?
                       ==> s.workers[t].pc.id != s.workers[u].pc.id)
    && (forall id: nat :: id < Taken(s) && id !in s.seen ==> exists t :: At(s, t, Holding(id)))
    && (forall t :: 0 <= t < |s.workers| ==> s.workers[t].duplicates == 0 && s.workers[t].invalid == 0)
  }

  /**
   * The allocated records are those of the jobs queued, held, or about to be pushed, each with the payload
   * that was written for it.
   */
  ghost predicate RecordsKept(c: Config, s: State) {
    && (forall id: nat :: id in s.records
          <==> (id < s.produced && id !in s.seen) || (id == s.produced && (s.main == Pushing || s.main == Blocked)))
    && (forall id: nat :: id in s.records ==> s.records[id] == c.payload(id))
  }

  lemma RecordsStay(c: Config, s: State, e: Event)
    requires ExactlyOnce(c, s) && RecordsKept(c, s) && Enabled(c, s, e)
    ensures RecordsKept(c, After(c, s, e))
  {
    hide WakesSome, InOrder;
  }

  // ---- Nobody is forgotten ----

  predicate Awake(pc: Pc) {
    pc == Ready || pc.Holding?
  }

  ghost predicate SomeAwake(s: State) {
    exists t :: 0 <= t < |s.workers| && Awake(s.workers[t].pc)
  }

  /**
   * A nonempty queue has a worker awake, a blocked producer faces a full queue, and closing leaves
   * nobody waiting; a worker leaves only a closed and empty queue.
   */
  ghost predicate NoneForgotten(c: Config, s: State) {
    && (s.queue != [] ==> SomeAwake(s))
    && (s.main == Blocked ==> |s.queue| == c.capacity)
    && (s.closed <==> s.main == Joining || s.main == Finished)
    && (s.closed ==> forall t :: 0 <= t < |s.workers| ==> s.workers[t].pc != Waiting)
    && (forall t :: 0 <= t < |s.workers| && s.workers[t].pc == Exited ==> s.closed && s.queue == [])
    && (s.main == Making || s.main == Pushing || s.main == Blocked || s.produced > 0 ==> |s.workers| > 0)
    && (s.main == Pushing || s.main == Blocked ==> s.produced < c.jobs)
    && (s.main == Finished ==> forall t :: 0 <= t < |s.workers| ==> s.workers[t].pc == Exited)
  }

  /** Steps that take nothing out of the queue and process nothing. */
  lemma HeldJobsStay(c: Config, s: State, s': State)
    requires ExactlyOnce(c, s) && |s'.workers| == |s.workers|
    requires Taken(s') == Taken(s) && s'.seen == s.seen && s'.produced <= c.jobs && |s'.queue| <= c.capacity
    requires InOrder(s'.queue, Taken(s))
    requires forall t {:trigger s'.workers[t]} :: 0 <= t < |s.workers| ==> SameJob(s.workers[t], s'.workers[t])
    ensures ExactlyOnce(c, s')
  {
    forall id: nat | id < Taken(s') && id !in s'.seen
      ensures exists u :: At(s', u, Holding(id))
    {
      var u :| At(s, u, Holding(id));
      assert At(s', u, Holding(id));
    }
  }

  predicate SameJob(w: Worker, w': Worker) {
    && w'.duplicates == w.duplicates && w'.invalid == w.invalid
    && (w.pc.Holding? || w'.pc.Holding? ==> w'.pc == w.pc)
  }

  lemma PushKeepsOnce(c: Config, s: State, woken: set<nat>)
    requires ExactlyOnce(c, s) && Enabled(c, s, Push(woken)) && s.produced < c.jobs
    ensures ExactlyOnce(c, After(c, s, Push(woken)))
  {
    var s' := After(c, s, Push(woken));
    assert Taken(s') == Taken(s) && s'.queue[|s.queue|] == s.produced;
    assert InOrder(s'.queue, Taken(s));
    hide ExactlyOnce, WakesSome;
    HeldJobsStay(c, s, s');
  }

  lemma ExactlyOnceKept(c: Config, s: State, e: Event)
    requires ExactlyOnce(c, s) && NoneForgotten(c, s) && RecordsKept(c, s) && Enabled(c, s, e)
    ensures ExactlyOnce(c, After(c, s, e))
  {
    match e
    case Pop(t) => PopKeepsOnce(c, s, t);
    case Process(t) => ProcessKeepsOnce(c, s, t);
    case Push(woken) => PushKeepsOnce(c, s, woken);
    case PushRefused =>
    case _ =>
      var s' := After(c, s, e);
      assert s'.queue == s.queue && s'.produced == s.produced && s'.seen == s.seen;
      assert |s.queue| <= c.capacity && s.produced <= c.jobs && InOrder(s.queue, Taken(s));
      hide ExactlyOnce, NoneForgotten, WakesSome;
      HeldJobsStay(c, s, s');
  }

  lemma PopKeepsOnce(c: Config, s: State, t: nat)
    requires ExactlyOnce(c, s) && Enabled(c, s, Pop(t))
    ensures ExactlyOnce(c, After(c, s, Pop(t)))
  {
    var s' := After(c, s, Pop(t));
    assert s.queue[0] == Taken(s) && Taken(s') == Taken(s) + 1;
    forall id: nat | id < Taken(s') && id !in s'.seen
      ensures exists u :: At(s', u, Holding(id))
    {
      if id == Taken(s) {
        assert At(s', t, Holding(id));
      } else {
        var u :| At(s, u, Holding(id));
        assert At(s', u, Holding(id));
      }
    }
  }

  lemma ProcessKeepsOnce(c: Config, s: State, t: nat)
    requires ExactlyOnce(c, s) && RecordsKept(c, s) && Enabled(c, s, Process(t))
    ensures ExactlyOnce(c, After(c, s, Process(t)))
  {
    var s' := After(c, s, Process(t));
    var held := s.workers[t].pc.id;
    assert held < c.jobs && Valid(c, s, held);
    forall id: nat | id < Taken(s') && id !in s'.seen
      ensures exists u :: At(s', u, Holding(id))
    {
      var u :| At(s, u, Holding(id));
      assert At(s', u, Holding(id));
    }
  }

  lemma SomeAwakeKept(c: Config, s: State, e: Event)
    requires NoneForgotten(c, s) && Enabled(c, s, e) && After(c, s, e).queue != []
    ensures SomeAwake(After(c, s, e))
  {
    var s' := After(c, s, e);
    match e
    case Push(woken) => PushLeavesSomeAwake(s, woken);
    case Pop(t) => assert Awake(s'.workers[t].pc);
    case Process(t) => assert Awake(s'.workers[t].pc);
    case PopWaits(_) =>
    case PopExits(_) =>
    case Join =>
    case PushRefused =>
    case _ =>
      var t :| 0 <= t < |s.workers| && Awake(s.workers[t].pc);
      assert Awake(s'.workers[t].pc);
  }

  predicate ByWorker(e: Event) {
    e.PopWaits? || e.PopExits? || e.Pop? || e.Process? || e.WakeWorker?
  }

  lemma WorkerForgetsNone(c: Config, s: State, e: Event)
    requires |s.queue| <= c.capacity && NoneForgotten(c, s) && Enabled(c, s, e) && c.capacity > 0 && ByWorker(e)
    ensures NoneForgotten(c, After(c, s, e))
  {
    if After(c, s, e).queue != [] {
      SomeAwakeKept(c, s, e);
    }
    hide SomeAwake;
  }

  lemma MainForgetsNone(c: Config, s: State, e: Event)
    requires |s.queue| <= c.capacity && NoneForgotten(c, s) && Enabled(c, s, e) && c.capacity > 0 && !ByWorker(e)
    ensures NoneForgotten(c, After(c, s, e))
  {
    if After(c, s, e).queue != [] {
      SomeAwakeKept(c, s, e);
    }
    hide SomeAwake, WakesSome;
  }

  lemma NoneForgottenKept(c: Config, s: State, e: Event)
    requires ExactlyOnce(c, s) && NoneForgotten(c, s) && Enabled(c, s, e) && c.capacity > 0
    ensures NoneForgotten(c, After(c, s, e))
  {
    hide NoneForgotten, Enabled, After;
    if ByWorker(e) {
      WorkerForgetsNone(c, s, e);
    } else {
      MainForgetsNone(c, s, e);
    }
  }

  lemma PushLeavesSomeAwake(s: State, woken: set<nat>)
    requires WakesSome(s, woken) && |s.workers| > 0
    requires forall t :: 0 <= t < |s.workers| ==> s.workers[t].pc != Exited
    ensures exists t :: 0 <= t < |s.workers| && Awake(Wake(s.workers, woken)[t].pc)
  {
    if woken != {} {
      var t :| t in woken;
      assert At(s, t, Waiting) && Awake(Wake(s.workers, woken)[t].pc);
    } else {
      assert !At(s, 0, Waiting) && Awake(Wake(s.workers, woken)[0].pc);
    }
  }
}
