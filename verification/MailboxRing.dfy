/**
 * The ring phase of the benchmark (benchmarks/workloads.c:731-779), once every worker has entered it:
 * worker `i` writes its successor's mailbox, reads its own, and all meet at one reusable barrier three
 * times a round. The barrier releases a generation when the last worker arrives; each released worker
 * leaves on its own. Any step of any worker may come between any two others.
 */
module MailboxRing {
  import opened Sequences

  /** What worker `from` allocated in a round. */
  datatype Item = Item(from: nat, round: nat)

  datatype Pc = Act | Arrive | Inside | Check | Left

  /** `crossings` counts the barriers a worker has left: round and stage are its quotient and remainder by 3. */
  datatype Worker = Worker(crossings: nat, pc: Pc, outgoing: Option<Item>)

  /** `waiting` is who the barrier has counted in this generation; `stopped` is the round of the stop choice. */
  datatype Ring = Ring(boxes: seq<Option<Item>>, workers: seq<Worker>, waiting: set<nat>, generation: nat,
                       stopped: Option<nat>, failed: bool, made: set<Item>, freed: set<Item>)

  datatype Event =
    | Produce(i: nat, ok: bool)
    | Receive(i: nat)
    | Decide(i: nat, late: bool)
    | Enter(i: nat)
    | Leave(i: nat)
    | LookAtStop(i: nat)

  function Next(i: nat, n: nat): (j: nat)
    requires i < n
    ensures j < n && j == (i + 1) % n
  {
    if i + 1 < n then i + 1
    else
      assert (i + 1) % n == 0 by { SelfRemainder(n); }
      0
  }

  function Previous(i: nat, n: nat): (j: nat)
    requires i < n
    ensures j < n && Next(j, n) == i
  {
    if i > 0 then i - 1 else n - 1
  }

  lemma SelfRemainder(n: nat)
    requires n > 0
    ensures n % n == 0
  {
  }

  function Round(w: Worker): nat {
    w.crossings / 3
  }

  function Stage(w: Worker): nat {
    w.crossings % 3
  }

  function Set(s: Ring, i: nat, w: Worker): Ring
    requires i < |s.workers|
  {
    s.(workers := s.workers[i := w])
  }

  ghost predicate Enabled(s: Ring, e: Event) {
    && e.i < |s.workers| == |s.boxes|
    && var w := s.workers[e.i];
       match e
       case Produce(_, _) => w.pc == Act && Stage(w) == 0
       case Receive(_) => w.pc == Act && Stage(w) == 1
       case Decide(_, _) => w.pc == Act && Stage(w) == 2
       case Enter(_) => w.pc == Arrive
       case Leave(_) => w.pc == Inside && w.crossings < s.generation
       case LookAtStop(_) => w.pc == Check
  }

  /** The item a worker allocates, or a null pointer. */
  function NewItem(i: nat, w: Worker, ok: bool): Option<Item> {
    if ok then Some(Item(i, Round(w))) else None
  }

  function ItemsIn(o: Option<Item>): set<Item> {
    match o
    case Some(x) => {x}
    case None => {}
  }

  ghost function After(s: Ring, e: Event): Ring
    requires Enabled(s, e)
  {
    var i, n := e.i, |s.workers|;
    var w := s.workers[i];
    match e
    case Produce(_, ok) =>
      var item := NewItem(i, w, ok);
      Set(s, i, w.(pc := Arrive, outgoing := item)).(boxes := s.boxes[Next(i, n) := item],
        made := s.made + ItemsIn(item), failed := s.failed || !ok)
    case Receive(_) =>
      Set(s, i, w.(pc := Arrive)).(freed := s.freed + ItemsIn(s.boxes[i]))
    case Decide(_, late) =>
      Set(s, i, w.(pc := Arrive)).(stopped :=
        if i == 0 && (late || s.failed) then Some(Round(w)) else s.stopped)
    case Enter(_) =>
      var entered := Set(s, i, w.(pc := Inside));
      if |s.waiting + {i}| == n then entered.(waiting := {}, generation := s.generation + 1)
      else entered.(waiting := s.waiting + {i})
    case Leave(_) =>
      Set(s, i, w.(crossings := w.crossings + 1, pc := if Stage(w) == 2 then Check else Act))
    case LookAtStop(_) =>
      Set(s, i, w.(pc := if s.stopped.Some? then Left else Act))
  }

  ghost predicate Initial(s: Ring) {
    && |s.workers| == |s.boxes| > 0
    && (forall i :: 0 <= i < |s.workers| ==> s.workers[i] == Worker(0, Act, None))
    && (forall i :: 0 <= i < |s.boxes| ==> s.boxes[i] == None)
    && s.waiting == {} && s.generation == 0 && s.stopped == None && !s.failed && s.made == {} && s.freed == {}
  }

  ghost predicate Run(ss: seq<Ring>, es: seq<Event>) {
    && |ss| == |es| + 1 && Initial(ss[0])
    && forall k {:trigger es[k]} :: 0 <= k < |es| ==> Enabled(ss[k], es[k]) && ss[k + 1] == After(ss[k], es[k])
  }

  // ---- In step ----

  /** The worker is in the current generation, or it was released and has not left the barrier yet. */
  ghost predicate InStep(s: Ring, w: Worker) {
    || w.crossings == s.generation
    || (w.crossings + 1 == s.generation && w.pc == Inside)
  }

  /** A worker checks the stop choice only between rounds, and leaves only in the round it was made. */
  ghost predicate StopOk(s: Ring, w: Worker) {
    && (w.pc == Check || w.pc == Left ==> w.crossings > 0 && Stage(w) == 0)
    && (w.pc == Left ==> s.stopped.Some?)
    && (s.stopped.Some? && w.crossings == 3 * s.stopped.value + 3 ==> w.pc == Check || w.pc == Left)
  }

  ghost predicate Aligned(s: Ring) {
    && |s.workers| == |s.boxes| > 0
    && (forall i :: 0 <= i < |s.workers| ==> InStep(s, s.workers[i]) && StopOk(s, s.workers[i]))
    && (forall i: nat :: i in s.waiting <==>
          i < |s.workers| && s.workers[i].crossings == s.generation && s.workers[i].pc == Inside)
    && |s.waiting| < |s.workers|
    && (s.stopped.Some? ==> s.generation == 3 * s.stopped.value + 2 || s.generation == 3 * s.stopped.value + 3)
  }

  lemma LastArrivalCompletes(s: Ring, i: nat)
    requires Aligned(s) && Enabled(s, Enter(i))
    ensures s.workers[i].crossings == s.generation && i !in s.waiting
    ensures |s.waiting + {i}| == |s.workers| ==> forall j: nat :: j < |s.workers| ==> j in s.waiting + {i}
  {
    hide StopOk;
    assert InStep(s, s.workers[i]);
    var n := |s.workers|;
    var waiting := s.waiting + {i};
    assert forall j: nat :: j in waiting ==> j < n;
    assert waiting <= Below(n);
    if |waiting| == n {
      SubsetOfSameSize(waiting, Below(n));
    }
  }

  lemma WaitingKeepsStep(s: Ring, i: nat, j: nat)
    requires Aligned(s) && Enabled(s, Enter(i)) && |s.waiting + {i}| != |s.workers| && j < |s.workers|
    ensures var s' := After(s, Enter(i)); InStep(s', s'.workers[j]) && StopOk(s', s'.workers[j])
  {
    hide Stage, Round;
    assert InStep(s, s.workers[j]) && StopOk(s, s.workers[j]);
  }

  lemma EnterWaits(s: Ring, i: nat)
    requires Aligned(s) && Enabled(s, Enter(i)) && |s.waiting + {i}| != |s.workers|
    ensures Aligned(After(s, Enter(i)))
  {
    hide Stage, Round;
    LastArrivalCompletes(s, i);
    assert |s.waiting + {i}| == |s.waiting| + 1;
    forall j | 0 <= j < |s.workers|
      ensures InStep(After(s, Enter(i)), After(s, Enter(i)).workers[j]) && StopOk(After(s, Enter(i)), After(s, Enter(i)).workers[j])
    {
      WaitingKeepsStep(s, i, j);
    }
    hide InStep, StopOk;
  }

  lemma EnterReleases(s: Ring, i: nat)
    requires Aligned(s) && Enabled(s, Enter(i)) && |s.waiting + {i}| == |s.workers|
    ensures Aligned(After(s, Enter(i)))
  {
    hide Stage, Round;
    LastArrivalCompletes(s, i);
    var s' := After(s, Enter(i));
    assert StopOk(s, s.workers[i]);
    forall j | 0 <= j < |s'.workers|
      ensures s'.workers[j].crossings == s.generation && InStep(s', s'.workers[j]) && StopOk(s', s'.workers[j])
    {
      assert StopOk(s, s.workers[j]) && j in s.waiting + {i};
    }
    hide InStep, StopOk;
  }

  lemma EnterKeepsAligned(s: Ring, i: nat)
    requires Aligned(s) && Enabled(s, Enter(i))
    ensures Aligned(After(s, Enter(i)))
  {
    hide Aligned, Enabled, After;
    if |s.waiting + {i}| == |s.workers| {
      EnterReleases(s, i);
    } else {
      EnterWaits(s, i);
    }
  }

  /** A step that changes one worker outside the barrier. */
  lemma OneWorkerKeepsAligned(s: Ring, s': Ring, i: nat)
    requires Aligned(s) && i < |s.workers| && |s'.workers| == |s.workers| && s'.workers == s.workers[i := s'.workers[i]]
    requires |s'.boxes| == |s.boxes|
    requires s'.waiting == s.waiting && s'.generation == s.generation && s'.stopped == s.stopped
    requires InStep(s, s'.workers[i]) && StopOk(s, s'.workers[i])
    requires i !in s.waiting && s'.workers[i].pc != Inside
    ensures Aligned(s')
  {
    hide Stage, Round;
    forall j | 0 <= j < |s'.workers|
      ensures InStep(s', s'.workers[j]) && StopOk(s', s'.workers[j])
    {
      assert InStep(s, s.workers[j]) && StopOk(s, s.workers[j]);
    }
    hide InStep, StopOk;
  }

  lemma DecideKeepsAligned(s: Ring, i: nat, late: bool)
    requires Aligned(s) && Enabled(s, Decide(i, late))
    ensures Aligned(After(s, Decide(i, late)))
  {
    var s' := After(s, Decide(i, late));
    var w := s.workers[i];
    assert InStep(s, w) && StopOk(s, w);
    assert w.crossings == s.generation == 3 * Round(w) + 2;
    hide Stage, Round;
    forall j | 0 <= j < |s'.workers|
      ensures InStep(s', s'.workers[j]) && StopOk(s', s'.workers[j])
    {
      assert InStep(s, s.workers[j]) && StopOk(s, s.workers[j]);
    }
    hide InStep, StopOk;
  }

  lemma LeavingIsNextStage(c: nat)
    ensures (c + 1) % 3 == 0 <==> c % 3 == 2
  {
  }

  lemma AlignedKept(s: Ring, e: Event)
    requires Aligned(s) && Enabled(s, e)
    ensures Aligned(After(s, e))
  {
    var i := e.i;
    var w := s.workers[i];
    assert InStep(s, w) && StopOk(s, w);
    LeavingIsNextStage(w.crossings);
    match e
    case Enter(_) =>
      hide Aligned, Enabled, After, InStep, StopOk;
      EnterKeepsAligned(s, i);
    case Decide(_, late) =>
      hide Aligned, Enabled, After, InStep, StopOk;
      DecideKeepsAligned(s, i, late);
    case _ =>
      var s' := After(s, e);
      assert i !in s.waiting;
      hide Aligned;
      OneWorkerKeepsAligned(s, s', i);
  }
}
