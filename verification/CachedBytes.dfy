/**
 * The cached variant end to end: the machine of threads together with the world of mappings, prefixes
 * and bytes. Every request carries its size; slabs have computed layouts and ranges the system gives;
 * large blocks, stores and retained resizes run beside the machine. Every run is a run of the byte-level
 * world, and so a history of the client's map from live pointers to bytes.
 */
module CachedBytes {
  import opened ByteMemory
  import opened ByteSteps
  import opened CheckedMath
  import opened SlotBytes
  import A = SlotAllocator
  import B = ByteCalls
  import H = HeapSpec
  import I = CachedInvariant
  import M = CachedAllocator
  import R = CachedResults

  /** `asked` keeps the size of each thread's request until its call ends. */
  datatype System = System(s: M.State, w: World, asked: map<nat, Word>)

  datatype Event = Slots(e: M.Event, n: Word) | Beside(b: ByteSteps.Event)

  ghost function Request(y: System, e: M.Event, n: Word): Word {
    if e.MallocHit? then n else if e.t in y.asked then y.asked[e.t] else 0
  }

  ghost function ByteEvent(cfg: Config, y: System, ev: Event): ByteSteps.Event {
    match ev
    case Slots(e, n) =>
      if e.t in y.s.threads then ByteOf(cfg, R.ActionOf(y.s, e), Request(y, e, n)) else Tidy
    case Beside(b) => b
  }

  /** Client and system keep their side: sizes belong to the class they are sent to, mappings are given. */
  ghost predicate Promised(cfg: Config, y: System, ev: Event) {
    match ev
    case Slots(e, n) =>
      && (e.MallocHit? || e.MallocMiss? ==> AskedFor(n, e.c))
      && (e.MapSlab? ==> MapGiven(cfg, y.w, e.slab))
    case Beside(b) => Apart(cfg, y.w, b)
  }

  ghost predicate Step(cfg: Config, y: System, ev: Event, y': System) {
    && Promised(cfg, y, ev)
    && Moves(cfg, y.w, ByteEvent(cfg, y, ev), y'.w)
    && match ev
       case Slots(e, n) =>
         M.Step(y.s, e, y'.s) && y'.asked == if e.MallocMiss? then y.asked[e.t := n] else y.asked
       case Beside(_) => y'.s == y.s && y'.asked == y.asked
  }

  ghost predicate Initial(y: System) {
    M.Init(y.s) && B.Initial(y.w) && y.asked == map[]
  }

  ghost predicate Run(cfg: Config, ys: seq<System>, es: seq<Event>) {
    && |ys| == |es| + 1 && Initial(ys[0])
    && forall k {:trigger es[k]} :: 0 <= k < |es| ==> Step(cfg, ys[k], es[k], ys[k + 1])
  }

  // ---- The coupling ----

  ghost predicate SizesKept(s: M.State, asked: map<nat, Word>) {
    forall t :: t in s.threads && I.InMalloc(s.threads[t].pc)
                ==> t in asked && AskedFor(asked[t], s.threads[t].pc.c)
  }

  /** Machine and world agree on slabs and live slots, and every request in progress fits its class. */
  ghost predicate Coupled(cfg: Config, y: System) {
    && I.Inv(y.s) && Ok(cfg, y.w) && y.w.view == A.ViewOf(y.s.pools) && SizesKept(y.s, y.asked)
  }

  lemma InitialIsCoupled(cfg: Config, y: System)
    requires Initial(y)
    ensures Coupled(cfg, y) && HeapOf(y.w) == map[]
  {
    I.InitInv(y.s);
    B.InitialIsOk(cfg, y.w);
    hide I.Inv, Ok;
  }

  lemma SizesStep(s: M.State, e: M.Event, n: Word, s': M.State, asked: map<nat, Word>)
    requires I.Inv(s) && M.Step(s, e, s') && SizesKept(s, asked) && (e.MallocMiss? ==> AskedFor(n, e.c))
    ensures SizesKept(s', if e.MallocMiss? then asked[e.t := n] else asked)
  {
    hide I.Inv, M.Step, I.ThreadOk, AskedFor, I.InMalloc;
    R.ActorExists(s, e, s');
    R.CallKeepsClass(s, e, s');
    R.OthersKeepPlace(s, e, s');
  }

  /** What a step hands out fits the size that was asked for. */
  lemma GrantFitsRequest(s: M.State, e: M.Event, n: Word, s': M.State, asked: map<nat, Word>)
    requires I.Inv(s) && M.Step(s, e, s') && e.t in s.threads && SizesKept(s, asked)
    requires e.MallocHit? ==> AskedFor(n, e.c)
    ensures R.ActionOf(s, e).Allocate? ==>
              var size := if e.MallocHit? then n else if e.t in asked then asked[e.t] else 0;
              AskedFor(size, R.ActionOf(s, e).x.slab.cls)
  {
    hide I.Inv, M.Step, AskedFor;
    R.CachedRefinesSlotAllocator(s, e, s');
    hide R.ActionOf;
    if e.Finish? {
      R.FinishIsInMalloc(s, e.t, s');
    }
  }

  /**
   * In a coupled state every step of the cached variant, with sizes and ranges as promised, is a step of
   * the byte-level world, and the coupling holds after it.
   */
  lemma CoupledStep(cfg: Config, y: System, ev: Event, y': System)
    requires Coupled(cfg, y) && Step(cfg, y, ev, y')
    ensures ByteSteps.Step(cfg, y.w, ByteEvent(cfg, y, ev), y'.w)
    ensures Coupled(cfg, y')
  {
    hide Ok, I.Inv, M.Step, After, Enabled, BytesFollow, A.ViewOf, SizesKept, R.ActionOf, A.Permitted, Apart, MapGiven;
    var b := ByteEvent(cfg, y, ev);
    assert Enabled(cfg, y.w, b) && After(cfg, y.w, b).view == A.ViewOf(y'.s.pools) by {
      match ev
      case Slots(e, n) => SlotStepIsEnabled(cfg, y, e, n, y'.s);
      case Beside(_) => BesideIsEnabled(cfg, y.w, b);
    }
    StepKeepsOk(cfg, y.w, b, y'.w);
    match ev
    case Slots(e, n) =>
      I.InvStep(y.s, e, y'.s);
      SizesStep(y.s, e, n, y'.s, y.asked);
    case Beside(_) =>
  }

  lemma BesideIsEnabled(cfg: Config, w: World, b: ByteSteps.Event)
    requires Apart(cfg, w, b)
    ensures Enabled(cfg, w, b) && After(cfg, w, b).view == w.view
  {
    hide Enabled, After;
    ApartKeepsView(cfg, w, b);
  }

  lemma SlotStepIsEnabled(cfg: Config, y: System, e: M.Event, n: Word, s': M.State)
    requires Coupled(cfg, y) && M.Step(y.s, e, s') && Promised(cfg, y, Slots(e, n))
    ensures Enabled(cfg, y.w, ByteEvent(cfg, y, Slots(e, n)))
    ensures After(cfg, y.w, ByteEvent(cfg, y, Slots(e, n))).view == A.ViewOf(s'.pools)
  {
    hide Ok, I.Inv, M.Step, After, Enabled, A.ViewOf, SizesKept, MapGiven, A.Permitted, AskedFor, ByteOf;
    R.ActorExists(y.s, e, s');
    R.CachedRefinesSlotAllocator(y.s, e, s');
    GrantFitsRequest(y.s, e, n, s', y.asked);
    GrowIsMapSlab(y.s, e);
    hide R.ActionOf;
    ActionIsEnabled(cfg, y.w, R.ActionOf(y.s, e), Request(y, e, n));
  }

  lemma GrowIsMapSlab(s: M.State, e: M.Event)
    requires e.t in s.threads
    ensures R.ActionOf(s, e).Grow? ==> e.MapSlab? && R.ActionOf(s, e).slab == e.slab
  {
  }

  // ---- Runs ----

  function Worlds(ys: seq<System>): (ws: seq<World>)
    ensures |ws| == |ys|
  {
    seq(|ys|, k requires 0 <= k < |ys| => ys[k].w)
  }

  ghost function ByteEvents(cfg: Config, ys: seq<System>, es: seq<Event>): (bs: seq<ByteSteps.Event>)
    requires |ys| == |es| + 1
    ensures |bs| == |es|
  {
    seq(|es|, k requires 0 <= k < |es| => ByteEvent(cfg, ys[k], es[k]))
  }

  lemma {:induction false} CoupledAt(cfg: Config, ys: seq<System>, es: seq<Event>, k: nat)
    requires Run(cfg, ys, es) && k <= |es|
    ensures Coupled(cfg, ys[k])
    ensures k < |es| ==> ByteSteps.Step(cfg, ys[k].w, ByteEvent(cfg, ys[k], es[k]), ys[k + 1].w)
    decreases k
  {
    hide Coupled, Step, Initial, ByteSteps.Step, ByteEvent;
    if k == 0 {
      InitialIsCoupled(cfg, ys[0]);
    } else {
      CoupledAt(cfg, ys, es, k - 1);
      assert Step(cfg, ys[k - 1], es[k - 1], ys[k]);
      CoupledStep(cfg, ys[k - 1], es[k - 1], ys[k]);
    }
    if k < |es| {
      assert Step(cfg, ys[k], es[k], ys[k + 1]);
      CoupledStep(cfg, ys[k], es[k], ys[k + 1]);
    }
  }

  /** The worlds along a run of the cached variant are a run of the byte-level world from nothing mapped. */
  lemma CachedRunIsByteRun(cfg: Config, ys: seq<System>, es: seq<Event>)
    requires Run(cfg, ys, es)
    ensures B.Run(cfg, Worlds(ys), ByteEvents(cfg, ys, es)) && B.Initial(Worlds(ys)[0])
  {
    hide ByteSteps.Step, Step, ByteEvent;
    var ws, bs := Worlds(ys), ByteEvents(cfg, ys, es);
    forall k {:trigger bs[k]} | 0 <= k < |bs|
      ensures ByteSteps.Step(cfg, ws[k], bs[k], ws[k + 1])
    {
      CoupledAt(cfg, ys, es, k);
    }
  }

  /** The client-level action of a step. */
  ghost function HeapAction(cfg: Config, y: System, ev: Event, y': System): H.Action {
    ActionOf(cfg, ByteEvent(cfg, y, ev), y'.w)
  }

  /**
   * The cached variant refines the client's map from live pointers to bytes: along every run the map
   * starts empty and each step is one permitted action with exactly its effect, namely the one that
   * answers the call.
   */
  lemma CachedRefinesHeap(cfg: Config, ys: seq<System>, es: seq<Event>, k: nat)
    requires Run(cfg, ys, es) && k < |es|
    ensures HeapOf(ys[0].w) == map[]
    ensures var act := HeapAction(cfg, ys[k], es[k], ys[k + 1]);
            H.Permitted(HeapOf(ys[k].w), act) && HeapOf(ys[k + 1].w) == H.Effect(HeapOf(ys[k].w), act)
    ensures es[k].Slots? && es[k].e.t in ys[k].s.threads ==>
              Answers(cfg, R.ActionOf(ys[k].s, es[k].e), Request(ys[k], es[k].e, es[k].n),
                      HeapAction(cfg, ys[k], es[k], ys[k + 1]))
  {
    hide ByteSteps.Step, Step, Coupled, ActionOf, Initial, HeapOf, ByteOf, Answers, R.ActionOf, Request;
    InitialIsCoupled(cfg, ys[0]);
    CoupledAt(cfg, ys, es, k);
    var y, ev, w' := ys[k], es[k], ys[k + 1].w;
    StepRefinesHeap(cfg, y.w, ByteEvent(cfg, y, ev), w');
    if ev.Slots? && ev.e.t in y.s.threads {
      ActionIsAnswered(cfg, y.w, R.ActionOf(y.s, ev.e), Request(y, ev.e, ev.n), w');
    }
  }
}
