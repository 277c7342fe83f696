/**
 * The locked variant end to end, as CachedBytes for the cached one. A critical section that maps a slab
 * and takes its first block is two byte-level steps; every other one is a single step.
 */
module LockedBytes {
  import opened ByteMemory
  import opened ByteSteps
  import opened CheckedMath
  import opened SlotBytes
  import opened SlotPools
  import A = SlotAllocator
  import B = ByteCalls
  import H = HeapSpec
  import L = LockedAllocator

  datatype System = System(p: Pools, w: World)

  /** `mid` is the world between the mapping of a slab and the grant of its first block. */
  datatype Event = Slots(e: L.Event, n: Word, mid: World) | Beside(b: ByteSteps.Event)

  predicate Grows(ev: Event) {
    ev.Slots? && ev.e.GrowAndTake?
  }

  function FirstOf(slab: Slab): Slot {
    Slot(slab, if slab.slots > 0 then slab.slots - 1 else 0)
  }

  /** The last action of the client's view in a critical section. */
  ghost function ActionOf(p: Pools, e: L.Event): A.Action {
    match e
    case Reuse(c) => if Has(p, Shared, c, 1) then A.Allocate(p.at[Shared][c][0]) else A.Quiet
    case GrowAndTake(slab) => A.Allocate(FirstOf(slab))
    case GrowFails(_) => A.Quiet
    case Free(x) => A.Release(x)
    case Trim(released, _) => A.Shrink(released)
  }

  ghost function LastStep(cfg: Config, y: System, ev: Event): ByteSteps.Event {
    match ev
    case Slots(e, n, _) => ByteOf(cfg, ActionOf(y.p, e), n)
    case Beside(b) => b
  }

  /** The byte-level steps of an event and the worlds they lead to. */
  ghost function ByteEvents(cfg: Config, y: System, ev: Event): seq<ByteSteps.Event> {
    (if Grows(ev) then [MapSlab(ev.e.slab)] else []) + [LastStep(cfg, y, ev)]
  }

  ghost function WorldsAfter(ev: Event, w': World): seq<World> {
    (if Grows(ev) then [ev.mid] else []) + [w']
  }

  /** The world in which the last byte-level step starts. */
  ghost function Before(y: System, ev: Event): World {
    if Grows(ev) then ev.mid else y.w
  }

  ghost predicate Promised(cfg: Config, y: System, ev: Event) {
    match ev
    case Slots(e, n, _) =>
      && (e.Reuse? ==> AskedFor(n, e.c))
      && (e.GrowAndTake? ==> AskedFor(n, e.slab.cls) && MapGiven(cfg, y.w, e.slab))
    case Beside(b) => Apart(cfg, y.w, b)
  }

  ghost predicate Step(cfg: Config, per: seq<nat>, y: System, ev: Event, y': System) {
    && Promised(cfg, y, ev)
    && (Grows(ev) ==> Moves(cfg, y.w, MapSlab(ev.e.slab), ev.mid))
    && Moves(cfg, Before(y, ev), LastStep(cfg, y, ev), y'.w)
    && match ev
       case Slots(e, _, _) => L.Step(per, y.p, e, y'.p)
       case Beside(_) => y'.p == y.p
  }

  ghost predicate Initial(per: seq<nat>, y: System) {
    L.Layouts(per) && L.Init(y.p) && B.Initial(y.w)
  }

  ghost predicate Run(cfg: Config, per: seq<nat>, ys: seq<System>, es: seq<Event>) {
    && |ys| == |es| + 1 && Initial(per, ys[0])
    && forall k {:trigger es[k]} :: 0 <= k < |es| ==> Step(cfg, per, ys[k], es[k], ys[k + 1])
  }

  ghost predicate Coupled(cfg: Config, per: seq<nat>, y: System) {
    L.Inv(per, y.p) && Ok(cfg, y.w) && y.w.view == A.ViewOf(y.p)
  }

  lemma InitialIsCoupled(cfg: Config, per: seq<nat>, y: System)
    requires Initial(per, y)
    ensures Coupled(cfg, per, y) && HeapOf(y.w) == map[]
  {
    L.InitInv(per, y.p);
    B.InitialIsOk(cfg, y.w);
    hide L.Inv, Ok;
  }

  /** Mapping the slab first leads to a world in which its first slot is free to be granted. */
  lemma GrowthStep(cfg: Config, per: seq<nat>, y: System, ev: Event, y': System)
    requires Coupled(cfg, per, y) && Step(cfg, per, y, ev, y') && Grows(ev)
    ensures ByteSteps.Step(cfg, y.w, MapSlab(ev.e.slab), ev.mid) && Ok(cfg, ev.mid)
    ensures A.Permitted(ev.mid.view, ActionOf(y.p, ev.e)) && AskedFor(ev.n, ev.e.slab.cls)
    ensures A.ViewOf(y'.p) == A.Effect(ev.mid.view, ActionOf(y.p, ev.e))
  {
    hide Ok, L.Inv, After, Enabled, BytesFollow, MapGiven, AskedFor, L.Step;
    var slab := ev.e.slab;
    L.LockedRefinesSlotAllocator(per, y.p, ev.e, y'.p);
    SlabHasSlots(per, y.p, slab, y'.p);
    ActionIsEnabled(cfg, y.w, A.Grow(slab), ev.n);
    StepKeepsOk(cfg, y.w, MapSlab(slab), ev.mid);
  }

  lemma SlabHasSlots(per: seq<nat>, p: Pools, slab: Slab, p': Pools)
    requires L.Step(per, p, L.GrowAndTake(slab), p')
    ensures slab.slots > 0
  {
  }

  /** The last step of a critical section finds its action permitted. */
  lemma LastActionIsPermitted(cfg: Config, per: seq<nat>, y: System, ev: Event, y': System)
    requires Coupled(cfg, per, y) && Step(cfg, per, y, ev, y') && ev.Slots?
    ensures Ok(cfg, Before(y, ev)) && A.Permitted(Before(y, ev).view, ActionOf(y.p, ev.e))
    ensures A.ViewOf(y'.p) == A.Effect(Before(y, ev).view, ActionOf(y.p, ev.e))
    ensures ActionOf(y.p, ev.e).Allocate? ==> AskedFor(ev.n, ActionOf(y.p, ev.e).x.slab.cls)
    ensures !ActionOf(y.p, ev.e).Grow?
  {
    hide Ok, L.Inv, After, Enabled, BytesFollow, MapGiven, AskedFor, L.Step, A.ViewOf;
    if Grows(ev) {
      GrowthStep(cfg, per, y, ev, y');
    } else {
      L.LockedRefinesSlotAllocator(per, y.p, ev.e, y'.p);
    }
  }

  /**
   * In a coupled state every critical section of the locked variant is one or two steps of the
   * byte-level world, and the coupling holds after it.
   */
  lemma CoupledStep(cfg: Config, per: seq<nat>, y: System, ev: Event, y': System)
    requires Coupled(cfg, per, y) && Step(cfg, per, y, ev, y')
    ensures Grows(ev) ==> ByteSteps.Step(cfg, y.w, MapSlab(ev.e.slab), ev.mid)
    ensures ByteSteps.Step(cfg, Before(y, ev), LastStep(cfg, y, ev), y'.w)
    ensures Coupled(cfg, per, y')
  {
    hide Ok, L.Inv, L.Step, After, Enabled, BytesFollow, A.ViewOf, A.Permitted, SlotBytes.Apart, MapGiven, ActionOf, ByteOf;
    var b := LastStep(cfg, y, ev);
    if Grows(ev) {
      GrowthStep(cfg, per, y, ev, y');
    }
    match ev {
      case Slots(e, n, _) =>
        LastActionIsPermitted(cfg, per, y, ev, y');
        ActionIsEnabled(cfg, Before(y, ev), ActionOf(y.p, e), n);
        L.InvStep(per, y.p, e, y'.p);
      case Beside(_) =>
        EnabledApart(cfg, y.w, b);
        ApartKeepsView(cfg, y.w, b);
    }
    StepKeepsOk(cfg, Before(y, ev), b, y'.w);
  }

  // ---- Runs ----

  lemma {:induction false} CoupledAt(cfg: Config, per: seq<nat>, ys: seq<System>, es: seq<Event>, k: nat)
    requires Run(cfg, per, ys, es) && k <= |es|
    ensures Coupled(cfg, per, ys[k])
    decreases k
  {
    hide Coupled, Step, Initial;
    if k == 0 {
      InitialIsCoupled(cfg, per, ys[0]);
    } else {
      CoupledAt(cfg, per, ys, es, k - 1);
      assert Step(cfg, per, ys[k - 1], es[k - 1], ys[k]);
      CoupledStep(cfg, per, ys[k - 1], es[k - 1], ys[k]);
    }
  }

  /** The worlds of the first `k` events, those inside critical sections among them. */
  ghost function Worlds(ys: seq<System>, es: seq<Event>, k: nat): seq<World>
    requires |ys| == |es| + 1 && k <= |es|
  {
    if k == 0 then [ys[0].w] else Worlds(ys, es, k - 1) + WorldsAfter(es[k - 1], ys[k].w)
  }

  ghost function AllByteEvents(cfg: Config, ys: seq<System>, es: seq<Event>, k: nat): seq<ByteSteps.Event>
    requires |ys| == |es| + 1 && k <= |es|
  {
    if k == 0 then [] else AllByteEvents(cfg, ys, es, k - 1) + ByteEvents(cfg, ys[k - 1], es[k - 1])
  }

  lemma RunExtends(cfg: Config, ws: seq<World>, bs: seq<ByteSteps.Event>, b: ByteSteps.Event, w: World)
    requires B.Run(cfg, ws, bs) && ByteSteps.Step(cfg, ws[|bs|], b, w)
    ensures B.Run(cfg, ws + [w], bs + [b])
  {
    hide ByteSteps.Step;
  }

  /**
   * The worlds along a run of the locked variant, with those inside critical sections, are a run of the
   * byte-level world from nothing mapped that ends in the same world.
   */
  lemma {:induction false} LockedRunIsByteRun(cfg: Config, per: seq<nat>, ys: seq<System>, es: seq<Event>, k: nat)
    requires Run(cfg, per, ys, es) && k <= |es|
    ensures B.Run(cfg, Worlds(ys, es, k), AllByteEvents(cfg, ys, es, k))
    ensures B.Initial(Worlds(ys, es, k)[0])
    ensures Worlds(ys, es, k)[|AllByteEvents(cfg, ys, es, k)|] == ys[k].w
    decreases k
  {
    hide ByteSteps.Step, Step, Coupled, LastStep;
    if k > 0 {
      LockedRunIsByteRun(cfg, per, ys, es, k - 1);
      CoupledAt(cfg, per, ys, es, k - 1);
      var y, ev, w' := ys[k - 1], es[k - 1], ys[k].w;
      assert Step(cfg, per, y, ev, ys[k]);
      CoupledStep(cfg, per, y, ev, ys[k]);
      hide B.Run;
      var ws, bs := Worlds(ys, es, k - 1), AllByteEvents(cfg, ys, es, k - 1);
      if Grows(ev) {
        RunExtends(cfg, ws, bs, MapSlab(ev.e.slab), ev.mid);
        RunLengths(cfg, ws + [ev.mid], bs + [MapSlab(ev.e.slab)]);
        RunExtends(cfg, ws + [ev.mid], bs + [MapSlab(ev.e.slab)], LastStep(cfg, y, ev), w');
        assert ws + [ev.mid] + [w'] == ws + WorldsAfter(ev, w');
        assert bs + [MapSlab(ev.e.slab)] + [LastStep(cfg, y, ev)] == bs + ByteEvents(cfg, y, ev);
      } else {
        RunExtends(cfg, ws, bs, LastStep(cfg, y, ev), w');
        assert ws + [w'] == ws + WorldsAfter(ev, w') && bs + [LastStep(cfg, y, ev)] == bs + ByteEvents(cfg, y, ev);
      }
      RunLengths(cfg, Worlds(ys, es, k), AllByteEvents(cfg, ys, es, k));
    }
  }

  lemma RunLengths(cfg: Config, ws: seq<World>, bs: seq<ByteSteps.Event>)
    requires B.Run(cfg, ws, bs)
    ensures |ws| == |bs| + 1
  {
  }

  ghost function HeapAction(cfg: Config, y: System, ev: Event, y': System): H.Action {
    ByteSteps.ActionOf(cfg, LastStep(cfg, y, ev), y'.w)
  }

  /**
   * The locked variant refines the client's map from live pointers to bytes: along every run the map
   * starts empty, and each critical section is one permitted action with exactly its effect, namely the
   * one that answers the call.
   */
  lemma LockedRefinesHeap(cfg: Config, per: seq<nat>, ys: seq<System>, es: seq<Event>, k: nat)
    requires Run(cfg, per, ys, es) && k < |es|
    ensures HeapOf(ys[0].w) == map[]
    ensures var act := HeapAction(cfg, ys[k], es[k], ys[k + 1]);
            H.Permitted(HeapOf(ys[k].w), act) && HeapOf(ys[k + 1].w) == H.Effect(HeapOf(ys[k].w), act)
    ensures es[k].Slots? ==>
              Answers(cfg, ActionOf(ys[k].p, es[k].e), es[k].n, HeapAction(cfg, ys[k], es[k], ys[k + 1]))
  {
    hide ByteSteps.Step, Step, Coupled, ActionOf, ByteSteps.ActionOf, Initial, HeapOf, ByteOf, Answers;
    InitialIsCoupled(cfg, per, ys[0]);
    CoupledAt(cfg, per, ys, es, k);
    var y, ev, y' := ys[k], es[k], ys[k + 1];
    assert Step(cfg, per, y, ev, y');
    CoupledStep(cfg, per, y, ev, y');
    if Grows(ev) {
      MappingIsInvisible(cfg, y.w, ev.e.slab, ev.mid);
    }
    StepRefinesHeap(cfg, Before(y, ev), LastStep(cfg, y, ev), y'.w);
    if ev.Slots? {
      ActionIsAnswered(cfg, Before(y, ev), ActionOf(y.p, ev.e), ev.n, y'.w);
    }
  }

  lemma MappingIsInvisible(cfg: Config, w: World, slab: Slab, w': World)
    requires ByteSteps.Step(cfg, w, MapSlab(slab), w')
    ensures HeapOf(w') == HeapOf(w)
  {
    StepRefinesHeap(cfg, w, MapSlab(slab), w');
  }
}
