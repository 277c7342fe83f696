/**
 * What whole calls of the cached variant do, from their first step to the moment the thread is idle
 * again, whatever other threads do meanwhile.
 */
module CachedCalls {
  import opened SizeClasses
  import opened SlotPools
  import opened CachedAllocator
  import opened CachedInvariant
  import opened CachedResults
  import C = CacheSpec
  import S = CachedSpace

  /** The call that thread `t` starts with event `i` ends in state `j`. */
  ghost predicate Call(states: seq<State>, events: seq<Event>, i: nat, j: nat, t: Tid) {
    && Run(states, events) && i < j <= |events| && events[i].t == t
    && (forall k :: i < k < j ==> Busy(states[k], t))
    && t in states[j].threads && states[j].threads[t].pc == Idle
  }

  ghost predicate Busy(s: State, t: Tid) {
    t in s.threads && s.threads[t].pc != Idle
  }

  function CacheOf(s: State, t: Tid): seq<seq<Slot>> {
    if Cache(t) in s.pools.at then s.pools.at[Cache(t)] else []
  }

  /** Neither the thread's cache nor its hand holds a block of any class. */
  ghost predicate HoldsNothing(s: State, t: Tid) {
    && Cache(t) in s.pools.at && s.pools.at[Cache(t)] == seq(CLASS_COUNT, _ => [])
    && Hand(t) in s.pools.at && s.pools.at[Hand(t)] == seq(CLASS_COUNT, _ => [])
  }

  lemma OtherStep(s: State, e: Event, s': State, t: Tid)
    requires Inv(s) && Step(s, e, s') && t in s.threads && e.t != t
    ensures t in s'.threads && s'.threads[t] == s.threads[t] && CacheOf(s', t) == CacheOf(s, t)
    ensures Hand(t) in s.pools.at && Hand(t) in s'.pools.at && s'.pools.at[Hand(t)] == s.pools.at[Hand(t)]
  {
    hide Step, PcOk, HandOk, CacheOk, Sound, Descriptors;
    ActorExists(s, e, s');
    assert ThreadOk(s, t) && ThreadOk(s, e.t);
    hide ThreadOk;
    StepUndisturbed(s, e, s');
  }

  lemma {:induction false} ThreadStays(states: seq<State>, events: seq<Event>, i: nat, j: nat, t: Tid)
    requires Run(states, events) && i <= j <= |events| && t in states[i].threads
    ensures t in states[j].threads
  {
    LifecycleMovesForward(states, events, i, j, t);
  }

  // ---- Every step belongs to the call in progress ----

  predicate Freeing(pc: Pc) {
    pc.Evict? || pc.EvictPublish? || pc.FreePublish?
  }

  predicate Trimming(pc: Pc) {
    pc.TrimDetach? || pc.TrimPublish?
  }

  /** The step is of the kind of call the thread is in. */
  predicate InStepWith(pc: Pc, e: Event) {
    && (InMalloc(pc) ==> OfMalloc(e) && !e.MallocHit? && !e.MallocMiss?)
    && (Freeing(pc) ==> OfFree(e) && !e.FreeCached? && !e.FreeUncached?)
    && (Flushing(pc) ==> OfFlush(e) && !e.StartFlush? && !e.Exit?)
    && (Trimming(pc) ==> e.TrimTake? || e.TrimSweep? || e.TrimPut? || e.EndTrim?)
  }

  lemma MallocInStep(s: State, e: Event, s': State)
    requires e.t in s.threads && OfMalloc(e) && MallocStep(s, e, s')
    ensures InStepWith(s.threads[e.t].pc, e)
  {
    hide Has, Move, Grant, AddSlab, Delivered, Obtaining, C.Obtain, Fresh;
  }

  lemma FreeInStep(s: State, e: Event, s': State)
    requires e.t in s.threads && OfFree(e) && FreeStep(s, e, s')
    ensures InStepWith(s.threads[e.t].pc, e)
  {
    hide Has, Move, Reclaim, C.Eviction;
  }

  lemma FlushInStep(s: State, e: Event, s': State)
    requires e.t in s.threads && OfFlush(e) && FlushStep(s, e, s')
    ensures InStepWith(s.threads[e.t].pc, e)
  {
    hide Has, Move;
  }

  lemma TrimInStep(s: State, e: Event, s': State)
    requires e.t in s.threads && !e.Acquire? && !OfMalloc(e) && !OfFree(e) && !OfFlush(e) && TrimStep(s, e, s')
    ensures InStepWith(s.threads[e.t].pc, e)
  {
    hide Has, Move, Sweep, Wholly;
  }

  lemma StepIsOfCall(s: State, e: Event, s': State)
    requires Step(s, e, s')
    ensures e.t in s.threads && InStepWith(s.threads[e.t].pc, e)
  {
    hide MallocStep, FreeStep, FlushStep, TrimStep;
    if e.Acquire? {
    } else if OfMalloc(e) {
      MallocInStep(s, e, s');
    } else if OfFree(e) {
      FreeInStep(s, e, s');
    } else if OfFlush(e) {
      FlushInStep(s, e, s');
    } else {
      TrimInStep(s, e, s');
    }
  }

  // ---- Flush ----

  predicate Flushing(pc: Pc) {
    pc.Flush? || pc.FlushPublish?
  }

  /** A flush goes on until it has visited every class. */
  lemma FlushGoesOn(s: State, e: Event, s': State)
    requires Step(s, e, s') && e.t in s.threads && Flushing(s.threads[e.t].pc)
    ensures e.t in s'.threads
    ensures Flushing(s'.threads[e.t].pc)
            || (s.threads[e.t].pc.Flush? && s.threads[e.t].pc.i == CLASS_COUNT
                && s'.threads[e.t].pc == Idle && s'.pools == s.pools)
  {
    hide Has, Move, MallocStep, FreeStep, TrimStep;
    StepIsOfCall(s, e, s');
  }

  lemma FlushStarts(s: State, e: Event, s': State)
    requires Step(s, e, s') && (e.StartFlush? || e.Exit?)
    ensures e.t in s'.threads && Flushing(s'.threads[e.t].pc)
  {
  }

  lemma FlushEndsEmpty(s: State, t: Tid)
    requires ThreadOk(s, t) && s.threads[t].pc.Flush? && s.threads[t].pc.i == CLASS_COUNT
    ensures HoldsNothing(s, t)
  {
    hide C.WithinCaps, C.JustStored, PcOk;
    assert s.pools.at[Cache(t)] == seq(CLASS_COUNT, _ => []);
    assert s.pools.at[Hand(t)] == seq(CLASS_COUNT, _ => []);
  }

  lemma HoldsNothingStays(s: State, s': State, t: Tid)
    requires HoldsNothing(s, t) && s'.pools == s.pools
    ensures HoldsNothing(s', t)
  {
  }

  /** In the middle of a flush, or idle with nothing left. */
  ghost predicate FlushingOrDone(s: State, t: Tid) {
    t in s.threads && (Flushing(s.threads[t].pc) || (s.threads[t].pc == Idle && HoldsNothing(s, t)))
  }

  lemma FlushLeadsOn(s: State, e: Event, s': State)
    requires Inv(s) && Step(s, e, s') && e.t in s.threads && Flushing(s.threads[e.t].pc)
    ensures FlushingOrDone(s', e.t)
  {
    hide Step, Flushing, HoldsNothing, ThreadOk;
    FlushGoesOn(s, e, s');
    if !Flushing(s'.threads[e.t].pc) {
      assert ThreadOk(s, e.t);
      FlushEndsEmpty(s, e.t);
      HoldsNothingStays(s, s', e.t);
    }
  }

  lemma {:induction false} FlushingAt(states: seq<State>, events: seq<Event>, i: nat, k: nat, t: Tid)
    requires Run(states, events) && i < k <= |events| && events[i].t == t && (events[i].StartFlush? || events[i].Exit?)
    requires forall n :: i < n < k ==> Busy(states[n], t)
    ensures FlushingOrDone(states[k], t)
    decreases k
  {
    hide Step, Init, Inv, Flushing, HoldsNothing;
    if k == i + 1 {
      FlushStarts(states[i], events[i], states[k]);
    } else {
      var s, e := states[k - 1], events[k - 1];
      FlushingAt(states, events, i, k - 1, t);
      assert Busy(s, t);
      InvAt(states, events, k - 1);
      if e.t != t {
        OtherStep(s, e, states[k], t);
      } else {
        FlushLeadsOn(s, e, states[k]);
      }
    }
  }

  /** `hplf_thread_flush`, and the flush of an exiting thread, leave neither cache nor hand with a block. */
  lemma FlushGivesUpEverything(states: seq<State>, events: seq<Event>, i: nat, j: nat, t: Tid)
    requires Call(states, events, i, j, t) && (events[i].StartFlush? || events[i].Exit?)
    ensures HoldsNothing(states[j], t)
  {
    hide Step, Init, Run, HoldsNothing;
    FlushingAt(states, events, i, j, t);
  }

  // ---- Trim after flushes ----

  /** Thread `u` flushed before state `i` and has done nothing since. */
  ghost predicate FlushedBefore(states: seq<State>, events: seq<Event>, u: Tid, i: nat) {
    exists k, m :: FlushedAt(states, events, u, k, m, i)
  }

  ghost predicate FlushedAt(states: seq<State>, events: seq<Event>, u: Tid, k: nat, m: nat, i: nat) {
    && m <= i <= |events| && Call(states, events, k, m, u) && events[k].StartFlush?
    && forall n {:trigger events[n]} :: m <= n < i ==> events[n].t != u
  }

  lemma HoldsNothingLasts(s: State, e: Event, s': State, t: Tid)
    requires Inv(s) && Step(s, e, s') && t in s.threads && e.t != t && HoldsNothing(s, t)
    ensures HoldsNothing(s', t)
  {
    hide Step, PcOk, HandOk, CacheOk, Sound, Descriptors;
    ActorExists(s, e, s');
    assert ThreadOk(s, e.t);
    hide ThreadOk;
    StepUndisturbed(s, e, s');
  }

  lemma {:induction false} FlushedStays(states: seq<State>, events: seq<Event>, u: Tid, k: nat, m: nat, i: nat)
    requires FlushedAt(states, events, u, k, m, i)
    ensures u in states[i].threads && HoldsNothing(states[i], u)
    decreases i
  {
    hide Step, Init, Inv, HoldsNothing;
    if i == m {
      FlushGivesUpEverything(states, events, k, m, u);
    } else {
      assert FlushedAt(states, events, u, k, m, i - 1);
      FlushedStays(states, events, u, k, m, i - 1);
      InvAt(states, events, i - 1);
      ThreadStays(states, events, i - 1, i, u);
      HoldsNothingLasts(states[i - 1], events[i - 1], states[i], u);
    }
  }

  /** A thread that has no cache caches nothing. */
  lemma NoCacheHoldsNothing(s: State, t: Tid)
    requires ThreadOk(s, t) && s.threads[t].pc == Idle && !s.threads[t].life.Active?
    ensures HoldsNothing(s, t)
  {
    hide C.WithinCaps, C.JustStored, PcOk;
    assert s.pools.at[Cache(t)] == seq(CLASS_COUNT, _ => []);
    assert s.pools.at[Hand(t)] == seq(CLASS_COUNT, _ => []);
  }

  /** No call is in progress, and every thread with a cache has flushed it and done nothing since. */
  ghost predicate AllFlushed(states: seq<State>, events: seq<Event>, i: nat) {
    && i < |states| && AllIdle(states[i])
    && forall u :: u in states[i].threads && states[i].threads[u].life.Active? ==> FlushedBefore(states, events, u, i)
  }

  lemma FlushedHoldsNothing(states: seq<State>, events: seq<Event>, i: nat, u: Tid)
    requires Run(states, events) && i <= |events| && AllFlushed(states, events, i) && u in states[i].threads
    ensures HoldsNothing(states[i], u)
  {
    hide Step, Init, HoldsNothing, FlushedAt, ThreadOk, Sound, Descriptors;
    InvAt(states, events, i);
    assert ThreadOk(states[i], u);
    if states[i].threads[u].life.Active? {
      var k, m :| FlushedAt(states, events, u, k, m, i);
      FlushedStays(states, events, u, k, m, i);
    } else {
      NoCacheHoldsNothing(states[i], u);
    }
  }

  lemma QuietStart(s: State, t: Tid, s': State)
    requires Step(s, StartTrim(t), s') && AllIdle(s) && Shared in s.pools.at
    requires forall u :: u in s.threads ==> HoldsNothing(s, u)
    ensures QuietTrim(s', t)
  {
  }

  /**
   * When every call has ended and every thread with a cache has flushed it, a trim unmaps every slab that
   * has no live slot, except those whose unmap fails.
   */
  lemma FlushesMakeTrimComplete(states: seq<State>, events: seq<Event>, i: nat, j: nat, t: Tid, slab: Slab)
    requires Run(states, events) && i < j < |events| && AllFlushed(states, events, i)
    requires events[i] == StartTrim(t) && events[j].TrimSweep?
    requires forall k :: i < k <= j ==> events[k].t == t
    requires forall k :: i < k < j ==> !events[k].TrimSweep?
    requires slab in states[j].pools.registry && forall x :: x in states[j].pools.live ==> x.slab != slab
    ensures slab !in states[j + 1].pools.registry <==> slab !in events[j].failed
  {
    hide Step, Init, HoldsNothing, QuietTrim, ThreadOk, Sound, Descriptors;
    InvAt(states, events, i);
    forall u | u in states[i].threads
      ensures HoldsNothing(states[i], u)
    {
      hide AllFlushed;
      FlushedHoldsNothing(states, events, i, u);
    }
    QuietStart(states[i], t, states[i + 1]);
    QuiescentTrimIsComplete(states, events, i, j, t, slab);
  }

  // ---- Trim ----

  /** Where a trim stands: before its sweep, or after it. */
  ghost predicate TrimmingOrDone(states: seq<State>, events: seq<Event>, i: nat, k: nat, t: Tid) {
    && k < |states| && k <= |events| && t in states[k].threads
    && (states[k].threads[t].pc.TrimDetach? || exists m :: SweepsAt(events, i, k, m, t))
  }

  ghost predicate SweepsAt(events: seq<Event>, i: nat, k: nat, m: nat, t: Tid) {
    i < m < k <= |events| && events[m].TrimSweep? && events[m].t == t
  }

  lemma TrimStarts(s: State, e: Event, s': State)
    requires Step(s, e, s') && e.StartTrim?
    ensures e.t in s'.threads && s'.threads[e.t].pc.TrimDetach?
  {
  }

  lemma TrimGoesOn(s: State, e: Event, s': State)
    requires Step(s, e, s') && e.t in s.threads && s.threads[e.t].pc.TrimDetach?
    ensures e.TrimSweep? || (e.t in s'.threads && s'.threads[e.t].pc.TrimDetach?)
  {
    hide Has, Move, Sweep, Wholly, MallocStep, FreeStep, FlushStep;
    StepIsOfCall(s, e, s');
  }

  lemma {:induction false} TrimmingAt(states: seq<State>, events: seq<Event>, i: nat, k: nat, t: Tid)
    requires Run(states, events) && i < k <= |events| && events[i] == StartTrim(t)
    ensures TrimmingOrDone(states, events, i, k, t)
    decreases k
  {
    hide Step, Init, Inv;
    if k == i + 1 {
      TrimStarts(states[i], events[i], states[k]);
    } else {
      var s, e := states[k - 1], events[k - 1];
      TrimmingAt(states, events, i, k - 1, t);
      ThreadStays(states, events, k - 1, k, t);
      InvAt(states, events, k - 1);
      if s.threads[t].pc.TrimDetach? {
        if e.t != t {
          OtherStep(s, e, states[k], t);
        } else {
          TrimGoesOn(s, e, states[k]);
          assert e.TrimSweep? ==> SweepsAt(events, i, k, k - 1, t);
        }
      } else {
        var m :| SweepsAt(events, i, k - 1, m, t);
        assert SweepsAt(events, i, k, m, t);
      }
    }
  }

  /** A trim call does sweep the registry before it ends, and keeps nothing of what it detached. */
  lemma TrimCallSweeps(states: seq<State>, events: seq<Event>, i: nat, j: nat, t: Tid)
    requires Call(states, events, i, j, t) && events[i].StartTrim?
    ensures exists m :: SweepsAt(events, i, j, m, t)
    ensures Hand(t) in states[j].pools.at && states[j].pools.at[Hand(t)] == seq(CLASS_COUNT, _ => [])
  {
    hide Step, Init, Sound, Descriptors, PcOk, CacheOk;
    TrimmingAt(states, events, i, j, t);
    InvAt(states, events, j);
    assert ThreadOk(states[j], t);
    assert states[j].pools.at[Hand(t)] == seq(CLASS_COUNT, _ => []);
  }

  // ---- Free ----

  /** In the eviction loop of a free that stored into class `c`, or idle after it. */
  ghost predicate FreeingOrDone(s: State, t: Tid, stored: seq<seq<Slot>>, c: nat)
    requires c < |stored|
  {
    && t in s.threads && |CacheOf(s, t)| == |stored|
    && C.AfterEvictions(CacheOf(s, t), c) == C.AfterEvictions(stored, c)
    && match s.threads[t].pc
       case Evict(d) => d == c
       case EvictPublish(d, _) => d == c
       case Idle => CacheOf(s, t) == C.AfterEvictions(stored, c)
       case _ => false
  }

  lemma FreeStarts(s: State, t: Tid, x: Slot, s': State)
    requires Step(s, FreeCached(t, x), s') && |CacheOf(s, t)| == CLASS_COUNT
    ensures x.slab.cls < CLASS_COUNT
    ensures FreeingOrDone(s', t, CacheOf(s, t)[x.slab.cls := [x] + CacheOf(s, t)[x.slab.cls]], x.slab.cls)
  {
    hide C.AfterEvictions;
  }

  lemma FreeGoesOn(s: State, e: Event, s': State, stored: seq<seq<Slot>>, c: nat)
    requires Step(s, e, s') && e.t in s.threads && s.threads[e.t].pc != Idle
    requires c < |stored| && FreeingOrDone(s, e.t, stored, c)
    ensures FreeingOrDone(s', e.t, stored, c)
  {
    hide C.AfterEvictions;
    LoopEvents(s, e, s');
    var lists := CacheOf(s, e.t);
    match e
    case ExtractEviction(_) =>
      var (i, k) := C.Eviction(lists, c).value;
      C.LoopTurns(lists, lists, c, i, k);
      hide C.Eviction;
    case EndFree(_) =>
      C.NoEvictionMeansWithinCaps(lists, c);
      C.LoopStops(lists, lists, c);
    case _ =>
      hide C.Eviction;
  }

  lemma LoopEvents(s: State, e: Event, s': State)
    requires Step(s, e, s') && e.t in s.threads && (s.threads[e.t].pc.Evict? || s.threads[e.t].pc.EvictPublish?)
    ensures e.ExtractEviction? || e.EndFree? || e.PublishEviction?
    ensures FreeStep(s, e, s')
  {
    hide Has, Move, Reclaim, C.Eviction, MallocStep, FlushStep, TrimStep;
    StepIsOfCall(s, e, s');
  }

  lemma {:induction false} FreeingAt(states: seq<State>, events: seq<Event>, i: nat, k: nat, t: Tid, x: Slot)
    requires Run(states, events) && i < k <= |events| && events[i] == FreeCached(t, x)
    requires forall n :: i < n < k ==> Busy(states[n], t)
    ensures |CacheOf(states[i], t)| == CLASS_COUNT && x.slab.cls < CLASS_COUNT && C.WithinCaps(CacheOf(states[i], t))
    ensures var lists, c := CacheOf(states[i], t), x.slab.cls;
            FreeingOrDone(states[k], t, lists[c := [x] + lists[c]], c)
    decreases k
  {
    hide Step, Init, Inv, FreeingOrDone;
    CacheBeforeFree(states, events, i, t, x);
    if k == i + 1 {
      FreeStarts(states[i], t, x, states[k]);
    } else {
      var s, e, lists, c := states[k - 1], events[k - 1], CacheOf(states[i], t), x.slab.cls;
      FreeingAt(states, events, i, k - 1, t, x);
      assert Busy(s, t);
      InvAt(states, events, k - 1);
      if e.t != t {
        OtherStep(s, e, states[k], t);
        FreeingStays(s, states[k], t, lists[c := [x] + lists[c]], c);
      } else {
        FreeGoesOn(s, e, states[k], lists[c := [x] + lists[c]], c);
      }
    }
  }

  lemma FreeingStays(s: State, s': State, t: Tid, stored: seq<seq<Slot>>, c: nat)
    requires c < |stored| && FreeingOrDone(s, t, stored, c)
    requires t in s'.threads && s'.threads[t] == s.threads[t] && CacheOf(s', t) == CacheOf(s, t)
    ensures FreeingOrDone(s', t, stored, c)
  {
  }

  lemma CacheBeforeFree(states: seq<State>, events: seq<Event>, i: nat, t: Tid, x: Slot)
    requires Run(states, events) && i < |events| && events[i] == FreeCached(t, x)
    ensures |CacheOf(states[i], t)| == CLASS_COUNT && x.slab.cls < CLASS_COUNT && C.WithinCaps(CacheOf(states[i], t))
  {
    hide Init, C.WithinCaps, C.JustStored, Sound, Descriptors, HandOk;
    InvAt(states, events, i);
    assert Step(states[i], events[i], states[i + 1]) && ThreadOk(states[i], t);
  }

  /**
   * The whole effect of a cached small free on the thread's own cache, whatever others do meanwhile: the
   * block is kept when both caps allow it, passed on when its class is full, and otherwise passed on with
   * its whole class.
   */
  lemma FreeCallEffect(states: seq<State>, events: seq<Event>, i: nat, j: nat, t: Tid, x: Slot)
    requires Call(states, events, i, j, t) && events[i] == FreeCached(t, x)
    ensures i < |states| && |CacheOf(states[i], t)| == CLASS_COUNT && x.slab.cls < CLASS_COUNT
    ensures C.FreeKeeps(CacheOf(states[i], t), x.slab.cls, x, CacheOf(states[j], t))
  {
    hide Step, Init, C.AfterEvictions, C.WithinCaps, C.FreeKeeps;
    FreeingAt(states, events, i, j, t, x);
    var lists := CacheOf(states[i], t);
    C.FreeEffect(lists, lists, x.slab.cls, x);
  }

  // ---- Slow allocation ----

  /** At the recheck under the mutex, thread `t` found the shared list of its class empty. */
  ghost predicate FoundNothing(states: seq<State>, events: seq<Event>, i: nat, k: nat, m: nat, t: Tid, c: nat) {
    i < m < k && m < |states| && m < |events| && events[m].t == t && S.FindsNothing(states[m], events[m], c)
  }

  ghost predicate AllocatingAt(states: seq<State>, events: seq<Event>, i: nat, k: nat, t: Tid, c: nat) {
    && k < |states| && t in states[k].threads
    && InMalloc(states[k].threads[t].pc) && states[k].threads[t].pc.c == c
    && (states[k].threads[t].pc == NeedSlab(c) ==> exists m :: FoundNothing(states, events, i, k, m, t, c))
  }

  lemma MallocEvents(s: State, e: Event, s': State)
    requires Step(s, e, s') && e.t in s.threads && InMalloc(s.threads[e.t].pc)
    ensures OfMalloc(e) && !e.MallocMiss? && MallocStep(s, e, s')
  {
    hide MallocStep, FreeStep, FlushStep, TrimStep;
    StepIsOfCall(s, e, s');
  }

  lemma MallocGoesOn(s: State, e: Event, s': State)
    requires Inv(s) && Step(s, e, s') && e.t in s.threads && InMalloc(s.threads[e.t].pc)
    ensures e.t in s'.threads && !e.MallocMiss?
    ensures InMalloc(s'.threads[e.t].pc) || e.Finish? || (e.MapSlabFails? && s.threads[e.t].pc.NeedSlab?)
  {
    hide Inv, Has, Move, Grant, Reclaim, AddSlab, Delivered, Obtaining, C.Obtain, C.Eviction, Sweep, Wholly, Fresh;
    if e.Defensive? {
      DefensiveBranchIsDead(s, e.t, s');
      assert false;
    }
    MallocEvents(s, e, s');
    hide Step;
  }

  lemma {:induction false} MallocAt(states: seq<State>, events: seq<Event>, i: nat, k: nat, t: Tid, c: nat)
    requires Run(states, events) && i < k <= |events| && events[i] == MallocMiss(t, c)
    requires forall n :: i < n <= k ==> Busy(states[n], t)
    ensures AllocatingAt(states, events, i, k, t, c)
    decreases k
  {
    hide Step, Init, Inv;
    if k == i + 1 {
      MallocStarts(states[i], t, c, states[k]);
    } else {
      var s, e := states[k - 1], events[k - 1];
      MallocAt(states, events, i, k - 1, t, c);
      InvAt(states, events, k - 1);
      if e.t != t {
        OtherStep(s, e, states[k], t);
        if s.threads[t].pc == NeedSlab(c) {
          var m :| FoundNothing(states, events, i, k - 1, m, t, c);
          assert FoundNothing(states, events, i, k, m, t, c);
        }
      } else {
        MallocGoesOn(s, e, states[k]);
        CallKeepsClass(s, e, states[k]);
        S.PcStep(s, e, states[k], c);
        hide S.FindsNothing;
        if states[k].threads[t].pc == NeedSlab(c) {
          assert FoundNothing(states, events, i, k, k - 1, t, c);
        }
        if e.Finish? || e.MapSlabFails? {
          FinishIsIdle(s, e, states[k]);
          assert false;
        }
      }
    }
  }

  lemma MallocStarts(s: State, t: Tid, c: nat, s': State)
    requires Step(s, MallocMiss(t, c), s')
    ensures t in s'.threads && s'.threads[t].pc == Miss(c)
  {
  }

  lemma FinishIsIdle(s: State, e: Event, s': State)
    requires Step(s, e, s') && (e.Finish? || e.MapSlabFails?)
    ensures e.t in s'.threads && s'.threads[e.t].pc == Idle
  {
    hide Delivered, Obtaining, C.Obtain;
  }

  /** The step hands out a block of class `c`. */
  ghost predicate Delivers(s: State, e: Event, c: nat) {
    e.t in s.threads && ActionOf(s, e).Allocate? && ActionOf(s, e).x.slab.cls == c
  }

  /**
   * A slow small allocation ends by handing out a block of the class asked for, or by a slab that cannot
   * be mapped; and that only after it has found the shared list empty under the mutex.
   */
  lemma MallocCallOutcome(states: seq<State>, events: seq<Event>, i: nat, j: nat, t: Tid, c: nat)
    requires Call(states, events, i, j, t) && events[i] == MallocMiss(t, c)
    ensures i < j - 1 && events[j - 1].t == t
    ensures Delivers(states[j - 1], events[j - 1], c)
            || (events[j - 1].MapSlabFails? && exists m :: FoundNothing(states, events, i, j, m, t, c))
  {
    hide Step, Init, Inv;
    MallocStarts(states[i], t, c, states[i + 1]);
    var s, e := states[j - 1], events[j - 1];
    MallocAt(states, events, i, j - 1, t, c);
    InvAt(states, events, j - 1);
    if e.t != t {
      OtherStep(s, e, states[j], t);
      assert false;
    }
    MallocGoesOn(s, e, states[j]);
    if e.Finish? {
      CachedRefinesSlotAllocator(s, e, states[j]);
      FinishIsInMalloc(s, t, states[j]);
      S.FinishAllocates(s, t, states[j]);
    } else {
      hide ActionOf, S.FindsNothing;
      var m :| FoundNothing(states, events, i, j - 1, m, t, c);
      assert FoundNothing(states, events, i, j, m, t, c);
    }
  }

  /** What is in hand is handed out, cached and published, in this order; `rest` is what is published. */
  ghost predicate DividesHand(s: State, t: Tid, c: nat, x: Slot, rest: seq<Slot>, s': State) {
    && c < CLASS_COUNT == |CacheOf(s, t)| == |CacheOf(s', t)| == |HandOf(s, t)| == |HandOf(s', t)| == |SharedOf(s)| == |SharedOf(s')|
    && HandOf(s, t)[c] == [x] + CacheOf(s', t)[c] + rest
    && HandOf(s', t) == HandOf(s, t)[c := []] && SharedOf(s') == SharedOf(s)[c := rest + SharedOf(s)[c]]
    && s'.pools.live == s.pools.live + {x}
    && forall d :: 0 <= d < CLASS_COUNT && d != c ==> CacheOf(s', t)[d] == CacheOf(s, t)[d]
  }

  /** The refill is as large as the limits allow, and there is none without a cache. */
  ghost predicate RefillsAll(s: State, t: Tid, c: nat, rest: seq<Slot>, s': State)
    requires t in s.threads && c < |CacheOf(s', t)|
  {
    var kept := |CacheOf(s', t)[c]|;
    if s.threads[t].life.Active? then
      kept + 1 <= C.REFILL_LIMIT
      && (rest != [] && kept + 1 < C.REFILL_LIMIT ==> C.Bytes(CacheOf(s, t)) + (kept + 2) * Capacity(c) > C.BYTES_LIMIT)
    else kept == 0
  }

  lemma FinishDelivers(s: State, t: Tid, s': State)
    requires Step(s, Finish(t), s')
    ensures t in s.threads && s.threads[t].pc.Got?
    ensures var c := s.threads[t].pc.c;
            && Has(s.pools, Cache(t), c, 0) && Has(s.pools, Hand(t), c, 0) && Has(s.pools, Shared, c, 0)
            && Obtaining(s, t, c).block.Some? && s'.pools == Delivered(s.pools, t, c, Obtaining(s, t, c))
  {
    hide Obtaining, Delivered;
  }

  lemma DeliveredHand(s: State, t: Tid, c: nat, o: C.Obtained<Slot>, s': State)
    requires c < CLASS_COUNT && Divides(s.pools, t, c, o)
    requires |s.pools.at[Cache(t)]| == |s.pools.at[Hand(t)]| == |s.pools.at[Shared]| == CLASS_COUNT
    requires s'.pools == Delivered(s.pools, t, c, o)
    ensures DividesHand(s, t, c, o.block.value, o.rest, s') && CacheOf(s', t) == o.lists
  {
    var at' := s'.pools.at;
    assert at'[Cache(t)] == o.lists && at'[Hand(t)] == s.pools.at[Hand(t)][c := []];
    assert at'[Shared] == s.pools.at[Shared][c := o.rest + s.pools.at[Shared][c]];
    assert s'.pools.live == s.pools.live + {o.block.value};
    hide Delivered;
  }

  lemma ClassAtGot(s: State, t: Tid)
    requires ThreadOk(s, t) && s.threads[t].pc.Got?
    ensures s.threads[t].pc.c < CLASS_COUNT && Cache(t) in s.pools.at && |s.pools.at[Cache(t)]| == CLASS_COUNT
    ensures Hand(t) in s.pools.at && |s.pools.at[Hand(t)]| == CLASS_COUNT
    ensures var c := s.threads[t].pc.c;
            s.pools.at[Cache(t)][c] == [] && s.pools.at[Hand(t)][c] != [] && C.WithinCaps(s.pools.at[Cache(t)])
  {
    hide C.WithinCaps;
  }

  /** How a slow allocation ends: one block out, as many as the limits allow cached, the rest published. */
  lemma SlowMallocRefills(s: State, t: Tid, s': State) returns (rest: seq<Slot>)
    requires Inv(s) && Step(s, Finish(t), s')
    ensures t in s.threads && s.threads[t].pc.Got? && ActionOf(s, Finish(t)).Allocate?
    ensures var c := s.threads[t].pc.c;
            DividesHand(s, t, c, ActionOf(s, Finish(t)).x, rest, s') && RefillsAll(s, t, c, rest, s')
  {
    hide ThreadOk, Sound, Descriptors, C.Obtain, Step, C.WithinCaps, C.Bytes, Capacity, DividesHand, Delivered;
    FinishDelivers(s, t, s');
    var c := s.threads[t].pc.c;
    ObtainedAtGot(s, t);
    assert ThreadOk(s, t);
    ClassAtGot(s, t);
    AllPoolsHaveEveryClass(s.pools, Shared);
    var o := Obtaining(s, t, c);
    rest := o.rest;
    DeliveredHand(s, t, c, o, s');
    if s.threads[t].life.Active? {
      C.ObtainKeepsAll(s.pools.at[Cache(t)], c, s.pools.at[Hand(t)][c]);
    }
  }

  // ---- Shared lists ----

  function SharedOf(s: State): seq<seq<Slot>> {
    if Shared in s.pools.at then s.pools.at[Shared] else []
  }

  function HandOf(s: State, t: Tid): seq<seq<Slot>> {
    if Hand(t) in s.pools.at then s.pools.at[Hand(t)] else []
  }

  predicate Detaches(e: Event) {
    e.FirstDetach? || e.SecondDetach? || e.TrimTake?
  }

  predicate Publishes(e: Event) {
    e.PublishFree? || e.PublishEviction? || e.PublishFlush? || e.TrimPut?
  }

  /** The class whose list a step detaches or publishes. */
  function Moved(pc: Pc): nat {
    match pc
    case Miss(c) => c
    case Locked(c) => c
    case FreePublish(c) => c
    case EvictPublish(_, e) => e
    case FlushPublish(i, _) => i
    case TrimDetach(i) => i
    case TrimPublish(i) => i
    case _ => 0
  }

  /** A detach takes the whole shared list of its class into the hand; a publish puts back all of the hand. */
  ghost predicate TransfersAll(s: State, e: Event, s': State)
    requires e.t in s.threads
  {
    var c, t := Moved(s.threads[e.t].pc), e.t;
    && c < CLASS_COUNT == |SharedOf(s)| == |SharedOf(s')| == |HandOf(s, t)| == |HandOf(s', t)|
    && (Detaches(e) ==> SharedOf(s') == SharedOf(s)[c := []] && HandOf(s', t) == HandOf(s, t)[c := SharedOf(s)[c]])
    && (Publishes(e) ==> SharedOf(s') == SharedOf(s)[c := HandOf(s, t)[c] + SharedOf(s)[c]] && HandOf(s', t) == HandOf(s, t)[c := []])
  }

  lemma MoveAll(p: Pools, from: Place, to: Place, c: nat)
    requires Has(p, from, c, 0) && Has(p, to, c, 0) && from != to
    ensures var p' := Move(p, from, to, c, |p.at[from][c]|);
            && p'.at.Keys == p.at.Keys
            && p'.at[from] == p.at[from][c := []] && p'.at[to] == p.at[to][c := p.at[from][c] + p.at[to][c]]
  {
    assert p.at[from][c][|p.at[from][c]|..] == [] && p.at[from][c][..|p.at[from][c]|] == p.at[from][c];
  }

  /** Before a detach the hand is empty in the class. */
  lemma EmptyHanded(s: State, e: Event)
    requires e.t in s.threads && ThreadOk(s, e.t) && Detaches(e) && Moved(s.threads[e.t].pc) < CLASS_COUNT
    requires e.FirstDetach? ==> s.threads[e.t].pc.Miss?
    requires e.SecondDetach? ==> s.threads[e.t].pc.Locked?
    requires e.TrimTake? ==> s.threads[e.t].pc.TrimDetach?
    ensures HandOf(s, e.t)[Moved(s.threads[e.t].pc)] == []
  {
    hide CacheOk, PcOk;
  }

  lemma DetachIsMove(s: State, e: Event, s': State)
    requires Step(s, e, s') && Detaches(e)
    ensures e.t in s.threads
    ensures var c := Moved(s.threads[e.t].pc);
            && Has(s.pools, Shared, c, 0) && Has(s.pools, Hand(e.t), c, 0)
            && s'.pools == (if s.pools.at[Shared][c] == [] && !e.TrimTake? then s.pools
                            else Move(s.pools, Shared, Hand(e.t), c, |s.pools.at[Shared][c]|))
    ensures e.FirstDetach? ==> s.threads[e.t].pc.Miss?
    ensures e.SecondDetach? ==> s.threads[e.t].pc.Locked?
    ensures e.TrimTake? ==> s.threads[e.t].pc.TrimDetach?
  {
    hide Move;
  }

  lemma DetachTransfers(s: State, e: Event, s': State)
    requires Inv(s) && Step(s, e, s') && Detaches(e)
    ensures e.t in s.threads && TransfersAll(s, e, s')
  {
    hide ThreadOk, Sound, Descriptors, Move, Step;
    var t := e.t;
    DetachIsMove(s, e, s');
    var c := Moved(s.threads[t].pc);
    AllPoolsHaveEveryClass(s.pools, Shared);
    assert ThreadOk(s, t);
    HandHasEveryClass(s, t);
    EmptyHanded(s, e);
    MoveAll(s.pools, Shared, Hand(t), c);
    NothingMoves(SharedOf(s), HandOf(s, t), c);
  }

  lemma HandHasEveryClass(s: State, t: Tid)
    requires ThreadOk(s, t)
    ensures Hand(t) in s.pools.at && |s.pools.at[Hand(t)]| == CLASS_COUNT
  {
  }

  lemma NothingMoves(shared: seq<seq<Slot>>, hand: seq<seq<Slot>>, c: nat)
    requires c < |shared| == |hand| && hand[c] == []
    ensures shared[c] + hand[c] == shared[c]
    ensures shared[c] == [] ==> shared[c := []] == shared && hand[c := shared[c]] == hand
  {
  }

  lemma PublishIsMove(s: State, e: Event, s': State)
    requires Step(s, e, s') && Publishes(e)
    ensures e.t in s.threads
    ensures var c := Moved(s.threads[e.t].pc);
            && Has(s.pools, Shared, c, 0) && Has(s.pools, Hand(e.t), c, 0)
            && s'.pools == Move(s.pools, Hand(e.t), Shared, c, |s.pools.at[Hand(e.t)][c]|)
  {
    hide Move;
  }

  lemma PublishTransfers(s: State, e: Event, s': State)
    requires Inv(s) && Step(s, e, s') && Publishes(e)
    ensures e.t in s.threads && TransfersAll(s, e, s')
  {
    hide ThreadOk, Sound, Descriptors, Move, Step;
    PublishIsMove(s, e, s');
    AllPoolsHaveEveryClass(s.pools, Shared);
    assert ThreadOk(s, e.t);
    HandHasEveryClass(s, e.t);
    MoveAll(s.pools, Hand(e.t), Shared, Moved(s.threads[e.t].pc));
  }

  // ---- Setup ----

  /** The first call of a thread decides for good whether it has a cache: only a registered descriptor gives one. */
  lemma {:induction false} SetupDecides(states: seq<State>, events: seq<Event>, i: nat, j: nat, t: Tid)
    requires Run(states, events) && i < j <= |events| && events[i].Acquire? && events[i].t == t
    ensures t in states[j].threads && !states[j].threads[t].life.Uninitialized?
    ensures states[j].threads[t].life.Active?
            ==> events[i].setup.Registers? && states[j].threads[t].life.d == events[i].setup.d
    ensures events[i].setup.Registers? && (forall k :: i < k < j ==> events[k] != Exit(t)) ==> states[j].threads[t].life.Active?
    decreases j
  {
    hide Step, Init;
    if j == i + 1 {
      SetupStep(states[i], events[i], states[j]);
    } else {
      SetupDecides(states, events, i, j - 1, t);
      LivesStep(states[j - 1], events[j - 1], states[j]);
    }
  }

  lemma SetupStep(s: State, e: Event, s': State)
    requires Step(s, e, s') && e.Acquire?
    ensures e.t in s'.threads
    ensures s'.threads[e.t].life == if e.setup.Registers? then Active(e.setup.d) else Uncached
  {
  }

  /** Whether the thread-specific key exists is decided once; if it could not be made, no thread ever has a cache. */
  ghost predicate KeyOk(s: State) {
    s.key == CreateFailed ==> s.mapped == {} && forall t :: t in s.threads ==> !s.threads[t].life.Active?
  }

  lemma AcquireKey(s: State, e: Event, s': State)
    requires Step(s, e, s') && e.Acquire? && KeyOk(s) && (s.key == NotCreated ==> s.mapped == {} && KeyOk(s.(key := CreateFailed)))
    ensures KeyOk(s') && s'.key != NotCreated && (s.key != NotCreated ==> s'.key == s.key)
  {
  }

  /** Only setup touches the key, and maps descriptors. */
  lemma KeyStays(s: State, e: Event, s': State)
    requires Inv(s) && Step(s, e, s') && !e.Acquire?
    ensures s'.key == s.key && s'.mapped <= s.mapped
  {
    hide Inv, MallocStep, FreeStep, FlushStep, TrimStep;
    if OfMalloc(e) {
      MallocKeepsKey(s, e, s');
    } else if OfFree(e) {
      FreeKeepsKey(s, e, s');
    } else if OfFlush(e) {
      FlushKeepsKey(s, e, s');
    } else {
      TrimKeepsKey(s, e, s');
    }
  }

  lemma MallocKeepsKey(s: State, e: Event, s': State)
    requires e.t in s.threads && MallocStep(s, e, s')
    ensures s'.key == s.key && s'.mapped == s.mapped
  {
    hide Has, Move, Grant, AddSlab, Delivered, Obtaining, C.Obtain, Fresh;
  }

  lemma FreeKeepsKey(s: State, e: Event, s': State)
    requires e.t in s.threads && FreeStep(s, e, s')
    ensures s'.key == s.key && s'.mapped == s.mapped
  {
    hide Has, Move, Reclaim, C.Eviction;
  }

  lemma FlushKeepsKey(s: State, e: Event, s': State)
    requires e.t in s.threads && FlushStep(s, e, s')
    ensures s'.key == s.key && s'.mapped <= s.mapped
  {
    hide Has, Move;
  }

  lemma TrimKeepsKey(s: State, e: Event, s': State)
    requires e.t in s.threads && TrimStep(s, e, s')
    ensures s'.key == s.key && s'.mapped == s.mapped
  {
    hide Has, Move, Sweep, Wholly;
  }

  /** Until the key is decided no thread has a cache. */
  ghost predicate Undecided(s: State) {
    s.key == NotCreated ==> s.mapped == {} && forall t :: t in s.threads ==> !s.threads[t].life.Active?
  }

  lemma KeyStep(s: State, e: Event, s': State)
    requires Inv(s) && Step(s, e, s') && KeyOk(s) && Undecided(s)
    ensures KeyOk(s') && Undecided(s') && (s.key != NotCreated ==> s'.key == s.key)
  {
    hide Step, Inv;
    if e.Acquire? {
      AcquireKey(s, e, s');
    } else {
      KeyStays(s, e, s');
      LivesStep(s, e, s');
    }
  }

  lemma {:induction false} KeyAt(states: seq<State>, events: seq<Event>, i: nat)
    requires Run(states, events) && i <= |events|
    ensures KeyOk(states[i]) && Undecided(states[i])
  {
    hide Step, Inv, KeyOk, Undecided;
    if i == 0 {
      KeyStarts(states[0]);
    } else {
      KeyAt(states, events, i - 1);
      InvAt(states, events, i - 1);
      KeyStep(states[i - 1], events[i - 1], states[i]);
    }
  }

  lemma KeyStarts(s: State)
    requires Init(s)
    ensures KeyOk(s) && Undecided(s)
  {
  }

  /** The key is made at most once, and after a failure to make it no descriptor is ever mapped. */
  lemma {:induction false} KeyIsDecidedOnce(states: seq<State>, events: seq<Event>, i: nat, j: nat)
    requires Run(states, events) && i <= j <= |events| && states[i].key != NotCreated
    ensures states[j].key == states[i].key
    ensures states[i].key == CreateFailed ==> states[j].mapped == {}
    decreases j
  {
    hide Step, Inv, Init, Undecided;
    KeyAt(states, events, j);
    if i < j {
      KeyIsDecidedOnce(states, events, i, j - 1);
      KeyAt(states, events, j - 1);
      InvAt(states, events, j - 1);
      KeyStep(states[j - 1], events[j - 1], states[j]);
    }
  }
}
