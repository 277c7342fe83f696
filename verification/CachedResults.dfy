/** Results about whole runs of the cached allocator. */
module CachedResults {
  import opened Sequences
  import opened SizeClasses
  import opened SlotPools
  import opened CachedAllocator
  import opened CachedInvariant
  import A = SlotAllocator
  import C = CacheSpec

  ghost predicate Run(states: seq<State>, events: seq<Event>) {
    && |states| == |events| + 1
    && Init(states[0])
    && forall i :: 0 <= i < |events| ==> Step(states[i], events[i], states[i + 1])
  }

  lemma {:induction false} InvAt(states: seq<State>, events: seq<Event>, i: nat)
    requires Run(states, events) && i <= |events|
    ensures Inv(states[i])
    decreases i
  {
    hide Inv, Step, Init;
    if i == 0 {
      InitInv(states[0]);
    } else {
      InvAt(states, events, i - 1);
      InvStep(states[i - 1], events[i - 1], states[i]);
    }
  }

  /**
   * In every reachable state, every registered slot is either live and in no list, or in exactly one
   * list: one thread's cache, one thread's hand, or the shared list of its own class, and there once.
   */
  lemma EverySlotInOnePlace(states: seq<State>, events: seq<Event>, i: nat, x: Slot)
    requires Run(states, events) && i <= |events| && Registered(states[i].pools.registry, x)
    ensures var p := states[i].pools;
            && (x in p.live ==> forall q :: !InPool(p, q, x))
            && (x !in p.live ==> exists q :: InPool(p, q, x))
            && (forall q, r :: InPool(p, q, x) && InPool(p, r, x) ==> q == r)
            && (forall q :: q in p.at && x.slab.cls < |p.at[q]| ==> NoDup(p.at[q][x.slab.cls]))
  {
    InvAt(states, events, i);
    ExactlyOnePlace(states[i].pools, x);
  }

  /** A cached small malloc fails only where slab creation fails: its last failure branch never runs. */
  lemma MallocFailsOnlyWithoutSlab(states: seq<State>, events: seq<Event>, i: nat)
    requires Run(states, events) && i < |events|
    ensures !events[i].Defensive?
  {
    InvAt(states, events, i);
    DefensiveBranchIsDead(states[i], events[i].t, states[i + 1]);
  }

  /** Outside the eviction loop of a free, every cache is within both caps. */
  lemma CachesStayWithinCaps(states: seq<State>, events: seq<Event>, i: nat, t: Tid)
    requires Run(states, events) && i <= |events| && t in states[i].threads && !states[i].threads[t].pc.Evict?
    ensures Cache(t) in states[i].pools.at && C.WithinCaps(states[i].pools.at[Cache(t)])
  {
    InvAt(states, events, i);
    assert ThreadOk(states[i], t);
  }

  // ---- The client's view ----

  function ActionOf(s: State, e: Event): A.Action
    requires e.t in s.threads
  {
    match e
    case MallocHit(t, c) => if Has(s.pools, Cache(t), c, 1) then A.Allocate(s.pools.at[Cache(t)][c][0]) else A.Quiet
    case Finish(t) =>
      var c := if s.threads[t].pc.Got? then s.threads[t].pc.c else 0;
      if Has(s.pools, Cache(t), c, 0) && Has(s.pools, Hand(t), c, 0) && Obtaining(s, t, c).block.Some?
      then A.Allocate(Obtaining(s, t, c).block.value) else A.Quiet
    case FreeCached(t, x) => A.Release(x)
    case FreeUncached(t, x) => A.Release(x)
    case MapSlab(t, slab) => A.Grow(slab)
    case TrimSweep(t, released, failed) => A.Shrink(released)
    case _ => A.Quiet
  }

  /** The class the client asked for, where a step hands out a block. */
  function AskedClass(s: State, e: Event): nat
    requires e.t in s.threads
  {
    match e
    case MallocHit(t, c) => c
    case Finish(t) => if s.threads[t].pc.Got? then s.threads[t].pc.c else 0
    case _ => 0
  }

  /** What is handed out is of the class that was asked for. */
  ghost predicate GrantsAskedClass(s: State, e: Event)
    requires e.t in s.threads
  {
    ActionOf(s, e).Allocate? ==> (e.MallocHit? || e.Finish?) && ActionOf(s, e).x.slab.cls == AskedClass(s, e)
  }

  lemma MallocView(s: State, e: Event, s': State)
    requires Inv(s) && e.t in s.threads && OfMalloc(e) && MallocStep(s, e, s') && !e.Finish? && !e.Defensive?
    ensures A.Permitted(A.ViewOf(s.pools), ActionOf(s, e))
    ensures A.ViewOf(s'.pools) == A.Effect(A.ViewOf(s.pools), ActionOf(s, e))
    ensures GrantsAskedClass(s, e)
  {
    hide ThreadOk, Descriptors, Sound, Obtaining, A.ViewOf, Grant, Move, AddSlab, Fresh;
    var t, p := e.t, s.pools;
    var pc := s.threads[t].pc;
    match e
    case MallocHit(_, c) =>
      A.GrantAllocates(p, Cache(t), c);
      PooledSlotsAreRegistered(p, Cache(t), c, p.at[Cache(t)][c][0]);
    case FirstDetach(_) => A.MoveIsQuiet(p, Shared, Hand(t), pc.c, |p.at[Shared][pc.c]|);
    case SecondDetach(_) => A.MoveIsQuiet(p, Shared, Hand(t), pc.c, |p.at[Shared][pc.c]|);
    case MapSlab(_, slab) => A.AddSlabGrows(p, slab, Hand(t));
    case _ =>
  }

  lemma FinishView(s: State, t: Tid, s': State)
    requires Inv(s) && t in s.threads && MallocStep(s, Finish(t), s')
    ensures A.Permitted(A.ViewOf(s.pools), ActionOf(s, Finish(t)))
    ensures A.ViewOf(s'.pools) == A.Effect(A.ViewOf(s.pools), ActionOf(s, Finish(t)))
    ensures GrantsAskedClass(s, Finish(t))
  {
    hide ThreadOk, Descriptors, Sound, Obtaining, Divides, A.ViewOf, Delivered;
    ObtainedAtGot(s, t);
    DeliveredView(s.pools, t, s.threads[t].pc.c, Obtaining(s, t, s.threads[t].pc.c));
  }

  lemma DeliveredView(p: Pools, t: Tid, c: nat, o: C.Obtained<Slot>)
    requires Sound(p) && Divides(p, t, c, o)
    ensures A.Permitted(A.ViewOf(p), A.Allocate(o.block.value)) && o.block.value.slab.cls == c
    ensures A.ViewOf(Delivered(p, t, c, o)) == A.Effect(A.ViewOf(p), A.Allocate(o.block.value))
  {
    var x := o.block.value;
    assert p.at[Hand(t)][c][0] == x;
    PooledSlotsAreRegistered(p, Hand(t), c, x);
  }

  lemma FreeView(s: State, e: Event, s': State)
    requires Inv(s) && e.t in s.threads && OfFree(e) && FreeStep(s, e, s')
    ensures A.Permitted(A.ViewOf(s.pools), ActionOf(s, e))
    ensures A.ViewOf(s'.pools) == A.Effect(A.ViewOf(s.pools), ActionOf(s, e))
    ensures GrantsAskedClass(s, e)
  {
    hide Inv, C.Eviction;
    var t, p := e.t, s.pools;
    match e
    case FreeCached(_, x) => A.ReclaimReleases(p, x, Cache(t));
    case FreeUncached(_, x) => A.ReclaimReleases(p, x, Hand(t));
    case _ =>
  }

  lemma FlushView(s: State, e: Event, s': State)
    requires e.t in s.threads && OfFlush(e) && FlushStep(s, e, s')
    ensures A.ViewOf(s'.pools) == A.ViewOf(s.pools) && ActionOf(s, e) == A.Quiet
    ensures GrantsAskedClass(s, e)
  {
  }

  lemma TrimView(s: State, e: Event, s': State)
    requires Inv(s) && e.t in s.threads && !e.Acquire? && !OfMalloc(e) && !OfFree(e) && !OfFlush(e) && TrimStep(s, e, s')
    ensures A.Permitted(A.ViewOf(s.pools), ActionOf(s, e))
    ensures A.ViewOf(s'.pools) == A.Effect(A.ViewOf(s.pools), ActionOf(s, e))
    ensures GrantsAskedClass(s, e)
  {
    if e.TrimSweep? {
      A.SweepShrinks(s.pools, Hand(e.t), e.released, s'.pools);
    }
    hide Inv, Sweep;
  }

  /**
   * Every step is a step of the client's view: malloc hands out a registered slot of the class asked for
   * that is not live, free returns a live one, trim removes only slabs with no live slot, and everything else, refills,
   * evictions, flushes, exits, is invisible.
   */
  lemma CachedRefinesSlotAllocator(s: State, e: Event, s': State)
    requires Inv(s) && Step(s, e, s')
    ensures A.Permitted(A.ViewOf(s.pools), ActionOf(s, e))
    ensures A.ViewOf(s'.pools) == A.Effect(A.ViewOf(s.pools), ActionOf(s, e))
    ensures GrantsAskedClass(s, e)
  {
    hide Inv, A.ViewOf, MallocStep, FreeStep, FlushStep, TrimStep;
    if e.Acquire? {
    } else if e.Finish? {
      FinishView(s, e.t, s');
    } else if e.Defensive? {
      DefensiveBranchIsDead(s, e.t, s');
      assert false;
    } else if OfMalloc(e) {
      MallocView(s, e, s');
    } else if OfFree(e) {
      FreeView(s, e, s');
    } else if OfFlush(e) {
      FlushView(s, e, s');
    } else {
      TrimView(s, e, s');
    }
  }

  // ---- The class of a request ----

  /** Only the start of a slow malloc sets the class of a call; the class stays until the call ends. */
  ghost predicate KeepsClass(s: State, e: Event, s': State)
    requires e.t in s.threads
  {
    && e.t in s'.threads
    && (InMalloc(s'.threads[e.t].pc) ==>
          if e.MallocMiss? then s'.threads[e.t].pc.c == e.c
          else InMalloc(s.threads[e.t].pc) && s'.threads[e.t].pc.c == s.threads[e.t].pc.c)
  }

  lemma MallocKeepsClass(s: State, e: Event, s': State)
    requires e.t in s.threads && MallocStep(s, e, s')
    ensures KeepsClass(s, e, s')
  {
    hide Has, Move, Grant, AddSlab, Delivered, Obtaining, C.Obtain, Fresh;
  }

  lemma FreeKeepsClass(s: State, e: Event, s': State)
    requires e.t in s.threads && FreeStep(s, e, s')
    ensures KeepsClass(s, e, s')
  {
    hide Has, Move, Reclaim, C.Eviction;
  }

  lemma FlushKeepsClass(s: State, e: Event, s': State)
    requires e.t in s.threads && FlushStep(s, e, s')
    ensures KeepsClass(s, e, s')
  {
    hide Has, Move;
  }

  lemma TrimKeepsClass(s: State, e: Event, s': State)
    requires e.t in s.threads && TrimStep(s, e, s')
    ensures KeepsClass(s, e, s')
  {
    hide Has, Move, Sweep, Wholly;
  }

  lemma CallKeepsClass(s: State, e: Event, s': State)
    requires e.t in s.threads && Step(s, e, s')
    ensures KeepsClass(s, e, s')
  {
    hide MallocStep, FreeStep, FlushStep, TrimStep;
    if e.Acquire? {
    } else if OfMalloc(e) {
      MallocKeepsClass(s, e, s');
    } else if OfFree(e) {
      FreeKeepsClass(s, e, s');
    } else if OfFlush(e) {
      FlushKeepsClass(s, e, s');
    } else {
      TrimKeepsClass(s, e, s');
    }
  }

  /** No step moves another thread. */
  lemma OthersKeepPlace(s: State, e: Event, s': State)
    requires Inv(s) && Step(s, e, s')
    ensures s'.threads.Keys == s.threads.Keys
    ensures forall u :: u in s.threads && u != e.t ==> s'.threads[u] == s.threads[u]
  {
    hide Step, ThreadOk;
    ActorExists(s, e, s');
    assert ThreadOk(s, e.t);
    StepUndisturbed(s, e, s');
  }

  lemma FinishIsInMalloc(s: State, t: Tid, s': State)
    requires Step(s, Finish(t), s')
    ensures t in s.threads && s.threads[t].pc.Got?
  {
    hide Obtaining, Delivered;
  }

  // ---- Thread lifecycle ----

  /** Uninitialized to active or uncached, active to uncached, and no other change. */
  ghost predicate Advances(before: Life, after: Life) {
    before == after || before.Uninitialized? || (before.Active? && after.Uncached?)
  }

  /** Only setup and exit change a thread's state, each that of the acting thread. */
  ghost predicate LivesFollow(s: State, e: Event, s': State) {
    && s.threads.Keys == s'.threads.Keys
    && forall t :: t in s.threads ==>
         var before, after := s.threads[t].life, s'.threads[t].life;
         before == after || (e.Acquire? && e.t == t && before.Uninitialized?) || (e == Exit(t) && before.Active? && after.Uncached?)
  }

  /** Descriptors leak only where an unmap fails. */
  ghost predicate LeaksFollow(s: State, e: Event, s': State) {
    !Leaks(e) ==> s'.leaked == s.leaked
  }

  /** The event is an unmap of a descriptor that the operating system refused. */
  predicate Leaks(e: Event) {
    (e.EndFlush? && !e.unmapped) || (e.Acquire? && e.setup.RegistrationFails? && !e.setup.unmapped)
  }

  ghost predicate KeepsLife(s: State, t: Tid, s': State)
    requires t in s.threads
  {
    && t in s'.threads && s'.threads == s.threads[t := s'.threads[t]]
    && s'.threads[t].life == s.threads[t].life && s'.leaked == s.leaked
  }

  lemma MallocKeepsLife(s: State, e: Event, s': State)
    requires e.t in s.threads && MallocStep(s, e, s')
    ensures KeepsLife(s, e.t, s')
  {
    hide Has, Move, Grant, AddSlab, Delivered, Obtaining, C.Obtain, Fresh;
  }

  lemma FreeKeepsLife(s: State, e: Event, s': State)
    requires e.t in s.threads && FreeStep(s, e, s')
    ensures KeepsLife(s, e.t, s')
  {
    hide Has, Move, Reclaim, C.Eviction;
  }

  lemma FlushLives(s: State, e: Event, s': State)
    requires e.t in s.threads && OfFlush(e) && FlushStep(s, e, s')
    ensures LivesFollow(s, e, s') && LeaksFollow(s, e, s')
  {
    hide Has, Move;
  }

  lemma TrimKeepsLife(s: State, e: Event, s': State)
    requires e.t in s.threads && TrimStep(s, e, s')
    ensures KeepsLife(s, e.t, s')
  {
    hide Has, Move, Sweep, Wholly;
  }

  lemma KeptLifeFollows(s: State, e: Event, s': State)
    requires e.t in s.threads && KeepsLife(s, e.t, s')
    ensures LivesFollow(s, e, s') && LeaksFollow(s, e, s')
  {
  }

  lemma AcquireLives(s: State, e: Event, s': State)
    requires e.t in s.threads && e.Acquire? && AcquireStep(s, e.t, e.setup, s')
    ensures LivesFollow(s, e, s') && LeaksFollow(s, e, s')
  {
  }

  lemma LivesStep(s: State, e: Event, s': State)
    requires Step(s, e, s')
    ensures LivesFollow(s, e, s') && LeaksFollow(s, e, s')
  {
    hide AcquireStep, MallocStep, FreeStep, FlushStep, TrimStep, LivesFollow, LeaksFollow, KeepsLife;
    if e.Acquire? {
      AcquireLives(s, e, s');
    } else if OfMalloc(e) {
      MallocKeepsLife(s, e, s');
      KeptLifeFollows(s, e, s');
    } else if OfFree(e) {
      FreeKeepsLife(s, e, s');
      KeptLifeFollows(s, e, s');
    } else if OfFlush(e) {
      FlushLives(s, e, s');
    } else {
      TrimKeepsLife(s, e, s');
      KeptLifeFollows(s, e, s');
    }
  }

  /** A thread's state only moves forward over a run: uncached is absorbing, and a descriptor never changes. */
  lemma {:induction false} LifecycleMovesForward(states: seq<State>, events: seq<Event>, i: nat, j: nat, t: Tid)
    requires Run(states, events) && i <= j <= |events| && t in states[i].threads
    ensures t in states[j].threads && Advances(states[i].threads[t].life, states[j].threads[t].life)
    decreases j
  {
    hide Step, Init;
    if i < j {
      LifecycleMovesForward(states, events, i, j - 1, t);
      LivesStep(states[j - 1], events[j - 1], states[j]);
    }
  }

  /** When an exiting thread's descriptor is unmapped, its cache holds no block of any class. */
  lemma NoBlockDiesWithDescriptor(states: seq<State>, events: seq<Event>, i: nat, t: Tid, unmapped: bool)
    requires Run(states, events) && i < |events| && events[i] == EndFlush(t, unmapped)
    ensures t in states[i].threads && Cache(t) in states[i].pools.at && |states[i].pools.at[Cache(t)]| == CLASS_COUNT
    ensures forall c :: 0 <= c < CLASS_COUNT ==> states[i].pools.at[Cache(t)][c] == []
  {
    InvAt(states, events, i);
    assert Step(states[i], events[i], states[i + 1]);
    assert ThreadOk(states[i], t);
  }

  ghost predicate AllIdle(s: State) {
    forall t :: t in s.threads ==> s.threads[t].pc == Idle
  }

  lemma {:induction false} LeakedNeedsFailure(states: seq<State>, events: seq<Event>, i: nat)
    requires Run(states, events) && i <= |events| && forall k :: 0 <= k < i ==> !Leaks(events[k])
    ensures states[i].leaked == {}
    decreases i
  {
    hide Step, Init;
    if i > 0 {
      LeakedNeedsFailure(states, events, i - 1);
      LivesStep(states[i - 1], events[i - 1], states[i]);
    } else {
      NothingLeakedYet(states[0]);
    }
  }

  lemma NothingLeakedYet(s: State)
    requires Init(s)
    ensures s.leaked == {}
  {
  }

  /**
   * If every descriptor unmap succeeded, then whenever no call is in progress the mapped descriptors
   * are exactly those of the active threads, each thread having its own.
   */
  lemma DescriptorsMatchActiveThreads(states: seq<State>, events: seq<Event>, i: nat)
    requires Run(states, events) && i <= |events| && AllIdle(states[i])
    requires forall k :: 0 <= k < i ==> !Leaks(events[k])
    ensures var s := states[i];
            && (forall d :: d in s.mapped <==> exists t :: t in s.threads && s.threads[t].life == Active(d))
            && (forall t, u :: t in s.threads && u in s.threads && t != u && s.threads[t].life.Active?
                               ==> s.threads[t].life != s.threads[u].life)
  {
    InvAt(states, events, i);
    LeakedNeedsFailure(states, events, i);
    var s := states[i];
    hide ThreadOk, Sound;
    forall t | t in s.threads
      ensures Descriptor(s.threads[t]) == (if s.threads[t].life.Active? then Some(s.threads[t].life.d) else None)
    {
    }
    forall d
      ensures d in s.mapped <==> exists t :: t in s.threads && s.threads[t].life == Active(d)
    {
      if d in s.mapped {
        var t :| t in s.threads && Descriptor(s.threads[t]) == Some(d);
        assert s.threads[t].life == Active(d);
      }
    }
  }

  // ---- One eviction per free ----

  /** Thread `t` has evicted in this free, or is not in the eviction loop: it will not evict again. */
  ghost predicate Settled(s: State, t: Tid) {
    && t in s.threads && Cache(t) in s.pools.at
    && (s.threads[t].pc.Evict? ==> C.WithinCaps(s.pools.at[Cache(t)]))
  }

  lemma SettledForbidsEviction(s: State, t: Tid, s': State)
    requires Inv(s) && Settled(s, t)
    ensures !Step(s, ExtractEviction(t), s')
  {
    hide C.Eviction, Move, Sound, Descriptors, HandOk;
    if Step(s, ExtractEviction(t), s') {
      C.NoEvictionMeansWithinCaps(s.pools.at[Cache(t)], s.threads[t].pc.c);
      assert false;
    }
  }

  lemma SettledElsewhere(s: State, e: Event, s': State, t: Tid)
    requires e.t in s.threads && ThreadOk(s, e.t) && Step(s, e, s') && e.t != t && Settled(s, t)
    ensures Settled(s', t)
  {
    StepUndisturbed(s, e, s');
    hide Step, ThreadOk, C.WithinCaps;
  }

  lemma SettledStep(s: State, e: Event, s': State, t: Tid)
    requires Inv(s) && Inv(s') && Step(s, e, s') && t in s.threads
    requires Settled(s, t) || e == ExtractEviction(t)
    requires !(e.FreeCached? && e.t == t)
    ensures Settled(s', t)
  {
    assert ThreadOk(s, e.t);
    StepUndisturbed(s, e, s');
    assert ThreadOk(s', e.t);
    if e.t == t {
      EvictPcStep(s, e, s');
      assert Cache(t) in s'.pools.at;
      hide Inv, Step, ThreadOk, C.WithinCaps;
    } else {
      hide Inv;
      SettledElsewhere(s, e, s', t);
    }
  }

  lemma FreeEvictPc(s: State, e: Event, s': State)
    requires e.t in s.threads && OfFree(e) && FreeStep(s, e, s') && !e.FreeCached? && Cache(e.t) in s.pools.at
    ensures e.t in s'.threads && Cache(e.t) in s'.pools.at
    ensures s'.threads[e.t].pc.Evict? ==> e.PublishEviction? && s'.pools.at[Cache(e.t)] == s.pools.at[Cache(e.t)]
  {
    hide C.Eviction;
  }

  lemma MallocEvictPc(s: State, e: Event, s': State)
    requires e.t in s.threads && OfMalloc(e) && MallocStep(s, e, s')
    ensures e.t in s'.threads && !s'.threads[e.t].pc.Evict?
  {
    hide Has, Move, Grant, AddSlab, Delivered, Obtaining, C.Obtain, Fresh;
  }

  lemma FlushEvictPc(s: State, e: Event, s': State)
    requires e.t in s.threads && OfFlush(e) && FlushStep(s, e, s')
    ensures e.t in s'.threads && !s'.threads[e.t].pc.Evict?
  {
    hide Has, Move;
  }

  lemma TrimEvictPc(s: State, e: Event, s': State)
    requires e.t in s.threads && !OfMalloc(e) && !OfFree(e) && !OfFlush(e) && TrimStep(s, e, s')
    ensures e.t in s'.threads && !s'.threads[e.t].pc.Evict?
  {
    hide Has, Move, Sweep, Wholly;
  }

  /** A thread comes back to the eviction loop only from publishing what it evicted. */
  lemma EvictPcStep(s: State, e: Event, s': State)
    requires e.t in s.threads && Step(s, e, s') && !e.FreeCached? && ThreadOk(s, e.t) && ThreadOk(s', e.t)
    ensures s'.threads[e.t].pc.Evict? ==> e.PublishEviction? && C.WithinCaps(s'.pools.at[Cache(e.t)])
  {
    hide MallocStep, FreeStep, FlushStep, TrimStep, ThreadOk, C.WithinCaps;
    if e.Acquire? {
    } else if OfMalloc(e) {
      MallocEvictPc(s, e, s');
    } else if OfFree(e) {
      PublisherIsWithinCaps(s, e, s');
      FreeEvictPc(s, e, s');
    } else if OfFlush(e) {
      FlushEvictPc(s, e, s');
    } else {
      TrimEvictPc(s, e, s');
    }
  }

  lemma PublisherIsWithinCaps(s: State, e: Event, s': State)
    requires e.t in s.threads && OfFree(e) && FreeStep(s, e, s') && ThreadOk(s, e.t)
    ensures Cache(e.t) in s.pools.at && (e.PublishEviction? ==> C.WithinCaps(s.pools.at[Cache(e.t)]))
  {
    hide C.WithinCaps, C.Eviction, C.JustStored, HandOk;
  }

  lemma {:induction false} SettledUntilNextFree(states: seq<State>, events: seq<Event>, i: nat, j: nat, t: Tid)
    requires Run(states, events) && i < j <= |events| && events[i] == ExtractEviction(t)
    requires forall k :: i < k < j ==> !(events[k].FreeCached? && events[k].t == t)
    ensures Settled(states[j], t)
    decreases j
  {
    hide Inv, Step, Init;
    InvAt(states, events, j - 1);
    InvAt(states, events, j);
    ActorExists(states[i], events[i], states[i + 1]);
    LifecycleMovesForward(states, events, i, j - 1, t);
    if i < j - 1 {
      SettledUntilNextFree(states, events, i, j - 1, t);
    }
    SettledStep(states[j - 1], events[j - 1], states[j], t);
  }

  lemma ActorExists(s: State, e: Event, s': State)
    requires Step(s, e, s')
    ensures e.t in s.threads
  {
  }

  /** A free evicts at most once: between two evictions of a thread lies another free by that thread. */
  lemma OneEvictionPerFree(states: seq<State>, events: seq<Event>, i: nat, j: nat, t: Tid)
    requires Run(states, events) && i < j < |events|
    requires events[i] == ExtractEviction(t) && events[j] == ExtractEviction(t)
    ensures exists k :: i < k < j && events[k].FreeCached? && events[k].t == t
  {
    if forall k :: i < k < j ==> !(events[k].FreeCached? && events[k].t == t) {
      SettledUntilNextFree(states, events, i, j, t);
      InvAt(states, events, j);
      SettledForbidsEviction(states[j], t, states[j + 1]);
      assert false;
    }
  }

  // ---- Trim ----

  /** A trim never unmaps a slab with a live slot or with a slot in anyone else's cache or hand. */
  lemma TrimSparesUsedSlabs(states: seq<State>, events: seq<Event>, i: nat, x: Slot)
    requires Run(states, events) && i < |events| && events[i].TrimSweep?
    requires Registered(states[i].pools.registry, x)
    requires x in states[i].pools.live || exists q :: q != Hand(events[i].t) && InPool(states[i].pools, q, x)
    ensures x.slab !in events[i].released && x.slab in states[i + 1].pools.registry
  {
    var s, e, s' := states[i], events[i], states[i + 1];
    InvAt(states, events, i);
    SweepOfTrim(s, e, s');
    assert Sound(s.pools);
    hide Inv, Init, Step, Sound, Sweep;
    SweepSparesUsedSlabs(s.pools, Hand(e.t), e.released, s'.pools, x);
  }

  lemma SweepOfTrim(s: State, e: Event, s': State)
    requires Step(s, e, s') && e.TrimSweep?
    ensures Sweep(s.pools, Hand(e.t), e.released, s'.pools)
    ensures forall slab :: slab in e.released <==> Wholly(s.pools, Hand(e.t), slab) && slab !in e.failed
  {
  }

  /** No other call is in progress, every cache is empty, and the trim of `t` holds all shared lists below `i`. */
  ghost predicate QuietTrim(s: State, t: Tid) {
    && t in s.threads && s.threads[t].pc.TrimDetach? && Shared in s.pools.at
    && (forall u :: u in s.threads && u != t ==> s.threads[u].pc == Idle)
    && (forall u, c :: u in s.threads && 0 <= c < CLASS_COUNT && Has(s.pools, Cache(u), c, 0)
                       ==> s.pools.at[Cache(u)][c] == [])
    && (forall c :: 0 <= c < s.threads[t].pc.i && Has(s.pools, Shared, c, 0) ==> s.pools.at[Shared][c] == [])
  }

  lemma QuietStep(s: State, t: Tid, s': State)
    requires QuietTrim(s, t) && Step(s, TrimTake(t), s')
    ensures QuietTrim(s', t)
  {
    var i := s.threads[t].pc.i;
    assert s.pools.at[Shared][i][|s.pools.at[Shared][i]|..] == [];
  }

  lemma OnlyTrimTakes(s: State, e: Event, s': State, t: Tid)
    requires Step(s, e, s') && e.t == t && t in s.threads && s.threads[t].pc.TrimDetach?
    ensures e.TrimTake? || e.TrimSweep?
  {
    hide Has, Move, Grant, Reclaim, AddSlab, Delivered, Obtaining, C.Obtain, C.Eviction, Sweep, Wholly, Fresh;
  }

  lemma {:induction false} QuietUntilSweep(states: seq<State>, events: seq<Event>, i: nat, j: nat, t: Tid)
    requires Run(states, events) && i < j <= |events| && events[i] == StartTrim(t)
    requires forall k :: i < k < j ==> events[k].t == t && !events[k].TrimSweep?
    requires QuietTrim(states[i + 1], t)
    ensures QuietTrim(states[j], t)
    decreases j
  {
    hide QuietTrim, Step, Init;
    if i + 1 < j {
      QuietUntilSweep(states, events, i, j - 1, t);
      QuietIsDetaching(states[j - 1], t);
      OnlyTrimTakes(states[j - 1], events[j - 1], states[j], t);
      QuietStep(states[j - 1], t, states[j]);
    }
  }

  lemma QuietIsDetaching(s: State, t: Tid)
    requires QuietTrim(s, t)
    ensures t in s.threads && s.threads[t].pc.TrimDetach?
  {
  }

  lemma QuietSlotsAreHeld(s: State, t: Tid, x: Slot)
    requires Inv(s) && QuietTrim(s, t) && s.threads[t].pc.i == CLASS_COUNT
    requires Registered(s.pools.registry, x) && x !in s.pools.live
    ensures InPool(s.pools, Hand(t), x)
  {
    ExactlyOnePlace(s.pools, x);
    var q :| InPool(s.pools, q, x);
    PooledSlotsAreRegistered(s.pools, q, x.slab.cls, x);
    assert q != Shared ==> q.t in s.threads && ThreadOk(s, q.t);
    if q.Shared? {
      AllPoolsHaveEveryClass(s.pools, Shared);
    }
  }

  /**
   * When the caller has stopped all other activity and flushed every cache, a trim unmaps every slab
   * that has no live slot, except those whose unmap fails. Nothing is asked of the trimming thread.
   */
  lemma QuiescentTrimIsComplete(states: seq<State>, events: seq<Event>, i: nat, j: nat, t: Tid, slab: Slab)
    requires Run(states, events) && i < j < |events| && events[i] == StartTrim(t) && events[j].TrimSweep? && events[j].t == t
    requires forall k :: i < k < j ==> events[k].t == t && !events[k].TrimSweep?
    requires QuietTrim(states[i + 1], t)
    requires slab in states[j].pools.registry && forall x :: x in states[j].pools.live ==> x.slab != slab
    ensures slab !in states[j + 1].pools.registry <==> slab !in events[j].failed
  {
    var s, e := states[j], events[j];
    InvAt(states, events, j);
    QuietUntilSweep(states, events, i, j, t);
    SweepOfTrim(s, e, states[j + 1]);
    SweepIndex(s, e, states[j + 1]);
    hide Step, QuietTrim, ThreadOk, Descriptors, Init;
    var p := s.pools;
    forall n | 0 <= n < slab.slots
      ensures Slot(slab, n) in p.at[Hand(t)][slab.cls]
    {
      QuietSlotsAreHeld(s, t, Slot(slab, n));
    }
    assert slab.cls < CLASS_COUNT;
    AllListedIsWholly(p, Hand(t), slab);
  }

  lemma SweepIndex(s: State, e: Event, s': State)
    requires Step(s, e, s') && e.TrimSweep?
    ensures s.threads[e.t].pc.TrimDetach? && s.threads[e.t].pc.i == CLASS_COUNT && Hand(e.t) in s.pools.at
  {
  }
}
