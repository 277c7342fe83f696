/**
 * How much memory the cached variant keeps (the comment at src/allocator.c:76-78). The recheck under the
 * registry mutex sees the shared lists only, so blocks in caches and hands count as used: that bound
 * holds in every run. The bound of the locked variant holds exactly where nothing was cached or carried.
 */
module CachedSpace {
  import opened Sequences
  import opened SizeClasses
  import opened SlotPools
  import opened CachedAllocator
  import opened CachedInvariant
  import A = SlotAllocator
  import C = CacheSpec
  import K = LockedAllocator
  import R = CachedResults

  /** Every slab of class `c` has the slot count its layout gives. */
  ghost predicate Uniform(registry: seq<Slab>, c: nat, n: nat) {
    forall slab :: slab in registry && slab.cls == c ==> slab.slots == n
  }

  ghost predicate Run(states: seq<State>, events: seq<Event>, c: nat, n: nat) {
    && R.Run(states, events) && c < CLASS_COUNT && n > 0
    && forall k :: 0 <= k < |events| && events[k].MapSlab? && events[k].slab.cls == c ==> events[k].slab.slots == n
  }

  function SlabsOf(s: State, c: nat): nat {
    K.ClassSlabs(s.pools.registry, c)
  }

  // ---- What the recheck knows ----

  /** Some cache or some hand lists the slot. */
  ghost predicate Carried(p: Pools, x: Slot) {
    exists q: Place :: q != Shared && InPool(p, q, x)
  }

  /** The class-`c` slots that are live, cached or in hand. */
  ghost function UsedOf(p: Pools, c: nat): set<Slot> {
    set x | x in K.ClassSlots(p.registry, c) && (x in p.live || Carried(p, x))
  }

  /** No cache and no hand holds a class-`c` slot. */
  ghost predicate NothingCarried(p: Pools, c: nat) {
    forall q :: q in p.at && q != Shared && c < |p.at[q]| ==> p.at[q][c] == []
  }

  ghost predicate AllLive(p: Pools, c: nat) {
    forall x :: Registered(p.registry, x) && x.slab.cls == c ==> x in p.live
  }

  lemma CarriedSlotIsNotLive(p: Pools, c: nat, q: Place)
    requires Sound(p) && q in p.at && c < |p.at[q]| && p.at[q][c] != []
    ensures !AllLive(p, c)
  {
    PooledSlotsAreRegistered(p, q, c, p.at[q][c][0]);
  }

  lemma NotLiveIsCarried(p: Pools, c: nat, x: Slot)
    requires Sound(p) && Has(p, Shared, c, 0) && p.at[Shared][c] == []
    requires Registered(p.registry, x) && x.slab.cls == c && x !in p.live
    ensures Carried(p, x) && !NothingCarried(p, c)
  {
    ExactlyOnePlace(p, x);
    var q :| InPool(p, q, x);
    assert q != Shared;
  }

  /**
   * With its shared list empty, every slot of a class is used; and all of them are live exactly when no
   * cache and no hand holds one.
   */
  lemma {:induction false} EmptyListMeansAllUsed(p: Pools, c: nat, n: nat)
    requires Sound(p) && Has(p, Shared, c, 0) && p.at[Shared][c] == [] && Uniform(p.registry, c, n)
    ensures |UsedOf(p, c)| == K.ClassSlabs(p.registry, c) * n
    ensures AllLive(p, c) <==> NothingCarried(p, c)
    ensures |K.LiveOf(p, c)| == K.ClassSlabs(p.registry, c) * n <==> AllLive(p, c)
  {
    hide Sound, K.ClassSlots, K.ClassSlabs, Carried, RegistryOk;
    SoundRegistry(p);
    K.ClassSlotsAre(p.registry, c);
    K.ClassSlotsCount(p.registry, c, n);
    forall x | x in K.ClassSlots(p.registry, c) && x !in p.live
      ensures Carried(p, x) && !NothingCarried(p, c)
    {
      NotLiveIsCarried(p, c, x);
    }
    assert UsedOf(p, c) == K.ClassSlots(p.registry, c);
    AllLiveIsEverySlot(p, c);
    if |K.LiveOf(p, c)| == |K.ClassSlots(p.registry, c)| {
      SubsetOfSameSize(K.LiveOf(p, c), K.ClassSlots(p.registry, c));
    }
    forall q | q in p.at && q != Shared && c < |p.at[q]| && p.at[q][c] != []
      ensures !AllLive(p, c)
    {
      CarriedSlotIsNotLive(p, c, q);
    }
  }

  lemma {:induction false} AllLiveIsEverySlot(p: Pools, c: nat)
    requires Sound(p)
    ensures K.LiveOf(p, c) <= K.ClassSlots(p.registry, c)
    ensures AllLive(p, c) <==> K.LiveOf(p, c) == K.ClassSlots(p.registry, c)
  {
    K.ClassSlotsAre(p.registry, c);
    hide K.ClassSlots;
    assert forall x :: x in K.LiveOf(p, c) ==> Registered(p.registry, x);
    if K.LiveOf(p, c) == K.ClassSlots(p.registry, c) {
      assert AllLive(p, c);
    }
  }

  lemma SoundRegistry(p: Pools)
    requires Sound(p)
    ensures RegistryOk(p.registry)
  {
  }

  // ---- What a step does to slabs, program counters and live slots ----

  /** Slabs come from a thread that found nothing under the mutex, and go only in a sweep. */
  ghost predicate RegistryFollows(s: State, e: Event, s': State)
    requires e.t in s.threads
  {
    if e.MapSlab? then
      && s.threads[e.t].pc == NeedSlab(e.slab.cls) && s'.threads == s.threads[e.t := Thread(s.threads[e.t].life, Stocked(e.slab.cls))]
      && s'.pools.registry == [e.slab] + s.pools.registry
    else if e.TrimSweep? then s.threads[e.t].pc.TrimDetach? && s'.pools.registry == Kept(s.pools.registry, e.released)
    else s'.pools.registry == s.pools.registry
  }

  lemma MallocRegistry(s: State, e: Event, s': State)
    requires e.t in s.threads && OfMalloc(e) && MallocStep(s, e, s')
    ensures RegistryFollows(s, e, s')
  {
    hide Obtaining, C.Obtain, Fresh, FreshSlots;
  }

  lemma FreeRegistry(s: State, e: Event, s': State)
    requires e.t in s.threads && OfFree(e) && FreeStep(s, e, s')
    ensures RegistryFollows(s, e, s')
  {
    hide C.Eviction;
  }

  lemma FlushRegistry(s: State, e: Event, s': State)
    requires e.t in s.threads && OfFlush(e) && FlushStep(s, e, s')
    ensures RegistryFollows(s, e, s')
  {
  }

  lemma TrimRegistry(s: State, e: Event, s': State)
    requires e.t in s.threads && !e.Acquire? && !OfMalloc(e) && !OfFree(e) && !OfFlush(e) && TrimStep(s, e, s')
    ensures RegistryFollows(s, e, s')
  {
    hide Wholly, Kept, NoDup;
  }

  lemma RegistryStep(s: State, e: Event, s': State)
    requires Step(s, e, s')
    ensures e.t in s.threads && RegistryFollows(s, e, s')
  {
    hide MallocStep, FreeStep, FlushStep, TrimStep;
    if e.Acquire? {
    } else if OfMalloc(e) {
      MallocRegistry(s, e, s');
    } else if OfFree(e) {
      FreeRegistry(s, e, s');
    } else if OfFlush(e) {
      FlushRegistry(s, e, s');
    } else {
      TrimRegistry(s, e, s');
    }
  }

  /** Blocks of class `c` are in hand, still to be delivered. */
  predicate Pending(pc: Pc, c: nat) {
    pc == Stocked(c) || pc == Got(c)
  }

  /** The shared list of the class was empty, and the thread goes on to map a slab. */
  ghost predicate FindsNothing(s: State, e: Event, c: nat) {
    && e.SecondDetach? && e.t in s.threads && s.threads[e.t].pc == Locked(c)
    && Has(s.pools, Shared, c, 0) && s.pools.at[Shared][c] == []
  }

  /** How the acting thread comes to need a slab, and how it delivers what it has in hand. */
  ghost predicate PcFollows(s: State, e: Event, s': State, c: nat)
    requires e.t in s.threads && e.t in s'.threads
  {
    && (s'.threads[e.t].pc == NeedSlab(c) ==> FindsNothing(s, e, c) && s'.pools == s.pools)
    && (Pending(s.threads[e.t].pc, c) ==> Pending(s'.threads[e.t].pc, c) || (e.Finish? && s.threads[e.t].pc == Got(c)))
  }

  lemma MallocPc(s: State, e: Event, s': State, c: nat)
    requires e.t in s.threads && OfMalloc(e) && MallocStep(s, e, s') && !e.Defensive?
    ensures e.t in s'.threads && PcFollows(s, e, s', c)
  {
    hide Move, Grant, AddSlab, Delivered, Obtaining, C.Obtain, Fresh;
  }

  lemma FreePc(s: State, e: Event, s': State, c: nat)
    requires e.t in s.threads && OfFree(e) && FreeStep(s, e, s')
    ensures e.t in s'.threads && PcFollows(s, e, s', c)
  {
    hide Has, Move, Reclaim, C.Eviction;
  }

  lemma FlushPc(s: State, e: Event, s': State, c: nat)
    requires e.t in s.threads && OfFlush(e) && FlushStep(s, e, s')
    ensures e.t in s'.threads && PcFollows(s, e, s', c)
  {
    hide Has, Move;
  }

  lemma TrimPc(s: State, e: Event, s': State, c: nat)
    requires e.t in s.threads && !e.Acquire? && !OfMalloc(e) && !OfFree(e) && !OfFlush(e) && TrimStep(s, e, s')
    ensures e.t in s'.threads && PcFollows(s, e, s', c)
  {
    hide Has, Move, Sweep, Wholly;
  }

  lemma PcStep(s: State, e: Event, s': State, c: nat)
    requires Inv(s) && Step(s, e, s')
    ensures e.t in s.threads && e.t in s'.threads && PcFollows(s, e, s', c)
  {
    hide Inv, MallocStep, FreeStep, FlushStep, TrimStep;
    if e.Defensive? {
      DefensiveBranchIsDead(s, e.t, s');
      assert false;
    }
    if e.Acquire? {
    } else if OfMalloc(e) {
      MallocPc(s, e, s', c);
    } else if OfFree(e) {
      FreePc(s, e, s', c);
    } else if OfFlush(e) {
      FlushPc(s, e, s', c);
    } else {
      TrimPc(s, e, s', c);
    }
  }

  predicate Frees(e: Event, c: nat) {
    (e.FreeCached? || e.FreeUncached?) && e.x.slab.cls == c
  }

  /** Only a free lowers the number of live blocks of a class; a delivery raises it by one. */
  lemma LiveStep(s: State, e: Event, s': State, c: nat)
    requires Inv(s) && Step(s, e, s')
    ensures !Frees(e, c) ==> |K.LiveOf(s'.pools, c)| >= |K.LiveOf(s.pools, c)|
    ensures e.Finish? && s.threads[e.t].pc == Got(c) ==> |K.LiveOf(s'.pools, c)| == |K.LiveOf(s.pools, c)| + 1
  {
    hide Inv, Step, K.LiveOf;
    R.ActorExists(s, e, s');
    R.CachedRefinesSlotAllocator(s, e, s');
    var act := R.ActionOf(s, e);
    LiveFollowsAction(s.pools, act, s'.pools, c);
    if e.Finish? && s.threads[e.t].pc == Got(c) {
      FinishAllocates(s, e.t, s');
    }
    hide A.ViewOf, A.Permitted;
  }

  lemma FinishAllocates(s: State, t: Tid, s': State)
    requires Step(s, Finish(t), s')
    ensures R.ActionOf(s, Finish(t)).Allocate?
  {
    hide Obtaining, Delivered;
  }

  lemma LiveFollowsAction(p: Pools, act: A.Action, p': Pools, c: nat)
    requires A.Permitted(A.ViewOf(p), act) && A.ViewOf(p') == A.Effect(A.ViewOf(p), act)
    ensures act.Allocate? && act.x.slab.cls == c ==> |K.LiveOf(p', c)| == |K.LiveOf(p, c)| + 1
    ensures !(act.Allocate? && act.x.slab.cls == c) && !(act.Release? && act.x.slab.cls == c)
            ==> |K.LiveOf(p', c)| == |K.LiveOf(p, c)|
  {
    assert p'.live == A.Effect(A.ViewOf(p), act).live;
    if act.Allocate? && act.x.slab.cls == c {
      assert K.LiveOf(p', c) == K.LiveOf(p, c) + {act.x};
    } else if !(act.Release? && act.x.slab.cls == c) {
      assert K.LiveOf(p', c) == K.LiveOf(p, c);
    }
  }

  /** One slab more for a mapping of the class, and otherwise no more than before. */
  lemma {:induction false} SlabsStep(s: State, e: Event, s': State, c: nat)
    requires e.t in s.threads && RegistryFollows(s, e, s')
    ensures if e.MapSlab? && e.slab.cls == c then SlabsOf(s', c) == SlabsOf(s, c) + 1 else SlabsOf(s', c) <= SlabsOf(s, c)
  {
    if e.MapSlab? {
      assert s'.pools.registry[1..] == s.pools.registry;
    } else if e.TrimSweep? {
      K.FilterCount(s.pools.registry, e.released, c);
    }
  }

  lemma UniformStep(s: State, e: Event, s': State, c: nat, n: nat)
    requires e.t in s.threads && RegistryFollows(s, e, s') && Uniform(s.pools.registry, c, n)
    requires e.MapSlab? && e.slab.cls == c ==> e.slab.slots == n
    ensures Uniform(s'.pools.registry, c, n)
  {
  }

  lemma {:induction false} StateAt(states: seq<State>, events: seq<Event>, c: nat, n: nat, k: nat)
    requires Run(states, events, c, n) && k <= |events|
    ensures Inv(states[k]) && Uniform(states[k].pools.registry, c, n)
    decreases k
  {
    hide Inv, Step, Init;
    R.InvAt(states, events, k);
    if k > 0 {
      StateAt(states, events, c, n, k - 1);
      RegistryStep(states[k - 1], events[k - 1], states[k]);
      UniformStep(states[k - 1], events[k - 1], states[k], c, n);
    } else {
      FirstState(states[0], c, n);
    }
  }

  lemma FirstState(s: State, c: nat, n: nat)
    requires Init(s)
    ensures s.pools.registry == [] && Uniform(s.pools.registry, c, n) && forall t :: t in s.threads ==> s.threads[t].pc == Idle
  {
  }

  // ---- The bound of every run ----

  /** All slabs but one are accounted for. */
  ghost predicate AllButOne(slabs: nat, n: nat, blocks: nat) {
    slabs > 0 ==> (slabs - 1) * n <= blocks
  }

  lemma AllButOneOfFewer(before: nat, after: nat, n: nat, blocks: nat, blocks': nat)
    requires AllButOne(before, n, blocks) && after <= before && blocks <= blocks'
    ensures AllButOne(after, n, blocks')
  {
    if after > 0 {
      K.FewerSlabsNeedLess(after, before, n);
    }
  }

  lemma FewerSlabs(a: nat, b: nat, n: nat)
    requires a <= b
    ensures a * n <= b * n
  {
  }

  /** What every state owes to the peak: all slabs but one, and all of them while a slab is being mapped. */
  ghost predicate Owed(s: State, c: nat, n: nat, peak: nat) {
    && AllButOne(SlabsOf(s, c), n, peak)
    && forall t :: t in s.threads && s.threads[t].pc == NeedSlab(c) ==> SlabsOf(s, c) * n <= peak
  }

  /**
   * When the recheck under the mutex leads to a new slab, every slot of the class is live, cached or in
   * hand, and all of them are live exactly when no cache and no hand holds one.
   */
  lemma EmptyRecheckCountsAll(s: State, e: Event, c: nat, n: nat)
    requires Inv(s) && Uniform(s.pools.registry, c, n) && FindsNothing(s, e, c)
    ensures |UsedOf(s.pools, c)| == SlabsOf(s, c) * n
    ensures AllLive(s.pools, c) <==> NothingCarried(s.pools, c)
    ensures |K.LiveOf(s.pools, c)| == SlabsOf(s, c) * n <==> AllLive(s.pools, c)
  {
    hide ThreadOk, Descriptors, Sound, UsedOf, AllLive, NothingCarried, K.LiveOf, Uniform;
    EmptyListMeansAllUsed(s.pools, c, n);
  }

  lemma OwedStep(s: State, e: Event, s': State, c: nat, n: nat, before: nat, peak: nat)
    requires Inv(s) && Step(s, e, s') && Uniform(s.pools.registry, c, n)
    requires Owed(s, c, n, before) && before <= peak && |UsedOf(s'.pools, c)| <= peak
    ensures Owed(s', c, n, peak)
  {
    hide Inv, Step, UsedOf, SlabsOf, AllButOne, Uniform, Kept, AllLive, NothingCarried;
    RegistryStep(s, e, s');
    SlabsStep(s, e, s', c);
    PcStep(s, e, s', c);
    R.OthersKeepPlace(s, e, s');
    if e.MapSlab? && e.slab.cls == c {
      OneMoreIsOwed(SlabsOf(s, c), n, peak);
      NeedSlabIsAlone(s, e, s', c);
    } else {
      AllButOneOfFewer(SlabsOf(s, c), SlabsOf(s', c), n, before, peak);
      FewerSlabs(SlabsOf(s', c), SlabsOf(s, c), n);
      if s'.threads[e.t].pc == NeedSlab(c) {
        EmptyRecheckCountsAll(s, e, c, n);
      }
    }
  }

  lemma OneMoreIsOwed(slabs: nat, n: nat, peak: nat)
    requires slabs * n <= peak
    ensures AllButOne(slabs + 1, n, peak)
  {
  }

  /** Only one thread at a time is under the mutex. */
  lemma NeedSlabIsAlone(s: State, e: Event, s': State, c: nat)
    requires Inv(s) && Step(s, e, s') && e.MapSlab?
    ensures forall t :: t in s'.threads ==> s'.threads[t].pc != NeedSlab(c)
  {
    RegistryStep(s, e, s');
    R.OthersKeepPlace(s, e, s');
    hide Step, CacheOk, HandOk, PcOk, Sound, Descriptors;
    forall t | t in s'.threads
      ensures s'.threads[t].pc != NeedSlab(c)
    {
      assert ThreadOk(s, t) && ThreadOk(s, e.t);
    }
  }

  ghost function UsedCounts(states: seq<State>, c: nat): (r: seq<nat>)
    ensures |r| == |states|
  {
    seq(|states|, k requires 0 <= k < |states| => |UsedOf(states[k].pools, c)|)
  }

  lemma {:induction false} OwedAt(states: seq<State>, events: seq<Event>, c: nat, n: nat, k: nat)
    requires Run(states, events, c, n) && k <= |events|
    ensures Owed(states[k], c, n, Peak(UsedCounts(states, c), k))
    decreases k
  {
    hide Inv, Step, Init, UsedOf, Owed;
    if k == 0 {
      FirstState(states[0], c, n);
      NothingOwed(states[0], c, n, Peak(UsedCounts(states, c), 0));
    } else {
      StateAt(states, events, c, n, k - 1);
      OwedAt(states, events, c, n, k - 1);
      OwedStep(states[k - 1], events[k - 1], states[k], c, n,
               Peak(UsedCounts(states, c), k - 1), Peak(UsedCounts(states, c), k));
    }
  }

  lemma {:induction false} NothingOwed(s: State, c: nat, n: nat, peak: nat)
    requires s.pools.registry == [] && forall t :: t in s.threads ==> s.threads[t].pc == Idle
    ensures Owed(s, c, n, peak)
  {
  }

  /**
   * In every run of the cached variant, the slabs of a class, all but one, hold no more slots than were
   * once live, cached or in hand together.
   */
  lemma {:induction false} CachedSpaceBound(states: seq<State>, events: seq<Event>, c: nat, n: nat, k: nat)
    requires Run(states, events, c, n) && k <= |events| && SlabsOf(states[k], c) > 0
    ensures (SlabsOf(states[k], c) - 1) * n <= Peak(UsedCounts(states, c), k)
  {
    hide Inv, Step, Init, UsedCounts, Peak, SlabsOf;
    OwedAt(states, events, c, n, k);
  }

  // ---- The bound of the locked variant ----

  /**
   * A slab is mapped only when nothing of its class is cached or carried, and no other call frees a block
   * of the class until the first block of the new slab is delivered.
   */
  ghost predicate Undisputed(s: State, e: Event, c: nat) {
    && (FindsNothing(s, e, c) ==> NothingCarried(s.pools, c))
    && (Frees(e, c) ==> forall t :: t in s.threads && t != e.t
                                    ==> s.threads[t].pc != NeedSlab(c) && !Pending(s.threads[t].pc, c))
  }

  /** The peak of live blocks pays for all slabs, or a thread holds the blocks of the last one. */
  ghost predicate PaidOrPending(s: State, c: nat, n: nat, peak: nat) {
    && (K.Paid(SlabsOf(s, c), n, peak)
        || exists t :: t in s.threads && Pending(s.threads[t].pc, c) && AllButOne(SlabsOf(s, c), n, |K.LiveOf(s.pools, c)|))
    && forall t :: t in s.threads && s.threads[t].pc == NeedSlab(c) ==> SlabsOf(s, c) * n <= |K.LiveOf(s.pools, c)|
  }

  lemma PaidByFewer(before: nat, after: nat, n: nat, peak: nat, peak': nat)
    requires K.Paid(before, n, peak) && after <= before && peak <= peak'
    ensures K.Paid(after, n, peak')
  {
    if after > 0 {
      K.FewerSlabsNeedLess(after, before, n);
    }
  }

  /** A delivery pays for the last slab. */
  lemma DeliveryPays(slabs: nat, n: nat, live: nat)
    requires AllButOne(slabs, n, live)
    ensures K.Paid(slabs, n, live + 1)
  {
  }

  lemma FreeFindsNobody(s: State, e: Event, c: nat, s': State)
    requires Step(s, e, s') && Frees(e, c) && Undisputed(s, e, c)
    ensures e.t in s.threads && forall t :: t in s.threads ==> s.threads[t].pc != NeedSlab(c) && !Pending(s.threads[t].pc, c)
  {
  }

  lemma PaidOrPendingStep(s: State, e: Event, s': State, c: nat, n: nat, before: nat, peak: nat)
    requires Inv(s) && Step(s, e, s') && Uniform(s.pools.registry, c, n) && Undisputed(s, e, c)
    requires PaidOrPending(s, c, n, before) && before <= peak && |K.LiveOf(s'.pools, c)| <= peak
    ensures PaidOrPending(s', c, n, peak)
  {
    hide Inv, Step, K.LiveOf, SlabsOf, AllButOne, K.Paid, Uniform, Kept, AllLive, NothingCarried, UsedOf;
    RegistryStep(s, e, s');
    SlabsStep(s, e, s', c);
    PcStep(s, e, s', c);
    LiveStep(s, e, s', c);
    R.OthersKeepPlace(s, e, s');
    if e.MapSlab? && e.slab.cls == c {
      OneMoreIsOwed(SlabsOf(s, c), n, |K.LiveOf(s.pools, c)|);
      NeedSlabIsAlone(s, e, s', c);
      KeepOwed(SlabsOf(s', c), n, |K.LiveOf(s.pools, c)|, |K.LiveOf(s'.pools, c)|);
    } else {
      FewerSlabs(SlabsOf(s', c), SlabsOf(s, c), n);
      if Frees(e, c) {
        FreeFindsNobody(s, e, c, s');
      }
      if s'.threads[e.t].pc == NeedSlab(c) {
        EmptyRecheckCountsAll(s, e, c, n);
      }
      StillPaid(s, e, s', c, n, before, peak);
    }
  }

  lemma KeepOwed(slabs: nat, n: nat, blocks: nat, blocks': nat)
    requires AllButOne(slabs, n, blocks) && blocks <= blocks'
    ensures AllButOne(slabs, n, blocks')
  {
  }

  lemma StillPaid(s: State, e: Event, s': State, c: nat, n: nat, before: nat, peak: nat)
    requires PaidOrPending(s, c, n, before) && before <= peak && |K.LiveOf(s'.pools, c)| <= peak
    requires SlabsOf(s', c) <= SlabsOf(s, c) && e.t in s.threads && s'.threads.Keys == s.threads.Keys
    requires PcFollows(s, e, s', c) && forall u :: u in s.threads && u != e.t ==> s'.threads[u] == s.threads[u]
    requires Frees(e, c) ==> forall t :: t in s.threads ==> !Pending(s.threads[t].pc, c)
    requires !Frees(e, c) ==> |K.LiveOf(s'.pools, c)| >= |K.LiveOf(s.pools, c)|
    requires e.Finish? && s.threads[e.t].pc == Got(c) ==> |K.LiveOf(s'.pools, c)| == |K.LiveOf(s.pools, c)| + 1
    ensures K.Paid(SlabsOf(s', c), n, peak)
            || exists t :: t in s'.threads && Pending(s'.threads[t].pc, c) && AllButOne(SlabsOf(s', c), n, |K.LiveOf(s'.pools, c)|)
  {
    hide K.LiveOf, SlabsOf, AllButOne, K.Paid;
    if K.Paid(SlabsOf(s, c), n, before) {
      PaidByFewer(SlabsOf(s, c), SlabsOf(s', c), n, before, peak);
    } else {
      var t :| t in s.threads && Pending(s.threads[t].pc, c) && AllButOne(SlabsOf(s, c), n, |K.LiveOf(s.pools, c)|);
      if Pending(s'.threads[t].pc, c) {
        AllButOneOfFewer(SlabsOf(s, c), SlabsOf(s', c), n, |K.LiveOf(s.pools, c)|, |K.LiveOf(s'.pools, c)|);
      } else {
        DeliveryPays(SlabsOf(s, c), n, |K.LiveOf(s.pools, c)|);
        PaidByFewer(SlabsOf(s, c), SlabsOf(s', c), n, |K.LiveOf(s'.pools, c)|, peak);
      }
    }
  }

  function PoolsAlong(states: seq<State>): (r: seq<Pools>)
    ensures |r| == |states|
  {
    seq(|states|, k requires 0 <= k < |states| => states[k].pools)
  }

  lemma {:induction false} PaidOrPendingAt(states: seq<State>, events: seq<Event>, c: nat, n: nat, k: nat)
    requires Run(states, events, c, n) && k <= |events|
    requires forall i {:trigger events[i]} :: 0 <= i < k ==> Undisputed(states[i], events[i], c)
    ensures PaidOrPending(states[k], c, n, Peak(K.LiveCounts(PoolsAlong(states), c), k))
    decreases k
  {
    hide Inv, Step, Init, K.LiveOf, PaidOrPending, Undisputed;
    var counts := K.LiveCounts(PoolsAlong(states), c);
    if k == 0 {
      FirstState(states[0], c, n);
      NothingToPay(states[0], c, n, Peak(counts, 0));
    } else {
      StateAt(states, events, c, n, k - 1);
      PaidOrPendingAt(states, events, c, n, k - 1);
      assert Undisputed(states[k - 1], events[k - 1], c);
      assert counts[k] == |K.LiveOf(states[k].pools, c)|;
      PaidOrPendingStep(states[k - 1], events[k - 1], states[k], c, n, Peak(counts, k - 1), Peak(counts, k));
    }
  }

  lemma {:induction false} NothingToPay(s: State, c: nat, n: nat, peak: nat)
    requires s.pools.registry == [] && forall t :: t in s.threads ==> s.threads[t].pc == Idle
    ensures PaidOrPending(s, c, n, peak)
  {
  }

  /**
   * The cached variant meets the bound of the locked one wherever no thread still holds a new slab's
   * blocks, if every slab was mapped undisputed.
   */
  lemma {:induction false} UndisputedSpaceBound(states: seq<State>, events: seq<Event>, c: nat, n: nat, k: nat)
    requires Run(states, events, c, n) && k <= |events| && SlabsOf(states[k], c) > 0
    requires forall i {:trigger events[i]} :: 0 <= i < k ==> Undisputed(states[i], events[i], c)
    requires forall t :: t in states[k].threads ==> !Pending(states[k].threads[t].pc, c)
    ensures SlabsOf(states[k], c) * n <= Peak(K.LiveCounts(PoolsAlong(states), c), k) + n - 1
  {
    hide Inv, Step, Init, K.LiveCounts, Peak, SlabsOf, Undisputed;
    PaidOrPendingAt(states, events, c, n, k);
    K.OneMoreSlab(SlabsOf(states[k], c) - 1, n);
  }

  // ---- What a caller can arrange ----

  predicate MayMap(pc: Pc, c: nat) {
    pc == Locked(c) || pc == NeedSlab(c) || Pending(pc, c)
  }

  /** While one call may map a slab of the class, no other call is in progress and the other caches are flushed. */
  ghost predicate OneAtATime(s: State, e: Event, c: nat) {
    forall t, u :: t in s.threads && u in s.threads && MayMap(s.threads[t].pc, c) && u != t
                   ==> e.t == t && s.threads[u].pc == Idle && Has(s.pools, Cache(u), c, 0) && s.pools.at[Cache(u)][c] == []
  }

  lemma OneAtATimeIsUndisputed(s: State, e: Event, s': State, c: nat)
    requires Inv(s) && Step(s, e, s') && OneAtATime(s, e, c) && c < CLASS_COUNT
    ensures Undisputed(s, e, c)
  {
    hide Step, Inv, ThreadOk, NothingCarried;
    R.ActorExists(s, e, s');
    if FindsNothing(s, e, c) {
      forall u | u in s.threads && u != e.t
        ensures HoldsNothing(s, u, c)
      {
        assert ThreadOk(s, u) by { ThreadOfInv(s, u); }
        IdleHandIsEmpty(s, u, c);
      }
      OnlyOthersCarry(s, e, c);
    }
  }

  lemma ThreadOfInv(s: State, t: Tid)
    requires Inv(s) && t in s.threads
    ensures ThreadOk(s, t)
  {
  }

  ghost predicate HoldsNothing(s: State, u: Tid, c: nat) {
    Has(s.pools, Cache(u), c, 0) && s.pools.at[Cache(u)][c] == [] && Has(s.pools, Hand(u), c, 0) && s.pools.at[Hand(u)][c] == []
  }

  lemma IdleHandIsEmpty(s: State, u: Tid, c: nat)
    requires ThreadOk(s, u) && s.threads[u].pc == Idle && c < CLASS_COUNT
    ensures Has(s.pools, Hand(u), c, 0) && s.pools.at[Hand(u)][c] == []
  {
    hide CacheOk, PcOk;
  }

  /** A thread at its recheck has nothing of the class itself. */
  lemma RecheckerHoldsNothing(s: State, t: Tid, c: nat)
    requires ThreadOk(s, t) && s.threads[t].pc == Locked(c) && c < CLASS_COUNT
    ensures HoldsNothing(s, t, c)
  {
    hide C.WithinCaps, C.JustStored;
  }

  lemma OnlyOthersCarry(s: State, e: Event, c: nat)
    requires Inv(s) && FindsNothing(s, e, c) && c < CLASS_COUNT
    ensures NothingCarried(s.pools, c) <==> forall u :: u in s.threads && u != e.t ==> HoldsNothing(s, u, c)
  {
    hide ThreadOk, Sound, Descriptors;
    RecheckerHoldsNothing(s, e.t, c);
    forall u | u in s.threads
      ensures Has(s.pools, Cache(u), c, 0) && Has(s.pools, Hand(u), c, 0)
    {
      PoolsOfThread(s, u);
    }
  }

  lemma PoolsOfThread(s: State, u: Tid)
    requires ThreadOk(s, u)
    ensures Cache(u) in s.pools.at && |s.pools.at[Cache(u)]| == CLASS_COUNT
    ensures Hand(u) in s.pools.at && |s.pools.at[Hand(u)]| == CLASS_COUNT
  {
  }

  /**
   * Exactly when the new slab is one that the locked variant could have made: when the recheck finds
   * nothing, the slabs with the new one are within the bound for the live blocks with the new one if and
   * only if no other thread caches or carries a block of the class.
   */
  lemma {:induction false} NewSlabIsWithinBoundIff(states: seq<State>, events: seq<Event>, c: nat, n: nat, k: nat)
    requires Run(states, events, c, n) && k < |events| && FindsNothing(states[k], events[k], c)
    ensures var s := states[k];
            (SlabsOf(s, c) + 1) * n <= (|K.LiveOf(s.pools, c)| + 1) + n - 1
            <==> forall u :: u in s.threads && u != events[k].t ==> HoldsNothing(s, u, c)
  {
    hide Inv, Step, Init, K.LiveOf, SlabsOf, HoldsNothing, NothingCarried, AllLive, UsedOf;
    var s := states[k];
    StateAt(states, events, c, n, k);
    EmptyRecheckCountsAll(s, events[k], c, n);
    OnlyOthersCarry(s, events[k], c);
    LiveIsUsed(s, c);
    K.OneMoreSlab(SlabsOf(s, c), n);
  }

  lemma {:induction false} LiveIsUsed(s: State, c: nat)
    requires Inv(s)
    ensures |K.LiveOf(s.pools, c)| <= |UsedOf(s.pools, c)|
  {
    hide ThreadOk, Descriptors, Sound, K.ClassSlots, Carried;
    AllLiveIsEverySlot(s.pools, c);
    SmallerSet(K.LiveOf(s.pools, c), UsedOf(s.pools, c));
  }

  /** One call at a time, with the other caches flushed, keeps the cached variant within the bound of the locked one. */
  lemma {:induction false} SerialSpaceBound(states: seq<State>, events: seq<Event>, c: nat, n: nat, k: nat)
    requires Run(states, events, c, n) && k <= |events| && SlabsOf(states[k], c) > 0 && R.AllIdle(states[k])
    requires forall i {:trigger events[i]} :: 0 <= i < k ==> OneAtATime(states[i], events[i], c)
    ensures SlabsOf(states[k], c) * n <= Peak(K.LiveCounts(PoolsAlong(states), c), k) + n - 1
  {
    hide Inv, Step, Init, K.LiveCounts, Peak, SlabsOf, Undisputed, OneAtATime;
    forall i {:trigger events[i]} | 0 <= i < k
      ensures Undisputed(states[i], events[i], c)
    {
      StateAt(states, events, c, n, i);
      OneAtATimeIsUndisputed(states[i], events[i], states[i + 1], c);
    }
    UndisputedSpaceBound(states, events, c, n, k);
  }
}
