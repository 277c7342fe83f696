/** The invariant of the cached allocator, and its preservation by every step of every thread. */
module CachedInvariant {
  import opened Sequences
  import opened SizeClasses
  import opened SlotPools
  import opened CachedAllocator
  import C = CacheSpec

  /** Between lock and unlock of the registry mutex. */
  predicate HoldsLock(pc: Pc) {
    pc.Locked? || pc.NeedSlab? || pc.Stocked? || pc.TrimDetach? || pc.TrimPublish?
  }

  predicate InMalloc(pc: Pc) {
    pc.Miss? || pc.WantLock? || pc.Locked? || pc.NeedSlab? || pc.Stocked? || pc.Got?
  }

  /** The classes whose transfer list the thread may be carrying. */
  predicate MayCarry(pc: Pc, c: nat) {
    match pc
    case Stocked(d) => c == d
    case Got(d) => c == d
    case FreePublish(d) => c == d
    case EvictPublish(_, d) => c == d
    case FlushPublish(d, _) => c == d
    case TrimDetach(i) => c < i
    case TrimPublish(i) => c >= i
    case _ => false
  }

  ghost predicate HandOk(pc: Pc, hand: seq<seq<Slot>>) {
    && |hand| == CLASS_COUNT
    && (forall c :: 0 <= c < CLASS_COUNT && hand[c] != [] ==> MayCarry(pc, c))
    && (pc.Stocked? || pc.Got? ==> pc.c < CLASS_COUNT && hand[pc.c] != [])
  }

  /** The descriptor a thread's cache lives in, while it has one. */
  function Descriptor(th: Thread): Option<nat> {
    match th.pc
    case Flush(_, Some(d)) => Some(d)
    case FlushPublish(_, Some(d)) => Some(d)
    case _ => if th.life.Active? then Some(th.life.d) else None
  }

  ghost predicate PcOk(life: Life, pc: Pc) {
    && (InMalloc(pc) ==> pc.c < CLASS_COUNT && !life.Uninitialized?)
    && (pc.Evict? || pc.EvictPublish? ==> pc.c < CLASS_COUNT && life.Active?)
    && (pc.EvictPublish? ==> pc.e < CLASS_COUNT)
    && (pc.FreePublish? ==> pc.c < CLASS_COUNT && life.Uncached?)
    && (pc.Flush? ==> pc.i <= CLASS_COUNT && (if pc.dying.Some? then life.Uncached? else life.Active?))
    && (pc.FlushPublish? ==> pc.i < CLASS_COUNT && (if pc.dying.Some? then life.Uncached? else life.Active?))
    && (pc.TrimDetach? || pc.TrimPublish? ==> pc.i <= CLASS_COUNT)
  }

  /** Below which class a flush has already emptied the cache. */
  function Flushed(pc: Pc): nat {
    match pc
    case Flush(i, _) => i
    case FlushPublish(i, _) => i + 1
    case _ => 0
  }

  ghost predicate CacheOk(th: Thread, cache: seq<seq<Slot>>) {
    && |cache| == CLASS_COUNT
    && (if th.pc.Evict? then C.WithinCaps(cache) || C.JustStored(cache, th.pc.c) else C.WithinCaps(cache))
    && (InMalloc(th.pc) && th.pc.c < CLASS_COUNT ==> cache[th.pc.c] == [])
    && (Descriptor(th).None? ==> forall c :: 0 <= c < CLASS_COUNT ==> cache[c] == [])
    && (forall c :: 0 <= c < CLASS_COUNT && c < Flushed(th.pc) ==> cache[c] == [])
  }

  ghost predicate ThreadOk(s: State, t: Tid) {
    && t in s.threads && Cache(t) in s.pools.at && Hand(t) in s.pools.at
    && PcOk(s.threads[t].life, s.threads[t].pc)
    && HandOk(s.threads[t].pc, s.pools.at[Hand(t)])
    && CacheOk(s.threads[t], s.pools.at[Cache(t)])
    && (HoldsLock(s.threads[t].pc) <==> s.lock == Some(t))
  }

  /** Every mapped descriptor belongs to exactly one thread, unless its unmap failed. */
  ghost predicate Descriptors(s: State) {
    && s.leaked <= s.mapped
    && (forall t :: t in s.threads && Descriptor(s.threads[t]).Some?
                    ==> Descriptor(s.threads[t]).value in s.mapped && Descriptor(s.threads[t]).value !in s.leaked)
    && (forall t, u :: t in s.threads && u in s.threads && t != u && Descriptor(s.threads[t]).Some?
                       ==> Descriptor(s.threads[t]) != Descriptor(s.threads[u]))
    && (forall d :: d in s.mapped && d !in s.leaked
                    ==> exists t :: t in s.threads && Descriptor(s.threads[t]) == Some(d))
  }

  ghost predicate Inv(s: State) {
    && Sound(s.pools)
    && Shared in s.pools.at
    && (forall q :: q in s.pools.at && q != Shared ==> q.t in s.threads)
    && (forall t :: t in s.threads ==> ThreadOk(s, t))
    && Descriptors(s)
  }

  lemma InitInv(s: State)
    requires Init(s)
    ensures Inv(s)
  {
    hide ThreadOk, Sound;
    InitSound(s);
    forall t | t in s.threads
      ensures ThreadOk(s, t)
    {
      InitThread(s, t);
    }
  }

  lemma InitSound(s: State)
    requires Init(s)
    ensures Sound(s.pools)
  {
    assert Placed(s.pools, map[]);
  }

  lemma InitThread(s: State, t: Tid)
    requires Init(s) && t in s.threads
    ensures ThreadOk(s, t)
  {
    var none: seq<seq<Slot>> := seq(CLASS_COUNT, _ => []);
    C.EmptyBelow(none, CLASS_COUNT);
    hide C.BytesBelow;
    assert s.pools.at[Cache(t)] == none && s.pools.at[Hand(t)] == none;
  }

  // ---- Pools ----

  lemma AllPoolsHaveEveryClass(p: Pools, q: Place)
    requires Sound(p) && q in p.at
    ensures |p.at[q]| == CLASS_COUNT
  {
  }

  /** What refill, take and publish do to pool `t`: the block goes out, `kept` into the cache, the rest on. */
  ghost predicate Divides(p: Pools, t: Tid, c: nat, o: C.Obtained<Slot>) {
    && Has(p, Cache(t), c, 0) && Has(p, Hand(t), c, 0) && Has(p, Shared, c, 0) && o.block.Some?
    && p.at[Cache(t)][c] == []
    && |o.lists| == |p.at[Cache(t)]| && o.lists == p.at[Cache(t)][c := o.lists[c]]
    && [o.block.value] + o.lists[c] + o.rest == p.at[Hand(t)][c]
  }

  function Granted(p: Pools, t: Tid, c: nat, o: C.Obtained<Slot>): (r: Pools)
    requires Divides(p, t, c, o)
    ensures Has(r, Cache(t), c, 0) && Has(r, Hand(t), c, |o.lists[c]|) && Has(r, Shared, c, 0)
    ensures r.at == Put(p.at, Hand(t), c, o.lists[c] + o.rest)
    ensures r.live == p.live + {o.block.value} && r.registry == p.registry
  {
    assert p.at[Hand(t)][c][1..] == o.lists[c] + o.rest;
    Grant(p, Hand(t), c)
  }

  function Stored(p: Pools, t: Tid, c: nat, o: C.Obtained<Slot>): (r: Pools)
    requires Divides(p, t, c, o)
    ensures Has(r, Hand(t), c, |o.rest|) && Has(r, Shared, c, 0)
    ensures r.at == Put(p.at[Cache(t) := o.lists], Hand(t), c, o.rest)
    ensures r.live == p.live + {o.block.value} && r.registry == p.registry
  {
    assert (o.lists[c] + o.rest)[..|o.lists[c]|] + [] == o.lists[c];
    assert (o.lists[c] + o.rest)[|o.lists[c]|..] == o.rest;
    assert p.at[Hand(t)][c := o.lists[c] + o.rest][c := o.rest] == p.at[Hand(t)][c := o.rest];
    Move(Granted(p, t, c, o), Hand(t), Cache(t), c, |o.lists[c]|)
  }

  lemma DeliveredSound(p: Pools, t: Tid, c: nat, o: C.Obtained<Slot>)
    requires Divides(p, t, c, o) && Sound(p)
    ensures Sound(Delivered(p, t, c, o))
  {
    hide Sound;
    GrantKeepsSound(p, Hand(t), c);
    MoveKeepsSound(Granted(p, t, c, o), Hand(t), Cache(t), c, |o.lists[c]|);
    MoveKeepsSound(Stored(p, t, c, o), Hand(t), Shared, c, |o.rest|);
    assert o.rest[|o.rest|..] == [] && o.rest[..|o.rest|] == o.rest;
    assert p.at[Hand(t)][c := o.rest][c := []] == p.at[Hand(t)][c := []];
    assert Move(Stored(p, t, c, o), Hand(t), Shared, c, |o.rest|) == Delivered(p, t, c, o);
  }

  lemma ObtainedAtGot(s: State, t: Tid)
    requires Inv(s) && t in s.threads && s.threads[t].pc.Got?
    ensures var c := s.threads[t].pc.c;
            && Has(s.pools, Cache(t), c, 0) && Has(s.pools, Hand(t), c, 0)
            && var o := Obtaining(s, t, c);
               && Divides(s.pools, t, c, o)
               && (!s.threads[t].life.Active? ==> o.lists == s.pools.at[Cache(t)])
               && C.WithinCaps(o.lists)
  {
    assert ThreadOk(s, t);
    var c := s.threads[t].pc.c;
    C.ObtainConserves(s.threads[t].life.Active?, s.pools.at[Cache(t)], c, s.pools.at[Hand(t)][c]);
  }

  lemma MallocPools(s: State, e: Event, s': State)
    requires Sound(s.pools) && e.t in s.threads && MallocStep(s, e, s') && !e.Finish?
    ensures Sound(s'.pools) && s'.pools.at.Keys == s.pools.at.Keys
  {
    hide Sound, Obtaining, C.Eviction, C.WithinCaps, Delivered;
    var t, p := e.t, s.pools;
    var pc := s.threads[t].pc;
    match e
    case MallocHit(_, c) => GrantKeepsSound(p, Cache(t), c);
    case FirstDetach(_) => MoveKeepsSound(p, Shared, Hand(t), pc.c, |p.at[Shared][pc.c]|);
    case SecondDetach(_) => MoveKeepsSound(p, Shared, Hand(t), pc.c, |p.at[Shared][pc.c]|);
    case MapSlab(_, slab) => AddSlabKeepsSound(p, slab, Hand(t));
    case Defensive(_) => MoveKeepsSound(p, Hand(t), Shared, pc.c, |p.at[Hand(t)][pc.c]|);
    case _ =>
  }

  lemma FinishPools(s: State, t: Tid, s': State)
    requires Inv(s) && t in s.threads && MallocStep(s, Finish(t), s')
    ensures Sound(s'.pools) && s'.pools.at.Keys == s.pools.at.Keys
  {
    assert Sound(s.pools);
    ObtainedAtGot(s, t);
    hide Inv, Divides, Obtaining, Delivered, Sound;
    var c := s.threads[t].pc.c;
    DeliveredSound(s.pools, t, c, Obtaining(s, t, c));
    DeliveredPlaces(s.pools, t, c, Obtaining(s, t, c));
  }

  lemma DeliveredPlaces(p: Pools, t: Tid, c: nat, o: C.Obtained<Slot>)
    requires Has(p, Cache(t), c, 0) && Has(p, Hand(t), c, 0) && Has(p, Shared, c, 0) && o.block.Some?
    ensures Delivered(p, t, c, o).at.Keys == p.at.Keys
  {
  }

  lemma FreePools(s: State, e: Event, s': State)
    requires Sound(s.pools) && e.t in s.threads && FreeStep(s, e, s')
    ensures Sound(s'.pools) && s'.pools.at.Keys == s.pools.at.Keys
  {
    hide Sound, Obtaining, C.Eviction, C.WithinCaps, Delivered;
    var t, p := e.t, s.pools;
    var pc := s.threads[t].pc;
    match e
    case FreeCached(_, x) => ReclaimKeepsSound(p, x, Cache(t));
    case FreeUncached(_, x) => ReclaimKeepsSound(p, x, Hand(t));
    case PublishFree(_) => MoveKeepsSound(p, Hand(t), Shared, pc.c, |p.at[Hand(t)][pc.c]|);
    case ExtractEviction(_) =>
      var (i, k) := C.Eviction(p.at[Cache(t)], pc.c).value;
      MoveKeepsSound(p, Cache(t), Hand(t), i, k);
    case PublishEviction(_) => MoveKeepsSound(p, Hand(t), Shared, pc.e, |p.at[Hand(t)][pc.e]|);
    case _ =>
  }

  lemma FlushPools(s: State, e: Event, s': State)
    requires Sound(s.pools) && e.t in s.threads && FlushStep(s, e, s')
    ensures Sound(s'.pools) && s'.pools.at.Keys == s.pools.at.Keys
  {
    hide Sound, Obtaining, C.Eviction, C.WithinCaps, Delivered;
    var t, p := e.t, s.pools;
    var pc := s.threads[t].pc;
    match e
    case FlushTake(_) => MoveKeepsSound(p, Cache(t), Hand(t), pc.i, |p.at[Cache(t)][pc.i]|);
    case PublishFlush(_) => MoveKeepsSound(p, Hand(t), Shared, pc.i, |p.at[Hand(t)][pc.i]|);
    case _ =>
  }

  lemma TrimPools(s: State, e: Event, s': State)
    requires Inv(s) && e.t in s.threads && TrimStep(s, e, s')
    ensures Sound(s'.pools) && s'.pools.at.Keys == s.pools.at.Keys
  {
    var t, p := e.t, s.pools;
    var pc := s.threads[t].pc;
    if e.TrimSweep? {
      SweepKeepsSound(p, Hand(t), e.released, s'.pools);
      assert Sweep(p, Hand(t), e.released, s'.pools);
    }
    hide ThreadOk, Descriptors, Sound;
    match e
    case TrimTake(_) => MoveKeepsSound(p, Shared, Hand(t), pc.i, |p.at[Shared][pc.i]|);
    case TrimPut(_) => MoveKeepsSound(p, Hand(t), Shared, pc.i, |p.at[Hand(t)][pc.i]|);
    case _ =>
  }

  lemma AcquirePools(s: State, e: Event, s': State)
    requires Step(s, e, s') && e.Acquire?
    ensures s'.pools == s.pools
  {
  }

  /** Every step of every thread keeps each registered slot in exactly one place. */
  lemma PoolsStep(s: State, e: Event, s': State)
    requires Inv(s) && Step(s, e, s')
    ensures Sound(s'.pools) && s'.pools.at.Keys == s.pools.at.Keys
  {
    assert Sound(s.pools);
    hide Inv, Sound, AcquireStep, MallocStep, FreeStep, FlushStep, TrimStep;
    if e.Acquire? {
      AcquirePools(s, e, s');
    } else if e.Finish? {
      FinishPools(s, e.t, s');
    } else if OfMalloc(e) {
      MallocPools(s, e, s');
    } else if OfFree(e) {
      FreePools(s, e, s');
    } else if OfFlush(e) {
      FlushPools(s, e, s');
    } else {
      TrimPools(s, e, s');
    }
  }

  // ---- The other threads ----

  /** A step of `t` touches no other thread's cache, hand or program counter, and only its own lock. */
  ghost predicate Undisturbed(s: State, s': State, t: Tid) {
    && s'.threads.Keys == s.threads.Keys
    && (forall u :: u in s.threads && u != t ==> s'.threads[u] == s.threads[u])
    && (forall q :: q in s.pools.at && q != Shared && q.t != t ==> q in s'.pools.at && s'.pools.at[q] == s.pools.at[q])
    && (s'.lock == s.lock || (s.lock == None && s'.lock == Some(t)) || (s.lock == Some(t) && s'.lock == None))
  }

  lemma MallocUndisturbed(s: State, e: Event, s': State)
    requires e.t in s.threads && ThreadOk(s, e.t) && MallocStep(s, e, s')
    ensures Undisturbed(s, s', e.t)
  {
    hide C.Obtain, CacheOk;
  }

  lemma FreeUndisturbed(s: State, e: Event, s': State)
    requires e.t in s.threads && ThreadOk(s, e.t) && FreeStep(s, e, s')
    ensures Undisturbed(s, s', e.t)
  {
    hide C.Eviction, CacheOk;
  }

  lemma FlushUndisturbed(s: State, e: Event, s': State)
    requires e.t in s.threads && ThreadOk(s, e.t) && FlushStep(s, e, s')
    ensures Undisturbed(s, s', e.t)
  {
    hide CacheOk;
  }

  lemma TrimUndisturbed(s: State, e: Event, s': State)
    requires e.t in s.threads && ThreadOk(s, e.t) && TrimStep(s, e, s')
    ensures Undisturbed(s, s', e.t)
  {
    hide CacheOk, Wholly, Kept;
  }

  lemma StepUndisturbed(s: State, e: Event, s': State)
    requires e.t in s.threads && ThreadOk(s, e.t) && Step(s, e, s')
    ensures Undisturbed(s, s', e.t)
  {
    hide ThreadOk, MallocStep, FreeStep, FlushStep, TrimStep;
    if e.Acquire? {
    } else if OfMalloc(e) {
      MallocUndisturbed(s, e, s');
    } else if OfFree(e) {
      FreeUndisturbed(s, e, s');
    } else if OfFlush(e) {
      FlushUndisturbed(s, e, s');
    } else {
      TrimUndisturbed(s, e, s');
    }
  }

  lemma OthersOk(s: State, s': State, t: Tid, u: Tid)
    requires Undisturbed(s, s', t) && u != t && ThreadOk(s, u)
    ensures ThreadOk(s', u)
  {
    hide PcOk, HandOk, CacheOk;
  }

  // ---- The acting thread ----

  lemma AcquireActor(s: State, t: Tid, setup: Setup, s': State)
    requires t in s.threads && ThreadOk(s, t) && AcquireStep(s, t, setup, s')
    ensures ThreadOk(s', t)
  {
  }

  lemma HitActor(s: State, t: Tid, c: nat, s': State)
    requires t in s.threads && ThreadOk(s, t) && MallocStep(s, MallocHit(t, c), s')
    ensures ThreadOk(s', t)
  {
    C.DropKeepsCaps(s.pools.at[Cache(t)], c, 1);
    hide C.WithinCaps;
  }

  /** The steps that put blocks into the caller's hand. */
  lemma StockingActor(s: State, e: Event, s': State)
    requires e.t in s.threads && ThreadOk(s, e.t) && MallocStep(s, e, s')
    requires e.FirstDetach? || e.SecondDetach? || e.MapSlab?
    ensures ThreadOk(s', e.t)
  {
    hide C.WithinCaps, C.JustStored, C.Obtain, Obtaining, Delivered, Grant;
  }

  lemma MallocActor(s: State, e: Event, s': State)
    requires e.t in s.threads && ThreadOk(s, e.t) && MallocStep(s, e, s')
    requires e.MallocMiss? || e.LockRegistry? || e.MapSlabFails? || e.UnlockRegistry?
    ensures ThreadOk(s', e.t)
  {
    hide C.WithinCaps, C.JustStored, C.Obtain, Obtaining, Delivered, Grant, AddSlab, Move, Has;
  }

  lemma FinishActor(s: State, t: Tid, o: C.Obtained<Slot>, s': State)
    requires t in s.threads && s.threads[t].pc.Got? && Divides(s.pools, t, s.threads[t].pc.c, o)
    requires s' == SetPc(s, t, Idle).(pools := Delivered(s.pools, t, s.threads[t].pc.c, o))
    requires !s.threads[t].life.Active? ==> o.lists == s.pools.at[Cache(t)]
    requires C.WithinCaps(o.lists) && ThreadOk(s, t)
    ensures ThreadOk(s', t)
  {
    hide C.WithinCaps;
    assert s'.pools.at[Cache(t)] == o.lists;
    assert s'.pools.at[Hand(t)] == s.pools.at[Hand(t)][s.threads[t].pc.c := []];
  }

  lemma GotActor(s: State, t: Tid, s': State)
    requires Inv(s) && t in s.threads && MallocStep(s, Finish(t), s')
    ensures ThreadOk(s', t)
  {
    assert ThreadOk(s, t);
    ObtainedAtGot(s, t);
    hide ThreadOk, Obtaining, Divides, Delivered, Inv;
    FinishActor(s, t, Obtaining(s, t, s.threads[t].pc.c), s');
  }

  lemma StoreActor(s: State, t: Tid, x: Slot, s': State)
    requires t in s.threads && ThreadOk(s, t) && FreeStep(s, FreeCached(t, x), s') && x.slab.cls < CLASS_COUNT
    ensures ThreadOk(s', t)
  {
    var c := x.slab.cls;
    var cache := s.pools.at[Cache(t)];
    var cache' := s'.pools.at[Cache(t)];
    assert cache' == cache[c := [x] + cache[c]];
    assert ([x] + cache[c])[1..] == cache[c];
    assert C.Drop(cache', c, 1) == cache;
    assert C.JustStored(cache', c);
    hide C.WithinCaps, C.JustStored;
  }

  lemma EvictActor(s: State, t: Tid, s': State)
    requires t in s.threads && ThreadOk(s, t) && FreeStep(s, ExtractEviction(t), s')
    ensures ThreadOk(s', t)
  {
    var cache := s.pools.at[Cache(t)];
    var c := s.threads[t].pc.c;
    var (i, k) := C.Eviction(cache, c).value;
    if C.WithinCaps(cache) {
      C.NoEvictionMeansWithinCaps(cache, c);
      assert false;
    } else {
      C.OneEvictionSuffices(cache, c);
    }
    assert C.WithinCaps(C.Drop(cache, i, k));
    assert s'.pools.at[Cache(t)] == C.Drop(cache, i, k);
    hide C.WithinCaps, C.JustStored, C.Eviction;
  }

  lemma FreeActor(s: State, e: Event, s': State)
    requires e.t in s.threads && ThreadOk(s, e.t) && FreeStep(s, e, s')
    requires !e.FreeCached? && !e.ExtractEviction?
    requires e.FreeUncached? ==> e.x.slab.cls < CLASS_COUNT
    ensures ThreadOk(s', e.t)
  {
    if e.EndFree? {
      var cache := s.pools.at[Cache(e.t)];
      if !C.WithinCaps(cache) {
        C.OneEvictionSuffices(cache, s.threads[e.t].pc.c);
      }
    }
    hide C.WithinCaps, C.JustStored, C.Eviction;
  }

  lemma FlushTakeActor(s: State, t: Tid, s': State)
    requires t in s.threads && ThreadOk(s, t) && FlushStep(s, FlushTake(t), s')
    ensures ThreadOk(s', t)
  {
    var cache := s.pools.at[Cache(t)];
    var i := s.threads[t].pc.i;
    C.DropKeepsCaps(cache, i, |cache[i]|);
    hide C.WithinCaps;
  }

  lemma FlushActor(s: State, e: Event, s': State)
    requires e.t in s.threads && ThreadOk(s, e.t) && FlushStep(s, e, s') && !e.FlushTake?
    ensures ThreadOk(s', e.t)
  {
    hide C.WithinCaps, C.JustStored;
  }

  lemma TrimActor(s: State, e: Event, s': State)
    requires e.t in s.threads && ThreadOk(s, e.t) && TrimStep(s, e, s')
    ensures ThreadOk(s', e.t)
  {
    hide C.WithinCaps, C.JustStored, Wholly, Kept;
  }

  lemma SomethingIsObtained(s: State, t: Tid)
    requires Inv(s) && t in s.threads && s.threads[t].pc.Got?
    requires Has(s.pools, Cache(t), s.threads[t].pc.c, 0) && Has(s.pools, Hand(t), s.threads[t].pc.c, 0)
    ensures Obtaining(s, t, s.threads[t].pc.c).block.Some?
  {
    hide Inv, Obtaining;
    ObtainedAtGot(s, t);
  }

  /** With something in hand and the class empty a block is always obtained: this branch is dead. */
  lemma DefensiveBranchIsDead(s: State, t: Tid, s': State)
    requires Inv(s)
    ensures !Step(s, Defensive(t), s')
  {
    hide Inv, Obtaining, Divides, Move;
    if Step(s, Defensive(t), s') {
      ObtainedAtGot(s, t);
      SomethingIsObtained(s, t);
      assert false;
    }
  }

  lemma FreedSlotHasClass(s: State, x: Slot)
    requires Sound(s.pools) && x in s.pools.live
    ensures x.slab.cls < CLASS_COUNT
  {
  }

  lemma ActorOk(s: State, e: Event, s': State)
    requires Inv(s) && Step(s, e, s')
    ensures ThreadOk(s', e.t)
  {
    var t := e.t;
    assert ThreadOk(s, t);
    if e.FreeCached? || e.FreeUncached? {
      assert e.x in s.pools.live;
      FreedSlotHasClass(s, e.x);
    }
    if e.Defensive? {
      DefensiveBranchIsDead(s, t, s');
    }
    hide Inv, ThreadOk, AcquireStep, MallocStep, FreeStep, FlushStep, TrimStep;
    if e.Acquire? {
      AcquireActor(s, t, e.setup, s');
    } else if e.Finish? {
      GotActor(s, t, s');
    } else if e.MallocHit? {
      HitActor(s, t, e.c, s');
    } else if e.FirstDetach? || e.SecondDetach? || e.MapSlab? {
      StockingActor(s, e, s');
    } else if OfMalloc(e) {
      MallocActor(s, e, s');
    } else if e.FreeCached? {
      StoreActor(s, t, e.x, s');
    } else if e.ExtractEviction? {
      EvictActor(s, t, s');
    } else if OfFree(e) {
      FreeActor(s, e, s');
    } else if e.FlushTake? {
      FlushTakeActor(s, t, s');
    } else if OfFlush(e) {
      FlushActor(s, e, s');
    } else {
      TrimActor(s, e, s');
    }
  }

  // ---- Descriptors ----

  lemma SameDescriptors(s: State, e: Event, s': State)
    requires Descriptors(s) && e.t in s.threads
    requires e.t in s'.threads && s'.threads == s.threads[e.t := s'.threads[e.t]]
    requires Descriptor(s'.threads[e.t]) == Descriptor(s.threads[e.t])
    requires s'.mapped == s.mapped && s'.leaked == s.leaked
    ensures Descriptors(s')
  {
    hide Descriptor;
    assert forall u :: u in s.threads ==> Descriptor(s'.threads[u]) == Descriptor(s.threads[u]);
    forall d | d in s'.mapped && d !in s'.leaked
      ensures exists u :: u in s'.threads && Descriptor(s'.threads[u]) == Some(d)
    {
      var u :| u in s.threads && Descriptor(s.threads[u]) == Some(d);
      assert u in s'.threads && Descriptor(s'.threads[u]) == Some(d);
    }
  }

  ghost predicate KeepsDescriptor(s: State, t: Tid, s': State) {
    && t in s.threads && t in s'.threads && s'.threads == s.threads[t := s'.threads[t]]
    && Descriptor(s'.threads[t]) == Descriptor(s.threads[t])
    && s'.mapped == s.mapped && s'.leaked == s.leaked
  }

  lemma MallocKeepsDescriptor(s: State, e: Event, s': State)
    requires e.t in s.threads && MallocStep(s, e, s')
    ensures KeepsDescriptor(s, e.t, s')
  {
    hide Has, Move, Grant, AddSlab, Delivered, Obtaining, C.Obtain, Fresh;
  }

  lemma FreeKeepsDescriptor(s: State, e: Event, s': State)
    requires e.t in s.threads && FreeStep(s, e, s') && PcOk(s.threads[e.t].life, s.threads[e.t].pc)
    ensures KeepsDescriptor(s, e.t, s')
  {
    hide Has, Move, Reclaim, C.Eviction;
  }

  lemma FlushKeepsDescriptor(s: State, e: Event, s': State)
    requires e.t in s.threads && FlushStep(s, e, s') && PcOk(s.threads[e.t].life, s.threads[e.t].pc)
    requires !(e.EndFlush? && s.threads[e.t].pc.dying.Some?)
    ensures KeepsDescriptor(s, e.t, s')
  {
    hide Has, Move;
  }

  lemma TrimKeepsDescriptor(s: State, e: Event, s': State)
    requires e.t in s.threads && TrimStep(s, e, s')
    ensures KeepsDescriptor(s, e.t, s')
  {
    hide Has, Move, Sweep, Wholly;
  }

  /** Only setup and the end of an exit flush change which descriptors threads have. */
  lemma DescriptorUnchanged(s: State, e: Event, s': State)
    requires e.t in s.threads && PcOk(s.threads[e.t].life, s.threads[e.t].pc) && Step(s, e, s')
    requires !e.Acquire? && !(e.EndFlush? && s.threads[e.t].pc.dying.Some?)
    ensures KeepsDescriptor(s, e.t, s')
  {
    hide MallocStep, FreeStep, FlushStep, TrimStep, KeepsDescriptor, PcOk;
    if OfMalloc(e) {
      MallocKeepsDescriptor(s, e, s');
    } else if OfFree(e) {
      FreeKeepsDescriptor(s, e, s');
    } else if OfFlush(e) {
      FlushKeepsDescriptor(s, e, s');
    } else {
      TrimKeepsDescriptor(s, e, s');
    }
  }

  lemma AcquireDescriptors(s: State, t: Tid, setup: Setup, s': State)
    requires Descriptors(s) && t in s.threads && AcquireStep(s, t, setup, s')
    ensures Descriptors(s')
  {
    forall d | d in s'.mapped && d !in s'.leaked
      ensures exists u :: u in s'.threads && Descriptor(s'.threads[u]) == Some(d)
    {
      if d in s.mapped {
        var u :| u in s.threads && Descriptor(s.threads[u]) == Some(d);
        assert u in s'.threads && Descriptor(s'.threads[u]) == Some(d);
      } else {
        assert t in s'.threads && Descriptor(s'.threads[t]) == Some(d);
      }
    }
  }

  lemma UnmapDescriptors(s: State, t: Tid, unmapped: bool, s': State)
    requires Descriptors(s) && t in s.threads && FlushStep(s, EndFlush(t, unmapped), s')
    requires s.threads[t].pc.dying.Some? && PcOk(s.threads[t].life, s.threads[t].pc)
    ensures Descriptors(s')
  {
    forall d | d in s'.mapped && d !in s'.leaked
      ensures exists u :: u in s'.threads && Descriptor(s'.threads[u]) == Some(d)
    {
      var u :| u in s.threads && Descriptor(s.threads[u]) == Some(d);
      assert u != t;
      assert u in s'.threads && Descriptor(s'.threads[u]) == Some(d);
    }
  }

  lemma DescriptorsStep(s: State, e: Event, s': State)
    requires Descriptors(s) && Step(s, e, s') && PcOk(s.threads[e.t].life, s.threads[e.t].pc)
    ensures Descriptors(s')
  {
    hide Descriptors, MallocStep, FreeStep, TrimStep;
    if e.Acquire? {
      AcquireDescriptors(s, e.t, e.setup, s');
    } else if e.EndFlush? && s.threads[e.t].pc.dying.Some? {
      UnmapDescriptors(s, e.t, e.unmapped, s');
    } else {
      DescriptorUnchanged(s, e, s');
      SameDescriptors(s, e, s');
    }
  }

  lemma ThreadsStep(s: State, e: Event, s': State)
    requires e.t in s.threads && Undisturbed(s, s', e.t) && ThreadOk(s', e.t)
    requires forall u :: u in s.threads ==> ThreadOk(s, u)
    ensures forall u :: u in s'.threads ==> ThreadOk(s', u)
  {
    hide ThreadOk, Undisturbed;
    forall u | u in s'.threads
      ensures ThreadOk(s', u)
    {
      if u != e.t {
        assert s'.threads.Keys == s.threads.Keys by {
          SameThreads(s, s', e.t);
        }
        OthersOk(s, s', e.t, u);
      }
    }
  }

  lemma SameThreads(s: State, s': State, t: Tid)
    requires Undisturbed(s, s', t)
    ensures s'.threads.Keys == s.threads.Keys
  {
  }

  lemma StepIsByThread(s: State, e: Event, s': State)
    requires Step(s, e, s')
    ensures e.t in s.threads
  {
    hide AcquireStep, MallocStep, FreeStep, FlushStep, TrimStep;
  }

  /** The invariant is kept by every step of every thread. */
  lemma InvStep(s: State, e: Event, s': State)
    requires Inv(s) && Step(s, e, s')
    ensures Inv(s')
  {
    hide ThreadOk, Step, Descriptors, Sound, Undisturbed;
    PoolsStep(s, e, s');
    ActorOk(s, e, s');
    StepIsByThread(s, e, s');
    assert ThreadOk(s, e.t);
    StepUndisturbed(s, e, s');
    ThreadsStep(s, e, s');
    SameThreads(s, s', e.t);
    PcOkOf(s, e.t);
    DescriptorsStep(s, e, s');
  }

  lemma PcOkOf(s: State, t: Tid)
    requires ThreadOk(s, t)
    ensures PcOk(s.threads[t].life, s.threads[t].pc)
  {
  }
}
