/**
 * The cached allocator (src/allocator.c, src/thread_cache.c, src/thread_cache_lifecycle.c) as a
 * machine of any number of threads. Steps end where the code touches shared state or releases a
 * lock, so other threads run between a detach and the matching publish, between registry unlock and
 * remainder publish, between two evictions, and between two classes of a flush. The transfer is the
 * atomic object of TransferSpec: one publish or detach is one step.
 */
module CachedAllocator {
  import opened Sequences
  import opened SizeClasses
  import opened SlotPools
  import C = CacheSpec

  datatype Life = Uninitialized | Active(d: nat) | Uncached

  datatype Key = NotCreated | Created | CreateFailed

  /** Outcome of the one-time setup in `hplf_cache_acquire`. */
  datatype Setup =
    | KeyFails
    | MapFails
    | RegistrationFails(d: nat, unmapped: bool)
    | Registers(d: nat)

  datatype Pc =
    | Idle
    | Miss(c: nat)              // local miss, about to detach the shared list
    | WantLock(c: nat)          // shared list was empty
    | Locked(c: nat)            // registry mutex held, about to recheck
    | NeedSlab(c: nat)          // recheck found nothing, mutex still held
    | Stocked(c: nat)           // blocks in hand, mutex still held
    | Got(c: nat)               // blocks in hand
    | Evict(c: nat)             // in the eviction loop of a free of class c
    | EvictPublish(c: nat, e: nat)
    | FreePublish(c: nat)       // free on a thread without a cache
    | Flush(i: nat, dying: Option<nat>)         // `dying` names the descriptor to unmap afterwards
    | FlushPublish(i: nat, dying: Option<nat>)
    | TrimDetach(i: nat)
    | TrimPublish(i: nat)

  datatype Thread = Thread(life: Life, pc: Pc)

  datatype State = State(pools: Pools, lock: Option<Tid>, threads: map<Tid, Thread>,
                         key: Key, mapped: set<nat>, leaked: set<nat>)

  datatype Event =
    | Acquire(t: Tid, setup: Setup)
    | MallocHit(t: Tid, c: nat)
    | MallocMiss(t: Tid, c: nat)
    | FirstDetach(t: Tid)
    | LockRegistry(t: Tid)
    | SecondDetach(t: Tid)
    | MapSlab(t: Tid, slab: Slab)
    | MapSlabFails(t: Tid)
    | UnlockRegistry(t: Tid)
    | Finish(t: Tid)
    | Defensive(t: Tid)
    | FreeCached(t: Tid, x: Slot)
    | FreeUncached(t: Tid, x: Slot)
    | PublishFree(t: Tid)
    | ExtractEviction(t: Tid)
    | EndFree(t: Tid)
    | PublishEviction(t: Tid)
    | StartFlush(t: Tid)
    | Exit(t: Tid)
    | FlushTake(t: Tid)
    | PublishFlush(t: Tid)
    | EndFlush(t: Tid, unmapped: bool)
    | StartTrim(t: Tid)
    | TrimTake(t: Tid)
    | TrimSweep(t: Tid, released: set<Slab>, failed: set<Slab>)   // `failed`: slabs whose unmap fails
    | TrimPut(t: Tid)
    | EndTrim(t: Tid)

  function SetPc(s: State, t: Tid, pc: Pc): State
    requires t in s.threads
  {
    s.(threads := s.threads[t := s.threads[t].(pc := pc)])
  }

  /** The pools after refill, take and publication of the remainder. */
  function Delivered(p: Pools, t: Tid, c: nat, o: C.Obtained<Slot>): Pools
    requires Has(p, Cache(t), c, 0) && Has(p, Hand(t), c, 0) && Has(p, Shared, c, 0) && o.block.Some?
  {
    Pools(p.registry,
          Put(Put(p.at[Cache(t) := o.lists], Hand(t), c, []), Shared, c, o.rest + p.at[Shared][c]),
          p.live + {o.block.value})
  }

  function Obtaining(s: State, t: Tid, c: nat): C.Obtained<Slot>
    requires t in s.threads && Has(s.pools, Cache(t), c, 0) && Has(s.pools, Hand(t), c, 0)
  {
    C.Obtain(s.threads[t].life.Active?, s.pools.at[Cache(t)], c, s.pools.at[Hand(t)][c])
  }

  ghost predicate AcquireStep(s: State, t: Tid, setup: Setup, s': State)
    requires t in s.threads
  {
    && s.threads[t] == Thread(Uninitialized, Idle)
    && match setup
       case KeyFails =>
         && s.key != Created
         && s' == s.(key := CreateFailed, threads := s.threads[t := Thread(Uncached, Idle)])
       case MapFails =>
         && s.key != CreateFailed
         && s' == s.(key := Created, threads := s.threads[t := Thread(Uncached, Idle)])
       case RegistrationFails(d, unmapped) =>
         && s.key != CreateFailed && d !in s.mapped
         && s' == s.(key := Created, threads := s.threads[t := Thread(Uncached, Idle)],
                     mapped := if unmapped then s.mapped else s.mapped + {d},
                     leaked := if unmapped then s.leaked else s.leaked + {d})
       case Registers(d) =>
         && s.key != CreateFailed && d !in s.mapped
         && s' == s.(key := Created, threads := s.threads[t := Thread(Active(d), Idle)], mapped := s.mapped + {d})
  }

  ghost predicate MallocStep(s: State, e: Event, s': State)
    requires e.t in s.threads
  {
    var t, p, life, pc := e.t, s.pools, s.threads[e.t].life, s.threads[e.t].pc;
    match e
    case MallocHit(_, c) =>
      && pc == Idle && life.Active? && c < CLASS_COUNT && Has(p, Cache(t), c, 1)
      && s' == s.(pools := Grant(p, Cache(t), c))
    case MallocMiss(_, c) =>
      && pc == Idle && !life.Uninitialized? && c < CLASS_COUNT && Has(p, Cache(t), c, 0)
      && (life.Active? ==> p.at[Cache(t)][c] == [])
      && s' == SetPc(s, t, Miss(c))
    case FirstDetach(_) =>
      && pc.Miss? && Has(p, Shared, pc.c, 0) && Has(p, Hand(t), pc.c, 0)
      && s' == (if p.at[Shared][pc.c] == [] then SetPc(s, t, WantLock(pc.c))
                else SetPc(s, t, Got(pc.c)).(pools := Move(p, Shared, Hand(t), pc.c, |p.at[Shared][pc.c]|)))
    case LockRegistry(_) =>
      && pc.WantLock? && s.lock == None
      && s' == SetPc(s, t, Locked(pc.c)).(lock := Some(t))
    case SecondDetach(_) =>
      && pc.Locked? && Has(p, Shared, pc.c, 0) && Has(p, Hand(t), pc.c, 0)
      && s' == (if p.at[Shared][pc.c] == [] then SetPc(s, t, NeedSlab(pc.c))
                else SetPc(s, t, Stocked(pc.c)).(pools := Move(p, Shared, Hand(t), pc.c, |p.at[Shared][pc.c]|)))
    case MapSlab(_, slab) =>
      && pc.NeedSlab? && slab.cls == pc.c && Fresh(p, slab) && Has(p, Hand(t), pc.c, 0)
      && s' == SetPc(s, t, Stocked(pc.c)).(pools := AddSlab(p, slab, Hand(t)))
    case MapSlabFails(_) =>
      && pc.NeedSlab?
      && s' == SetPc(s, t, Idle).(lock := None)
    case UnlockRegistry(_) =>
      && pc.Stocked?
      && s' == SetPc(s, t, Got(pc.c)).(lock := None)
    case Finish(_) =>
      && pc.Got? && Has(p, Cache(t), pc.c, 0) && Has(p, Hand(t), pc.c, 0) && Has(p, Shared, pc.c, 0)
      && Obtaining(s, t, pc.c).block.Some?
      && s' == SetPc(s, t, Idle).(pools := Delivered(p, t, pc.c, Obtaining(s, t, pc.c)))
    case Defensive(_) =>
      && pc.Got? && Has(p, Cache(t), pc.c, 0) && Has(p, Hand(t), pc.c, 0) && Has(p, Shared, pc.c, 0)
      && Obtaining(s, t, pc.c).block.None?
      && s' == SetPc(s, t, Idle).(pools := Move(p, Hand(t), Shared, pc.c, |p.at[Hand(t)][pc.c]|))
    case _ => false
  }

  ghost predicate FreeStep(s: State, e: Event, s': State)
    requires e.t in s.threads
  {
    var t, p, life, pc := e.t, s.pools, s.threads[e.t].life, s.threads[e.t].pc;
    match e
    case FreeCached(_, x) =>
      && pc == Idle && life.Active? && x in p.live && Has(p, Cache(t), x.slab.cls, 0)
      && s' == SetPc(s, t, Evict(x.slab.cls)).(pools := Reclaim(p, x, Cache(t)))
    case FreeUncached(_, x) =>
      && pc == Idle && life.Uncached? && x in p.live && Has(p, Hand(t), x.slab.cls, 0)
      && s' == SetPc(s, t, FreePublish(x.slab.cls)).(pools := Reclaim(p, x, Hand(t)))
    case PublishFree(_) =>
      && pc.FreePublish? && Has(p, Hand(t), pc.c, 0) && Has(p, Shared, pc.c, 0)
      && s' == SetPc(s, t, Idle).(pools := Move(p, Hand(t), Shared, pc.c, |p.at[Hand(t)][pc.c]|))
    case ExtractEviction(_) =>
      && pc.Evict? && Has(p, Cache(t), pc.c, 0)
      && C.Eviction(p.at[Cache(t)], pc.c).Some?
      && var (i, k) := C.Eviction(p.at[Cache(t)], pc.c).value;
      && Has(p, Hand(t), i, 0)
      && s' == SetPc(s, t, EvictPublish(pc.c, i)).(pools := Move(p, Cache(t), Hand(t), i, k))
    case EndFree(_) =>
      && pc.Evict? && Has(p, Cache(t), pc.c, 0)
      && C.Eviction(p.at[Cache(t)], pc.c).None?
      && s' == SetPc(s, t, Idle)
    case PublishEviction(_) =>
      && pc.EvictPublish? && Has(p, Hand(t), pc.e, 0) && Has(p, Shared, pc.e, 0)
      && s' == SetPc(s, t, Evict(pc.c)).(pools := Move(p, Hand(t), Shared, pc.e, |p.at[Hand(t)][pc.e]|))
    case _ => false
  }

  ghost predicate FlushStep(s: State, e: Event, s': State)
    requires e.t in s.threads
  {
    var t, p, life, pc := e.t, s.pools, s.threads[e.t].life, s.threads[e.t].pc;
    match e
    case StartFlush(_) =>
      && pc == Idle && life.Active?
      && s' == SetPc(s, t, Flush(0, None))
    case Exit(_) =>
      && pc == Idle && life.Active?
      && s' == s.(threads := s.threads[t := Thread(Uncached, Flush(0, Some(life.d)))])
    case FlushTake(_) =>
      && pc.Flush? && pc.i < CLASS_COUNT && Has(p, Cache(t), pc.i, 0) && Has(p, Hand(t), pc.i, 0)
      && s' == (if p.at[Cache(t)][pc.i] == [] then SetPc(s, t, Flush(pc.i + 1, pc.dying))
                else SetPc(s, t, FlushPublish(pc.i, pc.dying)).(
                       pools := Move(p, Cache(t), Hand(t), pc.i, |p.at[Cache(t)][pc.i]|)))
    case PublishFlush(_) =>
      && pc.FlushPublish? && Has(p, Hand(t), pc.i, 0) && Has(p, Shared, pc.i, 0)
      && s' == SetPc(s, t, Flush(pc.i + 1, pc.dying)).(
                 pools := Move(p, Hand(t), Shared, pc.i, |p.at[Hand(t)][pc.i]|))
    case EndFlush(_, unmapped) =>
      && pc.Flush? && pc.i == CLASS_COUNT
      && s' == (match pc.dying
                case None => SetPc(s, t, Idle)
                case Some(d) =>
                  if unmapped then SetPc(s, t, Idle).(mapped := s.mapped - {d})
                  else SetPc(s, t, Idle).(leaked := s.leaked + {d}))
    case _ => false
  }

  ghost predicate TrimStep(s: State, e: Event, s': State)
    requires e.t in s.threads
  {
    var t, p, pc := e.t, s.pools, s.threads[e.t].pc;
    match e
    case StartTrim(_) =>
      && pc == Idle && s.lock == None
      && s' == SetPc(s, t, TrimDetach(0)).(lock := Some(t))
    case TrimTake(_) =>
      && pc.TrimDetach? && pc.i < CLASS_COUNT && Has(p, Shared, pc.i, 0) && Has(p, Hand(t), pc.i, 0)
      && s' == SetPc(s, t, TrimDetach(pc.i + 1)).(pools := Move(p, Shared, Hand(t), pc.i, |p.at[Shared][pc.i]|))
    case TrimSweep(_, released, failed) =>
      && pc.TrimDetach? && pc.i == CLASS_COUNT
      && (forall slab :: slab in released <==> Wholly(p, Hand(t), slab) && slab !in failed)
      && Sweep(p, Hand(t), released, s'.pools)
      && s' == SetPc(s, t, TrimPublish(0)).(pools := s'.pools)
    case TrimPut(_) =>
      && pc.TrimPublish? && pc.i < CLASS_COUNT && Has(p, Hand(t), pc.i, 0) && Has(p, Shared, pc.i, 0)
      && s' == SetPc(s, t, TrimPublish(pc.i + 1)).(pools := Move(p, Hand(t), Shared, pc.i, |p.at[Hand(t)][pc.i]|))
    case EndTrim(_) =>
      && pc.TrimPublish? && pc.i == CLASS_COUNT
      && s' == SetPc(s, t, Idle).(lock := None)
    case _ => false
  }

  predicate OfMalloc(e: Event) {
    || e.MallocHit? || e.MallocMiss? || e.FirstDetach? || e.LockRegistry? || e.SecondDetach? || e.MapSlab?
    || e.MapSlabFails? || e.UnlockRegistry? || e.Finish? || e.Defensive?
  }

  predicate OfFree(e: Event) {
    || e.FreeCached? || e.FreeUncached? || e.PublishFree? || e.ExtractEviction? || e.EndFree? || e.PublishEviction?
  }

  predicate OfFlush(e: Event) {
    e.StartFlush? || e.Exit? || e.FlushTake? || e.PublishFlush? || e.EndFlush?
  }

  ghost predicate Step(s: State, e: Event, s': State) {
    && e.t in s.threads
    && (if e.Acquire? then AcquireStep(s, e.t, e.setup, s')
        else if OfMalloc(e) then MallocStep(s, e, s')
        else if OfFree(e) then FreeStep(s, e, s')
        else if OfFlush(e) then FlushStep(s, e, s')
        else TrimStep(s, e, s'))
  }

  ghost predicate Init(s: State) {
    && s.pools.registry == [] && s.pools.live == {}
    && Shared in s.pools.at
    && (forall q :: q in s.pools.at && q != Shared ==> q.t in s.threads)
    && (forall t :: t in s.threads ==> Cache(t) in s.pools.at && Hand(t) in s.pools.at)
    && (forall q :: q in s.pools.at ==> s.pools.at[q] == seq(CLASS_COUNT, _ => []))
    && (forall t :: t in s.threads ==> s.threads[t] == Thread(Uninitialized, Idle))
    && s.lock == None && s.key == NotCreated && s.mapped == {} && s.leaked == {}
  }
}
