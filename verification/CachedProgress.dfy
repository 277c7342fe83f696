/**
 * No call of the cached variant hangs: in every reachable state a call in progress can step, or waits for
 * the registry mutex while its holder can step.
 */
module CachedProgress {
  import opened Sequences
  import opened SizeClasses
  import opened SlotPools
  import opened CachedAllocator
  import opened CachedInvariant
  import C = CacheSpec
  import R = CachedResults

  /** Thread `t` has a step of its own. */
  ghost predicate CanStep(s: State, t: Tid) {
    exists e: Event, s' :: e.t == t && Step(s, e, s')
  }

  ghost predicate Ready(s: State, t: Tid) {
    && ThreadOk(s, t) && Shared in s.pools.at && |s.pools.at[Shared]| == CLASS_COUNT
  }

  lemma ReadyIfInv(s: State, t: Tid)
    requires Inv(s) && t in s.threads
    ensures Ready(s, t)
  {
    AllPoolsHaveEveryClass(s.pools, Shared);
    hide ThreadOk, Sound, Descriptors;
  }

  // ---- Allocation ----

  lemma MallocSteps(s: State, t: Tid) returns (e: Event, s': State)
    requires Ready(s, t) && (s.threads[t].pc.WantLock? ==> s.lock == None)
    requires InMalloc(s.threads[t].pc) && !s.threads[t].pc.Got?
    ensures e.t == t && Step(s, e, s')
  {
    hide C.WithinCaps, C.JustStored, Obtaining, Move;
    var p, pc := s.pools, s.threads[t].pc;
    match pc {
      case Miss(c) =>
        e := FirstDetach(t);
        s' := if p.at[Shared][c] == [] then SetPc(s, t, WantLock(c))
              else SetPc(s, t, Got(c)).(pools := Move(p, Shared, Hand(t), c, |p.at[Shared][c]|));
      case WantLock(c) => e, s' := LockRegistry(t), SetPc(s, t, Locked(c)).(lock := Some(t));
      case Locked(c) =>
        e := SecondDetach(t);
        s' := if p.at[Shared][c] == [] then SetPc(s, t, NeedSlab(c))
              else SetPc(s, t, Stocked(c)).(pools := Move(p, Shared, Hand(t), c, |p.at[Shared][c]|));
      case NeedSlab(_) => e, s' := MapSlabFails(t), SetPc(s, t, Idle).(lock := None);
      case Stocked(c) => e, s' := UnlockRegistry(t), SetPc(s, t, Got(c)).(lock := None);
    }
  }

  lemma GotSteps(s: State, t: Tid) returns (e: Event, s': State)
    requires Inv(s) && t in s.threads && s.threads[t].pc.Got?
    ensures e.t == t && Step(s, e, s')
  {
    hide Inv, Divides, Obtaining, Delivered;
    ObtainedAtGot(s, t);
    SomethingIsObtained(s, t);
    GotHasAll(s, t);
    var c := s.threads[t].pc.c;
    e, s' := Finish(t), SetPc(s, t, Idle).(pools := Delivered(s.pools, t, c, Obtaining(s, t, c)));
  }

  lemma GotHasAll(s: State, t: Tid)
    requires Inv(s) && t in s.threads && s.threads[t].pc.Got?
    ensures var c := s.threads[t].pc.c;
            Has(s.pools, Cache(t), c, 0) && Has(s.pools, Hand(t), c, 0) && Has(s.pools, Shared, c, 0)
  {
    ReadyIfInv(s, t);
    hide C.WithinCaps, C.JustStored, Sound, Descriptors;
  }

  lemma HandHasClass(s: State, t: Tid, c: nat)
    requires ThreadOk(s, t) && c < CLASS_COUNT
    ensures Has(s.pools, Hand(t), c, 0) && Has(s.pools, Cache(t), c, 0)
  {
    hide C.WithinCaps, C.JustStored, PcOk;
  }

  /** A slab the system gives is never refused. */
  lemma AnyFreshSlabIsMapped(s: State, t: Tid, slab: Slab) returns (s': State)
    requires Inv(s) && t in s.threads && s.threads[t].pc == NeedSlab(slab.cls) && Fresh(s.pools, slab)
    ensures Step(s, MapSlab(t, slab), s')
  {
    hide Inv, AddSlab, ThreadOk, Step;
    assert slab.cls < CLASS_COUNT;
    hide Fresh;
    ReadyIfInv(s, t);
    HandHasClass(s, t, slab.cls);
    s' := SetPc(s, t, Stocked(slab.cls)).(pools := AddSlab(s.pools, slab, Hand(t)));
    MapIsStep(s, t, slab);
  }

  lemma MapIsStep(s: State, t: Tid, slab: Slab)
    requires t in s.threads && s.threads[t].pc == NeedSlab(slab.cls) && Fresh(s.pools, slab) && Has(s.pools, Hand(t), slab.cls, 0)
    ensures Step(s, MapSlab(t, slab), SetPc(s, t, Stocked(slab.cls)).(pools := AddSlab(s.pools, slab, Hand(t))))
  {
    hide AddSlab, Fresh;
  }

  // ---- Free ----

  lemma EvictSteps(s: State, t: Tid) returns (e: Event, s': State)
    requires Ready(s, t) && s.threads[t].pc.Evict?
    ensures e.t == t && Step(s, e, s')
  {
    hide C.WithinCaps, C.JustStored, C.Eviction, Move;
    var p, c := s.pools, s.threads[t].pc.c;
    HandHasClass(s, t, c);
    if C.Eviction(p.at[Cache(t)], c).None? {
      e, s' := EndFree(t), SetPc(s, t, Idle);
    } else {
      var (i, k) := C.Eviction(p.at[Cache(t)], c).value;
      HandHasClass(s, t, i);
      e, s' := ExtractEviction(t), SetPc(s, t, EvictPublish(c, i)).(pools := Move(p, Cache(t), Hand(t), i, k));
    }
  }

  lemma FreeSteps(s: State, t: Tid) returns (e: Event, s': State)
    requires Ready(s, t) && (s.threads[t].pc.EvictPublish? || s.threads[t].pc.FreePublish?)
    ensures e.t == t && Step(s, e, s')
  {
    hide C.WithinCaps, C.JustStored, Move;
    var p, pc := s.pools, s.threads[t].pc;
    match pc {
      case EvictPublish(c, i) =>
        HandHasClass(s, t, i);
        e := PublishEviction(t);
        s' := SetPc(s, t, Evict(c)).(pools := Move(p, Hand(t), Shared, i, |p.at[Hand(t)][i]|));
      case FreePublish(c) =>
        HandHasClass(s, t, c);
        e := PublishFree(t);
        s' := SetPc(s, t, Idle).(pools := Move(p, Hand(t), Shared, c, |p.at[Hand(t)][c]|));
    }
  }

  // ---- Flush ----

  lemma FlushSteps(s: State, t: Tid) returns (e: Event, s': State)
    requires Ready(s, t) && (s.threads[t].pc.Flush? || s.threads[t].pc.FlushPublish?)
    ensures e.t == t && Step(s, e, s')
  {
    hide C.WithinCaps, C.JustStored, Move;
    var p, pc := s.pools, s.threads[t].pc;
    match pc {
      case Flush(i, dying) =>
        if i == CLASS_COUNT {
          e := EndFlush(t, true);
          s' := if dying.None? then SetPc(s, t, Idle) else SetPc(s, t, Idle).(mapped := s.mapped - {dying.value});
        } else {
          e := FlushTake(t);
          s' := if p.at[Cache(t)][i] == [] then SetPc(s, t, Flush(i + 1, dying))
                else SetPc(s, t, FlushPublish(i, dying)).(pools := Move(p, Cache(t), Hand(t), i, |p.at[Cache(t)][i]|));
        }
      case FlushPublish(i, dying) =>
        e := PublishFlush(t);
        s' := SetPc(s, t, Flush(i + 1, dying)).(pools := Move(p, Hand(t), Shared, i, |p.at[Hand(t)][i]|));
    }
  }

  // ---- Trim ----

  /** The lists without the released slabs' slots. */
  function SweptLists(lists: seq<seq<Slot>>, released: set<Slab>): (r: seq<seq<Slot>>)
    ensures |r| == |lists|
    ensures forall c :: 0 <= c < |lists| ==> r[c] == Filter(lists[c], (x: Slot) => x.slab !in released)
  {
    seq(|lists|, c requires 0 <= c < |lists| => Filter(lists[c], (x: Slot) => x.slab !in released))
  }

  lemma SweepExists(p: Pools, q: Place, released: set<Slab>) returns (p': Pools)
    requires Sound(p) && q in p.at && forall slab :: slab in released ==> Wholly(p, q, slab)
    ensures Sweep(p, q, released, p')
  {
    AllPoolsHaveEveryClass(p, q);
    var lists := SweptLists(p.at[q], released);
    p' := Pools(Kept(p.registry, released), p.at[q := lists], p.live);
    forall c | 0 <= c < CLASS_COUNT
      ensures NoDup(lists[c]) && forall x :: x in lists[c] <==> x in p.at[q][c] && x.slab !in released
    {
      ListsAreDistinct(p, q, c);
      FilterNoDup(p.at[q][c], (x: Slot) => x.slab !in released);
    }
    hide Sound, Wholly, Kept, SweptLists;
    assert p'.at[q] == lists && p'.at == p.at[q := p'.at[q]];
  }

  lemma ListsAreDistinct(p: Pools, q: Place, c: nat)
    requires Sound(p) && q in p.at && c < CLASS_COUNT
    ensures |p.at[q]| == CLASS_COUNT && NoDup(p.at[q][c])
  {
    var owner: map<Slot, Spot> :| Placed(p, owner);
    assert Lists(owner, p.at[q][c], q, c);
  }

  /** Whatever unmaps fail, the sweep can run. */
  lemma AnySweepIsPossible(s: State, t: Tid, failed: set<Slab>) returns (e: Event, s': State)
    requires Inv(s) && t in s.threads && s.threads[t].pc == TrimDetach(CLASS_COUNT)
    ensures e.TrimSweep? && e.t == t && e.failed == failed && Step(s, e, s')
  {
    ReadyIfInv(s, t);
    assert Hand(t) in s.pools.at && Sound(s.pools);
    hide ThreadOk, Descriptors, Sound, Wholly, Inv, Ready;
    var p := s.pools;
    var released := set slab | slab in p.registry && Wholly(p, Hand(t), slab) && slab !in failed;
    forall slab
      ensures slab in released <==> Wholly(p, Hand(t), slab) && slab !in failed
    {
      WhollyIsRegistered(p, Hand(t), slab);
    }
    var p' := SweepExists(p, Hand(t), released);
    e, s' := TrimSweep(t, released, failed), SetPc(s, t, TrimPublish(0)).(pools := p');
    hide Step, Sweep;
    SweepIsStep(s, t, released, failed, p');
  }

  lemma SweepIsStep(s: State, t: Tid, released: set<Slab>, failed: set<Slab>, p': Pools)
    requires t in s.threads && s.threads[t].pc == TrimDetach(CLASS_COUNT) && Sweep(s.pools, Hand(t), released, p')
    requires forall slab :: slab in released <==> Wholly(s.pools, Hand(t), slab) && slab !in failed
    ensures Step(s, TrimSweep(t, released, failed), SetPc(s, t, TrimPublish(0)).(pools := p'))
  {
    hide Sweep, Wholly;
  }

  lemma WhollyIsRegistered(p: Pools, q: Place, slab: Slab)
    ensures Wholly(p, q, slab) ==> slab in p.registry
  {
  }

  lemma TrimSteps(s: State, t: Tid) returns (e: Event, s': State)
    requires Ready(s, t) && (s.threads[t].pc.TrimDetach? || s.threads[t].pc.TrimPublish?)
    requires s.threads[t].pc != TrimDetach(CLASS_COUNT)
    ensures e.t == t && Step(s, e, s')
  {
    hide C.WithinCaps, C.JustStored, Sweep, Move;
    var p, pc := s.pools, s.threads[t].pc;
    match pc {
      case TrimDetach(i) =>
        e := TrimTake(t);
        s' := SetPc(s, t, TrimDetach(i + 1)).(pools := Move(p, Shared, Hand(t), i, |p.at[Shared][i]|));
      case TrimPublish(i) =>
        if i == CLASS_COUNT {
          e, s' := EndTrim(t), SetPc(s, t, Idle).(lock := None);
        } else {
          e := TrimPut(t);
          s' := SetPc(s, t, TrimPublish(i + 1)).(pools := Move(p, Hand(t), Shared, i, |p.at[Hand(t)][i]|));
        }
    }
  }

  // ---- Every call goes on ----

  lemma StepExists(s: State, t: Tid) returns (e: Event, s': State)
    requires Inv(s) && t in s.threads && s.threads[t].pc != Idle && (s.threads[t].pc.WantLock? ==> s.lock == None)
    ensures e.t == t && Step(s, e, s')
  {
    ReadyIfInv(s, t);
    hide Step, Inv, Ready;
    var pc := s.threads[t].pc;
    if pc.Got? {
      e, s' := GotSteps(s, t);
    } else if InMalloc(pc) {
      e, s' := MallocSteps(s, t);
    } else if pc.Evict? {
      e, s' := EvictSteps(s, t);
    } else if pc.EvictPublish? || pc.FreePublish? {
      e, s' := FreeSteps(s, t);
    } else if pc.Flush? || pc.FlushPublish? {
      e, s' := FlushSteps(s, t);
    } else if pc == TrimDetach(CLASS_COUNT) {
      e, s' := AnySweepIsPossible(s, t, {});
    } else {
      e, s' := TrimSteps(s, t);
    }
  }

  /** The thread can step, or it waits for the registry mutex and the thread that holds it can step. */
  ghost predicate GoesOn(s: State, t: Tid) {
    CanStep(s, t)
    || (t in s.threads && s.threads[t].pc.WantLock? && s.lock.Some? && s.lock.value != t && CanStep(s, s.lock.value))
  }

  lemma HolderIsBusy(s: State, u: Tid)
    requires Inv(s) && s.lock == Some(u) && LockHeld(s)
    ensures u in s.threads && HoldsLock(s.threads[u].pc)
  {
    hide Sound, Descriptors, HandOk, CacheOk, PcOk;
  }

  ghost predicate LockHeld(s: State) {
    s.lock.Some? ==> s.lock.value in s.threads
  }

  lemma LockHeldStep(s: State, e: Event, s': State)
    requires Inv(s) && Step(s, e, s') && LockHeld(s)
    ensures LockHeld(s')
  {
    hide Step, Sound, Descriptors, HandOk, CacheOk, PcOk;
    R.ActorExists(s, e, s');
    assert ThreadOk(s, e.t);
    hide ThreadOk;
    StepUndisturbed(s, e, s');
  }

  lemma {:induction false} LockHeldAt(states: seq<State>, events: seq<Event>, n: nat)
    requires R.Run(states, events) && n <= |events|
    ensures LockHeld(states[n])
  {
    hide Step, Inv;
    if n > 0 {
      LockHeldAt(states, events, n - 1);
      R.InvAt(states, events, n - 1);
      LockHeldStep(states[n - 1], events[n - 1], states[n]);
    }
  }

  /** In every reachable state a call in progress goes on: nothing but the registry mutex ever delays it. */
  lemma CallsGoOn(states: seq<State>, events: seq<Event>, n: nat, t: Tid)
    requires R.Run(states, events) && n <= |events| && t in states[n].threads && states[n].threads[t].pc != Idle
    ensures GoesOn(states[n], t)
  {
    hide Step, Inv, Init;
    var s := states[n];
    R.InvAt(states, events, n);
    LockHeldAt(states, events, n);
    if s.threads[t].pc.WantLock? && s.lock.Some? {
      HolderIsBusy(s, s.lock.value);
      var e, s' := StepExists(s, s.lock.value);
    } else {
      var e, s' := StepExists(s, t);
    }
  }

  // ---- Every call can be made ----

  /** An idle thread past its setup can ask for a block of any class. */
  lemma AnyClassCanBeAskedFor(s: State, t: Tid, c: nat) returns (e: Event, s': State)
    requires Inv(s) && t in s.threads && s.threads[t].pc == Idle && !s.threads[t].life.Uninitialized? && c < CLASS_COUNT
    ensures (e == MallocHit(t, c) || e == MallocMiss(t, c)) && Step(s, e, s')
  {
    hide Inv, C.WithinCaps, C.JustStored;
    ReadyIfInv(s, t);
    if s.pools.at[Cache(t)][c] == [] {
      e, s' := MallocMiss(t, c), SetPc(s, t, Miss(c));
    } else {
      assert s.threads[t].life.Active?;
      e, s' := MallocHit(t, c), s.(pools := Grant(s.pools, Cache(t), c));
    }
  }

  /** An idle thread past its setup can free any live block, whoever allocated it. */
  lemma AnyLiveBlockCanBeFreed(s: State, t: Tid, x: Slot) returns (e: Event, s': State)
    requires Inv(s) && t in s.threads && s.threads[t].pc == Idle && !s.threads[t].life.Uninitialized? && x in s.pools.live
    ensures (e == FreeCached(t, x) || e == FreeUncached(t, x)) && Step(s, e, s')
  {
    hide ThreadOk, Descriptors, Sound, Reclaim;
    FreedSlotHasClass(s, x);
    ReadyIfInv(s, t);
    HandHasClass(s, t, x.slab.cls);
    hide Inv;
    if s.threads[t].life.Active? {
      e, s' := FreeCached(t, x), SetPc(s, t, Evict(x.slab.cls)).(pools := Reclaim(s.pools, x, Cache(t)));
    } else {
      e, s' := FreeUncached(t, x), SetPc(s, t, FreePublish(x.slab.cls)).(pools := Reclaim(s.pools, x, Hand(t)));
    }
  }

  /** An idle thread with a cache can flush it, or exit. */
  lemma CachesCanBeFlushed(s: State, t: Tid) returns (flushed: State, left: State)
    requires t in s.threads && s.threads[t].pc == Idle && s.threads[t].life.Active?
    ensures Step(s, StartFlush(t), flushed) && Step(s, Exit(t), left)
  {
    flushed := SetPc(s, t, Flush(0, None));
    left := s.(threads := s.threads[t := Thread(Uncached, Flush(0, Some(s.threads[t].life.d)))]);
  }

  lemma TrimCanStart(s: State, t: Tid) returns (s': State)
    requires t in s.threads && s.threads[t].pc == Idle && s.lock == None
    ensures Step(s, StartTrim(t), s')
  {
    s' := SetPc(s, t, TrimDetach(0)).(lock := Some(t));
  }
}
