/**
 * The locked variant (src/allocator.c:132-173 and 271-277): every malloc, free and trim is one
 * critical section under the registry mutex, and the only pool is the shared free lists.
 */
module LockedAllocator {
  import opened Sequences
  import opened SizeClasses
  import opened SlotPools
  import A = SlotAllocator

  datatype Event =
    | Reuse(c: nat)
    | GrowAndTake(slab: Slab)
    | GrowFails(c: nat)
    | Free(x: Slot)
    | Trim(released: set<Slab>, failed: set<Slab>)

  /** `per[c]` is the slot count the layout gives every slab of class `c`. */
  ghost predicate Layouts(per: seq<nat>) {
    |per| == CLASS_COUNT && forall c :: 0 <= c < CLASS_COUNT ==> per[c] > 0
  }

  ghost predicate Init(p: Pools) {
    p == Pools([], map[Shared := seq(CLASS_COUNT, _ => [])], {})
  }

  ghost predicate Step(per: seq<nat>, p: Pools, e: Event, p': Pools) {
    match e
    case Reuse(c) => Has(p, Shared, c, 1) && p' == Grant(p, Shared, c)
    case GrowAndTake(slab) =>
      && Has(p, Shared, slab.cls, 0) && p.at[Shared][slab.cls] == []
      && Fresh(p, slab) && slab.cls < |per| && slab.slots == per[slab.cls]
      && Has(AddSlab(p, slab, Shared), Shared, slab.cls, 1)
      && p' == Grant(AddSlab(p, slab, Shared), Shared, slab.cls)
    case GrowFails(c) => Has(p, Shared, c, 0) && p.at[Shared][c] == [] && p' == p
    case Free(x) => x in p.live && Has(p, Shared, x.slab.cls, 0) && p' == Reclaim(p, x, Shared)
    case Trim(released, failed) =>
      && (forall slab :: slab in released <==> Wholly(p, Shared, slab) && slab !in failed)
      && Sweep(p, Shared, released, p')
  }

  ghost predicate Inv(per: seq<nat>, p: Pools) {
    Layouts(per) && Sound(p) && Regular(per, p)
  }

  lemma SoundStep(per: seq<nat>, p: Pools, e: Event, p': Pools)
    requires Sound(p) && Step(per, p, e, p')
    ensures Sound(p')
  {
    hide Sound, Grant, AddSlab, Reclaim, Fresh, Sweep, Wholly;
    match e
    case Reuse(c) => GrantKeepsSound(p, Shared, c);
    case GrowAndTake(slab) =>
      AddSlabKeepsSound(p, slab, Shared);
      GrantKeepsSound(AddSlab(p, slab, Shared), Shared, slab.cls);
    case GrowFails(c) =>
    case Free(x) => ReclaimKeepsSound(p, x, Shared);
    case Trim(released, failed) => SweepKeepsSound(p, Shared, released, p');
  }

  ghost predicate Regular(per: seq<nat>, p: Pools)
    requires |per| == CLASS_COUNT
  {
    && p.at.Keys == {Shared}
    && forall slab :: slab in p.registry ==> slab.cls < CLASS_COUNT && slab.slots == per[slab.cls]
  }

  lemma RegularStep(per: seq<nat>, p: Pools, e: Event, p': Pools)
    requires Layouts(per) && Regular(per, p) && Step(per, p, e, p')
    ensures Regular(per, p')
  {
    hide Wholly, FreshSlots, NoDup;
  }

  lemma InvStep(per: seq<nat>, p: Pools, e: Event, p': Pools)
    requires Inv(per, p) && Step(per, p, e, p')
    ensures Inv(per, p')
  {
    hide Sound, Step, Regular;
    SoundStep(per, p, e, p');
    RegularStep(per, p, e, p');
  }

  lemma InitInv(per: seq<nat>, p: Pools)
    requires Layouts(per) && Init(p)
    ensures Inv(per, p)
  {
    assert Placed(p, map[]);
  }

  // ---- The client's view ----

  /** Every step of the locked variant is one or two steps of the client's view. */
  lemma LockedRefinesSlotAllocator(per: seq<nat>, p: Pools, e: Event, p': Pools)
    requires Inv(per, p) && Step(per, p, e, p')
    ensures match e
            case Reuse(c) =>
              && Has(p, Shared, c, 1)
              && var x := p.at[Shared][c][0];
              && x.slab.cls == c
              && A.Permitted(A.ViewOf(p), A.Allocate(x)) && A.ViewOf(p') == A.Effect(A.ViewOf(p), A.Allocate(x))
            case GrowAndTake(slab) =>
              var grown := A.Effect(A.ViewOf(p), A.Grow(slab));
              var x := Slot(slab, slab.slots - 1);
              && A.Permitted(A.ViewOf(p), A.Grow(slab)) && A.Permitted(grown, A.Allocate(x))
              && A.ViewOf(p') == A.Effect(grown, A.Allocate(x))
            case GrowFails(c) => p' == p
            case Free(x) => A.Permitted(A.ViewOf(p), A.Release(x)) && A.ViewOf(p') == A.Effect(A.ViewOf(p), A.Release(x))
            case Trim(released, failed) =>
              A.Permitted(A.ViewOf(p), A.Shrink(released)) && A.ViewOf(p') == A.Effect(A.ViewOf(p), A.Shrink(released))
  {
    match e
    case Reuse(c) =>
      A.GrantAllocates(p, Shared, c);
      PooledSlotsAreRegistered(p, Shared, c, p.at[Shared][c][0]);
    case GrowAndTake(slab) =>
      A.AddSlabGrows(p, slab, Shared);
      AddSlabKeepsSound(p, slab, Shared);
      A.GrantAllocates(AddSlab(p, slab, Shared), Shared, slab.cls);
    case GrowFails(c) =>
    case Free(x) => A.ReclaimReleases(p, x, Shared);
    case Trim(released, failed) => A.SweepShrinks(p, Shared, released, p');
  }

  // ---- Space ----

  function ClassSlabs(registry: seq<Slab>, c: nat): nat {
    if registry == [] then 0 else (if registry[0].cls == c then 1 else 0) + ClassSlabs(registry[1..], c)
  }

  function ClassSlots(registry: seq<Slab>, c: nat): set<Slot> {
    if registry == [] then {}
    else (if registry[0].cls == c then ToSet(FreshSlots(registry[0], registry[0].slots)) else {})
         + ClassSlots(registry[1..], c)
  }

  function LiveOf(p: Pools, c: nat): set<Slot> {
    set x | x in p.live && x.slab.cls == c
  }

  lemma {:induction false} ClassSlotsAre(registry: seq<Slab>, c: nat)
    ensures forall x :: x in ClassSlots(registry, c) <==> Registered(registry, x) && x.slab.cls == c
  {
    if registry != [] {
      ClassSlotsAre(registry[1..], c);
      FreshSlotsAll(registry[0], registry[0].slots);
      assert registry == [registry[0]] + registry[1..];
    }
  }

  lemma ClassSlabsOfFirst(registry: seq<Slab>, c: nat)
    requires registry != []
    ensures ClassSlabs(registry, c) == ClassSlabs(registry[1..], c) + (if registry[0].cls == c then 1 else 0)
  {
  }

  lemma ClassSlotsOfFirst(registry: seq<Slab>, c: nat)
    requires registry != []
    ensures registry[0].cls == c ==>
              && ClassSlabs(registry, c) == ClassSlabs(registry[1..], c) + 1
              && ClassSlots(registry, c)
                 == ToSet(FreshSlots(registry[0], registry[0].slots)) + ClassSlots(registry[1..], c)
    ensures registry[0].cls != c ==>
              ClassSlabs(registry, c) == ClassSlabs(registry[1..], c) && ClassSlots(registry, c) == ClassSlots(registry[1..], c)
  {
  }

  lemma {:induction false} ClassSlotsCount(registry: seq<Slab>, c: nat, n: nat)
    requires RegistryOk(registry) && forall slab :: slab in registry && slab.cls == c ==> slab.slots == n
    ensures |ClassSlots(registry, c)| == ClassSlabs(registry, c) * n
  {
    hide RegistryOk, FreshSlots;
    if registry != [] {
      var first, rest := registry[0], registry[1..];
      ClassSlotsOfFirst(registry, c);
      RegistryTail(registry);
      assert first in registry && forall slab :: slab in rest ==> slab in registry;
      hide ClassSlots, ClassSlabs;
      ClassSlotsCount(rest, c, n);
      if first.cls == c {
        SlabSlotsCount(first, rest, c);
        OneMoreSlab(ClassSlabs(rest, c), n);
      }
    }
  }

  lemma RegistryTail(registry: seq<Slab>)
    requires RegistryOk(registry) && registry != []
    ensures RegistryOk(registry[1..]) && registry[0] !in registry[1..]
  {
    assert registry == [registry[0]] + registry[1..];
  }

  lemma {:induction false} SlabSlotsCount(first: Slab, rest: seq<Slab>, c: nat)
    requires first !in rest
    ensures |ToSet(FreshSlots(first, first.slots)) + ClassSlots(rest, c)| == first.slots + |ClassSlots(rest, c)|
  {
    FreshSlotsAll(first, first.slots);
    NoDupCardinality(FreshSlots(first, first.slots));
    ClassSlotsAre(rest, c);
    hide FreshSlots, ClassSlots;
    assert ToSet(FreshSlots(first, first.slots)) !! ClassSlots(rest, c);
  }

  lemma OneMoreSlab(k: nat, n: nat)
    ensures (k + 1) * n == k * n + n
  {
  }

  /** With the class list empty, every slot of the class is live. */
  lemma {:induction false} EmptyListMeansAllLive(per: seq<nat>, p: Pools, c: nat)
    requires Inv(per, p) && Has(p, Shared, c, 0) && c < CLASS_COUNT && p.at[Shared][c] == []
    ensures |LiveOf(p, c)| == ClassSlabs(p.registry, c) * per[c]
  {
    forall x | Registered(p.registry, x) && x.slab.cls == c
      ensures x in p.live
    {
      ExactlyOnePlace(p, x);
    }
    var owner: map<Slot, Spot> :| Placed(p, owner);
    ClassSlotsAre(p.registry, c);
    ClassSlotsCount(p.registry, c, per[c]);
    assert LiveOf(p, c) == ClassSlots(p.registry, c);
  }

  ghost predicate Run(per: seq<nat>, states: seq<Pools>, events: seq<Event>) {
    && |states| == |events| + 1 && Layouts(per)
    && Init(states[0])
    && forall i :: 0 <= i < |events| ==> Step(per, states[i], events[i], states[i + 1])
  }

  /** How many class-`c` blocks are live in each state. */
  function LiveCounts(states: seq<Pools>, c: nat): (r: seq<nat>)
    ensures |r| == |states|
  {
    seq(|states|, i requires 0 <= i < |states| => |LiveOf(states[i], c)|)
  }

  lemma {:induction false} FilterCount(registry: seq<Slab>, released: set<Slab>, c: nat)
    ensures ClassSlabs(Kept(registry, released), c) <= ClassSlabs(registry, c)
  {
    if registry != [] {
      FilterCount(registry[1..], released, c);
      var keep := (slab: Slab) => slab !in released;
      assert Kept(registry[1..], released) == Filter(registry[1..], keep);
      assert Kept(registry, released) == Filter(registry, keep);
    }
  }

  /** A slab is made only when every slot of its class is live. */
  lemma {:induction false} GrowthNeedsAllLive(per: seq<nat>, p: Pools, slab: Slab, p': Pools)
    requires Inv(per, p) && Step(per, p, GrowAndTake(slab), p')
    ensures var c := slab.cls;
            c < CLASS_COUNT
            && |LiveOf(p, c)| == ClassSlabs(p.registry, c) * per[c]
            && |LiveOf(p', c)| == |LiveOf(p, c)| + 1
            && p'.registry == [slab] + p.registry
  {
    var c := slab.cls;
    EmptyListMeansAllLive(per, p, c);
    var x := AddSlab(p, slab, Shared).at[Shared][c][0];
    assert x == Slot(slab, slab.slots - 1);
    NewSlotNotLive(p, slab, x);
    hide Sound, Inv, FreshSlots, ClassSlabs;
    assert p'.live == p.live + {x};
    assert LiveOf(p', c) == LiveOf(p, c) + {x};
  }

  /** An allocation fails for want of a slab only when every slot of its class is live. */
  lemma {:induction false} FailureNeedsAllLive(per: seq<nat>, p: Pools, c: nat, p': Pools)
    requires Inv(per, p) && Step(per, p, GrowFails(c), p')
    ensures c < CLASS_COUNT && |LiveOf(p, c)| == ClassSlabs(p.registry, c) * per[c]
  {
    EveryClassListed(p);
    EmptyListMeansAllLive(per, p, c);
  }

  lemma EveryClassListed(p: Pools)
    requires Sound(p) && Shared in p.at
    ensures |p.at[Shared]| == CLASS_COUNT
  {
  }

  /** A trim removes exactly the slabs that have no live slot and whose unmap succeeds. */
  lemma TrimRemovesIff(per: seq<nat>, p: Pools, released: set<Slab>, failed: set<Slab>, p': Pools, slab: Slab)
    requires Inv(per, p) && Step(per, p, Trim(released, failed), p') && slab in p.registry
    ensures slab !in p'.registry <==> slab !in failed && forall x :: x in p.live ==> x.slab != slab
  {
    hide Sound, Layouts;
    EveryClassListed(p);
    assert slab.cls < CLASS_COUNT;
    if forall x :: x in p.live ==> x.slab != slab {
      forall n | 0 <= n < slab.slots
        ensures Slot(slab, n) in p.at[Shared][slab.cls]
      {
        FreeSlotIsShared(p, Slot(slab, n));
      }
      AllListedIsWholly(p, Shared, slab);
    } else if Wholly(p, Shared, slab) {
      var x :| x in p.live && x.slab == slab;
      LiveIsRegistered(p, x);
      WhollyMeansAllHeld(p, Shared, slab, x);
      assert false;
    }
  }

  /** Every allocation, growth into a mapped slab and free can run: no call is ever refused its critical section. */
  lemma CallsCanRun(per: seq<nat>, p: Pools, c: nat, slab: Slab, x: Slot)
    requires Inv(per, p) && c < CLASS_COUNT
    ensures if p.at[Shared][c] != [] then Step(per, p, Reuse(c), Grant(p, Shared, c)) else Step(per, p, GrowFails(c), p)
    ensures Fresh(p, slab) && slab.slots == per[slab.cls] && p.at[Shared][slab.cls] == []
            ==> Has(AddSlab(p, slab, Shared), Shared, slab.cls, 1)
                && Step(per, p, GrowAndTake(slab), Grant(AddSlab(p, slab, Shared), Shared, slab.cls))
    ensures x in p.live ==> x.slab.cls < CLASS_COUNT && Step(per, p, Free(x), Reclaim(p, x, Shared))
  {
    EveryClassListed(p);
    if x in p.live {
      LiveIsRegistered(p, x);
    }
    hide Sound, Reclaim, RegistryOk;
  }

  lemma LiveIsRegistered(p: Pools, x: Slot)
    requires Sound(p) && x in p.live
    ensures Registered(p.registry, x)
  {
  }

  lemma FreeSlotIsShared(p: Pools, x: Slot)
    requires Sound(p) && p.at.Keys == {Shared} && Registered(p.registry, x) && x !in p.live
    ensures InPool(p, Shared, x)
  {
    ExactlyOnePlace(p, x);
    var q :| InPool(p, q, x);
    assert q in p.at.Keys;
  }

  lemma {:induction false} SpaceStep(per: seq<nat>, p: Pools, e: Event, p': Pools, c: nat)
    requires Inv(per, p) && Step(per, p, e, p') && c < CLASS_COUNT
    ensures ClassSlabs(p'.registry, c) > ClassSlabs(p.registry, c)
            ==> |LiveOf(p', c)| == (ClassSlabs(p'.registry, c) - 1) * per[c] + 1
  {
    match e
    case GrowAndTake(slab) =>
      GrowthNeedsAllLive(per, p, slab, p');
      assert p'.registry[1..] == p.registry;
      hide LiveOf, Inv, Step;
    case Trim(released, failed) =>
      FilterCount(p.registry, released, c);
      hide Inv;
    case _ =>
      hide Inv, LiveOf;
  }

  lemma NewSlotNotLive(p: Pools, slab: Slab, x: Slot)
    requires Sound(p) && Fresh(p, slab) && x.slab == slab
    ensures x !in p.live
  {
  }

  /** `slabs` slabs of `n` slots are accounted for by a peak of `peak` live blocks. */
  ghost predicate Paid(slabs: nat, n: nat, peak: nat) {
    slabs > 0 ==> (slabs - 1) * n + 1 <= peak
  }

  lemma {:induction false} InitPaid(p: Pools, c: nat, n: nat, peak: nat)
    requires Init(p)
    ensures Paid(ClassSlabs(p.registry, c), n, peak)
  {
  }

  lemma PaidStep(before: nat, after: nat, n: nat, oldPeak: nat, peak: nat, live: nat)
    requires Paid(before, n, oldPeak) && oldPeak <= peak && live <= peak
    requires after > before ==> live == (after - 1) * n + 1
    ensures Paid(after, n, peak)
  {
    if 0 < after <= before {
      FewerSlabsNeedLess(after, before, n);
    }
  }

  lemma {:induction false} SpaceAt(per: seq<nat>, states: seq<Pools>, events: seq<Event>, c: nat, n: nat)
    requires Run(per, states, events) && n < |states| && c < CLASS_COUNT == |per|
    ensures Inv(per, states[n]) && Paid(ClassSlabs(states[n].registry, c), per[c], Peak(LiveCounts(states, c), n))
    decreases n
  {
    hide Step, Inv, ClassSlabs, LiveOf, Init, Paid, Layouts;
    if n == 0 {
      InitInv(per, states[0]);
      InitPaid(states[0], c, per[c], Peak(LiveCounts(states, c), 0));
    } else {
      SpaceAt(per, states, events, c, n - 1);
      InvStep(per, states[n - 1], events[n - 1], states[n]);
      SpaceStep(per, states[n - 1], events[n - 1], states[n], c);
      PaidStep(ClassSlabs(states[n - 1].registry, c), ClassSlabs(states[n].registry, c), per[c],
               Peak(LiveCounts(states, c), n - 1), Peak(LiveCounts(states, c), n), |LiveOf(states[n], c)|);
    }
  }

  lemma FewerSlabsNeedLess(a: nat, b: nat, n: nat)
    requires 0 < a <= b
    ensures (a - 1) * n <= (b - 1) * n
  {
  }

  /**
   * In every run of the locked variant, the slots of a class that has a slab number at most the peak
   * of its live blocks plus one slab's slots minus one.
   */
  lemma {:induction false} LockedSpaceBound(per: seq<nat>, states: seq<Pools>, events: seq<Event>, c: nat, n: nat)
    requires Run(per, states, events) && n < |states| && c < CLASS_COUNT
    requires ClassSlabs(states[n].registry, c) > 0
    ensures ClassSlabs(states[n].registry, c) * per[c] <= Peak(LiveCounts(states, c), n) + per[c] - 1
  {
    SpaceAt(per, states, events, c, n);
    hide Step, Inv, ClassSlabs, Peak, LiveCounts, Init;
    OneMoreSlab(ClassSlabs(states[n].registry, c) - 1, per[c]);
  }
}
