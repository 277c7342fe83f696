/**
 * What clients see of either variant: which slabs exist and which slots are live. A slot is handed
 * out only when it is not live, and a slab disappears only when none of its slots is.
 */
module SlotAllocator {
  import opened Sequences
  import opened SlotPools

  datatype View = View(registry: set<Slab>, live: set<Slot>)

  datatype Action =
    | Quiet
    | Allocate(x: Slot)
    | Release(x: Slot)
    | Grow(slab: Slab)
    | Shrink(released: set<Slab>)

  ghost predicate Permitted(v: View, act: Action) {
    match act
    case Quiet => true
    case Allocate(x) => x.slab in v.registry && x.index < x.slab.slots && x !in v.live
    case Release(x) => x in v.live
    case Grow(slab) => forall s :: s in v.registry ==> s.id != slab.id
    case Shrink(released) => released <= v.registry && forall x :: x in v.live ==> x.slab !in released
  }

  function Effect(v: View, act: Action): View {
    match act
    case Quiet => v
    case Allocate(x) => v.(live := v.live + {x})
    case Release(x) => v.(live := v.live - {x})
    case Grow(slab) => v.(registry := v.registry + {slab})
    case Shrink(released) => v.(registry := v.registry - released)
  }

  function ViewOf(p: Pools): View {
    View(ToSet(p.registry), p.live)
  }

  lemma MoveIsQuiet(p: Pools, from: Place, to: Place, c: nat, k: nat)
    requires Has(p, from, c, k) && Has(p, to, c, 0) && from != to
    ensures ViewOf(Move(p, from, to, c, k)) == ViewOf(p)
  {
  }

  lemma GrantAllocates(p: Pools, from: Place, c: nat)
    requires Sound(p) && Has(p, from, c, 1)
    ensures var x := p.at[from][c][0];
            Permitted(ViewOf(p), Allocate(x)) && ViewOf(Grant(p, from, c)) == Effect(ViewOf(p), Allocate(x))
  {
    PooledSlotsAreRegistered(p, from, c, p.at[from][c][0]);
  }

  lemma ReclaimReleases(p: Pools, x: Slot, to: Place)
    requires x in p.live && Has(p, to, x.slab.cls, 0)
    ensures Permitted(ViewOf(p), Release(x)) && ViewOf(Reclaim(p, x, to)) == Effect(ViewOf(p), Release(x))
  {
  }

  lemma AddSlabGrows(p: Pools, slab: Slab, to: Place)
    requires Fresh(p, slab) && Has(p, to, slab.cls, 0)
    ensures Permitted(ViewOf(p), Grow(slab)) && ViewOf(AddSlab(p, slab, to)) == Effect(ViewOf(p), Grow(slab))
  {
  }

  /** A sweep only ever removes slabs without live slots. */
  lemma SweepShrinks(p: Pools, q: Place, released: set<Slab>, p': Pools)
    requires Sound(p) && Sweep(p, q, released, p')
    ensures Permitted(ViewOf(p), Shrink(released)) && ViewOf(p') == Effect(ViewOf(p), Shrink(released))
  {
    forall x | x in p.live
      ensures x.slab !in released
    {
      var owner: map<Slot, Spot> :| Placed(p, owner);
      SweepSparesUsedSlabs(p, q, released, p', x);
    }
  }
}
