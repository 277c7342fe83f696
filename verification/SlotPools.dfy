/**
 * Where every slot is. A pool is a place that holds one list of free slots per size class: the shared
 * lists, one thread's cache, or the transfer lists one thread carries in the middle of a call. All
 * other registered slots are live. Both allocator variants are built from the moves defined here.
 */
module SlotPools {
  import opened Sequences
  import opened SizeClasses

  type Tid = nat

  /** A slab in the registry: `slots` slots of class `cls` in one mapping of `length` bytes. */
  datatype Slab = Slab(id: nat, cls: nat, slots: nat, length: nat)
  datatype Slot = Slot(slab: Slab, index: nat)

  datatype Place = Shared | Cache(t: Tid) | Hand(t: Tid)
  datatype Spot = Live | In(place: Place)

  datatype Pools = Pools(registry: seq<Slab>, at: map<Place, seq<seq<Slot>>>, live: set<Slot>)

  /** `s` lists, without repetition, exactly the class-`c` slots that are in `place`. */
  ghost predicate Lists(owner: map<Slot, Spot>, s: seq<Slot>, place: Place, c: nat) {
    NoDup(s) && forall x :: x in s <==> x in owner && owner[x] == In(place) && x.slab.cls == c
  }

  ghost predicate RegistryOk(registry: seq<Slab>) {
    && (forall s :: s in registry ==> s.cls < CLASS_COUNT && s.slots > 0)
    && (forall i, j :: 0 <= i < j < |registry| ==> registry[i].id != registry[j].id)
  }

  ghost predicate Registered(registry: seq<Slab>, x: Slot) {
    x.slab in registry && x.index < x.slab.slots
  }

  /** `owner` says where each registered slot is: with the client, or in one of the places. */
  ghost predicate Census(registry: seq<Slab>, live: set<Slot>, places: set<Place>, owner: map<Slot, Spot>) {
    && RegistryOk(registry)
    && (forall x :: x in owner <==> Registered(registry, x))
    && (forall x :: x in live <==> x in owner && owner[x] == Live)
    && (forall x :: x in owner && owner[x].In? ==> owner[x].place in places)
  }

  ghost predicate ListsAgree(at: map<Place, seq<seq<Slot>>>, owner: map<Slot, Spot>) {
    && (forall q :: q in at ==> |at[q]| == CLASS_COUNT)
    && (forall q, c :: q in at && 0 <= c < CLASS_COUNT ==> Lists(owner, at[q][c], q, c))
  }

  ghost predicate Placed(p: Pools, owner: map<Slot, Spot>) {
    Census(p.registry, p.live, p.at.Keys, owner) && ListsAgree(p.at, owner)
  }

  ghost predicate Sound(p: Pools) {
    exists owner: map<Slot, Spot> :: Placed(p, owner)
  }

  ghost predicate InPool(p: Pools, q: Place, x: Slot) {
    q in p.at && x.slab.cls < |p.at[q]| && x in p.at[q][x.slab.cls]
  }

  /** A live slot is in no pool; any other registered slot is in exactly one, listed once. */
  lemma ExactlyOnePlace(p: Pools, x: Slot)
    requires Sound(p) && Registered(p.registry, x)
    ensures x in p.live ==> forall q :: !InPool(p, q, x)
    ensures x !in p.live ==> exists q :: InPool(p, q, x)
    ensures forall q, r :: InPool(p, q, x) && InPool(p, r, x) ==> q == r
    ensures forall q :: q in p.at && x.slab.cls < |p.at[q]| ==> NoDup(p.at[q][x.slab.cls])
  {
    var owner: map<Slot, Spot> :| Placed(p, owner);
    var c := x.slab.cls;
    forall q | q in p.at
      ensures Lists(owner, p.at[q][c], q, c)
    {
    }
    if x !in p.live {
      assert InPool(p, owner[x].place, x);
    }
  }

  /** Pools hold nothing but registered slots of the list's own class. */
  lemma PooledSlotsAreRegistered(p: Pools, q: Place, c: nat, x: Slot)
    requires Sound(p) && q in p.at && c < |p.at[q]| && x in p.at[q][c]
    ensures Registered(p.registry, x) && x.slab.cls == c && x !in p.live && InPool(p, q, x)
  {
    var owner: map<Slot, Spot> :| Placed(p, owner);
    assert Lists(owner, p.at[q][c], q, c);
  }

  function Relocate(owner: map<Slot, Spot>, slots: seq<Slot>, spot: Spot): map<Slot, Spot> {
    map x | x in owner :: if x in slots then spot else owner[x]
  }

  // ---- Moves ----

  predicate Has(p: Pools, q: Place, c: nat, k: nat) {
    q in p.at && c < |p.at[q]| && k <= |p.at[q][c]|
  }

  function Put(at: map<Place, seq<seq<Slot>>>, q: Place, c: nat, s: seq<Slot>): map<Place, seq<seq<Slot>>>
    requires q in at && c < |at[q]|
  {
    at[q := at[q][c := s]]
  }

  /** The first `k` class-`c` slots of `from` go, in order, to the front of `to`. */
  function Move(p: Pools, from: Place, to: Place, c: nat, k: nat): Pools
    requires Has(p, from, c, k) && Has(p, to, c, 0) && from != to
  {
    var s := p.at[from][c];
    p.(at := Put(Put(p.at, from, c, s[k..]), to, c, s[..k] + p.at[to][c]))
  }

  /** The first class-`c` slot of `from` goes to the client. */
  function Grant(p: Pools, from: Place, c: nat): Pools
    requires Has(p, from, c, 1)
  {
    var s := p.at[from][c];
    p.(at := Put(p.at, from, c, s[1..]), live := p.live + {s[0]})
  }

  /** A live slot goes to the front of its class list in `to`. */
  function Reclaim(p: Pools, x: Slot, to: Place): Pools
    requires Has(p, to, x.slab.cls, 0)
  {
    p.(at := Put(p.at, to, x.slab.cls, [x] + p.at[to][x.slab.cls]), live := p.live - {x})
  }

  /** The chain the slab constructor builds: the last slot first. */
  function FreshSlots(slab: Slab, n: nat): (s: seq<Slot>)
    ensures |s| == n
    ensures forall i :: 0 <= i < n ==> s[i] == Slot(slab, n - 1 - i)
  {
    if n == 0 then [] else [Slot(slab, n - 1)] + FreshSlots(slab, n - 1)
  }

  ghost predicate Fresh(p: Pools, slab: Slab) {
    slab.cls < CLASS_COUNT && slab.slots > 0 && forall s :: s in p.registry ==> s.id != slab.id
  }

  /** A new slab enters the registry with all its slots in `to`. */
  function AddSlab(p: Pools, slab: Slab, to: Place): Pools
    requires Has(p, to, slab.cls, 0)
  {
    Pools([slab] + p.registry,
          Put(p.at, to, slab.cls, FreshSlots(slab, slab.slots) + p.at[to][slab.cls]),
          p.live)
  }

  lemma MoveKeepsSound(p: Pools, from: Place, to: Place, c: nat, k: nat)
    requires Sound(p) && Has(p, from, c, k) && Has(p, to, c, 0) && from != to
    ensures Sound(Move(p, from, to, c, k))
  {
    var owner: map<Slot, Spot> :| Placed(p, owner);
    MovePlaced(p, owner, from, to, c, k);
  }

  lemma MovePlaced(p: Pools, owner: map<Slot, Spot>, from: Place, to: Place, c: nat, k: nat)
    requires Placed(p, owner) && Has(p, from, c, k) && Has(p, to, c, 0) && from != to
    ensures Placed(Move(p, from, to, c, k), Relocate(owner, p.at[from][c][..k], In(to)))
  {
    var s := p.at[from][c];
    var owner' := Relocate(owner, s[..k], In(to));
    var p' := Move(p, from, to, c, k);
    assert Lists(owner, s, from, c) && Lists(owner, p.at[to][c], to, c);
    assert s == s[..k] + s[k..];
    NoDupSplit(s[..k], s[k..]);
    NoDupConcat(s[..k], p.at[to][c]);
    forall q, d | q in p'.at && 0 <= d < CLASS_COUNT
      ensures Lists(owner', p'.at[q][d], q, d)
    {
      assert Lists(owner, p.at[q][d], q, d);
      if d == c && (q == from || q == to) {
        forall x
          ensures x in p'.at[q][d] <==> x in owner' && owner'[x] == In(q) && x.slab.cls == d
        {
          assert x in s <==> x in s[..k] || x in s[k..];
        }
      } else {
        assert p'.at[q][d] == p.at[q][d];
        OthersKeep(owner, s[..k], In(to), p.at[q][d], q, d);
      }
    }
  }

  /** A list loses and gains nothing when the relocated slots are of another place or class. */
  lemma OthersKeep(owner: map<Slot, Spot>, moved: seq<Slot>, spot: Spot, s: seq<Slot>, q: Place, d: nat)
    requires Lists(owner, s, q, d)
    requires forall x :: x in moved ==> x in owner && !(owner[x] == In(q) && x.slab.cls == d)
    requires forall x :: x in moved ==> !(spot == In(q) && x.slab.cls == d)
    ensures Lists(Relocate(owner, moved, spot), s, q, d)
  {
  }

  lemma GrantKeepsSound(p: Pools, from: Place, c: nat)
    requires Sound(p) && Has(p, from, c, 1)
    ensures Sound(Grant(p, from, c))
  {
    var owner: map<Slot, Spot> :| Placed(p, owner);
    var s := p.at[from][c];
    var owner' := Relocate(owner, s[..1], Live);
    var p' := Grant(p, from, c);
    assert Lists(owner, s, from, c);
    assert s == s[..1] + s[1..];
    NoDupSplit(s[..1], s[1..]);
    forall q, d | q in p'.at && 0 <= d < CLASS_COUNT
      ensures Lists(owner', p'.at[q][d], q, d)
    {
      assert Lists(owner, p.at[q][d], q, d);
      if d == c && q == from {
        assert forall x :: x in s <==> x in s[..1] || x in s[1..];
      } else {
        assert p'.at[q][d] == p.at[q][d];
        OthersKeep(owner, s[..1], Live, p.at[q][d], q, d);
      }
    }
    assert Placed(p', owner');
  }

  lemma ReclaimLists(p: Pools, owner: map<Slot, Spot>, x: Slot, to: Place, q: Place, d: nat)
    requires ListsAgree(p.at, owner) && x in owner && owner[x] == Live && Has(p, to, x.slab.cls, 0)
    requires q in p.at && d < CLASS_COUNT
    ensures var p' := Reclaim(p, x, to);
            q in p'.at && |p'.at[q]| == CLASS_COUNT && Lists(Relocate(owner, [x], In(to)), p'.at[q][d], q, d)
  {
    assert Lists(owner, p.at[q][d], q, d);
    if d == x.slab.cls && q == to {
      NoDupConcat([x], p.at[q][d]);
    } else {
      assert Reclaim(p, x, to).at[q][d] == p.at[q][d];
      OthersKeep(owner, [x], In(to), p.at[q][d], q, d);
    }
  }

  lemma ReclaimKeepsSound(p: Pools, x: Slot, to: Place)
    requires Sound(p) && x in p.live && Has(p, to, x.slab.cls, 0)
    ensures Sound(Reclaim(p, x, to))
  {
    hide Lists, RegistryOk;
    var owner: map<Slot, Spot> :| Placed(p, owner);
    var owner' := Relocate(owner, [x], In(to));
    var p' := Reclaim(p, x, to);
    assert p'.at.Keys == p.at.Keys;
    forall q, d | q in p'.at && 0 <= d < CLASS_COUNT
      ensures |p'.at[q]| == CLASS_COUNT && Lists(owner', p'.at[q][d], q, d)
    {
      ReclaimLists(p, owner, x, to, q, d);
    }
    forall q | q in p'.at
      ensures |p'.at[q]| == CLASS_COUNT
    {
      ReclaimLists(p, owner, x, to, q, 0);
    }
    assert Placed(p', owner');
  }

  function Enroll(owner: map<Slot, Spot>, slots: seq<Slot>, spot: Spot): map<Slot, Spot> {
    map x | x in owner.Keys + ToSet(slots) :: if x in slots then spot else owner[x]
  }

  lemma {:induction false} FreshSlotsAll(slab: Slab, n: nat)
    ensures NoDup(FreshSlots(slab, n))
    ensures forall x :: x in FreshSlots(slab, n) <==> x.slab == slab && x.index < n
  {
    var s := FreshSlots(slab, n);
    forall x: Slot | x.slab == slab && x.index < n
      ensures x in s
    {
      assert s[n - 1 - x.index] == x;
    }
  }

  lemma {:induction false} AddSlabLists(owner: map<Slot, Spot>, s: seq<Slot>, slab: Slab, to: Place, q: Place, d: nat)
    requires Lists(owner, s, q, d) && forall x :: x in owner ==> x.slab != slab
    ensures var added := FreshSlots(slab, slab.slots);
            Lists(Enroll(owner, added, In(to)), if q == to && d == slab.cls then added + s else s, q, d)
  {
    var added := FreshSlots(slab, slab.slots);
    FreshSlotsAll(slab, slab.slots);
    NoDupConcat(added, s);
  }

  lemma AddSlabRegistry(p: Pools, slab: Slab)
    requires RegistryOk(p.registry) && Fresh(p, slab)
    ensures RegistryOk([slab] + p.registry)
    ensures forall x :: Registered(p.registry, x) ==> x.slab != slab
    ensures forall x :: Registered([slab] + p.registry, x)
                        <==> Registered(p.registry, x) || (x.slab == slab && x.index < slab.slots)
  {
  }

  lemma {:induction false} Enrolled(owner: map<Slot, Spot>, slab: Slab, to: Place)
    requires forall x :: x in owner ==> x.slab != slab
    ensures var owner' := Enroll(owner, FreshSlots(slab, slab.slots), In(to));
            && (forall x :: x in owner' <==> x in owner || (x.slab == slab && x.index < slab.slots))
            && (forall x :: x in owner' ==> owner'[x] == (if x.slab == slab then In(to) else owner[x]))
  {
    FreshSlotsAll(slab, slab.slots);
  }

  lemma {:induction false} AddSlabCensus(p: Pools, owner: map<Slot, Spot>, slab: Slab, to: Place)
    requires Census(p.registry, p.live, p.at.Keys, owner) && Fresh(p, slab) && to in p.at
    ensures Census([slab] + p.registry, p.live, p.at.Keys, Enroll(owner, FreshSlots(slab, slab.slots), In(to)))
    ensures forall x :: x in owner ==> x.slab != slab
  {
    AddSlabRegistry(p, slab);
    hide FreshSlots, RegistryOk, Registered, Fresh, Enroll;
    Enrolled(owner, slab, to);
  }

  lemma {:induction false} AddSlabListsAgree(p: Pools, owner: map<Slot, Spot>, slab: Slab, to: Place)
    requires ListsAgree(p.at, owner) && Has(p, to, slab.cls, 0) && slab.cls < CLASS_COUNT
    requires forall x :: x in owner ==> x.slab != slab
    ensures ListsAgree(AddSlab(p, slab, to).at, Enroll(owner, FreshSlots(slab, slab.slots), In(to)))
  {
    hide Lists, Enroll, FreshSlots;
    var owner' := Enroll(owner, FreshSlots(slab, slab.slots), In(to));
    var at' := AddSlab(p, slab, to).at;
    forall q, d | q in at' && 0 <= d < CLASS_COUNT
      ensures Lists(owner', at'[q][d], q, d)
    {
      AddSlabLists(owner, p.at[q][d], slab, to, q, d);
    }
  }

  lemma AddSlabKeepsSound(p: Pools, slab: Slab, to: Place)
    requires Sound(p) && Fresh(p, slab) && Has(p, to, slab.cls, 0)
    ensures Sound(AddSlab(p, slab, to))
  {
    var owner: map<Slot, Spot> :| Placed(p, owner);
    assert slab.cls < CLASS_COUNT;
    hide Lists, Enroll, Census, ListsAgree, FreshSlots, Fresh;
    AddSlabCensus(p, owner, slab, to);
    AddSlabListsAgree(p, owner, slab, to);
    assert AddSlab(p, slab, to).at.Keys == p.at.Keys;
    assert Placed(AddSlab(p, slab, to), Enroll(owner, FreshSlots(slab, slab.slots), In(to)));
  }

  // ---- Trim ----

  /** How many of the listed slots belong to `slab`. */
  function SlabCount(s: seq<Slot>, slab: Slab): nat {
    |Filter(s, (x: Slot) => x.slab == slab)|
  }

  /** The slot numbers of `slab` in the list, as a set: distinct, and as many as the count says. */
  lemma SlabIndices(s: seq<Slot>, slab: Slab) returns (indices: set<nat>)
    requires NoDup(s)
    ensures |indices| == SlabCount(s, slab)
    ensures forall i :: i in indices <==> Slot(slab, i) in s
  {
    var keep := (x: Slot) => x.slab == slab;
    var f := Filter(s, keep);
    FilterNoDup(s, keep);
    var list := seq(|f|, i requires 0 <= i < |f| => f[i].index);
    forall i | 0 <= i < |f|
      ensures f[i] == Slot(slab, list[i])
    {
      assert f[i] in f;
    }
    NoDupCardinality(list);
    indices := ToSet(list);
    forall i | Slot(slab, i) in s
      ensures i in indices
    {
      assert Slot(slab, i) in f;
      var k :| 0 <= k < |f| && f[k] == Slot(slab, i);
      assert list[k] == i;
    }
  }

  /**
   * The count of a duplicate-free list reaches the slab's slot count exactly when the list holds
   * every slot of the slab.
   */
  lemma FullCountIffAllSlots(s: seq<Slot>, slab: Slab)
    requires NoDup(s)
    requires forall x :: x in s && x.slab == slab ==> x.index < slab.slots
    ensures SlabCount(s, slab) == slab.slots <==> forall i :: 0 <= i < slab.slots ==> Slot(slab, i) in s
  {
    var indices := SlabIndices(s, slab);
    forall i | i in indices
      ensures i in Below(slab.slots)
    {
      assert Slot(slab, i) in s;
    }
    if SlabCount(s, slab) == slab.slots {
      SubsetOfSameSize(indices, Below(slab.slots));
    }
    if forall i :: 0 <= i < slab.slots ==> Slot(slab, i) in s {
      assert indices == Below(slab.slots);
    }
  }

  /** The registry without the released slabs, in its order. */
  function Kept(registry: seq<Slab>, released: set<Slab>): (r: seq<Slab>)
    ensures forall slab :: slab in r <==> slab in registry && slab !in released
  {
    Filter(registry, (slab: Slab) => slab !in released)
  }

  function Retain(owner: map<Slot, Spot>, released: set<Slab>): map<Slot, Spot> {
    map x | x in owner && x.slab !in released :: owner[x]
  }

  ghost predicate Wholly(p: Pools, q: Place, slab: Slab) {
    slab in p.registry && q in p.at && slab.cls < |p.at[q]| && SlabCount(p.at[q][slab.cls], slab) == slab.slots
  }

  /**
   * A trim sweep over the lists in `q`: only slabs whose count is full go; the registry keeps the
   * other slabs in order, and each list keeps, in any order, the slots of the slabs that stay.
   */
  ghost predicate Sweep(p: Pools, q: Place, released: set<Slab>, p': Pools) {
    && q in p.at && q in p'.at && |p'.at[q]| == CLASS_COUNT == |p.at[q]|
    && (forall slab :: slab in released ==> Wholly(p, q, slab))
    && p'.registry == Kept(p.registry, released)
    && p'.live == p.live
    && p'.at == p.at[q := p'.at[q]]
    && (forall c :: 0 <= c < CLASS_COUNT ==> NoDup(p'.at[q][c]))
    && (forall c, x :: 0 <= c < CLASS_COUNT ==> (x in p'.at[q][c] <==> x in p.at[q][c] && x.slab !in released))
  }

  /** A slab all of whose slots are listed is wholly counted. */
  lemma AllListedIsWholly(p: Pools, q: Place, slab: Slab)
    requires Sound(p) && q in p.at && slab in p.registry && slab.cls < |p.at[q]|
    requires forall n :: 0 <= n < slab.slots ==> Slot(slab, n) in p.at[q][slab.cls]
    ensures Wholly(p, q, slab)
  {
    var owner: map<Slot, Spot> :| Placed(p, owner);
    assert Lists(owner, p.at[q][slab.cls], q, slab.cls);
    FullCountIffAllSlots(p.at[q][slab.cls], slab);
  }

  /** Every slot of a wholly counted slab is in the lists that were counted. */
  lemma WhollyMeansAllHeld(p: Pools, q: Place, slab: Slab, x: Slot)
    requires Sound(p) && Wholly(p, q, slab) && x.slab == slab && x.index < slab.slots
    ensures InPool(p, q, x) && x !in p.live
  {
    var owner: map<Slot, Spot> :| Placed(p, owner);
    assert Lists(owner, p.at[q][slab.cls], q, slab.cls);
    FullCountIffAllSlots(p.at[q][slab.cls], slab);
  }

  /**
   * Only a slab all of whose slots are in the swept lists can be unmapped: a slab with a live slot,
   * or a slot in any other pool, survives.
   */
  lemma SweepSparesUsedSlabs(p: Pools, q: Place, released: set<Slab>, p': Pools, x: Slot)
    requires Sound(p) && Sweep(p, q, released, p') && Registered(p.registry, x)
    requires x in p.live || exists r :: r != q && InPool(p, r, x)
    ensures x.slab !in released && x.slab in p'.registry
  {
    if x.slab in released {
      WhollyMeansAllHeld(p, q, x.slab, x);
      ExactlyOnePlace(p, x);
      assert false;
    }
  }

  lemma {:induction false} FilterKeepsRegistryOk(registry: seq<Slab>, keep: Slab -> bool)
    requires RegistryOk(registry)
    ensures RegistryOk(Filter(registry, keep))
  {
    if registry != [] {
      assert registry == [registry[0]] + registry[1..];
      FilterKeepsRegistryOk(registry[1..], keep);
      var rest := Filter(registry[1..], keep);
      forall i | 0 <= i < |rest|
        ensures rest[i].id != registry[0].id
      {
        assert rest[i] in rest;
        assert rest[i] in registry[1..];
      }
    }
  }

  lemma SweptSlotsWereHeld(p: Pools, owner: map<Slot, Spot>, q: Place, released: set<Slab>, p': Pools)
    requires Placed(p, owner) && Sweep(p, q, released, p')
    ensures forall x :: x in owner && x.slab in released ==> owner[x] == In(q)
  {
    assert Sound(p);
    forall x | x in owner && x.slab in released
      ensures owner[x] == In(q)
    {
      assert Registered(p.registry, x);
      WhollyMeansAllHeld(p, q, x.slab, x);
      assert Lists(owner, p.at[q][x.slab.cls], q, x.slab.cls);
    }
  }

  lemma SweptList(p: Pools, q: Place, released: set<Slab>, p': Pools, r: Place, d: nat, x: Slot)
    requires Sweep(p, q, released, p') && r in p'.at && d < CLASS_COUNT && d < |p.at[r]|
    ensures d < |p'.at[r]| && (NoDup(p.at[r][d]) ==> NoDup(p'.at[r][d]))
    ensures if r == q then x in p'.at[r][d] <==> x in p.at[r][d] && x.slab !in released
            else p'.at[r] == p.at[r]
  {
    hide Wholly, Kept;
  }

  lemma SweepLists(p: Pools, owner: map<Slot, Spot>, q: Place, released: set<Slab>, p': Pools, r: Place, d: nat)
    requires Sweep(p, q, released, p') && r in p'.at && d < CLASS_COUNT && d < |p.at[r]|
    requires forall x :: x in owner && x.slab in released ==> owner[x] == In(q)
    requires Lists(owner, p.at[r][d], r, d)
    ensures d < |p'.at[r]|
    ensures Lists(Retain(owner, released), p'.at[r][d], r, d)
  {
    assert forall x :: x in p.at[r][d] ==> x in owner && owner[x] == In(r);
    SweptList(p, q, released, p', r, d, Slot(Slab(0, 0, 0, 0), 0));
    hide Sweep;
    forall x
      ensures x in p'.at[r][d] <==> x in Retain(owner, released) && Retain(owner, released)[x] == In(r) && x.slab.cls == d
    {
      SweptList(p, q, released, p', r, d, x);
    }
  }

  lemma SweepCensus(p: Pools, owner: map<Slot, Spot>, q: Place, released: set<Slab>, p': Pools)
    requires Census(p.registry, p.live, p.at.Keys, owner) && Sweep(p, q, released, p')
    requires forall x :: x in owner && x.slab in released ==> owner[x] == In(q)
    ensures Census(p'.registry, p'.live, p'.at.Keys, Retain(owner, released))
  {
    FilterKeepsRegistryOk(p.registry, (slab: Slab) => slab !in released);
  }

  lemma SweepListsAgree(p: Pools, owner: map<Slot, Spot>, q: Place, released: set<Slab>, p': Pools)
    requires ListsAgree(p.at, owner) && Sweep(p, q, released, p')
    requires forall x :: x in owner && x.slab in released ==> owner[x] == In(q)
    ensures ListsAgree(p'.at, Retain(owner, released))
  {
    hide Lists, Retain;
    forall r, d | r in p'.at && 0 <= d < CLASS_COUNT
      ensures Lists(Retain(owner, released), p'.at[r][d], r, d)
    {
      SweepLists(p, owner, q, released, p', r, d);
    }
  }

  lemma SweepKeepsSound(p: Pools, q: Place, released: set<Slab>, p': Pools)
    requires Sound(p) && Sweep(p, q, released, p')
    ensures Sound(p')
  {
    var owner: map<Slot, Spot> :| Placed(p, owner);
    SweptSlotsWereHeld(p, owner, q, released, p');
    hide Lists, Census, ListsAgree, Retain, Sweep;
    SweepCensus(p, owner, q, released, p');
    SweepListsAgree(p, owner, q, released, p');
    assert Placed(p', Retain(owner, released));
  }
}
