/**
 * The test oracle (src/allocator.c:564-655) on the pool layer: its uniqueness checks always hold, and the
 * number it reports as live blocks counts, besides the live slots, those in other threads' caches and hands.
 */
module SnapshotOracle {
  import opened Sequences
  import opened SizeClasses
  import opened SlotPools
  import C = CacheSpec

  /** The sum of slot counts along the registry. */
  function TotalSlots(registry: seq<Slab>): nat {
    if registry == [] then 0 else registry[0].slots + TotalSlots(registry[1..])
  }

  function SlotsOf(registry: seq<Slab>): set<Slot> {
    if registry == [] then {} else ToSet(FreshSlots(registry[0], registry[0].slots)) + SlotsOf(registry[1..])
  }

  /** The slots in the lists of the first `n` classes. */
  function SlotsBelow(lists: seq<seq<Slot>>, n: nat): set<Slot>
    requires n <= |lists|
  {
    if n == 0 then {} else SlotsBelow(lists, n - 1) + ToSet(lists[n - 1])
  }

  /** The two pools the oracle walks. */
  ghost predicate Walks(p: Pools, t: Tid) {
    Shared in p.at && Cache(t) in p.at
  }

  /** The slots in pools the oracle does not see: other threads' caches, and hands. */
  ghost function Elsewhere(p: Pools, t: Tid): set<Slot> {
    set x | x in SlotsOf(p.registry) && Unseen(p, t, x)
  }

  ghost predicate Unseen(p: Pools, t: Tid, x: Slot) {
    exists q :: q != Shared && q != Cache(t) && InPool(p, q, x)
  }

  /** What the oracle reports as live blocks: `total_slots - shared_free_blocks - current_local_blocks`. */
  function Reported(p: Pools, t: Tid): int
    requires Shared in p.at && Cache(t) in p.at
  {
    TotalSlots(p.registry) - C.TotalBlocks(p.at[Shared], |p.at[Shared]|) - C.TotalBlocks(p.at[Cache(t)], |p.at[Cache(t)]|)
  }

  /** How often the oracle meets a slot along one list. */
  function Occurrences(x: Slot, s: seq<Slot>): nat {
    if s == [] then 0 else (if s[0] == x then 1 else 0) + Occurrences(x, s[1..])
  }

  lemma {:induction false} OccursOnce(x: Slot, s: seq<Slot>)
    requires NoDup(s)
    ensures Occurrences(x, s) == if x in s then 1 else 0
  {
    if s != [] {
      assert s == [s[0]] + s[1..];
      NoDupSplit([s[0]], s[1..]);
      OccursOnce(x, s[1..]);
    }
  }

  lemma {:induction false} SlotsOfRegistry(registry: seq<Slab>)
    requires RegistryOk(registry)
    ensures |SlotsOf(registry)| == TotalSlots(registry)
    ensures forall x :: x in SlotsOf(registry) <==> Registered(registry, x)
  {
    if registry != [] {
      var first, rest := registry[0], registry[1..];
      assert registry == [first] + rest && first !in rest;
      SlotsOfRegistry(rest);
      FreshSlotsAll(first, first.slots);
      NoDupCardinality(FreshSlots(first, first.slots));
      var mine := ToSet(FreshSlots(first, first.slots));
      assert mine !! SlotsOf(rest);
      hide SlotsOf, TotalSlots, FreshSlots;
      assert |mine + SlotsOf(rest)| == |mine| + |SlotsOf(rest)|;
    }
  }

  lemma {:induction false} SlotsOfPlace(owner: map<Slot, Spot>, lists: seq<seq<Slot>>, q: Place, n: nat)
    requires n <= |lists| && forall c :: 0 <= c < |lists| ==> Lists(owner, lists[c], q, c)
    ensures |SlotsBelow(lists, n)| == C.TotalBlocks(lists, n)
    ensures forall x :: x in SlotsBelow(lists, n) <==> x in owner && owner[x] == In(q) && x.slab.cls < n
  {
    if n > 0 {
      SlotsOfPlace(owner, lists, q, n - 1);
      assert Lists(owner, lists[n - 1], q, n - 1);
      NoDupCardinality(lists[n - 1]);
      assert SlotsBelow(lists, n - 1) !! ToSet(lists[n - 1]);
    }
  }

  /**
   * The reported number never underflows: it is the number of live slots plus that of slots out of the
   * oracle's sight, so it is the number of live slots exactly when there are none of those.
   */
  lemma OracleCountsLiveSlots(p: Pools, t: Tid)
    requires Sound(p) && Walks(p, t)
    ensures Reported(p, t) == |p.live| + |Elsewhere(p, t)|
    ensures Reported(p, t) == |p.live| <==> forall q, c :: q in p.at && q != Shared && q != Cache(t) && 0 <= c < |p.at[q]| ==> p.at[q][c] == []
  {
    hide Sound, SlotsOf, TotalSlots, SlotsBelow, C.TotalBlocks, Unseen, Elsewhere;
    var shared, cached := LiveSharedCached(p, t);
    var elsewhere := Elsewhere(p, t);
    assert |p.live + shared + cached + elsewhere| == |p.live| + |shared| + |cached| + |elsewhere|;
    NothingElsewhere(p, t);
  }

  lemma {:induction false} NothingElsewhere(p: Pools, t: Tid)
    requires Sound(p) && Walks(p, t)
    ensures Elsewhere(p, t) == {}
            <==> forall q, c :: q in p.at && q != Shared && q != Cache(t) && 0 <= c < |p.at[q]| ==> p.at[q][c] == []
  {
    hide Sound, SlotsOf, Registered;
    RegistryOfSound(p);
    SlotsOfRegistry(p.registry);
    forall q, c | q in p.at && q != Shared && q != Cache(t) && 0 <= c < |p.at[q]| && p.at[q][c] != []
      ensures p.at[q][c][0] in Elsewhere(p, t)
    {
      PooledSlotsAreRegistered(p, q, c, p.at[q][c][0]);
    }
  }

  lemma RegistryOfSound(p: Pools)
    requires Sound(p)
    ensures RegistryOk(p.registry)
  {
  }

  /** The registered slots are the live ones, the shared ones, the cached ones and the rest, without overlap. */
  lemma LiveSharedCached(p: Pools, t: Tid) returns (shared: set<Slot>, cached: set<Slot>)
    requires Sound(p) && Walks(p, t)
    ensures |p.live + shared + cached + Elsewhere(p, t)| == TotalSlots(p.registry)
    ensures p.live !! shared !! cached !! Elsewhere(p, t)
    ensures |shared| == C.TotalBlocks(p.at[Shared], |p.at[Shared]|)
    ensures |cached| == C.TotalBlocks(p.at[Cache(t)], |p.at[Cache(t)]|)
  {
    var owner: map<Slot, Spot> :| Placed(p, owner);
    hide SlotsOf, TotalSlots, SlotsBelow, C.TotalBlocks, Placed, Sound, Registered, Lists, RegistryOk, Elsewhere;
    PlacedParts(p, owner, Shared);
    PlacedParts(p, owner, Cache(t));
    SlotsOfRegistry(p.registry);
    SlotsOfPlace(owner, p.at[Shared], Shared, CLASS_COUNT);
    SlotsOfPlace(owner, p.at[Cache(t)], Cache(t), CLASS_COUNT);
    shared, cached := SlotsBelow(p.at[Shared], CLASS_COUNT), SlotsBelow(p.at[Cache(t)], CLASS_COUNT);
    Partition(p, owner, t, SlotsOf(p.registry), shared, cached);
  }

  lemma {:induction false} Partition(p: Pools, owner: map<Slot, Spot>, t: Tid, slots: set<Slot>, shared: set<Slot>, cached: set<Slot>)
    requires Placed(p, owner) && Walks(p, t) && slots == SlotsOf(p.registry)
    requires forall x :: x in slots <==> Registered(p.registry, x)
    requires forall x :: x in shared <==> x in owner && owner[x] == In(Shared) && x.slab.cls < CLASS_COUNT
    requires forall x :: x in cached <==> x in owner && owner[x] == In(Cache(t)) && x.slab.cls < CLASS_COUNT
    ensures slots == p.live + shared + cached + Elsewhere(p, t)
    ensures p.live !! shared !! cached !! Elsewhere(p, t)
  {
    hide Placed, Registered, SlotsOf, Unseen;
    forall x | Registered(p.registry, x)
      ensures x in owner && x.slab.cls < CLASS_COUNT
      ensures x in p.live <==> owner[x] == Live
      ensures Unseen(p, t, x) <==> owner[x].In? && owner[x].place != Shared && owner[x].place != Cache(t)
    {
      WhereItIs(p, owner, t, x);
    }
    LiveAndListedAreRegistered(p, owner);
  }

  lemma LiveAndListedAreRegistered(p: Pools, owner: map<Slot, Spot>)
    requires Placed(p, owner)
    ensures forall x :: x in owner <==> Registered(p.registry, x)
    ensures forall x :: x in p.live ==> x in owner
  {
    hide ListsAgree, RegistryOk;
  }

  lemma WhereItIs(p: Pools, owner: map<Slot, Spot>, t: Tid, x: Slot)
    requires Placed(p, owner) && Registered(p.registry, x)
    ensures x in owner && x.slab.cls < CLASS_COUNT
    ensures x in p.live <==> owner[x] == Live
    ensures Unseen(p, t, x) <==> owner[x].In? && owner[x].place != Shared && owner[x].place != Cache(t)
  {
    hide NoDup;
    forall q | InPool(p, q, x)
      ensures owner[x] == In(q)
    {
      assert Lists(owner, p.at[q][x.slab.cls], q, x.slab.cls);
    }
    if owner[x].In? {
      var q := owner[x].place;
      assert Lists(owner, p.at[q][x.slab.cls], q, x.slab.cls);
      assert InPool(p, q, x);
    }
  }

  lemma PlacedParts(p: Pools, owner: map<Slot, Spot>, q: Place)
    requires Placed(p, owner) && q in p.at
    ensures RegistryOk(p.registry) && |p.at[q]| == CLASS_COUNT
    ensures forall c :: 0 <= c < |p.at[q]| ==> Lists(owner, p.at[q][c], q, c)
  {
    hide Lists, RegistryOk;
  }

  /** The oracle's uniqueness checks: registered, of the list's class, once in its own lists and not in the others. */
  lemma OracleChecksHold(p: Pools, t: Tid, q: Place, c: nat, x: Slot)
    requires Sound(p) && Walks(p, t) && (q == Shared || q == Cache(t))
    requires c < CLASS_COUNT && x in p.at[q][c]
    ensures Registered(p.registry, x) && x.slab.cls == c
    ensures forall r, d :: (r == Shared || r == Cache(t)) && 0 <= d < CLASS_COUNT
              ==> Occurrences(x, p.at[r][d]) == (if r == q && d == c then 1 else 0)
  {
    var owner: map<Slot, Spot> :| Placed(p, owner);
    assert Lists(owner, p.at[q][c], q, c);
    forall r, d | (r == Shared || r == Cache(t)) && 0 <= d < CLASS_COUNT
      ensures Occurrences(x, p.at[r][d]) == (if r == q && d == c then 1 else 0)
    {
      assert Lists(owner, p.at[r][d], r, d);
      OccursOnce(x, p.at[r][d]);
    }
  }
}
