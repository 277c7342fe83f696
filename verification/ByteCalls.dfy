/**
 * Whole runs of the byte-level world, and what `calloc` and `realloc` promise when other threads act
 * between their steps (src/allocator.c:283-361).
 */
module ByteCalls {
  import opened ByteMemory
  import opened ByteSteps
  import opened CheckedMath
  import opened Layout
  import opened Sequences
  import opened SizeClasses
  import H = HeapSpec

  ghost predicate Run(cfg: Config, ws: seq<World>, es: seq<Event>) {
    |ws| == |es| + 1 && forall k {:trigger es[k]} :: 0 <= k < |es| ==> Step(cfg, ws[k], es[k], ws[k + 1])
  }

  /** Nothing mapped, nothing live. */
  ghost predicate Initial(w: World) {
    w.maps == map[] && w.blocks == map[] && w.view.registry == {} && w.view.live == {}
  }

  lemma {:induction false} RunKeepsOk(cfg: Config, ws: seq<World>, es: seq<Event>, k: nat)
    requires Run(cfg, ws, es) && Ok(cfg, ws[0]) && k <= |es|
    ensures Ok(cfg, ws[k])
  {
    hide Ok, Step;
    if k > 0 {
      RunKeepsOk(cfg, ws, es, k - 1);
      assert Step(cfg, ws[k - 1], es[k - 1], ws[k]);
      StepKeepsOk(cfg, ws[k - 1], es[k - 1], ws[k]);
    }
  }

  /** The payload is aligned, holds what was requested, and lies in the mapping at `h`. */
  ghost predicate WellPlaced(cfg: Config, w: World, p: nat, h: nat)
    requires p in w.blocks
  {
    && h in w.maps && h <= p && p + w.blocks[p].capacity <= h + Length(w.maps[h])
    && 0 < w.blocks[p].requested <= w.blocks[p].capacity && p > 0 && Aligned(cfg, p)
  }

  /**
   * In every reachable world: live payloads are pairwise apart, free of slab headers and block
   * prefixes, inside the mapping of their owner, aligned, and large enough for what was requested.
   */
  lemma LivePayloadsAreSafe(cfg: Config, ws: seq<World>, es: seq<Event>, k: nat)
    requires Run(cfg, ws, es) && Initial(ws[0]) && k <= |es|
    ensures var w := ws[k];
            && (forall p, q :: p in w.blocks && q in w.blocks && p != q
                               ==> Apart(PayloadRange(p, w.blocks[p]), PayloadRange(q, w.blocks[q])))
            && (forall p, a: nat :: p in w.blocks && p <= a < p + w.blocks[p].capacity
                                    ==> Mapped(w, a) && !Metadata(cfg, w, a))
            && (forall p :: p in w.blocks ==> WellPlaced(cfg, w, p, Home(w.blocks[p].owner)))
  {
    hide Ok, Step, Mapped, Metadata, Aligned, Apart;
    assert Ok(cfg, ws[0]) by {
      InitialIsOk(cfg, ws[0]);
    }
    RunKeepsOk(cfg, ws, es, k);
    var w := ws[k];
    forall p, q | p in w.blocks && q in w.blocks && p != q
      ensures Apart(PayloadRange(p, w.blocks[p]), PayloadRange(q, w.blocks[q]))
    {
      PayloadsAreApart(cfg, w, p, q);
    }
    forall p, a: nat | p in w.blocks && p <= a < p + w.blocks[p].capacity
      ensures Mapped(w, a) && !Metadata(cfg, w, a)
    {
      PayloadIsNotMetadata(cfg, w, p, a);
    }
    forall p | p in w.blocks
      ensures WellPlaced(cfg, w, p, Home(w.blocks[p].owner))
    {
      PayloadInsideMapping(cfg, w, p);
      PointersArePositive(cfg, w, p);
    }
  }

  lemma InitialIsOk(cfg: Config, w: World)
    requires Initial(w)
    ensures Ok(cfg, w)
  {
  }

  // ---- Leaks ----

  lemma StepKeepsLeaks(cfg: Config, w: World, e: Event, w': World, b: nat)
    requires Step(cfg, w, e, w') && b in w.maps && w.maps[b].Leaked?
    ensures b in w'.maps && w'.maps[b] == w.maps[b]
  {
    StepIsBetweenOkWorlds(cfg, w, e, w');
    assert w'.maps == After(cfg, w, e).maps;
    if e.FreeLarge? {
      OwnerOk(cfg, w, e.p);
    }
    hide MapsOk, LiveOk, SinglesOk, BlocksOk, GoodSlab, ComputeLarge, LargeLength, PointerTo, Offset;
  }

  /** A large mapping whose unmap failed is never handed out again: it stays mapped for ever. */
  lemma {:induction false} LeaksAreForever(cfg: Config, ws: seq<World>, es: seq<Event>, i: nat, j: nat, b: nat)
    requires Run(cfg, ws, es) && i <= j <= |es| && b in ws[i].maps && ws[i].maps[b].Leaked?
    ensures b in ws[j].maps && ws[j].maps[b] == ws[i].maps[b]
    decreases j
  {
    hide Step;
    if i < j {
      LeaksAreForever(cfg, ws, es, i, j - 1, b);
      assert Step(cfg, ws[j - 1], es[j - 1], ws[j]);
      StepKeepsLeaks(cfg, ws[j - 1], es[j - 1], ws[j], b);
    }
  }

  // ---- Calls among the steps of other threads ----

  /** The step does not free, resize or write the block behind `p`. */
  ghost predicate Leaves(e: Event, p: nat) {
    match e
    case FreeSmall(q) => q != p
    case FreeLarge(q, _) => q != p
    case Store(q, _, _) => q != p
    case Retain(q, _) => q != p
    case _ => true
  }

  ghost predicate Allocates(e: Event, n: Word) {
    match e
    case AllocSmall(_, m) => m == n
    case AllocLarge(_, m) => m == n
    case _ => false
  }

  ghost predicate Frees(e: Event, p: nat) {
    match e
    case FreeSmall(q) => q == p
    case FreeLarge(q, _) => q == p
    case _ => false
  }

  ghost predicate SameBlock(w: World, w': World, p: nat) {
    p in w.blocks && p in w'.blocks && w'.blocks[p] == w.blocks[p] && Contents(w', p) == Contents(w, p)
  }

  lemma LeftBlockStays(cfg: Config, w: World, e: Event, w': World, p: nat)
    requires Step(cfg, w, e, w') && p in w.blocks && Leaves(e, p)
    ensures SameBlock(w, w', p)
  {
    hide Step, Contents, Enabled, Ok, After;
    StepIsBetweenOkWorlds(cfg, w, e, w');
    AllocationsAppear(cfg, w, e, w');
    NoPointerIsNull(cfg, w);
    hide PointerTo, Offset;
    OthersUnchanged(cfg, w, e, w', p);
  }

  /** A live block that every step between `i` and `j` leaves alone is still there, byte for byte. */
  lemma {:induction false} LeftBlockStaysAlong(cfg: Config, ws: seq<World>, es: seq<Event>, i: nat, j: nat, p: nat)
    requires Run(cfg, ws, es) && i <= j <= |es| && p in ws[i].blocks
    requires forall k {:trigger es[k]} :: i <= k < j ==> Leaves(es[k], p)
    ensures SameBlock(ws[i], ws[j], p)
    decreases j
  {
    hide Step, Contents, Leaves;
    if i < j {
      LeftBlockStaysAlong(cfg, ws, es, i, j - 1, p);
      assert Step(cfg, ws[j - 1], es[j - 1], ws[j]);
      LeftBlockStays(cfg, ws[j - 1], es[j - 1], ws[j], p);
    }
  }

  lemma AllocationFits(cfg: Config, w: World, e: Event, w': World, n: Word)
    requires Step(cfg, w, e, w') && Allocates(e, n)
    ensures 0 < n <= PTRDIFF_MAX
    ensures var p := Subject(cfg, e); p !in w.blocks && p in w'.blocks && w'.blocks[p].requested == n && p > 0
  {
    hide Step, Ok, After, OsGives, GoodSlab;
    StepIsBetweenOkWorlds(cfg, w, e, w');
    AllocationsAppear(cfg, w, e, w');
    hide PointerTo, Offset;
    PointersArePositive(cfg, w', Subject(cfg, e));
  }

  /** From the allocation at step `a` on, only step `z` touches the block behind `r`. */
  ghost predicate OnlyTouchedAt(es: seq<Event>, a: nat, z: nat, r: nat) {
    forall k {:trigger es[k]} :: a < k < |es| && k != z ==> Leaves(es[k], r)
  }

  /** What the caller writes at the front of a block it has just allocated is there at the end. */
  lemma FirstWriteLasts(cfg: Config, ws: seq<World>, es: seq<Event>, a: nat, z: nat, n: Word, r: nat, s: seq<Byte>)
    requires Run(cfg, ws, es) && a < z < |es| && Allocates(es[a], n) && r == Subject(cfg, es[a])
    requires es[z] == Store(r, 0, s) && OnlyTouchedAt(es, a, z, r)
    ensures 0 < n <= PTRDIFF_MAX && r > 0 && r !in ws[a].blocks && r in ws[|es|].blocks
    ensures |s| <= n == |Contents(ws[|es|], r)| && Contents(ws[|es|], r)[..|s|] == s
  {
    hide Step, Contents, Leaves, Subject, Allocates;
    assert Step(cfg, ws[a], es[a], ws[a + 1]);
    AllocationFits(cfg, ws[a], es[a], ws[a + 1], n);
    LeftBlockStaysAlong(cfg, ws, es, a + 1, z, r);
    assert Step(cfg, ws[z], es[z], ws[z + 1]);
    StoreWrites(cfg, ws[z], r, 0, s, ws[z + 1]);
    assert Contents(ws[z + 1], r)[..|s|] == s;
    LeftBlockStaysAlong(cfg, ws, es, z + 1, |es|, r);
  }

  function Zeros(n: nat): seq<Byte> {
    seq(n, _ => 0)
  }

  /**
   * `hplf_calloc` along a run: the caller's own steps are the allocation at `a` and the clearing at `z`;
   * a null result means it took none.
   */
  ghost predicate CallocCall(cfg: Config, ws: seq<World>, es: seq<Event>, count: Word, size: Word, r: nat, a: nat, z: nat) {
    Run(cfg, ws, es)
    && if count == 0 || size == 0 then r == 0
       else
         match Multiply(count, size)
         case None => r == 0
         case Some(total) =>
           r != 0 ==>
             && a < z < |es| && Allocates(es[a], total) && r == Subject(cfg, es[a])
             && es[z] == Store(r, 0, Zeros(total)) && OnlyTouchedAt(es, a, z, r)
  }

  /** Cleared memory is zero throughout, for the exact product of the two arguments. */
  lemma CallocMeaning(cfg: Config, ws: seq<World>, es: seq<Event>, count: Word, size: Word, r: nat, a: nat, z: nat)
    requires CallocCall(cfg, ws, es, count, size, r, a, z)
    ensures r != 0 ==> 0 < count * size <= PTRDIFF_MAX
                       && r in ws[|es|].blocks && Contents(ws[|es|], r) == Zeros(count * size)
  {
    hide Step, Contents, Leaves, Subject, Allocates, OnlyTouchedAt, Run;
    if r != 0 {
      FirstWriteLasts(cfg, ws, es, a, z, count * size, r, Zeros(count * size));
    }
  }

  /** The first bytes of the old block, at most `n`: what `hplf_realloc` copies. */
  ghost function Copied(w: World, p: nat, n: nat): seq<Byte>
    requires p in w.blocks
  {
    Contents(w, p)[..Min(|Contents(w, p)|, n)]
  }

  /** The caller's own steps, in order. */
  datatype Own = NoStep | OneStep(k: nat) | Three(a: nat, c: nat, f: nat)

  ghost predicate IsOwn(own: Own, k: nat) {
    match own
    case NoStep => false
    case OneStep(i) => k == i
    case Three(a, c, f) => k == a || k == c || k == f
  }

  /**
   * `hplf_realloc` of a live pointer along a run. Other threads leave the old block alone, since the
   * caller owns it, and the new one once it exists.
   */
  ghost predicate ReallocCall(cfg: Config, ws: seq<World>, es: seq<Event>, p: nat, n: Word, r: nat, own: Own) {
    && Run(cfg, ws, es) && p in ws[0].blocks
    && (forall k {:trigger es[k]} :: 0 <= k < |es| && !IsOwn(own, k) ==> Leaves(es[k], p))
    && if n == 0 then r == 0 && own.OneStep? && own.k < |es| && Frees(es[own.k], p)
       else if n > PTRDIFF_MAX then r == 0 && own.NoStep?
       else if CanRetain(ws[0].blocks[p], n) then
         r == p && own.OneStep? && own.k < |es| && es[own.k] == Retain(p, n)
       else if r == 0 then own.NoStep?
       else
         && own.Three? && own.a < own.c < own.f < |es|
         && Allocates(es[own.a], n) && r == Subject(cfg, es[own.a])
         && p in ws[own.c].blocks && es[own.c] == Store(r, 0, Copied(ws[own.c], p, n))
         && Frees(es[own.f], p)
         && forall k {:trigger es[k]} :: own.a < k < |es| && !IsOwn(own, k) ==> Leaves(es[k], r)
  }

  /** A failed call, and a size no pointer difference can hold, change nothing. */
  lemma FailedReallocChangesNothing(cfg: Config, ws: seq<World>, es: seq<Event>, p: nat, n: Word, own: Own)
    requires ReallocCall(cfg, ws, es, p, n, 0, own) && n != 0
    ensures SameBlock(ws[0], ws[|es|], p)
  {
    hide Step, Contents, Leaves, Subject, Allocates, CanRetain, Ok;
    if own.NoStep? {
      LeftBlockStaysAlong(cfg, ws, es, 0, |es|, p);
    } else {
      FirstWorldIsOk(cfg, ws, es, own.k);
      NoPointerIsNull(cfg, ws[0]);
      assert false;
    }
  }

  lemma FirstWorldIsOk(cfg: Config, ws: seq<World>, es: seq<Event>, k: nat)
    requires Run(cfg, ws, es) && k < |es|
    ensures Ok(cfg, ws[0])
  {
    hide Ok, Enabled, After, BytesFollow;
    assert Step(cfg, ws[0], es[0], ws[1]);
  }

  lemma FreedPointerIsGone(cfg: Config, w: World, e: Event, w': World, p: nat)
    requires Step(cfg, w, e, w') && Frees(e, p)
    ensures p in w.blocks && p !in w'.blocks
  {
    hide Step;
    AllocationsAppear(cfg, w, e, w');
  }

  lemma RetainedRealloc(cfg: Config, ws: seq<World>, es: seq<Event>, p: nat, n: Word, own: Own)
    requires ReallocCall(cfg, ws, es, p, n, p, own) && own.OneStep? && es[own.k] == Retain(p, n)
    ensures p in ws[|es|].blocks && |Contents(ws[|es|], p)| == n
    ensures H.SamePrefix(Contents(ws[0], p), Contents(ws[|es|], p))
  {
    hide Step, Contents, Leaves, Subject, Allocates, CanRetain, H.SamePrefix;
    var k := own.k;
    LeftBlockStaysAlong(cfg, ws, es, 0, k, p);
    assert Step(cfg, ws[k], es[k], ws[k + 1]);
    RetainKeepsPrefix(cfg, ws[k], p, n, ws[k + 1]);
    LeftBlockStaysAlong(cfg, ws, es, k + 1, |es|, p);
  }

  lemma MovedRealloc(cfg: Config, ws: seq<World>, es: seq<Event>, p: nat, n: Word, r: nat, own: Own)
    requires ReallocCall(cfg, ws, es, p, n, r, own) && own.Three?
    ensures r != p && r in ws[|es|].blocks && |Contents(ws[|es|], r)| == n
    ensures Contents(ws[|es|], r)[..|Copied(ws[0], p, n)|] == Copied(ws[0], p, n)
    ensures p !in ws[own.f + 1].blocks
  {
    hide Step, Contents, Leaves, Subject, Allocates, CanRetain;
    LeftBlockStaysAlong(cfg, ws, es, 0, own.a, p);
    AllocatingLeavesOthers(es[own.a], n, p);
    LeftBlockStaysAlong(cfg, ws, es, 0, own.c, p);
    assert Step(cfg, ws[own.a], es[own.a], ws[own.a + 1]);
    AllocationFits(cfg, ws[own.a], es[own.a], ws[own.a + 1], n);
    assert OnlyTouchedAt(es, own.a, own.c, r) by {
      FreeingOneLeavesOthers(es[own.f], p, r);
    }
    hide OnlyTouchedAt;
    FirstWriteLasts(cfg, ws, es, own.a, own.c, n, r, Copied(ws[own.c], p, n));
    assert Step(cfg, ws[own.f], es[own.f], ws[own.f + 1]);
    FreedPointerIsGone(cfg, ws[own.f], es[own.f], ws[own.f + 1], p);
  }

  lemma AllocatingLeavesOthers(e: Event, n: Word, p: nat)
    requires Allocates(e, n)
    ensures Leaves(e, p)
  {
  }

  lemma FreeingOneLeavesOthers(e: Event, p: nat, r: nat)
    requires Frees(e, p) && p != r
    ensures Leaves(e, r)
  {
  }

  /**
   * A successful `realloc`, retained or moved and whatever other threads do meanwhile: the result is
   * live with the new size and agrees with the old block on every byte both have; a moved block is freed.
   */
  lemma ReallocMeaning(cfg: Config, ws: seq<World>, es: seq<Event>, p: nat, n: Word, r: nat, own: Own)
    requires ReallocCall(cfg, ws, es, p, n, r, own) && r != 0
    ensures r in ws[|es|].blocks && |Contents(ws[|es|], r)| == n
    ensures H.SamePrefix(Contents(ws[0], p), Contents(ws[|es|], r))
    ensures r != p ==> own.Three? && p !in ws[own.f + 1].blocks
  {
    hide Step, Contents, Leaves, Subject, Allocates, CanRetain, Run;
    if own.Three? {
      MovedRealloc(cfg, ws, es, p, n, r, own);
    } else {
      RetainedRealloc(cfg, ws, es, p, n, own);
    }
  }

  /** Whatever a call of `realloc` does, a block that the other steps of the run leave alone is unchanged. */
  lemma ReallocLeavesOthers(cfg: Config, ws: seq<World>, es: seq<Event>, p: nat, n: Word, r: nat, own: Own, q: nat)
    requires ReallocCall(cfg, ws, es, p, n, r, own) && q in ws[0].blocks && q != p
    requires forall k {:trigger es[k]} :: 0 <= k < |es| && !IsOwn(own, k) ==> Leaves(es[k], q)
    ensures SameBlock(ws[0], ws[|es|], q)
  {
    hide Step, Contents, Leaves, Subject, Allocates, CanRetain, SameBlock, Copied, Frees;
    if own.Three? {
      AllocatingLeavesOthers(es[own.a], n, q);
      LeftBlockStaysAlong(cfg, ws, es, 0, own.a, q);
      SameBlockIsLive(ws[0], ws[own.a], q);
      assert Step(cfg, ws[own.a], es[own.a], ws[own.a + 1]);
      AllocationFits(cfg, ws[own.a], es[own.a], ws[own.a + 1], n);
      StoringLeavesOthers(es[own.c], r, q);
      FreeingOneLeavesOthers(es[own.f], p, q);
    } else if own.OneStep? {
      OneStepLeavesOthers(es[own.k], p, n, q);
    }
    LeftBlockStaysAlong(cfg, ws, es, 0, |es|, q);
  }

  lemma SameBlockIsLive(w: World, w': World, p: nat)
    requires SameBlock(w, w', p)
    ensures p in w'.blocks
  {
  }

  lemma StoringLeavesOthers(e: Event, r: nat, q: nat)
    requires e.Store? && e.p == r && r != q
    ensures Leaves(e, q)
  {
  }

  lemma OneStepLeavesOthers(e: Event, p: nat, n: Word, q: nat)
    requires (Frees(e, p) || e == Retain(p, n)) && p != q
    ensures Leaves(e, q)
  {
  }

  /** A pointer that is not live stays so until it is handed out again. */
  lemma {:induction false} GoneStaysGone(cfg: Config, ws: seq<World>, es: seq<Event>, i: nat, j: nat, p: nat)
    requires Run(cfg, ws, es) && i <= j <= |es| && p !in ws[i].blocks
    requires forall k {:trigger es[k]} :: i <= k < j ==> Subject(cfg, es[k]) != p
    ensures p !in ws[j].blocks
    decreases j
  {
    hide Step, Subject;
    if i < j {
      GoneStaysGone(cfg, ws, es, i, j - 1, p);
      assert Step(cfg, ws[j - 1], es[j - 1], ws[j]);
      if p in ws[j].blocks {
        OnlySubjectAppears(cfg, ws[j - 1], es[j - 1], ws[j], p);
        assert false;
      }
    }
  }

  lemma OnlySubjectAppears(cfg: Config, w: World, e: Event, w': World, p: nat)
    requires Step(cfg, w, e, w') && p in w'.blocks && p !in w.blocks
    ensures Subject(cfg, e) == p
  {
    hide Ok, BytesFollow, PointerTo, Offset, LargeLength;
  }

  /**
   * `realloc` to size zero keeps the block until it frees it; the pointer is not live afterwards, to the
   * end of the run unless it is handed out again.
   */
  lemma ReallocToZeroFrees(cfg: Config, ws: seq<World>, es: seq<Event>, p: nat, r: nat, own: Own)
    requires ReallocCall(cfg, ws, es, p, 0, r, own)
    ensures r == 0 && own.OneStep? && SameBlock(ws[0], ws[own.k], p) && p !in ws[own.k + 1].blocks
    ensures (forall k {:trigger es[k]} :: own.k < k < |es| ==> Subject(cfg, es[k]) != p) ==> p !in ws[|es|].blocks
  {
    hide Step, Leaves, Subject, Contents, SameBlock;
    LeftBlockStaysAlong(cfg, ws, es, 0, own.k, p);
    assert Step(cfg, ws[own.k], es[own.k], ws[own.k + 1]);
    FreedPointerIsGone(cfg, ws[own.k], es[own.k], ws[own.k + 1], p);
    if forall k {:trigger es[k]} :: own.k < k < |es| ==> Subject(cfg, es[k]) != p {
      GoneStaysGone(cfg, ws, es, own.k + 1, |es|, p);
    }
  }

  /**
   * The block behind `p` can hold `n` bytes where it is: a small block when `n` belongs to the class of its
   * slab, a large one when `n` is above every class and fits behind the prefix in the mapping.
   */
  ghost predicate HoldsInPlace(cfg: Config, w: World, p: nat, n: Word)
    requires p in w.blocks
  {
    match w.blocks[p].owner
    case Small(x) => n > 0 && IsClassFor(n, x.slab.cls)
    case Large(base) => base in w.maps && MAX_SMALL_SIZE < n && Offset(cfg) + n <= Length(w.maps[base])
  }

  lemma RetainMeaning(cfg: Config, w: World, p: nat, n: Word)
    requires Ok(cfg, w) && p in w.blocks && n > 0
    ensures CanRetain(w.blocks[p], n) <==> HoldsInPlace(cfg, w, p, n)
  {
    hide PointerTo, Offset, GoodSlab, Aligned, MapsOk, LiveOk, SinglesOk, RegistryOk;
    OwnerIsUnique(cfg, w.view.live, w.maps, w.blocks, p);
    match w.blocks[p].owner
    case Small(x) =>
      if IsClassFor(n, x.slab.cls) {
        ClassIsSmall(x.slab.cls);
        ClassUnique(n, x.slab.cls, ClassOf(n).value);
      }
    case Large(base) =>
  }

  lemma ClassIsSmall(c: nat)
    ensures Capacity(c) <= MAX_SMALL_SIZE
  {
  }

  /**
   * When `realloc` keeps the pointer: exactly when the block can hold the new size where it is, and then
   * it never fails. Otherwise the block moves, or the call fails.
   */
  lemma ReallocKeepsPointerIff(cfg: Config, ws: seq<World>, es: seq<Event>, p: nat, n: Word, r: nat, own: Own)
    requires ReallocCall(cfg, ws, es, p, n, r, own) && 0 < n <= PTRDIFF_MAX && Ok(cfg, ws[0])
    ensures r == p <==> HoldsInPlace(cfg, ws[0], p, n)
  {
    hide Step, Contents, Leaves, Subject, Allocates, CanRetain, Ok, HoldsInPlace;
    RetainMeaning(cfg, ws[0], p, n);
    PointersArePositive(cfg, ws[0], p);
    if own.Three? {
      MovedRealloc(cfg, ws, es, p, n, r, own);
    }
  }

  // ---- Large blocks given back ----

  /** What freeing a large block does to mappings: gone, or leaked when the unmap fails; no other is touched. */
  lemma LargeFreeReleases(cfg: Config, w: World, p: nat, unmapped: bool, w': World)
    requires Step(cfg, w, FreeLarge(p, unmapped), w')
    ensures p in w.blocks && w.blocks[p].owner.Large? && p !in w'.blocks
    ensures var b := w.blocks[p].owner.base;
            && b in w.maps && w.maps[b].Single?
            && (unmapped ==> b !in w'.maps)
            && (!unmapped ==> b in w'.maps && w'.maps[b] == Leaked(Length(w.maps[b])))
            && (forall c :: c != b ==> (c in w'.maps <==> c in w.maps))
            && (forall c :: c != b && c in w.maps ==> w'.maps[c] == w.maps[c])
  {
    hide MapsOk, RegistryOk, LiveOk, SinglesOk, PointerTo, Aligned, GoodSlab, BytesFollow;
    OwnerIsUnique(cfg, w.view.live, w.maps, w.blocks, p);
  }

  /** The step is the free of the large block mapped at `b`, and its unmap fails. */
  ghost predicate FailsToUnmap(w: World, e: Event, b: nat) {
    e.FreeLarge? && !e.unmapped && e.p in w.blocks && w.blocks[e.p].owner == Large(b)
  }

  lemma LeakNeedsFailure(cfg: Config, w: World, e: Event, w': World, b: nat)
    requires Step(cfg, w, e, w') && b in w'.maps && w'.maps[b].Leaked?
    ensures (b in w.maps && w.maps[b].Leaked?) || FailsToUnmap(w, e, b)
  {
    hide Ok, GoodSlab, OsGives, ComputeLarge, LargeLength, PointerTo, Offset, BytesFollow, Aligned;
  }

  ghost predicate LeakedBy(ws: seq<World>, es: seq<Event>, k: nat, j: nat, b: nat) {
    k < j <= |es| && k < |ws| && FailsToUnmap(ws[k], es[k], b)
  }

  /** A mapping is leaked only by a free of its large block whose unmap failed. */
  lemma {:induction false} LeaksComeFromFailures(cfg: Config, ws: seq<World>, es: seq<Event>, j: nat, b: nat)
    requires Run(cfg, ws, es) && Initial(ws[0]) && j <= |es| && b in ws[j].maps && ws[j].maps[b].Leaked?
    ensures exists k :: LeakedBy(ws, es, k, j, b)
    decreases j
  {
    hide Step, FailsToUnmap;
    if j > 0 {
      assert Step(cfg, ws[j - 1], es[j - 1], ws[j]);
      LeakNeedsFailure(cfg, ws[j - 1], es[j - 1], ws[j], b);
      if FailsToUnmap(ws[j - 1], es[j - 1], b) {
        assert LeakedBy(ws, es, j - 1, j, b);
      } else {
        LeaksComeFromFailures(cfg, ws, es, j - 1, b);
        var k :| LeakedBy(ws, es, k, j - 1, b);
        assert LeakedBy(ws, es, k, j, b);
      }
    }
  }

  // ---- What a caller can always do ----

  /**
   * A request above every class can be served wherever the system gives a range of the rounded length,
   * and only there: the layout is the one condition.
   */
  lemma LargeAllocationIsPossibleIff(cfg: Config, w: World, base: nat, n: Word)
    ensures Enabled(cfg, w, AllocLarge(base, n))
            <==> && MAX_SMALL_SIZE < n <= PTRDIFF_MAX
                 && exists p: Word, length: Word ::
                      LargeFits(cfg.target, n, cfg.page, p, length) && OsGives(cfg, w, base, length)
  {
    hide OsGives, LargeFits, ComputeLarge;
    if n > 0 {
      LargeLayoutExists(cfg.target, n, cfg.page);
      if ComputeLarge(cfg.target, n, cfg.page).Some? {
        var l := ComputeLarge(cfg.target, n, cfg.page).value;
        LargeLayoutFits(cfg.target, n, cfg.page);
        forall p: Word, length: Word | LargeFits(cfg.target, n, cfg.page, p, length)
          ensures length == l.mappingLength
        {
          LargeFitIsUnique(cfg.target, n, cfg.page, p, length, l.payloadOffset, l.mappingLength);
        }
      }
    }
  }

  lemma LargeFitIsUnique(t: Target, n: Word, page: Word, p: Word, length: Word, q: Word, other: Word)
    requires LargeFits(t, n, page, p, length) && LargeFits(t, n, page, q, other)
    ensures p == q && length == other
  {
    LeastMultipleUnique(p, q, t.blockHeader, t.alignment);
    LeastMultipleUnique(length, other, p + n, page);
  }

  /** What is enabled can happen. */
  lemma EnabledHappens(cfg: Config, w: World, e: Event) returns (w': World)
    requires Ok(cfg, w) && Enabled(cfg, w, e)
    ensures Step(cfg, w, e, w')
  {
    hide Ok, Enabled, Mapped, Metadata, Written;
    w' := After(cfg, w, e).(bytes := (a: nat) => Written(w, e, a));
  }

  ghost predicate FreedBy(cfg: Config, w: World, e: Event, w': World, p: nat, unmapped: bool) {
    Step(cfg, w, e, w') && Frees(e, p) && p !in w'.blocks && (e.FreeLarge? ==> e.unmapped == unmapped)
  }

  /** Every live block can be freed, a large one whether or not its unmap succeeds. */
  lemma LiveBlocksCanBeFreed(cfg: Config, w: World, p: nat, unmapped: bool)
    requires Ok(cfg, w) && p in w.blocks
    ensures exists e, w' :: FreedBy(cfg, w, e, w', p, unmapped)
  {
    hide Ok, Step, After, BytesFollow;
    var e := if w.blocks[p].owner.Small? then FreeSmall(p) else FreeLarge(p, unmapped);
    var w' := EnabledHappens(cfg, w, e);
    FreedPointerIsGone(cfg, w, e, w', p);
    assert FreedBy(cfg, w, e, w', p, unmapped);
  }
}
