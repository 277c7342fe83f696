/**
 * The steps that change mappings, blocks or bytes, and their refinement of HeapSpec. Each step may
 * rewrite the allocator's own metadata at will and says nothing about bytes that were not mapped.
 */
module ByteSteps {
  import opened ByteMemory
  import opened CheckedMath
  import opened Layout
  import opened Sequences
  import opened SizeClasses
  import H = HeapSpec
  import A = SlotAllocator

  datatype Event =
    | MapSlab(slab: Slab)
    | Trim(released: set<Slab>)
    | AllocSmall(x: Slot, n: Word)
    | AllocLarge(base: nat, n: Word)
    | FreeSmall(p: nat)
    | FreeLarge(p: nat, unmapped: bool)
    | Store(p: nat, at: nat, s: seq<Byte>)
    | Retain(p: nat, n: Word)
    | Tidy                       // links and prefixes rewritten, nothing else

  /** The operating system's promise: a range that is not the null page's, aligned, and apart from every mapping. */
  ghost predicate OsGives(cfg: Config, w: World, base: nat, length: nat) {
    && 0 < base && base + length <= MODULUS && Aligned(cfg, base)
    && base !in w.maps
    && forall b :: b in w.maps ==> b + Length(w.maps[b]) <= base || base + length <= b
  }

  /** `hplf_realloc_can_retain`. */
  ghost predicate CanRetain(b: Block, n: Word) {
    match b.owner
    case Small(x) => ClassOf(n) == Some(x.slab.cls)
    case Large(_) => ClassOf(n) == None && n <= b.capacity
  }

  ghost predicate Enabled(cfg: Config, w: World, e: Event) {
    match e
    case MapSlab(slab) => GoodSlab(cfg, slab) && OsGives(cfg, w, slab.id, slab.length)
    case Trim(released) => A.Permitted(w.view, A.Shrink(released))
    case AllocSmall(x, n) =>
      0 < n <= PTRDIFF_MAX && ClassOf(n) == Some(x.slab.cls) && A.Permitted(w.view, A.Allocate(x))
    case AllocLarge(base, n) =>
      && 0 < n <= PTRDIFF_MAX && ClassOf(n) == None
      && ComputeLarge(cfg.target, n, cfg.page).Some?
      && OsGives(cfg, w, base, ComputeLarge(cfg.target, n, cfg.page).value.mappingLength)
    case FreeSmall(p) => p in w.blocks && w.blocks[p].owner.Small?
    case FreeLarge(p, _) => p in w.blocks && w.blocks[p].owner.Large?
    case Store(p, at, s) => p in w.blocks && at + |s| <= w.blocks[p].requested
    case Retain(p, n) => p in w.blocks && 0 < n <= PTRDIFF_MAX && CanRetain(w.blocks[p], n)
    case Tidy => true
  }

  ghost function LargeLength(cfg: Config, n: Word): Word {
    match ComputeLarge(cfg.target, n, cfg.page)
    case Some(l) => l.mappingLength
    case None => 0
  }

  /**
   * Slabs, mappings and blocks after the step; `bytes` is left to `BytesFollow`. A step that names no
   * block of its kind changes nothing.
   */
  ghost function After(cfg: Config, w: World, e: Event): World {
    match e
    case MapSlab(slab) => w.(view := A.Effect(w.view, A.Grow(slab)), maps := w.maps[slab.id := Arena(slab)])
    case Trim(released) =>
      w.(view := A.Effect(w.view, A.Shrink(released)), maps := w.maps - Bases(released))
    case AllocSmall(x, n) =>
      w.(view := A.Effect(w.view, A.Allocate(x)),
         blocks := w.blocks[PointerTo(cfg, Small(x)) := Block(Small(x), n, Capacity(x.slab.cls))])
    case AllocLarge(base, n) =>
      var length := LargeLength(cfg, n);
      w.(maps := w.maps[base := Single(length)],
         blocks := w.blocks[base + Offset(cfg) := Block(Large(base), n, WrapSub(length, Offset(cfg)))])
    case FreeSmall(p) =>
      if p in w.blocks && w.blocks[p].owner.Small? then
        w.(view := A.Effect(w.view, A.Release(w.blocks[p].owner.x)), blocks := w.blocks - {p})
      else w
    case FreeLarge(p, unmapped) =>
      if p in w.blocks && w.blocks[p].owner.Large? then
        w.(maps := Released(w.maps, w.blocks[p].owner.base, unmapped), blocks := w.blocks - {p})
      else w
    case Store(_, _, _) => w
    case Retain(p, n) =>
      if p in w.blocks then w.(blocks := w.blocks[p := w.blocks[p].(requested := n)]) else w
    case Tidy => w
  }

  function Bases(slabs: set<Slab>): set<nat> {
    set s | s in slabs :: s.id
  }

  /** The mapping of a freed large block goes, or stays as a leak when its unmap fails. */
  function Released(maps: map<nat, Mapping>, base: nat, unmapped: bool): map<nat, Mapping> {
    if !unmapped && base in maps && maps[base].Single? then maps[base := Leaked(maps[base].length)] else maps - {base}
  }

  /** What a store leaves at address `a`. */
  function Written(w: World, e: Event, a: nat): Byte {
    if e.Store? && e.p + e.at <= a < e.p + e.at + |e.s| then e.s[a - e.p - e.at] else w.bytes(a)
  }

  /** Bytes mapped before and after change only by a store, unless they are metadata. */
  ghost predicate BytesFollow(cfg: Config, w: World, e: Event, w': World) {
    forall a: nat :: Mapped(w, a) && Mapped(w', a) && !Metadata(cfg, w', a) ==> w'.bytes(a) == Written(w, e, a)
  }

  ghost predicate Step(cfg: Config, w: World, e: Event, w': World) {
    && Ok(cfg, w) && Enabled(cfg, w, e)
    && w' == After(cfg, w, e).(bytes := w'.bytes)
    && BytesFollow(cfg, w, e, w')
  }

  // ---- The invariant is kept ----

  lemma NewMappingFits(cfg: Config, w: World, base: nat, m: Mapping)
    requires MapsOk(cfg, w.maps) && OsGives(cfg, w, base, Length(m)) && MappingOk(cfg, base, m)
    ensures MapsOk(cfg, w.maps[base := m])
  {
    hide Aligned;
    hide MappingOk;
  }

  lemma RegistryFollows(registry: set<Slab>, maps: map<nat, Mapping>, base: nat, m: Mapping)
    requires RegistryOk(registry, maps) && base !in maps && (m.Arena? ==> m.slab.id == base)
    ensures RegistryOk(if m.Arena? then registry + {m.slab} else registry, maps[base := m])
  {
  }

  lemma BlocksSurvive(cfg: Config, live: set<Slot>, maps: map<nat, Mapping>, blocks: map<nat, Block>,
                      live': set<Slot>, maps': map<nat, Mapping>, blocks': map<nat, Block>)
    requires BlocksOk(cfg, live, maps, blocks)
    requires forall p :: p in blocks' ==> p in blocks && blocks'[p] == blocks[p]
    requires forall p :: p in blocks' && blocks[p].owner.Small? ==> blocks[p].owner.x in live'
    requires forall p :: p in blocks' && blocks[p].owner.Large? && blocks[p].owner.base in maps
                         ==> blocks[p].owner.base in maps' && maps'[blocks[p].owner.base] == maps[blocks[p].owner.base]
    ensures BlocksOk(cfg, live', maps', blocks')
  {
    hide Aligned;
    forall p | p in blocks'
      ensures BlockOk(cfg, live', maps', p, blocks'[p])
    {
      assert BlockOk(cfg, live, maps, p, blocks[p]);
    }
  }

  lemma LiveAfterAdd(cfg: Config, view: A.View, blocks: map<nat, Block>, p: nat, b: Block, live': set<Slot>)
    requires LiveOk(cfg, view, blocks) && p !in blocks
    requires forall x :: x in live' && x !in view.live
                         ==> x.slab in view.registry && x.index < x.slab.slots && PointerTo(cfg, Small(x)) == p && b.owner == Small(x)
    ensures LiveOk(cfg, view.(live := live'), blocks[p := b])
  {
    hide Aligned;
    hide PointerTo;
  }

  lemma SinglesAfterAdd(cfg: Config, maps: map<nat, Mapping>, maps': map<nat, Mapping>, blocks: map<nat, Block>, p: nat, b: Block)
    requires SinglesOk(cfg, maps, blocks) && p !in blocks
    requires forall c :: c in maps' && maps'[c].Single?
                         ==> (c in maps && maps[c].Single?) || (PointerTo(cfg, Large(c)) == p && b.owner == Large(c))
    ensures SinglesOk(cfg, maps', blocks[p := b])
  {
    hide Aligned;
    hide PointerTo;
  }

  lemma LiveAfterRemove(cfg: Config, view: A.View, blocks: map<nat, Block>, p: nat, live': set<Slot>)
    requires LiveOk(cfg, view, blocks) && p in blocks && live' <= view.live
    requires blocks[p].owner.Small? ==> blocks[p].owner.x !in live'
    ensures LiveOk(cfg, view.(live := live'), blocks - {p})
  {
    hide Aligned;
    hide PointerTo;
  }

  lemma SinglesAfterRemove(cfg: Config, maps: map<nat, Mapping>, maps': map<nat, Mapping>, blocks: map<nat, Block>, p: nat)
    requires SinglesOk(cfg, maps, blocks) && p in blocks
    requires forall c :: c in maps' && maps'[c].Single? ==> c in maps && maps[c].Single? && blocks[p].owner != Large(c)
    ensures SinglesOk(cfg, maps', blocks - {p})
  {
    hide Aligned;
    hide PointerTo;
  }

  lemma BlockAdded(cfg: Config, live: set<Slot>, maps: map<nat, Mapping>, blocks: map<nat, Block>, p: nat, b: Block)
    requires BlocksOk(cfg, live, maps, blocks) && BlockOk(cfg, live, maps, p, b)
    ensures BlocksOk(cfg, live, maps, blocks[p := b])
  {
    hide Aligned;
    hide BlockOk;
  }

  /** Slots and large mappings belong to one block only. */
  lemma OwnerIsUnique(cfg: Config, live: set<Slot>, maps: map<nat, Mapping>, blocks: map<nat, Block>, p: nat)
    requires BlocksOk(cfg, live, maps, blocks) && p in blocks
    ensures BlockOk(cfg, live, maps, p, blocks[p])
    ensures forall q :: q in blocks && q != p ==> blocks[q].owner != blocks[p].owner
    ensures forall q :: q in blocks && blocks[q].owner.Small? ==> blocks[q].owner.x in live
  {
    hide Aligned;
    forall q | q in blocks
      ensures q == PointerTo(cfg, blocks[q].owner) && (blocks[q].owner.Small? ==> blocks[q].owner.x in live)
    {
      assert BlockOk(cfg, live, maps, q, blocks[q]);
    }
    hide PointerTo;
  }

  lemma MapSlabKeeps(cfg: Config, w: World, slab: Slab)
    requires Ok(cfg, w) && Enabled(cfg, w, MapSlab(slab))
    ensures Ok(cfg, After(cfg, w, MapSlab(slab)))
  {
    hide Aligned;
    assert MappingOk(cfg, slab.id, Arena(slab)) && slab.id !in w.maps;
    hide GoodSlab, MappingOk, OsGives, PointerTo, MapsOk, BlocksOk, BlockOk, RegistryOk;
    NewMappingFits(cfg, w, slab.id, Arena(slab));
    BlocksKeepNewMapping(cfg, w.view.live, w.maps, w.blocks, slab.id, Arena(slab));
    RegistryFollows(w.view.registry, w.maps, slab.id, Arena(slab));
  }

  /** Unmapping whole slabs leaves the other mappings and the registry in order. */
  lemma FewerMapsAreOk(cfg: Config, maps: map<nat, Mapping>, gone: set<nat>)
    requires MapsOk(cfg, maps)
    ensures MapsOk(cfg, maps - gone)
  {
    hide MappingOk;
  }

  lemma RegistryAfterTrim(registry: set<Slab>, maps: map<nat, Mapping>, released: set<Slab>)
    requires RegistryOk(registry, maps) && released <= registry
    ensures RegistryOk(registry - released, maps - Bases(released))
    ensures forall b :: b in maps && maps[b].Single? ==> b in maps - Bases(released)
  {
    assert forall s :: s in registry - released ==> s.id !in Bases(released);
    assert forall b :: b in maps && maps[b].Single? ==> b !in Bases(released);
  }

  lemma LiveAfterTrim(cfg: Config, view: A.View, blocks: map<nat, Block>, released: set<Slab>)
    requires LiveOk(cfg, view, blocks) && A.Permitted(view, A.Shrink(released))
    ensures LiveOk(cfg, A.Effect(view, A.Shrink(released)), blocks)
  {
    hide Owned;
  }

  lemma SinglesAfterTrim(cfg: Config, maps: map<nat, Mapping>, gone: set<nat>, blocks: map<nat, Block>)
    requires SinglesOk(cfg, maps, blocks)
    ensures SinglesOk(cfg, maps - gone, blocks)
  {
    hide Owned;
  }

  lemma BlocksAfterTrim(cfg: Config, live: set<Slot>, maps: map<nat, Mapping>, gone: set<nat>, blocks: map<nat, Block>)
    requires BlocksOk(cfg, live, maps, blocks)
    requires forall b :: b in maps && maps[b].Single? ==> b in maps - gone
    ensures BlocksOk(cfg, live, maps - gone, blocks)
  {
    hide PointerTo, ClassOf, Offset, Capacity, Aligned;
    forall p | p in blocks
      ensures BlockOk(cfg, live, maps - gone, p, blocks[p])
    {
      assert BlockOk(cfg, live, maps, p, blocks[p]);
    }
  }

  lemma TrimKeeps(cfg: Config, w: World, released: set<Slab>)
    requires Ok(cfg, w) && Enabled(cfg, w, Trim(released))
    ensures Ok(cfg, After(cfg, w, Trim(released)))
  {
    hide MapsOk, RegistryOk, LiveOk, SinglesOk, BlocksOk, Bases;
    var gone := Bases(released);
    FewerMapsAreOk(cfg, w.maps, gone);
    RegistryAfterTrim(w.view.registry, w.maps, released);
    LiveAfterTrim(cfg, w.view, w.blocks, released);
    SinglesAfterTrim(cfg, w.maps, gone, w.blocks);
    BlocksAfterTrim(cfg, w.view.live, w.maps, gone, w.blocks);
  }

  /** The payload address of a free slot is not the address of any live block. */
  lemma FreeSlotPointerIsFree(cfg: Config, w: World, x: Slot)
    requires Ok(cfg, w) && x.slab in w.view.registry && x.index < x.slab.slots && x !in w.view.live
    ensures PointerTo(cfg, Small(x)) !in w.blocks
  {
    hide Aligned;
    var p := PointerTo(cfg, Small(x));
    if p in w.blocks {
      PayloadInsideMapping(cfg, w, p);
      var o := w.blocks[p].owner;
      var m := w.maps[x.slab.id];
      assert MappingOk(cfg, x.slab.id, m) && BlockOk(cfg, w.view.live, w.maps, p, w.blocks[p]);
      SlotInsideMapping(cfg, x.slab, x.index, m);
      assert Home(o) == x.slab.id && o.Small? && o.x.slab == x.slab;
      GoodSlabIsSound(cfg, x.slab);
      SlotsAreApart(cfg.target, LayoutOf(cfg, x.slab), x.index, o.x.index);
      assert false;
    }
  }

  lemma AllocSmallKeeps(cfg: Config, w: World, x: Slot, n: Word)
    requires Ok(cfg, w) && Enabled(cfg, w, AllocSmall(x, n))
    ensures PointerTo(cfg, Small(x)) !in w.blocks
    ensures Ok(cfg, After(cfg, w, AllocSmall(x, n)))
  {
    hide Aligned;
    FreeSlotPointerIsFree(cfg, w, x);
    var p, b := PointerTo(cfg, Small(x)), Block(Small(x), n, Capacity(x.slab.cls));
    var live' := w.view.live + {x};
    hide PointerTo, ClassOf, MapsOk, RegistryOk, LiveOk, SinglesOk;
    LiveAfterAdd(cfg, w.view, w.blocks, p, b, live');
    SinglesAfterAdd(cfg, w.maps, w.maps, w.blocks, p, b);
    BlocksSurvive(cfg, w.view.live, w.maps, w.blocks, live', w.maps, w.blocks);
    assert BlockOk(cfg, live', w.maps, p, b);
    hide BlockOk;
  }

  lemma LargePointerIsFree(cfg: Config, w: World, base: nat, n: Word)
    requires Ok(cfg, w) && Enabled(cfg, w, AllocLarge(base, n))
    ensures base + Offset(cfg) !in w.blocks
  {
    hide Aligned;
    var p := base + Offset(cfg);
    LargeLayoutIsSound(cfg.target, n, cfg.page);
    hide ComputeLarge, LeastMultiple;
    if p in w.blocks {
      PayloadInsideMapping(cfg, w, p);
      assert false;
    }
  }

  lemma LargeLengthIsSound(cfg: Config, n: Word)
    requires ComputeLarge(cfg.target, n, cfg.page).Some?
    ensures Offset(cfg) + n <= LargeLength(cfg, n)
    ensures Aligned(cfg, Offset(cfg))
  {
    LargeLayoutIsSound(cfg.target, n, cfg.page);
    var l := ComputeLarge(cfg.target, n, cfg.page).value;
    assert l.payloadOffset == Offset(cfg);
    LeastMultipleIsMultiple(l.payloadOffset, cfg.target.blockHeader, cfg.target.alignment);
    hide ComputeLarge, LeastMultiple, PayloadOffset;
  }

  lemma LargeBlockIsOk(cfg: Config, w: World, base: nat, n: Word)
    requires Enabled(cfg, w, AllocLarge(base, n))
    ensures var length := LargeLength(cfg, n);
            && MappingOk(cfg, base, Single(length)) && Offset(cfg) <= length
            && BlockOk(cfg, w.view.live, w.maps[base := Single(length)], base + Offset(cfg),
                       Block(Large(base), n, WrapSub(length, Offset(cfg))))
  {
    hide Aligned, WrapSub, ClassOf, GoodSlab;
    var length := LargeLength(cfg, n);
    LargeLengthIsSound(cfg, n);
    WrapSubExact(length, Offset(cfg));
    assert OsGives(cfg, w, base, length) && PointerTo(cfg, Large(base)) == base + Offset(cfg);
    hide ComputeLarge, LargeLength, Offset, PointerTo;
  }

  lemma GivenRangeIsNew(cfg: Config, w: World, base: nat, length: nat)
    requires OsGives(cfg, w, base, length)
    ensures base !in w.maps
  {
    hide Aligned;
  }

  lemma BlocksKeepNewMapping(cfg: Config, live: set<Slot>, maps: map<nat, Mapping>, blocks: map<nat, Block>, base: nat, m: Mapping)
    requires BlocksOk(cfg, live, maps, blocks) && base !in maps
    ensures BlocksOk(cfg, live, maps[base := m], blocks)
  {
    hide PointerTo, ClassOf, Offset, Capacity, Aligned;
    forall p | p in blocks
      ensures BlockOk(cfg, live, maps[base := m], p, blocks[p])
    {
      assert BlockOk(cfg, live, maps, p, blocks[p]);
    }
  }

  lemma LargeAdded(cfg: Config, w: World, base: nat, m: Mapping, p: nat, b: Block)
    requires Ok(cfg, w) && m.Single? && OsGives(cfg, w, base, Length(m)) && MappingOk(cfg, base, m)
    requires p == PointerTo(cfg, Large(base)) && p !in w.blocks && b.owner == Large(base)
    requires BlockOk(cfg, w.view.live, w.maps[base := m], p, b)
    ensures Ok(cfg, w.(maps := w.maps[base := m], blocks := w.blocks[p := b]))
  {
    hide Aligned, PointerTo, MappingOk, OsGives, LiveOk, SinglesOk, MapsOk, BlockOk, BlocksOk, RegistryOk;
    GivenRangeIsNew(cfg, w, base, Length(m));
    var maps' := w.maps[base := m];
    NewMappingFits(cfg, w, base, m);
    RegistryFollows(w.view.registry, w.maps, base, m);
    LiveAfterAdd(cfg, w.view, w.blocks, p, b, w.view.live);
    SinglesAfterAdd(cfg, w.maps, maps', w.blocks, p, b);
    BlocksKeepNewMapping(cfg, w.view.live, w.maps, w.blocks, base, m);
    BlockAdded(cfg, w.view.live, maps', w.blocks, p, b);
    assert w.view.(live := w.view.live) == w.view;
  }

  lemma LargeRangeIsGiven(cfg: Config, w: World, base: nat, n: Word)
    requires Enabled(cfg, w, AllocLarge(base, n))
    ensures OsGives(cfg, w, base, Length(Single(LargeLength(cfg, n))))
    ensures PointerTo(cfg, Large(base)) == base + Offset(cfg)
  {
    hide OsGives, Offset, ClassOf;
  }

  lemma AllocLargeKeeps(cfg: Config, w: World, base: nat, n: Word)
    requires Ok(cfg, w) && Enabled(cfg, w, AllocLarge(base, n))
    ensures base + Offset(cfg) !in w.blocks
    ensures Ok(cfg, After(cfg, w, AllocLarge(base, n)))
  {
    hide Aligned, Enabled, PointerTo, ComputeLarge, LargeLength, MappingOk, OsGives, Ok, WrapSub, Offset, BlockOk, GoodSlab;
    LargePointerIsFree(cfg, w, base, n);
    LargeBlockIsOk(cfg, w, base, n);
    LargeRangeIsGiven(cfg, w, base, n);
    var m := Single(LargeLength(cfg, n));
    LargeAdded(cfg, w, base, m, base + Offset(cfg), Block(Large(base), n, WrapSub(m.length, Offset(cfg))));
  }

  lemma FreeSmallKeeps(cfg: Config, w: World, p: nat)
    requires Ok(cfg, w) && Enabled(cfg, w, FreeSmall(p))
    ensures Ok(cfg, After(cfg, w, FreeSmall(p)))
  {
    hide Aligned, PointerTo, ClassOf, MapsOk, RegistryOk, LiveOk, SinglesOk, BlocksOk, BlockOk;
    OwnerIsUnique(cfg, w.view.live, w.maps, w.blocks, p);
    var live' := w.view.live - {w.blocks[p].owner.x};
    LiveAfterRemove(cfg, w.view, w.blocks, p, live');
    SinglesAfterRemove(cfg, w.maps, w.maps, w.blocks, p);
    BlocksSurvive(cfg, w.view.live, w.maps, w.blocks, live', w.maps, w.blocks - {p});
  }

  /** Unmapping or leaking a large block's mapping leaves the others in order. */
  lemma MappingReleased(cfg: Config, registry: set<Slab>, maps: map<nat, Mapping>, base: nat, unmapped: bool)
    requires MapsOk(cfg, maps) && RegistryOk(registry, maps) && base in maps && maps[base].Single?
    ensures MapsOk(cfg, Released(maps, base, unmapped)) && RegistryOk(registry, Released(maps, base, unmapped))
  {
    hide Aligned;
    assert MappingOk(cfg, base, maps[base]);
    assert MappingOk(cfg, base, Leaked(maps[base].length));
    hide MappingOk;
  }

  lemma FreeLargeKeeps(cfg: Config, w: World, p: nat, unmapped: bool)
    requires Ok(cfg, w) && Enabled(cfg, w, FreeLarge(p, unmapped))
    ensures Ok(cfg, After(cfg, w, FreeLarge(p, unmapped)))
  {
    hide Aligned;
    hide Capacity, Offset;
    OwnerIsUnique(cfg, w.view.live, w.maps, w.blocks, p);
    var base := w.blocks[p].owner.base;
    hide PointerTo, ClassOf, LiveOk, SinglesOk, BlocksOk, MapsOk, RegistryOk;
    var maps' := Released(w.maps, base, unmapped);
    MappingReleased(cfg, w.view.registry, w.maps, base, unmapped);
    LiveAfterRemove(cfg, w.view, w.blocks, p, w.view.live);
    SinglesAfterRemove(cfg, w.maps, maps', w.blocks, p);
    BlocksSurvive(cfg, w.view.live, w.maps, w.blocks, w.view.live, maps', w.blocks - {p});
    hide BlocksOk, BlockOk;
  }

  lemma RetainKeeps(cfg: Config, w: World, p: nat, n: Word)
    requires Ok(cfg, w) && Enabled(cfg, w, Retain(p, n))
    ensures Ok(cfg, After(cfg, w, Retain(p, n)))
  {
    hide Aligned;
    hide MapsOk, RegistryOk, PointerTo, ClassOf, Offset;
    OwnerIsUnique(cfg, w.view.live, w.maps, w.blocks, p);
    var b := w.blocks[p].(requested := n);
    assert BlockOk(cfg, w.view.live, w.maps, p, b);
    hide BlockOk, CanRetain;
    assert forall o :: Owned(cfg, w.blocks, o) ==> Owned(cfg, w.blocks[p := b], o);
    hide Owned;
  }

  /** Every step keeps the invariant. */
  lemma StepKeepsOk(cfg: Config, w: World, e: Event, w': World)
    requires Step(cfg, w, e, w')
    ensures Ok(cfg, w')
  {
    hide Aligned;
    var a := After(cfg, w, e);
    assert w'.view == a.view && w'.maps == a.maps && w'.blocks == a.blocks;
    assert Ok(cfg, a) by {
      match e
      case MapSlab(slab) => MapSlabKeeps(cfg, w, slab);
      case Trim(released) => TrimKeeps(cfg, w, released);
      case AllocSmall(x, n) => AllocSmallKeeps(cfg, w, x, n);
      case AllocLarge(base, n) => AllocLargeKeeps(cfg, w, base, n);
      case FreeSmall(p) => FreeSmallKeeps(cfg, w, p);
      case FreeLarge(p, unmapped) => FreeLargeKeeps(cfg, w, p, unmapped);
      case Store(_, _, _) =>
      case Retain(p, n) => RetainKeeps(cfg, w, p, n);
      case Tidy =>
    }
    hide After, BytesFollow, MapsOk, RegistryOk, LiveOk, SinglesOk, BlocksOk;
  }

  // ---- Refinement of HeapSpec ----

  /** The bytes behind a live pointer, as many as were requested. */
  ghost function Contents(w: World, p: nat): (s: seq<Byte>)
    requires p in w.blocks
    ensures |s| == w.blocks[p].requested
  {
    seq(w.blocks[p].requested, i requires 0 <= i => w.bytes(p + i))
  }

  ghost function HeapOf(w: World): H.Heap {
    map p | p in w.blocks :: Contents(w, p)
  }

  /** The pointer a step is about, 0 when it is about none. */
  ghost function Subject(cfg: Config, e: Event): nat {
    match e
    case MapSlab(_) => 0
    case Trim(_) => 0
    case AllocSmall(x, _) => PointerTo(cfg, Small(x))
    case AllocLarge(base, _) => base + Offset(cfg)
    case FreeSmall(p) => p
    case FreeLarge(p, _) => p
    case Store(p, _, _) => p
    case Retain(p, _) => p
    case Tidy => 0
  }

  ghost function ActionOf(cfg: Config, e: Event, w': World): H.Action {
    var p := Subject(cfg, e);
    match e
    case MapSlab(_) => H.Quiet
    case Trim(_) => H.Quiet
    case AllocSmall(_, _) => if p in w'.blocks then H.New(p, Contents(w', p)) else H.Quiet
    case AllocLarge(_, _) => if p in w'.blocks then H.New(p, Contents(w', p)) else H.Quiet
    case FreeSmall(_) => H.Delete(p)
    case FreeLarge(_, _) => H.Delete(p)
    case Store(_, at, s) => H.Write(p, at, s)
    case Retain(_, _) => if p in w'.blocks then H.Resize(p, Contents(w', p)) else H.Quiet
    case Tidy => H.Quiet
  }

  /** Inside a payload that is live before and after, only a store changes a byte. */
  lemma PayloadBytesFollow(cfg: Config, w: World, e: Event, w': World, p: nat, a: nat)
    requires Step(cfg, w, e, w') && p in w.blocks && p in w'.blocks
    requires w'.blocks[p].capacity == w.blocks[p].capacity && p <= a < p + w.blocks[p].capacity
    ensures w'.bytes(a) == Written(w, e, a)
  {
    StepKeepsOk(cfg, w, e, w');
    hide After, Ok, Enabled, Mapped, Metadata;
    PayloadIsNotMetadata(cfg, w, p, a);
    PayloadIsNotMetadata(cfg, w', p, a);
  }

  lemma StepIsBetweenOkWorlds(cfg: Config, w: World, e: Event, w': World)
    requires Step(cfg, w, e, w')
    ensures Ok(cfg, w) && Ok(cfg, w') && Enabled(cfg, w, e) && w'.blocks == After(cfg, w, e).blocks
  {
    StepKeepsOk(cfg, w, e, w');
    hide Ok, Enabled, BytesFollow, After;
  }

  lemma ContentsFollow(cfg: Config, w: World, e: Event, w': World, p: nat)
    requires Step(cfg, w, e, w') && p in w.blocks && p in w'.blocks && w'.blocks[p].capacity == w.blocks[p].capacity
    ensures w.blocks[p].requested <= w.blocks[p].capacity
    ensures forall a: nat {:trigger w'.bytes(a)} ::
              p <= a < p + w.blocks[p].requested ==> w'.bytes(a) == Written(w, e, a)
  {
    hide Step, Ok, Enabled, After, Aligned, Written;
    StepIsBetweenOkWorlds(cfg, w, e, w');
    PayloadInsideMapping(cfg, w, p);
    forall a: nat {:trigger w'.bytes(a)} | p <= a < p + w.blocks[p].requested
      ensures w'.bytes(a) == Written(w, e, a)
    {
      PayloadBytesFollow(cfg, w, e, w', p, a);
    }
  }

  /** Which blocks a step changes, and how. */
  lemma BlocksFollow(cfg: Config, w: World, e: Event, w': World, q: nat)
    requires Step(cfg, w, e, w') && q in w.blocks
    ensures q != Subject(cfg, e) || e.Store? ==> q in w'.blocks && w'.blocks[q] == w.blocks[q]
    ensures q == Subject(cfg, e) && e.Retain? ==> q in w'.blocks && w'.blocks[q] == w.blocks[q].(requested := e.n)
    ensures e.Store? ==> e.p in w.blocks && e.at + |e.s| <= w.blocks[e.p].requested
  {
    hide Step, Ok, PointerTo, Offset, LargeLength, ClassOf, Aligned, OsGives, GoodSlab, CanRetain, ComputeLarge;
    StepIsBetweenOkWorlds(cfg, w, e, w');
  }

  /** The bytes of a store to one block and the bytes of another are apart. */
  lemma StoreMissesOthers(cfg: Config, w: World, e: Event, q: nat)
    requires Ok(cfg, w) && e.Store? && e.p in w.blocks && e.at + |e.s| <= w.blocks[e.p].requested
    requires q in w.blocks && q != e.p
    ensures forall a: nat {:trigger w.bytes(a)} :: q <= a < q + w.blocks[q].capacity ==> Written(w, e, a) == w.bytes(a)
  {
    hide Ok, Aligned;
    PayloadInsideMapping(cfg, w, e.p);
    PayloadsAreApart(cfg, w, e.p, q);
  }

  /** A step leaves alone every block it is not about: same prefix, same bytes. */
  lemma OthersUnchanged(cfg: Config, w: World, e: Event, w': World, q: nat)
    requires Step(cfg, w, e, w') && q in w.blocks && q != Subject(cfg, e)
    ensures q in w'.blocks && w'.blocks[q] == w.blocks[q]
    ensures Contents(w', q) == Contents(w, q)
  {
    hide Step, Ok, Enabled, After;
    BlocksFollow(cfg, w, e, w', q);
    ContentsFollow(cfg, w, e, w', q);
    StepIsBetweenOkWorlds(cfg, w, e, w');
    if e.Store? {
      StoreMissesOthers(cfg, w, e, q);
    }
    assert forall i :: 0 <= i < |Contents(w, q)| ==> Contents(w', q)[i] == Contents(w, q)[i];
  }

  lemma StoreWrites(cfg: Config, w: World, p: nat, at: nat, s: seq<Byte>, w': World)
    requires Step(cfg, w, Store(p, at, s), w') && p in w.blocks
    ensures at + |s| <= w.blocks[p].requested && p in w'.blocks && w'.blocks[p] == w.blocks[p]
    ensures Contents(w', p) == H.Overwrite(Contents(w, p), at, s)
  {
    hide Step;
    BlocksFollow(cfg, w, Store(p, at, s), w', p);
    ContentsFollow(cfg, w, Store(p, at, s), w', p);
    var r := H.Overwrite(Contents(w, p), at, s);
    assert forall i :: 0 <= i < |Contents(w, p)| ==> Contents(w', p)[i] == r[i];
  }

  lemma RetainKeepsPrefix(cfg: Config, w: World, p: nat, n: Word, w': World)
    requires Step(cfg, w, Retain(p, n), w') && p in w.blocks
    ensures p in w'.blocks && w'.blocks[p] == w.blocks[p].(requested := n)
    ensures H.SamePrefix(Contents(w, p), Contents(w', p))
  {
    hide Step;
    BlocksFollow(cfg, w, Retain(p, n), w', p);
    ContentsFollow(cfg, w, Retain(p, n), w', p);
    var k := Min(|Contents(w, p)|, |Contents(w', p)|);
    assert forall i :: 0 <= i < k ==> Contents(w', p)[i] == Contents(w, p)[i];
  }

  /** The steps that make a pointer live make it live with the requested size, and no others do. */
  lemma AllocationsAppear(cfg: Config, w: World, e: Event, w': World)
    requires Step(cfg, w, e, w')
    ensures forall q :: q in w'.blocks ==> q in w.blocks || q == Subject(cfg, e)
    ensures e.AllocSmall? || e.AllocLarge? ==> var p := Subject(cfg, e);
                                               p !in w.blocks && p in w'.blocks && w'.blocks[p].requested == e.n > 0
    ensures e.FreeSmall? || e.FreeLarge? ==> Subject(cfg, e) in w.blocks && Subject(cfg, e) !in w'.blocks
    ensures e.Store? || e.Retain? ==> Subject(cfg, e) in w.blocks
    ensures e.MapSlab? || e.Trim? || e.Tidy? ==> w'.blocks == w.blocks
  {
    hide Step, Ok, OsGives, GoodSlab, Aligned, ClassOf, CanRetain, ComputeLarge, LargeLength, Offset, WrapSub;
    StepIsBetweenOkWorlds(cfg, w, e, w');
    match e
    case AllocSmall(x, n) =>
      AllocSmallKeeps(cfg, w, x, n);
      hide PointerTo;
    case AllocLarge(base, n) =>
      AllocLargeKeeps(cfg, w, base, n);
      hide PointerTo;
    case _ =>
      hide PointerTo;
  }

  lemma PointersArePositive(cfg: Config, w: World, p: nat)
    requires Ok(cfg, w) && p in w.blocks
    ensures p > 0 && 0 < w.blocks[p].requested
  {
    hide Ok;
    PayloadInsideMapping(cfg, w, p);
    assert BlockOk(cfg, w.view.live, w.maps, p, w.blocks[p]) by {
      OwnerOk(cfg, w, p);
    }
    hide PointerTo, ClassOf, Offset;
  }

  lemma OwnerOk(cfg: Config, w: World, p: nat)
    requires Ok(cfg, w) && p in w.blocks
    ensures BlockOk(cfg, w.view.live, w.maps, p, w.blocks[p])
  {
    hide BlockOk, MapsOk, RegistryOk, LiveOk, SinglesOk;
  }

  /**
   * Every step of slabs, slots, large blocks, leaks, trims and client stores is one permitted action on
   * the client's map from live pointers to bytes, and has exactly that action's effect.
   */
  lemma StepRefinesHeap(cfg: Config, w: World, e: Event, w': World)
    requires Step(cfg, w, e, w')
    ensures var act := ActionOf(cfg, e, w');
            H.Permitted(HeapOf(w), act) && HeapOf(w') == H.Effect(HeapOf(w), act)
  {
    hide Step, Ok, Enabled, After, PointerTo, Offset, Aligned, Contents, H.Overwrite, H.SamePrefix;
    StepIsBetweenOkWorlds(cfg, w, e, w');
    AllocationsAppear(cfg, w, e, w');
    var p := Subject(cfg, e);
    forall q | q in w.blocks && q != p
      ensures q in w'.blocks && Contents(w', q) == Contents(w, q)
    {
      OthersUnchanged(cfg, w, e, w', q);
    }
    if p in w'.blocks {
      PointersArePositive(cfg, w', p);
    }
    match e
    case MapSlab(_) => NoPointerIsNull(cfg, w);
    case Trim(_) => NoPointerIsNull(cfg, w);
    case Tidy => NoPointerIsNull(cfg, w);
    case Store(_, at, s) => StoreWrites(cfg, w, p, at, s, w');
    case Retain(_, n) => RetainKeepsPrefix(cfg, w, p, n, w');
    case _ =>
  }

  lemma NoPointerIsNull(cfg: Config, w: World)
    requires Ok(cfg, w)
    ensures 0 !in w.blocks
  {
    hide Ok;
    if 0 in w.blocks {
      PointersArePositive(cfg, w, 0);
      assert false;
    }
  }
}
