/**
 * Where the bytes of every block are (src/block.h, src/slab.h, and the large blocks of
 * src/allocator.c:175-239): a world of mappings, slab slots, large blocks and memory contents. The
 * small blocks follow SlotAllocator, which both variants refine; the operating system hands out
 * disjoint aligned ranges or refuses; an unmap may fail.
 */
module ByteMemory {
  import opened CheckedMath
  import opened Layout
  import opened Sequences
  import opened SizeClasses
  import H = HeapSpec
  import SlotAllocator
  import SlotPools

  type Slab = SlotPools.Slab
  type Slot = SlotPools.Slot
  type Byte = H.Byte

  const PTRDIFF_MAX: nat := 0x7FFF_FFFF_FFFF_FFFF

  datatype Config = Config(target: Target, page: Word)

  /** A mapping holds a slab, one large block, or nothing any more: its unmap failed and was ignored. */
  datatype Mapping = Arena(slab: Slab) | Single(length: Word) | Leaked(length: Word)

  function Length(m: Mapping): nat {
    if m.Arena? then m.slab.length else m.length
  }

  datatype Owner = Small(x: Slot) | Large(base: nat)

  /** The fields of a live block's prefix. */
  datatype Block = Block(owner: Owner, requested: Word, capacity: Word)

  /** Mappings by base address, live blocks by payload address, and the contents of memory. */
  datatype World = World(view: SlotAllocator.View, maps: map<nat, Mapping>, blocks: map<nat, Block>, bytes: nat -> Byte)

  // ---- Addresses ----

  /** A slab's number is the base address of its mapping, and its shape is the computed layout. */
  ghost predicate GoodSlab(cfg: Config, slab: Slab) {
    && slab.cls < CLASS_COUNT
    && var l := ComputeSlab(cfg.target, Capacity(slab.cls), cfg.page);
       l.Some? && slab.slots == l.value.count && slab.length == l.value.mappingLength
  }

  function LayoutOf(cfg: Config, slab: Slab): SlabLayout {
    match ComputeSlab(cfg.target, Capacity(slab.cls), cfg.page)
    case Some(l) => l
    case None => SlabLayout(0, 0, 0, 0, 0, 0)
  }

  function Offset(cfg: Config): Word {
    match PayloadOffset(cfg.target)
    case Some(offset) => offset
    case None => 0
  }

  function PointerTo(cfg: Config, o: Owner): nat {
    match o
    case Small(x) => x.slab.id + Payload(LayoutOf(cfg, x.slab), x.index).from
    case Large(base) => base + Offset(cfg)
  }

  function Home(o: Owner): nat {
    match o
    case Small(x) => x.slab.id
    case Large(base) => base
  }

  ghost predicate Mapped(w: World, a: nat) {
    exists b :: b in w.maps && b <= a < b + Length(w.maps[b])
  }

  /** The bytes the allocator itself writes in one mapping: the slab header and every block prefix. */
  ghost predicate MetadataOf(cfg: Config, b: nat, m: Mapping, a: nat) {
    match m
    case Arena(slab) =>
      || b <= a < b + cfg.target.slabHeader
      || exists i: nat :: i < slab.slots && b + Prefix(LayoutOf(cfg, slab), i).from <= a < b + Prefix(LayoutOf(cfg, slab), i).to
    case Single(_) => b <= a < b + Offset(cfg)
    case Leaked(_) => false
  }

  ghost predicate Metadata(cfg: Config, w: World, a: nat) {
    exists b :: b in w.maps && MetadataOf(cfg, b, w.maps[b], a)
  }

  // ---- The invariant ----

  ghost predicate Aligned(cfg: Config, a: nat) {
    cfg.target.alignment > 0 && a % cfg.target.alignment == 0
  }

  ghost predicate MappingOk(cfg: Config, b: nat, m: Mapping) {
    && 0 < b && b + Length(m) <= MODULUS && Aligned(cfg, b)
    && (m.Arena? ==> m.slab.id == b && GoodSlab(cfg, m.slab))
  }

  ghost predicate MapsOk(cfg: Config, maps: map<nat, Mapping>) {
    && (forall b :: b in maps ==> MappingOk(cfg, b, maps[b]))
    && (forall b, d :: b in maps && d in maps && b != d ==> b + Length(maps[b]) <= d || d + Length(maps[d]) <= b)
  }

  /** The block's owner exists in its mapping, and its sizes are what its kind allows. */
  ghost predicate BlockOk(cfg: Config, live: set<Slot>, maps: map<nat, Mapping>, p: nat, b: Block) {
    && p == PointerTo(cfg, b.owner) && 0 < b.requested <= PTRDIFF_MAX
    && match b.owner
       case Small(x) => x in live && b.capacity == Capacity(x.slab.cls) && ClassOf(b.requested) == Some(x.slab.cls)
       case Large(base) =>
         && base in maps && maps[base].Single? && ClassOf(b.requested) == None
         && b.requested <= b.capacity && Offset(cfg) + b.capacity == maps[base].length
         && Aligned(cfg, Offset(cfg))
  }

  ghost predicate BlocksOk(cfg: Config, live: set<Slot>, maps: map<nat, Mapping>, blocks: map<nat, Block>) {
    forall p :: p in blocks ==> BlockOk(cfg, live, maps, p, blocks[p])
  }

  ghost predicate Owned(cfg: Config, blocks: map<nat, Block>, o: Owner) {
    PointerTo(cfg, o) in blocks && blocks[PointerTo(cfg, o)].owner == o
  }

  ghost predicate RegistryOk(registry: set<Slab>, maps: map<nat, Mapping>) {
    && (forall s :: s in registry ==> s.id in maps && maps[s.id] == Arena(s))
    && (forall b :: b in maps && maps[b].Arena? ==> maps[b].slab in registry && maps[b].slab.id == b)
  }

  ghost predicate LiveOk(cfg: Config, view: SlotAllocator.View, blocks: map<nat, Block>) {
    forall x :: x in view.live ==> x.slab in view.registry && x.index < x.slab.slots && Owned(cfg, blocks, Small(x))
  }

  /** No mapping of a large block is forgotten: it has its block, or it is known to be leaked. */
  ghost predicate SinglesOk(cfg: Config, maps: map<nat, Mapping>, blocks: map<nat, Block>) {
    forall b :: b in maps && maps[b].Single? ==> Owned(cfg, blocks, Large(b))
  }

  ghost predicate Ok(cfg: Config, w: World) {
    && MapsOk(cfg, w.maps) && RegistryOk(w.view.registry, w.maps)
    && LiveOk(cfg, w.view, w.blocks) && SinglesOk(cfg, w.maps, w.blocks)
    && BlocksOk(cfg, w.view.live, w.maps, w.blocks)
  }

  // ---- Live payloads ----

  /** The whole capacity behind the pointer. */
  function PayloadRange(p: nat, b: Block): Range {
    Range(p, p + b.capacity)
  }

  lemma GoodSlabIsSound(cfg: Config, slab: Slab)
    requires GoodSlab(cfg, slab)
    ensures var l := LayoutOf(cfg, slab);
            && SoundSlab(cfg.target, l) && slab.slots == l.count && slab.length == l.mappingLength
            && l.capacity == Capacity(slab.cls)
  {
    SlabLayoutIsSound(cfg.target, Capacity(slab.cls), cfg.page);
    hide ComputeSlab, SoundSlab, LeastMultiple;
  }

  lemma SlotInsideMapping(cfg: Config, slab: Slab, i: nat, m: Mapping)
    requires MappingOk(cfg, slab.id, m) && m == Arena(slab) && i < slab.slots
    ensures var p := PointerTo(cfg, Small(SlotPools.Slot(slab, i)));
            && 0 < slab.id <= p && p + Capacity(slab.cls) <= slab.id + slab.length
            && Aligned(cfg, p)
  {
    SlotPointerIsAligned(cfg, slab, i);
    hide Aligned;
    var l := LayoutOf(cfg, slab);
    GoodSlabIsSound(cfg, slab);
    SlotFits(cfg.target, l, i);
    hide SoundSlab, GoodSlab, LayoutOf;
  }

  lemma SlotPointerIsAligned(cfg: Config, slab: Slab, i: nat)
    requires GoodSlab(cfg, slab) && Aligned(cfg, slab.id)
    ensures Aligned(cfg, PointerTo(cfg, Small(SlotPools.Slot(slab, i))))
  {
    GoodSlabIsSound(cfg, slab);
    SlotsAreAligned(cfg.target, LayoutOf(cfg, slab), slab.id, i);
    hide LayoutOf, GoodSlab, SoundSlab, SlotOffset;
  }

  /** A live payload lies inside the mapping of its owner, holds the requested bytes, and is aligned. */
  lemma PayloadInsideMapping(cfg: Config, w: World, p: nat)
    requires Ok(cfg, w) && p in w.blocks
    ensures var b := w.blocks[p]; var h := Home(b.owner);
            && h in w.maps && h <= p && p + b.capacity <= h + Length(w.maps[h])
            && b.requested <= b.capacity && p > 0 && Aligned(cfg, p)
  {
    var b := w.blocks[p];
    assert BlockOk(cfg, w.view.live, w.maps, p, b);
    assert MappingOk(cfg, Home(b.owner), w.maps[Home(b.owner)]);
    hide MappingOk, Ok, GoodSlab, LayoutOf, PointerTo, Aligned;
    match b.owner
    case Small(x) => SlotInsideMapping(cfg, x.slab, x.index, w.maps[x.slab.id]);
    case Large(base) => LargeInsideMapping(cfg, base, w.maps[base]);
  }

  lemma LargeInsideMapping(cfg: Config, base: nat, m: Mapping)
    requires MappingOk(cfg, base, m) && Aligned(cfg, Offset(cfg))
    ensures PointerTo(cfg, Large(base)) == base + Offset(cfg) > 0
    ensures Aligned(cfg, base + Offset(cfg))
  {
    SumOfMultiples(base, Offset(cfg), cfg.target.alignment);
  }

  /** Two live payloads share no byte. */
  lemma PayloadsAreApart(cfg: Config, w: World, p: nat, q: nat)
    requires Ok(cfg, w) && p in w.blocks && q in w.blocks && p != q
    ensures Apart(PayloadRange(p, w.blocks[p]), PayloadRange(q, w.blocks[q]))
  {
    hide Aligned;
    PayloadInsideMapping(cfg, w, p);
    PayloadInsideMapping(cfg, w, q);
    assert BlockOk(cfg, w.view.live, w.maps, p, w.blocks[p]) && BlockOk(cfg, w.view.live, w.maps, q, w.blocks[q]);
    var b, d := w.blocks[p].owner, w.blocks[q].owner;
    if Home(b) == Home(d) && b.Small? && d.Small? {
      assert MappingOk(cfg, Home(b), w.maps[Home(b)]);
      assert b.x.slab == d.x.slab && b.x.index != d.x.index;
      GoodSlabIsSound(cfg, b.x.slab);
      SlotsAreApart(cfg.target, LayoutOf(cfg, b.x.slab), b.x.index, d.x.index);
    }
  }

  /** A live payload holds no slab header and no block prefix, its own or any other. */
  lemma PayloadIsNotMetadata(cfg: Config, w: World, p: nat, a: nat)
    requires Ok(cfg, w) && p in w.blocks && p <= a < p + w.blocks[p].capacity
    ensures Mapped(w, a) && !Metadata(cfg, w, a)
  {
    hide Aligned;
    PayloadInsideMapping(cfg, w, p);
    var o := w.blocks[p].owner;
    assert BlockOk(cfg, w.view.live, w.maps, p, w.blocks[p]);
    forall b | b in w.maps
      ensures !MetadataOf(cfg, b, w.maps[b], a)
    {
      MetadataInsideMapping(cfg, w, b, a);
      if b == Home(o) && o.Small? {
        PayloadAvoidsSlabMetadata(cfg, w, o.x, a);
      }
    }
  }

  lemma MetadataInsideMapping(cfg: Config, w: World, b: nat, a: nat)
    requires Ok(cfg, w) && b in w.maps
    ensures MetadataOf(cfg, b, w.maps[b], a) ==> b <= a < b + Length(w.maps[b])
  {
    hide Aligned;
    var m := w.maps[b];
    assert MappingOk(cfg, b, m);
    if MetadataOf(cfg, b, m, a) {
      match m
      case Arena(slab) =>
        GoodSlabIsSound(cfg, slab);
        var l := LayoutOf(cfg, slab);
        SlotFits(cfg.target, l, 0);
        if !(b <= a < b + cfg.target.slabHeader) {
          var i: nat :| i < slab.slots && b + Prefix(l, i).from <= a < b + Prefix(l, i).to;
          SlotFits(cfg.target, l, i);
        }
      case Single(_) =>
        assert Owned(cfg, w.blocks, Large(b));
        assert BlockOk(cfg, w.view.live, w.maps, PointerTo(cfg, Large(b)), w.blocks[PointerTo(cfg, Large(b))]);
      case Leaked(_) =>
    }
  }

  lemma PayloadAvoidsSlabMetadata(cfg: Config, w: World, x: Slot, a: nat)
    requires Ok(cfg, w) && x in w.view.live
    requires PointerTo(cfg, Small(x)) <= a < PointerTo(cfg, Small(x)) + Capacity(x.slab.cls)
    ensures !MetadataOf(cfg, x.slab.id, Arena(x.slab), a)
  {
    hide Aligned;
    assert MappingOk(cfg, x.slab.id, w.maps[x.slab.id]);
    GoodSlabIsSound(cfg, x.slab);
    var l := LayoutOf(cfg, x.slab);
    SlotFits(cfg.target, l, x.index);
    forall i: nat | i < x.slab.slots
      ensures !(x.slab.id + Prefix(l, i).from <= a < x.slab.id + Prefix(l, i).to)
    {
      SlotFits(cfg.target, l, i);
      if i != x.index {
        SlotsAreApart(cfg.target, l, i, x.index);
      }
    }
  }
}
