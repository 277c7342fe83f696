/**
 * The seam between slots and bytes: what each action of SlotAllocator does to mappings, prefixes and
 * addresses. Both variants are joined to ByteSteps here.
 */
module SlotBytes {
  import opened ByteMemory
  import opened ByteSteps
  import opened CheckedMath
  import opened Sequences
  import opened SizeClasses
  import A = SlotAllocator
  import H = HeapSpec

  /** The byte-level step of an action; `n` is the size that was asked for. */
  ghost function ByteOf(cfg: Config, act: A.Action, n: Word): Event {
    match act
    case Quiet => Tidy
    case Allocate(x) => AllocSmall(x, n)
    case Release(x) => FreeSmall(PointerTo(cfg, Small(x)))
    case Grow(slab) => MapSlab(slab)
    case Shrink(released) => Trim(released)
  }

  /** The world moves as the step says; whether the step was allowed is to be proved. */
  ghost predicate Moves(cfg: Config, w: World, e: Event, w': World) {
    w' == After(cfg, w, e).(bytes := w'.bytes) && BytesFollow(cfg, w, e, w')
  }

  /** The dispatch of `hplf_malloc`: a size that some class serves. */
  ghost predicate AskedFor(n: Word, c: nat) {
    n <= PTRDIFF_MAX && ClassOf(n) == Some(c)
  }

  /** The system maps a range that is apart from all others, and the slab has its computed layout. */
  ghost predicate MapGiven(cfg: Config, w: World, slab: Slab) {
    GoodSlab(cfg, slab) && OsGives(cfg, w, slab.id, slab.length)
  }

  /** Client and system steps that leave slabs and slots alone. */
  ghost predicate Apart(cfg: Config, w: World, e: Event) {
    (e.AllocLarge? || e.FreeLarge? || e.Store? || e.Retain?) && Enabled(cfg, w, e)
  }

  lemma SlotHasItsBlock(cfg: Config, w: World, x: Slot)
    requires Ok(cfg, w) && x in w.view.live
    ensures var p := PointerTo(cfg, Small(x)); p in w.blocks && w.blocks[p].owner == Small(x)
  {
    hide MapsOk, RegistryOk, SinglesOk, BlocksOk, PointerTo;
  }

  /** What the slot layer permits, the byte layer can do, and both see the same slabs and live slots after it. */
  lemma ActionIsEnabled(cfg: Config, w: World, act: A.Action, n: Word)
    requires Ok(cfg, w) && A.Permitted(w.view, act)
    requires act.Allocate? ==> AskedFor(n, act.x.slab.cls)
    requires act.Grow? ==> MapGiven(cfg, w, act.slab)
    ensures Enabled(cfg, w, ByteOf(cfg, act, n))
    ensures After(cfg, w, ByteOf(cfg, act, n)).view == A.Effect(w.view, act)
  {
    hide Ok, GoodSlab, OsGives, PointerTo, ClassOf;
    match act
    case Release(x) => SlotHasItsBlock(cfg, w, x);
    case Allocate(x) => ClassIsPositive(n);
    case _ =>
  }

  lemma ClassIsPositive(n: Word)
    ensures ClassOf(n).Some? ==> n > 0
  {
  }

  lemma ApartKeepsView(cfg: Config, w: World, e: Event)
    requires Apart(cfg, w, e)
    ensures After(cfg, w, e).view == w.view
  {
    hide Enabled;
  }

  lemma EnabledApart(cfg: Config, w: World, e: Event)
    requires Apart(cfg, w, e)
    ensures Enabled(cfg, w, e)
  {
    hide Enabled;
  }

  /** What the client sees of an action: the pointer that comes or goes, and as many bytes as were asked for. */
  ghost predicate Answers(cfg: Config, act: A.Action, n: Word, h: H.Action) {
    match act
    case Allocate(x) => h.New? && h.p == PointerTo(cfg, Small(x)) && |h.s| == n
    case Release(x) => h == H.Delete(PointerTo(cfg, Small(x)))
    case _ => h == H.Quiet
  }

  lemma ActionIsAnswered(cfg: Config, w: World, act: A.Action, n: Word, w': World)
    requires Step(cfg, w, ByteOf(cfg, act, n), w')
    ensures Answers(cfg, act, n, ActionOf(cfg, ByteOf(cfg, act, n), w'))
  {
    hide Ok, Enabled, BytesFollow, PointerTo;
  }
}
