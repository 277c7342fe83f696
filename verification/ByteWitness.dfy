/**
 * A concrete run of the byte-level world, with 16-byte alignment and 4096-byte pages: a slab is mapped,
 * a block of ten bytes is allocated and cleared as `calloc(2, 5)` does, grown in place as
 * `realloc(p, 16)` does, moved to the next class as `realloc(p, 20)` does while another thread maps a
 * slab, and freed as `realloc(p, 0)` does.
 */
module ByteWitness {
  import opened ByteMemory
  import opened ByteSteps
  import opened ByteCalls
  import opened CheckedMath
  import opened Layout
  import opened Sequences
  import opened SizeClasses
  import A = SlotAllocator
  import SlotPools

  const TARGET: Target := Target(64, 48, 16)
  const CFG: Config := Config(TARGET, 4096)
  const SLAB: Slab := SlotPools.Slab(4096, 0, 1023, 65536)
  const SLOT: Slot := SlotPools.Slot(SLAB, 0)
  const ADDRESS: nat := 4096 + 64 + 48
  const NEXT_SLAB: Slab := SlotPools.Slab(4096 + 65536, 1, 818, 65536)
  const NEXT_SLOT: Slot := SlotPools.Slot(NEXT_SLAB, 0)
  const NEXT_ADDRESS: nat := 4096 + 65536 + 64 + 48

  /** A multiple of 16 is its own alignment. */
  lemma AlignedAlready(value: Word)
    requires value % 16 == 0 && value <= 1000
    ensures AlignUpPow2(value, 16) == Some(value)
  {
    assert Pow2(4) == 16;
    AlignUpMeaning(value, 16);
    assert LeastMultiple(value, value, 16);
    LeastMultipleUnique(value, AlignUpPow2(value, 16).value, value, 16);
  }

  lemma LayoutOfSixteen()
    ensures ComputeSlab(TARGET, 16, 4096) == Some(SlabLayout(65536, 64, 48, 64, 1023, 16))
    ensures Offset(CFG) == 48
  {
    AlignedAlready(64);
    AlignedAlready(48);
    hide AlignUpPow2;
    assert RoundUpMultiple(65536, 4096) == Some(65536);
    assert Add(48, 16) == Some(64);
    assert SlabOffsets(TARGET, 16, 4096) == Some(SlabLayout(65536, 64, 48, 64, 0, 16));
    assert WrapSub(65536, 64) == 65472 && SlotCount(65472, 64) == 1023;
    assert Multiply(1023, 64) == Some(65472) && Add(64, 65472) == Some(65536);
    hide SlabOffsets, SlotCount, Multiply, Add, WrapSub, RoundUpMultiple;
  }

  lemma LayoutOfThirtyTwo()
    ensures ComputeSlab(TARGET, 32, 4096) == Some(SlabLayout(65536, 64, 48, 80, 818, 32))
  {
    AlignedAlready(64);
    AlignedAlready(48);
    AlignedAlready(80);
    hide AlignUpPow2;
    assert RoundUpMultiple(65536, 4096) == Some(65536);
    assert Add(48, 32) == Some(80);
    assert SlabOffsets(TARGET, 32, 4096) == Some(SlabLayout(65536, 64, 48, 80, 0, 32));
    assert WrapSub(65536, 64) == 65472 && SlotCount(65472, 80) == 818;
    assert Multiply(818, 80) == Some(65440) && Add(64, 65440) == Some(65504);
    hide SlabOffsets, SlotCount, Multiply, Add, WrapSub, RoundUpMultiple;
  }

  lemma SlabIsGood()
    ensures GoodSlab(CFG, SLAB) && PointerTo(CFG, Small(SLOT)) == ADDRESS
  {
    LayoutOfSixteen();
    hide ComputeSlab;
    assert Capacity(0) == 16;
  }

  lemma NextSlabIsGood()
    ensures GoodSlab(CFG, NEXT_SLAB) && PointerTo(CFG, Small(NEXT_SLOT)) == NEXT_ADDRESS
  {
    LayoutOfThirtyTwo();
    LayoutOfSixteen();
    hide ComputeSlab;
    assert Capacity(1) == 32;
  }

  function Zero(a: nat): Byte {
    0
  }

  function Held(n: Word): map<nat, Block> {
    map[ADDRESS := Block(Small(SLOT), n, 16)]
  }

  function Moved(): map<nat, Block> {
    map[NEXT_ADDRESS := Block(Small(NEXT_SLOT), 20, 32)]
  }

  /** The worlds before and after each of the nine steps. */
  function WorldAt(i: nat): World {
    var one, two := map[4096 := Arena(SLAB)], map[4096 := Arena(SLAB), 4096 + 65536 := Arena(NEXT_SLAB)];
    var slabs := {SLAB, NEXT_SLAB};
    match i
    case 0 => World(A.View({}, {}), map[], map[], Zero)
    case 1 => World(A.View({SLAB}, {}), one, map[], Zero)
    case 2 => World(A.View({SLAB}, {SLOT}), one, Held(10), Zero)
    case 3 => World(A.View({SLAB}, {SLOT}), one, Held(10), Zero)
    case 4 => World(A.View({SLAB}, {SLOT}), one, Held(16), Zero)
    case 5 => World(A.View(slabs, {SLOT}), two, Held(16), Zero)
    case 6 => World(A.View(slabs, {SLOT, NEXT_SLOT}), two, Held(16) + Moved(), Zero)
    case 7 => World(A.View(slabs, {SLOT, NEXT_SLOT}), two, Held(16) + Moved(), Zero)
    case 8 => World(A.View(slabs, {NEXT_SLOT}), two, Moved(), Zero)
    case _ => World(A.View(slabs, {}), two, map[], Zero)
  }

  function EventAt(i: nat): Event {
    match i
    case 0 => MapSlab(SLAB)
    case 1 => AllocSmall(SLOT, 10)
    case 2 => Store(ADDRESS, 0, Zeros(10))
    case 3 => Retain(ADDRESS, 16)
    case 4 => MapSlab(NEXT_SLAB)
    case 5 => AllocSmall(NEXT_SLOT, 20)
    case 6 => Store(NEXT_ADDRESS, 0, Zeros(16))
    case 7 => FreeSmall(ADDRESS)
    case _ => FreeSmall(NEXT_ADDRESS)
  }

  lemma ClassesAsked()
    ensures ClassOf(10) == Some(0) && ClassOf(16) == Some(0) && ClassOf(20) == Some(1)
  {
    assert IsClassFor(10, 0) && IsClassFor(16, 0) && IsClassFor(20, 1);
    ClassUnique(10, 0, ClassOf(10).value);
    ClassUnique(16, 0, ClassOf(16).value);
    ClassUnique(20, 1, ClassOf(20).value);
  }

  lemma EventsAreEnabled(i: nat)
    requires i < 9
    ensures Enabled(CFG, WorldAt(i), EventAt(i))
  {
    hide GoodSlab, PointerTo, ClassOf, ComputeLarge;
    SlabIsGood();
    NextSlabIsGood();
    ClassesAsked();
  }

  lemma FirstEventsLead(i: nat)
    requires i < 5
    ensures WorldAt(i + 1) == After(CFG, WorldAt(i), EventAt(i)).(bytes := Zero)
  {
    hide GoodSlab, PointerTo, ClassOf, Ok, Enabled, LargeLength, Moved;
    SlabIsGood();
    assert Capacity(0) == 16;
  }

  lemma MovingEventsLead(i: nat)
    requires 5 <= i < 7
    ensures WorldAt(i + 1) == After(CFG, WorldAt(i), EventAt(i)).(bytes := Zero)
  {
    hide GoodSlab, PointerTo, ClassOf, Ok, Enabled, LargeLength;
    NextSlabIsGood();
    assert Capacity(1) == 32;
  }

  lemma FreeingEventsLead(i: nat)
    requires 7 <= i < 9
    ensures WorldAt(i + 1) == After(CFG, WorldAt(i), EventAt(i)).(bytes := Zero)
  {
    assert Held(16) + Moved() - {ADDRESS} == Moved() && Moved() - {NEXT_ADDRESS} == map[];
    assert {SLOT, NEXT_SLOT} - {SLOT} == {NEXT_SLOT} && {NEXT_SLOT} - {NEXT_SLOT} == {};
  }

  lemma OnlyZerosAreWritten(i: nat, a: nat)
    ensures WorldAt(i).bytes == Zero && Written(WorldAt(i), EventAt(i), a) == 0
  {
  }

  lemma StepsAreSteps(i: nat)
    requires i < 9 && Ok(CFG, WorldAt(i))
    ensures Step(CFG, WorldAt(i), EventAt(i), WorldAt(i + 1))
  {
    hide Ok, Enabled, After, Mapped, Metadata, WorldAt, EventAt, Written;
    EventsAreEnabled(i);
    if i < 5 {
      FirstEventsLead(i);
    } else if i < 7 {
      MovingEventsLead(i);
    } else {
      FreeingEventsLead(i);
    }
    forall a: nat
      ensures WorldAt(i + 1).bytes(a) == Written(WorldAt(i), EventAt(i), a)
    {
      OnlyZerosAreWritten(i + 1, a);
      OnlyZerosAreWritten(i, a);
    }
    OnlyZerosAreWritten(i + 1, 0);
  }

  lemma {:induction false} WorldsAreOk(i: nat)
    requires i <= 9
    ensures Ok(CFG, WorldAt(i))
    ensures i < 9 ==> Step(CFG, WorldAt(i), EventAt(i), WorldAt(i + 1))
  {
    hide Step, Ok, WorldAt, EventAt;
    if i == 0 {
      assert Initial(WorldAt(0)) by { FirstIsInitial(); }
      InitialIsOk(CFG, WorldAt(0));
    } else {
      WorldsAreOk(i - 1);
      StepKeepsOk(CFG, WorldAt(i - 1), EventAt(i - 1), WorldAt(i));
    }
    if i < 9 {
      StepsAreSteps(i);
    }
  }

  lemma FirstIsInitial()
    ensures Initial(WorldAt(0))
  {
  }

  /** The worlds of `n` steps from the `from`-th on. */
  ghost function Worlds(from: nat, n: nat): seq<World> {
    seq(n + 1, i requires i >= 0 => WorldAt(from + i))
  }

  ghost function Events(from: nat, n: nat): seq<Event> {
    seq(n, i requires i >= 0 => EventAt(from + i))
  }

  lemma RunExists(from: nat, n: nat)
    requires from + n <= 9
    ensures Run(CFG, Worlds(from, n), Events(from, n))
  {
    hide Step, WorldAt, EventAt;
    var ws, es := Worlds(from, n), Events(from, n);
    forall k: nat {:trigger es[k]} | k < n
      ensures Step(CFG, ws[k], es[k], ws[k + 1])
    {
      WorldsAreOk(from + k);
    }
  }

  lemma SubjectOfAllocation()
    ensures Subject(CFG, AllocSmall(SLOT, 10)) == ADDRESS
  {
    SlabIsGood();
    hide PointerTo;
  }

  lemma CallocFromParts(ws: seq<World>, es: seq<Event>)
    requires Run(CFG, ws, es) && |es| == 3 && es[1] == AllocSmall(SLOT, 10) && es[2] == Store(ADDRESS, 0, Zeros(10))
    ensures CallocCall(CFG, ws, es, 2, 5, ADDRESS, 1, 2)
  {
    hide Run, PointerTo, Zeros, Subject;
    SubjectOfAllocation();
    assert Multiply(2, 5) == Some(10);
    hide Multiply;
  }

  /** `calloc(2, 5)` succeeds along the first three steps of a run that starts with nothing mapped. */
  lemma CallocHappens()
    ensures Initial(Worlds(0, 3)[0]) && CallocCall(CFG, Worlds(0, 3), Events(0, 3), 2, 5, ADDRESS, 1, 2)
  {
    hide Run, CallocCall, WorldAt, Initial;
    FirstIsInitial();
    RunExists(0, 3);
    assert Events(0, 3)[1] == EventAt(1) && Events(0, 3)[2] == EventAt(2);
    CallocFromParts(Worlds(0, 3), Events(0, 3));
  }

  lemma RetainFromParts(ws: seq<World>, es: seq<Event>)
    requires Run(CFG, ws, es) && |es| == 1 && ws[0] == WorldAt(3) && es[0] == Retain(ADDRESS, 16)
    ensures ReallocCall(CFG, ws, es, ADDRESS, 16, ADDRESS, OneStep(0))
  {
    hide Run, ClassOf, Leaves, Frees, Allocates, Copied, Subject;
    ClassesAsked();
  }

  /** `realloc(p, 16)` of the ten-byte block then keeps it in place. */
  lemma ReallocHappens()
    ensures ReallocCall(CFG, Worlds(3, 1), Events(3, 1), ADDRESS, 16, ADDRESS, OneStep(0))
  {
    hide Run, ReallocCall, WorldAt;
    RunExists(3, 1);
    RetainFromParts(Worlds(3, 1), Events(3, 1));
  }

  lemma MoveFromParts(ws: seq<World>, es: seq<Event>)
    requires Run(CFG, ws, es) && |ws| == 5 && |es| == 4 && ws[0].blocks == Held(16) && ADDRESS in ws[2].blocks
    requires es[0] == MapSlab(NEXT_SLAB) && es[1] == AllocSmall(NEXT_SLOT, 20)
    requires es[2] == Store(NEXT_ADDRESS, 0, Zeros(16)) && es[3] == FreeSmall(ADDRESS)
    requires Copied(ws[2], ADDRESS, 20) == Zeros(16)
    ensures ReallocCall(CFG, ws, es, ADDRESS, 20, NEXT_ADDRESS, Three(1, 2, 3))
  {
    hide Run, Zeros, Subject, Copied, CanRetain;
    NextSubject();
    MustMove(ws[0]);
  }

  lemma NextSubject()
    ensures Subject(CFG, AllocSmall(NEXT_SLOT, 20)) == NEXT_ADDRESS
  {
    hide PointerTo;
    NextSlabIsGood();
  }

  lemma MustMove(w: World)
    requires w.blocks == Held(16)
    ensures ADDRESS in w.blocks && !CanRetain(w.blocks[ADDRESS], 20)
  {
    hide ClassOf;
    ClassesAsked();
  }

  /** What the copy takes from the old block. */
  lemma OldBytes()
    ensures WorldAt(4).blocks == Held(16)
    ensures ADDRESS in WorldAt(6).blocks && Copied(WorldAt(6), ADDRESS, 20) == Zeros(16)
  {
    assert WorldAt(6).blocks[ADDRESS] == Block(Small(SLOT), 16, 16);
    ZeroContents(WorldAt(6), ADDRESS);
  }

  lemma ZeroContents(w: World, p: nat)
    requires p in w.blocks && w.bytes == Zero
    ensures Contents(w, p) == Zeros(w.blocks[p].requested)
  {
    var s, zeros := Contents(w, p), Zeros(w.blocks[p].requested);
    forall i | 0 <= i < |s|
      ensures s[i] == zeros[i]
    {
      assert s[i] == Zero(p + i);
    }
    assert s == zeros;
  }

  /** `realloc(p, 20)` then moves the block to the next class, while another thread maps the slab. */
  lemma MovedReallocHappens()
    ensures ReallocCall(CFG, Worlds(4, 4), Events(4, 4), ADDRESS, 20, NEXT_ADDRESS, Three(1, 2, 3))
  {
    hide Run, ReallocCall, WorldAt, Copied, Zeros, Held;
    RunExists(4, 4);
    OldBytes();
    MovingEvents();
    MoveFromParts(Worlds(4, 4), Events(4, 4));
  }

  lemma MovingEvents()
    ensures Events(4, 4) == [MapSlab(NEXT_SLAB), AllocSmall(NEXT_SLOT, 20), Store(NEXT_ADDRESS, 0, Zeros(16)), FreeSmall(ADDRESS)]
  {
  }

  lemma FreeFromParts(ws: seq<World>, es: seq<Event>)
    requires Run(CFG, ws, es) && |es| == 1 && ws[0] == WorldAt(8) && es[0] == FreeSmall(NEXT_ADDRESS)
    ensures ReallocCall(CFG, ws, es, NEXT_ADDRESS, 0, 0, OneStep(0))
  {
    hide Run, CanRetain, Leaves, Allocates, Copied, Subject;
  }

  /** `realloc(p, 0)` then frees it. */
  lemma ReallocToZeroHappens()
    ensures ReallocCall(CFG, Worlds(8, 1), Events(8, 1), NEXT_ADDRESS, 0, 0, OneStep(0))
  {
    hide Run, ReallocCall, WorldAt;
    RunExists(8, 1);
    FreeFromParts(Worlds(8, 1), Events(8, 1));
  }
}
