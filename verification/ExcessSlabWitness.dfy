/**
 * The comment at src/allocator.c:76 does not bound the cached variant's slabs: the registry mutex is
 * released before the remainder of a new slab is published, so a second thread rechecks an empty
 * shared list and maps another slab. The bound of LockedAllocator fails here, in any class and for any
 * slot count; CachedSpace says when it holds.
 */
module ExcessSlabWitness {
  import opened Sequences
  import opened SizeClasses
  import opened SlotPools
  import opened CachedAllocator
  import K = LockedAllocator
  import M = ByteMemory
  import S = CachedSpace
  import W = ByteWitness

  /** Two slabs of one class and shape, at different addresses. */
  ghost predicate Twins(a: Slab, b: Slab) {
    a.cls == b.cls < CLASS_COUNT && a.slots == b.slots > 0 && a.id != b.id
  }

  function Only(c: nat, s: seq<Slot>): (r: seq<seq<Slot>>)
    ensures |r| == CLASS_COUNT
  {
    seq(CLASS_COUNT, d => if d == c then s else [])
  }

  function Stock(slab: Slab): seq<Slot> {
    FreshSlots(slab, slab.slots)
  }

  function Make(c: nat, registry: seq<Slab>, hands: (seq<Slot>, seq<Slot>), lock: Option<Tid>, key: Key,
                first: Thread, second: Thread): State {
    State(Pools(registry,
                map[Shared := Only(c, []), Cache(1) := Only(c, []), Hand(1) := Only(c, hands.0),
                    Cache(2) := Only(c, []), Hand(2) := Only(c, hands.1)], {}),
          lock, map[1 := first, 2 := second], key, {}, {})
  }

  function Th(pc: Pc): Thread {
    Thread(Uncached, pc)
  }

  const NEW := Thread(Uninitialized, Idle)

  function StateAt(a: Slab, b: Slab, i: nat): State {
    var c := a.cls;
    match i
    case 0 => Make(c, [], ([], []), None, NotCreated, NEW, NEW)
    case 1 => Make(c, [], ([], []), None, Created, Th(Idle), NEW)
    case 2 => Make(c, [], ([], []), None, Created, Th(Idle), Th(Idle))
    case 3 => Make(c, [], ([], []), None, Created, Th(Miss(c)), Th(Idle))
    case 4 => Make(c, [], ([], []), None, Created, Th(Miss(c)), Th(Miss(c)))
    case 5 => Make(c, [], ([], []), None, Created, Th(WantLock(c)), Th(Miss(c)))
    case 6 => Make(c, [], ([], []), None, Created, Th(WantLock(c)), Th(WantLock(c)))
    case 7 => Make(c, [], ([], []), Some(1), Created, Th(Locked(c)), Th(WantLock(c)))
    case 8 => Make(c, [], ([], []), Some(1), Created, Th(NeedSlab(c)), Th(WantLock(c)))
    case 9 => Make(c, [a], (Stock(a), []), Some(1), Created, Th(Stocked(c)), Th(WantLock(c)))
    case 10 => Make(c, [a], (Stock(a), []), None, Created, Th(Got(c)), Th(WantLock(c)))
    case 11 => Make(c, [a], (Stock(a), []), Some(2), Created, Th(Got(c)), Th(Locked(c)))
    case 12 => Make(c, [a], (Stock(a), []), Some(2), Created, Th(Got(c)), Th(NeedSlab(c)))
    case _ => Make(c, [b, a], (Stock(a), Stock(b)), Some(2), Created, Th(Got(c)), Th(Stocked(c)))
  }

  function EventAt(a: Slab, b: Slab, i: nat): Event {
    match i
    case 0 => Acquire(1, MapFails)
    case 1 => Acquire(2, MapFails)
    case 2 => MallocMiss(1, a.cls)
    case 3 => MallocMiss(2, a.cls)
    case 4 => FirstDetach(1)
    case 5 => FirstDetach(2)
    case 6 => LockRegistry(1)
    case 7 => SecondDetach(1)
    case 8 => MapSlab(1, a)
    case 9 => UnlockRegistry(1)
    case 10 => LockRegistry(2)
    case 11 => SecondDetach(2)
    case _ => MapSlab(2, b)
  }

  lemma SetupSteps(a: Slab, b: Slab, i: nat)
    requires i < 4 && a.cls < CLASS_COUNT
    ensures Step(StateAt(a, b, i), EventAt(a, b, i), StateAt(a, b, i + 1))
  {
  }

  lemma RaceSteps(a: Slab, b: Slab, i: nat)
    requires 4 <= i < 8 && a.cls < CLASS_COUNT
    ensures Step(StateAt(a, b, i), EventAt(a, b, i), StateAt(a, b, i + 1))
  {
  }

  lemma {:induction false} MapStep(a: Slab, b: Slab, i: nat)
    requires (i == 8 || i == 12) && Twins(a, b)
    ensures Step(StateAt(a, b, i), EventAt(a, b, i), StateAt(a, b, i + 1))
  {
    hide FreshSlots;
    var t := if i == 8 then 1 else 2;
    var slab := if i == 8 then a else b;
    assert Stock(slab) + [] == Stock(slab);
    assert Only(a.cls, [])[a.cls] == [];
    assert Only(a.cls, [])[a.cls := Stock(slab) + []] == Only(a.cls, Stock(slab));
    assert AddSlab(StateAt(a, b, i).pools, slab, Hand(t)).at == StateAt(a, b, i + 1).pools.at;
  }

  lemma {:induction false} LateSteps(a: Slab, b: Slab, i: nat)
    requires 9 <= i < 12 && Twins(a, b)
    ensures Step(StateAt(a, b, i), EventAt(a, b, i), StateAt(a, b, i + 1))
  {
    hide FreshSlots;
  }

  lemma {:induction false} StepAt(a: Slab, b: Slab, i: nat)
    requires i < 13 && Twins(a, b)
    ensures Step(StateAt(a, b, i), EventAt(a, b, i), StateAt(a, b, i + 1))
  {
    hide Step, StateAt, EventAt;
    if i < 4 {
      SetupSteps(a, b, i);
    } else if i < 8 {
      RaceSteps(a, b, i);
    } else if i == 8 || i == 12 {
      MapStep(a, b, i);
    } else {
      LateSteps(a, b, i);
    }
  }

  function States(a: Slab, b: Slab): seq<State> {
    seq(14, i requires i >= 0 => StateAt(a, b, i))
  }

  function Events(a: Slab, b: Slab): seq<Event> {
    seq(13, i requires i >= 0 => EventAt(a, b, i))
  }

  lemma TwoSlabs(a: Slab, b: Slab)
    requires Twins(a, b)
    ensures K.ClassSlabs([b, a], a.cls) == 2
  {
    K.ClassSlabsOfFirst([b, a], a.cls);
    K.ClassSlabsOfFirst([a], a.cls);
    assert [b, a][1..] == [a] && [a][1..] == [];
  }

  lemma RaceRuns(a: Slab, b: Slab)
    requires Twins(a, b)
    ensures S.Run(States(a, b), Events(a, b), a.cls, a.slots)
  {
    hide Step, StateAt, EventAt, Init;
    FirstStateIsInitial(a, b);
    forall i {:trigger Events(a, b)[i]} | 0 <= i < 13
      ensures Step(States(a, b)[i], Events(a, b)[i], States(a, b)[i + 1])
      ensures Events(a, b)[i].MapSlab? ==> Events(a, b)[i].slab.slots == a.slots
    {
      StepAt(a, b, i);
      MapsTwins(a, b, i);
    }
  }

  lemma FirstStateIsInitial(a: Slab, b: Slab)
    ensures Init(StateAt(a, b, 0))
  {
  }

  lemma MapsTwins(a: Slab, b: Slab, i: nat)
    requires Twins(a, b)
    ensures EventAt(a, b, i).MapSlab? ==> EventAt(a, b, i).slab.slots == a.slots
  {
  }

  lemma NothingEverLive(a: Slab, b: Slab, i: nat)
    ensures StateAt(a, b, i).pools.live == {}
    ensures i == 13 ==> StateAt(a, b, i).pools.registry == [b, a]
  {
    hide Only, Stock;
  }

  /** For any class and slot count: a run in which no block was ever live, and yet two slabs are mapped. */
  lemma CachedVariantExceedsTheBound(a: Slab, b: Slab)
    requires Twins(a, b)
    ensures S.Run(States(a, b), Events(a, b), a.cls, a.slots)
    ensures forall i :: 0 <= i < 14 ==> States(a, b)[i].pools.live == {}
    ensures S.SlabsOf(States(a, b)[13], a.cls) == 2 && 2 * a.slots > 0 + a.slots - 1
  {
    hide S.Run, StateAt, EventAt, K.ClassSlabs;
    RaceRuns(a, b);
    forall i | 0 <= i < 14
      ensures States(a, b)[i].pools.live == {}
    {
      NothingEverLive(a, b, i);
    }
    NothingEverLive(a, b, 13);
    TwoSlabs(a, b);
  }

  const FIRST: Slab := W.SLAB
  const SECOND: Slab := Slab(FIRST.id + FIRST.length, 0, 1023, 65536)

  /** Two neighbouring slabs of the smallest class, with the layout computed for 16-byte alignment and 4096-byte pages. */
  lemma SuchSlabsExist()
    ensures Twins(FIRST, SECOND)
    ensures M.GoodSlab(W.CFG, FIRST) && M.GoodSlab(W.CFG, SECOND)
    ensures M.MapsOk(W.CFG, map[FIRST.id := M.Arena(FIRST), SECOND.id := M.Arena(SECOND)])
  {
    hide M.GoodSlab, M.MappingOk, M.MapsOk, M.PointerTo;
    W.SlabIsGood();
    SameShape(FIRST, SECOND);
    SlabMaps(FIRST);
    SlabMaps(SECOND);
    Neighbours(FIRST, SECOND);
  }

  lemma SlabMaps(slab: Slab)
    requires M.GoodSlab(W.CFG, slab) && 0 < slab.id && slab.id + slab.length <= 0x1_0000_0000 && slab.id % 16 == 0
    ensures M.MappingOk(W.CFG, slab.id, M.Arena(slab))
  {
    hide M.GoodSlab;
  }

  lemma Neighbours(a: Slab, b: Slab)
    requires M.MappingOk(W.CFG, a.id, M.Arena(a)) && M.MappingOk(W.CFG, b.id, M.Arena(b)) && b.id == a.id + a.length > a.id
    ensures M.MapsOk(W.CFG, map[a.id := M.Arena(a), b.id := M.Arena(b)])
  {
    hide M.MappingOk;
  }

  lemma SameShape(a: Slab, b: Slab)
    requires M.GoodSlab(W.CFG, a) && a.cls == b.cls && a.slots == b.slots && a.length == b.length
    ensures M.GoodSlab(W.CFG, b)
  {
  }
}
