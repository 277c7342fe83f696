/** A concrete run in which a block leaves the stack and comes back behind a stale observation. */
module AbaWitness {
  import opened TransferSpec
  import opened TransferMemory
  import opened Chains
  import L = LockFree
  import R = LockFreeRuns

  const A: Block := 10
  const B: Block := 11
  const C: Block := 12
  const AB := Desc(At(10), At(11), 2)
  const JUST_A := Desc(At(10), At(10), 1)
  const JUST_C := Desc(At(12), At(12), 1)

  function Make(links: (Ptr, Ptr, Ptr), head: Ptr, first: L.Pc, second: L.Pc, mine: map<Block, Tid>): L.State {
    L.State(map[A := links.0, B := links.1, C := links.2], seq(CLASS_COUNT, i => if i == 0 then head else Null),
            map[1 := first, 2 := second], mine)
  }

  /** Thread 1 links its batch [C] to head A; meanwhile thread 2 takes [A, B] and publishes [A] again. */
  function StateAt(i: nat): L.State {
    match i
    case 0 => Make((At(B), Null, Null), Null, L.Idle, L.Idle, map[A := 2, B := 2, C := 1])
    case 1 => Make((At(B), Null, Null), Null, L.Idle, L.Loaded(0, AB, Null), map[C := 1])
    case 2 => Make((At(B), Null, Null), Null, L.Idle, L.Linked(0, AB, Null), map[C := 1])
    case 3 => Make((At(B), Null, Null), At(A), L.Idle, L.Idle, map[C := 1])
    case 4 => Make((At(B), Null, Null), At(A), L.Loaded(0, JUST_C, At(A)), L.Idle, map[])
    case 5 => Make((At(B), Null, At(A)), At(A), L.Linked(0, JUST_C, At(A)), L.Idle, map[])
    case 6 => Make((At(B), Null, At(A)), Null, L.Linked(0, JUST_C, At(A)), L.Traversing(0, At(A), At(A), Null, 0), map[])
    case 7 => Make((At(B), Null, At(A)), Null, L.Linked(0, JUST_C, At(A)), L.Traversing(0, At(A), At(B), At(A), 1), map[])
    case 8 => Make((At(B), Null, At(A)), Null, L.Linked(0, JUST_C, At(A)), L.Traversing(0, At(A), Null, At(B), 2), map[])
    case 9 => Make((At(B), Null, At(A)), Null, L.Linked(0, JUST_C, At(A)), L.Idle, map[A := 2, B := 2])
    case 10 => Make((At(B), Null, At(A)), Null, L.Linked(0, JUST_C, At(A)), L.Loaded(0, JUST_A, Null), map[B := 2])
    case 11 => Make((Null, Null, At(A)), Null, L.Linked(0, JUST_C, At(A)), L.Linked(0, JUST_A, Null), map[B := 2])
    case 12 => Make((Null, Null, At(A)), At(A), L.Linked(0, JUST_C, At(A)), L.Idle, map[B := 2])
    case _ => Make((Null, Null, At(A)), At(C), L.Idle, L.Idle, map[B := 2])
  }

  function EventAt(i: nat): L.Event {
    match i
    case 0 => L.Load(2, 0, [A, B])
    case 1 => L.Link(2)
    case 2 => L.CasSuccess(2)
    case 3 => L.Load(1, 0, [C])
    case 4 => L.Link(1)
    case 5 => L.Exchange(2, 0)
    case 6 => L.Follow(2)
    case 7 => L.Follow(2)
    case 8 => L.Return(2)
    case 9 => L.Load(2, 0, [A])
    case 10 => L.Link(2)
    case 11 => L.CasSuccess(2)
    case _ => L.CasSuccess(1)
  }

  lemma EarlySteps(i: nat)
    requires i < 5
    ensures L.Step(StateAt(i), EventAt(i), StateAt(i + 1))
  {
    if i == 0 {
      assert PrivateList(StateAt(0).next, StateAt(0).mine, 2, [A, B]);
    }
  }

  lemma TakeSteps(i: nat)
    requires 5 <= i < 8
    ensures L.Step(StateAt(i), EventAt(i), StateAt(i + 1))
  {
  }

  lemma ReturnStep()
    ensures L.Step(StateAt(8), EventAt(8), StateAt(9))
  {
    var s := StateAt(8);
    assert ChainFrom(s.next, At(A), [A, B]);
    assert StateAt(9) == s.(pcs := s.pcs[2 := L.Idle], mine := Adopt(s.mine, [A, B], 2));
  }

  lemma LateSteps(i: nat)
    requires 9 <= i < 13
    ensures L.Step(StateAt(i), EventAt(i), StateAt(i + 1))
  {
    if i == 9 {
      assert PrivateList(StateAt(9).next, StateAt(9).mine, 2, [A]);
    }
  }

  /**
   * ABA really happens in the model: thread 1 observes head A while A is followed by B, A leaves and
   * returns alone, and the compare-exchange still succeeds. The batch lands on the stack as it is
   * now, so B, which its owner kept, does not reappear.
   */
  lemma AbaSucceedsHarmlessly()
    ensures var states, events := seq(14, i requires i >= 0 => StateAt(i)), seq(13, i requires i >= 0 => EventAt(i));
            && R.Run(states, events)
            && events[3] == L.Load(1, 0, [C]) && events[12] == L.CasSuccess(1)
            && ChainFrom(states[3].next, states[3].heads[0], [A, B])
            && ChainFrom(states[12].next, states[12].heads[0], [A])
            && states[3].heads[0] == states[12].heads[0]
            && ChainFrom(states[13].next, states[13].heads[0], [C, A])
            && B in states[13].mine
  {
    hide L.Step;
    forall i | 0 <= i < 13
      ensures L.Step(StateAt(i), EventAt(i), StateAt(i + 1))
    {
      if i < 5 {
        EarlySteps(i);
      } else if i < 8 {
        TakeSteps(i);
      } else if i == 8 {
        ReturnStep();
      } else {
        LateSteps(i);
      }
    }
  }
}
