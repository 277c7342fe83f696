/**
 * What every run of the ring guarantees: each worker receives exactly what its predecessor made in the
 * same round, no mailbox is overwritten before it is read, every item is freed once, a failed
 * allocation ends the ring in its own round, and all workers leave in one round.
 */
module MailboxRingResults {
  import opened Sequences
  import opened MailboxRing

  function StageOf(s: Ring): nat {
    s.generation % 3
  }

  function RoundOf(s: Ring): nat {
    s.generation / 3
  }

  /** The worker has done its part of the current stage. */
  predicate Done(s: Ring, w: Worker) {
    w.crossings == s.generation && (w.pc == Arrive || w.pc == Inside)
  }

  /** Worker `i` has filled its successor's mailbox in the current round. */
  predicate Produced(s: Ring, i: nat)
    requires i < |s.workers|
  {
    StageOf(s) != 0 || Done(s, s.workers[i])
  }

  /** Worker `j` has emptied its mailbox in the current round. */
  predicate Received(s: Ring, j: nat)
    requires j < |s.workers|
  {
    StageOf(s) == 2 || (StageOf(s) == 1 && Done(s, s.workers[j]))
  }

  /** The item is in its mailbox, made in this round and not yet read. */
  ghost predicate Pending(s: Ring, x: Item)
    requires |s.boxes| == |s.workers|
  {
    && x.from < |s.workers| && Produced(s, x.from)
    && !Received(s, Next(x.from, |s.workers|)) && s.boxes[Next(x.from, |s.workers|)] == Some(x)
  }

  ghost predicate BoxesOk(s: Ring)
    requires |s.boxes| == |s.workers|
  {
    && (forall i :: 0 <= i < |s.workers| && Produced(s, i) ==>
          && s.boxes[Next(i, |s.workers|)] == s.workers[i].outgoing
          && (s.workers[i].outgoing.Some? ==> s.workers[i].outgoing.value == Item(i, RoundOf(s))))
  }

  ghost predicate OldItemsOk(s: Ring) {
    forall x :: x in s.made ==> x.from < |s.workers|
                                && (x.round < RoundOf(s) || (x.round == RoundOf(s) && Produced(s, x.from)))
  }

  ghost predicate ItemsOk(s: Ring)
    requires |s.boxes| == |s.workers|
  {
    && (forall j, x :: 0 <= j < |s.boxes| && s.boxes[j] == Some(x) ==> x in s.made && x.from == Previous(j, |s.boxes|))
    && s.freed <= s.made
    && (forall x :: x in s.made && x !in s.freed <==> Pending(s, x))
  }

  /** A failure is seen by the first worker's decision in the same round. */
  ghost predicate FailureOk(s: Ring)
    requires |s.workers| > 0
  {
    s.failed && s.stopped.None? ==> !(StageOf(s) == 2 && Done(s, s.workers[0]))
  }

  ghost predicate Inv(s: Ring) {
    Aligned(s) && BoxesOk(s) && OldItemsOk(s) && ItemsOk(s) && FailureOk(s)
  }

  lemma NextStage(g: nat)
    ensures g % 3 < 2 ==> (g + 1) % 3 == g % 3 + 1 && (g + 1) / 3 == g / 3
    ensures g % 3 == 2 ==> (g + 1) % 3 == 0 && (g + 1) / 3 == g / 3 + 1
  {
  }

  lemma NeighboursAreInverse(n: nat)
    ensures forall j: nat {:trigger Next(j, n)} :: j < n ==> Previous(Next(j, n), n) == j
    ensures forall j: nat {:trigger Previous(j, n)} :: j < n ==> Next(Previous(j, n), n) == j
  {
    forall j: nat {:trigger Next(j, n)} | j < n
      ensures Previous(Next(j, n), n) == j
    {
    }
  }

  /** Steps that move workers about without touching mailboxes or the account. */
  lemma AccountKept(s: Ring, s': Ring)
    requires |s.boxes| == |s.workers| && BoxesOk(s) && OldItemsOk(s) && ItemsOk(s)
    requires |s'.workers| == |s.workers| && s'.boxes == s.boxes && s'.made == s.made && s'.freed == s.freed
    requires RoundOf(s') == RoundOf(s)
    requires forall i :: 0 <= i < |s.workers| ==>
               && s'.workers[i].outgoing == s.workers[i].outgoing
               && (Produced(s', i) <==> Produced(s, i)) && (Received(s', i) <==> Received(s, i))
    ensures BoxesOk(s') && OldItemsOk(s') && ItemsOk(s')
  {
    hide Produced, Received, Next, Previous, RoundOf;
    forall x: Item
      ensures Pending(s', x) <==> Pending(s, x)
    {
    }
  }

  lemma NewRound(s: Ring, s': Ring)
    requires |s.boxes| == |s.workers| && BoxesOk(s) && OldItemsOk(s) && ItemsOk(s)
    requires |s'.workers| == |s.workers| && s'.boxes == s.boxes && s'.made == s.made && s'.freed == s.freed
    requires RoundOf(s') == RoundOf(s) + 1
    requires forall i :: 0 <= i < |s.workers| ==> Received(s, i) && !Produced(s', i)
    ensures BoxesOk(s') && OldItemsOk(s') && ItemsOk(s')
  {
    hide Produced, Received, Next, Previous, RoundOf;
    forall x: Item
      ensures !Pending(s', x) && !Pending(s, x)
    {
    }
  }

  lemma EnterKeepsInv(s: Ring, i: nat)
    requires Inv(s) && Enabled(s, Enter(i))
    ensures Inv(After(s, Enter(i)))
  {
    AlignedKept(s, Enter(i));
    LastArrivalCompletes(s, i);
    var s' := After(s, Enter(i));
    if s'.generation == s.generation {
      hide Aligned, BoxesOk, OldItemsOk, ItemsOk, StopOk;
      AccountKept(s, s');
    } else {
      ReleaseKeepsInv(s, i);
    }
  }

  /** When the barrier releases, every worker is done with the stage and none with the next. */
  lemma ReleaseTurnsStage(s: Ring, i: nat)
    requires Aligned(s) && Enabled(s, Enter(i)) && After(s, Enter(i)).generation == s.generation + 1
    ensures var s' := After(s, Enter(i));
            forall j :: 0 <= j < |s.workers|
              ==> Done(s, s.workers[j]) && !Done(s', s'.workers[j]) && s'.workers[j].outgoing == s.workers[j].outgoing
  {
    hide StopOk;
    LastArrivalCompletes(s, i);
    NextStage(s.generation);
    forall j | 0 <= j < |s.workers|
      ensures Done(s, s.workers[j]) && !Done(After(s, Enter(i)), After(s, Enter(i)).workers[j])
    {
      assert j in s.waiting + {i};
    }
  }

  lemma ReleaseKeepsInv(s: Ring, i: nat)
    requires Inv(s) && Enabled(s, Enter(i)) && After(s, Enter(i)).generation == s.generation + 1
    ensures Inv(After(s, Enter(i)))
  {
    hide BoxesOk, OldItemsOk, ItemsOk, StopOk, Done;
    AlignedKept(s, Enter(i));
    ReleaseTurnsStage(s, i);
    NextStage(s.generation);
    hide Aligned;
    var s' := After(s, Enter(i));
    if StageOf(s) == 2 {
      NewRound(s, s');
    } else {
      AccountKept(s, s');
    }
  }

  /** A worker acts only in the current generation, and its part of the stage is still to do. */
  lemma ActorIsCurrent(s: Ring, i: nat)
    requires Aligned(s) && i < |s.workers| && s.workers[i].pc == Act
    ensures s.workers[i].crossings == s.generation && !Done(s, s.workers[i])
    ensures Stage(s.workers[i]) == StageOf(s) && Round(s.workers[i]) == RoundOf(s)
  {
    assert InStep(s, s.workers[i]);
    hide StopOk;
  }

  /** `s'` is `s` after worker `i` put `item` into its successor's mailbox. */
  ghost predicate ProducedOne(s: Ring, s': Ring, i: nat, item: Option<Item>) {
    && i < |s.workers| == |s'.workers| == |s.boxes| && RoundOf(s') == RoundOf(s) && !Produced(s, i)
    && s'.boxes == s.boxes[Next(i, |s.workers|) := item] && s'.workers[i].outgoing == item
    && (item.Some? ==> item.value == Item(i, RoundOf(s)))
    && s'.made == s.made + ItemsIn(item) && s'.freed == s.freed
    && forall j :: 0 <= j < |s.workers| ==>
         && (Produced(s', j) <==> Produced(s, j) || j == i) && !Received(s', j) && !Received(s, j)
         && (j != i ==> s'.workers[j].outgoing == s.workers[j].outgoing)
  }

  lemma ItemsAfterProduce(s: Ring, s': Ring, i: nat, item: Option<Item>)
    requires ProducedOne(s, s', i, item) && OldItemsOk(s) && ItemsOk(s)
    ensures ItemsOk(s')
  {
    hide Produced, Received, Next, Previous, RoundOf;
    var n := |s.workers|;
    NeighboursAreInverse(n);
    assert item.Some? ==> item.value !in s.made;
    forall x: Item
      ensures Pending(s', x) <==> Pending(s, x) || Some(x) == item
    {
      if x.from < n {
        assert Previous(Next(x.from, n), n) == x.from;
      }
    }
    hide Pending, OldItemsOk;
  }

  lemma BoxesAfterProduce(s: Ring, s': Ring, i: nat, item: Option<Item>)
    requires ProducedOne(s, s', i, item) && BoxesOk(s) && OldItemsOk(s)
    ensures BoxesOk(s') && OldItemsOk(s')
  {
    hide Produced, Received, Next, Previous, RoundOf;
    NeighboursAreInverse(|s.workers|);
  }

  lemma ProduceKeepsInv(s: Ring, i: nat, ok: bool)
    requires Inv(s) && Enabled(s, Produce(i, ok))
    ensures Inv(After(s, Produce(i, ok)))
  {
    AlignedKept(s, Produce(i, ok));
    ActorIsCurrent(s, i);
    var s' := After(s, Produce(i, ok));
    hide Aligned, BoxesOk, OldItemsOk, ItemsOk, Round, RoundOf, Stage, Next;
    ItemsAfterProduce(s, s', i, NewItem(i, s.workers[i], ok));
    BoxesAfterProduce(s, s', i, NewItem(i, s.workers[i], ok));
  }

  /** `s'` is `s` after worker `i` emptied its mailbox. */
  ghost predicate ReceivedOne(s: Ring, s': Ring, i: nat) {
    && i < |s.workers| == |s'.workers| == |s.boxes| && RoundOf(s') == RoundOf(s) && !Received(s, i)
    && s'.boxes == s.boxes && s'.made == s.made && s'.freed == s.freed + ItemsIn(s.boxes[i])
    && forall j :: 0 <= j < |s.workers| ==>
         && Produced(s', j) && Produced(s, j) && (Received(s', j) <==> Received(s, j) || j == i)
         && s'.workers[j].outgoing == s.workers[j].outgoing
  }

  lemma PendingAfterReceive(s: Ring, s': Ring, i: nat, x: Item)
    requires ReceivedOne(s, s', i) && ItemsOk(s)
    ensures Pending(s', x) <==> Pending(s, x) && s.boxes[i] != Some(x)
  {
    hide Next, Previous, RoundOf;
    NeighboursAreInverse(|s.workers|);
    if s.boxes[i] == Some(x) {
      assert x.from == Previous(i, |s.workers|) && Next(x.from, |s.workers|) == i;
      assert Received(s', i);
    }
    hide Produced, Received;
  }

  lemma ItemsAfterReceive(s: Ring, s': Ring, i: nat)
    requires ReceivedOne(s, s', i) && ItemsOk(s)
    ensures ItemsOk(s')
  {
    hide Produced, Received, Next, Previous, RoundOf, Pending;
    forall x: Item
      ensures Pending(s', x) <==> Pending(s, x) && s.boxes[i] != Some(x)
    {
      PendingAfterReceive(s, s', i, x);
    }
  }

  lemma BoxesAfterReceive(s: Ring, s': Ring, i: nat)
    requires ReceivedOne(s, s', i) && BoxesOk(s) && OldItemsOk(s)
    ensures BoxesOk(s') && OldItemsOk(s')
  {
    hide Produced, Received, Next, Previous, RoundOf;
  }

  lemma ReceiveKeepsInv(s: Ring, i: nat)
    requires Inv(s) && Enabled(s, Receive(i))
    ensures Inv(After(s, Receive(i)))
  {
    AlignedKept(s, Receive(i));
    ActorIsCurrent(s, i);
    var s' := After(s, Receive(i));
    hide Aligned, BoxesOk, OldItemsOk, ItemsOk, Round, RoundOf, Stage, Next, Previous;
    ItemsAfterReceive(s, s', i);
    BoxesAfterReceive(s, s', i);
  }

  lemma DecideKeepsInv(s: Ring, i: nat, late: bool)
    requires Inv(s) && Enabled(s, Decide(i, late))
    ensures Inv(After(s, Decide(i, late)))
  {
    AlignedKept(s, Decide(i, late));
    ActorIsCurrent(s, i);
    var s' := After(s, Decide(i, late));
    hide Aligned, BoxesOk, OldItemsOk, ItemsOk, Round, RoundOf, Stage;
    AccountKept(s, s');
  }

  /** Leaving the barrier, and looking at the stop choice. */
  lemma MovingOnKeepsInv(s: Ring, e: Event)
    requires Inv(s) && Enabled(s, e) && (e.Leave? || e.LookAtStop?)
    ensures Inv(After(s, e))
  {
    AlignedKept(s, e);
    var s' := After(s, e);
    assert InStep(s, s.workers[e.i]) && StopOk(s, s.workers[e.i]);
    LeavingIsNextStage(s.workers[e.i].crossings);
    hide Aligned, BoxesOk, OldItemsOk, ItemsOk, RoundOf, StopOk;
    AccountKept(s, s');
  }

  lemma InvKept(s: Ring, e: Event)
    requires Inv(s) && Enabled(s, e)
    ensures Inv(After(s, e))
  {
    hide Inv, Enabled, After;
    match e
    case Produce(i, ok) => ProduceKeepsInv(s, i, ok);
    case Receive(i) => ReceiveKeepsInv(s, i);
    case Decide(i, late) => DecideKeepsInv(s, i, late);
    case Enter(i) => EnterKeepsInv(s, i);
    case _ => MovingOnKeepsInv(s, e);
  }

  // ---- What every run guarantees ----

  lemma InitialInv(s: Ring)
    requires Initial(s)
    ensures Inv(s)
  {
    assert forall i :: 0 <= i < |s.workers| ==> !Produced(s, i);
    assert forall j :: 0 <= j < |s.boxes| ==> s.boxes[j] == None;
  }

  lemma {:induction false} RunKeepsInv(ss: seq<Ring>, es: seq<Event>, k: nat)
    requires Run(ss, es) && k <= |es|
    ensures Inv(ss[k])
  {
    hide Inv, Initial, Enabled, After;
    if k == 0 {
      InitialInv(ss[0]);
    } else {
      RunKeepsInv(ss, es, k - 1);
      assert Enabled(ss[k - 1], es[k - 1]);
      InvKept(ss[k - 1], es[k - 1]);
    }
  }

  /**
   * A receiving worker finds exactly what its predecessor made in the same round, null or not; the item
   * is still allocated, and the predecessor made it in this round.
   */
  lemma ReceivesFromPredecessor(ss: seq<Ring>, es: seq<Event>, k: nat, i: nat)
    requires Run(ss, es) && k < |es| && es[k] == Receive(i)
    ensures var s := ss[k]; var p := Previous(i, |s.workers|);
            && s.boxes[i] == s.workers[p].outgoing
            && (s.boxes[i].Some? ==> && s.boxes[i].value == Item(p, Round(s.workers[i]))
                                     && s.boxes[i].value in s.made && s.boxes[i].value !in s.freed)
  {
    var s := ss[k];
    RunKeepsInv(ss, es, k);
    assert Enabled(s, es[k]);
    ActorIsCurrent(s, i);
    var p := Previous(i, |s.workers|);
    assert Produced(s, p) && Next(p, |s.workers|) == i;
    assert !Received(s, i);
    hide Aligned, FailureOk, Round, RoundOf, Stage, StageOf, Next, Previous;
    if s.boxes[i].Some? {
      assert Pending(s, s.boxes[i].value);
    }
  }

  /** When a mailbox is written, whatever it held before has been received and freed. */
  lemma NothingIsOverwritten(ss: seq<Ring>, es: seq<Event>, k: nat, i: nat, ok: bool)
    requires Run(ss, es) && k < |es| && es[k] == Produce(i, ok)
    ensures var s := ss[k]; var earlier := s.boxes[Next(i, |s.workers|)];
            earlier.Some? ==> earlier.value in s.freed
  {
    var s := ss[k];
    RunKeepsInv(ss, es, k);
    assert Enabled(s, es[k]);
    ActorIsCurrent(s, i);
    assert !Produced(s, i);
    NeighboursAreInverse(|s.workers|);
    hide Aligned, FailureOk, BoxesOk, OldItemsOk, Round, RoundOf, Stage, StageOf, Next, Previous;
  }

  /** An item is freed only once: what is received was not freed before. */
  lemma FreedOnce(ss: seq<Ring>, es: seq<Event>, k: nat, i: nat)
    requires Run(ss, es) && k < |es| && es[k] == Receive(i)
    ensures ItemsIn(ss[k].boxes[i]) !! ss[k].freed && ss[k + 1].freed == ss[k].freed + ItemsIn(ss[k].boxes[i])
  {
    ReceivesFromPredecessor(ss, es, k, i);
    assert ss[k + 1] == After(ss[k], es[k]);
  }

  /**
   * Every worker that has left did so at the end of the round of the stop choice, and none that is still
   * in the ring is further than that; once all have left, every item is freed.
   */
  lemma AllLeaveTogether(ss: seq<Ring>, es: seq<Event>, k: nat, i: nat)
    requires Run(ss, es) && k <= |es| && i < |ss[k].workers| && ss[k].workers[i].pc == Left
    ensures var s := ss[k];
            && s.stopped.Some? && s.workers[i].crossings == 3 * s.stopped.value + 3
            && (forall j :: 0 <= j < |s.workers| ==> 3 * s.stopped.value + 2 <= s.workers[j].crossings <= 3 * s.stopped.value + 3)
            && ((forall j :: 0 <= j < |s.workers| ==> s.workers[j].pc == Left) ==> s.made == s.freed)
  {
    var s := ss[k];
    RunKeepsInv(ss, es, k);
    assert InStep(s, s.workers[i]) && StopOk(s, s.workers[i]);
    forall j | 0 <= j < |s.workers|
      ensures 3 * s.stopped.value + 2 <= s.workers[j].crossings <= 3 * s.stopped.value + 3
    {
      assert InStep(s, s.workers[j]) && StopOk(s, s.workers[j]);
    }
    if forall j :: 0 <= j < |s.workers| ==> s.workers[j].pc == Left {
      assert StageOf(s) == 0;
      assert forall x :: x in s.made ==> x.from < |s.workers|;
      assert forall j :: 0 <= j < |s.workers| ==> !Produced(s, j);
      hide Aligned, BoxesOk;
    }
  }

  /** Workers never differ by more than one barrier. */
  lemma NeverMoreThanOneBarrierApart(ss: seq<Ring>, es: seq<Event>, k: nat, i: nat, j: nat)
    requires Run(ss, es) && k <= |es| && i < |ss[k].workers| && j < |ss[k].workers|
    ensures ss[k].workers[i].crossings <= ss[k].workers[j].crossings + 1
  {
    var s := ss[k];
    RunKeepsInv(ss, es, k);
    assert InStep(s, s.workers[i]) && InStep(s, s.workers[j]);
  }

  /** As long as a worker is in the ring, some worker can take a step: the barrier never blocks all. */
  lemma RingNeverBlocks(ss: seq<Ring>, es: seq<Event>, k: nat, i: nat)
    requires Run(ss, es) && k <= |es| && i < |ss[k].workers| && ss[k].workers[i].pc != Left
    ensures exists e :: Enabled(ss[k], e)
  {
    var s := ss[k];
    RunKeepsInv(ss, es, k);
    hide BoxesOk, OldItemsOk, ItemsOk, FailureOk;
    SomeoneCanMove(s, i);
    var j: nat :| j < |s.workers| && CanMove(s, s.workers[j]);
    if s.workers[j].pc == Inside {
      assert Enabled(s, Leave(j));
    } else {
      OutsideBarrierCanStep(s, j);
    }
  }

  lemma OutsideBarrierCanStep(s: Ring, j: nat)
    requires Aligned(s) && j < |s.workers| && s.workers[j].pc != Inside && s.workers[j].pc != Left
    ensures exists e :: Enabled(s, e)
  {
    var w := s.workers[j];
    var e := if w.pc == Arrive then Enter(j)
             else if w.pc == Check then LookAtStop(j)
             else if Stage(w) == 0 then Produce(j, true)
             else if Stage(w) == 1 then Receive(j)
             else Decide(j, true);
    assert Enabled(s, e);
  }

  /** Neither gone nor held by the barrier. */
  predicate CanMove(s: Ring, w: Worker) {
    w.pc != Left && (w.pc == Inside ==> w.crossings < s.generation)
  }

  lemma SomeoneCanMove(s: Ring, i: nat)
    requires Aligned(s) && i < |s.workers| && s.workers[i].pc != Left
    ensures exists j: nat :: j < |s.workers| && CanMove(s, s.workers[j])
  {
    if forall j: nat :: j < |s.workers| ==> !CanMove(s, s.workers[j]) {
      assert InStep(s, s.workers[i]) && StopOk(s, s.workers[i]);
      forall j: nat | j < |s.workers|
        ensures j in s.waiting
      {
        assert InStep(s, s.workers[j]) && StopOk(s, s.workers[j]) && !CanMove(s, s.workers[j]);
      }
      SmallerSet(Below(|s.workers|), s.waiting);
      assert false;
    }
  }

  /** A failed allocation ends the ring in its own round: no worker ever starts another. */
  lemma {:induction false} FailureEndsTheRound(ss: seq<Ring>, es: seq<Event>, k: nat, i: nat, j: nat)
    requires Run(ss, es) && k < j <= |es| && es[k] == Produce(i, false)
    ensures var r := Round(ss[k].workers[i]);
            && ss[j].failed && ss[j].generation <= 3 * r + 3
            && (if ss[j].stopped.Some? then ss[j].stopped.value == r else ss[j].generation < 3 * r + 3)
            && 3 * r <= ss[j].generation
    decreases j
  {
    var s := ss[j - 1];
    var r := Round(ss[k].workers[i]);
    RunKeepsInv(ss, es, j - 1);
    assert Enabled(s, es[j - 1]) && ss[j] == After(s, es[j - 1]);
    if j == k + 1 {
      ActorIsCurrent(s, i);
      assert StopOk(s, s.workers[i]);
      assert s.generation == 3 * r;
    } else {
      FailureEndsTheRound(ss, es, k, i, j - 1);
      StepKeepsFailure(s, es[j - 1], r);
    }
  }

  lemma StepKeepsFailure(s: Ring, e: Event, r: nat)
    requires Inv(s) && Enabled(s, e) && s.failed && 3 * r <= s.generation <= 3 * r + 3
    requires if s.stopped.Some? then s.stopped.value == r else s.generation < 3 * r + 3
    ensures var s' := After(s, e);
            && s'.failed && 3 * r <= s'.generation <= 3 * r + 3
            && (if s'.stopped.Some? then s'.stopped.value == r else s'.generation < 3 * r + 3)
  {
    hide BoxesOk, OldItemsOk, ItemsOk;
    AlignedKept(s, e);
    if e.Decide? {
      ActorIsCurrent(s, e.i);
    } else if e.Enter? {
      LastArrivalCompletes(s, e.i);
    }
  }

  // ---- Why the ring stops ----

  ghost predicate FailedBefore(es: seq<Event>, m: nat) {
    exists n :: 0 <= n < m <= |es| && es[n].Produce? && !es[n].ok
  }

  /** Event `m` is a decision of the first worker that finds the clock late or an allocation failed. */
  ghost predicate StopsAt(es: seq<Event>, m: nat) {
    m < |es| && es[m].Decide? && es[m].i == 0 && (es[m].late || FailedBefore(es, m))
  }

  ghost predicate StoppedBefore(es: seq<Event>, k: nat) {
    exists m: nat :: m < k && StopsAt(es, m)
  }

  lemma {:induction false} FailureIsRemembered(ss: seq<Ring>, es: seq<Event>, k: nat)
    requires Run(ss, es) && k <= |es|
    ensures ss[k].failed <==> FailedBefore(es, k)
  {
    if k > 0 {
      FailureIsRemembered(ss, es, k - 1);
      assert Enabled(ss[k - 1], es[k - 1]) && ss[k] == After(ss[k - 1], es[k - 1]);
      if es[k - 1].Produce? && !es[k - 1].ok {
        assert FailedBefore(es, k);
      } else if FailedBefore(es, k - 1) {
        var n :| 0 <= n < k - 1 && es[n].Produce? && !es[n].ok;
        assert FailedBefore(es, k);
      }
    }
  }

  lemma StopStep(s: Ring, e: Event)
    requires Inv(s) && Enabled(s, e)
    ensures var s' := After(s, e);
            && (s.stopped.Some? ==> s'.stopped == s.stopped)
            && (s.stopped.None? ==> (s'.stopped.Some? <==> e.Decide? && e.i == 0 && (e.late || s.failed)))
  {
    hide BoxesOk, OldItemsOk, ItemsOk, FailureOk;
    if e.Decide? {
      ActorIsCurrent(s, e.i);
    }
  }

  /** The stop choice is made exactly when the first worker finds the clock late or an allocation failed. */
  lemma {:induction false} StopsExactlyForAReason(ss: seq<Ring>, es: seq<Event>, k: nat)
    requires Run(ss, es) && k <= |es|
    ensures ss[k].stopped.Some? <==> StoppedBefore(es, k)
  {
    hide Inv, StopsAt, Enabled, After, Initial;
    if k == 0 {
      NotStoppedYet(ss[0]);
    } else {
      StopsExactlyForAReason(ss, es, k - 1);
      assert Enabled(ss[k - 1], es[k - 1]) && ss[k] == After(ss[k - 1], es[k - 1]);
      RunKeepsInv(ss, es, k - 1);
      StopStep(ss[k - 1], es[k - 1]);
      FailureIsRemembered(ss, es, k - 1);
      DecidedNow(es, k - 1, ss[k - 1].failed);
      if StoppedBefore(es, k - 1) {
        var m: nat :| m < k - 1 && StopsAt(es, m);
        assert m < k;
      }
    }
  }

  lemma NotStoppedYet(s: Ring)
    requires Initial(s)
    ensures s.stopped.None?
  {
  }

  lemma DecidedNow(es: seq<Event>, m: nat, failed: bool)
    requires m < |es| && (failed <==> FailedBefore(es, m))
    ensures StopsAt(es, m) <==> es[m].Decide? && es[m].i == 0 && (es[m].late || failed)
  {
  }

  /** Once the stop choice is made, it stays, and no worker goes beyond the round in which it was made. */
  lemma {:induction false} StopEndsTheRound(ss: seq<Ring>, es: seq<Event>, m: nat, j: nat)
    requires Run(ss, es) && m < j <= |es| && StopsAt(es, m)
    ensures 0 < |ss[m].workers| && ss[j].stopped == Some(Round(ss[m].workers[0]))
    ensures forall i :: 0 <= i < |ss[j].workers| ==> ss[j].workers[i].crossings <= 3 * Round(ss[m].workers[0]) + 3
    decreases j
  {
    hide FailedBefore;
    var s := ss[j - 1];
    RunKeepsInv(ss, es, j - 1);
    assert Enabled(s, es[j - 1]) && ss[j] == After(s, es[j - 1]);
    if j == m + 1 {
      FailureIsRemembered(ss, es, m);
      DecidedNow(es, m, ss[m].failed);
    } else {
      StopEndsTheRound(ss, es, m, j - 1);
      StopStep(s, es[j - 1]);
    }
    RunKeepsInv(ss, es, j);
    hide Enabled, After, BoxesOk, OldItemsOk, ItemsOk, FailureOk, Run;
    forall i | 0 <= i < |ss[j].workers|
      ensures ss[j].workers[i].crossings <= ss[j].generation
    {
      assert InStep(ss[j], ss[j].workers[i]);
    }
  }
}
