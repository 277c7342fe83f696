/** Whole calls of the mutex transfer, from the one-step simulation in MutexTransfer. */
module MutexRuns {
  import opened Sequences
  import opened TransferSpec
  import opened TransferMemory
  import opened Chains
  import M = MutexTransfer

  /** The call that thread `t` starts with event `i` ends in state `j`. */
  ghost predicate Call(states: seq<M.State>, events: seq<M.Event>, i: nat, j: nat, t: Tid) {
    && M.Run(states, events) && i < j <= |events| && events[i].t == t
    && (forall k :: i < k < j ==> Busy(states[k], t))
    && t in states[j].pcs && states[j].pcs[t] == M.Idle
  }

  ghost predicate Busy(s: M.State, t: Tid) {
    t in s.pcs && s.pcs[t] != M.Idle
  }

  lemma OtherStep(s: M.State, e: M.Event, s': M.State, t: Tid)
    requires M.Step(s, e, s') && t in s.pcs && (e.t != t || e.Relink? || e.Give?)
    ensures t in s'.pcs && s'.pcs[t] == s.pcs[t]
  {
    hide ChainFrom, Segment, NoDup;
  }

  // ---- Detach ----

  /** Between its call and the clearing of the head. */
  predicate Approaching(pc: M.Pc, c: nat) {
    match pc
    case DetachWaiting(d) => c == d
    case DetachLocked(d) => c == d
    case HeadRead(d, _) => c == d
    case _ => false
  }

  predicate Leaving(pc: M.Pc, c: nat) {
    match pc
    case HeadCleared(d, _) => c == d
    case Traversing(d, _, _, _, _) => c == d
    case _ => false
  }

  /** Event `m` of thread `t` clears the head of class `c`. */
  ghost predicate ClearsAt(states: seq<M.State>, events: seq<M.Event>, i: nat, m: nat, k: nat, t: Tid, c: nat) {
    && i < m < k && m < |events| && m < |states| && events[m] == M.ClearHead(t)
    && t in states[m].pcs && states[m].pcs[t].HeadRead? && states[m].pcs[t].c == c
  }

  ghost predicate Cleared(states: seq<M.State>, events: seq<M.Event>, i: nat, k: nat, t: Tid, c: nat) {
    exists m :: ClearsAt(states, events, i, m, k, t, c)
  }

  ghost predicate DetachingAt(states: seq<M.State>, events: seq<M.Event>, i: nat, k: nat, t: Tid, c: nat) {
    && k < |states| && t in states[k].pcs
    && (Approaching(states[k].pcs[t], c)
        || (Leaving(states[k].pcs[t], c) && Cleared(states, events, i, k, t, c)))
  }

  lemma DetachGoesOn(s: M.State, e: M.Event, s': M.State, t: Tid, c: nat)
    requires M.Step(s, e, s') && e.t == t && !e.Relink? && !e.Give? && t in s.pcs
    requires Approaching(s.pcs[t], c) || Leaving(s.pcs[t], c)
    ensures t in s'.pcs
    ensures Approaching(s.pcs[t], c) ==> Approaching(s'.pcs[t], c)
                                         || (Leaving(s'.pcs[t], c) && e == M.ClearHead(t) && s.pcs[t].HeadRead? && s.pcs[t].c == c)
    ensures Leaving(s.pcs[t], c) ==> Leaving(s'.pcs[t], c) || (e == M.Return(t) && s'.pcs[t] == M.Idle)
  {
    hide ChainFrom, Segment, NoDup;
  }

  lemma DetachStarts(s: M.State, t: Tid, c: nat, s': M.State)
    requires M.Step(s, M.CallDetach(t, c), s')
    ensures t in s'.pcs && Approaching(s'.pcs[t], c)
  {
  }

  lemma {:induction false} DetachAt(states: seq<M.State>, events: seq<M.Event>, i: nat, k: nat, t: Tid, c: nat)
    requires M.Run(states, events) && i < k <= |events| && events[i] == M.CallDetach(t, c)
    requires forall n :: i < n <= k ==> Busy(states[n], t)
    ensures DetachingAt(states, events, i, k, t, c)
    decreases k
  {
    hide M.Step, M.Init, Approaching, Leaving;
    if k == i + 1 {
      DetachStarts(states[i], t, c, states[k]);
    } else {
      DetachAt(states, events, i, k - 1, t, c);
      var s, e, s' := states[k - 1], events[k - 1], states[k];
      if e.t != t || e.Relink? || e.Give? {
        OtherStep(s, e, s', t);
      } else {
        assert Busy(s', t);
        DetachGoesOn(s, e, s', t, c);
        if Approaching(s.pcs[t], c) && !Approaching(s'.pcs[t], c) {
          assert ClearsAt(states, events, i, k - 1, k, t, c);
        }
      }
      if Cleared(states, events, i, k - 1, t, c) {
        var m :| ClearsAt(states, events, i, m, k - 1, t, c);
        assert ClearsAt(states, events, i, m, k, t, c);
      }
    }
  }

  /** A detach call takes the whole class under the mutex before it ends, and ends by handing it back. */
  lemma DetachCallTakes(states: seq<M.State>, events: seq<M.Event>, i: nat, j: nat, t: Tid, c: nat)
    requires Call(states, events, i, j, t) && events[i] == M.CallDetach(t, c)
    ensures i < j - 1 && events[j - 1] == M.Return(t)
    ensures Cleared(states, events, i, j, t, c)
  {
    hide M.Step, M.Init, Approaching, Leaving;
    DetachStarts(states[i], t, c, states[i + 1]);
    DetachAt(states, events, i, j - 1, t, c);
    var s, e, s' := states[j - 1], events[j - 1], states[j];
    if e.t != t || e.Relink? || e.Give? {
      OtherStep(s, e, s', t);
      assert false;
    }
    DetachGoesOn(s, e, s', t, c);
    IdleIsNeither(c);
    var m :| ClearsAt(states, events, i, m, j - 1, t, c);
    assert ClearsAt(states, events, i, m, j, t, c);
  }

  lemma IdleIsNeither(c: nat)
    ensures !Approaching(M.Idle, c) && !Leaving(M.Idle, c)
  {
  }

  // ---- Publish ----

  predicate Publishing(pc: M.Pc, c: nat, list: Desc) {
    match pc
    case PublishWaiting(d, l) => c == d && l == list
    case PublishLocked(d, l) => c == d && l == list
    case TailWritten(d, l) => c == d && l == list
    case _ => false
  }

  /** Event `m` of thread `t` links `list` in front of class `c`. */
  ghost predicate CommitsAt(states: seq<M.State>, events: seq<M.Event>, i: nat, m: nat, k: nat, t: Tid, c: nat, list: Desc) {
    && i < m < k && m < |events| && m < |states| && events[m] == M.WriteHead(t)
    && t in states[m].pcs && states[m].pcs[t] == M.TailWritten(c, list)
  }

  ghost predicate Committed(states: seq<M.State>, events: seq<M.Event>, i: nat, k: nat, t: Tid, c: nat, list: Desc) {
    exists m :: CommitsAt(states, events, i, m, k, t, c, list)
  }

  ghost predicate PublishingAt(states: seq<M.State>, events: seq<M.Event>, i: nat, k: nat, t: Tid, c: nat, list: Desc) {
    && k < |states| && t in states[k].pcs
    && (Publishing(states[k].pcs[t], c, list)
        || (states[k].pcs[t] == M.HeadWritten && Committed(states, events, i, k, t, c, list)))
  }

  lemma PublishGoesOn(s: M.State, e: M.Event, s': M.State, t: Tid, c: nat, list: Desc)
    requires M.Step(s, e, s') && e.t == t && !e.Relink? && !e.Give? && t in s.pcs
    requires Publishing(s.pcs[t], c, list) || s.pcs[t] == M.HeadWritten
    ensures t in s'.pcs
    ensures Publishing(s.pcs[t], c, list) ==>
              Publishing(s'.pcs[t], c, list)
              || (s'.pcs[t] == M.HeadWritten && e == M.WriteHead(t) && s.pcs[t] == M.TailWritten(c, list))
    ensures s.pcs[t] == M.HeadWritten ==> s'.pcs[t] == M.Idle
  {
    hide ChainFrom, Segment, NoDup;
  }

  lemma PublishStarts(s: M.State, t: Tid, c: nat, batch: seq<Block>, s': M.State)
    requires M.Step(s, M.CallPublish(t, c, batch), s')
    ensures t in s'.pcs && batch != [] && Publishing(s'.pcs[t], c, DescOf(batch))
  {
  }

  lemma {:induction false} PublishAt(states: seq<M.State>, events: seq<M.Event>, i: nat, k: nat, t: Tid, c: nat, batch: seq<Block>)
    requires M.Run(states, events) && i < k <= |events| && events[i] == M.CallPublish(t, c, batch)
    requires forall n :: i < n <= k ==> Busy(states[n], t)
    ensures batch != [] && PublishingAt(states, events, i, k, t, c, DescOf(batch))
    decreases k
  {
    hide M.Step, M.Init, Publishing;
    if k == i + 1 {
      PublishStarts(states[i], t, c, batch, states[k]);
    } else {
      PublishAt(states, events, i, k - 1, t, c, batch);
      var s, e, s', list := states[k - 1], events[k - 1], states[k], DescOf(batch);
      if e.t != t || e.Relink? || e.Give? {
        OtherStep(s, e, s', t);
      } else {
        assert Busy(s', t);
        PublishGoesOn(s, e, s', t, c, list);
        if Publishing(s.pcs[t], c, list) && !Publishing(s'.pcs[t], c, list) {
          assert CommitsAt(states, events, i, k - 1, k, t, c, list);
        }
      }
      if Committed(states, events, i, k - 1, t, c, list) {
        var m :| CommitsAt(states, events, i, m, k - 1, t, c, list);
        assert CommitsAt(states, events, i, m, k, t, c, list);
      }
    }
  }

  /** A publish call links its whole batch in front of its class before it ends. */
  lemma PublishCallCommits(states: seq<M.State>, events: seq<M.Event>, i: nat, j: nat, t: Tid, c: nat, batch: seq<Block>)
    requires Call(states, events, i, j, t) && events[i] == M.CallPublish(t, c, batch)
    ensures batch != [] && Committed(states, events, i, j, t, c, DescOf(batch))
  {
    hide M.Step, M.Init;
    PublishStarts(states[i], t, c, batch, states[i + 1]);
    PublishAt(states, events, i, j - 1, t, c, batch);
    var s, e, s' := states[j - 1], events[j - 1], states[j];
    if e.t != t || e.Relink? || e.Give? {
      OtherStep(s, e, s', t);
      assert false;
    }
    PublishGoesOn(s, e, s', t, c, DescOf(batch));
    var m :| CommitsAt(states, events, i, m, j - 1, t, c, DescOf(batch));
    assert CommitsAt(states, events, i, m, j, t, c, DescOf(batch));
  }

  // ---- What a detach returns ----

  /** The class-`c` stack right before event `k`, where thread `t` clears the head, was exactly `taken`. */
  ghost predicate TookAt(states: seq<M.State>, events: seq<M.Event>, k: nat, t: Tid, c: nat, taken: seq<Block>) {
    && k < |events| && k < |states| && events[k] == M.ClearHead(t) && c < |states[k].heads|
    && ChainFrom(states[k].next, states[k].heads[c], taken)
  }

  lemma FinishedTraversal(s: M.State, a: Object, t: Tid, s': M.State)
    requires M.Refines(s, a) && M.Step(s, M.Return(t), s')
    ensures t in s.pcs && s.pcs[t].Traversing? && t in a.calls && a.calls[t].Detaching?
    ensures var pc := s.pcs[t];
            && pc.c == a.calls[t].c
            && Describes(Desc(pc.first, pc.last, pc.count), a.calls[t].taken)
            && ChainFrom(s.next, pc.first, a.calls[t].taken)
  {
    hide WellFormed, SameOwners;
    assert M.CallRefines(s.next, s.heads, s.pcs[t], a.calls[t]);
    assert s.pcs[t].Traversing? && s.pcs[t].cursor == Null;
    hide M.Step, M.Related;
  }

  lemma TakeIsClear(states: seq<M.State>, events: seq<M.Event>, k: nat, t: Tid, c: nat, taken: seq<Block>)
    requires M.Run(states, events) && k < |events|
    requires TookStack(InitialObject(states[0].pcs.Keys, states[0].mine), M.Actions(states, events), k, t, c, taken)
    ensures TookAt(states, events, k, t, c, taken)
  {
    hide M.Step, M.Init, InitialObject, WellFormed, SameOwners, M.CallRefines;
    M.RefinesAt(states, events, k);
    assert M.ActionOf(states[k], events[k]) == TakeAll(t, c);
  }

  /**
   * The descriptor a detach hands back describes exactly the class as it stood when its head was cleared,
   * whatever ran during the traversal, which is outside the mutex.
   */
  lemma DetachReturnsWholeStack(states: seq<M.State>, events: seq<M.Event>, i: nat, t: Tid)
    requires M.Run(states, events) && i < |events| && events[i] == M.Return(t)
    ensures t in states[i].pcs && states[i].pcs[t].Traversing?
    ensures var pc := states[i].pcs[t];
            exists k, taken: seq<Block> ::
              && 0 <= k < i && TookAt(states, events, k, t, pc.c, taken)
              && ChainFrom(states[i].next, pc.first, taken)
              && Describes(Desc(pc.first, pc.last, pc.count), taken)
  {
    assert M.Step(states[i], events[i], states[i + 1]);
    hide M.Refines, M.Step, TookAt, Describes, ChainFrom, TookStack, M.Init;
    M.MutexRefinesAtomic(states, events);
    var a, acts := InitialObject(states[0].pcs.Keys, states[0].mine), M.Actions(states, events);
    FinishedTraversal(states[i], M.ObjectAt(states, events, i), t, states[i + 1]);
    DetachTookStack(a, acts, i, t);
    var call := CallOf(After(a, acts, i), t);
    var k :| 0 <= k < i && TookStack(a, acts, k, t, call.c, call.taken);
    TakeIsClear(states, events, k, t, call.c, call.taken);
  }

  // ---- Waiting ----

  ghost predicate CanStep(s: M.State, t: Tid) {
    exists e: M.Event, s' :: e.t == t && M.Step(s, e, s')
  }

  /** Detach calls name an existing class, and the mutex is held by an existing thread. */
  ghost predicate Placed(s: M.State) {
    && (forall t :: t in s.pcs && (s.pcs[t].DetachWaiting? || s.pcs[t].DetachLocked?) ==> s.pcs[t].c < |s.heads|)
    && (s.mutex.Some? ==> s.mutex.value in s.pcs)
  }

  lemma PlacedStep(s: M.State, e: M.Event, s': M.State)
    requires Placed(s) && M.Step(s, e, s')
    ensures Placed(s')
  {
    hide ChainFrom, Segment, NoDup;
  }

  lemma PlacedAtStart(s: M.State)
    requires M.Init(s)
    ensures Placed(s)
  {
  }

  lemma {:induction false} PlacedAt(states: seq<M.State>, events: seq<M.Event>, n: nat)
    requires M.Run(states, events) && n <= |events|
    ensures Placed(states[n])
  {
    hide M.Step, M.Init, Placed;
    if n == 0 {
      PlacedAtStart(states[0]);
    } else {
      PlacedAt(states, events, n - 1);
      PlacedStep(states[n - 1], events[n - 1], states[n]);
    }
  }

  predicate Waiting(pc: M.Pc) {
    pc.PublishWaiting? || pc.DetachWaiting?
  }

  lemma PublisherSteps(s: M.State, a: Object, t: Tid) returns (e: M.Event, s': M.State)
    requires M.Related(s, a) && t in s.pcs && t in a.calls && (a.calls[t].Publishing? ==> a.calls[t].c < |s.heads|)
    requires s.pcs[t].PublishLocked? || s.pcs[t].TailWritten? || s.pcs[t].HeadWritten?
    ensures e.t == t && M.Step(s, e, s')
  {
    hide ChainFrom, Segment;
    assert M.CallRefines(s.next, s.heads, s.pcs[t], a.calls[t]);
    match s.pcs[t] {
      case PublishLocked(c, list) =>
        e := M.WriteTail(t);
        s' := s.(next := s.next[list.last.block := s.heads[c]], pcs := s.pcs[t := M.TailWritten(c, list)]);
      case TailWritten(c, list) =>
        e, s' := M.WriteHead(t), s.(heads := s.heads[c := list.first], pcs := s.pcs[t := M.HeadWritten]);
      case HeadWritten => e, s' := M.Unlock(t), s.(mutex := None, pcs := s.pcs[t := M.Idle]);
    }
  }

  lemma DetacherSteps(s: M.State, a: Object, t: Tid) returns (e: M.Event, s': M.State)
    requires M.Related(s, a) && t in s.pcs && t in a.calls && Placed(s)
    requires s.pcs[t].DetachLocked? || s.pcs[t].HeadRead? || s.pcs[t].HeadCleared?
    ensures e.t == t && M.Step(s, e, s')
  {
    hide ChainFrom, Segment;
    assert M.CallRefines(s.next, s.heads, s.pcs[t], a.calls[t]);
    match s.pcs[t] {
      case DetachLocked(c) => e, s' := M.ReadHead(t), s.(pcs := s.pcs[t := M.HeadRead(c, s.heads[c])]);
      case HeadRead(c, first) =>
        e, s' := M.ClearHead(t), s.(heads := s.heads[c := Null], pcs := s.pcs[t := M.HeadCleared(c, first)]);
      case HeadCleared(c, first) =>
        e, s' := M.Unlock(t), s.(mutex := None, pcs := s.pcs[t := M.Traversing(c, first, first, Null, 0)]);
    }
  }

  lemma CursorIsInMemory(next: map<Block, Ptr>, first: Ptr, taken: seq<Block>, count: nat)
    requires ChainFrom(next, first, taken)
    ensures PtrAt(taken, count).At? ==> PtrAt(taken, count).block in next
  {
  }

  lemma TraverserSteps(s: M.State, t: Tid, taken: seq<Block>) returns (e: M.Event, s': M.State)
    requires t in s.pcs && s.pcs[t].Traversing? && ChainFrom(s.next, s.pcs[t].first, taken)
    requires s.pcs[t].cursor == PtrAt(taken, s.pcs[t].count)
    ensures e.t == t && M.Step(s, e, s')
  {
    hide ChainFrom, Segment;
    var pc := s.pcs[t];
    CursorIsInMemory(s.next, pc.first, taken, pc.count);
    if pc.cursor == Null {
      e, s' := M.Return(t), s.(pcs := s.pcs[t := M.Idle], mine := Adopt(s.mine, taken, t));
    } else {
      e := M.Follow(t);
      s' := s.(pcs := s.pcs[t := M.Traversing(pc.c, pc.first, s.next[pc.cursor.block], pc.cursor, pc.count + 1)]);
    }
  }

  lemma TraverserHolds(s: M.State, a: Object, t: Tid)
    requires M.Related(s, a) && t in s.pcs && t in a.calls && s.pcs[t].Traversing?
    ensures a.calls[t].Detaching? && ChainFrom(s.next, s.pcs[t].first, a.calls[t].taken)
    ensures s.pcs[t].cursor == PtrAt(a.calls[t].taken, s.pcs[t].count)
  {
    hide ChainFrom, Segment;
    assert M.CallRefines(s.next, s.heads, s.pcs[t], a.calls[t]);
  }

  lemma StepExists(s: M.State, a: Object, t: Tid) returns (e: M.Event, s': M.State)
    requires M.Refines(s, a) && Placed(s) && t in s.pcs && s.pcs[t] != M.Idle && !(Waiting(s.pcs[t]) && s.mutex != None)
    ensures e.t == t && M.Step(s, e, s')
  {
    assert t in a.calls && |s.heads| == CLASS_COUNT;
    CallIsOk(a, t);
    hide WellFormed, SameOwners, Placed, M.Related, Lists;
    if Waiting(s.pcs[t]) {
      e, s' := M.Lock(t), s.(mutex := Some(t), pcs := s.pcs[t := M.AfterLock(s.pcs[t])]);
    } else if s.pcs[t].PublishLocked? || s.pcs[t].TailWritten? || s.pcs[t].HeadWritten? {
      hide M.Step;
      e, s' := PublisherSteps(s, a, t);
    } else if s.pcs[t].Traversing? {
      hide M.Step;
      TraverserHolds(s, a, t);
      e, s' := TraverserSteps(s, t, a.calls[t].taken);
    } else {
      hide M.Step;
      e, s' := DetacherSteps(s, a, t);
    }
  }

  lemma CallIsOk(a: Object, t: Tid)
    requires WellFormed(a) && t in a.calls
    ensures CallOk(a.owner, t, a.calls[t])
  {
  }

  lemma HolderIsBusy(s: M.State, u: Tid)
    requires M.Exclusion(s) && Placed(s) && s.mutex == Some(u)
    ensures u in s.pcs && s.pcs[u] != M.Idle && !Waiting(s.pcs[u])
  {
  }

  /** The thread can step, or it waits for a thread inside the critical section that can. */
  ghost predicate GoesOn(s: M.State, t: Tid) {
    CanStep(s, t) || (t in s.pcs && Waiting(s.pcs[t]) && s.mutex.Some? && s.mutex.value != t && CanStep(s, s.mutex.value))
  }

  /** No call hangs: in every reachable state a call in progress can step, or waits for a holder that can. */
  lemma CallsGoOn(states: seq<M.State>, events: seq<M.Event>, n: nat, t: Tid)
    requires M.Run(states, events) && n <= |events| && Busy(states[n], t)
    ensures GoesOn(states[n], t)
  {
    hide M.Step, M.Init, M.Related, WellFormed, SameOwners, Placed, M.Exclusion;
    var s, a := states[n], M.ObjectAt(states, events, n);
    M.RefinesAt(states, events, n);
    PlacedAt(states, events, n);
    if Waiting(s.pcs[t]) && s.mutex != None {
      HolderIsBusy(s, s.mutex.value);
      var e, s' := StepExists(s, a, s.mutex.value);
    } else {
      var e, s' := StepExists(s, a, t);
    }
  }
}
