/**
 * The mutex transfer (src/transfer_mutex.c) as a machine of any number of threads, refining the same
 * atomic object as the lock-free one. Lock, tail write, head read, head write and unlock are separate
 * steps, and the traversal of a detached chain runs after the mutex is released.
 */
module MutexTransfer {
  import opened Sequences
  import opened TransferSpec
  import opened TransferMemory
  import opened Chains

  datatype Pc =
    | Idle
    | PublishWaiting(c: nat, list: Desc)
    | PublishLocked(c: nat, list: Desc)
    | TailWritten(c: nat, list: Desc)
    | HeadWritten
    | DetachWaiting(c: nat)
    | DetachLocked(c: nat)
    | HeadRead(c: nat, first: Ptr)
    | HeadCleared(c: nat, first: Ptr)
    | Traversing(c: nat, first: Ptr, cursor: Ptr, last: Ptr, count: nat)

  datatype State = State(next: map<Block, Ptr>, heads: seq<Ptr>, mutex: Option<Tid>,
                         pcs: map<Tid, Pc>, mine: Ownership)

  datatype Event =
    | PublishEmpty(t: Tid, c: nat)
    | CallPublish(t: Tid, c: nat, batch: seq<Block>)
    | CallDetach(t: Tid, c: nat)
    | Lock(t: Tid)
    | WriteTail(t: Tid)
    | WriteHead(t: Tid)
    | ReadHead(t: Tid)
    | ClearHead(t: Tid)
    | Unlock(t: Tid)
    | Follow(t: Tid)
    | Return(t: Tid)
    | Relink(t: Tid, b: Block, p: Ptr)
    | Give(t: Tid, u: Tid, b: Block)

  ghost predicate Init(s: State) {
    && s.heads == seq(CLASS_COUNT, _ => Null)
    && s.mutex == None
    && (forall t :: t in s.pcs ==> s.pcs[t] == Idle)
    && s.mine.Keys == s.next.Keys
    && (forall b :: b in s.mine ==> s.mine[b] in s.pcs)
  }

  predicate Holding(pc: Pc) {
    pc.PublishLocked? || pc.TailWritten? || pc.HeadWritten? || pc.DetachLocked? || pc.HeadRead? || pc.HeadCleared?
  }

  function AfterLock(pc: Pc): Pc {
    match pc
    case PublishWaiting(c, list) => PublishLocked(c, list)
    case DetachWaiting(c) => DetachLocked(c)
    case _ => pc
  }

  function AfterUnlock(pc: Pc): Pc {
    match pc
    case HeadCleared(c, first) => Traversing(c, first, first, Null, 0)
    case _ => Idle
  }

  ghost predicate Step(s: State, e: Event, s': State) {
    && (!e.Relink? && !e.Give? ==> e.t in s.pcs)
    && match e
       case PublishEmpty(t, c) => s.pcs[t] == Idle && s' == s
       case CallPublish(t, c, batch) =>
         && s.pcs[t] == Idle && c < |s.heads| && PrivateList(s.next, s.mine, t, batch)
         && s' == s.(pcs := s.pcs[t := PublishWaiting(c, DescOf(batch))], mine := Without(s.mine, batch))
       case CallDetach(t, c) =>
         && s.pcs[t] == Idle && c < |s.heads|
         && s' == s.(pcs := s.pcs[t := DetachWaiting(c)])
       case Lock(t) =>
         && (s.pcs[t].PublishWaiting? || s.pcs[t].DetachWaiting?) && s.mutex == None
         && s' == s.(mutex := Some(t), pcs := s.pcs[t := AfterLock(s.pcs[t])])
       case WriteTail(t) =>
         && s.pcs[t].PublishLocked? && s.pcs[t].list.last.At? && s.pcs[t].c < |s.heads|
         && var pc := s.pcs[t];
         s' == s.(next := s.next[pc.list.last.block := s.heads[pc.c]], pcs := s.pcs[t := TailWritten(pc.c, pc.list)])
       case WriteHead(t) =>
         && s.pcs[t].TailWritten? && s.pcs[t].c < |s.heads|
         && s' == s.(heads := s.heads[s.pcs[t].c := s.pcs[t].list.first], pcs := s.pcs[t := HeadWritten])
       case ReadHead(t) =>
         && s.pcs[t].DetachLocked? && s.pcs[t].c < |s.heads|
         && s' == s.(pcs := s.pcs[t := HeadRead(s.pcs[t].c, s.heads[s.pcs[t].c])])
       case ClearHead(t) =>
         && s.pcs[t].HeadRead? && s.pcs[t].c < |s.heads|
         && s' == s.(heads := s.heads[s.pcs[t].c := Null], pcs := s.pcs[t := HeadCleared(s.pcs[t].c, s.pcs[t].first)])
       case Unlock(t) =>
         && (s.pcs[t].HeadWritten? || s.pcs[t].HeadCleared?)
         && s' == s.(mutex := None, pcs := s.pcs[t := AfterUnlock(s.pcs[t])])
       case Follow(t) =>
         && s.pcs[t].Traversing? && s.pcs[t].cursor.At? && s.pcs[t].cursor.block in s.next
         && var pc := s.pcs[t];
         s' == s.(pcs := s.pcs[t := Traversing(pc.c, pc.first, s.next[pc.cursor.block], pc.cursor, pc.count + 1)])
       case Return(t) =>
         && s.pcs[t].Traversing? && s.pcs[t].cursor == Null
         && exists blocks: seq<Block> ::
              && ChainFrom(s.next, s.pcs[t].first, blocks)
              && s' == s.(pcs := s.pcs[t := Idle], mine := Adopt(s.mine, blocks, t))
       case Relink(t, b, p) =>
         && b in s.mine && s.mine[b] == t && b in s.next
         && s' == s.(next := s.next[b := p])
       case Give(t, u, b) =>
         && b in s.mine && s.mine[b] == t && u in s.pcs
         && s' == s.(mine := s.mine[b := u])
  }

  // ---- The refinement relation ----

  ghost predicate CallRefines(next: map<Block, Ptr>, heads: seq<Ptr>, pc: Pc, call: Call) {
    match pc
    case Idle => call == NoCall
    case PublishWaiting(c, list) => PublishRefines(next, c, list, call)
    case PublishLocked(c, list) => PublishRefines(next, c, list, call)
    case TailWritten(c, list) =>
      && PublishRefines(next, c, list, call) && c < |heads|
      && next[call.batch[|call.batch| - 1]] == heads[c]
    case HeadWritten => call == NoCall
    case DetachWaiting(c) => call == NoCall
    case DetachLocked(c) => call == NoCall
    case HeadRead(c, first) => call == NoCall && c < |heads| && heads[c] == first
    case HeadCleared(c, first) => call.Detaching? && call.c == c && ChainFrom(next, first, call.taken)
    case Traversing(c, first, cursor, last, count) =>
      && call.Detaching? && call.c == c && ChainFrom(next, first, call.taken)
      && count <= |call.taken| && cursor == PtrAt(call.taken, count)
      && last == (if count == 0 then Null else At(call.taken[count - 1]))
  }

  ghost predicate PublishRefines(next: map<Block, Ptr>, c: nat, list: Desc, call: Call) {
    && call.Publishing? && call.c == c && call.batch != []
    && list == DescOf(call.batch) && Segment(next, call.batch)
  }

  ghost predicate Related(s: State, a: Object) {
    && |s.heads| == CLASS_COUNT == |a.stacks|
    && s.pcs.Keys == a.calls.Keys
    && (forall c :: 0 <= c < CLASS_COUNT ==> ChainFrom(s.next, s.heads[c], a.stacks[c]))
    && (forall t :: t in s.pcs ==> CallRefines(s.next, s.heads, s.pcs[t], a.calls[t]))
  }

  /** Mutual exclusion: the thread between lock and unlock is the one recorded in the mutex. */
  ghost predicate Exclusion(s: State) {
    forall t :: t in s.pcs ==> (Holding(s.pcs[t]) <==> s.mutex == Some(t))
  }

  ghost predicate Refines(s: State, a: Object) {
    WellFormed(a) && Related(s, a) && SameOwners(s.next, s.mine, a) && Exclusion(s)
  }

  /** Publish takes effect at its head write, detach at its head clear. */
  function ActionOf(s: State, e: Event): Action {
    match e
    case CallPublish(t, c, batch) => InvokePublish(t, c, batch)
    case WriteHead(t) => CommitPublish(t)
    case ClearHead(t) => if t in s.pcs && s.pcs[t].HeadRead? then TakeAll(t, s.pcs[t].c) else Stutter
    case Return(t) => ReturnTaken(t)
    case Give(t, u, b) => Action.Give(t, u, b)
    case _ => Stutter
  }

  function Perform(s: State, a: Object, e: Event): Object {
    Effect(a, ActionOf(s, e))
  }

  // ---- One step ----

  lemma CallFrame(next: map<Block, Ptr>, next': map<Block, Ptr>, heads: seq<Ptr>, b: Block, pc: Pc, call: Call)
    requires CallRefines(next, heads, pc, call) && b !in Held(call)
    requires next.Keys <= next'.Keys && forall x :: x in next && x != b ==> next'[x] == next[x]
    ensures CallRefines(next', heads, pc, call)
  {
    if call.Detaching? {
      Frame(next, next', b, pc.first, call.taken);
    }
  }

  lemma ExclusionStep(s: State, e: Event, s': State)
    requires Exclusion(s) && Step(s, e, s')
    ensures Exclusion(s')
  {
    hide ChainFrom, Segment, NoDup;
  }

  lemma Linearization(s: State, e: Event, s': State, a: Object)
    requires Related(s, a) && SameOwners(s.next, s.mine, a) && Step(s, e, s')
    requires e.Give? ==> e.t in a.calls
    ensures Permitted(a, ActionOf(s, e))
  {
    if e.t in s.pcs {
      assert CallRefines(s.next, s.heads, s.pcs[e.t], a.calls[e.t]);
    }
  }

  lemma WriteTailSimulates(s: State, t: Tid, tail: Block, s': State, a: Object)
    requires Related(s, a) && Step(s, WriteTail(t), s')
    requires s.pcs[t].list.last == At(tail) && OnlyHeldBy(a, tail, t)
    requires t in a.calls && NoDup(Held(a.calls[t]))
    ensures Related(s', a)
  {
    assert CallRefines(s.next, s.heads, s.pcs[t], a.calls[t]);
    forall c | 0 <= c < CLASS_COUNT
      ensures ChainFrom(s'.next, s'.heads[c], a.stacks[c])
    {
      Frame(s.next, s'.next, tail, s.heads[c], a.stacks[c]);
    }
    forall u | u in s'.pcs
      ensures CallRefines(s'.next, s'.heads, s'.pcs[u], a.calls[u])
    {
      if u != t {
        CallFrame(s.next, s'.next, s.heads, tail, s.pcs[u], a.calls[u]);
      }
    }
  }

  lemma RelinkSimulates(s: State, t: Tid, b: Block, p: Ptr, s': State, a: Object)
    requires Related(s, a) && Step(s, Relink(t, b, p), s')
    requires forall c :: 0 <= c < |a.stacks| ==> b !in a.stacks[c]
    requires forall u :: u in a.calls ==> b !in Held(a.calls[u])
    ensures Related(s', a)
  {
    forall c | 0 <= c < CLASS_COUNT
      ensures ChainFrom(s'.next, s'.heads[c], a.stacks[c])
    {
      Frame(s.next, s'.next, b, s.heads[c], a.stacks[c]);
    }
    forall u | u in s'.pcs
      ensures CallRefines(s'.next, s'.heads, s'.pcs[u], a.calls[u])
    {
      CallFrame(s.next, s'.next, s.heads, b, s.pcs[u], a.calls[u]);
    }
  }

  /** Threads that do not hold the mutex are indifferent to the heads. */
  lemma HeadFrame(next: map<Block, Ptr>, heads: seq<Ptr>, heads': seq<Ptr>, pc: Pc, call: Call)
    requires CallRefines(next, heads, pc, call) && !Holding(pc)
    ensures CallRefines(next, heads', pc, call)
  {
  }

  lemma WriteHeadSimulates(s: State, t: Tid, s': State, a: Object)
    requires Related(s, a) && Step(s, WriteHead(t), s') && Exclusion(s)
    ensures Related(s', Perform(s, a, WriteHead(t)))
  {
    var pc := s.pcs[t];
    assert CallRefines(s.next, s.heads, pc, a.calls[t]);
    ChainPrepend(s.next, a.calls[t].batch, s.heads[pc.c], a.stacks[pc.c]);
    var a' := Perform(s, a, WriteHead(t));
    forall u | u in s'.pcs
      ensures CallRefines(s'.next, s'.heads, s'.pcs[u], a'.calls[u])
    {
      if u != t {
        HeadFrame(s.next, s.heads, s'.heads, s.pcs[u], a.calls[u]);
      }
    }
  }

  lemma ClearHeadSimulates(s: State, t: Tid, s': State, a: Object)
    requires Related(s, a) && Step(s, ClearHead(t), s') && Exclusion(s)
    ensures Related(s', Perform(s, a, ClearHead(t)))
  {
    var pc := s.pcs[t];
    assert CallRefines(s.next, s.heads, pc, a.calls[t]);
    assert ChainFrom(s.next, s.heads[pc.c], a.stacks[pc.c]);
    var a' := Perform(s, a, ClearHead(t));
    forall u | u in s'.pcs
      ensures CallRefines(s'.next, s'.heads, s'.pcs[u], a'.calls[u])
    {
      if u != t {
        HeadFrame(s.next, s.heads, s'.heads, s.pcs[u], a.calls[u]);
      }
    }
  }

  lemma OneCallChanges(s: State, s': State, a: Object, a': Object, t: Tid)
    requires Related(s, a) && s'.next == s.next && s'.heads == s.heads && a'.stacks == a.stacks
    requires t in s'.pcs && t in a'.calls && t in s.pcs
    requires s'.pcs == s.pcs[t := s'.pcs[t]] && a'.calls == a.calls[t := a'.calls[t]]
    requires CallRefines(s'.next, s'.heads, s'.pcs[t], a'.calls[t])
    ensures Related(s', a')
  {
    hide CallRefines, ChainFrom;
  }

  ghost predicate Local(e: Event) {
    e.CallPublish? || e.CallDetach? || e.Lock? || e.ReadHead? || e.Unlock? || e.Follow? || e.Return?
  }

  lemma LocalCall(s: State, e: Event, s': State, a: Object)
    requires Step(s, e, s') && Local(e)
    requires e.t in s.pcs && e.t in a.calls && CallRefines(s.next, s.heads, s.pcs[e.t], a.calls[e.t])
    ensures CallRefines(s'.next, s'.heads, s'.pcs[e.t], Perform(s, a, e).calls[e.t])
  {
  }

  lemma LocalSimulates(s: State, e: Event, s': State, a: Object)
    requires Related(s, a) && Step(s, e, s') && (Local(e) || e.PublishEmpty? || e.Give?)
    ensures Related(s', Perform(s, a, e))
  {
    hide CallRefines, ChainFrom, Segment, NoDup;
    if Local(e) {
      LocalCall(s, e, s', a);
      OneCallChanges(s, s', a, Perform(s, a, e), e.t);
    }
  }

  /** The traversal returns exactly the blocks the abstract call holds. */
  lemma ReturnedBlocks(s: State, t: Tid, s': State, a: Object)
    requires Related(s, a) && Step(s, Return(t), s') && t in a.calls
    ensures a.calls[t].Detaching? && s'.next == s.next && s'.mine == Adopt(s.mine, a.calls[t].taken, t)
  {
    assert CallRefines(s.next, s.heads, s.pcs[t], a.calls[t]);
    var blocks: seq<Block> :| ChainFrom(s.next, s.pcs[t].first, blocks)
                              && s' == s.(pcs := s.pcs[t := Idle], mine := Adopt(s.mine, blocks, t));
    ChainUnique(s.next, s.pcs[t].first, blocks, a.calls[t].taken);
  }

  lemma ReturnOwnership(s: State, t: Tid, s': State, a: Object)
    requires Related(s, a) && SameOwners(s.next, s.mine, a) && Step(s, Return(t), s') && t in a.calls
    requires forall b :: b in Held(a.calls[t]) ==> b in a.owner && a.owner[b] == Busy(t)
    ensures SameOwners(s'.next, s'.mine, Perform(s, a, Return(t)))
  {
    hide ChainFrom, CallRefines, Related, Step;
    ReturnedBlocks(s, t, s', a);
  }

  lemma TailInMemory(s: State, t: Tid, s': State, a: Object)
    requires Related(s, a) && Step(s, WriteTail(t), s')
    ensures s'.next.Keys == s.next.Keys
  {
    assert CallRefines(s.next, s.heads, s.pcs[t], a.calls[t]);
  }

  lemma GivenOwners(s: State, e: Event, s': State, a: Object)
    requires SameOwners(s.next, s.mine, a) && Step(s, e, s') && (e.CallPublish? || e.Give? || e.Relink?)
    ensures SameOwners(s'.next, s'.mine, Perform(s, a, e))
  {
    hide ChainFrom, Segment;
  }

  lemma OwnershipSimulates(s: State, e: Event, s': State, a: Object)
    requires Related(s, a) && SameOwners(s.next, s.mine, a) && Step(s, e, s')
    requires forall b :: b in Held(CallOf(a, e.t)) ==> b in a.owner && a.owner[b] == Busy(e.t)
    requires forall c, b :: 0 <= c < |a.stacks| && b in a.stacks[c] ==> b in a.owner && a.owner[b] == Shared(c)
    ensures SameOwners(s'.next, s'.mine, Perform(s, a, e))
  {
    hide CallRefines;
    if e.Return? {
      ReturnOwnership(s, e.t, s', a);
    } else if e.WriteTail? {
      TailInMemory(s, e.t, s', a);
    } else if e.CallPublish? || e.Give? || e.Relink? {
      GivenOwners(s, e, s', a);
    } else {
      hide SameOwners, Effect;
      KeptOwners(s.next, s'.next, s.mine, a, ActionOf(s, e));
    }
  }

  lemma TailExclusive(s: State, a: Object, t: Tid, s': State)
    requires Refines(s, a) && Step(s, WriteTail(t), s')
    ensures s.pcs[t].list.last.At? && OnlyHeldBy(a, s.pcs[t].list.last.block, t)
    ensures t in a.calls && NoDup(Held(a.calls[t]))
  {
    assert CallRefines(s.next, s.heads, s.pcs[t], a.calls[t]);
    assert CallOk(a.owner, t, a.calls[t]);
    var batch := a.calls[t].batch;
    HeldExclusively(a, t, batch[|batch| - 1]);
  }

  lemma SimulationRelated(s: State, e: Event, s': State, a: Object)
    requires Refines(s, a) && Step(s, e, s')
    ensures Related(s', Perform(s, a, e))
  {
    hide CallRefines, ChainFrom, Segment, CallOk, Lists;
    match e
    case WriteTail(t) =>
      TailExclusive(s, a, t, s');
      WriteTailSimulates(s, t, s.pcs[t].list.last.block, s', a);
    case WriteHead(t) => WriteHeadSimulates(s, t, s', a);
    case ClearHead(t) => ClearHeadSimulates(s, t, s', a);
    case Relink(t, b, p) =>
      PrivateExclusively(a, b);
      RelinkSimulates(s, t, b, p, s', a);
    case _ => LocalSimulates(s, e, s', a);
  }

  /** Every step of the mutex transfer is matched by one step of the atomic object. */
  lemma Simulation(s: State, e: Event, s': State, a: Object)
    requires Refines(s, a) && Step(s, e, s')
    ensures Permitted(a, ActionOf(s, e))
    ensures Refines(s', Perform(s, a, e))
  {
    if e.Give? || e.Relink? {
      assert a.owner[e.b].Private?;
    }
    Linearization(s, e, s', a);
    StepWellFormed(a, ActionOf(s, e), Perform(s, a, e));
    ExclusionStep(s, e, s');
    SimulationOwners(s, e, s', a);
    SimulationRelated(s, e, s', a);
  }

  lemma SimulationOwners(s: State, e: Event, s': State, a: Object)
    requires Refines(s, a) && Step(s, e, s')
    ensures SameOwners(s'.next, s'.mine, Perform(s, a, e))
  {
    hide Step;
    if e.t in a.calls {
      assert CallOk(a.owner, e.t, a.calls[e.t]);
    }
    forall c, b | 0 <= c < |a.stacks| && b in a.stacks[c]
      ensures b in a.owner && a.owner[b] == Shared(c)
    {
      assert Lists(a.owner, a.stacks[c], Shared(c));
    }
    OwnershipSimulates(s, e, s', a);
  }

  // ---- Runs ----

  ghost predicate Run(states: seq<State>, events: seq<Event>) {
    && |states| == |events| + 1
    && Init(states[0])
    && forall i :: 0 <= i < |events| ==> Step(states[i], events[i], states[i + 1])
  }

  function Actions(states: seq<State>, events: seq<Event>): (acts: seq<Action>)
    requires |states| == |events| + 1
    ensures |acts| == |events|
  {
    seq(|events|, i requires 0 <= i < |events| => ActionOf(states[i], events[i]))
  }

  function ObjectAt(states: seq<State>, events: seq<Event>, n: nat): Object
    requires |states| == |events| + 1 && n <= |events|
  {
    After(InitialObject(states[0].pcs.Keys, states[0].mine), Actions(states, events), n)
  }

  lemma InitRelated(s: State)
    requires Init(s)
    ensures Related(s, InitialObject(s.pcs.Keys, s.mine)) && Exclusion(s)
  {
    hide Segment;
  }

  lemma InitRefines(s: State)
    requires Init(s)
    ensures TransferSpec.Init(InitialObject(s.pcs.Keys, s.mine)) && Refines(s, InitialObject(s.pcs.Keys, s.mine))
  {
    hide Related, Exclusion, WellFormed;
    InitRelated(s);
    InitWellFormed(InitialObject(s.pcs.Keys, s.mine));
  }

  lemma {:induction false} RefinesAt(states: seq<State>, events: seq<Event>, n: nat)
    requires Run(states, events) && n <= |events|
    ensures Refines(states[n], ObjectAt(states, events, n))
    ensures n < |events| ==> Permitted(ObjectAt(states, events, n), ActionOf(states[n], events[n]))
    decreases n
  {
    hide Refines, Step, Init, TransferSpec.Init, InitialObject;
    if n == 0 {
      InitRefines(states[0]);
    } else {
      RefinesAt(states, events, n - 1);
      Simulation(states[n - 1], events[n - 1], states[n], ObjectAt(states, events, n - 1));
    }
    if n < |events| {
      Simulation(states[n], events[n], states[n + 1], ObjectAt(states, events, n));
    }
  }

  /** Every run under the mutex is a legal history of the atomic object the lock-free runs obey. */
  lemma MutexRefinesAtomic(states: seq<State>, events: seq<Event>)
    requires Run(states, events)
    ensures Legal(InitialObject(states[0].pcs.Keys, states[0].mine), Actions(states, events))
    ensures forall n :: 0 <= n <= |events| ==> Refines(states[n], ObjectAt(states, events, n))
  {
    InitRefines(states[0]);
    forall n | 0 <= n <= |events|
      ensures Refines(states[n], ObjectAt(states, events, n))
      ensures n < |events| ==> Permitted(ObjectAt(states, events, n), ActionOf(states[n], events[n]))
    {
      RefinesAt(states, events, n);
    }
  }
}
