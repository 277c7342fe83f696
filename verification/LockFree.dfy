/**
 * The lock-free transfer (src/transfer_atomic.c) as a machine of any number of threads over one
 * shared `next_free` memory and one atomic head per class. Every load, link write, weak
 * compare-exchange, exchange and traversal read is its own step, and a weak compare-exchange may
 * fail spuriously. Blocks may leave a stack and come back while a publisher holds a stale head.
 */
module LockFree {
  import opened Sequences
  import opened TransferSpec
  import opened TransferMemory
  import opened Chains

  datatype Pc =
    | Idle
    | Loaded(c: nat, list: Desc, observed: Ptr)   // head read, tail link not yet written
    | Linked(c: nat, list: Desc, observed: Ptr)   // tail link written, about to compare-exchange
    | Traversing(c: nat, first: Ptr, cursor: Ptr, last: Ptr, count: nat)

  /** `mine` records which thread privately owns a block between calls: the callers' contract. */
  datatype State = State(next: map<Block, Ptr>, heads: seq<Ptr>, pcs: map<Tid, Pc>, mine: Ownership)

  datatype Event =
    | PublishEmpty(t: Tid, c: nat)
    | Load(t: Tid, c: nat, batch: seq<Block>)
    | Link(t: Tid)
    | CasSuccess(t: Tid)
    | CasFailure(t: Tid)            // the head differs from `observed`
    | CasSpurious(t: Tid)           // the head equals `observed`, the weak form fails anyway
    | Exchange(t: Tid, c: nat)
    | Follow(t: Tid)
    | Return(t: Tid)
    | Relink(t: Tid, b: Block, p: Ptr)
    | Give(t: Tid, u: Tid, b: Block)

  ghost predicate Init(s: State) {
    && s.heads == seq(CLASS_COUNT, _ => Null)
    && (forall t :: t in s.pcs ==> s.pcs[t] == Idle)
    && s.mine.Keys == s.next.Keys
    && (forall b :: b in s.mine ==> s.mine[b] in s.pcs)
  }

  ghost predicate Step(s: State, e: Event, s': State) {
    match e
    case PublishEmpty(t, c) =>
      t in s.pcs && s.pcs[t] == Idle && c < |s.heads| && s' == s
    case Load(t, c, batch) =>
      && t in s.pcs && s.pcs[t] == Idle && c < |s.heads| && PrivateList(s.next, s.mine, t, batch)
      && s' == s.(pcs := s.pcs[t := Loaded(c, DescOf(batch), s.heads[c])], mine := Without(s.mine, batch))
    case Link(t) =>
      && t in s.pcs && s.pcs[t].Loaded? && s.pcs[t].list.last.At?
      && var pc := s.pcs[t];
      s' == s.(next := s.next[pc.list.last.block := pc.observed],
               pcs := s.pcs[t := Linked(pc.c, pc.list, pc.observed)])
    case CasSuccess(t) =>
      && t in s.pcs && s.pcs[t].Linked? && s.pcs[t].c < |s.heads|
      && var pc := s.pcs[t];
      && s.heads[pc.c] == pc.observed
      && s' == s.(heads := s.heads[pc.c := pc.list.first], pcs := s.pcs[t := Idle])
    case CasFailure(t) =>
      && t in s.pcs && s.pcs[t].Linked? && s.pcs[t].c < |s.heads|
      && var pc := s.pcs[t];
      && s.heads[pc.c] != pc.observed
      && s' == s.(pcs := s.pcs[t := Loaded(pc.c, pc.list, s.heads[pc.c])])
    case CasSpurious(t) =>
      && t in s.pcs && s.pcs[t].Linked? && s.pcs[t].c < |s.heads|
      && var pc := s.pcs[t];
      && s.heads[pc.c] == pc.observed
      && s' == s.(pcs := s.pcs[t := Loaded(pc.c, pc.list, s.heads[pc.c])])
    case Exchange(t, c) =>
      && t in s.pcs && s.pcs[t] == Idle && c < |s.heads|
      && s' == s.(heads := s.heads[c := Null],
                  pcs := s.pcs[t := Traversing(c, s.heads[c], s.heads[c], Null, 0)])
    case Follow(t) =>
      && t in s.pcs && s.pcs[t].Traversing? && s.pcs[t].cursor.At?
      && var pc := s.pcs[t];
      && pc.cursor.block in s.next
      && s' == s.(pcs := s.pcs[t := Traversing(pc.c, pc.first, s.next[pc.cursor.block], pc.cursor, pc.count + 1)])
    case Return(t) =>
      && t in s.pcs && s.pcs[t].Traversing? && s.pcs[t].cursor == Null
      && var pc := s.pcs[t];
      exists blocks: seq<Block> ::
        && ChainFrom(s.next, pc.first, blocks)
        && s' == s.(pcs := s.pcs[t := Idle], mine := Adopt(s.mine, blocks, t))
    case Relink(t, b, p) =>
      && b in s.mine && s.mine[b] == t && b in s.next
      && s' == s.(next := s.next[b := p])
    case Give(t, u, b) =>
      && b in s.mine && s.mine[b] == t && u in s.pcs
      && s' == s.(mine := s.mine[b := u])
  }

  // ---- The refinement relation ----

  ghost predicate CallRefines(next: map<Block, Ptr>, pc: Pc, call: Call) {
    match pc
    case Idle => call == NoCall
    case Loaded(c, list, observed) =>
      && call.Publishing? && call.c == c && call.batch != []
      && list == DescOf(call.batch) && Segment(next, call.batch)
    case Linked(c, list, observed) =>
      && call.Publishing? && call.c == c && call.batch != []
      && list == DescOf(call.batch) && Segment(next, call.batch)
      && next[call.batch[|call.batch| - 1]] == observed
    case Traversing(c, first, cursor, last, count) =>
      && call.Detaching? && call.c == c && ChainFrom(next, first, call.taken)
      && count <= |call.taken| && cursor == PtrAt(call.taken, count)
      && last == (if count == 0 then Null else At(call.taken[count - 1]))
  }

  ghost predicate Related(s: State, a: Object) {
    && |s.heads| == CLASS_COUNT == |a.stacks|
    && s.pcs.Keys == a.calls.Keys
    && (forall c :: 0 <= c < CLASS_COUNT ==> ChainFrom(s.next, s.heads[c], a.stacks[c]))
    && (forall t :: t in s.pcs ==> CallRefines(s.next, s.pcs[t], a.calls[t]))
  }

  /** `a` is the atomic object that the concrete state stands for. */
  ghost predicate Refines(s: State, a: Object) {
    WellFormed(a) && Related(s, a) && SameOwners(s.next, s.mine, a)
  }

  /** The step of the atomic object that an event stands for: its linearization. */
  function ActionOf(e: Event): Action {
    match e
    case Load(t, c, batch) => InvokePublish(t, c, batch)
    case CasSuccess(t) => CommitPublish(t)
    case Exchange(t, c) => TakeAll(t, c)
    case Return(t) => ReturnTaken(t)
    case Give(t, u, b) => Action.Give(t, u, b)
    case _ => Stutter
  }

  function Perform(a: Object, e: Event): Object {
    Effect(a, ActionOf(e))
  }

  // ---- One step ----

  lemma CallFrame(next: map<Block, Ptr>, next': map<Block, Ptr>, b: Block, pc: Pc, call: Call)
    requires CallRefines(next, pc, call) && b !in Held(call)
    requires next.Keys <= next'.Keys && forall x :: x in next && x != b ==> next'[x] == next[x]
    ensures CallRefines(next', pc, call)
  {
    if call.Detaching? {
      Frame(next, next', b, pc.first, call.taken);
    }
  }

  /** The abstract side of a step: the object really can take the step the event stands for. */
  lemma Linearization(s: State, e: Event, s': State, a: Object)
    requires Related(s, a) && SameOwners(s.next, s.mine, a) && Step(s, e, s')
    requires e.Give? ==> e.t in a.calls
    ensures Permitted(a, ActionOf(e))
  {
    if e.t in s.pcs {
      assert CallRefines(s.next, s.pcs[e.t], a.calls[e.t]);
    }
  }

  lemma LinkSimulates(s: State, t: Tid, tail: Block, s': State, a: Object)
    requires Related(s, a) && Step(s, Link(t), s')
    requires s.pcs[t].list.last == At(tail) && OnlyHeldBy(a, tail, t)
    requires t in a.calls && NoDup(Held(a.calls[t]))
    ensures Related(s', a)
  {
    assert CallRefines(s.next, s.pcs[t], a.calls[t]);
    forall c | 0 <= c < CLASS_COUNT
      ensures ChainFrom(s'.next, s'.heads[c], a.stacks[c])
    {
      Frame(s.next, s'.next, tail, s.heads[c], a.stacks[c]);
    }
    forall u | u in s'.pcs
      ensures CallRefines(s'.next, s'.pcs[u], a.calls[u])
    {
      if u != t {
        CallFrame(s.next, s'.next, tail, s.pcs[u], a.calls[u]);
      }
    }
  }

  lemma CasSuccessSimulates(s: State, t: Tid, s': State, a: Object)
    requires Related(s, a) && Step(s, CasSuccess(t), s')
    ensures t in a.calls && Related(s', Perform(a, CasSuccess(t)))
  {
    var pc := s.pcs[t];
    assert CallRefines(s.next, pc, a.calls[t]);
    ChainPrepend(s.next, a.calls[t].batch, s.heads[pc.c], a.stacks[pc.c]);
  }

  lemma RelinkSimulates(s: State, t: Tid, b: Block, p: Ptr, s': State, a: Object)
    requires Related(s, a) && Step(s, Relink(t, b, p), s')
    requires forall c :: 0 <= c < |a.stacks| ==> b !in a.stacks[c]
    requires forall u :: u in a.calls ==> b !in Held(a.calls[u])
    ensures Related(s', a)
  {
    forall c | 0 <= c < CLASS_COUNT
      ensures ChainFrom(s'.next, s'.heads[c], a.stacks[c])
    {
      Frame(s.next, s'.next, b, s.heads[c], a.stacks[c]);
    }
    forall u | u in s'.pcs
      ensures CallRefines(s'.next, s'.pcs[u], a.calls[u])
    {
      CallFrame(s.next, s'.next, b, s.pcs[u], a.calls[u]);
    }
  }

  lemma ExchangeSimulates(s: State, t: Tid, c: nat, s': State, a: Object)
    requires Related(s, a) && Step(s, Exchange(t, c), s')
    ensures Related(s', Perform(a, Exchange(t, c)))
  {
    assert CallRefines(s.next, s.pcs[t], a.calls[t]);
    assert ChainFrom(s.next, s.heads[c], a.stacks[c]);
  }

  /** No link and no head changed: only the acting thread's call has to be looked at. */
  lemma OneCallChanges(s: State, s': State, a: Object, a': Object, t: Tid)
    requires Related(s, a) && s'.next == s.next && s'.heads == s.heads && a'.stacks == a.stacks
    requires t in s'.pcs && t in a'.calls && t in s.pcs
    requires s'.pcs == s.pcs[t := s'.pcs[t]] && a'.calls == a.calls[t := a'.calls[t]]
    requires CallRefines(s'.next, s'.pcs[t], a'.calls[t])
    ensures Related(s', a')
  {
    hide CallRefines, ChainFrom;
  }

  lemma LocalCall(s: State, e: Event, s': State, a: Object)
    requires Step(s, e, s') && (e.Load? || e.CasFailure? || e.CasSpurious? || e.Follow? || e.Return?)
    requires e.t in s.pcs && e.t in a.calls && CallRefines(s.next, s.pcs[e.t], a.calls[e.t])
    ensures CallRefines(s'.next, s'.pcs[e.t], Perform(a, e).calls[e.t])
  {
  }

  lemma LocalSimulates(s: State, e: Event, s': State, a: Object)
    requires Related(s, a) && Step(s, e, s')
    requires !e.Link? && !e.CasSuccess? && !e.Relink? && !e.Exchange?
    ensures Related(s', Perform(a, e))
  {
    hide CallRefines, ChainFrom, Segment, NoDup;
    if e.Load? || e.CasFailure? || e.CasSpurious? || e.Follow? || e.Return? {
      LocalCall(s, e, s', a);
      OneCallChanges(s, s', a, Perform(a, e), e.t);
    }
  }

  /** The traversal returns exactly the blocks the abstract call holds. */
  lemma ReturnedBlocks(s: State, t: Tid, s': State, a: Object)
    requires Related(s, a) && Step(s, Return(t), s') && t in a.calls
    ensures a.calls[t].Detaching? && s'.next == s.next && s'.mine == Adopt(s.mine, a.calls[t].taken, t)
  {
    assert CallRefines(s.next, s.pcs[t], a.calls[t]);
    var blocks: seq<Block> :| ChainFrom(s.next, s.pcs[t].first, blocks)
                              && s' == s.(pcs := s.pcs[t := Idle], mine := Adopt(s.mine, blocks, t));
    ChainUnique(s.next, s.pcs[t].first, blocks, a.calls[t].taken);
  }

  lemma ReturnOwnership(s: State, t: Tid, s': State, a: Object)
    requires Related(s, a) && SameOwners(s.next, s.mine, a) && Step(s, Return(t), s') && t in a.calls
    requires forall b :: b in Held(a.calls[t]) ==> b in a.owner && a.owner[b] == Busy(t)
    ensures SameOwners(s'.next, s'.mine, Perform(a, Return(t)))
  {
    hide ChainFrom, CallRefines, Related, Step;
    ReturnedBlocks(s, t, s', a);
  }

  lemma TailInMemory(s: State, t: Tid, s': State, a: Object)
    requires Related(s, a) && Step(s, Link(t), s')
    ensures s'.next.Keys == s.next.Keys
  {
    assert CallRefines(s.next, s.pcs[t], a.calls[t]);
  }

  lemma GivenOwners(s: State, e: Event, s': State, a: Object)
    requires SameOwners(s.next, s.mine, a) && Step(s, e, s') && (e.Load? || e.Give?)
    ensures SameOwners(s'.next, s'.mine, Perform(a, e))
  {
    hide ChainFrom, Segment, NoDup;
  }

  lemma OwnershipSimulates(s: State, e: Event, s': State, a: Object)
    requires Related(s, a) && SameOwners(s.next, s.mine, a) && Step(s, e, s')
    requires forall b :: b in Held(CallOf(a, e.t)) ==> b in a.owner && a.owner[b] == Busy(e.t)
    requires e.Exchange? && e.c < |a.stacks| ==> forall b :: b in a.stacks[e.c] ==> b in a.owner && a.owner[b] == Shared(e.c)
    ensures SameOwners(s'.next, s'.mine, Perform(a, e))
  {
    if e.Return? {
      ReturnOwnership(s, e.t, s', a);
    } else if e.Load? || e.Give? {
      GivenOwners(s, e, s', a);
    } else {
      if e.Link? {
        TailInMemory(s, e.t, s', a);
      }
      hide ChainFrom, Segment, NoDup, CallRefines;
      assert s.next.Keys == s'.next.Keys && s.mine == s'.mine;
      hide Step, SameOwners, Effect;
      KeptOwners(s.next, s'.next, s.mine, a, ActionOf(e));
    }
  }

  /**
   * Forward simulation: whatever the interleaving, a concrete step is matched by one step of the
   * atomic object, and the states stay related. ABA on the head and spurious failures included.
   */
  lemma Simulation(s: State, e: Event, s': State, a: Object)
    requires Refines(s, a) && Step(s, e, s')
    ensures Permitted(a, ActionOf(e))
    ensures Refines(s', Perform(a, e))
  {
    if e.Give? || e.Relink? {
      assert a.owner[e.b].Private?;
    }
    Linearization(s, e, s', a);
    StepWellFormed(a, ActionOf(e), Perform(a, e));
    if e.t in a.calls {
      assert CallOk(a.owner, e.t, a.calls[e.t]);
    }
    if e.Exchange? {
      assert Lists(a.owner, a.stacks[e.c], Shared(e.c));
    }
    OwnershipSimulates(s, e, s', a);
    SimulationRelated(s, e, s', a);
  }

  lemma LinkExclusivelySimulates(s: State, t: Tid, s': State, a: Object)
    requires Refines(s, a) && Step(s, Link(t), s')
    ensures Related(s', Perform(a, Link(t)))
  {
    assert CallRefines(s.next, s.pcs[t], a.calls[t]);
    assert CallOk(a.owner, t, a.calls[t]);
    var batch := a.calls[t].batch;
    HeldExclusively(a, t, batch[|batch| - 1]);
    hide CallRefines, Related, Step;
    LinkSimulates(s, t, batch[|batch| - 1], s', a);
  }

  lemma SimulationRelated(s: State, e: Event, s': State, a: Object)
    requires Refines(s, a) && Step(s, e, s')
    ensures Related(s', Perform(a, e))
  {
    match e
    case Link(t) => LinkExclusivelySimulates(s, t, s', a);
    case CasSuccess(t) => CasSuccessSimulates(s, t, s', a);
    case Relink(t, b, p) =>
      PrivateExclusively(a, b);
      hide Step;
      RelinkSimulates(s, t, b, p, s', a);
    case Exchange(t, c) => ExchangeSimulates(s, t, c, s', a);
    case _ => LocalSimulates(s, e, s', a);
  }
}
