/** Results about whole runs of the lock-free transfer, from the one-step simulation in LockFree. */
module LockFreeRuns {
  import opened Sequences
  import opened TransferSpec
  import opened TransferMemory
  import opened Chains
  import L = LockFree

  ghost predicate Run(states: seq<L.State>, events: seq<L.Event>) {
    && |states| == |events| + 1
    && L.Init(states[0])
    && forall i :: 0 <= i < |events| ==> L.Step(states[i], events[i], states[i + 1])
  }

  function Actions(events: seq<L.Event>): (acts: seq<Action>)
    ensures |acts| == |events|
  {
    seq(|events|, i requires 0 <= i < |events| => L.ActionOf(events[i]))
  }

  /** The atomic object at position `n` of the run. */
  function ObjectAt(states: seq<L.State>, events: seq<L.Event>, n: nat): Object
    requires |states| == |events| + 1 && n <= |events|
  {
    After(InitialObject(states[0].pcs.Keys, states[0].mine), Actions(events), n)
  }

  lemma InitRelated(s: L.State)
    requires L.Init(s)
    ensures L.Related(s, InitialObject(s.pcs.Keys, s.mine))
  {
    hide Segment;
  }

  lemma InitRefines(s: L.State)
    requires L.Init(s)
    ensures Init(InitialObject(s.pcs.Keys, s.mine)) && L.Refines(s, InitialObject(s.pcs.Keys, s.mine))
  {
    hide L.Related, WellFormed;
    InitRelated(s);
    InitWellFormed(InitialObject(s.pcs.Keys, s.mine));
  }

  lemma {:induction false} RefinesAt(states: seq<L.State>, events: seq<L.Event>, n: nat)
    requires Run(states, events) && n <= |events|
    ensures L.Refines(states[n], ObjectAt(states, events, n))
    ensures n < |events| ==> Permitted(ObjectAt(states, events, n), L.ActionOf(events[n]))
    decreases n
  {
    hide L.Refines, L.Step, Step, Init, L.Init, InitialObject;
    if n == 0 {
      InitRefines(states[0]);
    } else {
      RefinesAt(states, events, n - 1);
      L.Simulation(states[n - 1], events[n - 1], states[n], ObjectAt(states, events, n - 1));
    }
    if n < |events| {
      L.Simulation(states[n], events[n], states[n + 1], ObjectAt(states, events, n));
    }
  }

  /**
   * Every run of any number of publishers and detachers is a legal history of the atomic object, in
   * which a publish prepends its whole batch at its successful compare-exchange and a detach takes
   * the whole stack at its exchange; and the memory represents the object at every position.
   */
  lemma LockFreeRefinesAtomic(states: seq<L.State>, events: seq<L.Event>)
    requires Run(states, events)
    ensures Legal(InitialObject(states[0].pcs.Keys, states[0].mine), Actions(events))
    ensures forall n :: 0 <= n <= |events| ==> L.Refines(states[n], ObjectAt(states, events, n))
  {
    InitRefines(states[0]);
    forall n | 0 <= n <= |events|
      ensures L.Refines(states[n], ObjectAt(states, events, n))
      ensures n < |events| ==> Permitted(ObjectAt(states, events, n), L.ActionOf(events[n]))
    {
      RefinesAt(states, events, n);
    }
  }

  /** `batch` is what the call of `t` carries: a publish's described blocks, or a detach's chain. */
  ghost predicate InFlight(s: L.State, t: Tid, batch: seq<Block>) {
    t in s.pcs
    && match s.pcs[t]
       case Idle => false
       case Loaded(_, list, _) => batch != [] && list == DescOf(batch) && Segment(s.next, batch)
       case Linked(_, list, _) => batch != [] && list == DescOf(batch) && Segment(s.next, batch)
       case Traversing(_, first, _, _, _) => ChainFrom(s.next, first, batch)
  }

  lemma InFlightIsHeld(s: L.State, a: Object, t: Tid, batch: seq<Block>)
    requires L.Refines(s, a) && InFlight(s, t, batch)
    ensures t in a.calls && batch == Held(a.calls[t]) && NoDup(batch)
  {
    assert L.CallRefines(s.next, s.pcs[t], a.calls[t]);
    assert CallOk(a.owner, t, a.calls[t]);
    if s.pcs[t].Traversing? {
      ChainUnique(s.next, s.pcs[t].first, batch, a.calls[t].taken);
    } else {
      SegmentUnique(s.next, batch, a.calls[t].batch);
    }
  }

  /**
   * In every reachable state the chain below each head ends in null, visits no block twice, and
   * shares no block with another head or with a batch that some call still holds.
   */
  lemma SharedChainsAreSound(states: seq<L.State>, events: seq<L.Event>, i: nat, c: nat)
    requires Run(states, events) && i < |states| && c < CLASS_COUNT
    ensures c < |states[i].heads|
    ensures exists chain: seq<Block> :: ChainFrom(states[i].next, states[i].heads[c], chain) && NoDup(chain)
    ensures forall chain: seq<Block>, d, other: seq<Block> ::
              && ChainFrom(states[i].next, states[i].heads[c], chain)
              && 0 <= d < |states[i].heads| && d != c
              && ChainFrom(states[i].next, states[i].heads[d], other)
              ==> Disjoint(chain, other)
    ensures forall chain: seq<Block>, t, batch: seq<Block> ::
              ChainFrom(states[i].next, states[i].heads[c], chain) && InFlight(states[i], t, batch)
              ==> Disjoint(chain, batch)
  {
    RefinesAt(states, events, i);
    var s, a := states[i], ObjectAt(states, events, i);
    assert Lists(a.owner, a.stacks[c], Shared(c));
    assert ChainFrom(s.next, s.heads[c], a.stacks[c]);
    forall chain: seq<Block>, d, other: seq<Block> |
      && ChainFrom(s.next, s.heads[c], chain) && 0 <= d < |s.heads| && d != c
      && ChainFrom(s.next, s.heads[d], other)
      ensures Disjoint(chain, other)
    {
      ChainUnique(s.next, s.heads[c], chain, a.stacks[c]);
      ChainUnique(s.next, s.heads[d], other, a.stacks[d]);
      assert Lists(a.owner, a.stacks[d], Shared(d));
    }
    forall chain: seq<Block>, t, batch: seq<Block> | ChainFrom(s.next, s.heads[c], chain) && InFlight(s, t, batch)
      ensures Disjoint(chain, batch)
    {
      ChainUnique(s.next, s.heads[c], chain, a.stacks[c]);
      HeldOffTheStacks(s, a, t, batch, c);
    }
  }

  lemma HeldOffTheStacks(s: L.State, a: Object, t: Tid, batch: seq<Block>, c: nat)
    requires L.Refines(s, a) && InFlight(s, t, batch) && c < |a.stacks|
    ensures Disjoint(a.stacks[c], batch)
  {
    InFlightIsHeld(s, a, t, batch);
    hide InFlight;
    forall b | b in batch
      ensures b !in a.stacks[c]
    {
      HeldExclusively(a, t, b);
    }
  }

  /**
   * A batch in flight repeats no block, shares none with the batch of another call, and holds no
   * block that any thread owns privately.
   */
  lemma BatchesAreApart(states: seq<L.State>, events: seq<L.Event>, i: nat, t: Tid, batch: seq<Block>)
    requires Run(states, events) && i < |states| && InFlight(states[i], t, batch)
    ensures NoDup(batch) && forall b :: b in batch ==> b !in states[i].mine
    ensures forall u, other: seq<Block> :: u != t && InFlight(states[i], u, other) ==> Disjoint(batch, other)
  {
    RefinesAt(states, events, i);
    var s, a := states[i], ObjectAt(states, events, i);
    InFlightIsHeld(s, a, t, batch);
    assert CallOk(a.owner, t, a.calls[t]);
    forall u, other: seq<Block> | u != t && InFlight(s, u, other)
      ensures Disjoint(batch, other)
    {
      InFlightIsHeld(s, a, u, other);
      assert CallOk(a.owner, u, a.calls[u]);
    }
  }

  // ---- Which links a step reads or writes ----

  /** The blocks whose `next_free` field the event reads or writes. */
  function Touches(s: L.State, e: L.Event): set<Block> {
    match e
    case Link(t) =>
      if t in s.pcs && s.pcs[t].Loaded? && s.pcs[t].list.last.At? then {s.pcs[t].list.last.block} else {}
    case Follow(t) =>
      if t in s.pcs && s.pcs[t].Traversing? && s.pcs[t].cursor.At? then {s.pcs[t].cursor.block} else {}
    case Relink(t, b, p) => {b}
    case _ => {}
  }

  /** A step writes no link but those it touches. */
  lemma WritesOnlyTouched(s: L.State, e: L.Event, s': L.State, b: Block)
    requires L.Step(s, e, s') && b in s.next && b !in Touches(s, e)
    ensures b in s'.next && s'.next[b] == s.next[b]
  {
  }

  /**
   * A step reads no link but those it touches: in two memories that agree there, the same event of the
   * same threads leaves the same heads, the same threads, and the same links where it touches.
   */
  lemma ReadsOnlyTouched(s: L.State, r: L.State, e: L.Event, s': L.State, r': L.State)
    requires L.Step(s, e, s') && L.Step(r, e, r') && s.pcs == r.pcs && s.heads == r.heads
    requires forall b :: b in Touches(s, e) ==> b in s.next && b in r.next && s.next[b] == r.next[b]
    ensures s'.pcs == r'.pcs && s'.heads == r'.heads
    ensures forall b :: b in Touches(s, e) ==> b in s'.next && b in r'.next && s'.next[b] == r'.next[b]
  {
  }

  lemma TouchedIsOwned(s: L.State, e: L.Event, s': L.State, a: Object, b: Block)
    requires L.Refines(s, a) && L.Step(s, e, s') && b in Touches(s, e)
    ensures b in a.owner && (a.owner[b] == Busy(e.t) || a.owner[b] == Private(e.t))
  {
    if !e.Relink? {
      assert L.CallRefines(s.next, s.pcs[e.t], a.calls[e.t]);
      assert CallOk(a.owner, e.t, a.calls[e.t]);
      assert b in Held(a.calls[e.t]);
    }
  }

  /**
   * A head value that a publisher observed is only ever compared and copied: every link that any
   * step reads or writes belongs to a block owned by the acting thread alone. The block is on no
   * shared chain, and no other thread's next step touches it.
   */
  lemma StaleHeadIsNeverDereferenced(states: seq<L.State>, events: seq<L.Event>, i: nat, b: Block)
    requires Run(states, events) && i < |events| && b in Touches(states[i], events[i])
    ensures forall c, chain :: 0 <= c < |states[i].heads| && ChainFrom(states[i].next, states[i].heads[c], chain)
                               ==> b !in chain
    ensures forall e, s' :: L.Step(states[i], e, s') && e.t != events[i].t ==> b !in Touches(states[i], e)
  {
    RefinesAt(states, events, i);
    var s, a := states[i], ObjectAt(states, events, i);
    TouchedIsOwned(s, events[i], states[i + 1], a, b);
    forall c, chain | 0 <= c < |s.heads| && ChainFrom(s.next, s.heads[c], chain)
      ensures b !in chain
    {
      ChainUnique(s.next, s.heads[c], chain, a.stacks[c]);
      assert Lists(a.owner, a.stacks[c], Shared(c));
    }
    forall e, s' | L.Step(s, e, s') && e.t != events[i].t
      ensures b !in Touches(s, e)
    {
      if b in Touches(s, e) {
        TouchedIsOwned(s, e, s', a, b);
      }
    }
  }

  // ---- What a detach returns ----

  lemma FinishedTraversal(s: L.State, a: Object, t: Tid, s': L.State)
    requires L.Refines(s, a) && L.Step(s, L.Return(t), s')
    ensures t in s.pcs && s.pcs[t].Traversing? && t in a.calls && a.calls[t].Detaching?
    ensures var pc := s.pcs[t];
            && pc.c == a.calls[t].c
            && Describes(Desc(pc.first, pc.last, pc.count), a.calls[t].taken)
            && ChainFrom(s.next, pc.first, a.calls[t].taken)
  {
    hide WellFormed, SameOwners;
    assert L.CallRefines(s.next, s.pcs[t], a.calls[t]);
    assert s.pcs[t].Traversing? && s.pcs[t].cursor == Null;
    hide L.Step, L.Related;
  }

  /** The class-`c` stack right before event `k`, an exchange of thread `t`, was exactly `taken`. */
  ghost predicate TookAt(states: seq<L.State>, events: seq<L.Event>, k: nat, t: Tid, c: nat, taken: seq<Block>) {
    && k < |events| && k < |states| && events[k] == L.Exchange(t, c) && c < |states[k].heads|
    && ChainFrom(states[k].next, states[k].heads[c], taken)
  }

  lemma TakeIsExchange(states: seq<L.State>, events: seq<L.Event>, k: nat, t: Tid, c: nat, taken: seq<Block>)
    requires Run(states, events) && k < |events|
    requires TookStack(InitialObject(states[0].pcs.Keys, states[0].mine), Actions(events), k, t, c, taken)
    ensures TookAt(states, events, k, t, c, taken)
  {
    hide L.Step, L.Init, InitialObject, WellFormed, SameOwners, L.CallRefines;
    RefinesAt(states, events, k);
    assert L.ActionOf(events[k]) == TakeAll(t, c);
  }

  /**
   * The descriptor a detach hands back describes exactly the stack as it was at the exchange, first
   * and last block and count, however many publishes and detaches ran during the traversal.
   */
  lemma DetachReturnsWholeStack(states: seq<L.State>, events: seq<L.Event>, i: nat, t: Tid)
    requires Run(states, events) && i < |events| && events[i] == L.Return(t)
    ensures t in states[i].pcs && states[i].pcs[t].Traversing?
    ensures var pc := states[i].pcs[t];
            exists k, taken: seq<Block> ::
              && 0 <= k < i && TookAt(states, events, k, t, pc.c, taken)
              && ChainFrom(states[i].next, pc.first, taken)
              && Describes(Desc(pc.first, pc.last, pc.count), taken)
  {
    assert L.Step(states[i], events[i], states[i + 1]);
    hide L.Refines, L.Step, TookAt, Describes, ChainFrom, TookStack, L.Init;
    LockFreeRefinesAtomic(states, events);
    var a, acts := InitialObject(states[0].pcs.Keys, states[0].mine), Actions(events);
    FinishedTraversal(states[i], ObjectAt(states, events, i), t, states[i + 1]);
    DetachTookStack(a, acts, i, t);
    var call := CallOf(After(a, acts, i), t);
    var k :| 0 <= k < i && TookStack(a, acts, k, t, call.c, call.taken);
    TakeIsExchange(states, events, k, t, call.c, call.taken);
  }

  // ---- Compare-exchange failures ----

  ghost predicate Fails(s: L.State, e: L.Event, t: Tid, c: nat) {
    e == L.CasFailure(t) && t in s.pcs && s.pcs[t].Linked? && s.pcs[t].c == c
  }

  ghost predicate OtherChangesHead(s: L.State, e: L.Event, s': L.State, t: Tid, c: nat) {
    e.t != t && c < |s.heads| && c < |s'.heads| && s'.heads[c] != s.heads[c]
  }

  ghost function Failures(states: seq<L.State>, events: seq<L.Event>, t: Tid, c: nat, m: nat, n: nat): nat
    requires m <= n < |states| == |events| + 1
  {
    if n == m then 0
    else Failures(states, events, t, c, m, n - 1) + (if Fails(states[n - 1], events[n - 1], t, c) then 1 else 0)
  }

  ghost function HeadChanges(states: seq<L.State>, events: seq<L.Event>, t: Tid, c: nat, m: nat, n: nat): nat
    requires m <= n < |states| == |events| + 1
  {
    if n == m then 0
    else HeadChanges(states, events, t, c, m, n - 1)
         + (if OtherChangesHead(states[n - 1], events[n - 1], states[n], t, c) then 1 else 0)
  }

  /** The publisher's observation is out of date: its next compare-exchange must fail. */
  ghost predicate Outdated(s: L.State, t: Tid, c: nat) {
    && t in s.pcs && (s.pcs[t].Loaded? || s.pcs[t].Linked?)
    && s.pcs[t].c == c < |s.heads| && s.pcs[t].observed != s.heads[c]
  }

  /**
   * In any window of a run, a publisher's genuine failures on a class are at most the head changes
   * other threads made there, plus one when the window starts with an observation that is already out
   * of date: each failure uses up one change made since the publisher last looked. Spurious failures
   * are not counted.
   */
  lemma {:induction false} FailuresPaidByOthers(states: seq<L.State>, events: seq<L.Event>, t: Tid, c: nat, m: nat, n: nat)
    requires |states| == |events| + 1 && m <= n < |states|
    requires forall i :: 0 <= i < |events| ==> L.Step(states[i], events[i], states[i + 1])
    ensures Failures(states, events, t, c, m, n) + (if Outdated(states[n], t, c) then 1 else 0)
            <= HeadChanges(states, events, t, c, m, n) + (if Outdated(states[m], t, c) then 1 else 0)
    decreases n
  {
    hide L.Step, Fails, Outdated, OtherChangesHead;
    if n > m {
      FailuresPaidByOthers(states, events, t, c, m, n - 1);
      DebtStep(states[n - 1], events[n - 1], states[n], t, c);
    }
  }

  lemma DebtStep(s: L.State, e: L.Event, s': L.State, t: Tid, c: nat)
    requires L.Step(s, e, s')
    ensures Fails(s, e, t, c) ==> Outdated(s, t, c) && !Outdated(s', t, c)
    ensures Outdated(s', t, c) && !Outdated(s, t, c) ==> OtherChangesHead(s, e, s', t, c)
  {
  }

  // ---- Nobody waits ----

  /** Thread `t` has a step of its own. */
  ghost predicate CanStep(s: L.State, t: Tid) {
    exists e: L.Event, s' :: e.t == t && L.Step(s, e, s')
  }

  lemma PublisherSteps(s: L.State, t: Tid, batch: seq<Block>) returns (e: L.Event, s': L.State)
    requires t in s.pcs && (s.pcs[t].Loaded? || s.pcs[t].Linked?) && s.pcs[t].c < |s.heads|
    requires batch != [] && s.pcs[t].list == DescOf(batch)
    ensures e.t == t && L.Step(s, e, s')
  {
    hide ChainFrom, Segment;
    match s.pcs[t] {
      case Loaded(c, list, observed) =>
        e := L.Link(t);
        s' := s.(next := s.next[list.last.block := observed], pcs := s.pcs[t := L.Linked(c, list, observed)]);
      case Linked(c, list, observed) =>
        if s.heads[c] == observed {
          e, s' := L.CasSuccess(t), s.(heads := s.heads[c := list.first], pcs := s.pcs[t := L.Idle]);
        } else {
          e, s' := L.CasFailure(t), s.(pcs := s.pcs[t := L.Loaded(c, list, s.heads[c])]);
        }
    }
  }

  lemma TraverserSteps(s: L.State, t: Tid, taken: seq<Block>) returns (e: L.Event, s': L.State)
    requires t in s.pcs && s.pcs[t].Traversing? && ChainFrom(s.next, s.pcs[t].first, taken)
    requires s.pcs[t].cursor == PtrAt(taken, s.pcs[t].count)
    ensures e.t == t && L.Step(s, e, s')
  {
    var pc := s.pcs[t];
    assert pc.cursor.At? ==> pc.cursor.block in taken && pc.cursor.block in s.next;
    hide ChainFrom, Segment;
    if pc.cursor == Null {
      e, s' := L.Return(t), s.(pcs := s.pcs[t := L.Idle], mine := Adopt(s.mine, taken, t));
    } else {
      e := L.Follow(t);
      s' := s.(pcs := s.pcs[t := L.Traversing(pc.c, pc.first, s.next[pc.cursor.block], pc.cursor, pc.count + 1)]);
    }
  }

  lemma StepExists(s: L.State, a: Object, t: Tid) returns (e: L.Event, s': L.State)
    requires L.Refines(s, a) && t in s.pcs && s.pcs[t] != L.Idle
    ensures e.t == t && L.Step(s, e, s')
  {
    hide L.Step, SameOwners, Lists, ChainFrom, Segment;
    assert L.CallRefines(s.next, s.pcs[t], a.calls[t]) && CallOk(a.owner, t, a.calls[t]);
    if s.pcs[t].Traversing? {
      e, s' := TraverserSteps(s, t, a.calls[t].taken);
    } else {
      e, s' := PublisherSteps(s, t, a.calls[t].batch);
    }
  }

  /** No call ever waits for another thread: in every reachable state each call in progress can step. */
  lemma CallsNeverWait(states: seq<L.State>, events: seq<L.Event>, n: nat, t: Tid)
    requires Run(states, events) && n <= |events| && t in states[n].pcs && states[n].pcs[t] != L.Idle
    ensures CanStep(states[n], t)
  {
    hide L.Step, L.Init, L.Refines;
    RefinesAt(states, events, n);
    var e, s' := StepExists(states[n], ObjectAt(states, events, n), t);
  }
}
