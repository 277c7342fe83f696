/**
 * The atomic object that both transfer implementations refine: one stack of blocks per size class.
 * A publish prepends its whole batch in one indivisible step, a detach takes everything in one
 * indivisible step. The object also records who owns every block, so that "exactly one place"
 * is the statement that `owner` is a function.
 */
module TransferSpec {
  import opened Sequences

  type Block = nat
  type Tid = nat

  const CLASS_COUNT: nat := 16

  datatype Place =
    | Shared(c: nat)    // reachable from the head of class c
    | Busy(t: Tid)      // inside a publish or detach call of thread t
    | Private(t: Tid)   // exclusively owned by thread t between calls

  datatype Call =
    | NoCall
    | Publishing(c: nat, batch: seq<Block>)  // invoked, not yet visible
    | Detaching(c: nat, taken: seq<Block>)   // effect done, not yet returned

  datatype Object = Object(stacks: seq<seq<Block>>, calls: map<Tid, Call>, owner: map<Block, Place>)

  datatype Action =
    | Stutter
    | InvokePublish(t: Tid, c: nat, batch: seq<Block>)
    | CommitPublish(t: Tid)
    | TakeAll(t: Tid, c: nat)
    | ReturnTaken(t: Tid)
    | Give(t: Tid, u: Tid, b: Block)

  function Held(call: Call): seq<Block> {
    match call
    case NoCall => []
    case Publishing(_, batch) => batch
    case Detaching(_, taken) => taken
  }

  function Move(owner: map<Block, Place>, blocks: seq<Block>, p: Place): map<Block, Place> {
    map b | b in owner :: if b in blocks then p else owner[b]
  }

  /** The blocks each thread owns between calls, as a caller of the transfer sees them. */
  type Ownership = map<Block, Tid>

  function Without(mine: Ownership, blocks: seq<Block>): Ownership {
    map b | b in mine && b !in blocks :: mine[b]
  }

  function Adopt(mine: Ownership, blocks: seq<Block>, t: Tid): Ownership {
    map b | b in mine.Keys + (set x | x in blocks) :: if b in blocks then t else mine[b]
  }

  /** `s` enumerates, without repetition, exactly the blocks whose place is `p`. */
  ghost predicate Lists(owner: map<Block, Place>, s: seq<Block>, p: Place) {
    NoDup(s) && forall b :: b in s <==> b in owner && owner[b] == p
  }

  ghost predicate CallOk(owner: map<Block, Place>, t: Tid, call: Call) {
    && Lists(owner, Held(call), Busy(t))
    && (call.Publishing? ==> call.c < CLASS_COUNT && call.batch != [])
    && (call.Detaching? ==> call.c < CLASS_COUNT)
  }

  ghost predicate WellFormed(a: Object) {
    && |a.stacks| == CLASS_COUNT
    && (forall c :: 0 <= c < CLASS_COUNT ==> Lists(a.owner, a.stacks[c], Shared(c)))
    && (forall t :: t in a.calls ==> CallOk(a.owner, t, a.calls[t]))
    && (forall b :: b in a.owner && a.owner[b].Shared? ==> a.owner[b].c < CLASS_COUNT)
    && (forall b :: b in a.owner && !a.owner[b].Shared? ==> a.owner[b].t in a.calls)
  }

  ghost predicate Init(a: Object) {
    && a.stacks == seq(CLASS_COUNT, _ => [])
    && (forall t :: t in a.calls ==> a.calls[t] == NoCall)
    && (forall b :: b in a.owner ==> a.owner[b].Private? && a.owner[b].t in a.calls)
  }

  /** The state after an action. */
  function Effect(a: Object, act: Action): Object {
    match act
    case Stutter => a
    case InvokePublish(t, c, batch) =>
      Object(a.stacks, a.calls[t := Publishing(c, batch)], Move(a.owner, batch, Busy(t)))
    case CommitPublish(t) =>
      (match CallOf(a, t)
       case Publishing(c, batch) =>
         if c < |a.stacks| then
           Object(a.stacks[c := batch + a.stacks[c]], a.calls[t := NoCall], Move(a.owner, batch, Shared(c)))
         else a
       case _ => a)
    case TakeAll(t, c) =>
      if c < |a.stacks| then
        Object(a.stacks[c := []], a.calls[t := Detaching(c, a.stacks[c])], Move(a.owner, a.stacks[c], Busy(t)))
      else a
    case ReturnTaken(t) =>
      Object(a.stacks, a.calls[t := NoCall], Move(a.owner, Held(CallOf(a, t)), Private(t)))
    case Give(t, u, b) =>
      a.(owner := a.owner[b := Private(u)])
  }

  function CallOf(a: Object, t: Tid): Call {
    if t in a.calls then a.calls[t] else NoCall
  }

  /** When an action may happen. */
  ghost predicate Permitted(a: Object, act: Action) {
    match act
    case Stutter => true
    case InvokePublish(t, c, batch) =>
      && t in a.calls && a.calls[t] == NoCall && c < CLASS_COUNT
      && batch != [] && NoDup(batch)
      && forall b :: b in batch ==> b in a.owner && a.owner[b] == Private(t)
    case CommitPublish(t) => CallOf(a, t).Publishing? && CallOf(a, t).c < |a.stacks|
    case TakeAll(t, c) => t in a.calls && a.calls[t] == NoCall && c < |a.stacks|
    case ReturnTaken(t) => CallOf(a, t).Detaching?
    case Give(t, u, b) =>
      t in a.calls && u in a.calls && b in a.owner && a.owner[b] == Private(t)
  }

  ghost predicate Step(a: Object, act: Action, a': Object) {
    Permitted(a, act) && a' == Effect(a, act)
  }

  /** The object after the first `n` of the given actions. */
  function After(a: Object, acts: seq<Action>, n: nat): Object
    requires n <= |acts|
  {
    if n == 0 then a else Effect(After(a, acts, n - 1), acts[n - 1])
  }

  /** A legal history: every action is permitted when it happens. */
  ghost predicate Legal(a: Object, acts: seq<Action>) {
    Init(a) && forall i :: 0 <= i < |acts| ==> Permitted(After(a, acts, i), acts[i])
  }

  lemma InitWellFormed(a: Object)
    requires Init(a)
    ensures WellFormed(a)
  {
  }

  /** Every step of the atomic object keeps each block in exactly one place. */
  lemma StepWellFormed(a: Object, act: Action, a': Object)
    requires WellFormed(a) && Step(a, act, a')
    ensures WellFormed(a') && a'.owner.Keys == a.owner.Keys && a'.calls.Keys == a.calls.Keys
  {
    forall c | 0 <= c < CLASS_COUNT
      ensures Lists(a'.owner, a'.stacks[c], Shared(c))
    {
      StackStep(a, act, a', c);
    }
    forall t | t in a'.calls
      ensures CallOk(a'.owner, t, a'.calls[t])
    {
      CallStep(a, act, a', t);
    }
  }

  lemma StackStep(a: Object, act: Action, a': Object, c: nat)
    requires WellFormed(a) && Step(a, act, a') && c < CLASS_COUNT
    ensures Lists(a'.owner, a'.stacks[c], Shared(c))
  {
    assert Lists(a.owner, a.stacks[c], Shared(c));
    match act
    case CommitPublish(t) =>
      assert CallOk(a.owner, t, a.calls[t]);
      NoDupConcat(a.calls[t].batch, a.stacks[c]);
    case TakeAll(t, d) => assert Lists(a.owner, a.stacks[d], Shared(d));
    case _ =>
  }

  lemma CallStep(a: Object, act: Action, a': Object, t: Tid)
    requires WellFormed(a) && Step(a, act, a') && t in a'.calls
    ensures CallOk(a'.owner, t, a'.calls[t])
  {
    assert CallOk(a.owner, t, a.calls[t]);
    match act
    case CommitPublish(u) => assert CallOk(a.owner, u, a.calls[u]);
    case ReturnTaken(u) => assert CallOk(a.owner, u, a.calls[u]);
    case TakeAll(u, d) => assert Lists(a.owner, a.stacks[d], Shared(d));
    case _ =>
  }

  /** A block inside a call is in no shared stack and in no other thread's call. */
  ghost predicate OnlyHeldBy(a: Object, b: Block, t: Tid) {
    && (forall c :: 0 <= c < |a.stacks| ==> b !in a.stacks[c])
    && (forall u :: u in a.calls && u != t ==> b !in Held(a.calls[u]))
  }

  /** Every batch in flight is disjoint from every shared stack and from every other batch. */
  lemma HeldExclusively(a: Object, t: Tid, b: Block)
    requires WellFormed(a) && t in a.calls && b in Held(a.calls[t])
    ensures OnlyHeldBy(a, b, t)
  {
    assert CallOk(a.owner, t, a.calls[t]);
    forall c | 0 <= c < |a.stacks|
      ensures b !in a.stacks[c]
    {
      assert Lists(a.owner, a.stacks[c], Shared(c));
    }
    forall u | u in a.calls && u != t
      ensures b !in Held(a.calls[u])
    {
      assert CallOk(a.owner, u, a.calls[u]);
    }
  }

  /** A privately owned block is reachable from no head and from no call. */
  lemma PrivateExclusively(a: Object, b: Block)
    requires WellFormed(a) && b in a.owner && a.owner[b].Private?
    ensures forall c :: 0 <= c < |a.stacks| ==> b !in a.stacks[c]
    ensures forall u :: u in a.calls ==> b !in Held(a.calls[u])
  {
    forall c | 0 <= c < |a.stacks|
      ensures b !in a.stacks[c]
    {
      assert Lists(a.owner, a.stacks[c], Shared(c));
    }
    forall u | u in a.calls
      ensures b !in Held(a.calls[u])
    {
      assert CallOk(a.owner, u, a.calls[u]);
    }
  }

  /** In a history, action `k` of thread `t` took the class-`c` stack, and it was exactly `taken`. */
  ghost predicate TookStack(a: Object, acts: seq<Action>, k: nat, t: Tid, c: nat, taken: seq<Block>) {
    && k < |acts| && acts[k] == TakeAll(t, c)
    && c < |After(a, acts, k).stacks| && After(a, acts, k).stacks[c] == taken
  }

  lemma DetachStep(a: Object, act: Action, t: Tid)
    requires Permitted(a, act) && CallOf(Effect(a, act), t).Detaching?
    ensures var call := CallOf(Effect(a, act), t);
            || CallOf(a, t) == call
            || (act == TakeAll(t, call.c) && call.c < |a.stacks| && call.taken == a.stacks[call.c])
  {
  }

  /** What a detach in progress holds is the stack as it stood when the detach took it. */
  lemma {:induction false} DetachTookStack(a: Object, acts: seq<Action>, n: nat, t: Tid)
    requires Init(a) && n <= |acts| && (forall i :: 0 <= i < n ==> Permitted(After(a, acts, i), acts[i]))
    requires CallOf(After(a, acts, n), t).Detaching?
    ensures var call := CallOf(After(a, acts, n), t);
            exists k :: 0 <= k < n && TookStack(a, acts, k, t, call.c, call.taken)
    decreases n
  {
    if n > 0 {
      hide Permitted, Effect, TookStack;
      var call := CallOf(After(a, acts, n), t);
      DetachStep(After(a, acts, n - 1), acts[n - 1], t);
      if CallOf(After(a, acts, n - 1), t) == call {
        DetachTookStack(a, acts, n - 1, t);
      } else {
        TakenNow(a, acts, n - 1, t, call.c, call.taken);
      }
    }
  }

  lemma TakenNow(a: Object, acts: seq<Action>, k: nat, t: Tid, c: nat, taken: seq<Block>)
    requires k < |acts| && acts[k] == TakeAll(t, c) && c < |After(a, acts, k).stacks| && After(a, acts, k).stacks[c] == taken
    ensures TookStack(a, acts, k, t, c, taken)
  {
  }
}
