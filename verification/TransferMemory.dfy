/** What both transfer implementations share: the callers' private lists, and who owns which block. */
module TransferMemory {
  import opened Sequences
  import opened TransferSpec
  import opened Chains

  /** The descriptor a caller may pass: a nonempty private chain whose tail link is arbitrary. */
  ghost predicate PrivateList(next: map<Block, Ptr>, mine: Ownership, t: Tid, batch: seq<Block>) {
    && batch != [] && NoDup(batch) && Segment(next, batch)
    && forall b :: b in batch ==> b in mine && mine[b] == t
  }

  /** Memory and object know the same blocks, and the same threads own the private ones. */
  ghost predicate SameOwners(next: map<Block, Ptr>, mine: Ownership, a: Object) {
    && next.Keys == a.owner.Keys
    && (forall b :: b in mine <==> b in a.owner && a.owner[b].Private?)
    && (forall b :: b in mine ==> a.owner[b].t == mine[b])
  }

  /** The object before any call: every block private. */
  function InitialObject(threads: set<Tid>, mine: Ownership): Object {
    Object(seq(CLASS_COUNT, _ => []), map t | t in threads :: NoCall, map b | b in mine :: Private(mine[b]))
  }

  /** An action that moves blocks only between calls and stacks changes no private ownership. */
  lemma KeptOwners(next: map<Block, Ptr>, next': map<Block, Ptr>, mine: Ownership, a: Object, act: Action)
    requires SameOwners(next, mine, a) && next'.Keys == next.Keys
    requires act.Stutter? || act.CommitPublish? || act.TakeAll?
    requires act.CommitPublish? ==> forall b :: b in Held(CallOf(a, act.t)) ==> b in a.owner && a.owner[b] == Busy(act.t)
    requires act.TakeAll? && act.c < |a.stacks| ==> forall b :: b in a.stacks[act.c] ==> b in a.owner && a.owner[b] == Shared(act.c)
    ensures SameOwners(next', mine, Effect(a, act))
  {
  }
}
