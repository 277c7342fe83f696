/**
 * Blocks, slabs and transfer lists as heap objects that are relinked in place (src/block.h,
 * src/slab.h, src/transfer_list.h). Each list object carries, as a ghost, the sequence of blocks its
 * chain visits.
 */
module HeapLists {
  import opened CheckedMath
  import opened Sequences

  class Slab {
    const cls: nat
    const slots: nat
    const length: Word
    var next: Slab?

    constructor (cls: nat, slots: nat, length: Word)
      ensures this.cls == cls && this.slots == slots && this.length == length && next == null
    {
      this.cls, this.slots, this.length, this.next := cls, slots, length, null;
    }
  }

  class Block {
    const slab: Slab
    const slot: nat
    const capacity: nat
    var nextFree: Block?
    var requestedSize: nat

    constructor (slab: Slab, slot: nat, capacity: nat, nextFree: Block?)
      ensures this.slab == slab && this.slot == slot && this.capacity == capacity
      ensures this.nextFree == nextFree && requestedSize == 0
    {
      this.slab, this.slot, this.capacity, this.nextFree, this.requestedSize := slab, slot, capacity, nextFree, 0;
    }
  }

  function NodeAt(s: seq<Block>, i: nat): Block? {
    if i < |s| then s[i] else null
  }

  /** Following `nextFree` from `first` visits exactly `s` and then reaches null. */
  ghost predicate Chain(first: Block?, s: seq<Block>)
    reads s
  {
    first == NodeAt(s, 0) && forall i {:trigger s[i].nextFree} :: 0 <= i < |s| ==> s[i].nextFree == NodeAt(s, i + 1)
  }

  lemma {:induction false} ChainUnique(first: Block?, s: seq<Block>, r: seq<Block>)
    requires Chain(first, s) && Chain(first, r)
    ensures s == r
    decreases |s|
  {
    if s != [] && r != [] {
      ChainTail(first, s);
      ChainTail(first, r);
      ChainUnique(s[0].nextFree, s[1..], r[1..]);
      assert s == [s[0]] + s[1..] && r == [r[0]] + r[1..];
    }
  }

  lemma ChainTail(first: Block?, s: seq<Block>)
    requires Chain(first, s) && s != []
    ensures Chain(s[0].nextFree, s[1..])
  {
    assert s[0].nextFree == NodeAt(s, 1);
    forall i {:trigger s[1..][i].nextFree} | 0 <= i < |s[1..]|
      ensures s[1..][i].nextFree == NodeAt(s[1..], i + 1)
    {
      assert s[i + 1].nextFree == NodeAt(s, i + 2);
    }
  }

  lemma ChainSuffix(first: Block?, s: seq<Block>, k: nat)
    requires Chain(first, s) && k <= |s|
    ensures Chain(NodeAt(s, k), s[k..])
  {
    forall i {:trigger s[k..][i].nextFree} | 0 <= i < |s[k..]|
      ensures s[k..][i].nextFree == NodeAt(s[k..], i + 1)
    {
      assert s[k + i].nextFree == NodeAt(s, k + i + 1);
    }
  }

  /** A chain that reaches null visits no block twice. */
  lemma {:induction false} ChainAcyclic(first: Block?, s: seq<Block>)
    requires Chain(first, s)
    ensures NoDup(s)
  {
    forall i, j | 0 <= i < j < |s|
      ensures s[i] != s[j]
    {
      if s[i] == s[j] {
        ChainSuffix(first, s, i);
        ChainSuffix(first, s, j);
        ChainUnique(s[i], s[i..], s[j..]);
        assert false;
      }
    }
  }

  /** The descriptor of a private list: `first`, `last`, `count`. */
  class TransferList {
    var first: Block?
    var last: Block?
    var count: nat
    ghost var blocks: seq<Block>

    constructor ()
      ensures Valid() && blocks == []
    {
      first, last, count, blocks := null, null, 0, [];
    }

    /** `first` and `count` describe the chain; `last` may be anything, as in `extract_class`. */
    ghost predicate Linked()
      reads this, blocks
    {
      Chain(first, blocks) && count == |blocks|
    }

    ghost predicate Valid()
      reads this, blocks
    {
      Linked() && last == (if blocks == [] then null else blocks[|blocks| - 1])
    }

    method Clear()
      modifies this
      ensures Valid() && blocks == []
    {
      first, last, count, blocks := null, null, 0, [];
    }

    /** Walks a detached chain to its null end and describes it. */
    method FromChain(head: Block?, ghost s: seq<Block>)
      requires Chain(head, s)
      modifies this
      ensures Valid() && blocks == s && first == head
    {
      var block := head;
      var end: Block? := null;
      var n := 0;
      while block != null
        invariant 0 <= n <= |s| && block == NodeAt(s, n)
        invariant end == (if n == 0 then null else s[n - 1])
        decreases |s| - n
      {
        assert s[n].nextFree == NodeAt(s, n + 1);
        end := block;
        block := block.nextFree;
        n := n + 1;
      }
      first, last, count, blocks := head, end, n, s;
    }

    /**
     * Moves at most `maximum` leading blocks into `output`: the chain is cut in place into its exact
     * prefix and suffix, both null-terminated, with correct first, last and count on both sides.
     */
    method TakePrefix(maximum: nat, output: TransferList)
      requires Linked() && output != this
      modifies this, output, blocks`nextFree
      ensures output.Valid() && Linked()
      ensures var k := if |old(blocks)| < maximum then |old(blocks)| else maximum;
              output.blocks == old(blocks)[..k] && blocks == old(blocks)[k..]
      ensures old(Valid()) ==> Valid()
    {
      output.Clear();
      ghost var s := blocks;
      if first != null && maximum != 0 {
        var k := if count < maximum then count else maximum;
        var end := NthNode(first, k, s);
        var rest := CutAfter(end, s, k);
        output.Become(first, end, k, s[..k]);
        Become(rest, if rest == null then null else last, count - k, s[k..]);
      } else {
        assert s[0..] == s;
      }
    }

    /** Overwrites the descriptor's fields. */
    method Become(first: Block?, last: Block?, count: nat, ghost s: seq<Block>)
      requires Chain(first, s) && count == |s|
      modifies this
      ensures Linked() && this.first == first && this.last == last && this.count == count && blocks == s
    {
      this.first, this.last, this.count, this.blocks := first, last, count, s;
    }
  }

  /** The last block of the prefix of length `n`, found by following `n - 1` links. */
  method NthNode(first: Block, n: nat, ghost s: seq<Block>) returns (end: Block)
    requires Chain(first, s) && 0 < n <= |s|
    ensures end == s[n - 1]
  {
    var taken := n - 1;
    end := first;
    while taken != 0
      invariant 0 <= taken < n && end == s[n - 1 - taken]
    {
      assert s[n - 1 - taken].nextFree == NodeAt(s, n - taken);
      end := end.nextFree;
      taken := taken - 1;
    }
  }

  /** Cuts a chain after its first `k` blocks and returns the head of the rest. */
  method CutAfter(end: Block, ghost s: seq<Block>, ghost k: nat) returns (rest: Block?)
    requires 0 < k <= |s| && end == s[k - 1] && Chain(s[0], s)
    modifies end`nextFree
    ensures Chain(s[0], s[..k]) && Chain(rest, s[k..]) && rest == NodeAt(s, k)
  {
    ChainAcyclic(s[0], s);
    ChainSuffix(s[0], s, k);
    assert s[k - 1].nextFree == NodeAt(s, k);
    rest := end.nextFree;
    end.nextFree := null;
    forall i {:trigger s[..k][i].nextFree} | 0 <= i < k
      ensures s[..k][i].nextFree == NodeAt(s[..k], i + 1)
    {
      assert old(s[i].nextFree) == NodeAt(s, i + 1);
    }
    forall i {:trigger s[k..][i].nextFree} | 0 <= i < |s| - k
      ensures s[k..][i].nextFree == NodeAt(s[k..], i + 1)
    {
      assert s[k + i] != s[k - 1];
      assert old(s[k + i].nextFree) == NodeAt(s, k + i + 1);
    }
  }
}
