/** Null-terminated chains in a memory that maps each block to its `next_free` link. */
module Chains {
  import opened Sequences

  datatype Ptr = Null | At(block: nat)

  function PtrAt(s: seq<nat>, i: nat): Ptr {
    if i < |s| then At(s[i]) else Null
  }

  /** Following links from `p` visits exactly `s` and then ends in null. */
  ghost predicate ChainFrom(next: map<nat, Ptr>, p: Ptr, s: seq<nat>) {
    && p == PtrAt(s, 0)
    && (forall b :: b in s ==> b in next)
    && (forall i {:trigger next[s[i]]} :: 0 <= i < |s| ==> next[s[i]] == PtrAt(s, i + 1))
  }

  /** The links inside `s` are in place; the link of its last block is arbitrary. */
  ghost predicate Segment(next: map<nat, Ptr>, s: seq<nat>) {
    && (forall b :: b in s ==> b in next)
    && (forall i {:trigger next[s[i]]} :: 0 <= i < |s| - 1 ==> next[s[i]] == At(s[i + 1]))
  }

  /** The list descriptor `first`, `last`, `count` of src/transfer_list.h. */
  datatype Desc = Desc(first: Ptr, last: Ptr, count: nat)

  /** `desc` is a complete descriptor of the blocks `s`. */
  ghost predicate Describes(desc: Desc, s: seq<nat>) {
    && desc.count == |s| && desc.first == PtrAt(s, 0)
    && desc.last == (if s == [] then Null else At(s[|s| - 1]))
  }

  function DescOf(s: seq<nat>): (desc: Desc)
    ensures Describes(desc, s)
  {
    if s == [] then Desc(Null, Null, 0) else Desc(At(s[0]), At(s[|s| - 1]), |s|)
  }

  /** A pointer starts at most one null-terminated chain. */
  lemma {:induction false} ChainUnique(next: map<nat, Ptr>, p: Ptr, s: seq<nat>, r: seq<nat>)
    requires ChainFrom(next, p, s) && ChainFrom(next, p, r)
    ensures s == r
    decreases |s|
  {
    if s == [] || r == [] {
    } else {
      ChainTail(next, p, s);
      ChainTail(next, p, r);
      ChainUnique(next, next[s[0]], s[1..], r[1..]);
      assert s == [s[0]] + s[1..] && r == [r[0]] + r[1..];
    }
  }

  /** First block and count determine the blocks of a segment. */
  lemma {:induction false} SegmentUnique(next: map<nat, Ptr>, s: seq<nat>, r: seq<nat>)
    requires Segment(next, s) && Segment(next, r) && DescOf(s) == DescOf(r)
    ensures s == r
    decreases |s|
  {
    if |s| > 1 {
      SegmentTail(next, s);
      SegmentTail(next, r);
      assert next[s[0]] == At(s[1]) && next[r[0]] == At(r[1]);
      SegmentUnique(next, s[1..], r[1..]);
      assert s == [s[0]] + s[1..] && r == [r[0]] + r[1..];
    }
  }

  lemma SegmentTail(next: map<nat, Ptr>, s: seq<nat>)
    requires Segment(next, s) && s != []
    ensures Segment(next, s[1..])
  {
    forall i {:trigger next[s[1..][i]]} | 0 <= i < |s[1..]| - 1
      ensures next[s[1..][i]] == At(s[1..][i + 1])
    {
      assert next[s[i + 1]] == At(s[i + 2]);
    }
  }

  lemma ChainTail(next: map<nat, Ptr>, p: Ptr, s: seq<nat>)
    requires ChainFrom(next, p, s) && s != []
    ensures ChainFrom(next, next[s[0]], s[1..])
  {
    forall i | 0 <= i < |s| - 1
      ensures s[1..][i] in next && next[s[1..][i]] == PtrAt(s[1..], i + 1)
    {
      assert s[1..][i] == s[i + 1];
    }
  }

  lemma {:induction false} ChainSuffix(next: map<nat, Ptr>, p: Ptr, s: seq<nat>, k: nat)
    requires ChainFrom(next, p, s) && k <= |s|
    ensures ChainFrom(next, PtrAt(s, k), s[k..])
  {
    forall i | 0 <= i < |s| - k
      ensures s[k..][i] in next && next[s[k..][i]] == PtrAt(s[k..], i + 1)
    {
      assert s[k..][i] == s[k + i];
    }
  }

  /** A null-terminated chain cannot visit a block twice: it is acyclic. */
  lemma {:induction false} ChainAcyclic(next: map<nat, Ptr>, p: Ptr, s: seq<nat>)
    requires ChainFrom(next, p, s)
    ensures NoDup(s)
  {
    forall i, j | 0 <= i < j < |s|
      ensures s[i] != s[j]
    {
      if s[i] == s[j] {
        ChainSuffix(next, p, s, i);
        ChainSuffix(next, p, s, j);
        ChainUnique(next, At(s[i]), s[i..], s[j..]);
        assert false;
      }
    }
  }

  lemma ChainPrepend(next: map<nat, Ptr>, batch: seq<nat>, p: Ptr, s: seq<nat>)
    requires batch != [] && Segment(next, batch) && next[batch[|batch| - 1]] == p && ChainFrom(next, p, s)
    ensures ChainFrom(next, At(batch[0]), batch + s)
  {
    var r := batch + s;
    forall i | 0 <= i < |r|
      ensures r[i] in next && next[r[i]] == PtrAt(r, i + 1)
    {
      if i < |batch| - 1 {
        assert r[i] == batch[i];
      } else if i == |batch| - 1 {
        assert r[i] == batch[i];
      } else {
        assert r[i] == s[i - |batch|];
      }
    }
  }

  /** Rewriting the link of a block off the chain leaves the chain as it was. */
  lemma Frame(next: map<nat, Ptr>, next': map<nat, Ptr>, b: nat, p: Ptr, s: seq<nat>)
    requires ChainFrom(next, p, s) && b !in s
    requires next.Keys <= next'.Keys && forall x :: x in next && x != b ==> next'[x] == next[x]
    ensures ChainFrom(next', p, s)
  {
  }
}
