/**
 * Slab creation and the quiescent trimmer on heap objects (src/slab.c:52-64, src/allocator.c:376-508):
 * the registry is walked by a link to the link, free lists are split and rejoined in place, and any
 * unmap may fail.
 */
module HeapTrim {
  import opened CheckedMath
  import opened Sequences
  import opened SizeClasses
  import opened HeapLists
  import opened HeapCache

  // ---- Slab creation ----

  /** A fresh slab and its chain of fresh blocks, one per slot, the last slot first. */
  method CreateSlab(cls: nat, slots: nat, length: Word) returns (slab: Slab, head: Block?, ghost s: seq<Block>)
    requires cls < CLASS_COUNT
    ensures fresh(slab) && slab.cls == cls && slab.slots == slots && slab.length == length && slab.next == null
    ensures Chain(head, s) && fresh(s) && OfClass(s, cls)
    ensures |s| == slots && forall i :: 0 <= i < slots ==> s[i].slab == slab && s[i].slot == slots - 1 - i
  {
    slab := new Slab(cls, slots, length);
    head, s := null, [];
    for index := 0 to slots
      invariant Chain(head, s) && fresh(s) && OfClass(s, cls) && |s| == index && slab.next == null
      invariant forall i :: 0 <= i < index ==> s[i].slab == slab && s[i].slot == index - 1 - i
    {
      var block := new Block(slab, index, Capacity(cls), head);
      LinkChain([block], head, s);
      head, s := block, [block] + s;
    }
  }

  // ---- Splitting a free list by slab ----

  /** The blocks of `slab`, in reverse order. */
  function BackwardsOf(s: seq<Block>, slab: Slab): (r: seq<Block>)
    ensures forall b :: b in r ==> b in s && b.slab == slab
    ensures forall b :: b in s && b.slab == slab ==> b in r
  {
    if s == [] then []
    else
      var n := |s| - 1;
      assert s == s[..n] + [s[n]];
      (if s[n].slab == slab then [s[n]] else []) + BackwardsOf(s[..n], slab)
  }

  /** The blocks of every other slab, in reverse order. */
  function BackwardsOthers(s: seq<Block>, slab: Slab): (r: seq<Block>)
    ensures forall b :: b in r ==> b in s && b.slab != slab
    ensures forall b :: b in s && b.slab != slab ==> b in r
  {
    if s == [] then []
    else
      var n := |s| - 1;
      assert s == s[..n] + [s[n]];
      (if s[n].slab != slab then [s[n]] else []) + BackwardsOthers(s[..n], slab)
  }

  /** The blocks of one slab in a list. */
  function SlabBlocks(s: seq<Block>, slab: Slab): set<Block> {
    set b | b in s && b.slab == slab
  }

  /** `r` is a permutation of the blocks of `s` whose slab is not in `gone`. */
  ghost predicate Permutes(r: seq<Block>, s: seq<Block>, gone: set<Slab>) {
    NoDup(r) && ToSet(r) == set b | b in s && b.slab !in gone
  }

  lemma {:induction false} PartsOfList(s: seq<Block>, slab: Slab)
    requires NoDup(s)
    ensures NoDup(BackwardsOf(s, slab)) && ToSet(BackwardsOf(s, slab)) == SlabBlocks(s, slab)
    ensures NoDup(BackwardsOthers(s, slab)) && ToSet(BackwardsOthers(s, slab)) == ToSet(s) - SlabBlocks(s, slab)
  {
    if s != [] {
      var n := |s| - 1;
      PartsOfList(s[..n], slab);
      assert s == s[..n] + [s[n]];
      assert s[n] !in s[..n];
    }
  }

  /** Counting along the list counts the set. */
  lemma CountOfList(s: seq<Block>, slab: Slab)
    requires NoDup(s)
    ensures |BackwardsOf(s, slab)| == |SlabBlocks(s, slab)|
  {
    PartsOfList(s, slab);
    NoDupCardinality(BackwardsOf(s, slab));
  }

  /** Reordering and releasing other slabs do not change what a slab has in the list. */
  lemma OtherSlabsUntouched(r: seq<Block>, s: seq<Block>, gone: set<Slab>, slab: Slab)
    requires Permutes(r, s, gone) && slab !in gone
    ensures SlabBlocks(r, slab) == SlabBlocks(s, slab)
  {
    forall b: Block
      ensures b in SlabBlocks(r, slab) <==> b in SlabBlocks(s, slab)
    {
      assert b in ToSet(r) <==> b in s && b.slab !in gone;
    }
  }

  /** Releasing one more slab removes exactly its blocks. */
  lemma ReleaseRemovesBlocks(r: seq<Block>, s: seq<Block>, gone: set<Slab>, slab: Slab)
    requires Permutes(r, s, gone)
    ensures Permutes(BackwardsOthers(r, slab), s, gone + {slab})
  {
    PartsOfList(r, slab);
    var p := BackwardsOthers(r, slab);
    forall b: Block
      ensures b in ToSet(p) <==> b in s && b.slab !in gone + {slab}
    {
      assert b in ToSet(r) <==> b in s && b.slab !in gone;
    }
  }

  /** Splitting a list by slab and joining the parts again only reorders it. */
  lemma SplitJoinPermutes(r: seq<Block>, s: seq<Block>, gone: set<Slab>, slab: Slab)
    requires Permutes(r, s, gone)
    ensures Disjoint(BackwardsOf(r, slab), BackwardsOthers(r, slab))
    ensures Permutes(BackwardsOf(r, slab) + BackwardsOthers(r, slab), s, gone)
  {
    PartsOfList(r, slab);
    var p, q := BackwardsOf(r, slab), BackwardsOthers(r, slab);
    NoDupConcat(p, q);
    forall b: Block
      ensures b in ToSet(p + q) <==> b in ToSet(r)
    {
      assert b in p + q <==> b in ToSet(p) || b in ToSet(q);
    }
  }

  /** Counts the blocks of a slab on its class's free list. */
  method SlabFreeCount(slab: Slab, head: Block?, ghost s: seq<Block>) returns (count: nat)
    requires Chain(head, s)
    ensures count == |SlabBlocks(s, slab)|
  {
    ChainAcyclic(head, s);
    CountOfList(s, slab);
    var block := head;
    ghost var n := 0;
    count := 0;
    assert BackwardsOf(s[..0], slab) == [];
    hide BackwardsOf, BackwardsOthers;
    while block != null
      invariant 0 <= n <= |s| && block == NodeAt(s, n) && count == |BackwardsOf(s[..n], slab)|
      decreases |s| - n
    {
      OneMore(s, n, slab);
      assert s[n].nextFree == NodeAt(s, n + 1);
      if block.slab == slab {
        count := count + 1;
      }
      block, n := block.nextFree, n + 1;
    }
    assert s[..n] == s;
  }

  lemma OneMore(s: seq<Block>, n: nat, slab: Slab)
    requires n < |s| && NoDup(s)
    ensures s[n] !in s[..n]
    ensures s[n].slab == slab ==> BackwardsOf(s[..n + 1], slab) == [s[n]] + BackwardsOf(s[..n], slab)
    ensures s[n].slab != slab ==> BackwardsOf(s[..n + 1], slab) == BackwardsOf(s[..n], slab)
    ensures s[n].slab != slab ==> BackwardsOthers(s[..n + 1], slab) == [s[n]] + BackwardsOthers(s[..n], slab)
    ensures s[n].slab == slab ==> BackwardsOthers(s[..n + 1], slab) == BackwardsOthers(s[..n], slab)
  {
    assert s[..n + 1][..n] == s[..n];
  }

  method PushFront(block: Block, head: Block?, ghost s: seq<Block>)
    requires Chain(head, s) && block !in s
    modifies block`nextFree
    ensures Chain(block, [block] + s)
  {
    block.nextFree := head;
    assert Chain(head, s);
    LinkChain([block], head, s);
  }

  /** Moves the first block of a chain in front of one of two others. */
  method MoveFirst(block: Block, slab: Slab, removed: Block?, remaining: Block?,
                   ghost s: seq<Block>, ghost of: seq<Block>, ghost others: seq<Block>)
    returns (next: Block?, removed': Block?, remaining': Block?)
    requires s != [] && Chain(block, s) && NoDup(s)
    requires Chain(removed, of) && Chain(remaining, others) && block !in of && block !in others
    modifies block`nextFree
    ensures Chain(next, s[1..])
    ensures Chain(removed', if block.slab == slab then [block] + of else of)
    ensures Chain(remaining', if block.slab == slab then others else [block] + others)
  {
    ghost var rest := s[1..];
    ChainTail(block, s);
    assert block == s[0] && block !in rest;
    next, removed', remaining' := block.nextFree, removed, remaining;
    if block.slab == slab {
      PushFront(block, removed, of);
      removed' := block;
    } else {
      PushFront(block, remaining, others);
      remaining' := block;
    }
    assert forall b :: b in rest ==> b.nextFree == old(b.nextFree);
  }

  /** Splits a free list in place into the blocks of `slab` and the others; both come out reversed. */
  method DetachSlabBlocks(slab: Slab, head: Block?, ghost s: seq<Block>) returns (removed: Block?, remaining: Block?)
    requires Chain(head, s)
    modifies s`nextFree
    ensures Chain(removed, BackwardsOf(s, slab)) && Chain(remaining, BackwardsOthers(s, slab))
  {
    ChainAcyclic(head, s);
    var block := head;
    ghost var n, rest := 0, s;
    removed, remaining := null, null;
    while block != null
      invariant 0 <= n <= |s| && rest == s[n..] && Chain(block, rest)
      invariant Chain(removed, BackwardsOf(s[..n], slab)) && Chain(remaining, BackwardsOthers(s[..n], slab))
      decreases |rest|
    {
      OneMore(s, n, slab);
      assert block == s[n];
      block, removed, remaining :=
        MoveFirst(block, slab, removed, remaining, rest, BackwardsOf(s[..n], slab), BackwardsOthers(s[..n], slab));
      rest, n := rest[1..], n + 1;
    }
    assert s[..n] == s;
  }

  /** Appends the second chain to the first. */
  method JoinFreeLists(first: Block?, second: Block?, ghost a: seq<Block>, ghost b: seq<Block>) returns (head: Block?)
    requires Chain(first, a) && Chain(second, b) && Disjoint(a, b)
    modifies a`nextFree
    ensures Chain(head, a + b)
  {
    if first == null {
      assert a + b == b;
      return second;
    }
    ChainAcyclic(first, a);
    var tail := first;
    ghost var n := 0;
    while tail.nextFree != null
      invariant 0 <= n < |a| && tail == a[n]
      decreases |a| - n
    {
      assert a[n].nextFree == NodeAt(a, n + 1);
      tail, n := tail.nextFree, n + 1;
    }
    assert a[n].nextFree == NodeAt(a, n + 1);
    assert tail in a && tail !in b;
    tail.nextFree := second;
    SegmentKept(a);
    LinkChain(a, second, b);
    head := first;
  }

  // ---- The registry ----

  function SlabAt(s: seq<Slab>, i: nat): Slab? {
    if i < |s| then s[i] else null
  }

  /** The slab before position `n`; null stands for the registry's own head field. */
  function Before(s: seq<Slab>, n: nat): Slab?
    requires n <= |s|
  {
    if n == 0 then null else s[n - 1]
  }

  class Registry {
    var slabs: Slab?
    ghost var order: seq<Slab>

    constructor ()
      ensures Valid() && order == []
    {
      slabs, order := null, [];
    }

    ghost predicate Valid()
      reads this, order
    {
      && slabs == SlabAt(order, 0) && NoDup(order)
      && (forall i {:trigger order[i].next} :: 0 <= i < |order| ==> order[i].next == SlabAt(order, i + 1))
      && (forall slab :: slab in order ==> slab.cls < CLASS_COUNT)
    }

    /** Puts a new slab in front. */
    method Add(slab: Slab)
      requires Valid() && slab !in order && slab.cls < CLASS_COUNT
      modifies this, slab`next
      ensures Valid() && order == [slab] + old(order)
    {
      ghost var s := order;
      slab.next := slabs;
      slabs, order := slab, [slab] + s;
      NoDupConcat([slab], s);
      forall i {:trigger order[i].next} | 0 <= i < |order|
        ensures order[i].next == SlabAt(order, i + 1)
      {
        if i > 0 {
          assert s[i - 1].next == SlabAt(s, i);
        }
      }
    }

    /** What the registry link before position `n` points at. */
    method Target(prev: Slab?, ghost n: nat) returns (slab: Slab?)
      requires Valid() && n <= |order| && prev == Before(order, n)
      ensures slab == SlabAt(order, n)
    {
      if prev == null {
        slab := slabs;
      } else {
        assert order[n - 1].next == SlabAt(order, n);
        slab := prev.next;
      }
    }

    method SetLink(prev: Slab?, slab: Slab?)
      modifies this`slabs, (if prev == null then {} else {prev})`next
      ensures if prev == null then slabs == slab else prev.next == slab && slabs == old(slabs)
    {
      if prev == null {
        slabs := slab;
      } else {
        prev.next := slab;
      }
    }

    /** Unlinks the slab at position `n` through the link before it. */
    method Unlink(prev: Slab?, slab: Slab, ghost n: nat)
      requires Valid() && n < |order| && slab == order[n] && prev == Before(order, n)
      modifies this, (if prev == null then {} else {prev})`next
      ensures Valid() && order == old(order[..n] + order[n + 1..])
      ensures prev == Before(order, n) && slab !in order
    {
      ghost var s := order;
      assert s[n].next == SlabAt(s, n + 1);
      SetLink(prev, slab.next);
      order := s[..n] + s[n + 1..];
      forall i {:trigger order[i].next} | 0 <= i < |order|
        ensures order[i].next == SlabAt(order, i + 1)
      {
        var j := if i < n then i else i + 1;
        assert order[i] == s[j];
        assert old(s[j].next) == SlabAt(s, j + 1);
        assert j != n - 1 ==> s[j] != prev;
      }
    }

    /** Links a slab back in after the link before position `n`. */
    method Relink(prev: Slab?, slab: Slab, ghost n: nat)
      requires Valid() && n <= |order| && slab !in order && slab.cls < CLASS_COUNT && prev == Before(order, n)
      modifies this, slab`next, (if prev == null then {} else {prev})`next
      ensures Valid() && order == old(order[..n] + [slab] + order[n..])
    {
      ghost var s := order;
      var next := Target(prev, n);
      slab.next := next;
      SetLink(prev, slab);
      order := s[..n] + [slab] + s[n..];
      forall i {:trigger order[i].next} | 0 <= i < |order|
        ensures order[i].next == SlabAt(order, i + 1)
      {
        if i != n {
          var j := if i < n then i else i - 1;
          assert order[i] == s[j];
          assert old(s[j].next) == SlabAt(s, j + 1);
          assert j != n - 1 ==> s[j] != prev;
        }
      }
    }
  }

  // ---- Trimming ----

  /** The free lists hold as many blocks of the slab as it has slots. */
  ghost predicate WhollyFree(slab: Slab, lists: seq<seq<Block>>) {
    slab.cls < |lists| && |SlabBlocks(lists[slab.cls], slab)| == slab.slots
  }

  ghost function SlotNumbers(blocks: set<Block>): set<nat> {
    set b | b in blocks :: b.slot
  }

  ghost predicate HoldsSlot(s: seq<Block>, slab: Slab, k: nat) {
    exists b :: b in s && b.slab == slab && b.slot == k
  }

  lemma {:induction false} DistinctSlots(blocks: set<Block>)
    requires forall a, b :: a in blocks && b in blocks && a.slot == b.slot ==> a == b
    ensures |SlotNumbers(blocks)| == |blocks|
    decreases |blocks|
  {
    if blocks != {} {
      var b :| b in blocks;
      DistinctSlots(blocks - {b});
      assert SlotNumbers(blocks) == SlotNumbers(blocks - {b}) + {b.slot};
    }
  }

  /**
   * With one block object per slot, the count the trimmer compares reaches the slot count exactly when
   * every slot of the slab is in the list, so a slab with a block in use anywhere else is never released.
   */
  lemma WhollyFreeIffEverySlot(slab: Slab, lists: seq<seq<Block>>)
    requires slab.cls < |lists|
    requires forall b :: b in SlabBlocks(lists[slab.cls], slab) ==> b.slot < slab.slots
    requires forall a, b :: a in SlabBlocks(lists[slab.cls], slab) && b in SlabBlocks(lists[slab.cls], slab) && a.slot == b.slot
                            ==> a == b
    ensures WhollyFree(slab, lists)
            <==> forall k: nat :: k < slab.slots ==> HoldsSlot(lists[slab.cls], slab, k)
  {
    var blocks := SlabBlocks(lists[slab.cls], slab);
    var slots := SlotNumbers(blocks);
    DistinctSlots(blocks);
    assert slots <= Below(slab.slots);
    if WhollyFree(slab, lists) {
      SubsetOfSameSize(slots, Below(slab.slots));
      forall k: nat | k < slab.slots
        ensures HoldsSlot(lists[slab.cls], slab, k)
      {
        assert k in slots;
      }
    }
    if forall k: nat :: k < slab.slots ==> HoldsSlot(lists[slab.cls], slab, k) {
      forall k: nat | k in Below(slab.slots)
        ensures k in slots
      {
        assert HoldsSlot(lists[slab.cls], slab, k);
        var b: Block :| b in lists[slab.cls] && b.slab == slab && b.slot == k;
        assert b in blocks;
      }
      assert slots == Below(slab.slots);
    }
  }

  /** The slabs that a trim releases, in registry order: wholly free, and the unmap succeeds. */
  ghost function Released(order: seq<Slab>, lists: seq<seq<Block>>, fails: set<Slab>): (r: seq<Slab>)
    ensures forall slab :: slab in r ==> slab in order
  {
    if order == [] then []
    else
      var n := |order| - 1;
      Released(order[..n], lists, fails)
      + (if WhollyFree(order[n], lists) && order[n] !in fails then [order[n]] else [])
  }

  /** The slabs that stay registered, in registry order. */
  ghost function Remaining(order: seq<Slab>, lists: seq<seq<Block>>, fails: set<Slab>): seq<Slab> {
    if order == [] then []
    else
      var n := |order| - 1;
      Remaining(order[..n], lists, fails)
      + (if WhollyFree(order[n], lists) && order[n] !in fails then [] else [order[n]])
  }

  ghost function TotalLength(s: seq<Slab>): nat {
    if s == [] then 0 else TotalLength(s[..|s| - 1]) + s[|s| - 1].length
  }

  function Saturated(n: nat): Word {
    if n <= SIZE_MAX then n else SIZE_MAX
  }

  /** The checked addition, with the largest word in place of a failure. */
  function AddSaturating(total: Word, length: Word): Word {
    match Add(total, length)
    case Some(sum) => sum
    case None => SIZE_MAX
  }

  /** Takes the slab's blocks off its class chain. */
  method SplitClass(free: ClassChains, slab: Slab) returns (removed: Block?)
    requires free.Valid() && slab.cls < CLASS_COUNT
    modifies free, free.heads, free.lists[slab.cls]`nextFree
    ensures free.Valid() && free.lists == old(free.lists)[slab.cls := BackwardsOthers(old(free.lists)[slab.cls], slab)]
    ensures Chain(removed, BackwardsOf(old(free.lists)[slab.cls], slab))
  {
    var c := slab.cls;
    assert free.ClassValid(c);
    ghost var s := free.lists[c];
    var remaining;
    removed, remaining := DetachSlabBlocks(slab, free.heads[c], s);
    free.KeptBut(c);
    ghost var of := BackwardsOf(s, slab);
    label Split:
    free.Set(c, remaining, BackwardsOthers(s, slab));
    assert forall b :: b in of ==> b.nextFree == old@Split(b.nextFree);
  }

  /** Joins the removed blocks with what is left of the class chain. */
  method PutBack(free: ClassChains, c: nat, removed: Block?, ghost of: seq<Block>)
    requires free.Valid() && c < CLASS_COUNT && Chain(removed, of) && OfClass(of, c) && Disjoint(of, free.lists[c])
    modifies free, free.heads, of`nextFree
    ensures free.Valid() && free.lists == old(free.lists)[c := of + old(free.lists)[c]]
  {
    assert free.ClassValid(c);
    free.Elsewhere(of, c);
    ghost var s := free.lists[c];
    var head := JoinFreeLists(removed, free.heads[c], of, s);
    free.KeptBut(c);
    free.Set(c, head, of + s);
  }

  ghost predicate AllPermute(lists: seq<seq<Block>>, before: seq<seq<Block>>, gone: set<Slab>) {
    && |lists| == |before|
    && forall c {:trigger lists[c]} {:trigger before[c]} :: 0 <= c < |lists| ==> Permutes(lists[c], before[c], gone)
  }

  ghost predicate OfClasses(lists: seq<seq<Block>>) {
    |lists| == CLASS_COUNT && forall c {:trigger lists[c]} :: 0 <= c < CLASS_COUNT ==> OfClass(lists[c], c)
  }

  lemma ReleaseRemovesFromClass(lists: seq<seq<Block>>, before: seq<seq<Block>>, gone: set<Slab>, slab: Slab)
    requires OfClasses(before) && AllPermute(lists, before, gone) && slab.cls < CLASS_COUNT
    ensures AllPermute(lists[slab.cls := BackwardsOthers(lists[slab.cls], slab)], before, gone + {slab})
  {
    var c := slab.cls;
    ReleaseRemovesBlocks(lists[c], before[c], gone, slab);
    forall d | 0 <= d < |lists| && d != c
      ensures Permutes(lists[d], before[d], gone + {slab})
    {
      assert OfClass(before[d], d) && Permutes(lists[d], before[d], gone);
      assert (set b | b in before[d] && b.slab !in gone) == set b | b in before[d] && b.slab !in gone + {slab};
    }
  }

  lemma PutBackOnlyReorders(lists: seq<seq<Block>>, before: seq<seq<Block>>, gone: set<Slab>, slab: Slab)
    requires AllPermute(lists, before, gone) && slab.cls < |lists|
    ensures var c := slab.cls;
            var of, others := BackwardsOf(lists[c], slab), BackwardsOthers(lists[c], slab);
            Disjoint(of, others) && AllPermute(lists[c := of + others], before, gone)
  {
    SplitJoinPermutes(lists[slab.cls], before[slab.cls], gone, slab);
  }

  lemma PutBackAt(s: seq<Slab>, k: nat)
    requires k < |s|
    ensures var r := s[..k] + s[k + 1..]; r[..k] + [s[k]] + r[k..] == s
  {
  }

  /** A failed unmap restores both reachable structures. */
  method Restore(registry: Registry, free: ClassChains, prev: Slab?, slab: Slab, removed: Block?,
                 ghost of: seq<Block>, ghost k: nat)
    requires registry.Valid() && k <= |registry.order| && slab !in registry.order && prev == Before(registry.order, k)
    requires free.Valid() && slab.cls < CLASS_COUNT && OfClass(of, slab.cls) && Disjoint(of, free.lists[slab.cls])
    requires Chain(removed, of)
    modifies registry, (if prev == null then {} else {prev})`next, slab`next, free, free.heads, of`nextFree
    ensures registry.Valid() && registry.order == old(registry.order[..k] + [slab] + registry.order[k..])
    ensures free.Valid() && free.lists == old(free.lists)[slab.cls := of + old(free.lists)[slab.cls]]
  {
    PutBack(free, slab.cls, removed, of);
    registry.Relink(prev, slab, k);
  }

  /** Unlinks the slab from the registry and its blocks from their free list. */
  method TakeOut(registry: Registry, free: ClassChains, prev: Slab?, slab: Slab, ghost k: nat) returns (removed: Block?)
    requires registry.Valid() && k < |registry.order| && slab == registry.order[k] && prev == Before(registry.order, k)
    requires free.Valid()
    modifies registry, (if prev == null then {} else {prev})`next, free, free.heads, free.lists[slab.cls]`nextFree
    ensures registry.Valid() && registry.order == old(registry.order[..k] + registry.order[k + 1..])
    ensures prev == Before(registry.order, k) && slab !in registry.order
    ensures free.Valid() && free.lists == old(free.lists)[slab.cls := BackwardsOthers(old(free.lists)[slab.cls], slab)]
    ensures Chain(removed, BackwardsOf(old(free.lists)[slab.cls], slab))
  {
    ghost var of := BackwardsOf(free.lists[slab.cls], slab);
    hide BackwardsOf, BackwardsOthers, OfClass;
    removed := SplitClass(free, slab);
    label Split:
    registry.Unlink(prev, slab, k);
    assert forall b :: b in of ==> b.nextFree == old@Split(b.nextFree);
  }

  /** Takes a wholly free slab out of both structures, and puts it back when its unmap fails. */
  method Release(registry: Registry, free: ClassChains, prev: Slab?, slab: Slab, fails: set<Slab>, ghost k: nat)
    returns (released: bool, link: Slab?)
    requires registry.Valid() && k < |registry.order| && slab == registry.order[k] && prev == Before(registry.order, k)
    requires free.Valid()
    requires Disjoint(BackwardsOf(free.lists[slab.cls], slab), BackwardsOthers(free.lists[slab.cls], slab))
    modifies registry, ToSet(registry.order)`next, free, free.heads, Nodes(free.lists)`nextFree
    ensures registry.Valid() && free.Valid()
    ensures released <==> slab !in fails
    ensures released ==> link == prev && registry.order == old(registry.order[..k] + registry.order[k + 1..])
                         && free.lists == old(free.lists)[slab.cls := BackwardsOthers(old(free.lists)[slab.cls], slab)]
    ensures !released ==> link == slab && registry.order == old(registry.order)
                          && free.lists == old(free.lists)[slab.cls := BackwardsOf(old(free.lists)[slab.cls], slab)
                                                                      + BackwardsOthers(old(free.lists)[slab.cls], slab)]
  {
    assert free.ClassValid(slab.cls);
    ghost var s := free.lists[slab.cls];
    ghost var of := BackwardsOf(s, slab);
    assert OfClass(of, slab.cls) && forall b :: b in of ==> b in Nodes(free.lists);
    PutBackAt(registry.order, k);
    assert slab in ToSet(registry.order) && (prev != null ==> prev in ToSet(registry.order));
    hide OfClass, BackwardsOf, BackwardsOthers;
    var removed := TakeOut(registry, free, prev, slab, k);
    if slab !in fails {
      released, link := true, prev;
    } else {
      Restore(registry, free, prev, slab, removed, of, k);
      released, link := false, slab;
    }
  }

  /** Visits one slab: keeps it and moves the link on, or releases it and leaves the link where it is. */
  method Visit(registry: Registry, free: ClassChains, prev: Slab?, slab: Slab, fails: set<Slab>,
               ghost k: nat, ghost before: seq<seq<Block>>, ghost gone: set<Slab>)
    returns (released: bool, link: Slab?)
    requires registry.Valid() && k < |registry.order| && slab == registry.order[k] && prev == Before(registry.order, k)
    requires free.Valid() && OfClasses(before) && AllPermute(free.lists, before, gone) && slab !in gone
    modifies registry, ToSet(registry.order)`next, free, free.heads, Nodes(free.lists)`nextFree
    ensures registry.Valid() && free.Valid() && Nodes(free.lists) <= old(Nodes(free.lists))
    ensures released <==> WhollyFree(slab, before) && slab !in fails
    ensures link == (if released then prev else slab)
    ensures registry.order == if released then old(registry.order[..k] + registry.order[k + 1..]) else old(registry.order)
    ensures AllPermute(free.lists, before, gone + (if released then {slab} else {}))
  {
    var c := slab.cls;
    assert free.ClassValid(c);
    ghost var lists := free.lists;
    var count := SlabFreeCount(slab, free.heads[c], lists[c]);
    OtherSlabsUntouched(lists[c], before[c], gone, slab);
    assert gone + {} == gone;
    if count != slab.slots {
      return false, slab;
    }
    ReleaseRemovesFromClass(lists, before, gone, slab);
    PutBackOnlyReorders(lists, before, gone, slab);
    hide AllPermute, OfClasses, WhollyFree;
    released, link := Release(registry, free, prev, slab, fails, k);
  }

  /** One more slab of the original order joins the released or the kept ones. */
  lemma OneMoreVisited(order: seq<Slab>, n: nat, lists: seq<seq<Block>>, fails: set<Slab>)
    requires n < |order|
    ensures WhollyFree(order[n], lists) && order[n] !in fails
            ==> Released(order[..n + 1], lists, fails) == Released(order[..n], lists, fails) + [order[n]]
                && Remaining(order[..n + 1], lists, fails) == Remaining(order[..n], lists, fails)
    ensures !(WhollyFree(order[n], lists) && order[n] !in fails)
            ==> Released(order[..n + 1], lists, fails) == Released(order[..n], lists, fails)
                && Remaining(order[..n + 1], lists, fails) == Remaining(order[..n], lists, fails) + [order[n]]
  {
    assert order[..n + 1][..n] == order[..n];
  }

  /** The state of the loop after `n` slabs of the original registry, `k` of which stay. */
  ghost predicate Progress(current: seq<Slab>, now: seq<seq<Block>>, total: Word,
                           order: seq<Slab>, before: seq<seq<Block>>, fails: set<Slab>, n: nat, k: nat) {
    && n <= |order| && k == |Remaining(order[..n], before, fails)|
    && current == Remaining(order[..n], before, fails) + order[n..]
    && AllPermute(now, before, ToSet(Released(order[..n], before, fails)))
    && total == Saturated(TotalLength(Released(order[..n], before, fails)))
  }

  lemma NextTarget(current: seq<Slab>, now: seq<seq<Block>>, total: Word,
                   order: seq<Slab>, before: seq<seq<Block>>, fails: set<Slab>, n: nat, k: nat)
    requires Progress(current, now, total, order, before, fails, n, k) && k < |current| && NoDup(order)
    ensures n < |order| && current[k] == order[n] && current[k] !in Released(order[..n], before, fails)
    ensures AllPermute(now, before, ToSet(Released(order[..n], before, fails)))
  {
  }

  lemma DropMiddle(kept: seq<Slab>, order: seq<Slab>, n: nat)
    requires n < |order|
    ensures var current := kept + order[n..];
            current[..|kept|] + current[|kept| + 1..] == kept + order[n + 1..]
  {
  }

  lemma ProgressKeeps(current: seq<Slab>, now: seq<seq<Block>>, next: seq<seq<Block>>, total: Word,
                      order: seq<Slab>, before: seq<seq<Block>>, fails: set<Slab>, n: nat, k: nat)
    requires Progress(current, now, total, order, before, fails, n, k) && k < |current|
    requires n < |order| && current[k] == order[n] && !(WhollyFree(order[n], before) && order[n] !in fails)
    requires AllPermute(next, before, ToSet(Released(order[..n], before, fails)))
    ensures Progress(current, next, total, order, before, fails, n + 1, k + 1)
  {
    OneMoreVisited(order, n, before, fails);
    var kept := Remaining(order[..n], before, fails);
    hide AllPermute, Remaining, Released, WhollyFree;
    assert order[n..] == [order[n]] + order[n + 1..];
    assert kept + order[n..] == kept + [order[n]] + order[n + 1..];
  }

  lemma ProgressReleases(current: seq<Slab>, now: seq<seq<Block>>, next: seq<seq<Block>>, total: Word, sum: Word,
                         order: seq<Slab>, before: seq<seq<Block>>, fails: set<Slab>, n: nat, k: nat)
    requires Progress(current, now, total, order, before, fails, n, k) && k < |current|
    requires n < |order| && current[k] == order[n] && WhollyFree(order[n], before) && order[n] !in fails
    requires AllPermute(next, before, ToSet(Released(order[..n], before, fails)) + {order[n]})
    requires sum == Saturated(total + order[n].length)
    ensures Progress(current[..k] + current[k + 1..], next, sum, order, before, fails, n + 1, k)
  {
    OneMoreVisited(order, n, before, fails);
    var released := Released(order[..n], before, fails);
    TotalLengthAppend(released, order[n]);
    assert ToSet(released) + {order[n]} == ToSet(released + [order[n]]);
    var kept := Remaining(order[..n], before, fails);
    hide AllPermute, Remaining, Released, WhollyFree;
    DropMiddle(kept, order, n);
  }

  lemma TotalLengthAppend(s: seq<Slab>, slab: Slab)
    ensures TotalLength(s + [slab]) == TotalLength(s) + slab.length
  {
    assert (s + [slab])[..|s|] == s;
  }

  /** Both structures are sound, the link and its target stand at position `k`, and `Progress` holds. */
  ghost predicate Standing(registry: Registry, free: ClassChains, link: Slab?, target: Slab?, total: Word,
                           order: seq<Slab>, before: seq<seq<Block>>, fails: set<Slab>, n: nat, k: nat)
    reads registry, registry.order, free, free.heads, Nodes(free.lists)
  {
    && registry.Valid() && free.Valid() && OfClasses(before) && NoDup(order)
    && k <= |registry.order| && link == Before(registry.order, k) && target == SlabAt(registry.order, k)
    && Progress(registry.order, free.lists, total, order, before, fails, n, k)
  }

  lemma ProgressNext(current: seq<Slab>, after: seq<Slab>, now: seq<seq<Block>>, next: seq<seq<Block>>, total: Word,
                     sum: Word, order: seq<Slab>, before: seq<seq<Block>>, fails: set<Slab>, n: nat, k: nat, gone: bool)
    requires Progress(current, now, total, order, before, fails, n, k) && k < |current|
    requires n < |order| && current[k] == order[n]
    requires gone <==> WhollyFree(order[n], before) && order[n] !in fails
    requires after == if gone then current[..k] + current[k + 1..] else current
    requires sum == if gone then AddSaturating(total, order[n].length) else total
    requires AllPermute(next, before, ToSet(Released(order[..n], before, fails)) + (if gone then {order[n]} else {}))
    ensures Progress(after, next, sum, order, before, fails, n + 1, if gone then k else k + 1)
  {
    if gone {
      ProgressReleases(current, now, next, total, sum, order, before, fails, n, k);
    } else {
      assert ToSet(Released(order[..n], before, fails)) + {} == ToSet(Released(order[..n], before, fails));
      ProgressKeeps(current, now, next, total, order, before, fails, n, k);
    }
  }

  /** Visits the slab at position `k`, adds up, and says where the link goes. */
  method Advance(registry: Registry, free: ClassChains, prev: Slab?, slab: Slab, fails: set<Slab>, total: Word,
                 ghost order: seq<Slab>, ghost before: seq<seq<Block>>, ghost n: nat, ghost k: nat)
    returns (link: Slab?, sum: Word, ghost kept: nat)
    requires registry.Valid() && k < |registry.order| && slab == registry.order[k] && prev == Before(registry.order, k)
    requires free.Valid() && OfClasses(before) && NoDup(order)
    requires Progress(registry.order, free.lists, total, order, before, fails, n, k)
    modifies registry, ToSet(registry.order)`next, free, free.heads, Nodes(free.lists)`nextFree
    ensures registry.Valid() && ToSet(registry.order) <= old(ToSet(registry.order))
    ensures free.Valid() && Nodes(free.lists) <= old(Nodes(free.lists))
    ensures n < |order| && kept <= |registry.order| && link == Before(registry.order, kept)
    ensures Progress(registry.order, free.lists, sum, order, before, fails, n + 1, kept)
  {
    hide Progress, AllPermute, OfClasses, WhollyFree, Released, Remaining, Permutes;
    ghost var current, now := registry.order, free.lists;
    NextTarget(current, now, total, order, before, fails, n, k);
    ghost var released := ToSet(Released(order[..n], before, fails));
    hide ToSet;
    var gone;
    gone, link := Visit(registry, free, prev, slab, fails, k, before, released);
    sum := if gone then AddSaturating(total, slab.length) else total;
    kept := if gone then k else k + 1;
    ProgressNext(current, registry.order, now, free.lists, total, sum, order, before, fails, n, k, gone);
  }

  /** One turn of the trim loop. */
  method VisitNext(registry: Registry, free: ClassChains, prev: Slab?, slab: Slab, fails: set<Slab>, total: Word,
                   ghost order: seq<Slab>, ghost before: seq<seq<Block>>, ghost n: nat, ghost k: nat)
    returns (link: Slab?, target: Slab?, sum: Word, ghost kept: nat)
    requires Standing(registry, free, prev, slab, total, order, before, fails, n, k)
    modifies registry, ToSet(registry.order)`next, free, free.heads, Nodes(free.lists)`nextFree
    ensures ToSet(registry.order) <= old(ToSet(registry.order)) && Nodes(free.lists) <= old(Nodes(free.lists))
    ensures n < |order| && Standing(registry, free, link, target, sum, order, before, fails, n + 1, kept)
  {
    hide Progress;
    link, sum, kept := Advance(registry, free, prev, slab, fails, total, order, before, n, k);
    target := registry.Target(link, kept);
  }

  /**
   * The trim loop. For any pattern of unmap failures it ends with the registry as the original
   * sequence minus the released slabs, each free list a permutation of the original minus their
   * blocks, and the saturated sum of the released lengths.
   */
  method Trim(registry: Registry, free: ClassChains, fails: set<Slab>) returns (total: Word)
    requires registry.Valid() && free.Valid()
    modifies registry, ToSet(registry.order)`next, free, free.heads, Nodes(free.lists)`nextFree
    ensures registry.Valid() && free.Valid() && Nodes(free.lists) <= old(Nodes(free.lists))
    ensures registry.order == Remaining(old(registry.order), old(free.lists), fails)
    ensures var released := Released(old(registry.order), old(free.lists), fails);
            && AllPermute(free.lists, old(free.lists), ToSet(released))
            && (TotalLength(released) <= SIZE_MAX ==> total == TotalLength(released))
            && (TotalLength(released) > SIZE_MAX ==> total == SIZE_MAX)
            && forall slab :: slab in released <==> slab in old(registry.order) && WhollyFree(slab, old(free.lists)) && slab !in fails
  {
    ghost var order, before := registry.order, free.lists;
    ghost var n: nat, k: nat := 0, 0;
    total := 0;
    var prev: Slab? := null;
    var target := registry.Target(prev, k);
    TrimStarts(registry, free, target, fails);
    hide Standing;
    while target != null
      invariant ToSet(registry.order) <= old(ToSet(registry.order)) && Nodes(free.lists) <= old(Nodes(free.lists))
      invariant Standing(registry, free, prev, target, total, order, before, fails, n, k)
      decreases |order| - n
    {
      prev, target, total, k := VisitNext(registry, free, prev, target, fails, total, order, before, n, k);
      n := n + 1;
    }
    TrimEnds(registry, free, prev, total, order, before, fails, n, k);
    hide AllPermute, Released, Remaining, TotalLength, WhollyFree;
    ReleasedAre(order, before, fails);
  }

  /** What is released: the slabs that were wholly free and whose unmap succeeds. */
  lemma {:induction false} ReleasedAre(order: seq<Slab>, lists: seq<seq<Block>>, fails: set<Slab>)
    ensures forall slab :: slab in Released(order, lists, fails) <==> slab in order && WhollyFree(slab, lists) && slab !in fails
    ensures forall slab :: slab in Remaining(order, lists, fails) <==> slab in order && !(WhollyFree(slab, lists) && slab !in fails)
    ensures |Released(order, lists, fails)| + |Remaining(order, lists, fails)| == |order|
  {
    if order != [] {
      var n := |order| - 1;
      ReleasedAre(order[..n], lists, fails);
      assert order == order[..n] + [order[n]];
      hide WhollyFree;
    }
  }

  lemma TrimStarts(registry: Registry, free: ClassChains, target: Slab?, fails: set<Slab>)
    requires registry.Valid() && free.Valid() && target == SlabAt(registry.order, 0)
    ensures Standing(registry, free, null, target, 0, registry.order, free.lists, fails, 0, 0)
  {
    ValidGivesPermutation(free);
    ProgressStarts(registry.order, free.lists, fails);
  }

  lemma TrimEnds(registry: Registry, free: ClassChains, link: Slab?, total: Word,
                 order: seq<Slab>, before: seq<seq<Block>>, fails: set<Slab>, n: nat, k: nat)
    requires Standing(registry, free, link, null, total, order, before, fails, n, k)
    ensures registry.Valid() && free.Valid() && registry.order == Remaining(order, before, fails)
    ensures AllPermute(free.lists, before, ToSet(Released(order, before, fails)))
    ensures var length := TotalLength(Released(order, before, fails));
            (length <= SIZE_MAX ==> total == length) && (length > SIZE_MAX ==> total == SIZE_MAX)
  {
    hide Saturated;
    ProgressEnds(registry.order, free.lists, total, order, before, fails, n, k);
    SaturatedMeaning(TotalLength(Released(order, before, fails)));
  }

  lemma SaturatedMeaning(n: nat)
    ensures n <= SIZE_MAX ==> Saturated(n) == n
    ensures n > SIZE_MAX ==> Saturated(n) == SIZE_MAX
  {
  }

  lemma ProgressStarts(order: seq<Slab>, before: seq<seq<Block>>, fails: set<Slab>)
    requires AllPermute(before, before, {})
    ensures Progress(order, before, 0, order, before, fails, 0, 0)
  {
    hide AllPermute;
    assert order[..0] == [] && order[0..] == order;
    assert ToSet<Slab>([]) == {};
  }

  lemma ProgressEnds(current: seq<Slab>, now: seq<seq<Block>>, total: Word,
                     order: seq<Slab>, before: seq<seq<Block>>, fails: set<Slab>, n: nat, k: nat)
    requires Progress(current, now, total, order, before, fails, n, k) && k >= |current|
    ensures current == Remaining(order, before, fails)
    ensures AllPermute(now, before, ToSet(Released(order, before, fails)))
    ensures total == Saturated(TotalLength(Released(order, before, fails)))
  {
    assert order[..n] == order;
  }

  lemma ValidGivesPermutation(free: ClassChains)
    requires free.Valid()
    ensures OfClasses(free.lists) && AllPermute(free.lists, free.lists, {})
  {
    forall c | 0 <= c < CLASS_COUNT
      ensures OfClass(free.lists[c], c) && Permutes(free.lists[c], free.lists[c], {})
    {
      assert free.ClassValid(c);
      ChainAcyclic(free.heads[c], free.lists[c]);
    }
  }

  /** What `to` holds once the first `n` classes have been moved into it. */
  function MovedInto(lists: seq<seq<Block>>, n: nat): seq<seq<Block>>
    requires n <= |lists|
  {
    seq(|lists|, c requires 0 <= c < |lists| => if c < n then lists[c] else [])
  }

  function LeftBehind(lists: seq<seq<Block>>, n: nat): seq<seq<Block>>
    requires n <= |lists|
  {
    seq(|lists|, c requires 0 <= c < |lists| => if c < n then [] else lists[c])
  }

  /** Detaches one class and attaches it to the empty class of another set of chains. */
  method MoveClass(from: ClassChains, to: ClassChains, c: nat)
    requires from.Valid() && to.Valid() && from != to && from.heads != to.heads && c < CLASS_COUNT && to.lists[c] == []
    modifies from, from.heads, to, to.heads, from.lists[c]`nextFree
    ensures from.Valid() && to.Valid()
    ensures from.lists == old(from.lists)[c := []] && to.lists == old(to.lists)[c := old(from.lists[c])]
  {
    assert from.ClassValid(c);
    var list := new TransferList();
    from.Detach(c, list);
    ghost var s := list.blocks;
    assert s + [] == s;
    from.Elsewhere(s, c);
    label Detached:
    to.Prepend(c, list);
    from.KeptBut@Detached(CLASS_COUNT);
  }

  /** Moves every class, in ascending order. */
  method MoveAll(from: ClassChains, to: ClassChains)
    requires from.Valid() && to.Valid() && from != to && from.heads != to.heads
    requires to.lists == seq(CLASS_COUNT, _ => [])
    modifies from, from.heads, to, to.heads, Nodes(from.lists)`nextFree
    ensures from.Valid() && to.Valid()
    ensures to.lists == old(from.lists) && from.lists == seq(CLASS_COUNT, _ => [])
  {
    ghost var lists := from.lists;
    for c := 0 to CLASS_COUNT
      invariant from.Valid() && to.Valid()
      invariant from.lists == LeftBehind(lists, c) && to.lists == MovedInto(lists, c)
    {
      assert from.lists[c] == lists[c];
      assert forall b :: b in lists[c] ==> b in old(Nodes(from.lists));
      MoveClass(from, to, c);
    }
    assert MovedInto(lists, CLASS_COUNT) == lists;
  }

  /**
   * The cached variant's trim: every shared list is detached, the loop runs on the detached chains,
   * and what is left of them is published again. The precondition is the public one, that no other
   * thread is inside the allocator: the shared lists stay as detached until they are published.
   */
  method TrimCached(registry: Registry, shared: ClassChains, fails: set<Slab>) returns (total: Word)
    requires registry.Valid() && shared.Valid()
    modifies registry, ToSet(registry.order)`next, shared, shared.heads, Nodes(shared.lists)`nextFree
    ensures registry.Valid() && shared.Valid()
    ensures registry.order == Remaining(old(registry.order), old(shared.lists), fails)
    ensures var released := Released(old(registry.order), old(shared.lists), fails);
            && AllPermute(shared.lists, old(shared.lists), ToSet(released))
            && (TotalLength(released) <= SIZE_MAX ==> total == TotalLength(released))
            && (TotalLength(released) > SIZE_MAX ==> total == SIZE_MAX)
            && forall slab :: slab in released <==> slab in old(registry.order) && WhollyFree(slab, old(shared.lists)) && slab !in fails
  {
    hide AllPermute, Remaining, Released, WhollyFree, TotalLength;
    var free := new ClassChains();
    MoveAll(shared, free);
    total := Trim(registry, free, fails);
    MoveAll(free, shared);
  }
}
