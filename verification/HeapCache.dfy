/**
 * The thread cache and the shared transfer as heap objects (src/thread_cache.c, the list handling of
 * src/transfer_mutex.c, and the eviction loop of src/allocator.c:261-270), each proved against the
 * functions of CacheSpec.
 */
module HeapCache {
  import opened CheckedMath
  import opened Sequences
  import opened SizeClasses
  import opened HeapLists
  import C = CacheSpec

  /** Blocks of class `c`, with the capacity the table gives that class. */
  ghost predicate OfClass(s: seq<Block>, c: nat) {
    forall b :: b in s ==> b.slab.cls == c && b.capacity == Capacity(c)
  }

  ghost function Nodes(lists: seq<seq<Block>>): set<Block> {
    set c, b | 0 <= c < |lists| && b in lists[c] :: b
  }

  /** Sixteen null-terminated chains, one per class, hanging off an array of heads. */
  class ClassChains {
    const heads: array<Block?>
    ghost var lists: seq<seq<Block>>

    constructor ()
      ensures Valid() && lists == seq(CLASS_COUNT, _ => []) && fresh(heads)
    {
      heads := new Block?[CLASS_COUNT](_ => null);
      lists := seq(CLASS_COUNT, _ => []);
    }

    ghost predicate Shape()
      reads this
    {
      heads.Length == CLASS_COUNT == |lists|
    }

    ghost predicate ClassValid(c: nat)
      requires Shape() && c < CLASS_COUNT
      reads this, heads, lists[c]
    {
      Chain(heads[c], lists[c]) && OfClass(lists[c], c)
    }

    /** Every class but `c` is as its ghost list says. */
    ghost predicate ValidBut(c: nat)
      reads this, heads, Nodes(lists)
    {
      && Shape()
      && (forall d, b :: 0 <= d < |lists| && b in lists[d] ==> b in Nodes(lists))
      && (forall d {:trigger ClassValid(d)} {:trigger lists[d]} :: 0 <= d < CLASS_COUNT && d != c ==> ClassValid(d))
    }

    ghost predicate Valid()
      reads this, heads, Nodes(lists)
    {
      ValidBut(CLASS_COUNT)
    }

    /** Replaces one class chain. */
    method Set(c: nat, head: Block?, ghost s: seq<Block>)
      requires c < CLASS_COUNT && ValidBut(c) && Chain(head, s) && OfClass(s, c)
      modifies this, heads
      ensures Valid() && lists == old(lists)[c := s] && heads[c] == head
    {
      ghost var before := lists;
      assert forall d :: 0 <= d < CLASS_COUNT && d != c ==> Chain(heads[d], before[d]) && OfClass(before[d], d);
      heads[c] := head;
      lists := lists[c := s];
      forall d {:trigger lists[d]} | 0 <= d < CLASS_COUNT
        ensures ClassValid(d)
      {
        if d != c {
          assert Chain(heads[d], before[d]);
        }
      }
    }

    /** Removes and returns the first block of a nonempty class. */
    method Pop(c: nat) returns (block: Block)
      requires Valid() && c < CLASS_COUNT && heads[c] != null
      modifies this, heads, lists[c]`nextFree
      ensures Valid() && old(lists[c]) != [] && block == old(lists[c])[0] && block.nextFree == null
      ensures lists == old(lists)[c := old(lists[c])[1..]]
    {
      assert ClassValid(c);
      ghost var s := lists[c];
      block := heads[c];
      assert s[0].nextFree == NodeAt(s, 1);
      ChainAcyclic(heads[c], s);
      ChainTail(heads[c], s);
      var next := block.nextFree;
      assert block !in s[1..] by {
        assert s == [s[0]] + s[1..];
        NoDupSplit([s[0]], s[1..]);
      }
      block.nextFree := null;
      assert Chain(next, s[1..]);
      KeptBut(c);
      Set(c, next, s[1..]);
    }

    /** After relinking blocks of class `c` only, the other classes are as they were. */
    twostate lemma KeptBut(c: nat)
      requires old(Valid()) && unchanged(this) && unchanged(heads) && c <= CLASS_COUNT
      requires forall d, b :: 0 <= d < |lists| && d != c && b in lists[d] ==> b.nextFree == old(b.nextFree)
      ensures ValidBut(c)
    {
      forall d {:trigger ClassValid(d)} | 0 <= d < CLASS_COUNT && d != c
        ensures ClassValid(d)
      {
        assert old(ClassValid(d));
      }
    }

    /** A batch of class `c` that is apart from that class's chain is apart from every chain. */
    lemma Elsewhere(s: seq<Block>, c: nat)
      requires Valid() && c < CLASS_COUNT && OfClass(s, c) && Disjoint(s, lists[c])
      ensures HoldsNone(s)
    {
      forall d, b | 0 <= d < |lists| && b in lists[d]
        ensures b !in s
      {
        assert ClassValid(d);
      }
    }

    ghost predicate Lacks(block: Block)
      reads this
    {
      forall d {:trigger lists[d]} :: 0 <= d < |lists| ==> block !in lists[d]
    }

    ghost predicate HoldsNone(s: seq<Block>)
      reads this
    {
      forall d, b :: 0 <= d < |lists| && b in lists[d] ==> b !in s
    }

    /** The leading blocks of a class are of that class, and in no other place of the cache. */
    lemma PrefixApart(c: nat, k: nat)
      requires Valid() && c < CLASS_COUNT && k <= |lists[c]|
      ensures OfClass(lists[c][..k], c)
      ensures forall d, b :: 0 <= d < |lists| && b in C.Drop(lists, c, k)[d] ==> b !in lists[c][..k]
    {
      assert ClassValid(c);
      PartsApart(heads[c], lists[c]);
      forall d, b | 0 <= d < |lists| && b in C.Drop(lists, c, k)[d]
        ensures b !in lists[c][..k]
      {
        assert ClassValid(d);
      }
    }

    /** Puts one block of the class in front of its chain. */
    method Push(c: nat, block: Block)
      requires Valid() && c < CLASS_COUNT && OfClass([block], c) && block !in lists[c]
      modifies this, heads, block`nextFree
      ensures Valid() && lists == old(lists)[c := [block] + old(lists[c])]
    {
      assert ClassValid(c);
      assert block.slab.cls == c && [block][0] == block;
      ghost var s := lists[c];
      block.nextFree := heads[c];
      assert Chain(heads[c], s);
      LinkChain([block], heads[c], s);
      KeptBut(c);
      Set(c, block, [block] + s);
    }

    /** Puts a whole private list in front of the class chain and clears the descriptor. */
    method Prepend(c: nat, list: TransferList)
      requires Valid() && c < CLASS_COUNT && list.Valid() && OfClass(list.blocks, c) && Disjoint(list.blocks, lists[c])
      modifies this, heads, list, list.blocks`nextFree
      ensures Valid() && lists == old(lists)[c := old(list.blocks) + old(lists[c])]
      ensures list.Valid() && list.blocks == []
    {
      if list.first != null {
        assert ClassValid(c);
        ghost var s, batch := lists[c], list.blocks;
        var first := list.first;
        ChainAcyclic(first, batch);
        assert list.last in batch && list.last !in s;
        list.last.nextFree := heads[c];
        assert Chain(heads[c], s);
        SegmentKept(batch);
        LinkChain(batch, heads[c], s);
        KeptBut(c);
        Set(c, first, batch + s);
        list.Clear();
      } else {
        assert list.blocks + lists[c] == lists[c];
        assert lists[c := lists[c]] == lists;
      }
    }

    /** Takes the whole class chain away; the traversal then describes it. */
    method Detach(c: nat, list: TransferList)
      requires Valid() && c < CLASS_COUNT
      modifies this, heads, list
      ensures Valid() && lists == old(lists)[c := []]
      ensures list.Valid() && list.blocks == old(lists[c])
    {
      assert ClassValid(c);
      ghost var s := lists[c];
      var first := heads[c];
      KeptBut(c);
      Set(c, null, []);
      list.FromChain(first, s);
    }

    /** Moves the first blocks of a class, at most `maximum`, into `output`. */
    method Split(c: nat, maximum: nat, count: nat, output: TransferList)
      requires Valid() && c < CLASS_COUNT && count == |lists[c]|
      modifies this, heads, output, lists[c]`nextFree
      ensures Valid() && output.Valid()
      ensures var k := Min(|old(lists[c])|, maximum);
              output.blocks == old(lists[c])[..k] && lists == old(lists)[c := old(lists[c])[k..]]
    {
      assert ClassValid(c);
      var available := new TransferList();
      available.Become(heads[c], null, count, lists[c]);
      available.TakePrefix(maximum, output);
      KeptBut(c);
      Set(c, available.first, available.blocks);
    }
  }

  /** The tail of `batch` now points at the head of `s`: the two chains are one. */
  lemma LinkChain(batch: seq<Block>, head: Block?, s: seq<Block>)
    requires batch != [] && Chain(head, s) && batch[|batch| - 1].nextFree == head
    requires forall i {:trigger batch[i].nextFree} :: 0 <= i < |batch| - 1 ==> batch[i].nextFree == batch[i + 1]
    ensures Chain(batch[0], batch + s)
  {
    var r := batch + s;
    forall i {:trigger r[i].nextFree} | 0 <= i < |r|
      ensures r[i].nextFree == NodeAt(r, i + 1)
    {
      if i < |batch| - 1 {
        assert batch[i].nextFree == batch[i + 1];
      } else if i >= |batch| {
        assert s[i - |batch|].nextFree == NodeAt(s, i - |batch| + 1);
      }
    }
  }

  twostate lemma SegmentKept(batch: seq<Block>)
    requires batch != [] && old(Chain(batch[0], batch)) && NoDup(batch)
    requires forall b :: b in batch && b != batch[|batch| - 1] ==> b.nextFree == old(b.nextFree)
    ensures forall i {:trigger batch[i].nextFree} :: 0 <= i < |batch| - 1 ==> batch[i].nextFree == batch[i + 1]
  {
    forall i {:trigger batch[i].nextFree} | 0 <= i < |batch| - 1
      ensures batch[i].nextFree == batch[i + 1]
    {
      assert old(batch[i].nextFree) == NodeAt(batch, i + 1);
    }
  }

  /** The cache of one thread. */
  class ThreadCache {
    const chains: ClassChains
    const counts: array<nat>
    var totalSlotBytes: nat

    constructor ()
      ensures Valid() && chains.lists == seq(CLASS_COUNT, _ => [])
    {
      chains := new ClassChains();
      counts := new nat[CLASS_COUNT](_ => 0);
      totalSlotBytes := 0;
      new;
      C.EmptyBelow(chains.lists, CLASS_COUNT);
    }

    /** Counts are chain lengths, and the byte total is the sum of count times table capacity. */
    ghost predicate Valid()
      reads this, chains, chains.heads, counts, Nodes(chains.lists)
    {
      && chains.Valid() && counts.Length == CLASS_COUNT
      && (forall c :: 0 <= c < CLASS_COUNT ==> counts[c] == |chains.lists[c]|)
      && totalSlotBytes == C.Bytes(chains.lists)
    }

    /** The first block of the class, or null when the class is out of range or empty. */
    method Take(c: nat, capacity: nat) returns (block: Block?)
      requires Valid() && (c < CLASS_COUNT ==> capacity == Capacity(c))
      modifies this, chains, chains.heads, counts, (if c < |chains.lists| then chains.lists[c] else [])`nextFree
      ensures Valid()
      ensures c >= CLASS_COUNT || old(chains.lists[c]) == [] ==> block == null && chains.lists == old(chains.lists)
      ensures c < CLASS_COUNT && old(chains.lists[c]) != []
              ==> block == old(chains.lists[c])[0] && block.nextFree == null
                  && chains.lists == old(chains.lists)[c := old(chains.lists[c])[1..]]
    {
      block := null;
      if c < CLASS_COUNT {
        ghost var lists := chains.lists;
        assert chains.ClassValid(c);
        if chains.heads[c] != null {
          C.BytesUpdate(lists, c, lists[c][1..]);
          C.BytesBelowAtLeast(lists, c, CLASS_COUNT);
          OneLess(|lists[c]|, capacity);
          block := chains.Pop(c);
          counts[c] := counts[c] - 1;
          totalSlotBytes := totalSlotBytes - capacity;
        }
      }
    }

    method Store(c: nat, capacity: nat, block: Block)
      requires Valid() && c < CLASS_COUNT && capacity == Capacity(c)
      requires OfClass([block], c) && block !in chains.lists[c]
      modifies this, chains, chains.heads, counts, block`nextFree
      ensures Valid() && chains.lists == old(chains.lists)[c := [block] + old(chains.lists[c])]
    {
      C.BytesUpdate(chains.lists, c, [block] + chains.lists[c]);
      chains.Push(c, block);
      counts[c] := counts[c] + 1;
      totalSlotBytes := totalSlotBytes + capacity;
    }

    /** Moves at most `maximum` leading blocks of the class into `output`; false when there is none to move. */
    method ExtractClass(c: nat, maximum: nat, output: TransferList) returns (moved: bool)
      requires Valid()
      modifies this, chains, chains.heads, counts, output, (if c < |chains.lists| then chains.lists[c] else [])`nextFree
      ensures Valid() && output.Valid()
      ensures moved <==> c < CLASS_COUNT && maximum > 0 && old(chains.lists[c]) != []
      ensures !moved ==> output.blocks == [] && chains.lists == old(chains.lists)
      ensures moved ==> var k := Min(|old(chains.lists[c])|, maximum);
                        output.blocks == old(chains.lists[c])[..k] && chains.lists == C.Drop(old(chains.lists), c, k)
    {
      output.Clear();
      moved := false;
      if c < CLASS_COUNT && maximum > 0 {
        ghost var lists := chains.lists;
        assert chains.ClassValid(c);
        if chains.heads[c] != null {
          ghost var k := Min(|lists[c]|, maximum);
          C.BytesUpdate(lists, c, lists[c][k..]);
          C.BytesBelowAtLeast(lists, c, CLASS_COUNT);
          SomeLess(|lists[c]|, k, Capacity(c));
          hide C.Bytes, Capacity;
          chains.Split(c, maximum, counts[c], output);
          counts[c] := counts[c] - output.count;
          totalSlotBytes := totalSlotBytes - output.count * Capacity(c);
          moved := true;
        }
      }
    }

    /** Puts a list in front of the class chain and clears the descriptor. */
    method Restore(c: nat, capacity: nat, list: TransferList)
      requires Valid() && c < CLASS_COUNT && capacity == Capacity(c)
      requires list.Valid() && OfClass(list.blocks, c) && Disjoint(list.blocks, chains.lists[c])
      modifies this, chains, chains.heads, counts, list, list.blocks`nextFree
      ensures Valid() && list.Valid() && list.blocks == []
      ensures chains.lists == old(chains.lists)[c := old(list.blocks) + old(chains.lists[c])]
    {
      var count := list.count;
      C.BytesUpdate(chains.lists, c, list.blocks + chains.lists[c]);
      chains.Prepend(c, list);
      counts[c] := counts[c] + count;
      totalSlotBytes := totalSlotBytes + count * capacity;
    }

    /** Accepts a prefix of `available`, as long as the refill limit and both caps allow. */
    method Refill(c: nat, capacity: nat, available: TransferList)
      requires Valid() && c < CLASS_COUNT && capacity == Capacity(c)
      requires available.Valid() && OfClass(available.blocks, c) && Disjoint(available.blocks, chains.lists[c])
      modifies this, chains, chains.heads, counts, available, available.blocks`nextFree
      ensures Valid() && available.Valid()
      ensures var k := Min(|old(available.blocks)|,
                             C.RefillLimit(|old(chains.lists[c])|, C.Bytes(old(chains.lists)), capacity));
              && chains.lists == old(chains.lists)[c := old(available.blocks)[..k] + old(chains.lists[c])]
              && available.blocks == old(available.blocks)[k..]
      ensures C.WithinCaps(old(chains.lists))
              ==> C.Fullest(old(chains.lists), c, |old(available.blocks)| - |available.blocks|, |old(available.blocks)|)
    {
      var limit := RefillRoom(c, capacity);
      if C.WithinCaps(chains.lists) {
        C.RefillIsFullest(chains.lists, c, |available.blocks|);
      }
      hide C.RefillLimit, C.Bytes, C.Fullest, C.WithinCaps;
      AcceptPrefix(c, capacity, limit, available);
    }

    method AcceptPrefix(c: nat, capacity: nat, limit: nat, available: TransferList)
      requires Valid() && c < CLASS_COUNT && capacity == Capacity(c)
      requires available.Valid() && OfClass(available.blocks, c) && Disjoint(available.blocks, chains.lists[c])
      modifies this, chains, chains.heads, counts, available, available.blocks`nextFree
      ensures Valid() && available.Valid()
      ensures var k := Min(|old(available.blocks)|, limit);
              && chains.lists == old(chains.lists)[c := old(available.blocks)[..k] + old(chains.lists[c])]
              && available.blocks == old(available.blocks)[k..]
    {
      hide C.Bytes, Capacity;
      var accepted := new TransferList();
      ghost var s := available.blocks;
      chains.Elsewhere(s, c);
      PartsApart(available.first, s);
      available.TakePrefix(limit, accepted);
      chains.KeptBut(CLASS_COUNT);
      label Cut:
      Restore(c, capacity, accepted);
      assert forall b :: b in available.blocks ==> b.nextFree == old@Cut(b.nextFree);
    }

    /** The least of the refill limit, the room below the block cap and the room below the byte cap. */
    method RefillRoom(c: nat, capacity: nat) returns (limit: nat)
      requires Valid() && c < CLASS_COUNT && capacity == Capacity(c)
      ensures limit == C.RefillLimit(|chains.lists[c]|, C.Bytes(chains.lists), capacity)
    {
      var classSpace := WrapSub(C.BLOCK_LIMIT, counts[c]);
      var byteSpace := WrapSub(C.BYTES_LIMIT, totalSlotBytes) / capacity;
      limit := C.REFILL_LIMIT;
      if limit > classSpace {
        limit := classSpace;
      }
      if limit > byteSpace {
        limit := byteSpace;
      }
    }

    /** The next eviction: the excess of the current class, else the class itself, else the first nonempty class. */
    method ExtractEviction(current: nat, output: TransferList) returns (found: bool, cls: nat)
      requires Valid() && current < CLASS_COUNT
      modifies this, chains, chains.heads, counts, output, Nodes(chains.lists)`nextFree
      ensures Valid() && output.Valid()
      ensures found <==> C.Eviction(old(chains.lists), current).Some?
      ensures !found ==> output.blocks == [] && chains.lists == old(chains.lists)
      ensures found ==> var (i, k) := C.Eviction(old(chains.lists), current).value;
                        && cls == i && output.blocks == old(chains.lists[i])[..k]
                        && chains.lists == C.Drop(old(chains.lists), i, k)
      ensures found <==> |old(chains.lists[current])| > C.BLOCK_LIMIT || C.Bytes(old(chains.lists)) > C.BYTES_LIMIT
      ensures found ==> C.Evicts(old(chains.lists), current, cls, output.blocks, chains.lists)
    {
      if C.Eviction(chains.lists, current).Some? {
        C.EvictionMeaning(chains.lists, current);
      }
      C.NoEvictionMeansWithinCaps(chains.lists, current);
      hide C.Evicts;
      output.Clear();
      cls := current;
      if counts[current] > C.BLOCK_LIMIT {
        found := ExtractClass(current, counts[current] - C.BLOCK_LIMIT, output);
      } else if totalSlotBytes <= C.BYTES_LIMIT {
        found := false;
      } else if counts[current] != 0 {
        found := ExtractClass(current, counts[current], output);
      } else {
        var index := FirstNonempty();
        if index < CLASS_COUNT {
          cls := index;
          found := ExtractClass(index, counts[index], output);
        } else {
          found := false;
        }
      }
    }

    /** The scan in ascending class order; the class count when every class is empty. */
    method FirstNonempty() returns (index: nat)
      requires Valid()
      ensures C.FirstNonempty(chains.lists, 0) == (if index < CLASS_COUNT then Some(index) else None)
    {
      index := 0;
      while index < CLASS_COUNT && counts[index] == 0
        invariant 0 <= index <= CLASS_COUNT
        invariant C.FirstNonempty(chains.lists, 0) == C.FirstNonempty(chains.lists, index)
      {
        index := index + 1;
      }
    }

    /** Walks every chain and compares: true exactly when the counts and the byte total are right. */
    method Snapshot() returns (consistent: bool, lengths: seq<nat>, computed: nat)
      requires chains.Valid() && counts.Length == CLASS_COUNT
      ensures consistent <==> Valid()
      ensures |lengths| == CLASS_COUNT && forall c :: 0 <= c < CLASS_COUNT ==> lengths[c] == |chains.lists[c]|
      ensures computed == C.Bytes(chains.lists)
    {
      var countsMatch := true;
      lengths, computed := [], 0;
      var index := 0;
      while index < CLASS_COUNT
        invariant 0 <= index <= CLASS_COUNT && |lengths| == index
        invariant forall c :: 0 <= c < index ==> lengths[c] == |chains.lists[c]|
        invariant computed == C.BytesBelow(chains.lists, index)
        invariant countsMatch <==> forall c :: 0 <= c < index ==> counts[c] == |chains.lists[c]|
      {
        assert chains.ClassValid(index);
        var length := ChainLength(chains.heads[index], chains.lists[index]);
        countsMatch := countsMatch && counts[index] == length;
        lengths := lengths + [length];
        computed := computed + length * Capacity(index);
        index := index + 1;
      }
      consistent := countsMatch && computed == totalSlotBytes;
    }

    /** Putting back what was extracted gives the identical chains, counts, total and links. */
    method ExtractThenRestore(c: nat, maximum: nat)
      requires Valid() && c < CLASS_COUNT
      modifies this, chains, chains.heads, counts, chains.lists[c]`nextFree
      ensures Valid() && chains.lists == old(chains.lists) && totalSlotBytes == old(totalSlotBytes)
      ensures counts[..] == old(counts[..]) && chains.heads[..] == old(chains.heads[..])
      ensures forall b :: b in chains.lists[c] ==> b.nextFree == old(b.nextFree)
    {
      var output := new TransferList();
      ghost var s := chains.lists[c];
      chains.PrefixApart(c, Min(|s|, maximum));
      var moved := ExtractClass(c, maximum, output);
      assert s == s[..Min(|s|, maximum)] + s[Min(|s|, maximum)..];
      assert maximum == 0 ==> s[..0] == [];
      Restore(c, Capacity(c), output);
      forall d | 0 <= d < CLASS_COUNT
        ensures chains.heads[d] == old(chains.heads[d])
      {
        assert chains.ClassValid(d) && old(chains.ClassValid(d));
      }
    }
  }

  method TakeDirect(available: TransferList) returns (block: Block?)
    requires available.Valid()
    modifies available, available.blocks`nextFree
    ensures available.Valid()
    ensures var o := C.Direct([], old(available.blocks));
            block == (if o.block.Some? then o.block.value else null) && available.blocks == o.rest
  {
    var direct := new TransferList();
    available.TakePrefix(1, direct);
    block := direct.first;
  }

  method RefillAndTake(cache: ThreadCache, c: nat, available: TransferList) returns (block: Block?)
    requires c < CLASS_COUNT && available.Valid() && OfClass(available.blocks, c)
    requires cache.Valid() && Disjoint(available.blocks, cache.chains.lists[c])
    modifies cache, cache.chains, cache.chains.heads, cache.counts
    modifies cache.chains.lists[c]`nextFree, available, available.blocks`nextFree
    ensures available.Valid() && cache.Valid() && cache.chains.HoldsNone(available.blocks)
    ensures var k := Min(|old(available.blocks)|,
                           C.RefillLimit(|old(cache.chains.lists[c])|, C.Bytes(old(cache.chains.lists)), Capacity(c)));
            var filled := old(cache.chains.lists)[c := old(available.blocks)[..k] + old(cache.chains.lists[c])];
            && available.blocks == old(available.blocks)[k..]
            && (filled[c] == [] ==> block == null && cache.chains.lists == filled)
            && (filled[c] != [] ==> block == filled[c][0] && cache.chains.lists == C.Drop(filled, c, 1))
  {
    hide C.RefillLimit, C.Bytes, Capacity;
    ghost var s := available.blocks;
    PartsApart(available.first, s);
    cache.chains.Elsewhere(s, c);
    cache.Refill(c, Capacity(c), available);
    assert Disjoint(s[..|s| - |available.blocks|], available.blocks);
    label Filled:
    assert cache.chains.HoldsNone(available.blocks);
    block := cache.Take(c, Capacity(c));
    assert forall b :: b in available.blocks ==> b.nextFree == old@Filled(b.nextFree);
  }

  /**
   * The rest of a small allocation once blocks are at hand: refill and take, else the first available
   * block directly. What is left of `available` is what the caller publishes.
   */
  method ObtainBlock(cache: ThreadCache?, c: nat, available: TransferList) returns (block: Block?)
    requires c < CLASS_COUNT && available.Valid() && OfClass(available.blocks, c)
    requires cache != null ==> cache.Valid() && Disjoint(available.blocks, cache.chains.lists[c])
    modifies if cache == null then {} else {cache, cache.chains, cache.chains.heads, cache.counts}
    modifies (if cache == null then {} else Nodes(cache.chains.lists))`nextFree, available, available.blocks`nextFree
    ensures available.Valid() && (cache != null ==> cache.Valid())
    ensures var lists := if cache == null then seq(CLASS_COUNT, _ => []) else old(cache.chains.lists);
            var o := C.Obtain(cache != null, lists, c, old(available.blocks));
            && block == (if o.block.Some? then o.block.value else null)
            && available.blocks == o.rest
            && (cache != null ==> cache.chains.lists == o.lists)
  {
    hide C.RefillLimit, C.Bytes, Capacity;
    block := null;
    if cache != null {
      block := RefillAndTake(cache, c, available);
    }
    if block == null {
      label Refilled:
      block := TakeDirect(available);
      if cache != null {
        cache.chains.KeptBut@Refilled(CLASS_COUNT);
      }
    }
  }

  /** A cache and the shared transfer are separate objects and hold no block in common. */
  ghost predicate Separate(cache: ThreadCache, shared: ClassChains)
    reads cache, cache.chains, shared
  {
    && cache.chains != shared && cache.chains.heads != shared.heads
    && forall d, e, b :: 0 <= d < |cache.chains.lists| && 0 <= e < |shared.lists| && b in cache.chains.lists[d]
                         ==> b !in shared.lists[e]
  }

  /** Prepends a batch that is apart from the cache to the shared list; the cache is left alone. */
  method Publish(cache: ThreadCache, shared: ClassChains, c: nat, batch: TransferList)
    requires cache.Valid() && shared.Valid() && Separate(cache, shared) && c < CLASS_COUNT
    requires batch.Valid() && OfClass(batch.blocks, c) && Disjoint(batch.blocks, shared.lists[c])
    requires cache.chains.HoldsNone(batch.blocks)
    modifies shared, shared.heads, batch, batch.blocks`nextFree
    ensures cache.Valid() && shared.Valid() && Separate(cache, shared)
    ensures shared.lists == old(shared.lists)[c := old(batch.blocks) + old(shared.lists[c])]
  {
    hide C.Bytes, Capacity;
    ghost var lists, s := cache.chains.lists, batch.blocks;
    assert forall d, b :: 0 <= d < |lists| && b in lists[d] ==> b !in s;
    shared.Prepend(c, batch);
    forall d, b: Block | 0 <= d < |lists| && b in lists[d]
      ensures b.nextFree == old(b.nextFree)
    {
      assert b !in s;
    }
    cache.chains.KeptBut(CLASS_COUNT);
  }

  /** One turn of the eviction loop: what the cache gives up is prepended to the shared list of its class. */
  method EvictOnce(cache: ThreadCache, shared: ClassChains, current: nat) returns (found: bool)
    requires cache.Valid() && shared.Valid() && Separate(cache, shared) && current < CLASS_COUNT
    modifies cache, cache.chains, cache.chains.heads, cache.counts, shared, shared.heads, Nodes(cache.chains.lists)`nextFree
    ensures cache.Valid() && shared.Valid() && Separate(cache, shared)
    ensures found <==> C.Eviction(old(cache.chains.lists), current).Some?
    ensures !found ==> cache.chains.lists == old(cache.chains.lists) && shared.lists == old(shared.lists)
    ensures found ==> var (i, k) := C.Eviction(old(cache.chains.lists), current).value;
                      && cache.chains.lists == C.Drop(old(cache.chains.lists), i, k)
                      && shared.lists == old(shared.lists)[i := old(cache.chains.lists[i])[..k] + old(shared.lists[i])]
  {
    var e := C.Eviction(cache.chains.lists, current);
    if e.Some? {
      cache.chains.PrefixApart(e.value.0, e.value.1);
    }
    hide C.Eviction, C.Bytes, Capacity;
    var eviction := new TransferList();
    var cls;
    found, cls := cache.ExtractEviction(current, eviction);
    shared.KeptBut(CLASS_COUNT);
    if found {
      Publish(cache, shared, cls, eviction);
    }
  }

  /** The eviction loop: from any well-formed cache it ends, and leaves what the two functions say. */
  method EvictAll(cache: ThreadCache, shared: ClassChains, current: nat)
    requires cache.Valid() && shared.Valid() && Separate(cache, shared) && current < CLASS_COUNT
    modifies cache, cache.chains, cache.chains.heads, cache.counts, shared, shared.heads, Nodes(cache.chains.lists)`nextFree
    ensures cache.Valid() && shared.Valid() && Separate(cache, shared)
    ensures cache.chains.lists == C.AfterEvictions(old(cache.chains.lists), current)
    ensures shared.lists == C.AfterPublishing(old(cache.chains.lists), old(shared.lists), current)
    ensures C.Leaves(old(cache.chains.lists), current, cache.chains.lists)
    ensures C.Publishes(old(cache.chains.lists), current, cache.chains.lists, old(shared.lists), shared.lists)
  {
    C.EvictionsEffect(cache.chains.lists, shared.lists, current);
    hide C.Leaves, C.Publishes;
    var more := true;
    while more
      invariant cache.Valid() && shared.Valid() && Separate(cache, shared)
      invariant Nodes(cache.chains.lists) <= old(Nodes(cache.chains.lists))
      invariant C.AfterEvictions(cache.chains.lists, current) == C.AfterEvictions(old(cache.chains.lists), current)
      invariant C.AfterPublishing(cache.chains.lists, shared.lists, current)
                == C.AfterPublishing(old(cache.chains.lists), old(shared.lists), current)
      invariant !more ==> C.Eviction(cache.chains.lists, current).None?
      decreases more, C.TotalBlocks(cache.chains.lists, CLASS_COUNT)
    {
      ghost var lists := cache.chains.lists;
      more := EvictOnce(cache, shared, current);
      if more {
        var (i, k) := C.Eviction(lists, current).value;
        C.TotalBlocksDrop(lists, i, k, CLASS_COUNT);
      }
    }
  }

  /** Without a cache the freed block is published as a list of one. */
  method PublishSingle(shared: ClassChains, block: Block)
    requires block.slab.cls < CLASS_COUNT && block.capacity == Capacity(block.slab.cls)
    requires shared.Valid() && shared.Lacks(block)
    modifies shared, shared.heads, block
    ensures shared.Valid() && block.requestedSize == 0
    ensures shared.lists == old(shared.lists)[block.slab.cls := [block] + old(shared.lists)[block.slab.cls]]
  {
    block.requestedSize := 0;
    block.nextFree := null;
    shared.KeptBut(CLASS_COUNT);
    var single := new TransferList();
    single.first, single.last, single.count, single.blocks := block, block, 1, [block];
    shared.Prepend(block.slab.cls, single);
  }

  /**
   * `hplf_free` of a small block: stored in the calling thread's cache, then evictions are published
   * until none is left; a thread without a cache publishes the block itself.
   */
  method FreeSmall(cache: ThreadCache?, shared: ClassChains, block: Block)
    requires block.slab.cls < CLASS_COUNT && block.capacity == Capacity(block.slab.cls)
    requires shared.Valid() && shared.Lacks(block)
    requires cache != null ==> cache.Valid() && Separate(cache, shared) && cache.chains.Lacks(block)
    modifies shared, shared.heads, block
    modifies if cache == null then {} else {cache, cache.chains, cache.chains.heads, cache.counts}
    modifies (if cache == null then {} else Nodes(cache.chains.lists))`nextFree
    ensures block.requestedSize == 0 && shared.Valid()
    ensures cache == null ==> shared.lists == old(shared.lists)[block.slab.cls := [block] + old(shared.lists)[block.slab.cls]]
    ensures cache != null ==>
              var stored := old(cache.chains.lists)[block.slab.cls := [block] + old(cache.chains.lists)[block.slab.cls]];
              && cache.Valid() && Separate(cache, shared)
              && cache.chains.lists == C.AfterEvictions(stored, block.slab.cls)
              && shared.lists == C.AfterPublishing(stored, old(shared.lists), block.slab.cls)
    ensures cache != null && C.WithinCaps(old(cache.chains.lists)) ==>
              && C.WithinCaps(cache.chains.lists)
              && C.FreeOutcome(old(cache.chains.lists), old(shared.lists), block.slab.cls, block, cache.chains.lists, shared.lists)
  {
    hide C.FreeOutcome, C.WithinCaps, C.Leaves, C.Publishes, C.AfterEvictions, C.AfterPublishing, C.Bytes, Capacity;
    var c := block.slab.cls;
    if cache != null && C.WithinCaps(cache.chains.lists) {
      C.FreeEffect(cache.chains.lists, shared.lists, c, block);
      C.FreeKeepsCaps(cache.chains.lists, c, block);
    }
    if cache == null {
      PublishSingle(shared, block);
    } else {
      block.requestedSize := 0;
      cache.Store(c, block.capacity, block);
      shared.KeptBut(CLASS_COUNT);
      EvictAll(cache, shared, c);
    }
  }

  /** One class of a flush: everything cached goes in front of the shared list. */
  method FlushClass(cache: ThreadCache, shared: ClassChains, c: nat) returns (count: nat)
    requires cache.Valid() && shared.Valid() && Separate(cache, shared) && c < CLASS_COUNT
    requires |cache.chains.lists[c]| <= SIZE_MAX
    modifies cache, cache.chains, cache.chains.heads, cache.counts, shared, shared.heads, Nodes(cache.chains.lists)`nextFree
    ensures cache.Valid() && shared.Valid() && Separate(cache, shared)
    ensures count == |old(cache.chains.lists[c])|
    ensures cache.chains.lists == old(cache.chains.lists)[c := []]
    ensures shared.lists == old(shared.lists)[c := old(cache.chains.lists[c]) + old(shared.lists[c])]
  {
    hide C.Bytes, Capacity;
    ghost var s := cache.chains.lists[c];
    cache.chains.PrefixApart(c, |s|);
    assert s[..|s|] == s && s[|s|..] == [] && [] + shared.lists[c] == shared.lists[c];
    count := 0;
    var list := new TransferList();
    var moved := cache.ExtractClass(c, SIZE_MAX, list);
    shared.KeptBut(CLASS_COUNT);
    if moved {
      count := list.count;
      Publish(cache, shared, c, list);
    }
  }

  /**
   * `flush_descriptor`: the cache is empty afterwards, and the number published is that of its blocks,
   * for class counts that fit in a word.
   */
  method FlushAll(cache: ThreadCache, shared: ClassChains) returns (published: nat)
    requires cache.Valid() && shared.Valid() && Separate(cache, shared)
    requires forall d :: 0 <= d < CLASS_COUNT ==> |cache.chains.lists[d]| <= SIZE_MAX
    modifies cache, cache.chains, cache.chains.heads, cache.counts, shared, shared.heads, Nodes(cache.chains.lists)`nextFree
    ensures cache.Valid() && shared.Valid() && Separate(cache, shared)
    ensures forall d :: 0 <= d < CLASS_COUNT ==>
              cache.chains.lists[d] == [] && shared.lists[d] == old(cache.chains.lists[d]) + old(shared.lists[d])
    ensures cache.totalSlotBytes == 0 && published == C.TotalBlocks(old(cache.chains.lists), CLASS_COUNT)
  {
    published := 0;
    var index := 0;
    while index < CLASS_COUNT
      invariant 0 <= index <= CLASS_COUNT && cache.Valid() && shared.Valid() && Separate(cache, shared)
      invariant Nodes(cache.chains.lists) <= old(Nodes(cache.chains.lists))
      invariant forall d :: 0 <= d < index ==>
                  cache.chains.lists[d] == [] && shared.lists[d] == old(cache.chains.lists[d]) + old(shared.lists[d])
      invariant forall d :: index <= d < CLASS_COUNT ==>
                  cache.chains.lists[d] == old(cache.chains.lists[d]) && shared.lists[d] == old(shared.lists[d])
      invariant published == C.TotalBlocks(old(cache.chains.lists), index)
    {
      var count := FlushClass(cache, shared, index);
      published := published + count;
      index := index + 1;
    }
    C.EmptyBelow(cache.chains.lists, CLASS_COUNT);
  }

  /** The two sides of a chain that was cut share no block. */
  lemma PartsApart(head: Block?, s: seq<Block>)
    requires Chain(head, s)
    ensures forall k :: 0 <= k <= |s| ==> Disjoint(s[..k], s[k..])
  {
    ChainAcyclic(head, s);
  }

  method ChainLength(head: Block?, ghost s: seq<Block>) returns (length: nat)
    requires Chain(head, s)
    ensures length == |s|
  {
    length := 0;
    var block := head;
    while block != null
      invariant 0 <= length <= |s| && block == NodeAt(s, length)
      decreases |s| - length
    {
      assert s[length].nextFree == NodeAt(s, length + 1);
      length := length + 1;
      block := block.nextFree;
    }
  }

  lemma SomeLess(n: nat, k: nat, capacity: nat)
    requires k <= n
    ensures k * capacity <= n * capacity && (n - k - n) * capacity == 0 - k * capacity
  {
  }

  lemma OneLess(n: nat, k: nat)
    requires n > 0
    ensures k <= n * k && (n - 1 - n) * k == 0 - k
  {
  }
}
