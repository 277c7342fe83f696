/**
 * The per-thread cache (src/thread_cache.c) as functions on one list of blocks per size class. The
 * heap classes are proved against these functions, and the machine of threads runs them.
 */
module CacheSpec {
  import opened CheckedMath
  import opened Sequences
  import opened SizeClasses

  const BLOCK_LIMIT: nat := 32
  const BYTES_LIMIT: nat := 65536
  const REFILL_LIMIT: nat := 16

  type Lists<T> = seq<seq<T>>

  /** The bytes held in classes below `n`: block count times table capacity. */
  function BytesBelow<T>(lists: Lists<T>, n: nat): nat
    requires n <= |lists|
  {
    if n == 0 then 0 else BytesBelow(lists, n - 1) + |lists[n - 1]| * Capacity(n - 1)
  }

  function Bytes<T>(lists: Lists<T>): nat {
    BytesBelow(lists, |lists|)
  }

  ghost predicate WithinCaps<T>(lists: Lists<T>) {
    (forall c :: 0 <= c < |lists| ==> |lists[c]| <= BLOCK_LIMIT) && Bytes(lists) <= BYTES_LIMIT
  }

  lemma {:induction false} BytesBelowUpdate<T>(lists: Lists<T>, c: nat, s: seq<T>, n: nat)
    requires c < |lists| && n <= |lists|
    ensures BytesBelow(lists[c := s], n)
            == BytesBelow(lists, n) + (if c < n then (|s| - |lists[c]|) * Capacity(c) else 0)
  {
    if n > 0 {
      BytesBelowUpdate(lists, c, s, n - 1);
    }
  }

  /** Replacing one class list changes the byte count by that class alone. */
  lemma BytesUpdate<T>(lists: Lists<T>, c: nat, s: seq<T>)
    requires c < |lists|
    ensures Bytes(lists[c := s]) == Bytes(lists) + (|s| - |lists[c]|) * Capacity(c)
  {
    BytesBelowUpdate(lists, c, s, |lists|);
  }

  lemma {:induction false} BytesBelowAtLeast<T>(lists: Lists<T>, c: nat, n: nat)
    requires c < n <= |lists|
    ensures BytesBelow(lists, n) >= |lists[c]| * Capacity(c)
  {
    if c < n - 1 {
      BytesBelowAtLeast(lists, c, n - 1);
    }
  }

  lemma {:induction false} EmptyBelow<T>(lists: Lists<T>, n: nat)
    requires n <= |lists| && forall c :: 0 <= c < n ==> lists[c] == []
    ensures BytesBelow(lists, n) == 0
  {
    if n > 0 {
      EmptyBelow(lists, n - 1);
    }
  }

  // ---- Eviction ----

  /** First nonempty class at or above `from`, in index order. */
  function FirstNonempty<T>(lists: Lists<T>, from: nat): (found: Option<nat>)
    ensures found.Some? ==> from <= found.value < |lists| && lists[found.value] != []
    ensures found.Some? ==> forall c :: from <= c < found.value ==> lists[c] == []
    ensures found.None? ==> forall c :: from <= c < |lists| ==> lists[c] == []
    decreases |lists| - from
  {
    if from >= |lists| then None
    else if lists[from] != [] then Some(from)
    else FirstNonempty(lists, from + 1)
  }

  /** The next eviction after storing in class `c`: which class, and how many leading blocks. */
  function Eviction<T>(lists: Lists<T>, c: nat): (e: Option<(nat, nat)>)
    requires c < |lists|
    ensures e.Some? ==> e.value.0 < |lists| && 0 < e.value.1 <= |lists[e.value.0]|
    ensures e.None? ==> |lists[c]| <= BLOCK_LIMIT
  {
    if |lists[c]| > BLOCK_LIMIT then Some((c, |lists[c]| - BLOCK_LIMIT))
    else if Bytes(lists) <= BYTES_LIMIT then None
    else if lists[c] != [] then Some((c, |lists[c]|))
    else
      match FirstNonempty(lists, 0)
      case Some(i) => Some((i, |lists[i]|))
      case None => None
  }

  function Drop<T>(lists: Lists<T>, c: nat, k: nat): (r: Lists<T>)
    requires c < |lists| && k <= |lists[c]|
    ensures |r| == |lists|
  {
    lists[c := lists[c][k..]]
  }

  lemma DropKeepsCaps<T>(lists: Lists<T>, c: nat, k: nat)
    requires WithinCaps(lists) && c < |lists| && k <= |lists[c]|
    ensures WithinCaps(Drop(lists, c, k))
  {
    BytesUpdate(lists, c, lists[c][k..]);
    assert (|lists[c][k..]| - |lists[c]|) * Capacity(c) <= 0;
  }

  lemma {:induction false} TotalPositive<T>(lists: Lists<T>, n: nat)
    requires n <= |lists| && BytesBelow(lists, n) > 0
    ensures exists c :: 0 <= c < n && lists[c] != []
  {
    if lists[n - 1] == [] {
      TotalPositive(lists, n - 1);
    }
  }

  /** The eviction loop stops only when the current class and the byte total are within their caps. */
  lemma NoEvictionMeansWithinCaps<T>(lists: Lists<T>, c: nat)
    requires c < |lists|
    ensures Eviction(lists, c).None? <==> |lists[c]| <= BLOCK_LIMIT && Bytes(lists) <= BYTES_LIMIT
  {
    if Eviction(lists, c).None? && Bytes(lists) > BYTES_LIMIT {
      TotalPositive(lists, |lists|);
      assert false;
    }
  }

  /** The state `hplf_free` leaves before its loop: one block stored into a cache within its caps. */
  ghost predicate JustStored<T>(lists: Lists<T>, c: nat) {
    c < |lists| && lists[c] != [] && WithinCaps(Drop(lists, c, 1))
  }

  /** After storing one block into a cache within its caps, one eviction restores every cap. */
  lemma OneEvictionSuffices<T>(lists: Lists<T>, c: nat)
    requires JustStored(lists, c)
    ensures Eviction(lists, c).None? ==> WithinCaps(lists)
    ensures var e := Eviction(lists, c);
            e.Some? ==> e.value.0 == c && WithinCaps(Drop(lists, c, e.value.1))
                        && Eviction(Drop(lists, c, e.value.1), c).None?
  {
    var before := Drop(lists, c, 1);
    BytesUpdate(lists, c, lists[c][1..]);
    assert forall d :: 0 <= d < |lists| && d != c ==> lists[d] == before[d];
    assert |before[c]| == |lists[c]| - 1;
    var e := Eviction(lists, c);
    if e.Some? {
      var k := e.value.1;
      BytesUpdate(lists, c, lists[c][k..]);
      assert (|lists[c][k..]| - |lists[c]|) * Capacity(c) == -k * Capacity(c);
      assert -k * Capacity(c) <= -1 * Capacity(c);
      NoEvictionMeansWithinCaps(Drop(lists, c, k), c);
    }
  }

  function TotalBlocks<T>(lists: Lists<T>, n: nat): nat
    requires n <= |lists|
  {
    if n == 0 then 0 else TotalBlocks(lists, n - 1) + |lists[n - 1]|
  }

  lemma {:induction false} TotalBlocksDrop<T>(lists: Lists<T>, c: nat, k: nat, n: nat)
    requires c < |lists| && k <= |lists[c]| && n <= |lists|
    ensures TotalBlocks(Drop(lists, c, k), n) == TotalBlocks(lists, n) - (if c < n then k else 0)
  {
    if n > 0 {
      TotalBlocksDrop(lists, c, k, n - 1);
    }
  }

  /** What the loop of evictions leaves behind, from any cache at all. */
  function AfterEvictions<T>(lists: Lists<T>, c: nat): (r: Lists<T>)
    requires c < |lists|
    ensures |r| == |lists|
    decreases TotalBlocks(lists, |lists|)
  {
    match Eviction(lists, c)
    case None => lists
    case Some((i, k)) =>
      TotalBlocksDrop(lists, i, k, |lists|);
      AfterEvictions(Drop(lists, i, k), c)
  }

  /** The shared lists after the same loop: each eviction is prepended to the list of its class. */
  function AfterPublishing<T>(lists: Lists<T>, shared: Lists<T>, c: nat): (r: Lists<T>)
    requires c < |lists| == |shared|
    ensures |r| == |shared|
    decreases TotalBlocks(lists, |lists|)
  {
    match Eviction(lists, c)
    case None => shared
    case Some((i, k)) =>
      TotalBlocksDrop(lists, i, k, |lists|);
      AfterPublishing(Drop(lists, i, k), shared[i := lists[i][..k] + shared[i]], c)
  }

  /** The loop loses no block: class by class, what the cache and the shared list hold together is the same. */
  lemma {:induction false} EvictionsConserve<T>(lists: Lists<T>, shared: Lists<T>, c: nat, d: nat)
    requires c < |lists| == |shared| && d < |lists|
    ensures multiset(AfterEvictions(lists, c)[d]) + multiset(AfterPublishing(lists, shared, c)[d])
            == multiset(lists[d]) + multiset(shared[d])
    decreases TotalBlocks(lists, |lists|)
  {
    match Eviction(lists, c)
    case None =>
    case Some((i, k)) =>
      TotalBlocksDrop(lists, i, k, |lists|);
      EvictionsConserve(Drop(lists, i, k), shared[i := lists[i][..k] + shared[i]], c, d);
      assert lists[i] == lists[i][..k] + lists[i][k..];
  }

  /** `hplf_free` of one block keeps a cache within its caps. */
  lemma FreeKeepsCaps<T>(lists: Lists<T>, c: nat, block: T)
    requires WithinCaps(lists) && c < |lists|
    ensures WithinCaps(AfterEvictions(lists[c := [block] + lists[c]], c))
  {
    var stored := lists[c := [block] + lists[c]];
    assert Drop(stored, c, 1) == lists;
    OneEvictionSuffices(stored, c);
    hide Drop, WithinCaps, Eviction;
    match Eviction(stored, c)
    case None => assert AfterEvictions(stored, c) == stored;
    case Some((i, k)) => assert AfterEvictions(Drop(stored, i, k), c) == Drop(stored, i, k);
  }

  /** Each list of `r` is a suffix of the same list of `lists`. */
  ghost predicate KeepsSuffixes<T>(r: Lists<T>, lists: Lists<T>) {
    && |r| == |lists|
    && forall d :: 0 <= d < |lists| ==> |r[d]| <= |lists[d]| && r[d] == lists[d][|lists[d]| - |r[d]|..]
  }

  lemma SuffixesOfDrop<T>(r: Lists<T>, lists: Lists<T>, i: nat, k: nat)
    requires i < |lists| && k <= |lists[i]| && KeepsSuffixes(r, Drop(lists, i, k))
    ensures KeepsSuffixes(r, lists)
  {
    var dropped := Drop(lists, i, k);
    forall d | 0 <= d < |lists|
      ensures |r[d]| <= |lists[d]| && r[d] == lists[d][|lists[d]| - |r[d]|..]
    {
      assert |r[d]| <= |dropped[d]| && r[d] == dropped[d][|dropped[d]| - |r[d]|..];
    }
  }

  /** From any cache the loop ends within the caps, and each class keeps a suffix of its list. */
  lemma {:induction false} EvictionsEndWithinCaps<T>(lists: Lists<T>, c: nat)
    requires c < |lists|
    ensures var r := AfterEvictions(lists, c);
            |r[c]| <= BLOCK_LIMIT && Bytes(r) <= BYTES_LIMIT && KeepsSuffixes(r, lists)
    decreases TotalBlocks(lists, |lists|)
  {
    NoEvictionMeansWithinCaps(lists, c);
    match Eviction(lists, c)
    case None =>
    case Some((i, k)) =>
      TotalBlocksDrop(lists, i, k, |lists|);
      var dropped := Drop(lists, i, k);
      assert AfterEvictions(lists, c) == AfterEvictions(dropped, c);
      hide Eviction, Drop, Bytes, KeepsSuffixes, AfterEvictions;
      EvictionsEndWithinCaps(dropped, c);
      SuffixesOfDrop(AfterEvictions(dropped, c), lists, i, k);
  }

  // ---- What evictions leave and give away ----

  /**
   * One eviction in its own terms: of a class above its cap all but the last 32 blocks go; otherwise, with
   * the total above its cap, the current class goes as a whole, or when it is empty the lowest class that
   * is not.
   */
  ghost predicate Evicts<T>(lists: Lists<T>, c: nat, i: nat, gone: seq<T>, r: Lists<T>)
    requires c < |lists|
  {
    && i < |lists| == |r| && (forall d :: 0 <= d < |lists| && d != i ==> r[d] == lists[d]) && gone + r[i] == lists[i] && gone != []
    && if |lists[c]| > BLOCK_LIMIT then i == c && |r[c]| == BLOCK_LIMIT
       else
         && Bytes(lists) > BYTES_LIMIT && r[i] == []
         && if lists[c] != [] then i == c else forall d :: 0 <= d < i ==> lists[d] == []
  }

  lemma EvictionMeaning<T>(lists: Lists<T>, c: nat)
    requires c < |lists| && Eviction(lists, c).Some?
    ensures var (i, k) := Eviction(lists, c).value; Evicts(lists, c, i, lists[i][..k], Drop(lists, i, k))
  {
    hide Bytes;
  }

  /** How many leading blocks of a list are above the cap. */
  function Excess(n: nat): nat {
    if n > BLOCK_LIMIT then n - BLOCK_LIMIT else 0
  }

  /** The lists with those of the first `m` classes empty. */
  function EmptiedBelow<T>(lists: Lists<T>, m: nat): (r: Lists<T>)
    ensures |r| == |lists|
    ensures forall d :: 0 <= d < |lists| ==> r[d] == if d < m then [] else lists[d]
  {
    seq(|lists|, d requires 0 <= d < |lists| => if d < m then [] else lists[d])
  }

  /** The first `m` classes are emptied, and the total is above its cap with any fewer. */
  ghost predicate LowestGone<T>(lists: Lists<T>, m: nat, r: Lists<T>) {
    && m <= |lists| && r == EmptiedBelow(lists, m) && Bytes(r) <= BYTES_LIMIT
    && forall k: nat :: k < m ==> Bytes(EmptiedBelow(lists, k)) > BYTES_LIMIT
  }

  ghost predicate LowestClassesGone<T>(lists: Lists<T>, r: Lists<T>) {
    exists m: nat :: LowestGone(lists, m, r)
  }

  /** Class by class, what the cache no longer has is in front of the shared list. */
  ghost predicate GivesAway<T>(lists: Lists<T>, r: Lists<T>, shared: Lists<T>, published: Lists<T>) {
    && |published| == |shared| == |lists| == |r|
    && forall d :: 0 <= d < |lists| ==> published[d] == (if r[d] == [] then lists[d] else []) + shared[d]
  }

  lemma LoopTurns<T>(lists: Lists<T>, shared: Lists<T>, c: nat, i: nat, k: nat)
    requires c < |lists| == |shared| && Eviction(lists, c) == Some((i, k))
    ensures AfterEvictions(lists, c) == AfterEvictions(Drop(lists, i, k), c)
    ensures AfterPublishing(lists, shared, c)
            == AfterPublishing(Drop(lists, i, k), shared[i := lists[i][..k] + shared[i]], c)
    ensures TotalBlocks(Drop(lists, i, k), |lists|) < TotalBlocks(lists, |lists|)
  {
    TotalBlocksDrop(lists, i, k, |lists|);
  }

  lemma LoopStops<T>(lists: Lists<T>, shared: Lists<T>, c: nat)
    requires c < |lists| == |shared| && |lists[c]| <= BLOCK_LIMIT && Bytes(lists) <= BYTES_LIMIT
    ensures AfterEvictions(lists, c) == lists && AfterPublishing(lists, shared, c) == shared
  {
    NoEvictionMeansWithinCaps(lists, c);
  }

  /** Emptying one more class after the empty ones below it. */
  lemma OneMoreGone<T>(lists: Lists<T>, i: nat, m: nat, r: Lists<T>)
    requires i < |lists| && (forall d :: 0 <= d < i ==> lists[d] == []) && Bytes(lists) > BYTES_LIMIT
    requires LowestGone(EmptiedBelow(lists, i + 1), m, r)
    ensures LowestGone(lists, if m <= i then i + 1 else m, r)
  {
    hide Bytes;
    var dropped := EmptiedBelow(lists, i + 1);
    assert forall j: nat :: j <= i ==> EmptiedBelow(lists, j) == lists;
    assert forall j: nat :: j > i ==> EmptiedBelow(dropped, j) == EmptiedBelow(lists, j);
    assert forall j: nat :: j <= i + 1 ==> EmptiedBelow(dropped, j) == dropped;
  }

  lemma PastEmpty<T>(lists: Lists<T>, shared: Lists<T>, i: nat, r: Lists<T>, published: Lists<T>)
    requires i < |lists| == |shared| && r == EmptiedBelow(r, i + 1) && (forall d :: 0 <= d < i ==> lists[d] == [])
    requires GivesAway(EmptiedBelow(lists, i + 1), r, shared[i := lists[i] + shared[i]], published)
    ensures GivesAway(lists, r, shared, published)
  {
  }

  /** Which eviction comes next when the current class is empty. */
  lemma NextClass<T>(lists: Lists<T>, c: nat) returns (i: nat)
    requires c < |lists| && lists[c] == [] && Bytes(lists) > BYTES_LIMIT
    ensures i < |lists| && Eviction(lists, c) == Some((i, |lists[i]|))
    ensures forall d :: 0 <= d < i ==> lists[d] == []
    ensures Drop(lists, i, |lists[i]|) == EmptiedBelow(lists, i + 1) && lists[i][..|lists[i]|] == lists[i]
  {
    NoEvictionMeansWithinCaps(lists, c);
    i := Eviction(lists, c).value.0;
    hide Bytes;
    assert lists[i][|lists[i]|..] == [];
    assert Drop(lists, i, |lists[i]|) == EmptiedBelow(lists, i + 1);
  }

  /** Once the current class is empty, whole classes go, lowest first, until the total fits. */
  lemma {:induction false} LowestClassesGo<T>(lists: Lists<T>, shared: Lists<T>, c: nat) returns (m: nat)
    requires c < |lists| == |shared| && lists[c] == []
    ensures LowestGone(lists, m, AfterEvictions(lists, c))
    ensures GivesAway(lists, AfterEvictions(lists, c), shared, AfterPublishing(lists, shared, c))
    decreases TotalBlocks(lists, |lists|)
  {
    hide Eviction, Bytes, Drop, AfterEvictions, AfterPublishing, TotalBlocks;
    if Bytes(lists) <= BYTES_LIMIT {
      LoopStops(lists, shared, c);
      assert EmptiedBelow(lists, 0) == lists;
      m := 0;
    } else {
      var i := NextClass(lists, c);
      var dropped := EmptiedBelow(lists, i + 1);
      LoopTurns(lists, shared, c, i, |lists[i]|);
      m := LowestClassesGo(dropped, shared[i := lists[i] + shared[i]], c);
      var r := AfterEvictions(lists, c);
      OneMoreGone(lists, i, m, r);
      hide LowestGone;
      PastEmpty(lists, shared, i, r, AfterPublishing(lists, shared, c));
      m := if m <= i then i + 1 else m;
    }
  }

  /**
   * What the loop leaves, in its own terms: the last 32 blocks of the current class and everything else
   * when that fits; otherwise nothing of the class, and only as many whole classes gone, lowest first, as
   * the total needs.
   */
  ghost predicate Leaves<T>(lists: Lists<T>, c: nat, r: Lists<T>)
    requires c < |lists|
  {
    var capped := lists[c := lists[c][Excess(|lists[c]|)..]];
    if Bytes(capped) <= BYTES_LIMIT then r == capped else LowestClassesGone(lists[c := []], r)
  }

  /** What the loop gives to the shared lists: excess first, then the rest of the class, then other classes. */
  ghost predicate Publishes<T>(lists: Lists<T>, c: nat, r: Lists<T>, shared: Lists<T>, published: Lists<T>)
    requires c < |lists| == |r| == |shared|
  {
    var e := Excess(|lists[c]|);
    && |published| == |shared|
    && published[c] == (if r[c] == [] then lists[c][e..] else []) + lists[c][..e] + shared[c]
    && forall d :: 0 <= d < |lists| && d != c ==> published[d] == (if r[d] == [] then lists[d] else []) + shared[d]
  }

  /** The whole effect of the eviction loop, from any cache. */
  lemma EvictionsEffect<T>(lists: Lists<T>, shared: Lists<T>, c: nat)
    requires c < |lists| == |shared|
    ensures Leaves(lists, c, AfterEvictions(lists, c))
    ensures Publishes(lists, c, AfterEvictions(lists, c), shared, AfterPublishing(lists, shared, c))
  {
    hide AfterEvictions, AfterPublishing, Bytes, TotalBlocks, LowestGone;
    var e := Excess(|lists[c]|);
    if e > 0 {
      assert Eviction(lists, c) == Some((c, e));
      LoopTurns(lists, shared, c, c, e);
      hide Eviction;
      var capped, shared' := Drop(lists, c, e), shared[c := lists[c][..e] + shared[c]];
      CappedEffect(capped, shared', c);
      assert capped[c := capped[c][0..]] == capped && capped[c := []] == lists[c := []];
    } else {
      CappedEffect(lists, shared, c);
    }
  }

  lemma CappedEffect<T>(lists: Lists<T>, shared: Lists<T>, c: nat)
    requires c < |lists| == |shared| && |lists[c]| <= BLOCK_LIMIT
    ensures Leaves(lists, c, AfterEvictions(lists, c))
    ensures Publishes(lists, c, AfterEvictions(lists, c), shared, AfterPublishing(lists, shared, c))
  {
    hide AfterEvictions, AfterPublishing, Bytes, TotalBlocks, Eviction, LowestGone;
    assert lists[c := lists[c][0..]] == lists;
    if Bytes(lists) <= BYTES_LIMIT {
      LoopStops(lists, shared, c);
    } else {
      ClassGoes(lists, shared, c);
      var without, shared' := lists[c := []], shared[c := lists[c] + shared[c]];
      var m := LowestClassesGo(without, shared', c);
      assert AfterEvictions(without, c)[c] == [] by {
        GoneClassIsEmpty(without, c, m, AfterEvictions(without, c));
      }
    }
  }

  lemma GoneClassIsEmpty<T>(lists: Lists<T>, c: nat, m: nat, r: Lists<T>)
    requires LowestGone(lists, m, r) && c < |lists| && lists[c] == []
    ensures r[c] == []
  {
  }

  /** Above the byte cap, the current class goes as a whole. */
  lemma ClassGoes<T>(lists: Lists<T>, shared: Lists<T>, c: nat)
    requires c < |lists| == |shared| && |lists[c]| <= BLOCK_LIMIT && Bytes(lists) > BYTES_LIMIT
    ensures var without, shared' := lists[c := []], shared[c := lists[c] + shared[c]];
            && AfterEvictions(lists, c) == AfterEvictions(without, c)
            && AfterPublishing(lists, shared, c) == AfterPublishing(without, shared', c)
  {
    hide AfterEvictions, AfterPublishing, Bytes, TotalBlocks;
    if lists[c] != [] {
      LoopTurns(lists, shared, c, c, |lists[c]|);
      assert lists[c][..|lists[c]|] == lists[c] && lists[c][|lists[c]|..] == [];
    } else {
      assert lists[c] + shared[c] == shared[c];
      assert lists[c := []] == lists && shared[c := lists[c] + shared[c]] == shared;
    }
  }

  /**
   * The whole effect of `hplf_free` on a cache within its caps: the block is kept when both caps allow
   * it, is passed on alone when its class is full, and takes its whole class along when only the byte
   * total is exceeded.
   */
  ghost predicate FreeKeeps<T>(lists: Lists<T>, c: nat, block: T, r: Lists<T>)
    requires c < |lists|
  {
    if |lists[c]| == BLOCK_LIMIT then r == lists
    else if Bytes(lists) + Capacity(c) <= BYTES_LIMIT then r == lists[c := [block] + lists[c]]
    else r == lists[c := []]
  }

  ghost predicate FreeOutcome<T>(lists: Lists<T>, shared: Lists<T>, c: nat, block: T, r: Lists<T>, published: Lists<T>)
    requires c < |lists| == |shared|
  {
    && FreeKeeps(lists, c, block, r)
    && |published| == |shared| && (forall d :: 0 <= d < |shared| && d != c ==> published[d] == shared[d])
    && published[c] == (if |lists[c]| == BLOCK_LIMIT then [block] else if r[c] == [] then [block] + lists[c] else []) + shared[c]
  }

  lemma FreeEffect<T>(lists: Lists<T>, shared: Lists<T>, c: nat, block: T)
    requires WithinCaps(lists) && c < |lists| == |shared|
    ensures var stored := lists[c := [block] + lists[c]];
            FreeOutcome(lists, shared, c, block, AfterEvictions(stored, c), AfterPublishing(stored, shared, c))
  {
    hide AfterEvictions, AfterPublishing, TotalBlocks, Bytes, Eviction, Capacity;
    assert |lists[c]| <= BLOCK_LIMIT;
    if |lists[c]| == BLOCK_LIMIT {
      FullClassPassesOn(lists, shared, c, block);
    } else if Bytes(lists) + Capacity(c) <= BYTES_LIMIT {
      RoomKeeps(lists, shared, c, block);
      assert [] + shared[c] == shared[c];
    } else {
      ClassLeaves(lists, shared, c, block);
    }
  }

  lemma RoomKeeps<T>(lists: Lists<T>, shared: Lists<T>, c: nat, block: T)
    requires c < |lists| == |shared| && |lists[c]| < BLOCK_LIMIT && Bytes(lists) + Capacity(c) <= BYTES_LIMIT
    ensures var stored := lists[c := [block] + lists[c]];
            AfterEvictions(stored, c) == stored && AfterPublishing(stored, shared, c) == shared
  {
    hide AfterEvictions, AfterPublishing, Bytes, Capacity, TotalBlocks;
    BytesOfOneMore(lists, c, block);
    LoopStops(lists[c := [block] + lists[c]], shared, c);
  }

  lemma BytesOfOneMore<T>(lists: Lists<T>, c: nat, block: T)
    requires c < |lists|
    ensures Bytes(lists[c := [block] + lists[c]]) == Bytes(lists) + Capacity(c)
    ensures Bytes(lists[c := []]) <= Bytes(lists)
  {
    hide Bytes, Capacity;
    BytesUpdate(lists, c, [block] + lists[c]);
    BytesUpdate(lists, c, []);
    LessIsLess(|lists[c]|, Capacity(c));
  }

  lemma ClassLeaves<T>(lists: Lists<T>, shared: Lists<T>, c: nat, block: T)
    requires c < |lists| == |shared| && |lists[c]| < BLOCK_LIMIT && Bytes(lists) <= BYTES_LIMIT < Bytes(lists) + Capacity(c)
    ensures var stored := lists[c := [block] + lists[c]];
            && AfterEvictions(stored, c) == lists[c := []]
            && AfterPublishing(stored, shared, c) == shared[c := [block] + lists[c] + shared[c]]
  {
    hide AfterEvictions, AfterPublishing, Bytes, Capacity, TotalBlocks;
    var stored := lists[c := [block] + lists[c]];
    BytesOfOneMore(lists, c, block);
    ClassGoes(stored, shared, c);
    assert stored[c := []] == lists[c := []];
    LoopStops(lists[c := []], shared[c := stored[c] + shared[c]], c);
  }

  lemma LessIsLess(n: nat, k: nat)
    ensures (0 - n) * k <= 0
  {
  }

  lemma FullClassPassesOn<T>(lists: Lists<T>, shared: Lists<T>, c: nat, block: T)
    requires WithinCaps(lists) && c < |lists| == |shared| && |lists[c]| == BLOCK_LIMIT
    ensures var stored := lists[c := [block] + lists[c]];
            AfterEvictions(stored, c) == lists && AfterPublishing(stored, shared, c) == shared[c := [block] + shared[c]]
  {
    hide AfterEvictions, AfterPublishing, TotalBlocks, Bytes;
    var stored := lists[c := [block] + lists[c]];
    LoopTurns(stored, shared, c, c, 1);
    assert stored[c][..1] == [block] && Drop(stored, c, 1) == lists;
    LoopStops(lists, shared[c := [block] + shared[c]], c);
  }

  // ---- Refill ----

  /** How many blocks a refill accepts, computed with the source's unsigned subtractions. */
  function RefillLimit(count: nat, bytes: nat, capacity: nat): nat
    requires capacity > 0
  {
    Min(Min(REFILL_LIMIT, WrapSub(BLOCK_LIMIT, count)), WrapSub(BYTES_LIMIT, bytes) / capacity)
  }

  lemma FitsWhenDivided(n: nat, space: nat, capacity: nat)
    requires capacity > 0 && n <= space / capacity
    ensures n * capacity <= space
  {
    assert n * capacity <= (space / capacity) * capacity;
  }

  /** Within the caps nothing underflows, and what a refill accepts keeps the caps. */
  lemma RefillKeepsCaps<T>(lists: Lists<T>, c: nat, s: seq<T>)
    requires WithinCaps(lists) && c < |lists|
    requires |s| <= RefillLimit(|lists[c]|, Bytes(lists), Capacity(c))
    ensures WrapSub(BLOCK_LIMIT, |lists[c]|) == BLOCK_LIMIT - |lists[c]|
    ensures WrapSub(BYTES_LIMIT, Bytes(lists)) == BYTES_LIMIT - Bytes(lists)
    ensures WithinCaps(lists[c := s + lists[c]])
  {
    WrapSubExact(BLOCK_LIMIT, |lists[c]|);
    WrapSubExact(BYTES_LIMIT, Bytes(lists));
    hide WrapSub;
    FitsWhenDivided(|s|, BYTES_LIMIT - Bytes(lists), Capacity(c));
    BytesUpdate(lists, c, s + lists[c]);
  }

  /**
   * A refill of `k` blocks out of `n` is as large as it may be: it respects the refill limit, the class
   * cap and the byte cap, and either nothing is left over or one more block would break one of them.
   */
  ghost predicate Fullest<T>(lists: Lists<T>, c: nat, k: nat, n: nat)
    requires c < |lists|
  {
    && k <= n && k <= REFILL_LIMIT && |lists[c]| + k <= BLOCK_LIMIT && Bytes(lists) + k * Capacity(c) <= BYTES_LIMIT
    && (k == n || k == REFILL_LIMIT || |lists[c]| + k == BLOCK_LIMIT || Bytes(lists) + (k + 1) * Capacity(c) > BYTES_LIMIT)
  }

  lemma OneMoreDoesNotFit(k: nat, space: nat, capacity: nat)
    requires capacity > 0 && k == space / capacity
    ensures (k + 1) * capacity > space
  {
    assert space == (space / capacity) * capacity + space % capacity;
  }

  lemma RefillIsFullest<T>(lists: Lists<T>, c: nat, n: nat)
    requires WithinCaps(lists) && c < |lists|
    ensures Fullest(lists, c, Min(n, RefillLimit(|lists[c]|, Bytes(lists), Capacity(c))), n)
  {
    WrapSubExact(BLOCK_LIMIT, |lists[c]|);
    WrapSubExact(BYTES_LIMIT, Bytes(lists));
    hide WrapSub, Bytes, Capacity;
    var space := BYTES_LIMIT - Bytes(lists);
    OneMoreDoesNotFit(space / Capacity(c), space, Capacity(c));
    FitsWhenDivided(Min(n, RefillLimit(|lists[c]|, Bytes(lists), Capacity(c))), space, Capacity(c));
  }

  /** Take, else refill and take, else the first available block directly (src/allocator.c:105-119). */
  datatype Obtained<T> = Obtained(lists: Lists<T>, block: Option<T>, rest: seq<T>)

  function Obtain<T>(cached: bool, lists: Lists<T>, c: nat, available: seq<T>): Obtained<T>
    requires c < |lists|
  {
    if cached then
      var k := Min(|available|, RefillLimit(|lists[c]|, Bytes(lists), Capacity(c)));
      var filled := lists[c := available[..k] + lists[c]];
      if filled[c] != [] then Obtained(Drop(filled, c, 1), Some(filled[c][0]), available[k..])
      else Direct(filled, available[k..])
    else Direct(lists, available)
  }

  function Direct<T>(lists: Lists<T>, available: seq<T>): Obtained<T> {
    if available == [] then Obtained(lists, None, [])
    else Obtained(lists, Some(available[0]), available[1..])
  }

  /**
   * With something available and the class empty, a block is always obtained, even when the byte cap
   * lets the refill accept nothing; and the block, the class list and the remainder are exactly the
   * available blocks in their order.
   */
  lemma ObtainConserves<T>(cached: bool, lists: Lists<T>, c: nat, available: seq<T>)
    requires c < |lists| && lists[c] == [] && available != []
    ensures var o := Obtain(cached, lists, c, available);
            && o.block.Some? && |o.lists| == |lists|
            && [o.block.value] + o.lists[c] + o.rest == available
            && (forall d :: 0 <= d < |lists| && d != c ==> o.lists[d] == lists[d])
            && (!cached ==> o.lists == lists)
            && (WithinCaps(lists) ==> WithinCaps(o.lists))
  {
    hide WrapSub, Bytes, Capacity;
    if cached {
      var limit := RefillLimit(|lists[c]|, Bytes(lists), Capacity(c));
      var k := Min(|available|, limit);
      var filled := lists[c := available[..k] + lists[c]];
      if WithinCaps(lists) {
        RefillKeepsCaps(lists, c, available[..k]);
        if k > 0 {
          DropKeepsCaps(filled, c, 1);
        }
      }
      hide RefillLimit, WithinCaps;
      assert available[..k] + lists[c] == available[..k];
      assert available == available[..k] + available[k..];
      if k > 0 {
        assert available[..k] == [available[0]] + available[..k][1..];
      } else {
        assert filled == lists;
      }
    }
  }

  /**
   * A thread with a cache keeps as much of what is available as the limits allow: of what it keeps and
   * hands out together, one more block would not have fitted, unless nothing is left to publish.
   */
  lemma ObtainKeepsAll<T>(lists: Lists<T>, c: nat, available: seq<T>)
    requires c < |lists| && lists[c] == [] && available != [] && WithinCaps(lists)
    ensures var o := Obtain(true, lists, c, available);
            && o.block.Some? && |o.lists| == |lists| && |o.lists[c]| + 1 <= REFILL_LIMIT
            && (o.rest != [] && |o.lists[c]| + 1 < REFILL_LIMIT ==> Bytes(lists) + (|o.lists[c]| + 2) * Capacity(c) > BYTES_LIMIT)
  {
    hide WrapSub, Bytes, Capacity, RefillLimit;
    ObtainConserves(true, lists, c, available);
    RefillIsFullest(lists, c, |available|);
    hide WithinCaps;
    var k := Min(|available|, RefillLimit(|lists[c]|, Bytes(lists), Capacity(c)));
    assert available[..k] + lists[c] == available[..k];
    if k == 0 {
      MoreIsMore(1, 2, Capacity(c));
    }
  }

  lemma MoreIsMore(a: nat, b: nat, n: nat)
    requires a <= b
    ensures a * n <= b * n
  {
  }
}
