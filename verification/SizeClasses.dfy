/** The size-class table (src/size_class.c). */
module SizeClasses {
  import opened Sequences

  const CLASS_COUNT: nat := 16
  const MAX_SMALL_SIZE: nat := 4096
  const CAPACITIES: seq<nat> :=
    [16, 32, 48, 64, 96, 128, 192, 256, 384, 512, 768, 1024, 1536, 2048, 3072, 4096]

  /** Out-of-range classes have no capacity; the value 1 keeps byte counts total. */
  function Capacity(c: nat): (n: nat)
    ensures 1 <= n <= MAX_SMALL_SIZE
  {
    if c < CLASS_COUNT then CAPACITIES[c] else 1
  }

  /** `c` is the smallest class whose slots hold `size` bytes. */
  ghost predicate IsClassFor(size: nat, c: nat) {
    c < CLASS_COUNT && size <= Capacity(c) && forall d :: 0 <= d < c ==> Capacity(d) < size
  }

  /** The table search: the smallest fitting class, for sizes from 1 to the largest capacity. */
  method ClassFor(size: nat) returns (found: Option<nat>)
    ensures found.Some? <==> 0 < size <= MAX_SMALL_SIZE
    ensures found.Some? ==> IsClassFor(size, found.value)
  {
    if size == 0 || size > MAX_SMALL_SIZE {
      return None;
    }
    assert Capacity(CLASS_COUNT - 1) == MAX_SMALL_SIZE;
    var index := 0;
    while index < CLASS_COUNT
      invariant 0 <= index <= CLASS_COUNT
      invariant forall d :: 0 <= d < index ==> Capacity(d) < size
    {
      if size <= CAPACITIES[index] {
        return Some(index);
      }
      index := index + 1;
    }
    return None;
  }

  /** The class the search finds, as a value. */
  function ClassOf(size: nat): (found: Option<nat>)
    ensures found.Some? <==> 0 < size <= MAX_SMALL_SIZE
    ensures found.Some? ==> IsClassFor(size, found.value)
  {
    if size == 0 || size > MAX_SMALL_SIZE then None else Some(FirstFit(size, 0))
  }

  function FirstFit(size: nat, from: nat): (c: nat)
    requires from < CLASS_COUNT && size <= MAX_SMALL_SIZE
    requires forall d :: 0 <= d < from ==> Capacity(d) < size
    ensures IsClassFor(size, c)
    decreases CLASS_COUNT - from
  {
    if size <= CAPACITIES[from] then from
    else
      assert from != 15;
      FirstFit(size, from + 1)
  }

  lemma ClassUnique(size: nat, c: nat, d: nat)
    requires IsClassFor(size, c) && IsClassFor(size, d)
    ensures c == d
  {
    assert Capacity(c) >= size && Capacity(d) >= size;
  }
}
