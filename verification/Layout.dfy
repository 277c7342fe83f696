/**
 * Slab and large-block layouts (src/slab.h, src/block.h) for any header sizes and any payload
 * alignment, and what they guarantee about addresses.
 */
module Layout {
  import opened Sequences
  import opened CheckedMath

  const SLAB_TARGET_BYTES: Word := 65536

  /** The sizes the compiler fixes: both headers, and the strictest fundamental alignment. */
  datatype Target = Target(slabHeader: Word, blockHeader: Word, alignment: Word)

  datatype SlabLayout = SlabLayout(mappingLength: Word, firstSlot: Word, payloadOffset: Word,
                                   stride: Word, count: Word, capacity: Word)

  datatype LargeLayout = LargeLayout(payloadOffset: Word, mappingLength: Word)

  function PayloadOffset(t: Target): Option<Word> {
    AlignUpPow2(t.blockHeader, t.alignment)
  }

  /** The steps that can fail before the slots are counted, in the order of the source. */
  function SlabOffsets(t: Target, capacity: Word, page: Word): Option<SlabLayout> {
    if capacity == 0 || page == 0 then None
    else
      match RoundUpMultiple(SLAB_TARGET_BYTES, page)
      case None => None
      case Some(mappingLength) =>
        match AlignUpPow2(t.slabHeader, t.alignment)
        case None => None
        case Some(firstSlot) =>
          match PayloadOffset(t)
          case None => None
          case Some(payloadOffset) =>
            match Add(payloadOffset, capacity)
            case None => None
            case Some(slotBytes) =>
              match AlignUpPow2(slotBytes, t.alignment)
              case None => None
              case Some(stride) =>
                if firstSlot >= mappingLength then None
                else Some(SlabLayout(mappingLength, firstSlot, payloadOffset, stride, 0, capacity))
  }

  lemma QuotientBounds(space: nat, stride: nat, q: nat, r: nat)
    requires stride > 0 && space == q * stride + r && r < stride
    ensures q * stride <= space < (q + 1) * stride && q <= space
    ensures q == 0 <==> space < stride
  {
    assert (q + 1) * stride == q * stride + stride;
    assert q * stride == q * (stride - 1) + q;
    assert q >= 1 ==> q * stride >= 1 * stride;
  }

  /** The largest number of strides that fit behind the header. */
  function SlotCount(space: Word, stride: Word): (n: Word)
    requires stride > 0
    ensures n * stride <= space < (n + 1) * stride
    ensures n == 0 <==> space < stride
  {
    assert space == (space / stride) * stride + space % stride;
    QuotientBounds(space, stride, space / stride, space % stride);
    space / stride
  }

  /** `hplf_slab_layout_compute`. */
  function ComputeSlab(t: Target, capacity: Word, page: Word): Option<SlabLayout> {
    match SlabOffsets(t, capacity, page)
    case None => None
    case Some(l) =>
      if l.stride == 0 then None
      else
        var count := SlotCount(WrapSub(l.mappingLength, l.firstSlot), l.stride);
        if count == 0 then None
        else
          match Multiply(count, l.stride)
          case None => None
          case Some(occupied) =>
            match Add(l.firstSlot, occupied)
            case None => None
            case Some(end) =>
              if end > l.mappingLength then None else Some(l.(count := count))
  }

  /** `hplf_large_layout_compute`. */
  function ComputeLarge(t: Target, requested: Word, page: Word): Option<LargeLayout> {
    if requested == 0 || page == 0 then None
    else
      match PayloadOffset(t)
      case None => None
      case Some(payloadOffset) =>
        match Add(payloadOffset, requested)
        case None => None
        case Some(bytes) =>
          match RoundUpMultiple(bytes, page)
          case None => None
          case Some(mappingLength) => Some(LargeLayout(payloadOffset, mappingLength))
  }

  // ---- Slab layouts ----

  /** The offset of slot `i` from the start of the mapping. */
  function SlotOffset(l: SlabLayout, i: nat): nat {
    l.firstSlot + i * l.stride
  }

  ghost predicate SoundSlab(t: Target, l: SlabLayout) {
    && l.count > 0 && t.alignment > 0
    && t.slabHeader <= l.firstSlot && l.firstSlot % t.alignment == 0
    && t.blockHeader <= l.payloadOffset && l.payloadOffset % t.alignment == 0
    && l.payloadOffset + l.capacity <= l.stride && l.stride % t.alignment == 0
    && SlotOffset(l, l.count) <= l.mappingLength < SlotOffset(l, l.count + 1)
  }

  lemma OffsetsAreSound(t: Target, capacity: Word, page: Word)
    requires SlabOffsets(t, capacity, page).Some?
    ensures var l := SlabOffsets(t, capacity, page).value;
            && LeastMultiple(l.mappingLength, SLAB_TARGET_BYTES, page)
            && LeastMultiple(l.firstSlot, t.slabHeader, t.alignment)
            && LeastMultiple(l.payloadOffset, t.blockHeader, t.alignment)
            && l.payloadOffset + capacity <= SIZE_MAX
            && LeastMultiple(l.stride, l.payloadOffset + capacity, t.alignment)
            && l.capacity == capacity > 0 && l.firstSlot < l.mappingLength
  {
    hide LeastMultiple, AlignUpPow2, RoundUpMultiple;
    RoundUpMeaning(SLAB_TARGET_BYTES, page);
    AlignUpMeaning(t.slabHeader, t.alignment);
    AlignUpMeaning(t.blockHeader, t.alignment);
    AlignUpMeaning(PayloadOffset(t).value + capacity, t.alignment);
  }

  lemma CountedLayout(l: SlabLayout) returns (count: Word)
    requires l.stride > 0 && l.firstSlot < l.mappingLength
    ensures count == SlotCount(WrapSub(l.mappingLength, l.firstSlot), l.stride)
    ensures SlotOffset(l, count) <= l.mappingLength < SlotOffset(l, count + 1)
    ensures count == 0 <==> l.firstSlot + l.stride > l.mappingLength
  {
    assert WrapSub(l.mappingLength, l.firstSlot) == l.mappingLength - l.firstSlot;
    count := SlotCount(l.mappingLength - l.firstSlot, l.stride);
    hide SlotCount;
  }

  /**
   * Every layout the source admits keeps both headers clear of payloads, is aligned throughout, and
   * holds as many slots as fit; and the product and sum it checks never overflow.
   */
  lemma SlabLayoutIsSound(t: Target, capacity: Word, page: Word)
    requires ComputeSlab(t, capacity, page).Some?
    ensures var l := ComputeSlab(t, capacity, page).value;
            SoundSlab(t, l) && l.capacity == capacity && LeastMultiple(l.mappingLength, SLAB_TARGET_BYTES, page)
  {
    ComputedLayout(t, capacity, page);
    OffsetsAreSound(t, capacity, page);
    hide LeastMultiple, SlabOffsets, ComputeSlab;
    var l := SlabOffsets(t, capacity, page).value;
    LeastMultipleIsMultiple(l.firstSlot, t.slabHeader, t.alignment);
    LeastMultipleIsMultiple(l.payloadOffset, t.blockHeader, t.alignment);
    LeastMultipleIsMultiple(l.stride, l.payloadOffset + capacity, t.alignment);
    var count := CountedLayout(l);
    hide SlotCount;
  }

  lemma ComputedLayout(t: Target, capacity: Word, page: Word)
    requires ComputeSlab(t, capacity, page).Some?
    ensures SlabOffsets(t, capacity, page).Some?
    ensures var l := SlabOffsets(t, capacity, page).value;
            && l.stride > 0
            && var count := SlotCount(WrapSub(l.mappingLength, l.firstSlot), l.stride);
               count > 0 && ComputeSlab(t, capacity, page).value == l.(count := count)
  {
    hide SlabOffsets, SlotCount, Multiply;
  }

  /** The five quantities of a slab layout as the least multiples they round up to. */
  ghost predicate SlabFits(t: Target, capacity: Word, page: Word, length: Word, first: Word, p: Word, stride: Word) {
    && capacity > 0 && PowerOfTwo(t.alignment)
    && LeastMultiple(length, SLAB_TARGET_BYTES, page) && LeastMultiple(first, t.slabHeader, t.alignment)
    && LeastMultiple(p, t.blockHeader, t.alignment) && p + capacity <= SIZE_MAX
    && LeastMultiple(stride, p + capacity, t.alignment) && first + stride <= length
  }

  /**
   * A slab layout exists exactly when the alignment is a power of two, the rounded lengths fit in a word,
   * and one slot fits behind the slab header.
   */
  lemma SlabLayoutExists(t: Target, capacity: Word, page: Word)
    ensures ComputeSlab(t, capacity, page).Some?
            <==> exists length: Word, first: Word, p: Word, stride: Word :: SlabFits(t, capacity, page, length, first, p, stride)
  {
    hide ComputeSlab, SlabFits;
    if ComputeSlab(t, capacity, page).Some? {
      SlabLayoutFits(t, capacity, page);
    }
    forall length: Word, first: Word, p: Word, stride: Word | SlabFits(t, capacity, page, length, first, p, stride)
      ensures ComputeSlab(t, capacity, page).Some?
    {
      SlabFitMeansLayout(t, capacity, page, length, first, p, stride);
    }
  }

  lemma SlabLayoutFits(t: Target, capacity: Word, page: Word)
    requires ComputeSlab(t, capacity, page).Some?
    ensures var l := ComputeSlab(t, capacity, page).value;
            SlabFits(t, capacity, page, l.mappingLength, l.firstSlot, l.payloadOffset, l.stride)
  {
    hide LeastMultiple, AlignUpPow2, PowerOfTwo;
    ComputedLayout(t, capacity, page);
    OffsetsAreSound(t, capacity, page);
    AlignUpMeaning(t.slabHeader, t.alignment);
    hide ComputeSlab;
    AlignmentIsPower(t, capacity, page);
    hide SlabOffsets;
    var count := CountedLayout(SlabOffsets(t, capacity, page).value);
    hide SlotCount;
  }

  lemma AlignmentIsPower(t: Target, capacity: Word, page: Word)
    requires SlabOffsets(t, capacity, page).Some?
    ensures PowerOfTwo(t.alignment)
  {
    hide LeastMultiple, AlignUpPow2, PowerOfTwo;
    AlignUpMeaning(t.slabHeader, t.alignment);
  }

  lemma SlabFitMeansLayout(t: Target, capacity: Word, page: Word, length: Word, first: Word, p: Word, stride: Word)
    requires SlabFits(t, capacity, page, length, first, p, stride)
    ensures ComputeSlab(t, capacity, page).Some?
  {
    FittingOffsets(t, capacity, page, length, first, p, stride);
    var l := SlabOffsets(t, capacity, page).value;
    OffsetsAreSound(t, capacity, page);
    var count := CountedLayout(l);
    assert count * l.stride <= l.mappingLength - l.firstSlot;
    hide SlabOffsets, SlotCount, LeastMultiple, SlotOffset, SlabFits;
  }

  lemma FittingOffsets(t: Target, capacity: Word, page: Word, length: Word, first: Word, p: Word, stride: Word)
    requires SlabFits(t, capacity, page, length, first, p, stride)
    ensures SlabOffsets(t, capacity, page) == Some(SlabLayout(length, first, p, stride, 0, capacity)) && stride > 0
  {
    RoundUpIs(SLAB_TARGET_BYTES, page, length);
    AlignUpIs(t.slabHeader, t.alignment, first);
    AlignUpIs(t.blockHeader, t.alignment, p);
    AlignUpIs(p + capacity, t.alignment, stride);
    hide AlignUpPow2, RoundUpMultiple, PowerOfTwo;
    LeastMultipleBounds(page, length);
    hide LeastMultiple;
  }

  lemma LeastMultipleBounds(page: Word, length: Word)
    requires LeastMultiple(length, SLAB_TARGET_BYTES, page)
    ensures page > 0 && length > 0
  {
  }

  lemma RoundUpIs(value: Word, multiple: Word, r: Word)
    requires LeastMultiple(r, value, multiple)
    ensures RoundUpMultiple(value, multiple) == Some(r)
  {
    hide RoundUpMultiple, LeastMultiple;
    RoundUpMeaning(value, multiple);
    LeastMultipleUnique(RoundUpMultiple(value, multiple).value, r, value, multiple);
  }

  lemma AlignUpIs(value: Word, alignment: Word, r: Word)
    requires PowerOfTwo(alignment) && LeastMultiple(r, value, alignment)
    ensures AlignUpPow2(value, alignment) == Some(r) && value <= r
  {
    AlignUpMeaning(value, alignment);
    LeastMultipleUnique(AlignUpPow2(value, alignment).value, r, value, alignment);
    hide AlignUpPow2, PowerOfTwo;
  }

  // ---- Where the bytes of a slot are ----

  /** A half-open range of offsets. */
  datatype Range = Range(from: nat, to: nat)

  ghost predicate Apart(a: Range, b: Range) {
    a.to <= b.from || b.to <= a.from
  }

  function Prefix(l: SlabLayout, i: nat): Range {
    Range(SlotOffset(l, i), SlotOffset(l, i) + l.payloadOffset)
  }

  function Payload(l: SlabLayout, i: nat): Range {
    Range(SlotOffset(l, i) + l.payloadOffset, SlotOffset(l, i) + l.payloadOffset + l.capacity)
  }

  lemma SlotsAreOrdered(l: SlabLayout, i: nat, j: nat)
    requires i < j
    ensures SlotOffset(l, i) + l.stride <= SlotOffset(l, j)
  {
    MulOrder(i + 1, j, l.stride);
    assert (i + 1) * l.stride == i * l.stride + l.stride;
  }

  /** Prefix and payload of every slot lie inside the mapping, behind the slab header, and apart. */
  lemma SlotFits(t: Target, l: SlabLayout, i: nat)
    requires SoundSlab(t, l) && i < l.count
    ensures t.slabHeader <= Prefix(l, i).from && Prefix(l, i).from + t.blockHeader <= Prefix(l, i).to
    ensures Prefix(l, i).to == Payload(l, i).from && Payload(l, i).to <= SlotOffset(l, i) + l.stride <= l.mappingLength
  {
    SlotsAreOrdered(l, i, l.count);
  }

  /** Two slots of one slab share no byte, prefix or payload. */
  lemma SlotsAreApart(t: Target, l: SlabLayout, i: nat, j: nat)
    requires SoundSlab(t, l) && i < l.count && j < l.count && i != j
    ensures Apart(Prefix(l, i), Prefix(l, j)) && Apart(Payload(l, i), Payload(l, j))
    ensures Apart(Prefix(l, i), Payload(l, j)) && Apart(Payload(l, i), Prefix(l, j))
  {
    if i < j {
      SlotsAreOrdered(l, i, j);
    } else {
      SlotsAreOrdered(l, j, i);
    }
  }

  lemma SumOfMultiples(a: nat, b: nat, m: nat)
    requires m > 0 && a % m == 0 && b % m == 0
    ensures (a + b) % m == 0
  {
    var p, q := a / m, b / m;
    assert a == p * m && b == q * m;
    assert a + b == (p + q) * m + 0;
    DivUnique(a + b, m, p + q, 0);
  }

  lemma ProductOfMultiple(i: nat, b: nat, m: nat)
    requires m > 0 && b % m == 0
    ensures (i * b) % m == 0
  {
    var q := b / m;
    assert b == q * m;
    MulAssociates(i, q, m);
    DivUnique(i * b, m, i * q, 0);
  }

  /** In a mapping aligned to `alignment`, every block and every payload is aligned. */
  lemma SlotsAreAligned(t: Target, l: SlabLayout, base: nat, i: nat)
    requires SoundSlab(t, l) && base % t.alignment == 0
    ensures (base + Prefix(l, i).from) % t.alignment == 0 && (base + Payload(l, i).from) % t.alignment == 0
  {
    ProductOfMultiple(i, l.stride, t.alignment);
    SumOfMultiples(l.firstSlot, i * l.stride, t.alignment);
    SumOfMultiples(base, SlotOffset(l, i), t.alignment);
    SumOfMultiples(base + SlotOffset(l, i), l.payloadOffset, t.alignment);
  }

  // ---- The second rounding ----

  /** `hplf_os_map` rounds its argument again; on a rounded length that changes nothing. */
  lemma RoundingTwiceIsRoundingOnce(value: Word, page: Word)
    requires RoundUpMultiple(value, page).Some?
    ensures RoundUpMultiple(RoundUpMultiple(value, page).value, page) == RoundUpMultiple(value, page)
  {
    RoundUpMeaning(value, page);
  }

  /** So the mapping a slab or a large block gets is exactly as long as its layout says. */
  lemma MapLengthIsLayoutLength(t: Target, size: Word, page: Word)
    ensures ComputeSlab(t, size, page).Some?
            ==> RoundUpMultiple(ComputeSlab(t, size, page).value.mappingLength, page)
                == Some(ComputeSlab(t, size, page).value.mappingLength)
    ensures ComputeLarge(t, size, page).Some?
            ==> RoundUpMultiple(ComputeLarge(t, size, page).value.mappingLength, page)
                == Some(ComputeLarge(t, size, page).value.mappingLength)
  {
    if ComputeSlab(t, size, page).Some? {
      RoundingTwiceIsRoundingOnce(SLAB_TARGET_BYTES, page);
    }
    if ComputeLarge(t, size, page).Some? {
      RoundingTwiceIsRoundingOnce(PayloadOffset(t).value + size, page);
    }
  }

  // ---- Large blocks ----

  /** A large mapping is the least page multiple that holds prefix and payload. */
  lemma LargeLayoutIsSound(t: Target, requested: Word, page: Word)
    requires ComputeLarge(t, requested, page).Some?
    ensures var l := ComputeLarge(t, requested, page).value;
            && t.blockHeader <= l.payloadOffset && requested <= l.mappingLength - l.payloadOffset
            && LeastMultiple(l.mappingLength, l.payloadOffset + requested, page)
            && LeastMultiple(l.payloadOffset, t.blockHeader, t.alignment)
  {
    AlignUpMeaning(t.blockHeader, t.alignment);
    RoundUpMeaning(PayloadOffset(t).value + requested, page);
    hide AlignUpPow2, RoundUpMultiple;
  }

  /** `length` is the page-rounded length of a prefix of `p` bytes and a payload of `requested`. */
  ghost predicate LargeFits(t: Target, requested: Word, page: Word, p: Word, length: Word) {
    && PowerOfTwo(t.alignment) && LeastMultiple(p, t.blockHeader, t.alignment)
    && p + requested <= SIZE_MAX && LeastMultiple(length, p + requested, page)
  }

  /** A large layout exists exactly when prefix, sum and rounded length all fit in a word. */
  lemma LargeLayoutExists(t: Target, requested: Word, page: Word)
    requires requested > 0
    ensures ComputeLarge(t, requested, page).Some?
            <==> exists p: Word, length: Word :: LargeFits(t, requested, page, p, length)
  {
    if ComputeLarge(t, requested, page).Some? {
      LargeLayoutFits(t, requested, page);
    }
    forall p: Word, length: Word | LargeFits(t, requested, page, p, length)
      ensures ComputeLarge(t, requested, page).Some?
    {
      LargeFitMeansLayout(t, requested, page, p, length);
    }
  }

  lemma LargeLayoutFits(t: Target, requested: Word, page: Word)
    requires ComputeLarge(t, requested, page).Some?
    ensures var l := ComputeLarge(t, requested, page).value;
            LargeFits(t, requested, page, l.payloadOffset, l.mappingLength)
  {
    AlignUpMeaning(t.blockHeader, t.alignment);
    LargeLayoutIsSound(t, requested, page);
    hide AlignUpPow2, RoundUpMultiple, PowerOfTwo, LeastMultiple;
  }

  lemma LargeFitMeansLayout(t: Target, requested: Word, page: Word, p: Word, length: Word)
    requires requested > 0 && LargeFits(t, requested, page, p, length)
    ensures ComputeLarge(t, requested, page).Some?
  {
    assert page > 0;
    AlignUpMeaning(t.blockHeader, t.alignment);
    LeastMultipleUnique(p, PayloadOffset(t).value, t.blockHeader, t.alignment);
    RoundUpMeaning(p + requested, page);
    hide AlignUpPow2, RoundUpMultiple, PowerOfTwo, LeastMultiple;
  }

  // ---- Payload and block ----

  function PayloadOf(t: Target, block: Word): Option<Word> {
    match PayloadOffset(t)
    case None => None
    case Some(offset) => Some(WrapAdd(block, offset))
  }

  function BlockOf(t: Target, payload: Word): Option<Word> {
    match PayloadOffset(t)
    case None => None
    case Some(offset) => Some(WrapSub(payload, offset))
  }

  /** The free path recovers exactly the block that the malloc path turned into a payload. */
  lemma PayloadRoundTrip(t: Target, block: Word)
    requires PayloadOffset(t).Some?
    ensures PayloadOf(t, block).Some? && BlockOf(t, PayloadOf(t, block).value) == Some(block)
  {
    WrapRoundTrip(block, PayloadOffset(t).value);
  }

  lemma WrapRoundTrip(block: Word, offset: Word)
    ensures WrapSub(WrapAdd(block, offset), offset) == block
  {
    var sum: int := block + offset;
    if sum < MODULUS {
      DivUnique(sum, MODULUS, 0, sum);
      DivUnique(sum - offset, MODULUS, 0, block);
    } else {
      DivUnique(sum, MODULUS, 1, sum - MODULUS);
      DivUnique(sum - MODULUS - offset, MODULUS, -1, block);
    }
  }
}
