/**
 * Checked 64-bit unsigned arithmetic (src/checked_math.h). Every operator below wraps modulo 2^64 as
 * the source's `size_t` does; the contracts say that no admitted result has wrapped.
 */
module CheckedMath {
  import opened Sequences

  const WORD_BITS: nat := 64
  const MODULUS: nat := 0x1_0000_0000_0000_0000
  const SIZE_MAX: nat := 0xFFFF_FFFF_FFFF_FFFF

  type Word = n: nat | n <= SIZE_MAX

  function WrapAdd(a: Word, b: Word): Word {
    (a + b) % MODULUS
  }

  function WrapSub(a: nat, b: nat): Word {
    (a - b) % MODULUS
  }

  lemma WrapSubExact(a: nat, b: nat)
    requires b <= a < MODULUS
    ensures WrapSub(a, b) == a - b
  {
  }

  lemma WrapAddExact(a: Word, b: Word)
    requires a + b < MODULUS
    ensures WrapAdd(a, b) == a + b
  {
  }

  function WrapMul(a: Word, b: Word): Word {
    (a * b) % MODULUS
  }

  /** Bitwise and, bit by bit from the low end. */
  function BitAnd(a: nat, b: nat): (r: nat)
    ensures r <= a && r <= b
  {
    if a == 0 || b == 0 then 0 else 2 * BitAnd(a / 2, b / 2) + (a % 2) * (b % 2)
  }

  /** Bitwise complement of a 64-bit word. */
  function BitNot(a: Word): Word {
    SIZE_MAX - a
  }

  function Pow2(k: nat): (r: nat)
    ensures r > 0
  {
    if k == 0 then 1 else 2 * Pow2(k - 1)
  }

  /** Bit `i` of a number, the independent meaning of the operators above. */
  function Bit(a: nat, i: nat): nat {
    (a / Pow2(i)) % 2
  }

  // ---- The operations ----

  function Add(left: Word, right: Word): (r: Option<Word>)
    ensures r.Some? <==> left + right <= SIZE_MAX
    ensures r.Some? ==> r.value == left + right
  {
    if right > WrapSub(SIZE_MAX, left) then None else Some(WrapAdd(left, right))
  }

  function Multiply(left: Word, right: Word): (r: Option<Word>)
    ensures r.Some? <==> left * right <= SIZE_MAX
    ensures r.Some? ==> r.value == left * right
  {
    if left != 0 then
      DivisionBound(left, right);
      if right > SIZE_MAX / left then None else Some(WrapMul(left, right))
    else Some(WrapMul(left, right))
  }

  lemma DivisionBound(left: Word, right: Word)
    requires left > 0
    ensures right <= SIZE_MAX / left <==> left * right <= SIZE_MAX
  {
    var q := SIZE_MAX / left;
    assert left * q <= SIZE_MAX < left * (q + 1);
    if right <= q {
      assert left * right <= left * q;
    } else {
      assert left * right >= left * (q + 1);
    }
  }

  /** The mask form: add `alignment - 1`, then clear the low bits. */
  function AlignUpPow2(value: Word, alignment: Word): Option<Word> {
    if alignment == 0 || BitAnd(alignment, WrapSub(alignment, 1)) != 0 then None
    else
      var mask := WrapSub(alignment, 1);
      if value > WrapSub(SIZE_MAX, mask) then None
      else Some(BitAnd(WrapAdd(value, mask), BitNot(mask)))
  }

  /** The general form, for page sizes that need not be powers of two. */
  function RoundUpMultiple(value: Word, multiple: Word): Option<Word> {
    if multiple == 0 then None
    else
      var remainder := value % multiple;
      if remainder == 0 then Some(value)
      else Add(value, WrapSub(multiple, remainder))
  }

  // ---- What they mean ----

  /** `r` is the least multiple of `m` that is at least `value`. */
  ghost predicate LeastMultiple(r: nat, value: nat, m: nat) {
    && m > 0 && r % m == 0 && value <= r
    && forall n {:trigger n * m} :: value <= n * m ==> r <= n * m
  }

  ghost predicate PowerOfTwo(a: nat) {
    exists k: nat :: Pow2(k) == a
  }

  lemma {:induction false} BitMul(a: nat, i: nat)
    requires i > 0
    ensures Bit(a, i) == Bit(a / 2, i - 1)
  {
    assert Pow2(i) == 2 * Pow2(i - 1);
    DivDiv(a, Pow2(i - 1));
  }

  lemma DivDiv(a: nat, p: nat)
    requires p > 0
    ensures a / (2 * p) == (a / 2) / p
  {
    var q, r := (a / 2) / p, (a / 2) % p;
    assert a / 2 == q * p + r;
    assert a == 2 * (a / 2) + a % 2;
    assert a == q * (2 * p) + (2 * r + a % 2);
    DivUnique(a, 2 * p, q, 2 * r + a % 2);
  }

  lemma DivUnique(a: int, b: int, q: int, r: int)
    requires b > 0 && a == q * b + r && 0 <= r < b
    ensures a / b == q && a % b == r
  {
    var d := a / b - q;
    assert a == (a / b) * b + a % b;
    assert d * b == r - a % b;
    assert (d >= 1 ==> d * b >= b) && (d <= -1 ==> d * b <= -b);
  }

  /** `BitAnd` has a bit exactly where both operands have it. */
  lemma {:induction false} BitAndBits(a: nat, b: nat, i: nat)
    ensures Bit(BitAnd(a, b), i) == Bit(a, i) * Bit(b, i)
    decreases i
  {
    if a == 0 || b == 0 {
      assert 0 / Pow2(i) == 0;
    } else {
      var r, low := BitAnd(a / 2, b / 2), (a % 2) * (b % 2);
      assert BitAnd(a, b) == 2 * r + low && 0 <= low <= 1;
      if i > 0 {
        assert (2 * r + low) / 2 == r;
        BitMul(BitAnd(a, b), i);
        BitMul(a, i);
        BitMul(b, i);
        BitAndBits(a / 2, b / 2, i - 1);
      }
    }
  }

  // ---- Powers of two and masks ----

  lemma {:induction false} Pow2Add(a: nat, b: nat)
    ensures Pow2(a + b) == Pow2(a) * Pow2(b)
  {
    if a > 0 {
      Pow2Add(a - 1, b);
      MulAssociates(2, Pow2(a - 1), Pow2(b));
    }
  }

  lemma MulAssociates(x: int, y: int, z: int)
    ensures x * (y * z) == (x * y) * z
  {
  }

  lemma Pow2OfWordBits()
    ensures Pow2(WORD_BITS) == MODULUS
  {
    assert Pow2(4) == 16;
    hide Pow2;
    Pow2Add(4, 4);
    Pow2Add(8, 8);
    Pow2Add(16, 16);
    Pow2Add(32, 32);
  }

  lemma {:induction false} BitAndSelf(a: nat)
    ensures BitAnd(a, a) == a
  {
    if a > 0 {
      BitAndSelf(a / 2);
    }
  }

  /** The source's test `(a & (a - 1)) == 0`, for nonzero `a`, recognizes exactly the powers of two. */
  lemma {:induction false} MaskTestFindsPowers(a: nat)
    requires a > 0
    ensures BitAnd(a, a - 1) == 0 <==> PowerOfTwo(a)
  {
    if a == 1 {
      assert Pow2(0) == 1;
    } else if a % 2 == 0 {
      var h := a / 2;
      assert (a - 1) / 2 == h - 1;
      MaskTestFindsPowers(h);
      if PowerOfTwo(h) {
        var k: nat :| Pow2(k) == h;
        assert Pow2(k + 1) == a;
      }
      if PowerOfTwo(a) {
        var k: nat :| Pow2(k) == a;
        assert Pow2(k - 1) == h;
      }
    } else {
      var h := a / 2;
      assert (a - 1) / 2 == h;
      BitAndSelf(h);
      OddIsNoPower(a);
    }
  }

  lemma {:induction false} OddIsNoPower(a: nat)
    requires a > 1 && a % 2 == 1
    ensures !PowerOfTwo(a)
  {
    forall k: nat
      ensures Pow2(k) != a
    {
      assert k > 0 ==> Pow2(k) == 2 * Pow2(k - 1);
    }
  }

  lemma {:induction false} AllOnes(v: nat, w: nat)
    requires v < Pow2(w)
    ensures BitAnd(v, Pow2(w) - 1) == v
  {
    if v > 0 {
      assert Pow2(w) == 2 * Pow2(w - 1);
      assert (Pow2(w) - 1) / 2 == Pow2(w - 1) - 1;
      AllOnes(v / 2, w - 1);
    }
  }

  lemma ModTwice(v: nat, p: nat)
    requires p > 0
    ensures v % (2 * p) == 2 * ((v / 2) % p) + v % 2
  {
    var q, r := (v / 2) / p, (v / 2) % p;
    assert v / 2 == q * p + r;
    assert v == 2 * (v / 2) + v % 2;
    assert v == q * (2 * p) + (2 * r + v % 2);
    DivUnique(v, 2 * p, q, 2 * r + v % 2);
  }

  lemma BitAndDouble(v: nat, d: nat)
    ensures BitAnd(v, 2 * d) == 2 * BitAnd(v / 2, d)
  {
    assert (2 * d) / 2 == d && (2 * d) % 2 == 0;
  }

  /** Clearing the low `k` bits of a `w`-bit number subtracts its remainder modulo 2^k. */
  lemma {:induction false} ClearLowBits(v: nat, w: nat, k: nat)
    requires k <= w && v < Pow2(w)
    ensures Pow2(k) <= Pow2(w)
    ensures BitAnd(v, Pow2(w) - Pow2(k)) == v - v % Pow2(k)
    decreases k
  {
    if k == 0 {
      AllOnes(v, w);
    } else {
      var p, q := Pow2(k - 1), Pow2(w - 1);
      assert Pow2(k) == 2 * p && Pow2(w) == 2 * q;
      ClearLowBits(v / 2, w - 1, k - 1);
      ModTwice(v, p);
      hide BitAnd;
      BitAndDouble(v, q - p);
    }
  }

  // ---- Rounding ----

  lemma LeastMultipleIsMultiple(r: nat, value: nat, m: nat)
    requires LeastMultiple(r, value, m)
    ensures m > 0 && r % m == 0 && value <= r
  {
  }

  lemma LeastMultipleUnique(r: nat, s: nat, value: nat, m: nat)
    requires LeastMultiple(r, value, m) && LeastMultiple(s, value, m)
    ensures r == s
  {
    assert r == (r / m) * m && s == (s / m) * m;
  }

  lemma NextMultiple(value: nat, m: nat)
    requires m > 0
    ensures LeastMultiple(if value % m == 0 then value else value + (m - value % m), value, m)
  {
    var q := value / m;
    var r := if value % m == 0 then value else value + (m - value % m);
    assert value == q * m + value % m;
    var top := if value % m == 0 then q else q + 1;
    assert r == top * m + 0;
    DivUnique(r, m, top, 0);
    forall n {:trigger n * m} | value <= n * m
      ensures r <= n * m
    {
      if n < top {
        assert n * m <= (top - 1) * m;
      } else {
        assert n * m >= top * m;
      }
    }
  }

  /** Rounding to a page multiple succeeds exactly when the least multiple fits in a word, and is it. */
  lemma RoundUpMeaning(value: Word, multiple: Word)
    ensures RoundUpMultiple(value, multiple).Some? <==> exists r: Word :: LeastMultiple(r, value, multiple)
    ensures RoundUpMultiple(value, multiple).Some?
            ==> LeastMultiple(RoundUpMultiple(value, multiple).value, value, multiple)
  {
    if multiple > 0 {
      NextMultiple(value, multiple);
      var least := if value % multiple == 0 then value else value + (multiple - value % multiple);
      assert RoundUpMultiple(value, multiple) == if least <= SIZE_MAX then Some(least) else None;
      if exists r: Word :: LeastMultiple(r, value, multiple) {
        var r: Word :| LeastMultiple(r, value, multiple);
        LeastMultipleUnique(r, least, value, multiple);
      }
    }
  }

  lemma {:induction false} PowersIncrease(j: nat, k: nat)
    requires j < k
    ensures Pow2(j) < Pow2(k)
    decreases k
  {
    if j < k - 1 {
      PowersIncrease(j, k - 1);
    }
  }

  /** A power of two that fits in a word divides the modulus. */
  lemma {:induction false} PowerDividesModulus(a: Word) returns (k: nat, m: nat)
    requires PowerOfTwo(a)
    ensures Pow2(k) == a && k < WORD_BITS && MODULUS == a * m && m > 0
  {
    k :| Pow2(k) == a;
    Pow2OfWordBits();
    if k >= WORD_BITS {
      if k > WORD_BITS {
        PowersIncrease(WORD_BITS, k);
      }
      assert false;
    }
    m := Pow2(WORD_BITS - k);
    Pow2Add(k, WORD_BITS - k);
  }

  lemma MulOrder(a: nat, b: nat, n: nat)
    requires a <= b
    ensures a * n <= b * n
  {
  }

  lemma LeastQuotient(r: nat, value: nat, m: nat) returns (q: nat)
    requires LeastMultiple(r, value, m)
    ensures r == q * m && value <= r && m > 0
  {
    q := r / m;
  }

  lemma LeastAtMost(r: nat, value: nat, m: nat, n: nat)
    requires LeastMultiple(r, value, m) && value <= n * m
    ensures r <= n * m
  {
  }

  lemma OneLessTimes(m: nat, a: nat)
    requires m > 0
    ensures (m - 1) * a == a * m - a
  {
  }

  /** The least multiple of a power of two fits in a word exactly when adding the mask does not wrap. */
  lemma MaskGuardIsExact(value: Word, a: Word, least: nat)
    requires PowerOfTwo(a) && LeastMultiple(least, value, a)
    ensures least <= SIZE_MAX <==> value + (a - 1) <= SIZE_MAX
  {
    hide Pow2, PowerOfTwo, LeastMultiple;
    var k, m := PowerDividesModulus(a);
    var q := LeastQuotient(least, value, a);
    OneLessTimes(m, a);
    if q >= m {
      MulOrder(m, q, a);
    } else {
      MulOrder(q, m - 1, a);
    }
    if value <= (m - 1) * a {
      LeastAtMost(least, value, a, m - 1);
    }
  }

  /** Adding `a - 1` and dropping the remainder rounds up. */
  lemma SumRoundsUp(value: nat, a: nat)
    requires a > 0
    ensures LeastMultiple(value + (a - 1) - (value + (a - 1)) % a, value, a)
  {
    var sum := value + (a - 1);
    NextMultiple(value, a);
    var q, r := value / a, value % a;
    assert value == q * a + r;
    if r == 0 {
      DivUnique(sum, a, q, a - 1);
    } else {
      assert sum == (q + 1) * a + (r - 1);
      DivUnique(sum, a, q + 1, r - 1);
    }
  }

  /** The masked sum is the least multiple. */
  lemma MaskedSumIsLeast(value: Word, a: Word)
    requires PowerOfTwo(a) && value + (a - 1) <= SIZE_MAX
    ensures LeastMultiple(BitAnd(value + (a - 1), BitNot(a - 1)), value, a)
  {
    var k, m := PowerDividesModulus(a);
    Pow2OfWordBits();
    ClearLowBits(value + (a - 1), WORD_BITS, k);
    hide BitAnd, Pow2, PowerOfTwo, LeastMultiple;
    assert BitNot(a - 1) == Pow2(WORD_BITS) - Pow2(k);
    SumRoundsUp(value, a);
  }

  /**
   * The mask form of align-up: it fails exactly when the alignment is no power of two or the least
   * multiple does not fit in a word, and otherwise returns that least multiple.
   */
  lemma AlignUpMeaning(value: Word, alignment: Word)
    ensures AlignUpPow2(value, alignment).Some?
            <==> PowerOfTwo(alignment) && exists r: Word :: LeastMultiple(r, value, alignment)
    ensures AlignUpPow2(value, alignment).Some?
            ==> LeastMultiple(AlignUpPow2(value, alignment).value, value, alignment)
  {
    ZeroIsNoPower();
    hide Pow2, PowerOfTwo, LeastMultiple, BitAnd, WrapSub, WrapAdd;
    if alignment > 0 {
      WrapSubExact(alignment, 1);
      MaskTestFindsPowers(alignment);
      if PowerOfTwo(alignment) {
        AlignUpOfPower(value, alignment);
      }
    }
  }

  lemma ZeroIsNoPower()
    ensures !PowerOfTwo(0)
  {
    assert forall k: nat :: Pow2(k) > 0;
  }

  lemma AlignUpUnfolds(value: Word, a: Word)
    requires a > 0 && BitAnd(a, a - 1) == 0
    ensures AlignUpPow2(value, a)
            == if value + (a - 1) <= SIZE_MAX then Some(BitAnd(value + (a - 1), BitNot(a - 1))) else None
  {
    hide BitAnd, WrapSub, WrapAdd;
    WrapSubExact(a, 1);
    WrapSubExact(SIZE_MAX, a - 1);
    if value + (a - 1) <= SIZE_MAX {
      WrapAddExact(value, a - 1);
    }
  }

  lemma AlignUpOfPower(value: Word, a: Word)
    requires a > 0 && PowerOfTwo(a) && BitAnd(a, a - 1) == 0
    ensures AlignUpPow2(value, a).Some? <==> exists r: Word :: LeastMultiple(r, value, a)
    ensures AlignUpPow2(value, a).Some? ==> LeastMultiple(AlignUpPow2(value, a).value, value, a)
  {
    AlignUpUnfolds(value, a);
    hide BitAnd, Pow2, PowerOfTwo, LeastMultiple, AlignUpPow2;
    NextMultiple(value, a);
    var least := if value % a == 0 then value else value + (a - value % a);
    MaskGuardIsExact(value, a, least);
    if value + (a - 1) <= SIZE_MAX {
      MaskedSumIsLeast(value, a);
    }
    if exists r: Word :: LeastMultiple(r, value, a) {
      var r: Word :| LeastMultiple(r, value, a);
      LeastMultipleUnique(r, least, value, a);
    }
  }

  /** On powers of two the mask form and the remainder form are the same function. */
  lemma FormsAgree(value: Word, alignment: Word)
    requires PowerOfTwo(alignment)
    ensures AlignUpPow2(value, alignment) == RoundUpMultiple(value, alignment)
  {
    AlignUpMeaning(value, alignment);
    RoundUpMeaning(value, alignment);
    var a, b := AlignUpPow2(value, alignment), RoundUpMultiple(value, alignment);
    if a.Some? && b.Some? {
      LeastMultipleUnique(a.value, b.value, value, alignment);
    }
  }
}
