// Operations on whole ranges of a bitmap (bitmap.c).
module Bitmap {
  import opened Basics
  import opened Words
  import opened BitOps

  /** Bit k of the bitmap once bits [lo, hi) have been set (or cleared, for v false). */
  ghost predicate RangeIs(was: seq<Word>, now: seq<Word>, lo: nat, hi: nat, v: bool) {
    |now| == |was| && forall k: nat :: k < |was| * BITS ==> (At(now, k) <==> if lo <= k < hi then v else At(was, k))
  }

  /** Word p has its bits [lo, hi) set or cleared, the other words are as they were. */
  lemma OneWord(was: seq<Word>, mid: seq<Word>, now: seq<Word>, start: nat, p: nat, lo: nat, hi: nat, v: bool)
    requires p < |mid| && lo <= hi <= BITS && |now| == |mid| && RangeIs(was, mid, start, p * BITS + lo, v)
    requires start <= p * BITS + lo
    requires forall q :: 0 <= q < |mid| && q != p ==> now[q] == mid[q]
    requires forall i :: 0 <= i < BITS ==> (Bit(now[p], i) <==> if lo <= i < hi then v else Bit(mid[p], i))
    ensures RangeIs(was, now, start, p * BITS + hi, v)
  {
    hide Bit;
    forall k: nat | k < |was| * BITS
      ensures At(now, k) <==> if start <= k < p * BITS + hi then v else At(was, k)
    {
      assert At(mid, k) <==> if start <= k < p * BITS + lo then v else At(was, k);
      if k / BITS == p {
        assert Bit(now[p], k % BITS) <==> if lo <= k % BITS < hi then v else Bit(mid[p], k % BITS);
      }
    }
  }

  /** mask has exactly the bits [lo, hi). */
  ghost predicate MaskIs(mask: Word, lo: nat, hi: nat) {
    forall i :: 0 <= i < BITS ==> (Bit(mask, i) <==> lo <= i < hi)
  }

  lemma FirstMask(start: nat)
    ensures MaskIs(Shl(ONES, start % BITS), start % BITS, BITS)
  {
    hide Bit, Shl;
    forall i | 0 <= i < BITS
      ensures Bit(Shl(ONES, start % BITS), i) <==> start % BITS <= i
    {
      BitHighMask(start % BITS, i);
    }
  }

  lemma FullMask()
    ensures MaskIs(ONES, 0, BITS)
  {
    hide Bit;
    forall i | 0 <= i < BITS
      ensures Bit(ONES, i)
    {
      BitOnes(i);
    }
  }

  lemma CutMask(mask: Word, lo: nat, size: nat)
    requires MaskIs(mask, lo, BITS) && size % BITS != 0
    ensures MaskIs(And(mask, LastWordMask(size)), lo, size % BITS)
  {
    hide Bit, And, LastWordMask;
    forall i | 0 <= i < BITS
      ensures Bit(And(mask, LastWordMask(size)), i) <==> Bit(mask, i) && i < size % BITS
    {
      BitAnd(mask, LastWordMask(size), i);
      BitLastWordMask(size, i);
    }
  }

  /** *p |= mask or *p &= ~mask */
  function Applied(w: Word, mask: Word, v: bool): Word {
    if v then Or(w, mask) else And(w, Not(mask))
  }

  lemma AppliedIs(w: Word, mask: Word, lo: nat, hi: nat, v: bool)
    requires MaskIs(mask, lo, hi)
    ensures forall i :: 0 <= i < BITS ==> (Bit(Applied(w, mask, v), i) <==> if lo <= i < hi then v else Bit(w, i))
  {
    hide Bit, And, Or, Not;
    forall i | 0 <= i < BITS
      ensures Bit(Applied(w, mask, v), i) <==> if lo <= i < hi then v else Bit(w, i)
    {
      BitOr(w, mask, i);
      BitAnd(w, Not(mask), i);
      BitNot(mask, i);
    }
  }

  lemma StepWord(was: seq<Word>, mid: seq<Word>, start: nat, p: nat, mask: Word, lo: nat, hi: nat, v: bool)
    requires p < |mid| && lo <= hi <= BITS && RangeIs(was, mid, start, p * BITS + lo, v)
    requires start <= p * BITS + lo && MaskIs(mask, lo, hi)
    ensures RangeIs(was, mid[p := Applied(mid[p], mask, v)], start, p * BITS + hi, v)
  {
    hide Bit, Applied, MaskIs;
    AppliedIs(mid[p], mask, lo, hi, v);
    OneWord(was, mid, mid[p := Applied(mid[p], mask, v)], start, p, lo, hi, v);
  }

  /** One word of bitmap_set or bitmap_clear: the bits of mask are set or cleared in word p. */
  method PutWord(bits: array<Word>, ghost was: seq<Word>, ghost start: nat, p: nat, mask: Word, ghost lo: nat,
                 ghost hi: nat, v: bool)
    requires p < bits.Length && lo <= hi <= BITS && RangeIs(was, bits[..], start, p * BITS + lo, v)
    requires start <= p * BITS + lo && MaskIs(mask, lo, hi)
    modifies bits
    ensures RangeIs(was, bits[..], start, p * BITS + hi, v)
  {
    hide RangeIs, MaskIs, And, Or, Not;
    StepWord(was, bits[..], start, p, mask, lo, hi, v);
    bits[p] := Applied(bits[p], mask, v);
    assert bits[..] == old(bits[..])[p := Applied(old(bits[p]), mask, v)];
  }

  /** bitmap_set: exactly bits [start, start + nr) change, to one. */
  method Set(bits: array<Word>, start: nat, nr0: nat)
    requires start + nr0 <= bits.Length * BITS
    modifies bits
    ensures RangeIs(old(bits[..]), bits[..], start, start + nr0, true)
  {
    hide Bit, RangeIs, MaskIs, Shl, LastWordMask, And, Or, Not;
    var p, nr, size := start / BITS, nr0, start + nr0;
    var toSet := BITS - start % BITS;
    ghost var pos := start;
    var mask := Shl(ONES, start % BITS);
    FirstMask(start);
    Untouched(bits[..], start, true);
    while nr - toSet >= 0
      invariant 0 <= nr && 0 < toSet <= BITS && start <= pos == p * BITS + (BITS - toSet)
      invariant pos + nr == size && MaskIs(mask, BITS - toSet, BITS)
      invariant RangeIs(old(bits[..]), bits[..], start, pos, true)
    {
      PutWord(bits, old(bits[..]), start, p, mask, BITS - toSet, BITS, true);
      nr, pos := nr - toSet, pos + toSet;
      toSet := BITS;
      mask := ONES;
      FullMask();
      p := p + 1;
    }
    if nr != 0 {
      CutMask(mask, BITS - toSet, size);
      mask := And(mask, LastWordMask(size));
      PutWord(bits, old(bits[..]), start, p, mask, BITS - toSet, size % BITS, true);
    }
  }

  lemma Untouched(bits: seq<Word>, k: nat, v: bool)
    ensures RangeIs(bits, bits, k, k, v)
  {
  }

  /** bitmap_clear: exactly bits [start, start + nr) change, to zero. */
  method Clear(bits: array<Word>, start: nat, nr0: nat)
    requires start + nr0 <= bits.Length * BITS
    modifies bits
    ensures RangeIs(old(bits[..]), bits[..], start, start + nr0, false)
  {
    hide Bit, RangeIs, MaskIs, Shl, LastWordMask, And, Or, Not;
    var p, nr, size := start / BITS, nr0, start + nr0;
    var toClear := BITS - start % BITS;
    ghost var pos := start;
    var mask := Shl(ONES, start % BITS);
    FirstMask(start);
    Untouched(bits[..], start, false);
    while nr - toClear >= 0
      invariant 0 <= nr && 0 < toClear <= BITS && start <= pos == p * BITS + (BITS - toClear)
      invariant pos + nr == size && MaskIs(mask, BITS - toClear, BITS)
      invariant RangeIs(old(bits[..]), bits[..], start, pos, false)
    {
      PutWord(bits, old(bits[..]), start, p, mask, BITS - toClear, BITS, false);
      nr, pos := nr - toClear, pos + toClear;
      toClear := BITS;
      mask := ONES;
      FullMask();
      p := p + 1;
    }
    if nr != 0 {
      CutMask(mask, BITS - toClear, size);
      mask := And(mask, LastWordMask(size));
      PutWord(bits, old(bits[..]), start, p, mask, BITS - toClear, size % BITS, false);
    }
  }

  // ---------- questions about the first n bits ----------

  /** The last word's bits below n, as a test of the whole word. */
  lemma LastBits(w: Word, n: nat)
    requires n % BITS != 0
    ensures And(w, LastWordMask(n)) != 0 <==> exists i :: 0 <= i < n % BITS && Bit(w, i)
  {
    hide Bit, And, LastWordMask;
    NonZero(And(w, LastWordMask(n)));
    forall i | 0 <= i < BITS
      ensures Bit(And(w, LastWordMask(n)), i) <==> i < n % BITS && Bit(w, i)
    {
      BitAnd(w, LastWordMask(n), i);
      BitLastWordMask(n, i);
    }
  }

  lemma WordClear(words: seq<Word>, p: nat, hi: nat)
    requires p < |words| && hi <= BITS
    ensures p * BITS + hi <= |words| * BITS
    ensures NoneSet(words, p * BITS, p * BITS + hi) <==> forall i :: 0 <= i < hi ==> !Bit(words[p], i)
  {
    hide Bit, At;
    if NoneSet(words, p * BITS, p * BITS + hi) {
      forall i | 0 <= i < hi
        ensures !Bit(words[p], i)
      {
        WordAt(words, p, i);
      }
    } else {
      var k: nat :| p * BITS <= k < p * BITS + hi && At(words, k);
      WordAt(words, p, k - p * BITS);
    }
  }

  /** One more word looked at: it is zero exactly when none of its bits is set. */
  lemma WordStep(words: seq<Word>, p: nat)
    requires p < |words| && NoneSet(words, 0, p * BITS)
    ensures words[p] == 0 <==> NoneSet(words, 0, (p + 1) * BITS)
  {
    hide Bit, At;
    WordClear(words, p, BITS);
    NonZero(words[p]);
    Joined(words, 0, p * BITS, (p + 1) * BITS);
  }

  lemma LastStep(words: seq<Word>, n: nat)
    requires n <= |words| * BITS && n % BITS != 0 && NoneSet(words, 0, n / BITS * BITS)
    ensures And(words[n / BITS], LastWordMask(n)) == 0 <==> NoneSet(words, 0, n)
  {
    hide Bit, At, And, LastWordMask;
    WordClear(words, n / BITS, n % BITS);
    LastBits(words[n / BITS], n);
    Joined(words, 0, n / BITS * BITS, n);
  }

  lemma Shorter(words: seq<Word>, a: nat, b: nat)
    requires a <= b <= |words| * BITS && !NoneSet(words, 0, a)
    ensures !NoneSet(words, 0, b)
  {
  }

  /** slow_bitmap_empty */
  method Empty(bits: array<Word>, n: nat) returns (r: bool)
    requires n <= bits.Length * BITS
    ensures r <==> NoneSet(bits[..], 0, n)
  {
    hide At, NoneSet, And, LastWordMask;
    NoBits(bits[..], 0);
    for k := 0 to n / BITS
      invariant NoneSet(bits[..], 0, k * BITS)
    {
      WordStep(bits[..], k);
      if bits[k] != 0 {
        Shorter(bits[..], (k + 1) * BITS, n);
        return false;
      }
    }
    if n % BITS != 0 {
      LastStep(bits[..], n);
      if And(bits[n / BITS], LastWordMask(n)) != 0 {
        return false;
      }
    }
    return true;
  }

  ghost function Complement(words: seq<Word>): (r: seq<Word>)
    ensures |r| == |words| && forall k :: 0 <= k < |r| ==> r[k] == Not(words[k])
  {
    seq(|words|, k requires 0 <= k < |words| => Not(words[k]))
  }

  lemma ComplementClear(words: seq<Word>, n: nat)
    requires n <= |words| * BITS
    ensures NoneSet(Complement(words), 0, n) <==> AllSet(words, 0, n)
  {
    hide Bit, Not;
    forall k: nat | k < |words| * BITS
      ensures At(Complement(words), k) <==> !At(words, k)
    {
      BitNot(words[k / BITS], k % BITS);
    }
  }

  /** slow_bitmap_full */
  method Full(bits: array<Word>, n: nat) returns (r: bool)
    requires n <= bits.Length * BITS
    ensures r <==> AllSet(bits[..], 0, n)
  {
    hide At, NoneSet, AllSet, And, LastWordMask, Not, Complement;
    ghost var words := Complement(bits[..]);
    ComplementClear(bits[..], n);
    NoBits(words, 0);
    for k := 0 to n / BITS
      invariant NoneSet(words, 0, k * BITS)
    {
      WordStep(words, k);
      if Not(bits[k]) != 0 {
        Shorter(words, (k + 1) * BITS, n);
        return false;
      }
    }
    if n % BITS != 0 {
      LastStep(words, n);
      if And(Not(bits[n / BITS]), LastWordMask(n)) != 0 {
        return false;
      }
    }
    return true;
  }

  ghost function Difference(a: seq<Word>, b: seq<Word>): (r: seq<Word>)
    requires |a| == |b|
    ensures |r| == |a| && forall k :: 0 <= k < |r| ==> r[k] == Xor(a[k], b[k])
  {
    seq(|a|, k requires 0 <= k < |a| => Xor(a[k], b[k]))
  }

  ghost predicate SameUpTo(a: seq<Word>, b: seq<Word>, n: nat)
    requires n <= |a| * BITS && |a| == |b|
  {
    forall k: nat :: k < n ==> (At(a, k) <==> At(b, k))
  }

  lemma DifferenceClear(a: seq<Word>, b: seq<Word>, n: nat)
    requires n <= |a| * BITS && |a| == |b|
    ensures NoneSet(Difference(a, b), 0, n) <==> SameUpTo(a, b, n)
  {
    hide Bit, Xor;
    forall k: nat | k < |a| * BITS
      ensures At(Difference(a, b), k) <==> At(a, k) != At(b, k)
    {
      BitXor(a[k / BITS], b[k / BITS], k % BITS);
    }
  }

  /** slow_bitmap_equal */
  method Equal(a: array<Word>, b: array<Word>, n: nat) returns (r: bool)
    requires n <= a.Length * BITS && a.Length == b.Length
    ensures r <==> SameUpTo(a[..], b[..], n)
  {
    hide At, NoneSet, SameUpTo, And, LastWordMask, Xor, Difference;
    ghost var words := Difference(a[..], b[..]);
    DifferenceClear(a[..], b[..], n);
    NoBits(words, 0);
    for k := 0 to n / BITS
      invariant NoneSet(words, 0, k * BITS)
    {
      WordStep(words, k);
      XorZero(a[k], b[k]);
      if a[k] != b[k] {
        Shorter(words, (k + 1) * BITS, n);
        return false;
      }
    }
    if n % BITS != 0 {
      LastStep(words, n);
      if And(Xor(a[n / BITS], b[n / BITS]), LastWordMask(n)) != 0 {
        return false;
      }
    }
    return true;
  }

  ghost function Meet(a: seq<Word>, b: seq<Word>): (r: seq<Word>)
    requires |a| == |b|
    ensures |r| == |a| && forall k :: 0 <= k < |r| ==> r[k] == And(a[k], b[k])
  {
    seq(|a|, k requires 0 <= k < |a| => And(a[k], b[k]))
  }

  ghost predicate BothSet(a: seq<Word>, b: seq<Word>, n: nat)
    requires n <= |a| * BITS && |a| == |b|
  {
    exists k: nat :: k < n && At(a, k) && At(b, k)
  }

  lemma MeetClear(a: seq<Word>, b: seq<Word>, n: nat)
    requires n <= |a| * BITS && |a| == |b|
    ensures NoneSet(Meet(a, b), 0, n) <==> !BothSet(a, b, n)
  {
    hide Bit, And;
    forall k: nat | k < |a| * BITS
      ensures At(Meet(a, b), k) <==> At(a, k) && At(b, k)
    {
      BitAnd(a[k / BITS], b[k / BITS], k % BITS);
    }
  }

  /** slow_bitmap_intersects */
  method Intersects(a: array<Word>, b: array<Word>, n: nat) returns (r: bool)
    requires n <= a.Length * BITS && a.Length == b.Length
    ensures r <==> BothSet(a[..], b[..], n)
  {
    hide At, NoneSet, BothSet, And, LastWordMask, Meet;
    ghost var words := Meet(a[..], b[..]);
    MeetClear(a[..], b[..], n);
    NoBits(words, 0);
    for k := 0 to n / BITS
      invariant NoneSet(words, 0, k * BITS)
    {
      WordStep(words, k);
      if And(a[k], b[k]) != 0 {
        Shorter(words, (k + 1) * BITS, n);
        return true;
      }
    }
    if n % BITS != 0 {
      LastStep(words, n);
      if And(And(a[n / BITS], b[n / BITS]), LastWordMask(n)) != 0 {
        return true;
      }
    }
    return false;
  }

  // ---------- the search for a free area ----------

  function Times(q: nat, align: nat): nat { q * align }

  ghost predicate Multiple(k: nat, align: nat) { exists q: nat :: Times(q, align) == k }

  /** The next multiple. */
  function AlignUp(x: nat, align: nat): (r: nat)
    requires 0 < align
    ensures Multiple(r, align) && x <= r < x + align
  {
    RoundUpIs(x, align);
    Times((x + align - 1) / align, align)
  }

  lemma RoundUpIs(x: nat, align: nat)
    requires 0 < align
    ensures x <= Times((x + align - 1) / align, align) < x + align
  {
    var n := x + align - 1;
    assert n == align * (n / align) + n % align;
  }

  lemma {:induction false} TimesOrder(a: nat, b: nat, align: nat)
    requires a < b
    decreases b
    ensures Times(a, align) + align <= Times(b, align)
  {
    hide Times;
    if a + 1 < b {
      TimesOrder(a, b - 1, align);
    }
    TimesNext(b - 1, align);
  }

  lemma TimesNext(a: nat, align: nat)
    ensures Times(a + 1, align) == Times(a, align) + align
  {
  }

  /** The next multiple is the least one. */
  lemma AlignUpLeast(x: nat, align: nat, y: nat)
    requires 0 < align && x <= y && Multiple(y, align)
    ensures AlignUp(x, align) <= y
  {
    hide AlignUp, Times;
    var r := AlignUp(x, align);
    var a: nat :| Times(a, align) == y;
    var b: nat :| Times(b, align) == r;
    if a < b {
      TimesOrder(a, b, align);
    } else if b < a {
      TimesOrder(b, a, align);
    }
  }

  // ---------- ALIGN_MASK ----------

  const WORD := 0x1_0000_0000_0000_0000

  /** The bitwise and of two unsigned numbers, bit by bit. */
  function BitwiseAnd(x: nat, y: nat): nat {
    if x == 0 then 0 else x % 2 * (y % 2) + 2 * BitwiseAnd(x / 2, y / 2)
  }

  function Wrap(x: nat): nat { x % WORD }

  lemma NoWrap(x: nat)
    requires x < WORD
    ensures Wrap(x) == x
  {
  }

  /** (x + mask) & ~mask in unsigned 64-bit arithmetic. */
  function AlignMask(x: nat, mask: nat): nat
    requires mask < WORD
  {
    BitwiseAnd(Wrap(x + mask), WORD - 1 - mask)
  }

  lemma {:induction false} PowerAdd(m: nat, n: nat)
    ensures Power(m + n) == Power(m) * Power(n)
    decreases n
  {
    if n > 0 {
      PowerAdd(m, n - 1);
      Commute(Power(m), Power(n - 1));
    }
  }

  lemma Commute(a: nat, b: nat)
    ensures 2 * (a * b) == a * (2 * b)
  {
  }

  lemma WordIsPower()
    ensures Power(64) == WORD
  {
    assert Power(4) == 16;
    hide Power;
    PowerAdd(4, 4);
    PowerAdd(8, 8);
    PowerAdd(16, 16);
    PowerAdd(32, 32);
  }

  lemma {:induction false} PowerOrder(m: nat, n: nat)
    requires m <= n
    ensures 0 < Power(m) <= Power(n)
    decreases n
  {
    if m < n {
      PowerOrder(m, n - 1);
    } else if n > 0 {
      PowerOrder(m - 1, n - 1);
    }
  }

  lemma {:induction false} AndOnes(x: nat, w: nat)
    requires x < Power(w)
    ensures BitwiseAnd(x, Power(w) - 1) == x
    decreases w
  {
    if w > 0 && x > 0 {
      AndOnes(x / 2, w - 1);
      assert (Power(w) - 1) / 2 == Power(w - 1) - 1 && (Power(w) - 1) % 2 == 1;
    }
  }

  /** Clearing the low k bits takes off the remainder by 2^k. */
  lemma {:induction false} AndHighBits(x: nat, w: nat, k: nat)
    requires x < Power(w) && k <= w
    ensures Power(k) <= Power(w) && 0 < Power(k) && BitwiseAnd(x, Power(w) - Power(k)) == x - x % Power(k)
    decreases k
  {
    hide BitwiseAnd;
    PowerOrder(k, w);
    if k == 0 {
      AndOnes(x, w);
      OneDivides(x);
    } else {
      AndHighBits(x / 2, w - 1, k - 1);
      AndEven(x, Power(w - 1) - Power(k - 1));
      HalfRemainder(x, Power(k - 1));
    }
  }

  lemma AndEven(x: nat, y: nat)
    ensures BitwiseAnd(x, 2 * y) == 2 * BitwiseAnd(x / 2, y)
  {
    assert (2 * y) / 2 == y && (2 * y) % 2 == 0;
  }

  lemma OneDivides(x: nat)
    ensures x % 1 == 0
  {
  }

  lemma HalfRemainder(x: nat, b: nat)
    requires 0 < b
    ensures x % (2 * b) == 2 * (x / 2 % b) + x % 2
  {
    var q, r := x / 2 / b, x / 2 % b;
    assert x / 2 == b * q + r;
    assert x == (2 * b) * q + (2 * r + x % 2) by {
      assert x == 2 * (x / 2) + x % 2;
      assert 2 * (b * q) == (2 * b) * q;
    }
    RemainderIs(x, 2 * b, q, 2 * r + x % 2);
  }

  lemma TimesIs(q: nat, align: nat)
    ensures Times(q, align) == align * q
  {
  }

  lemma RemainderIs(x: nat, d: nat, q: nat, r: nat)
    requires 0 < d && x == d * q + r && r < d
    ensures x % d == r
  {
    hide Times;
    var p := x / d;
    RoundDown(x, d);
    TimesIs(q, d);
    if p < q {
      TimesOrder(p, q, d);
    } else if q < p {
      TimesOrder(q, p, d);
    }
  }

  /** For a mask one less than a power of two and no wrap-around, the mask arithmetic rounds up to
      the next multiple. */
  lemma AlignMaskIs(x: nat, mask: nat, k: nat)
    requires mask + 1 == Power(k) && x + mask < WORD
    ensures AlignMask(x, mask) == AlignUp(x, mask + 1)
  {
    hide BitwiseAnd, Times, Power, Wrap, AlignUp;
    WordIsPower();
    NoWrap(x + mask);
    AlignUpBody(x, mask + 1);
    if k > 64 {
      PowerOrder(65, k);
      MorePower();
    }
    AndHighBits(x + mask, 64, k);
    assert WORD - 1 - mask == Power(64) - Power(k);
    RoundDown(x + mask, mask + 1);
  }

  lemma AlignUpBody(x: nat, align: nat)
    requires 0 < align
    ensures AlignUp(x, align) == Times((x + align - 1) / align, align)
  {
  }

  lemma MorePower()
    ensures Power(65) == 2 * Power(64)
  {
  }

  lemma RoundDown(n: nat, align: nat)
    requires 0 < align
    ensures n - n % align == Times(n / align, align)
  {
    assert n == align * (n / align) + n % align;
  }

  ghost predicate IsMask(mask: nat) { exists k: nat :: Power(k) == mask + 1 }

  /** An area of nr clear bits at an aligned place, within size. */
  ghost predicate FreeArea(bits: seq<Word>, size: nat, align: nat, nr: nat, k: nat)
    requires size <= |bits| * BITS && 0 < align
  {
    Multiple(k, align) && k + nr <= size && NoneSet(bits, k, k + nr)
  }

  ghost predicate NoArea(bits: seq<Word>, size: nat, align: nat, nr: nat, start: nat)
    requires size <= |bits| * BITS && 0 < align
  {
    forall k: nat :: start <= k ==> !FreeArea(bits, size, align, nr, k)
  }

  ghost predicate NoAreaBefore(bits: seq<Word>, size: nat, align: nat, nr: nat, start: nat, index: nat)
    requires size <= |bits| * BITS && 0 < align
  {
    forall k: nat :: start <= k < index ==> !FreeArea(bits, size, align, nr, k)
  }

  /** z is what find_next_zero_bit answers. */
  ghost predicate NextZero(bits: seq<Word>, size: nat, start: nat, z: nat)
    requires size <= |bits| * BITS
  {
    if start < size then start <= z <= size && AllSet(bits, start, z) && (z < size ==> !At(bits, z)) else z == size
  }

  /** bitmap_find_next_zero_area: the least aligned free area from start on; a result beyond size,
      which is then an aligned index plus nr, exactly when there is none. For no bits at all the
      result is the next clear bit, rounded up. */
  method FindNextZeroArea(bits: array<Word>, size: nat, start0: nat, nr: nat, mask: nat) returns (r: nat)
    requires size <= bits.Length * BITS && IsMask(mask) && size + mask + nr < WORD
    ensures nr == 0 ==> exists z: nat :: NextZero(bits[..], size, start0, z) && r == AlignUp(z, mask + 1)
    ensures 0 < nr && r <= size ==>
              start0 <= r && FreeArea(bits[..], size, mask + 1, nr, r) &&
              NoAreaBefore(bits[..], size, mask + 1, nr, start0, r)
    ensures 0 < nr && r > size ==>
              NoAreaBefore(bits[..], size, mask + 1, nr, start0, size + 1) && nr <= r < WORD &&
              Multiple(r - nr, mask + 1)
    ensures 0 < nr ==> (r > size <==> NoArea(bits[..], size, mask + 1, nr, start0))
  {
    hide At, AlignUp, Multiple, AlignMask, Power;
    ghost var align := mask + 1;
    ghost var shift: nat :| Power(shift) == align;
    var start := start0;
    while true
      invariant start0 <= start && (nr == 0 ==> start == start0)
      invariant 0 < nr ==> NoAreaBefore(bits[..], size, align, nr, start0, start)
      decreases size - start
    {
      var zero := FindNextZeroBit(bits, size, start);
      AlignMaskIs(zero, mask, shift);
      var index := AlignMask(zero, mask);
      if nr == 0 {
        assert NextZero(bits[..], size, start0, zero) && index == AlignUp(zero, align);
      } else {
        SkipTaken(bits[..], size, align, nr, start0, start, zero, index);
      }
      var end := index + nr;
      if end > size {
        return end;
      }
      ghost var same := bits[..];
      var i := FindNextBit(bits, end, index);
      assert bits[..] == same;
      if i >= end {
        return index;
      }
      start := i + 1;
    }
  }

  /** No area begins between start and the aligned place of the next clear bit. */
  lemma SkipTaken(bits: seq<Word>, size: nat, align: nat, nr: nat, start0: nat, start: nat, zero: nat, index: nat)
    requires size <= |bits| * BITS && 0 < nr && 0 < align && start0 <= start
    requires if start < size then start <= zero <= size && AllSet(bits, start, zero) else zero == size
    requires index == AlignUp(zero, align) && NoAreaBefore(bits, size, align, nr, start0, start)
    ensures NoAreaBefore(bits, size, align, nr, start0, index)
  {
    hide At, AlignUp, Multiple;
    forall k: nat | start0 <= k < index
      ensures !FreeArea(bits, size, align, nr, k)
    {
      if start <= k < zero {
        assert k < size ==> At(bits, k);
      } else if zero <= k && Multiple(k, align) {
        AlignUpLeast(zero, align, k);
      }
    }
  }
}
