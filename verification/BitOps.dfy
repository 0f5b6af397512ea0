// The searches over a bitmap of 64-bit words (bitops.c), against the bitmap as a row of booleans.
module BitOps {
  import opened Words

  /** Bit k of a bitmap. */
  predicate At(bits: seq<Word>, k: nat)
    requires k < |bits| * BITS
  {
    Bit(bits[k / BITS], k % BITS)
  }

  lemma WordAt(bits: seq<Word>, p: nat, i: nat)
    requires p < |bits| && i < BITS
    ensures p * BITS + i < |bits| * BITS && (At(bits, p * BITS + i) <==> Bit(bits[p], i))
  {
    hide Bit;
  }

  predicate NoneSet(bits: seq<Word>, lo: nat, hi: nat)
    requires hi <= |bits| * BITS
  {
    forall k: nat :: lo <= k < hi ==> !At(bits, k)
  }

  predicate AllSet(bits: seq<Word>, lo: nat, hi: nat)
    requires hi <= |bits| * BITS
  {
    forall k: nat :: lo <= k < hi ==> At(bits, k)
  }

  /** tmp is word p of the bitmap with everything outside bits lo to hi blanked to fill. */
  ghost predicate Window(bits: seq<Word>, p: nat, tmp: Word, lo: nat, hi: nat, fill: bool)
    requires p < |bits|
  {
    forall i :: 0 <= i < BITS ==> (Bit(tmp, i) <==> if lo <= i < hi then Bit(bits[p], i) else fill)
  }

  lemma WholeWord(bits: seq<Word>, p: nat)
    requires p < |bits|
    ensures Window(bits, p, bits[p], 0, BITS, false) && Window(bits, p, bits[p], 0, BITS, true)
  {
  }

  lemma MaskBelow(bits: seq<Word>, p: nat, lo: nat)
    requires p < |bits| && lo < BITS
    ensures Window(bits, p, And(bits[p], Shl(ONES, lo)), lo, BITS, false)
    ensures Window(bits, p, Or(bits[p], Shr(ONES, BITS - lo)), lo, BITS, true)
  {
    hide Bit, And, Or, Shl, Shr;
    forall i | 0 <= i < BITS
      ensures Bit(And(bits[p], Shl(ONES, lo)), i) <==> lo <= i && Bit(bits[p], i)
      ensures Bit(Or(bits[p], Shr(ONES, BITS - lo)), i) <==> i < lo || Bit(bits[p], i)
    {
      BitAnd(bits[p], Shl(ONES, lo), i);
      BitHighMask(lo, i);
      BitOr(bits[p], Shr(ONES, BITS - lo), i);
      BitLowMask(lo, i);
    }
  }

  lemma MaskAbove(bits: seq<Word>, p: nat, tmp: Word, lo: nat, hi: nat)
    requires p < |bits| && hi <= BITS
    ensures Window(bits, p, tmp, lo, BITS, false) ==> Window(bits, p, And(tmp, Shr(ONES, BITS - hi)), lo, hi, false)
    ensures Window(bits, p, tmp, lo, BITS, true) ==> Window(bits, p, Or(tmp, Shl(ONES, hi)), lo, hi, true)
  {
    hide Bit, And, Or, Shl, Shr;
    forall i | 0 <= i < BITS
      ensures Bit(And(tmp, Shr(ONES, BITS - hi)), i) <==> i < hi && Bit(tmp, i)
      ensures Bit(Or(tmp, Shl(ONES, hi)), i) <==> hi <= i || Bit(tmp, i)
    {
      BitAnd(tmp, Shr(ONES, BITS - hi), i);
      BitLowMask(hi, i);
      BitOr(tmp, Shl(ONES, hi), i);
      BitHighMask(hi, i);
    }
  }

  /** A blank window has no set bit between lo and hi. */
  lemma EmptyWindow(bits: seq<Word>, p: nat, lo: nat, hi: nat)
    requires p < |bits| && hi <= BITS && Window(bits, p, 0, lo, hi, false)
    ensures p * BITS + hi <= |bits| * BITS && NoneSet(bits, p * BITS + lo, p * BITS + hi)
  {
    hide Bit;
    forall k: nat | p * BITS + lo <= k < p * BITS + hi
      ensures !At(bits, k)
    {
      WordAt(bits, p, k - p * BITS);
      BitZero(k - p * BITS);
      assert !Bit(0, k - p * BITS);
    }
  }

  lemma FullWindow(bits: seq<Word>, p: nat, lo: nat, hi: nat)
    requires p < |bits| && hi <= BITS && Window(bits, p, ONES, lo, hi, true)
    ensures p * BITS + hi <= |bits| * BITS && AllSet(bits, p * BITS + lo, p * BITS + hi)
  {
    hide Bit;
    forall k: nat | p * BITS + lo <= k < p * BITS + hi
      ensures At(bits, k)
    {
      WordAt(bits, p, k - p * BITS);
      BitOnes(k - p * BITS);
      assert Bit(ONES, k - p * BITS);
    }
  }

  /** The lowest set bit of a window is the next set bit of the bitmap. */
  method FirstInWindow(bits: array<Word>, p: nat, tmp: Word, ghost lo: nat, ghost hi: nat) returns (r: nat)
    requires p < bits.Length && hi <= BITS && tmp != 0 && Window(bits[..], p, tmp, lo, hi, false)
    ensures p * BITS + lo <= r < p * BITS + hi <= bits.Length * BITS && At(bits[..], r) &&
            NoneSet(bits[..], p * BITS + lo, r)
  {
    hide Bit;
    var n := FirstSet(tmp);
    r := p * BITS + n;
    WordAt(bits[..], p, n);
    forall k: nat | p * BITS + lo <= k < r
      ensures !At(bits[..], k)
    {
      WordAt(bits[..], p, k - p * BITS);
      assert !Bit(tmp, k - p * BITS);
    }
  }

  method FirstZeroInWindow(bits: array<Word>, p: nat, tmp: Word, ghost lo: nat, ghost hi: nat) returns (r: nat)
    requires p < bits.Length && hi <= BITS && Not(tmp) != 0 && Window(bits[..], p, tmp, lo, hi, true)
    ensures p * BITS + lo <= r < p * BITS + hi <= bits.Length * BITS && !At(bits[..], r) &&
            AllSet(bits[..], p * BITS + lo, r)
  {
    hide Bit, Not;
    var n := FirstZero(tmp);
    r := p * BITS + n;
    WordAt(bits[..], p, n);
    forall k: nat | p * BITS + lo <= k < r
      ensures At(bits[..], k)
    {
      WordAt(bits[..], p, k - p * BITS);
      assert Bit(tmp, k - p * BITS);
    }
  }

  lemma NotZero(w: Word)
    ensures Not(w) == 0 <==> w == ONES
  {
  }

  lemma Joined(bits: seq<Word>, a: nat, b: nat, c: nat)
    requires a <= b <= c <= |bits| * BITS
    ensures NoneSet(bits, a, b) && NoneSet(bits, b, c) ==> NoneSet(bits, a, c)
    ensures AllSet(bits, a, b) && AllSet(bits, b, c) ==> AllSet(bits, a, c)
  {
    hide At;
  }

  /** find_next_bit: the least set bit from offset on, or size. */
  method FindNextBit(bits: array<Word>, size: nat, offset: nat) returns (r: nat)
    requires size <= bits.Length * BITS
    ensures offset >= size ==> r == size
    ensures offset < size ==> offset <= r <= size && (r < size ==> At(bits[..], r)) && NoneSet(bits[..], offset, r)
  {
    hide At, Window, And, Shl, Shr, NoneSet;
    if offset >= size {
      return size;
    }
    var p := offset / BITS;
    var result := p * BITS;
    var left := size - result;
    var off := offset % BITS;
    NoBits(bits[..], offset);
    if off != 0 {
      var tmp := And(bits[p], Shl(ONES, off));
      MaskBelow(bits[..], p, off);
      if left < BITS {
        r := FindInLast(bits, p, tmp, off, left);
        return;
      }
      if tmp != 0 {
        r := FirstInWindow(bits, p, tmp, off, BITS);
        return;
      }
      EmptyWindow(bits[..], p, off, BITS);
      p, left, result := p + 1, left - BITS, result + BITS;
    }
    while left >= BITS
      invariant 0 <= left && result == p * BITS && result + left == size && offset <= result &&
                NoneSet(bits[..], offset, result)
    {
      var tmp := bits[p];
      WholeWord(bits[..], p);
      if tmp != 0 {
        r := FirstInWindow(bits, p, tmp, 0, BITS);
        Joined(bits[..], offset, result, r);
        return;
      }
      EmptyWindow(bits[..], p, 0, BITS);
      Joined(bits[..], offset, result, result + BITS);
      p, left, result := p + 1, left - BITS, result + BITS;
    }
    if left == 0 {
      return result;
    }
    WholeWord(bits[..], p);
    r := FindInLast(bits, p, bits[p], 0, left);
    Joined(bits[..], offset, result, r);
  }

  lemma NoBits(bits: seq<Word>, k: nat)
    requires k <= |bits| * BITS
    ensures NoneSet(bits, k, k) && AllSet(bits, k, k)
  {
  }

  /** The label found_first of find_next_bit. */
  method FindInLast(bits: array<Word>, p: nat, word: Word, ghost lo: nat, left: nat) returns (r: nat)
    requires p < bits.Length && lo <= left < BITS && Window(bits[..], p, word, lo, BITS, false)
    ensures p * BITS + lo <= r <= p * BITS + left <= bits.Length * BITS
    ensures (r < p * BITS + left ==> At(bits[..], r)) && NoneSet(bits[..], p * BITS + lo, r)
  {
    hide At, Window, And, Shr, NoneSet;
    var tmp := And(word, Shr(ONES, BITS - left));
    MaskAbove(bits[..], p, word, lo, left);
    if tmp == 0 {
      EmptyWindow(bits[..], p, lo, left);
      return p * BITS + left;
    }
    r := FirstInWindow(bits, p, tmp, lo, left);
  }

  /** find_next_zero_bit: the least clear bit from offset on, or size. */
  method FindNextZeroBit(bits: array<Word>, size: nat, offset: nat) returns (r: nat)
    requires size <= bits.Length * BITS
    ensures offset >= size ==> r == size
    ensures offset < size ==> offset <= r <= size && (r < size ==> !At(bits[..], r)) && AllSet(bits[..], offset, r)
  {
    hide At, Window, Or, Shl, Shr, AllSet, Not;
    if offset >= size {
      return size;
    }
    var p := offset / BITS;
    var result := p * BITS;
    var left := size - result;
    var off := offset % BITS;
    NoBits(bits[..], offset);
    if off != 0 {
      var tmp := Or(bits[p], Shr(ONES, BITS - off));
      MaskBelow(bits[..], p, off);
      if left < BITS {
        r := FindZeroInLast(bits, p, tmp, off, left);
        return;
      }
      if Not(tmp) != 0 {
        r := FirstZeroInWindow(bits, p, tmp, off, BITS);
        return;
      }
      NotZero(tmp);
      FullWindow(bits[..], p, off, BITS);
      p, left, result := p + 1, left - BITS, result + BITS;
    }
    while left >= BITS
      invariant 0 <= left && result == p * BITS && result + left == size && offset <= result &&
                AllSet(bits[..], offset, result)
    {
      var tmp := bits[p];
      WholeWord(bits[..], p);
      if Not(tmp) != 0 {
        r := FirstZeroInWindow(bits, p, tmp, 0, BITS);
        Joined(bits[..], offset, result, r);
        return;
      }
      NotZero(tmp);
      FullWindow(bits[..], p, 0, BITS);
      Joined(bits[..], offset, result, result + BITS);
      p, left, result := p + 1, left - BITS, result + BITS;
    }
    if left == 0 {
      return result;
    }
    WholeWord(bits[..], p);
    r := FindZeroInLast(bits, p, bits[p], 0, left);
    Joined(bits[..], offset, result, r);
  }

  /** The label found_first of find_next_zero_bit. */
  method FindZeroInLast(bits: array<Word>, p: nat, word: Word, ghost lo: nat, left: nat) returns (r: nat)
    requires p < bits.Length && lo <= left < BITS && Window(bits[..], p, word, lo, BITS, true)
    ensures p * BITS + lo <= r <= p * BITS + left <= bits.Length * BITS
    ensures (r < p * BITS + left ==> !At(bits[..], r)) && AllSet(bits[..], p * BITS + lo, r)
  {
    hide At, Window, Or, Shl, AllSet, Not;
    var tmp := Or(word, Shl(ONES, left));
    MaskAbove(bits[..], p, word, lo, left);
    if tmp == ONES {
      FullWindow(bits[..], p, lo, left);
      return p * BITS + left;
    }
    NotZero(tmp);
    r := FirstZeroInWindow(bits, p, tmp, lo, left);
  }

  /** The highest set bit of a window is the last set bit of the bitmap below its end. */
  method LastInWindow(bits: array<Word>, p: nat, tmp: Word, hi: nat) returns (r: nat)
    requires p < bits.Length && hi <= BITS && tmp != 0 && Window(bits[..], p, tmp, 0, hi, false)
    ensures p * BITS <= r < p * BITS + hi <= bits.Length * BITS && At(bits[..], r) &&
            NoneSet(bits[..], r + 1, p * BITS + hi)
  {
    hide Bit;
    var n := LastSet(tmp);
    r := p * BITS + n;
    WordAt(bits[..], p, n);
    forall k: nat | r < k < p * BITS + hi
      ensures !At(bits[..], k)
    {
      WordAt(bits[..], p, k - p * BITS);
      assert !Bit(tmp, k - p * BITS);
    }
  }

  /** find_last_bit: the greatest set bit below size, or size. */
  method FindLastBit(bits: array<Word>, size: nat) returns (r: nat)
    requires size <= bits.Length * BITS
    ensures r <= size && (r < size ==> At(bits[..], r) && NoneSet(bits[..], r + 1, size))
    ensures r == size ==> NoneSet(bits[..], 0, size)
  {
    hide At, Window, And, Shr, NoneSet;
    var words := size / BITS;
    var rest := size % BITS;
    NoBits(bits[..], size);
    if rest != 0 {
      var tmp := And(bits[words], Shr(ONES, BITS - rest));
      WholeWord(bits[..], words);
      MaskAbove(bits[..], words, bits[words], 0, rest);
      if tmp != 0 {
        r := LastInWindow(bits, words, tmp, rest);
        return;
      }
      EmptyWindow(bits[..], words, 0, rest);
    }
    while words > 0
      invariant 0 <= words && words * BITS <= size && NoneSet(bits[..], words * BITS, size)
    {
      words := words - 1;
      var tmp := bits[words];
      WholeWord(bits[..], words);
      if tmp != 0 {
        r := LastInWindow(bits, words, tmp, BITS);
        Joined(bits[..], r + 1, (words + 1) * BITS, size);
        return;
      }
      EmptyWindow(bits[..], words, 0, BITS);
      Joined(bits[..], words * BITS, (words + 1) * BITS, size);
    }
    r := size;
  }
}
