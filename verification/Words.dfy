// The bits of a 64-bit word (bitops.h): shifts, masks and the two binary searches, related to the
// word as a row of booleans.
module Words {
  type Word = bv64

  const ONES: Word := 0xffffffffffffffff
  const BITS := 64

  predicate Bit(w: Word, i: nat) { Nth(w, i) }

  predicate Nth(w: Word, i: nat)
    decreases i
  {
    if i == 0 then Odd(w) else Nth(Half(w), i - 1)
  }

  predicate Odd(w: Word) { w & 1 == 1 }

  function Half(w: Word): Word { w >> 1 }

  function Double(w: Word): Word { w << 1 }

  function And(w: Word, v: Word): Word { w & v }

  function Or(w: Word, v: Word): Word { w | v }

  function Xor(w: Word, v: Word): Word { w ^ v }

  function Not(w: Word): Word { !w }

  /** w << n */
  function Shl(w: Word, n: nat): Word
    decreases n
  {
    if n == 0 then w else Shl(Double(w), n - 1)
  }

  /** w >> n */
  function Shr(w: Word, n: nat): Word
    decreases n
  {
    if n == 0 then w else Shr(Half(w), n - 1)
  }

  // ---------- one step ----------

  lemma HalfAnd(w: Word, v: Word)
    ensures Half(And(w, v)) == And(Half(w), Half(v))
  {
  }

  lemma OddAnd(w: Word, v: Word)
    ensures Odd(And(w, v)) <==> Odd(w) && Odd(v)
  {
  }

  lemma HalfOr(w: Word, v: Word)
    ensures Half(Or(w, v)) == Or(Half(w), Half(v))
  {
  }

  lemma OddOr(w: Word, v: Word)
    ensures Odd(Or(w, v)) <==> Odd(w) || Odd(v)
  {
  }

  lemma HalfXor(w: Word, v: Word)
    ensures Half(Xor(w, v)) == Xor(Half(w), Half(v))
  {
  }

  lemma OddXor(w: Word, v: Word)
    ensures Odd(Xor(w, v)) <==> Odd(w) != Odd(v)
  {
  }

  lemma HalfDouble(w: Word)
    ensures Half(Double(w)) == And(w, Half(ONES)) && !Odd(Double(w))
  {
  }

  lemma NotIsXor(w: Word)
    ensures Not(w) == Xor(w, ONES)
  {
  }

  // ---------- bits of the operations ----------

  lemma {:induction false} BitAnd(w: Word, v: Word, i: nat)
    ensures Bit(And(w, v), i) <==> Bit(w, i) && Bit(v, i)
    decreases i
  {
    hide And, Half, Odd;
    HalfAnd(w, v);
    OddAnd(w, v);
    if i > 0 {
      BitAnd(Half(w), Half(v), i - 1);
    }
  }

  lemma {:induction false} BitOr(w: Word, v: Word, i: nat)
    ensures Bit(Or(w, v), i) <==> Bit(w, i) || Bit(v, i)
    decreases i
  {
    hide Or, Half, Odd;
    HalfOr(w, v);
    OddOr(w, v);
    if i > 0 {
      BitOr(Half(w), Half(v), i - 1);
    }
  }

  lemma {:induction false} BitXor(w: Word, v: Word, i: nat)
    ensures Bit(Xor(w, v), i) <==> Bit(w, i) != Bit(v, i)
    decreases i
  {
    hide Xor, Half, Odd;
    HalfXor(w, v);
    OddXor(w, v);
    if i > 0 {
      BitXor(Half(w), Half(v), i - 1);
    }
  }

  lemma {:induction false} BitZero(i: nat)
    ensures !Bit(0, i)
    decreases i
  {
    if i > 0 {
      assert Half(0) == 0;
      BitZero(i - 1);
    }
  }

  lemma {:induction false} BitShr(w: Word, n: nat, i: nat)
    ensures Bit(Shr(w, n), i) <==> Bit(w, n + i)
    decreases n
  {
    hide Half, Odd;
    if n > 0 {
      BitShr(Half(w), n - 1, i);
    }
  }

  // ---------- the word of ones ----------

  /** Ones at the bottom, zeros above. */
  predicate LowShape(w: Word) { w & (w + 1) == 0 }

  lemma HalfLowShape(w: Word)
    requires LowShape(w)
    ensures LowShape(Half(w)) && (w != 0 ==> Odd(w))
  {
  }

  lemma {:induction false} ShrLowShape(w: Word, n: nat)
    requires LowShape(w)
    ensures LowShape(Shr(w, n))
    decreases n
  {
    hide LowShape, Half;
    if n > 0 {
      HalfLowShape(w);
      ShrLowShape(Half(w), n - 1);
    }
  }

  lemma {:induction false} ShrShr(w: Word, m: nat, n: nat)
    ensures Shr(Shr(w, m), n) == Shr(w, m + n)
    decreases m
  {
    hide Half;
    if m > 0 {
      ShrShr(Half(w), m - 1, n);
    }
  }

  lemma {:induction false} ShrZero(n: nat)
    ensures Shr(0, n) == 0
    decreases n
  {
    if n > 0 {
      assert Half(0) == 0;
      ShrZero(n - 1);
    }
  }

  lemma ShrEight(w: Word)
    ensures Shr(w, 8) == w >> 8
  {
    var a := w >> 1;
    var b := w >> 2;
    var c := w >> 3;
    var d := w >> 4;
    var e := w >> 5;
    var f := w >> 6;
    var g := w >> 7;
    assert Half(w) == a && Half(a) == b && Half(b) == c && Half(c) == d && Half(d) == e && Half(e) == f &&
           Half(f) == g && Half(g) == w >> 8;
    assert Shr(g, 1) == w >> 8;
    assert Shr(e, 3) == w >> 8;
    assert Shr(c, 5) == w >> 8;
    assert Shr(a, 7) == w >> 8;
  }

  lemma ShiftTwice(w: Word)
    ensures (w >> 8) >> 8 == w >> 16 && (w >> 16) >> 16 == w >> 32 && (w >> 32) >> 32 == 0
  {
  }

  lemma ShrSixteen(w: Word)
    ensures Shr(w, 16) == w >> 16
  {
    hide Shr;
    ShiftTwice(w);
    ShrEight(w);
    ShrEight(w >> 8);
    ShrShr(w, 8, 8);
  }

  lemma ShrThirtyTwo(w: Word)
    ensures Shr(w, 32) == w >> 32
  {
    hide Shr;
    ShiftTwice(w);
    ShrSixteen(w);
    ShrSixteen(w >> 16);
    ShrShr(w, 16, 16);
  }

  lemma ShrAll(w: Word)
    ensures Shr(w, 64) == 0
  {
    hide Shr;
    ShiftTwice(w);
    ShrThirtyTwo(w);
    ShrThirtyTwo(w >> 32);
    ShrShr(w, 32, 32);
  }

  lemma {:induction false} BitBeyond(w: Word, i: nat)
    requires 64 <= i
    ensures !Bit(w, i)
  {
    BitShr(w, 64, i - 64);
    ShrAll(w);
    BitZero(i - 64);
  }

  lemma LowByteShifts()
    ensures Shr(0xff, 4) == 0xf && Shr(0xff, 6) == 0x3 && Shr(0xff, 7) == 1
  {
    assert Half(0xff) == 0x7f && Half(0x7f) == 0x3f && Half(0x3f) == 0x1f && Half(0x1f) == 0xf;
    assert Half(0xf) == 0x7 && Half(0x7) == 0x3 && Half(0x3) == 0x1;
    assert Shr(0x1f, 1) == 0xf && Shr(0x7f, 3) == 0xf;
    assert Shr(0x7, 1) == 0x3 && Shr(0x1f, 3) == 0x3 && Shr(0x7f, 5) == 0x3;
    assert Shr(0x3, 1) == 0x1 && Shr(0xf, 3) == 0x1 && Shr(0x3f, 5) == 0x1;
  }

  lemma ByteLiterals()
    ensures ONES >> 32 == 0xffffffff && (0xffffffff as Word) >> 16 == 0xffff && (0xffff as Word) >> 8 == 0xff
  {
  }

  lemma ShrOnes63()
    ensures Shr(ONES, 63) == 1
  {
    hide Shr;
    ByteLiterals();
    ShrThirtyTwo(ONES);
    ShrSixteen(0xffffffff);
    ShrEight(0xffff);
    ShrShr(ONES, 32, 16);
    ShrShr(ONES, 48, 8);
    LowByteShifts();
    ShrShr(ONES, 56, 7);
  }

  lemma BitOnes(i: nat)
    requires i < 64
    ensures Bit(ONES, i)
  {
    hide LowShape, Half, Shr, Odd;
    BitShr(ONES, i, 0);
    OnesIsLow();
    ShrLowShape(ONES, i);
    ShrShr(ONES, i, 63 - i);
    ShrOnes63();
    ShrZero(63 - i);
    HalfLowShape(Shr(ONES, i));
  }

  lemma OnesIsLow()
    ensures LowShape(ONES)
  {
  }

  lemma BitNot(w: Word, i: nat)
    requires i < 64
    ensures Bit(Not(w), i) <==> !Bit(w, i)
  {
    hide Not, Xor, Bit;
    NotIsXor(w);
    BitXor(w, ONES, i);
    BitOnes(i);
  }

  lemma BitDouble(w: Word, i: nat)
    requires i < 64
    ensures Bit(Double(w), i) <==> 0 < i && Bit(w, i - 1)
  {
    hide Double, Half, And, Odd;
    HalfDouble(w);
    if i > 0 {
      BitAnd(w, Half(ONES), i - 1);
      BitOnes(i);
    }
  }

  lemma {:induction false} BitShl(w: Word, n: nat, i: nat)
    requires i < 64
    ensures Bit(Shl(w, n), i) <==> n <= i && Bit(w, i - n)
    decreases n
  {
    hide Double, Half, Bit;
    if n > 0 {
      BitShl(Double(w), n - 1, i);
      if n - 1 <= i {
        BitDouble(w, i - (n - 1));
      }
    }
  }

  // ---------- a word is its bits ----------

  lemma {:induction false} ShlDouble(w: Word, n: nat)
    ensures Double(Shl(w, n)) == Shl(Double(w), n)
    decreases n
  {
    hide Double;
    if n > 0 {
      ShlDouble(Double(w), n - 1);
    }
  }

  lemma {:induction false} ShlZero(n: nat)
    ensures Shl(0, n) == 0
    decreases n
  {
    if n > 0 {
      assert Double(0) == 0;
      ShlZero(n - 1);
    }
  }

  lemma EvenIsDouble(w: Word)
    requires !Odd(w)
    ensures w == Double(Half(w))
  {
  }

  lemma {:induction false} LowZeros(w: Word, n: nat)
    requires forall i :: 0 <= i < n ==> !Bit(w, i)
    ensures w == Shl(Shr(w, n), n)
    decreases n
  {
    hide Double, Half, Odd;
    if n > 0 {
      assert !Bit(w, 0);
      EvenIsDouble(w);
      forall i | 0 <= i < n - 1
        ensures !Bit(Half(w), i)
      {
        assert !Bit(w, i + 1);
      }
      LowZeros(Half(w), n - 1);
      ShlDouble(Shr(w, n), n - 1);
    }
  }

  /** A word other than zero has a bit set, and only such a word. */
  lemma NonZero(w: Word)
    ensures w != 0 <==> exists i :: 0 <= i < 64 && Bit(w, i)
  {
    hide Bit, Shl, Shr;
    if w == 0 {
      forall i | 0 <= i < 64
        ensures !Bit(w, i)
      {
        BitZero(i);
      }
    } else if forall i :: 0 <= i < 64 ==> !Bit(w, i) {
      LowZeros(w, 64);
      ShrAll(w);
      ShlZero(64);
    }
  }

  // ---------- masks ----------

  /** Bits from n up. */
  lemma BitHighMask(n: nat, i: nat)
    requires i < 64
    ensures Bit(Shl(ONES, n), i) <==> n <= i
  {
    BitShl(ONES, n, i);
    if n <= i {
      BitOnes(i - n);
    }
  }

  /** Bits below n. */
  lemma BitLowMask(n: nat, i: nat)
    requires n <= 64
    ensures Bit(Shr(ONES, 64 - n), i) <==> i < n
  {
    BitShr(ONES, 64 - n, i);
    if i < n {
      BitOnes(64 - n + i);
    } else {
      BitBeyond(ONES, 64 - n + i);
    }
  }

  /** BITMAP_LAST_WORD_MASK */
  function LastWordMask(nbits: nat): Word {
    if nbits % 64 != 0 then Minus(Shl(1, nbits % 64), 1) else ONES
  }

  function Minus(w: Word, v: Word): Word { w - v }

  lemma DoubleMinus(w: Word)
    ensures Double(Minus(0, w)) == Minus(0, Double(w))
  {
  }

  lemma {:induction false} ShlMinus(w: Word, n: nat)
    ensures Shl(Minus(0, w), n) == Minus(0, Shl(w, n))
    decreases n
  {
    hide Double, Minus;
    if n > 0 {
      DoubleMinus(w);
      ShlMinus(Double(w), n - 1);
    }
  }

  lemma MinusOne(w: Word)
    ensures Minus(w, 1) == Not(Minus(0, w)) && Minus(0, 1) == ONES
  {
  }

  lemma BitLastWordMask(nbits: nat, i: nat)
    requires i < 64
    ensures Bit(LastWordMask(nbits), i) <==> nbits % 64 == 0 || i < nbits % 64
  {
    hide Bit, Shl, Minus, Not;
    if nbits % 64 == 0 {
      BitOnes(i);
    } else {
      var k := nbits % 64;
      MinusOne(1);
      MinusOne(Shl(1, k));
      ShlMinus(1, k);
      BitNot(Shl(ONES, k), i);
      BitHighMask(k, i);
    }
  }

  /** Testing a word against a mask asks for a bit among those of the mask. */
  lemma TestLow(w: Word, n: nat)
    requires n <= 64
    ensures And(w, Shr(ONES, 64 - n)) != 0 <==> exists i :: 0 <= i < n && Bit(w, i)
  {
    hide Bit, And, Shr;
    var m := Shr(ONES, 64 - n);
    NonZero(And(w, m));
    forall i | 0 <= i < 64
      ensures Bit(And(w, m), i) <==> i < n && Bit(w, i)
    {
      BitAnd(w, m, i);
      BitLowMask(n, i);
    }
  }

  lemma TestHigh(w: Word, n: nat)
    requires n <= 64
    ensures And(w, Shl(ONES, n)) != 0 <==> exists i :: n <= i < 64 && Bit(w, i)
  {
    hide Bit, And, Shl;
    var m := Shl(ONES, n);
    NonZero(And(w, m));
    forall i | 0 <= i < 64
      ensures Bit(And(w, m), i) <==> n <= i && Bit(w, i)
    {
      BitAnd(w, m, i);
      BitHighMask(n, i);
    }
  }

  // ---------- bitops_ffsl and bitops_flsl ----------

  /** The lowest set bit of word is among the width bits from num on, and cur is word from num on. */
  ghost predicate LowestIn(word: Word, cur: Word, num: nat, width: nat) {
    num + width <= 64 && cur == Shr(word, num) && (forall i :: 0 <= i < num ==> !Bit(word, i)) &&
    exists i :: num <= i < num + width && Bit(word, i)
  }

  lemma HalveLow(word: Word, cur: Word, num: nat, k: nat)
    requires LowestIn(word, cur, num, 2 * k)
    ensures And(cur, Shr(ONES, 64 - k)) == 0 ==> LowestIn(word, Shr(cur, k), num + k, k)
    ensures And(cur, Shr(ONES, 64 - k)) != 0 ==> LowestIn(word, cur, num, k)
  {
    hide Bit, And, Shr;
    TestLow(cur, k);
    ShrShr(word, num, k);
    forall i | 0 <= i < 64 - num
      ensures Bit(cur, i) <==> Bit(word, num + i)
    {
      BitShr(word, num, i);
    }
    if And(cur, Shr(ONES, 64 - k)) != 0 {
      var j :| 0 <= j < k && Bit(cur, j);
      assert Bit(word, num + j);
    } else {
      forall i | num <= i < num + k
        ensures !Bit(word, i)
      {
        assert !Bit(cur, i - num);
      }
    }
  }

  lemma LowLiterals()
    ensures Shr(ONES, 32) == 0xffffffff && Shr(ONES, 48) == 0xffff && Shr(ONES, 56) == 0xff
    ensures Shr(ONES, 60) == 0xf && Shr(ONES, 62) == 0x3 && Shr(ONES, 63) == 0x1
  {
    hide Shr;
    ByteLiterals();
    ShrThirtyTwo(ONES);
    ShrSixteen(0xffffffff);
    ShrEight(0xffff);
    ShrShr(ONES, 32, 16);
    ShrShr(ONES, 48, 8);
    LowByteShifts();
    ShrShr(ONES, 56, 4);
    ShrShr(ONES, 56, 6);
    ShrShr(ONES, 56, 7);
  }

  /** bitops_ffsl: the lowest set bit. */
  method FirstSet(word0: Word) returns (num: nat)
    requires word0 != 0
    ensures num < 64 && Bit(word0, num) && forall i :: 0 <= i < num ==> !Bit(word0, i)
  {
    hide Bit, And, Shr, LowestIn;
    var word := word0;
    num := 0;
    LowLiterals();
    LowestAtFirst(word0);
    HalveLow(word0, word, num, 32);
    if And(word, 0xffffffff) == 0 {
      num := num + 32;
      word := Shr(word, 32);
    }
    HalveLow(word0, word, num, 16);
    if And(word, 0xffff) == 0 {
      num := num + 16;
      word := Shr(word, 16);
    }
    HalveLow(word0, word, num, 8);
    if And(word, 0xff) == 0 {
      num := num + 8;
      word := Shr(word, 8);
    }
    HalveLow(word0, word, num, 4);
    if And(word, 0xf) == 0 {
      num := num + 4;
      word := Shr(word, 4);
    }
    HalveLow(word0, word, num, 2);
    if And(word, 0x3) == 0 {
      num := num + 2;
      word := Shr(word, 2);
    }
    HalveLow(word0, word, num, 1);
    if And(word, 0x1) == 0 {
      word := Shr(word, 1);
      num := num + 1;
    }
    LowestIs(word0, word, num);
  }

  lemma LowestAtFirst(word: Word)
    requires word != 0
    ensures LowestIn(word, word, 0, 64)
  {
    NonZero(word);
  }

  lemma LowestIs(word: Word, cur: Word, num: nat)
    requires LowestIn(word, cur, num, 1)
    ensures num < 64 && Bit(word, num) && forall i :: 0 <= i < num ==> !Bit(word, i)
  {
  }

  /** ffz: the lowest clear bit. */
  method FirstZero(word: Word) returns (num: nat)
    requires Not(word) != 0
    ensures num < 64 && !Bit(word, num) && forall i :: 0 <= i < num ==> Bit(word, i)
  {
    hide Bit, Not;
    num := FirstSet(Not(word));
    forall i | 0 <= i < 64
      ensures Bit(Not(word), i) <==> !Bit(word, i)
    {
      BitNot(word, i);
    }
  }

  lemma {:induction false} ShlShl(w: Word, m: nat, n: nat)
    ensures Shl(Shl(w, m), n) == Shl(w, m + n)
    decreases m
  {
    hide Double;
    if m > 0 {
      ShlShl(Double(w), m - 1, n);
    }
  }

  /** The highest set bit of word is among the width bits up to num, and cur is word moved up so
      that bit num is on top. */
  ghost predicate HighestIn(word: Word, cur: Word, num: nat, width: nat) {
    width <= num + 1 <= 64 && cur == Shl(word, 63 - num) && (forall i :: num < i < 64 ==> !Bit(word, i)) &&
    exists i :: num - width < i <= num && Bit(word, i)
  }

  lemma HalveHigh(word: Word, cur: Word, num: nat, k: nat)
    requires HighestIn(word, cur, num, 2 * k)
    ensures And(cur, Shl(ONES, 64 - k)) == 0 ==> k <= num && HighestIn(word, Shl(cur, k), num - k, k)
    ensures And(cur, Shl(ONES, 64 - k)) != 0 ==> HighestIn(word, cur, num, k)
  {
    hide Bit, And, Shl;
    TestHigh(cur, 64 - k);
    ShlShl(word, 63 - num, k);
    forall i | 63 - num <= i < 64
      ensures Bit(cur, i) <==> Bit(word, i - (63 - num))
    {
      BitShl(word, 63 - num, i);
    }
    if And(cur, Shl(ONES, 64 - k)) != 0 {
      var j :| 64 - k <= j < 64 && Bit(cur, j);
      assert Bit(word, j - (63 - num));
    } else {
      forall i | num - k < i <= num
        ensures !Bit(word, i)
      {
        assert !Bit(cur, i + (63 - num));
      }
    }
  }

  /** bitops_flsl: the highest set bit. */
  method LastSet(word0: Word) returns (num: nat)
    requires word0 != 0
    ensures num < 64 && Bit(word0, num) && forall i :: num < i < 64 ==> !Bit(word0, i)
  {
    hide Bit, And, Shl, HighestIn;
    var word := word0;
    num := 63;
    HighestAtFirst(word0);
    HalveHigh(word0, word, num, 32);
    if And(word, Shl(ONES, 32)) == 0 {
      num := num - 32;
      word := Shl(word, 32);
    }
    HalveHigh(word0, word, num, 16);
    if And(word, Shl(ONES, 48)) == 0 {
      num := num - 16;
      word := Shl(word, 16);
    }
    HalveHigh(word0, word, num, 8);
    if And(word, Shl(ONES, 56)) == 0 {
      num := num - 8;
      word := Shl(word, 8);
    }
    HalveHigh(word0, word, num, 4);
    if And(word, Shl(ONES, 60)) == 0 {
      num := num - 4;
      word := Shl(word, 4);
    }
    HalveHigh(word0, word, num, 2);
    if And(word, Shl(ONES, 62)) == 0 {
      num := num - 2;
      word := Shl(word, 2);
    }
    HalveHigh(word0, word, num, 1);
    if And(word, Shl(ONES, 63)) == 0 {
      word := Shl(word, 1);
      num := num - 1;
    }
    HighestIs(word0, word, num);
  }

  lemma HighestAtFirst(word: Word)
    requires word != 0
    ensures HighestIn(word, word, 63, 64)
  {
    NonZero(word);
  }

  lemma HighestIs(word: Word, cur: Word, num: nat)
    requires HighestIn(word, cur, num, 1)
    ensures num < 64 && Bit(word, num) && forall i :: num < i < 64 ==> !Bit(word, i)
  {
  }

  // ---------- one bit ----------

  lemma BitOne(i: nat)
    ensures Bit(1, i) <==> i == 0
  {
    if i > 0 {
      assert Half(1) == 0;
      BitZero(i - 1);
    }
  }

  /** BIT_MASK */
  lemma BitMask(n: nat, i: nat)
    requires i < 64
    ensures Bit(Shl(1, n), i) <==> i == n
  {
    hide Bit, Shl;
    BitShl(1, n, i);
    if n <= i {
      BitOne(i - n);
    }
  }

  /** The value of a word with one bit set, cleared or asked for. */
  function With(w: Word, n: nat): Word { Or(w, Shl(1, n)) }

  function Without(w: Word, n: nat): Word { And(w, Not(Shl(1, n))) }

  predicate Test(w: Word, n: nat) { And(w, Shl(1, n)) != 0 }

  lemma BitWith(w: Word, n: nat, i: nat)
    requires i < 64
    ensures Bit(With(w, n), i) <==> i == n || Bit(w, i)
    ensures Bit(Without(w, n), i) <==> i != n && Bit(w, i)
  {
    hide Bit, Shl, Or, And, Not;
    BitOr(w, Shl(1, n), i);
    BitAnd(w, Not(Shl(1, n)), i);
    BitNot(Shl(1, n), i);
    BitMask(n, i);
  }

  lemma TestIsBit(w: Word, n: nat)
    requires n < 64
    ensures Test(w, n) <==> Bit(w, n)
  {
    hide Bit, Shl, And;
    var m := Shl(1, n);
    NonZero(And(w, m));
    forall i | 0 <= i < 64
      ensures Bit(And(w, m), i) <==> i == n && Bit(w, i)
    {
      BitAnd(w, m, i);
      BitMask(n, i);
    }
  }

  lemma XorZero(w: Word, v: Word)
    ensures Xor(w, v) == 0 <==> w == v
  {
    hide Xor;
    XorSelf(w);
    XorTwice(w, v);
  }

  lemma XorSelf(w: Word)
    ensures Xor(w, w) == 0 && Xor(w, 0) == w
  {
  }

  lemma XorTwice(w: Word, v: Word)
    ensures Xor(w, Xor(w, v)) == v
  {
  }
}
