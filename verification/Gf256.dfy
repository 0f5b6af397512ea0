/** GF(2^8) as AES uses it (section 4 of FIPS 197): addition is xor, and every
    product is built from doubling. */
module Gf256 {

  function Add(a: bv8, b: bv8): bv8 { a ^ b }

  function Sum4(a: bv8, b: bv8, c: bv8, d: bv8): bv8 { Add(Add(a, b), Add(c, d)) }

  /** Doubling: shift left, and fold the carry back modulo x^8 + x^4 + x^3 + x + 1. */
  function Times2(b: bv8): bv8 {
    (b << 1) ^ (b >> 7) ^ ((b >> 7) << 1) ^ ((b >> 7) << 3) ^ ((b >> 7) << 4)
  }

  function Times4(b: bv8): bv8 { Times2(Times2(b)) }

  function Times8(b: bv8): bv8 { Times2(Times4(b)) }

  function Mul3(b: bv8): bv8 { Add(Times2(b), b) }

  function Mul9(b: bv8): bv8 { Add(Times8(b), b) }

  function MulB(b: bv8): bv8 { Add(Mul9(b), Times2(b)) }

  function MulD(b: bv8): bv8 { Add(Mul9(b), Times4(b)) }

  function MulE(b: bv8): bv8 { Add(Times8(b), Add(Times4(b), Times2(b))) }

  lemma Times2Reduces(b: bv8)
    ensures Times2(b) == if b & 0x80 == 0 then b << 1 else (b << 1) ^ 0x1b
  {
  }

  // ---------- addition ----------

  lemma AddLaws(a: bv8, b: bv8, c: bv8)
    ensures Add(b, c) == Add(c, b)
    ensures Add(Add(a, b), c) == Add(a, Add(b, c))
  {
  }

  lemma AddSwap(a: bv8, b: bv8, c: bv8, d: bv8)
    ensures Add(Add(a, b), Add(c, d)) == Add(Add(a, c), Add(b, d))
  {
    hide Add;
    AddLaws(Add(a, b), c, d);
    AddLaws(a, b, c);
    AddLaws(a, c, b);
    AddLaws(Add(a, c), b, d);
  }

  lemma AddRows(a: bv8, b: bv8, c: bv8, d: bv8, a': bv8, b': bv8, c': bv8, d': bv8)
    ensures Add(Sum4(a, b, c, d), Sum4(a', b', c', d')) == Sum4(Add(a, a'), Add(b, b'), Add(c, c'), Add(d, d'))
  {
    hide Add;
    AddSwap(Add(a, b), Add(c, d), Add(a', b'), Add(c', d'));
    AddSwap(a, b, a', b');
    AddSwap(c, d, c', d');
  }

  lemma Transpose(a0: bv8, a1: bv8, a2: bv8, a3: bv8, b0: bv8, b1: bv8, b2: bv8, b3: bv8,
                  c0: bv8, c1: bv8, c2: bv8, c3: bv8, d0: bv8, d1: bv8, d2: bv8, d3: bv8)
    ensures Sum4(Sum4(a0, b0, c0, d0), Sum4(a1, b1, c1, d1), Sum4(a2, b2, c2, d2), Sum4(a3, b3, c3, d3)) ==
            Sum4(Sum4(a0, a1, a2, a3), Sum4(b0, b1, b2, b3), Sum4(c0, c1, c2, c3), Sum4(d0, d1, d2, d3))
  {
    hide Add;
    AddRows(a0, b0, c0, d0, a1, b1, c1, d1);
    AddRows(a2, b2, c2, d2, a3, b3, c3, d3);
    AddRows(Add(a0, a1), Add(b0, b1), Add(c0, c1), Add(d0, d1), Add(a2, a3), Add(b2, b3), Add(c2, c3), Add(d2, d3));
  }

  // ---------- multiplication distributes over addition ----------

  lemma Times2Add(x: bv8, y: bv8)
    ensures Times2(Add(x, y)) == Add(Times2(x), Times2(y))
  {
  }

  lemma Times8Add(x: bv8, y: bv8)
    ensures Times4(Add(x, y)) == Add(Times4(x), Times4(y))
    ensures Times8(Add(x, y)) == Add(Times8(x), Times8(y))
  {
    hide Add, Times2;
    Times2Add(x, y);
    Times2Add(Times2(x), Times2(y));
    Times2Add(Times4(x), Times4(y));
  }

  lemma MulAdd(x: bv8, y: bv8)
    ensures Mul3(Add(x, y)) == Add(Mul3(x), Mul3(y))
    ensures Mul9(Add(x, y)) == Add(Mul9(x), Mul9(y))
    ensures MulB(Add(x, y)) == Add(MulB(x), MulB(y))
    ensures MulD(Add(x, y)) == Add(MulD(x), MulD(y))
    ensures MulE(Add(x, y)) == Add(MulE(x), MulE(y))
  {
    hide Add, Times2, Times4, Times8;
    Times2Add(x, y);
    Times8Add(x, y);
    AddSwap(Times2(x), Times2(y), x, y);
    AddSwap(Times8(x), Times8(y), x, y);
    AddSwap(Mul9(x), Mul9(y), Times2(x), Times2(y));
    AddSwap(Mul9(x), Mul9(y), Times4(x), Times4(y));
    AddSwap(Times4(x), Times4(y), Times2(x), Times2(y));
    AddSwap(Times8(x), Times8(y), Add(Times4(x), Times2(x)), Add(Times4(y), Times2(y)));
  }

  lemma MulSum(a: bv8, b: bv8, c: bv8, d: bv8)
    ensures Mul9(Sum4(a, b, c, d)) == Sum4(Mul9(a), Mul9(b), Mul9(c), Mul9(d))
    ensures MulB(Sum4(a, b, c, d)) == Sum4(MulB(a), MulB(b), MulB(c), MulB(d))
    ensures MulD(Sum4(a, b, c, d)) == Sum4(MulD(a), MulD(b), MulD(c), MulD(d))
    ensures MulE(Sum4(a, b, c, d)) == Sum4(MulE(a), MulE(b), MulE(c), MulE(d))
  {
    hide Add, Mul9, MulB, MulD, MulE;
    MulAdd(a, b);
    MulAdd(c, d);
    MulAdd(Add(a, b), Add(c, d));
  }

  // ---------- the rows of the two MixColumns matrices are inverse ----------

  lemma AddSelf(x: bv8)
    ensures Add(x, x) == 0 && Add(x, 0) == x
  {
  }

  lemma DropLeft(x: bv8, y: bv8)
    ensures Add(x, Add(x, y)) == y
  {
  }

  lemma DropRight(x: bv8, y: bv8, z: bv8)
    ensures Add(Add(x, z), Add(y, z)) == Add(x, y)
  {
    hide Add;
    AddSwap(x, z, y, z);
    AddSelf(z);
    AddSelf(Add(x, y));
  }

  lemma DropPairs(a: bv8, x: bv8, y: bv8, b: bv8)
    ensures Add(Add(a, Add(x, y)), Add(x, Add(y, b))) == Add(a, b)
  {
    hide Add;
    AddLaws(x, y, b);
    AddLaws(0, Add(x, y), b);
    DropRight(a, b, Add(x, y));
  }

  /** The terms of each row cancel: t1 to t16 stand for a byte and its doublings. */
  lemma RowCancels0(t1: bv8, t2: bv8, t4: bv8, t8: bv8, t16: bv8)
    ensures Sum4(Add(t16, Add(t8, t4)), Add(Add(t8, t1), t2), Add(Add(t8, t1), t4), Add(Add(t16, t2), Add(t8, t1))) ==
              t1
  {
  }

  lemma RowCancels1(t1: bv8, t2: bv8, t4: bv8, t8: bv8, t16: bv8)
    ensures Sum4(Add(Add(t16, Add(t8, t4)), Add(t8, Add(t4, t2))), Add(Add(t16, t2), t4), Add(Add(t8, t1), t4),
                 Add(t8, t1)) == 0
  {
    hide Add;
    DropPairs(t16, t8, t4, t2);
    DropLeft(Add(t16, t2), t4);
    DropLeft(Add(t8, t1), t4);
    AddLaws(0, Add(Add(t8, t1), t4), Add(t8, t1));
    AddSelf(t4);
  }

  lemma RowCancels2(t1: bv8, t2: bv8, t4: bv8, t8: bv8, t16: bv8)
    ensures Sum4(Add(t8, Add(t4, t2)), Add(Add(Add(t16, t2), t4), Add(Add(t8, t1), t2)), Add(Add(t16, t2), t8),
                 Add(t8, t1)) == 0
  {
    hide Add;
    var a, n, u := Add(t16, t2), Add(t8, t1), Add(t4, t2);
    AddSwap(a, t4, n, t2);
    DropRight(t8, Add(a, n), u);
    AddLaws(t8, a, n);
    AddLaws(0, a, t8);
    AddSelf(Add(t8, Add(a, n)));
  }

  lemma RowCancels3(t1: bv8, t2: bv8, t4: bv8, t8: bv8, t16: bv8)
    ensures Sum4(Add(t8, Add(t4, t2)), Add(Add(t8, t1), t2), Add(Add(Add(t16, t2), t8), Add(Add(t8, t1), t4)),
                 Add(t16, t2)) == 0
  {
    hide Add;
    var a, n := Add(t16, t2), Add(t8, t1);
    AddLaws(t8, t4, t2);
    AddLaws(0, t4, n);
    DropRight(Add(t8, t4), n, t2);
    AddSwap(a, t8, n, t4);
    AddLaws(0, Add(Add(a, n), Add(t8, t4)), a);
    AddLaws(a, n, Add(t8, t4));
    DropLeft(a, Add(n, Add(t8, t4)));
    AddLaws(0, n, Add(t8, t4));
    AddSelf(Add(Add(t8, t4), n));
  }

  lemma RowTimesColumn0(b: bv8)
    ensures Sum4(MulE(Times2(b)), MulB(b), MulD(b), Mul9(Mul3(b))) == b
  {
    hide Add, Sum4, Times2;
    MulAdd(Times2(b), b);
    RowCancels0(b, Times2(b), Times4(b), Times8(b), Times2(Times8(b)));
  }

  lemma RowTimesColumn1(b: bv8)
    ensures Sum4(MulE(Mul3(b)), MulB(Times2(b)), MulD(b), Mul9(b)) == 0
  {
    hide Add, Sum4, Times2;
    MulAdd(Times2(b), b);
    RowCancels1(b, Times2(b), Times4(b), Times8(b), Times2(Times8(b)));
  }

  lemma RowTimesColumn2(b: bv8)
    ensures Sum4(MulE(b), MulB(Mul3(b)), MulD(Times2(b)), Mul9(b)) == 0
  {
    hide Add, Sum4, Times2;
    MulAdd(Times2(b), b);
    RowCancels2(b, Times2(b), Times4(b), Times8(b), Times2(Times8(b)));
  }

  lemma RowTimesColumn3(b: bv8)
    ensures Sum4(MulE(b), MulB(b), MulD(Mul3(b)), Mul9(Times2(b))) == 0
  {
    hide Add, Sum4, Times2;
    MulAdd(Times2(b), b);
    RowCancels3(b, Times2(b), Times4(b), Times8(b), Times2(Times8(b)));
  }

  lemma SumRotates(a: bv8, b: bv8, c: bv8, d: bv8)
    ensures Sum4(a, b, c, d) == Sum4(b, c, d, a)
  {
    hide Add;
    AddLaws(a, b, Add(c, d));
    AddLaws(b, Add(c, d), a);
    AddLaws(0, a, Add(b, Add(c, d)));
    AddLaws(b, c, Add(d, a));
    AddLaws(c, d, a);
  }

  lemma SumOfZeros(a: bv8)
    ensures Sum4(a, 0, 0, 0) == a
  {
  }

  /** One output byte of MixColumns; the four bytes rotate from one row to the next. */
  function MixRow(p: bv8, q: bv8, r: bv8, s: bv8): bv8 {
    Sum4(Times2(p), Mul3(q), r, s)
  }

  /** One output byte of InvMixColumns. */
  function InvMixRow(p: bv8, q: bv8, r: bv8, s: bv8): bv8 {
    Sum4(MulE(p), MulB(q), MulD(r), Mul9(s))
  }

  lemma InvMixRowUndoes(p: bv8, q: bv8, r: bv8, s: bv8)
    ensures InvMixRow(MixRow(p, q, r, s), MixRow(q, r, s, p), MixRow(r, s, p, q), MixRow(s, p, q, r)) == p
  {
    hide Add, Sum4, Times2, Mul3, Mul9, MulB, MulD, MulE;
    MulSum(Times2(p), Mul3(q), r, s);
    MulSum(Times2(q), Mul3(r), s, p);
    MulSum(Times2(r), Mul3(s), p, q);
    MulSum(Times2(s), Mul3(p), q, r);
    SumRotates(MulB(p), MulB(Times2(q)), MulB(Mul3(r)), MulB(s));
    SumRotates(MulD(p), MulD(q), MulD(Times2(r)), MulD(Mul3(s)));
    SumRotates(MulD(q), MulD(Times2(r)), MulD(Mul3(s)), MulD(p));
    SumRotates(Mul9(Times2(s)), Mul9(Mul3(p)), Mul9(q), Mul9(r));
    RowTimesColumn0(p);
    RowTimesColumn1(q);
    RowTimesColumn2(r);
    RowTimesColumn3(s);
    Transpose(MulE(Times2(p)), MulB(p), MulD(p), Mul9(Mul3(p)),
              MulE(Mul3(q)), MulB(Times2(q)), MulD(q), Mul9(q),
              MulE(r), MulB(Mul3(r)), MulD(Times2(r)), Mul9(r),
              MulE(s), MulB(s), MulD(Mul3(s)), Mul9(Times2(s)));
    SumOfZeros(p);
  }

  lemma InvMixRowAdd(p: bv8, q: bv8, r: bv8, s: bv8, p': bv8, q': bv8, r': bv8, s': bv8)
    ensures InvMixRow(Add(p, p'), Add(q, q'), Add(r, r'), Add(s, s')) ==
            Add(InvMixRow(p, q, r, s), InvMixRow(p', q', r', s'))
  {
    hide Add, Sum4, Mul9, MulB, MulD, MulE;
    MulAdd(p, p');
    MulAdd(q, q');
    MulAdd(r, r');
    MulAdd(s, s');
    AddRows(MulE(p), MulB(q), MulD(r), Mul9(s), MulE(p'), MulB(q'), MulD(r'), Mul9(s'));
  }
}
