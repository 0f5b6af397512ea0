/** What the round trips do not see: the steps of FIPS 197 and its key schedule taken byte by byte, by row
    and column, against products of the field, and a value of its appendix A. */
module AesBytes {
  import opened Gf256
  import opened AesSpec
  import opened AesKeys
  import opened Aes

  function ByteAt(a: Column, r: nat): bv8
    requires r < 4
  {
    if r == 0 then a.b0 else if r == 1 then a.b1 else if r == 2 then a.b2 else a.b3
  }

  function ColumnAt(a: Block, c: nat): Column
    requires c < 4
  {
    if c == 0 then a.c0 else if c == 1 then a.c1 else if c == 2 then a.c2 else a.c3
  }

  /** The byte of row r and column c. */
  function StateAt(a: Block, r: nat, c: nat): bv8
    requires r < 4 && c < 4
  {
    ByteAt(ColumnAt(a, c), r)
  }

  // ---------- multiplication in the field (section 4.2 of FIPS 197) ----------

  /** x times a, modulo x^8 + x^4 + x^3 + x + 1. */
  function TimesX(a: bv8): bv8 { if a & 0x80 == 0 then a << 1 else (a << 1) ^ 0x1b }

  /** The low n bits of b times a. */
  function Product(a: bv8, b: bv8, n: nat): bv8
    decreases n
  {
    if n == 0 then 0 else Add(if b & 1 == 1 then a else 0, Product(TimesX(a), b >> 1, n - 1))
  }

  lemma {:induction false} ProductOfNothing(a: bv8, n: nat)
    ensures Product(a, 0, n) == 0
    decreases n
  {
    hide TimesX;
    if n > 0 {
      ProductOfNothing(TimesX(a), n - 1);
    }
  }

  lemma DoubleIsTimesX(a: bv8)
    ensures Times2(a) == TimesX(a)
  {
  }

  lemma AddZero(a: bv8)
    ensures Add(a, 0) == a && Add(0, a) == a
  {
  }

  lemma EvenStep(a: bv8, b: bv8, n: nat)
    requires n > 0 && b & 1 == 0
    ensures Product(a, b, n) == Product(Times2(a), b >> 1, n - 1)
  {
    hide Times2, TimesX, Add;
    DoubleIsTimesX(a);
    AddZero(Product(TimesX(a), b >> 1, n - 1));
  }

  lemma OddStep(a: bv8, b: bv8, n: nat)
    requires n > 0 && b & 1 == 1
    ensures Product(a, b, n) == Add(a, Product(Times2(a), b >> 1, n - 1))
  {
    hide Times2, TimesX, Add;
    DoubleIsTimesX(a);
  }

  lemma OneTimes(a: bv8, n: nat)
    requires n > 0
    ensures Product(a, 1, n) == a
  {
    hide Times2, Add, Product;
    OddStep(a, 1, n);
    ProductOfNothing(Times2(a), n - 1);
    AddZero(a);
  }

  /** The products the code builds from doublings are those of the field. */
  lemma SmallProducts(a: bv8)
    ensures Product(a, 1, 8) == a && Product(a, 2, 8) == Times2(a) && Product(a, 3, 8) == Mul3(a)
  {
    hide Times2, Add, Product;
    OneTimes(a, 8);
    OneTimes(Times2(a), 7);
    EvenStep(a, 2, 8);
    OddStep(a, 3, 8);
    AddLaws(0, a, Times2(a));
  }

  // ---------- the steps of a round, by row and column ----------

  /** Row r moves left by r columns (section 5.1.2). */
  lemma ShiftRowsAt(a: Block, r: nat, c: nat)
    requires r < 4 && c < 4
    ensures StateAt(ShiftRows(a), r, c) == StateAt(a, r, (c + r) % 4)
  {
  }

  /** The polynomial {03}x^3 + {01}x^2 + {01}x + {02}, by the row of the input less that of the output. */
  function Coefficient(i: nat): bv8 { if i == 0 then 2 else if i == 1 then 3 else 1 }

  function Term(a: Column, i: nat, r: nat): bv8
    requires i < 4 && r < 4
  {
    Product(ByteAt(a, i), Coefficient((4 + i - r) % 4), 8)
  }

  lemma TermIs(a: Column, i: nat, r: nat)
    requires i < 4 && r < 4
    ensures Term(a, i, r) ==
            if i == r then Times2(ByteAt(a, i)) else if i == (r + 1) % 4 then Mul3(ByteAt(a, i)) else ByteAt(a, i)
  {
    hide Times2, Product, Mul3;
    SmallProducts(ByteAt(a, i));
  }

  /** A column is multiplied by it modulo x^4 + 1 (section 5.1.3). */
  lemma MixColumnAt(a: Column, r: nat)
    requires r < 4
    ensures ByteAt(MixColumn(a), r) == Sum4(Term(a, 0, r), Term(a, 1, r), Term(a, 2, r), Term(a, 3, r))
  {
    hide Times2, Term, Add, Sum4, Mul3;
    TermIs(a, 0, r);
    TermIs(a, 1, r);
    TermIs(a, 2, r);
    TermIs(a, 3, r);
    if r == 1 {
      SumRotates(a.b0, Times2(a.b1), Mul3(a.b2), a.b3);
    } else if r == 2 {
      SumRotates(a.b0, a.b1, Times2(a.b2), Mul3(a.b3));
      SumRotates(a.b1, Times2(a.b2), Mul3(a.b3), a.b0);
    } else if r == 3 {
      SumRotates(Times2(a.b3), Mul3(a.b0), a.b1, a.b2);
    }
  }

  /** A round key is added bit by bit (section 5.1.4). */
  lemma AddRoundKeyAt(a: Block, k: Block, r: nat, c: nat)
    requires r < 4 && c < 4
    ensures StateAt(AddRoundKey(a, k), r, c) == Add(StateAt(a, r, c), StateAt(k, r, c))
  {
    hide Add;
  }

  /** Byte 4c + r of a block is row r of column c (section 3.4). */
  lemma BlockOfAt(b: seq<bv8>, r: nat, c: nat)
    requires |b| == 16 && r < 4 && c < 4
    ensures StateAt(BlockOf(b), r, c) == b[4 * c + r]
  {
    if c == 0 {
    } else if c == 1 {
    } else if c == 2 {
    } else {
    }
  }

  /** What row i of a column contributes to row r of it in a full round. */
  function RoundTerm(sb: SBox, a: Block, i: nat, r: nat, c: nat): bv8
    requires i < 4 && r < 4 && c < 4
  {
    Product(sb.fwd(StateAt(a, i, (c + i) % 4)), Coefficient((4 + i - r) % 4), 8)
  }

  lemma MixedAt(a: Block, r: nat, c: nat)
    requires r < 4 && c < 4
    ensures var m := ColumnAt(ShiftRows(a), c);
            StateAt(MixColumns(ShiftRows(a)), r, c) == Sum4(Term(m, 0, r), Term(m, 1, r), Term(m, 2, r), Term(m, 3, r))
  {
    hide MixColumn, ShiftRows, Sum4, Term;
    MixColumnAt(ColumnAt(ShiftRows(a), c), r);
  }

  lemma SubBytesAt(f: bv8 -> bv8, a: Block, r: nat, c: nat)
    requires r < 4 && c < 4
    ensures StateAt(SubBytes(f, a), r, c) == f(StateAt(a, r, c))
  {
    hide ByteAt, SubColumn;
    SubColumnAt(f, ColumnAt(a, c), r);
  }

  lemma SubColumnAt(f: bv8 -> bv8, a: Column, r: nat)
    requires r < 4
    ensures ByteAt(SubColumn(f, a), r) == f(ByteAt(a, r))
  {
  }

  lemma RoundTermIs(sb: SBox, a: Block, i: nat, r: nat, c: nat)
    requires i < 4 && r < 4 && c < 4
    ensures Term(ColumnAt(ShiftRows(SubBytes(sb.fwd, a)), c), i, r) == RoundTerm(sb, a, i, r, c)
  {
    hide ShiftRows, SubBytes, Product, ByteAt, ColumnAt, Coefficient;
    ShiftRowsAt(SubBytes(sb.fwd, a), i, c);
    SubBytesAt(sb.fwd, a, i, (c + i) % 4);
  }

  /** Main result: a byte of the state after a full round, from the bytes before it (section 5.1). */
  lemma RoundAt(sb: SBox, k: seq<Block>, a: Block, n: nat, r: nat, c: nat)
    requires 0 < n < |k| && r < 4 && c < 4
    ensures var b := AfterRounds(sb, k, a, n - 1);
            StateAt(AfterRounds(sb, k, a, n), r, c) ==
            Add(Sum4(RoundTerm(sb, b, 0, r, c), RoundTerm(sb, b, 1, r, c), RoundTerm(sb, b, 2, r, c),
                     RoundTerm(sb, b, 3, r, c)), StateAt(k[n], r, c))
  {
    hide ShiftRows, SubBytes, MixColumns, AddRoundKey, RoundTerm, Term, Add, Sum4, StateAt, ColumnAt;
    var b := AfterRounds(sb, k, a, n - 1);
    var m := ShiftRows(SubBytes(sb.fwd, b));
    AddRoundKeyAt(MixColumns(m), k[n], r, c);
    MixedAt(SubBytes(sb.fwd, b), r, c);
    RoundTermIs(sb, b, 0, r, c);
    RoundTermIs(sb, b, 1, r, c);
    RoundTermIs(sb, b, 2, r, c);
    RoundTermIs(sb, b, 3, r, c);
  }

  /** The first key is added before any round, and the last round has no product. */
  lemma EndsAt(sb: SBox, k: seq<Block>, a: Block, r: nat, c: nat)
    requires |k| >= 2 && r < 4 && c < 4
    ensures StateAt(AfterRounds(sb, k, a, 0), r, c) == Add(StateAt(a, r, c), StateAt(k[0], r, c))
    ensures StateAt(Cipher(sb, k, a), r, c) ==
            Add(sb.fwd(StateAt(AfterRounds(sb, k, a, |k| - 2), r, (c + r) % 4)), StateAt(k[|k| - 1], r, c))
  {
    hide ShiftRows, SubBytes, AddRoundKey, Add, StateAt;
    var b := AfterRounds(sb, k, a, |k| - 2);
    AddRoundKeyAt(a, k[0], r, c);
    AddRoundKeyAt(ShiftRows(SubBytes(sb.fwd, b)), k[|k| - 1], r, c);
    ShiftRowsAt(SubBytes(sb.fwd, b), r, c);
    SubBytesAt(sb.fwd, b, r, (c + r) % 4);
  }

  // ---------- the key schedule, by byte (section 5.2) ----------

  /** The words of the user's key, and the round keys as words of the schedule. */
  lemma ScheduleAt(sb: SBox, bytes: seq<bv8>, bits: int, n: nat, r: nat, c: nat)
    requires ValidBits(bits) && |bytes| >= bits / 8 && n <= Rounds(bits) && r < 4 && c < 4
    ensures StateAt(Schedule(sb, bytes, bits)[n], r, c) ==
            ByteAt(KeyWord(sb, UserKey(bytes, bits / 32), 4 * n + c), r)
  {
    hide KeyWord, UserKey;
  }

  lemma UserKeyAt(sb: SBox, bytes: seq<bv8>, nk: nat, i: nat, r: nat)
    requires nk >= 4 && |bytes| >= 4 * nk && i < nk && r < 4
    ensures ByteAt(KeyWord(sb, UserKey(bytes, nk), i), r) == bytes[4 * i + r]
  {
  }

  /** x^n in the field. */
  function PowerOfX(n: nat): bv8 { if n == 0 then 1 else TimesX(PowerOfX(n - 1)) }

  lemma {:induction false} RconIsPower(j: nat)
    requires j > 0
    ensures Rcon(j) == PowerOfX(j - 1)
  {
    hide Times2, TimesX;
    if j > 1 {
      RconIsPower(j - 1);
      DoubleIsTimesX(Rcon(j - 1));
    }
  }

  /** The first word of a group: the word a group earlier, the bytes of the word before it, each from
      the next row and substituted, and in the first row a power of x. */
  lemma GroupWordAt(sb: SBox, key: seq<Column>, i: nat, r: nat)
    requires |key| >= 4 && i >= |key| && i % |key| == 0 && r < 4 && 0 < i / |key|
    ensures ByteAt(KeyWord(sb, key, i), r) ==
            Add(ByteAt(KeyWord(sb, key, i - |key|), r),
                Add(sb.fwd(ByteAt(KeyWord(sb, key, i - 1), (r + 1) % 4)),
                    if r == 0 then PowerOfX(i / |key| - 1) else 0))
  {
    hide PowerOfX, Rcon, Add;
    RconIsPower(i / |key|);
  }

  /** Any other word: the word a group earlier and the word before it, which in the middle of a group of
      eight is substituted first. */
  lemma OtherWordAt(sb: SBox, key: seq<Column>, i: nat, r: nat)
    requires |key| >= 4 && i >= |key| && i % |key| != 0 && r < 4
    ensures ByteAt(KeyWord(sb, key, i), r) ==
            Add(ByteAt(KeyWord(sb, key, i - |key|), r),
                var t := ByteAt(KeyWord(sb, key, i - 1), r);
                if |key| > 6 && i % |key| == 4 then sb.fwd(t) else t)
  {
    hide Add, Rcon;
  }

  /** Appendix A.1: the first word past the key 2b7e1516 28aed2a6 abf71588 09cf4f3c is a0fafe17. */
  lemma AppendixA1(sb: SBox)
    requires sb.fwd(0xcf) == 0x8a && sb.fwd(0x4f) == 0x84 && sb.fwd(0x3c) == 0xeb && sb.fwd(0x09) == 0x01
    ensures KeyWord(sb, [Column(0x2b, 0x7e, 0x15, 0x16), Column(0x28, 0xae, 0xd2, 0xa6),
                         Column(0xab, 0xf7, 0x15, 0x88), Column(0x09, 0xcf, 0x4f, 0x3c)], 4) ==
            Column(0xa0, 0xfa, 0xfe, 0x17)
  {
  }
}
