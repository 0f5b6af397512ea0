/** A key for which the two directions of AES_cbc_encrypt never carry out the same vector after a
    short tail: the zero key of 128 bits with the identity for an S-box. Every step of the cipher
    other than the key addition keeps the sum of the sixteen bytes of the state. */
module AesCbcLimits {
  import opened Gf256
  import opened AesSpec
  import opened AesKeys
  import opened Aes
  import opened AesCbc

  function ColumnSum(a: Column): bv8 { Sum4(a.b0, a.b1, a.b2, a.b3) }

  function BlockSum(a: Block): bv8 { Sum4(ColumnSum(a.c0), ColumnSum(a.c1), ColumnSum(a.c2), ColumnSum(a.c3)) }

  function Plain(x: bv8): bv8 { x }

  function Identity(): SBox { SBox(Plain, Plain) }

  // ---------- the steps of a round ----------

  /** The four coefficients of a byte in a mixed column add up to 1. */
  lemma Coefficients(x: bv8)
    ensures Sum4(Times2(x), x, x, Mul3(x)) == x && Sum4(Mul3(x), Times2(x), x, x) == x
    ensures Sum4(x, Mul3(x), Times2(x), x) == x && Sum4(x, x, Mul3(x), Times2(x)) == x
  {
  }

  lemma MixKeepsSum(a: Column)
    ensures ColumnSum(MixColumn(a)) == ColumnSum(a)
  {
    hide Sum4, Times2, Mul3;
    var (p, q, r, s) := (a.b0, a.b1, a.b2, a.b3);
    SumRotates(p, Times2(q), Mul3(r), s);
    SumRotates(p, q, Times2(r), Mul3(s));
    SumRotates(q, Times2(r), Mul3(s), p);
    SumRotates(Mul3(p), q, r, Times2(s));
    SumRotates(Times2(s), Mul3(p), q, r);
    Transpose(Times2(p), p, p, Mul3(p), Mul3(q), Times2(q), q, q, r, Mul3(r), Times2(r), r, s, s, Mul3(s), Times2(s));
    Coefficients(p);
    Coefficients(q);
    Coefficients(r);
    Coefficients(s);
  }

  lemma MixesKeepSum(a: Block)
    ensures BlockSum(MixColumns(a)) == BlockSum(a)
  {
    hide Sum4, MixColumn, ColumnSum;
    MixKeepsSum(a.c0);
    MixKeepsSum(a.c1);
    MixKeepsSum(a.c2);
    MixKeepsSum(a.c3);
  }

  lemma ShiftKeepsSum(a: Block)
    ensures BlockSum(ShiftRows(SubBytes(Identity().fwd, a))) == BlockSum(a)
  {
    hide Sum4;
    var b := ShiftRows(a);
    assert SubBytes(Identity().fwd, a) == a;
    // Summed row by row, each row is rotated.
    RowSums(a);
    RowSums(b);
    SumRotates(a.c0.b1, a.c1.b1, a.c2.b1, a.c3.b1);
    SumRotates(a.c0.b2, a.c1.b2, a.c2.b2, a.c3.b2);
    SumRotates(a.c1.b2, a.c2.b2, a.c3.b2, a.c0.b2);
    SumRotates(a.c0.b3, a.c1.b3, a.c2.b3, a.c3.b3);
    SumRotates(a.c1.b3, a.c2.b3, a.c3.b3, a.c0.b3);
    SumRotates(a.c2.b3, a.c3.b3, a.c0.b3, a.c1.b3);
  }

  lemma RowSums(a: Block)
    ensures BlockSum(a) == Sum4(Sum4(a.c0.b0, a.c1.b0, a.c2.b0, a.c3.b0), Sum4(a.c0.b1, a.c1.b1, a.c2.b1, a.c3.b1),
                                Sum4(a.c0.b2, a.c1.b2, a.c2.b2, a.c3.b2), Sum4(a.c0.b3, a.c1.b3, a.c2.b3, a.c3.b3))
  {
    hide Sum4;
    Transpose(a.c0.b0, a.c1.b0, a.c2.b0, a.c3.b0, a.c0.b1, a.c1.b1, a.c2.b1, a.c3.b1,
              a.c0.b2, a.c1.b2, a.c2.b2, a.c3.b2, a.c0.b3, a.c1.b3, a.c2.b3, a.c3.b3);
  }

  lemma ColumnSums(a: Column, b: Column)
    ensures ColumnSum(AddColumn(a, b)) == Add(ColumnSum(a), ColumnSum(b))
  {
    hide Add, Sum4;
    AddRows(a.b0, a.b1, a.b2, a.b3, b.b0, b.b1, b.b2, b.b3);
  }

  lemma BlockSums(a: Block, k: Block)
    ensures BlockSum(AddRoundKey(a, k)) == Add(BlockSum(a), BlockSum(k))
  {
    hide Add, Sum4, AddColumn, ColumnSum;
    ColumnSums(a.c0, k.c0);
    ColumnSums(a.c1, k.c1);
    ColumnSums(a.c2, k.c2);
    ColumnSums(a.c3, k.c3);
    AddRows(ColumnSum(a.c0), ColumnSum(a.c1), ColumnSum(a.c2), ColumnSum(a.c3),
            ColumnSum(k.c0), ColumnSum(k.c1), ColumnSum(k.c2), ColumnSum(k.c3));
  }

  // ---------- the whole cipher ----------

  /** The sum of the first n round keys. */
  function KeySum(k: seq<Block>, n: nat): bv8
    requires n <= |k|
  {
    if n == 0 then 0 else Add(KeySum(k, n - 1), BlockSum(k[n - 1]))
  }

  lemma {:induction false} RoundsAddKeys(k: seq<Block>, a: Block, r: nat)
    requires r < |k|
    ensures BlockSum(AfterRounds(Identity(), k, a, r)) == Add(BlockSum(a), KeySum(k, r + 1))
    decreases r
  {
    hide Add, BlockSum, AddRoundKey, MixColumns, ShiftRows, SubBytes;
    if r == 0 {
      BlockSums(a, k[0]);
      AddNothing(BlockSum(k[0]));
    } else {
      RoundsAddKeys(k, a, r - 1);
      var s := AfterRounds(Identity(), k, a, r - 1);
      var shifted := ShiftRows(SubBytes(Identity().fwd, s));
      ShiftKeepsSum(s);
      MixesKeepSum(shifted);
      BlockSums(MixColumns(shifted), k[r]);
      AddLaws(BlockSum(a), KeySum(k, r), BlockSum(k[r]));
    }
  }

  lemma AddNothing(x: bv8)
    ensures Add(0, x) == x
  {
  }

  lemma CipherAddsKeys(k: seq<Block>, a: Block)
    requires |k| >= 2
    ensures BlockSum(Cipher(Identity(), k, a)) == Add(BlockSum(a), KeySum(k, |k|))
  {
    hide Add, BlockSum, AddRoundKey, ShiftRows, SubBytes, AfterRounds;
    var s := AfterRounds(Identity(), k, a, |k| - 2);
    RoundsAddKeys(k, a, |k| - 2);
    ShiftKeepsSum(s);
    BlockSums(ShiftRows(SubBytes(Identity().fwd, s)), k[|k| - 1]);
    AddLaws(BlockSum(a), KeySum(k, |k| - 1), BlockSum(k[|k| - 1]));
  }

  // ---------- the schedule of the zero key ----------

  function ZeroKey(): (k: seq<bv8>)
    ensures |k| == 16
  {
    [0, 0, 0, 0, 0, 0, 0, 0, 0, 0, 0, 0, 0, 0, 0, 0]
  }

  function ZeroSchedule(): (k: seq<Block>)
    ensures |k| == 11
  {
    Schedule(Identity(), ZeroKey(), 128)
  }

  /** The sums of the four words of a round key. */
  datatype Quad = Quad(s0: bv8, s1: bv8, s2: bv8, s3: bv8)

  function Sums(a: Block): Quad { Quad(ColumnSum(a.c0), ColumnSum(a.c1), ColumnSum(a.c2), ColumnSum(a.c3)) }

  function NextQuad(q: Quad, rcon: bv8): Quad {
    var s0 := Add(q.s0, Add(q.s3, rcon));
    var s1 := Add(q.s1, s0);
    var s2 := Add(q.s2, s1);
    Quad(s0, s1, s2, Add(q.s3, s2))
  }

  lemma RoundKeyWords(r: nat)
    requires r <= 10
    ensures var k := UserKey(ZeroKey(), 4);
            ZeroSchedule()[r] == Block(KeyWord(Identity(), k, 4 * r), KeyWord(Identity(), k, 4 * r + 1),
                                       KeyWord(Identity(), k, 4 * r + 2), KeyWord(Identity(), k, 4 * r + 3))
  {
    hide KeyWord, UserKey, ZeroKey;
  }

  lemma FirstWord(i: nat)
    requires i < 4
    ensures KeyWord(Identity(), UserKey(ZeroKey(), 4), i) == Column(0, 0, 0, 0)
  {
  }

  lemma FirstRoundKey()
    ensures Sums(ZeroSchedule()[0]) == Quad(0, 0, 0, 0)
  {
    hide KeyWord, UserKey, ZeroKey, ZeroSchedule;
    RoundKeyWords(0);
    FirstWord(0);
    FirstWord(1);
    FirstWord(2);
    FirstWord(3);
  }

  lemma NextRoundKey(r: nat)
    requires r < 10
    ensures Sums(ZeroSchedule()[r + 1]) == NextQuad(Sums(ZeroSchedule()[r]), Rcon(r + 1))
  {
    hide Add, ColumnSum, Rcon, KeyWord, ZeroKey, ZeroSchedule;
    var k := UserKey(ZeroKey(), 4);
    RoundKeyWords(r);
    RoundKeyWords(r + 1);
    KeyWordStep(k, 4 * r + 4);
    KeyWordStep(k, 4 * r + 5);
    KeyWordStep(k, 4 * r + 6);
    KeyWordStep(k, 4 * r + 7);
  }

  lemma KeyWordStep(k: seq<Column>, i: nat)
    requires |k| == 4 && i >= 4
    ensures var t := ColumnSum(KeyWord(Identity(), k, i - 1));
            ColumnSum(KeyWord(Identity(), k, i)) ==
            Add(ColumnSum(KeyWord(Identity(), k, i - 4)), if i % 4 == 0 then Add(t, Rcon(i / 4)) else t)
  {
    hide Add, Sum4, Rcon;
    var t := KeyWord(Identity(), k, i - 1);
    var turned := RotColumn(t);
    assert SubColumn(Identity().fwd, turned) == turned;
    SumRotates(t.b0, t.b1, t.b2, t.b3);
    ColumnSums(turned, Column(Rcon(i / 4), 0, 0, 0));
    AddZeros(Rcon(i / 4));
    ColumnSums(KeyWord(Identity(), k, i - 4), t);
    ColumnSums(KeyWord(Identity(), k, i - 4), AddColumn(turned, Column(Rcon(i / 4), 0, 0, 0)));
  }

  lemma AddZeros(x: bv8)
    ensures Sum4(x, 0, 0, 0) == x
  {
  }

  /** The sums of the four words of every round key. */
  function QuadAt(r: nat): Quad {
    if r == 0 then Quad(0, 0, 0, 0) else NextQuad(QuadAt(r - 1), Rcon(r))
  }

  lemma {:induction false} ScheduleSums(r: nat)
    requires r <= 10
    ensures Sums(ZeroSchedule()[r]) == QuadAt(r)
  {
    hide NextQuad, Rcon, Sums, ZeroSchedule;
    if r == 0 {
      FirstRoundKey();
    } else {
      ScheduleSums(r - 1);
      NextRoundKey(r - 1);
    }
  }

  lemma RconValues()
    ensures Rcon(1) == 0x01 && Rcon(2) == 0x02 && Rcon(3) == 0x04 && Rcon(4) == 0x08 && Rcon(5) == 0x10
    ensures Rcon(6) == 0x20 && Rcon(7) == 0x40 && Rcon(8) == 0x80 && Rcon(9) == 0x1b && Rcon(10) == 0x36
  {
    assert Rcon(4) == 0x08;
    assert Rcon(7) == 0x40;
  }

  lemma QuadValues()
    ensures QuadAt(1) == Quad(0x01, 0x01, 0x01, 0x01) && QuadAt(2) == Quad(0x02, 0x03, 0x02, 0x03)
    ensures QuadAt(3) == Quad(0x05, 0x06, 0x04, 0x07) && QuadAt(4) == Quad(0x0a, 0x0c, 0x08, 0x0f)
    ensures QuadAt(5) == Quad(0x15, 0x19, 0x11, 0x1e) && QuadAt(6) == Quad(0x2b, 0x32, 0x23, 0x3d)
    ensures QuadAt(7) == Quad(0x56, 0x64, 0x47, 0x7a) && QuadAt(8) == Quad(0xac, 0xc8, 0x8f, 0xf5)
    ensures QuadAt(9) == Quad(0x42, 0x8a, 0x05, 0xf0) && QuadAt(10) == Quad(0x84, 0x0e, 0x0b, 0xfb)
  {
    hide Rcon;
    RconValues();
  }

  function QuadSum(q: Quad): bv8 { Sum4(q.s0, q.s1, q.s2, q.s3) }

  function QuadSums(n: nat): bv8 { if n == 0 then 0 else Add(QuadSums(n - 1), QuadSum(QuadAt(n - 1))) }

  lemma {:induction false} KeysSum(n: nat)
    requires n <= 11
    ensures KeySum(ZeroSchedule(), n) == QuadSums(n)
  {
    hide Add, Sum4, ColumnSum, QuadAt, ZeroSchedule;
    if n > 0 {
      KeysSum(n - 1);
      ScheduleSums(n - 1);
    }
  }

  lemma TotalSum()
    ensures KeySum(ZeroSchedule(), 11) == 0x53
  {
    hide KeySum, QuadAt, ZeroSchedule;
    KeysSum(11);
    QuadValues();
    FirstQuad();
    assert QuadSums(4) == 0;
    assert QuadSums(8) == 0x0a;
  }

  lemma FirstQuad()
    ensures QuadAt(0) == Quad(0, 0, 0, 0)
  {
  }

  // ---------- no fixed point ----------

  lemma NoFixedPoint(b: seq<bv8>)
    requires |b| == 16
    ensures EncBlock(Identity(), ZeroSchedule(), b) != b
  {
    hide Cipher, BlockSum, KeySum, Add, ZeroSchedule;
    var a := BlockOf(b);
    var c := Cipher(Identity(), ZeroSchedule(), a);
    CipherAddsKeys(ZeroSchedule(), a);
    TotalSum();
    BytesAndBlocks(b, c);
    AddMoves(BlockSum(a), 0x53);
  }

  lemma AddMoves(x: bv8, y: bv8)
    requires y != 0
    ensures Add(x, y) != x
  {
  }

  /** Whatever is encrypted under this key and decrypted again, after a short tail the two vectors
      carried out differ. */
  lemma TailLeavesOtherVector(p: seq<bv8>, iv: seq<bv8>)
    requires |iv| == 16 && |p| % 16 != 0
    ensures var k := ZeroSchedule();
            CbcDecrypted(Identity(), InverseKeys(k), CbcEncrypted(Identity(), k, p, iv).0, |p|, iv).1 !=
            CbcEncrypted(Identity(), k, p, iv).1
  {
    hide EncBlock, DecBlock, InverseKeys, LastTail, CbcEncrypted, CbcDecrypted, ZeroSchedule;
    CarriedVectors(Identity(), ZeroSchedule(), p, iv);
    NoFixedPoint(LastTail(Identity(), ZeroSchedule(), p, iv));
  }
}
