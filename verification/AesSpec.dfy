/** The AES cipher and its equivalent inverse cipher as FIPS 197 states them (sections
    5.1, 5.2 and 5.3.5), on states of four columns of four bytes. The substitution box
    is a parameter: all that is used of it is that `inv` undoes `fwd`. */
module AesSpec {
  import opened Gf256

  datatype Column = Column(b0: bv8, b1: bv8, b2: bv8, b3: bv8)

  datatype Block = Block(c0: Column, c1: Column, c2: Column, c3: Column)

  datatype SBox = SBox(fwd: bv8 -> bv8, inv: bv8 -> bv8) {
    ghost predicate Valid() {
      forall x :: inv(fwd(x)) == x
    }
  }

  // ---------- columns ----------

  function AddColumn(a: Column, b: Column): Column {
    Column(Add(a.b0, b.b0), Add(a.b1, b.b1), Add(a.b2, b.b2), Add(a.b3, b.b3))
  }

  function SubColumn(f: bv8 -> bv8, a: Column): Column {
    Column(f(a.b0), f(a.b1), f(a.b2), f(a.b3))
  }

  function MixColumn(a: Column): Column {
    Column(MixRow(a.b0, a.b1, a.b2, a.b3), MixRow(a.b1, a.b2, a.b3, a.b0),
           MixRow(a.b2, a.b3, a.b0, a.b1), MixRow(a.b3, a.b0, a.b1, a.b2))
  }

  function InvMixColumn(a: Column): Column {
    Column(InvMixRow(a.b0, a.b1, a.b2, a.b3), InvMixRow(a.b1, a.b2, a.b3, a.b0),
           InvMixRow(a.b2, a.b3, a.b0, a.b1), InvMixRow(a.b3, a.b0, a.b1, a.b2))
  }

  lemma AddColumnLaws(a: Column, b: Column, c: Column)
    ensures AddColumn(a, b) == AddColumn(b, a)
    ensures AddColumn(AddColumn(a, b), c) == AddColumn(a, AddColumn(b, c))
  {
    hide Add;
    AddLaws(a.b0, b.b0, c.b0);
    AddLaws(a.b1, b.b1, c.b1);
    AddLaws(a.b2, b.b2, c.b2);
    AddLaws(a.b3, b.b3, c.b3);
    AddLaws(0, a.b0, b.b0);
    AddLaws(0, a.b1, b.b1);
    AddLaws(0, a.b2, b.b2);
    AddLaws(0, a.b3, b.b3);
  }

  lemma AddTwice(a: bv8, k: bv8)
    ensures Add(Add(a, k), k) == a
  {
  }

  lemma AddColumnTwice(a: Column, k: Column)
    ensures AddColumn(AddColumn(a, k), k) == a
  {
    hide Add;
    AddTwice(a.b0, k.b0);
    AddTwice(a.b1, k.b1);
    AddTwice(a.b2, k.b2);
    AddTwice(a.b3, k.b3);
  }

  lemma InvMixColumnUndoes(a: Column)
    ensures InvMixColumn(MixColumn(a)) == a
  {
    hide MixRow, InvMixRow;
    InvMixRowUndoes(a.b0, a.b1, a.b2, a.b3);
    InvMixRowUndoes(a.b1, a.b2, a.b3, a.b0);
    InvMixRowUndoes(a.b2, a.b3, a.b0, a.b1);
    InvMixRowUndoes(a.b3, a.b0, a.b1, a.b2);
  }

  lemma InvMixColumnAdd(a: Column, k: Column)
    ensures InvMixColumn(AddColumn(a, k)) == AddColumn(InvMixColumn(a), InvMixColumn(k))
  {
    hide Add, InvMixRow;
    InvMixRowAdd(a.b0, a.b1, a.b2, a.b3, k.b0, k.b1, k.b2, k.b3);
    InvMixRowAdd(a.b1, a.b2, a.b3, a.b0, k.b1, k.b2, k.b3, k.b0);
    InvMixRowAdd(a.b2, a.b3, a.b0, a.b1, k.b2, k.b3, k.b0, k.b1);
    InvMixRowAdd(a.b3, a.b0, a.b1, a.b2, k.b3, k.b0, k.b1, k.b2);
  }

  // ---------- states ----------

  function AddRoundKey(a: Block, k: Block): Block {
    Block(AddColumn(a.c0, k.c0), AddColumn(a.c1, k.c1), AddColumn(a.c2, k.c2), AddColumn(a.c3, k.c3))
  }

  function SubBytes(f: bv8 -> bv8, a: Block): Block {
    Block(SubColumn(f, a.c0), SubColumn(f, a.c1), SubColumn(f, a.c2), SubColumn(f, a.c3))
  }

  /** Row r moves left by r columns. */
  function ShiftRows(a: Block): Block {
    Block(Column(a.c0.b0, a.c1.b1, a.c2.b2, a.c3.b3),
          Column(a.c1.b0, a.c2.b1, a.c3.b2, a.c0.b3),
          Column(a.c2.b0, a.c3.b1, a.c0.b2, a.c1.b3),
          Column(a.c3.b0, a.c0.b1, a.c1.b2, a.c2.b3))
  }

  /** Row r moves right by r columns. */
  function InvShiftRows(a: Block): Block {
    Block(Column(a.c0.b0, a.c3.b1, a.c2.b2, a.c1.b3),
          Column(a.c1.b0, a.c0.b1, a.c3.b2, a.c2.b3),
          Column(a.c2.b0, a.c1.b1, a.c0.b2, a.c3.b3),
          Column(a.c3.b0, a.c2.b1, a.c1.b2, a.c0.b3))
  }

  function MixColumns(a: Block): Block {
    Block(MixColumn(a.c0), MixColumn(a.c1), MixColumn(a.c2), MixColumn(a.c3))
  }

  function InvMixColumns(a: Block): Block {
    Block(InvMixColumn(a.c0), InvMixColumn(a.c1), InvMixColumn(a.c2), InvMixColumn(a.c3))
  }

  lemma AddRoundKeyTwice(a: Block, k: Block)
    ensures AddRoundKey(AddRoundKey(a, k), k) == a
  {
    hide AddColumn;
    AddColumnTwice(a.c0, k.c0);
    AddColumnTwice(a.c1, k.c1);
    AddColumnTwice(a.c2, k.c2);
    AddColumnTwice(a.c3, k.c3);
  }

  lemma InvMixColumnsUndoes(a: Block, k: Block)
    ensures InvMixColumns(AddRoundKey(MixColumns(a), k)) == AddRoundKey(a, InvMixColumns(k))
  {
    hide AddColumn, MixColumn, InvMixColumn;
    InvMixColumnAdd(MixColumn(a.c0), k.c0);
    InvMixColumnAdd(MixColumn(a.c1), k.c1);
    InvMixColumnAdd(MixColumn(a.c2), k.c2);
    InvMixColumnAdd(MixColumn(a.c3), k.c3);
    InvMixColumnUndoes(a.c0);
    InvMixColumnUndoes(a.c1);
    InvMixColumnUndoes(a.c2);
    InvMixColumnUndoes(a.c3);
  }

  lemma InvSubShiftUndoes(sb: SBox, a: Block)
    requires sb.Valid()
    ensures SubBytes(sb.inv, InvShiftRows(ShiftRows(SubBytes(sb.fwd, a)))) == a
  {
  }

  // ---------- the cipher, for any number of rounds ----------

  /** The state before round r + 1: the initial key added, then r full rounds. */
  function AfterRounds(sb: SBox, k: seq<Block>, a: Block, r: nat): Block
    requires r < |k|
  {
    if r == 0 then AddRoundKey(a, k[0])
    else AddRoundKey(MixColumns(ShiftRows(SubBytes(sb.fwd, AfterRounds(sb, k, a, r - 1)))), k[r])
  }

  /** Section 5.1 of FIPS 197. */
  function Cipher(sb: SBox, k: seq<Block>, a: Block): Block
    requires |k| >= 2
  {
    AddRoundKey(ShiftRows(SubBytes(sb.fwd, AfterRounds(sb, k, a, |k| - 2))), k[|k| - 1])
  }

  function AfterInvRounds(sb: SBox, dk: seq<Block>, a: Block, r: nat): Block
    requires r < |dk|
  {
    if r == 0 then AddRoundKey(a, dk[0])
    else AddRoundKey(InvMixColumns(InvShiftRows(SubBytes(sb.inv, AfterInvRounds(sb, dk, a, r - 1)))), dk[r])
  }

  /** Section 5.3.5 of FIPS 197, the equivalent inverse cipher. */
  function EqInvCipher(sb: SBox, dk: seq<Block>, a: Block): Block
    requires |dk| >= 2
  {
    AddRoundKey(InvShiftRows(SubBytes(sb.inv, AfterInvRounds(sb, dk, a, |dk| - 2))), dk[|dk| - 1])
  }

  /** The schedule of the equivalent inverse cipher: the round keys backwards, with
      InvMixColumns applied to all but the first and the last. */
  function InverseKeys(k: seq<Block>): (dk: seq<Block>)
    requires |k| >= 2
  {
    seq(|k|, i requires 0 <= i < |k| =>
      if i == 0 || i == |k| - 1 then k[|k| - 1 - i] else InvMixColumns(k[|k| - 1 - i]))
  }

  lemma SubShiftCommute(f: bv8 -> bv8, a: Block)
    ensures InvShiftRows(SubBytes(f, a)) == SubBytes(f, InvShiftRows(a))
  {
  }

  /** r inverse rounds peel off r rounds. */
  lemma {:induction false} InverseRoundsPeel(sb: SBox, k: seq<Block>, a: Block, r: nat)
    requires sb.Valid() && |k| >= 2 && r <= |k| - 2
    ensures AfterInvRounds(sb, InverseKeys(k), Cipher(sb, k, a), r) ==
            ShiftRows(SubBytes(sb.fwd, AfterRounds(sb, k, a, |k| - 2 - r)))
  {
    hide AddRoundKey, SubBytes, ShiftRows, InvShiftRows, MixColumns, InvMixColumns;
    var n := |k| - 2;
    if r == 0 {
      AddRoundKeyTwice(ShiftRows(SubBytes(sb.fwd, AfterRounds(sb, k, a, n))), k[n + 1]);
    } else {
      InverseRoundsPeel(sb, k, a, r - 1);
      var before := AfterRounds(sb, k, a, n - r);
      var after := AfterRounds(sb, k, a, n - r + 1);
      SubShiftCommute(sb.inv, ShiftRows(SubBytes(sb.fwd, after)));
      InvSubShiftUndoes(sb, after);
      InvMixColumnsUndoes(ShiftRows(SubBytes(sb.fwd, before)), k[n - r + 1]);
      AddRoundKeyTwice(ShiftRows(SubBytes(sb.fwd, before)), InvMixColumns(k[n - r + 1]));
    }
  }

  /** For every list of round keys, the equivalent inverse cipher undoes the cipher. */
  lemma EqInvCipherUndoes(sb: SBox, k: seq<Block>, a: Block)
    requires sb.Valid() && |k| >= 2
    ensures EqInvCipher(sb, InverseKeys(k), Cipher(sb, k, a)) == a
  {
    hide AddRoundKey, SubBytes, ShiftRows, InvShiftRows, MixColumns, InvMixColumns;
    InverseRoundsPeel(sb, k, a, |k| - 2);
    var start := AddRoundKey(a, k[0]);
    SubShiftCommute(sb.inv, ShiftRows(SubBytes(sb.fwd, start)));
    InvSubShiftUndoes(sb, start);
    AddRoundKeyTwice(a, k[0]);
  }
}
