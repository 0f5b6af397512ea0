/** The lookup tables of aes.c as functions of the substitution box, and what one table
    expression of the code computes in terms of FIPS 197 columns. */
module AesTables {
  import opened Gf256
  import opened AesSpec

  // ---------- 32-bit words as columns ----------

  /** GETU32: the first byte is the most significant one. */
  function Pack(b0: bv8, b1: bv8, b2: bv8, b3: bv8): bv32 {
    (b0 as bv32 << 24) ^ (b1 as bv32 << 16) ^ (b2 as bv32 << 8) ^ (b3 as bv32)
  }

  function Byte0(w: bv32): bv8 { (w >> 24) as bv8 }

  function Byte1(w: bv32): bv8 { ((w >> 16) & 0xff) as bv8 }

  function Byte2(w: bv32): bv8 { ((w >> 8) & 0xff) as bv8 }

  function Byte3(w: bv32): bv8 { (w & 0xff) as bv8 }

  /** PUTU32, as a column. */
  function Unpack(w: bv32): Column { Column(Byte0(w), Byte1(w), Byte2(w), Byte3(w)) }

  lemma UnpackPack(b0: bv8, b1: bv8, b2: bv8, b3: bv8)
    ensures Byte0(Pack(b0, b1, b2, b3)) == b0 && Byte1(Pack(b0, b1, b2, b3)) == b1
    ensures Byte2(Pack(b0, b1, b2, b3)) == b2 && Byte3(Pack(b0, b1, b2, b3)) == b3
    ensures Unpack(Pack(b0, b1, b2, b3)) == Column(b0, b1, b2, b3)
  {
  }

  function Xor(v: bv32, w: bv32): bv32 { v ^ w }

  function Xor4(v: bv32, w: bv32, x: bv32, y: bv32): bv32 { Xor(Xor(v, w), Xor(x, y)) }

  lemma XorIsBytewise(v: bv32, w: bv32)
    ensures Byte0(v ^ w) == Add(Byte0(v), Byte0(w)) && Byte1(v ^ w) == Add(Byte1(v), Byte1(w))
    ensures Byte2(v ^ w) == Add(Byte2(v), Byte2(w)) && Byte3(v ^ w) == Add(Byte3(v), Byte3(w))
  {
  }

  lemma BytesOfXor(v: bv32, w: bv32)
    ensures Byte0(Xor(v, w)) == Add(Byte0(v), Byte0(w)) && Byte1(Xor(v, w)) == Add(Byte1(v), Byte1(w))
    ensures Byte2(Xor(v, w)) == Add(Byte2(v), Byte2(w)) && Byte3(Xor(v, w)) == Add(Byte3(v), Byte3(w))
    ensures Unpack(Xor(v, w)) == AddColumn(Unpack(v), Unpack(w))
  {
    hide Add, Byte0, Byte1, Byte2, Byte3;
    XorIsBytewise(v, w);
  }

  lemma BytesOfXor4(v: bv32, w: bv32, x: bv32, y: bv32)
    ensures Unpack(Xor4(v, w, x, y)) ==
            Column(Sum4(Byte0(v), Byte0(w), Byte0(x), Byte0(y)), Sum4(Byte1(v), Byte1(w), Byte1(x), Byte1(y)),
                   Sum4(Byte2(v), Byte2(w), Byte2(x), Byte2(y)), Sum4(Byte3(v), Byte3(w), Byte3(x), Byte3(y)))
  {
    hide Add, Xor, Byte0, Byte1, Byte2, Byte3;
    BytesOfXor(v, w);
    BytesOfXor(x, y);
    BytesOfXor(Xor(v, w), Xor(x, y));
  }

  lemma Masks(b: bv8)
    ensures Pack(b, b, b, b) & 0xff000000 == Pack(b, 0, 0, 0)
    ensures Pack(b, b, b, b) & 0x00ff0000 == Pack(0, b, 0, 0)
    ensures Pack(b, b, b, b) & 0x0000ff00 == Pack(0, 0, b, 0)
    ensures Pack(b, b, b, b) & 0x000000ff == Pack(0, 0, 0, b)
  {
  }

  // ---------- the tables ----------

  function Te0(sb: SBox, x: bv8): bv32 { var s := sb.fwd(x); Pack(Times2(s), s, s, Mul3(s)) }

  function Te1(sb: SBox, x: bv8): bv32 { var s := sb.fwd(x); Pack(Mul3(s), Times2(s), s, s) }

  function Te2(sb: SBox, x: bv8): bv32 { var s := sb.fwd(x); Pack(s, Mul3(s), Times2(s), s) }

  function Te3(sb: SBox, x: bv8): bv32 { var s := sb.fwd(x); Pack(s, s, Mul3(s), Times2(s)) }

  function Td0(sb: SBox, x: bv8): bv32 { var s := sb.inv(x); Pack(MulE(s), Mul9(s), MulD(s), MulB(s)) }

  function Td1(sb: SBox, x: bv8): bv32 { var s := sb.inv(x); Pack(MulB(s), MulE(s), Mul9(s), MulD(s)) }

  function Td2(sb: SBox, x: bv8): bv32 { var s := sb.inv(x); Pack(MulD(s), MulB(s), MulE(s), Mul9(s)) }

  function Td3(sb: SBox, x: bv8): bv32 { var s := sb.inv(x); Pack(Mul9(s), MulD(s), MulB(s), MulE(s)) }

  /** Te4 with f = S, Td4 with f = Si. */
  function T4(f: bv8 -> bv8, x: bv8): bv32 { Pack(f(x), f(x), f(x), f(x)) }

  // ---------- the table expressions of the rounds ----------

  /** Four encryption lookups combined, before the round key is added. */
  function EncWord(sb: SBox, x0: bv8, x1: bv8, x2: bv8, x3: bv8): bv32 {
    Xor4(Te0(sb, x0), Te1(sb, x1), Te2(sb, x2), Te3(sb, x3))
  }

  /** Four decryption lookups combined. */
  function DecWord(sb: SBox, x0: bv8, x1: bv8, x2: bv8, x3: bv8): bv32 {
    Xor4(Td0(sb, x0), Td1(sb, x1), Td2(sb, x2), Td3(sb, x3))
  }

  /** Four lookups in Te4 or Td4, each masked to one byte. */
  function SubWord(f: bv8 -> bv8, x0: bv8, x1: bv8, x2: bv8, x3: bv8): bv32 {
    Xor4(T4(f, x0) & 0xff000000, T4(f, x1) & 0x00ff0000, T4(f, x2) & 0x0000ff00, T4(f, x3) & 0x000000ff)
  }

  /** Te0..Te3 fold SubBytes and MixColumns into one lookup per byte. */
  lemma EncWordIsMixColumn(sb: SBox, x0: bv8, x1: bv8, x2: bv8, x3: bv8)
    ensures Unpack(EncWord(sb, x0, x1, x2, x3)) == MixColumn(SubColumn(sb.fwd, Column(x0, x1, x2, x3)))
  {
    hide Add, Sum4, Times2, Mul3, Xor4, Pack, Byte0, Byte1, Byte2, Byte3;
    var a, b, c, d := sb.fwd(x0), sb.fwd(x1), sb.fwd(x2), sb.fwd(x3);
    UnpackPack(Times2(a), a, a, Mul3(a));
    UnpackPack(Mul3(b), Times2(b), b, b);
    UnpackPack(c, Mul3(c), Times2(c), c);
    UnpackPack(d, d, Mul3(d), Times2(d));
    BytesOfXor4(Te0(sb, x0), Te1(sb, x1), Te2(sb, x2), Te3(sb, x3));
    SumRotates(a, Times2(b), Mul3(c), d);
    SumRotates(a, b, Times2(c), Mul3(d));
    SumRotates(b, Times2(c), Mul3(d), a);
    SumRotates(Times2(d), Mul3(a), b, c);
  }

  /** Td0..Td3 fold InvSubBytes and InvMixColumns. */
  lemma DecWordIsInvMixColumn(sb: SBox, x0: bv8, x1: bv8, x2: bv8, x3: bv8)
    ensures Unpack(DecWord(sb, x0, x1, x2, x3)) == InvMixColumn(SubColumn(sb.inv, Column(x0, x1, x2, x3)))
  {
    hide Add, Sum4, Mul9, MulB, MulD, MulE, Xor4, Pack, Byte0, Byte1, Byte2, Byte3;
    var a, b, c, d := sb.inv(x0), sb.inv(x1), sb.inv(x2), sb.inv(x3);
    UnpackPack(MulE(a), Mul9(a), MulD(a), MulB(a));
    UnpackPack(MulB(b), MulE(b), Mul9(b), MulD(b));
    UnpackPack(MulD(c), MulB(c), MulE(c), Mul9(c));
    UnpackPack(Mul9(d), MulD(d), MulB(d), MulE(d));
    BytesOfXor4(Td0(sb, x0), Td1(sb, x1), Td2(sb, x2), Td3(sb, x3));
    SumRotates(Mul9(a), MulE(b), MulB(c), MulD(d));
    SumRotates(MulD(a), Mul9(b), MulE(c), MulB(d));
    SumRotates(Mul9(b), MulE(c), MulB(d), MulD(a));
    SumRotates(MulE(d), MulB(a), MulD(b), Mul9(c));
  }

  lemma SubWordIsSubColumn(f: bv8 -> bv8, x0: bv8, x1: bv8, x2: bv8, x3: bv8)
    ensures Unpack(SubWord(f, x0, x1, x2, x3)) == SubColumn(f, Column(x0, x1, x2, x3))
  {
    hide Add, Sum4, Xor4, Pack, Byte0, Byte1, Byte2, Byte3;
    var a, b, c, d := f(x0), f(x1), f(x2), f(x3);
    Masks(a);
    Masks(b);
    Masks(c);
    Masks(d);
    UnpackPack(a, 0, 0, 0);
    UnpackPack(0, b, 0, 0);
    UnpackPack(0, 0, c, 0);
    UnpackPack(0, 0, 0, d);
    BytesOfXor4(Pack(a, 0, 0, 0), Pack(0, b, 0, 0), Pack(0, 0, c, 0), Pack(0, 0, 0, d));
    SumOfZeros(a);
    SumOfZeros(b);
    SumOfZeros(c);
    SumOfZeros(d);
    SumRotates(0, b, 0, 0);
    SumRotates(0, 0, c, 0);
    SumRotates(0, c, 0, 0);
    SumRotates(d, 0, 0, 0);
  }
}
