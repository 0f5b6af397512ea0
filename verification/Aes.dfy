/** AES_set_decrypt_key, AES_encrypt and AES_decrypt of aes.c, proved against the cipher
    of FIPS 197, and the round trip through all four routines. */
module Aes {
  import opened AesSpec
  import opened AesTables
  import opened AesKeys

  // ---------- views of words and bytes ----------

  function WordBlock(w0: bv32, w1: bv32, w2: bv32, w3: bv32): Block {
    Block(Unpack(w0), Unpack(w1), Unpack(w2), Unpack(w3))
  }

  /** Round key r of a schedule. */
  function RoundKey(w: seq<bv32>, r: nat): Block
    requires 4 * r + 4 <= |w|
  {
    WordBlock(w[4 * r], w[4 * r + 1], w[4 * r + 2], w[4 * r + 3])
  }

  function RoundKeys(w: seq<bv32>, n: nat): (k: seq<Block>)
    requires 4 * (n + 1) <= |w|
    ensures |k| == n + 1
  {
    seq(n + 1, r requires 0 <= r <= n => RoundKey(w, r))
  }

  /** The round keys of FIPS 197 for a user's key. */
  function Schedule(sb: SBox, bytes: seq<bv8>, bits: int): (k: seq<Block>)
    requires ValidBits(bits) && |bytes| >= bits / 8
    ensures |k| == Rounds(bits) + 1
  {
    var uk := UserKey(bytes, bits / 32);
    seq(Rounds(bits) + 1, r requires 0 <= r <= Rounds(bits) =>
      Block(KeyWord(sb, uk, 4 * r), KeyWord(sb, uk, 4 * r + 1), KeyWord(sb, uk, 4 * r + 2), KeyWord(sb, uk, 4 * r + 3)))
  }

  lemma ExpandedIsSchedule(sb: SBox, bytes: seq<bv8>, bits: int, w: seq<bv32>)
    requires ValidBits(bits) && |bytes| >= bits / 8 && |w| == MAX_WORDS
    requires Expanded(sb, UserKey(bytes, bits / 32), w, 4 * (Rounds(bits) + 1))
    ensures RoundKeys(w, Rounds(bits)) == Schedule(sb, bytes, bits)
  {
    hide Unpack, KeyWord;
    var k, s := RoundKeys(w, Rounds(bits)), Schedule(sb, bytes, bits);
    forall r | 0 <= r <= Rounds(bits)
      ensures k[r] == s[r]
    {
      assert k[r] == RoundKey(w, r);
    }
  }

  function BlockOf(b: seq<bv8>): Block
    requires |b| == 16
  {
    Block(Column(b[0], b[1], b[2], b[3]), Column(b[4], b[5], b[6], b[7]),
          Column(b[8], b[9], b[10], b[11]), Column(b[12], b[13], b[14], b[15]))
  }

  function BytesOf(a: Block): (b: seq<bv8>)
    ensures |b| == 16
  {
    [a.c0.b0, a.c0.b1, a.c0.b2, a.c0.b3, a.c1.b0, a.c1.b1, a.c1.b2, a.c1.b3,
     a.c2.b0, a.c2.b1, a.c2.b2, a.c2.b3, a.c3.b0, a.c3.b1, a.c3.b2, a.c3.b3]
  }

  lemma BytesAndBlocks(b: seq<bv8>, a: Block)
    requires |b| == 16
    ensures BytesOf(BlockOf(b)) == b && BlockOf(BytesOf(a)) == a
  {
  }

  // ---------- one round ----------

  /** GETU32 of the input and the initial key. */
  method FirstState(b: seq<bv8>, k: seq<bv32>) returns (s0: bv32, s1: bv32, s2: bv32, s3: bv32)
    requires |b| == 16 && 4 <= |k|
    ensures WordBlock(s0, s1, s2, s3) == AddRoundKey(BlockOf(b), RoundKey(k, 0))
  {
    hide Xor, Pack, Byte0, Byte1, Byte2, Byte3, AddColumn;
    s0 := Xor(Pack(b[0], b[1], b[2], b[3]), k[0]);
    s1 := Xor(Pack(b[4], b[5], b[6], b[7]), k[1]);
    s2 := Xor(Pack(b[8], b[9], b[10], b[11]), k[2]);
    s3 := Xor(Pack(b[12], b[13], b[14], b[15]), k[3]);
    UnpackPack(b[0], b[1], b[2], b[3]);
    UnpackPack(b[4], b[5], b[6], b[7]);
    UnpackPack(b[8], b[9], b[10], b[11]);
    UnpackPack(b[12], b[13], b[14], b[15]);
    BytesOfXor(Pack(b[0], b[1], b[2], b[3]), k[0]);
    BytesOfXor(Pack(b[4], b[5], b[6], b[7]), k[1]);
    BytesOfXor(Pack(b[8], b[9], b[10], b[11]), k[2]);
    BytesOfXor(Pack(b[12], b[13], b[14], b[15]), k[3]);
  }

  /** A full round of encryption with the key words at p. */
  method EncRound(sb: SBox, s0: bv32, s1: bv32, s2: bv32, s3: bv32, k: seq<bv32>, p: nat)
    returns (t0: bv32, t1: bv32, t2: bv32, t3: bv32)
    requires p % 4 == 0 && p + 4 <= |k|
    ensures WordBlock(t0, t1, t2, t3) ==
            AddRoundKey(MixColumns(ShiftRows(SubBytes(sb.fwd, WordBlock(s0, s1, s2, s3)))), RoundKey(k, p / 4))
  {
    hide Xor, EncWord, Byte0, Byte1, Byte2, Byte3, AddColumn, MixColumn;
    t0 := Xor(EncWord(sb, Byte0(s0), Byte1(s1), Byte2(s2), Byte3(s3)), k[p]);
    t1 := Xor(EncWord(sb, Byte0(s1), Byte1(s2), Byte2(s3), Byte3(s0)), k[p + 1]);
    t2 := Xor(EncWord(sb, Byte0(s2), Byte1(s3), Byte2(s0), Byte3(s1)), k[p + 2]);
    t3 := Xor(EncWord(sb, Byte0(s3), Byte1(s0), Byte2(s1), Byte3(s2)), k[p + 3]);
    EncWordIsMixColumn(sb, Byte0(s0), Byte1(s1), Byte2(s2), Byte3(s3));
    EncWordIsMixColumn(sb, Byte0(s1), Byte1(s2), Byte2(s3), Byte3(s0));
    EncWordIsMixColumn(sb, Byte0(s2), Byte1(s3), Byte2(s0), Byte3(s1));
    EncWordIsMixColumn(sb, Byte0(s3), Byte1(s0), Byte2(s1), Byte3(s2));
    BytesOfXor(EncWord(sb, Byte0(s0), Byte1(s1), Byte2(s2), Byte3(s3)), k[p]);
    BytesOfXor(EncWord(sb, Byte0(s1), Byte1(s2), Byte2(s3), Byte3(s0)), k[p + 1]);
    BytesOfXor(EncWord(sb, Byte0(s2), Byte1(s3), Byte2(s0), Byte3(s1)), k[p + 2]);
    BytesOfXor(EncWord(sb, Byte0(s3), Byte1(s0), Byte2(s1), Byte3(s2)), k[p + 3]);
  }

  /** The last round of encryption, without MixColumns. */
  method EncLastRound(sb: SBox, s0: bv32, s1: bv32, s2: bv32, s3: bv32, k: seq<bv32>, p: nat)
    returns (t0: bv32, t1: bv32, t2: bv32, t3: bv32)
    requires p % 4 == 0 && p + 4 <= |k|
    ensures WordBlock(t0, t1, t2, t3) ==
            AddRoundKey(ShiftRows(SubBytes(sb.fwd, WordBlock(s0, s1, s2, s3))), RoundKey(k, p / 4))
  {
    hide Xor, SubWord, Byte0, Byte1, Byte2, Byte3, AddColumn;
    t0 := Xor(SubWord(sb.fwd, Byte0(s0), Byte1(s1), Byte2(s2), Byte3(s3)), k[p]);
    t1 := Xor(SubWord(sb.fwd, Byte0(s1), Byte1(s2), Byte2(s3), Byte3(s0)), k[p + 1]);
    t2 := Xor(SubWord(sb.fwd, Byte0(s2), Byte1(s3), Byte2(s0), Byte3(s1)), k[p + 2]);
    t3 := Xor(SubWord(sb.fwd, Byte0(s3), Byte1(s0), Byte2(s1), Byte3(s2)), k[p + 3]);
    SubWordIsSubColumn(sb.fwd, Byte0(s0), Byte1(s1), Byte2(s2), Byte3(s3));
    SubWordIsSubColumn(sb.fwd, Byte0(s1), Byte1(s2), Byte2(s3), Byte3(s0));
    SubWordIsSubColumn(sb.fwd, Byte0(s2), Byte1(s3), Byte2(s0), Byte3(s1));
    SubWordIsSubColumn(sb.fwd, Byte0(s3), Byte1(s0), Byte2(s1), Byte3(s2));
    BytesOfXor(SubWord(sb.fwd, Byte0(s0), Byte1(s1), Byte2(s2), Byte3(s3)), k[p]);
    BytesOfXor(SubWord(sb.fwd, Byte0(s1), Byte1(s2), Byte2(s3), Byte3(s0)), k[p + 1]);
    BytesOfXor(SubWord(sb.fwd, Byte0(s2), Byte1(s3), Byte2(s0), Byte3(s1)), k[p + 2]);
    BytesOfXor(SubWord(sb.fwd, Byte0(s3), Byte1(s0), Byte2(s1), Byte3(s2)), k[p + 3]);
  }

  /** A full round of decryption with the key words at p. */
  method DecRound(sb: SBox, s0: bv32, s1: bv32, s2: bv32, s3: bv32, k: seq<bv32>, p: nat)
    returns (t0: bv32, t1: bv32, t2: bv32, t3: bv32)
    requires p % 4 == 0 && p + 4 <= |k|
    ensures WordBlock(t0, t1, t2, t3) ==
            AddRoundKey(InvMixColumns(InvShiftRows(SubBytes(sb.inv, WordBlock(s0, s1, s2, s3)))), RoundKey(k, p / 4))
  {
    hide Xor, DecWord, Byte0, Byte1, Byte2, Byte3, AddColumn, InvMixColumn;
    t0 := Xor(DecWord(sb, Byte0(s0), Byte1(s3), Byte2(s2), Byte3(s1)), k[p]);
    t1 := Xor(DecWord(sb, Byte0(s1), Byte1(s0), Byte2(s3), Byte3(s2)), k[p + 1]);
    t2 := Xor(DecWord(sb, Byte0(s2), Byte1(s1), Byte2(s0), Byte3(s3)), k[p + 2]);
    t3 := Xor(DecWord(sb, Byte0(s3), Byte1(s2), Byte2(s1), Byte3(s0)), k[p + 3]);
    DecWordIsInvMixColumn(sb, Byte0(s0), Byte1(s3), Byte2(s2), Byte3(s1));
    DecWordIsInvMixColumn(sb, Byte0(s1), Byte1(s0), Byte2(s3), Byte3(s2));
    DecWordIsInvMixColumn(sb, Byte0(s2), Byte1(s1), Byte2(s0), Byte3(s3));
    DecWordIsInvMixColumn(sb, Byte0(s3), Byte1(s2), Byte2(s1), Byte3(s0));
    BytesOfXor(DecWord(sb, Byte0(s0), Byte1(s3), Byte2(s2), Byte3(s1)), k[p]);
    BytesOfXor(DecWord(sb, Byte0(s1), Byte1(s0), Byte2(s3), Byte3(s2)), k[p + 1]);
    BytesOfXor(DecWord(sb, Byte0(s2), Byte1(s1), Byte2(s0), Byte3(s3)), k[p + 2]);
    BytesOfXor(DecWord(sb, Byte0(s3), Byte1(s2), Byte2(s1), Byte3(s0)), k[p + 3]);
  }

  /** The last round of decryption. */
  method DecLastRound(sb: SBox, s0: bv32, s1: bv32, s2: bv32, s3: bv32, k: seq<bv32>, p: nat)
    returns (t0: bv32, t1: bv32, t2: bv32, t3: bv32)
    requires p % 4 == 0 && p + 4 <= |k|
    ensures WordBlock(t0, t1, t2, t3) ==
            AddRoundKey(InvShiftRows(SubBytes(sb.inv, WordBlock(s0, s1, s2, s3))), RoundKey(k, p / 4))
  {
    hide Xor, SubWord, Byte0, Byte1, Byte2, Byte3, AddColumn;
    t0 := Xor(SubWord(sb.inv, Byte0(s0), Byte1(s3), Byte2(s2), Byte3(s1)), k[p]);
    t1 := Xor(SubWord(sb.inv, Byte0(s1), Byte1(s0), Byte2(s3), Byte3(s2)), k[p + 1]);
    t2 := Xor(SubWord(sb.inv, Byte0(s2), Byte1(s1), Byte2(s0), Byte3(s3)), k[p + 2]);
    t3 := Xor(SubWord(sb.inv, Byte0(s3), Byte1(s2), Byte2(s1), Byte3(s0)), k[p + 3]);
    SubWordIsSubColumn(sb.inv, Byte0(s0), Byte1(s3), Byte2(s2), Byte3(s1));
    SubWordIsSubColumn(sb.inv, Byte0(s1), Byte1(s0), Byte2(s3), Byte3(s2));
    SubWordIsSubColumn(sb.inv, Byte0(s2), Byte1(s1), Byte2(s0), Byte3(s3));
    SubWordIsSubColumn(sb.inv, Byte0(s3), Byte1(s2), Byte2(s1), Byte3(s0));
    BytesOfXor(SubWord(sb.inv, Byte0(s0), Byte1(s3), Byte2(s2), Byte3(s1)), k[p]);
    BytesOfXor(SubWord(sb.inv, Byte0(s1), Byte1(s0), Byte2(s3), Byte3(s2)), k[p + 1]);
    BytesOfXor(SubWord(sb.inv, Byte0(s2), Byte1(s1), Byte2(s0), Byte3(s3)), k[p + 2]);
    BytesOfXor(SubWord(sb.inv, Byte0(s3), Byte1(s2), Byte2(s1), Byte3(s0)), k[p + 3]);
  }

  // ---------- a block ----------

  lemma RoundKeyAt(w: seq<bv32>, n: nat, r: nat)
    requires 4 * (n + 1) <= |w| && r <= n
    ensures RoundKeys(w, n)[r] == RoundKey(w, r)
  {
  }

  /** Round r of the cipher, on the state before it; the round key is at word p. */
  lemma EncNext(sb: SBox, w: seq<bv32>, n: nat, a: Block, r: nat, p: nat, s: Block)
    requires 4 * (n + 1) <= |w| && 0 < r <= n && p == 4 * r && s == AfterRounds(sb, RoundKeys(w, n), a, r - 1)
    ensures p % 4 == 0 && p + 4 <= |w|
    ensures r < n ==>
              AddRoundKey(MixColumns(ShiftRows(SubBytes(sb.fwd, s))), RoundKey(w, p / 4)) ==
              AfterRounds(sb, RoundKeys(w, n), a, r)
    ensures r == n ==> AddRoundKey(ShiftRows(SubBytes(sb.fwd, s)), RoundKey(w, p / 4)) == Cipher(sb, RoundKeys(w, n), a)
  {
    hide RoundKeys, RoundKey, AddRoundKey, MixColumns, ShiftRows, SubBytes;
    RoundKeyAt(w, n, r);
  }

  lemma FirstAdded(sb: SBox, w: seq<bv32>, n: nat, a: Block)
    requires 4 * (n + 1) <= |w|
    ensures AddRoundKey(a, RoundKey(w, 0)) == AfterRounds(sb, RoundKeys(w, n), a, 0) ==
              AfterInvRounds(sb, RoundKeys(w, n), a, 0)
  {
    hide RoundKeys, RoundKey, AddRoundKey;
    RoundKeyAt(w, n, 0);
  }

  /** The loop of AES_encrypt: two rounds a turn, `rounds / 2` turns. */
  method EncryptWords(sb: SBox, b: seq<bv8>, rk: seq<bv32>, rounds: nat) returns (c: seq<bv8>)
    requires |b| == 16 && rounds % 2 == 0 && rounds >= 2 && 4 * (rounds + 1) <= |rk|
    ensures c == EncBlock(sb, RoundKeys(rk, rounds), b)
  {
    hide WordBlock, RoundKey, RoundKeys, AddRoundKey, SubBytes, BlockOf, BytesOf, MixColumns, ShiftRows, AfterRounds,
         Cipher;
    ghost var k, a := RoundKeys(rk, rounds), BlockOf(b);
    var s0, s1, s2, s3 := FirstState(b, rk);
    FirstAdded(sb, rk, rounds, a);
    var t0, t1, t2, t3;
    var r, p := rounds / 2, 0;
    ghost var done: nat := 0;
    while true
      invariant 0 < r && 2 * r + done == rounds && p == 4 * done
      invariant WordBlock(s0, s1, s2, s3) == AfterRounds(sb, k, a, done)
      decreases r
    {
      EncNext(sb, rk, rounds, a, done + 1, p + 4, WordBlock(s0, s1, s2, s3));
      t0, t1, t2, t3 := EncRound(sb, s0, s1, s2, s3, rk, p + 4);
      EncNext(sb, rk, rounds, a, done + 2, p + 8, WordBlock(t0, t1, t2, t3));
      p, done := p + 8, done + 2;
      r := r - 1;
      if r == 0 {
        break;
      }
      s0, s1, s2, s3 := EncRound(sb, t0, t1, t2, t3, rk, p);
    }
    s0, s1, s2, s3 := EncLastRound(sb, t0, t1, t2, t3, rk, p);
    c := BytesOf(WordBlock(s0, s1, s2, s3));
  }

  lemma DecNext(sb: SBox, w: seq<bv32>, n: nat, a: Block, r: nat, p: nat, s: Block)
    requires 4 * (n + 1) <= |w| && 0 < r <= n && p == 4 * r && s == AfterInvRounds(sb, RoundKeys(w, n), a, r - 1)
    ensures p % 4 == 0 && p + 4 <= |w|
    ensures r < n ==>
              AddRoundKey(InvMixColumns(InvShiftRows(SubBytes(sb.inv, s))), RoundKey(w, p / 4)) ==
              AfterInvRounds(sb, RoundKeys(w, n), a, r)
    ensures r == n ==>
              AddRoundKey(InvShiftRows(SubBytes(sb.inv, s)), RoundKey(w, p / 4)) == EqInvCipher(sb, RoundKeys(w, n), a)
  {
    hide RoundKeys, RoundKey, AddRoundKey, InvMixColumns, InvShiftRows, SubBytes;
    RoundKeyAt(w, n, r);
  }

  /** The loop of AES_decrypt. */
  method DecryptWords(sb: SBox, b: seq<bv8>, rk: seq<bv32>, rounds: nat) returns (c: seq<bv8>)
    requires |b| == 16 && rounds % 2 == 0 && rounds >= 2 && 4 * (rounds + 1) <= |rk|
    ensures c == DecBlock(sb, RoundKeys(rk, rounds), b)
  {
    hide WordBlock, RoundKey, RoundKeys, AddRoundKey, SubBytes, BlockOf, BytesOf, InvMixColumns, InvShiftRows,
         AfterInvRounds, EqInvCipher;
    ghost var k, a := RoundKeys(rk, rounds), BlockOf(b);
    var s0, s1, s2, s3 := FirstState(b, rk);
    FirstAdded(sb, rk, rounds, a);
    var t0, t1, t2, t3;
    var r, p := rounds / 2, 0;
    ghost var done: nat := 0;
    while true
      invariant 0 < r && 2 * r + done == rounds && p == 4 * done
      invariant WordBlock(s0, s1, s2, s3) == AfterInvRounds(sb, k, a, done)
      decreases r
    {
      DecNext(sb, rk, rounds, a, done + 1, p + 4, WordBlock(s0, s1, s2, s3));
      t0, t1, t2, t3 := DecRound(sb, s0, s1, s2, s3, rk, p + 4);
      DecNext(sb, rk, rounds, a, done + 2, p + 8, WordBlock(t0, t1, t2, t3));
      p, done := p + 8, done + 2;
      r := r - 1;
      if r == 0 {
        break;
      }
      s0, s1, s2, s3 := DecRound(sb, t0, t1, t2, t3, rk, p);
    }
    s0, s1, s2, s3 := DecLastRound(sb, t0, t1, t2, t3, rk, p);
    c := BytesOf(WordBlock(s0, s1, s2, s3));
  }

  function EncBlock(sb: SBox, k: seq<Block>, b: seq<bv8>): (c: seq<bv8>)
    requires |b| == 16 && |k| >= 2
    ensures |c| == 16
  {
    BytesOf(Cipher(sb, k, BlockOf(b)))
  }

  function DecBlock(sb: SBox, dk: seq<Block>, b: seq<bv8>): (c: seq<bv8>)
    requires |b| == 16 && |dk| >= 2
    ensures |c| == 16
  {
    BytesOf(EqInvCipher(sb, dk, BlockOf(b)))
  }

  /** PUTU32 of the four result words. */
  method Store(out: array<bv8>, o: nat, c: seq<bv8>)
    requires o + |c| <= out.Length
    modifies out
    ensures out[..] == old(out[..o]) + c + old(out[o + |c|..])
  {
    for n := 0 to |c|
      invariant out[..] == old(out[..o]) + c[..n] + old(out[o + n..])
    {
      out[o + n] := c[n];
    }
  }

  ghost predicate Usable(key: AesKey)
    reads key
  {
    key.rdKey.Length == MAX_WORDS && (key.rounds == 10 || key.rounds == 12 || key.rounds == 14)
  }

  /** Encrypts the block at inp[i..i+16] into out[o..o+16]; the two may overlap. */
  method Encrypt(sb: SBox, inp: array<bv8>, i: nat, out: array<bv8>, o: nat, key: AesKey)
    requires Usable(key) && i + 16 <= inp.Length && o + 16 <= out.Length
    modifies out
    ensures out[..] == old(out[..o]) +
                       EncBlock(sb, RoundKeys(key.rdKey[..], key.rounds), old(inp[i..i + 16])) +
                       old(out[o + 16..])
  {
    hide EncBlock;
    var c := EncryptWords(sb, inp[i..i + 16], key.rdKey[..], key.rounds);
    Store(out, o, c);
  }

  method Decrypt(sb: SBox, inp: array<bv8>, i: nat, out: array<bv8>, o: nat, key: AesKey)
    requires Usable(key) && i + 16 <= inp.Length && o + 16 <= out.Length
    modifies out
    ensures out[..] == old(out[..o]) +
                       DecBlock(sb, RoundKeys(key.rdKey[..], key.rounds), old(inp[i..i + 16])) +
                       old(out[o + 16..])
  {
    hide DecBlock;
    var c := DecryptWords(sb, inp[i..i + 16], key.rdKey[..], key.rounds);
    Store(out, o, c);
  }

  // ---------- AES_set_decrypt_key ----------

  /** The four words of round key r. */
  function Quad(w: seq<bv32>, r: nat): (q: seq<bv32>)
    requires 4 * r + 4 <= |w|
  {
    w[4 * r..4 * r + 4]
  }

  /** The words with round keys a and b exchanged. */
  function Swapped(w: seq<bv32>, a: nat, b: nat): (v: seq<bv32>)
    requires a < b && 4 * b + 4 <= |w|
    ensures |v| == |w|
  {
    seq(|w|, x requires 0 <= x < |w| =>
      if 4 * a <= x < 4 * a + 4 then w[x + 4 * (b - a)]
        else if 4 * b <= x < 4 * b + 4 then w[x - 4 * (b - a)] else w[x])
  }

  lemma SwappedQuads(w: seq<bv32>, a: nat, b: nat)
    requires a < b && 4 * b + 4 <= |w|
    ensures Quad(Swapped(w, a, b), a) == Quad(w, b) && Quad(Swapped(w, a, b), b) == Quad(w, a)
    ensures forall r: nat :: r != a && r != b && 4 * r + 4 <= |w| ==> Quad(Swapped(w, a, b), r) == Quad(w, r)
  {
    hide Quad, Swapped;
    SwappedQuad(w, a, b, a);
    SwappedQuad(w, a, b, b);
    forall r: nat | r != a && r != b && 4 * r + 4 <= |w|
      ensures Quad(Swapped(w, a, b), r) == Quad(w, r)
    {
      SwappedQuad(w, a, b, r);
    }
  }

  lemma SwappedQuad(w: seq<bv32>, a: nat, b: nat, r: nat)
    requires a < b && 4 * b + 4 <= |w| && 4 * r + 4 <= |w|
    ensures Quad(Swapped(w, a, b), r) == Quad(w, if r == a then b else if r == b then a else r)
  {
    var s := if r == a then b else if r == b then a else r;
    hide Swapped;
    SwappedAt(w, a, b, r, 0);
    SwappedAt(w, a, b, r, 1);
    SwappedAt(w, a, b, r, 2);
    SwappedAt(w, a, b, r, 3);
    assert Swapped(w, a, b)[4 * r..4 * r + 4] == w[4 * s..4 * s + 4];
  }

  lemma SwappedAt(w: seq<bv32>, a: nat, b: nat, r: nat, i: nat)
    requires a < b && 4 * b + 4 <= |w| && 4 * r + 4 <= |w| && i < 4
    ensures Swapped(w, a, b)[4 * r + i] == w[4 * (if r == a then b else if r == b then a else r) + i]
  {
  }

  /** One turn of the reversal loop, at i = 4 * a and j = 4 * b. */
  method SwapQuads(rk: array<bv32>, a: nat, b: nat)
    requires a < b && 4 * b + 4 <= rk.Length
    modifies rk
    ensures rk[..] == Swapped(old(rk[..]), a, b)
  {
    ghost var w := rk[..];
    var i, d := 4 * a, 4 * (b - a);
    for x := i to i + 4
      invariant forall y {:trigger rk[y]} :: 0 <= y < rk.Length ==>
        rk[y] == if i <= y < x then w[y + d] else if i + d <= y < x + d then w[y - d] else w[y]
    {
      assert rk[x] == w[x] && rk[x + d] == w[x + d];
      rk[x], rk[x + d] := rk[x + d], rk[x];
    }
  }

  method ReverseRoundKeys(rk: array<bv32>, rounds: nat)
    requires 4 * rounds + 4 <= rk.Length
    modifies rk
    ensures forall r: nat :: r <= rounds ==> Quad(rk[..], r) == old(Quad(rk[..], rounds - r))
  {
    hide Quad, Swapped;
    var a, b := 0, rounds;
    while a < b
      invariant 0 <= a <= b + 1 && a + b == rounds
      invariant forall r: nat :: r < a ==> Quad(rk[..], r) == old(Quad(rk[..], rounds - r))
      invariant forall r: nat :: b < r <= rounds ==> Quad(rk[..], r) == old(Quad(rk[..], rounds - r))
      invariant forall r: nat :: a <= r <= b ==> Quad(rk[..], r) == old(Quad(rk[..], r))
    {
      SwappedQuads(rk[..], a, b);
      SwapQuads(rk, a, b);
      a, b := a + 1, b - 1;
    }
  }

  /** InvMixColumns of one word, through Te4 and Td0..Td3. */
  function MixedWord(sb: SBox, w: bv32): bv32 {
    DecWord(sb, Byte3(T4(sb.fwd, Byte0(w))), Byte3(T4(sb.fwd, Byte1(w))),
            Byte3(T4(sb.fwd, Byte2(w))), Byte3(T4(sb.fwd, Byte3(w))))
  }

  lemma MixedWordIs(sb: SBox, w: bv32)
    requires sb.Valid()
    ensures Unpack(MixedWord(sb, w)) == InvMixColumn(Unpack(w))
  {
    hide DecWord, Byte0, Byte1, Byte2, Byte3, Pack, InvMixColumn;
    var a, b, c, d := sb.fwd(Byte0(w)), sb.fwd(Byte1(w)), sb.fwd(Byte2(w)), sb.fwd(Byte3(w));
    UnpackPack(a, a, a, a);
    UnpackPack(b, b, b, b);
    UnpackPack(c, c, c, c);
    UnpackPack(d, d, d, d);
    DecWordIsInvMixColumn(sb, a, b, c, d);
  }

  /** One turn of the second loop, at rk = rd_key + 4 * i. */
  method MixQuad(sb: SBox, rk: array<bv32>, i: nat)
    requires sb.Valid() && 4 * i + 4 <= rk.Length
    modifies rk
    ensures RoundKey(rk[..], i) == old(InvMixColumns(RoundKey(rk[..], i)))
    ensures forall r: nat :: r != i && 4 * r + 4 <= rk.Length ==> RoundKey(rk[..], r) == old(RoundKey(rk[..], r))
  {
    hide Unpack, MixedWord, InvMixColumn;
    ghost var w := rk[..];
    var p := 4 * i;
    for c := 0 to 4
      invariant forall x :: p <= x < p + c ==> Unpack(rk[x]) == InvMixColumn(Unpack(w[x]))
      invariant forall x :: 0 <= x < rk.Length && !(p <= x < p + c) ==> rk[x] == w[x]
    {
      MixedWordIs(sb, rk[p + c]);
      rk[p + c] := MixedWord(sb, rk[p + c]);
    }
  }

  method MixRoundKeys(sb: SBox, rk: array<bv32>, rounds: nat)
    requires sb.Valid() && rounds >= 1 && 4 * rounds + 4 <= rk.Length
    modifies rk
    ensures RoundKey(rk[..], 0) == old(RoundKey(rk[..], 0))
    ensures RoundKey(rk[..], rounds) == old(RoundKey(rk[..], rounds))
    ensures forall r: nat :: 1 <= r < rounds ==> RoundKey(rk[..], r) == old(InvMixColumns(RoundKey(rk[..], r)))
  {
    hide RoundKey, InvMixColumns;
    for i := 1 to rounds
      invariant RoundKey(rk[..], 0) == old(RoundKey(rk[..], 0))
      invariant forall r: nat :: i <= r <= rounds ==> RoundKey(rk[..], r) == old(RoundKey(rk[..], r))
      invariant forall r: nat :: 1 <= r < i ==> RoundKey(rk[..], r) == old(InvMixColumns(RoundKey(rk[..], r)))
    {
      MixQuad(sb, rk, i);
    }
  }

  lemma QuadsAreRoundKeys(v: seq<bv32>, w: seq<bv32>, a: nat, b: nat)
    requires 4 * a + 4 <= |v| && 4 * b + 4 <= |w| && Quad(v, a) == Quad(w, b)
    ensures RoundKey(v, a) == RoundKey(w, b)
  {
    hide Unpack;
    var q := Quad(v, a);
    assert q[0] == v[4 * a] == w[4 * b];
    assert q[1] == v[4 * a + 1] == w[4 * b + 1];
    assert q[2] == v[4 * a + 2] == w[4 * b + 2];
    assert q[3] == v[4 * a + 3] == w[4 * b + 3];
  }

  method SetDecryptKey(sb: SBox, userKey: array?<bv8>, bits: int, key: AesKey?) returns (status: int)
    requires sb.Valid()
    requires userKey != null && ValidBits(bits) ==> userKey.Length >= bits / 8
    requires key != null ==> key.rdKey.Length == MAX_WORDS
    modifies if key == null then {} else {key, key.rdKey}
    ensures status == if userKey == null || key == null then -1 else if !ValidBits(bits) then -2 else 0
    ensures status != 0 && key != null ==> unchanged(key) && unchanged(key.rdKey)
    ensures status == 0 ==> key.rounds == Rounds(bits)
    ensures status == 0 ==> RoundKeys(key.rdKey[..], key.rounds) == InverseKeys(Schedule(sb, userKey[..], bits))
  {
    hide Expanded, RoundKey, Quad, InvMixColumns, UserKey, KeyWord;
    status := SetEncryptKey(sb, userKey, bits, key);
    if status < 0 {
      return;
    }
    var n := key.rounds;
    ghost var v := key.rdKey[..];
    ExpandedIsSchedule(sb, userKey[..], bits, v);
    ReverseRoundKeys(key.rdKey, n);
    ghost var w := key.rdKey[..];
    MixRoundKeys(sb, key.rdKey, n);
    ghost var k, dk := RoundKeys(v, n), RoundKeys(key.rdKey[..], n);
    forall r: nat | r <= n
      ensures dk[r] == InverseKeys(k)[r]
    {
      QuadsAreRoundKeys(w, v, r, n - r);
    }
  }

  // ---------- the round trip ----------

  lemma DecBlockUndoes(sb: SBox, k: seq<Block>, b: seq<bv8>)
    requires sb.Valid() && |b| == 16 && |k| >= 2
    ensures DecBlock(sb, InverseKeys(k), EncBlock(sb, k, b)) == b
  {
    hide Cipher, EqInvCipher, InverseKeys;
    BytesAndBlocks(b, Cipher(sb, k, BlockOf(b)));
    EqInvCipherUndoes(sb, k, BlockOf(b));
  }

  /** For every key and every block, decryption under the decryption schedule undoes
      encryption under the encryption schedule. */
  lemma DecryptUndoesEncrypt(sb: SBox, bytes: seq<bv8>, bits: int, b: seq<bv8>)
    requires sb.Valid() && ValidBits(bits) && |bytes| >= bits / 8 && |b| == 16
    ensures var k := Schedule(sb, bytes, bits);
            DecBlock(sb, InverseKeys(k), EncBlock(sb, k, b)) == b
  {
    DecBlockUndoes(sb, Schedule(sb, bytes, bits), b);
  }

  /** The same through the routines themselves. */
  method EncryptThenDecrypt(sb: SBox, userKey: array<bv8>, bits: int, inp: array<bv8>, out: array<bv8>)
    requires sb.Valid() && ValidBits(bits) && userKey.Length >= bits / 8
    requires inp.Length == 16 && out.Length == 16 && userKey != out
    modifies out
    ensures out[..] == old(inp[..])
  {
    hide EncBlock, DecBlock, InverseKeys, Schedule, Expanded, RoundKeys, UserKey;
    ghost var b, u := inp[..], userKey[..];
    var ek := new AesKey();
    var dk := new AesKey();
    var status := SetEncryptKey(sb, userKey, bits, ek);
    ExpandedIsSchedule(sb, u, bits, ek.rdKey[..]);
    status := SetDecryptKey(sb, userKey, bits, dk);
    assert inp[0..16] == b;
    Encrypt(sb, inp, 0, out, 0, ek);
    assert out[0..16] == out[..] == EncBlock(sb, Schedule(sb, u, bits), b);
    Decrypt(sb, out, 0, out, 0, dk);
    DecryptUndoesEncrypt(sb, u, bits, b);
  }
}
