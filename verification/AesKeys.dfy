/** Key expansion (section 5.2 of FIPS 197) and the two key-schedule routines of aes.c. */
module AesKeys {
  import opened Gf256
  import opened AesSpec
  import opened AesTables

  const MAX_WORDS := 60

  /** AES_KEY. */
  class AesKey {
    const rdKey: array<bv32>
    var rounds: int

    constructor ()
      ensures fresh(rdKey) && rdKey.Length == MAX_WORDS
    {
      rdKey := new bv32[MAX_WORDS];
      rounds := 0;
    }
  }

  // ---------- the schedule of FIPS 197 ----------

  /** x^(j-1) in the field. */
  function Rcon(j: nat): bv8 {
    if j <= 1 then 1 else Times2(Rcon(j - 1))
  }

  function RotColumn(a: Column): Column { Column(a.b1, a.b2, a.b3, a.b0) }

  /** Word i of the expanded key. */
  function KeyWord(sb: SBox, key: seq<Column>, i: nat): Column
    requires |key| >= 4
  {
    var nk := |key|;
    if i < nk then key[i]
    else
      var t := KeyWord(sb, key, i - 1);
      AddColumn(KeyWord(sb, key, i - nk),
        if i % nk == 0 then AddColumn(SubColumn(sb.fwd, RotColumn(t)), Column(Rcon(i / nk), 0, 0, 0))
        else if nk > 6 && i % nk == 4 then SubColumn(sb.fwd, t)
        else t)
  }

  function UserKey(bytes: seq<bv8>, nk: nat): (k: seq<Column>)
    requires |bytes| >= 4 * nk
  {
    seq(nk, i requires 0 <= i < nk => Column(bytes[4 * i], bytes[4 * i + 1], bytes[4 * i + 2], bytes[4 * i + 3]))
  }

  // ---------- AES_set_encrypt_key ----------

  const RCON: seq<bv32> := [
    0x01000000, 0x02000000, 0x04000000, 0x08000000, 0x10000000,
    0x20000000, 0x40000000, 0x80000000, 0x1B000000, 0x36000000]

  lemma RconTable(i: nat)
    requires i < 10
    ensures Unpack(RCON[i]) == Column(Rcon(i + 1), 0, 0, 0)
  {
    assert Rcon(2) == 2;
    assert Rcon(3) == 4;
    assert Rcon(4) == 8;
    assert Rcon(5) == 16;
    assert Rcon(6) == 32;
    assert Rcon(7) == 64;
    assert Rcon(8) == 128;
    assert Rcon(9) == 0x1b;
    assert Rcon(10) == 0x36;
  }

  /** The word that starts a new group of the schedule: rk[0] ^ SubWord(RotWord(temp)) ^ rcon[i]. */
  function GroupWord(sb: SBox, first: bv32, temp: bv32, rcon: bv32): bv32 {
    Xor(Xor(first, SubWord(sb.fwd, Byte1(temp), Byte2(temp), Byte3(temp), Byte0(temp))), rcon)
  }

  lemma GroupWordIs(sb: SBox, key: seq<Column>, i: nat, first: bv32, temp: bv32, g: nat)
    requires |key| >= 4 && i >= |key| && i % |key| == 0 && g < 10 && i / |key| == g + 1
    requires Unpack(first) == KeyWord(sb, key, i - |key|) && Unpack(temp) == KeyWord(sb, key, i - 1)
    ensures Unpack(GroupWord(sb, first, temp, RCON[g])) == KeyWord(sb, key, i)
  {
    hide Xor, SubWord, AddColumn, SubColumn, Rcon, Byte0, Byte1, Byte2, Byte3;
    var w := SubWord(sb.fwd, Byte1(temp), Byte2(temp), Byte3(temp), Byte0(temp));
    SubWordIsSubColumn(sb.fwd, Byte1(temp), Byte2(temp), Byte3(temp), Byte0(temp));
    BytesOfXor(first, w);
    BytesOfXor(Xor(first, w), RCON[g]);
    RconTable(g);
    AddColumnLaws(Unpack(first), Unpack(w), Unpack(RCON[g]));
  }

  lemma NextWordIs(sb: SBox, key: seq<Column>, i: nat, first: bv32, temp: bv32)
    requires |key| >= 4 && i >= |key| && i % |key| != 0 && !(|key| > 6 && i % |key| == 4)
    requires Unpack(first) == KeyWord(sb, key, i - |key|) && Unpack(temp) == KeyWord(sb, key, i - 1)
    ensures Unpack(Xor(first, temp)) == KeyWord(sb, key, i)
  {
    hide Xor, AddColumn, SubColumn, Rcon, Byte0, Byte1, Byte2, Byte3;
    BytesOfXor(first, temp);
  }

  lemma MiddleWordIs(sb: SBox, key: seq<Column>, i: nat, first: bv32, temp: bv32)
    requires |key| == 8 && i >= 8 && i % 8 == 4
    requires Unpack(first) == KeyWord(sb, key, i - 8) && Unpack(temp) == KeyWord(sb, key, i - 1)
    ensures Unpack(Xor(first, SubWord(sb.fwd, Byte0(temp), Byte1(temp), Byte2(temp), Byte3(temp)))) ==
              KeyWord(sb, key, i)
  {
    hide Xor, SubWord, AddColumn, SubColumn, Rcon, Byte0, Byte1, Byte2, Byte3;
    SubWordIsSubColumn(sb.fwd, Byte0(temp), Byte1(temp), Byte2(temp), Byte3(temp));
    BytesOfXor(first, SubWord(sb.fwd, Byte0(temp), Byte1(temp), Byte2(temp), Byte3(temp)));
  }

  /** The first n words of `w` are the first n words of the schedule. */
  ghost predicate Expanded(sb: SBox, key: seq<Column>, w: seq<bv32>, n: nat)
    requires |key| >= 4
  {
    n <= |w| && forall i :: 0 <= i < n ==> Unpack(w[i]) == KeyWord(sb, key, i)
  }

  lemma OneMore(sb: SBox, key: seq<Column>, w: seq<bv32>, n: nat, v: bv32)
    requires |key| >= 4 && n < |w| && Expanded(sb, key, w, n) && Unpack(v) == KeyWord(sb, key, n)
    ensures Expanded(sb, key, w[n := v], n + 1)
  {
  }

  /** `rk[n] = rk[n - nk] ^ rk[n - 1]` */
  method PutNext(rk: array<bv32>, n: nat, nk: nat, ghost sb: SBox, ghost key: seq<Column>)
    requires 4 <= nk == |key| <= n < rk.Length && n % nk != 0 && !(nk > 6 && n % nk == 4)
    requires Expanded(sb, key, rk[..], n)
    modifies rk
    ensures Expanded(sb, key, rk[..], n + 1)
  {
    hide Unpack, KeyWord, Xor;
    ghost var w := rk[..];
    var v := Xor(rk[n - nk], rk[n - 1]);
    NextWordIs(sb, key, n, rk[n - nk], rk[n - 1]);
    OneMore(sb, key, w, n, v);
    rk[n] := v;
    assert rk[..] == w[n := v];
  }

  /** `rk[n] = rk[n - nk] ^ SubWord(RotWord(rk[n - 1])) ^ rcon[g]` */
  method PutGroup(rk: array<bv32>, n: nat, nk: nat, g: nat, sb: SBox, ghost key: seq<Column>)
    requires 4 <= nk == |key| <= n < rk.Length && n % nk == 0 && g < 10 && n / nk == g + 1
    requires Expanded(sb, key, rk[..], n)
    modifies rk
    ensures Expanded(sb, key, rk[..], n + 1)
  {
    hide Unpack, KeyWord, GroupWord;
    ghost var w := rk[..];
    var v := GroupWord(sb, rk[n - nk], rk[n - 1], RCON[g]);
    GroupWordIs(sb, key, n, rk[n - nk], rk[n - 1], g);
    OneMore(sb, key, w, n, v);
    rk[n] := v;
    assert rk[..] == w[n := v];
  }

  /** `rk[n] = rk[n - 8] ^ SubWord(rk[n - 1])`, for 256-bit keys. */
  method PutMiddle(rk: array<bv32>, n: nat, sb: SBox, ghost key: seq<Column>)
    requires |key| == 8 <= n < rk.Length && n % 8 == 4
    requires Expanded(sb, key, rk[..], n)
    modifies rk
    ensures Expanded(sb, key, rk[..], n + 1)
  {
    hide Unpack, KeyWord, Xor, SubWord, Byte0, Byte1, Byte2, Byte3;
    ghost var w := rk[..];
    var temp := rk[n - 1];
    var v := Xor(rk[n - 8], SubWord(sb.fwd, Byte0(temp), Byte1(temp), Byte2(temp), Byte3(temp)));
    MiddleWordIs(sb, key, n, rk[n - 8], temp);
    OneMore(sb, key, w, n, v);
    rk[n] := v;
    assert rk[..] == w[n := v];
  }

  /** `rk[n] = GETU32(userKey + 4 * n)` for the words of the user's key. */
  method PutUserKey(rk: array<bv32>, bytes: array<bv8>, nk: nat, ghost sb: SBox)
    requires 4 <= nk <= rk.Length && bytes.Length >= 4 * nk
    modifies rk
    ensures Expanded(sb, UserKey(bytes[..], nk), rk[..], nk)
  {
    hide Unpack, Pack;
    ghost var key := UserKey(bytes[..], nk);
    for n := 0 to nk
      invariant Expanded(sb, key, rk[..], n)
    {
      ghost var w := rk[..];
      var v := Pack(bytes[4 * n], bytes[4 * n + 1], bytes[4 * n + 2], bytes[4 * n + 3]);
      UnpackPack(bytes[4 * n], bytes[4 * n + 1], bytes[4 * n + 2], bytes[4 * n + 3]);
      OneMore(sb, key, w, n, v);
      rk[n] := v;
      assert rk[..] == w[n := v];
    }
  }

  function Rounds(bits: int): (r: nat)
    requires bits == 128 || bits == 192 || bits == 256
  {
    if bits == 128 then 10 else if bits == 192 then 12 else 14
  }

  predicate ValidBits(bits: int) { bits == 128 || bits == 192 || bits == 256 }

  method Expand128(rk: array<bv32>, sb: SBox, ghost uk: seq<Column>)
    requires |uk| == 4 && rk.Length == MAX_WORDS && Expanded(sb, uk, rk[..], 4)
    modifies rk
    ensures Expanded(sb, uk, rk[..], 44)
  {
    hide Expanded, KeyWord;
    var i, o := 0, 0;
    while true
      invariant 0 <= i < 10 && o == 4 * i
      invariant Expanded(sb, uk, rk[..], o + 4)
      decreases 10 - i
    {
      PutGroup(rk, o + 4, 4, i, sb, uk);
      PutNext(rk, o + 5, 4, sb, uk);
      PutNext(rk, o + 6, 4, sb, uk);
      PutNext(rk, o + 7, 4, sb, uk);
      i := i + 1;
      if i == 10 {
        return;
      }
      o := o + 4;
    }
  }

  method Expand192(rk: array<bv32>, sb: SBox, ghost uk: seq<Column>)
    requires |uk| == 6 && rk.Length == MAX_WORDS && Expanded(sb, uk, rk[..], 6)
    modifies rk
    ensures Expanded(sb, uk, rk[..], 52)
  {
    hide Expanded, KeyWord;
    var i, o := 0, 0;
    while true
      invariant 0 <= i < 8 && o == 6 * i
      invariant Expanded(sb, uk, rk[..], o + 6)
      decreases 8 - i
    {
      PutGroup(rk, o + 6, 6, i, sb, uk);
      PutNext(rk, o + 7, 6, sb, uk);
      PutNext(rk, o + 8, 6, sb, uk);
      PutNext(rk, o + 9, 6, sb, uk);
      i := i + 1;
      if i == 8 {
        return;
      }
      PutNext(rk, o + 10, 6, sb, uk);
      PutNext(rk, o + 11, 6, sb, uk);
      o := o + 6;
    }
  }

  method Expand256(rk: array<bv32>, sb: SBox, ghost uk: seq<Column>)
    requires |uk| == 8 && rk.Length == MAX_WORDS && Expanded(sb, uk, rk[..], 8)
    modifies rk
    ensures Expanded(sb, uk, rk[..], 60)
  {
    hide Expanded, KeyWord;
    var i, o := 0, 0;
    while true
      invariant 0 <= i < 7 && o == 8 * i
      invariant Expanded(sb, uk, rk[..], o + 8)
      decreases 7 - i
    {
      PutGroup(rk, o + 8, 8, i, sb, uk);
      PutNext(rk, o + 9, 8, sb, uk);
      PutNext(rk, o + 10, 8, sb, uk);
      PutNext(rk, o + 11, 8, sb, uk);
      i := i + 1;
      if i == 7 {
        return;
      }
      PutMiddle(rk, o + 12, sb, uk);
      PutNext(rk, o + 13, 8, sb, uk);
      PutNext(rk, o + 14, 8, sb, uk);
      PutNext(rk, o + 15, 8, sb, uk);
      o := o + 8;
    }
  }

  method SetEncryptKey(sb: SBox, userKey: array?<bv8>, bits: int, key: AesKey?) returns (status: int)
    requires userKey != null && ValidBits(bits) ==> userKey.Length >= bits / 8
    requires key != null ==> key.rdKey.Length == MAX_WORDS
    modifies if key == null then {} else {key, key.rdKey}
    ensures status == if userKey == null || key == null then -1 else if !ValidBits(bits) then -2 else 0
    ensures status != 0 && key != null ==> unchanged(key) && unchanged(key.rdKey)
    ensures status == 0 ==> key.rounds == Rounds(bits)
    ensures status == 0 ==> Expanded(sb, UserKey(userKey[..], bits / 32), key.rdKey[..], 4 * (Rounds(bits) + 1))
  {
    hide Expanded, KeyWord;
    if userKey == null || key == null {
      return -1;
    }
    if bits != 128 && bits != 192 && bits != 256 {
      return -2;
    }
    var rk := key.rdKey;
    if bits == 128 {
      key.rounds := 10;
    } else if bits == 192 {
      key.rounds := 12;
    } else {
      key.rounds := 14;
    }
    PutUserKey(rk, userKey, bits / 32, sb);
    ghost var uk := UserKey(userKey[..], bits / 32);
    if bits == 128 {
      Expand128(rk, sb, uk);
    } else if bits == 192 {
      Expand192(rk, sb, uk);
    } else {
      Expand256(rk, sb, uk);
    }
    return 0;
  }
}
