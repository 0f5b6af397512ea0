/** AES_cbc_encrypt of aes.c (cipher block chaining, section 6.2 of NIST SP 800-38A, with
    aes.c's own treatment of a partial last block). */
module AesCbc {
  import opened AesSpec
  import opened AesKeys
  import opened Aes

  // ---------- the mode as a function ----------

  function XorBytes(a: seq<bv8>, b: seq<bv8>): (c: seq<bv8>)
    requires |a| == |b|
    ensures |c| == |a|
  {
    seq(|a|, i requires 0 <= i < |a| => Xor8(a[i], b[i]))
  }

  function Xor8(x: bv8, y: bv8): bv8 { x ^ y }

  lemma XorBytesTwice(a: seq<bv8>, b: seq<bv8>)
    requires |a| == |b|
    ensures XorBytes(XorBytes(a, b), b) == a
  {
    forall i | 0 <= i < |a|
      ensures Xor8(Xor8(a[i], b[i]), b[i]) == a[i]
    {
      XorTwice(a[i], b[i]);
    }
  }

  lemma XorTwice(x: bv8, y: bv8)
    ensures Xor8(Xor8(x, y), y) == x
  {
  }

  /** The number of output bytes: whole blocks. */
  function Padded(n: nat): (m: nat)
    ensures n <= m
  {
    if n == 0 then 0 else if n < 16 then 16 else 16 + Padded(n - 16)
  }

  lemma {:induction false} PaddedBlocks(q: nat, n: nat)
    ensures Padded(16 * q + n) == 16 * q + Padded(n)
    decreases q
  {
    if q > 0 {
      PaddedBlocks(q - 1, n);
      assert Padded(16 * q + n) == 16 + Padded(16 * (q - 1) + n);
    }
  }

  lemma PaddedShort(n: nat)
    requires n < 16
    ensures Padded(n) == if n == 0 then 0 else 16
  {
  }

  lemma PaddedWhole(m: nat, n: nat)
    requires m % 16 == 0
    ensures Padded(m + n) == m + Padded(n)
  {
    hide Padded;
    PaddedBlocks(m / 16, n);
  }

  /** The block fed to the cipher for a short tail: the tail xored with the vector, then the
      rest of the vector. */
  function TailBlock(p: seq<bv8>, iv: seq<bv8>): (t: seq<bv8>)
    requires |p| <= 16 && |iv| == 16
    ensures |t| == 16
  {
    XorBytes(p, iv[..|p|]) + iv[|p|..]
  }

  /** The ciphertext and the vector carried out of the call. */
  function CbcEncrypted(sb: SBox, k: seq<Block>, p: seq<bv8>, iv: seq<bv8>): (r: (seq<bv8>, seq<bv8>))
    requires |k| >= 2 && |iv| == 16
    ensures |r.0| == Padded(|p|) && |r.1| == 16
  {
    if |p| >= 16 then
      var c := EncBlock(sb, k, XorBytes(p[..16], iv));
      var rest := CbcEncrypted(sb, k, p[16..], c);
      (c + rest.0, rest.1)
    else if |p| > 0 then
      var c := EncBlock(sb, k, TailBlock(p, iv));
      (c, c)
    else ([], iv)
  }

  /** The plaintext of the first n bytes, and the vector carried out: after a short tail the
      code leaves the deciphered block there, not the ciphertext. */
  function CbcDecrypted(sb: SBox, dk: seq<Block>, c: seq<bv8>, n: nat, iv: seq<bv8>): (r: (seq<bv8>, seq<bv8>))
    requires |dk| >= 2 && |iv| == 16 && |c| >= Padded(n)
    ensures |r.0| == n && |r.1| == 16
    decreases n
  {
    if n >= 16 then
      var p := XorBytes(DecBlock(sb, dk, c[..16]), iv);
      var rest := CbcDecrypted(sb, dk, c[16..], n - 16, c[..16]);
      (p + rest.0, rest.1)
    else if n > 0 then
      var t := DecBlock(sb, dk, c[..16]);
      (XorBytes(t[..n], iv[..n]), t)
    else ([], iv)
  }

  // ---------- laws ----------

  /** Decryption undoes encryption for every length. */
  lemma {:induction false} CbcRoundTrip(sb: SBox, k: seq<Block>, p: seq<bv8>, iv: seq<bv8>)
    requires sb.Valid() && |k| >= 2 && |iv| == 16
    ensures CbcDecrypted(sb, InverseKeys(k), CbcEncrypted(sb, k, p, iv).0, |p|, iv).0 == p
    decreases |p|
  {
    hide EncBlock, DecBlock, InverseKeys, XorBytes;
    var c := CbcEncrypted(sb, k, p, iv).0;
    if |p| >= 16 {
      var b := XorBytes(p[..16], iv);
      DecBlockUndoes(sb, k, b);
      XorBytesTwice(p[..16], iv);
      assert c[..16] == EncBlock(sb, k, b);
      assert c[16..] == CbcEncrypted(sb, k, p[16..], EncBlock(sb, k, b)).0;
      CbcRoundTrip(sb, k, p[16..], EncBlock(sb, k, b));
      assert p[..16] + p[16..] == p;
    } else if |p| > 0 {
      var t := TailBlock(p, iv);
      DecBlockUndoes(sb, k, t);
      assert c[..16] == EncBlock(sb, k, t);
      assert t[..|p|] == XorBytes(p, iv[..|p|]);
      XorBytesTwice(p, iv[..|p|]);
    }
  }

  /** What the cipher is given last when p ends with a short tail: that tail, with the vector the
      whole blocks leave. */
  function LastTail(sb: SBox, k: seq<Block>, p: seq<bv8>, iv: seq<bv8>): (t: seq<bv8>)
    requires |k| >= 2 && |iv| == 16
    ensures |t| == 16
  {
    var q := |p| - |p| % 16;
    TailBlock(p[q..], CbcEncrypted(sb, k, p[..q], iv).1)
  }

  lemma LastTailUnfold(sb: SBox, k: seq<Block>, p: seq<bv8>, iv: seq<bv8>)
    requires |k| >= 2 && |iv| == 16 && |p| >= 16
    ensures LastTail(sb, k, p, iv) == LastTail(sb, k, p[16..], EncBlock(sb, k, XorBytes(p[..16], iv)))
  {
    hide EncBlock, XorBytes, TailBlock;
    var q := |p| - |p| % 16;
    assert p[..q][..16] == p[..16] && p[..q][16..] == p[16..][..q - 16] && p[16..][q - 16..] == p[q..];
  }

  /** The vectors carried out of the two calls: equal exactly when there is no short tail or its block
      is a fixed point of the cipher. */
  lemma {:induction false} CarriedVectors(sb: SBox, k: seq<Block>, p: seq<bv8>, iv: seq<bv8>)
    requires sb.Valid() && |k| >= 2 && |iv| == 16
    ensures var e := CbcEncrypted(sb, k, p, iv);
            var d := CbcDecrypted(sb, InverseKeys(k), e.0, |p|, iv);
            var t := LastTail(sb, k, p, iv);
            (|p| % 16 != 0 ==> d.1 == t && e.1 == EncBlock(sb, k, t)) &&
            (d.1 == e.1 <==> |p| % 16 == 0 || EncBlock(sb, k, t) == t)
    decreases |p|
  {
    hide EncBlock, DecBlock, InverseKeys, XorBytes, LastTail, TailBlock;
    var c := CbcEncrypted(sb, k, p, iv).0;
    if |p| >= 16 {
      var b := XorBytes(p[..16], iv);
      assert c[..16] == EncBlock(sb, k, b);
      assert c[16..] == CbcEncrypted(sb, k, p[16..], EncBlock(sb, k, b)).0;
      CarriedVectors(sb, k, p[16..], EncBlock(sb, k, b));
      LastTailUnfold(sb, k, p, iv);
    } else if |p| > 0 {
      var t := TailBlock(p, iv);
      DecBlockUndoes(sb, k, t);
      assert c[..16] == EncBlock(sb, k, t);
      ShortTail(sb, k, p, iv);
    }
  }

  lemma ShortTail(sb: SBox, k: seq<Block>, p: seq<bv8>, iv: seq<bv8>)
    requires |k| >= 2 && |iv| == 16 && 0 < |p| < 16
    ensures LastTail(sb, k, p, iv) == TailBlock(p, iv)
  {
    hide TailBlock;
    assert p[0..] == p && p[..0] == [];
  }

  /** Two calls with the carried vector are one call on the concatenation, when the first
      length is a multiple of the block size. */
  lemma {:induction false} CbcEncryptConcat(sb: SBox, k: seq<Block>, p: seq<bv8>, q: seq<bv8>, iv: seq<bv8>)
    requires |k| >= 2 && |iv| == 16 && |p| % 16 == 0
    ensures var first := CbcEncrypted(sb, k, p, iv);
            var second := CbcEncrypted(sb, k, q, first.1);
            CbcEncrypted(sb, k, p + q, iv) == (first.0 + second.0, second.1)
    decreases |p|
  {
    hide EncBlock, XorBytes;
    if |p| == 0 {
      assert p + q == q;
      assert CbcEncrypted(sb, k, p, iv) == ([], iv);
      assert [] + CbcEncrypted(sb, k, q, iv).0 == CbcEncrypted(sb, k, q, iv).0;
    } else {
      var c := EncBlock(sb, k, XorBytes(p[..16], iv));
      CbcEncryptConcat(sb, k, p[16..], q, c);
      assert (p + q)[..16] == p[..16] && (p + q)[16..] == p[16..] + q;
      var rest := CbcEncrypted(sb, k, p[16..], c);
      var second := CbcEncrypted(sb, k, q, rest.1);
      assert c + (rest.0 + second.0) == (c + rest.0) + second.0;
    }
  }

  lemma {:induction false} CbcDecryptConcat(sb: SBox, dk: seq<Block>, c: seq<bv8>, d: seq<bv8>, n: nat, iv: seq<bv8>)
    requires |dk| >= 2 && |iv| == 16 && |c| % 16 == 0 && |d| >= Padded(n)
    ensures (PaddedWhole(|c|, n); PaddedWhole(|c|, 0);
            var first := CbcDecrypted(sb, dk, c, |c|, iv);
            var second := CbcDecrypted(sb, dk, d, n, first.1);
            CbcDecrypted(sb, dk, c + d, |c| + n, iv) == (first.0 + second.0, second.1))
    decreases |c|
  {
    hide DecBlock, XorBytes;
    PaddedWhole(|c|, n);
    PaddedWhole(|c|, 0);
    if |c| == 0 {
      assert c + d == d;
      assert CbcDecrypted(sb, dk, c, 0, iv) == ([], iv);
      assert [] + CbcDecrypted(sb, dk, d, n, iv).0 == CbcDecrypted(sb, dk, d, n, iv).0;
    } else {
      var p := XorBytes(DecBlock(sb, dk, c[..16]), iv);
      CbcDecryptConcat(sb, dk, c[16..], d, n, c[..16]);
      assert (c + d)[..16] == c[..16] && (c + d)[16..] == c[16..] + d;
      var rest := CbcDecrypted(sb, dk, c[16..], |c| - 16, c[..16]);
      var second := CbcDecrypted(sb, dk, d, n, rest.1);
      assert p + (rest.0 + second.0) == (p + rest.0) + second.0;
    }
  }

  // ---------- AES_cbc_encrypt ----------

  /** `tmp[n] = in[n] ^ ivec[n]` for the first len bytes, `tmp[n] = ivec[n]` for the rest. */
  method Whiten(tmp: array<bv8>, inp: array<bv8>, i: nat, len: nat, ivec: array<bv8>)
    requires tmp.Length == 16 && ivec.Length == 16 && len <= 16 && i + len <= inp.Length
    requires tmp != inp && tmp != ivec
    modifies tmp
    ensures tmp[..] == TailBlock(inp[i..i + len], ivec[..])
  {
    hide Xor8;
    for n := 0 to len
      invariant forall j :: 0 <= j < n ==> tmp[j] == Xor8(inp[i + j], ivec[j])
    {
      tmp[n] := Xor8(inp[i + n], ivec[n]);
    }
    for n := len to 16
      invariant forall j :: 0 <= j < n ==> tmp[j] == if j < len then Xor8(inp[i + j], ivec[j]) else ivec[j]
    {
      tmp[n] := ivec[n];
    }
    forall j | 0 <= j < 16
      ensures tmp[..][j] == if j < len then Xor8(inp[i..i + len][j], ivec[..][j]) else ivec[..][j]
    {
    }
    TailIs(tmp[..], inp[i..i + len], ivec[..]);
  }

  lemma TailIs(t: seq<bv8>, p: seq<bv8>, iv: seq<bv8>)
    requires |t| == |iv| == 16 && |p| <= 16
    requires forall j :: 0 <= j < 16 ==> t[j] == if j < |p| then Xor8(p[j], iv[j]) else iv[j]
    ensures t == TailBlock(p, iv)
  {
    hide Xor8;
  }

  /** memcpy of len bytes. */
  method Copy(dst: array<bv8>, d: nat, src: array<bv8>, s: nat, len: nat)
    requires d + len <= dst.Length && s + len <= src.Length && dst != src
    modifies dst
    ensures dst[..] == old(dst[..d]) + src[s..s + len] + old(dst[d + len..])
  {
    Store(dst, d, src[s..s + len]);
  }

  lemma WholeBlock(p: seq<bv8>, iv: seq<bv8>)
    requires |p| == 16 && |iv| == 16
    ensures TailBlock(p, iv) == XorBytes(p, iv)
  {
    assert iv[..16] == iv;
  }

  /** What is left to encrypt after i bytes went to `done`. */
  ghost predicate EncryptedSoFar(sb: SBox, k: seq<Block>, p: seq<bv8>, i: nat, done: seq<bv8>, iv: seq<bv8>,
                                 all: (seq<bv8>, seq<bv8>))
    requires |k| >= 2 && |iv| == 16
  {
    i <= |p| && |done| == i && i + Padded(|p| - i) == Padded(|p|) &&
    var rest := CbcEncrypted(sb, k, p[i..], iv);
    all == (done + rest.0, rest.1)
  }

  lemma EncryptedStart(sb: SBox, k: seq<Block>, p: seq<bv8>, iv: seq<bv8>)
    requires |k| >= 2 && |iv| == 16
    ensures EncryptedSoFar(sb, k, p, 0, [], iv, CbcEncrypted(sb, k, p, iv))
  {
    assert p[0..] == p;
    assert [] + CbcEncrypted(sb, k, p, iv).0 == CbcEncrypted(sb, k, p, iv).0;
  }

  lemma EncryptedStep(sb: SBox, k: seq<Block>, p: seq<bv8>, i: nat, done: seq<bv8>, iv: seq<bv8>,
                      all: (seq<bv8>, seq<bv8>))
    requires |k| >= 2 && |iv| == 16 && i + 16 <= |p| && EncryptedSoFar(sb, k, p, i, done, iv, all)
    ensures var c := EncBlock(sb, k, XorBytes(p[i..i + 16], iv));
            EncryptedSoFar(sb, k, p, i + 16, done + c, c, all)
  {
    hide EncBlock, XorBytes;
    var c := EncBlock(sb, k, XorBytes(p[i..i + 16], iv));
    assert p[i..][..16] == p[i..i + 16];
    assert p[i..][16..] == p[i + 16..];
    var rest := CbcEncrypted(sb, k, p[i + 16..], c);
    assert done + (c + rest.0) == (done + c) + rest.0;
  }

  lemma EncryptedLengths(sb: SBox, k: seq<Block>, p: seq<bv8>, i: nat, done: seq<bv8>, iv: seq<bv8>,
                         all: (seq<bv8>, seq<bv8>))
    requires |k| >= 2 && |iv| == 16 && EncryptedSoFar(sb, k, p, i, done, iv, all)
    ensures i <= |p| && i + Padded(|p| - i) == Padded(|p|)
  {
  }

  lemma EncryptedEnd(sb: SBox, k: seq<Block>, p: seq<bv8>, i: nat, done: seq<bv8>, iv: seq<bv8>,
                     all: (seq<bv8>, seq<bv8>))
    requires |k| >= 2 && |iv| == 16 && |p| < i + 16 && EncryptedSoFar(sb, k, p, i, done, iv, all)
    ensures Padded(|p|) == if i == |p| then i else i + 16
    ensures if i == |p| then all == (done, iv)
            else var c := EncBlock(sb, k, TailBlock(p[i..], iv)); all == (done + c, c)
  {
    hide EncBlock, TailBlock;
    assert done + [] == done;
  }

  /** One whole block of the encryption loop. */
  method EncryptWhole(sb: SBox, inp: array<bv8>, out: array<bv8>, i: nat, tmp: array<bv8>, key: AesKey,
                      ivec: array<bv8>)
    requires Usable(key) && ivec.Length == 16 && tmp.Length == 16 && i + 16 <= inp.Length && i + 16 <= out.Length
    requires tmp != inp && tmp != ivec && tmp != out && ivec != inp && ivec != out
    modifies out, ivec, tmp
    ensures var c := EncBlock(sb, RoundKeys(key.rdKey[..], key.rounds), XorBytes(old(inp[i..i + 16]), old(ivec[..])));
            out[..i + 16] == old(out[..i]) + c && ivec[..] == c
    ensures forall x :: i + 16 <= x < out.Length ==> out[x] == old(out[x])
  {
    hide EncBlock, XorBytes, RoundKeys;
    Whiten(tmp, inp, i, 16, ivec);
    WholeBlock(inp[i..i + 16], ivec[..]);
    assert tmp[0..16] == tmp[..];
    Encrypt(sb, tmp, 0, out, i, key);
    Copy(ivec, 0, out, i, 16);
  }

  /** The short tail of the encryption. */
  method EncryptTail(sb: SBox, inp: array<bv8>, out: array<bv8>, i: nat, len: nat, tmp: array<bv8>, key: AesKey,
                     ivec: array<bv8>)
    requires Usable(key) && ivec.Length == 16 && tmp.Length == 16 && len <= 16 && i + len <= inp.Length &&
             i + 16 <= out.Length
    requires tmp != inp && tmp != ivec && tmp != out && ivec != inp && ivec != out
    modifies out, ivec, tmp
    ensures var c := EncBlock(sb, RoundKeys(key.rdKey[..], key.rounds), TailBlock(old(inp[i..i + len]), old(ivec[..])));
            out[..] == old(out[..i]) + c + old(out[i + 16..]) && ivec[..] == c
  {
    hide EncBlock, TailBlock, RoundKeys;
    Whiten(tmp, inp, i, len, ivec);
    assert tmp[0..16] == tmp[..];
    Encrypt(sb, tmp, 0, tmp, 0, key);
    assert tmp[0..16] == tmp[..];
    Copy(out, i, tmp, 0, 16);
    Copy(ivec, 0, tmp, 0, 16);
  }

  /** The loop over whole blocks of the encryption branch. */
  method EncryptBlocks(sb: SBox, inp: array<bv8>, out: array<bv8>, length: nat, tmp: array<bv8>, key: AesKey,
                       ivec: array<bv8>)
    returns (i: nat, ghost done: seq<bv8>)
    requires Usable(key) && ivec.Length == 16 && tmp.Length == 16
    requires tmp != inp && tmp != ivec && tmp != out && ivec != inp && ivec != out
    requires length <= inp.Length && Padded(length) <= out.Length
    modifies out, ivec, tmp
    ensures i <= length < i + 16 && i + Padded(length - i) == Padded(length)
    ensures |done| == i && out[..] == done + old(out[i..]) && inp[i..length] == old(inp[i..length])
    ensures var k, p, iv := RoundKeys(key.rdKey[..], key.rounds), old(inp[..length]), old(ivec[..]);
            EncryptedSoFar(sb, k, p, i, done, ivec[..], CbcEncrypted(sb, k, p, iv))
  {
    hide EncBlock, XorBytes, RoundKeys, EncryptedSoFar, CbcEncrypted, Padded;
    ghost var k, p, w := RoundKeys(key.rdKey[..], key.rounds), inp[..length], out[..];
    ghost var all := CbcEncrypted(sb, k, p, ivec[..]);
    EncryptedStart(sb, k, p, ivec[..]);
    done, i := [], 0;
    while length - i >= 16
      invariant 0 <= i <= length <= out.Length && |done| == i
      invariant forall x :: i <= x < length ==> inp[x] == p[x]
      invariant out[..i] == done
      invariant forall x :: i <= x < out.Length ==> out[x] == w[x]
      invariant EncryptedSoFar(sb, k, p, i, done, ivec[..], all)
    {
      EncryptedStep(sb, k, p, i, done, ivec[..], all);
      assert inp[i..i + 16] == p[i..i + 16];
      EncryptWhole(sb, inp, out, i, tmp, key, ivec);
      done := done + ivec[..];
      i := i + 16;
    }
    EncryptedLengths(sb, k, p, i, done, ivec[..], all);
  }

  /** The encryption branch. `inp` and `out` may be the same array. */
  method CbcEncrypt(sb: SBox, inp: array<bv8>, out: array<bv8>, length: nat, key: AesKey, ivec: array<bv8>)
    requires Usable(key) && ivec.Length == 16 && ivec != inp && ivec != out
    requires length <= inp.Length && Padded(length) <= out.Length
    modifies out, ivec
    ensures var r := CbcEncrypted(sb, RoundKeys(key.rdKey[..], key.rounds), old(inp[..length]), old(ivec[..]));
            out[..] == r.0 + old(out[Padded(length)..]) && ivec[..] == r.1
  {
    hide EncBlock, XorBytes, RoundKeys, EncryptedSoFar, CbcEncrypted, TailBlock, Padded;
    ghost var k, p, iv := RoundKeys(key.rdKey[..], key.rounds), inp[..length], ivec[..];
    var tmp := new bv8[16];
    var i;
    ghost var done;
    i, done := EncryptBlocks(sb, inp, out, length, tmp, key, ivec);
    EncryptedEnd(sb, k, p, i, done, ivec[..], CbcEncrypted(sb, k, p, iv));
    assert inp[i..length] == p[i..];
    PaddedShort(length - i);
    if length > i {
      EncryptTail(sb, inp, out, i, length - i, tmp, key, ivec);
    }
  }

  /** What is left to decrypt after i bytes went to `done`. */
  ghost predicate DecryptedSoFar(sb: SBox, dk: seq<Block>, c: seq<bv8>, n: nat, i: nat, done: seq<bv8>, iv: seq<bv8>,
                                 all: (seq<bv8>, seq<bv8>))
    requires |dk| >= 2 && |iv| == 16
  {
    i <= n && |done| == i && i + Padded(n - i) == Padded(n) <= |c| &&
    var rest := CbcDecrypted(sb, dk, c[i..], n - i, iv);
    all == (done + rest.0, rest.1)
  }

  lemma DecryptedStart(sb: SBox, dk: seq<Block>, c: seq<bv8>, n: nat, iv: seq<bv8>)
    requires |dk| >= 2 && |iv| == 16 && |c| >= Padded(n)
    ensures DecryptedSoFar(sb, dk, c, n, 0, [], iv, CbcDecrypted(sb, dk, c, n, iv))
  {
    assert c[0..] == c;
    assert [] + CbcDecrypted(sb, dk, c, n, iv).0 == CbcDecrypted(sb, dk, c, n, iv).0;
  }

  lemma DecryptedStep(sb: SBox, dk: seq<Block>, c: seq<bv8>, n: nat, i: nat, done: seq<bv8>, iv: seq<bv8>,
                      all: (seq<bv8>, seq<bv8>))
    requires |dk| >= 2 && |iv| == 16 && i + 16 <= n && DecryptedSoFar(sb, dk, c, n, i, done, iv, all)
    ensures DecryptedSoFar(sb, dk, c, n, i + 16, done + XorBytes(DecBlock(sb, dk, c[i..i + 16]), iv), c[i..i + 16], all)
  {
    hide DecBlock, XorBytes;
    var p := XorBytes(DecBlock(sb, dk, c[i..i + 16]), iv);
    assert c[i..][..16] == c[i..i + 16];
    assert c[i..][16..] == c[i + 16..];
    var rest := CbcDecrypted(sb, dk, c[i + 16..], n - i - 16, c[i..i + 16]);
    assert done + (p + rest.0) == (done + p) + rest.0;
  }

  lemma DecryptedEnd(sb: SBox, dk: seq<Block>, c: seq<bv8>, n: nat, i: nat, done: seq<bv8>, iv: seq<bv8>,
                     all: (seq<bv8>, seq<bv8>))
    requires |dk| >= 2 && |iv| == 16 && n < i + 16 && DecryptedSoFar(sb, dk, c, n, i, done, iv, all)
    ensures i < n ==> i + 16 <= |c|
    ensures if i == n then all == (done, iv)
            else var t := DecBlock(sb, dk, c[i..i + 16]); all == (done + XorBytes(t[..n - i], iv[..n - i]), t)
  {
    hide DecBlock, XorBytes;
    assert done + [] == done;
    if i < n {
      assert c[i..][..16] == c[i..i + 16];
    }
  }

  /** `out[n] ^= ivec[n]` over a block. */
  method Unwhiten(out: array<bv8>, i: nat, ivec: array<bv8>)
    requires i + 16 <= out.Length && ivec.Length == 16 && out != ivec
    modifies out
    ensures out[..] == old(out[..i]) + XorBytes(old(out[i..i + 16]), ivec[..]) + old(out[i + 16..])
  {
    hide Xor8;
    for n := 0 to 16
      invariant forall j :: 0 <= j < out.Length ==>
                  out[j] == if i <= j < i + n then Xor8(old(out[j]), ivec[j - i]) else old(out[j])
    {
      out[i + n] := Xor8(out[i + n], ivec[n]);
    }
  }

  /** `out[n] = tmp[n] ^ ivec[n]` for the first len bytes. */
  method UnwhitenTail(out: array<bv8>, i: nat, len: nat, tmp: array<bv8>, ivec: array<bv8>)
    requires i + len <= out.Length && len <= 16 && tmp.Length == 16 && ivec.Length == 16 && out != ivec && out != tmp
    modifies out
    ensures out[..] == old(out[..i]) + XorBytes(tmp[..len], ivec[..len]) + old(out[i + len..])
  {
    hide Xor8;
    for n := 0 to len
      invariant forall j :: 0 <= j < out.Length ==>
                  out[j] == if i <= j < i + n then Xor8(tmp[j - i], ivec[j - i]) else old(out[j])
    {
      out[i + n] := Xor8(tmp[n], ivec[n]);
    }
  }

  /** One whole block of the decryption loop. */
  method DecryptWhole(sb: SBox, inp: array<bv8>, out: array<bv8>, i: nat, tmp: array<bv8>, key: AesKey,
                      ivec: array<bv8>)
    requires Usable(key) && ivec.Length == 16 && tmp.Length == 16 && i + 16 <= inp.Length && i + 16 <= out.Length
    requires tmp != inp && tmp != ivec && tmp != out && ivec != inp && ivec != out
    modifies out, ivec, tmp
    ensures var p := XorBytes(DecBlock(sb, RoundKeys(key.rdKey[..], key.rounds), old(inp[i..i + 16])), old(ivec[..]));
            out[..i + 16] == old(out[..i]) + p
    ensures ivec[..] == old(inp[i..i + 16])
    ensures forall x :: i + 16 <= x < out.Length ==> out[x] == old(out[x])
  {
    hide DecBlock, XorBytes, RoundKeys;
    ghost var v := inp[i..i + 16];
    Copy(tmp, 0, inp, i, 16);
    Decrypt(sb, inp, i, out, i, key);
    Unwhiten(out, i, ivec);
    assert tmp[0..16] == v;
    Copy(ivec, 0, tmp, 0, 16);
  }

  method DecryptTail(sb: SBox, inp: array<bv8>, out: array<bv8>, i: nat, len: nat, tmp: array<bv8>, key: AesKey,
                     ivec: array<bv8>)
    requires Usable(key) && ivec.Length == 16 && tmp.Length == 16 && len <= 16 && i + 16 <= inp.Length &&
             i + len <= out.Length
    requires tmp != inp && tmp != ivec && tmp != out && ivec != inp && ivec != out
    modifies out, ivec, tmp
    ensures var t := DecBlock(sb, RoundKeys(key.rdKey[..], key.rounds), old(inp[i..i + 16]));
            out[..] == old(out[..i]) + XorBytes(t[..len], old(ivec[..len])) + old(out[i + len..]) && ivec[..] == t
  {
    hide DecBlock, RoundKeys, XorBytes;
    Copy(tmp, 0, inp, i, 16);
    assert tmp[0..16] == inp[i..i + 16];
    Decrypt(sb, tmp, 0, tmp, 0, key);
    assert tmp[0..16] == tmp[..];
    UnwhitenTail(out, i, len, tmp, ivec);
    Copy(ivec, 0, tmp, 0, 16);
  }

  /** The loop over whole blocks of the decryption branch. */
  method DecryptBlocks(sb: SBox, inp: array<bv8>, out: array<bv8>, length: nat, tmp: array<bv8>, key: AesKey,
                       ivec: array<bv8>)
    returns (i: nat, ghost done: seq<bv8>)
    requires Usable(key) && ivec.Length == 16 && tmp.Length == 16
    requires tmp != inp && tmp != ivec && tmp != out && ivec != inp && ivec != out
    requires Padded(length) <= inp.Length && length <= out.Length
    modifies out, ivec, tmp
    ensures i <= length < i + 16
    ensures |done| == i && out[..] == done + old(out[i..]) && inp[i..] == old(inp[i..])
    ensures var dk, c, iv := RoundKeys(key.rdKey[..], key.rounds), old(inp[..]), old(ivec[..]);
            DecryptedSoFar(sb, dk, c, length, i, done, ivec[..], CbcDecrypted(sb, dk, c, length, iv))
  {
    hide DecBlock, XorBytes, RoundKeys, DecryptedSoFar, CbcDecrypted;
    ghost var dk, c, w := RoundKeys(key.rdKey[..], key.rounds), inp[..], out[..];
    ghost var all := CbcDecrypted(sb, dk, c, length, ivec[..]);
    DecryptedStart(sb, dk, c, length, ivec[..]);
    done, i := [], 0;
    while length - i >= 16
      invariant 0 <= i <= length && |done| == i && i + Padded(length - i) == Padded(length)
      invariant forall x :: i <= x < inp.Length ==> inp[x] == c[x]
      invariant out[..i] == done
      invariant forall x :: i <= x < out.Length ==> out[x] == w[x]
      invariant DecryptedSoFar(sb, dk, c, length, i, done, ivec[..], all)
    {
      DecryptedStep(sb, dk, c, length, i, done, ivec[..], all);
      assert inp[i..i + 16] == c[i..i + 16];
      done := done + XorBytes(DecBlock(sb, dk, c[i..i + 16]), ivec[..]);
      DecryptWhole(sb, inp, out, i, tmp, key, ivec);
      i := i + 16;
    }
  }

  /** The decryption branch: the code reads whole blocks and writes `length` bytes. */
  method CbcDecrypt(sb: SBox, inp: array<bv8>, out: array<bv8>, length: nat, key: AesKey, ivec: array<bv8>)
    requires Usable(key) && ivec.Length == 16 && ivec != inp && ivec != out
    requires Padded(length) <= inp.Length && length <= out.Length
    modifies out, ivec
    ensures var r := CbcDecrypted(sb, RoundKeys(key.rdKey[..], key.rounds), old(inp[..]), length, old(ivec[..]));
            out[..] == r.0 + old(out[length..]) && ivec[..] == r.1
  {
    hide DecBlock, XorBytes, RoundKeys, DecryptedSoFar, CbcDecrypted;
    ghost var dk, c, iv := RoundKeys(key.rdKey[..], key.rounds), inp[..], ivec[..];
    var tmp := new bv8[16];
    var i;
    ghost var done;
    i, done := DecryptBlocks(sb, inp, out, length, tmp, key, ivec);
    DecryptedEnd(sb, dk, c, length, i, done, ivec[..], CbcDecrypted(sb, dk, c, length, iv));
    if length > i {
      assert inp[i..i + 16] == inp[i..][..16] == c[i..][..16] == c[i..i + 16];
      DecryptTail(sb, inp, out, i, length - i, tmp, key, ivec);
    }
  }

  /** AES_cbc_encrypt. */
  method CbcCrypt(sb: SBox, inp: array<bv8>, out: array<bv8>, length: nat, key: AesKey, ivec: array<bv8>, enc: bool)
    requires Usable(key) && ivec.Length == 16 && ivec != inp && ivec != out
    requires if enc then length <= inp.Length && Padded(length) <= out.Length
             else Padded(length) <= inp.Length && length <= out.Length
    modifies out, ivec
    ensures enc ==> var r := CbcEncrypted(sb, RoundKeys(key.rdKey[..], key.rounds), old(inp[..length]), old(ivec[..]));
                    out[..] == r.0 + old(out[Padded(length)..]) && ivec[..] == r.1
    ensures !enc ==> var r := CbcDecrypted(sb, RoundKeys(key.rdKey[..], key.rounds), old(inp[..]), length,
                                           old(ivec[..]));
                     out[..] == r.0 + old(out[length..]) && ivec[..] == r.1
  {
    hide RoundKeys, CbcEncrypted, CbcDecrypted;
    if enc {
      CbcEncrypt(sb, inp, out, length, key, ivec);
    } else {
      CbcDecrypt(sb, inp, out, length, key, ivec);
    }
  }

  lemma {:induction false} DecryptIgnoresRest(sb: SBox, dk: seq<Block>, c: seq<bv8>, d: seq<bv8>, n: nat, iv: seq<bv8>)
    requires |dk| >= 2 && |iv| == 16 && |c| >= Padded(n)
    ensures CbcDecrypted(sb, dk, c + d, n, iv) == CbcDecrypted(sb, dk, c, n, iv)
    decreases n
  {
    hide DecBlock, XorBytes;
    if n >= 16 {
      DecryptIgnoresRest(sb, dk, c[16..], d, n - 16, c[..16]);
      assert (c + d)[16..] == c[16..] + d && (c + d)[..16] == c[..16];
    } else if n > 0 {
      assert (c + d)[..16] == c[..16];
    }
  }

  /** In place, for every length and every key: encrypting a buffer and decrypting it with the
      same starting vector gives the plaintext back. */
  method InPlaceRoundTrip(sb: SBox, userKey: array<bv8>, bits: int, buf: array<bv8>, length: nat, iv1: array<bv8>,
                          iv2: array<bv8>)
    requires sb.Valid() && ValidBits(bits) && userKey.Length >= bits / 8 && Padded(length) <= buf.Length &&
             length <= buf.Length
    requires iv1.Length == 16 && iv2.Length == 16 && iv1[..] == iv2[..]
    requires iv1 != iv2 && iv1 != buf && iv2 != buf && userKey != buf && userKey != iv1
    modifies buf, iv1, iv2
    ensures buf[..length] == old(buf[..length])
    ensures buf[Padded(length)..] == old(buf[Padded(length)..])
  {
    hide RoundKeys, CbcEncrypted, CbcDecrypted, Schedule, InverseKeys, Expanded, UserKey;
    ghost var u, p, w, iv := userKey[..], buf[..length], buf[..], iv1[..];
    var ek := new AesKey();
    var dk := new AesKey();
    var status := SetEncryptKey(sb, userKey, bits, ek);
    ExpandedIsSchedule(sb, u, bits, ek.rdKey[..]);
    ghost var k := Schedule(sb, u, bits);
    CbcCrypt(sb, buf, buf, length, ek, iv1, true);
    ghost var c := CbcEncrypted(sb, k, p, iv).0;
    status := SetDecryptKey(sb, userKey, bits, dk);
    assert buf[..] == c + w[Padded(length)..];
    DecryptIgnoresRest(sb, InverseKeys(k), c, w[Padded(length)..], length, iv);
    CbcRoundTrip(sb, k, p, iv);
    CbcCrypt(sb, buf, buf, length, dk, iv2, false);
    assert (c + w[Padded(length)..])[length..][Padded(length) - length..] == w[Padded(length)..];
  }
}
