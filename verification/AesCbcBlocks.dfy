/** The mode block by block and byte by byte (section 6.2 of NIST SP 800-38A): each ciphertext block is the cipher
    of the plaintext block xored with the ciphertext block before it, and a short tail is completed by that block. */
module AesCbcBlocks {
  import opened AesSpec
  import opened Aes
  import opened AesCbc

  function BlockAt(c: seq<bv8>, i: nat): (b: seq<bv8>)
    requires 16 * i + 16 <= |c|
    ensures |b| == 16
  {
    c[16 * i..16 * i + 16]
  }

  /** The ciphertext block before block i, which for the first is the vector. */
  function Previous(c: seq<bv8>, iv: seq<bv8>, i: nat): (b: seq<bv8>)
    requires |iv| == 16 && 16 * i <= |c|
    ensures |b| == 16
  {
    if i == 0 then iv else BlockAt(c, i - 1)
  }

  /** Byte j of what the cipher is given for block i. */
  function GivenAt(p: seq<bv8>, previous: seq<bv8>, i: nat, j: nat): bv8
    requires |previous| == 16 && j < 16
  {
    if 16 * i + j < |p| then p[16 * i + j] ^ previous[j] else previous[j]
  }

  function Given(p: seq<bv8>, previous: seq<bv8>, i: nat): (b: seq<bv8>)
    requires |previous| == 16
    ensures |b| == 16
  {
    seq(16, j requires 0 <= j < 16 => GivenAt(p, previous, i, j))
  }

  lemma WholeGiven(p: seq<bv8>, iv: seq<bv8>)
    requires |iv| == 16 && |p| >= 16
    ensures XorBytes(p[..16], iv) == Given(p, iv, 0)
  {
  }

  lemma TailGiven(p: seq<bv8>, iv: seq<bv8>)
    requires |iv| == 16 && |p| < 16
    ensures TailBlock(p, iv) == Given(p, iv, 0)
  {
  }

  lemma GivenLater(p: seq<bv8>, previous: seq<bv8>, i: nat)
    requires |previous| == 16 && |p| >= 16 && i > 0
    ensures Given(p, previous, i) == Given(p[16..], previous, i - 1)
  {
    forall j | 0 <= j < 16
      ensures GivenAt(p, previous, i, j) == GivenAt(p[16..], previous, i - 1, j)
    {
    }
  }

  lemma BlocksLater(c: seq<bv8>, rest: seq<bv8>, iv: seq<bv8>, i: nat)
    requires |c| == |iv| == 16 && i > 0 && 16 * i <= 16 + |rest|
    ensures Previous(c + rest, iv, i) == Previous(rest, c, i - 1)
    ensures 16 * i + 16 <= 16 + |rest| ==> BlockAt(c + rest, i) == BlockAt(rest, i - 1)
  {
  }

  lemma PaddedCovers(n: nat, i: nat)
    requires 16 * i < n
    ensures 16 * i + 16 <= Padded(n)
  {
    PaddedWhole(16 * i, n - 16 * i);
  }

  /** Main result: the ciphertext, block by block. */
  lemma {:induction false} EncryptedBlock(sb: SBox, k: seq<Block>, p: seq<bv8>, iv: seq<bv8>, i: nat)
    requires |k| >= 2 && |iv| == 16 && 16 * i < |p|
    ensures var c := CbcEncrypted(sb, k, p, iv).0;
            16 * i + 16 <= |c| && BlockAt(c, i) == EncBlock(sb, k, Given(p, Previous(c, iv, i), i))
    decreases |p|
  {
    hide EncBlock, XorBytes, TailBlock, Given, Padded;
    var c := CbcEncrypted(sb, k, p, iv).0;
    PaddedCovers(|p|, i);
    if |p| < 16 {
      TailGiven(p, iv);
    } else {
      var first := EncBlock(sb, k, XorBytes(p[..16], iv));
      var rest := CbcEncrypted(sb, k, p[16..], first).0;
      assert c == first + rest;
      if i == 0 {
        WholeGiven(p, iv);
      } else {
        PaddedCovers(|p| - 16, i - 1);
        EncryptedBlock(sb, k, p[16..], first, i - 1);
        BlocksLater(first, rest, iv, i);
        GivenLater(p, Previous(c, iv, i), i);
      }
    }
  }

  lemma BlockCount(m: nat)
    ensures (16 + m) / 16 == 1 + m / 16 && (16 + m) % 16 == m % 16
  {
  }

  /** The vector carried out of an encryption is its last ciphertext block. */
  lemma {:induction false} EncryptedCarries(sb: SBox, k: seq<Block>, p: seq<bv8>, iv: seq<bv8>)
    requires |k| >= 2 && |iv| == 16
    ensures var r := CbcEncrypted(sb, k, p, iv);
            |r.0| % 16 == 0 && r.1 == Previous(r.0, iv, |r.0| / 16)
    decreases |p|
  {
    hide EncBlock, XorBytes, TailBlock, Previous, Padded;
    if |p| >= 16 {
      var first := EncBlock(sb, k, XorBytes(p[..16], iv));
      var rest := CbcEncrypted(sb, k, p[16..], first).0;
      EncryptedCarries(sb, k, p[16..], first);
      BlockCount(|rest|);
      BlocksLater(first, rest, iv, 1 + |rest| / 16);
    } else {
      OneBlock(EncBlock(sb, k, TailBlock(p, iv)), iv);
    }
  }

  lemma OneBlock(c: seq<bv8>, iv: seq<bv8>)
    requires |c| == |iv| == 16
    ensures Previous(c, iv, 1) == c && Previous([], iv, 0) == iv
  {
  }

  lemma {:induction false} DecryptedAt(sb: SBox, dk: seq<Block>, c: seq<bv8>, n: nat, iv: seq<bv8>, i: nat, j: nat)
    requires |dk| >= 2 && |iv| == 16 && |c| >= Padded(n) && j < 16 && 16 * i + j < n
    ensures 16 * i + 16 <= |c|
    ensures CbcDecrypted(sb, dk, c, n, iv).0[16 * i + j] ==
            Xor8(DecBlock(sb, dk, BlockAt(c, i))[j], Previous(c, iv, i)[j])
    decreases n
  {
    hide DecBlock, Padded, Xor8, BlockAt, Previous;
    PaddedCovers(n, i);
    FirstBlock(c, iv);
    if n >= 16 && i > 0 {
      PaddedWhole(16, n - 16);
      PaddedCovers(n - 16, i - 1);
      DecryptedAt(sb, dk, c[16..], n - 16, c[..16], i - 1, j);
      assert c == c[..16] + c[16..];
      BlocksLater(c[..16], c[16..], iv, i);
    }
  }

  lemma FirstBlock(c: seq<bv8>, iv: seq<bv8>)
    requires |c| >= 16 && |iv| == 16
    ensures BlockAt(c, 0) == c[..16] && Previous(c, iv, 0) == iv
  {
  }

  /** Main result: the plaintext, byte by byte. */
  lemma DecryptedByte(sb: SBox, dk: seq<Block>, c: seq<bv8>, n: nat, iv: seq<bv8>, i: nat, j: nat)
    requires |dk| >= 2 && |iv| == 16 && |c| >= Padded(n) && j < 16 && 16 * i + j < n
    ensures 16 * i + 16 <= |c|
    ensures CbcDecrypted(sb, dk, c, n, iv).0[16 * i + j] ==
            DecBlock(sb, dk, BlockAt(c, i))[j] ^ Previous(c, iv, i)[j]
  {
    hide DecBlock, Padded, CbcDecrypted, BlockAt, Previous;
    DecryptedAt(sb, dk, c, n, iv, i, j);
  }
}
