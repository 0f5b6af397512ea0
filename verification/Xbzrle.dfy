/** The XBZRLE page codec (savevm.c) over its length codec (cutils.c). A page is compared with
    its previous content; the code alternates runs of equal bytes (a length) with runs of
    changed bytes (a length and the new bytes). */
module Xbzrle {
  import opened Basics

  datatype Option<T> = None | Some(value: T)

  // ---------- 14-bit ULEB128 ----------

  const MAX_LENGTH := 0x3fff

  /** uleb128_encode_small */
  function Length(n: nat): (s: seq<Byte>)
    requires n <= MAX_LENGTH
    ensures 1 <= |s| <= 2
  {
    if n < 0x80 then [n] else [n % 0x80 + 0x80, n / 0x80]
  }

  /** uleb128_decode_small: the value and the bytes used, or nothing for a second byte with its
      top bit set. The code looks at the second byte only if the first asks for it. */
  function ReadLength(s: seq<Byte>): (r: Option<(nat, nat)>)
    requires |s| >= 2
    ensures r.Some? ==> 1 <= r.value.1 <= 2
  {
    if s[0] < 0x80 then Some((s[0], 1))
    else if s[1] >= 0x80 then None
    else Some((s[0] as int - 0x80 + s[1] as int * 0x80, 2))
  }

  lemma ReadLengthUndoes(n: nat, rest: seq<Byte>)
    requires n <= MAX_LENGTH && |Length(n) + rest| >= 2
    ensures ReadLength(Length(n) + rest) == Some((n, |Length(n)|))
  {
  }

  /** Exactly the 14-bit numbers in shortest form have a code; a two-byte code below 0x80 also
      decodes. */
  lemma LengthUndoesRead(s: seq<Byte>)
    requires |s| == 2 && ReadLength(s).Some?
    ensures var r := ReadLength(s).value;
            r.0 <= MAX_LENGTH && (Length(r.0) == s[..r.1] <==> r.1 == 1 || s[1] != 0)
  {
    if s[0] >= 0x80 {
      var n := s[0] as int - 0x80 + s[1] as int * 0x80;
      assert n / 0x80 == s[1] && n % 0x80 == s[0] - 0x80;
    }
  }

  // ---------- runs ----------

  /** The first position from i on where the pages differ (same = true) or agree. */
  function RunEnd(a: seq<Byte>, b: seq<Byte>, i: nat, same: bool): (e: nat)
    requires |a| == |b| && i <= |a|
    ensures i <= e <= |a|
    ensures forall j :: i <= j < e ==> (a[j] == b[j]) == same
    ensures e < |a| ==> (a[e] == b[e]) != same
    decreases |a| - i
  {
    if i < |a| && (a[i] == b[i]) == same then RunEnd(a, b, i + 1, same) else i
  }

  lemma {:induction false} RunEndUnique(a: seq<Byte>, b: seq<Byte>, i: nat, same: bool, e: nat)
    requires |a| == |b| && i <= e <= |a|
    requires forall j :: i <= j < e ==> (a[j] == b[j]) == same
    requires e < |a| ==> (a[e] == b[e]) != same
    ensures e == RunEnd(a, b, i, same)
    decreases |a| - i
  {
    if i < e {
      RunEndUnique(a, b, i + 1, same, e);
    }
  }

  /** The code from position i on; a trailing run of equal bytes is left out. */
  function Encoded(prev: seq<Byte>, page: seq<Byte>, i: nat): (s: seq<Byte>)
    requires |prev| == |page| <= MAX_LENGTH && i <= |page|
    decreases |page| - i
  {
    var z := RunEnd(prev, page, i, true);
    if z == |page| then []
    else
      var n := RunEnd(prev, page, z, false);
      Length(z - i) + Length(n - z) + page[z..n] + Encoded(prev, page, n)
  }

  // ---------- decoding ----------

  /** What decoding leaves in the page: all of the new content and its length, or, up to a malformed
      run, what the runs before it have put there. */
  datatype Outcome = Done(page: seq<Byte>, length: nat) | Malformed(page: seq<Byte>)

  /** One pair of runs at the head of a code: where in the page of the given size the changed bytes
      go, where in the code they are, and how many; nothing if the pair is malformed. Only the very
      first run of equal bytes may be empty. */
  function Runs(src: seq<Byte>, first: bool, size: nat, d: nat): (r: Option<(nat, nat, nat)>)
    ensures r.Some? ==>
              var (e, at, n) := r.value;
              d <= e && 0 < n && e + n <= size && 0 < at && at + n <= |src|
  {
    if |src| < 2 || ReadLength(src).None? then None
    else
      var (z, u) := ReadLength(src).value;
      var rest := src[u..];
      if (!first && z == 0) || d + z > size || |rest| < 2 || ReadLength(rest).None? then None
      else
        var (n, v) := ReadLength(rest).value;
        if n == 0 || d + z + n > size || v + n > |rest| then None else Some((d + z, u + v, n))
  }

  /** xbzrle_decode_buffer on what is left of the code, with the page so far and the position in it. */
  function Decoded(src: seq<Byte>, first: bool, page: seq<Byte>, d: nat): (r: Outcome)
    requires d <= |page|
    ensures |r.page| == |page| && (r.Done? ==> d <= r.length <= |page|)
    decreases |src|
  {
    if src == [] then Done(page, d)
    else match Runs(src, first, |page|, d)
      case None => Malformed(page)
      case Some((e, at, n)) =>
        Decoded(src[at + n..], false, page[..e] + src[at..at + n] + page[e + n..], e + n)
  }

  // ---------- the round trip ----------

  lemma DecodeOne(z: nat, n: nat, bytes: seq<Byte>, tail: seq<Byte>, first: bool, page: seq<Byte>, d: nat)
    requires z <= MAX_LENGTH && 0 < n == |bytes| <= MAX_LENGTH && d + z + n <= |page| && (z == 0 ==> first)
    ensures Decoded(Length(z) + Length(n) + bytes + tail, first, page, d) ==
            Decoded(tail, false, page[..d + z] + bytes + page[d + z + n..], d + z + n)
  {
    hide Decoded, Runs, Length;
    RunsOne(z, n, bytes, tail, first, |page|, d);
    CodeParts(Length(z), Length(n), bytes, tail);
    DecodedStep(Length(z) + Length(n) + bytes + tail, first, page, d);
  }

  lemma DecodedStep(src: seq<Byte>, first: bool, page: seq<Byte>, d: nat)
    requires d <= |page| && src != []
    ensures Decoded(src, first, page, d) ==
            match Runs(src, first, |page|, d)
            case None => Malformed(page)
            case Some((e, at, n)) =>
              Decoded(src[at + n..], false, page[..e] + src[at..at + n] + page[e + n..], e + n)
  {
  }

  lemma RunsOne(z: nat, n: nat, bytes: seq<Byte>, tail: seq<Byte>, first: bool, size: nat, d: nat)
    requires z <= MAX_LENGTH && 0 < n == |bytes| <= MAX_LENGTH && d + z + n <= size && (z == 0 ==> first)
    ensures Runs(Length(z) + Length(n) + bytes + tail, first, size, d) == Some((d + z, |Length(z)| + |Length(n)|, n))
  {
    hide Length, ReadLength;
    CodeParts(Length(z), Length(n), bytes, tail);
    ReadLengthUndoes(z, Length(n) + (bytes + tail));
    ReadLengthUndoes(n, bytes + tail);
  }

  lemma CodeParts(a: seq<Byte>, b: seq<Byte>, bytes: seq<Byte>, tail: seq<Byte>)
    ensures var src, more := a + b + bytes + tail, b + (bytes + tail);
            src == a + more && src[|a|..] == more && src[|a| + |b|..|a| + |b| + |bytes|] == bytes &&
            src[|a| + |b| + |bytes|..] == tail
  {
  }

  /** Decoding the code of (prev, page) over prev gives page, for every pair of pages. */
  lemma {:induction false} RoundTripFrom(prev: seq<Byte>, page: seq<Byte>, i: nat)
    requires |prev| == |page| <= MAX_LENGTH && i <= |page| && (0 < i < |page| ==> prev[i] == page[i])
    ensures var r := Decoded(Encoded(prev, page, i), i == 0, page[..i] + prev[i..], i);
            r.Done? && r.page == page
    decreases |page| - i
  {
    hide Decoded, Length, Encoded, RunEnd;
    var z := RunEnd(prev, page, i, true);
    EncodedUnfold(prev, page, i);
    if z == |page| {
      assert page[..i] + prev[i..] == page;
      DecodedEmpty(i == 0, page, i);
    } else {
      var n := RunEnd(prev, page, z, false);
      var now := page[..i] + prev[i..];
      DecodeOne(z - i, n - z, page[z..n], Encoded(prev, page, n), i == 0, now, i);
      Splice(prev, page, i, z, n);
      RoundTripFrom(prev, page, n);
    }
  }

  lemma Splice(prev: seq<Byte>, page: seq<Byte>, i: nat, z: nat, n: nat)
    requires |prev| == |page| && i <= z <= n <= |page| && forall j :: i <= j < z ==> prev[j] == page[j]
    ensures var now := page[..i] + prev[i..]; now[..z] + page[z..n] + now[n..] == page[..n] + prev[n..]
  {
  }

  lemma DecodedEmpty(first: bool, page: seq<Byte>, d: nat)
    requires d <= |page|
    ensures Decoded([], first, page, d) == Done(page, d)
  {
  }

  lemma RoundTrip(prev: seq<Byte>, page: seq<Byte>)
    requires |prev| == |page| <= MAX_LENGTH
    ensures var r := Decoded(Encoded(prev, page, 0), true, prev, 0); r.Done? && r.page == page
  {
    assert page[..0] + prev[0..] == prev;
    RoundTripFrom(prev, page, 0);
  }

  /** Only an unchanged page has an empty code. */
  lemma EmptyCode(prev: seq<Byte>, page: seq<Byte>)
    requires |prev| == |page| <= MAX_LENGTH
    ensures Encoded(prev, page, 0) == [] <==> prev == page
  {
    if prev == page {
      RunEndUnique(prev, page, 0, true, |page|);
    }
  }

  // ---------- xbzrle_encode_buffer ----------

  const LONG := 8

  function FromBits(a: bool, b: bool, c: bool, d: bool, e: bool, f: bool, g: bool, h: bool): bv8 {
    (if a then 0x80 else 0) | (if b then 0x40 else 0) | (if c then 0x20 else 0) | (if d then 0x10 else 0) |
    (if e then 0x08 else 0) | (if f then 0x04 else 0) | (if g then 0x02 else 0) | (if h then 0x01 else 0)
  }

  /** Bit k of a number. */
  predicate Bit(x: nat, k: nat)
    decreases k
  {
    if k == 0 then x % 2 == 1 else Bit(x / 2, k - 1)
  }

  /** A byte as eight bits. */
  function Bits(x: Byte): bv8 {
    FromBits(Bit(x, 7), Bit(x, 6), Bit(x, 5), Bit(x, 4), Bit(x, 3), Bit(x, 2), Bit(x, 1), Bit(x, 0))
  }

  lemma FromBitsInjective(a: bool, b: bool, c: bool, d: bool, e: bool, f: bool, g: bool, h: bool,
                          a': bool, b': bool, c': bool, d': bool, e': bool, f': bool, g': bool, h': bool)
    requires FromBits(a, b, c, d, e, f, g, h) == FromBits(a', b', c', d', e', f', g', h')
    ensures a == a' && b == b' && c == c' && d == d' && e == e' && f == f' && g == g' && h == h'
  {
  }

  lemma BitsDecide(x: Byte, y: Byte)
    ensures Bits(x) == Bits(y) <==> x == y
  {
    hide FromBits, Bit;
    if Bits(x) == Bits(y) {
      FromBitsInjective(Bit(x, 7), Bit(x, 6), Bit(x, 5), Bit(x, 4), Bit(x, 3), Bit(x, 2), Bit(x, 1), Bit(x, 0),
                        Bit(y, 7), Bit(y, 6), Bit(y, 5), Bit(y, 4), Bit(y, 3), Bit(y, 2), Bit(y, 1), Bit(y, 0));
      SameBits(x, y, 8);
    }
  }

  lemma {:induction false} SameBits(x: nat, y: nat, n: nat)
    requires x < Power(n) && y < Power(n) && forall k :: 0 <= k < n ==> Bit(x, k) == Bit(y, k)
    ensures x == y
    decreases n
  {
    if n > 0 {
      assert Bit(x, 0) == Bit(y, 0);
      forall k | 0 <= k < n - 1
        ensures Bit(x / 2, k) == Bit(y / 2, k)
      {
        assert Bit(x, k + 1) == Bit(y, k + 1);
      }
      SameBits(x / 2, y / 2, n - 1);
    }
  }

  /** Eight bytes as a long. */
  function Long(a: bv8, b: bv8, c: bv8, d: bv8, e: bv8, f: bv8, g: bv8, h: bv8): bv64 {
    (a as bv64) | (b as bv64 << 8) | (c as bv64 << 16) | (d as bv64 << 24) |
    (e as bv64 << 32) | (f as bv64 << 40) | (g as bv64 << 48) | (h as bv64 << 56)
  }

  /** The long at i of a page. */
  function LongAt(s: seq<Byte>, i: nat): bv64
    requires i + LONG <= |s|
  {
    Long(Bits(s[i]), Bits(s[i + 1]), Bits(s[i + 2]), Bits(s[i + 3]), Bits(s[i + 4]), Bits(s[i + 5]), Bits(s[i + 6]),
         Bits(s[i + 7]))
  }

  /** `(xor - mask) & ~xor & (mask << 7)`, for the mask with a one in every byte. */
  predicate HasZeroByte(xor: bv64) { (xor - 0x0101010101010101) & !xor & (0x0101010101010101 << 7) != 0 }

  function XorLong(x: bv64, y: bv64): bv64 { x ^ y }

  function XorByte(x: bv8, y: bv8): bv8 { x ^ y }

  /** The bit trick is exact: it is nonzero just if one of the eight bytes is zero. */
  lemma ZeroByteTrick(a: bv8, b: bv8, c: bv8, d: bv8, e: bv8, f: bv8, g: bv8, h: bv8)
    ensures HasZeroByte(Long(a, b, c, d, e, f, g, h)) <==>
            a == 0 || b == 0 || c == 0 || d == 0 || e == 0 || f == 0 || g == 0 || h == 0
  {
  }

  lemma XorBytewise(a: bv8, b: bv8, c: bv8, d: bv8, e: bv8, f: bv8, g: bv8, h: bv8,
                    a': bv8, b': bv8, c': bv8, d': bv8, e': bv8, f': bv8, g': bv8, h': bv8)
    ensures XorLong(Long(a, b, c, d, e, f, g, h), Long(a', b', c', d', e', f', g', h')) ==
            Long(XorByte(a, a'), XorByte(b, b'), XorByte(c, c'), XorByte(d, d'),
                 XorByte(e, e'), XorByte(f, f'), XorByte(g, g'), XorByte(h, h'))
  {
  }

  lemma XorDecides(x: bv8, y: bv8)
    ensures XorByte(x, y) == 0 <==> x == y
  {
  }

  lemma LongInjective(a: bv8, b: bv8, c: bv8, d: bv8, e: bv8, f: bv8, g: bv8, h: bv8,
                      a': bv8, b': bv8, c': bv8, d': bv8, e': bv8, f': bv8, g': bv8, h': bv8)
    requires Long(a, b, c, d, e, f, g, h) == Long(a', b', c', d', e', f', g', h')
    ensures a == a' && b == b' && c == c' && d == d' && e == e' && f == f' && g == g' && h == h'
  {
  }

  /** Bytes j of the two pages agree exactly when those of the longs do. */
  lemma ByteAgrees(x: Byte, y: Byte)
    ensures XorByte(Bits(x), Bits(y)) == 0 <==> x == y
  {
    hide Bits, XorByte;
    BitsDecide(x, y);
    XorDecides(Bits(x), Bits(y));
  }

  /** Comparing longs compares their bytes. */
  lemma SameLongExactly(a: seq<Byte>, b: seq<Byte>, i: nat)
    requires |a| == |b| && i + LONG <= |a|
    ensures LongAt(a, i) == LongAt(b, i) <==> forall j :: i <= j < i + LONG ==> a[j] == b[j]
  {
    hide Bits, Long;
    if LongAt(a, i) == LongAt(b, i) {
      LongInjective(Bits(a[i]), Bits(a[i + 1]), Bits(a[i + 2]), Bits(a[i + 3]), Bits(a[i + 4]), Bits(a[i + 5]),
                    Bits(a[i + 6]), Bits(a[i + 7]),
                    Bits(b[i]), Bits(b[i + 1]), Bits(b[i + 2]), Bits(b[i + 3]), Bits(b[i + 4]), Bits(b[i + 5]),
                    Bits(b[i + 6]), Bits(b[i + 7]));
      forall j | i <= j < i + LONG
        ensures a[j] == b[j]
      {
        BitsDecide(a[j], b[j]);
      }
    }
  }

  /** The test of the loop over changed longs: some byte of the long at i is unchanged. */
  lemma TrickIsExact(a: seq<Byte>, b: seq<Byte>, i: nat)
    requires |a| == |b| && i + LONG <= |a|
    ensures HasZeroByte(XorLong(LongAt(a, i), LongAt(b, i))) <==> exists j :: i <= j < i + LONG && a[j] == b[j]
  {
    hide Bits, Long, XorByte, XorLong, HasZeroByte;
    XorBytewise(Bits(a[i]), Bits(a[i + 1]), Bits(a[i + 2]), Bits(a[i + 3]), Bits(a[i + 4]), Bits(a[i + 5]),
                Bits(a[i + 6]), Bits(a[i + 7]),
                Bits(b[i]), Bits(b[i + 1]), Bits(b[i + 2]), Bits(b[i + 3]), Bits(b[i + 4]), Bits(b[i + 5]),
                Bits(b[i + 6]), Bits(b[i + 7]));
    ZeroByteTrick(XorByte(Bits(a[i]), Bits(b[i])), XorByte(Bits(a[i + 1]), Bits(b[i + 1])),
                  XorByte(Bits(a[i + 2]), Bits(b[i + 2])), XorByte(Bits(a[i + 3]), Bits(b[i + 3])),
                  XorByte(Bits(a[i + 4]), Bits(b[i + 4])), XorByte(Bits(a[i + 5]), Bits(b[i + 5])),
                  XorByte(Bits(a[i + 6]), Bits(b[i + 6])), XorByte(Bits(a[i + 7]), Bits(b[i + 7])));
    forall j | i <= j < i + LONG
      ensures XorByte(Bits(a[j]), Bits(b[j])) == 0 <==> a[j] == b[j]
    {
      ByteAgrees(a[j], b[j]);
    }
  }

  lemma OneByteLess(n: nat)
    requires n % LONG != 0
    ensures 0 < n && (n - 1) % LONG == n % LONG - 1
  {
  }

  lemma OneLongLess(n: nat)
    requires n % LONG == 0 && 0 < n
    ensures LONG <= n && (n - LONG) % LONG == 0
  {
  }

  /** The equal longs from start on. */
  method EqualLongs(prev: seq<Byte>, page: seq<Byte>, start: nat) returns (i: nat)
    requires |prev| == |page| && start <= |page| && (|page| - start) % LONG == 0
    ensures start <= i <= |page| && forall j :: start <= j < i ==> prev[j] == page[j]
  {
    hide LongAt;
    i := start;
    ghost var left: nat := |page| - start;
    while i < |page| && LongAt(prev, i) == LongAt(page, i)
      invariant start <= i <= |page| && left == |page| - i && left % LONG == 0
      invariant forall j :: start <= j < i ==> prev[j] == page[j]
      decreases left
    {
      OneLongLess(left);
      SameLongExactly(prev, page, i);
      i := i + LONG;
      left := left - LONG;
    }
  }

  /** The run of equal bytes from i: bytes up to a long boundary, then whole longs, then bytes. */
  method EqualRun(prev: seq<Byte>, page: seq<Byte>, start: nat) returns (i: nat)
    requires |prev| == |page| && |page| % LONG == 0 && start <= |page|
    ensures i == RunEnd(prev, page, start, true)
  {
    hide RunEnd;
    i := start;
    ghost var left: nat := |page| - i;
    var res := (|page| - i) % LONG;
    while res != 0 && prev[i] == page[i]
      invariant start <= i <= |page| && left == |page| - i && 0 <= res == left % LONG
      invariant forall j :: start <= j < i ==> prev[j] == page[j]
      decreases res
    {
      OneByteLess(left);
      i := i + 1;
      res := res - 1;
      left := left - 1;
    }
    if res == 0 {
      i := EqualLongs(prev, page, i);
      while i < |page| && prev[i] == page[i]
        invariant start <= i <= |page|
        invariant forall j :: start <= j < i ==> prev[j] == page[j]
        decreases |page| - i
      {
        i := i + 1;
      }
    }
    RunEndUnique(prev, page, start, true, i);
  }

  /** The end of a changed run within the long at i. */
  method FirstSame(prev: seq<Byte>, page: seq<Byte>, start: nat) returns (i: nat)
    requires |prev| == |page| && exists j :: start <= j < |page| && prev[j] == page[j]
    ensures start <= i < |page| && prev[i] == page[i] && forall j :: start <= j < i ==> prev[j] != page[j]
  {
    ghost var stop :| start <= stop < |page| && prev[stop] == page[stop];
    i := start;
    while prev[i] != page[i]
      invariant start <= i <= stop && forall j :: start <= j < i ==> prev[j] != page[j]
      decreases stop - i
    {
      i := i + 1;
    }
  }

  /** The changed bytes from start on, a long at a time. */
  method ChangedLongs(prev: seq<Byte>, page: seq<Byte>, start: nat) returns (i: nat)
    requires |prev| == |page| && start <= |page| && (|page| - start) % LONG == 0
    ensures start <= i <= |page| && (i < |page| ==> prev[i] == page[i]) &&
            forall j :: start <= j < i ==> prev[j] != page[j]
  {
    hide LongAt, XorLong, HasZeroByte;
    i := start;
    ghost var left: nat := |page| - start;
    while i < |page|
      invariant start <= i <= |page| && left == |page| - i && left % LONG == 0
      invariant forall j :: start <= j < i ==> prev[j] != page[j]
      decreases left
    {
      OneLongLess(left);
      TrickIsExact(prev, page, i);
      if HasZeroByte(XorLong(LongAt(prev, i), LongAt(page, i))) {
        i := FirstSame(prev, page, i);
        break;
      }
      i := i + LONG;
      left := left - LONG;
    }
  }

  /** The run of changed bytes from i. */
  method ChangedRun(prev: seq<Byte>, page: seq<Byte>, start: nat) returns (i: nat)
    requires |prev| == |page| && |page| % LONG == 0 && start <= |page|
    ensures i == RunEnd(prev, page, start, false)
  {
    hide RunEnd;
    i := start;
    ghost var left: nat := |page| - i;
    var res := (|page| - i) % LONG;
    while res != 0 && prev[i] != page[i]
      invariant start <= i <= |page| && left == |page| - i && 0 <= res == left % LONG
      invariant forall j :: start <= j < i ==> prev[j] != page[j]
      decreases res
    {
      OneByteLess(left);
      i := i + 1;
      res := res - 1;
      left := left - 1;
    }
    if res == 0 {
      i := ChangedLongs(prev, page, i);
    }
    RunEndUnique(prev, page, start, false, i);
  }

  /** Whether the code fits as the code tests it: a page that ends with an unchanged byte needs two
      bytes of room beyond its code, which the last turn of the loop asks for and does not use. */
  predicate Fits(prev: seq<Byte>, page: seq<Byte>, dlen: nat)
    requires |prev| == |page| <= MAX_LENGTH
  {
    |Encoded(prev, page, 0)| + (if EndsSame(prev, page) then 2 else 0) <= dlen
  }

  predicate EndsSame(prev: seq<Byte>, page: seq<Byte>)
    requires |prev| == |page|
  {
    page != [] && prev[|page| - 1] == page[|page| - 1]
  }

  /** xbzrle_encode_buffer. A result of at least 0 is the length of the whole code, 0 for an
      unchanged page; -1 means exactly that the code does not fit. */
  method EncodeBuffer(prev: seq<Byte>, page: seq<Byte>, dlen: nat) returns (ret: int, dst: seq<Byte>)
    requires |prev| == |page| <= MAX_LENGTH && |page| % LONG == 0
    ensures ret == -1 || (dst == Encoded(prev, page, 0) && ret == |dst| <= dlen)
    ensures ret == -1 <==> !Fits(prev, page, dlen)
  {
    hide Encoded, RunEnd, EndsSame, SoFar;
    var i := 0;
    dst := [];
    SoFarStart(prev, page);
    while i < |page|
      invariant i <= |page| && |dst| <= dlen && SoFar(prev, page, i, dst)
      decreases |page| - i
    {
      SoFarEnds(prev, page, i, dst);
      if |dst| + 2 > dlen {
        return -1, dst;
      }
      var z := EqualRun(prev, page, i);
      // buffer unchanged
      if z - i == |page| {
        return 0, dst;
      }
      // skip last zero run
      if z == |page| {
        return |dst|, dst;
      }
      SoFarNext(prev, page, i, dst);
      var fits, n;
      fits, dst, n := PutRun(prev, page, i, z, dst, dlen);
      if !fits {
        return -1, dst;
      }
      i := n;
    }
    SoFarDone(prev, page, dst);
    ret := |dst|;
  }

  /** The two lengths and the changed bytes of one turn of the loop. */
  method PutRun(prev: seq<Byte>, page: seq<Byte>, i: nat, z: nat, before: seq<Byte>, dlen: nat)
    returns (fits: bool, dst: seq<Byte>, n: nat)
    requires |prev| == |page| <= MAX_LENGTH && |page| % LONG == 0 && i <= z < |page| && prev[z] != page[z]
    ensures n == RunEnd(prev, page, z, false) && z < n <= |page|
    ensures fits <==> |before| + |Length(z - i)| + |Length(n - z)| + (n - z) <= dlen
    ensures fits ==> dst == before + Length(z - i) + Length(n - z) + page[z..n]
  {
    hide Length, RunEnd;
    dst := before + Length(z - i);
    n := ChangedRun(prev, page, z);
    if |dst| + 2 > dlen {
      return false, dst, n;
    }
    dst := dst + Length(n - z);
    if |dst| + (n - z) > dlen {
      return false, dst, n;
    }
    dst := dst + page[z..n];
    fits := true;
  }

  /** dst is the code of the page up to i, where a changed run has just ended. */
  ghost predicate SoFar(prev: seq<Byte>, page: seq<Byte>, i: nat, dst: seq<Byte>)
    requires |prev| == |page| <= MAX_LENGTH && i <= |page|
  {
    Encoded(prev, page, 0) == dst + Encoded(prev, page, i) && (0 < i == |page| ==> !EndsSame(prev, page))
  }

  lemma SoFarStart(prev: seq<Byte>, page: seq<Byte>)
    requires |prev| == |page| <= MAX_LENGTH
    ensures SoFar(prev, page, 0, [])
  {
    hide Encoded;
    assert [] + Encoded(prev, page, 0) == Encoded(prev, page, 0);
  }

  /** At the head of the loop: the code is complete exactly if the rest of the page is unchanged,
      and otherwise at least three bytes of it are missing. */
  lemma SoFarEnds(prev: seq<Byte>, page: seq<Byte>, i: nat, dst: seq<Byte>)
    requires |prev| == |page| <= MAX_LENGTH && i < |page| && SoFar(prev, page, i, dst)
    ensures var z, code := RunEnd(prev, page, i, true), Encoded(prev, page, 0);
            if z == |page| then code == dst && EndsSame(prev, page) else |dst| + 3 <= |code|
    ensures RunEnd(prev, page, i, true) - i == |page| ==> dst == []
  {
    hide Encoded, Length, RunEnd;
    EncodedUnfold(prev, page, i);
    if RunEnd(prev, page, i, true) - i == |page| {
      assert i == 0 && Encoded(prev, page, 0) == [];
    }
  }

  /** One more turn. */
  lemma SoFarNext(prev: seq<Byte>, page: seq<Byte>, i: nat, dst: seq<Byte>)
    requires |prev| == |page| <= MAX_LENGTH && i < |page| && SoFar(prev, page, i, dst) &&
             RunEnd(prev, page, i, true) < |page|
    ensures var z := RunEnd(prev, page, i, true); var n := RunEnd(prev, page, z, false);
            z < n && SoFar(prev, page, n, dst + Length(z - i) + Length(n - z) + page[z..n]) &&
            |dst| + |Length(z - i)| + |Length(n - z)| + (n - z) <= |Encoded(prev, page, 0)|
  {
    hide Encoded, Length, RunEnd;
    EncodedUnfold(prev, page, i);
    var z := RunEnd(prev, page, i, true);
    var n := RunEnd(prev, page, z, false);
    Regroup(dst, Length(z - i), Length(n - z), page[z..n], Encoded(prev, page, n));
  }

  lemma SoFarDone(prev: seq<Byte>, page: seq<Byte>, dst: seq<Byte>)
    requires |prev| == |page| <= MAX_LENGTH && SoFar(prev, page, |page|, dst)
    ensures dst == Encoded(prev, page, 0) && !EndsSame(prev, page)
  {
    hide Encoded, RunEnd;
    EncodedUnfold(prev, page, |page|);
  }

  lemma Regroup(a: seq<Byte>, b: seq<Byte>, c: seq<Byte>, d: seq<Byte>, e: seq<Byte>)
    ensures a + (b + c + d + e) == a + b + c + d + e
  {
  }

  lemma EncodedUnfold(prev: seq<Byte>, page: seq<Byte>, i: nat)
    requires |prev| == |page| <= MAX_LENGTH && i <= |page|
    ensures var z := RunEnd(prev, page, i, true);
            var n := RunEnd(prev, page, z, false);
            if z == |page| then Encoded(prev, page, i) == []
            else z < n && Encoded(prev, page, i) == Length(z - i) + Length(n - z) + page[z..n] + Encoded(prev, page, n)
  {
    hide Length, RunEnd;
  }

  // ---------- xbzrle_decode_buffer ----------

  /** The lengths of a pair of runs, each with the tests the code makes. */
  method ReadRuns(src: seq<Byte>, i: nat, size: nat, d: nat) returns (r: Option<(nat, nat, nat)>)
    requires i <= |src|
    ensures r == Runs(src[i..], i == 0, size, d)
  {
    hide ReadLength;
    if |src| - i < 2 {
      return None;
    }
    var z := ReadLength(src[i..]);
    if z.None? || (i != 0 && z.value.0 == 0) {
      return None;
    }
    var j, e := i + z.value.1, d + z.value.0;
    assert src[i..][z.value.1..] == src[j..];
    if e > size || |src| - j < 2 {
      return None;
    }
    var q := ReadLength(src[j..]);
    if q.None? || q.value.0 == 0 {
      return None;
    }
    var k, n := j + q.value.1, q.value.0;
    if e + n > size || k + n > |src| {
      return None;
    }
    r := Some((e, k - i, n));
  }

  /** Decodes over the page held in dst; on success dst is the new page, and a malformed run leaves
      what the runs before it did. */
  method DecodeBuffer(src: seq<Byte>, dst: array<Byte>) returns (ret: int)
    modifies dst
    ensures var r := Decoded(src, true, old(dst[..]), 0);
            dst[..] == r.page && ret == if r.Done? then r.length else -1
  {
    hide Runs, Decoded;
    var i, d := 0, 0;
    ghost var goal := Decoded(src, true, dst[..], 0);
    assert src[0..] == src;
    while i < |src|
      invariant 0 <= i <= |src| && 0 <= d <= dst.Length
      invariant Decoded(src[i..], i == 0, dst[..], d) == goal
      decreases |src| - i
    {
      var r := ReadRuns(src, i, dst.Length, d);
      DecodedStep(src[i..], i == 0, dst[..], d);
      if r.None? {
        return -1;
      }
      var (e, at, n) := r.value;
      var k := i + at;
      assert src[i..][at..at + n] == src[k..k + n] && src[i..][at + n..] == src[k + n..];
      CopyBytes(dst, e, src[k..k + n]);
      d := e + n;
      i := k + n;
    }
    assert src[i..] == [];
    DecodedEmpty(i == 0, dst[..], d);
    ret := d;
  }

  method CopyBytes(dst: array<Byte>, at: nat, bytes: seq<Byte>)
    requires at + |bytes| <= dst.Length
    modifies dst
    ensures dst[..] == old(dst[..at]) + bytes + old(dst[at + |bytes|..])
  {
    for n := 0 to |bytes|
      invariant forall k :: 0 <= k < dst.Length ==> dst[k] == if at <= k < at + n then bytes[k - at] else old(dst[k])
    {
      dst[at + n] := bytes[n];
    }
  }

  /** Both routines together, on pages of any size the length code allows. */
  method EncodeThenDecode(prev: array<Byte>, page: seq<Byte>, dlen: nat) returns (ret: int)
    requires prev.Length == |page| <= MAX_LENGTH && |page| % LONG == 0
    modifies prev
    ensures ret == -1 ==> prev[..] == old(prev[..])
    ensures ret != -1 ==> prev[..] == page
  {
    var n, code := EncodeBuffer(prev[..], page, dlen);
    if n == -1 {
      return -1;
    }
    RoundTrip(prev[..], page);
    ret := DecodeBuffer(code, prev);
  }
}
