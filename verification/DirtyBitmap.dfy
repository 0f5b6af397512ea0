// The dirty bitmap of a block device (block.c): one bit per chunk of 2048 sectors, packed into
// words, with a running count of the bits that are set.
module DirtyBitmap {
  import opened Basics
  import opened Words
  import opened BitOps

  /** C division: towards zero. */
  function Quotient(a: int, b: int): int
    requires 0 < b
  {
    if 0 <= a then a / b else -(-a / b)
  }

  function WordsFor(total: nat): nat { (total + CHUNK * BITS - 1) / (CHUNK * BITS) }

  lemma ChunkInBounds(total: nat, sector: nat)
    requires sector < total
    ensures sector / CHUNK < WordsFor(total) * BITS
  {
  }

  /** The bitmap has the fewest words whose bits stand for all chunks. */
  lemma WordsForLeast(total: nat, n: nat)
    ensures WordsFor(total) <= n <==> total <= n * (CHUNK * BITS)
  {
    var size := CHUNK * BITS;
    var q, r := (total + size - 1) / size, (total + size - 1) % size;
    assert total + size - 1 == q * size + r;
  }

  /** How many of the first n bits are set. */
  function Count(bits: seq<Word>, n: nat): (c: nat)
    requires n <= |bits| * BITS
    ensures c <= n
  {
    if n == 0 then 0 else Count(bits, n - 1) + if At(bits, n - 1) then 1 else 0
  }

  /** The bitmaps differ in bit k at most, which is v in the second. */
  ghost predicate OneBit(was: seq<Word>, now: seq<Word>, k: nat, v: bool) {
    |was| == |now| && k < |was| * BITS && At(now, k) == v &&
    forall j: nat :: j < |was| * BITS && j != k ==> (At(now, j) <==> At(was, j))
  }

  lemma {:induction false} CountOneBit(was: seq<Word>, now: seq<Word>, k: nat, v: bool, n: nat)
    requires OneBit(was, now, k, v) && n <= |was| * BITS
    ensures Count(now, n) == Count(was, n) + if k < n && v != At(was, k) then (if v then 1 else -1) else 0
    decreases n
  {
    hide At;
    if n > 0 {
      CountOneBit(was, now, k, v, n - 1);
      assert n - 1 != k ==> (At(now, n - 1) <==> At(was, n - 1));
    }
  }

  lemma {:induction false} CountZero(bits: seq<Word>, n: nat)
    requires n <= |bits| * BITS
    ensures Count(bits, n) == 0 <==> NoneSet(bits, 0, n)
    decreases n
  {
    hide At;
    if n > 0 {
      CountZero(bits, n - 1);
      assert NoneSet(bits, 0, n) <==> NoneSet(bits, 0, n - 1) && !At(bits, n - 1);
    }
  }

  lemma PutBit(bits: seq<Word>, k: nat, w: Word, v: bool)
    requires k < |bits| * BITS
    requires w == if v then With(bits[k / BITS], k % BITS) else Without(bits[k / BITS], k % BITS)
    ensures OneBit(bits, bits[k / BITS := w], k, v)
  {
    hide Bit, With, Without;
    var now := bits[k / BITS := w];
    forall j: nat | j < |bits| * BITS
      ensures At(now, j) <==> if j == k then v else At(bits, j)
    {
      BitWith(bits[k / BITS], k % BITS, j % BITS);
    }
  }

  class Device {
    const total: nat
    var dirtyBitmap: array?<Word>
    var dirtyCount: int

    ghost predicate Valid()
      reads this, if dirtyBitmap == null then {} else {dirtyBitmap}
    {
      (dirtyBitmap == null ==> dirtyCount == 0) &&
      (dirtyBitmap != null ==> dirtyBitmap.Length == WordsFor(total) &&
                               dirtyCount == Count(dirtyBitmap[..], dirtyBitmap.Length * BITS))
    }

    constructor (total: nat)
      ensures Valid() && this.total == total && dirtyBitmap == null
    {
      this.total, dirtyBitmap, dirtyCount := total, null, 0;
    }

    /** set_dirty_bitmap: the chunks the sectors lie in become dirty, or clean, no others change,
        and the count stays exact. Every word index is in bounds. */
    method SetDirtyBitmap(sector: nat, nb: nat, dirty: bool)
      requires Valid() && dirtyBitmap != null && sector < total && sector + nb <= total
      modifies this`dirtyCount, dirtyBitmap
      ensures Valid()
      ensures forall c: nat :: c < dirtyBitmap.Length * BITS ==>
                (At(dirtyBitmap[..], c) <==>
                 if sector / CHUNK <= c <= Quotient(sector + nb - 1, CHUNK) then dirty else old(At(dirtyBitmap[..], c)))
    {
      hide At, Count, Bit, With, Without, Test;
      var start, end := sector / CHUNK, Quotient(sector + nb - 1, CHUNK);
      ChunkInBounds(total, sector);
      ChunkInBounds(total, if nb == 0 then sector else sector + nb - 1);
      ghost var first := start;
      while start <= end
        invariant first <= start && dirtyBitmap.Length == WordsFor(total)
        invariant dirtyCount == Count(dirtyBitmap[..], dirtyBitmap.Length * BITS)
        invariant forall c: nat :: c < dirtyBitmap.Length * BITS ==>
            (At(dirtyBitmap[..], c) <==> if first <= c < start && c <= end then dirty else old(At(dirtyBitmap[..], c)))
      {
        FlipBit(start, dirty);
        start := start + 1;
      }
    }

    /** The body of the loop: test the bit, change it and the count together. */
    method FlipBit(c: nat, dirty: bool)
      requires dirtyBitmap != null && c < dirtyBitmap.Length * BITS
      requires dirtyCount == Count(dirtyBitmap[..], dirtyBitmap.Length * BITS)
      modifies this`dirtyCount, dirtyBitmap
      ensures OneBit(old(dirtyBitmap[..]), dirtyBitmap[..], c, dirty)
      ensures dirtyCount == Count(dirtyBitmap[..], dirtyBitmap.Length * BITS)
    {
      hide Bit, With, Without, Test, Count;
      ghost var was := dirtyBitmap[..];
      var idx, bit := c / BITS, c % BITS;
      var val := dirtyBitmap[idx];
      TestIsBit(val, bit);
      if dirty {
        if !Test(val, bit) {
          dirtyCount := dirtyCount + 1;
          val := With(val, bit);
          PutBit(was, c, val, true);
        }
      } else {
        if Test(val, bit) {
          dirtyCount := dirtyCount - 1;
          val := Without(val, bit);
          PutBit(was, c, val, false);
        }
      }
      dirtyBitmap[idx] := val;
      assert dirtyBitmap[..] == was[idx := val];
      CountOneBit(was, dirtyBitmap[..], c, dirty, dirtyBitmap.Length * BITS);
    }

    /** bdrv_set_dirty_tracking. Enabling it while it is on forgets the count but keeps the bits:
        the count is then right only if no bit was set. */
    method SetDirtyTracking(enable: bool)
      requires Valid()
      modifies this
      ensures (dirtyBitmap != null) == enable && dirtyCount == 0
      ensures enable && old(dirtyBitmap) != null ==>
                dirtyBitmap == old(dirtyBitmap) && (Valid() <==> old(dirtyCount) == 0)
      ensures !enable || old(dirtyBitmap) == null ==> Valid()
      ensures enable && old(dirtyBitmap) == null ==>
                fresh(dirtyBitmap) && NoneSet(dirtyBitmap[..], 0, dirtyBitmap.Length * BITS)
    {
      hide At, Count;
      dirtyCount := 0;
      if enable {
        if dirtyBitmap == null {
          dirtyBitmap := new Word[WordsFor(total)](_ => 0);
          BlankBits(dirtyBitmap[..]);
          CountZero(dirtyBitmap[..], dirtyBitmap.Length * BITS);
        }
      } else {
        dirtyBitmap := null;
      }
    }

    /** bdrv_get_dirty */
    method GetDirty(sector: nat) returns (r: bool)
      requires Valid()
      ensures dirtyBitmap == null || total <= sector ==> !r
      ensures dirtyBitmap != null && sector < total ==>
                sector / CHUNK < dirtyBitmap.Length * BITS && (r <==> At(dirtyBitmap[..], sector / CHUNK))
    {
      hide Bit, Test, Count;
      if dirtyBitmap != null && sector < total {
        ChunkInBounds(total, sector);
        var chunk := sector / CHUNK;
        TestIsBit(dirtyBitmap[chunk / BITS], chunk % BITS);
        return Test(dirtyBitmap[chunk / BITS], chunk % BITS);
      }
      return false;
    }

    /** bdrv_get_dirty_count: zero exactly when no sector is dirty. */
    method GetDirtyCount() returns (n: int)
      requires Valid()
      ensures n == dirtyCount && 0 <= n
      ensures dirtyBitmap != null ==> (n == 0 <==> NoneSet(dirtyBitmap[..], 0, dirtyBitmap.Length * BITS))
    {
      if dirtyBitmap != null {
        CountZero(dirtyBitmap[..], dirtyBitmap.Length * BITS);
      }
      n := dirtyCount;
    }
  }

  /** Tracking enabled twice with a write in between: chunk 0 is dirty and the count is 0. */
  method EnabledTwice() returns (dev: Device)
    ensures dev.dirtyBitmap != null && dev.dirtyBitmap.Length == 1 && At(dev.dirtyBitmap[..], 0) &&
            dev.dirtyCount == 0 && !dev.Valid()
  {
    hide At, Count;
    dev := new Device(1);
    dev.SetDirtyTracking(true);
    dev.SetDirtyBitmap(0, 1, true);
    assert At(dev.dirtyBitmap[..], 0);
    CountZero(dev.dirtyBitmap[..], dev.dirtyBitmap.Length * BITS);
    dev.SetDirtyTracking(true);
  }

  lemma BlankBits(bits: seq<Word>)
    requires forall i :: 0 <= i < |bits| ==> bits[i] == 0
    ensures NoneSet(bits, 0, |bits| * BITS)
  {
    hide Bit;
    forall k: nat | k < |bits| * BITS
      ensures !At(bits, k)
    {
      BitZero(k % BITS);
    }
  }
}
