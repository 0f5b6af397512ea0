// Byte-granular access to a device that is read and written in 512-byte sectors (block.c).
module ByteIo {
  import opened Basics

  predicate Whole(ss: seq<seq<Byte>>) { forall i :: 0 <= i < |ss| ==> |ss[i]| == SECTOR }

  /** The device as a flat array of bytes. */
  function Flat(ss: seq<seq<Byte>>): (f: seq<Byte>)
    requires Whole(ss)
    ensures |f| == |ss| * SECTOR
  {
    seq(|ss| * SECTOR, x requires 0 <= x < |ss| * SECTOR => ss[x / SECTOR][x % SECTOR])
  }

  function Overwrite(s: seq<Byte>, off: nat, b: seq<Byte>): (r: seq<Byte>)
    requires off + |b| <= |s|
    ensures |r| == |s| && forall x :: 0 <= x < |s| ==> r[x] == if off <= x < off + |b| then b[x - off] else s[x]
  {
    s[..off] + b + s[off + |b|..]
  }

  lemma OverwriteTwice(s: seq<Byte>, off: nat, p: seq<Byte>, q: seq<Byte>)
    requires off + |p| + |q| <= |s|
    ensures Overwrite(Overwrite(s, off, p), off + |p|, q) == Overwrite(s, off, p + q)
  {
  }

  lemma SliceConcat(s: seq<Byte>, a: nat, b: nat, c: nat)
    requires a <= b <= c <= |s|
    ensures s[a..b] + s[b..c] == s[a..c]
  {
  }

  lemma OneMore(ss: seq<seq<Byte>>, i: nat)
    requires Whole(ss) && i < |ss|
    ensures Flat(ss)[i * SECTOR..(i + 1) * SECTOR] == ss[i]
  {
  }

  lemma PutOne(ss: seq<seq<Byte>>, i: nat, b: seq<Byte>)
    requires Whole(ss) && i < |ss| && |b| == SECTOR
    ensures Whole(ss[i := b]) && Flat(ss[i := b]) == Overwrite(Flat(ss), i * SECTOR, b)
  {
  }

  /** The distance to the next sector boundary. */
  function ToBoundary(offset: nat): (len: nat)
    ensures len < SECTOR && (offset % SECTOR + len == SECTOR || (len == 0 && offset % SECTOR == 0))
  {
    (SECTOR - offset) % SECTOR
  }

  class Device {
    var sectors: seq<seq<Byte>>

    ghost predicate Valid()
      reads this
    {
      Whole(sectors)
    }

    ghost function Bytes(): seq<Byte>
      requires Valid()
      reads this
    {
      Flat(sectors)
    }

    /** bdrv_read */
    method Read(sector: nat, nb: nat) returns (ret: int, buf: seq<Byte>)
      requires Valid()
      ensures ret == if sector + nb <= |sectors| then 0 else -EIO
      ensures ret == 0 ==> buf == Bytes()[sector * SECTOR..(sector + nb) * SECTOR]
    {
      hide Flat;
      buf := [];
      if sector + nb > |sectors| {
        return -EIO, [];
      }
      for i := 0 to nb
        invariant buf == Bytes()[sector * SECTOR..(sector + i) * SECTOR]
      {
        OneMore(sectors, sector + i);
        SliceConcat(Bytes(), sector * SECTOR, (sector + i) * SECTOR, (sector + i + 1) * SECTOR);
        buf := buf + sectors[sector + i];
      }
      ret := 0;
    }

    /** bdrv_write */
    method Write(sector: nat, buf: seq<Byte>, nb: nat) returns (ret: int)
      requires Valid() && |buf| == nb * SECTOR
      modifies this
      ensures Valid() && |sectors| == old(|sectors|) && ret == if sector + nb <= |sectors| then 0 else -EIO
      ensures Bytes() == if ret == 0 then Overwrite(old(Bytes()), sector * SECTOR, buf) else old(Bytes())
    {
      hide Flat, Overwrite;
      if sector + nb > |sectors| {
        return -EIO;
      }
      assert Bytes() == Overwrite(Bytes(), sector * SECTOR, buf[..0]);
      for i := 0 to nb
        invariant Valid() && |sectors| == old(|sectors|)
        invariant Bytes() == Overwrite(old(Bytes()), sector * SECTOR, buf[..i * SECTOR])
      {
        var one := buf[i * SECTOR..(i + 1) * SECTOR];
        PutOne(sectors, sector + i, one);
        OverwriteTwice(old(Bytes()), sector * SECTOR, buf[..i * SECTOR], one);
        SliceConcat(buf, 0, i * SECTOR, (i + 1) * SECTOR);
        sectors := sectors[sector + i := one];
      }
      assert buf[..nb * SECTOR] == buf;
      ret := 0;
    }

    /** bdrv_pread: the slice asked for, or an error exactly when it leaves the device. */
    method Pread(offset: nat, count1: int) returns (ret: int, buf: seq<Byte>)
      requires Valid()
      ensures ret == if count1 <= 0 || offset + count1 <= |Bytes()| then count1 else -EIO
      ensures 0 < ret ==> buf == Bytes()[offset..offset + ret]
      ensures ret <= 0 ==> buf == []
    {
      hide Flat, ToBoundary, Whole;
      buf := [];
      var count := count1;
      var len := ToBoundary(offset);
      if len > count {
        len := count;
      }
      var sector := offset / SECTOR;
      if len > 0 {
        ret, buf := PickSector(sector, offset % SECTOR, len);
        if ret < 0 {
          return ret, [];
        }
        count := count - len;
        if count == 0 {
          return count1, buf;
        }
        sector := sector + 1;
      }
      if count <= 0 {
        return count1, [];
      }
      assert sector * SECTOR == offset + |buf|;
      assert offset <= |Bytes()| ==> buf == Bytes()[offset..sector * SECTOR];
      var r, rest := ReadRest(sector, count);
      if r < 0 {
        return r, [];
      }
      SliceConcat(Bytes(), offset, sector * SECTOR, sector * SECTOR + count);
      return count1, buf + rest;
    }

    /** Read a sector and keep part of it. */
    method PickSector(sector: nat, at: nat, len: nat) returns (ret: int, part: seq<Byte>)
      requires Valid() && at + len <= SECTOR
      ensures ret == if sector < |sectors| then 0 else -EIO
      ensures ret == 0 ==> part == Bytes()[sector * SECTOR + at..sector * SECTOR + at + len]
    {
      hide Flat;
      var tmp;
      part := [];
      ret, tmp := Read(sector, 1);
      if ret == 0 {
        part := tmp[at..at + len];
      }
    }

    /** The whole sectors of a read, and what is needed of the last one. */
    method ReadRest(first: nat, count1: nat) returns (ret: int, buf: seq<Byte>)
      requires Valid() && 0 < count1
      ensures ret == if first * SECTOR + count1 <= |Bytes()| then 0 else -EIO
      ensures ret == 0 ==> buf == Bytes()[first * SECTOR..first * SECTOR + count1]
    {
      hide Flat;
      var sector, count := first, count1;
      buf := [];
      var nb := count / SECTOR;
      if nb > 0 {
        ret, buf := Read(sector, nb);
        if ret < 0 {
          return;
        }
        sector := sector + nb;
        count := count - nb * SECTOR;
      }
      if count > 0 {
        var part;
        ret, part := PickSector(sector, 0, count);
        if ret < 0 {
          return;
        }
        SliceConcat(Bytes(), first * SECTOR, sector * SECTOR, sector * SECTOR + count);
        buf := buf + part;
      }
      ret := 0;
    }

    /** bdrv_pwrite: on success the slice is overwritten and nothing else changes; on an error, which
        comes exactly when the slice leaves the device, a proper prefix may have been written. */
    method Pwrite(offset: nat, buf: seq<Byte>) returns (ret: int)
      requires Valid()
      modifies this
      ensures Valid() && |sectors| == old(|sectors|)
      ensures ret == if buf == [] || offset + |buf| <= |Bytes()| then |buf| else -EIO
      ensures ret > 0 ==> Bytes() == Overwrite(old(Bytes()), offset, buf)
      ensures ret == 0 ==> Bytes() == old(Bytes())
      ensures ret < 0 ==> exists k: nat :: k < |buf| && Written(old(Bytes()), offset, buf, k, Bytes())
    {
      hide Flat, Overwrite, Written;
      ghost var s := Bytes();
      NoneWritten(s, offset, buf);
      var len := ToBoundary(offset);
      if len > |buf| {
        len := |buf|;
      }
      var sector, done := offset / SECTOR, 0;
      if len > 0 {
        ret := PatchSector(sector, offset % SECTOR, buf[..len]);
        if ret < 0 {
          return;
        }
        WrittenMore(s, offset, buf, 0, len, s, Bytes());
        if len == |buf| {
          AllWritten(s, offset, buf, Bytes());
          return |buf|;
        }
        sector, done := sector + 1, len;
      }
      if done == |buf| {
        return 0;
      }
      ret := WriteRest(sector, s, offset, buf, done);
      if ret >= 0 {
        AllWritten(s, offset, buf, Bytes());
      }
    }

    /** The whole sectors of a write, and the last, partial one. */
    method WriteRest(first: nat, ghost s: seq<Byte>, ghost offset: nat, buf: seq<Byte>, from: nat) returns (ret: int)
      requires Valid() && from < |buf| && |s| == |Bytes()| && first * SECTOR == offset + from
      requires Written(s, offset, buf, from, Bytes())
      modifies this
      ensures Valid() && |sectors| == old(|sectors|)
      ensures ret == if offset + |buf| <= |s| then |buf| else -EIO
      ensures ret >= 0 ==> Written(s, offset, buf, |buf|, Bytes())
      ensures ret < 0 ==> exists k: nat :: k < |buf| && Written(s, offset, buf, k, Bytes())
    {
      hide Flat, Overwrite, Written;
      var sector, done := first, from;
      var nb := (|buf| - done) / SECTOR;
      if nb > 0 {
        ghost var before := Bytes();
        ret := Write(sector, buf[done..done + nb * SECTOR], nb);
        if ret < 0 {
          return;
        }
        WrittenMore(s, offset, buf, done, nb * SECTOR, before, Bytes());
        sector, done := sector + nb, done + nb * SECTOR;
      }
      if done < |buf| {
        ret := WriteTail(sector, s, offset, buf, done);
        if ret < 0 {
          return;
        }
      }
      ret := |buf|;
    }

    /** The last, partial sector of a write. */
    method WriteTail(sector: nat, ghost s: seq<Byte>, ghost offset: nat, buf: seq<Byte>, done: nat) returns (ret: int)
      requires Valid() && done < |buf| <= done + SECTOR && |s| == |Bytes()| && sector * SECTOR == offset + done
      requires Written(s, offset, buf, done, Bytes())
      modifies this
      ensures Valid() && |sectors| == old(|sectors|)
      ensures ret == if offset + |buf| <= |s| then 0 else -EIO
      ensures Written(s, offset, buf, if ret == 0 then |buf| else done, Bytes())
    {
      hide Flat, Overwrite, Written;
      ghost var before := Bytes();
      ret := PatchSector(sector, 0, buf[done..]);
      if ret == 0 {
        assert buf[done..] == buf[done..done + (|buf| - done)];
        WrittenMore(s, offset, buf, done, |buf| - done, before, Bytes());
      }
    }

    /** Read a sector, overwrite part of it, write it back. */
    method PatchSector(sector: nat, at: nat, part: seq<Byte>) returns (ret: int)
      requires Valid() && at + |part| <= SECTOR
      modifies this
      ensures Valid() && |sectors| == old(|sectors|) && ret == if sector < |sectors| then 0 else -EIO
      ensures Bytes() == if ret == 0 then Overwrite(old(Bytes()), sector * SECTOR + at, part) else old(Bytes())
    {
      hide Flat, Overwrite, Whole, Patched;
      var r, tmp := Read(sector, 1);
      if r < 0 {
        return r;
      }
      ghost var s := Bytes();
      PatchIs(s, sector, at, part, tmp);
      ret := Write(sector, Patched(tmp, at, part), 1);
    }

    /** Reading back what was just written gives the data written. */
    method WriteThenRead(offset: nat, buf: seq<Byte>) returns (ret: int, back: seq<Byte>)
      requires Valid()
      modifies this
      ensures Valid() && ret == if buf == [] || offset + |buf| <= |Bytes()| then |buf| else -EIO
      ensures ret >= 0 ==> back == buf
    {
      hide Flat;
      ret := Pwrite(offset, buf);
      back := [];
      if ret >= 0 {
        ret, back := Pread(offset, |buf|);
      }
    }
  }

  /** The first done bytes of buf have been put at off into s, giving now. */
  ghost predicate Written(s: seq<Byte>, off: nat, buf: seq<Byte>, done: nat, now: seq<Byte>) {
    done <= |buf| && if done == 0 then now == s else off + done <= |s| && now == Overwrite(s, off, buf[..done])
  }

  lemma NoneWritten(s: seq<Byte>, off: nat, buf: seq<Byte>)
    ensures Written(s, off, buf, 0, s)
  {
  }

  lemma WrittenMore(s: seq<Byte>, off: nat, buf: seq<Byte>, done: nat, n: nat, before: seq<Byte>, now: seq<Byte>)
    requires Written(s, off, buf, done, before) && done + n <= |buf| && off + done + n <= |s| == |before|
    requires now == Overwrite(before, off + done, buf[done..done + n])
    ensures Written(s, off, buf, done + n, now)
  {
    if done == 0 {
      assert n == 0 ==> now == s;
    } else {
      OverwriteTwice(s, off, buf[..done], buf[done..done + n]);
      SliceConcat(buf, 0, done, done + n);
    }
  }

  lemma AllWritten(s: seq<Byte>, off: nat, buf: seq<Byte>, now: seq<Byte>)
    requires buf != [] && Written(s, off, buf, |buf|, now)
    ensures off + |buf| <= |s| && now == Overwrite(s, off, buf)
  {
    assert buf[..|buf|] == buf;
  }

  /** A sector with part of it replaced. */
  function Patched(tmp: seq<Byte>, at: nat, part: seq<Byte>): (whole: seq<Byte>)
    requires at + |part| <= |tmp|
    ensures |whole| == |tmp|
  {
    tmp[..at] + part + tmp[at + |part|..]
  }

  lemma PatchIs(s: seq<Byte>, sector: nat, at: nat, part: seq<Byte>, tmp: seq<Byte>)
    requires at + |part| <= SECTOR && (sector + 1) * SECTOR <= |s| && tmp == s[sector * SECTOR..(sector + 1) * SECTOR]
    ensures |tmp| == SECTOR && |Patched(tmp, at, part)| == SECTOR
    ensures Overwrite(s, sector * SECTOR, Patched(tmp, at, part)) == Overwrite(s, sector * SECTOR + at, part)
  {
  }
}
