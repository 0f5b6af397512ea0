// Several write requests submitted together (block.c): sorted by sector, folded into fewer
// requests where they touch, and completed through one shared callback record.
module Multiwrite {
  import opened Basics

  const IOV_MAX := 1024

  // ---------- scatter-gather lists (cutils.c) ----------

  type Qiov = seq<seq<Byte>>

  function Flat(q: Qiov): seq<Byte> { if q == [] then [] else q[0] + Flat(q[1..]) }

  lemma {:induction false} FlatConcat(p: Qiov, q: Qiov)
    ensures Flat(p + q) == Flat(p) + Flat(q)
  {
    if p == [] {
      assert p + q == q;
    } else {
      assert (p + q)[1..] == p[1..] + q;
      FlatConcat(p[1..], q);
    }
  }

  function Min(a: int, b: int): int { if a < b then a else b }

  /** The pieces qemu_iovec_concat appends: up to n bytes after skipping off, empty pieces left out. */
  function Slice(q: Qiov, off: nat, n: nat): Qiov
    decreases |q|
  {
    if q == [] || n == 0 then []
    else if off < |q[0]| then
      var len := Min(|q[0]| - off, n);
      [q[0][off..off + len]] + Slice(q[1..], 0, n - len)
    else Slice(q[1..], off - |q[0]|, n)
  }

  lemma FlatCons(p: seq<Byte>, q: Qiov)
    ensures Flat([p] + q) == p + Flat(q)
  {
    assert ([p] + q)[1..] == q;
  }

  /** The first n elements of p + s after off, when p is not yet used up. */
  lemma SliceWithin(p: seq<Byte>, s: seq<Byte>, off: nat, n: nat)
    requires off < |p|
    ensures var len := Min(|p| - off, n);
            p[off..off + len] + s[0..Min(n - len, |s|)] == (p + s)[off..Min(off + n, |p + s|)]
  {
  }

  lemma SliceBeyond(p: seq<Byte>, s: seq<Byte>, off: nat, n: nat)
    requires |p| <= off <= |p| + |s|
    ensures s[off - |p|..Min(off - |p| + n, |s|)] == (p + s)[off..Min(off + n, |p + s|)]
  {
    var e := Min(off + n, |p + s|);
    assert e - |p| == Min(off - |p| + n, |s|);
    SecondPart(p, s, off, e);
  }

  lemma SecondPart(p: seq<Byte>, s: seq<Byte>, a: nat, b: nat)
    requires |p| <= a <= b <= |p| + |s|
    ensures (p + s)[a..b] == s[a - |p|..b - |p|]
  {
  }

  lemma SliceUnfold(q: Qiov, off: nat, n: nat)
    ensures Flat([]) == [] && (q != [] ==> Flat(q) == q[0] + Flat(q[1..]))
    ensures Slice(q, off, n) ==
            if q == [] || n == 0 then []
            else if off < |q[0]| then
              var len := Min(|q[0]| - off, n); [q[0][off..off + len]] + Slice(q[1..], 0, n - len)
            else Slice(q[1..], off - |q[0]|, n)
  {
  }

  lemma {:induction false} SliceIs(q: Qiov, off: nat, n: nat)
    requires off <= |Flat(q)|
    ensures Flat(Slice(q, off, n)) == Flat(q)[off..Min(off + n, |Flat(q)|)]
    ensures |Slice(q, off, n)| <= |q|
    decreases |q|
  {
    hide Flat, Slice;
    SliceUnfold(q, off, n);
    if q == [] || n == 0 {
      assert Flat(q)[off..off] == [];
    } else if off < |q[0]| {
      var len := Min(|q[0]| - off, n);
      SliceIs(q[1..], 0, n - len);
      FlatCons(q[0][off..off + len], Slice(q[1..], 0, n - len));
      SliceWithin(q[0], Flat(q[1..]), off, n);
    } else {
      SliceIs(q[1..], off - |q[0]|, n);
      SliceBeyond(q[0], Flat(q[1..]), off, n);
    }
  }

  /** qemu_iovec_concat, its loop over the source pieces. */
  method IovecConcat(dst: Qiov, src: Qiov, off: nat, n: nat) returns (r: Qiov)
    requires off <= |Flat(src)|
    ensures r == dst + Slice(src, off, n)
    ensures Flat(r) == Flat(dst) + Flat(src)[off..Min(off + n, |Flat(src)|)]
    ensures |r| <= |dst| + |src|
  {
    var i, done, skip := 0, 0, off;
    r := dst;
    while done < n && i < |src|
      invariant i <= |src| && done <= n && 0 <= skip
      invariant dst + Slice(src, off, n) == r + Slice(src[i..], skip, n - done)
      decreases |src| - i
    {
      assert src[i..][1..] == src[i + 1..];
      if skip < |src[i]| {
        var len := Min(|src[i]| - skip, n - done);
        r := r + [src[i][skip..skip + len]];
        done := done + len;
        skip := 0;
      } else {
        skip := skip - |src[i]|;
      }
      i := i + 1;
    }
    SliceIs(src, off, n);
    FlatConcat(dst, Slice(src, off, n));
  }

  // ---------- requests and what they do to a disk ----------

  datatype Request = Request(sector: nat, nbSectors: nat, qiov: Qiov)

  predicate WellFormed(r: Request) { |Flat(r.qiov)| == r.nbSectors * SECTOR }

  function Start(r: Request): nat { r.sector * SECTOR }

  function End(r: Request): nat { (r.sector + r.nbSectors) * SECTOR }

  predicate Covers(r: Request, x: nat) { Start(r) <= x < End(r) }

  function At(r: Request, x: nat): Byte
    requires WellFormed(r) && Covers(r, x)
  {
    Flat(r.qiov)[x - Start(r)]
  }

  predicate AllWellFormed(rs: seq<Request>) { forall i :: 0 <= i < |rs| ==> WellFormed(rs[i]) }

  predicate Sorted(rs: seq<Request>) { forall i, j :: 0 <= i < j < |rs| ==> rs[i].sector <= rs[j].sector }

  /** Byte x of the disk once the requests have been applied in order. */
  ghost function After(disk: nat -> Byte, rs: seq<Request>, x: nat): Byte
    requires AllWellFormed(rs)
  {
    if rs == [] then disk(x)
    else
      var last := rs[|rs| - 1];
      if Covers(last, x) then At(last, x) else After(disk, rs[..|rs| - 1], x)
  }

  lemma AfterAppend(disk: nat -> Byte, rs: seq<Request>, r: Request, x: nat)
    requires AllWellFormed(rs) && WellFormed(r)
    ensures AllWellFormed(rs + [r])
    ensures After(disk, rs + [r], x) == if Covers(r, x) then At(r, x) else After(disk, rs, x)
  {
    assert (rs + [r])[..|rs + [r]| - 1] == rs;
  }

  // ---------- folding ----------

  /** The two tests of multiwrite_merge. */
  predicate Mergeable(a: Request, b: Request) {
    b.sector <= a.sector + a.nbSectors && |a.qiov| + |b.qiov| + 1 <= IOV_MAX
  }

  /** The part of a before b starts, then all of b. */
  function Fold(a: Request, b: Request): Request
    requires a.sector <= b.sector
  {
    var q := Slice(a.qiov, 0, (b.sector - a.sector) * SECTOR) + Slice(b.qiov, 0, |Flat(b.qiov)|);
    Request(a.sector, |Flat(q)| / SECTOR, q)
  }

  lemma FoldIs(a: Request, b: Request)
    requires WellFormed(a) && WellFormed(b) && a.sector <= b.sector <= a.sector + a.nbSectors
    ensures WellFormed(Fold(a, b)) && Start(Fold(a, b)) == Start(a) && End(Fold(a, b)) == End(b)
    ensures Flat(Fold(a, b).qiov) == Flat(a.qiov)[..Start(b) - Start(a)] + Flat(b.qiov)
    ensures |Fold(a, b).qiov| <= |a.qiov| + |b.qiov|
  {
    hide Slice, Flat;
    var n := (b.sector - a.sector) * SECTOR;
    SliceIs(a.qiov, 0, n);
    SliceIs(b.qiov, 0, |Flat(b.qiov)|);
    assert Flat(b.qiov)[0..|Flat(b.qiov)|] == Flat(b.qiov);
    FlatConcat(Slice(a.qiov, 0, n), Slice(b.qiov, 0, |Flat(b.qiov)|));
    assert |Flat(Fold(a, b).qiov)| == n + b.nbSectors * SECTOR;
  }

  /** What is at x in the folded request: b where b is, a before b, nothing after b. */
  lemma FoldAt(a: Request, b: Request, x: nat)
    requires WellFormed(a) && WellFormed(b) && a.sector <= b.sector <= a.sector + a.nbSectors
    ensures WellFormed(Fold(a, b))
    ensures Covers(Fold(a, b), x) <==> Covers(b, x) || (Covers(a, x) && x < Start(b))
    ensures Covers(b, x) ==> At(Fold(a, b), x) == At(b, x)
    ensures Covers(a, x) && x < Start(b) ==> At(Fold(a, b), x) == At(a, x)
  {
    hide Fold, Flat;
    FoldIs(a, b);
  }

  /** The requests that remain after the first i sorted ones have been looked at. */
  function Merged(rs: seq<Request>, i: nat): (out: seq<Request>)
    requires Sorted(rs) && AllWellFormed(rs) && 1 <= i <= |rs|
    ensures 0 < |out| <= i && AllWellFormed(out) && out[|out| - 1].sector <= rs[i - 1].sector
  {
    if i == 1 then [rs[0]]
    else
      var out := Merged(rs, i - 1);
      var last := out[|out| - 1];
      if Mergeable(last, rs[i - 1]) then
        FoldIs(last, rs[i - 1]);
        out[..|out| - 1] + [Fold(last, rs[i - 1])]
      else out + [rs[i - 1]]
  }

  function LastOf(rs: seq<Request>, i: nat): (r: Request)
    requires Sorted(rs) && AllWellFormed(rs) && 1 <= i <= |rs|
    ensures WellFormed(r) && r.sector <= rs[i - 1].sector
  {
    var out := Merged(rs, i);
    out[|out| - 1]
  }

  /** Request k, when folded in, cuts off byte x of what had been gathered before it. */
  predicate Dropped(rs: seq<Request>, k: nat, x: nat)
    requires Sorted(rs) && AllWellFormed(rs) && 1 <= k < |rs|
  {
    Mergeable(LastOf(rs, k), rs[k]) && Covers(LastOf(rs, k), x) && End(rs[k]) <= x
  }

  predicate CoveredBetween(rs: seq<Request>, lo: nat, hi: nat, x: nat)
    requires hi <= |rs|
  {
    exists j :: lo < j < hi && Covers(rs[j], x)
  }

  /** Every byte that a fold cuts off is written again by a later request. */
  ghost predicate NothingLost(rs: seq<Request>)
    requires Sorted(rs) && AllWellFormed(rs)
  {
    forall k, x :: 1 <= k < |rs| && Dropped(rs, k, x) ==> CoveredBetween(rs, k, |rs|, x)
  }

  /** One more request: what the merged list holds at x, beside the unmerged one. */
  lemma MergedStep(disk: nat -> Byte, rs: seq<Request>, i: nat, x: nat)
    requires Sorted(rs) && AllWellFormed(rs) && 1 <= i < |rs|
    ensures After(disk, Merged(rs, i + 1), x) ==
            if Covers(rs[i], x) then At(rs[i], x)
            else if Dropped(rs, i, x) then After(disk, Merged(rs, i)[..|Merged(rs, i)| - 1], x)
            else After(disk, Merged(rs, i), x)
  {
    hide Merged, Fold, Sorted, Flat, At, After;
    var out, r := Merged(rs, i), rs[i];
    var last := LastOf(rs, i);
    var front := out[..|out| - 1];
    MergedNext(rs, i + 1);
    assert out == front + [last];
    AfterAppend(disk, front, last, x);
    if Mergeable(last, r) {
      FoldAt(last, r, x);
      AfterAppend(disk, front, Fold(last, r), x);
    } else {
      AfterAppend(disk, out, r, x);
    }
  }

  predicate DropsCovered(rs: seq<Request>, i: nat, x: nat)
    requires Sorted(rs) && AllWellFormed(rs) && i <= |rs|
  {
    forall k :: 1 <= k < i && Dropped(rs, k, x) ==> CoveredBetween(rs, k, i, x)
  }

  lemma MergedOne(rs: seq<Request>)
    requires Sorted(rs) && AllWellFormed(rs) && 1 <= |rs|
    ensures Merged(rs, 1) == rs[..1] == [rs[0]]
  {
  }

  lemma DropsStayCovered(rs: seq<Request>, i: nat, x: nat)
    requires Sorted(rs) && AllWellFormed(rs) && 1 < i <= |rs| && DropsCovered(rs, i, x) && !Covers(rs[i - 1], x)
    ensures DropsCovered(rs, i - 1, x) && !Dropped(rs, i - 1, x)
  {
    hide Flat, Fold, Merged, Covers, Dropped, Mergeable;
    forall k | 1 <= k < i && Dropped(rs, k, x)
      ensures k < i - 1 && CoveredBetween(rs, k, i - 1, x)
    {
      var j :| k < j < i && Covers(rs[j], x);
      assert j != i - 1;
    }
  }

  lemma {:induction false} MergeKeepsByte(disk: nat -> Byte, rs: seq<Request>, i: nat, x: nat)
    requires Sorted(rs) && AllWellFormed(rs) && 1 <= i <= |rs| && DropsCovered(rs, i, x)
    ensures AllWellFormed(rs[..i]) && After(disk, Merged(rs, i), x) == After(disk, rs[..i], x)
    decreases i
  {
    hide Flat, Fold, Merged, After, At, Covers, Dropped, DropsCovered, Mergeable;
    if i == 1 {
      MergedOne(rs);
      return;
    }
    assert rs[..i] == rs[..i - 1] + [rs[i - 1]];
    AfterAppend(disk, rs[..i - 1], rs[i - 1], x);
    MergedStep(disk, rs, i - 1, x);
    if !Covers(rs[i - 1], x) {
      DropsStayCovered(rs, i, x);
      MergeKeepsByte(disk, rs, i - 1, x);
    }
  }

  /** Folding preserves meaning: where nothing is lost, the remaining requests leave every disk as
      the sorted ones do. */
  lemma MergePreservesMeaning(disk: nat -> Byte, rs: seq<Request>, x: nat)
    requires Sorted(rs) && AllWellFormed(rs) && 1 <= |rs| && NothingLost(rs)
    ensures After(disk, Merged(rs, |rs|), x) == After(disk, rs, x)
  {
    assert rs[..|rs|] == rs;
    MergeKeepsByte(disk, rs, |rs|, x);
  }

  // ---------- the condition is exact ----------

  /** Same sectors and same piece lengths; the data may differ. */
  predicate SameShape(a: Request, b: Request) {
    a.sector == b.sector && a.nbSectors == b.nbSectors && SamePieces(a.qiov, b.qiov)
  }

  predicate SamePieces(p: Qiov, q: Qiov) { |p| == |q| && forall i :: 0 <= i < |p| ==> |p[i]| == |q[i]| }

  predicate SameShapes(rs: seq<Request>, ss: seq<Request>) {
    |rs| == |ss| && forall i :: 0 <= i < |rs| ==> SameShape(rs[i], ss[i])
  }

  lemma {:induction false} FlatLength(p: Qiov, q: Qiov)
    requires SamePieces(p, q)
    ensures |Flat(p)| == |Flat(q)|
  {
    if p != [] {
      FlatLength(p[1..], q[1..]);
    }
  }

  lemma {:induction false} SliceShape(p: Qiov, q: Qiov, off: nat, n: nat)
    requires SamePieces(p, q)
    ensures SamePieces(Slice(p, off, n), Slice(q, off, n))
    decreases |p|
  {
    if p == [] || n == 0 {
    } else if off < |p[0]| {
      SliceShape(p[1..], q[1..], 0, n - Min(|p[0]| - off, n));
    } else {
      SliceShape(p[1..], q[1..], off - |p[0]|, n);
    }
  }

  lemma FoldShape(a: Request, b: Request, c: Request, d: Request)
    requires SameShape(a, c) && SameShape(b, d) && a.sector <= b.sector
    ensures SameShape(Fold(a, b), Fold(c, d))
  {
    var n := (b.sector - a.sector) * SECTOR;
    FlatLength(b.qiov, d.qiov);
    SliceShape(a.qiov, c.qiov, 0, n);
    SliceShape(b.qiov, d.qiov, 0, |Flat(b.qiov)|);
    FlatLength(Fold(a, b).qiov, Fold(c, d).qiov);
  }

  lemma SameMergeable(a: Request, b: Request, c: Request, d: Request)
    requires SameShape(a, c) && SameShape(b, d)
    ensures Mergeable(a, b) <==> Mergeable(c, d)
  {
  }

  lemma PushShape(out: seq<Request>, out': seq<Request>, r: Request, s: Request)
    requires SameShapes(out, out') && SameShape(r, s)
    ensures SameShapes(out + [r], out' + [s])
  {
    hide SameShape;
  }

  lemma ReplaceShape(out: seq<Request>, out': seq<Request>, r: Request, s: Request)
    requires SameShapes(out, out') && 0 < |out| && SameShape(r, s)
    ensures |out'| == |out| && SameShapes(out[..|out| - 1] + [r], out'[..|out| - 1] + [s])
  {
    hide SameShape;
  }

  lemma ShapeAt(rs: seq<Request>, ss: seq<Request>, k: nat)
    requires SameShapes(rs, ss) && k < |rs|
    ensures |ss| == |rs| && SameShape(rs[k], ss[k])
  {
  }

  lemma MergedFirst(rs: seq<Request>, ss: seq<Request>)
    requires Sorted(rs) && AllWellFormed(rs) && Sorted(ss) && AllWellFormed(ss) && SameShapes(rs, ss) && 1 <= |rs|
    ensures SameShapes(Merged(rs, 1), Merged(ss, 1))
  {
    hide SameShape;
  }

  lemma RequestOk(rs: seq<Request>, k: nat)
    requires AllWellFormed(rs) && k < |rs|
    ensures WellFormed(rs[k])
  {
  }

  lemma MergedNext(rs: seq<Request>, i: nat)
    requires Sorted(rs) && AllWellFormed(rs) && 1 < i <= |rs|
    ensures LastOf(rs, i - 1).sector <= rs[i - 1].sector
    ensures var out, a := Merged(rs, i - 1), LastOf(rs, i - 1);
            Merged(rs, i) == if Mergeable(a, rs[i - 1]) then out[..|out| - 1] + [Fold(a, rs[i - 1])]
              else out + [rs[i - 1]]
  {
    hide Fold, Mergeable, AllWellFormed;
  }

  /** Which requests are folded, and where, depends on the shapes alone. */
  lemma {:induction false} MergedShape(rs: seq<Request>, ss: seq<Request>, i: nat)
    requires Sorted(rs) && AllWellFormed(rs) && Sorted(ss) && AllWellFormed(ss) && SameShapes(rs, ss) && 1 <= i <= |rs|
    ensures SameShapes(Merged(rs, i), Merged(ss, i))
    decreases i
  {
    hide Merged, Fold, SameShape, SameShapes, Mergeable, Sorted, AllWellFormed;
    if i == 1 {
      MergedFirst(rs, ss);
    } else {
      ShapeAt(rs, ss, i - 1);
      MergedShape(rs, ss, i - 1);
      var out, out' := Merged(rs, i - 1), Merged(ss, i - 1);
      var a, c := LastOf(rs, i - 1), LastOf(ss, i - 1);
      ShapeAt(out, out', |out| - 1);
      SameMergeable(a, rs[i - 1], c, ss[i - 1]);
      MergedNext(rs, i);
      MergedNext(ss, i);
      if Mergeable(a, rs[i - 1]) {
        FoldShape(a, rs[i - 1], c, ss[i - 1]);
        ReplaceShape(out, out', Fold(a, rs[i - 1]), Fold(c, ss[i - 1]));
      } else {
        PushShape(out, out', rs[i - 1], ss[i - 1]);
      }
    }
  }

  /** The index of the first sorted request inside the last remaining one. */
  function GroupStart(rs: seq<Request>, i: nat): (g: nat)
    requires Sorted(rs) && AllWellFormed(rs) && 1 <= i <= |rs|
    ensures g < i
  {
    if i == 1 then 0
    else if Mergeable(LastOf(rs, i - 1), rs[i - 1]) then GroupStart(rs, i - 1)
    else i - 1
  }

  lemma {:induction false} FrontIsEarlier(rs: seq<Request>, i: nat)
    requires Sorted(rs) && AllWellFormed(rs) && 1 <= i <= |rs|
    ensures var g, out := GroupStart(rs, i), Merged(rs, i);
            out[..|out| - 1] == if g == 0 then [] else Merged(rs, g)
    decreases i
  {
    hide Merged, Fold, Mergeable, Sorted, AllWellFormed;
    if i == 1 {
      MergedOne(rs);
    } else {
      FrontIsEarlier(rs, i - 1);
      MergedNext(rs, i);
    }
  }

  /** What the last remaining request covers was written by one of the requests folded into it. */
  lemma {:induction false} GroupCovers(rs: seq<Request>, i: nat, x: nat) returns (w: nat)
    requires Sorted(rs) && AllWellFormed(rs) && 1 <= i <= |rs| && Covers(LastOf(rs, i), x)
    ensures GroupStart(rs, i) <= w < i && Covers(rs[w], x)
    decreases i
  {
    hide Flat, Fold;
    if i == 1 {
      return 0;
    }
    LastCovers(rs, i, x);
    if !Covers(rs[i - 1], x) {
      w := GroupCovers(rs, i - 1, x);
    } else {
      w := i - 1;
    }
  }

  function Filled(q: Qiov, v: Byte): (r: Qiov)
    ensures SamePieces(r, q) && forall i, j :: 0 <= i < |r| && 0 <= j < |r[i]| ==> r[i][j] == v
  {
    seq(|q|, i requires 0 <= i < |q| => seq(|q[i]|, _ => v))
  }

  predicate Uniform(s: seq<Byte>, v: Byte) { forall i :: 0 <= i < |s| ==> s[i] == v }

  lemma {:induction false} FlatUniform(q: Qiov, v: Byte)
    requires forall i :: 0 <= i < |q| ==> Uniform(q[i], v)
    ensures Uniform(Flat(q), v)
  {
    if q != [] {
      FlatUniform(q[1..], v);
    }
  }

  const BLANK: nat -> Byte := _ => 0

  /** The requests with their data replaced: ones from index g on, zeros before. */
  ghost function Marked(rs: seq<Request>, g: nat): (ss: seq<Request>)
    requires Sorted(rs) && AllWellFormed(rs)
    ensures SameShapes(ss, rs) && Sorted(ss) && AllWellFormed(ss)
    ensures forall i :: 0 <= i < |ss| ==> Uniform(Flat(ss[i].qiov), if i < g then 0 else 1)
  {
    var ss := seq(|rs|, i requires 0 <= i < |rs| => Painted(rs[i], if i < g then 0 else 1));
    assert forall i :: 0 <= i < |ss| ==> ss[i] == Painted(rs[i], if i < g then 0 else 1);
    ss
  }

  ghost function Painted(r: Request, v: Byte): (p: Request)
    requires WellFormed(r)
    ensures SameShape(p, r) && WellFormed(p) && Uniform(Flat(p.qiov), v)
  {
    var q := Filled(r.qiov, v);
    FlatLength(q, r.qiov);
    FlatUniform(q, v);
    Request(r.sector, r.nbSectors, q)
  }

  lemma MergeableTouch(a: Request, b: Request)
    requires Mergeable(a, b)
    ensures b.sector <= a.sector + a.nbSectors
  {
  }

  lemma {:induction false} MergedZeros(rs: seq<Request>, i: nat)
    requires Sorted(rs) && AllWellFormed(rs) && 1 <= i <= |rs|
    requires forall j :: 0 <= j < i ==> Uniform(Flat(rs[j].qiov), 0)
    ensures forall j :: 0 <= j < |Merged(rs, i)| ==> Uniform(Flat(Merged(rs, i)[j].qiov), 0)
    decreases i
  {
    hide Flat, Fold, Mergeable;
    if i > 1 {
      MergedZeros(rs, i - 1);
      if Mergeable(LastOf(rs, i - 1), rs[i - 1]) {
        MergeableTouch(LastOf(rs, i - 1), rs[i - 1]);
        FoldIs(LastOf(rs, i - 1), rs[i - 1]);
      }
    }
  }

  lemma {:induction false} AfterZeros(rs: seq<Request>, x: nat)
    requires AllWellFormed(rs) && forall j :: 0 <= j < |rs| ==> Uniform(Flat(rs[j].qiov), 0)
    ensures After(BLANK, rs, x) == 0
  {
    if rs != [] {
      AfterZeros(rs[..|rs| - 1], x);
    }
  }

  lemma {:induction false} AfterOnes(rs: seq<Request>, g: nat, w: nat, x: nat)
    requires AllWellFormed(rs) && g <= w < |rs| && Covers(rs[w], x)
    requires forall j :: g <= j < |rs| ==> Uniform(Flat(rs[j].qiov), 1)
    ensures After(BLANK, rs, x) == 1
  {
    if !Covers(rs[|rs| - 1], x) {
      assert rs[..|rs| - 1][w] == rs[w];
      AfterOnes(rs[..|rs| - 1], g, w, x);
    }
  }

  lemma LastCovers(rs: seq<Request>, i: nat, x: nat)
    requires Sorted(rs) && AllWellFormed(rs) && 1 < i <= |rs|
    ensures var last, r := LastOf(rs, i - 1), rs[i - 1];
            Covers(LastOf(rs, i), x) <==> Covers(r, x) || (Mergeable(last, r) && Covers(last, x) && x < Start(r))
  {
    hide Flat, Fold;
    if Mergeable(LastOf(rs, i - 1), rs[i - 1]) {
      FoldAt(LastOf(rs, i - 1), rs[i - 1], x);
    }
  }

  lemma NotCovered(rs: seq<Request>, k: nat, j: nat, x: nat)
    requires k < j < |rs| && !CoveredBetween(rs, k, |rs|, x)
    ensures !Covers(rs[j], x)
  {
  }

  /** A byte that is cut off and not written again is gone from the remaining requests. */
  lemma {:induction false} StaysLost(disk: nat -> Byte, rs: seq<Request>, k: nat, i: nat, x: nat)
    requires Sorted(rs) && AllWellFormed(rs) && 1 <= k < i <= |rs|
    requires Dropped(rs, k, x) && !CoveredBetween(rs, k, |rs|, x)
    ensures After(disk, Merged(rs, i), x) == After(disk, Merged(rs, k)[..|Merged(rs, k)| - 1], x)
    ensures !Covers(LastOf(rs, i), x)
    decreases i
  {
    hide Flat, Fold, Merged, After, At, LastOf, CoveredBetween;
    MergedStep(disk, rs, i - 1, x);
    LastCovers(rs, i, x);
    if i - 1 > k {
      StaysLost(disk, rs, k, i - 1, x);
      NotCovered(rs, k, i - 1, x);
    }
  }

  /** If a byte is lost, requests of these very shapes exist for which the disks differ. */
  lemma LossShows(rs: seq<Request>, k: nat, x: nat)
    requires Sorted(rs) && AllWellFormed(rs) && 1 <= k < |rs|
    requires Dropped(rs, k, x) && !CoveredBetween(rs, k, |rs|, x)
    ensures var ss := Marked(rs, GroupStart(rs, k));
            After(BLANK, Merged(ss, |ss|), x) == 0 && After(BLANK, ss, x) == 1
  {
    hide Marked, Flat, Fold, After, Merged, LastOf, GroupStart, Mergeable, CoveredBetween;
    var g := GroupStart(rs, k);
    var ss := Marked(rs, g);
    var w := GroupCovers(rs, k, x);
    assert SameShape(ss[w], rs[w]);
    AfterOnes(ss, g, w, x);
    SameDrop(rs, ss, k, x);
    SameGroups(rs, ss, k);
    StaysLost(BLANK, ss, k, |ss|, x);
    EarlierZeros(ss, g, k, x);
  }

  lemma EarlierZeros(ss: seq<Request>, g: nat, k: nat, x: nat)
    requires Sorted(ss) && AllWellFormed(ss) && 1 <= k < |ss| && GroupStart(ss, k) == g
    requires forall i :: 0 <= i < g ==> Uniform(Flat(ss[i].qiov), 0)
    ensures After(BLANK, Merged(ss, k)[..|Merged(ss, k)| - 1], x) == 0
  {
    hide Flat, Fold, Merged, GroupStart;
    FrontIsEarlier(ss, k);
    if g > 0 {
      MergedZeros(ss, g);
      AfterZeros(Merged(ss, g), x);
    }
  }

  lemma SameDrop(rs: seq<Request>, ss: seq<Request>, k: nat, x: nat)
    requires Sorted(rs) && AllWellFormed(rs) && Sorted(ss) && AllWellFormed(ss) && SameShapes(ss, rs) && 1 <= k < |rs|
    ensures Dropped(ss, k, x) <==> Dropped(rs, k, x)
    ensures CoveredBetween(ss, k, |ss|, x) <==> CoveredBetween(rs, k, |rs|, x)
  {
    hide Flat, Fold, Merged, LastOf, GroupStart;
    SameGroups(rs, ss, k);
    assert SameShape(ss[k], rs[k]);
    forall j | k < j < |rs|
      ensures Covers(ss[j], x) <==> Covers(rs[j], x)
    {
      assert SameShape(ss[j], rs[j]);
    }
  }

  lemma {:induction false} SameGroups(rs: seq<Request>, ss: seq<Request>, i: nat)
    requires Sorted(rs) && AllWellFormed(rs) && Sorted(ss) && AllWellFormed(ss) && SameShapes(ss, rs) && 1 <= i <= |rs|
    ensures GroupStart(ss, i) == GroupStart(rs, i) && SameShape(LastOf(ss, i), LastOf(rs, i))
    decreases i
  {
    hide Flat, Fold;
    MergedShape(ss, rs, i);
    assert SameShape(LastOf(ss, i), LastOf(rs, i));
    if i > 1 {
      SameGroups(rs, ss, i - 1);
      assert SameShape(ss[i - 1], rs[i - 1]);
    }
  }

  /** The remaining requests leave the disk as the sorted ones do. */
  ghost predicate MeansTheSame(disk: nat -> Byte, rs: seq<Request>)
    requires Sorted(rs) && AllWellFormed(rs) && 1 <= |rs|
  {
    forall x :: After(disk, Merged(rs, |rs|), x) == After(disk, rs, x)
  }

  ghost predicate SafeForAllData(rs: seq<Request>)
    requires Sorted(rs) && AllWellFormed(rs) && 1 <= |rs|
  {
    forall disk: nat -> Byte, ss: seq<Request> {:trigger MeansTheSame(disk, ss)} |
      SameShapes(ss, rs) && Sorted(ss) && AllWellFormed(ss) && 1 <= |ss| :: MeansTheSame(disk, ss)
  }

  /** Merging is safe for every disk and all data of these shapes exactly when nothing is lost. */
  lemma MergeSafeExactly(rs: seq<Request>)
    requires Sorted(rs) && AllWellFormed(rs) && 1 <= |rs|
    ensures SafeForAllData(rs) <==> NothingLost(rs)
  {
    hide Flat, Fold, After, Merged, Marked;
    if NothingLost(rs) {
      forall disk: nat -> Byte, ss: seq<Request> |
        SameShapes(ss, rs) && Sorted(ss) && AllWellFormed(ss) && 1 <= |ss|
        ensures MeansTheSame(disk, ss)
      {
        SameLoss(rs, ss);
        forall x
          ensures After(disk, Merged(ss, |ss|), x) == After(disk, ss, x)
        {
          MergePreservesMeaning(disk, ss, x);
        }
      }
    }
    if SafeForAllData(rs) {
      forall k, x | 1 <= k < |rs| && Dropped(rs, k, x)
        ensures CoveredBetween(rs, k, |rs|, x)
      {
        assert MeansTheSame(BLANK, Marked(rs, GroupStart(rs, k)));
        if !CoveredBetween(rs, k, |rs|, x) {
          LossShows(rs, k, x);
        }
      }
    }
  }

  lemma SameLoss(rs: seq<Request>, ss: seq<Request>)
    requires Sorted(rs) && AllWellFormed(rs) && Sorted(ss) && AllWellFormed(ss) && SameShapes(ss, rs)
    requires NothingLost(rs)
    ensures NothingLost(ss)
  {
    hide Flat, Fold, Merged, Dropped, CoveredBetween;
    forall k, x | 1 <= k < |ss| && Dropped(ss, k, x)
      ensures CoveredBetween(ss, k, |ss|, x)
    {
      SameDrop(rs, ss, k, x);
    }
  }

  /** Two writes to sector 0, the second shorter: the second sector of the first one is dropped. */
  lemma ShorterWriteLosesTail(a: Request, b: Request)
    requires WellFormed(a) && WellFormed(b) && a.sector == b.sector == 0 && a.nbSectors == 2 && b.nbSectors == 1
    requires |a.qiov| == |b.qiov| == 1
    ensures !NothingLost([a, b])
  {
    var rs := [a, b];
    assert LastOf(rs, 1) == a;
    assert Dropped(rs, 1, SECTOR);
    assert !CoveredBetween(rs, 1, 2, SECTOR);
  }

  /** No remaining request has more pieces than a request may have. */
  lemma {:induction false} PiecesBounded(rs: seq<Request>, i: nat)
    requires Sorted(rs) && AllWellFormed(rs) && 1 <= i <= |rs|
    requires forall j :: 0 <= j < |rs| ==> |rs[j].qiov| <= IOV_MAX
    ensures forall j :: 0 <= j < |Merged(rs, i)| ==> |Merged(rs, i)[j].qiov| <= IOV_MAX
    decreases i
  {
    if i > 1 {
      PiecesBounded(rs, i - 1);
      if Mergeable(LastOf(rs, i - 1), rs[i - 1]) {
        FoldIs(LastOf(rs, i - 1), rs[i - 1]);
      }
    }
  }

  // ---------- which requests remain ----------

  /** Where the last remaining request begins: at the first request of its group, which did not touch the one
      before it or would have made too many pieces. */
  lemma {:induction false} GroupFirst(rs: seq<Request>, i: nat)
    requires Sorted(rs) && AllWellFormed(rs) && 1 <= i <= |rs|
    ensures var g := GroupStart(rs, i);
            LastOf(rs, i).sector == rs[g].sector && (g > 0 ==> !Mergeable(LastOf(rs, g), rs[g]))
    decreases i
  {
    hide Merged, Mergeable, Sorted, AllWellFormed;
    if i == 1 {
      MergedOne(rs);
    } else {
      GroupFirst(rs, i - 1);
      MergedNext(rs, i);
    }
  }

  /** Main result: two neighbours remain apart only for a reason. The second begins with a sorted request g, the
      first is what the requests before g came to, and between them is a gap or the pieces were too many. */
  lemma {:induction false} ApartForAReason(rs: seq<Request>, i: nat, p: nat) returns (g: nat)
    requires Sorted(rs) && AllWellFormed(rs) && 1 <= i <= |rs| && p + 1 < |Merged(rs, i)|
    ensures 1 <= g < i && Merged(rs, g) == Merged(rs, i)[..p + 1]
    ensures var a, b := Merged(rs, i)[p], Merged(rs, i)[p + 1];
            b.sector == rs[g].sector &&
            (a.sector + a.nbSectors < b.sector || |a.qiov| + |rs[g].qiov| + 1 > 1024)
    decreases i
  {
    hide Merged, Sorted, AllWellFormed, WellFormed;
    var out := Merged(rs, i);
    g := GroupStart(rs, i);
    FrontIsEarlier(rs, i);
    if p + 1 == |out| - 1 {
      GroupFirst(rs, i);
      assert out[p] == out[..|out| - 1][p];
    } else {
      var earlier := Merged(rs, g);
      g := ApartForAReason(rs, g, p);
      assert earlier[..p + 1] == out[..p + 1] && out[p] == earlier[p] && out[p + 1] == earlier[p + 1];
    }
  }

  /** And a request that touches and fits is folded in: the list does not grow. */
  lemma TouchingIsFolded(rs: seq<Request>, i: nat)
    requires Sorted(rs) && AllWellFormed(rs) && 1 <= i < |rs|
    ensures var a, b := LastOf(rs, i), rs[i];
            |Merged(rs, i + 1)| == |Merged(rs, i)| <==>
            b.sector <= a.sector + a.nbSectors && |a.qiov| + |b.qiov| + 1 <= 1024
  {
    hide Merged, Fold, Sorted, AllWellFormed, WellFormed;
    MergedNext(rs, i + 1);
  }

  function Pieces(rs: seq<Request>, i: nat): nat
    requires i <= |rs|
  {
    if i == 0 then 0 else Pieces(rs, i - 1) + |rs[i - 1].qiov|
  }

  lemma {:induction false} PiecesGrow(rs: seq<Request>, i: nat, j: nat)
    requires i <= j <= |rs|
    ensures Pieces(rs, i) <= Pieces(rs, j)
    decreases j
  {
    if i < j {
      PiecesGrow(rs, i, j - 1);
    }
  }

  lemma {:induction false} LastPieces(rs: seq<Request>, i: nat)
    requires Sorted(rs) && AllWellFormed(rs) && 1 <= i <= |rs|
    ensures |LastOf(rs, i).qiov| <= Pieces(rs, i)
    decreases i
  {
    hide Merged, Fold, Sorted, AllWellFormed, WellFormed;
    if i == 1 {
      MergedOne(rs);
      assert Pieces(rs, 1) == Pieces(rs, 0) + |rs[0].qiov|;
    } else {
      LastPieces(rs, i - 1);
      MergedNext(rs, i);
      RequestOk(rs, i - 1);
      if Mergeable(LastOf(rs, i - 1), rs[i - 1]) {
        FoldIs(LastOf(rs, i - 1), rs[i - 1]);
      }
    }
  }

  /** Requests whose pieces all fit in one are left with a gap between any two neighbours. */
  lemma FewPiecesLeaveGaps(rs: seq<Request>, p: nat)
    requires Sorted(rs) && AllWellFormed(rs) && 1 <= |rs| && Pieces(rs, |rs|) < 1024
    requires p + 1 < |Merged(rs, |rs|)|
    ensures var out := Merged(rs, |rs|); out[p].sector + out[p].nbSectors < out[p + 1].sector
  {
    hide Merged, Sorted, AllWellFormed, WellFormed, Pieces;
    var g := ApartForAReason(rs, |rs|, p);
    LastPieces(rs, g);
    assert Merged(rs, |rs|)[p] == Merged(rs, |rs|)[..p + 1][p];
    OneMorePiece(rs, g);
    PiecesGrow(rs, g + 1, |rs|);
  }

  lemma OneMorePiece(rs: seq<Request>, g: nat)
    requires g < |rs|
    ensures Pieces(rs, g + 1) == Pieces(rs, g) + |rs[g].qiov|
  {
  }
}
