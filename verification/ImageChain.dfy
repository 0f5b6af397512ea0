// Chains of images (block.c): an overlay holds some sectors and leaves the others to its backing
// file. The allocation queries over a chain, and committing an overlay into its backing file.
module ImageChain {
  import opened Basics

  const COMMIT_BUF_SECTORS := 2048

  /** The contents of a sector, as a number; 0 is the sector of zeros. */
  type Sector = int

  /** Sector s as the guest sees it through image im: its own copy, else the backing file's, and
      zeros past the end of a file or of the chain. */
  function Content(im: Image?, s: nat): Sector
    requires im != null ==> im.Linked()
    reads if im == null then {} else im.chain
    decreases if im == null then 0 else im.depth + 1
  {
    if im == null || s >= im.total then 0
    else if s in im.sectors then im.sectors[s]
    else Content(im.backing, s)
  }

  /** s is held by an image of the chain from im down to, but not including, base. */
  predicate AllocatedAbove(im: Image?, base: Image?, s: nat)
    requires im != null ==> im.Linked()
    reads if im == null then {} else im.chain
    decreases if im == null then 0 else im.depth + 1
  {
    im != null && im != base && ((s < im.total && s in im.sectors) || AllocatedAbove(im.backing, base, s))
  }

  /** Some image of that chain ends at or before s. */
  predicate EndsBefore(im: Image?, base: Image?, s: nat)
    requires im != null ==> im.Linked()
    decreases if im == null then 0 else im.depth + 1
  {
    im != null && im != base && (im.total <= s || EndsBefore(im.backing, base, s))
  }

  /** The error of the first image asked that fails, if none above it holds the sector; 0 for none. */
  function FirstError(im: Image?, base: Image?, s: nat): int
    requires im != null ==> im.Linked()
    reads if im == null then {} else im.chain
    decreases if im == null then 0 else im.depth + 1
  {
    if im == null || im == base then 0
    else if im.Fails(s) then im.queryError
    else if s < im.total && s in im.sectors then 0
    else FirstError(im.backing, base, s)
  }

  predicate Reaches(im: Image?, base: Image?)
    requires im != null ==> im.Linked()
    decreases if im == null then 0 else im.depth + 1
  {
    im == base || (im != null && Reaches(im.backing, base))
  }

  class Image {
    const total: nat
    const backing: Image?
    const depth: nat
    /** Whether the driver can tell allocated sectors apart; one that cannot has no backing file. */
    const hasMap: bool
    var sectors: map<nat, Sector>
    var hasMedium: bool
    var keepReadOnly: bool
    var inUse: bool
    /** What the driver's allocation query fails with, or 0. */
    var queryError: int

    /** This image and all those below it. */
    ghost const chain: set<Image>

    constructor (total: nat, backing: Image?, hasMap: bool, sectors: map<nat, Sector>)
      requires backing != null ==> backing.Linked() && hasMap
      requires !hasMap ==> forall s :: 0 <= s < total ==> s in sectors
      ensures Valid() && this.total == total && this.backing == backing && this.sectors == sectors
      ensures hasMedium && !keepReadOnly && !inUse && queryError == 0 && this.hasMap == hasMap
    {
      this.total, this.backing, this.hasMap, this.sectors := total, backing, hasMap, sectors;
      hasMedium, keepReadOnly, inUse, queryError := true, false, false, 0;
      depth := if backing == null then 0 else backing.depth + 1;
      chain := {this} + if backing == null then {} else backing.chain;
    }

    ghost predicate Linked()
      decreases depth
    {
      chain == {this} + (if backing == null then {} else backing.chain) &&
      (forall i :: i in chain ==> i.depth <= depth) &&
      (backing != null ==> hasMap && backing.depth < depth && backing.Linked())
    }

    /** A driver without an allocation map holds every sector. */
    ghost predicate Valid()
      reads this
    {
      Linked() && queryError <= 0 && (!hasMap ==> forall s :: 0 <= s < total ==> s in sectors)
    }

    /** The driver's own query: the state of sector s, and some number of sectors that share it. */
    method DriverIsAllocated(s: nat, nb: nat) returns (ret: bool, pnum: nat)
      requires s + nb <= total
      ensures ret == (s in sectors) && pnum <= nb && (0 < nb ==> 0 < pnum)
      ensures forall x: nat :: s <= x < s + pnum ==> (x in sectors <==> ret)
    {
      ret := s in sectors;
      if nb == 0 {
        return ret, 0;
      }
      assert 1 in Span(1, nb);
      var n: nat :| n in Span(1, nb) && forall x: nat :: s <= x < s + n ==> (x in sectors <==> ret);
      pnum := n;
    }

    /** Whether the query for sector s reaches a driver that fails. */
    predicate Fails(s: nat)
      reads this
    {
      s < total && hasMap && queryError < 0
    }

    /** bdrv_co_is_allocated: 1, 0 or the driver's error, and then for no sector. */
    method IsAllocated(s: nat, nb: nat) returns (ret: int, pnum: nat)
      requires Valid()
      ensures Fails(s) ==> ret == queryError && pnum == 0
      ensures !Fails(s) ==> ret == if s < total && s in sectors then 1 else 0
      ensures !Fails(s) ==> pnum <= nb && (pnum == 0 <==> nb == 0 || total <= s) && (s + pnum <= total || pnum == 0)
      ensures !Fails(s) ==> forall x: nat :: s <= x < s + pnum ==> (x in sectors <==> ret == 1)
    {
      if s >= total {
        return 0, 0;
      }
      var n := if total - s < nb then total - s else nb;
      if !hasMap {
        return 1, n;
      }
      if queryError < 0 {
        return queryError, 0;
      }
      var present;
      present, pnum := DriverIsAllocated(s, n);
      ret := if present then 1 else 0;
    }

    /** bdrv_read */
    method Read(s: nat, n: nat) returns (ret: int, buf: seq<Sector>)
      requires Valid()
      ensures ret == if s + n <= total then 0 else -EIO
      ensures ret == 0 ==> |buf| == n && forall j :: 0 <= j < n ==> buf[j] == Content(this, s + j)
    {
      buf := [];
      if s + n > total {
        return -EIO, [];
      }
      for j := 0 to n
        invariant |buf| == j && forall k :: 0 <= k < j ==> buf[k] == Content(this, s + k)
      {
        buf := buf + [Content(this, s + j)];
      }
      ret := 0;
    }

    /** bdrv_write */
    method Write(s: nat, buf: seq<Sector>) returns (ret: int)
      requires Valid()
      modifies this`sectors
      ensures Valid() && ret == if s + |buf| <= total then 0 else -EIO
      ensures sectors == if ret == 0 then Written(old(sectors), s, buf) else old(sectors)
    {
      if s + |buf| > total {
        return -EIO;
      }
      sectors := Written(sectors, s, buf);
      ret := 0;
    }
  }

  function Written(m: map<nat, Sector>, s: nat, buf: seq<Sector>): (w: map<nat, Sector>)
    ensures forall x: nat :: x in w <==> x in m || s <= x < s + |buf|
    ensures forall x: nat :: x in w ==> w[x] == if s <= x < s + |buf| then buf[x - s] else m[x]
  {
    map x: nat | x in m.Keys + Span(s, |buf|) :: if s <= x < s + |buf| then buf[x - s] else m[x]
  }

  function Span(s: nat, n: nat): (r: set<nat>)
    ensures forall x: nat :: x in r <==> s <= x < s + n
  {
    if n == 0 then {} else Span(s, n - 1) + {s + n - 1}
  }

  // ---------- the query over a chain ----------

  /** bdrv_co_is_allocated_above. The answer holds for all pnum sectors; pnum is 0 exactly when
      nothing was asked or the walk met an image that ends before s. When the answer is no, the top
      image shows what base shows. */
  method IsAllocatedAbove(top: Image?, base: Image?, s: nat, nb: nat) returns (ret: int, pnum: nat)
    requires top != null ==> top.Linked() && forall i :: i in top.chain ==> i.Valid()
    requires base != null ==> base.Linked()
    ensures ret == if FirstError(top, base, s) != 0 then FirstError(top, base, s)
              else if AllocatedAbove(top, base, s) then 1 else 0
    ensures ret >= 0 ==>
              pnum <= nb && forall x: nat :: s <= x < s + pnum ==> (AllocatedAbove(top, base, x) <==> ret == 1)
    ensures ret == 1 ==> (pnum == 0 <==> nb == 0)
    ensures ret == 0 ==> (pnum == 0 <==> nb == 0 || EndsBefore(top, base, s))
    ensures ret == 0 && Reaches(top, base) ==>
              forall x: nat :: s <= x < s + pnum ==> Content(top, x) == Content(base, x)
  {
    var inter, n := top, nb;
    while inter != null && inter != base
      invariant inter != null ==> inter.Linked() && (forall i :: i in inter.chain ==> i.Valid())
      invariant Passed(top, inter, base, s, n, nb)
      decreases if inter == null then 0 else inter.depth + 1
    {
      var r, m := inter.IsAllocated(s, nb);
      if r < 0 {
        return r, 0;
      }
      if r == 1 {
        Found(top, inter, base, s, n, nb, m);
        return 1, m;
      }
      PassOne(top, inter, base, s, n, nb, m);
      if n > m {
        n := m;
      }
      inter := inter.backing;
    }
    return 0, n;
  }

  /** The walk from top has come to inter: what inter and the images below it say of the first n
      sectors is what the whole chain says. */
  ghost predicate Passed(top: Image?, inter: Image?, base: Image?, s: nat, n: nat, nb: nat)
    requires top != null ==> top.Linked()
    requires inter != null ==> inter.Linked()
    reads if top == null then {} else top.chain, if inter == null then {} else inter.chain
  {
    n <= nb && (Reaches(top, base) ==> Reaches(inter, base)) &&
    FirstError(top, base, s) == FirstError(inter, base, s) &&
    (AllocatedAbove(top, base, s) <==> AllocatedAbove(inter, base, s)) &&
    (forall x: nat :: AllocatedAbove(inter, base, x) ==> AllocatedAbove(top, base, x)) &&
    (forall x: nat :: s <= x < s + n ==> (AllocatedAbove(top, base, x) <==> AllocatedAbove(inter, base, x))) &&
    (forall x: nat :: s <= x < s + n ==> Content(top, x) == Content(inter, x)) &&
    (0 < nb ==> (EndsBefore(top, base, s) <==> n == 0 || EndsBefore(inter, base, s)))
  }

  lemma PassOne(top: Image?, inter: Image, base: Image?, s: nat, n: nat, nb: nat, m: nat)
    requires top != null ==> top.Linked()
    requires inter.Linked() && inter != base && Passed(top, inter, base, s, n, nb)
    requires m <= nb && (m == 0 <==> nb == 0 || inter.total <= s) && (s < inter.total ==> s + m <= inter.total)
    requires s < inter.total ==> s !in inter.sectors
    requires !inter.Fails(s)
    requires forall x: nat :: s <= x < s + m ==> x !in inter.sectors
    ensures Passed(top, inter.backing, base, s, if n > m then m else n, nb)
  {
    assert EndsBefore(inter, base, s) <==> inter.total <= s || EndsBefore(inter.backing, base, s);
    forall x: nat
      ensures AllocatedAbove(inter.backing, base, x) ==> AllocatedAbove(top, base, x)
    {
      assert AllocatedAbove(inter.backing, base, x) ==> AllocatedAbove(inter, base, x);
    }
  }

  lemma Found(top: Image?, inter: Image, base: Image?, s: nat, n: nat, nb: nat, m: nat)
    requires top != null ==> top.Linked()
    requires inter.Linked() && inter != base && Passed(top, inter, base, s, n, nb)
    requires s < inter.total && s in inter.sectors && s + m <= inter.total
    requires forall x: nat :: s <= x < s + m ==> x in inter.sectors
    ensures AllocatedAbove(top, base, s) && forall x: nat :: s <= x < s + m ==> AllocatedAbove(top, base, x)
  {
    forall x: nat | x == s || s <= x < s + m
      ensures AllocatedAbove(top, base, x)
    {
      assert AllocatedAbove(inter, base, x);
    }
  }

  /** The image i steps down the chain. */
  function Nth(im: Image?, i: nat): (r: Image?)
    requires im != null ==> im.Linked()
    ensures r != null ==> im != null && r in im.chain
    decreases i
  {
    if i == 0 || im == null then im else Nth(im.backing, i - 1)
  }

  /** The image i steps down holds s, and base is neither that image nor above it. */
  ghost predicate HoldsAt(im: Image?, base: Image?, s: nat, i: nat)
    requires im != null ==> im.Linked()
    reads if im == null then {} else im.chain
  {
    var r := Nth(im, i);
    r != null && s < r.total && s in r.sectors && forall j: nat :: j <= i ==> Nth(im, j) != base
  }

  lemma HoldsBelow(im: Image, base: Image?, s: nat, i: nat)
    requires im.Linked() && im != base
    ensures HoldsAt(im.backing, base, s, i) <==> HoldsAt(im, base, s, i + 1)
  {
    if HoldsAt(im.backing, base, s, i) {
      forall j: nat | j <= i + 1
        ensures Nth(im, j) != base
      {
        if j > 0 {
          assert Nth(im.backing, j - 1) != base;
        }
      }
    }
    if HoldsAt(im, base, s, i + 1) {
      forall j: nat | j <= i
        ensures Nth(im.backing, j) != base
      {
        assert Nth(im, j + 1) != base;
      }
    }
  }

  /** The question over a chain, in terms of its images one by one. */
  lemma {:induction false} AboveExactly(im: Image?, base: Image?, s: nat)
    requires im != null ==> im.Linked()
    ensures AllocatedAbove(im, base, s) <==> exists i: nat :: HoldsAt(im, base, s, i)
    decreases if im == null then 0 else im.depth + 1
  {
    if im == null {
    } else if im == base {
      forall i: nat
        ensures !HoldsAt(im, base, s, i)
      {
        assert Nth(im, 0) == base;
      }
    } else {
      AboveExactly(im.backing, base, s);
      if s < im.total && s in im.sectors {
        assert HoldsAt(im, base, s, 0);
      } else if AllocatedAbove(im.backing, base, s) {
        var i: nat :| HoldsAt(im.backing, base, s, i);
        HoldsBelow(im, base, s, i);
      } else if i: nat :| HoldsAt(im, base, s, i) {
        assert i > 0;
        HoldsBelow(im, base, s, i - 1);
      }
    }
  }

  // ---------- commit ----------

  lemma NotBelow(im: Image)
    requires im.Linked() && im.backing != null
    ensures im !in im.backing.chain
  {
    assert im.backing.Linked();
  }

  /** bdrv_commit, without the reopening of a read-only backing file. Exactly the sectors the overlay holds
      below upto are written to the backing file, which then shows there what the guest sees; upto is the
      whole length on success and less otherwise. The guest always sees what it saw, whether or not the
      overlay could be emptied (canEmpty: the driver has a make_empty, which returns emptyResult). */
  method Commit(bs: Image, canEmpty: bool, emptyResult: int) returns (ret: int, ghost upto: nat)
    requires bs.Valid() && (bs.backing != null ==> bs.backing.Valid()) && emptyResult <= 0
    requires Proceeds(bs) ==> !bs.Fails(0)
    modifies bs`sectors, if bs.backing == null then {} else {bs.backing}
    ensures bs.Valid() && (bs.backing != null ==> bs.backing.Valid())
    ensures forall s: nat :: Content(bs, s) == old(Content(bs, s))
    ensures !Proceeds(bs) ==> ret == Refusal(bs) < 0 && bs.sectors == old(bs.sectors)
    ensures Proceeds(bs) && !old(Fits(bs)) ==> ret == -EIO && bs.sectors == old(bs.sectors)
    ensures Proceeds(bs) ==> forall s: nat ::
                s in bs.backing.sectors <==> s in old(bs.backing.sectors) || (s < upto && s in old(bs.sectors))
    ensures Proceeds(bs) ==> upto <= bs.total && (upto == bs.total <==> old(Fits(bs)))
    ensures Proceeds(bs) ==> forall s: nat ::
                Content(bs.backing, s) == if s < upto then old(Content(bs, s)) else old(Content(bs.backing, s))
    ensures Proceeds(bs) && old(Fits(bs)) ==> ret == if canEmpty then emptyResult else 0
    ensures Proceeds(bs) && old(Fits(bs)) ==>
              bs.sectors == if canEmpty && emptyResult == 0 then map[] else old(bs.sectors)
  {
    upto := 0;
    if !bs.hasMedium {
      return -ENOMEDIUM, 0;
    }
    if bs.backing == null {
      return -ENOTSUP, 0;
    }
    if bs.backing.keepReadOnly {
      return -EACCES, 0;
    }
    if bs.inUse || bs.backing.inUse {
      return -EBUSY, 0;
    }
    ret, upto := CopyDown(bs);
    if ret != 0 {
      return;
    }
    if canEmpty && emptyResult == 0 {
      label Full:
      bs.sectors := map[];
      forall s: nat
        ensures Content(bs.backing, s) == old@Full(Content(bs.backing, s))
        ensures Content(bs, s) == if s < bs.total then Content(bs.backing, s) else 0
      {
        NotBelow(bs);
      }
    }
    if canEmpty {
      ret := emptyResult;
    }
  }

  /** What bdrv_commit returns without having started. */
  function Refusal(bs: Image): int
    reads bs, if bs.backing == null then {} else {bs.backing}
  {
    if !bs.hasMedium then -ENOMEDIUM
    else if bs.backing == null then -ENOTSUP
    else if bs.backing.keepReadOnly then -EACCES
    else if bs.inUse || bs.backing.inUse then -EBUSY
    else 0
  }

  /** No sector the overlay holds lies past the end of the backing file. */
  ghost predicate Fits(bs: Image)
    reads bs
  {
    bs.backing != null && forall s: nat :: s < bs.total && s in bs.sectors ==> s < bs.backing.total
  }

  /** The tests bdrv_commit makes before it starts. */
  predicate Proceeds(bs: Image)
    reads bs, if bs.backing == null then {} else {bs.backing}
  {
    bs.hasMedium && bs.backing != null && !bs.backing.keepReadOnly && !bs.inUse && !bs.backing.inUse
  }

  /** One read from the overlay and one write to the backing file. */
  method CopyChunk(bs: Image, sector: nat, n: nat) returns (ret: int)
    requires bs.Valid() && bs.backing != null && bs.backing.Valid() && sector + n <= bs.total
    requires forall s: nat :: sector <= s < sector + n ==> s in bs.sectors
    modifies bs.backing`sectors
    ensures bs.backing.Valid() && ret == if sector + n <= bs.backing.total then 0 else -EIO
    ensures forall s: nat :: Content(bs, s) == old(Content(bs, s))
    ensures forall s: nat ::
                s in bs.backing.sectors <==> s in old(bs.backing.sectors) || (ret == 0 && sector <= s < sector + n)
    ensures forall s: nat :: Content(bs.backing, s) ==
                if ret == 0 && sector <= s < sector + n then old(Content(bs, s)) else old(Content(bs.backing, s))
  {
    var r, buf := bs.Read(sector, n);
    if r != 0 {
      return -EIO;
    }
    ret := bs.backing.Write(sector, buf);
    forall s: nat
      ensures Content(bs.backing, s) ==
                if ret == 0 && sector <= s < sector + n then old(Content(bs, s)) else old(Content(bs.backing, s))
      ensures Content(bs, s) == old(Content(bs, s))
    {
      if bs.backing.backing != null {
        NotBelow(bs.backing);
      }
      assert Content(bs.backing.backing, s) == old(Content(bs.backing.backing, s));
    }
  }

  /** One turn of the loop of bdrv_commit. A query that fails counts as an answer of "allocated" for
      no sector: nothing is copied and the loop stays where it is. */
  method CommitTurn(bs: Image, sector: nat) returns (ret: int, next: nat)
    requires bs.Valid() && bs.backing != null && bs.backing.Valid() && sector < bs.total
    modifies bs.backing`sectors
    ensures bs.backing.Valid() && (ret == 0 || ret == -EIO) && sector <= next <= bs.total
    ensures ret == 0 ==> (next == sector <==> bs.Fails(sector))
    ensures bs.Fails(sector) ==> ret == if sector <= bs.backing.total then 0 else -EIO
    ensures !bs.Fails(sector) && ret != 0 ==> exists s: nat :: s < bs.total && s in bs.sectors && bs.backing.total <= s
    ensures ret == 0 && !bs.Fails(sector) ==>
              forall s: nat :: sector <= s < next && s in bs.sectors ==> s < bs.backing.total
    ensures forall s: nat :: Content(bs, s) == old(Content(bs, s))
    ensures ret != 0 ==> next == sector
    ensures forall s: nat ::
                s in bs.backing.sectors <==>
                s in old(bs.backing.sectors) || (sector <= s < next && s in bs.sectors)
    ensures forall s: nat ::
                Content(bs.backing, s) ==
                  if sector <= s < next then old(Content(bs, s)) else old(Content(bs.backing, s))
  {
    var alloc, n := bs.IsAllocated(sector, COMMIT_BUF_SECTORS);
    if alloc != 0 {
      ret := CopyChunk(bs, sector, n);
      if ret != 0 {
        assert !bs.Fails(sector) ==> sector + n - 1 in bs.sectors;
        return ret, sector;
      }
    }
    return 0, sector + n;
  }

  /** The loop of bdrv_commit. It requires what makes the loop end: as CommitTurn shows, a driver whose
      query fails keeps it on one sector for ever. */
  method CopyDown(bs: Image) returns (ret: int, ghost upto: nat)
    requires bs.Valid() && bs.backing != null && bs.backing.Valid() && !bs.Fails(0)
    modifies bs.backing`sectors
    ensures bs.backing.Valid() && (ret == 0 || ret == -EIO)
    ensures forall s: nat :: Content(bs, s) == old(Content(bs, s))
    ensures CopiedUpTo(bs, upto, old(bs.backing.sectors))
    ensures forall s: nat ::
                Content(bs.backing, s) == if s < upto then old(Content(bs, s)) else old(Content(bs.backing, s))
    ensures upto <= bs.total && (ret == 0 <==> upto == bs.total)
    ensures ret == 0 <==> forall s: nat :: s < bs.total && s in bs.sectors ==> s < bs.backing.total
  {
    var sector := 0;
    while sector < bs.total
      invariant sector <= bs.total && bs.backing.Valid()
      invariant forall s: nat :: Content(bs, s) == old(Content(bs, s))
      invariant forall s: nat :: s < sector && s in bs.sectors ==> s < bs.backing.total
      invariant CopiedUpTo(bs, sector, old(bs.backing.sectors))
      invariant forall s: nat ::
                  Content(bs.backing, s) == if s < sector then old(Content(bs, s)) else old(Content(bs.backing, s))
    {
      ret, sector := CommitTurn(bs, sector);
      if ret != 0 {
        return ret, sector;
      }
    }
    return 0, sector;
  }

  /** The backing file holds what it held, and what the overlay holds below n. */
  ghost predicate CopiedUpTo(bs: Image, n: nat, was: map<nat, Sector>)
    requires bs.backing != null
    reads bs, bs.backing
  {
    forall s: nat :: s in bs.backing.sectors <==> s in was || (s < n && s in bs.sectors)
  }

  /** An image that holds nothing passes the question on. */
  lemma PassesOn(im: Image, s: nat)
    requires im.Linked() && im.sectors == map[] && im.queryError == 0
    ensures AllocatedAbove(im, null, s) == AllocatedAbove(im.backing, null, s)
    ensures FirstError(im, null, s) == FirstError(im.backing, null, s)
    ensures EndsBefore(im, null, s) == (im.total <= s || EndsBefore(im.backing, null, s))
  {
  }

  /** The case of pnum 0: two images, the backing file one sector long. A question about the second
      sector of the top image, which has two, is answered for no sector at all. */
  method ShortBackingStalls() returns (top: Image, ret: int, pnum: nat)
    ensures top.total == 2 && ret == 0 && pnum == 0
  {
    hide AllocatedAbove, FirstError, EndsBefore, Reaches, Content;
    var backing := new Image(1, null, true, map[]);
    top := new Image(2, backing, true, map[]);
    PassesOn(top, 1);
    PassesOn(backing, 1);
    NothingBelow(1);
    ret, pnum := IsAllocatedAbove(top, null, 1, 1);
  }

  lemma NothingBelow(s: nat)
    ensures !AllocatedAbove(null, null, s) && FirstError(null, null, s) == 0 && !EndsBefore(null, null, s)
  {
  }
}
