// bdrv_aio_multiwrite and its helpers as they run (block.c): the request array rewritten in
// place, and the shared completion record.
module MultiwriteCode {
  import opened Basics
  import opened Multiwrite

  /** What the caller hands over: a request, the callback (with its argument) and an error field. */
  datatype BlockRequest = BlockRequest(req: Request, cb: nat, error: int)

  function Reqs(bs: seq<BlockRequest>): (rs: seq<Request>)
    ensures |rs| == |bs| && forall i :: 0 <= i < |bs| ==> rs[i] == bs[i].req
  {
    seq(|bs|, i requires 0 <= i < |bs| => bs[i].req)
  }

  /** Where the loop stands: the first i requests are folded into slots 0 to outidx, the later
      ones are untouched, and every callback and error field is where it was. */
  ghost predicate Folded(orig: seq<BlockRequest>, cur: seq<BlockRequest>, i: nat, outidx: nat)
    requires Sorted(Reqs(orig)) && AllWellFormed(Reqs(orig))
  {
    outidx < i <= |orig| == |cur| && Reqs(cur[..outidx + 1]) == Merged(Reqs(orig), i) &&
    (forall j :: i <= j < |cur| ==> cur[j] == orig[j]) &&
    forall j :: 0 <= j < |cur| ==> cur[j].cb == orig[j].cb && cur[j].error == orig[j].error
  }

  lemma FoldedAtFirst(orig: seq<BlockRequest>)
    requires Sorted(Reqs(orig)) && AllWellFormed(Reqs(orig)) && 1 <= |orig|
    ensures Folded(orig, orig, 1, 0)
  {
    hide Flat, Fold;
    assert Reqs(orig[..1]) == Reqs(orig)[..1];
  }

  lemma FoldedStep(orig: seq<BlockRequest>, cur: seq<BlockRequest>, i: nat, outidx: nat)
    requires Sorted(Reqs(orig)) && AllWellFormed(Reqs(orig)) && Folded(orig, cur, i, outidx) && i < |orig|
    ensures outidx + 1 < |cur| == |orig|
    ensures var last, r := cur[outidx].req, cur[i].req;
            WellFormed(last) && WellFormed(r) && last.sector <= r.sector &&
            (Mergeable(last, r) ==> r.sector <= last.sector + last.nbSectors &&
                                    Folded(orig, cur[outidx := cur[outidx].(req := Fold(last, r))], i + 1, outidx)) &&
            (!Mergeable(last, r) ==> Folded(orig, cur[outidx + 1 := cur[outidx + 1].(req := r)], i + 1, outidx + 1))
  {
    hide Folded, Fold, Sorted, AllWellFormed, WellFormed;
    FoldedHere(orig, cur, i, outidx);
    var last, r := cur[outidx].req, cur[i].req;
    if Mergeable(last, r) {
      FoldedMerge(orig, cur, i, outidx);
    } else {
      FoldedPush(orig, cur, i, outidx);
    }
  }

  /** The request last kept is the last of the merged list so far. */
  lemma FoldedHere(orig: seq<BlockRequest>, cur: seq<BlockRequest>, i: nat, outidx: nat)
    requires Sorted(Reqs(orig)) && AllWellFormed(Reqs(orig)) && Folded(orig, cur, i, outidx) && i < |orig|
    ensures outidx + 1 < |cur| == |orig| && cur[i] == orig[i] && 1 <= i
    ensures cur[outidx].req == LastOf(Reqs(orig), i) && WellFormed(cur[outidx].req) && WellFormed(cur[i].req)
    ensures cur[outidx].req.sector <= cur[i].req.sector
  {
    hide Merged, Sorted, AllWellFormed, WellFormed;
    assert cur[outidx].req == Reqs(cur[..outidx + 1])[outidx];
    RequestOk(Reqs(orig), i);
    MergedNext(Reqs(orig), i + 1);
  }

  lemma FoldedMerge(orig: seq<BlockRequest>, cur: seq<BlockRequest>, i: nat, outidx: nat)
    requires Sorted(Reqs(orig)) && AllWellFormed(Reqs(orig)) && Folded(orig, cur, i, outidx) && i < |orig|
    requires outidx + 1 < |cur| && cur[outidx].req.sector <= cur[i].req.sector && Mergeable(cur[outidx].req, cur[i].req)
    ensures Folded(orig, cur[outidx := cur[outidx].(req := Fold(cur[outidx].req, cur[i].req))], i + 1, outidx)
  {
    hide Merged, Fold, Sorted, AllWellFormed, WellFormed, Mergeable;
    FoldedHere(orig, cur, i, outidx);
    MergedNext(Reqs(orig), i + 1);
    PutLast(cur, outidx, Fold(cur[outidx].req, cur[i].req));
  }

  lemma FoldedPush(orig: seq<BlockRequest>, cur: seq<BlockRequest>, i: nat, outidx: nat)
    requires Sorted(Reqs(orig)) && AllWellFormed(Reqs(orig)) && Folded(orig, cur, i, outidx) && i < |orig|
    requires outidx + 1 < |cur| && !Mergeable(cur[outidx].req, cur[i].req)
    ensures Folded(orig, cur[outidx + 1 := cur[outidx + 1].(req := cur[i].req)], i + 1, outidx + 1)
  {
    hide Merged, Fold, Sorted, AllWellFormed, WellFormed, Mergeable;
    FoldedHere(orig, cur, i, outidx);
    MergedNext(Reqs(orig), i + 1);
    PutLast(cur, outidx + 1, cur[i].req);
  }

  lemma PutLast(cur: seq<BlockRequest>, k: nat, r: Request)
    requires k < |cur|
    ensures Reqs(cur[k := cur[k].(req := r)][..k + 1]) == Reqs(cur[..k]) + [r]
    ensures Reqs(cur[..k + 1])[..k] == Reqs(cur[..k])
  {
  }

  /** multiwrite_merge after its qsort: the array is folded from the left in place. Callbacks and
      error fields stay where they are. */
  method Merge(reqs: array<BlockRequest>) returns (n: nat)
    requires 1 <= reqs.Length && Sorted(Reqs(reqs[..])) && AllWellFormed(Reqs(reqs[..]))
    modifies reqs
    ensures 1 <= n <= reqs.Length && Reqs(reqs[..n]) == Merged(old(Reqs(reqs[..])), reqs.Length)
    ensures forall i :: 0 <= i < reqs.Length ==> reqs[i].cb == old(reqs[i]).cb && reqs[i].error == old(reqs[i]).error
  {
    hide Flat, Fold, Merged, Sorted, AllWellFormed, WellFormed, Mergeable, Folded;
    ghost var orig := reqs[..];
    var outidx := 0;
    FoldedAtFirst(orig);
    for i := 1 to reqs.Length
      invariant 0 <= outidx < i && Folded(orig, reqs[..], i, outidx)
    {
      FoldedStep(orig, reqs[..], i, outidx);
      ghost var cur := reqs[..];
      var last, r := reqs[outidx].req, reqs[i].req;
      if Mergeable(last, r) {
        var folded := FoldRequests(last, r);
        reqs[outidx] := reqs[outidx].(req := folded);
        assert reqs[..] == cur[outidx := cur[outidx].(req := folded)];
      } else {
        outidx := outidx + 1;
        reqs[outidx] := reqs[outidx].(req := r);
        assert reqs[..] == cur[outidx := cur[outidx].(req := r)];
      }
    }
    n := outidx + 1;
    FoldedEnd(orig, reqs[..], outidx);
  }

  lemma {:induction false} FoldedEnd(orig: seq<BlockRequest>, cur: seq<BlockRequest>, outidx: nat)
    requires Sorted(Reqs(orig)) && AllWellFormed(Reqs(orig)) && Folded(orig, cur, |orig|, outidx)
    ensures outidx < |cur| == |orig| && Reqs(cur[..outidx + 1]) == Merged(Reqs(orig), |orig|)
    ensures forall j :: 0 <= j < |cur| ==> cur[j].cb == orig[j].cb && cur[j].error == orig[j].error
  {
  }

  /** The new scatter-gather list of a merge step, built by two concatenations. */
  method FoldRequests(a: Request, b: Request) returns (r: Request)
    requires WellFormed(a) && WellFormed(b) && a.sector <= b.sector <= a.sector + a.nbSectors
    ensures r == Fold(a, b)
  {
    hide Flat, Slice;
    var qiov := IovecConcat([], a.qiov, 0, (b.sector - a.sector) * SECTOR);
    qiov := IovecConcat(qiov, b.qiov, 0, |Flat(b.qiov)|);
    r := Request(a.sector, |Flat(qiov)| / SECTOR, qiov);
    assert qiov == Slice(a.qiov, 0, (b.sector - a.sector) * SECTOR) + Slice(b.qiov, 0, |Flat(b.qiov)|);
  }

  /** The first error among the completions, or 0. */
  function FirstError(rets: seq<int>): (e: int)
    ensures e <= 0 && (e == 0 <==> forall i :: 0 <= i < |rets| ==> rets[i] >= 0)
  {
    if rets == [] then 0
    else
      var e := FirstError(rets[..|rets| - 1]);
      if e != 0 then e else if rets[|rets| - 1] < 0 then rets[|rets| - 1] else 0
  }

  lemma {:induction false} FirstErrorIsFirst(rets: seq<int>, k: nat)
    requires k < |rets| && rets[k] < 0 && forall i :: 0 <= i < k ==> rets[i] >= 0
    ensures FirstError(rets) == rets[k]
    decreases |rets|
  {
    if k < |rets| - 1 {
      FirstErrorIsFirst(rets[..|rets| - 1], k);
    }
  }

  /** A callback being called: which one, and with which return value. */
  datatype Fired = Fired(cb: nat, ret: int)

  function AllFired(callbacks: seq<nat>, ret: int): (log: seq<Fired>)
    ensures |log| == |callbacks| && forall i :: 0 <= i < |log| ==> log[i] == Fired(callbacks[i], ret)
  {
    seq(|callbacks|, i requires 0 <= i < |callbacks| => Fired(callbacks[i], ret))
  }

  class MultiwriteCB {
    var error: int
    var numRequests: nat
    const callbacks: seq<nat>
    var fired: seq<Fired>
    ghost var total: nat
    ghost var rets: seq<int>

    /** Before the last completion no callback has run; after it each has run once, in order, with
        the first error. */
    ghost predicate Valid()
      reads this
    {
      numRequests + |rets| == total && 1 <= total && error == FirstError(rets) &&
      fired == if numRequests == 0 then AllFired(callbacks, FirstError(rets)) else []
    }

    constructor (callbacks: seq<nat>, n: nat)
      requires 1 <= n
      ensures Valid() && this.callbacks == callbacks && total == n && rets == [] && fired == []
    {
      this.callbacks := callbacks;
      error, numRequests, fired := 0, n, [];
      total, rets := n, [];
    }

    /** multiwrite_cb: one of the submitted requests has completed. */
    method Complete(ret: int)
      requires Valid() && numRequests > 0
      modifies this
      ensures Valid() && total == old(total) && rets == old(rets) + [ret] && numRequests == old(numRequests) - 1
    {
      assert (rets + [ret])[..|rets + [ret]| - 1] == rets;
      if ret < 0 && error == 0 {
        error := ret;
      }
      rets := rets + [ret];
      numRequests := numRequests - 1;
      if numRequests == 0 {
        UserCb();
      }
    }

    /** multiwrite_user_cb */
    method UserCb()
      requires fired == []
      modifies this`fired
      ensures fired == AllFired(callbacks, error)
    {
      for i := 0 to |callbacks|
        invariant fired == AllFired(callbacks, error)[..i]
      {
        fired := fired + [Fired(callbacks[i], error)];
      }
    }
  }

  function Callbacks(bs: seq<BlockRequest>): (cs: seq<nat>)
    ensures |cs| == |bs| && forall i :: 0 <= i < |bs| ==> cs[i] == bs[i].cb
  {
    seq(|bs|, i requires 0 <= i < |bs| => bs[i].cb)
  }

  /** bdrv_aio_multiwrite. The array as qsort leaves it is a parameter: some sorted rearrangement
      of the requests. Without a medium every request gets the error and nothing is submitted. */
  method AioMultiwrite(hasMedium: bool, reqs: array<BlockRequest>, sorted: seq<BlockRequest>)
    returns (ok: bool, mcb: MultiwriteCB?, submitted: seq<Request>)
    requires multiset(sorted) == multiset(reqs[..]) && |sorted| == reqs.Length
    requires Sorted(Reqs(sorted)) && AllWellFormed(Reqs(sorted))
    modifies reqs
    ensures ok == hasMedium
    ensures !ok ==> mcb == null && submitted == []
    ensures !ok ==> forall i :: 0 <= i < reqs.Length ==> reqs[i] == old(reqs[i]).(error := -ENOMEDIUM)
    ensures ok && reqs.Length == 0 ==> mcb == null && submitted == []
    ensures ok && reqs.Length > 0 ==>
              mcb != null && fresh(mcb) && mcb.Valid() && mcb.rets == [] &&
              mcb.callbacks == old(Callbacks(reqs[..])) && mcb.total == |submitted| &&
              submitted == Merged(Reqs(sorted), reqs.Length)
  {
    mcb, submitted := null, [];
    if !hasMedium {
      for i := 0 to reqs.Length
        invariant forall j :: 0 <= j < reqs.Length ==>
            reqs[j] == if j < i then old(reqs[j]).(error := -ENOMEDIUM) else old(reqs[j])
      {
        reqs[i] := reqs[i].(error := -ENOMEDIUM);
      }
      return false, null, [];
    }
    ok := true;
    if reqs.Length == 0 {
      return;
    }
    var callbacks := Callbacks(reqs[..]);
    forall i | 0 <= i < reqs.Length {
      reqs[i] := sorted[i];
    }
    assert reqs[..] == sorted;
    var n := Merge(reqs);
    submitted := Reqs(reqs[..n]);
    mcb := new MultiwriteCB(callbacks, n);
  }

  /** The whole life of a submission: after every request has completed, each original callback
      has run exactly once, with the first error, and before that none has. */
  method CompleteAll(mcb: MultiwriteCB, rets: seq<int>)
    requires mcb.Valid() && mcb.rets == [] && |rets| <= mcb.total
    modifies mcb
    ensures mcb.Valid() && mcb.rets == rets
    ensures mcb.fired == if |rets| == mcb.total then AllFired(mcb.callbacks, FirstError(rets)) else []
  {
    for i := 0 to |rets|
      invariant mcb.Valid() && mcb.rets == rets[..i] && mcb.total == old(mcb.total)
    {
      mcb.Complete(rets[i]);
      assert rets[..i + 1] == rets[..i] + [rets[i]];
    }
    assert rets[..|rets|] == rets;
  }
}
