/** What a finished request has done, over every run of the protocol: a copy-on-read request has put
    its clusters into the image, a read returns contents seen while it ran, a write has written all
    of its data. And who waits: exactly the requests that meet a cluster in use. */
module CopyOnReadResults {
  import opened CopyOnRead

  // ---------- clusters ----------

  /** x lies in a cluster that the request touches; without cluster information, in the request. */
  ghost predicate InCluster(cluster: nat, r: Request, x: nat) {
    if cluster == 0 then r.sector <= x < r.sector + r.count
    else exists y: nat :: r.sector <= y < r.sector + r.count && SameCluster(cluster, x, y)
  }

  predicate SameCluster(cluster: nat, x: nat, y: nat)
    requires cluster > 0
  {
    x / cluster == y / cluster
  }

  /** The rounded region is the union of the clusters touched. */
  lemma RegionIsClusters(st: State, r: Request, x: nat)
    requires r.count > 0
    ensures x in Region(st, r) <==> InCluster(st.cluster, r, x)
  {
    hide AlignDown;
    var c, e := st.cluster, r.sector + r.count;
    if c > 0 {
      RoundEnd(c, r.sector, r.count);
      StartIsCluster(c, r.sector, x);
      StartBeforeEnd(c, x, e);
      // x is below the rounded end exactly if its cluster begins below the end.
      if x in Region(st, r) {
        var y := if x < r.sector then r.sector else if x < e then x else e - 1;
        ClusterOf(c, x, r.sector, e);
        assert r.sector <= y < e && SameCluster(c, x, y);
      }
      if InCluster(c, r, x) {
        var y: nat :| r.sector <= y < e && SameCluster(c, x, y);
        InSameCluster(c, x, y, r.sector, e);
      }
    }
  }

  /** Being at or past the rounded start is being in no earlier cluster. */
  lemma StartIsCluster(c: nat, s: nat, x: nat)
    requires c > 0
    ensures AlignDown(s, c) <= x <==> s / c <= x / c
  {
    MultipleBelow(s / c, x, c);
  }

  lemma ClusterOf(c: nat, x: nat, s: nat, e: nat)
    requires c > 0 && s < e && s / c <= x / c && AlignDown(x, c) < e
    ensures x / c == (if x < s then s else if x < e then x else e - 1) / c
  {
    if x < s {
      QuotientOrder(x, s, c);
    } else if x >= e {
      QuotientOrder(e - 1, x, c);
      MultipleBelow(x / c, e - 1, c);
    }
  }

  lemma QuotientOrder(a: nat, b: nat, c: nat)
    requires c > 0 && a <= b
    ensures a / c <= b / c
  {
    MultipleBelow(a / c, b, c);
    MultipleBelow(a / c, a, c);
  }

  lemma InSameCluster(c: nat, x: nat, y: nat, s: nat, e: nat)
    requires c > 0 && s <= y < e && x / c == y / c
    ensures s / c <= x / c && AlignDown(x, c) < e
  {
    QuotientOrder(s, y, c);
    AlignBounds(y, c);
  }

  /** Two requests are kept apart exactly if one has a sector in a cluster of the other. */
  lemma OverlapExactly(st: State, a: Request, b: Request)
    requires a.count > 0 && b.count > 0
    ensures OverlapsRounded(st.cluster, a.sector, a.count, b.sector, b.count) <==>
            exists x: nat :: a.sector <= x < a.sector + a.count && InCluster(st.cluster, b, x)
  {
    hide AlignDown, InCluster;
    var s, n := RoundStart(st.cluster, b.sector), RoundCount(st.cluster, b.sector, b.count);
    RegionContains(st, b);
    assert b.sector in Covered(b);
    if OverlapsRounded(st.cluster, a.sector, a.count, b.sector, b.count) {
      var x := if a.sector < s then s else a.sector;
      RegionIsClusters(st, b, x);
      assert a.sector <= x < a.sector + a.count && InCluster(st.cluster, b, x);
    }
    if x: nat :| a.sector <= x < a.sector + a.count && InCluster(st.cluster, b, x) {
      RegionIsClusters(st, b, x);
    }
  }

  /** Without a copy-on-read request about, no other request waits. */
  lemma NobodyWaitsForNothing(st: State, l: Label)
    requires Inv(st) && l.Submit? && !l.kind.CopyOnRead? && Enabled(st, l) && CorIds(st) == {}
    ensures Apply(st, l).reqs[l.id].phase == Started
  {
  }

  /** With one about, or for one itself, a request waits exactly if a tracked one is in the way. */
  lemma WaitsExactly(st: State, l: Label)
    requires Inv(st) && l.Submit? && Enabled(st, l) && (l.kind.CopyOnRead? || CorIds(st) != {})
    ensures Apply(st, l).reqs[l.id].phase.Waiting? <==> MustWait(st, l.sector, l.count)
    ensures !Apply(st, l).reqs[l.id].phase.Waiting? ==> Apply(st, l).reqs[l.id].phase == Started
  {
    hide MustWait;
  }

  // ---------- what copy-on-read leaves in the image ----------

  lemma {:induction false} StaysAllocated(st: State, run: seq<Label>)
    requires Possible(st, run)
    ensures st.overlay.Keys <= After(st, run).overlay.Keys
    decreases |run|
  {
    hide Enabled, Apply;
    if run != [] {
      StaysAllocated(st, run[..|run| - 1]);
      StepKeepsAllocated(After(st, run[..|run| - 1]), run[|run| - 1]);
    }
  }

  /** Main result: when a copy-on-read request finishes, its sectors are in the image, and if it had
      to copy, so is every sector of every cluster it touches. */
  lemma {:induction false} CopyOnReadPopulates(st: State, run: seq<Label>, id: nat, result: seq<Data>, x: nat)
    requires Init(st) && Possible(st, run) && Enabled(After(st, run), Finish(id, result))
    requires After(st, run).reqs[id].kind.CopyOnRead?
    ensures var now, r := After(st, run), After(st, run).reqs[id];
            (r.sector <= x < r.sector + r.count ==> x in now.overlay) &&
            (r.phase.Copying? && r.count > 0 && InCluster(now.cluster, r, x) ==> x in now.overlay)
  {
    hide InCluster, Visible, After, Possible;
    RunKeepsInv(st, run);
    var now, r := After(st, run), After(st, run).reqs[id];
    assert Faithful(now, r);
    RegionContains(now, r);
    assert r.sector <= x < r.sector + r.count ==> x in Covered(r);
    if r.count > 0 {
      RegionIsClusters(now, r, x);
    }
  }

  /** And they stay there: nothing of it is ever read from the backing file again. */
  lemma {:induction false} PopulatedForGood(st: State, run: seq<Label>, id: nat, result: seq<Data>, more: seq<Label>,
                                            x: nat)
    requires Init(st) && Possible(st, run) && Enabled(After(st, run), Finish(id, result))
    requires After(st, run).reqs[id].kind.CopyOnRead? && Possible(After(st, run), more)
    requires After(st, run).reqs[id].sector <= x < After(st, run).reqs[id].sector + After(st, run).reqs[id].count
    ensures x in After(After(st, run), more).overlay
    ensures Visible(After(After(st, run), more), x) == After(After(st, run), more).overlay[x]
  {
    hide Possible, After, Enabled;
    CopyOnReadPopulates(st, run, id, result, x);
    StaysAllocated(After(st, run), more);
  }

  /** Has request id left? */
  predicate Left(run: seq<Label>, id: nat) {
    exists i :: 0 <= i < |run| && (run[i].Finish? || run[i].Fail?) && run[i].id == id
  }

  predicate Copies(run: seq<Label>, id: nat) { exists i :: 0 <= i < |run| && run[i].CopySector? && run[i].id == id }

  /** A request whose sectors were all found allocated copies nothing. */
  lemma {:induction false} AllocatedIsNotCopied(st: State, id: nat, run: seq<Label>)
    requires Enabled(st, Begin(id, true)) && st.reqs[id].kind.CopyOnRead?
    requires Possible(Apply(st, Begin(id, true)), run) && !Left(run, id)
    ensures !Copies(run, id)
    ensures id in After(Apply(st, Begin(id, true)), run).reqs &&
            After(Apply(st, Begin(id, true)), run).reqs[id].phase.Reading?
    decreases |run|
  {
    hide MustWait, Allocate, Region, Covered, Visible, Restarted;
    if run != [] {
      var before := run[..|run| - 1];
      assert forall i :: 0 <= i < |before| ==> before[i] == run[i];
      AllocatedIsNotCopied(st, id, before);
      var l, mid := run[|run| - 1], After(Apply(st, Begin(id, true)), before);
      if l.id != id {
        OthersUntouched(mid, l, id);
      }
    }
  }

  /** A request some of whose sectors were not found allocated reads and copies its whole region: it
      cannot finish in any other way. */
  lemma {:induction false} UnallocatedIsCopied(st: State, id: nat, run: seq<Label>, result: seq<Data>)
    requires Enabled(st, Begin(id, false)) && st.reqs[id].kind.CopyOnRead?
    requires Possible(Apply(st, Begin(id, false)), run) && !Left(run, id)
    ensures id in After(Apply(st, Begin(id, false)), run).reqs
    ensures var r := After(Apply(st, Begin(id, false)), run).reqs[id];
            r.kind.CopyOnRead? && (r.phase.Filling? || r.phase.Copying?)
    ensures Enabled(After(Apply(st, Begin(id, false)), run), Finish(id, result)) ==>
              After(Apply(st, Begin(id, false)), run).reqs[id].phase.Copying?
    decreases |run|
  {
    hide MustWait, Allocate, Region, Covered, Visible, Restarted, Delivers;
    if run != [] {
      var before := run[..|run| - 1];
      assert forall i :: 0 <= i < |before| ==> before[i] == run[i];
      UnallocatedIsCopied(st, id, before, result);
      var l, mid := run[|run| - 1], After(Apply(st, Begin(id, false)), before);
      if l.id != id {
        OthersUntouched(mid, l, id);
      }
    }
  }

  // ---------- what a request does between its submission and its end ----------

  /** This is what was last submitted as id. */
  predicate SubmittedAs(run: seq<Label>, id: nat, kind: Kind, sector: nat, count: nat, data: seq<Data>) {
    run != [] &&
    var l := run[|run| - 1];
    if l.Submit? && l.id == id then kind == l.kind && sector == l.sector && count == l.count && data == l.data
    else SubmittedAs(run[..|run| - 1], id, kind, sector, count, data)
  }

  /** Since its submission id has written d to sector x. */
  predicate WroteSince(run: seq<Label>, id: nat, x: nat, d: Data) {
    run != [] &&
    var l := run[|run| - 1];
    (l.WriteSector? && l.id == id && l.x == x && l.d == d) ||
    (!(l.Submit? && l.id == id) && WroteSince(run[..|run| - 1], id, x, d))
  }

  /** Since its submission id has read sector x, which then showed v. */
  ghost predicate SawSince(st: State, run: seq<Label>, id: nat, x: nat, v: Data)
    requires Possible(st, run)
  {
    run != [] &&
    var l, before := run[|run| - 1], After(st, run[..|run| - 1]);
    (l == ReadSector(id, x) && Visible(before, x) == v) ||
    (!(l.Submit? && l.id == id) && SawSince(st, run[..|run| - 1], id, x, v))
  }

  /** How far request id has come, by its phase. */
  ghost predicate Progress(st: State, run: seq<Label>, id: nat, r: Request)
    requires Possible(st, run)
  {
    SubmittedAs(run, id, r.kind, r.sector, r.count, r.data) &&
    match r.phase
    case Reading(got) => forall x :: x in got ==> SawSince(st, run, id, x, got[x])
    case Writing(left) =>
      r.kind.Write? && |r.data| == r.count &&
      forall x :: x in Covered(r) && x !in left ==> WroteSince(run, id, x, r.data[x - r.sector])
    case _ => true
  }

  lemma {:induction false} RunsProgress(st: State, run: seq<Label>, id: nat)
    requires Init(st) && Possible(st, run) && id in After(st, run).reqs
    ensures Progress(st, run, id, After(st, run).reqs[id])
    decreases |run|
  {
    hide Enabled, Apply, Inv, Progress;
    if run != [] {
      var before, l := run[..|run| - 1], run[|run| - 1];
      RunKeepsInv(st, before);
      if l.id != id {
        OthersComeFrom(After(st, before), l, id);
        RunsProgress(st, before, id);
        OthersProgress(st, run, id);
      } else if l.Submit? {
        SubmissionStarts(st, run);
      } else {
        StillThere(After(st, before), l);
        RunsProgress(st, before, id);
        OwnProgress(st, run);
      }
    }
  }

  lemma OthersComeFrom(st: State, l: Label, id: nat)
    requires Enabled(st, l) && id != l.id && id in Apply(st, l).reqs
    ensures id in st.reqs
  {
    hide MustWait, Allocate, Region, Covered, Visible;
  }

  lemma StillThere(st: State, l: Label)
    requires Enabled(st, l) && !l.Submit?
    ensures l.id in st.reqs
  {
    hide MustWait, Allocate, Region, Covered, Visible;
  }

  lemma OthersProgress(st: State, run: seq<Label>, id: nat)
    requires Possible(st, run) && run != [] && run[|run| - 1].id != id
    requires id in After(st, run[..|run| - 1]).reqs && id in After(st, run).reqs
    requires Progress(st, run[..|run| - 1], id, After(st, run[..|run| - 1]).reqs[id])
    ensures Progress(st, run, id, After(st, run).reqs[id])
  {
    hide Enabled, Apply, Visible, Covered;
    OthersUntouched(After(st, run[..|run| - 1]), run[|run| - 1], id);
  }

  lemma SubmissionStarts(st: State, run: seq<Label>)
    requires Possible(st, run) && run != [] && run[|run| - 1].Submit?
    ensures var id := run[|run| - 1].id; id in After(st, run).reqs && Progress(st, run, id, After(st, run).reqs[id])
  {
    hide MustWait, Allocate, Region, Covered, Visible;
  }

  lemma OwnProgress(st: State, run: seq<Label>)
    requires Possible(st, run) && run != [] && !run[|run| - 1].Submit?
    requires var before, id := run[..|run| - 1], run[|run| - 1].id;
             Inv(After(st, before)) && id in After(st, before).reqs && id in After(st, run).reqs &&
             Progress(st, before, id, After(st, before).reqs[id])
    ensures Progress(st, run, run[|run| - 1].id, After(st, run).reqs[run[|run| - 1].id])
  {
    hide MustWait, Allocate, Region, Serialised, SleepersHaveWaker, CorIds, Visible;
    var before, l := run[..|run| - 1], run[|run| - 1];
    assert Faithful(After(st, before), After(st, before).reqs[l.id]);
  }

  /** Main result: a read returns, for each sector, what the disk showed at some moment between its
      submission and its end. */
  lemma {:induction false} ReadReturnsSeen(st: State, run: seq<Label>, id: nat, result: seq<Data>, i: nat)
    requires Init(st) && Possible(st, run) && Enabled(After(st, run), Finish(id, result))
    requires After(st, run).reqs[id].kind.Read? && i < After(st, run).reqs[id].count
    ensures var r := After(st, run).reqs[id]; SubmittedAs(run, id, r.kind, r.sector, r.count, r.data)
    ensures |result| == After(st, run).reqs[id].count
    ensures SawSince(st, run, id, After(st, run).reqs[id].sector + i, result[i])
  {
    hide After, Possible, SawSince, SubmittedAs, WroteSince, Visible;
    RunKeepsInv(st, run);
    RunsProgress(st, run, id);
    var r := After(st, run).reqs[id];
    assert Faithful(After(st, run), r);
    assert r.sector + i in Covered(r);
  }

  /** Main result: a write that ends has written each of its sectors with its own data. */
  lemma {:induction false} WriteWritesAll(st: State, run: seq<Label>, id: nat, result: seq<Data>, i: nat)
    requires Init(st) && Possible(st, run) && Enabled(After(st, run), Finish(id, result))
    requires After(st, run).reqs[id].kind.Write? && i < After(st, run).reqs[id].count
    ensures var r := After(st, run).reqs[id]; SubmittedAs(run, id, r.kind, r.sector, r.count, r.data)
    ensures |After(st, run).reqs[id].data| == After(st, run).reqs[id].count
    ensures WroteSince(run, id, After(st, run).reqs[id].sector + i, After(st, run).reqs[id].data[i])
  {
    hide After, Possible, SawSince, SubmittedAs, WroteSince, Visible;
    RunKeepsInv(st, run);
    RunsProgress(st, run, id);
    var r := After(st, run).reqs[id];
    assert Faithful(After(st, run), r);
    assert r.sector + i in Covered(r);
  }
}
