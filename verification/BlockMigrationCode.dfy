/** The code of block-migration.c between two points where the environment can run: each
    method is shown to perform a run of the machine, and block_save_complete to leave the
    destination equal to the source. */
module BlockMigrationCode {
  import opened Basics
  import opened BlockMigration

  datatype Scan = Done | More | NeedsDrain | ReadFailed

  /** What the synchronous phase has done: a chunk of `dirty0` that is no longer dirty shows its
      source content, any other shows what the stream held at the start. */
  ghost predicate Repaired(st: State, base: seq<map<nat, Data>>, stream0: seq<Block>, dirty0: seq<set<nat>>)
    requires |base| == |st.devs| && (forall d :: 0 <= d < |st.devs| ==> st.devs[d].src.Keys == base[d].Keys)
  {
    |dirty0| == |st.devs| && forall d, x :: 0 <= d < |st.devs| && x in st.devs[d].src ==>
      RepairedAt(st, stream0, dirty0[d], d, x, st.devs[d].src[x], base[d][x])
  }

  ghost predicate RepairedAt(st: State, stream0: seq<Block>, dirty0: set<nat>, d: nat, x: nat, now: Data, under: Data)
    requires d < |st.devs|
  {
    if x / CHUNK in st.devs[d].dirty then x / CHUNK in dirty0
    else View(st.stream, d, x, now, under) == if x / CHUNK in dirty0 then now else View(stream0, d, x, now, under)
  }

  lemma SendRepairs(st: State, base: seq<map<nat, Data>>, d: nat, stream0: seq<Block>, dirty0: seq<set<nat>>)
    requires WellFormed(st, base) && Enabled(st, DirtySend(d)) && Repaired(st, base, stream0, dirty0)
    ensures WellFormed(Apply(st, DirtySend(d)), base) && Repaired(Apply(st, DirtySend(d)), base, stream0, dirty0)
  {
    hide RepairedAt, Apply, Enabled;
    StepWellFormed(st, base, DirtySend(d));
    SentFacts(st, d);
    var st' := Apply(st, DirtySend(d));
    forall e, x | 0 <= e < |st'.devs| && x in st'.devs[e].src
      ensures RepairedAt(st', stream0, dirty0[e], e, x, st'.devs[e].src[x], base[e][x])
    {
      SentBlock(st, base, d, e, x);
      SendRepairsAt(st, d, stream0, dirty0[e], e, x, base[e][x]);
    }
  }

  /** The block a synchronous send puts on the stream holds exactly the chunk, as it is now. */
  lemma SentBlock(st: State, base: seq<map<nat, Data>>, d: nat, e: nat, x: nat)
    requires WellFormed(st, base) && Enabled(st, DirtySend(d)) && e < |st.devs| && x in st.devs[e].src
    ensures |Apply(st, DirtySend(d)).stream| == |st.stream| + 1
    ensures var b := Apply(st, DirtySend(d)).stream[|st.stream|];
            Apply(st, DirtySend(d)).stream == st.stream + [b] &&
            (b.Holds(e, x) <==> e == d && x / CHUNK == st.devs[d].curDirty / CHUNK) &&
            (b.Holds(e, x) ==> x in b.buf && b.buf[x] == st.devs[e].src[x])
  {
    hide BlocksOk;
  }

  lemma SendRepairsAt(st: State, d: nat, stream0: seq<Block>, dirty0: set<nat>, e: nat, x: nat, under: Data)
    requires Enabled(st, DirtySend(d)) && e < |st.devs| && x in st.devs[e].src
    requires RepairedAt(st, stream0, dirty0, e, x, st.devs[e].src[x], under)
    requires var st' := Apply(st, DirtySend(d));
             |st'.stream| == |st.stream| + 1 &&
             var b := st'.stream[|st.stream|];
             st'.stream == st.stream + [b] && (b.Holds(e, x) <==> e == d && x / CHUNK == st.devs[d].curDirty / CHUNK) &&
             (b.Holds(e, x) ==> x in b.buf && b.buf[x] == st.devs[e].src[x])
    ensures e < |Apply(st, DirtySend(d)).devs|
    ensures RepairedAt(Apply(st, DirtySend(d)), stream0, dirty0, e, x, st.devs[e].src[x], under)
  {
    hide View, Range;
    ViewPush(st.stream, Apply(st, DirtySend(d)).stream[|st.stream|], e, x, st.devs[e].src[x], under);
  }

  /** Chunks the cursor has passed are clean. */
  ghost predicate CleanBelow(dev: Dev) {
    dev.curDirty % CHUNK == 0 && forall c: nat :: c < dev.curDirty / CHUNK ==> c !in dev.dirty
  }

  /** What holds throughout the synchronous phase. */
  ghost predicate Syncing(st: State, base: seq<map<nat, Data>>, stream0: seq<Block>, dirty0: seq<set<nat>>) {
    && WellFormed(st, base) && Quiet(st) && Repaired(st, base, stream0, dirty0)
    && forall d :: 0 <= d < |st.devs| ==> st.devs[d].marked == {} && CleanBelow(st.devs[d])
  }

  lemma MovedSyncing(st: State, base: seq<map<nat, Data>>, stream0: seq<Block>, dirty0: seq<set<nat>>, d: nat, q: nat)
    requires Syncing(st, base, stream0, dirty0) && Scanned(st, d, q)
    ensures Syncing(Moved(st, d, q), base, stream0, dirty0)
  {
    hide View, BlocksOk, Range;
    var st' := Moved(st, d, q);
    BlocksStayOk(st, st', st.stream);
    BlocksStayOk(st, st', st.blkList);
    BlocksStayOk(st, st', st.inflight);
    forall e, x | 0 <= e < |st'.devs| && x in st'.devs[e].src
      ensures RepairedAt(st', stream0, dirty0[e], e, x, st'.devs[e].src[x], base[e][x])
    {
      assert RepairedAt(st, stream0, dirty0[e], e, x, st.devs[e].src[x], base[e][x]);
    }
  }

  lemma SentSyncing(st: State, base: seq<map<nat, Data>>, stream0: seq<Block>, dirty0: seq<set<nat>>, d: nat)
    requires Syncing(st, base, stream0, dirty0) && Enabled(st, DirtySend(d))
    ensures Syncing(Apply(st, DirtySend(d)), base, stream0, dirty0)
  {
    hide View, BlocksOk, Repaired, Range;
    SendRepairs(st, base, d, stream0, dirty0);
  }

  /** The dirty chunks of all devices. */
  ghost function TotalDirty(devs: seq<Dev>): nat {
    if devs == [] then 0 else TotalDirty(devs[..|devs| - 1]) + |devs[|devs| - 1].dirty|
  }

  lemma {:induction false} FewerDirty(devs: seq<Dev>, d: nat, dev: Dev)
    requires d < |devs|
    ensures TotalDirty(devs[d := dev]) == TotalDirty(devs) - |devs[d].dirty| + |dev.dirty|
  {
    var n := |devs| - 1;
    if d == n {
      assert devs[d := dev][..n] == devs[..n];
    } else {
      FewerDirty(devs[..n], d, dev);
      assert devs[d := dev][..n] == devs[..n][d := dev];
    }
  }

  /** A device as migration finds it: guest writes may be under way. */
  datatype Disk = Disk(total: nat, shared: bool, src: map<nat, Data>, alloc: set<nat>, writes: map<nat, GuestWrite>)

  /** The destination has the source's length, and with a shared base its unallocated sectors. */
  ghost predicate GoodDisk(disk: Disk, base: map<nat, Data>) {
    disk.src.Keys == Range(0, disk.total) == base.Keys &&
    (forall id :: id in disk.writes ==> disk.writes[id].sector + disk.writes[id].count <= disk.total) &&
    forall x :: disk.shared && x in disk.src && x !in disk.alloc && x in base ==> disk.src[x] == base[x]
  }

  /** The first of the waiting blocks whose read failed. */
  function FirstFailure(rets: seq<int>): (n: nat)
    ensures n <= |rets| && (forall i :: 0 <= i < n ==> rets[i] >= 0) && (n < |rets| ==> rets[n] < 0)
  {
    if rets == [] || rets[0] < 0 then 0 else 1 + FirstFailure(rets[1..])
  }

  lemma FailureIs(rets: seq<int>, n: nat)
    requires n <= FirstFailure(rets) && n < |rets|
    ensures rets[n] < 0 <==> n == FirstFailure(rets)
  {
  }

  /** How many blocks a flush sends. */
  function Flushable(budget: nat, rets: seq<int>): nat {
    if budget < FirstFailure(rets) then budget else FirstFailure(rets)
  }

  /** The error a flush leaves in the file, 0 for none: it has to come to the failed block. */
  function FlushError(budget: nat, rets: seq<int>): int {
    if FirstFailure(rets) < budget && FirstFailure(rets) < |rets| then rets[FirstFailure(rets)] else 0
  }

  /** block_mig_state. */
  class BlkMigState {
    var devs: seq<Dev>
    var inflight: seq<Block>
    var blkList: seq<Block>
    var stream: seq<Block>
    var submitted: int
    var readDone: int
    var transferred: int

    ghost function Snapshot(): State
      reads this
    {
      State(devs, inflight, blkList, stream, submitted, readDone, transferred)
    }

    /** block_save_setup: cursors at the start, nothing dirty, marked, read or sent. */
    constructor (disks: seq<Disk>, ghost base: seq<map<nat, Data>>)
      requires |base| == |disks| && forall d :: 0 <= d < |disks| ==> GoodDisk(disks[d], base[d])
      ensures Init(Snapshot(), base) && |devs| == |disks|
      ensures forall d :: 0 <= d < |disks| ==> devs[d].src == disks[d].src && devs[d].total == disks[d].total
    {
      devs := seq(|disks|, d requires 0 <= d < |disks| =>
        Dev(disks[d].total, disks[d].shared, 0, 0, {}, {}, disks[d].src, disks[d].alloc, disks[d].writes));
      inflight, blkList, stream := [], [], [];
      submitted, readDone, transferred := 0, 0, 0;
    }

    /** flush_blks; `budget` blocks pass before the rate limit stops it, and rets[i] is what the read
        of the i-th waiting block returned. A block whose read failed is not sent: it stops the
        flush, and its error goes to the file. */
    method FlushBlks(budget: nat, rets: seq<int>) returns (err: int, ghost run: seq<Label>)
      requires Counted(Snapshot()) && |rets| == |blkList|
      modifies this`blkList, this`stream, this`readDone, this`transferred
      ensures Possible(old(Snapshot()), run) && Snapshot() == After(old(Snapshot()), run)
      ensures forall i :: 0 <= i < |run| ==> run[i] == Send
      ensures |run| == Flushable(budget, rets) && err == FlushError(budget, rets)
      ensures stream == old(stream) + old(blkList)[..|run|] && blkList == old(blkList)[|run|..]
      ensures Counted(Snapshot())
    {
      hide Possible, After, FirstFailure;
      run, err := [], 0;
      EmptyRun(Snapshot());
      var n := 0;
      while blkList != []
        invariant Possible(old(Snapshot()), run) && Snapshot() == After(old(Snapshot()), run)
        invariant n == |run| <= budget && n <= FirstFailure(rets) && err == 0
        invariant forall i :: 0 <= i < |run| ==> run[i] == Send
        invariant stream == old(stream) + old(blkList)[..|run|] && blkList == old(blkList)[|run|..]
        invariant Counted(Snapshot())
        decreases |blkList|
      {
        if n == budget {
          break;
        }
        FailureIs(rets, n);
        if rets[n] < 0 {
          err := rets[n];
          break;
        }
        ghost var before := Snapshot();
        stream := stream + [blkList[0]];
        blkList := blkList[1..];
        readDone := readDone - 1;
        transferred := transferred + 1;
        assert readDone >= 0;
        n := n + 1;
        assert Snapshot() == Apply(before, Send);
        run := Step(old(Snapshot()), run, Send);
      }
    }

    /** bdrv_is_allocated: whether `sector` is present, and for how many sectors, at least one,
        that answer is known to hold. */
    method IsAllocated(d: nat, sector: nat) returns (present: bool, n: nat)
      requires d < |devs| && sector < devs[d].total
      ensures 1 <= n && sector + n <= devs[d].total && present == (sector in devs[d].alloc)
      ensures !present ==> Range(sector, sector + n) !! devs[d].alloc
    {
      present, n := sector in devs[d].alloc, 1;
    }

    /** mig_save_device_bulk: with a shared base it passes over unallocated sectors up to `at`, the
        first allocated one or the end, then reads the whole chunk `at` is in. Returns whether the
        bulk phase of d is complete. */
    method MigSaveDeviceBulk(d: nat) returns (done: bool, ghost run: seq<Label>, ghost at: nat)
      requires d < |devs| && devs[d].cur <= devs[d].total
      modifies this`devs, this`inflight, this`submitted
      ensures Possible(old(Snapshot()), run) && Snapshot() == After(old(Snapshot()), run)
      ensures SkipsThenRead(run, d, at < old(devs[d].total))
      ensures old(devs[d].cur) <= at <= old(devs[d].total) && Range(old(devs[d].cur), at) !! old(devs[d].alloc)
      ensures if old(devs[d].shared) then at < old(devs[d].total) ==> at in old(devs[d].alloc)
                else at == old(devs[d].cur)
      ensures var st := SetDev(old(Snapshot()), d, old(devs[d]).(cur := at));
              Snapshot() == if at < old(devs[d].total) then Apply(st, BulkSubmit(d)) else st
      ensures |devs| == |old(devs)| && done == (devs[d].cur >= devs[d].total) &&
              (old(devs[d].cur < devs[d].total) ==> old(devs[d].cur) < devs[d].cur)
    {
      hide Possible, After, Apply, Range;
      run, at := SkipUnallocated(d);
      if devs[d].cur >= devs[d].total {
        return true, run, at;
      }
      run := Step(old(Snapshot()), run, BulkSubmit(d));
      done := SubmitBulk(d);
    }

    /** The loop over bdrv_is_allocated, for a device with a shared base. */
    method SkipUnallocated(d: nat) returns (ghost run: seq<Label>, ghost at: nat)
      requires d < |devs| && devs[d].cur <= devs[d].total
      modifies this`devs
      ensures Possible(old(Snapshot()), run) && Snapshot() == After(old(Snapshot()), run) &&
              SkipsThenRead(run, d, false)
      ensures old(devs[d].cur) <= at <= old(devs[d].total) && Range(old(devs[d].cur), at) !! old(devs[d].alloc)
      ensures if old(devs[d].shared) then at < old(devs[d].total) ==> at in old(devs[d].alloc)
                else at == old(devs[d].cur)
      ensures Snapshot() == SetDev(old(Snapshot()), d, old(devs[d]).(cur := at))
    {
      hide Possible, After, Apply, Range;
      run, at := [], devs[d].cur;
      EmptyRun(Snapshot());
      assert devs == devs[d := devs[d].(cur := at)];
      NothingSkipped(at, devs[d].alloc);
      if !devs[d].shared {
        return;
      }
      var total := devs[d].total;
      while devs[d].cur < total
        invariant Possible(old(Snapshot()), run) && Snapshot() == After(old(Snapshot()), run) &&
                  SkipsThenRead(run, d, false)
        invariant devs == old(devs)[d := old(devs)[d].(cur := at)] && at <= total
        invariant old(devs[d].cur) <= at && Range(old(devs[d].cur), at) !! old(devs[d].alloc)
        decreases total - at
      {
        var present, n := IsAllocated(d, devs[d].cur);
        if present {
          break;
        }
        run := Step(old(Snapshot()), run, BulkSkip(d, n));
        BulkSteps(Snapshot(), d, n);
        MoreSkipped(old(devs[d].cur), at, at + n, devs[d].alloc);
        at := at + n;
        devs := devs[d := devs[d].(cur := devs[d].cur + n)];
      }
    }

    /** Read the chunk the cursor is in and move the cursor past it. */
    method SubmitBulk(d: nat) returns (done: bool)
      requires d < |devs| && devs[d].cur < devs[d].total
      modifies this`devs, this`inflight, this`submitted
      ensures Snapshot() == old(Apply(Snapshot(), BulkSubmit(d)))
      ensures |devs| == |old(devs)| && done == (devs[d].cur >= devs[d].total) && old(devs[d].cur) < devs[d].cur
    {
      hide Apply, Range;
      BulkSteps(Snapshot(), d, 0);
      var dev := devs[d];
      var sector := dev.cur / CHUNK * CHUNK;
      var nr := ChunkLength(dev.total, sector);
      inflight := inflight + [Block(d, sector, nr, map[])];
      submitted := submitted + 1;
      devs := devs[d := dev.(cur := sector + nr, dirty := dev.dirty - {sector / CHUNK})];
      done := sector + nr >= dev.total;
    }

    /** blk_mig_read_cb for the k-th read in flight. */
    method BlkMigReadCb(k: nat)
      requires Counted(Snapshot()) && k < |inflight| && inflight[k].Full() && inflight[k].dev < |devs|
      modifies this`devs, this`inflight, this`blkList, this`submitted, this`readDone
      ensures Snapshot() == Apply(old(Snapshot()), Complete(k)) && Counted(Snapshot())
    {
      var blk := inflight[k];
      inflight := inflight[..k] + inflight[k + 1..];
      blkList := blkList + [blk];
      devs := devs[blk.dev := devs[blk.dev].(marked := devs[blk.dev].marked - {blk.sector / CHUNK})];
      submitted := submitted - 1;
      readDone := readDone + 1;
      assert submitted >= 0;
    }

    /** mig_save_device_dirty. Where the code calls bdrv_drain_all it returns NeedsDrain; the
        cursor makes the next call go on from the same sector. A synchronous read that fails, with
        readRet, leaves the chunk dirty and sends nothing. */
    method MigSaveDeviceDirty(d: nat, isAsync: bool, readRet: int, ghost base: seq<map<nat, Data>>)
      returns (r: Scan, ghost q: nat)
      requires WellFormed(Snapshot(), base) && d < |devs| && devs[d].cur == devs[d].total
      modifies this`devs, this`inflight, this`stream, this`submitted
      ensures Scanned(old(Snapshot()), d, q)
      ensures forall c :: old(devs[d].curDirty) / CHUNK <= c < q / CHUNK ==> c !in old(devs[d].marked)
      ensures r.Done? <==> q >= old(devs[d].total)
      ensures r.NeedsDrain? <==> q < old(devs[d].total) && q / CHUNK in old(devs[d].marked)
      ensures r.ReadFailed? ==> !isAsync && readRet < 0 && q / CHUNK in old(devs[d].dirty)
      ensures r.More? ==> isAsync || readRet >= 0
      ensures !r.More? ==> Snapshot() == Moved(old(Snapshot()), d, q)
      ensures r.More? ==> var l := if isAsync then DirtySubmit(d) else DirtySend(d);
                          Enabled(Moved(old(Snapshot()), d, q), l) &&
                          Snapshot() == Apply(Moved(old(Snapshot()), d, q), l)
    {
      hide WellFormed, Apply, Enabled, Range;
      q := devs[d].curDirty;
      ghost var st := Snapshot();
      WellFormedDev(st, base, d);
      assert st == Moved(st, d, q);
      while devs[d].curDirty < devs[d].total
        invariant Scanned(st, d, q) && Snapshot() == Moved(st, d, q)
        invariant forall c :: st.devs[d].curDirty / CHUNK <= c < q / CHUNK ==> c !in st.devs[d].marked
        decreases devs[d].total - devs[d].curDirty
      {
        var dev := devs[d];
        var sector, c := dev.curDirty, dev.curDirty / CHUNK;
        if c in dev.marked {
          return NeedsDrain, q;
        }
        if c in dev.dirty {
          if !isAsync && readRet < 0 {
            return ReadFailed, q;
          }
          TakeDirty(d, isAsync);
          return More, q;
        }
        devs := devs[d := dev.(curDirty := sector + CHUNK)];
        q := q + CHUNK;
        assert devs == Moved(st, d, q).devs;
      }
      r := Done;
    }

    /** The chunk under the cursor: read in the background, or at once into the stream. */
    method TakeDirty(d: nat, isAsync: bool)
      requires d < |devs| && devs[d].cur == devs[d].total && devs[d].curDirty < devs[d].total
      requires devs[d].curDirty / CHUNK in devs[d].dirty && devs[d].curDirty / CHUNK !in devs[d].marked
      requires devs[d].src.Keys == Range(0, devs[d].total)
      modifies this`devs, this`inflight, this`stream, this`submitted
      ensures var l := if isAsync then DirtySubmit(d) else DirtySend(d);
              old(Enabled(Snapshot(), l)) && Snapshot() == old(Apply(Snapshot(), l))
    {
      var dev := devs[d];
      var sector, c := dev.curDirty, dev.curDirty / CHUNK;
      var nr := ChunkLength(dev.total, sector);
      if isAsync {
        inflight := inflight + [Block(d, sector, nr, map[])];
        submitted := submitted + 1;
        devs := devs[d := dev.(dirty := dev.dirty - {c}, marked := dev.marked + {c})];
      } else {
        stream := stream + [Block(d, sector, nr, map x | x in Range(sector, sector + nr) :: dev.src[x])];
        devs := devs[d := dev.(dirty := dev.dirty - {c})];
      }
    }

    /** blk_mig_save_dirty_block with is_async = 0, once the guest is stopped; readRet is what its read
        returns, if it comes to one. After a failed read it returns as after any other: it asks to be
        called again. */
    method SaveDirtyBlockSync(readRet: int, ghost base: seq<map<nat, Data>>, ghost stream0: seq<Block>,
                              ghost dirty0: seq<set<nat>>) returns (more: bool)
      requires Syncing(Snapshot(), base, stream0, dirty0)
      modifies this`devs, this`inflight, this`stream, this`submitted
      ensures Syncing(Snapshot(), base, stream0, dirty0) && |devs| == |old(devs)|
      ensures forall d :: 0 <= d < |devs| ==> devs[d].src == old(devs[d].src) && devs[d].total == old(devs[d].total)
      ensures if more && readRet >= 0 then TotalDirty(devs) < TotalDirty(old(devs))
              else TotalDirty(devs) == TotalDirty(old(devs)) && stream == old(stream)
      ensures !more ==> forall d :: 0 <= d < |devs| ==> devs[d].curDirty >= devs[d].total
    {
      hide WellFormed, Repaired, Quiet, Moved, Apply;
      for d := 0 to |devs|
        invariant Syncing(Snapshot(), base, stream0, dirty0) && |devs| == |old(devs)| && stream == old(stream)
        invariant forall e :: 0 <= e < |devs| ==> devs[e].src == old(devs[e].src) && devs[e].total == old(devs[e].total)
        invariant TotalDirty(devs) == TotalDirty(old(devs))
        invariant forall e :: 0 <= e < d ==> devs[e].curDirty >= devs[e].total
      {
        ghost var st := Snapshot();
        QuietDev(st, d);
        ghost var q;
        var r;
        r, q := MigSaveDeviceDirty(d, false, readRet, base);
        MovedSyncing(st, base, stream0, dirty0, d, q);
        MovedFacts(st, d, q);
        if r == ReadFailed {
          return true;
        }
        if r == More {
          SentSyncing(Moved(st, d, q), base, stream0, dirty0, d);
          SentFacts(Moved(st, d, q), d);
          return true;
        }
        assert st.devs[d].marked == {};
      }
      more := false;
    }

    /** blk_mig_reset_dirty_cursor */
    method ResetDirtyCursor()
      modifies this`devs
      ensures Snapshot() == Apply(old(Snapshot()), ResetCursors)
    {
      for d := 0 to |devs|
        invariant |devs| == |old(devs)|
        invariant forall e :: 0 <= e < |devs| ==>
                    devs[e] == if e < d then old(devs[e]).(curDirty := 0) else old(devs[e])
      {
        devs := devs[d := devs[d].(curDirty := 0)];
      }
    }

    /** block_save_complete, up to the cleanup: flush, reset the cursors, then send every dirty
        chunk synchronously. A failed read among the flushed blocks ends it with that error and
        nothing more sent. Otherwise it terminates with every chunk clean, and the destination
        equals the source exactly if what a cut-short flush left behind is in the stream already;
        it returns the last error of the synchronous reads, which were tried until they succeeded. */
    method BlockSaveComplete(budget: nat, rets: seq<int>, answers: seq<int>, ghost base: seq<map<nat, Data>>)
      returns (ret: int, ghost flushed: seq<Block>, ghost used: nat)
      requires Inv(Snapshot(), base) && MarksOk(Snapshot()) && Quiet(Snapshot()) && |rets| == |blkList|
      modifies this
      ensures used <= |answers| && blkList == []
      ensures ret == if FlushError(budget, rets) != 0 then FlushError(budget, rets) else LastError(answers[..used])
      ensures flushed == old(stream) + old(blkList)[..Flushable(budget, rets)]
      ensures |devs| == |old(devs)| && forall d :: 0 <= d < |devs| ==> devs[d].src == old(devs[d].src)
      ensures WellFormed(Snapshot(), base)
      ensures if FlushError(budget, rets) != 0 then stream == flushed && devs == old(devs)
              else Clean(Snapshot()) && Repaired(Snapshot(), base, flushed, DirtySets(old(devs)))
      ensures FlushError(budget, rets) == 0 ==>
                (SameDisks(Snapshot(), base) <==>
                 NothingNewLeft(old(devs), base, flushed, old(blkList)[Flushable(budget, rets)..]))
      ensures FlushError(budget, rets) == 0 && budget >= |old(blkList)| ==> SameDisks(Snapshot(), base)
    {
      hide Inv, WellFormed, Quiet, Repaired, After, Possible, SafeRun, MarksOk, Clean, SameDisks, View, Flushable,
           FlushError, LastError, Syncing;
      ghost var st := Snapshot();
      InvParts(st, base);
      ghost var run;
      ret, run := FlushBlks(budget, rets);
      flushed, used := stream, 0;
      ghost var mid := Snapshot();
      SendsKeepInv(st, base, run);
      MidParts(mid, base);
      if ret != 0 {
        blkList := [];
        DropWaiting(mid, base);
        return;
      }
      ghost var dirty0 := DirtySets(st.devs);
      // assert(block_mig_state.submitted == 0)
      assert submitted == 0;
      ResetDirtyCursor();
      StartSyncing(mid, base);
      ret, used := SendAllDirty(answers, base, flushed, dirty0);
      // blk_mig_cleanup frees what the flush left behind.
      ghost var last := Snapshot();
      blkList := [];
      Cleanup(last, Snapshot(), base, flushed, dirty0);
      CompletedExactly(mid, base, Snapshot());
      FlushedAll(budget, rets);
    }

    /** The loop over blk_mig_save_dirty_block. answers are what the first synchronous reads return, those
        after them succeed; the error of the last that failed stays in the file. Should reads never
        stop failing, no turn would get further, as SaveDirtyBlockSync shows. */
    method SendAllDirty(answers: seq<int>, ghost base: seq<map<nat, Data>>, ghost stream0: seq<Block>,
                        ghost dirty0: seq<set<nat>>) returns (err: int, ghost used: nat)
      requires Syncing(Snapshot(), base, stream0, dirty0)
      modifies this`devs, this`inflight, this`stream, this`submitted
      ensures |devs| == |old(devs)| && forall d :: 0 <= d < |devs| ==> devs[d].src == old(devs[d].src)
      ensures WellFormed(Snapshot(), base) && Repaired(Snapshot(), base, stream0, dirty0) && Clean(Snapshot()) &&
              Quiet(Snapshot())
      ensures used <= |answers| && err == LastError(answers[..used])
      ensures err == 0 <==> forall i :: 0 <= i < used ==> answers[i] >= 0
    {
      hide WellFormed, Quiet, Repaired, Clean, Syncing;
      err, used := 0, 0;
      var n := 0;
      while true
        invariant 0 <= n == used <= |answers| && err == LastError(answers[..used])
        invariant Syncing(Snapshot(), base, stream0, dirty0) && |devs| == |old(devs)|
        invariant forall d :: 0 <= d < |devs| ==> devs[d].src == old(devs[d].src)
        decreases |answers| - n, TotalDirty(devs)
      {
        var readRet := if n < |answers| then answers[n] else 0;
        var more := SaveDirtyBlockSync(readRet, base, stream0, dirty0);
        if !more {
          NoError(answers[..used]);
          break;
        }
        if n < |answers| {
          assert answers[..n + 1] == answers[..n] + [readRet];
          if readRet < 0 {
            err := readRet;
          }
          n, used := n + 1, used + 1;
        }
      }
      ScanEnd(Snapshot(), base, stream0, dirty0);
    }
  }

  /** The last of the errors, 0 if there is none. */
  function LastError(answers: seq<int>): int {
    if answers == [] then 0
    else if answers[|answers| - 1] < 0 then answers[|answers| - 1]
    else LastError(answers[..|answers| - 1])
  }

  lemma {:induction false} NoError(answers: seq<int>)
    ensures LastError(answers) <= 0 && (LastError(answers) == 0 <==> forall i :: 0 <= i < |answers| ==> answers[i] >= 0)
  {
    if answers != [] {
      NoError(answers[..|answers| - 1]);
    }
  }

  lemma DropWaiting(st: State, base: seq<map<nat, Data>>)
    requires WellFormed(st, base)
    ensures WellFormed(st.(blkList := []), base)
  {
  }

  lemma FlushedAll(budget: nat, rets: seq<int>)
    requires FlushError(budget, rets) == 0
    ensures budget >= |rets| ==> Flushable(budget, rets) == |rets|
  {
  }

  /** A whole migration: set-up, any safe run of guest writes and migration steps, completion with
      the guest stopped. Unless the last flush comes to a failed read, every chunk ends clean and the
      destination equals the source exactly if that flush left nothing new behind. */
  method CompleteRun(mig: BlkMigState, budget: nat, rets: seq<int>, answers: seq<int>, ghost st: State,
                     ghost base: seq<map<nat, Data>>, ghost run: seq<Label>)
    returns (ret: int, ghost flushed: seq<Block>, ghost used: nat)
    requires Init(st, base) && Possible(st, run) && SafeRun(st, run) && mig.Snapshot() == After(st, run) &&
             Quiet(After(st, run))
    requires |rets| == |mig.blkList|
    modifies mig
    ensures |mig.devs| == |old(mig.devs)| == |base| && used <= |answers|
    ensures ret == if FlushError(budget, rets) != 0 then FlushError(budget, rets) else LastError(answers[..used])
    ensures forall d :: 0 <= d < |base| ==> mig.devs[d].src == old(mig.devs)[d].src
    ensures FlushError(budget, rets) == 0 ==> Clean(mig.Snapshot())
    ensures FlushError(budget, rets) == 0 ==>
              (SameDisks(mig.Snapshot(), base) <==>
               NothingNewLeft(old(mig.devs), base, flushed, old(mig.blkList)[Flushable(budget, rets)..]))
    ensures FlushError(budget, rets) == 0 && budget >= |old(mig.blkList)| ==> SameDisks(mig.Snapshot(), base)
  {
    hide Possible, SafeRun, After, Inv, MarksOk, Clean, SameDisks, NothingNewLeft, Init, Repaired, Flushable,
         FlushError, LastError;
    RunKeepsInv(st, base, run);
    RunKeepsMarks(st, base, run);
    InvParts(mig.Snapshot(), base);
    ret, flushed, used := mig.BlockSaveComplete(budget, rets, answers, base);
  }

  function DirtySets(devs: seq<Dev>): seq<set<nat>> {
    seq(|devs|, d requires 0 <= d < |devs| => devs[d].dirty)
  }

  lemma InvParts(st: State, base: seq<map<nat, Data>>)
    requires Inv(st, base) && Quiet(st)
    ensures Counted(st) && WellFormed(st, base) && st.inflight == []
  {
  }

  lemma MidParts(st: State, base: seq<map<nat, Data>>)
    requires Inv(st, base)
    ensures WellFormed(st, base)
  {
  }

  lemma {:induction false} SendsAreSafe(st: State, run: seq<Label>)
    requires Possible(st, run) && forall i :: 0 <= i < |run| ==> run[i] == Send
    ensures SafeRun(st, run) && After(st, run).devs == st.devs && After(st, run).inflight == st.inflight
    decreases |run|
  {
    if run != [] {
      SendsAreSafe(st, run[..|run| - 1]);
    }
  }

  lemma SendsKeepInv(st: State, base: seq<map<nat, Data>>, run: seq<Label>)
    requires Inv(st, base) && MarksOk(st) && Quiet(st) && Possible(st, run) &&
             forall i :: 0 <= i < |run| ==> run[i] == Send
    ensures Inv(After(st, run), base) && MarksOk(After(st, run)) && Quiet(After(st, run)) &&
            After(st, run).devs == st.devs
    ensures After(st, run).submitted == 0
  {
    hide Possible, SafeRun, After;
    SendsAreSafe(st, run);
    RunFromInv(st, base, run);
  }

  lemma StartSyncing(st: State, base: seq<map<nat, Data>>)
    requires Inv(st, base) && MarksOk(st) && Quiet(st)
    ensures Syncing(Apply(st, ResetCursors), base, st.stream, DirtySets(st.devs))
  {
    hide View, BlocksOk, Range;
    StepWellFormed(st, base, ResetCursors);
    forall d | 0 <= d < |st.devs|
      ensures st.devs[d].marked == {}
    {
      assert forall c :: !ReadInFlight(st.inflight, d, c);
    }
  }

  /** At the end of the scan no chunk of a device is dirty. */
  lemma ScanEnd(st: State, base: seq<map<nat, Data>>, stream0: seq<Block>, dirty0: seq<set<nat>>)
    requires Syncing(st, base, stream0, dirty0) &&
             forall d :: 0 <= d < |st.devs| ==> st.devs[d].curDirty >= st.devs[d].total
    ensures WellFormed(st, base) && Repaired(st, base, stream0, dirty0) && Clean(st) && Quiet(st)
  {
    hide View, BlocksOk, Repaired, Range, Quiet;
    forall d, x | 0 <= d < |st.devs| && 0 <= x < st.devs[d].total
      ensures x / CHUNK !in st.devs[d].dirty
    {
      assert CleanBelow(st.devs[d]);
      assert x / CHUNK < st.devs[d].curDirty / CHUNK;
    }
  }

  lemma Cleanup(st: State, st': State, base: seq<map<nat, Data>>, stream0: seq<Block>, dirty0: seq<set<nat>>)
    requires WellFormed(st, base) && Repaired(st, base, stream0, dirty0) && Clean(st) && Quiet(st)
    requires st' == st.(blkList := [])
    ensures WellFormed(st', base) && Repaired(st', base, stream0, dirty0) && Clean(st') && Quiet(st')
  {
    hide View, Range;
    forall d, x | 0 <= d < |st'.devs| && x in st'.devs[d].src
      ensures RepairedAt(st', stream0, dirty0[d], d, x, st'.devs[d].src[x], base[d][x])
    {
      assert RepairedAt(st, stream0, dirty0[d], d, x, st.devs[d].src[x], base[d][x]);
    }
  }

  /** Of a clean sector, the newest copy among the blocks left behind is what the stream shows. */
  ghost predicate NothingNewLeft(devs: seq<Dev>, base: seq<map<nat, Data>>, stream: seq<Block>, left: seq<Block>)
  {
    |base| == |devs| &&
    forall d, x :: 0 <= d < |devs| && x in base[d] && x / CHUNK !in devs[d].dirty && !Absent(left, d, x) ==>
      View(left, d, x, base[d][x], base[d][x]) == View(stream, d, x, base[d][x], base[d][x])
  }

  /** A pipe of completed reads shows the same whatever the source holds now. */
  lemma {:induction false} FullView(pipe: seq<Block>, d: nat, x: nat, now: Data, other: Data, under: Data)
    requires forall i :: 0 <= i < |pipe| ==> pipe[i].Full()
    ensures View(pipe, d, x, now, under) == View(pipe, d, x, other, under)
    decreases |pipe|
  {
    if pipe != [] {
      FullView(pipe[..|pipe| - 1], d, x, now, other, under);
    }
  }

  /** One clean sector: the stream is current exactly if nothing left behind differs from it. */
  lemma CurrentExactly(st: State, base: seq<map<nat, Data>>, d: nat, x: nat)
    requires Inv(st, base) && Quiet(st) && d < |st.devs| && x in st.devs[d].src && x / CHUNK !in st.devs[d].dirty
    ensures x in base[d]
    ensures var now, u := st.devs[d].src[x], base[d][x];
            View(st.stream, d, x, now, u) == now <==>
            (Absent(st.blkList, d, x) || View(st.blkList, d, x, u, u) == View(st.stream, d, x, u, u))
  {
    hide View, BlocksOk;
    assert Settled(st, base, d, x);
    var now, u := st.devs[d].src[x], base[d][x];
    assert Pipe(st) == st.stream + st.blkList;
    ViewConcat(st.stream, st.blkList, d, x, now, u);
    FullView(st.stream, d, x, now, u, u);
    FullView(st.blkList, d, x, now, u, u);
    if Absent(st.blkList, d, x) {
      ViewAbsent(st.blkList, d, x, now, View(st.stream, d, x, now, u));
    } else {
      ViewIgnoresOld(st.blkList, d, x, now, View(st.stream, d, x, now, u), u);
    }
  }

  /** Whatever a flush left behind in st: after the synchronous phase the destination equals the
      source exactly if no block left behind holds something the stream does not show already. */
  lemma CompletedExactly(st: State, base: seq<map<nat, Data>>, end: State)
    requires Inv(st, base) && Quiet(st) && WellFormed(st, base) && WellFormed(end, base)
    requires Repaired(end, base, st.stream, DirtySets(st.devs)) && Clean(end)
    requires |end.devs| == |st.devs| && forall d :: 0 <= d < |st.devs| ==> end.devs[d].src == st.devs[d].src
    ensures SameDisks(end, base) <==> NothingNewLeft(st.devs, base, st.stream, st.blkList)
  {
    hide View, Load, Inv, Absent;
    var dirty0 := DirtySets(st.devs);
    assert forall i :: 0 <= i < |end.stream| ==> WellFormedBlock(end, end.stream[i]) && end.stream[i].Full();
    forall d, x | 0 <= d < |st.devs| && x in st.devs[d].src
      ensures x in Load(base, end.stream)[d] && x in base[d]
      ensures Load(base, end.stream)[d][x] == st.devs[d].src[x] <==>
              (x / CHUNK in dirty0[d] || Absent(st.blkList, d, x) ||
               View(st.blkList, d, x, base[d][x], base[d][x]) == View(st.stream, d, x, base[d][x], base[d][x]))
    {
      assert RepairedAt(end, st.stream, dirty0[d], d, x, st.devs[d].src[x], base[d][x]);
      LoadIsView(base, end.stream, d, x, st.devs[d].src[x]);
      if x / CHUNK !in dirty0[d] {
        CurrentExactly(st, base, d, x);
      }
    }
  }

  lemma QuietDev(st: State, d: nat)
    requires Quiet(st) && d < |st.devs|
    ensures st.devs[d].cur == st.devs[d].total
  {
  }

  lemma MovedFacts(st: State, d: nat, q: nat)
    requires d < |st.devs|
    ensures var st' := Moved(st, d, q);
            |st'.devs| == |st.devs| && TotalDirty(st'.devs) == TotalDirty(st.devs) && st'.devs[d].curDirty == q &&
            st'.stream == st.stream &&
            (forall e :: 0 <= e < |st.devs| ==>
               st'.devs[e].src == st.devs[e].src && st'.devs[e].total == st.devs[e].total) &&
            forall e :: 0 <= e < |st.devs| && e != d ==> st'.devs[e] == st.devs[e]
  {
    FewerDirty(st.devs, d, st.devs[d].(curDirty := q));
  }

  lemma SentFacts(st: State, d: nat)
    requires Enabled(st, DirtySend(d))
    ensures var st' := Apply(st, DirtySend(d));
            |st'.devs| == |st.devs| && TotalDirty(st'.devs) < TotalDirty(st.devs) &&
            forall e :: 0 <= e < |st.devs| ==>
              st'.devs[e].src == st.devs[e].src && st'.devs[e].total == st.devs[e].total
  {
    var dev := st.devs[d];
    FewerDirty(st.devs, d, dev.(dirty := dev.dirty - {dev.curDirty / CHUNK}));
  }

  /** Skips of unallocated sectors of d, then one read of a chunk of d if `read`. */
  ghost predicate SkipsThenRead(run: seq<Label>, d: nat, read: bool) {
    var n := |run| - if read then 1 else 0;
    0 <= n && (read ==> run[n] == BulkSubmit(d)) && forall i :: 0 <= i < n ==> run[i].BulkSkip? && run[i].d == d
  }

  lemma NothingSkipped(at: nat, alloc: set<nat>)
    ensures Range(at, at) !! alloc
  {
  }

  lemma MoreSkipped(lo: nat, mid: nat, hi: nat, alloc: set<nat>)
    requires lo <= mid <= hi && Range(lo, mid) !! alloc && Range(mid, hi) !! alloc
    ensures Range(lo, hi) !! alloc
  {
  }

  lemma BulkSteps(st: State, d: nat, n: nat)
    requires d < |st.devs|
    ensures Enabled(st, BulkSkip(d, n)) ==>
              Apply(st, BulkSkip(d, n)) == SetDev(st, d, st.devs[d].(cur := st.devs[d].cur + n))
    ensures Enabled(st, BulkSubmit(d)) ==>
              var dev, s := st.devs[d], st.devs[d].cur / CHUNK * CHUNK;
              var nr := ChunkLength(dev.total, s);
              Apply(st, BulkSubmit(d)) ==
                st.(devs := st.devs[d := dev.(cur := s + nr, dirty := dev.dirty - {s / CHUNK})],
                    inflight := st.inflight + [Block(d, s, nr, map[])], submitted := st.submitted + 1)
  {
  }

  /** The state with device d's dirty cursor at q. */
  function Moved(st: State, d: nat, q: nat): State
    requires d < |st.devs|
  {
    SetDev(st, d, st.devs[d].(curDirty := q))
  }

  /** The scan from the cursor to q passed only clean chunks. */
  ghost predicate Scanned(st: State, d: nat, q: nat) {
    d < |st.devs| && st.devs[d].curDirty <= q && q % CHUNK == 0 && st.devs[d].curDirty % CHUNK == 0 &&
    forall c :: st.devs[d].curDirty / CHUNK <= c < q / CHUNK ==> c !in st.devs[d].dirty
  }

  lemma WellFormedDev(st: State, base: seq<map<nat, Data>>, d: nat)
    requires WellFormed(st, base) && d < |st.devs|
    ensures st.devs[d].curDirty % CHUNK == 0 && st.devs[d].src.Keys == Range(0, st.devs[d].total)
  {
  }

  /** Moving the cursor over clean chunks is a run of the machine. */
  lemma {:induction false} ScanIsRun(st: State, d: nat, q: nat) returns (run: seq<Label>)
    requires Scanned(st, d, q) && q < st.devs[d].total + CHUNK
    ensures Possible(st, run) && After(st, run) == Moved(st, d, q)
    ensures forall i :: 0 <= i < |run| ==> run[i] == DirtySkip(d)
    decreases q
  {
    hide Possible, After, Apply, Enabled;
    if q == st.devs[d].curDirty {
      run := [];
      EmptyRun(st);
      assert st.devs == Moved(st, d, q).devs;
    } else {
      run := ScanIsRun(st, d, q - CHUNK);
      SkipOne(st, d, q);
      run := Step(st, run, DirtySkip(d));
    }
  }

  lemma SkipOne(st: State, d: nat, q: nat)
    requires Scanned(st, d, q) && st.devs[d].curDirty + CHUNK <= q < st.devs[d].total + CHUNK
    ensures Enabled(Moved(st, d, q - CHUNK), DirtySkip(d))
    ensures Apply(Moved(st, d, q - CHUNK), DirtySkip(d)) == Moved(st, d, q)
  {
    assert (q - CHUNK) / CHUNK !in st.devs[d].dirty;
    assert Apply(Moved(st, d, q - CHUNK), DirtySkip(d)).devs == Moved(st, d, q).devs;
  }

  // ---------- block_load ----------

  /** One record of the stream: a device block, a progress report, the end mark, or anything else. */
  datatype Record = DeviceBlock(blk: Block) | Progress(percent: nat) | Eos | Unknown

  /** What the write of a block comes to. A write that fails leaves the sectors it was to write with
      whatever is in `left`. */
  datatype Write = Written | Failed(error: int, left: map<nat, Data>)

  /** The block as block_load writes it: its length follows from the length of the device here. */
  function Fitted(b: Block, totals: seq<int>): Block {
    if b.dev < |totals| && b.sector <= totals[b.dev] then b.(nr := ChunkLength(totals[b.dev], b.sector)) else b
  }

  /** The device blocks of a stream, as they are written. */
  function BlocksOf(f: seq<Record>, totals: seq<int>): seq<Block> {
    if f == [] then []
    else BlocksOf(f[..|f| - 1], totals) + if f[|f| - 1].DeviceBlock? then [Fitted(f[|f| - 1].blk, totals)] else []
  }

  /** What block_load answers to a record, 0 if it goes on: totals[d] is the length of device d in
      sectors, and w the outcome of the write of this record's block. */
  function Answer(r: Record, totals: seq<int>, w: Write): int {
    match r
    case DeviceBlock(b) =>
      if b.dev >= |totals| || totals[b.dev] <= 0 then -EINVAL
      else if b.sector > totals[b.dev] then -EIO
      else if w.Failed? then w.error
      else 0
    case Progress(_) => 0
    case Eos => 0
    case Unknown => -EINVAL
  }

  /** The record is applied and the next one is read. */
  predicate Loadable(r: Record, totals: seq<int>, w: Write) { !r.Eos? && Answer(r, totals, w) == 0 }

  /** The devices after a record that ends the loading. */
  function Halfway(disks: seq<map<nat, Data>>, r: Record, totals: seq<int>, w: Write): seq<map<nat, Data>> {
    if r.DeviceBlock? && r.blk.dev < |totals| && r.blk.dev < |disks| && 0 < totals[r.blk.dev] &&
       r.blk.sector <= totals[r.blk.dev] && w.Failed?
    then LoadBlock(disks, Fitted(r.blk, totals).(buf := w.left))
    else disks
  }

  lemma BlocksOfNext(f: seq<Record>, totals: seq<int>, n: nat)
    requires n < |f|
    ensures BlocksOf(f[..n + 1], totals) ==
              BlocksOf(f[..n], totals) + if f[n].DeviceBlock? then [Fitted(f[n].blk, totals)] else []
  {
    assert f[..n + 1][..n] == f[..n];
  }

  lemma EmptyLoad(dst: seq<map<nat, Data>>, f: seq<Record>, totals: seq<int>)
    ensures BlocksOf(f[..0], totals) == [] && Load(dst, []) == dst
  {
  }

  lemma LoadNext(dst: seq<map<nat, Data>>, blocks: seq<Block>, b: Block)
    requires b.dev < |dst| && forall i :: 0 <= i < |blocks| ==> blocks[i].dev < |dst|
    ensures Load(dst, blocks + [b]) == LoadBlock(Load(dst, blocks), b)
  {
    assert (blocks + [b])[..|blocks|] == blocks;
  }

  /** Where the devices have the lengths of the source, the blocks written are those sent. */
  lemma {:induction false} SameLengthsLoadStream(st: State, f: seq<Record>, totals: seq<int>)
    requires BlocksOk(st, st.stream) && |totals| == |st.devs| &&
             forall d :: 0 <= d < |totals| ==> totals[d] == st.devs[d].total
    requires |f| == |st.stream| && forall i :: 0 <= i < |f| ==> f[i] == DeviceBlock(st.stream[i])
    ensures BlocksOf(f, totals) == st.stream
    decreases |f|
  {
    if f != [] {
      var n := |f| - 1;
      SameLengthsLoadStream(st.(stream := st.stream[..n]), f[..n], totals);
      assert WellFormedBlock(st, st.stream[n]);
      assert st.stream == st.stream[..n] + [st.stream[n]];
    }
  }

  class Receiver {
    var disks: seq<map<nat, Data>>
    const totals: seq<int>

    /** block_load: applies device blocks in order until the end mark. An unknown or empty device, a
        sector past its end, a failed write and an unknown record each end it with their error and
        what came before applied; writes[i] is the outcome of the write for record i. */
    method BlockLoad(f: seq<Record>, writes: seq<Write>) returns (ret: int, n: nat)
      requires |totals| == |disks| && |writes| == |f| && exists i :: 0 <= i < |f| && f[i].Eos?
      requires forall i :: 0 <= i < |writes| && writes[i].Failed? ==> writes[i].error < 0
      modifies this`disks
      ensures n < |f| && forall i :: 0 <= i < n ==> Loadable(f[i], totals, writes[i])
      ensures !Loadable(f[n], totals, writes[n]) && ret == Answer(f[n], totals, writes[n])
      ensures forall i :: 0 <= i < |BlocksOf(f[..n], totals)| ==> BlocksOf(f[..n], totals)[i].dev < |old(disks)|
      ensures disks == Halfway(Load(old(disks), BlocksOf(f[..n], totals)), f[n], totals, writes[n])
    {
      hide BlocksOf, Load, LoadBlock, Fitted;
      n := 0;
      EmptyLoad(disks, f, totals);
      while true
        invariant n <= |f| && (forall i :: 0 <= i < n ==> Loadable(f[i], totals, writes[i]))
        invariant exists i :: n <= i < |f| && f[i].Eos?
        invariant forall i :: 0 <= i < |BlocksOf(f[..n], totals)| ==> BlocksOf(f[..n], totals)[i].dev < |old(disks)|
        invariant disks == Load(old(disks), BlocksOf(f[..n], totals)) && |disks| == |old(disks)|
        decreases |f| - n
      {
        BlocksOfNext(f, totals, n);
        match f[n] {
          case DeviceBlock(b) =>
            if b.dev >= |disks| || totals[b.dev] <= 0 {
              return -EINVAL, n;
            }
            if b.sector > totals[b.dev] {
              return -EIO, n;
            }
            var fit := Fitted(b, totals);
            FittedDevice(b, totals);
            if writes[n].Failed? {
              disks := LoadBlock(disks, fit.(buf := writes[n].left));
              return writes[n].error, n;
            }
            LoadNext(old(disks), BlocksOf(f[..n], totals), fit);
            disks := LoadBlock(disks, fit);
          case Progress(_) =>
            assert BlocksOf(f[..n], totals) + [] == BlocksOf(f[..n], totals);
          case Eos => return 0, n;
          case Unknown => return -EINVAL, n;
        }
        n := n + 1;
      }
    }
  }

  /** A block ends a chunk after its start or, if that comes first, with the device. */
  lemma FittedIs(b: Block, totals: seq<int>)
    requires b.dev < |totals| && b.sector <= totals[b.dev]
    ensures var fit, end := Fitted(b, totals), b.sector + CHUNK;
            fit == b.(nr := fit.nr) && b.sector + fit.nr == if end <= totals[b.dev] then end else totals[b.dev]
  {
  }

  lemma FittedDevice(b: Block, totals: seq<int>)
    ensures Fitted(b, totals).dev == b.dev
  {
  }
}
