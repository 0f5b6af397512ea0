/** Live block migration (block-migration.c): bulk phase, asynchronous dirty phase, final
    synchronous phase, with guest writes interleaving sector by sector. A run is a sequence
    of labelled steps; the destination is what block_load makes of the stream. */
module BlockMigration {
  import opened Basics

  type Data = nat

  datatype GuestWrite = GuestWrite(sector: nat, count: nat)

  /** BlkMigDevState, with what it uses of the device: contents, allocation, the dirty bitmap
      (as a set of chunks), the in-flight bitmap and the guest writes under way. */
  datatype Dev = Dev(total: nat, shared: bool, cur: nat, curDirty: nat, dirty: set<nat>, marked: set<nat>,
                     src: map<nat, Data>, alloc: set<nat>, writes: map<nat, GuestWrite>)

  /** BlkMigBlock: `buf` holds the sectors read so far. */
  datatype Block = Block(dev: nat, sector: nat, nr: nat, buf: map<nat, Data>) {
    predicate Holds(d: nat, x: nat) { dev == d && sector <= x < sector + nr }

    predicate Full() { buf.Keys == Range(sector, sector + nr) }
  }

  datatype State = State(devs: seq<Dev>, inflight: seq<Block>, blkList: seq<Block>, stream: seq<Block>,
                         submitted: int, readDone: int, transferred: int)

  datatype Label =
    | GuestBegin(d: nat, id: nat, sector: nat, count: nat)
    | GuestSector(d: nat, id: nat, x: nat, v: Data)
    | GuestEnd(d: nat, id: nat)
    | BulkSkip(d: nat, n: nat)
    | BulkSubmit(d: nat)
    | ReadSector(k: nat, x: nat)
    | Complete(k: nat)
    | Send
    | ResetCursors
    | DirtySkip(d: nat)
    | DirtySubmit(d: nat)
    | DirtySend(d: nat)

  // ---------- chunks ----------

  /** The chunks set_dirty_bitmap touches for a request; C division makes the end of an empty
      request at sector 0 chunk 0. */
  function Chunks(sector: nat, count: nat): set<nat> {
    Range(sector / CHUNK, (if sector + count == 0 then 0 else (sector + count - 1) / CHUNK) + 1)
  }

  function ChunkLength(total: nat, sector: nat): nat
    requires sector <= total
  {
    if total - sector < CHUNK then total - sector else CHUNK
  }

  // ---------- the steps ----------

  predicate Hits(w: GuestWrite, x: nat) { w.sector <= x < w.sector + w.count }

  predicate Pending(writes: map<nat, GuestWrite>, x: nat) {
    exists id :: id in writes && Hits(writes[id], x)
  }

  predicate Enabled(st: State, l: Label) {
    match l
    case GuestBegin(d, id, sector, count) =>
      d < |st.devs| && id !in st.devs[d].writes && sector + count <= st.devs[d].total
    case GuestSector(d, id, x, v) =>
      d < |st.devs| && id in st.devs[d].writes && var w := st.devs[d].writes[id]; w.sector <= x < w.sector + w.count
    case GuestEnd(d, id) => d < |st.devs| && id in st.devs[d].writes
    case BulkSkip(d, n) =>
      d < |st.devs| && var dev := st.devs[d];
      dev.shared && dev.cur + n <= dev.total && Range(dev.cur, dev.cur + n) !! dev.alloc
    case BulkSubmit(d) => d < |st.devs| && st.devs[d].cur < st.devs[d].total
    case ReadSector(k, x) =>
      k < |st.inflight| && var b := st.inflight[k];
      b.dev < |st.devs| && b.sector <= x < b.sector + b.nr && x in st.devs[b.dev].src
    case Complete(k) => k < |st.inflight| && st.inflight[k].Full() && st.inflight[k].dev < |st.devs|
    case Send => st.blkList != []
    case ResetCursors => true
    case DirtySkip(d) =>
      d < |st.devs| && var dev := st.devs[d];
      dev.curDirty < dev.total && dev.curDirty / CHUNK !in dev.dirty
    case DirtySubmit(d) =>
      d < |st.devs| && var dev := st.devs[d];
      dev.cur == dev.total && dev.curDirty < dev.total && dev.curDirty / CHUNK in dev.dirty &&
      dev.curDirty / CHUNK !in dev.marked
    case DirtySend(d) =>
      d < |st.devs| && var dev := st.devs[d];
      dev.cur == dev.total && dev.curDirty < dev.total && dev.curDirty / CHUNK in dev.dirty &&
      Range(dev.curDirty, dev.curDirty + ChunkLength(dev.total, dev.curDirty)) <= dev.src.Keys
  }

  function SetDev(st: State, d: nat, dev: Dev): State
    requires d < |st.devs|
  {
    st.(devs := st.devs[d := dev])
  }

  function Apply(st: State, l: Label): State
    requires Enabled(st, l)
  {
    match l
    case GuestBegin(d, id, sector, count) =>
      SetDev(st, d, st.devs[d].(writes := st.devs[d].writes[id := GuestWrite(sector, count)]))
    case GuestSector(d, id, x, v) =>
      SetDev(st, d, st.devs[d].(src := st.devs[d].src[x := v], alloc := st.devs[d].alloc + {x}))
    case GuestEnd(d, id) =>
      // bdrv_co_do_writev marks the chunks only now, after the driver's write.
      var dev := st.devs[d];
      var w := dev.writes[id];
      SetDev(st, d, dev.(writes := dev.writes - {id}, dirty := dev.dirty + Chunks(w.sector, w.count)))
    case BulkSkip(d, n) => SetDev(st, d, st.devs[d].(cur := st.devs[d].cur + n))
    case BulkSubmit(d) =>
      var dev := st.devs[d];
      var s := dev.cur / CHUNK * CHUNK;
      var nr := ChunkLength(dev.total, s);
      SetDev(st, d, dev.(cur := s + nr, dirty := dev.dirty - {s / CHUNK}))
        .(inflight := st.inflight + [Block(d, s, nr, map[])], submitted := st.submitted + 1)
    case ReadSector(k, x) =>
      var b := st.inflight[k];
      st.(inflight := st.inflight[k := b.(buf := b.buf[x := st.devs[b.dev].src[x]])])
    case Complete(k) =>
      // blk_mig_read_cb
      var b := st.inflight[k];
      SetDev(st, b.dev, st.devs[b.dev].(marked := st.devs[b.dev].marked - {b.sector / CHUNK}))
        .(inflight := st.inflight[..k] + st.inflight[k + 1..], blkList := st.blkList + [b],
          submitted := st.submitted - 1, readDone := st.readDone + 1)
    case Send =>
      st.(stream := st.stream + [st.blkList[0]], blkList := st.blkList[1..],
          readDone := st.readDone - 1, transferred := st.transferred + 1)
    case ResetCursors =>
      st.(devs := seq(|st.devs|, d requires 0 <= d < |st.devs| => st.devs[d].(curDirty := 0)))
    case DirtySkip(d) => SetDev(st, d, st.devs[d].(curDirty := st.devs[d].curDirty + CHUNK))
    case DirtySubmit(d) =>
      var dev := st.devs[d];
      var c := dev.curDirty / CHUNK;
      SetDev(st, d, dev.(dirty := dev.dirty - {c}, marked := dev.marked + {c}))
        .(inflight := st.inflight + [Block(d, dev.curDirty, ChunkLength(dev.total, dev.curDirty), map[])],
          submitted := st.submitted + 1)
    case DirtySend(d) =>
      // Read and sent at once, past blk_list.
      var dev := st.devs[d];
      var s, nr := dev.curDirty, ChunkLength(dev.total, dev.curDirty);
      var b := Block(d, s, nr, map x | x in Range(s, s + nr) :: dev.src[x]);
      SetDev(st, d, dev.(dirty := dev.dirty - {s / CHUNK})).(stream := st.stream + [b])
  }

  // ---------- what the pipeline will deliver ----------

  /** The value sector (d, x) ends up with when blocks arrive in this order over `under`; a block
      that has not read the sector yet will read `now`. */
  function View(pipe: seq<Block>, d: nat, x: nat, now: Data, under: Data): Data {
    if pipe == [] then under
    else
      var b := pipe[|pipe| - 1];
      if b.Holds(d, x) then (if x in b.buf then b.buf[x] else now)
      else View(pipe[..|pipe| - 1], d, x, now, under)
  }

  function Pipe(st: State): seq<Block> { st.stream + st.blkList + st.inflight }

  /** No block of the pipe holds the sector. */
  predicate Absent(pipe: seq<Block>, d: nat, x: nat) {
    forall i :: 0 <= i < |pipe| ==> !pipe[i].Holds(d, x)
  }

  lemma {:induction false} ViewConcat(a: seq<Block>, b: seq<Block>, d: nat, x: nat, now: Data, under: Data)
    ensures View(a + b, d, x, now, under) == View(b, d, x, now, View(a, d, x, now, under))
    decreases |b|
  {
    if b == [] {
      assert a + b == a;
    } else {
      var n := |b| - 1;
      assert (a + b)[..|a + b| - 1] == a + b[..n];
      ViewConcat(a, b[..n], d, x, now, under);
    }
  }

  lemma {:induction false} ViewAbsent(pipe: seq<Block>, d: nat, x: nat, now: Data, under: Data)
    requires Absent(pipe, d, x)
    ensures View(pipe, d, x, now, under) == under
    decreases |pipe|
  {
    if pipe != [] {
      ViewAbsent(pipe[..|pipe| - 1], d, x, now, under);
    }
  }

  // ---------- the invariant ----------

  ghost predicate WellFormedBlock(st: State, b: Block) {
    b.dev < |st.devs| && b.sector % CHUNK == 0 && b.sector < st.devs[b.dev].total &&
    b.nr == ChunkLength(st.devs[b.dev].total, b.sector) && b.sector + b.nr <= st.devs[b.dev].cur &&
    b.buf.Keys <= Range(b.sector, b.sector + b.nr)
  }

  ghost predicate BlocksOk(st: State, blocks: seq<Block>) {
    forall i :: 0 <= i < |blocks| ==> WellFormedBlock(st, blocks[i])
  }

  ghost predicate DevOk(dev: Dev, base: map<nat, Data>) {
    && dev.cur <= dev.total && dev.curDirty % CHUNK == 0 && dev.src.Keys == Range(0, dev.total) == base.Keys
    && forall id :: id in dev.writes ==> dev.writes[id].sector + dev.writes[id].count <= dev.total
  }

  ghost predicate WellFormed(st: State, base: seq<map<nat, Data>>) {
    && |base| == |st.devs|
    && (forall d :: 0 <= d < |st.devs| ==> DevOk(st.devs[d], base[d]))
    && BlocksOk(st, st.stream) && BlocksOk(st, st.blkList) && BlocksOk(st, st.inflight)
    && (forall i :: 0 <= i < |st.stream| ==> st.stream[i].Full())
    && (forall i :: 0 <= i < |st.blkList| ==> st.blkList[i].Full())
  }

  /** A shared base holds what the source shows wherever the source image is unallocated. */
  ghost predicate SharedBase(st: State, base: seq<map<nat, Data>>)
    requires |base| == |st.devs|
  {
    forall d, x :: 0 <= d < |st.devs| && st.devs[d].shared && x in st.devs[d].src && x in base[d] &&
                   x !in st.devs[d].alloc ==>
      st.devs[d].src[x] == base[d][x]
  }

  /** Not yet bulk-sent, dirty, being written, or the newest copy in the pipeline is current. */
  ghost predicate Settled(st: State, base: seq<map<nat, Data>>, d: nat, x: nat)
    requires |base| == |st.devs| && d < |st.devs| && x in st.devs[d].src && x in base[d]
  {
    var dev := st.devs[d];
    x >= dev.cur || x / CHUNK in dev.dirty || Pending(dev.writes, x) ||
    View(Pipe(st), d, x, dev.src[x], base[d][x]) == dev.src[x]
  }

  ghost predicate AllSettled(st: State, base: seq<map<nat, Data>>)
    requires WellFormed(st, base)
  {
    forall d, x :: 0 <= d < |st.devs| && x in st.devs[d].src ==> Settled(st, base, d, x)
  }

  ghost predicate Counted(st: State) {
    st.submitted == |st.inflight| && st.readDone == |st.blkList| && st.transferred >= 0
  }

  ghost predicate Inv(st: State, base: seq<map<nat, Data>>) {
    WellFormed(st, base) && SharedBase(st, base) && AllSettled(st, base) && Counted(st)
  }

  /** Reads of one chunk complete in the order they were submitted, and the synchronous phase
      finds the pipeline empty. */
  ghost predicate Ordered(st: State, l: Label) {
    match l
    case Complete(k) =>
      forall j :: 0 <= j < k < |st.inflight| ==>
        !(st.inflight[j].dev == st.inflight[k].dev && st.inflight[j].sector == st.inflight[k].sector)
    case DirtySend(_) => st.inflight == [] && st.blkList == []
    case _ => true
  }

  /** A step that loses nothing. When read k completes, it goes ahead of the reads submitted before
      it: of each sector that is clean and not under a write, a later read must be in flight, or the
      newest of those earlier reads must not have picked up a different value. A chunk sent at once
      goes ahead of everything not yet sent. */
  ghost predicate Safe(st: State, l: Label) {
    match l
    case Complete(k) => forall d: nat, x: nat :: Completes(st, k, d, x) ==> CompletesSafely(st, k, d, x)
    case DirtySend(d) => forall x: nat :: SendsAtOnce(st, d, x) ==> SendsSafely(st, d, x)
    case _ => true
  }

  ghost predicate Completes(st: State, k: nat, d: nat, x: nat) {
    k < |st.inflight| && st.inflight[k].Holds(d, x) && d < |st.devs| && x in st.devs[d].src &&
    x / CHUNK !in st.devs[d].dirty && !Pending(st.devs[d].writes, x)
  }

  ghost predicate CompletesSafely(st: State, k: nat, d: nat, x: nat)
    requires Completes(st, k, d, x)
  {
    var now := st.devs[d].src[x];
    !Absent(st.inflight[k + 1..], d, x) || View(st.inflight[..k], d, x, now, now) == now
  }

  ghost predicate SendsAtOnce(st: State, d: nat, x: nat) {
    d < |st.devs| && x in st.devs[d].src && st.devs[d].curDirty <= x && x / CHUNK == st.devs[d].curDirty / CHUNK &&
    !Pending(st.devs[d].writes, x)
  }

  ghost predicate SendsSafely(st: State, d: nat, x: nat)
    requires SendsAtOnce(st, d, x)
  {
    var now := st.devs[d].src[x];
    View(st.blkList + st.inflight, d, x, now, now) == now
  }

  // ---------- views under the steps ----------

  lemma ViewPush(pipe: seq<Block>, b: Block, d: nat, x: nat, now: Data, under: Data)
    ensures View(pipe + [b], d, x, now, under) ==
            if b.Holds(d, x) then (if x in b.buf then b.buf[x] else now) else View(pipe, d, x, now, under)
  {
    assert (pipe + [b])[..|pipe|] == pipe;
  }

  /** Reading a sector changes the view to nothing but the current value. */
  lemma ViewRead(a: seq<Block>, b: Block, c: seq<Block>, y: nat, v: Data, d: nat, x: nat, now: Data, under: Data)
    requires b.Holds(d, x) && x == y ==> v == now
    ensures var b' := b.(buf := b.buf[y := v]);
            var after := View(a + [b'] + c, d, x, now, under);
            after == View(a + [b] + c, d, x, now, under) || after == now
  {
    var b' := b.(buf := b.buf[y := v]);
    ViewConcat(a + [b], c, d, x, now, under);
    ViewConcat(a + [b'], c, d, x, now, under);
    ViewPush(a, b, d, x, now, under);
    ViewPush(a, b', d, x, now, under);
    ViewOverNow(c, d, x, now, View(a + [b], d, x, now, under), View(a + [b'], d, x, now, under));
  }

  lemma {:induction false} ViewOverNow(c: seq<Block>, d: nat, x: nat, now: Data, u: Data, v: Data)
    requires u == v || v == now
    ensures View(c, d, x, now, v) == View(c, d, x, now, u) || View(c, d, x, now, v) == now
    decreases |c|
  {
    if c != [] {
      ViewOverNow(c[..|c| - 1], d, x, now, u, v);
    }
  }

  /** A block overtakes others that do not hold its sectors. */
  lemma ViewOvertake(a: seq<Block>, m: seq<Block>, b: Block, c: seq<Block>, d: nat, x: nat, now: Data, under: Data)
    requires b.Holds(d, x) ==> Absent(m, d, x)
    ensures View(a + [b] + m + c, d, x, now, under) == View(a + m + [b] + c, d, x, now, under)
  {
    var v := View(a, d, x, now, under);
    ViewConcat(a + [b] + m, c, d, x, now, under);
    ViewConcat(a + m + [b], c, d, x, now, under);
    ViewConcat(a + [b], m, d, x, now, under);
    ViewConcat(a, m, d, x, now, under);
    ViewPush(a, b, d, x, now, under);
    ViewPush(a + m, b, d, x, now, under);
    if b.Holds(d, x) {
      ViewAbsent(m, d, x, now, View(a + [b], d, x, now, under));
    }
  }

  lemma ChunkOfWrite(sector: nat, count: nat, x: nat)
    requires sector <= x < sector + count
    ensures x / CHUNK in Chunks(sector, count)
  {
  }

  // ---------- every step keeps the invariant ----------

  lemma SubmitSettles(st: State, base: seq<map<nat, Data>>, d: nat, s: nat, st': State, e: nat, x: nat)
    requires Inv(st, base) && d < |st.devs| && s % CHUNK == 0 && s < st.devs[d].total
    requires var dev, nr := st.devs[d], ChunkLength(st.devs[d].total, s);
             |st'.devs| == |st.devs| && Pipe(st') == Pipe(st) + [Block(d, s, nr, map[])] &&
             (forall f :: 0 <= f < |st.devs| && f != d ==> st'.devs[f] == st.devs[f]) &&
             st'.devs[d].src == dev.src && st'.devs[d].writes == dev.writes &&
             st'.devs[d].dirty == dev.dirty - {s / CHUNK} &&
             (st'.devs[d].cur == dev.cur || (s <= dev.cur && st'.devs[d].cur == s + nr))
    requires e < |st.devs| && x in st.devs[e].src
    ensures Settled(st', base, e, x)
  {
    var nr := ChunkLength(st.devs[d].total, s);
    assert Settled(st, base, e, x);
    ViewPush(Pipe(st), Block(d, s, nr, map[]), e, x, st.devs[e].src[x], base[e][x]);
  }

  lemma GuestSettles(st: State, base: seq<map<nat, Data>>, l: Label, d: nat, x: nat)
    requires Inv(st, base) && Enabled(st, l) && (l.GuestBegin? || l.GuestSector? || l.GuestEnd?)
    requires d < |st.devs| && x in st.devs[d].src
    ensures x in Apply(st, l).devs[d].src && Settled(Apply(st, l), base, d, x)
  {
    hide View, Chunks;
    assert Settled(st, base, d, x);
    if d == l.d {
      var writes := st.devs[d].writes;
      match l
      case GuestBegin(_, id, _, _) =>
        var writes' := Apply(st, l).devs[d].writes;
        assert forall i :: i in writes ==> i in writes' && writes'[i] == writes[i];
        assert Pending(writes, x) ==> Pending(writes', x);
      case GuestSector(_, id, y, _) =>
        assert y == x ==> Hits(writes[id], x);
      case GuestEnd(_, id) =>
        if Hits(writes[id], x) {
          ChunkOfWrite(writes[id].sector, writes[id].count, x);
        } else if i :| i in writes && Hits(writes[i], x) {
          assert i in Apply(st, l).devs[d].writes && Hits(Apply(st, l).devs[d].writes[i], x);
        }
    }
  }

  lemma SkipSettles(st: State, base: seq<map<nat, Data>>, l: Label, d: nat, x: nat)
    requires Inv(st, base) && Enabled(st, l) && (l.BulkSkip? || l.DirtySkip? || l.ResetCursors? || l.Send?)
    requires d < |st.devs| && x in st.devs[d].src
    ensures Settled(Apply(st, l), base, d, x)
  {
    assert Settled(st, base, d, x);
    if l.BulkSkip? && d == l.d && st.devs[d].cur <= x < st.devs[d].cur + l.n {
      assert x !in st.devs[d].alloc;
      ViewAbsent(Pipe(st), d, x, st.devs[d].src[x], base[d][x]);
    } else if l.Send? {
      assert Pipe(Apply(st, l)) == Pipe(st);
    }
  }

  lemma SendSettles(st: State, base: seq<map<nat, Data>>, l: Label, d: nat, x: nat)
    requires Inv(st, base) && Enabled(st, l) && (l.BulkSubmit? || l.DirtySubmit?)
    requires d < |st.devs| && x in st.devs[d].src
    ensures Settled(Apply(st, l), base, d, x)
  {
    hide View;
    assert Settled(st, base, d, x);
    var st' := Apply(st, l);
    match l
    case BulkSubmit(e) =>
      assert Pipe(st') == Pipe(st) + [st'.inflight[|st.inflight|]];
      SubmitSettles(st, base, e, st.devs[e].cur / CHUNK * CHUNK, st', d, x);
    case DirtySubmit(e) =>
      assert Pipe(st') == Pipe(st) + [st'.inflight[|st.inflight|]];
      SubmitSettles(st, base, e, st.devs[e].curDirty, st', d, x);
  }

  lemma ReadSettles(st: State, base: seq<map<nat, Data>>, k: nat, y: nat, d: nat, x: nat)
    requires Inv(st, base) && Enabled(st, ReadSector(k, y)) && d < |st.devs| && x in st.devs[d].src
    ensures Settled(Apply(st, ReadSector(k, y)), base, d, x)
  {
    hide View;
    assert Settled(st, base, d, x);
    var st' := Apply(st, ReadSector(k, y));
    var b, sent := st.inflight[k], st.stream + st.blkList;
    var front, back := st.inflight[..k], st.inflight[k + 1..];
    assert Pipe(st) == sent + front + [b] + back;
    assert Pipe(st') == sent + front + [st'.inflight[k]] + back;
    ViewRead(sent + front, b, back, y, st.devs[b.dev].src[y], d, x, st.devs[d].src[x], base[d][x]);
  }

  lemma {:induction false} ViewIgnoresOld(pipe: seq<Block>, d: nat, x: nat, now: Data, u: Data, v: Data)
    requires !Absent(pipe, d, x)
    ensures View(pipe, d, x, now, u) == View(pipe, d, x, now, v)
    decreases |pipe|
  {
    if !pipe[|pipe| - 1].Holds(d, x) {
      ViewIgnoresOld(pipe[..|pipe| - 1], d, x, now, u, v);
    }
  }

  /** For a sector that is clean, written by nobody and current in the pipeline, the completion
      of read k keeps it current exactly when a later read of the sector is in flight, or the
      newest read submitted before k has not picked up a different value. */
  lemma {:induction false} CompletionExactly(st: State, base: seq<map<nat, Data>>, k: nat, d: nat, x: nat)
    requires Inv(st, base) && Enabled(st, Complete(k)) && d < |st.devs| && x < st.devs[d].cur &&
             st.inflight[k].Holds(d, x)
    requires x in st.devs[d].src && x / CHUNK !in st.devs[d].dirty && !Pending(st.devs[d].writes, x)
    ensures x in base[d]
    ensures var now := st.devs[d].src[x];
            Settled(Apply(st, Complete(k)), base, d, x) <==>
            (!Absent(st.inflight[k + 1..], d, x) || View(st.inflight[..k], d, x, now, now) == now)
  {
    hide View;
    assert Settled(st, base, d, x);
    var st', now, under := Apply(st, Complete(k)), st.devs[d].src[x], base[d][x];
    var b, sent, front, back := st.inflight[k], st.stream + st.blkList, st.inflight[..k], st.inflight[k + 1..];
    assert Pipe(st) == sent + front + [b] + back;
    assert Pipe(st') == sent + [b] + front + back;
    ViewConcat(sent + front + [b], back, d, x, now, under);
    ViewConcat(sent + [b] + front, back, d, x, now, under);
    ViewConcat(sent + [b], front, d, x, now, under);
    ViewPush(sent + front, b, d, x, now, under);
    ViewPush(sent, b, d, x, now, under);
    if Absent(back, d, x) {
      ViewAbsent(back, d, x, now, View(sent + front + [b], d, x, now, under));
      ViewAbsent(back, d, x, now, View(sent + [b] + front, d, x, now, under));
    } else {
      ViewIgnoresOld(back, d, x, now, View(sent + front + [b], d, x, now, under),
                     View(sent + [b] + front, d, x, now, under));
    }
  }

  lemma CompleteSettles(st: State, base: seq<map<nat, Data>>, k: nat, d: nat, x: nat)
    requires Inv(st, base) && Enabled(st, Complete(k)) && Safe(st, Complete(k)) && d < |st.devs| && x in st.devs[d].src
    ensures Settled(Apply(st, Complete(k)), base, d, x)
  {
    hide View;
    assert Settled(st, base, d, x);
    var st' := Apply(st, Complete(k));
    var b, sent := st.inflight[k], st.stream + st.blkList;
    var front, back := st.inflight[..k], st.inflight[k + 1..];
    if !b.Holds(d, x) {
      assert Pipe(st) == sent + front + [b] + back;
      assert Pipe(st') == sent + [b] + front + back;
      ViewOvertake(sent, front, b, back, d, x, st.devs[d].src[x], base[d][x]);
    } else if x / CHUNK !in st.devs[d].dirty && !Pending(st.devs[d].writes, x) {
      assert Completes(st, k, d, x) && WellFormedBlock(st, b);
      CompletionExactly(st, base, k, d, x);
    }
  }

  /** A sector sent at once stays current exactly when nothing still waiting shows another value. */
  lemma {:induction false} SendExactly(st: State, base: seq<map<nat, Data>>, d: nat, x: nat)
    requires Inv(st, base) && Enabled(st, DirtySend(d)) && SendsAtOnce(st, d, x)
    ensures x in base[d] && (Settled(Apply(st, DirtySend(d)), base, d, x) <==> SendsSafely(st, d, x))
  {
    hide View;
    var st', now, under := Apply(st, DirtySend(d)), st.devs[d].src[x], base[d][x];
    var b, rest := st'.stream[|st.stream|], st.blkList + st.inflight;
    assert b.Holds(d, x) && x in b.buf && b.buf[x] == now;
    assert Pipe(st') == st.stream + [b] + rest;
    ViewConcat(st.stream + [b], rest, d, x, now, under);
    ViewPush(st.stream, b, d, x, now, under);
  }

  /** Sectors of other chunks are not affected by a chunk sent at once. */
  lemma SendSparesOthers(st: State, base: seq<map<nat, Data>>, e: nat, d: nat, x: nat)
    requires Inv(st, base) && Enabled(st, DirtySend(e)) && d < |st.devs| && x in st.devs[d].src
    requires !(d == e && st.devs[e].curDirty <= x && x / CHUNK == st.devs[e].curDirty / CHUNK)
    ensures Settled(Apply(st, DirtySend(e)), base, d, x)
  {
    hide View;
    assert Settled(st, base, d, x);
    var st', now, under := Apply(st, DirtySend(e)), st.devs[d].src[x], base[d][x];
    var b, rest := st'.stream[|st.stream|], st.blkList + st.inflight;
    assert !b.Holds(d, x);
    assert Pipe(st') == st.stream + [b] + rest && Pipe(st) == st.stream + rest;
    ViewConcat(st.stream + [b], rest, d, x, now, under);
    ViewConcat(st.stream, rest, d, x, now, under);
    ViewPush(st.stream, b, d, x, now, under);
  }

  lemma NoEarlierRead(st: State, k: nat, d: nat, x: nat)
    requires k < |st.inflight| && st.inflight[k].Holds(d, x) && Ordered(st, Complete(k)) && BlocksOk(st, st.inflight)
    ensures Absent(st.inflight[..k], d, x)
  {
  }

  lemma AtOnceSettles(st: State, base: seq<map<nat, Data>>, e: nat, d: nat, x: nat)
    requires Inv(st, base) && Enabled(st, DirtySend(e)) && Safe(st, DirtySend(e)) && d < |st.devs| &&
             x in st.devs[d].src
    ensures x in base[d] && Settled(Apply(st, DirtySend(e)), base, d, x)
  {
    hide View, SendsSafely;
    if !(d == e && st.devs[e].curDirty <= x && x / CHUNK == st.devs[e].curDirty / CHUNK) {
      SendSparesOthers(st, base, e, d, x);
    } else if !Pending(st.devs[d].writes, x) {
      assert SendsAtOnce(st, d, x);
      SendExactly(st, base, d, x);
    }
  }

  lemma {:induction false} StepSettles(st: State, base: seq<map<nat, Data>>, l: Label, d: nat, x: nat)
    requires Inv(st, base) && Enabled(st, l) && Safe(st, l) && d < |st.devs| && x in st.devs[d].src
    requires |Apply(st, l).devs| == |st.devs| && x in Apply(st, l).devs[d].src
    ensures Settled(Apply(st, l), base, d, x)
  {
    hide Inv, Safe, Apply, Settled;
    match l
    case ReadSector(k, y) => ReadSettles(st, base, k, y, d, x);
    case Complete(k) => CompleteSettles(st, base, k, d, x);
    case BulkSubmit(_) => SendSettles(st, base, l, d, x);
    case DirtySubmit(_) => SendSettles(st, base, l, d, x);
    case DirtySend(e) => AtOnceSettles(st, base, e, d, x);
    case GuestBegin(_, _, _, _) => GuestSettles(st, base, l, d, x);
    case GuestSector(_, _, _, _) => GuestSettles(st, base, l, d, x);
    case GuestEnd(_, _) => GuestSettles(st, base, l, d, x);
    case _ => SkipSettles(st, base, l, d, x);
  }

  /** Blocks stay well formed when cursors only move forward. */
  lemma BlocksStayOk(st: State, st': State, blocks: seq<Block>)
    requires BlocksOk(st, blocks) && |st.devs| == |st'.devs|
    requires forall d :: 0 <= d < |st.devs| ==>
               st'.devs[d].total == st.devs[d].total && st'.devs[d].cur >= st.devs[d].cur
    ensures BlocksOk(st', blocks)
  {
  }

  lemma {:induction false} StepWellFormed(st: State, base: seq<map<nat, Data>>, l: Label)
    requires WellFormed(st, base) && Enabled(st, l)
    ensures WellFormed(Apply(st, l), base)
  {
    hide BlocksOk, DevOk, Chunks, Range;
    var st' := Apply(st, l);
    forall d | 0 <= d < |st.devs|
      ensures DevOk(st'.devs[d], base[d]) && st'.devs[d].total == st.devs[d].total && st'.devs[d].cur >= st.devs[d].cur
    {
      StepDevOk(st, l, d, base[d]);
    }
    BlocksStayOk(st, st', st.stream);
    BlocksStayOk(st, st', st.blkList);
    BlocksStayOk(st, st', st.inflight);
    NewBlocksOk(st, base, l);
  }

  lemma StepDevOk(st: State, l: Label, d: nat, base: map<nat, Data>)
    requires Enabled(st, l) && d < |st.devs| && DevOk(st.devs[d], base)
    ensures d < |Apply(st, l).devs| && DevOk(Apply(st, l).devs[d], base)
    ensures Apply(st, l).devs[d].total == st.devs[d].total && Apply(st, l).devs[d].cur >= st.devs[d].cur
  {
    hide Chunks;
  }

  lemma NewBlocksOk(st: State, base: seq<map<nat, Data>>, l: Label)
    requires WellFormed(st, base) && Enabled(st, l)
    requires BlocksOk(Apply(st, l), st.stream) && BlocksOk(Apply(st, l), st.blkList) &&
             BlocksOk(Apply(st, l), st.inflight)
    ensures var st' := Apply(st, l);
            BlocksOk(st', st'.stream) && BlocksOk(st', st'.blkList) && BlocksOk(st', st'.inflight)
  {
    hide Apply, Enabled, WellFormed, BlocksOk;
    NewSentOk(st, base, l);
    NewReadOk(st, base, l);
  }

  lemma NewSentOk(st: State, base: seq<map<nat, Data>>, l: Label)
    requires WellFormed(st, base) && Enabled(st, l) && BlocksOk(Apply(st, l), st.stream) &&
             BlocksOk(Apply(st, l), st.blkList)
    ensures BlocksOk(Apply(st, l), Apply(st, l).stream)
  {
  }

  lemma NewReadOk(st: State, base: seq<map<nat, Data>>, l: Label)
    requires WellFormed(st, base) && Enabled(st, l) && BlocksOk(Apply(st, l), st.blkList) &&
             BlocksOk(Apply(st, l), st.inflight)
    ensures BlocksOk(Apply(st, l), Apply(st, l).blkList) && BlocksOk(Apply(st, l), Apply(st, l).inflight)
  {
  }

  lemma {:induction false} StepKeepsInv(st: State, base: seq<map<nat, Data>>, l: Label)
    requires Inv(st, base) && Enabled(st, l) && Safe(st, l)
    ensures Inv(Apply(st, l), base)
  {
    hide Settled, Safe, BlocksOk;
    StepWellFormed(st, base, l);
    StepShape(st, base, l);
    var st' := Apply(st, l);
    forall d, x | 0 <= d < |st'.devs| && x in st'.devs[d].src
      ensures Settled(st', base, d, x)
    {
      StepSettles(st, base, l, d, x);
    }
  }

  lemma StepShape(st: State, base: seq<map<nat, Data>>, l: Label)
    requires WellFormed(st, base) && SharedBase(st, base) && Counted(st) && Enabled(st, l)
    ensures var st' := Apply(st, l);
            |st'.devs| == |st.devs| && SharedBase(st', base) && Counted(st') &&
            forall d :: 0 <= d < |st.devs| ==> st'.devs[d].src.Keys == st.devs[d].src.Keys
  {
    hide BlocksOk, Chunks, Apply, Enabled, Counted, SharedBase, WellFormed;
    StepKeys(st, base, l);
    StepShared(st, base, l);
    StepCounts(st, l);
  }

  lemma StepKeys(st: State, base: seq<map<nat, Data>>, l: Label)
    requires WellFormed(st, base) && Enabled(st, l)
    ensures |Apply(st, l).devs| == |st.devs|
    ensures forall d :: 0 <= d < |st.devs| ==> Apply(st, l).devs[d].src.Keys == st.devs[d].src.Keys
  {
    hide BlocksOk, Chunks, Range;
  }

  lemma StepShared(st: State, base: seq<map<nat, Data>>, l: Label)
    requires WellFormed(st, base) && SharedBase(st, base) && Enabled(st, l)
    ensures SharedBase(Apply(st, l), base)
  {
    hide BlocksOk, Chunks, Range;
  }

  // ---------- whole runs ----------

  ghost predicate Init(st: State, base: seq<map<nat, Data>>) {
    && |base| == |st.devs|
    && (forall d :: 0 <= d < |st.devs| ==>
          var dev := st.devs[d];
          dev.cur == 0 && dev.curDirty == 0 && dev.marked == {} && dev.src.Keys == Range(0, dev.total) == base[d].Keys)
    && (forall d :: 0 <= d < |st.devs| ==> forall id :: id in st.devs[d].writes ==>
          st.devs[d].writes[id].sector + st.devs[d].writes[id].count <= st.devs[d].total)
    && SharedBase(st, base)
    && st.inflight == [] && st.blkList == [] && st.stream == []
    && st.submitted == 0 && st.readDone == 0 && st.transferred == 0
  }

  /** Every step is enabled where it is taken. */
  ghost predicate Possible(st: State, run: seq<Label>)
    decreases |run|, 0
  {
    run == [] || (Possible(st, run[..|run| - 1]) && Enabled(After(st, run[..|run| - 1]), run[|run| - 1]))
  }

  ghost function After(st: State, run: seq<Label>): State
    requires Possible(st, run)
    decreases |run|, 1
  {
    if run == [] then st else Apply(After(st, run[..|run| - 1]), run[|run| - 1])
  }

  /** Every step respects the assumptions on the order of completions. */
  ghost predicate InOrder(st: State, run: seq<Label>)
    requires Possible(st, run)
  {
    run == [] || (InOrder(st, run[..|run| - 1]) && Ordered(After(st, run[..|run| - 1]), run[|run| - 1]))
  }

  /** Every step of the run loses nothing. */
  ghost predicate SafeRun(st: State, run: seq<Label>)
    requires Possible(st, run)
  {
    run == [] || (SafeRun(st, run[..|run| - 1]) && Safe(After(st, run[..|run| - 1]), run[|run| - 1]))
  }

  lemma {:induction false} RunFromInv(st: State, base: seq<map<nat, Data>>, run: seq<Label>)
    requires Inv(st, base) && Possible(st, run) && SafeRun(st, run)
    ensures Inv(After(st, run), base)
    decreases |run|
  {
    hide Enabled, Apply, Safe, Inv;
    if run != [] {
      RunFromInv(st, base, run[..|run| - 1]);
      StepKeepsInv(After(st, run[..|run| - 1]), base, run[|run| - 1]);
    }
  }

  /** Main result, the invariant: in every run, every sector of every device is not yet
      bulk-sent, dirty, under a guest write, or current in the newest copy on its way. */
  lemma {:induction false} RunKeepsInv(st: State, base: seq<map<nat, Data>>, run: seq<Label>)
    requires Init(st, base) && Possible(st, run) && SafeRun(st, run)
    ensures Inv(After(st, run), base)
  {
    hide Possible, SafeRun, After;
    RunFromInv(st, base, run);
  }

  // ---------- safety is exactly what the invariant needs ----------

  /** A step that is not safe breaks the invariant. */
  lemma {:induction false} UnsafeBreaks(st: State, base: seq<map<nat, Data>>, l: Label)
    requires Inv(st, base) && Enabled(st, l) && !Safe(st, l)
    ensures !Inv(Apply(st, l), base)
  {
    hide View, Settled, SendsSafely, BlocksOk;
    StepWellFormed(st, base, l);
    StepShape(st, base, l);
    match l
    case Complete(k) =>
      var d: nat, x: nat :| Completes(st, k, d, x) && !CompletesSafely(st, k, d, x);
      BlockBelowCursor(st, base, k, d, x);
      CompletionExactly(st, base, k, d, x);
    case DirtySend(d) =>
      var x: nat :| SendsAtOnce(st, d, x) && !SendsSafely(st, d, x);
      SendExactly(st, base, d, x);
    case _ =>
  }

  lemma BlockBelowCursor(st: State, base: seq<map<nat, Data>>, k: nat, d: nat, x: nat)
    requires Inv(st, base) && Completes(st, k, d, x)
    ensures x < st.devs[d].cur
  {
    assert WellFormedBlock(st, st.inflight[k]);
  }

  /** From a state that keeps the invariant, a step keeps it exactly if it is safe. */
  lemma StepExactly(st: State, base: seq<map<nat, Data>>, l: Label)
    requires Inv(st, base) && Enabled(st, l)
    ensures Inv(Apply(st, l), base) <==> Safe(st, l)
  {
    hide Inv, Safe, Apply, Enabled;
    if Safe(st, l) {
      StepKeepsInv(st, base, l);
    } else {
      UnsafeBreaks(st, base, l);
    }
  }

  /** The invariant holds after every prefix of the run. */
  ghost predicate HoldsThroughout(st: State, base: seq<map<nat, Data>>, run: seq<Label>)
    requires Possible(st, run)
  {
    Inv(After(st, run), base) && (run == [] || HoldsThroughout(st, base, run[..|run| - 1]))
  }

  /** Over whole runs: the invariant holds throughout exactly if every step is safe. */
  lemma {:induction false} RunExactly(st: State, base: seq<map<nat, Data>>, run: seq<Label>)
    requires Init(st, base) && Possible(st, run)
    ensures HoldsThroughout(st, base, run) <==> SafeRun(st, run)
    decreases |run|
  {
    hide Enabled, Apply, Safe, Inv;
    if run == [] {
      RunKeepsInv(st, base, run);
    } else {
      var before := run[..|run| - 1];
      RunExactly(st, base, before);
      if SafeRun(st, before) {
        RunKeepsInv(st, base, before);
        StepExactly(After(st, before), base, run[|run| - 1]);
      }
    }
  }

  /** Completions in submission order, with nothing waiting in the synchronous phase, are safe. */
  lemma OrderedIsSafe(st: State, base: seq<map<nat, Data>>, l: Label)
    requires Inv(st, base) && Ordered(st, l)
    ensures Safe(st, l)
  {
    hide View;
    match l
    case Complete(k) =>
      forall d: nat, x: nat | Completes(st, k, d, x)
        ensures CompletesSafely(st, k, d, x)
      {
        NoEarlierRead(st, k, d, x);
        ViewAbsent(st.inflight[..k], d, x, st.devs[d].src[x], st.devs[d].src[x]);
      }
    case DirtySend(d) =>
      forall x: nat | SendsAtOnce(st, d, x)
        ensures SendsSafely(st, d, x)
      {
        ViewAbsent(st.blkList + st.inflight, d, x, st.devs[d].src[x], st.devs[d].src[x]);
      }
    case _ =>
  }

  lemma {:induction false} InOrderIsSafe(st: State, base: seq<map<nat, Data>>, run: seq<Label>)
    requires Inv(st, base) && Possible(st, run) && InOrder(st, run)
    ensures SafeRun(st, run)
    decreases |run|
  {
    hide Enabled, Apply, Safe, Ordered, Inv;
    if run != [] {
      var before := run[..|run| - 1];
      InOrderIsSafe(st, base, before);
      RunFromInv(st, base, before);
      OrderedIsSafe(After(st, before), base, run[|run| - 1]);
    }
  }

  /** A marked chunk has a read in flight, so draining all requests clears every mark. */
  ghost predicate MarksOk(st: State) {
    forall d, c :: 0 <= d < |st.devs| && c in st.devs[d].marked ==> ReadInFlight(st.inflight, d, c)
  }

  ghost predicate ReadInFlight(inflight: seq<Block>, d: nat, c: nat) {
    exists k :: 0 <= k < |inflight| && inflight[k].dev == d && inflight[k].sector / CHUNK == c
  }

  lemma {:induction false} StepKeepsMarks(st: State, l: Label)
    requires MarksOk(st) && Enabled(st, l)
    ensures MarksOk(Apply(st, l))
  {
    var st' := Apply(st, l);
    forall d, c | 0 <= d < |st'.devs| && c in st'.devs[d].marked
      ensures ReadInFlight(st'.inflight, d, c)
    {
      if l.DirtySubmit? && d == l.d && c == st.devs[d].curDirty / CHUNK {
        assert st'.inflight[|st.inflight|].dev == d && st'.inflight[|st.inflight|].sector / CHUNK == c;
      } else {
        assert ReadInFlight(st.inflight, d, c);
        var k :| 0 <= k < |st.inflight| && st.inflight[k].dev == d && st.inflight[k].sector / CHUNK == c;
        var k' := if l.Complete? && k > l.k then k - 1 else k;
        assert st'.inflight[k'].dev == d && st'.inflight[k'].sector / CHUNK == c;
      }
    }
  }

  lemma {:induction false} RunKeepsMarks(st: State, base: seq<map<nat, Data>>, run: seq<Label>)
    requires Init(st, base) && Possible(st, run)
    ensures MarksOk(After(st, run))
    decreases |run|
  {
    hide Enabled, Apply;
    if run != [] {
      RunKeepsMarks(st, base, run[..|run| - 1]);
      StepKeepsMarks(After(st, run[..|run| - 1]), run[|run| - 1]);
    }
  }

  /** Asynchronous reads issued in a run. */
  function Issued(run: seq<Label>): nat {
    if run == [] then 0
    else Issued(run[..|run| - 1]) + if run[|run| - 1].BulkSubmit? || run[|run| - 1].DirtySubmit? then 1 else 0
  }

  /** The counters account for every asynchronous read, with no assumption on order. */
  lemma {:induction false} ReadsAreCounted(st: State, base: seq<map<nat, Data>>, run: seq<Label>)
    requires Init(st, base) && Possible(st, run)
    ensures var now := After(st, run);
            Counted(now) && Issued(run) == now.submitted + now.readDone + now.transferred
    decreases |run|
  {
    hide Possible, After;
    if run == [] {
      EmptyRun(st);
    } else {
      Unfold(st, run);
      ReadsAreCounted(st, base, run[..|run| - 1]);
      StepCounts(After(st, run[..|run| - 1]), run[|run| - 1]);
    }
  }

  lemma Unfold(st: State, run: seq<Label>)
    requires Possible(st, run) && run != []
    ensures Possible(st, run[..|run| - 1]) && Enabled(After(st, run[..|run| - 1]), run[|run| - 1])
    ensures After(st, run) == Apply(After(st, run[..|run| - 1]), run[|run| - 1])
  {
  }

  lemma StepCounts(st: State, l: Label)
    requires Counted(st) && Enabled(st, l)
    ensures var st' := Apply(st, l);
            Counted(st') && st'.submitted + st'.readDone + st'.transferred ==
              st.submitted + st.readDone + st.transferred + if l.BulkSubmit? || l.DirtySubmit? then 1 else 0
  {
    hide Chunks, Range;
  }

  // ---------- the destination ----------

  /** What block_load does with one device block. */
  function LoadBlock(dst: seq<map<nat, Data>>, b: Block): seq<map<nat, Data>>
    requires b.dev < |dst|
  {
    dst[b.dev := dst[b.dev] + map x: nat | x in b.buf && b.sector <= x < b.sector + b.nr :: b.buf[x]]
  }

  function Load(dst: seq<map<nat, Data>>, stream: seq<Block>): (r: seq<map<nat, Data>>)
    requires forall i :: 0 <= i < |stream| ==> stream[i].dev < |dst|
    ensures |r| == |dst|
  {
    if stream == [] then dst else LoadBlock(Load(dst, stream[..|stream| - 1]), stream[|stream| - 1])
  }

  lemma {:induction false} LoadIsView(dst: seq<map<nat, Data>>, stream: seq<Block>, d: nat, x: nat, now: Data)
    requires forall i :: 0 <= i < |stream| ==> stream[i].dev < |dst| && stream[i].Full()
    requires d < |dst| && x in dst[d]
    ensures x in Load(dst, stream)[d] && Load(dst, stream)[d][x] == View(stream, d, x, now, dst[d][x])
    decreases |stream|
  {
    if stream != [] {
      LoadIsView(dst, stream[..|stream| - 1], d, x, now);
    }
  }

  /** Guest stopped, bulk phase done, no read in flight: where block_save_complete starts. */
  ghost predicate Quiet(st: State) {
    st.inflight == [] &&
    forall d :: 0 <= d < |st.devs| ==> st.devs[d].writes == map[] && st.devs[d].cur == st.devs[d].total
  }

  ghost predicate Clean(st: State) {
    forall d, x :: 0 <= d < |st.devs| && 0 <= x < st.devs[d].total ==> x / CHUNK !in st.devs[d].dirty
  }

  /** Once nothing is dirty and nothing is left in the pipeline, the destination equals the
      source on every sector of every device. */
  lemma {:induction false} DestinationEqualsSource(st: State, base: seq<map<nat, Data>>, d: nat, x: nat)
    requires Inv(st, base) && Quiet(st) && Clean(st) && st.blkList == []
    requires d < |st.devs| && x < st.devs[d].total
    ensures (forall i :: 0 <= i < |st.stream| ==> st.stream[i].dev < |base|) &&
            x in Load(base, st.stream)[d] && x in st.devs[d].src && Load(base, st.stream)[d][x] == st.devs[d].src[x]
  {
    assert forall i :: 0 <= i < |st.stream| ==> WellFormedBlock(st, st.stream[i]) && st.stream[i].Full();
    assert x in st.devs[d].src;
    assert Settled(st, base, d, x);
    assert Pipe(st) == st.stream;
    LoadIsView(base, st.stream, d, x, st.devs[d].src[x]);
  }

  /** Loading the stream over `base` gives every sector of every device. */
  ghost predicate SameDisks(st: State, base: seq<map<nat, Data>>) {
    && |base| == |st.devs|
    && (forall i :: 0 <= i < |st.stream| ==> st.stream[i].dev < |base|)
    && forall d :: 0 <= d < |st.devs| ==> forall x :: x in st.devs[d].src ==>
         x in Load(base, st.stream)[d] && Load(base, st.stream)[d][x] == st.devs[d].src[x]
  }

  lemma Extend(st: State, run: seq<Label>, l: Label)
    requires Possible(st, run) && Enabled(After(st, run), l)
    ensures Possible(st, run + [l]) && After(st, run + [l]) == Apply(After(st, run), l)
  {
    assert (run + [l])[..|run|] == run;
  }

  lemma EmptyRun(st: State)
    ensures Possible(st, []) && After(st, []) == st && InOrder(st, [])
  {
  }

  lemma Step(st: State, run: seq<Label>, l: Label) returns (run': seq<Label>)
    requires Possible(st, run) && Enabled(After(st, run), l)
    ensures run' == run + [l] && Possible(st, run') && After(st, run') == Apply(After(st, run), l)
    ensures InOrder(st, run) && Ordered(After(st, run), l) ==> InOrder(st, run')
  {
    run' := run + [l];
    Extend(st, run, l);
    assert run'[..|run|] == run;
  }
}
