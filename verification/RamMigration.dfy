/** Live RAM migration (arch_init.c): dirty log and bitmap, the stream with its CONTINUE flag,
    the XBZRLE page cache, and the receiver of ram_load. A run is a sequence of labelled steps
    in which the guest may write a page while it is being sent. */
module RamMigration {
  import opened Basics
  import opened Xbzrle

  /** TARGET_PAGE_SIZE */
  const PAGE := 4096

  type Page = p: seq<Byte> | |p| == PAGE witness seq(4096, _ => 0)

  /** A page: the name of its block and its number in it. */
  datatype Pos = Pos(id: string, o: nat)

  /** What follows the header of a page record. */
  datatype Body = Compress(ch: Byte) | Raw(page: Page) | Delta(code: seq<Byte>)

  /** A page record; the name is on the wire only without the CONTINUE flag. */
  datatype Record = Record(cont: bool, id: string, o: nat, body: Body)

  /** The receiver: its RAM and the static block pointer of host_from_stream_offset. */
  datatype Receiver = Receiver(ram: map<Pos, Page>, cur: Option<string>)

  /** The sender. `xbzrle` is migrate_use_xbzrle(), `last` the last stage. */
  datatype State = State(ram: map<Pos, Page>, dirty: set<Pos>, log: set<Pos>, cache: map<Pos, Page>,
                         stream: seq<Record>, lastBlock: Option<string>, xbzrle: bool, last: bool)

  /** What the sender sees of the page at the points where it looks: the duplicate check, the
      byte put for a duplicate, the copy into current_buf or the cache, the last copy. */
  datatype Seen = Seen(check: Page, ch: Byte, copy: Page, again: Page)

  /** What it sees of a page that stays as it is. */
  function Steady(p: Page): Seen { Seen(p, p[0], p, p) }

  datatype Label =
    | GuestWrite(pos: Pos, page: Page, direct: bool)
    | SyncLog
    | ShrinkCache(keep: set<Pos>)
    | StartLastStage
    | Send(pos: Pos, seen: Seen, raced: Option<Page>, overflow: bool, evicted: set<Pos>)

  predicate IsDup(p: Page) { forall i :: 0 <= i < PAGE ==> p[i] == p[0] }

  function Fill(ch: Byte): Page { seq(PAGE, _ => ch) }

  // ---------- the receiver ----------

  /** host_from_stream_offset: the block a record goes to. */
  function Target(r: Receiver, rec: Record): Option<string> {
    if rec.cont then r.cur
    else if exists pos :: pos in r.ram && pos.id == rec.id then Some(rec.id) else None
  }

  /** One page record of ram_load; no result is -EINVAL. */
  function Receive(r: Receiver, rec: Record): Option<Receiver> {
    match Target(r, rec)
    case None => None
    case Some(id) =>
      var pos := Pos(id, rec.o);
      if pos !in r.ram then None
      else match rec.body
        case Compress(ch) => Some(Receiver(r.ram[pos := Fill(ch)], Some(id)))
        case Raw(p) => Some(Receiver(r.ram[pos := p], Some(id)))
        case Delta(code) =>
          if |code| > PAGE then None
          else match Decoded(code, true, r.ram[pos], 0)
            case Malformed(_) => None
            case Done(p, _) => Some(Receiver(r.ram[pos := p], Some(id)))
  }

  /** ram_load over a stream. */
  function Replay(r: Receiver, stream: seq<Record>): Option<Receiver> {
    if stream == [] then Some(r)
    else match Replay(r, stream[..|stream| - 1])
      case None => None
      case Some(q) => Receive(q, stream[|stream| - 1])
  }

  // ---------- the sender ----------

  /** The page record of one turn of ram_save_block, if any. */
  function Emitted(st: State, l: Label): Option<Body>
    requires l.Send?
  {
    if IsDup(l.seen.check) then Some(Compress(l.seen.ch))
    else if !st.xbzrle then Some(Raw(l.seen.again))
    else if l.pos !in st.cache then Some(Raw(if st.last then l.seen.again else l.seen.copy))
    else if l.overflow then Some(Raw(l.seen.again))
    else if Encoded(st.cache[l.pos], l.seen.copy, 0) == [] then None
    else Some(Delta(Encoded(st.cache[l.pos], l.seen.copy, 0)))
  }

  /** The cache after it. The duplicate-page branch does not touch it. */
  function CacheAfter(st: State, l: Label): map<Pos, Page>
    requires l.Send?
  {
    if IsDup(l.seen.check) || !st.xbzrle then st.cache
    else if l.pos !in st.cache then
      if st.last then st.cache else (st.cache - l.evicted)[l.pos := l.seen.copy]
    else if l.overflow then st.cache[l.pos := l.seen.again]
    else if Encoded(st.cache[l.pos], l.seen.copy, 0) == [] || st.last then st.cache
    else st.cache[l.pos := l.seen.copy]
  }

  predicate Enabled(st: State, l: Label) {
    match l
    case GuestWrite(pos, page, _) => pos in st.ram && !st.last
    case SyncLog => true
    case ShrinkCache(keep) => true
    case StartLastStage => !st.last && st.log == {}
    case Send(pos, seen, raced, overflow, evicted) =>
      && pos in st.dirty && pos in st.ram
      // Without a guest write during the send everything seen is the page itself.
      && (raced.None? ==> seen == Steady(st.ram[pos]))
      && (raced.Some? ==> !st.last)
      // xbzrle_encode_buffer
      && (st.xbzrle && !IsDup(seen.check) && pos in st.cache ==> overflow == !Fits(st.cache[pos], seen.copy, PAGE))
  }

  function Apply(st: State, l: Label): State
    requires Enabled(st, l)
  {
    match l
    case GuestWrite(pos, page, direct) =>
      st.(ram := st.ram[pos := page], log := if direct then st.log else st.log + {pos},
          dirty := if direct then st.dirty + {pos} else st.dirty)
    case SyncLog => st.(dirty := st.dirty + st.log, log := {})
    case ShrinkCache(keep) => st.(cache := map pos | pos in st.cache && pos in keep :: st.cache[pos])
    case StartLastStage => st.(last := true)
    case Send(pos, seen, raced, overflow, evicted) =>
      // The dirty bit is cleared before the page is looked at.
      var body := Emitted(st, l);
      st.(dirty := st.dirty - {pos},
          ram := if raced.Some? then st.ram[pos := raced.value] else st.ram,
          log := if raced.Some? then st.log + {pos} else st.log,
          cache := CacheAfter(st, l),
          stream := if body.None? then st.stream
                    else st.stream + [Record(st.lastBlock == Some(pos.id), pos.id, pos.o, body.value)],
          lastBlock := if body.None? then st.lastBlock else Some(pos.id))
  }

  /** Does a dirty page, left alone by the guest, put a record on the stream? Only a page equal to
      its cached copy does not. */
  predicate WillEmit(st: State, pos: Pos)
    requires pos in st.ram
  {
    IsDup(st.ram[pos]) || !st.xbzrle || pos !in st.cache || st.cache[pos] != st.ram[pos]
  }

  lemma WillEmitIs(st: State, l: Label)
    requires l.Send? && l.raced.None? && Enabled(st, l)
    ensures WillEmit(st, l.pos) <==> Emitted(st, l).Some?
    ensures !WillEmit(st, l.pos) ==> Apply(st, l) == st.(dirty := st.dirty - {l.pos})
  {
    hide Encoded, IsDup;
    if l.pos in st.cache {
      EmptyCode(st.cache[l.pos], st.ram[l.pos]);
    }
  }

  /** The dirty pages that will. */
  function Emitting(st: State): set<Pos> { set pos | pos in st.dirty && pos in st.ram && WillEmit(st, pos) }

  // ---------- the invariant ----------

  /** The receiver follows the sender. */
  ghost predicate Follows(st: State, r: Receiver) {
    r.ram.Keys == st.ram.Keys && (st.lastBlock.Some? ==> r.cur == st.lastBlock)
  }

  /** Every page is dirty in the bitmap or the log, or equal on both sides. */
  ghost predicate PagesOk(st: State, r: Receiver)
    requires Follows(st, r)
  {
    forall pos :: pos in st.ram ==> pos in st.dirty || pos in st.log || r.ram[pos] == st.ram[pos]
  }

  /** The cached copy of a page is what the receiver holds; in the last stage only as long as
      the page is still to be sent. */
  ghost predicate Coherent(st: State, r: Receiver)
    requires Follows(st, r)
  {
    forall pos :: pos in st.cache && (st.last ==> pos in st.dirty) ==> pos in r.ram && st.cache[pos] == r.ram[pos]
  }

  ghost predicate Inv(st: State, r0: Receiver) {
    match Replay(r0, st.stream)
    case None => false
    case Some(r) =>
      Follows(st, r) && PagesOk(st, r) && Coherent(st, r) && (st.last ==> st.log == {}) &&
      (!st.xbzrle ==> st.cache == map[])
  }

  /** The case the code gets wrong: a duplicate page is sent over a different cached copy. */
  predicate StaleDup(st: State, l: Label) {
    l.Send? && IsDup(l.seen.check) && !st.last && l.pos in st.cache && st.cache[l.pos] != Fill(l.seen.ch)
  }

  lemma ReplayPush(r0: Receiver, stream: seq<Record>, rec: Record)
    ensures Replay(r0, stream + [rec]) == match Replay(r0, stream) case None => None case Some(q) => Receive(q, rec)
  {
    assert (stream + [rec])[..|stream|] == stream;
  }

  /** CONTINUE or not, the record reaches the page it was made from. */
  lemma RecordReachesPage(st: State, r: Receiver, pos: Pos, body: Body)
    requires Follows(st, r) && pos in st.ram
    ensures Target(r, Record(st.lastBlock == Some(pos.id), pos.id, pos.o, body)) == Some(pos.id)
  {
    assert pos in r.ram;
  }

  lemma DupIsFill(p: Page)
    requires IsDup(p)
    ensures Fill(p[0]) == p
  {
  }

  /** The receiver after one turn of the sender. */
  function Arrived(st: State, l: Label, r: Receiver): Receiver
    requires l.Send?
  {
    match Emitted(st, l)
    case None => r
    case Some(Compress(ch)) => Receiver(r.ram[l.pos := Fill(ch)], Some(l.pos.id))
    case Some(Raw(p)) => Receiver(r.ram[l.pos := p], Some(l.pos.id))
    case Some(Delta(_)) => Receiver(r.ram[l.pos := l.seen.copy], Some(l.pos.id))
  }

  lemma {:induction false} SendArrives(st: State, l: Label, r: Receiver)
    requires Follows(st, r) && Coherent(st, r) && l.Send? && Enabled(st, l) && Emitted(st, l).Some?
    ensures Receive(r, Record(st.lastBlock == Some(l.pos.id), l.pos.id, l.pos.o, Emitted(st, l).value)) ==
              Some(Arrived(st, l, r))
  {
    hide Encoded, Decoded, IsDup;
    RecordReachesPage(st, r, l.pos, Emitted(st, l).value);
    if Emitted(st, l).value.Delta? {
      RoundTrip(st.cache[l.pos], l.seen.copy);
      assert st.cache[l.pos] == r.ram[l.pos];
    }
  }

  lemma SendPagesOk(st: State, l: Label, r: Receiver)
    requires Follows(st, r) && PagesOk(st, r) && Coherent(st, r) && l.Send? && Enabled(st, l)
    ensures Follows(Apply(st, l), Arrived(st, l, r)) && PagesOk(Apply(st, l), Arrived(st, l, r))
  {
    hide Encoded, CacheAfter, IsDup, Fill;
    if IsDup(l.seen.check) && l.raced.None? {
      DupIsFill(l.seen.check);
    }
    if Emitted(st, l).None? {
      EmptyCode(st.cache[l.pos], l.seen.copy);
    }
  }

  lemma SendCoherent(st: State, l: Label, r: Receiver)
    requires Follows(st, r) && Coherent(st, r) && l.Send? && Enabled(st, l) && (!st.xbzrle ==> st.cache == map[])
    requires Follows(Apply(st, l), Arrived(st, l, r))
    ensures !StaleDup(st, l) ==> Coherent(Apply(st, l), Arrived(st, l, r))
  {
    hide Encoded, IsDup, Fill;
  }

  lemma {:induction false} SendKeepsInv(st: State, l: Label, r0: Receiver)
    requires Inv(st, r0) && l.Send? && Enabled(st, l) && !StaleDup(st, l)
    ensures Inv(Apply(st, l), r0)
  {
    hide Encoded, Receive, Emitted, Arrived, Follows, PagesOk, Coherent, Replay;
    var r := Replay(r0, st.stream).value;
    SendPagesOk(st, l, r);
    SendCoherent(st, l, r);
    if Emitted(st, l).None? {
      NothingArrives(st, l, r);
    } else {
      SendArrives(st, l, r);
      ReplayPush(r0, st.stream, Apply(st, l).stream[|st.stream|]);
    }
  }

  lemma NothingArrives(st: State, l: Label, r: Receiver)
    requires l.Send? && Emitted(st, l).None?
    ensures Arrived(st, l, r) == r
  {
  }

  lemma {:induction false} StepKeepsInv(st: State, l: Label, r0: Receiver)
    requires Inv(st, r0) && Enabled(st, l) && !StaleDup(st, l)
    ensures Inv(Apply(st, l), r0)
  {
    hide Replay;
    if l.Send? {
      SendKeepsInv(st, l, r0);
    }
  }

  /** Exactly then: the cache stays coherent over a duplicate page sent before the last stage if
      and only if the page is not cached or its cached copy is that very page. */
  lemma {:induction false} DupExactly(st: State, l: Label, r0: Receiver)
    requires Inv(st, r0) && l.Send? && Enabled(st, l) && IsDup(l.seen.check) && !st.last
    ensures Replay(r0, Apply(st, l).stream).Some?
    ensures var r := Replay(r0, Apply(st, l).stream).value;
            Follows(Apply(st, l), r) && (Coherent(Apply(st, l), r) <==> !StaleDup(st, l))
  {
    hide Encoded, Decoded, Receive, IsDup, Fill, Replay, Fits;
    var r := Replay(r0, st.stream).value;
    var st' := Apply(st, l);
    SendArrives(st, l, r);
    ReplayPush(r0, st.stream, st'.stream[|st.stream|]);
  }

  // ---------- whole runs ----------

  ghost predicate Init(st: State, r0: Receiver) {
    // ram_save_setup: all bits set, no block sent yet, an empty cache.
    st.dirty == st.ram.Keys == r0.ram.Keys && st.log == {} && st.cache == map[] && st.stream == [] &&
    st.lastBlock == None && !st.last
  }

  ghost predicate Possible(st: State, run: seq<Label>)
    decreases |run|, 0
  {
    run == [] || (Possible(st, run[..|run| - 1]) && Enabled(After(st, run[..|run| - 1]), run[|run| - 1]))
  }

  ghost function After(st: State, run: seq<Label>): State
    requires Possible(st, run)
    decreases |run|, 1
  {
    if run == [] then st else Apply(After(st, run[..|run| - 1]), run[|run| - 1])
  }

  ghost predicate NoStaleDup(st: State, run: seq<Label>)
    requires Possible(st, run)
  {
    run == [] || (NoStaleDup(st, run[..|run| - 1]) && !StaleDup(After(st, run[..|run| - 1]), run[|run| - 1]))
  }

  /** Main result: over every run of guest writes, log syncs and sends, the stream replays without
      an error, every page is dirty or equal on both sides, and the cache matches the receiver. */
  lemma {:induction false} RunKeepsInv(st: State, run: seq<Label>, r0: Receiver)
    requires Init(st, r0) && Possible(st, run) && NoStaleDup(st, run)
    ensures Inv(After(st, run), r0)
    decreases |run|
  {
    hide Enabled, Apply, StaleDup;
    if run != [] {
      RunKeepsInv(st, run[..|run| - 1], r0);
      StepKeepsInv(After(st, run[..|run| - 1]), run[|run| - 1], r0);
    }
  }

  lemma {:induction false} NoCacheWithoutXbzrle(st: State, run: seq<Label>, r0: Receiver)
    requires Init(st, r0) && Possible(st, run) && !st.xbzrle
    ensures After(st, run).cache == map[] && !After(st, run).xbzrle && NoStaleDup(st, run)
    decreases |run|
  {
    if run != [] {
      NoCacheWithoutXbzrle(st, run[..|run| - 1], r0);
    }
  }

  /** A stale duplicate breaks the invariant, so it holds throughout a run exactly if none occurs. */
  lemma StaleDupBreaks(st: State, l: Label, r0: Receiver)
    requires Inv(st, r0) && Enabled(st, l) && StaleDup(st, l)
    ensures !Inv(Apply(st, l), r0)
  {
    hide Replay, Fill, IsDup, Emitted;
    DupExactly(st, l, r0);
  }

  /** The invariant holds after every prefix of the run. */
  ghost predicate HoldsThroughout(st: State, run: seq<Label>, r0: Receiver)
    requires Possible(st, run)
  {
    Inv(After(st, run), r0) && (run == [] || HoldsThroughout(st, run[..|run| - 1], r0))
  }

  lemma {:induction false} RunExactly(st: State, run: seq<Label>, r0: Receiver)
    requires Init(st, r0) && Possible(st, run)
    ensures HoldsThroughout(st, run, r0) <==> NoStaleDup(st, run)
    decreases |run|
  {
    hide Enabled, Apply, StaleDup, Inv;
    if run == [] {
      RunKeepsInv(st, run, r0);
    } else {
      var before := run[..|run| - 1];
      RunExactly(st, before, r0);
      if NoStaleDup(st, before) {
        RunKeepsInv(st, before, r0);
        if StaleDup(After(st, before), run[|run| - 1]) {
          StaleDupBreaks(After(st, before), run[|run| - 1], r0);
        } else {
          RunKeepsInv(st, run, r0);
        }
      }
    }
  }

  /** As long as no block has been sent, no page has: all are dirty and none is cached. */
  lemma {:induction false} NothingSentYet(st: State, run: seq<Label>, r0: Receiver)
    requires Init(st, r0) && Possible(st, run)
    ensures Untouched(After(st, run), st.ram.Keys)
    decreases |run|
  {
    hide Enabled, Apply;
    if run != [] {
      NothingSentYet(st, run[..|run| - 1], r0);
      StepUntouched(After(st, run[..|run| - 1]), run[|run| - 1], st.ram.Keys);
    }
  }

  ghost predicate Untouched(st: State, keys: set<Pos>) {
    st.ram.Keys == keys && st.dirty <= keys && st.log <= keys &&
    (st.lastBlock.None? ==> st.cache == map[] && st.dirty == keys)
  }

  lemma StepUntouched(st: State, l: Label, keys: set<Pos>)
    requires Untouched(st, keys) && Enabled(st, l)
    ensures Untouched(Apply(st, l), keys)
  {
    hide IsDup, Encoded, Fits, CacheAfter;
  }

  /** With XBZRLE off no assumption is needed. */
  lemma {:induction false} PlainRunKeepsInv(st: State, run: seq<Label>, r0: Receiver)
    requires Init(st, r0) && Possible(st, run) && !st.xbzrle
    ensures Inv(After(st, run), r0)
  {
    NoCacheWithoutXbzrle(st, run, r0);
    RunKeepsInv(st, run, r0);
  }

  /** Once nothing is dirty, the receiver's RAM is the sender's. */
  lemma IdenticalRam(st: State, r0: Receiver)
    requires Inv(st, r0) && st.dirty == {} && st.log == {}
    ensures Replay(r0, st.stream).Some? && Replay(r0, st.stream).value.ram == st.ram
  {
    hide Replay;
  }
}
