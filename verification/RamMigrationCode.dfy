/** The code of arch_init.c on the sending side: the cyclic scan of ram_save_block and the
    completion loop, shown to perform runs of the machine. */
module RamMigrationCode {
  import opened Basics
  import opened Xbzrle
  import opened RamMigration

  datatype RamBlock = RamBlock(idstr: string, pages: nat)

  // ---------- the cyclic order of pages ----------

  /** Pages in the blocks before b. */
  function Before(blocks: seq<RamBlock>, b: nat): nat
    requires b <= |blocks|
  {
    if b == 0 then 0 else Before(blocks, b - 1) + blocks[b - 1].pages
  }

  ghost predicate ValidBlocks(blocks: seq<RamBlock>) {
    && |blocks| > 0
    && (forall b :: 0 <= b < |blocks| ==> blocks[b].pages > 0)
    && (forall b, c :: 0 <= b < c < |blocks| ==> blocks[b].idstr != blocks[c].idstr)
  }

  predicate InBlocks(blocks: seq<RamBlock>, b: int, o: int) {
    0 <= b < |blocks| && 0 <= o < blocks[b].pages
  }

  function At(blocks: seq<RamBlock>, b: nat, o: nat): Pos
    requires b < |blocks|
  {
    Pos(blocks[b].idstr, o)
  }

  /** The pages of the blocks are exactly `keys`. */
  ghost predicate Covers(blocks: seq<RamBlock>, keys: set<Pos>) {
    && (forall b, o :: InBlocks(blocks, b, o) ==> At(blocks, b, o) in keys)
    && (forall pos :: pos in keys ==> exists b, o :: InBlocks(blocks, b, o) && At(blocks, b, o) == pos)
  }

  lemma {:induction false} BeforeMonotone(blocks: seq<RamBlock>, b: nat, c: nat)
    requires b <= c <= |blocks|
    ensures Before(blocks, b) <= Before(blocks, c)
    decreases c
  {
    if b < c {
      BeforeMonotone(blocks, b, c - 1);
    }
  }

  /** Index of a page in the scan order. */
  function Index(blocks: seq<RamBlock>, b: nat, o: nat): nat
    requires b < |blocks|
  {
    Before(blocks, b) + o
  }

  lemma IndexBounds(blocks: seq<RamBlock>, b: nat, o: nat)
    requires InBlocks(blocks, b, o)
    ensures Index(blocks, b, o) < Before(blocks, |blocks|)
  {
    BeforeMonotone(blocks, b + 1, |blocks|);
  }

  lemma IndexUnique(blocks: seq<RamBlock>, b: nat, o: nat, c: nat, p: nat)
    requires InBlocks(blocks, b, o) && InBlocks(blocks, c, p) && Index(blocks, b, o) == Index(blocks, c, p)
    ensures b == c && o == p
  {
    if b < c {
      BeforeMonotone(blocks, b + 1, c);
    } else if c < b {
      BeforeMonotone(blocks, c + 1, b);
    }
  }

  /** How far page j lies ahead of page k in the cycle of n pages. */
  function Ahead(j: nat, k: nat, n: nat): int { if j >= k then j - k else j - k + n }

  /** No page among the first `steps` scanned from (b0, o0) is dirty. */
  ghost predicate Passed(blocks: seq<RamBlock>, dirty: set<Pos>, k0: nat, steps: nat) {
    forall b, o :: InBlocks(blocks, b, o) && Ahead(Index(blocks, b, o), k0, Before(blocks, |blocks|)) < steps ==>
      At(blocks, b, o) !in dirty
  }

  /** The step of the scan: the next page, around the end of the list. */
  function Next(blocks: seq<RamBlock>, b: nat, o: nat): (nat, nat)
    requires InBlocks(blocks, b, o)
  {
    if o + 1 < blocks[b].pages then (b, o + 1) else if b + 1 < |blocks| then (b + 1, 0) else (0, 0)
  }

  lemma NextIndex(blocks: seq<RamBlock>, b: nat, o: nat)
    requires ValidBlocks(blocks) && InBlocks(blocks, b, o)
    ensures var (c, p) := Next(blocks, b, o);
            InBlocks(blocks, c, p) &&
            Index(blocks, c, p) ==
              if Index(blocks, b, o) + 1 == Before(blocks, |blocks|) then 0 else Index(blocks, b, o) + 1
  {
    hide Before;
    BeforeNext(blocks, b);
    if o + 1 < blocks[b].pages {
      IndexBounds(blocks, b, o + 1);
    } else if b + 1 < |blocks| {
      IndexBounds(blocks, b + 1, 0);
    }
  }

  lemma BeforeNext(blocks: seq<RamBlock>, b: nat)
    requires b < |blocks|
    ensures Before(blocks, b + 1) == Before(blocks, b) + blocks[b].pages && Before(blocks, 0) == 0
  {
  }

  lemma PassedOneMore(blocks: seq<RamBlock>, dirty: set<Pos>, b0: nat, o0: nat, steps: nat, b: nat, o: nat)
    requires ValidBlocks(blocks) && InBlocks(blocks, b0, o0) && InBlocks(blocks, b, o)
    requires Ahead(Index(blocks, b, o), Index(blocks, b0, o0), Before(blocks, |blocks|)) == steps
    requires Passed(blocks, dirty, Index(blocks, b0, o0), steps) && At(blocks, b, o) !in dirty
    ensures Passed(blocks, dirty, Index(blocks, b0, o0), steps + 1)
  {
    var n, k0 := Before(blocks, |blocks|), Index(blocks, b0, o0);
    forall c, p | InBlocks(blocks, c, p) && Ahead(Index(blocks, c, p), k0, n) < steps + 1
      ensures At(blocks, c, p) !in dirty
    {
      IndexBounds(blocks, c, p);
      IndexBounds(blocks, b, o);
      IndexBounds(blocks, b0, o0);
      if Ahead(Index(blocks, c, p), k0, n) == steps {
        IndexUnique(blocks, c, p, b, o);
      }
    }
  }

  /** A full cycle passes every page. */
  lemma PassedAll(blocks: seq<RamBlock>, dirty: set<Pos>, b0: nat, o0: nat, keys: set<Pos>)
    requires InBlocks(blocks, b0, o0) && Passed(blocks, dirty, Index(blocks, b0, o0), Before(blocks, |blocks|))
    requires Covers(blocks, keys) && dirty <= keys
    ensures dirty == {}
  {
    forall b, o | InBlocks(blocks, b, o)
      ensures At(blocks, b, o) !in dirty
    {
      IndexBounds(blocks, b, o);
      IndexBounds(blocks, b0, o0);
    }
  }

  lemma AheadNext(k: nat, k0: nat, n: nat)
    requires k < n && k0 < n
    ensures var k' := if k + 1 == n then 0 else k + 1;
            Ahead(k', k0, n) == if Ahead(k, k0, n) + 1 == n then 0 else Ahead(k, k0, n) + 1
    ensures var k' := if k + 1 == n then 0 else k + 1; Ahead(k', k0, n) == 0 <==> k' == k0
  {
  }

  lemma PassedNone(blocks: seq<RamBlock>, dirty: set<Pos>, k0: nat)
    requires k0 < Before(blocks, |blocks|)
    ensures Passed(blocks, dirty, k0, 0)
  {
  }

  lemma PassedFewer(blocks: seq<RamBlock>, dirty: set<Pos>, dirty': set<Pos>, k0: nat, steps: nat)
    requires Passed(blocks, dirty, k0, steps) && dirty' <= dirty
    ensures Passed(blocks, dirty', k0, steps)
  {
  }

  /** The scan that started at (b0, o0) stands at (b, o) after `steps` clean pages. */
  ghost predicate Scanning(blocks: seq<RamBlock>, dirty: set<Pos>, b0: nat, o0: nat, b: nat, o: nat, steps: nat) {
    && InBlocks(blocks, b0, o0) && InBlocks(blocks, b, o) && steps < Before(blocks, |blocks|)
    && Ahead(Index(blocks, b, o), Index(blocks, b0, o0), Before(blocks, |blocks|)) == steps
    && Passed(blocks, dirty, Index(blocks, b0, o0), steps)
  }

  lemma ScanStart(blocks: seq<RamBlock>, dirty: set<Pos>, b0: nat, o0: nat)
    requires InBlocks(blocks, b0, o0)
    ensures Scanning(blocks, dirty, b0, o0, b0, o0, 0)
  {
    IndexBounds(blocks, b0, o0);
    PassedNone(blocks, dirty, Index(blocks, b0, o0));
  }

  /** One more clean page: back at the start everything has been seen, otherwise the scan goes on. */
  lemma ScanStep(blocks: seq<RamBlock>, dirty: set<Pos>, dirty': set<Pos>, b0: nat, o0: nat, b: nat, o: nat,
                 steps: nat, keys: set<Pos>)
    requires ValidBlocks(blocks) && Scanning(blocks, dirty, b0, o0, b, o, steps) && Covers(blocks, keys)
    requires dirty' <= dirty && dirty' <= keys && At(blocks, b, o) !in dirty'
    ensures var (c, p) := Next(blocks, b, o);
            InBlocks(blocks, c, p) &&
            if c == b0 && p == o0 then dirty' == {} else Scanning(blocks, dirty', b0, o0, c, p, steps + 1)
  {
    hide Index, Passed, At, Covers, ValidBlocks, Next;
    var n, k0 := Before(blocks, |blocks|), Index(blocks, b0, o0);
    PassedFewer(blocks, dirty, dirty', k0, steps);
    PassedOneMore(blocks, dirty', b0, o0, steps, b, o);
    NextIndex(blocks, b, o);
    var (c, p) := Next(blocks, b, o);
    IndexBounds(blocks, b, o);
    IndexBounds(blocks, b0, o0);
    AheadNext(Index(blocks, b, o), k0, n);
    if steps + 1 == n {
      IndexUnique(blocks, c, p, b0, o0);
      PassedAll(blocks, dirty', b0, o0, keys);
    }
  }

  // ---------- the sender ----------

  class RamSave {
    const blocks: seq<RamBlock>
    const xbzrle: bool
    /** Do two pages share a slot of the page cache? */
    const collide: (Pos, Pos) -> bool
    var ram: map<Pos, Page>
    var dirty: set<Pos>
    var log: set<Pos>
    var cache: map<Pos, Page>
    var stream: seq<Record>
    var lastBlock: Option<nat>
    var lastOffset: nat
    var last: bool

    ghost predicate Valid()
      reads this
    {
      && ValidBlocks(blocks)
      && Covers(blocks, ram.Keys)
      && dirty <= ram.Keys && log <= ram.Keys
      && (if lastBlock.None? then lastOffset == 0 else InBlocks(blocks, lastBlock.value, lastOffset))
    }

    ghost function Snapshot(): State
      requires lastBlock.Some? ==> lastBlock.value < |blocks|
      reads this
    {
      State(ram, dirty, log, cache, stream,
            if lastBlock.None? then None else Some(blocks[lastBlock.value].idstr), xbzrle, last)
    }

    method CheckDup(p: Page) returns (dup: bool)
      ensures dup == IsDup(p)
    {
      for i := 0 to PAGE
        invariant forall j :: 0 <= j < i ==> p[j] == p[0]
      {
        if p[i] != p[0] {
          return false;
        }
      }
      dup := true;
    }

    /** save_xbzrle_page. The guest may write while it runs: `copy` is the content when the page is
        copied, into the cache on a miss and into current_buf on a hit, and `again` when an overflow
        makes it be copied once more. */
    method SaveXbzrlePage(pos: Pos, copy: Page, again: Page, cont: bool)
      returns (bytes: int, ghost overflow: bool, ghost evicted: set<Pos>)
      modifies this`cache, this`stream
      ensures pos !in old(cache) ==>
                bytes == -1 && stream == old(stream) && !overflow && pos !in evicted &&
                cache == if last then old(cache) else (old(cache) - evicted)[pos := copy]
      ensures pos in old(cache) ==> var code := Encoded(old(cache)[pos], copy, 0);
                overflow == !Fits(old(cache)[pos], copy, PAGE) &&
                if overflow then bytes == -1 && stream == old(stream) && cache == old(cache)[pos := again]
                else if code == [] then bytes == 0 && stream == old(stream) && cache == old(cache)
                else bytes == |code| + 3 && |code| <= PAGE &&
                     stream == old(stream) + [Record(cont, pos.id, pos.o, Delta(code))] &&
                     cache == if last then old(cache) else old(cache)[pos := copy]
    {
      hide Encoded, Fits;
      overflow, evicted := false, {};
      if pos !in cache {
        if !last {
          var gone := set q | q in cache && q != pos && collide(pos, q);
          cache := (cache - gone)[pos := copy];
          evicted := gone;
        }
        return -1, overflow, evicted;
      }
      var n, code := EncodeBuffer(cache[pos], copy, PAGE);
      if n == 0 {
        return 0, overflow, evicted;
      }
      if n == -1 {
        cache := cache[pos := again];
        return -1, true, evicted;
      }
      if !last {
        cache := cache[pos := copy];
      }
      stream := stream + [Record(cont, pos.id, pos.o, Delta(code))];
      bytes := n + 1 + 2;
    }

    /** One turn of the loop of ram_save_block on a dirty page: bytes_sent, 0 if the page turned
        out unchanged. The guest may write the page meanwhile: `seen` is what the code sees of it at
        the points where it looks, and `raced` the content the writes leave. The static last_block is
        not touched yet. */
    method SavePage(b: nat, o: nat, seen: Seen, raced: Option<Page>) returns (bytes: int, ghost l: Label)
      requires Valid() && InBlocks(blocks, b, o) && At(blocks, b, o) in dirty
      requires if raced.None? then seen == Steady(ram[At(blocks, b, o)]) else !last
      modifies this`dirty, this`cache, this`stream, this`ram, this`log
      ensures l.Send? && l.pos == At(blocks, b, o) && l.seen == seen && l.raced == raced && Enabled(old(Snapshot()), l)
      ensures Snapshot() == Apply(old(Snapshot()), l).(lastBlock := old(Snapshot()).lastBlock)
      ensures bytes >= 0 && (bytes == 0 <==> Emitted(old(Snapshot()), l).None?)
    {
      hide Encoded, IsDup, Covers, ValidBlocks, Fits, At;
      var pos := At(blocks, b, o);
      AtIs(blocks, b, o);
      var cont := lastBlock == Some(b);
      ghost var st := Snapshot();
      SameBlock(blocks, lastBlock, b);
      dirty := dirty - {pos};
      if raced.Some? {
        ram, log := ram[pos := raced.value], log + {pos};
      }
      bytes, l := SendPage(pos, seen, raced, cont, st);
    }

    /** The record for a page whose dirty bit was cleared. */
    method SendPage(pos: Pos, seen: Seen, ghost raced: Option<Page>, cont: bool, ghost st: State)
      returns (bytes: int, ghost l: Label)
      requires pos in st.dirty && pos in st.ram && cache == st.cache && stream == st.stream && xbzrle == st.xbzrle &&
               last == st.last
      requires cont == (st.lastBlock == Some(pos.id)) && if raced.None? then seen == Steady(st.ram[pos]) else !last
      modifies this`cache, this`stream
      ensures l.Send? && l.pos == pos && l.seen == seen && l.raced == raced && Enabled(st, l)
      ensures cache == Apply(st, l).cache && stream == Apply(st, l).stream
      ensures bytes >= 0 && (bytes == 0 <==> Emitted(st, l).None?)
    {
      hide Encoded, IsDup, Fits;
      l := Send(pos, seen, raced, false, {});
      var dup := CheckDup(seen.check);
      if dup {
        stream := stream + [Record(cont, pos.id, pos.o, Compress(seen.ch))];
        return 1, l;
      }
      var p := seen.again;
      bytes := -1;
      if xbzrle {
        ghost var overflow, evicted;
        bytes, overflow, evicted := SaveXbzrlePage(pos, seen.copy, seen.again, cont);
        l := Send(pos, seen, raced, overflow, evicted);
        if !last {
          p := cache[pos];
        }
      }
      if bytes == -1 {
        stream := stream + [Record(cont, pos.id, pos.o, Raw(p))];
        bytes := PAGE;
      }
    }

    /** The same as one more step of a run of sends. */
    method TryPage(b: nat, o: nat, ghost st: State, ghost run: seq<Label>) returns (bytes: int, ghost run': seq<Label>)
      requires Valid() && InBlocks(blocks, b, o) && At(blocks, b, o) in dirty && Sends(st, run, Snapshot())
      modifies this`dirty, this`cache, this`stream, this`ram, this`log
      ensures Valid() && bytes >= 0 && dirty == old(dirty) - {At(blocks, b, o)} && ram == old(ram) && log == old(log)
      ensures bytes == 0 <==> At(blocks, b, o) !in old(Emitting(Snapshot()))
      ensures bytes == 0 ==> Sends(st, run', Snapshot()) && Emitting(Snapshot()) == old(Emitting(Snapshot()))
      ensures bytes == 0 ==> stream == old(stream)
      ensures bytes != 0 ==> Sends(st, run', Snapshot().(lastBlock := Some(blocks[b].idstr)))
      ensures bytes != 0 ==> OneRecord(old(stream), stream, At(blocks, b, o))
    {
      hide Sends, Apply, Emitted, Enabled, Covers, ValidBlocks, Emitting;
      ghost var before := Snapshot();
      ghost var l;
      var p := ram[At(blocks, b, o)];
      bytes, l := SavePage(b, o, Steady(p), None);
      SendFacts(before, l);
      run' := OneMoreSend(st, run, before, l);
      EmittingIs(before, l);
      if bytes == 0 {
        StillEmitting(before, l);
      }
      AtIs(blocks, b, o);
    }

    /** The next page: `offset += TARGET_PAGE_SIZE`, around the end of a block and of the list. */
    method Advance(b: nat, o: nat) returns (c: nat, p: nat)
      requires InBlocks(blocks, b, o)
      ensures (c, p) == Next(blocks, b, o)
    {
      c, p := b, o + 1;
      if p >= blocks[b].pages {
        p := 0;
        c := b + 1;
        if c == |blocks| {
          c := 0;
        }
      }
    }

    /** ram_save_block. From where the last call stopped it goes round to the first dirty page that
        puts a record on the stream, which is then the only one added, and stops there; the pages on
        the way, and no others, are clean afterwards. If there is no such page it comes back to where
        it started, with every page clean: -1 if none was dirty. What it requires is exactly what
        makes it return, as ScanEndsExactly shows. */
    method RamSaveBlock() returns (bytes: int, ghost run: seq<Label>)
      requires Valid() && (lastBlock.None? ==> Emitting(Snapshot()) != {})
      modifies this`dirty, this`cache, this`stream, this`ram, this`log, this`lastBlock, this`lastOffset
      ensures Valid() && lastBlock.Some? && ram == old(ram) && log == old(log)
      ensures bytes >= -1 && (bytes == -1 <==> old(dirty) == {}) && (bytes == -1 ==> Snapshot() == old(Snapshot()))
      ensures bytes != -1 ==> dirty < old(dirty)
      ensures Sends(old(Snapshot()), run, Snapshot())
      ensures bytes > 0 <==> old(Emitting(Snapshot())) != {}
      ensures bytes > 0 ==>
                Stops(blocks, old(Emitting(Snapshot())), old(Start(lastBlock)), old(lastOffset), lastBlock.value,
                      lastOffset) &&
                OneRecord(old(stream), stream, At(blocks, lastBlock.value, lastOffset)) &&
                Swept(blocks, old(dirty), dirty, old(Start(lastBlock)), old(lastOffset),
                      Distance(blocks, old(Start(lastBlock)), old(lastOffset), lastBlock.value, lastOffset) + 1)
      ensures bytes <= 0 ==>
                stream == old(stream) && dirty == {} && lastBlock == old(lastBlock) && lastOffset == old(lastOffset)
    {
      hide At, Next, Covers, ValidBlocks, Before, Emitting, Hunting, Sends, Stops, Swept, OneRecord, Distance;
      ghost var st := Snapshot();
      BlocksNonempty(blocks);
      var b: nat := if lastBlock.None? then 0 else lastBlock.value;
      var o: nat := lastOffset;
      ghost var b0: nat, o0: nat, steps: nat := b, o, 0;
      bytes, run := -1, [];
      HuntStart(blocks, st, b, o);
      while true
        invariant Valid() && lastBlock == old(lastBlock) && lastOffset == old(lastOffset) && ram == old(ram) &&
                  log == old(log)
        invariant b < |blocks| && InBlocks(blocks, b, o) &&
                  Hunting(blocks, st, Snapshot(), b0, o0, b, o, steps, bytes, run)
        decreases Before(blocks, |blocks|) - steps
      {
        ghost var before := Snapshot();
        HuntFacts(blocks, st, before, b0, o0, b, o, steps, bytes, run);
        if At(blocks, b, o) in dirty {
          bytes, run := TryPage(b, o, st, run);
          if bytes != 0 {
            lastBlock, lastOffset := Some(b), o;
            HuntFound(blocks, st, before, Snapshot(), b0, o0, b, o, steps, run);
            return;
          }
        }
        HuntStep(blocks, st, before, Snapshot(), b0, o0, b, o, steps, bytes, run);
        b, o := Advance(b, o);
        steps := steps + 1;
        if lastBlock == Some(b) && lastOffset == o {
          break;
        }
      }
      lastBlock, lastOffset := Some(b), o;
    }

    /** ram_save_setup: every page dirty, no block sent, an empty cache. */
    method RamSaveSetup(ghost r0: Receiver)
      requires Valid() && log == {} && r0.ram.Keys == ram.Keys && stream == []
      modifies this`dirty, this`cache, this`lastBlock, this`lastOffset, this`last
      ensures Valid() && Init(Snapshot(), r0)
    {
      hide Covers, ValidBlocks;
      lastBlock, lastOffset, last := None, 0, false;
      cache := map[];
      for b := 0 to |blocks|
        modifies this`dirty
        invariant dirty <= ram.Keys
        invariant forall c, o :: InBlocks(blocks, c, o) && c < b ==> At(blocks, c, o) in dirty
      {
        for o := 0 to blocks[b].pages
          modifies this`dirty
          invariant dirty <= ram.Keys
          invariant forall c, p :: InBlocks(blocks, c, p) && (c < b || (c == b && p < o)) ==> At(blocks, c, p) in dirty
        {
          PageInRam(blocks, ram.Keys, b, o);
          if At(blocks, b, o) !in dirty {
            dirty := dirty + {At(blocks, b, o)};
          }
        }
      }
      AllCovered(blocks, ram.Keys, dirty);
    }

    /** ram_save_complete with the guest stopped: it ends within one call more than there are
        dirty pages, and the receiver's RAM is then the sender's. */
    method RamSaveComplete(ghost r0: Receiver) returns (ghost calls: nat)
      requires Valid() && Inv(Snapshot(), r0) && !last
      requires lastBlock.None? ==> Emitting(Snapshot().(dirty := dirty + log)) != {}
      modifies this
      ensures Valid() && dirty == {} && ram == old(ram)
      ensures calls <= |old(dirty + log)| + 1
      ensures Replay(r0, stream).Some? && Replay(r0, stream).value.ram == ram
    {
      hide Inv, Apply, Enabled, Sends, Covers, ValidBlocks, Replay, InBlocks;
      BlocksNonempty(blocks);
      ghost var st := Snapshot();
      // memory_global_sync_dirty_bitmap
      dirty := dirty + log;
      log := {};
      ghost var mid := Snapshot();
      last := true;
      LastStageStarts(st, mid, Snapshot(), r0);
      SameEmitting(st.(dirty := dirty), Snapshot());
      ghost var all := dirty;
      calls := 0;
      while true
        invariant Valid() && Inv(Snapshot(), r0) && last && log == {} && ram == old(ram) && dirty <= all &&
                  calls + |dirty| <= |all|
        invariant lastBlock.None? ==> Emitting(Snapshot()) != {}
        decreases |dirty|
      {
        ghost var before := Snapshot();
        var bytes;
        ghost var run;
        bytes, run := RamSaveBlock();
        calls := calls + 1;
        LastStageSends(before, run, Snapshot(), r0);
        if bytes < 0 {
          break;
        }
        SmallerSet(dirty, before.dirty);
      }
      IdenticalRam(Snapshot(), r0);
    }
  }

  /** Sends that emit nothing leave the pages that will emit as they are. */
  lemma StillEmitting(st: State, l: Label)
    requires l.Send? && l.raced.None? && Enabled(st, l) && Emitted(st, l).None?
    ensures Emitting(Apply(st, l).(lastBlock := st.lastBlock)) == Emitting(st)
  {
    hide Encoded, IsDup, Fits, Apply, Emitted, Enabled;
    SendFacts(st, l);
    WillEmitIs(st, l);
    assert forall pos :: pos in Emitting(st) ==> pos != l.pos;
  }

  lemma NothingDirty(st: State)
    ensures st.dirty == {} ==> Emitting(st) == {}
  {
  }

  lemma SameEmitting(st: State, st': State)
    requires st'.ram == st.ram && st'.dirty == st.dirty && st'.cache == st.cache && st'.xbzrle == st.xbzrle
    ensures Emitting(st') == Emitting(st)
  {
  }

  // ---------- exactly when the scan ends ----------

  /** The loop of ram_save_block is still running after n turns: none of them put a record on the
      stream, and after each the position was not last_block and last_offset. With no block sent
      yet there is no such position. */
  ghost predicate Running(blocks: seq<RamBlock>, lastBlock: Option<nat>, lastOffset: nat, st: State, b: nat, o: nat,
                          n: nat)
    requires InBlocks(blocks, b, o) && ValidBlocks(blocks)
    decreases n
  {
    n == 0 ||
    (var pos := At(blocks, b, o);
     (NextIndex(blocks, b, o);
      var (c, p) := Next(blocks, b, o);
      !(pos in st.dirty && pos in st.ram && WillEmit(st, pos)) && !(lastBlock == Some(c) && lastOffset == p) &&
      Running(blocks, lastBlock, lastOffset, st.(dirty := st.dirty - {pos}), c, p, n - 1)))
  }

  /** A turn that emits nothing. */
  lemma TurnKeepsEmitting(st: State, pos: Pos)
    requires pos !in Emitting(st)
    ensures Emitting(st.(dirty := st.dirty - {pos})) == Emitting(st)
  {
  }

  /** With no block sent and no page that will emit, the loop runs for any number of turns. */
  lemma {:induction false} RunsForEver(blocks: seq<RamBlock>, st: State, b: nat, o: nat, n: nat)
    requires ValidBlocks(blocks) && InBlocks(blocks, b, o) && Emitting(st) == {}
    ensures Running(blocks, None, 0, st, b, o, n)
    decreases n
  {
    hide WillEmit, ValidBlocks;
    if n > 0 {
      var pos := At(blocks, b, o);
      assert pos !in Emitting(st);
      TurnKeepsEmitting(st, pos);
      NextIndex(blocks, b, o);
      var (c, p) := Next(blocks, b, o);
      RunsForEver(blocks, st.(dirty := st.dirty - {pos}), c, p, n - 1);
    }
  }

  /** In particular before anything is sent when nothing is dirty. */
  lemma NothingDirtyRunsForEver(blocks: seq<RamBlock>, st: State, n: nat)
    requires ValidBlocks(blocks) && st.dirty == {}
    ensures Running(blocks, None, 0, st, 0, 0, n)
  {
    NothingDirty(st);
    RunsForEver(blocks, st, 0, 0, n);
  }

  /** Otherwise it stops within one cycle of the pages. */
  lemma {:induction false} StopsWithin(blocks: seq<RamBlock>, lastBlock: Option<nat>, lastOffset: nat, st: State,
                                       b0: nat, o0: nat, b: nat, o: nat, steps: nat)
    requires ValidBlocks(blocks) && Covers(blocks, st.ram.Keys) && Scanning(blocks, Emitting(st), b0, o0, b, o, steps)
    requires if lastBlock.Some? then lastBlock.value == b0 && lastOffset == o0 else Emitting(st) != {}
    ensures !Running(blocks, lastBlock, lastOffset, st, b, o, Before(blocks, |blocks|) - steps)
    decreases Before(blocks, |blocks|) - steps
  {
    hide Scanning, WillEmit, Covers, ValidBlocks, Next, Before;
    ScanBound(blocks, Emitting(st), b0, o0, b, o, steps);
    ScanPlace(blocks, Emitting(st), b0, o0, b, o, steps);
    var pos := At(blocks, b, o);
    if pos !in Emitting(st) {
      ScanStep(blocks, Emitting(st), Emitting(st), b0, o0, b, o, steps, st.ram.Keys);
      TurnKeepsEmitting(st, pos);
      var (c, p) := Next(blocks, b, o);
      if !(c == b0 && p == o0) {
        ScanBound(blocks, Emitting(st), b0, o0, c, p, steps + 1);
        StopsWithin(blocks, lastBlock, lastOffset, st.(dirty := st.dirty - {pos}), b0, o0, c, p, steps + 1);
      }
    }
  }

  lemma ScanPlace(blocks: seq<RamBlock>, dirty: set<Pos>, b0: nat, o0: nat, b: nat, o: nat, steps: nat)
    requires Scanning(blocks, dirty, b0, o0, b, o, steps)
    ensures InBlocks(blocks, b, o) && InBlocks(blocks, b0, o0)
  {
  }

  /** The loop started at block b ends at some turn. */
  ghost predicate Ends(blocks: seq<RamBlock>, lastBlock: Option<nat>, lastOffset: nat, st: State, b: nat)
    requires InBlocks(blocks, b, lastOffset) && ValidBlocks(blocks)
  {
    exists n: nat :: !Running(blocks, lastBlock, lastOffset, st, b, lastOffset, n)
  }

  /** ram_save_block returns exactly if a block has been sent before or a dirty page will emit. */
  lemma ScanEndsExactly(blocks: seq<RamBlock>, lastBlock: Option<nat>, lastOffset: nat, st: State)
    requires ValidBlocks(blocks) && Covers(blocks, st.ram.Keys)
    requires if lastBlock.None? then lastOffset == 0 else InBlocks(blocks, lastBlock.value, lastOffset)
    ensures InBlocks(blocks, if lastBlock.None? then 0 else lastBlock.value, lastOffset)
    ensures Ends(blocks, lastBlock, lastOffset, st, if lastBlock.None? then 0 else lastBlock.value) <==>
            lastBlock.Some? || Emitting(st) != {}
  {
    hide Running, Scanning, Covers, ValidBlocks, Emitting;
    BlocksNonempty(blocks);
    var b: nat := if lastBlock.None? then 0 else lastBlock.value;
    if lastBlock.Some? || Emitting(st) != {} {
      ScanStart(blocks, Emitting(st), b, lastOffset);
      StopsWithin(blocks, lastBlock, lastOffset, st, b, lastOffset, b, lastOffset, 0);
    } else {
      forall n: nat
        ensures Running(blocks, lastBlock, lastOffset, st, b, lastOffset, n)
      {
        RunsForEver(blocks, st, b, lastOffset, n);
      }
    }
  }

  /** In every state a run reaches, ram_save_block returns and so does ram_save_complete. */
  lemma ReachableEnds(blocks: seq<RamBlock>, st: State, run: seq<Label>, r0: Receiver)
    requires Init(st, r0) && Possible(st, run) && ValidBlocks(blocks) && Covers(blocks, After(st, run).ram.Keys)
    ensures After(st, run).lastBlock.None? ==> Emitting(After(st, run)) != {}
    ensures After(st, run).lastBlock.None? ==>
              var now := After(st, run);
              Emitting(now.(dirty := now.dirty + now.log)) != {}
  {
    hide Possible, After, IsDup;
    NothingSentYet(st, run, r0);
    BlocksNonempty(blocks);
    PageInRam(blocks, After(st, run).ram.Keys, 0, 0);
    var now, pos := After(st, run), At(blocks, 0, 0);
    if now.lastBlock.None? {
      assert pos in Emitting(now) && pos in Emitting(now.(dirty := now.dirty + now.log));
    }
  }

  /** A whole migration: set-up, any run without a stale duplicate, completion with the guest
      stopped. The receiver's RAM is then the sender's. */
  method CompleteRun(save: RamSave, ghost st: State, ghost run: seq<Label>, ghost r0: Receiver)
    returns (ghost calls: nat)
    requires save.Valid() && Init(st, r0) && Possible(st, run) && NoStaleDup(st, run)
    requires save.Snapshot() == After(st, run) && !save.last
    modifies save
    ensures save.Valid() && save.dirty == {} && save.ram == old(save.ram) && calls <= |old(save.dirty + save.log)| + 1
    ensures Replay(r0, save.stream).Some? && Replay(r0, save.stream).value.ram == save.ram
  {
    hide Possible, After, NoStaleDup, Init, Inv, Replay, Covers, ValidBlocks, Emitting;
    RunKeepsInv(st, run, r0);
    ReachableEnds(save.blocks, st, run, r0);
    calls := save.RamSaveComplete(r0);
  }

  lemma PageInRam(blocks: seq<RamBlock>, keys: set<Pos>, b: nat, o: nat)
    requires Covers(blocks, keys) && InBlocks(blocks, b, o)
    ensures At(blocks, b, o) in keys
  {
  }

  lemma AllCovered(blocks: seq<RamBlock>, keys: set<Pos>, dirty: set<Pos>)
    requires Covers(blocks, keys) && dirty <= keys &&
             forall b, o :: InBlocks(blocks, b, o) ==> At(blocks, b, o) in dirty
    ensures dirty == keys
  {
  }

  lemma SmallerSet(a: set<Pos>, b: set<Pos>)
    requires a < b
    ensures |a| < |b|
  {
    var x :| x in b && x !in a;
    assert a <= b - {x};
    SubsetSize(a, b - {x});
  }

  lemma {:induction false} SubsetSize(a: set<Pos>, b: set<Pos>)
    requires a <= b
    ensures |a| <= |b|
    decreases a
  {
    if x :| x in a {
      SubsetSize(a - {x}, b - {x});
    }
  }

  lemma LastStageStarts(st: State, mid: State, st': State, r0: Receiver)
    requires Inv(st, r0) && !st.last && mid == st.(dirty := st.dirty + st.log, log := {}) && st' == mid.(last := true)
    ensures Inv(st', r0)
  {
    hide Replay;
    StepKeepsInv(st, SyncLog, r0);
    StepKeepsInv(mid, StartLastStage, r0);
  }

  /** In the last stage a duplicate page can no longer do harm. */
  lemma {:induction false} LastStageSends(st: State, run: seq<Label>, st': State, r0: Receiver)
    requires Inv(st, r0) && st.last && Sends(st, run, st')
    ensures Inv(st', r0) && st'.last && st'.ram == st.ram && st'.log == st.log && st'.dirty <= st.dirty
    decreases |run|
  {
    hide Replay, Encoded, IsDup, Inv;
    if run != [] {
      var before := run[..|run| - 1];
      assert Sends(st, before, After(st, before));
      LastStageSends(st, before, After(st, before), r0);
      StepKeepsInv(After(st, before), run[|run| - 1], r0);
    }
  }

  lemma BlocksNonempty(blocks: seq<RamBlock>)
    requires ValidBlocks(blocks)
    ensures |blocks| > 0 && InBlocks(blocks, 0, 0) && forall b, o :: InBlocks(blocks, b, o) ==> 0 <= b < |blocks|
  {
  }

  lemma ScanBound(blocks: seq<RamBlock>, dirty: set<Pos>, b0: nat, o0: nat, b: nat, o: nat, steps: nat)
    requires Scanning(blocks, dirty, b0, o0, b, o, steps)
    ensures steps < Before(blocks, |blocks|)
  {
  }

  lemma AtIs(blocks: seq<RamBlock>, b: nat, o: nat)
    requires b < |blocks|
    ensures At(blocks, b, o).id == blocks[b].idstr
  {
  }

  lemma SendFacts(st: State, l: Label)
    requires l.Send? && l.raced.None? && Enabled(st, l)
    ensures var st' := Apply(st, l);
            l.pos in st.dirty && st'.dirty == st.dirty - {l.pos} && st'.ram == st.ram && st'.log == st.log &&
            st'.lastBlock == if Emitted(st, l).None? then st.lastBlock else Some(l.pos.id)
  {
    hide Encoded, IsDup;
  }

  /** A run of sends, none disturbed by the guest, takes st to st'. */
  ghost predicate Sends(st: State, run: seq<Label>, st': State) {
    Possible(st, run) && After(st, run) == st' && forall i :: 0 <= i < |run| ==> run[i].Send? && run[i].raced.None?
  }

  /** The block a scan begins with. */
  function Start(lastBlock: Option<nat>): nat { if lastBlock.None? then 0 else lastBlock.value }

  /** How many pages lie between two places in the order of the scan. */
  function Distance(blocks: seq<RamBlock>, b0: nat, o0: nat, b: nat, o: nat): int
    requires b0 < |blocks| && b < |blocks|
  {
    Ahead(Index(blocks, b, o), Index(blocks, b0, o0), Before(blocks, |blocks|))
  }

  /** (b, o) is the first page of the set from (b0, o0) on, around the end. */
  ghost predicate Stops(blocks: seq<RamBlock>, pages: set<Pos>, b0: nat, o0: nat, b: nat, o: nat) {
    InBlocks(blocks, b0, o0) && InBlocks(blocks, b, o) && At(blocks, b, o) in pages &&
    forall c, p :: InBlocks(blocks, c, p) && At(blocks, c, p) in pages ==>
      Distance(blocks, b0, o0, b, o) <= Distance(blocks, b0, o0, c, p)
  }

  /** Of the pages, exactly those among the first n from (b0, o0) on have been cleaned. */
  ghost predicate Swept(blocks: seq<RamBlock>, was: set<Pos>, dirty: set<Pos>, b0: nat, o0: nat, n: int) {
    b0 < |blocks| &&
    forall c, p :: InBlocks(blocks, c, p) ==>
      (At(blocks, c, p) in dirty <==> At(blocks, c, p) in was && n <= Distance(blocks, b0, o0, c, p))
  }

  /** One record was added, and it is for this page. */
  ghost predicate OneRecord(was: seq<Record>, now: seq<Record>, pos: Pos) {
    |now| == |was| + 1 && now[..|was|] == was && now[|was|].id == pos.id && now[|was|].o == pos.o
  }

  /** The scan that began in st at (b0, o0) has come to (b, o): the pages on the way are clean and
      none of them put a record on the stream. */
  ghost predicate Hunting(blocks: seq<RamBlock>, st: State, now: State, b0: nat, o0: nat, b: nat, o: nat, steps: nat,
                          bytes: int, run: seq<Label>) {
    && Scanning(blocks, Emitting(st), b0, o0, b, o, steps) && Swept(blocks, st.dirty, now.dirty, b0, o0, steps)
    && Sends(st, run, now) && (if bytes == -1 then now == st else bytes == 0 && now.dirty < st.dirty)
    && now.stream == st.stream && Emitting(now) == Emitting(st) && now.ram == st.ram && now.lastBlock == st.lastBlock
  }

  lemma HuntStart(blocks: seq<RamBlock>, st: State, b: nat, o: nat)
    requires InBlocks(blocks, b, o)
    ensures Hunting(blocks, st, st, b, o, b, o, 0, -1, [])
  {
    hide Emitting, Scanning;
    ScanStart(blocks, Emitting(st), b, o);
    forall c, p | InBlocks(blocks, c, p)
      ensures 0 <= Distance(blocks, b, o, c, p)
    {
      IndexBounds(blocks, c, p);
      IndexBounds(blocks, b, o);
    }
  }

  lemma HuntFacts(blocks: seq<RamBlock>, st: State, now: State, b0: nat, o0: nat, b: nat, o: nat, steps: nat,
                  bytes: int, run: seq<Label>)
    requires Hunting(blocks, st, now, b0, o0, b, o, steps, bytes, run)
    ensures Sends(st, run, now) && steps < Before(blocks, |blocks|) && Emitting(now) == Emitting(st) <= now.dirty
    ensures if bytes == -1 then now == st else bytes == 0 && now.dirty < st.dirty
    ensures now.stream == st.stream && now.ram == st.ram && now.lastBlock == st.lastBlock
  {
    hide WillEmit, Sends, Passed, Swept;
  }

  /** The page at (b, o) was emitted. */
  lemma HuntFound(blocks: seq<RamBlock>, st: State, before: State, now: State, b0: nat, o0: nat, b: nat, o: nat,
                  steps: nat, run: seq<Label>)
    requires ValidBlocks(blocks) && exists bytes, r :: Hunting(blocks, st, before, b0, o0, b, o, steps, bytes, r)
    requires At(blocks, b, o) in before.dirty && At(blocks, b, o) in Emitting(st)
    requires now.dirty == before.dirty - {At(blocks, b, o)} && OneRecord(before.stream, now.stream, At(blocks, b, o))
    ensures Stops(blocks, Emitting(st), b0, o0, b, o) && OneRecord(st.stream, now.stream, At(blocks, b, o))
    ensures Swept(blocks, st.dirty, now.dirty, b0, o0, Distance(blocks, b0, o0, b, o) + 1)
    ensures st.dirty != {} && now.dirty < st.dirty
  {
    hide Emitting, Sends;
    var bytes, r :| Hunting(blocks, st, before, b0, o0, b, o, steps, bytes, r);
    forall c, p | InBlocks(blocks, c, p) && At(blocks, c, p) in Emitting(st)
      ensures Distance(blocks, b0, o0, b, o) <= Distance(blocks, b0, o0, c, p)
    {
    }
    SweepStep(blocks, st.dirty, before.dirty, now.dirty, b0, o0, b, o, steps);
  }

  lemma SweepStep(blocks: seq<RamBlock>, was: set<Pos>, dirty: set<Pos>, dirty': set<Pos>, b0: nat, o0: nat, b: nat,
                  o: nat, steps: nat)
    requires ValidBlocks(blocks) && InBlocks(blocks, b0, o0) && InBlocks(blocks, b, o)
    requires Swept(blocks, was, dirty, b0, o0, steps) && Distance(blocks, b0, o0, b, o) == steps
    requires dirty' == dirty - {At(blocks, b, o)}
    ensures Swept(blocks, was, dirty', b0, o0, steps + 1)
  {
    forall c, p | InBlocks(blocks, c, p)
      ensures At(blocks, c, p) in dirty' <==> At(blocks, c, p) in was && steps + 1 <= Distance(blocks, b0, o0, c, p)
    {
      if Distance(blocks, b0, o0, c, p) == steps {
        SamePlace(blocks, b0, o0, b, o, c, p);
      } else {
        assert !(c == b && p == o);
        assert At(blocks, c, p) != At(blocks, b, o);
      }
    }
  }

  lemma SamePlace(blocks: seq<RamBlock>, b0: nat, o0: nat, b: nat, o: nat, c: nat, p: nat)
    requires InBlocks(blocks, b0, o0) && InBlocks(blocks, b, o) && InBlocks(blocks, c, p)
    requires Distance(blocks, b0, o0, b, o) == Distance(blocks, b0, o0, c, p)
    ensures b == c && o == p
  {
    IndexBounds(blocks, b0, o0);
    IndexBounds(blocks, b, o);
    IndexBounds(blocks, c, p);
    IndexUnique(blocks, b, o, c, p);
  }

  /** The page at (b, o) was clean or turned out unchanged: back at the start every page is clean and
      none would emit, otherwise the scan goes on. */
  lemma HuntStep(blocks: seq<RamBlock>, st: State, before: State, now: State, b0: nat, o0: nat, b: nat, o: nat,
                 steps: nat, bytes: int, run: seq<Label>)
    requires ValidBlocks(blocks) && Covers(blocks, st.ram.Keys) && st.dirty <= st.ram.Keys
    requires exists y, r :: Hunting(blocks, st, before, b0, o0, b, o, steps, y, r)
    requires Sends(st, run, now) && Emitting(now) == Emitting(st) && now.stream == st.stream && now.ram == st.ram
    requires now.lastBlock == st.lastBlock && At(blocks, b, o) !in Emitting(st)
    requires now.dirty == before.dirty - {At(blocks, b, o)}
    requires if bytes == -1 then now == before == st else bytes == 0 && now.dirty < st.dirty
    ensures var (c, p) := Next(blocks, b, o);
            InBlocks(blocks, c, p) &&
            if c == b0 && p == o0 then now.dirty == {} && Emitting(st) == {}
            else Hunting(blocks, st, now, b0, o0, c, p, steps + 1, bytes, run)
  {
    hide Sends, Next, At, Passed, Index, WillEmit;
    var y, r :| Hunting(blocks, st, before, b0, o0, b, o, steps, y, r);
    SweepStep(blocks, st.dirty, before.dirty, now.dirty, b0, o0, b, o, steps);
    ScanStep(blocks, Emitting(st), Emitting(st), b0, o0, b, o, steps, st.ram.Keys);
    var (c, p) := Next(blocks, b, o);
    if c == b0 && p == o0 {
      SweptAll(blocks, st.dirty, now.dirty, b0, o0, b, o, steps, st.ram.Keys);
    }
  }

  /** When the next page is the first again, every page has been swept. */
  lemma SweptAll(blocks: seq<RamBlock>, was: set<Pos>, dirty: set<Pos>, b0: nat, o0: nat, b: nat, o: nat, steps: nat,
                 keys: set<Pos>)
    requires ValidBlocks(blocks) && Covers(blocks, keys) && dirty <= keys
    requires InBlocks(blocks, b0, o0) && InBlocks(blocks, b, o) && Next(blocks, b, o) == (b0, o0)
    requires Distance(blocks, b0, o0, b, o) == steps && Swept(blocks, was, dirty, b0, o0, steps + 1)
    ensures dirty == {}
  {
    hide Next, Before;
    var n := Before(blocks, |blocks|);
    NextIndex(blocks, b, o);
    IndexBounds(blocks, b, o);
    IndexBounds(blocks, b0, o0);
    assert steps + 1 == n;
    forall c, p | InBlocks(blocks, c, p)
      ensures At(blocks, c, p) !in dirty
    {
      IndexBounds(blocks, c, p);
    }
  }

  lemma EmittingIs(st: State, l: Label)
    requires l.Send? && l.raced.None? && Enabled(st, l)
    ensures l.pos in Emitting(st) <==> Emitted(st, l).Some?
    ensures Emitted(st, l).None? ==> Apply(st, l).stream == st.stream
    ensures Emitted(st, l).Some? ==> OneRecord(st.stream, Apply(st, l).stream, l.pos)
  {
    hide Encoded, IsDup, Fits, WillEmit;
    WillEmitIs(st, l);
    assert st.stream <= Apply(st, l).stream;
  }

  lemma OneMoreSend(st: State, run: seq<Label>, now: State, l: Label) returns (run': seq<Label>)
    requires Sends(st, run, now) && Enabled(now, l) && l.Send? && l.raced.None?
    ensures run' == run + [l] && Sends(st, run', Apply(now, l))
  {
    run' := run + [l];
    assert run'[..|run|] == run;
  }

  lemma SameBlock(blocks: seq<RamBlock>, last: Option<nat>, b: nat)
    requires ValidBlocks(blocks) && b < |blocks| && (last.Some? ==> last.value < |blocks|)
    ensures last == Some(b) <==> last.Some? && blocks[last.value].idstr == blocks[b].idstr
  {
  }

  // ---------- ram_load ----------

  /** The records of a stream: the block list of the set-up stage, a page, the end mark. */
  datatype Item = MemSize(list: seq<RamBlock>) | PageItem(rec: Record) | Eos

  /** The page records of a stream, in order. */
  function PagesOf(f: seq<Item>): seq<Record> {
    if f == [] then []
    else PagesOf(f[..|f| - 1]) + if f[|f| - 1].PageItem? then [f[|f| - 1].rec] else []
  }

  class RamReceiver {
    const blocks: seq<RamBlock>
    /** migrate_use_xbzrle() on this side. */
    const xbzrle: bool
    var r: Receiver

    /** The first block here of this name has this length. */
    predicate Known(b: RamBlock) {
      exists j :: 0 <= j < |blocks| && blocks[j] == b && forall k :: 0 <= k < j ==> blocks[k].idstr != b.idstr
    }

    predicate Agrees(list: seq<RamBlock>) { forall i :: 0 <= i < |list| ==> Known(list[i]) }

    /** Every listed block exists here with the same length. */
    lemma AgreesExactly(list: seq<RamBlock>)
      requires ValidBlocks(blocks)
      ensures Agrees(list) <==> forall b :: b in list ==> b in blocks
    {
      forall b | b in blocks
        ensures Known(b)
      {
        var j :| 0 <= j < |blocks| && blocks[j] == b;
      }
      assert forall b :: b in list ==> exists i :: 0 <= i < |list| && list[i] == b;
    }

    /** The search for one block of the list. */
    method FindBlock(b: RamBlock) returns (found: bool)
      ensures found <==> Known(b)
    {
      for j := 0 to |blocks|
        invariant forall k :: 0 <= k < j ==> blocks[k].idstr != b.idstr
      {
        if blocks[j].idstr == b.idstr {
          return blocks[j].pages == b.pages;
        }
      }
      return false;
    }

    /** The loop over the block list of the set-up stage. */
    method CheckList(list: seq<RamBlock>) returns (ok: bool)
      ensures ok <==> Agrees(list)
    {
      for i := 0 to |list|
        invariant forall j :: 0 <= j < i ==> Known(list[j])
      {
        var found := FindBlock(list[i]);
        if !found {
          return false;
        }
      }
      return true;
    }

    /** A delta is taken only with XBZRLE on. */
    predicate Accepts(rec: Record) { rec.body.Delta? ==> xbzrle }

    /** ram_load up to the end mark: 0 if every page record was taken, with the receiver then the
        replay of those records; -EINVAL at the first block list or page record that does not fit,
        with the receiver the replay so far, but for what the rejected record has already done. */
    method RamLoad(f: seq<Item>) returns (ret: int, n: nat)
      requires exists i :: 0 <= i < |f| && f[i].Eos?
      modifies this
      ensures n < |f| && (ret == 0 || ret == -EINVAL) && Replay(old(r), PagesOf(f[..n])).Some?
      ensures var so := Replay(old(r), PagesOf(f[..n])).value;
              if f[n].PageItem? && Accepts(f[n].rec) then
                ret != 0 && Receive(so, f[n].rec).None? && r == Rejected(so, f[n].rec)
              else r == so && (ret == 0 <==> f[n].Eos?) && (f[n].MemSize? ==> !Agrees(f[n].list))
      ensures forall i :: 0 <= i < n ==>
                !f[i].Eos? && (f[i].MemSize? ==> Agrees(f[i].list)) && (f[i].PageItem? ==> Accepts(f[i].rec))
    {
      hide PagesOf, Replay, Receive, Rejected;
      n := 0;
      PagesOfEmpty(f, r);
      while true
        invariant n < |f| && (exists i :: n <= i < |f| && f[i].Eos?)
        invariant Replay(old(r), PagesOf(f[..n])) == Some(r)
        invariant forall i :: 0 <= i < n ==>
            !f[i].Eos? && (f[i].MemSize? ==> Agrees(f[i].list)) && (f[i].PageItem? ==> Accepts(f[i].rec))
        decreases |f| - n
      {
        PagesOfNext(f, n);
        match f[n] {
          case MemSize(list) =>
            var ok := CheckList(list);
            if !ok {
              return -EINVAL, n;
            }
          case PageItem(rec) =>
            if !Accepts(rec) {
              return -EINVAL, n;
            }
            ReplayPush(old(r), PagesOf(f[..n]), rec);
            var next := Receive(r, rec);
            if next.None? {
              r := Rejected(r, rec);
              return -EINVAL, n;
            }
            r := next.value;
          case Eos =>
            return 0, n;
        }
        n := n + 1;
      }
    }
  }

  /** The receiver after a record it rejects: the block the record names is the current one, none if
      there is no such block, and a malformed delta has overwritten part of its page. */
  function Rejected(r: Receiver, rec: Record): Receiver {
    var cur := Target(r, rec);
    if cur.Some? && Pos(cur.value, rec.o) in r.ram && rec.body.Delta? && |rec.body.code| <= PAGE then
      var pos := Pos(cur.value, rec.o);
      Receiver(r.ram[pos := Decoded(rec.body.code, true, r.ram[pos], 0).page], cur)
    else r.(cur := cur)
  }

  /** A rejected record changes one page at most, and that only if it is a malformed delta. */
  lemma RejectedSparesOthers(r: Receiver, rec: Record, pos: Pos)
    requires Receive(r, rec).None? && pos in r.ram
    ensures var after := Rejected(r, rec).ram;
            after.Keys == r.ram.Keys &&
            (after[pos] != r.ram[pos] ==>
               Target(r, rec) == Some(pos.id) && pos.o == rec.o && rec.body.Delta? &&
               Decoded(rec.body.code, true, r.ram[pos], 0).Malformed?)
  {
    hide Decoded;
  }

  lemma PagesOfEmpty(f: seq<Item>, r: Receiver)
    ensures PagesOf(f[..0]) == [] && Replay(r, []) == Some(r)
  {
  }

  lemma PagesOfNext(f: seq<Item>, n: nat)
    requires n < |f|
    ensures PagesOf(f[..n + 1]) == PagesOf(f[..n]) + if f[n].PageItem? then [f[n].rec] else []
    ensures !f[n].PageItem? ==> PagesOf(f[..n + 1]) == PagesOf(f[..n])
  {
    assert f[..n + 1][..n] == f[..n];
  }
}
