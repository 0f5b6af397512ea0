/** What the sender puts on the stream, and in which order it comes to the pages: the CONTINUE flag,
    the kind of each record, and how long a dirty page can wait for its turn. */
module RamMigrationStream {
  import opened Xbzrle
  import opened RamMigration
  import opened RamMigrationCode

  // ---------- the CONTINUE flag ----------

  /** A record continues the block of the record before it exactly if it says so. */
  ghost predicate ContinueOk(stream: seq<Record>) {
    forall i :: 0 <= i < |stream| ==> Continues(stream, i)
  }

  ghost predicate Continues(stream: seq<Record>, i: nat)
    requires i < |stream|
  {
    stream[i].cont <==> 0 < i && stream[i - 1].id == stream[i].id
  }

  ghost predicate LastIs(stream: seq<Record>, lastBlock: Option<string>) {
    lastBlock == if stream == [] then None else Some(stream[|stream| - 1].id)
  }

  lemma StepContinues(st: State, l: Label)
    requires Enabled(st, l) && ContinueOk(st.stream) && LastIs(st.stream, st.lastBlock)
    ensures ContinueOk(Apply(st, l).stream) && LastIs(Apply(st, l).stream, Apply(st, l).lastBlock)
  {
    hide Encoded, IsDup, Fits, CacheAfter, Emitted, ContinueOk, LastIs;
    if l.Send? && Emitted(st, l).Some? {
      var rec := Apply(st, l).stream[|st.stream|];
      PushContinues(st.stream, st.lastBlock, rec);
    }
  }

  lemma PushContinues(stream: seq<Record>, lastBlock: Option<string>, rec: Record)
    requires ContinueOk(stream) && LastIs(stream, lastBlock) && rec.cont == (lastBlock == Some(rec.id))
    ensures ContinueOk(stream + [rec]) && LastIs(stream + [rec], Some(rec.id))
  {
    var now := stream + [rec];
    forall i | 0 <= i < |now|
      ensures Continues(now, i)
    {
      assert i < |stream| ==> Continues(stream, i);
    }
  }

  /** Main result: in every run the flag is set exactly on the records whose block is that of the
      record before. */
  lemma {:induction false} ContinueExactly(st: State, run: seq<Label>, r0: Receiver)
    requires Init(st, r0) && Possible(st, run)
    ensures ContinueOk(After(st, run).stream) && LastIs(After(st, run).stream, After(st, run).lastBlock)
    decreases |run|
  {
    hide Enabled, Apply;
    if run != [] {
      ContinueExactly(st, run[..|run| - 1], r0);
      StepContinues(After(st, run[..|run| - 1]), run[|run| - 1]);
    }
  }

  // ---------- the kind of a record ----------

  /** A page the guest leaves alone travels as one byte if all its bytes are that one; as a delta if
      a copy of it is cached, differs, and the delta fits a page; not at all if the cached copy is
      the page itself; as a whole otherwise. */
  lemma RecordKinds(st: State, l: Label)
    requires l.Send? && l.raced.None? && Enabled(st, l)
    ensures var p := st.ram[l.pos];
            var delta := st.xbzrle && l.pos in st.cache && Fits(st.cache[l.pos], p, PAGE);
            if IsDup(p) then Emitted(st, l) == Some(Compress(p[0])) && Fill(p[0]) == p
            else if delta && st.cache[l.pos] == p then Emitted(st, l) == None
            else if delta then
              Emitted(st, l).Some? && Emitted(st, l).value.Delta? && 0 < |Emitted(st, l).value.code| <= PAGE &&
              Decoded(Emitted(st, l).value.code, true, st.cache[l.pos], 0).Done? &&
              Decoded(Emitted(st, l).value.code, true, st.cache[l.pos], 0).page == p
            else Emitted(st, l) == Some(Raw(p))
  {
    hide Encoded, Decoded, EndsSame;
    var p := st.ram[l.pos];
    if IsDup(p) {
      DupIsFill(p);
    } else if st.xbzrle && l.pos in st.cache {
      EmptyCode(st.cache[l.pos], p);
      RoundTrip(st.cache[l.pos], p);
    }
  }

  // ---------- whose turn it is ----------

  datatype Place = Place(b: nat, o: nat)

  ghost predicate Inside(blocks: seq<RamBlock>, p: Place) { InBlocks(blocks, p.b, p.o) }

  function PageAt(blocks: seq<RamBlock>, p: Place): Pos
    requires p.b < |blocks|
  {
    At(blocks, p.b, p.o)
  }

  function Way(blocks: seq<RamBlock>, p: Place, q: Place): int
    requires p.b < |blocks| && q.b < |blocks|
  {
    Distance(blocks, p.b, p.o, q.b, q.o)
  }

  /** A call of ram_save_block that finds these pages ready to be sent takes the scan from p to q. */
  ghost predicate Call(blocks: seq<RamBlock>, pages: set<Pos>, p: Place, q: Place) {
    Stops(blocks, pages, p.b, p.o, q.b, q.o)
  }

  /** A call that does not send the page of g brings the scan closer to it, unless it sends again the
      page where it stands. */
  lemma Closer(blocks: seq<RamBlock>, pages: set<Pos>, p: Place, q: Place, g: Place)
    requires Call(blocks, pages, p, q) && Inside(blocks, g) && PageAt(blocks, g) in pages
    ensures Inside(blocks, p) && Inside(blocks, q) && 0 <= Way(blocks, q, g) == Way(blocks, p, g) - Way(blocks, p, q)
    ensures 0 <= Way(blocks, p, q) && (Way(blocks, p, q) == 0 <==> p == q)
    ensures Way(blocks, q, g) == 0 <==> q == g
    ensures Way(blocks, p, g) < Before(blocks, |blocks|)
  {
    hide Before;
    IndexBounds(blocks, p.b, p.o);
    IndexBounds(blocks, q.b, q.o);
    IndexBounds(blocks, g.b, g.o);
    assert Way(blocks, p, q) <= Way(blocks, p, g);
    if Way(blocks, p, q) == 0 {
      IndexUnique(blocks, p.b, p.o, q.b, q.o);
    }
    if Way(blocks, q, g) == 0 {
      IndexUnique(blocks, q.b, q.o, g.b, g.o);
    }
  }

  /** The calls among these that moved the scan. */
  function Moves(places: seq<Place>): nat {
    if |places| < 2 then 0
    else Moves(places[..|places| - 1]) + if places[|places| - 1] != places[|places| - 2] then 1 else 0
  }

  /** A series of calls, with any guest writes in between, in which the page of g is ready all the time
      and never sent. */
  ghost predicate Waits(blocks: seq<RamBlock>, ready: seq<set<Pos>>, places: seq<Place>, g: Place) {
    Inside(blocks, g) && |places| == |ready| + 1 && Inside(blocks, places[0]) &&
    forall i :: 0 <= i < |ready| ==> PassedOver(blocks, ready, places, g, i)
  }

  ghost predicate PassedOver(blocks: seq<RamBlock>, ready: seq<set<Pos>>, places: seq<Place>, g: Place, i: nat)
    requires Inside(blocks, g) && |places| == |ready| + 1 && i < |ready|
  {
    Call(blocks, ready[i], places[i], places[i + 1]) && PageAt(blocks, g) in ready[i] && places[i + 1] != g
  }

  /** Main result: a page that is ready waits for fewer moves of the scan than there are pages between
      the scan and it; so it is sent within one cycle. */
  lemma {:induction false} SentWithinCycle(blocks: seq<RamBlock>, ready: seq<set<Pos>>, places: seq<Place>, g: Place)
    requires Waits(blocks, ready, places, g)
    ensures Inside(blocks, places[|ready|]) &&
            Moves(places) + Way(blocks, places[|ready|], g) <= Way(blocks, places[0], g)
    ensures ready != [] ==> Moves(places) < Way(blocks, places[0], g) < Before(blocks, |blocks|)
    decreases |ready|
  {
    hide Call, Before, PageAt, Way;
    var n := |ready|;
    if n == 0 {
      assert Moves(places) == 0;
    } else {
      var less, fewer := ready[..n - 1], places[..n];
      forall i: nat | i < |less|
        ensures PassedOver(blocks, less, fewer, g, i)
      {
        assert PassedOver(blocks, ready, places, g, i);
      }
      SentWithinCycle(blocks, less, fewer, g);
      assert PassedOver(blocks, ready, places, g, n - 1) && PassedOver(blocks, ready, places, g, 0);
      Closer(blocks, ready[n - 1], places[n - 1], places[n], g);
      Closer(blocks, ready[0], places[0], places[1], g);
      assert places[..|places| - 1] == fewer;
    }
  }

  /** Only the moves count: a page that is written again before every call is sent every time, and the
      others wait for as long as that goes on. */
  lemma SamePageStarves(blocks: seq<RamBlock>, p: Place, g: Place, n: nat)
    requires Inside(blocks, p) && Inside(blocks, g) && p != g
    ensures Waits(blocks, seq(n, _ => {PageAt(blocks, p), PageAt(blocks, g)}), seq(n + 1, _ => p), g)
  {
    hide Before;
    var pages := {PageAt(blocks, p), PageAt(blocks, g)};
    assert Call(blocks, pages, p, p) by {
      IndexBounds(blocks, p.b, p.o);
      forall c, q | InBlocks(blocks, c, q)
        ensures 0 <= Distance(blocks, p.b, p.o, c, q)
      {
        IndexBounds(blocks, c, q);
      }
    }
  }

  // ---------- many calls, with the guest writing in between ----------

  /** Sends of other pages leave the cached copy of a page alone, or evict it. */
  lemma {:induction false} OthersKeepCopy(st: State, run: seq<Label>, now: State, pos: Pos)
    requires Sends(st, run, now) && pos in now.dirty
    ensures pos in st.dirty && now.ram == st.ram && now.xbzrle == st.xbzrle
    ensures pos in now.cache ==> pos in st.cache && now.cache[pos] == st.cache[pos]
    decreases |run|
  {
    hide Encoded, IsDup, Fits, Emitted;
    if run != [] {
      var before := run[..|run| - 1];
      assert Sends(st, before, After(st, before));
      OthersKeepCopy(st, before, After(st, before), pos);
    }
  }

  /** A page that was ready and is still dirty after a call is still ready. */
  lemma StaysReady(st: State, run: seq<Label>, now: State, pos: Pos)
    requires Sends(st, run, now) && pos in Emitting(st) && pos in now.dirty
    ensures pos in Emitting(now)
  {
    hide IsDup, Sends;
    OthersKeepCopy(st, run, now, pos);
  }

  ghost function Here(save: RamSave): Place
    reads save
    requires save.lastBlock.Some?
  {
    Place(save.lastBlock.value, save.lastOffset)
  }

  /** The records added since, one for each call, are those of the places it stopped at. */
  ghost predicate OneEach(blocks: seq<RamBlock>, was: seq<Record>, now: seq<Record>, places: seq<Place>) {
    |now| + 1 == |was| + |places| && was <= now &&
    forall i :: 0 < i < |places| ==> places[i].b < |blocks| && IsFor(now[|was| + i - 1], PageAt(blocks, places[i]))
  }

  predicate IsFor(rec: Record, pos: Pos) { rec.id == pos.id && rec.o == pos.o }

  ghost predicate SentSince(was: seq<Record>, now: seq<Record>, pos: Pos) {
    exists i :: |was| <= i < |now| && IsFor(now[i], pos)
  }

  /** So far g has not been sent, every call has sent a page, and g is still ready. */
  ghost predicate Pending(blocks: seq<RamBlock>, was: seq<Record>, now: State, here: Place, ready: seq<set<Pos>>,
                          places: seq<Place>, g: Place) {
    Waits(blocks, ready, places, g) && places[|ready|] == here && PageAt(blocks, g) in Emitting(now) &&
    OneEach(blocks, was, now.stream, places)
  }

  /** The guest writes some other pages, then one call. */
  method SaveOnce(save: RamSave, rewrite: map<Pos, Page>, ghost was: seq<Record>, ghost ready: seq<set<Pos>>,
                  ghost places: seq<Place>, ghost g: Place)
                    returns (ghost ready': seq<set<Pos>>, ghost places': seq<Place>)
    requires save.Valid() && save.lastBlock.Some? && Inside(save.blocks, g)
    requires rewrite.Keys <= save.ram.Keys - {PageAt(save.blocks, g)} && was <= save.stream
    requires Pending(save.blocks, was, save.Snapshot(), Here(save), ready, places, g) ||
             SentSince(was, save.stream, PageAt(save.blocks, g))
    modifies save
    ensures save.Valid() && save.lastBlock.Some? && save.ram.Keys == old(save.ram).Keys && was <= save.stream
    ensures SentSince(was, old(save.stream), PageAt(save.blocks, g)) ==>
              SentSince(was, save.stream, PageAt(save.blocks, g))
    ensures SentSince(was, save.stream, PageAt(save.blocks, g)) ||
            (Pending(save.blocks, was, save.Snapshot(), Here(save), ready', places', g) &&
             |ready'| == |ready| + 1 && places' == places + [Here(save)] && 0 < |places|)
  {
    hide Emitting, Sends, Pending, SentSince, ValidBlocks, Covers, Swept, Stops, OneRecord, Distance;
    ghost var st, pos := save.Snapshot(), PageAt(save.blocks, g);
    ready', places' := ready, places;
    save.ram, save.dirty := save.ram + rewrite, save.dirty + rewrite.Keys;
    RewriteKeeps(st, save.Snapshot(), pos, rewrite);
    ghost var before, from := save.Snapshot(), Here(save);
    var bytes;
    ghost var run;
    bytes, run := save.RamSaveBlock();
    SendsGrow(before, run, save.Snapshot());
    if SentSince(was, before.stream, pos) {
      SentLater(was, before.stream, save.stream, pos);
    } else {
      PendingFacts(save.blocks, was, st, from, ready, places, g);
      ready', places' := ready + [Emitting(before)], places + [Here(save)];
      if Here(save) == g {
        JustSent(was, before.stream, save.stream, pos);
      } else {
        PendingMore(save.blocks, was, st, before, save.Snapshot(), from, Here(save), run, ready, places, g);
      }
    }
  }

  lemma PendingFacts(blocks: seq<RamBlock>, was: seq<Record>, st: State, p: Place, ready: seq<set<Pos>>,
                     places: seq<Place>,
                     g: Place)
    requires Pending(blocks, was, st, p, ready, places, g)
    ensures Inside(blocks, g) && PageAt(blocks, g) in Emitting(st) && |places| == |ready| + 1
  {
    hide Emitting, OneEach;
  }

  lemma PendingMore(blocks: seq<RamBlock>, was: seq<Record>, st: State, before: State, now: State, p: Place, q: Place,
                    run: seq<Label>, ready: seq<set<Pos>>, places: seq<Place>, g: Place)
    requires Pending(blocks, was, st, p, ready, places, g) && before.stream == st.stream && q != g
    requires PageAt(blocks, g) in Emitting(before) && Sends(before, run, now)
    requires Stops(blocks, Emitting(before), p.b, p.o, q.b, q.o) &&
             OneRecord(before.stream, now.stream, At(blocks, q.b, q.o))
    requires Swept(blocks, before.dirty, now.dirty, p.b, p.o, Distance(blocks, p.b, p.o, q.b, q.o) + 1)
    ensures Pending(blocks, was, now, q, ready + [Emitting(before)], places + [q], g)
  {
    hide WillEmit, Waits, Sends, Call, OneEach, Swept, Stops, OneRecord, Distance;
    PendingFacts(blocks, was, st, p, ready, places, g);
    CallStops(blocks, before, p, q, g);
    WaitsMore(blocks, ready, places, g, Emitting(before), q);
    StillDirty(blocks, before.dirty, now.dirty, p, q, g);
    StaysReady(before, run, now, PageAt(blocks, g));
    OneMore(blocks, was, before.stream, now.stream, places, q);
  }

  lemma {:induction false} SendsGrow(st: State, run: seq<Label>, now: State)
    requires Sends(st, run, now)
    ensures st.stream <= now.stream
    decreases |run|
  {
    hide Encoded, IsDup, Fits, Emitted, CacheAfter;
    if run != [] {
      var before := run[..|run| - 1];
      assert Sends(st, before, After(st, before));
      SendsGrow(st, before, After(st, before));
    }
  }

  /** ram_save_block called again and again while the guest writes other pages: the page of g, ready at
      the start, has been sent, or every call has sent one page and the scan has moved fewer times
      than there were pages between it and g. */
  method KeepSaving(save: RamSave, rewrites: seq<map<Pos, Page>>, ghost g: Place) returns (ghost places: seq<Place>)
    requires save.Valid() && save.lastBlock.Some? && Inside(save.blocks, g) && Here(save) != g
    requires PageAt(save.blocks, g) in Emitting(save.Snapshot())
    requires forall i :: 0 <= i < |rewrites| ==> rewrites[i].Keys <= save.ram.Keys - {PageAt(save.blocks, g)}
    modifies save
    ensures save.Valid()
    ensures SentSince(old(save.stream), save.stream, PageAt(save.blocks, g)) ||
            (|places| == |rewrites| + 1 && places[0] == old(Here(save)) &&
             OneEach(save.blocks, old(save.stream), save.stream, places) &&
             Inside(save.blocks, places[0]) && Moves(places) < Way(save.blocks, places[0], g))
  {
    hide Emitting, Pending, SentSince, ValidBlocks, Covers, OneEach, Moves, Way;
    ghost var ready: seq<set<Pos>>;
    ghost var was, start := save.stream, Here(save);
    places, ready := [start], [];
    PendingStart(save.blocks, save.Snapshot(), start, g);
    for i := 0 to |rewrites|
      invariant save.Valid() && save.lastBlock.Some? && save.ram.Keys == old(save.ram).Keys && was <= save.stream
      invariant SentSince(was, save.stream, PageAt(save.blocks, g)) ||
                (Pending(save.blocks, was, save.Snapshot(), Here(save), ready, places, g) &&
                 |ready| == i && |places| == i + 1 && places[0] == start)
    {
      ready, places := SaveOnce(save, rewrites[i], was, ready, places, g);
    }
    if !SentSince(was, save.stream, PageAt(save.blocks, g)) {
      PendingEnd(save.blocks, was, save.Snapshot(), Here(save), ready, places, g);
    }
  }

  lemma PendingStart(blocks: seq<RamBlock>, st: State, p: Place, g: Place)
    requires Inside(blocks, g) && Inside(blocks, p) && PageAt(blocks, g) in Emitting(st)
    ensures Pending(blocks, st.stream, st, p, [], [p], g)
  {
    hide Emitting, PageAt;
    WaitsNot(blocks, g, p);
  }

  lemma PendingEnd(blocks: seq<RamBlock>, was: seq<Record>, st: State, p: Place, ready: seq<set<Pos>>,
                   places: seq<Place>,
                   g: Place)
    requires Pending(blocks, was, st, p, ready, places, g) && 0 < |places| && places[0] != g
    ensures OneEach(blocks, was, st.stream, places)
    ensures Inside(blocks, places[0]) && Moves(places) < Way(blocks, places[0], g)
  {
    hide Emitting, Waits, OneEach, Moves, Way, PageAt;
    WaitsShort(blocks, ready, places, g);
  }

  lemma WaitsNot(blocks: seq<RamBlock>, g: Place, p: Place)
    requires Inside(blocks, g) && Inside(blocks, p)
    ensures Waits(blocks, [], [p], g)
  {
  }

  lemma RewriteKeeps(st: State, now: State, pos: Pos, rewrite: map<Pos, Page>)
    requires now == st.(ram := st.ram + rewrite, dirty := st.dirty + rewrite.Keys) && pos !in rewrite &&
             rewrite.Keys <= st.ram.Keys
    ensures pos in Emitting(st) ==> pos in Emitting(now) && pos in now.dirty
    ensures now.ram.Keys == st.ram.Keys
  {
  }

  lemma SentLater(was: seq<Record>, past: seq<Record>, now: seq<Record>, pos: Pos)
    requires SentSince(was, past, pos) && past <= now
    ensures SentSince(was, now, pos)
  {
    var i :| |was| <= i < |past| && IsFor(past[i], pos);
    assert IsFor(now[i], pos);
  }

  lemma JustSent(was: seq<Record>, past: seq<Record>, now: seq<Record>, pos: Pos)
    requires was <= past && OneRecord(past, now, pos)
    ensures SentSince(was, now, pos)
  {
    assert IsFor(now[|past|], pos);
  }

  lemma CallStops(blocks: seq<RamBlock>, st: State, p: Place, q: Place, g: Place)
    requires Stops(blocks, Emitting(st), p.b, p.o, q.b, q.o) && Inside(blocks, g)
    ensures Call(blocks, Emitting(st), p, q) && Inside(blocks, p) && Inside(blocks, q)
  {
  }

  lemma WaitsMore(blocks: seq<RamBlock>, ready: seq<set<Pos>>, places: seq<Place>, g: Place, pages: set<Pos>, q: Place)
    requires Waits(blocks, ready, places, g) && Call(blocks, pages, places[|ready|], q)
    requires PageAt(blocks, g) in pages && q != g
    ensures Waits(blocks, ready + [pages], places + [q], g)
  {
    hide Call, PageAt;
    var r, p := ready + [pages], places + [q];
    forall i: nat | i < |r|
      ensures PassedOver(blocks, r, p, g, i)
    {
      if i < |ready| {
        assert PassedOver(blocks, ready, places, g, i);
      }
    }
  }

  lemma StillDirty(blocks: seq<RamBlock>, was: set<Pos>, dirty: set<Pos>, p: Place, q: Place, g: Place)
    requires Inside(blocks, p) && Inside(blocks, q) && Inside(blocks, g) && q != g && PageAt(blocks, g) in was
    requires exists pages :: Call(blocks, pages, p, q) && PageAt(blocks, g) in pages
    requires Swept(blocks, was, dirty, p.b, p.o, Distance(blocks, p.b, p.o, q.b, q.o) + 1)
    ensures PageAt(blocks, g) in dirty
  {
    hide Before;
    var pages :| Call(blocks, pages, p, q) && PageAt(blocks, g) in pages;
    Closer(blocks, pages, p, q, g);
    assert Way(blocks, p, q) < Way(blocks, p, g);
  }

  lemma OneMore(blocks: seq<RamBlock>, was: seq<Record>, past: seq<Record>, now: seq<Record>, places: seq<Place>,
                q: Place)
    requires OneEach(blocks, was, past, places) && 0 < |places| && q.b < |blocks| &&
             OneRecord(past, now, PageAt(blocks, q))
    ensures OneEach(blocks, was, now, places + [q])
  {
    hide PageAt;
    var p := places + [q];
    forall i | 0 < i < |p|
      ensures p[i].b < |blocks| && IsFor(now[|was| + i - 1], PageAt(blocks, p[i]))
    {
      if i < |places| {
        assert IsFor(past[|was| + i - 1], PageAt(blocks, places[i]));
        assert now[..|past|][|was| + i - 1] == past[|was| + i - 1];
      }
    }
  }

  lemma WaitsShort(blocks: seq<RamBlock>, ready: seq<set<Pos>>, places: seq<Place>, g: Place)
    requires Waits(blocks, ready, places, g) && places[0] != g
    ensures Inside(blocks, places[0]) && Moves(places) < Way(blocks, places[0], g)
  {
    hide Call, Before, PageAt;
    SentWithinCycle(blocks, ready, places, g);
    if ready == [] {
      IndexBounds(blocks, places[0].b, places[0].o);
      IndexBounds(blocks, g.b, g.o);
      if Way(blocks, places[0], g) == 0 {
        IndexUnique(blocks, places[0].b, places[0].o, g.b, g.o);
      }
      assert Moves(places) == 0;
    }
  }
}
