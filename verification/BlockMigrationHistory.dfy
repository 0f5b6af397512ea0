/** The two bitmaps of a migrating device, told from the history of a run: which chunks are dirty and
    which are marked as being read is exactly what the last step that concerned them says. */
module BlockMigrationHistory {
  import opened Basics
  import opened BlockMigration

  // ---------- what a step does to a chunk ----------

  /** The step starts a background read of dirty chunk c of device d. */
  predicate ReadsDirty(st: State, l: Label, d: nat, c: nat)
    requires Enabled(st, l)
  {
    l == DirtySubmit(d) && st.devs[d].curDirty / CHUNK == c
  }

  /** The step completes a read of chunk c of device d. */
  predicate Completed(st: State, l: Label, d: nat, c: nat)
    requires Enabled(st, l)
  {
    l.Complete? && st.inflight[l.k].dev == d && st.inflight[l.k].sector / CHUNK == c
  }

  /** The step takes chunk c of device d for sending: in the bulk phase, in the background or at once. */
  predicate Takes(st: State, l: Label, d: nat, c: nat)
    requires Enabled(st, l)
  {
    (l == BulkSubmit(d) && st.devs[d].cur / CHUNK == c) ||
    ((l == DirtySubmit(d) || l == DirtySend(d)) && st.devs[d].curDirty / CHUNK == c)
  }

  /** The step ends a guest write to device d that reaches into chunk c. */
  ghost predicate Dirties(st: State, l: Label, d: nat, c: nat)
    requires Enabled(st, l)
  {
    l.GuestEnd? && l.d == d && var w := st.devs[d].writes[l.id]; Reaches(w, c)
  }

  /** A write reaches into the chunks of its sectors; an empty one into the chunk of its sector, unless
      that begins there and is not the first. */
  ghost predicate Reaches(w: GuestWrite, c: nat) {
    if w.count == 0 then c == w.sector / CHUNK && (w.sector == 0 || w.sector % CHUNK != 0)
    else exists x: nat :: Hits(w, x) && x / CHUNK == c
  }

  lemma ChunksAre(w: GuestWrite, c: nat)
    ensures c in Chunks(w.sector, w.count) <==> Reaches(w, c)
  {
    var s, e := w.sector, w.sector + w.count;
    if w.count > 0 {
      if c in Chunks(s, w.count) {
        var x := if c * CHUNK < s then s else c * CHUNK;
        assert Hits(w, x) && x / CHUNK == c;
      }
    }
  }

  // ---------- the marks ----------

  /** Since the last background read of the dirty chunk c began, no read of c has completed. */
  ghost predicate BeingRead(st: State, run: seq<Label>, d: nat, c: nat)
    requires Possible(st, run)
  {
    run != [] &&
    var before, l := After(st, run[..|run| - 1]), run[|run| - 1];
    ReadsDirty(before, l, d, c) || (!Completed(before, l, d, c) && BeingRead(st, run[..|run| - 1], d, c))
  }

  lemma StepMarks(st: State, l: Label, d: nat, c: nat)
    requires Enabled(st, l) && d < |st.devs|
    ensures |Apply(st, l).devs| == |st.devs|
    ensures c in Apply(st, l).devs[d].marked <==>
              ReadsDirty(st, l, d, c) || (!Completed(st, l, d, c) && c in st.devs[d].marked)
  {
    hide Chunks, Range;
  }

  /** Main result: in every run a chunk is marked exactly while a background read of it that found it
      dirty is under way. */
  lemma {:induction false} MarksExactly(st: State, base: seq<map<nat, Data>>, run: seq<Label>, d: nat, c: nat)
    requires Init(st, base) && Possible(st, run) && d < |st.devs|
    ensures |After(st, run).devs| == |st.devs|
    ensures c in After(st, run).devs[d].marked <==> BeingRead(st, run, d, c)
    decreases |run|
  {
    hide Enabled, Apply, ReadsDirty, Completed;
    if run != [] {
      MarksExactly(st, base, run[..|run| - 1], d, c);
      StepMarks(After(st, run[..|run| - 1]), run[|run| - 1], d, c);
    }
  }

  /** So no second background read of it can begin. */
  lemma {:induction false} OneReadAtATime(st: State, base: seq<map<nat, Data>>, run: seq<Label>, d: nat, c: nat)
    requires Init(st, base) && Possible(st, run) && d < |st.devs| && BeingRead(st, run, d, c)
    ensures Enabled(After(st, run), DirtySubmit(d)) ==> After(st, run).devs[d].curDirty / CHUNK != c
  {
    hide Possible, After, BeingRead;
    MarksExactly(st, base, run, d, c);
  }

  // ---------- the dirty chunks ----------

  /** A guest write reached into c after c was last taken, or c was dirty and has not been taken. */
  ghost predicate Rewritten(st: State, run: seq<Label>, d: nat, c: nat)
    requires Possible(st, run) && d < |st.devs|
  {
    if run == [] then c in st.devs[d].dirty
    else
      var before, l := After(st, run[..|run| - 1]), run[|run| - 1];
      Dirties(before, l, d, c) || (!Takes(before, l, d, c) && Rewritten(st, run[..|run| - 1], d, c))
  }

  lemma StepDirties(st: State, l: Label, d: nat, c: nat)
    requires Enabled(st, l) && d < |st.devs|
    ensures |Apply(st, l).devs| == |st.devs|
    ensures c in Apply(st, l).devs[d].dirty <==>
              Dirties(st, l, d, c) || (!Takes(st, l, d, c) && c in st.devs[d].dirty)
  {
    hide Chunks, Range, Reaches;
    if l.GuestEnd? {
      ChunksAre(st.devs[l.d].writes[l.id], c);
    }
  }

  /** Main result: in every run a chunk is dirty exactly if a guest write has reached into it since it
      was last taken for sending. */
  lemma {:induction false} DirtyExactly(st: State, base: seq<map<nat, Data>>, run: seq<Label>, d: nat, c: nat)
    requires Init(st, base) && Possible(st, run) && d < |st.devs|
    ensures |After(st, run).devs| == |st.devs|
    ensures c in After(st, run).devs[d].dirty <==> Rewritten(st, run, d, c)
    decreases |run|
  {
    hide Enabled, Apply, Dirties, Takes;
    if run != [] {
      DirtyExactly(st, base, run[..|run| - 1], d, c);
      StepDirties(After(st, run[..|run| - 1]), run[|run| - 1], d, c);
    }
  }

  // ---------- the bulk phase ----------

  /** The end of the chunk that holds sector x, or of the device. */
  function ChunkEnd(total: nat, x: nat): nat {
    if (x / CHUNK + 1) * CHUNK < total then (x / CHUNK + 1) * CHUNK else total
  }

  lemma StepCursor(st: State, l: Label, d: nat)
    requires Enabled(st, l) && d < |st.devs| && st.devs[d].cur <= st.devs[d].total
    ensures |Apply(st, l).devs| == |st.devs| && Apply(st, l).devs[d].total == st.devs[d].total
    ensures st.devs[d].cur <= Apply(st, l).devs[d].cur <= st.devs[d].total
    ensures l == BulkSubmit(d) ==>
              st.devs[d].cur < Apply(st, l).devs[d].cur == ChunkEnd(st.devs[d].total, st.devs[d].cur)
  {
    hide Chunks, Range;
  }

  /** The cursor of the bulk phase only moves forward, past the chunk it reads, so it reads every
      chunk at most once. */
  lemma {:induction false} BulkOnce(st: State, run: seq<Label>, d: nat)
    requires Possible(st, run) && d < |st.devs| && st.devs[d].cur <= st.devs[d].total
    ensures |After(st, run).devs| == |st.devs| && After(st, run).devs[d].total == st.devs[d].total
    ensures st.devs[d].cur <= After(st, run).devs[d].cur <= st.devs[d].total
    ensures run != [] && run[|run| - 1] == BulkSubmit(d) ==>
              var was, now := After(st, run[..|run| - 1]).devs[d].cur, After(st, run).devs[d].cur;
              was < now == ChunkEnd(st.devs[d].total, was)
    decreases |run|
  {
    hide Enabled, Apply, ChunkEnd;
    if run != [] {
      BulkOnce(st, run[..|run| - 1], d);
      StepCursor(After(st, run[..|run| - 1]), run[|run| - 1], d);
    }
  }
}
