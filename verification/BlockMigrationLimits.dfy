/** Block migration's two assumptions are needed: concrete runs of the code that end with a
    destination different from the source when one of them fails. */
module BlockMigrationLimits {
  import opened Basics
  import opened BlockMigration

  /** A device of one sector part-way through its migration. */
  function Small(cur: nat, dirty: set<nat>, marked: set<nat>, v: Data, alloc: set<nat>, writes: map<nat, GuestWrite>,
                 inflight: seq<Block>, blkList: seq<Block>, stream: seq<Block>): State {
    State([Dev(1, false, cur, 0, dirty, marked, map[0 := v], alloc, writes)], inflight, blkList, stream,
          |inflight|, |blkList|, |stream|)
  }

  lemma IsSmall(st: State, cur: nat, dirty: set<nat>, marked: set<nat>, v: Data, alloc: set<nat>,
                writes: map<nat, GuestWrite>,
                inflight: seq<Block>, blkList: seq<Block>, stream: seq<Block>)
    requires |st.devs| == 1 && st.devs[0].total == 1 && !st.devs[0].shared && st.devs[0].cur == cur &&
             st.devs[0].curDirty == 0
    requires st.devs[0].dirty == dirty && st.devs[0].marked == marked && st.devs[0].src == map[0 := v]
    requires st.devs[0].alloc == alloc && st.devs[0].writes == writes
    requires st.inflight == inflight && st.blkList == blkList && st.stream == stream
    requires st.submitted == |inflight| && st.readDone == |blkList| && st.transferred == |stream|
    ensures st == Small(cur, dirty, marked, v, alloc, writes, inflight, blkList, stream)
  {
    assert st.devs == [st.devs[0]];
  }

  function Whole(v: Data): Block { Block(0, 0, 1, map[0 := v]) }

  const Unread := Block(0, 0, 1, map[])

  lemma SmallStart(v: Data)
    ensures Init(Small(0, {}, {}, v, {}, map[], [], [], []), [map[0 := 0]])
  {
    assert map[0 := v].Keys == Range(0, 1) == map[0 := 0].Keys;
  }

  lemma SmallBulk(v: Data)
    ensures Enabled(Small(0, {}, {}, v, {}, map[], [], [], []), BulkSubmit(0))
    ensures Apply(Small(0, {}, {}, v, {}, map[], [], [], []), BulkSubmit(0)) ==
              Small(1, {}, {}, v, {}, map[], [Unread], [], [])
  {
    IsSmall(Apply(Small(0, {}, {}, v, {}, map[], [], [], []), BulkSubmit(0)), 1, {}, {}, v, {}, map[], [Unread], [],
            []);
  }

  lemma SmallRead(marked: set<nat>, v: Data, alloc: set<nat>, before: seq<Block>)
    ensures Enabled(Small(1, {}, marked, v, alloc, map[], before + [Unread], [], []), ReadSector(|before|, 0))
    ensures Apply(Small(1, {}, marked, v, alloc, map[], before + [Unread], [], []), ReadSector(|before|, 0)) ==
            Small(1, {}, marked, v, alloc, map[], before + [Whole(v)], [], [])
  {
    var l := ReadSector(|before|, 0);
    IsSmall(Apply(Small(1, {}, marked, v, alloc, map[], before + [Unread], [], []), l),
            1, {}, marked, v, alloc, map[], before + [Whole(v)], [], []);
  }

  lemma SmallComplete(marked: set<nat>, v: Data, alloc: set<nat>, before: seq<Block>, u: Data, done: seq<Block>)
    ensures Enabled(Small(1, {}, marked, v, alloc, map[], before + [Whole(u)], done, []), Complete(|before|))
    ensures Apply(Small(1, {}, marked, v, alloc, map[], before + [Whole(u)], done, []), Complete(|before|)) ==
            Small(1, {}, marked - {0}, v, alloc, map[], before, done + [Whole(u)], [])
  {
    var st, l := Small(1, {}, marked, v, alloc, map[], before + [Whole(u)], done, []), Complete(|before|);
    assert Whole(u).buf.Keys == Range(0, 1);
    IsSmall(Apply(st, l), 1, {}, marked - {0}, v, alloc, map[], before, done + [Whole(u)], []);
  }

  lemma SmallSend(v: Data, alloc: set<nat>, u: Data, rest: seq<Block>, sent: seq<Block>)
    ensures Enabled(Small(1, {}, {}, v, alloc, map[], [], [Whole(u)] + rest, sent), Send)
    ensures Apply(Small(1, {}, {}, v, alloc, map[], [], [Whole(u)] + rest, sent), Send) ==
            Small(1, {}, {}, v, alloc, map[], [], rest, sent + [Whole(u)])
  {
    IsSmall(Apply(Small(1, {}, {}, v, alloc, map[], [], [Whole(u)] + rest, sent), Send),
            1, {}, {}, v, alloc, map[], [], rest, sent + [Whole(u)]);
  }

  lemma SmallGuestWrite(v: Data, u: Data, ahead: seq<Block>)
    ensures var a, b := Small(1, {}, {}, v, {}, map[], ahead, [], []),
            Small(1, {}, {}, v, {}, map[1 := GuestWrite(0, 1)], ahead, [], []);
            Enabled(a, GuestBegin(0, 1, 0, 1)) && Apply(a, GuestBegin(0, 1, 0, 1)) == b
    ensures var b, c := Small(1, {}, {}, v, {}, map[1 := GuestWrite(0, 1)], ahead, [], []),
            Small(1, {}, {}, u, {0}, map[1 := GuestWrite(0, 1)], ahead, [], []);
            Enabled(b, GuestSector(0, 1, 0, u)) && Apply(b, GuestSector(0, 1, 0, u)) == c
    ensures var c, d := Small(1, {}, {}, u, {0}, map[1 := GuestWrite(0, 1)], ahead, [], []),
            Small(1, {0}, {}, u, {0}, map[], ahead, [], []);
            Enabled(c, GuestEnd(0, 1)) && Apply(c, GuestEnd(0, 1)) == d
  {
    var a, b := Small(1, {}, {}, v, {}, map[], ahead, [], []),
        Small(1, {}, {}, v, {}, map[1 := GuestWrite(0, 1)], ahead, [], []);
    var c := Small(1, {}, {}, u, {0}, map[1 := GuestWrite(0, 1)], ahead, [], []);
    IsSmall(Apply(a, GuestBegin(0, 1, 0, 1)), 1, {}, {}, v, {}, map[1 := GuestWrite(0, 1)], ahead, [], []);
    IsSmall(Apply(b, GuestSector(0, 1, 0, u)), 1, {}, {}, u, {0}, map[1 := GuestWrite(0, 1)], ahead, [], []);
    assert Chunks(0, 1) == {0};
    IsSmall(Apply(c, GuestEnd(0, 1)), 1, {0}, {}, u, {0}, map[], ahead, [], []);
  }

  lemma SmallDirty(v: Data, ahead: seq<Block>)
    ensures Enabled(Small(1, {0}, {}, v, {0}, map[], ahead, [], []), DirtySubmit(0))
    ensures Apply(Small(1, {0}, {}, v, {0}, map[], ahead, [], []), DirtySubmit(0)) ==
            Small(1, {}, {0}, v, {0}, map[], ahead + [Unread], [], [])
  {
    IsSmall(Apply(Small(1, {0}, {}, v, {0}, map[], ahead, [], []), DirtySubmit(0)), 1, {}, {0}, v, {0}, map[],
            ahead + [Unread], [], []);
  }

  /** The final flush cut short by the rate limit: what it leaves behind is thrown away by the
      cleanup, although nothing is dirty. */
  lemma CutFlushLosesData() returns (st: State, base: seq<map<nat, Data>>, run: seq<Label>)
    ensures Init(st, base) && Possible(st, run) && InOrder(st, run)
    ensures Quiet(After(st, run)) && Clean(After(st, run)) && After(st, run).blkList != []
    ensures !SameDisks(After(st, run), base)
  {
    hide *;
    st, base, run := Small(0, {}, {}, 7, {}, map[], [], [], []), [map[0 := 0]], [];
    SmallStart(7);
    EmptyRun(st);
    FirstFirst(After(st, run));
    SmallBulk(7);
    run := Step(st, run, BulkSubmit(0));
    assert [Unread] == [] + [Unread] && [Whole(7)] == [] + [Whole(7)];
    SmallRead({}, 7, {}, []);
    FirstFirst(After(st, run));
    run := Step(st, run, ReadSector(0, 0));
    SmallComplete({}, 7, {}, [], 7, []);
    FirstFirst(After(st, run));
    run := Step(st, run, Complete(0));
    assert {} - {0} == {};
    LeftBehind(7);
  }

  /** Submitting and reading come in any order, and completing the oldest read is in order. */
  lemma FirstFirst(st: State)
    ensures Ordered(st, BulkSubmit(0)) && Ordered(st, ReadSector(0, 0)) && Ordered(st, Complete(0))
  {
  }

  /** A block read but not sent: nothing is dirty, and the destination still has zeros. */
  lemma LeftBehind(v: Data)
    requires v != 0
    ensures var st := Small(1, {}, {}, v, {}, map[], [], [] + [Whole(v)], []);
            Quiet(st) && Clean(st) && st.blkList != [] && !SameDisks(st, [map[0 := 0]])
  {
    var st := Small(1, {}, {}, v, {}, map[], [], [] + [Whole(v)], []);
    assert 0 in st.devs[0].src;
  }

  /** A bulk read in flight is not marked, so a dirty read of the same chunk can be issued
      behind it; if the later one completes first, the stale copy is sent last. */
  lemma OutOfOrderLosesData() returns (st: State, base: seq<map<nat, Data>>, run: seq<Label>)
    ensures Init(st, base) && Possible(st, run)
    ensures Quiet(After(st, run)) && Clean(After(st, run)) && After(st, run).blkList == []
    ensures !SameDisks(After(st, run), base)
  {
    hide *;
    st, base, run := Small(0, {}, {}, 5, {}, map[], [], [], []), [map[0 := 0]], [];
    SmallStart(5);
    EmptyRun(st);
    SmallBulk(5);
    run := Step(st, run, BulkSubmit(0));
    SmallRead({}, 5, {}, []);
    assert [] + [Unread] == [Unread];
    run := Step(st, run, ReadSector(0, 0));
    assert [] + [Whole(5)] == [Whole(5)];
    SmallGuestWrite(5, 6, [Whole(5)]);
    run := Step(st, run, GuestBegin(0, 1, 0, 1));
    run := Step(st, run, GuestSector(0, 1, 0, 6));
    run := Step(st, run, GuestEnd(0, 1));
    SmallDirty(6, [Whole(5)]);
    run := Step(st, run, DirtySubmit(0));
    SmallRead({0}, 6, {0}, [Whole(5)]);
    run := Step(st, run, ReadSector(1, 0));
    SmallComplete({0}, 6, {0}, [Whole(5)], 6, []);
    run := Step(st, run, Complete(1));
    assert {0} - {0} == {} && [] + [Whole(6)] == [Whole(6)];
    SmallComplete({}, 6, {0}, [], 5, [Whole(6)]);
    run := Step(st, run, Complete(0));
    assert {} - {0} == {};
    SmallSend(6, {0}, 6, [Whole(5)], []);
    run := Step(st, run, Send);
    SmallSend(6, {0}, 5, [], [Whole(6)]);
    assert [Whole(5)] + [] == [Whole(5)];
    run := Step(st, run, Send);
    StaleLoad(After(st, run), base);
  }

  lemma StaleLoad(st: State, base: seq<map<nat, Data>>)
    requires st == Small(1, {}, {}, 6, {0}, map[], [], [], [Whole(6)] + [Whole(5)]) && base == [map[0 := 0]]
    ensures Quiet(st) && Clean(st) && st.blkList == [] && !SameDisks(st, base)
  {
    assert st.stream[..1] == [Whole(6)];
    assert 0 in st.devs[0].src;
  }
}
