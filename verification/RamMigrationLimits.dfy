/** The duplicate-page branch of ram_save_block leaves the XBZRLE cache untouched: a run of the
    code that ends with nothing dirty and different RAM on the two sides. */
module RamMigrationLimits {
  import opened Xbzrle
  import opened RamMigration

  const Only := Pos("ram", 0)

  const Zeros: Page := Fill(0)

  const Mixed: Page := [1] + seq(4095, _ => 0)

  /** A machine of one page. */
  function Small(p: Page, dirty: set<Pos>, log: set<Pos>, cache: map<Pos, Page>, stream: seq<Record>,
                 sent: bool): State {
    State(map[Only := p], dirty, log, cache, stream, if sent then Some("ram") else None, true, false)
  }

  function Quiet(p: Page): Label { Send(Only, Seen(p, p[0], p, p), None, false, {}) }

  lemma EmptyRun(st: State)
    ensures Possible(st, []) && After(st, []) == st
  {
  }

  lemma Step(st: State, run: seq<Label>, l: Label) returns (run': seq<Label>)
    requires Possible(st, run) && Enabled(After(st, run), l)
    ensures run' == run + [l] && Possible(st, run') && After(st, run') == Apply(After(st, run), l)
  {
    run' := run + [l];
    assert run'[..|run|] == run;
  }

  lemma MixedIsNotDup()
    ensures !IsDup(Mixed) && IsDup(Zeros) && Mixed != Zeros && Zeros[0] == 0
  {
    assert Mixed[0] == 1 && Mixed[1] == 0 && Zeros[0] == 0;
  }

  /** First send: not cached, so the page goes raw and into the cache. */
  lemma SendFirst()
    ensures Enabled(Small(Mixed, {Only}, {}, map[], [], false), Quiet(Mixed))
    ensures Apply(Small(Mixed, {Only}, {}, map[], [], false), Quiet(Mixed)) ==
            Small(Mixed, {}, {}, map[Only := Mixed], [Record(false, "ram", 0, Raw(Mixed))], true)
  {
    hide Fill, Encoded;
    MixedIsNotDup();
    var st' := Apply(Small(Mixed, {Only}, {}, map[], [], false), Quiet(Mixed));
    assert st'.dirty == {} && st'.cache == map[Only := Mixed];
    assert st'.stream == [Record(false, "ram", 0, Raw(Mixed))];
  }

  lemma WriteAndSync(p: Page, q: Page, cache: map<Pos, Page>, stream: seq<Record>)
    ensures Enabled(Small(p, {}, {}, cache, stream, true), GuestWrite(Only, q, false))
    ensures Apply(Small(p, {}, {}, cache, stream, true), GuestWrite(Only, q, false)) ==
              Small(q, {}, {Only}, cache, stream, true)
    ensures Enabled(Small(q, {}, {Only}, cache, stream, true), SyncLog)
    ensures Apply(Small(q, {}, {Only}, cache, stream, true), SyncLog) == Small(q, {Only}, {}, cache, stream, true)
  {
    var a := Apply(Small(p, {}, {}, cache, stream, true), GuestWrite(Only, q, false));
    assert a.ram == map[Only := q] && a.log == {Only};
    var b := Apply(Small(q, {}, {Only}, cache, stream, true), SyncLog);
    assert b.dirty == {Only};
  }

  /** The page is all zeros now: the duplicate branch sends it and leaves the cache alone. */
  lemma SendZeros(stream: seq<Record>)
    ensures Enabled(Small(Zeros, {Only}, {}, map[Only := Mixed], stream, true), Quiet(Zeros))
    ensures Apply(Small(Zeros, {Only}, {}, map[Only := Mixed], stream, true), Quiet(Zeros)) ==
            Small(Zeros, {}, {}, map[Only := Mixed], stream + [Record(true, "ram", 0, Compress(0))], true)
  {
    MixedIsNotDup();
    hide Fill, Encoded;
    var st' := Apply(Small(Zeros, {Only}, {}, map[Only := Mixed], stream, true), Quiet(Zeros));
    assert st'.dirty == {};
  }

  /** The old content is back: it equals the stale cached copy, so nothing is sent. */
  lemma SendNothing(stream: seq<Record>)
    ensures Enabled(Small(Mixed, {Only}, {}, map[Only := Mixed], stream, true), Quiet(Mixed))
    ensures Apply(Small(Mixed, {Only}, {}, map[Only := Mixed], stream, true), Quiet(Mixed)) ==
            Small(Mixed, {}, {}, map[Only := Mixed], stream, true)
  {
    MixedIsNotDup();
    EmptyCode(Mixed, Mixed);
    hide Fill, Encoded;
    var st' := Apply(Small(Mixed, {Only}, {}, map[Only := Mixed], stream, true), Quiet(Mixed));
    assert st'.dirty == {};
  }

  lemma DupLosesPage() returns (st: State, run: seq<Label>, r0: Receiver)
    ensures Init(st, r0) && Possible(st, run) && After(st, run).dirty == {} && After(st, run).log == {}
    ensures Replay(r0, After(st, run).stream).Some? && Replay(r0, After(st, run).stream).value.ram != After(st, run).ram
  {
    st, run, r0 := Small(Mixed, {Only}, {}, map[], [], false), [], Receiver(map[Only := Zeros], None);
    assert Init(st, r0) by {
      assert st.ram.Keys == {Only} == r0.ram.Keys;
    }
    hide *;
    EmptyRun(st);
    var s1 := [Record(false, "ram", 0, Raw(Mixed))];
    var s2 := s1 + [Record(true, "ram", 0, Compress(0))];
    SendFirst();
    run := Step(st, run, Quiet(Mixed));
    WriteAndSync(Mixed, Zeros, map[Only := Mixed], s1);
    run := Step(st, run, GuestWrite(Only, Zeros, false));
    run := Step(st, run, SyncLog);
    SendZeros(s1);
    run := Step(st, run, Quiet(Zeros));
    WriteAndSync(Zeros, Mixed, map[Only := Mixed], s2);
    run := Step(st, run, GuestWrite(Only, Mixed, false));
    run := Step(st, run, SyncLog);
    SendNothing(s2);
    run := Step(st, run, Quiet(Mixed));
    Differs(After(st, run), r0, s2);
  }

  lemma Differs(st: State, r0: Receiver, stream: seq<Record>)
    requires st == Small(Mixed, {}, {}, map[Only := Mixed], stream, true) && r0 == Receiver(map[Only := Zeros], None)
    requires stream == [Record(false, "ram", 0, Raw(Mixed))] + [Record(true, "ram", 0, Compress(0))]
    ensures st.dirty == {} && st.log == {}
    ensures Replay(r0, stream).Some? && Replay(r0, stream).value.ram != st.ram
  {
    hide Decoded, Encoded;
    MixedIsNotDup();
    assert Only in r0.ram && Only.id == "ram";
    assert Replay(r0, []) == Some(r0);
    ReplayPush(r0, [], stream[0]);
    assert [] + [stream[0]] == [stream[0]];
    ReplayPush(r0, [stream[0]], stream[1]);
    assert stream == [stream[0]] + [stream[1]];
    assert Replay(r0, stream).value.ram[Only] == Zeros;
  }
}
