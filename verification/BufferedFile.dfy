// The rate-limited output file of a migration (buffered_file.c): bytes go straight to the backend
// while it takes them and the limit allows, and wait in a buffer otherwise.
module BufferedFile {
  import opened Basics

  // ---------- the backend ----------

  /** What the backend will answer to the next calls, and what it has taken so far. It takes no more
      than it is offered, and is not ready once the answers are used up. */
  datatype Wire = Wire(answers: seq<int>, delivered: seq<Byte>)

  function Answer(w: Wire, n: nat): int {
    if w.answers == [] then -EAGAIN else if w.answers[0] < n then w.answers[0] else n
  }

  function Offer(w: Wire, data: seq<Byte>): Wire {
    var r := Answer(w, |data|);
    Wire(if w.answers == [] then [] else w.answers[1..], if 0 < r then w.delivered + data[..r] else w.delivered)
  }

  predicate NoZero(answers: seq<int>) { forall i :: 0 <= i < |answers| ==> answers[i] != 0 }

  datatype Outcome = Sent | Frozen | Limited | Failed(error: int)

  /** How far a loop of puts came. */
  datatype Progress = Progress(wire: Wire, sent: nat, outcome: Outcome)

  /** Put data, and again what is left of it, until it is all sent or something stops it. A limit of
      -1 stands for none; xfer counts the bytes against it. */
  function Drain(w: Wire, data: seq<Byte>, xfer: int, limit: int): (p: Progress)
    ensures p.sent <= |data| && (p.outcome.Failed? ==> p.outcome.error <= 0)
    decreases |data|
  {
    if data == [] then Progress(w, 0, Sent)
    else if 0 <= limit < xfer then Progress(w, 0, Limited)
    else
      var r, after := Answer(w, |data|), Offer(w, data);
      if r == -EAGAIN then Progress(after, 0, Frozen)
      else if r <= 0 then Progress(after, 0, Failed(r))
      else Ahead(Drain(after, data[r..], xfer + r, limit), r)
  }

  /** Progress after n bytes had already been sent. */
  function Ahead(p: Progress, n: nat): Progress { p.(sent := n + p.sent) }

  /** The backend has exactly the bytes counted as sent, and all of them if nothing stopped it. */
  lemma {:induction false} DrainDelivers(w: Wire, data: seq<Byte>, xfer: int, limit: int)
    ensures var p := Drain(w, data, xfer, limit);
            p.wire.delivered == w.delivered + data[..p.sent] && (p.outcome == Sent ==> p.sent == |data|) &&
            (p.outcome == Limited ==> 0 <= limit < xfer + p.sent)
    decreases |data|
  {
    hide Offer;
    if data != [] && !(0 <= limit < xfer) {
      var r, after := Answer(w, |data|), Offer(w, data);
      OfferIs(w, data);
      if 0 < r {
        DrainDelivers(after, data[r..], xfer + r, limit);
        var rest := Drain(after, data[r..], xfer + r, limit);
        SentTwice(w.delivered, data, r, rest.sent);
      }
    }
  }

  lemma SentTwice(before: seq<Byte>, data: seq<Byte>, r: nat, n: nat)
    requires r + n <= |data|
    ensures before + data[..r] + data[r..][..n] == before + data[..r + n]
  {
  }

  lemma OfferIs(w: Wire, data: seq<Byte>)
    ensures var r := Answer(w, |data|);
            Offer(w, data).delivered == if 0 < r then w.delivered + data[..r] else w.delivered
    ensures Offer(w, data).answers == if w.answers == [] then [] else w.answers[1..]
    ensures NoZero(w.answers) ==> NoZero(Offer(w, data).answers)
  {
  }

  lemma {:induction false} DrainAnswers(w: Wire, data: seq<Byte>, xfer: int, limit: int)
    ensures var p := Drain(w, data, xfer, limit);
            |p.wire.answers| <= |w.answers| &&
            (NoZero(w.answers) ==> NoZero(p.wire.answers) && p.outcome != Failed(0)) &&
            (w.answers != [] && data != [] && limit < 0 ==> |p.wire.answers| < |w.answers|)
    decreases |data|
  {
    hide Offer;
    if data != [] && !(0 <= limit < xfer) {
      var r, after := Answer(w, |data|), Offer(w, data);
      OfferIs(w, data);
      if 0 < r {
        DrainAnswers(after, data[r..], xfer + r, limit);
      }
    }
  }

  /** The sum of the first k answers. */
  function Taken(answers: seq<int>, k: nat): int
    requires k <= |answers|
  {
    if k == 0 then 0 else answers[0] + Taken(answers[1..], k - 1)
  }

  /** Put j was made: bytes were left, the limit had not been passed, and the backend took some. */
  predicate PutMade(answers: seq<int>, j: nat, n: int, xfer: int, limit: int)
    requires j < |answers|
  {
    answers[j] > 0 && Taken(answers, j) < n && !(0 <= limit < xfer + Taken(answers, j))
  }

  ghost predicate PutsMade(answers: seq<int>, k: nat, n: int, xfer: int, limit: int) {
    k <= |answers| && forall j :: 0 <= j < k ==> PutMade(answers, j, n, xfer, limit)
  }

  /** Why there was no further put: all is sent, the limit is passed, or the next answer is none, -EAGAIN or another
      that is not positive. */
  predicate StoppedBy(outcome: Outcome, answers: seq<int>, k: nat, sent: nat, n: nat, xfer: int, limit: int)
    requires k <= |answers|
  {
    match outcome
    case Sent => sent == n
    case Limited => sent < n && 0 <= limit < xfer + sent
    case Frozen => sent < n && !(0 <= limit < xfer + sent) && (k < |answers| ==> answers[k] == -EAGAIN)
    case Failed(e) =>
      sent < n && !(0 <= limit < xfer + sent) && k < |answers| && answers[k] == e <= 0 && e != -EAGAIN
  }

  /** Main result: a loop of puts is exactly the first k answers, each put made within the limit, and one reason to
      stop after them. The limit can be passed only by the last of the puts. */
  lemma {:induction false} DrainExactly(w: Wire, data: seq<Byte>, xfer: int, limit: int) returns (k: nat)
    ensures PutsMade(w.answers, k, |data|, xfer, limit)
    ensures var p := Drain(w, data, xfer, limit);
            p.sent == (if Taken(w.answers, k) < |data| then Taken(w.answers, k) else |data|) &&
            StoppedBy(p.outcome, w.answers, k, p.sent, |data|, xfer, limit)
    decreases |data|
  {
    hide Drain, Offer;
    k := 0;
    if data == [] {
      DrainDone(w, xfer, limit);
    } else {
      DrainStep(w, data, xfer, limit);
      OfferIs(w, data);
      var r := Answer(w, |data|);
      if !(0 <= limit < xfer) && 0 < r {
        var later := DrainExactly(Offer(w, data), data[r..], xfer + r, limit);
        k := if r < w.answers[0] then 1 else later + 1;
        PutsEarlier(w.answers, k - 1, |data|, xfer, limit);
      }
    }
  }

  lemma PutsEarlier(answers: seq<int>, k: nat, n: nat, xfer: int, limit: int)
    requires answers != [] && 0 < answers[0] && 0 < n && !(0 <= limit < xfer)
    requires PutsMade(answers[1..], k, n - answers[0], xfer + answers[0], limit)
    ensures PutsMade(answers, k + 1, n, xfer, limit) && Taken(answers, k + 1) == answers[0] + Taken(answers[1..], k)
  {
    forall j | 0 <= j < k + 1
      ensures PutMade(answers, j, n, xfer, limit)
    {
      if j > 0 {
        assert PutMade(answers[1..], j - 1, n - answers[0], xfer + answers[0], limit);
      }
    }
  }

  // ---------- the file as a value ----------

  datatype State = State(wire: Wire, buffer: seq<Byte>, error: int, frozen: bool, xfer: nat, limit: nat)

  /** buffered_flush */
  function Flushed(s: State): State {
    if s.error != 0 then s
    else
      var p := Drain(s.wire, s.buffer, 0, -1);
      s.(wire := p.wire, buffer := s.buffer[p.sent..], frozen := s.frozen || p.outcome == Frozen,
         error := if p.outcome.Failed? then p.outcome.error else s.error)
  }

  /** The loop of buffered_put_buffer. */
  function Direct(s: State, buf: seq<Byte>): Progress {
    if s.frozen then Progress(s.wire, 0, Frozen) else Drain(s.wire, buf, s.xfer, s.limit)
  }

  predicate Refused(p: Progress) { p.outcome.Failed? }

  /** buffered_put_buffer */
  function Put(s: State, buf: seq<Byte>): State {
    if s.error != 0 then s
    else
      var f := Flushed(s.(frozen := false));
      var p := Direct(f, buf);
      if Refused(p) then f.(wire := p.wire, xfer := f.xfer + p.sent, error := p.outcome.error)
      else f.(wire := p.wire, xfer := f.xfer + p.sent, frozen := f.frozen || p.outcome == Frozen,
              buffer := f.buffer + buf[p.sent..])
  }

  /** Its return value: the size, unless an earlier error is reported or the data is refused. */
  function PutReturn(s: State, buf: seq<Byte>): int {
    if s.error != 0 then s.error
    else if Refused(Direct(Flushed(s.(frozen := false)), buf)) then -EINVAL
    else |buf|
  }

  // ---------- conservation ----------

  /** While no error is recorded, delivered and buffered bytes together are the accepted ones. */
  ghost predicate Conserved(s: State, accepted: seq<Byte>) {
    s.error == 0 ==> s.wire.delivered + s.buffer == accepted
  }

  lemma FlushMoves(s: State)
    ensures Flushed(s).wire.delivered + Flushed(s).buffer == s.wire.delivered + s.buffer
    ensures NoZero(s.wire.answers) ==> NoZero(Flushed(s).wire.answers)
    ensures |Flushed(s).wire.answers| <= |s.wire.answers|
  {
    hide Drain;
    if s.error == 0 {
      var p := Drain(s.wire, s.buffer, 0, -1);
      DrainDelivers(s.wire, s.buffer, 0, -1);
      DrainAnswers(s.wire, s.buffer, 0, -1);
      assert s.wire.delivered + s.buffer[..p.sent] + s.buffer[p.sent..] == s.wire.delivered + s.buffer;
    }
  }

  /** With a backend that never answers 0, a flush leaves bytes behind only if the backend is not
      ready or failed. */
  lemma FlushEmpties(s: State)
    requires s.error == 0 && !s.frozen && NoZero(s.wire.answers)
    ensures Flushed(s).buffer == [] || Flushed(s).frozen || Flushed(s).error != 0
  {
    hide Drain;
    DrainDelivers(s.wire, s.buffer, 0, -1);
    DrainAnswers(s.wire, s.buffer, 0, -1);
  }

  lemma FlushConserves(s: State, accepted: seq<Byte>)
    requires Conserved(s, accepted)
    ensures Conserved(Flushed(s), accepted)
  {
    hide Flushed;
    FlushMoves(s);
    if s.error != 0 {
      FlushKeepsError(s);
    }
  }

  lemma FlushKeepsError(s: State)
    requires s.error != 0
    ensures Flushed(s) == s
  {
  }

  lemma Rejoined(delivered: seq<Byte>, rest: seq<Byte>, buf: seq<Byte>, d: nat)
    requires d <= |buf| && (rest == [] || d == 0)
    ensures (delivered + buf[..d]) + (rest + buf[d..]) == delivered + rest + buf
  {
    assert buf[..d] + buf[d..] == buf;
  }

  // ---------- exactly when a write is kept ----------

  /** Where a loop of puts stops, computed from the answers and the number of bytes alone. */
  datatype Stop = Stop(answers: seq<int>, sent: nat, outcome: Outcome)

  function StopOf(answers: seq<int>, n: nat, xfer: int, limit: int): Stop
    decreases n
  {
    if n == 0 then Stop(answers, 0, Sent)
    else if 0 <= limit < xfer then Stop(answers, 0, Limited)
    else
      var r := if answers == [] then -EAGAIN else if answers[0] < n then answers[0] else n;
      var rest := if answers == [] then [] else answers[1..];
      if r == -EAGAIN then Stop(rest, 0, Frozen)
      else if r <= 0 then Stop(rest, 0, Failed(r))
      else
        var later := StopOf(rest, n - r, xfer + r, limit);
        later.(sent := r + later.sent)
  }

  lemma {:induction false} DrainStops(w: Wire, data: seq<Byte>, xfer: int, limit: int)
    ensures var p := Drain(w, data, xfer, limit);
            StopOf(w.answers, |data|, xfer, limit) == Stop(p.wire.answers, p.sent, p.outcome)
    decreases |data|
  {
    hide Drain, Offer;
    if data == [] {
      DrainDone(w, xfer, limit);
    } else {
      var r := Answer(w, |data|);
      DrainStep(w, data, xfer, limit);
      OfferIs(w, data);
      if !(0 <= limit < xfer) && 0 < r {
        DrainStops(Offer(w, data), data[r..], xfer + r, limit);
      }
    }
  }

  /** Where the direct loop of a write stops, after the flush before it: it is not entered if the
      flush froze the output, but it is if the flush failed. */
  function DirectStop(answers: seq<int>, m: nat, n: nat, xfer: int, limit: int): Stop {
    var f := StopOf(answers, m, 0, -1);
    if f.outcome == Frozen then Stop(f.answers, 0, Frozen) else StopOf(f.answers, n, xfer, limit)
  }

  /** No answer of 0 does harm: none ends the direct loop, and if one ends the flush of the m
      buffered bytes, then none of the n new ones is sent past what is left, or the direct loop
      fails and says so. */
  predicate ZerosHarmless(answers: seq<int>, m: nat, n: nat, xfer: int, limit: int) {
    var f, p := StopOf(answers, m, 0, -1), DirectStop(answers, m, n, xfer, limit);
    p.outcome != Failed(0) && (f.outcome == Failed(0) ==> p.sent == 0 || p.outcome.Failed?)
  }

  /** What a write owes its caller: taken whole and in order, or an error on record, and an error
      the flush ran into is still on record at the end. */
  ghost predicate Kept(s: State, buf: seq<Byte>) {
    (if PutReturn(s, buf) == |buf| then Conserved(Put(s, buf), s.wire.delivered + s.buffer + buf)
     else Put(s, buf).error != 0) &&
    (Flushed(s.(frozen := false)).error != 0 ==> Put(s, buf).error != 0)
  }

  /** Same answers to come, same sizes and counters; the bytes may differ. */
  predicate SameSizes(t: State, s: State) {
    t.wire.answers == s.wire.answers && |t.buffer| == |s.buffer| && t.error == s.error && t.xfer == s.xfer &&
    t.limit == s.limit
  }

  ghost predicate KeptForAllBytes(s: State, n: nat) {
    forall t: State, buf: seq<Byte> {:trigger Kept(t, buf)} | SameSizes(t, s) && |buf| == n :: Kept(t, buf)
  }

  /** Both loops of a write stop where the sizes say. */
  lemma PutStops(s: State, buf: seq<Byte>)
    requires s.error == 0
    ensures var f := Flushed(s.(frozen := false)); var p := Direct(f, buf);
            Stop(p.wire.answers, p.sent, p.outcome) == DirectStop(s.wire.answers, |s.buffer|, |buf|, s.xfer, s.limit)
    ensures var f, stop := Flushed(s.(frozen := false)), StopOf(s.wire.answers, |s.buffer|, 0, -1);
            f.wire.answers == stop.answers && f.frozen == (stop.outcome == Frozen) &&
            f.error == (if stop.outcome.Failed? then stop.outcome.error else 0) &&
            stop.sent <= |s.buffer| && f.buffer == s.buffer[stop.sent..] &&
            (f.buffer == [] <==> stop.outcome == Sent) && stop.outcome != Limited
  {
    hide Drain, StopOf;
    DrainStops(s.wire, s.buffer, 0, -1);
    DrainDelivers(s.wire, s.buffer, 0, -1);
    StopShort(s.wire.answers, |s.buffer|, 0, -1);
    var f := Flushed(s.(frozen := false));
    DrainStops(f.wire, buf, f.xfer, f.limit);
  }

  /** A loop that is stopped has something left to send. */
  lemma {:induction false} StopShort(answers: seq<int>, n: nat, xfer: int, limit: int)
    ensures var stop := StopOf(answers, n, xfer, limit);
            stop.sent <= n && (stop.outcome == Sent <==> stop.sent == n) && (stop.outcome == Limited ==> 0 <= limit)
    decreases n
  {
    if n > 0 && !(0 <= limit < xfer) && answers != [] {
      var r := if answers[0] < n then answers[0] else n;
      if 0 < r {
        StopShort(answers[1..], n - r, xfer + r, limit);
      }
    }
  }

  lemma HarmlessKeeps(s: State, buf: seq<Byte>)
    requires s.error == 0 && ZerosHarmless(s.wire.answers, |s.buffer|, |buf|, s.xfer, s.limit)
    ensures Kept(s, buf)
  {
    hide Drain, StopOf, Flushed, Direct;
    var f := Flushed(s.(frozen := false));
    var p := Direct(f, buf);
    PutStops(s, buf);
    FlushMoves(s.(frozen := false));
    DirectDelivers(f, buf);
    if !Refused(p) && f.error == 0 {
      Rejoined(f.wire.delivered, f.buffer, buf, p.sent);
    }
  }

  lemma DirectDelivers(f: State, buf: seq<Byte>)
    ensures var p := Direct(f, buf);
            p.sent <= |buf| && p.wire.delivered == f.wire.delivered + buf[..p.sent] &&
            (p.outcome.Failed? ==> p.outcome.error <= 0)
  {
    hide Drain;
    DrainDelivers(f.wire, buf, f.xfer, f.limit);
  }

  /** What a write counts against the allowance is what it sends past the buffer, taken or refused, and never
      what the flush before it sends. */
  lemma PutCounts(s: State, buf: seq<Byte>)
    requires s.error == 0
    ensures var f, t := Flushed(s.(frozen := false)), Put(s, buf);
            t.xfer - s.xfer == |t.wire.delivered| - |f.wire.delivered| && f.xfer == s.xfer && t.limit == s.limit
  {
    hide Drain;
    DirectDelivers(Flushed(s.(frozen := false)), buf);
  }

  /** A write that returns its size has been taken whole, in order; any other records an error. */
  lemma PutConserves(s: State, buf: seq<Byte>, accepted: seq<Byte>)
    requires Conserved(s, accepted) && s.error <= 0 && SafeWrite(s, |buf|)
    ensures PutReturn(s, buf) == |buf| ==> Conserved(Put(s, buf), accepted + buf)
    ensures PutReturn(s, buf) != |buf| ==> Put(s, buf).error != 0
  {
    hide Flushed, Direct, ZerosHarmless;
    if s.error == 0 {
      HarmlessKeeps(s, buf);
    }
  }

  /** The next write of n bytes meets no harmful answer of 0. */
  predicate SafeWrite(s: State, n: nat) {
    s.error == 0 ==> ZerosHarmless(s.wire.answers, |s.buffer|, n, s.xfer, s.limit)
  }

  /** A harmful answer of 0 shows, for some contents of these sizes. */
  lemma HarmShows(s: State, n: nat)
    requires s.error == 0 && !ZerosHarmless(s.wire.answers, |s.buffer|, n, s.xfer, s.limit)
    ensures !Kept(s.(buffer := seq(|s.buffer|, _ => 0)), seq(n, _ => 1))
  {
    hide Drain, StopOf, Flushed, Direct;
    var t, buf: seq<Byte> := s.(buffer := seq(|s.buffer|, _ => 0)), seq(n, _ => 1);
    var f := Flushed(t.(frozen := false));
    var p := Direct(f, buf);
    PutStops(t, buf);
    DirectDelivers(f, buf);
    FlushMoves(t.(frozen := false));
    if p.outcome != Failed(0) {
      var now := Put(t, buf);
      var k := |f.wire.delivered|;
      assert now.wire.delivered + now.buffer == f.wire.delivered + buf[..p.sent] + (f.buffer + buf[p.sent..]);
      assert (now.wire.delivered + now.buffer)[k] == 1;
      assert (f.wire.delivered + f.buffer + buf)[k] == 0;
    }
  }

  /** For an error-free file, writing n bytes is safe whatever the bytes exactly when no answer of 0
      does harm, a condition on the answers, the two sizes and the allowance. */
  lemma PutKeptExactly(s: State, n: nat)
    requires s.error == 0
    ensures KeptForAllBytes(s, n) <==> ZerosHarmless(s.wire.answers, |s.buffer|, n, s.xfer, s.limit)
  {
    hide ZerosHarmless, Kept;
    if ZerosHarmless(s.wire.answers, |s.buffer|, n, s.xfer, s.limit) {
      forall t: State, buf: seq<Byte> | SameSizes(t, s) && |buf| == n
        ensures Kept(t, buf)
      {
        HarmlessKeeps(t, buf);
      }
    } else {
      HarmShows(s, n);
      assert SameSizes(s.(buffer := seq(|s.buffer|, _ => 0)), s);
    }
  }

  lemma {:induction false} NoZeroStops(answers: seq<int>, n: nat, xfer: int, limit: int)
    requires NoZero(answers)
    ensures var stop := StopOf(answers, n, xfer, limit); NoZero(stop.answers) && stop.outcome != Failed(0)
    decreases n
  {
    if n > 0 && !(0 <= limit < xfer) && answers != [] {
      var r := if answers[0] < n then answers[0] else n;
      if 0 < r {
        NoZeroStops(answers[1..], n - r, xfer + r, limit);
      }
    }
  }

  /** A backend that never answers 0 is one case of this. */
  lemma NoZeroIsHarmless(answers: seq<int>, m: nat, n: nat, xfer: int, limit: int)
    requires NoZero(answers)
    ensures ZerosHarmless(answers, m, n, xfer, limit)
  {
    hide StopOf;
    NoZeroStops(answers, m, 0, -1);
    NoZeroStops(StopOf(answers, m, 0, -1).answers, n, xfer, limit);
  }

  // ---------- three ways an answer of 0 does harm ----------

  /** The flush is answered 0, the new byte is then taken: it goes out before the buffered one. */
  lemma ZeroAnswerReorders()
    ensures var s := State(Wire([0, 1], []), [1], 0, false, 0, 10);
            PutReturn(s, [2]) == 1 && Put(s, [2]).error == 0 && Put(s, [2]).wire.delivered == [2] &&
            Put(s, [2]).buffer == [1]
    ensures !ZerosHarmless([0, 1], 1, 1, 0, 10)
  {
    var s := State(Wire([0, 1], []), [1], 0, false, 0, 10);
    var w1 := Wire([1], []);
    DrainStep(s.wire, [1], 0, -1);
    assert Drain(s.wire, [1], 0, -1) == Progress(w1, 0, Failed(0));
    assert Flushed(s) == s.(wire := w1);
    DrainStep(w1, [2], 0, 10);
    DrainDone(Wire([], [2]), 1, 10);
    assert [2][1..] == [] && [2][..1] == [2];
    assert Drain(w1, [2], 0, 10) == Progress(Wire([], [2]), 1, Sent);
    PutStops(s, [2]);
  }

  /** One of two bytes is taken, the next answer is 0: the write is refused with a byte gone out and
      no error on record. */
  lemma ZeroAnswerLosesWrite()
    ensures var s := State(Wire([1, 0], []), [], 0, false, 0, 10);
            PutReturn(s, [7, 8]) == -EINVAL && Put(s, [7, 8]).error == 0 && Put(s, [7, 8]).wire.delivered == [7] &&
            Put(s, [7, 8]).buffer == []
    ensures !ZerosHarmless([1, 0], 0, 2, 0, 10)
  {
    hide Drain, StopOf;
    var s := State(Wire([1, 0], []), [], 0, false, 0, 10);
    DrainDone(s.wire, 0, -1);
    assert Flushed(s) == s;
    OneThenZero();
    PutStops(s, [7, 8]);
  }

  lemma OneThenZero()
    ensures Drain(Wire([1, 0], []), [7, 8], 0, 10) == Progress(Wire([], [7]), 1, Failed(0))
  {
    hide Drain;
    DrainStep(Wire([1, 0], []), [7, 8], 0, 10);
    assert [7, 8][1..] == [8] && [7, 8][..1] == [7] && [1, 0][1..] == [0];
    assert Offer(Wire([1, 0], []), [7, 8]) == Wire([0], [7]);
    DrainStep(Wire([0], [7]), [8], 1, 10);
  }

  /** The flush fails with -5, then the direct loop is answered 0: the error is erased. */
  lemma ZeroAnswerErasesError()
    ensures var s := State(Wire([-5, 0], []), [1], 0, false, 0, 10);
            Flushed(s).error == -5 && PutReturn(s, [2]) == -EINVAL && Put(s, [2]).error == 0
    ensures !ZerosHarmless([-5, 0], 1, 1, 0, 10)
  {
    var s := State(Wire([-5, 0], []), [1], 0, false, 0, 10);
    var w1 := Wire([0], []);
    DrainStep(s.wire, [1], 0, -1);
    assert Drain(s.wire, [1], 0, -1) == Progress(w1, 0, Failed(-5));
    assert Flushed(s) == s.(wire := w1, error := -5);
    DrainStep(w1, [2], 0, 10);
    assert Drain(w1, [2], 0, 10) == Progress(Wire([], []), 0, Failed(0));
    PutStops(s, [2]);
  }

  // ---------- the code ----------

  class Backend {
    var wire: Wire

    constructor (answers: seq<int>)
      ensures wire == Wire(answers, [])
    {
      wire := Wire(answers, []);
    }

    method PutBytes(data: seq<Byte>) returns (ret: int)
      modifies this
      ensures ret == Answer(old(wire), |data|) && wire == Offer(old(wire), data)
    {
      ret := Answer(wire, |data|);
      wire := Offer(wire, data);
    }
  }

  class File {
    const backend: Backend
    var lastError: int
    var freezeOutput: bool
    var bytesXfer: nat
    var xferLimit: nat
    var buffer: seq<Byte>
    var capacity: nat
    var notified: nat
    /** The bytes of every write that returned its size. */
    ghost var accepted: seq<Byte>

    ghost function Value(): State
      reads this, backend
    {
      State(backend.wire, buffer, lastError, freezeOutput, bytesXfer, xferLimit)
    }

    ghost predicate Valid()
      reads this
    {
      |buffer| <= capacity && lastError <= 0
    }

    /** qemu_fopen_ops_buffered */
    constructor (backend: Backend, bytesPerSec: nat)
      ensures Valid() && this.backend == backend && accepted == []
      ensures Value() == State(backend.wire, [], 0, false, 0, bytesPerSec / 10)
    {
      this.backend := backend;
      lastError, freezeOutput, bytesXfer, xferLimit := 0, false, 0, bytesPerSec / 10;
      buffer, capacity, notified, accepted := [], 0, 0, [];
    }

    /** buffered_append: the buffer grows when it must and never overflows. */
    method Append(data: seq<Byte>)
      requires Valid()
      modifies this`buffer, this`capacity
      ensures Valid() && buffer == old(buffer) + data && old(capacity) <= capacity
    {
      if |data| > capacity - |buffer| {
        capacity := capacity + |data| + 1024;
      }
      buffer := buffer + data;
    }

    /** buffered_flush */
    method Flush()
      requires Valid()
      modifies this`lastError, this`freezeOutput, this`buffer, backend
      ensures Valid() && Value() == Flushed(old(Value()))
    {
      hide Answer, Offer, Drain;
      if lastError != 0 {
        return;
      }
      var offset := 0;
      ghost var p := Drain(backend.wire, buffer, 0, -1);
      assert buffer[0..] == buffer;
      while offset < |buffer|
        invariant 0 <= offset <= |buffer| && buffer == old(buffer) && lastError == 0 &&
                  freezeOutput == old(freezeOutput)
        invariant p == Ahead(Drain(backend.wire, buffer[offset..], offset, -1), offset)
      {
        var data := buffer[offset..];
        DrainStep(backend.wire, data, offset, -1);
        var ret := backend.PutBytes(data);
        if ret == -EAGAIN {
          freezeOutput := true;
          break;
        }
        if ret <= 0 {
          lastError := ret;
          break;
        }
        assert data[ret..] == buffer[offset + ret..];
        offset := offset + ret;
      }
      DrainDone(backend.wire, offset, -1);
      buffer := buffer[offset..];
    }

    /** The loop of buffered_put_buffer: offer the bytes until the backend stops taking them or the
        limit is passed. */
    method PutDirect(buf: seq<Byte>) returns (refused: bool, offset: nat)
      requires Valid()
      modifies this`lastError, this`freezeOutput, this`bytesXfer, backend
      ensures var p := Direct(old(Value()), buf);
              refused == Refused(p) && offset == p.sent <= |buf| && backend.wire == p.wire &&
              bytesXfer == old(bytesXfer) + p.sent &&
              freezeOutput == (old(freezeOutput) || p.outcome == Frozen) &&
              lastError == (if refused then p.outcome.error else old(lastError)) && lastError <= 0
    {
      hide Answer, Offer, Drain;
      offset, refused := 0, false;
      ghost var p := Drain(backend.wire, buf, bytesXfer, xferLimit);
      assert buf[0..] == buf;
      while !freezeOutput && offset < |buf|
        invariant 0 <= offset <= |buf| && !refused && lastError == old(lastError) && freezeOutput == old(freezeOutput)
        invariant bytesXfer == old(bytesXfer) + offset &&
                  (freezeOutput ==> offset == 0 && backend.wire == old(backend.wire))
        invariant p == Ahead(Drain(backend.wire, buf[offset..], bytesXfer, xferLimit), offset)
        decreases |buf| - offset
      {
        var data := buf[offset..];
        DrainStep(backend.wire, data, bytesXfer, xferLimit);
        if bytesXfer > xferLimit {
          break;
        }
        var ret := backend.PutBytes(data);
        if ret == -EAGAIN {
          freezeOutput := true;
          break;
        }
        if ret <= 0 {
          lastError := ret;
          refused := true;
          break;
        }
        assert data[ret..] == buf[offset + ret..];
        offset := offset + ret;
        bytesXfer := bytesXfer + ret;
      }
      DrainDone(backend.wire, bytesXfer, xferLimit);
    }

    /** buffered_put_buffer */
    method PutBuffer(buf: seq<Byte>, pos: int) returns (ret: int)
      requires Valid()
      modifies this, backend
      ensures Valid() && Value() == Put(old(Value()), buf) && ret == PutReturn(old(Value()), buf)
      ensures accepted == if ret == |buf| then old(accepted) + buf else old(accepted)
      ensures old(SafeWrite(Value(), |buf|) && Conserved(Value(), accepted)) ==> Conserved(Value(), accepted)
      ensures notified == old(notified) + if old(lastError) == 0 && pos == 0 && buf == [] && bytesXfer <= xferLimit
                then 1 else 0
    {
      hide Drain, Flushed, Direct, SafeWrite, Conserved, Put, PutReturn;
      if SafeWrite(Value(), |buf|) && Conserved(Value(), accepted) {
        PutKeeps(Value(), buf, accepted);
      }
      var error := lastError;
      ret := PutBytes(buf);
      if error == 0 && pos == 0 && |buf| == 0 {
        if bytesXfer <= xferLimit {
          notified := notified + 1;
        }
      }
    }

    /** The write itself: what is buffered first, then directly, the rest into the buffer. */
    method PutBytes(buf: seq<Byte>) returns (ret: int)
      requires Valid()
      modifies this, backend
      ensures Valid() && Value() == Put(old(Value()), buf) && ret == PutReturn(old(Value()), buf) &&
              notified == old(notified)
      ensures accepted == if ret == |buf| then old(accepted) + buf else old(accepted)
    {
      hide Drain, Flushed, Direct;
      if lastError != 0 {
        return lastError;
      }
      freezeOutput := false;
      Flush();
      var refused, offset := PutDirect(buf);
      ret := -EINVAL;
      if !refused {
        Append(buf[offset..]);
        ret := |buf|;
        accepted := accepted + buf;
      }
    }

    /** buffered_close, as far as the backend's answers go: done tells whether it came to its end.
        After a close that ended without an error everything accepted has been delivered. */
    method Close() returns (done: bool)
      requires Valid()
      modifies this, backend
      ensures Valid() && accepted == old(accepted) && (done <==> lastError != 0 || buffer == [])
      ensures old(lastError) != 0 ==> Value() == old(Value())
      ensures old(Conserved(Value(), accepted)) ==> Conserved(Value(), accepted)
      ensures done && lastError == 0 && old(Conserved(Value(), accepted)) ==> backend.wire.delivered == accepted
    {
      hide Drain, Flushed;
      while lastError == 0 && buffer != [] && backend.wire.answers != []
        invariant Valid() && accepted == old(accepted) && (old(lastError) != 0 ==> Value() == old(Value()))
        invariant old(Conserved(Value(), accepted)) ==> Conserved(Value(), accepted)
        decreases |backend.wire.answers|
      {
        if Conserved(Value(), accepted) {
          FlushConserves(Value(), accepted);
        }
        FlushUsesAnswers(Value());
        Flush();
      }
      done := lastError != 0 || buffer == [];
    }

    /** buffered_rate_tick: a new allowance, and whatever the backend takes of the buffer. */
    method RateTick() returns (closed: bool)
      requires Valid()
      modifies this, backend
      ensures Valid() && accepted == old(accepted) && closed == (old(lastError) != 0)
      ensures Value() == if closed || old(freezeOutput) then old(Value()) else Flushed(old(Value()).(xfer := 0))
      ensures old(Conserved(Value(), accepted)) ==> Conserved(Value(), accepted)
    {
      hide Drain, Flushed;
      if lastError != 0 {
        var done := Close();
        return true;
      }
      if freezeOutput {
        return false;
      }
      bytesXfer := 0;
      if Conserved(Value(), accepted) {
        FlushConserves(Value(), accepted);
      }
      Flush();
      notified := notified + 1;
      return false;
    }

    /** buffered_rate_limit: 0 to go on, 1 to stop, the error if there is one. */
    method RateLimit() returns (r: int)
      requires Valid()
      ensures r == 0 <==> lastError == 0 && !freezeOutput && bytesXfer <= xferLimit
      ensures r < 0 <==> lastError != 0
    {
      if lastError != 0 {
        return lastError;
      }
      if freezeOutput {
        return 1;
      }
      if bytesXfer > xferLimit {
        return 1;
      }
      return 0;
    }

    /** buffered_set_rate_limit */
    method SetRateLimit(rate: nat)
      requires Valid()
      modifies this`xferLimit
      ensures Valid() && xferLimit == if lastError != 0 then old(xferLimit) else rate / 10
    {
      if lastError == 0 {
        xferLimit := rate / 10;
      }
    }
  }

  lemma DrainStep(w: Wire, data: seq<Byte>, xfer: int, limit: int)
    requires data != []
    ensures Answer(w, |data|) <= |data|
    ensures var r := Answer(w, |data|);
            Drain(w, data, xfer, limit) ==
            if 0 <= limit < xfer then Progress(w, 0, Limited)
            else if r == -EAGAIN then Progress(Offer(w, data), 0, Frozen)
            else if r <= 0 then Progress(Offer(w, data), 0, Failed(r))
            else Ahead(Drain(Offer(w, data), data[r..], xfer + r, limit), r)
  {
    hide Offer;
  }

  lemma DrainDone(w: Wire, xfer: int, limit: int)
    ensures Drain(w, [], xfer, limit) == Progress(w, 0, Sent)
  {
  }

  lemma FlushUsesAnswers(s: State)
    requires s.error == 0 && s.buffer != [] && s.wire.answers != []
    ensures |Flushed(s).wire.answers| < |s.wire.answers|
  {
    hide Drain;
    DrainAnswers(s.wire, s.buffer, 0, -1);
  }

  /** The account after any write, taken or not. */
  lemma PutKeeps(s: State, buf: seq<Byte>, accepted: seq<Byte>)
    requires Conserved(s, accepted) && s.error <= 0 && SafeWrite(s, |buf|)
    ensures Conserved(Put(s, buf), if PutReturn(s, buf) == |buf| then accepted + buf else accepted)
  {
    PutConserves(s, buf, accepted);
  }

  // ---------- whole runs ----------

  datatype Op = Write(buf: seq<Byte>, pos: int) | Tick | SetRate(rate: nat)

  function AfterOp(s: State, op: Op): State {
    match op
    case Write(buf, _) => Put(s, buf)
    case Tick => if s.error != 0 || s.frozen then s else Flushed(s.(xfer := 0))
    case SetRate(rate) => if s.error != 0 then s else s.(limit := rate / 10)
  }

  /** No write of the run meets a harmful answer of 0. */
  predicate SafeRun(s: State, ops: seq<Op>)
    decreases |ops|
  {
    ops == [] || ((ops[0].Write? ==> SafeWrite(s, |ops[0].buf|)) && SafeRun(AfterOp(s, ops[0]), ops[1..]))
  }

  lemma PutAnswers(s: State, buf: seq<Byte>)
    requires NoZero(s.wire.answers)
    ensures NoZero(Put(s, buf).wire.answers)
  {
    hide StopOf, Flushed, Direct, NoZero;
    if s.error == 0 {
      PutStops(s, buf);
      NoZeroStops(s.wire.answers, |s.buffer|, 0, -1);
      var f := StopOf(s.wire.answers, |s.buffer|, 0, -1);
      NoZeroStops(f.answers, |buf|, s.xfer, s.limit);
    }
  }

  /** With a backend that never answers 0 every run is safe. */
  lemma {:induction false} NoZeroIsSafe(s: State, ops: seq<Op>)
    requires NoZero(s.wire.answers)
    ensures SafeRun(s, ops)
    decreases |ops|
  {
    hide NoZero, ZerosHarmless, Put, Flushed;
    if ops != [] {
      match ops[0] {
        case Write(buf, _) =>
          NoZeroIsHarmless(s.wire.answers, |s.buffer|, |buf|, s.xfer, s.limit);
          PutAnswers(s, buf);
        case Tick =>
          FlushMoves(s.(xfer := 0));
        case SetRate(_) =>
      }
      NoZeroIsSafe(AfterOp(s, ops[0]), ops[1..]);
    }
  }

  /** Any mix of writes, ticks and rate changes whose writes meet no harmful answer of 0, then a
      close: nothing is lost, repeated or reordered. */
  method Run(answers: seq<int>, bytesPerSec: nat, ops: seq<Op>) returns (file: File, done: bool)
    requires SafeRun(State(Wire(answers, []), [], 0, false, 0, bytesPerSec / 10), ops)
    ensures Conserved(file.Value(), file.accepted)
    ensures done && file.lastError == 0 ==> file.backend.wire.delivered == file.accepted
    ensures done <==> file.lastError != 0 || file.buffer == []
  {
    hide Put, PutReturn, Flushed, SafeWrite;
    var backend := new Backend(answers);
    file := new File(backend, bytesPerSec);
    done := false;
    assert ops[0..] == ops;
    for i := 0 to |ops|
      invariant fresh(file) && fresh(backend) && file.backend == backend && file.Valid()
      invariant Conserved(file.Value(), file.accepted) &&
                (if done then file.lastError != 0 else SafeRun(file.Value(), ops[i..]))
    {
      assert ops[i..][1..] == ops[i + 1..];
      if !done {
        match ops[i]
        case Write(buf, pos) =>
          var ret := file.PutBuffer(buf, pos);
        case Tick =>
          done := file.RateTick();
        case SetRate(rate) =>
          file.SetRateLimit(rate);
      }
    }
    if !done {
      done := file.Close();
    }
  }
}
