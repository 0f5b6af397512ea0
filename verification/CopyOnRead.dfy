/** The request serialisation of block.c: tracked requests, cluster rounding and
    copy-on-read. Coroutines run between yields without interruption, so a run is a
    sequence of labelled steps over the state below. A sector the image does not hold is
    read from the backing file; sectors past its end read as zero. */
module CopyOnRead {
  import opened Basics

  type Data = nat

  datatype Kind = Read | CopyOnRead | Write

  /** Where a request stands. In the loop of wait_for_overlapping_requests it sleeps on the wait
      queue of a tracked request, or has been woken and not run yet; in every other phase it is on
      the tracked list itself. */
  datatype Phase =
    | Waiting(on: nat)
    | Woken
    | Started
    | Reading(got: map<nat, Data>)
    | Filling(got: map<nat, Data>)
    | Copying(bounce: map<nat, Data>, left: set<nat>)
    | Writing(left: set<nat>)

  datatype Request = Request(kind: Kind, sector: nat, count: nat, data: seq<Data>, phase: Phase) {
    predicate Tracked() { !phase.Waiting? && !phase.Woken? }
  }

  datatype State = State(total: nat, cluster: nat, backing: map<nat, Data>, overlay: map<nat, Data>,
                         reqs: map<nat, Request>, inFlight: nat)

  datatype Label =
    | Submit(id: nat, kind: Kind, sector: nat, count: nat, data: seq<Data>, on: nat)
    | Resume(id: nat, on: nat)
    | Begin(id: nat, allAllocated: bool)
    | ReadSector(id: nat, x: nat)
    | StartCopy(id: nat)
    | CopySector(id: nat, x: nat, extra: set<nat>)
    | WriteSector(id: nat, x: nat, d: Data, extra: set<nat>)
    | Finish(id: nat, result: seq<Data>)
    | Fail(id: nat)

  // ---------- the guest-visible disk ----------

  function Backed(st: State, x: nat): Data { if x in st.backing then st.backing[x] else 0 }

  function Visible(st: State, x: nat): Data { if x in st.overlay then st.overlay[x] else Backed(st, x) }

  // ---------- round_to_clusters and tracked_request_overlaps ----------

  function AlignDown(n: nat, c: nat): nat
    requires c > 0
  {
    n / c * c
  }

  /** The first sector of the region and its length, in whole clusters. A driver without
      cluster information (cluster size 0) rounds nothing. */
  function RoundStart(cluster: nat, sector: nat): nat {
    if cluster == 0 then sector else AlignDown(sector, cluster)
  }

  function RoundCount(cluster: nat, sector: nat, count: nat): nat {
    if cluster == 0 then count
    else AlignDown(sector - RoundStart(cluster, sector) + count + cluster - 1, cluster)
  }

  /** Does the tracked region (reqSector, reqCount) meet the other one? */
  predicate Overlaps(reqSector: nat, reqCount: nat, sector: nat, count: nat) {
    if sector >= reqSector + reqCount then false
    else if reqSector >= sector + count then false
    else true
  }

  predicate OverlapsRounded(cluster: nat, reqSector: nat, reqCount: nat, sector: nat, count: nat) {
    Overlaps(reqSector, reqCount, RoundStart(cluster, sector), RoundCount(cluster, sector, count))
  }

  /** The scan of the tracked list found something to wait for. */
  predicate MustWait(st: State, sector: nat, count: nat) { exists id :: id in st.reqs && Blocks(st, id, sector, count) }

  predicate Blocks(st: State, id: nat, sector: nat, count: nat) {
    id in st.reqs && st.reqs[id].Tracked() &&
    OverlapsRounded(st.cluster, st.reqs[id].sector, st.reqs[id].count, sector, count)
  }

  // ---------- steps ----------

  function Region(st: State, r: Request): set<nat> {
    var s := RoundStart(st.cluster, r.sector);
    Range(s, s + RoundCount(st.cluster, r.sector, r.count))
  }

  function Covered(r: Request): set<nat> { Range(r.sector, r.sector + r.count) }

  /** The driver may allocate further unallocated sectors, with what they already show. */
  function Allocate(st: State, extra: set<nat>): map<nat, Data> {
    st.overlay + map x | x in extra && x !in st.overlay :: Backed(st, x)
  }

  /** qemu_co_queue_restart_all: whoever sleeps on request `done` is woken. */
  function Restarted(reqs: map<nat, Request>, done: nat): map<nat, Request> {
    map id | id in reqs :: if reqs[id].phase == Waiting(done) then reqs[id].(phase := Woken) else reqs[id]
  }

  function Drop(st: State, id: nat): State
    requires id in st.reqs
  {
    st.(reqs := Restarted(st.reqs - {id}, id),
        inFlight := if st.reqs[id].kind.CopyOnRead? && st.inFlight > 0 then st.inFlight - 1 else st.inFlight)
  }

  function WithPhase(st: State, id: nat, p: Phase): State
    requires id in st.reqs
  {
    st.(reqs := st.reqs[id := st.reqs[id].(phase := p)])
  }

  predicate Enabled(st: State, l: Label) {
    match l
    case Submit(id, kind, sector, count, data, on) =>
      id !in st.reqs && sector + count <= st.total && (kind.Write? ==> |data| == count) &&
      (MustWait(st, sector, count) ==> Blocks(st, on, sector, count))
    case Resume(id, on) =>
      id in st.reqs && st.reqs[id].phase.Woken? &&
      (MustWait(st, st.reqs[id].sector, st.reqs[id].count) ==> Blocks(st, on, st.reqs[id].sector, st.reqs[id].count))
    case Begin(id, all) =>
      id in st.reqs && st.reqs[id].phase.Started? &&
      (all && st.reqs[id].kind.CopyOnRead? ==> Covered(st.reqs[id]) <= st.overlay.Keys)
    case ReadSector(id, x) =>
      id in st.reqs && var r := st.reqs[id];
      (r.phase.Reading? && x in Covered(r)) || (r.phase.Filling? && x in Region(st, r))
    case StartCopy(id) =>
      id in st.reqs && st.reqs[id].phase.Filling? && st.reqs[id].phase.got.Keys == Region(st, st.reqs[id])
    case CopySector(id, x, extra) =>
      id in st.reqs && st.reqs[id].phase.Copying? && x in st.reqs[id].phase.left && x in st.reqs[id].phase.bounce
    case WriteSector(id, x, d, extra) =>
      id in st.reqs && var r := st.reqs[id];
      r.phase.Writing? && x in r.phase.left && x in Covered(r) && x - r.sector < |r.data| && d == r.data[x - r.sector]
    case Finish(id, result) =>
      id in st.reqs && var r := st.reqs[id];
      match r.phase {
        case Reading(got) => Covered(r) <= got.Keys && Delivers(r, got, result)
        case Copying(bounce, left) => left == {} && Covered(r) <= bounce.Keys && Delivers(r, bounce, result)
        case Writing(left) => left == {} && result == []
        case _ => false
      }
    case Fail(id) => id in st.reqs && st.reqs[id].Tracked()
  }

  /** The caller's buffer holds the requested sectors of `got`, in order. */
  predicate Delivers(r: Request, got: map<nat, Data>, result: seq<Data>)
    requires Covered(r) <= got.Keys
  {
    |result| == r.count && forall i :: 0 <= i < r.count ==> r.sector + i in Covered(r) && result[i] == got[r.sector + i]
  }

  function Apply(st: State, l: Label): State
    requires Enabled(st, l)
  {
    match l
    case Submit(id, kind, sector, count, data, on) =>
      // copy_on_read_in_flight is raised before the scan; the scan runs only if it is nonzero.
      var n := if kind.CopyOnRead? then st.inFlight + 1 else st.inFlight;
      var p := if n > 0 && MustWait(st, sector, count) then Waiting(on) else Started;
      st.(inFlight := n, reqs := st.reqs[id := Request(kind, sector, count, data, p)])
    case Resume(id, on) =>
      WithPhase(st, id, if MustWait(st, st.reqs[id].sector, st.reqs[id].count) then Waiting(on) else Started)
    case Begin(id, all) =>
      var r := st.reqs[id];
      WithPhase(st, id, match r.kind
        case Read => Reading(map[])
        case CopyOnRead => if all then Reading(map[]) else Filling(map[])
        case Write => Writing(Covered(r)))
    case ReadSector(id, x) =>
      var r := st.reqs[id];
      var got := r.phase.got[x := Visible(st, x)];
      WithPhase(st, id, if r.phase.Reading? then Reading(got) else Filling(got))
    case StartCopy(id) =>
      var r := st.reqs[id];
      WithPhase(st, id, Copying(r.phase.got, Region(st, r)))
    case CopySector(id, x, extra) =>
      var r := st.reqs[id];
      var st' := WithPhase(st, id, Copying(r.phase.bounce, r.phase.left - {x}));
      st'.(overlay := Allocate(st, extra)[x := r.phase.bounce[x]])
    case WriteSector(id, x, d, extra) =>
      var r := st.reqs[id];
      WithPhase(st, id, Writing(r.phase.left - {x})).(overlay := Allocate(st, extra)[x := d])
    case Finish(id, _) => Drop(st, id)
    case Fail(id) => Drop(st, id)
  }

  // ---------- the invariant ----------

  function CorIds(st: State): set<nat> { set id | id in st.reqs && st.reqs[id].kind.CopyOnRead? }

  /** No other tracked request touches a cluster of a tracked copy-on-read request. */
  ghost predicate Serialised(st: State) {
    forall a, b :: a in st.reqs && b in st.reqs && a != b && st.reqs[a].Tracked() && st.reqs[b].Tracked() &&
                   st.reqs[a].kind.CopyOnRead? ==>
      !OverlapsRounded(st.cluster, st.reqs[b].sector, st.reqs[b].count, st.reqs[a].sector, st.reqs[a].count)
  }

  /** What a request has buffered, and what a copy-on-read request has put into the image. */
  ghost predicate Faithful(st: State, r: Request) {
    match r.phase
    case Waiting(_) => true
    case Woken => true
    case Started => true
    case Reading(got) =>
      !r.kind.Write? && got.Keys <= Covered(r) &&
      (r.kind.CopyOnRead? ==> Covered(r) <= st.overlay.Keys && forall x :: x in got ==> got[x] == Visible(st, x))
    case Filling(got) =>
      r.kind.CopyOnRead? && got.Keys <= Region(st, r) && (forall x :: x in got ==> got[x] == Visible(st, x))
    case Copying(bounce, left) =>
      r.kind.CopyOnRead? && bounce.Keys == Region(st, r) && left <= Region(st, r) &&
      Region(st, r) - left <= st.overlay.Keys &&
      (forall x :: x in bounce ==> bounce[x] == Visible(st, x))
    case Writing(left) => r.kind.Write? && left <= Covered(r) && |r.data| == r.count
  }

  /** Whoever sleeps, sleeps on a request that is still tracked and will wake it when it leaves. */
  ghost predicate SleepersHaveWaker(st: State) {
    forall id :: id in st.reqs && st.reqs[id].phase.Waiting? ==>
      st.reqs[id].phase.on in st.reqs && st.reqs[st.reqs[id].phase.on].Tracked()
  }

  ghost predicate Inv(st: State) {
    && st.inFlight == |CorIds(st)|
    && Serialised(st)
    && SleepersHaveWaker(st)
    && (forall id :: id in st.reqs ==> Faithful(st, st.reqs[id]))
    && (forall id :: id in st.reqs && st.reqs[id].kind.Write? ==> |st.reqs[id].data| == st.reqs[id].count)
  }

  // ---------- rounding ----------

  lemma AlignBounds(n: nat, c: nat)
    requires c > 0
    ensures AlignDown(n, c) <= n < AlignDown(n, c) + c
  {
    assert n == n / c * c + n % c;
  }

  lemma MultipleBelow(q: nat, n: nat, c: nat)
    requires c > 0
    ensures q * c <= n <==> q <= n / c
  {
    assert n == n / c * c + n % c;
    if q <= n / c {
      assert q * c <= n / c * c;
    } else {
      assert q * c >= (n / c + 1) * c;
    }
  }

  /** The rounded region ends at the next cluster boundary. */
  lemma RoundEnd(c: nat, s: nat, n: nat)
    requires c > 0
    ensures RoundStart(c, s) + RoundCount(c, s, n) == AlignDown(s + n + c - 1, c)
  {
    var q, t := s / c, s - s / c * c + n + c - 1;
    assert s + n + c - 1 == t + q * c;
    assert (t + q * c) / c == t / c + q by { DivPlus(t, q, c); }
    assert (t / c + q) * c == t / c * c + q * c;
  }

  lemma DivPlus(t: nat, q: nat, c: nat)
    requires c > 0
    ensures (t + q * c) / c == t / c + q
  {
    assert t == t / c * c + t % c;
    assert (t + q * c) == (t / c + q) * c + t % c;
    MultipleBelow(t / c + q, t + q * c, c);
    MultipleBelow(t / c + q + 1, t + q * c, c);
    assert (t / c + q + 1) * c == (t / c + q) * c + c;
  }

  /** A rounded start lies before an end exactly when the start lies before the rounded end. */
  lemma StartBeforeEnd(c: nat, s: nat, e: nat)
    requires c > 0
    ensures AlignDown(s, c) < e <==> s < AlignDown(e + c - 1, c)
  {
    // Both say s / c < (e + c - 1) / c.
    MultipleBelow((e + c - 1) / c, s, c);
    MultipleBelow(s / c + 1, e + c - 1, c);
    assert (s / c + 1) * c == s / c * c + c;
  }

  /** Rounding one of two regions or the other makes no difference to whether they meet. */
  lemma RoundingIsSymmetric(c: nat, a: Request, b: Request)
    ensures OverlapsRounded(c, a.sector, a.count, b.sector, b.count) <==>
              OverlapsRounded(c, b.sector, b.count, a.sector, a.count)
  {
    if c > 0 {
      RoundEnd(c, a.sector, a.count);
      RoundEnd(c, b.sector, b.count);
      StartBeforeEnd(c, a.sector, b.sector + b.count);
      StartBeforeEnd(c, b.sector, a.sector + a.count);
    }
  }

  lemma RegionContains(st: State, r: Request)
    ensures Covered(r) <= Region(st, r)
  {
    hide AlignDown;
    if st.cluster > 0 {
      RoundEnd(st.cluster, r.sector, r.count);
      AlignBounds(r.sector, st.cluster);
      AlignBounds(r.sector + r.count + st.cluster - 1, st.cluster);
    }
  }

  // ---------- what each step keeps ----------

  /** Everything but a submission or an end changes one request's phase and the image. */
  lemma PhaseStep(st: State, l: Label)
    requires Enabled(st, l) && !l.Submit? && !l.Finish? && !l.Fail?
    ensures l.id in st.reqs && l.id in Apply(st, l).reqs && Apply(st, l).inFlight == st.inFlight
    ensures Apply(st, l) == WithPhase(st, l.id, Apply(st, l).reqs[l.id].phase).(overlay := Apply(st, l).overlay)
    ensures !l.Resume? ==> st.reqs[l.id].Tracked() && Apply(st, l).reqs[l.id].Tracked()
  {
    hide MustWait, Allocate, Region, Covered, Visible;
  }

  lemma {:induction false} StepKeepsCount(st: State, l: Label)
    requires Inv(st) && Enabled(st, l)
    ensures Apply(st, l).inFlight == |CorIds(Apply(st, l))|
  {
    hide MustWait, Allocate, Region, Covered, Visible, Serialised, Faithful, CorIds, Restarted, SleepersHaveWaker;
    if l.Submit? {
      SubmitKeepsCount(st, Apply(st, l), l.id, Apply(st, l).reqs[l.id]);
    } else if l.Finish? || l.Fail? {
      DropKeepsCount(st, l.id);
    } else {
      PhaseStep(st, l);
      SameKindsSameCount(st, Apply(st, l), l.id, Apply(st, l).reqs[l.id].phase);
    }
  }

  lemma SubmitKeepsCount(st: State, st': State, id: nat, r: Request)
    requires id !in st.reqs && st'.reqs == st.reqs[id := r]
    ensures |CorIds(st')| == |CorIds(st)| + if r.kind.CopyOnRead? then 1 else 0
  {
    assert CorIds(st') == if r.kind.CopyOnRead? then CorIds(st) + {id} else CorIds(st);
  }

  lemma SameKindsSameCount(st: State, st': State, id: nat, p: Phase)
    requires id in st.reqs && st'.reqs == WithPhase(st, id, p).reqs
    ensures CorIds(st') == CorIds(st)
  {
  }

  lemma DropKeepsCount(st: State, id: nat)
    requires id in st.reqs && st.inFlight == |CorIds(st)|
    ensures Drop(st, id).inFlight == |CorIds(Drop(st, id))|
  {
    if st.reqs[id].kind.CopyOnRead? {
      assert id in CorIds(st);
      assert forall i :: i in Drop(st, id).reqs ==> Drop(st, id).reqs[i].kind == st.reqs[i].kind;
      assert CorIds(Drop(st, id)) == CorIds(st) - {id};
    } else {
      assert CorIds(Drop(st, id)) == CorIds(st);
    }
  }

  /** The end of a request leaves the others as they are, but for those that slept on it. */
  lemma DropKeepsOthers(st: State, id: nat)
    requires id in st.reqs
    ensures forall i :: i in Drop(st, id).reqs <==> i in st.reqs && i != id
    ensures forall i :: i in Drop(st, id).reqs ==>
              Drop(st, id).reqs[i] ==
                if st.reqs[i].phase == Waiting(id) then st.reqs[i].(phase := Woken) else st.reqs[i]
    ensures forall i :: i in Drop(st, id).reqs ==> Drop(st, id).reqs[i].Tracked() == st.reqs[i].Tracked()
  {
  }

  lemma {:induction false} StepKeepsWakers(st: State, l: Label)
    requires Inv(st) && Enabled(st, l)
    ensures SleepersHaveWaker(Apply(st, l))
  {
    hide Allocate, Region, Covered, Visible, Faithful, OverlapsRounded, CorIds, Restarted, Serialised, MustWait;
    if l.Finish? || l.Fail? {
      DropKeepsOthers(st, l.id);
    } else if !l.Submit? {
      PhaseStep(st, l);
    }
  }

  /** A request that enters the tracked list meets no cluster of a tracked copy-on-read
      request, and none of the tracked requests meets a cluster of its own if it is one. */
  lemma EntersSerialised(st: State, st': State, id: nat)
    requires Serialised(st) && st.inFlight == |CorIds(st)| && id in st'.reqs
    requires st'.cluster == st.cluster && st'.reqs - {id} == st.reqs - {id} && st'.reqs[id].Tracked()
    requires var r := st'.reqs[id]; (st.inFlight > 0 || r.kind.CopyOnRead?) ==> !MustWait(st, r.sector, r.count)
    ensures Serialised(st')
  {
    var r := st'.reqs[id];
    forall a, b | a in st'.reqs && b in st'.reqs && a != b && st'.reqs[a].Tracked() && st'.reqs[b].Tracked() &&
                  st'.reqs[a].kind.CopyOnRead?
      ensures !OverlapsRounded(st'.cluster, st'.reqs[b].sector, st'.reqs[b].count, st'.reqs[a].sector,
                               st'.reqs[a].count)
    {
      assert a != id ==> a in st'.reqs - {id} && st.reqs[a] == st'.reqs[a];
      assert b != id ==> b in st'.reqs - {id} && st.reqs[b] == st'.reqs[b];
      if b == id {
        assert a in CorIds(st);
        assert !OverlapsRounded(st.cluster, st.reqs[a].sector, st.reqs[a].count, r.sector, r.count);
        RoundingIsSymmetric(st.cluster, st.reqs[a], r);
      }
    }
  }

  lemma {:induction false} StepKeepsSerialised(st: State, l: Label)
    requires Inv(st) && Enabled(st, l)
    ensures Serialised(Apply(st, l))
  {
    hide Allocate, Region, Covered, Visible, Faithful, OverlapsRounded, CorIds, Restarted, SleepersHaveWaker;
    var st' := Apply(st, l);
    if l.Submit? {
      if st'.reqs[l.id].Tracked() {
        EntersSerialised(st, st', l.id);
      }
    } else if l.Resume? {
      if st'.reqs[l.id].Tracked() {
        EntersSerialised(st, st', l.id);
      }
    } else if l.Finish? || l.Fail? {
      DropKeepsOthers(st, l.id);
    } else {
      PhaseStep(st, l);
    }
  }

  /** The heart of the matter: only a guest write changes what the guest sees. */
  lemma {:induction false} StepKeepsVisible(st: State, l: Label, x: nat)
    requires Inv(st) && Enabled(st, l)
    ensures Visible(Apply(st, l), x) == if l.WriteSector? && l.x == x then l.d else Visible(st, x)
  {
  }

  /** A sector once in the image stays there. */
  lemma StepKeepsAllocated(st: State, l: Label)
    requires Enabled(st, l)
    ensures st.overlay.Keys <= Apply(st, l).overlay.Keys
    ensures l.CopySector? || l.WriteSector? ==> l.x in Apply(st, l).overlay
  {
    hide MustWait, Region, Covered, Restarted;
  }

  lemma {:induction false} WriteMissesRegion(st: State, a: nat, b: nat, x: nat)
    requires Serialised(st) && a in st.reqs && b in st.reqs && a != b
    requires st.reqs[a].Tracked() && st.reqs[b].Tracked() && st.reqs[a].kind.CopyOnRead? && x in Covered(st.reqs[b])
    ensures x !in Region(st, st.reqs[a])
  {
    assert !OverlapsRounded(st.cluster, st.reqs[b].sector, st.reqs[b].count, st.reqs[a].sector, st.reqs[a].count);
  }

  /** A step of one request leaves what the others have buffered accurate. */
  lemma {:induction false} OthersStayFaithful(st: State, l: Label, id: nat)
    requires Inv(st) && Enabled(st, l) && id in st.reqs && id != l.id
    ensures id in Apply(st, l).reqs && Faithful(Apply(st, l), Apply(st, l).reqs[id])
    ensures Apply(st, l).reqs[id] == st.reqs[id] || Apply(st, l).reqs[id] == st.reqs[id].(phase := Woken)
  {
    hide MustWait, Allocate, Serialised, SleepersHaveWaker;
    var st', r := Apply(st, l), st.reqs[id];
    OthersUntouched(st, l, id);
    forall x
      ensures Visible(st', x) == if l.WriteSector? && l.x == x then l.d else Visible(st, x)
    {
      StepKeepsVisible(st, l, x);
    }
    StepKeepsAllocated(st, l);
    if l.WriteSector? && r.kind.CopyOnRead? && r.Tracked() {
      WriteMissesRegion(st, id, l.id, l.x);
      RegionContains(st, r);
    }
    hide Apply, Visible, Covered, Region;
  }

  lemma OthersUntouched(st: State, l: Label, id: nat)
    requires Enabled(st, l) && id in st.reqs && id != l.id
    ensures id in Apply(st, l).reqs
    ensures Apply(st, l).reqs[id] ==
              if (l.Finish? || l.Fail?) && st.reqs[id].phase == Waiting(l.id) then st.reqs[id].(phase := Woken)
                else st.reqs[id]
    ensures forall r :: Region(Apply(st, l), r) == Region(st, r)
  {
    hide MustWait, Allocate, Covered, Visible, Restarted;
    if l.Finish? || l.Fail? {
      DropKeepsOthers(st, l.id);
    }
  }

  lemma {:induction false} OwnStaysFaithful(st: State, l: Label)
    requires Inv(st) && Enabled(st, l) && l.id in Apply(st, l).reqs
    ensures Faithful(Apply(st, l), Apply(st, l).reqs[l.id])
  {
    hide MustWait, Allocate, Serialised;
    var st' := Apply(st, l);
    forall x
      ensures Visible(st', x) == if l.WriteSector? && l.x == x then l.d else Visible(st, x)
    {
      StepKeepsVisible(st, l, x);
    }
    StepKeepsAllocated(st, l);
  }

  lemma {:induction false} StepKeepsInv(st: State, l: Label)
    requires Inv(st) && Enabled(st, l)
    ensures Inv(Apply(st, l))
  {
    hide MustWait, Allocate, Visible, Serialised, Faithful, CorIds, SleepersHaveWaker, Restarted;
    StepKeepsCount(st, l);
    StepKeepsSerialised(st, l);
    StepKeepsWakers(st, l);
    if l.Finish? || l.Fail? {
      DropKeepsOthers(st, l.id);
    }
    forall id | id in Apply(st, l).reqs
      ensures Faithful(Apply(st, l), Apply(st, l).reqs[id])
    {
      if id == l.id {
        OwnStaysFaithful(st, l);
      } else {
        OthersStayFaithful(st, l, id);
      }
    }
  }

  // ---------- whole runs ----------

  ghost predicate Init(st: State) { st.reqs == map[] && st.inFlight == 0 }

  /** Every step of the run is enabled where it is taken. */
  ghost predicate Possible(st: State, run: seq<Label>)
    decreases |run|, 0
  {
    run == [] || (Possible(st, run[..|run| - 1]) && Enabled(After(st, run[..|run| - 1]), run[|run| - 1]))
  }

  ghost function After(st: State, run: seq<Label>): State
    requires Possible(st, run)
    decreases |run|, 1
  {
    if run == [] then st else Apply(After(st, run[..|run| - 1]), run[|run| - 1])
  }

  /** What sector x holds after the guest writes of the run, and nothing else. */
  function GuestWrites(run: seq<Label>, x: nat, before: Data): Data {
    if run == [] then before
    else
      var l := run[|run| - 1];
      if l.WriteSector? && l.x == x then l.d else GuestWrites(run[..|run| - 1], x, before)
  }

  lemma {:induction false} RunKeepsInv(st: State, run: seq<Label>)
    requires Init(st) && Possible(st, run)
    ensures Inv(After(st, run))
    decreases |run|
  {
    hide Enabled, Apply;
    if run != [] {
      RunKeepsInv(st, run[..|run| - 1]);
      StepKeepsInv(After(st, run[..|run| - 1]), run[|run| - 1]);
    }
  }

  /** Main result: in every interleaving the guest sees exactly what guest writes put there;
      copy-on-read never shows. */
  lemma {:induction false} OnlyGuestWritesShow(st: State, run: seq<Label>, x: nat)
    requires Init(st) && Possible(st, run)
    ensures Visible(After(st, run), x) == GuestWrites(run, x, Visible(st, x))
    decreases |run|
  {
    hide Enabled, Apply, Visible;
    if run != [] {
      var before := run[..|run| - 1];
      OnlyGuestWritesShow(st, before, x);
      RunKeepsInv(st, before);
      StepKeepsVisible(After(st, before), run[|run| - 1], x);
    }
  }

  /** Main result: a copy-on-read request, however it was interleaved, returns the guest's disk
      as it stands when the request completes. */
  lemma {:induction false} CopyOnReadReturnsDisk(st: State, run: seq<Label>, id: nat, result: seq<Data>)
    requires Init(st) && Possible(st, run + [Finish(id, result)])
    requires Possible(st, run) && id in After(st, run).reqs && After(st, run).reqs[id].kind.CopyOnRead?
    ensures var r := After(st, run).reqs[id];
            |result| == r.count &&
            forall i :: 0 <= i < r.count ==> result[i] == GuestWrites(run, r.sector + i, Visible(st, r.sector + i))
  {
    hide Enabled, Inv, Visible;
    var full := run + [Finish(id, result)];
    assert full[..|full| - 1] == run;
    RunKeepsInv(st, run);
    var now := After(st, run);
    var r := now.reqs[id];
    FinishDelivers(now, id, result);
    forall i | 0 <= i < r.count
      ensures result[i] == GuestWrites(run, r.sector + i, Visible(st, r.sector + i))
    {
      OnlyGuestWritesShow(st, run, r.sector + i);
    }
  }

  /** A copy-on-read request hands over what the guest sees at that moment. */
  lemma FinishDelivers(st: State, id: nat, result: seq<Data>)
    requires Inv(st) && Enabled(st, Finish(id, result)) && st.reqs[id].kind.CopyOnRead?
    ensures var r := st.reqs[id];
            |result| == r.count && forall i :: 0 <= i < r.count ==> result[i] == Visible(st, r.sector + i)
  {
    hide Serialised, CorIds, SleepersHaveWaker, Visible;
    var r := st.reqs[id];
    assert Faithful(st, r);
    RegionContains(st, r);
    forall i | 0 <= i < r.count
      ensures result[i] == Visible(st, r.sector + i)
    {
      assert r.sector + i in Covered(r);
    }
  }

  /** Serialisation over every run, in the form the source comment gives it. */
  lemma {:induction false} ClustersAreExclusive(st: State, run: seq<Label>, a: nat, b: nat, x: nat)
    requires Init(st) && Possible(st, run)
    requires var now := After(st, run);
             a in now.reqs && b in now.reqs && a != b && now.reqs[a].Tracked() && now.reqs[b].Tracked() &&
             now.reqs[a].kind.CopyOnRead? && x in Covered(now.reqs[b])
    ensures x !in Region(After(st, run), After(st, run).reqs[a])
  {
    RunKeepsInv(st, run);
    WriteMissesRegion(After(st, run), a, b, x);
  }

  /** A step the tracked request `id` can take. */
  lemma TrackedCanMove(st: State, id: nat) returns (l: Label)
    requires Inv(st) && id in st.reqs && st.reqs[id].Tracked()
    ensures Enabled(st, l) && !l.Submit? && !l.Fail? && l.id == id && Apply(st, l) != st
  {
    hide MustWait, Allocate, Serialised, CorIds, Visible;
    var r := st.reqs[id];
    assert Faithful(st, r);
    RegionContains(st, r);
    match r.phase
    case Started => l := Begin(id, false);
    case Reading(got) =>
      if Covered(r) <= got.Keys {
        l := Finish(id, seq(r.count, i requires 0 <= i < r.count => got[r.sector + i]));
      } else {
        var x :| x in Covered(r) && x !in got.Keys;
        l := ReadSector(id, x);
      }
    case Filling(got) =>
      if got.Keys == Region(st, r) {
        l := StartCopy(id);
      } else {
        var x :| x in Region(st, r) && x !in got.Keys;
        l := ReadSector(id, x);
      }
    case Copying(bounce, left) =>
      if x :| x in left {
        l := CopySector(id, x, {});
      } else {
        l := Finish(id, seq(r.count, i requires 0 <= i < r.count => bounce[r.sector + i]));
      }
    case Writing(left) =>
      if x :| x in left {
        l := WriteSector(id, x, r.data[x - r.sector], {});
      } else {
        l := Finish(id, []);
      }
  }

  /** A sleeper sleeps on a tracked request, which can move on; a woken request can run. So some
      request can always move on: no wake-up is lost and the wait loop cannot deadlock. */
  lemma {:induction false} NeverStuck(st: State)
    requires Inv(st) && st.reqs != map[]
    ensures exists l :: Enabled(st, l) && !l.Submit? && !l.Fail? && Apply(st, l) != st
  {
    hide Faithful, Serialised, CorIds;
    if id :| id in st.reqs && st.reqs[id].Tracked() {
      var l := TrackedCanMove(st, id);
    } else {
      var id :| id in st.reqs;
      assert st.reqs[id].phase.Woken?;
      assert !MustWait(st, st.reqs[id].sector, st.reqs[id].count);
      var l := Resume(id, 0);
      assert Enabled(st, l) && Apply(st, l).reqs[id].phase == Started;
    }
  }

  /** In every run: a sleeper's waker is tracked and can move, and when it leaves the sleeper is
      woken and may run. */
  lemma {:induction false} SleepersAreWoken(st: State, run: seq<Label>, id: nat)
    requires Init(st) && Possible(st, run) && id in After(st, run).reqs && After(st, run).reqs[id].phase.Waiting?
    ensures var now, on := After(st, run), After(st, run).reqs[id].phase.on;
            on in now.reqs && now.reqs[on].Tracked() && on != id &&
            Drop(now, on).reqs[id].phase.Woken? && exists next :: Enabled(Drop(now, on), Resume(id, next))
  {
    hide Possible, After;
    RunKeepsInv(st, run);
    var now, on := After(st, run), After(st, run).reqs[id].phase.on;
    DropKeepsOthers(now, on);
    var later, r := Drop(now, on), Drop(now, on).reqs[id];
    if MustWait(later, r.sector, r.count) {
      var next :| next in later.reqs && Blocks(later, next, r.sector, r.count);
      assert Enabled(later, Resume(id, next));
    } else {
      assert Enabled(later, Resume(id, 0));
    }
  }

  // ---------- the code between two yields ----------

  /** The list holds each tracked request once. */
  ghost predicate Listed(tracked: seq<nat>, reqs: map<nat, Request>) {
    && (forall id :: id in tracked <==> id in reqs && reqs[id].Tracked())
    && (forall i, j :: 0 <= i < j < |tracked| ==> tracked[i] != tracked[j])
  }

  lemma RemoveListed(tracked: seq<nat>, reqs: map<nat, Request>, i: nat, now: map<nat, Request>)
    requires Listed(tracked, reqs) && i < |tracked|
    requires forall id :: id in now <==> id in reqs && id != tracked[i]
    requires forall id :: id in now ==> now[id].Tracked() == reqs[id].Tracked()
    ensures Listed(tracked[..i] + tracked[i + 1..], now)
  {
    var left := tracked[..i] + tracked[i + 1..];
    assert forall j :: 0 <= j < |left| ==> left[j] == if j < i then tracked[j] else tracked[j + 1];
    forall id
      ensures id in left <==> id in tracked && id != tracked[i]
    {
      if id in tracked && id != tracked[i] {
        var j :| 0 <= j < |tracked| && tracked[j] == id;
        assert left[if j < i then j else j - 1] == id;
      }
    }
  }

  lemma WhereListed(tracked: seq<nat>, reqs: map<nat, Request>, id: nat)
    requires Listed(tracked, reqs) && id in reqs && reqs[id].Tracked()
    ensures exists i :: 0 <= i < |tracked| && tracked[i] == id
  {
    assert id in tracked;
  }

  /** The fields of BlockDriverState the protocol uses; `tracked` is the QLIST of requests,
      newest first. */
  class BlockDriverState {
    const total: nat
    const cluster: nat
    const backing: map<nat, Data>
    var overlay: map<nat, Data>
    var reqs: map<nat, Request>
    var tracked: seq<nat>
    var copyOnReadInFlight: nat
    var hasMedium: bool
    var readOnly: bool

    ghost predicate Valid()
      reads this
    {
      Listed(tracked, reqs)
    }

    ghost function Snapshot(): State
      reads this
    {
      State(total, cluster, backing, overlay, reqs, copyOnReadInFlight)
    }

    /** The inner loop of wait_for_overlapping_requests: the first request found to wait for. */
    method FindOverlap(sector: nat, count: nat) returns (found: bool, on: nat)
      requires Valid()
      ensures found == MustWait(Snapshot(), sector, count)
      ensures found ==> Blocks(Snapshot(), on, sector, count)
    {
      var s, n := RoundStart(cluster, sector), RoundCount(cluster, sector, count);
      found, on := false, 0;
      for i := 0 to |tracked|
        invariant forall j :: 0 <= j < i ==> !Overlaps(reqs[tracked[j]].sector, reqs[tracked[j]].count, s, n)
      {
        if Overlaps(reqs[tracked[i]].sector, reqs[tracked[i]].count, s, n) {
          return true, tracked[i];
        }
      }
    }

    /** The head of bdrv_co_do_readv and bdrv_co_do_writev, up to the first yield. */
    method Enter(id: nat, kind: Kind, sector: nat, count: nat, data: seq<Data>) returns (ret: int, ghost on: nat)
      requires Valid() && id !in reqs && (kind.Write? ==> |data| == count)
      modifies this
      ensures Valid() && hasMedium == old(hasMedium) && readOnly == old(readOnly)
      ensures ret == if !hasMedium then -ENOMEDIUM
                else if kind.Write? && readOnly then -EACCES else if sector + count > total then -EIO else 0
      ensures ret != 0 ==> Snapshot() == old(Snapshot())
      ensures ret == 0 ==> Enabled(old(Snapshot()), Submit(id, kind, sector, count, data, on)) &&
                           Snapshot() == Apply(old(Snapshot()), Submit(id, kind, sector, count, data, on))
    {
      hide MustWait, Blocks;
      on := 0;
      if !hasMedium {
        return -ENOMEDIUM, 0;
      }
      if kind.Write? && readOnly {
        return -EACCES, 0;
      }
      if sector + count > total {
        return -EIO, 0;
      }
      if kind.CopyOnRead? {
        copyOnReadInFlight := copyOnReadInFlight + 1;
      }
      on := SomeBlocker(old(Snapshot()), sector, count);
      var wait, who := false, 0;
      if copyOnReadInFlight != 0 {
        wait, who := FindOverlap(sector, count);
        SameRequestsSameWait(Snapshot(), old(Snapshot()), sector, count, who);
        if wait {
          on := who;
        }
      }
      reqs := reqs[id := Request(kind, sector, count, data, if wait then Waiting(who) else Started)];
      if !wait {
        tracked := [id] + tracked;
      }
      ret := 0;
    }

    /** The scan repeated when the queue a request sleeps on has been restarted. */
    method Wake(id: nat) returns (ghost on: nat)
      requires Valid() && id in reqs && reqs[id].phase.Woken?
      modifies this`reqs, this`tracked
      ensures Valid() && Enabled(old(Snapshot()), Resume(id, on)) &&
              Snapshot() == Apply(old(Snapshot()), Resume(id, on))
    {
      hide MustWait, Blocks;
      var wait, who := FindOverlap(reqs[id].sector, reqs[id].count);
      on := who;
      reqs := reqs[id := reqs[id].(phase := if wait then Waiting(who) else Started)];
      if !wait {
        tracked := [id] + tracked;
      }
    }

    /** tracked_request_end, and the counter lowered after it. */
    method Leave(id: nat)
      requires Valid() && Inv(Snapshot()) && id in reqs && reqs[id].Tracked()
      modifies this`reqs, this`tracked, this`copyOnReadInFlight
      ensures Valid() && Snapshot() == Apply(old(Snapshot()), Fail(id))
    {
      hide Inv, Restarted, CorIds, Listed;
      if reqs[id].kind.CopyOnRead? {
        CountPositive(Snapshot(), id);
      }
      DropKeepsOthers(Snapshot(), id);
      WhereListed(tracked, reqs, id);
      var i :| 0 <= i < |tracked| && tracked[i] == id;
      RemoveListed(tracked, reqs, i, Restarted(reqs - {id}, id));
      tracked := tracked[..i] + tracked[i + 1..];
      if reqs[id].kind.CopyOnRead? {
        copyOnReadInFlight := copyOnReadInFlight - 1;
      }
      reqs := Restarted(reqs - {id}, id);
    }
  }

  lemma CountPositive(st: State, id: nat)
    requires Inv(st) && id in st.reqs && st.reqs[id].kind.CopyOnRead?
    ensures st.inFlight > 0
  {
    assert id in CorIds(st);
  }

  lemma SameRequestsSameWait(st: State, st': State, sector: nat, count: nat, on: nat)
    requires st.reqs == st'.reqs && st.cluster == st'.cluster
    ensures MustWait(st, sector, count) == MustWait(st', sector, count)
    ensures Blocks(st, on, sector, count) == Blocks(st', on, sector, count)
  {
    if MustWait(st, sector, count) {
      var id :| id in st.reqs && Blocks(st, id, sector, count);
      assert Blocks(st', id, sector, count);
    }
    if MustWait(st', sector, count) {
      var id :| id in st'.reqs && Blocks(st', id, sector, count);
      assert Blocks(st, id, sector, count);
    }
  }

  lemma SomeBlocker(st: State, sector: nat, count: nat) returns (on: nat)
    ensures MustWait(st, sector, count) ==> Blocks(st, on, sector, count)
  {
    on := 0;
    if MustWait(st, sector, count) {
      on :| on in st.reqs && Blocks(st, on, sector, count);
    }
  }
}
