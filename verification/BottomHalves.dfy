// Bottom halves (async.c): deferred callbacks in a linked list that callbacks may change, also
// through polls nested inside polls. Deleted entries are unlinked only when the outermost poll ends.
module BottomHalves {
  datatype Link = Null | To(id: nat)

  datatype Bh = Bh(next: Link, scheduled: bool, idle: bool, deleted: bool)

  /** What happened, in order. Scheduled is noted only when the call took effect, with the kind asked for; Ran with
      the kind it ran as and the depth of the poll that called it; Dropped when a pending callback is given up by a
      cancel, a delete or a free. */
  datatype Event =
    | Scheduled(id: nat, idle: bool)
    | Ran(id: nat, idle: bool, depth: nat)
    | Dropped(id: nat)
    | Deleted(id: nat)

  /** What a callback may do. A nested poll carries what each callback it runs will do, in turn. */
  datatype Act =
    | New
    | Schedule(id: nat)
    | ScheduleIdle(id: nat)
    | Cancel(id: nat)
    | Delete(id: nat)
    | Poll(callbacks: seq<Script>)

  datatype Script = Script(acts: seq<Act>)

  // ---------- the list ----------

  function LinkAt(list: seq<nat>, i: nat): Link { if i < |list| then To(list[i]) else Null }

  ghost predicate Distinct(list: seq<nat>) { forall i, j :: 0 <= i < j < |list| ==> list[i] != list[j] }

  /** first and the next fields thread the nodes in the order of list, and no others exist. */
  ghost predicate Threaded(first: Link, nodes: map<nat, Bh>, list: seq<nat>) {
    first == LinkAt(list, 0) && Distinct(list) && Lists(list, nodes) && Linked(nodes, list)
  }

  ghost predicate Lists(list: seq<nat>, nodes: map<nat, Bh>) { forall id: nat :: id in nodes <==> id in list }

  ghost predicate Linked(nodes: map<nat, Bh>, list: seq<nat>) {
    forall i :: 0 <= i < |list| ==> list[i] in nodes && nodes[list[i]].next == LinkAt(list, i + 1)
  }

  lemma NewListed(nodes: map<nat, Bh>, list: seq<nat>, id: nat, bh: Bh)
    requires Lists(list, nodes) && Distinct(list) && id !in nodes
    ensures Lists([id] + list, nodes[id := bh]) && Distinct([id] + list)
  {
    assert id !in list;
    forall x: nat
      ensures x in [id] + list <==> x == id || x in list
    {
    }
  }

  lemma NewLinked(first: Link, nodes: map<nat, Bh>, list: seq<nat>, id: nat)
    requires Linked(nodes, list) && first == LinkAt(list, 0) && id !in nodes
    ensures Linked(nodes[id := Bh(first, false, false, false)], [id] + list) && To(id) == LinkAt([id] + list, 0)
  {
    var now, more := nodes[id := Bh(first, false, false, false)], [id] + list;
    forall i | 0 <= i < |more|
      ensures more[i] in now && now[more[i]].next == LinkAt(more, i + 1)
    {
      if i > 0 {
        assert more[i] == list[i - 1];
      }
    }
  }

  lemma ThreadNew(first: Link, nodes: map<nat, Bh>, list: seq<nat>, id: nat)
    requires Threaded(first, nodes, list) && id !in nodes
    ensures Threaded(To(id), nodes[id := Bh(first, false, false, false)], [id] + list)
  {
    hide Lists, Linked, Distinct, LinkAt;
    NewListed(nodes, list, id, Bh(first, false, false, false));
    NewLinked(first, nodes, list, id);
  }

  lemma ThreadFlags(first: Link, nodes: map<nat, Bh>, list: seq<nat>, id: nat, bh: Bh)
    requires Threaded(first, nodes, list) && id in nodes && bh.next == nodes[id].next
    ensures Threaded(first, nodes[id := bh], list)
  {
    hide Distinct, LinkAt;
    assert Lists(list, nodes[id := bh]) by {
      hide Linked;
    }
    assert Linked(nodes[id := bh], list) by {
      hide Lists;
    }
  }

  // ---------- the account of schedules and callbacks ----------

  function Weight(e: Event, id: nat): int {
    if e.id != id then 0 else if e.Scheduled? then 1 else if e.Ran? || e.Dropped? then -1 else 0
  }

  /** Schedules of id that took effect, less the callbacks run and the ones given up. */
  function Balance(log: seq<Event>, id: nat): int {
    if log == [] then 0 else Balance(log[..|log| - 1], id) + Weight(log[|log| - 1], id)
  }

  function Pending(nodes: map<nat, Bh>, id: nat): int { if id in nodes && nodes[id].scheduled then 1 else 0 }

  ghost predicate AlwaysBalanced(log: seq<Event>) {
    forall n: nat, id: nat :: n <= |log| ==> 0 <= Balance(log[..n], id) <= 1
  }

  ghost predicate NoRunAfterDelete(log: seq<Event>) {
    forall i, j :: 0 <= i < j < |log| && log[i].Deleted? && log[j].Ran? ==> log[j].id != log[i].id
  }

  ghost predicate Accounted(log: seq<Event>, nodes: map<nat, Bh>, nextId: nat) {
    (forall id: nat :: id in nodes ==> id < nextId) &&
    (forall id: nat :: Balance(log, id) == Pending(nodes, id)) &&
    (forall id: nat :: Deleted(id) in log ==> id < nextId) &&
    (forall id: nat :: id in nodes ==> (nodes[id].deleted <==> Deleted(id) in log)) &&
    AlwaysBalanced(log) && NoRunAfterDelete(log)
  }

  lemma BalanceAppend(log: seq<Event>, e: Event, id: nat)
    ensures Balance(log + [e], id) == Balance(log, id) + Weight(e, id)
  {
    assert (log + [e])[..|log + [e]| - 1] == log;
  }

  /** One event and the change of flags it stands for. */
  lemma Note(log: seq<Event>, nodes: map<nat, Bh>, nextId: nat, e: Event, now: map<nat, Bh>)
    requires Accounted(log, nodes, nextId)
    requires forall id: nat :: id in now ==> id in nodes && (now[id].deleted <==> nodes[id].deleted || e == Deleted(id))
    requires forall id: nat :: Pending(now, id) == Pending(nodes, id) + Weight(e, id)
    requires e.Ran? || e.Deleted? ==> e.id in nodes
    requires e.Ran? ==> !nodes[e.id].deleted
    ensures Accounted(log + [e], now, nextId)
  {
    hide Balance, Pending, Weight;
    var after := log + [e];
    forall id: nat
      ensures Balance(after, id) == Pending(now, id)
    {
      BalanceAppend(log, e, id);
    }
    forall n: nat, id: nat | n <= |after|
      ensures 0 <= Balance(after[..n], id) <= 1
    {
      if n <= |log| {
        assert after[..n] == log[..n];
      } else {
        assert after[..n] == after;
        PendingIsBit(now, id);
      }
    }
  }

  lemma PendingIsBit(nodes: map<nat, Bh>, id: nat)
    ensures 0 <= Pending(nodes, id) <= 1
  {
  }

  /** Flags change without anything to account for. */
  lemma Quietly(log: seq<Event>, nodes: map<nat, Bh>, nextId: nat, now: map<nat, Bh>, next: nat)
    requires Accounted(log, nodes, nextId) && nextId <= next
    requires forall id: nat :: id in now ==>
               if id in nodes then now[id].deleted == nodes[id].deleted else nextId <= id < next && !now[id].deleted
    requires forall id: nat :: Pending(now, id) == Pending(nodes, id)
    ensures Accounted(log, now, next)
  {
  }

  // ---------- the kind a callback runs as ----------

  /** What the last schedule of id that took effect asked for. */
  function LastKind(log: seq<Event>, id: nat): bool {
    if log == [] then false
    else
      var e := log[|log| - 1];
      if e.Scheduled? && e.id == id then e.idle else LastKind(log[..|log| - 1], id)
  }

  ghost predicate RunsAsAsked(log: seq<Event>, n: nat)
    requires n < |log|
  {
    log[n].Ran? ==> log[n].idle == LastKind(log[..n], log[n].id)
  }

  /** A pending callback is of the kind last asked for, and each that ran was. */
  ghost predicate Kinds(log: seq<Event>, nodes: map<nat, Bh>) {
    (forall id: nat :: id in nodes && nodes[id].scheduled ==> nodes[id].idle == LastKind(log, id)) &&
    forall n: nat :: n < |log| ==> RunsAsAsked(log, n)
  }

  lemma LastKindAppend(log: seq<Event>, e: Event, id: nat)
    ensures LastKind(log + [e], id) == if e.Scheduled? && e.id == id then e.idle else LastKind(log, id)
  {
    assert (log + [e])[..|log + [e]| - 1] == log;
  }

  lemma KindNote(log: seq<Event>, nodes: map<nat, Bh>, e: Event, now: map<nat, Bh>)
    requires Kinds(log, nodes)
    requires forall id: nat :: id in now && now[id].scheduled ==>
               if e.Scheduled? && e.id == id then now[id].idle == e.idle
               else id in nodes && nodes[id].scheduled && nodes[id].idle == now[id].idle
    requires e.Ran? ==> e.id in nodes && nodes[e.id].scheduled && nodes[e.id].idle == e.idle
    ensures Kinds(log + [e], now)
  {
    hide LastKind;
    var after := log + [e];
    forall id: nat | id in now && now[id].scheduled
      ensures now[id].idle == LastKind(after, id)
    {
      LastKindAppend(log, e, id);
    }
    forall n: nat | n < |after|
      ensures RunsAsAsked(after, n)
    {
      if n < |log| {
        assert RunsAsAsked(log, n) && after[..n] == log[..n];
      } else {
        assert after[..n] == log;
      }
    }
  }

  lemma KindsQuietly(log: seq<Event>, nodes: map<nat, Bh>, now: map<nat, Bh>)
    requires Kinds(log, nodes)
    requires forall id: nat :: id in now && now[id].scheduled ==>
               id in nodes && nodes[id].scheduled && nodes[id].idle == now[id].idle
    ensures Kinds(log, now)
  {
  }

  lemma FreeKinds(log: seq<Event>, was: map<nat, Bh>, nodes: map<nat, Bh>, id: nat)
    requires Kinds(log, was) && id in nodes
    requires forall x: nat :: x in nodes ==>
               x in was && nodes[x].scheduled == was[x].scheduled && nodes[x].idle == was[x].idle
    ensures Kinds(if nodes[id].scheduled then log + [Dropped(id)] else log, nodes - {id})
  {
    hide Kinds;
    if nodes[id].scheduled {
      KindNote(log, was, Dropped(id), nodes - {id});
    } else {
      KindsQuietly(log, was, nodes - {id});
    }
  }

  /** After the first lo events a poll of this depth called a callback that was not idle. */
  ghost predicate CalledBusy(log: seq<Event>, lo: nat, depth: nat) {
    exists n :: lo <= n < |log| && BusyAt(log[n], depth)
  }

  predicate BusyAt(e: Event, depth: nat) { e.Ran? && e.depth == depth && !e.idle }

  /** After the first lo events only polls below this depth called anything. */
  ghost predicate Deeper(log: seq<Event>, lo: nat, depth: nat) {
    forall n :: lo <= n < |log| && log[n].Ran? ==> depth < log[n].depth
  }

  /** The events of one visit: the call itself, if it was made, and then what deeper polls called. */
  ghost predicate VisitLog(past: seq<Event>, log: seq<Event>, depth: nat, called: bool, quick: bool) {
    past <= log &&
    if called then
      |past| < |log| && log[|past|].Ran? && log[|past|].depth == depth && log[|past|].idle == !quick &&
      Deeper(log, |past| + 1, depth)
    else log == past && !quick
  }

  lemma CalledStep(past: seq<Event>, log: seq<Event>, lo: nat, depth: nat, called: bool, quick: bool)
    requires lo <= |past| && VisitLog(past, log, depth, called, quick)
    ensures CalledBusy(log, lo, depth) <==> CalledBusy(past, lo, depth) || quick
    ensures 0 < depth && Deeper(past, lo, depth - 1) ==> Deeper(log, lo, depth - 1)
  {
    if CalledBusy(past, lo, depth) {
      var n :| lo <= n < |past| && BusyAt(past[n], depth);
      assert log[n] == past[n];
    }
    if quick {
      assert BusyAt(log[|past|], depth);
    }
    if CalledBusy(log, lo, depth) {
      var n :| lo <= n < |log| && BusyAt(log[n], depth);
      if n < |past| {
        assert past[n] == log[n];
      }
    }
  }

  lemma NothingCalled(past: seq<Event>, log: seq<Event>, lo: nat)
    requires lo <= |past| && past <= log && NoneRan(log, |past|, |log|)
    ensures forall depth: nat :: CalledBusy(log, lo, depth) <==> CalledBusy(past, lo, depth)
    ensures forall depth: nat :: Deeper(past, lo, depth) ==> Deeper(log, lo, depth)
  {
    forall depth: nat
      ensures CalledBusy(log, lo, depth) <==> CalledBusy(past, lo, depth)
    {
      if CalledBusy(past, lo, depth) {
        var n :| lo <= n < |past| && BusyAt(past[n], depth);
        assert log[n] == past[n];
      }
      if CalledBusy(log, lo, depth) {
        var n :| lo <= n < |log| && BusyAt(log[n], depth);
        assert past[n] == log[n];
      }
    }
  }

  /** Between two runs of a callback it was scheduled again. */
  lemma RunsNeedSchedules(log: seq<Event>, i: nat, j: nat, id: nat) returns (k: nat)
    requires AlwaysBalanced(log) && i < j < |log| && log[i].Ran? && log[j].Ran? && log[i].id == log[j].id == id
    ensures i < k < j && log[k].Scheduled? && log[k].id == id
  {
    assert log[..i + 1] == log[..i] + [log[i]];
    BalanceAppend(log[..i], log[i], id);
    assert log[..j + 1] == log[..j] + [log[j]];
    BalanceAppend(log[..j], log[j], id);
    assert Balance(log[..i], id) <= 1 && 0 <= Balance(log[..j + 1], id);
    k := Rise(log, i + 1, j, id);
  }

  lemma {:induction false} Rise(log: seq<Event>, lo: nat, hi: nat, id: nat) returns (k: nat)
    requires lo <= hi <= |log| && Balance(log[..lo], id) < Balance(log[..hi], id)
    ensures lo <= k < hi && log[k].Scheduled? && log[k].id == id
    decreases hi
  {
    if lo == hi {
      k := lo;
    } else {
      assert log[..hi] == log[..hi - 1] + [log[hi - 1]];
      BalanceAppend(log[..hi - 1], log[hi - 1], id);
      if log[hi - 1].Scheduled? && log[hi - 1].id == id {
        k := hi - 1;
      } else {
        k := Rise(log, lo, hi - 1, id);
      }
    }
  }

  // ---------- the code ----------

  class Context {
    var first: Link
    var nodes: map<nat, Bh>
    var nesting: nat
    var nextId: nat
    ghost var list: seq<nat>
    ghost var log: seq<Event>

    ghost predicate Valid()
      reads this
    {
      Threaded(first, nodes, list) && Accounted(log, nodes, nextId) && Kinds(log, nodes)
    }

    constructor ()
      ensures Valid() && list == [] && log == [] && nesting == 0
    {
      first, nodes, nesting, nextId, list, log := Null, map[], 0, 0, [], [];
    }

    /** qemu_bh_new */
    method BhNew() returns (id: nat)
      requires Valid()
      modifies this
      ensures Valid() && nesting == old(nesting) && list == [id] + old(list) && log == old(log)
      ensures id !in old(nodes) && nodes == old(nodes)[id := Bh(old(first), false, false, false)]
    {
      hide Threaded, Accounted, Kinds;
      id := nextId;
      Fresh(log, nodes, nextId);
      ThreadNew(first, nodes, list, id);
      Quietly(log, nodes, nextId, nodes[id := Bh(first, false, false, false)], nextId + 1);
      KindsQuietly(log, nodes, nodes[id := Bh(first, false, false, false)]);
      nodes := nodes[id := Bh(first, false, false, false)];
      first := To(id);
      nextId := nextId + 1;
      list := [id] + list;
    }

    /** qemu_bh_schedule and qemu_bh_schedule_idle */
    method BhSchedule(id: nat, idle: bool)
      requires Valid() && id in nodes
      modifies this`nodes, this`log
      ensures Valid()
      ensures old(nodes[id].scheduled) ==> nodes == old(nodes) && log == old(log)
      ensures !old(nodes[id].scheduled) ==>
                nodes == old(nodes)[id := old(nodes[id]).(scheduled := true, idle := idle)] &&
                log == old(log) + [Scheduled(id, idle)]
    {
      hide Threaded, Accounted, Kinds;
      if nodes[id].scheduled {
        return;
      }
      var bh := nodes[id].(scheduled := true, idle := idle);
      ThreadFlags(first, nodes, list, id, bh);
      Note(log, nodes, nextId, Scheduled(id, idle), nodes[id := bh]);
      KindNote(log, nodes, Scheduled(id, idle), nodes[id := bh]);
      nodes := nodes[id := bh];
      log := log + [Scheduled(id, idle)];
    }

    /** qemu_bh_cancel */
    method BhCancel(id: nat)
      requires Valid() && id in nodes
      modifies this`nodes, this`log
      ensures Valid() && nodes == old(nodes)[id := old(nodes[id]).(scheduled := false)]
      ensures log == if old(nodes[id].scheduled) then old(log) + [Dropped(id)] else old(log)
    {
      hide Threaded, Accounted, Kinds;
      var bh := nodes[id].(scheduled := false);
      ThreadFlags(first, nodes, list, id, bh);
      if nodes[id].scheduled {
        Note(log, nodes, nextId, Dropped(id), nodes[id := bh]);
        KindNote(log, nodes, Dropped(id), nodes[id := bh]);
        log := log + [Dropped(id)];
      } else {
        assert nodes[id := bh] == nodes;
      }
      nodes := nodes[id := bh];
    }

    /** qemu_bh_delete: the node stays linked. */
    method BhDelete(id: nat)
      requires Valid() && id in nodes
      modifies this`nodes, this`log
      ensures Valid() && nodes == old(nodes)[id := old(nodes[id]).(scheduled := false, deleted := true)]
      ensures log == (if old(nodes[id].scheduled) then old(log) + [Dropped(id)] else old(log)) + [Deleted(id)]
    {
      hide Threaded, Accounted, Kinds;
      BhCancel(id);
      var bh := nodes[id].(deleted := true);
      ThreadFlags(first, nodes, list, id, bh);
      Note(log, nodes, nextId, Deleted(id), nodes[id := bh]);
      KindNote(log, nodes, Deleted(id), nodes[id := bh]);
      nodes := nodes[id := bh];
      log := log + [Deleted(id)];
    }

    /** One thing a callback does. A handle that no longer exists is not used. */
    method RunAct(a: Act)
      requires Valid()
      modifies this
      ensures Valid() && nesting == old(nesting) && (0 < nesting ==> Extends(list, old(list))) && old(log) <= log
      ensures Tended(old(nodes), |old(log)|, nodes, log)
      ensures if a.Poll? then Served(old(nodes), |old(log)|, log) else NoneRan(log, |old(log)|, |log|)
      ensures Deeper(log, |old(log)|, nesting)
      decreases a, 3
    {
      hide Threaded, Accounted, Kinds;
      match a
      case New =>
        var id := BhNew();
      case Schedule(id) =>
        if id in nodes {
          BhSchedule(id, false);
        }
      case ScheduleIdle(id) =>
        if id in nodes {
          BhSchedule(id, true);
        }
      case Cancel(id) =>
        if id in nodes {
          BhCancel(id);
          DroppedIsHandled(old(nodes), old(log), id, log);
        }
      case Delete(id) =>
        if id in nodes {
          BhDelete(id);
          DroppedIsHandled(old(nodes), old(log), id, log);
        }
      case Poll(_) =>
        var _, _, _ := BhPoll(a);
    }

    /** A callback, as the sequence of what it does. */
    method RunScript(s: Script)
      requires Valid() && 0 < nesting
      modifies this
      ensures Valid() && nesting == old(nesting) && Extends(list, old(list)) && old(log) <= log
      ensures Tended(old(nodes), |old(log)|, nodes, log) && Deeper(log, |old(log)|, nesting)
      decreases s, 0
    {
      hide Threaded, Accounted, Kinds, Tended, Served;
      NothingYet(nodes, log);
      for i := 0 to |s.acts|
        invariant Valid() && nesting == old(nesting) && Extends(list, old(list)) && old(log) <= log
        invariant Tended(old(nodes), |old(log)|, nodes, log) && Deeper(log, |old(log)|, nesting)
      {
        ghost var mid, past := nodes, log;
        RunAct(s.acts[i]);
        TendedMore(old(nodes), old(log), mid, past, nodes, log);
      }
    }

    /** qemu_bh_poll. full is the list at the end of the walk: the nodes there at the start, and
        before them those created meanwhile. Nothing is unlinked under an active walk; the outermost
        poll leaves exactly the nodes never deleted, in order. Whatever the callbacks do, every node
        ready at the start has its callback called or given up before the end. */
    method BhPoll(p: Act) returns (ret: bool, ghost ran: seq<nat>, ghost full: seq<nat>)
      requires Valid() && p.Poll?
      modifies this
      ensures Valid() && nesting == old(nesting) && Extends(full, old(list)) && old(log) <= log
      ensures 0 < nesting ==> list == full
      ensures 0 == nesting ==> list == Survivors(full, log)
      ensures Served(old(nodes), |old(log)|, log)
      ensures ret <==> CalledBusy(log, |old(log)|, nesting + 1)
      ensures Deeper(log, |old(log)|, nesting)
      ensures p.callbacks == [] ==>
                full == old(list) && ran == Ready(old(list), old(nodes)) && (ret <==> AnyBusy(ran, old(nodes)))
      decreases p, 2
    {
      hide Threaded, Accounted, Kinds, Extends, Ready, AnyBusy, Survivors, Quiet, Walking, Tended, Served, ServedUpTo;
      nesting := nesting + 1;
      ret, ran := false, [];
      var k := 0;
      var bh := first;
      ghost var rest := |list|;
      WalkStart(first, nodes, list, log);
      NothingYet(nodes, log);
      ServedNone(list, nodes, log);
      while bh != Null
        invariant Valid() && nesting == old(nesting) + 1 && 0 <= rest &&
                  Walking(old(list), old(log), list, log, rest, bh)
        invariant Tended(old(nodes), |old(log)|, nodes, log) && rest <= |old(list)|
        invariant ServedUpTo(old(list), |old(list)| - rest, old(nodes), |old(log)|, log)
        invariant Deeper(log, |old(log)|, old(nesting)) && (ret <==> CalledBusy(log, |old(log)|, nesting))
        invariant p.callbacks == [] ==> Quiet(old(list), old(nodes), list, nodes, rest, ran, ret)
        decreases rest
      {
        var id := bh.id;
        WalkHere(old(list), old(log), first, nodes, list, log, rest, bh);
        var next := nodes[id].next;
        if p.callbacks == [] {
          QuietStep(old(list), old(nodes), list, nodes, rest, ran, ret, id);
        }
        ghost var before, mid, past := list, nodes, log;
        var called, quick := Visit(p, k, id);
        TendedMore(old(nodes), old(log), mid, past, nodes, log);
        ServedNext(old(list), |old(list)| - rest, old(nodes), old(log), mid, past, nodes, log, id, called);
        if called {
          k := k + 1;
          ran := ran + [id];
        }
        ret := ret || quick;
        CalledStep(past, log, |old(log)|, nesting, called, quick);
        WalkStep(old(list), old(log), before, past, list, log, rest, bh, next);
        bh := next;
        rest := rest - 1;
      }
      WalkEnd(old(list), old(log), list, log, rest, bh);
      if p.callbacks == [] {
        QuietEnd(old(list), old(nodes), list, nodes, ran, ret);
      }
      ServedAll(old(first), old(list), old(nodes), |old(log)|, log);
      full := list;
      nesting := nesting - 1;
      if nesting == 0 {
        ghost var past := log;
        RemoveDeleted();
        NothingCalled(past, log, |old(log)|);
        ServedLater(old(nodes), |old(log)|, past, log);
      }
    }

    /** One node of the walk: a scheduled, undeleted one has its flags cleared and its callback, the
        k-th of this poll, called. */
    method Visit(p: Act, k: nat, id: nat) returns (called: bool, quick: bool)
      requires Valid() && p.Poll? && 0 < nesting && id in nodes
      modifies this
      ensures Valid() && nesting == old(nesting) && Extends(list, old(list)) && old(log) <= log
      ensures called == old(IsReady(nodes, id)) && quick == (called && !old(nodes[id]).idle)
      ensures Tended(old(nodes), |old(log)|, nodes, log) && (called ==> Handled(id, |old(log)|, log))
      ensures VisitLog(old(log), log, nesting, called, quick)
      ensures p.callbacks == [] ==> list == old(list)
      ensures p.callbacks == [] ==>
                nodes == if called then old(nodes)[id := old(nodes[id]).(scheduled := false, idle := false)]
                  else old(nodes)
      decreases p, 1
    {
      hide Threaded, Accounted, Kinds, Tended;
      called, quick := false, false;
      NothingYet(nodes, log);
      if !nodes[id].deleted && nodes[id].scheduled {
        called, quick := true, !nodes[id].idle;
        Run(id);
        RanIsHandled(old(nodes), old(log), id, nodes, log);
        if k < |p.callbacks| {
          ghost var mid, past := nodes, log;
          RunScript(p.callbacks[k]);
          HandledLater(id, |old(log)|, past, log);
          TendedMore(old(nodes), old(log), mid, past, nodes, log);
        }
      }
    }

    /** The second loop of qemu_bh_poll: unlink and free what is deleted. */
    method RemoveDeleted()
      requires Valid()
      modifies this
      ensures Valid() && nesting == old(nesting) && old(log) <= log && list == Survivors(old(list), log)
      ensures NoneRan(log, |old(log)|, |log|)
    {
      hide Threaded, Accounted, Kinds, Survivors, Removing;
      ghost var full, kept, i := list, [], 0;
      var prev, cur := Null, first;
      AtStart(first, nodes, list);
      RemovingStart(full, log);
      while cur != Null
        invariant Valid() && nesting == old(nesting) && old(log) <= log && NoneRan(log, |old(log)|, |log|)
        invariant 0 <= i <= |full| && Removing(full, i, kept, list, log, prev, cur)
        decreases |full| - i
      {
        var id := cur.id;
        RemovingHere(full, i, kept, list, log, prev, cur);
        Inside(first, nodes, list, |kept|);
        var next := nodes[id].next;
        RemovingStep(full, i, kept, list, log, prev, cur, nodes, nextId);
        if nodes[id].deleted {
          Unlink(prev, id, kept, full[i + 1..]);
        } else {
          prev := cur;
          kept := kept + [id];
        }
        cur := next;
        i := i + 1;
      }
      RemovingEnd(full, i, kept, list, log, prev, cur);
    }

    /** Take one node out of the list and free it. */
    method Unlink(prev: Link, id: nat, ghost kept: seq<nat>, ghost tail: seq<nat>)
      requires Valid() && list == kept + [id] + tail && id in nodes
      requires prev == if kept == [] then Null else To(kept[|kept| - 1])
      modifies this`first, this`nodes, this`list, this`log
      ensures Valid() && list == kept + tail
      ensures log == if old(nodes[id].scheduled) then old(log) + [Dropped(id)] else old(log)
    {
      hide Threaded, Accounted, Kinds;
      ghost var was, head := nodes, first;
      var next := nodes[id].next;
      assert list[|kept|] == id;
      Apart(first, nodes, list, |kept|);
      if prev == Null {
        first := next;
      } else {
        nodes := nodes[prev.id := nodes[prev.id].(next := next)];
      }
      FreeOne(log, was, nodes, nextId, id);
      FreeKinds(log, was, nodes, id);
      if nodes[id].scheduled {
        log := log + [Dropped(id)];
      }
      nodes := nodes - {id};
      CutOut(head, was, list, |kept|, first, nodes);
      assert Cut(list, |kept|) == kept + tail;
      list := kept + tail;
    }

    /** The flags of a node being cleared as its callback is called. */
    method Run(id: nat)
      requires Valid() && id in nodes && nodes[id].scheduled && !nodes[id].deleted
      modifies this`nodes, this`log
      ensures Valid() && nodes == old(nodes)[id := old(nodes[id]).(scheduled := false, idle := false)]
      ensures log == old(log) + [Ran(id, old(nodes[id].idle), nesting)]
    {
      hide Threaded, Accounted, Kinds;
      var bh := nodes[id].(scheduled := false, idle := false);
      ThreadFlags(first, nodes, list, id, bh);
      ghost var e := Ran(id, nodes[id].idle, nesting);
      Note(log, nodes, nextId, e, nodes[id := bh]);
      KindNote(log, nodes, e, nodes[id := bh]);
      nodes := nodes[id := bh];
      log := log + [e];
    }
  }

  /** Any sequence of calls from outside, each poll with callbacks that do anything at all: each schedule
      leads to at most one callback, of the kind it asked for, nothing deleted runs, no callback runs outside
      a poll, and what is pending when a poll begins has been run or given up when it ends. marks are the
      lengths of the log between the calls. */
  method Session(acts: seq<Act>) returns (c: Context, ghost marks: seq<nat>)
    ensures fresh(c) && c.Valid() && c.nesting == 0 && AlwaysBalanced(c.log) && NoRunAfterDelete(c.log)
    ensures forall n: nat :: n < |c.log| ==> RunsAsAsked(c.log, n)
    ensures |marks| == |acts| + 1 && marks[0] == 0 && marks[|acts|] == |c.log|
    ensures forall i :: 0 <= i < |acts| ==> CallServed(acts[i], c.log, marks[i], marks[i + 1])
  {
    hide Served, Accounted, Threaded, Kinds, CallServed, Tended, Deeper, RunsAsAsked;
    c := new Context();
    marks := [0];
    for i := 0 to |acts|
      invariant fresh(c) && c.Valid() && c.nesting == 0
      invariant |marks| == i + 1 && marks[0] == 0 && marks[i] == |c.log|
      invariant forall j :: 0 <= j < i ==> CallServed(acts[j], c.log, marks[j], marks[j + 1])
    {
      ghost var nodes, past, nextId := c.nodes, c.log, c.nextId;
      c.RunAct(acts[i]);
      forall j | 0 <= j < i
        ensures CallServed(acts[j], c.log, marks[j], marks[j + 1])
      {
        CallServedLater(acts[j], past, c.log, marks[j], marks[j + 1]);
      }
      CallIsServed(acts[i], past, nodes, nextId, c.log);
      marks := marks + [|c.log|];
    }
    SessionAccount(c.log, c.nodes, c.nextId);
  }

  /** The events lo up to hi are those of one call from outside. */
  ghost predicate CallServed(a: Act, log: seq<Event>, lo: nat, hi: nat) {
    lo <= hi <= |log| && if a.Poll? then AllServed(log, lo, hi) else NoneRan(log, lo, hi)
  }

  ghost predicate NoneRan(log: seq<Event>, lo: nat, hi: nat) {
    forall n :: lo <= n < hi && n < |log| ==> !log[n].Ran?
  }

  lemma CallServedLater(a: Act, past: seq<Event>, log: seq<Event>, lo: nat, hi: nat)
    requires past <= log && CallServed(a, past, lo, hi)
    ensures CallServed(a, log, lo, hi)
  {
    hide AllServed;
    if a.Poll? {
      AllServedLater(past, log, lo, hi);
    }
  }

  lemma CallIsServed(a: Act, past: seq<Event>, nodes: map<nat, Bh>, nextId: nat, log: seq<Event>)
    requires Accounted(past, nodes, nextId) && past <= log
    requires if a.Poll? then Served(nodes, |past|, log) else NoneRan(log, |past|, |log|)
    ensures CallServed(a, log, |past|, |log|)
  {
    hide AllServed, Accounted, Served, NoneRan;
    if a.Poll? {
      PollServesAll(past, nodes, nextId, log);
    }
  }

  lemma SessionAccount(log: seq<Event>, nodes: map<nat, Bh>, nextId: nat)
    requires Accounted(log, nodes, nextId) && Kinds(log, nodes)
    ensures AlwaysBalanced(log) && NoRunAfterDelete(log) && forall n: nat :: n < |log| ==> RunsAsAsked(log, n)
  {
  }

  // ---------- what is scheduled is run or given up ----------

  ghost predicate Ends(e: Event, id: nat) { (e.Ran? || e.Dropped?) && e.id == id }

  /** The callback of id was called or given up after the first lo events. */
  ghost predicate Handled(id: nat, lo: nat, log: seq<Event>) {
    exists n: nat :: lo <= n < |log| && Ends(log[n], id)
  }

  /** What was ready is still ready, or was handled since. */
  ghost predicate Tended(was: map<nat, Bh>, lo: nat, nodes: map<nat, Bh>, log: seq<Event>) {
    forall id: nat :: IsReady(was, id) ==> IsReady(nodes, id) || Handled(id, lo, log)
  }

  ghost predicate Served(was: map<nat, Bh>, lo: nat, log: seq<Event>) {
    forall id: nat :: IsReady(was, id) ==> Handled(id, lo, log)
  }

  /** The same for the first n nodes of the list. */
  ghost predicate ServedUpTo(list: seq<nat>, n: nat, was: map<nat, Bh>, lo: nat, log: seq<Event>) {
    n <= |list| && forall i :: 0 <= i < n && IsReady(was, list[i]) ==> Handled(list[i], lo, log)
  }

  /** In terms of the log alone: what is pending after lo events and not deleted is handled by event hi. */
  ghost predicate AllServed(log: seq<Event>, lo: nat, hi: nat) {
    lo <= hi <= |log| &&
    forall id: nat :: Balance(log[..lo], id) == 1 && Deleted(id) !in log[..lo] ==> Handled(id, lo, log[..hi])
  }

  lemma NothingYet(nodes: map<nat, Bh>, log: seq<Event>)
    ensures Tended(nodes, |log|, nodes, log)
  {
  }

  lemma ServedNone(list: seq<nat>, nodes: map<nat, Bh>, log: seq<Event>)
    ensures ServedUpTo(list, 0, nodes, |log|, log)
  {
  }

  lemma HandledLater(id: nat, lo: nat, log: seq<Event>, log': seq<Event>)
    requires log <= log' && Handled(id, lo, log)
    ensures Handled(id, lo, log')
  {
    var n: nat :| lo <= n < |log| && Ends(log[n], id);
    assert log'[n] == log[n];
  }

  lemma ServedLater(was: map<nat, Bh>, lo: nat, log: seq<Event>, log': seq<Event>)
    requires log <= log' && Served(was, lo, log)
    ensures Served(was, lo, log')
  {
    hide Handled, IsReady;
    forall id: nat | IsReady(was, id)
      ensures Handled(id, lo, log')
    {
      HandledLater(id, lo, log, log');
    }
  }

  lemma TendedMore(was: map<nat, Bh>, log0: seq<Event>, mid: map<nat, Bh>, past: seq<Event>, nodes: map<nat, Bh>,
                   log: seq<Event>)
    requires log0 <= past <= log && Tended(was, |log0|, mid, past) && Tended(mid, |past|, nodes, log)
    ensures Tended(was, |log0|, nodes, log)
  {
    hide IsReady;
    forall id: nat | IsReady(was, id)
      ensures IsReady(nodes, id) || Handled(id, |log0|, log)
    {
      if Handled(id, |log0|, past) {
        HandledLater(id, |log0|, past, log);
      }
    }
  }

  lemma DroppedIsHandled(was: map<nat, Bh>, log0: seq<Event>, id: nat, log: seq<Event>)
    requires IsReady(was, id) ==> log0 + [Dropped(id)] <= log
    ensures IsReady(was, id) ==> Handled(id, |log0|, log)
  {
    if IsReady(was, id) {
      assert log[|log0|] == (log0 + [Dropped(id)])[|log0|];
      assert Ends(log[|log0|], id);
    }
  }

  lemma RanIsHandled(was: map<nat, Bh>, log0: seq<Event>, id: nat, nodes: map<nat, Bh>, log: seq<Event>)
    requires id in was && |log| == |log0| + 1 && Ends(log[|log0|], id) &&
             nodes == was[id := was[id].(scheduled := false, idle := false)]
    ensures Handled(id, |log0|, log) && Tended(was, |log0|, nodes, log)
  {
    assert Ends(log[|log0|], id);
  }

  /** The walk comes to a node: if it was ready at the start and is not now, it has been handled. */
  lemma ServedNext(list: seq<nat>, n: nat, was: map<nat, Bh>, log0: seq<Event>, mid: map<nat, Bh>, past: seq<Event>,
                   nodes: map<nat, Bh>, log: seq<Event>, id: nat, called: bool)
    requires n < |list| && list[n] == id && log0 <= past <= log
    requires ServedUpTo(list, n, was, |log0|, past) && Tended(was, |log0|, mid, past)
    requires called == IsReady(mid, id) && (called ==> Handled(id, |past|, log))
    ensures ServedUpTo(list, n + 1, was, |log0|, log)
  {
    hide IsReady;
    forall i | 0 <= i < n + 1 && IsReady(was, list[i])
      ensures Handled(list[i], |log0|, log)
    {
      if i < n || !called {
        HandledLater(list[i], |log0|, past, log);
      }
    }
  }

  lemma ServedAll(first: Link, list: seq<nat>, was: map<nat, Bh>, lo: nat, log: seq<Event>)
    requires Threaded(first, was, list) && ServedUpTo(list, |list|, was, lo, log)
    ensures Served(was, lo, log)
  {
    hide Handled;
    forall id: nat | IsReady(was, id)
      ensures Handled(id, lo, log)
    {
      assert id in list;
    }
  }

  lemma PollServesAll(past: seq<Event>, nodes: map<nat, Bh>, nextId: nat, log: seq<Event>)
    requires Accounted(past, nodes, nextId) && past <= log && Served(nodes, |past|, log)
    ensures AllServed(log, |past|, |log|)
  {
    hide Handled;
    assert log[..|past|] == past && log[..|log|] == log;
    forall id: nat | Balance(past, id) == 1 && Deleted(id) !in past
      ensures Handled(id, |past|, log)
    {
      assert Pending(nodes, id) == 1;
      assert IsReady(nodes, id);
    }
  }

  lemma AllServedLater(past: seq<Event>, log: seq<Event>, lo: nat, hi: nat)
    requires past <= log && AllServed(past, lo, hi)
    ensures AllServed(log, lo, hi)
  {
    assert log[..lo] == past[..lo] && log[..hi] == past[..hi];
  }

  // ---------- the walk ----------

  /** More nodes may have been put in front. */
  ghost predicate Extends(now: seq<nat>, was: seq<nat>) {
    |was| <= |now| && now[|now| - |was|..] == was
  }

  /** The nodes of a list that were never deleted, in order. */
  function Survivors(list: seq<nat>, log: seq<Event>): seq<nat> {
    if list == [] then []
    else
      var rest := Survivors(list[..|list| - 1], log);
      if Deleted(list[|list| - 1]) in log then rest else rest + [list[|list| - 1]]
  }

  lemma SurvivorsStep(list: seq<nat>, i: nat, nodes: map<nat, Bh>, nextId: nat, log: seq<Event>)
    requires i < |list| && list[i] in nodes && Accounted(log, nodes, nextId)
    ensures Survivors(list[..i + 1], log) ==
            if nodes[list[i]].deleted then Survivors(list[..i], log) else Survivors(list[..i], log) + [list[i]]
  {
    assert list[..i + 1][..i] == list[..i];
  }

  lemma {:induction false} SurvivorsDrop(list: seq<nat>, log: seq<Event>, id: nat)
    ensures Survivors(list, log + [Dropped(id)]) == Survivors(list, log)
  {
    if list != [] {
      SurvivorsDrop(list[..|list| - 1], log, id);
    }
  }

  /** The second loop has looked at the first i nodes and kept some of them. */
  ghost predicate Removing(full: seq<nat>, i: nat, kept: seq<nat>, list: seq<nat>, log: seq<Event>, prev: Link,
                           cur: Link) {
    i <= |full| && list == kept + full[i..] && kept == Survivors(full[..i], log) && cur == LinkAt(full, i) &&
    prev == if kept == [] then Null else To(kept[|kept| - 1])
  }

  lemma RemovingStart(full: seq<nat>, log: seq<Event>)
    ensures Removing(full, 0, [], full, log, Null, LinkAt(full, 0))
  {
  }

  lemma RemovingHere(full: seq<nat>, i: nat, kept: seq<nat>, list: seq<nat>, log: seq<Event>, prev: Link, cur: Link)
    requires Removing(full, i, kept, list, log, prev, cur) && cur != Null
    ensures i < |full| && |kept| < |list| && list[|kept|] == cur.id == full[i] &&
            list == kept + [cur.id] + full[i + 1..]
    ensures LinkAt(list, |kept| + 1) == LinkAt(full, i + 1) && prev == if kept == [] then Null else To(kept[|kept| - 1])
  {
    assert full[i..] == [full[i]] + full[i + 1..];
  }

  lemma RemovingStep(full: seq<nat>, i: nat, kept: seq<nat>, list: seq<nat>, log: seq<Event>, prev: Link, cur: Link,
                     nodes: map<nat, Bh>, nextId: nat)
    requires Removing(full, i, kept, list, log, prev, cur) && cur != Null && cur.id in nodes &&
             Accounted(log, nodes, nextId)
    ensures i < |full| && list == kept + [cur.id] + full[i + 1..]
    ensures nodes[cur.id].deleted ==> Removing(full, i + 1, kept, kept + full[i + 1..], log, prev, LinkAt(full, i + 1))
    ensures nodes[cur.id].deleted ==>
              Removing(full, i + 1, kept, kept + full[i + 1..], log + [Dropped(cur.id)], prev, LinkAt(full, i + 1))
    ensures !nodes[cur.id].deleted ==> Removing(full, i + 1, kept + [cur.id], list, log, cur, LinkAt(full, i + 1))
  {
    hide Accounted, Survivors;
    RemovingHere(full, i, kept, list, log, prev, cur);
    SurvivorsStep(full, i, nodes, nextId, log);
    SurvivorsDrop(full[..i + 1], log, cur.id);
  }

  lemma RemovingEnd(full: seq<nat>, i: nat, kept: seq<nat>, list: seq<nat>, log: seq<Event>, prev: Link, cur: Link)
    requires Removing(full, i, kept, list, log, prev, cur) && cur == Null
    ensures list == Survivors(full, log)
  {
    assert full[..i] == full && full[i..] == [];
  }

  lemma AtStart(first: Link, nodes: map<nat, Bh>, list: seq<nat>)
    requires Threaded(first, nodes, list)
    ensures first == LinkAt(list, 0)
  {
  }

  lemma Inside(first: Link, nodes: map<nat, Bh>, list: seq<nat>, i: nat)
    requires Threaded(first, nodes, list) && i < |list|
    ensures list[i] in nodes && nodes[list[i]].next == LinkAt(list, i + 1) && Distinct(list)
  {
  }

  lemma Apart(first: Link, nodes: map<nat, Bh>, list: seq<nat>, j: nat)
    requires Threaded(first, nodes, list) && j < |list|
    ensures list[j] in nodes && (0 < j ==> list[j - 1] in nodes && list[j - 1] != list[j])
  {
  }

  /** A walk that began with list0 and log0 has rest nodes to go, bh being the next of them; nodes
      created meanwhile are in front of those. */
  ghost predicate Walking(list0: seq<nat>, log0: seq<Event>, list: seq<nat>, log: seq<Event>, rest: nat, bh: Link) {
    Extends(list, list0) && log0 <= log && rest <= |list0| && bh == LinkAt(list, |list| - rest)
  }

  lemma WalkStart(first: Link, nodes: map<nat, Bh>, list: seq<nat>, log: seq<Event>)
    requires Threaded(first, nodes, list)
    ensures Walking(list, log, list, log, |list|, first) && Quiet(list, nodes, list, nodes, |list|, [], false)
  {
    hide Threaded;
    AtStart(first, nodes, list);
    QuietStart(first, nodes, list);
  }

  /** The node a walk has come to is in the list, and its link leads to the next one. */
  lemma WalkHere(list0: seq<nat>, log0: seq<Event>, first: Link, nodes: map<nat, Bh>, list: seq<nat>, log: seq<Event>,
                 rest: nat, bh: Link)
    requires Threaded(first, nodes, list) && Walking(list0, log0, list, log, rest, bh) && bh != Null
    ensures 0 < rest <= |list| && bh.id == list[|list| - rest] && bh.id in nodes && Distinct(list)
    ensures nodes[bh.id].next == LinkAt(list, |list| - (rest - 1))
    ensures rest <= |list0| && bh.id == list0[|list0| - rest] && log0 <= log
  {
    hide Threaded;
    Inside(first, nodes, list, |list| - rest);
    assert list[|list| - rest] == list[|list| - |list0|..][|list0| - rest];
  }

  lemma WalkStep(list0: seq<nat>, log0: seq<Event>, list: seq<nat>, log: seq<Event>, list': seq<nat>, log': seq<Event>,
                 rest: nat, bh: Link, next: Link)
    requires Walking(list0, log0, list, log, rest, bh) && 0 < rest <= |list| &&
             next == LinkAt(list, |list| - (rest - 1))
    requires Extends(list', list) && log <= log'
    ensures Walking(list0, log0, list', log', rest - 1, next)
  {
    hide Extends;
    ExtendsMore(list0, list, list');
    SuffixStays(list, list', rest - 1);
  }

  lemma WalkEnd(list0: seq<nat>, log0: seq<Event>, list: seq<nat>, log: seq<Event>, rest: nat, bh: Link)
    requires Walking(list0, log0, list, log, rest, bh) && bh == Null
    ensures rest == 0 && Extends(list, list0) && log0 <= log
  {
  }

  lemma ExtendsMore(a: seq<nat>, b: seq<nat>, c: seq<nat>)
    requires Extends(b, a) && Extends(c, b)
    ensures Extends(c, a) && |a| <= |b| <= |c|
  {
    assert c[|c| - |a|..] == c[|c| - |b|..][|b| - |a|..];
  }

  lemma SuffixStays(was: seq<nat>, now: seq<nat>, n: nat)
    requires Extends(now, was) && n <= |was|
    ensures LinkAt(now, |now| - n) == LinkAt(was, |was| - n)
  {
    if n > 0 {
      assert now[|now| - n] == now[|now| - |was|..][|was| - n];
    }
  }

  function Cut(list: seq<nat>, j: nat): (after: seq<nat>)
    requires j < |list|
    ensures |after| == |list| - 1 && forall i :: 0 <= i < |after| ==> after[i] == if i < j then list[i] else list[i + 1]
  {
    list[..j] + list[j + 1..]
  }

  lemma CutMembers(list: seq<nat>, j: nat)
    requires Distinct(list) && j < |list|
    ensures Distinct(Cut(list, j)) && forall id: nat :: id in Cut(list, j) <==> id in list && id != list[j]
  {
    var after := Cut(list, j);
    forall id: nat
      ensures id in after <==> id in list && id != list[j]
    {
      if id in list && id != list[j] {
        var i :| 0 <= i < |list| && list[i] == id;
        assert after[if i < j then i else i - 1] == id;
      }
      if id in after {
        var i :| 0 <= i < |after| && after[i] == id;
        assert list[if i < j then i else i + 1] == id;
      }
    }
  }

  lemma CutLink(first: Link, nodes: map<nat, Bh>, list: seq<nat>, j: nat, i: nat)
    requires Threaded(first, nodes, list) && j < |list| && i < |list| - 1
    ensures var x := Cut(list, j)[i];
            x in nodes && list[j] in nodes &&
            LinkAt(Cut(list, j), i + 1) == if 0 < j && x == list[j - 1] then nodes[list[j]].next else nodes[x].next
  {
    hide Lists, Linked;
    var p := if i < j then i else i + 1;
    Inside(first, nodes, list, p);
    Inside(first, nodes, list, j);
  }

  lemma CutHead(first: Link, nodes: map<nat, Bh>, list: seq<nat>, j: nat)
    requires Threaded(first, nodes, list) && j < |list|
    ensures list[j] in nodes && LinkAt(Cut(list, j), 0) == if j == 0 then nodes[list[j]].next else first
  {
  }

  /** Taking out entry j and passing its link on to the one before keeps the list threaded. */
  lemma CutOut(first: Link, nodes: map<nat, Bh>, list: seq<nat>, j: nat, head: Link, now: map<nat, Bh>)
    requires Threaded(first, nodes, list) && j < |list|
    requires forall id: nat :: id in now <==> id in nodes && id != list[j]
    requires forall id: nat :: id in now ==>
                 now[id].next == if 0 < j && id == list[j - 1] then nodes[list[j]].next else nodes[id].next
    requires head == if j == 0 then nodes[list[j]].next else first
    ensures Threaded(head, now, Cut(list, j))
  {
    hide LinkAt, Distinct;
    var after := Cut(list, j);
    CutMembers(list, j);
    forall i | 0 <= i < |after|
      ensures after[i] in now && now[after[i]].next == LinkAt(after, i + 1)
    {
      assert after[i] in after;
      CutLink(first, nodes, list, j, i);
    }
    CutHead(first, nodes, list, j);
  }

  /** Freeing a node, and with it a callback still pending, keeps the account. */
  lemma FreeOne(log: seq<Event>, was: map<nat, Bh>, nodes: map<nat, Bh>, nextId: nat, id: nat)
    requires Accounted(log, was, nextId) && id in nodes
    requires forall x: nat :: x in nodes <==> x in was
    requires forall x: nat :: x in nodes ==>
               nodes[x].scheduled == was[x].scheduled && nodes[x].deleted == was[x].deleted
    ensures Accounted(if nodes[id].scheduled then log + [Dropped(id)] else log, nodes - {id}, nextId)
  {
    hide Accounted;
    if nodes[id].scheduled {
      Note(log, was, nextId, Dropped(id), nodes - {id});
    } else {
      Quietly(log, was, nextId, nodes - {id}, nextId);
    }
  }

  // ---------- a poll whose callbacks do nothing further ----------

  predicate IsReady(nodes: map<nat, Bh>, id: nat) { id in nodes && nodes[id].scheduled && !nodes[id].deleted }

  /** The scheduled, undeleted nodes in list order. */
  function Ready(list: seq<nat>, nodes: map<nat, Bh>): seq<nat> {
    if list == [] then []
    else
      var rest := Ready(list[..|list| - 1], nodes);
      if IsReady(nodes, list[|list| - 1]) then rest + [list[|list| - 1]] else rest
  }

  predicate AnyBusy(ids: seq<nat>, nodes: map<nat, Bh>) {
    exists i :: 0 <= i < |ids| && ids[i] in nodes && !nodes[ids[i]].idle
  }

  ghost predicate Quiet(list0: seq<nat>, nodes0: map<nat, Bh>, list: seq<nat>, nodes: map<nat, Bh>, rest: nat,
                        ran: seq<nat>, ret: bool) {
    list == list0 && rest <= |list0| && ran == Ready(list0[..|list0| - rest], nodes0) &&
    (ret <==> AnyBusy(ran, nodes0)) &&
    forall i :: |list0| - rest <= i < |list0| ==>
      list0[i] in nodes0 && list0[i] in nodes && nodes[list0[i]] == nodes0[list0[i]]
  }

  lemma QuietStart(first: Link, nodes: map<nat, Bh>, list: seq<nat>)
    requires Threaded(first, nodes, list)
    ensures Quiet(list, nodes, list, nodes, |list|, [], false)
  {
  }

  lemma QuietStep(list0: seq<nat>, nodes0: map<nat, Bh>, list: seq<nat>, nodes: map<nat, Bh>, rest: nat, ran: seq<nat>,
                  ret: bool, id: nat)
    requires Quiet(list0, nodes0, list, nodes, rest, ran, ret) && 0 < rest <= |list| && id == list[|list| - rest]
    requires Distinct(list)
    ensures id in nodes
    ensures IsReady(nodes, id) ==>
              Quiet(list0, nodes0, list, nodes[id := nodes[id].(scheduled := false, idle := false)], rest - 1,
                    ran + [id], ret || !nodes[id].idle)
    ensures !IsReady(nodes, id) ==> Quiet(list0, nodes0, list, nodes, rest - 1, ran, ret)
  {
    hide AnyBusy, LinkAt;
    var n := |list0| - rest;
    assert list0[..n + 1][..n] == list0[..n];
    assert forall i :: n < i < |list0| ==> list0[i] != id;
    if IsReady(nodes, id) {
      BusyMore(ran, id, nodes0);
    }
  }

  lemma BusyMore(ran: seq<nat>, id: nat, nodes: map<nat, Bh>)
    requires id in nodes
    ensures AnyBusy(ran + [id], nodes) <==> AnyBusy(ran, nodes) || !nodes[id].idle
  {
    if AnyBusy(ran, nodes) {
      var i :| 0 <= i < |ran| && ran[i] in nodes && !nodes[ran[i]].idle;
      assert (ran + [id])[i] == ran[i];
    }
    assert (ran + [id])[|ran|] == id;
  }

  lemma QuietEnd(list0: seq<nat>, nodes0: map<nat, Bh>, list: seq<nat>, nodes: map<nat, Bh>, ran: seq<nat>, ret: bool)
    requires Quiet(list0, nodes0, list, nodes, 0, ran, ret)
    ensures list == list0 && ran == Ready(list0, nodes0) && (ret <==> AnyBusy(ran, nodes0))
  {
    assert list0[..|list0|] == list0;
  }

  lemma Fresh(log: seq<Event>, nodes: map<nat, Bh>, nextId: nat)
    requires Accounted(log, nodes, nextId)
    ensures nextId !in nodes
  {
  }
}
