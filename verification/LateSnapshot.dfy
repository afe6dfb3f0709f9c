/** A snapshot put in a display's queue order by order after the lock is released, while other
    threads go on with the server (send_order_message in server.cpp): exactly when each order
    comes out right. */
module LateSnapshot {
  import opened Wrappers
  import opened Model
  import opened Messages
  import opened Orders
  import opened Fields
  import Accounting
  import R = Replication

  /** What the queue gets after the orders have been copied: the broadcasts of other threads
      and the copies. */
  datatype Entry = Broadcast(m: Message) | Late(m: Message)

  /** Messages broadcast under the lock are owed to the queue until they are enqueued; copies
      still to enqueue wait for this thread. */
  datatype State = State(server: Server, queue: seq<Entry>, owed: seq<Message>, copies: seq<Message>)

  datatype Action = Request(cmd: Command) | EnqueueBroadcast | EnqueueCopy

  /** The lock has just been released after copying the orders in this order. */
  ghost predicate Copied(s: Server, ids: seq<int>) {
    && R.Enumerates(ids, s.orders)
    && (forall i :: 0 <= i < |ids| ==> ids[i] in s.orders)
    && forall i, j :: 0 <= i < j < |ids| ==> ids[i] != ids[j]
  }

  function Begin(s: Server, ids: seq<int>): State
    requires forall i :: 0 <= i < |ids| ==> ids[i] in s.orders
  {
    State(s, [], [], R.SnapshotMessages(s.orders, ids))
  }

  /** A step; one that is not possible changes nothing. */
  function Step(l: State, a: Action): State {
    match a
    case Request(cmd) =>
      if l.owed != [] then l else l.(server := Execute(l.server, cmd), owed := Events(l.server, cmd))
    case EnqueueBroadcast =>
      if l.owed == [] then l else l.(queue := l.queue + [Broadcast(l.owed[0])], owed := l.owed[1..])
    case EnqueueCopy =>
      if l.copies == [] then l else l.(queue := l.queue + [Late(l.copies[0])], copies := l.copies[1..])
  }

  function Run(l: State, actions: seq<Action>): State {
    if actions == [] then l
    else Step(Run(l, actions[..|actions| - 1]), actions[|actions| - 1])
  }

  function Enqueued(q: seq<Entry>): seq<Message> {
    seq(|q|, i requires 0 <= i < |q| => q[i].m)
  }

  function Broadcasts(q: seq<Entry>): seq<Message> {
    if q == [] then []
    else
      var last := q[|q| - 1];
      Broadcasts(q[..|q| - 1]) + if last.Broadcast? then [last.m] else []
  }

  /** What was broadcast since the copy, enqueued or still owed. */
  function Since(l: State): seq<Message> {
    Broadcasts(l.queue) + l.owed
  }

  /** What a display with these orders shows once it has applied its queue and what is owed. */
  function Shown(orders: OrderMap, l: State): OrderMap {
    Fold(orders, Enqueued(l.queue) + l.owed)
  }

  // ---------------------------------------------------------------------------------
  // The invariant
  // ---------------------------------------------------------------------------------

  predicate Tracks(s: Server, l: State, k: int) {
    && FoldAt(Lookup(s.orders, k), k, Since(l)) == Lookup(l.server.orders, k)
    && (k < s.nextOrderId ==> k < l.server.nextOrderId && Climbs(Lookup(s.orders, k), k, Since(l)))
  }

  function LateMessages(q: seq<Entry>): seq<Message> {
    if q == [] then []
    else
      var last := q[|q| - 1];
      LateMessages(q[..|q| - 1]) + if last.Late? then [last.m] else []
  }

  lemma BroadcastsSnoc(q: seq<Entry>, e: Entry)
    ensures Broadcasts(q + [e]) == Broadcasts(q) + if e.Broadcast? then [e.m] else []
    ensures LateMessages(q + [e]) == LateMessages(q) + if e.Late? then [e.m] else []
    ensures Enqueued(q + [e]) == Enqueued(q) + [e.m]
  {
    assert (q + [e])[..|q|] == q;
  }

  lemma StepTracks(s: Server, l: State, a: Action, k: int)
    requires Tracks(s, l, k)
    ensures Tracks(s, Step(l, a), k)
  {
    var l' := Step(l, a);
    match a
    case Request(cmd) =>
      if l.owed == [] {
        var e := Lookup(s.orders, k);
        assert Since(l) + [] == Since(l) && Since(l) == Broadcasts(l.queue);
        assert Since(l') == Since(l) + l'.owed;
        EventsMirrorOutcome(l.server, cmd);
        FoldLookup(l.server.orders, l'.owed, k);
        FoldAtConcat(e, k, Since(l), l'.owed);
        ClimbsConcat(e, k, Since(l), l'.owed);
        if k < l.server.nextOrderId {
          EventsClimb(l.server, cmd, k);
        }
      }
    case EnqueueBroadcast =>
      if l.owed != [] {
        BroadcastsSnoc(l.queue, Broadcast(l.owed[0]));
        assert Since(l') == Since(l);
      }
    case EnqueueCopy =>
      if l.copies != [] {
        BroadcastsSnoc(l.queue, Late(l.copies[0]));
        assert Since(l') == Since(l);
      }
  }

  lemma {:induction false} RunTracks(s: Server, l: State, actions: seq<Action>, k: int)
    requires Tracks(s, l, k)
    ensures Tracks(s, Run(l, actions), k)
  {
    hide Tracks, Step;
    if actions != [] {
      RunTracks(s, l, actions[..|actions| - 1], k);
      StepTracks(s, Run(l, actions[..|actions| - 1]), actions[|actions| - 1], k);
    }
  }

  lemma StepCopies(l: State, a: Action)
    ensures LateMessages(Step(l, a).queue) + Step(l, a).copies == LateMessages(l.queue) + l.copies
  {
    if a.EnqueueBroadcast? && l.owed != [] {
      BroadcastsSnoc(l.queue, Broadcast(l.owed[0]));
    } else if a.EnqueueCopy? && l.copies != [] {
      BroadcastsSnoc(l.queue, Late(l.copies[0]));
      assert LateMessages(l.queue) + [l.copies[0]] + l.copies[1..] == LateMessages(l.queue) + l.copies;
    }
  }

  lemma {:induction false} RunCopies(l: State, actions: seq<Action>)
    ensures LateMessages(Run(l, actions).queue) + Run(l, actions).copies == LateMessages(l.queue) + l.copies
  {
    hide Step;
    if actions != [] {
      RunCopies(l, actions[..|actions| - 1]);
      StepCopies(Run(l, actions[..|actions| - 1]), actions[|actions| - 1]);
    }
  }

  /** From the release of the lock on, what is broadcast follows the server, and the copies are
      enqueued in order, each once. */
  lemma RunFrom(s: Server, ids: seq<int>, actions: seq<Action>, k: int)
    requires Copied(s, ids)
    ensures var l := Run(Begin(s, ids), actions);
            Tracks(s, l, k) && LateMessages(l.queue) + l.copies == R.SnapshotMessages(s.orders, ids)
  {
    hide Run;
    RunTracks(s, Begin(s, ids), actions, k);
    RunCopies(Begin(s, ids), actions);
    assert LateMessages(Begin(s, ids).queue) == [];
  }

  // ---------------------------------------------------------------------------------
  // Where the copies are
  // ---------------------------------------------------------------------------------

  lemma {:induction false} LateIndex(q: seq<Entry>, p: nat)
    requires p < |q| && q[p].Late?
    ensures var n := |LateMessages(q[..p])|; n < |LateMessages(q)| && LateMessages(q)[n] == q[p].m
  {
    var front := q[..|q| - 1];
    if p < |q| - 1 {
      LateIndex(front, p);
      assert front[..p] == q[..p];
    }
  }

  /** Different positions hold copies of different orders. */
  lemma CopiesDiffer(s: Server, ids: seq<int>, l: State, p: nat, i: nat)
    requires Copied(s, ids) && LateMessages(l.queue) + l.copies == R.SnapshotMessages(s.orders, ids)
    requires R.KeysAreIds(s.orders)
    requires p < i < |l.queue| && l.queue[p].Late? && l.queue[i].Late?
    ensures CopyOf(s, l.queue[p].m) && CopyOf(s, l.queue[i].m)
    ensures l.queue[p].m.order.value.id != l.queue[i].m.order.value.id
  {
    hide R.Enumerates;
    LateIndex(l.queue, p);
    LateIndex(l.queue, i);
    LateIndex(l.queue[..i], p);
    assert l.queue[..i][..p] == l.queue[..p];
    var a, b := |LateMessages(l.queue[..p])|, |LateMessages(l.queue[..i])|;
    CopyAt(s, ids, l, a);
    CopyAt(s, ids, l, b);
    assert ids[a] != ids[b];
  }

  /** The message carries an order the server held when the copy was made. */
  predicate CopyOf(s: Server, m: Message) {
    m.order.Some? && m.order.value.id in s.orders && m == WithOrder(DISP_ORDER, s.orders[m.order.value.id])
  }

  lemma CopyAt(s: Server, ids: seq<int>, l: State, n: nat)
    requires Copied(s, ids) && LateMessages(l.queue) + l.copies == R.SnapshotMessages(s.orders, ids)
    requires R.KeysAreIds(s.orders) && n < |LateMessages(l.queue)|
    ensures n < |ids| && CopyOf(s, LateMessages(l.queue)[n]) && LateMessages(l.queue)[n].order.value.id == ids[n]
  {
    var all := LateMessages(l.queue) + l.copies;
    assert n < |all| && all[n] == LateMessages(l.queue)[n];
    var k := ids[n];
    assert k in s.orders && s.orders[k].id == k;
  }

  /** A copy of one order does nothing to another. */
  lemma {:induction false} OtherCopies(e: Option<Order>, k: int, q: seq<Entry>)
    requires forall i :: 0 <= i < |q| && q[i].Late? ==> q[i].m.mtype == DISP_ORDER && !IsCopy(q[i].m, k)
    ensures FoldAt(e, k, Enqueued(q)) == FoldAt(e, k, Broadcasts(q))
  {
    if q != [] {
      var front, last := q[..|q| - 1], q[|q| - 1];
      assert q == front + [last];
      OtherCopies(e, k, front);
      BroadcastsSnoc(front, last);
      FoldAtConcat(e, k, Enqueued(front), [last.m]);
      FoldAtConcat(e, k, Broadcasts(front), [last.m]);
      FoldAtOne(FoldAt(e, k, Broadcasts(front)), k, last.m);
      hide FoldAt, Broadcasts, Enqueued;
      if last.Late? {
        assert Broadcasts(front) + [] == Broadcasts(front);
      }
    }
  }

  lemma FoldAtOne(e: Option<Order>, k: int, m: Message)
    ensures FoldAt(e, k, [m]) == ApplyAt(e, k, m)
  {
  }

  lemma {:induction false} BroadcastsConcat(a: seq<Entry>, b: seq<Entry>)
    ensures Broadcasts(a + b) == Broadcasts(a) + Broadcasts(b)
    ensures Enqueued(a + b) == Enqueued(a) + Enqueued(b)
  {
    if b == [] {
      assert a + b == a;
    } else {
      var front, last := b[..|b| - 1], b[|b| - 1];
      assert a + b == (a + front) + [last] && b == front + [last];
      BroadcastsConcat(a, front);
      BroadcastsSnoc(a + front, last);
      BroadcastsSnoc(front, last);
    }
  }

  // ---------------------------------------------------------------------------------
  // One copy
  // ---------------------------------------------------------------------------------

  /** What had been broadcast before the copy at position p was enqueued, and since then. */
  function Before(l: State, p: nat): seq<Message>
    requires p < |l.queue|
  {
    Broadcasts(l.queue[..p])
  }

  function After(l: State, p: nat): seq<Message>
    requires p < |l.queue|
  {
    Broadcasts(l.queue[p + 1..]) + l.owed
  }

  lemma SinceSplits(l: State, p: nat)
    requires p < |l.queue| && l.queue[p].Late?
    ensures Since(l) == Before(l, p) + After(l, p)
    ensures Enqueued(l.queue) + l.owed
         == Enqueued(l.queue[..p]) + [l.queue[p].m] + (Enqueued(l.queue[p + 1..]) + l.owed)
  {
    var a, e, b := l.queue[..p], l.queue[p], l.queue[p + 1..];
    assert l.queue == (a + [e]) + b;
    BroadcastsConcat(a + [e], b);
    BroadcastsSnoc(a, e);
  }

  /** The display's entry is the copy with everything applied that came after it. */
  lemma ShownEntry(s: Server, ids: seq<int>, actions: seq<Action>, p: nat, orders: OrderMap)
    requires Copied(s, ids) && R.KeysAreIds(s.orders)
    requires var l := Run(Begin(s, ids), actions); p < |l.queue| && l.queue[p].Late?
    ensures var l := Run(Begin(s, ids), actions);
            && CopyOf(s, l.queue[p].m)
            && var k := l.queue[p].m.order.value.id;
            && Lookup(Shown(orders, l), k) == FoldAt(Some(s.orders[k]), k, After(l, p))
            && FoldAt(Some(s.orders[k]), k, Before(l, p) + After(l, p)) == Lookup(l.server.orders, k)
  {
    hide Run, R.Enumerates, FoldAt, Climbs, Broadcasts, Enqueued, Fold;
    var l := Run(Begin(s, ids), actions);
    RunFrom(s, ids, actions, 0);
    LateIndex(l.queue, p);
    CopyAt(s, ids, l, |LateMessages(l.queue[..p])|);
    var k, m := l.queue[p].m.order.value.id, l.queue[p].m;
    RunFrom(s, ids, actions, k);
    SinceSplits(l, p);
    var first, rest := Enqueued(l.queue[..p]), Enqueued(l.queue[p + 1..]);
    var e := Lookup(orders, k);
    FoldLookup(orders, first + [m] + (rest + l.owed), k);
    FoldAtConcat(e, k, first + [m], rest + l.owed);
    FoldAtConcat(e, k, first, [m]);
    FoldAtOne(FoldAt(e, k, first), k, m);
    FoldAtConcat(Some(s.orders[k]), k, rest, l.owed);
    FoldAtConcat(Some(s.orders[k]), k, Broadcasts(l.queue[p + 1..]), l.owed);
    var tail := l.queue[p + 1..];
    forall i | 0 <= i < |tail| && tail[i].Late?
      ensures tail[i].m.mtype == DISP_ORDER && !IsCopy(tail[i].m, k)
    {
      CopiesDiffer(s, ids, l, p, p + 1 + i);
    }
    OtherCopies(Some(s.orders[k]), k, tail);
  }

  lemma StoredWasHandedOut(cmds: seq<Command>, k: int)
    ensures var s := ExecuteAll(cmds);
            k in s.orders ==> s.orders[k].id == k && FIRST_ORDER_ID <= k < s.nextOrderId
  {
    Accounting.RunKeepsInv(cmds, k);
    Accounting.IdsAreKeys(cmds, k);
  }

  lemma KeysAlwaysIds(cmds: seq<Command>)
    ensures R.KeysAreIds(ExecuteAll(cmds).orders)
  {
    forall k | k in ExecuteAll(cmds).orders
      ensures ExecuteAll(cmds).orders[k].id == k
    {
      StoredWasHandedOut(cmds, k);
    }
  }

  /** Exactly when a late copy does no harm.  At any moment after the copy of order k was
      enqueued, and whatever the display had before, its entry for k is the server's if and only
      if each status of k that was broadcast between copying and enqueueing has been broadcast
      again since, or k has been delivered since. */
  lemma LateCopyExact(cmds: seq<Command>, ids: seq<int>, actions: seq<Action>, p: nat, orders: OrderMap)
    requires Copied(ExecuteAll(cmds), ids)
    requires var l := Run(Begin(ExecuteAll(cmds), ids), actions); p < |l.queue| && l.queue[p].Late?
    ensures var l := Run(Begin(ExecuteAll(cmds), ids), actions);
            && CopyOf(ExecuteAll(cmds), l.queue[p].m)
            && var k := l.queue[p].m.order.value.id;
            Lookup(Shown(orders, l), k) == Lookup(l.server.orders, k) <==> Repaired(k, Before(l, p), After(l, p))
  {
    hide Run, FoldAt, Climbs, Repaired, Shown, Before, After, R.Enumerates, ExecuteAll;
    var s := ExecuteAll(cmds);
    var l := Run(Begin(s, ids), actions);
    KeysAlwaysIds(cmds);
    ShownEntry(s, ids, actions, p, orders);
    var k := l.queue[p].m.order.value.id;
    StoredWasHandedOut(cmds, k);
    RunFrom(s, ids, actions, k);
    SinceSplits(l, p);
    MissedExact(s.orders[k], k, Before(l, p), After(l, p));
  }

  // ---------------------------------------------------------------------------------
  // Right after a copy
  // ---------------------------------------------------------------------------------

  /** Since the copy, the server has accepted an update of the order. */
  predicate UpdateAccepted(l: State, actions: seq<Action>, k: int) {
    actions != []
    && var front, a := actions[..|actions| - 1], actions[|actions| - 1];
       || UpdateAccepted(l, front, k)
       || (Run(l, front).owed == [] && a.Request? && !a.cmd.CreateOrder? && a.cmd.orderId == k
           && Outcome(Run(l, front).server, a.cmd).Success?)
  }

  predicate Updated(k: int, ms: seq<Message>) {
    exists i :: 0 <= i < |ms| && IsUpdate(ms[i], k)
  }

  lemma UpdatedConcat(k: int, a: seq<Message>, b: seq<Message>)
    ensures Updated(k, a + b) <==> Updated(k, a) || Updated(k, b)
  {
    hide IsUpdate;
    forall i | 0 <= i < |a|
      ensures (a + b)[i] == a[i]
    {
    }
    forall i | 0 <= i < |b|
      ensures (a + b)[|a| + i] == b[i]
    {
    }
    if Updated(k, a) {
      var i :| 0 <= i < |a| && IsUpdate(a[i], k);
      assert IsUpdate((a + b)[i], k);
    }
    if Updated(k, b) {
      var i :| 0 <= i < |b| && IsUpdate(b[i], k);
      assert IsUpdate((a + b)[|a| + i], k);
    }
  }

  lemma AcceptedIsBroadcast(s: Server, cmd: Command, k: int)
    ensures Updated(k, Events(s, cmd)) <==> !cmd.CreateOrder? && cmd.orderId == k && Outcome(s, cmd).Success?
  {
    var events := Events(s, cmd);
    if !cmd.CreateOrder? && cmd.orderId == k && Outcome(s, cmd).Success? {
      assert IsUpdate(events[0], k);
    }
  }

  lemma {:induction false} AcceptedMeansUpdated(s: Server, ids: seq<int>, actions: seq<Action>, k: int)
    requires Copied(s, ids)
    ensures Updated(k, Since(Run(Begin(s, ids), actions))) <==> UpdateAccepted(Begin(s, ids), actions, k)
  {
    hide Updated, Events, Outcome, R.Enumerates;
    if actions == [] {
      assert Since(Begin(s, ids)) == [];
      NothingUpdated(k);
    } else {
      var front, a := actions[..|actions| - 1], actions[|actions| - 1];
      var l := Run(Begin(s, ids), front);
      AcceptedMeansUpdated(s, ids, front, k);
      SinceStep(l, a);
      if a.Request? && l.owed == [] {
        AcceptedIsBroadcast(l.server, a.cmd, k);
        UpdatedConcat(k, Since(l), Events(l.server, a.cmd));
      }
    }
  }

  lemma NothingUpdated(k: int)
    ensures !Updated(k, [])
  {
  }

  lemma SinceStep(l: State, a: Action)
    ensures Since(Step(l, a)) == if a.Request? && l.owed == [] then Since(l) + Events(l.server, a.cmd) else Since(l)
  {
    if a.EnqueueBroadcast? && l.owed != [] {
      BroadcastsSnoc(l.queue, Broadcast(l.owed[0]));
    } else if a.EnqueueCopy? && l.copies != [] {
      BroadcastsSnoc(l.queue, Late(l.copies[0]));
    }
  }

  lemma RunSnoc(l: State, actions: seq<Action>, a: Action)
    ensures Run(l, actions + [a]) == Step(Run(l, actions), a)
  {
    assert (actions + [a])[..|actions|] == actions;
  }

  /** Right after the copy of an order has been enqueued, the display's entry for it will be the
      server's if and only if what is still owed repairs what has been broadcast since the copy
      was made; if no update of it is owed, if and only if the server has accepted none since. */
  lemma RightAfterCopy(cmds: seq<Command>, ids: seq<int>, actions: seq<Action>, orders: OrderMap)
    requires Copied(ExecuteAll(cmds), ids)
    requires Run(Begin(ExecuteAll(cmds), ids), actions).copies != []
    ensures var b := Begin(ExecuteAll(cmds), ids);
            var l := Run(b, actions);
            var l' := Run(b, actions + [EnqueueCopy]);
            && CopyOf(ExecuteAll(cmds), l.copies[0])
            && var k := l.copies[0].order.value.id;
               var right := Lookup(Shown(orders, l'), k) == Lookup(l'.server.orders, k);
            && (right <==> Repaired(k, Broadcasts(l.queue), l.owed))
            && (!Updated(k, l.owed) ==> (right <==> !UpdateAccepted(b, actions, k)))
  {
    hide R.Enumerates, ExecuteAll, Shown, UpdateAccepted, Run, Repaired, Updated;
    var b := Begin(ExecuteAll(cmds), ids);
    var l := Run(b, actions);
    RunSnoc(b, actions, EnqueueCopy);
    var l' := Run(b, actions + [EnqueueCopy]);
    var p := |l.queue|;
    assert l'.queue[p] == Late(l.copies[0]);
    LateCopyExact(cmds, ids, actions + [EnqueueCopy], p, orders);
    var k := l.copies[0].order.value.id;
    AcceptedMeansUpdated(ExecuteAll(cmds), ids, actions, k);
    assert l'.queue[..p] == l.queue && l'.queue[p + 1..] == [];
    assert Before(l', p) == Broadcasts(l.queue) && After(l', p) == l.owed;
    UpdatedConcat(k, Broadcasts(l.queue), l.owed);
    if !Updated(k, l.owed) {
      RepairedByNothing(k, Broadcasts(l.queue), l.owed);
    }
  }

  lemma RepairedByNothing(k: int, missed: seq<Message>, later: seq<Message>)
    requires !Updated(k, later)
    ensures Repaired(k, missed, later) <==> !Updated(k, missed)
  {
  }

  // ---------------------------------------------------------------------------------
  // A delivered order comes back for good
  // ---------------------------------------------------------------------------------

  lemma {:induction false} RunGrows(l: State, actions: seq<Action>, more: seq<Action>)
    ensures Run(l, actions).queue <= Run(l, actions + more).queue
  {
    hide Step;
    if more == [] {
      assert actions + more == actions;
    } else {
      var front, a := more[..|more| - 1], more[|more| - 1];
      assert actions + more == (actions + front) + [a];
      RunSnoc(l, actions + front, a);
      StepGrows(Run(l, actions + front), a);
      RunGrows(l, actions, front);
    }
  }

  lemma StepGrows(l: State, a: Action)
    ensures l.queue <= Step(l, a).queue
  {
  }

  /** If the delivery of an order was enqueued before its late copy, then in every continuation
      the display shows the order exactly as it was copied, and the server does not have it. */
  lemma DeliveredOrderReturns(
    cmds: seq<Command>, ids: seq<int>, actions: seq<Action>, more: seq<Action>, p: nat, orders: OrderMap)
    requires Copied(ExecuteAll(cmds), ids)
    requires var l := Run(Begin(ExecuteAll(cmds), ids), actions);
             && p < |l.queue| && l.queue[p].Late? && l.queue[p].m.order.Some?
             && Delivers(l.queue[p].m.order.value.id, Before(l, p))
    ensures var b := Begin(ExecuteAll(cmds), ids);
            var l, now := Run(b, actions), Run(b, actions + more);
            var k := l.queue[p].m.order.value.id;
            && k !in now.server.orders
            && Lookup(Shown(orders, now), k) == l.queue[p].m.order
  {
    hide Run, FoldAt, Climbs, Delivers, Shown, Before, After, R.Enumerates, ExecuteAll;
    var s := ExecuteAll(cmds);
    var l, now := Run(Begin(s, ids), actions), Run(Begin(s, ids), actions + more);
    RunGrows(Begin(s, ids), actions, more);
    assert now.queue[p] == l.queue[p];
    SameBefore(l, now, p);
    KeysAlwaysIds(cmds);
    ShownEntry(s, ids, actions + more, p, orders);
    var k := l.queue[p].m.order.value.id;
    StoredWasHandedOut(cmds, k);
    RunFrom(s, ids, actions + more, k);
    SinceSplits(now, p);
    GoneForGood(s.orders[k], k, Before(now, p), After(now, p));
  }

  lemma SameBefore(l: State, now: State, p: nat)
    requires p < |l.queue| && l.queue <= now.queue
    ensures Before(now, p) == Before(l, p)
  {
    assert now.queue[..p] == l.queue[..p];
  }

  lemma GoneForGood(o: Order, k: int, missed: seq<Message>, later: seq<Message>)
    requires Climbs(Some(o), k, missed + later) && Delivers(k, missed)
    ensures FoldAt(Some(o), k, missed + later) == None
    ensures FoldAt(Some(o), k, later) == Some(o)
  {
    ClimbsConcat(Some(o), k, missed, later);
    FoldAtConcat(Some(o), k, missed, later);
    ClimbsNoCopy(Some(o), k, missed);
    DeliveredIsGone(Some(o), k, missed);
    ClimbsNoCopy(None, k, later);
    GoneStaysQuiet(k, later);
    forall i | 0 <= i < |later|
      ensures !IsCopy(later[i], k)
    {
      assert !Copies(k, later);
    }
    OthersClimb(Some(o), k, later);
  }

  /** The order of the run below, with the item as far as its status says. */
  function OneItemOrder(desc: string, status: OrderStatus, item: ItemStatus): Order {
    Order(FIRST_ORDER_ID, status, [Item(FIRST_ORDER_ID, 1, item, desc, 1)])
  }

  /** A run that reaches the bad state: an order with one item is created and done, the snapshot
      is taken, the order is delivered, and only then is its copy enqueued.  The display shows
      an order the server no longer has. */
  lemma BadRun(desc: string, orders: OrderMap)
    ensures var cmds := [CreateOrder(Order(1, OrderStatus.NEW, [Item(1, 1, ItemStatus.NEW, desc, 1)])),
                         UpdateItem(FIRST_ORDER_ID, 1, ItemStatus.IN_PROGRESS),
                         UpdateItem(FIRST_ORDER_ID, 1, ItemStatus.DONE)];
            var done := OneItemOrder(desc, OrderStatus.DONE, ItemStatus.DONE);
            && ExecuteAll(cmds).orders == map[FIRST_ORDER_ID := done]
            && Copied(ExecuteAll(cmds), [FIRST_ORDER_ID])
            && var l := Run(Begin(ExecuteAll(cmds), [FIRST_ORDER_ID]),
                            [Request(UpdateOrder(FIRST_ORDER_ID, OrderStatus.DELIVERED)),
                             EnqueueBroadcast, EnqueueCopy]);
            && l.queue == [Broadcast(WithOrderStatus(DISP_ORDER_UPDATE, FIRST_ORDER_ID, OrderStatus.DELIVERED)),
                           Late(WithOrder(DISP_ORDER, done))]
            && l.owed == [] && l.copies == []
            && l.server.orders == map[]
            && Lookup(Shown(orders, l), FIRST_ORDER_ID) == Some(done)
  {
    var cmds := [CreateOrder(Order(1, OrderStatus.NEW, [Item(1, 1, ItemStatus.NEW, desc, 1)])),
                 UpdateItem(FIRST_ORDER_ID, 1, ItemStatus.IN_PROGRESS),
                 UpdateItem(FIRST_ORDER_ID, 1, ItemStatus.DONE)];
    hide ExecuteAll, Step, Shown, Run, Lookup;
    DoneByThree(desc);
    BadSteps(ExecuteAll(cmds), FIRST_ORDER_ID, OneItemOrder(desc, OrderStatus.DONE, ItemStatus.DONE), orders);
  }

  /** The bad steps from any server whose only order is done. */
  lemma BadSteps(s: Server, k: int, done: Order, orders: OrderMap)
    requires s.orders == map[k := done] && done.id == k && done.status == OrderStatus.DONE
    ensures Copied(s, [k])
    ensures var l := Run(Begin(s, [k]),
                         [Request(UpdateOrder(k, OrderStatus.DELIVERED)), EnqueueBroadcast, EnqueueCopy]);
            && l.queue == [Broadcast(WithOrderStatus(DISP_ORDER_UPDATE, k, OrderStatus.DELIVERED)),
                           Late(WithOrder(DISP_ORDER, done))]
            && l.owed == [] && l.copies == []
            && l.server.orders == map[]
            && Lookup(Shown(orders, l), k) == Some(done)
  {
    var b := Begin(s, [k]);
    assert b.copies == [WithOrder(DISP_ORDER, done)];
    DeliverLast(s, k);
    RunThree(b, Request(UpdateOrder(k, OrderStatus.DELIVERED)), EnqueueBroadcast, EnqueueCopy);
    hide Execute, Events, Fold, Run;
    var l := Run(b, [Request(UpdateOrder(k, OrderStatus.DELIVERED)), EnqueueBroadcast, EnqueueCopy]);
    var m0, m1 := l.queue[0].m, l.queue[1].m;
    assert Enqueued(l.queue) + l.owed == [m0, m1];
    FoldTwo(orders, m0, m1);
  }

  lemma RunThree(l: State, a: Action, b: Action, c: Action)
    ensures Run(l, [a, b, c]) == Step(Step(Step(l, a), b), c)
  {
    hide Step;
    RunSnoc(l, [], a);
    RunSnoc(l, [a], b);
    RunSnoc(l, [a, b], c);
    assert [] + [a] == [a] && [a] + [b] == [a, b] && [a, b] + [c] == [a, b, c];
  }

  lemma DeliverLast(s: Server, k: int)
    requires k in s.orders && s.orders.Keys == {k} && s.orders[k].status == OrderStatus.DONE
    ensures var cmd := UpdateOrder(k, OrderStatus.DELIVERED);
            && Execute(s, cmd).orders == map[]
            && Events(s, cmd) == [WithOrderStatus(DISP_ORDER_UPDATE, k, OrderStatus.DELIVERED)]
  {
  }

  lemma DoneByThree(desc: string)
    ensures var k := FIRST_ORDER_ID;
            var s := ExecuteAll([CreateOrder(Order(1, OrderStatus.NEW, [Item(1, 1, ItemStatus.NEW, desc, 1)])),
                                 UpdateItem(k, 1, ItemStatus.IN_PROGRESS), UpdateItem(k, 1, ItemStatus.DONE)]);
            s.orders == map[k := OneItemOrder(desc, OrderStatus.DONE, ItemStatus.DONE)]
  {
    var k := FIRST_ORDER_ID;
    var c0 := CreateOrder(Order(1, OrderStatus.NEW, [Item(1, 1, ItemStatus.NEW, desc, 1)]));
    var c1, c2 := UpdateItem(k, 1, ItemStatus.IN_PROGRESS), UpdateItem(k, 1, ItemStatus.DONE);
    assert [c0, c1, c2][..2] == [c0, c1] && [c0, c1][..1] == [c0] && [c0][..0] == [];
    assert ExecuteAll([c0]) == Execute(START, c0);
    assert ExecuteAll([c0, c1]) == Execute(ExecuteAll([c0]), c1);
    assert ExecuteAll([c0, c1, c2]) == Execute(ExecuteAll([c0, c1]), c2);
    assert SetOrderId(c0.order, k) == OneItemOrder(desc, OrderStatus.NEW, ItemStatus.NEW);
    assert ExecuteAll([c0]).orders == map[k := OneItemOrder(desc, OrderStatus.NEW, ItemStatus.NEW)];
    var s0, s1 := ExecuteAll([c0]), ExecuteAll([c0, c1]);
    hide ExecuteAll;
    OneItemStep(s0, desc, OrderStatus.NEW, ItemStatus.NEW, ItemStatus.IN_PROGRESS);
    OneItemStep(s1, desc, OrderStatus.IN_PROGRESS, ItemStatus.IN_PROGRESS, ItemStatus.DONE);
  }

  lemma OneItemStep(s: Server, desc: string, status: OrderStatus, item: ItemStatus, next: ItemStatus)
    requires s.orders == map[FIRST_ORDER_ID := OneItemOrder(desc, status, item)] && LegalItemStep(item, next)
    requires status == OrderStatus.NEW <==> item == ItemStatus.NEW
    requires status == OrderStatus.NEW || status == OrderStatus.IN_PROGRESS
    ensures Execute(s, UpdateItem(FIRST_ORDER_ID, 1, next)).orders
         == map[FIRST_ORDER_ID :=
                OneItemOrder(desc, if next == ItemStatus.DONE then OrderStatus.DONE else OrderStatus.IN_PROGRESS, next)]
  {
    var o := OneItemOrder(desc, status, item);
    assert FindItem(o.items, 1) == 0;
    assert SetItemStatus(o, 1, next).items == OneItemOrder(desc, status, next).items;
    assert OneItemOrder(desc, status, next).items[0].status == next;
  }

  // ---------------------------------------------------------------------------------
  // The whole map
  // ---------------------------------------------------------------------------------

  /** What is broadcast while operations run takes the earlier orders to the later ones. */
  lemma {:induction false} LogFolds(cmds: seq<Command>, more: seq<Command>)
    ensures var s, s' := ExecuteAll(cmds), ExecuteAll(cmds + more);
            s.log <= s'.log && Fold(s.orders, s'.log[|s.log|..]) == s'.orders
  {
    hide Execute, Events;
    var s, s' := ExecuteAll(cmds), ExecuteAll(cmds + more);
    if more == [] {
      assert cmds + more == cmds && s.log[|s.log|..] == [];
    } else {
      var front, last := more[..|more| - 1], more[|more| - 1];
      assert (cmds + more)[..|cmds + more| - 1] == cmds + front;
      var mid := ExecuteAll(cmds + front);
      assert s' == Execute(mid, last);
      hide ExecuteAll, Fold;
      LogFolds(cmds, front);
      Accounting.EventsAbout(mid, last);
      EventsMirrorOutcome(mid, last);
      assert s'.log[|s.log|..] == mid.log[|s.log|..] + Events(mid, last);
      FoldConcat(s.orders, mid.log[|s.log|..], Events(mid, last));
    }
  }

  /** An order that messages leave absent is left absent by them if it was absent before. */
  lemma {:induction false} AbsentToo(e: Option<Order>, k: int, ms: seq<Message>)
    ensures FoldAt(None, k, ms) == None || FoldAt(None, k, ms) == FoldAt(e, k, ms)
    decreases |ms|
  {
    if ms != [] {
      if ApplyAt(None, k, ms[0]) == None {
        AbsentToo(ApplyAt(e, k, ms[0]), k, ms[1..]);
      } else {
        assert ApplyAt(None, k, ms[0]) == ApplyAt(e, k, ms[0]);
      }
    }
  }

  lemma {:induction false} LateAt(q: seq<Entry>, n: nat) returns (p: nat)
    requires n < |LateMessages(q)|
    ensures p < |q| && q[p].Late? && q[p].m == LateMessages(q)[n]
  {
    var front := q[..|q| - 1];
    if n < |LateMessages(front)| {
      p := LateAt(front, n);
    } else {
      p := |q| - 1;
    }
  }

  /** The messages the display got between its registration and the copying of the orders. */
  function Prior(cmds: seq<Command>, more: seq<Command>): seq<Message> {
    var n := |ExecuteAll(cmds).log|;
    var log := ExecuteAll(cmds + more).log;
    if n <= |log| then log[n..] else []
  }

  lemma OthersRight(cmds: seq<Command>, more: seq<Command>, ids: seq<int>, actions: seq<Action>, k: int)
    requires Copied(ExecuteAll(cmds + more), ids) && k !in ExecuteAll(cmds + more).orders
    ensures var l := Run(Begin(ExecuteAll(cmds + more), ids), actions);
            Lookup(Shown(Fold(map[], Prior(cmds, more)), l), k) == Lookup(l.server.orders, k)
  {
    hide Run, ExecuteAll, FoldAt, Fold, Climbs, R.Enumerates, Broadcasts, Enqueued;
    var r, s := ExecuteAll(cmds), ExecuteAll(cmds + more);
    var l := Run(Begin(s, ids), actions);
    LogFolds(cmds, more);
    KeysAlwaysIds(cmds + more);
    FoldLookup(r.orders, Prior(cmds, more), k);
    FoldLookup(map[], Prior(cmds, more), k);
    AbsentToo(Lookup(r.orders, k), k, Prior(cmds, more));
    assert Lookup(Fold(map[], Prior(cmds, more)), k) == None;
    RunFrom(s, ids, actions, k);
    FoldLookup(Fold(map[], Prior(cmds, more)), Enqueued(l.queue) + l.owed, k);
    FoldAtConcat(None, k, Enqueued(l.queue), l.owed);
    FoldAtConcat(None, k, Broadcasts(l.queue), l.owed);
    forall i | 0 <= i < |l.queue| && l.queue[i].Late?
      ensures l.queue[i].m.mtype == DISP_ORDER && !IsCopy(l.queue[i].m, k)
    {
      LateIndex(l.queue, i);
      CopyAt(s, ids, l, |LateMessages(l.queue[..i])|);
    }
    OtherCopies(None, k, l.queue);
  }

  /** The whole snapshot: once every copy has been enqueued, a display that registered before
      they were made shows exactly the server's orders, now and with what is still owed, if and
      only if for each copy all that was missed has been repaired. */
  lemma LateSnapshotExact(cmds: seq<Command>, more: seq<Command>, ids: seq<int>, actions: seq<Action>)
    requires Copied(ExecuteAll(cmds + more), ids)
    requires Run(Begin(ExecuteAll(cmds + more), ids), actions).copies == []
    ensures var l := Run(Begin(ExecuteAll(cmds + more), ids), actions);
            Shown(Fold(map[], Prior(cmds, more)), l) == l.server.orders
            <==> forall p :: 0 <= p < |l.queue| && l.queue[p].Late? ==> CopyRepaired(l, p)
  {
    hide Run, ExecuteAll, Fold, Shown, Prior, Before, After, Repaired;
    var s := ExecuteAll(cmds + more);
    var l := Run(Begin(s, ids), actions);
    var orders := Fold(map[], Prior(cmds, more));
    KeysAlwaysIds(cmds + more);
    RunFrom(s, ids, actions, 0);
    forall p | 0 <= p < |l.queue| && l.queue[p].Late?
      ensures CopyOf(s, l.queue[p].m)
      ensures var k := l.queue[p].m.order.value.id;
              CopyRepaired(l, p) <==> Lookup(Shown(orders, l), k) == Lookup(l.server.orders, k)
    {
      LateCopyExact(cmds + more, ids, actions, p, orders);
    }
    if forall p :: 0 <= p < |l.queue| && l.queue[p].Late? ==> CopyRepaired(l, p) {
      forall k: int
        ensures Lookup(Shown(orders, l), k) == Lookup(l.server.orders, k)
      {
        if k in s.orders {
          var n :| 0 <= n < |ids| && ids[n] == k;
          assert LateMessages(l.queue) == R.SnapshotMessages(s.orders, ids);
          var p := LateAt(l.queue, n);
          CopyAt(s, ids, l, n);
          assert CopyRepaired(l, p);
        } else {
          OthersRight(cmds, more, ids, actions, k);
        }
      }
      SameEntries(Shown(orders, l), l.server.orders);
    }
  }

  predicate CopyRepaired(l: State, p: nat)
    requires p < |l.queue|
  {
    l.queue[p].m.order.Some? && Repaired(l.queue[p].m.order.value.id, Before(l, p), After(l, p))
  }
}
