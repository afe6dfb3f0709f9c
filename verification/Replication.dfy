/** The server, its registered displays and everything under way between them, as one state
    machine (server.cpp, client.cpp, display_main.cpp).  A display joins by registering first
    and taking a snapshot of the orders later, so the events in between reach it twice. */
module Replication {
  import opened Messages
  import opened Orders

  datatype Phase = Registered | Live

  /** One display client.  A message broadcast to it is first owed by the server thread that
      holds the lock, then in its queue, then with its client thread, then on its connection. */
  datatype Display = Display(
    phase: Phase,
    replica: OrderMap,
    wire: seq<Message>,
    outbox: seq<Message>,
    queue: seq<Message>,
    owed: seq<Message>,
    start: nat,            // length of the server's log at registration
    history: seq<Message>) // everything ever put in this display's queue

  datatype State = State(server: Server, displays: map<int, Display>)

  datatype Action =
    | Request(cmd: Command)              // a server operation runs and owes its messages to all
    | Register(c: int)
    | Snapshot(c: int, ids: seq<int>)    // the orders are copied, in the container's order
    | Unregister(c: int)
    | Enqueue(c: int)
    | Dequeue(c: int)
    | Heartbeat(c: int)
    | Send(c: int)
    | Receive(c: int)

  const INITIAL: State := State(Orders.START, map[])

  /** No server operation is in the middle of its broadcasts. */
  ghost predicate LockFree(s: State) {
    forall c :: c in s.displays ==> s.displays[c].owed == []
  }

  ghost predicate Enumerates(ids: seq<int>, orders: OrderMap) {
    forall k :: k in orders <==> k in ids
  }

  function SnapshotMessages(orders: OrderMap, ids: seq<int>): seq<Message>
    requires forall i :: 0 <= i < |ids| ==> ids[i] in orders
  {
    seq(|ids|, i requires 0 <= i < |ids| => WithOrder(DISP_ORDER, orders[ids[i]]))
  }

  ghost predicate Enabled(s: State, a: Action) {
    match a
    case Request(cmd) => LockFree(s) && Defined(s.server, cmd)
    case Register(c) => LockFree(s) && c !in s.displays
    case Unregister(c) => LockFree(s) && c in s.displays
    case Snapshot(c, ids) =>
      LockFree(s) && c in s.displays && s.displays[c].phase == Registered && Enumerates(ids, s.server.orders)
    case Enqueue(c) => c in s.displays && s.displays[c].owed != []
    case Dequeue(c) =>
      c in s.displays && s.displays[c].phase == Live && s.displays[c].outbox == [] && s.displays[c].queue != []
    case Heartbeat(c) => c in s.displays && s.displays[c].phase == Live && s.displays[c].outbox == []
    case Send(c) => c in s.displays && s.displays[c].outbox != []
    case Receive(c) => c in s.displays && s.displays[c].wire != []
  }

  /** What an action does to the one display it is about. */
  function DisplayAfter(server: Server, d: Display, a: Action): Display {
    match a
    case Snapshot(_, ids) =>
      if forall i :: 0 <= i < |ids| ==> ids[i] in server.orders
      then d.(phase := Live, outbox := SnapshotMessages(server.orders, ids)) else d
    case Enqueue(_) =>
      if d.owed == [] then d
      else d.(queue := d.queue + [d.owed[0]], history := d.history + [d.owed[0]], owed := d.owed[1..])
    case Dequeue(_) => if d.queue == [] then d else d.(outbox := [d.queue[0]], queue := d.queue[1..])
    case Heartbeat(_) => d.(outbox := [Plain(DISP_HEARTBEAT)])
    case Send(_) => if d.outbox == [] then d else d.(wire := d.wire + [d.outbox[0]], outbox := d.outbox[1..])
    case Receive(_) => if d.wire == [] then d else d.(replica := Apply(d.replica, d.wire[0]), wire := d.wire[1..])
    case _ => d
  }

  /** A step; an action that is not enabled leaves the state alone, so that every sequence of
      actions is a run. */
  ghost function Step(s: State, a: Action): State {
    if !Enabled(s, a) then s
    else match a
      case Request(cmd) =>
        State(Execute(s.server, cmd),
              map c | c in s.displays :: s.displays[c].(owed := Events(s.server, cmd)))
      case Register(c) =>
        s.(displays := s.displays[c := Display(Registered, map[], [], [], [], [], |s.server.log|, [])])
      case Unregister(c) => s.(displays := s.displays - {c})
      case _ => s.(displays := s.displays[a.c := DisplayAfter(s.server, s.displays[a.c], a)])
  }

  /** What an action does to a display that is registered before and after it. */
  function NextDisplay(server: Server, c: int, d: Display, a: Action): Display {
    match a
    case Request(cmd) => d.(owed := Events(server, cmd))
    case Register(_) => d
    case Unregister(_) => d
    case _ => if a.c == c then DisplayAfter(server, d, a) else d
  }

  function NextClients(clients: set<int>, a: Action): set<int> {
    match a
    case Register(c) => clients + {c}
    case Unregister(c) => clients - {c}
    case _ => clients
  }

  lemma StepByDisplay(s: State, a: Action)
    requires Enabled(s, a)
    ensures var s' := Step(s, a);
            && s'.server == (if a.Request? then Execute(s.server, a.cmd) else s.server)
            && s'.displays.Keys == NextClients(s.displays.Keys, a)
            && (forall c :: c in s.displays && c in s'.displays ==>
                  s'.displays[c] == NextDisplay(s.server, c, s.displays[c], a))
            && (a.Register? ==> s'.displays[a.c] == Display(Registered, map[], [], [], [], [], |s.server.log|, []))
  {
    hide LockFree, Enumerates, DisplayAfter, Events, Execute;
  }

  ghost function Run(actions: seq<Action>): State {
    if actions == [] then INITIAL
    else Step(Run(actions[..|actions| - 1]), actions[|actions| - 1])
  }

  /** Everything broadcast or copied for a display that it has not applied yet, in order. */
  function Undelivered(d: Display): seq<Message> {
    d.wire + d.outbox + d.queue + d.owed
  }

  // ---------------------------------------------------------------------------------
  // The invariant
  // ---------------------------------------------------------------------------------

  ghost predicate KeysAreIds(orders: OrderMap) {
    forall k :: k in orders ==> orders[k].id == k
  }

  ghost predicate AllAccepted(ms: seq<Message>) {
    forall i :: 0 <= i < |ms| ==> Accepts(ms[i])
  }

  /** Before its snapshot a display holds nothing, and what it has been sent so far would not
      change the server's map; afterwards its replica and the undelivered messages make it up. */
  ghost predicate Converging(server: Server, d: Display) {
    if d.phase == Registered then
      && d.replica == map[] && d.wire == [] && d.outbox == []
      && Fold(server.orders, d.queue + d.owed) == server.orders
    else
      Fold(d.replica, Undelivered(d)) == server.orders
  }

  ghost predicate DisplayInv(server: Server, d: Display) {
    && Converging(server, d)
    && AllAccepted(Undelivered(d))
    && d.start <= |server.log|
    && d.history + d.owed == server.log[d.start..]
  }

  ghost predicate Inv(s: State) {
    && KeysAreIds(s.server.orders)
    && forall c :: c in s.displays ==> DisplayInv(s.server, s.displays[c])
  }

  lemma KeysStayIds(s: Server, cmd: Command)
    requires KeysAreIds(s.orders)
    ensures KeysAreIds(Execute(s, cmd).orders)
  {
  }

  /** A map that q leaves alone, moved by events, is left alone by q followed by the events. */
  lemma {:induction false} AbsorbEvents(orders: OrderMap, q: seq<Message>, events: seq<Message>)
    requires Fold(orders, q) == orders
    ensures Fold(Fold(orders, events), q + events) == Fold(orders, events)
  {
    if events == [] {
      assert q + events == q;
    } else {
      var p, e := events[..|events| - 1], events[|events| - 1];
      var t := Fold(orders, p);
      assert events == p + [e] && q + events == q + p + [e];
      FoldSnoc(orders, p, e);
      AbsorbEvents(orders, q, p);
      Absorb(t, q + p, e);
      FoldSnoc(t, q + p, e);
    }
  }

  lemma RequestKeepsDisplay(server: Server, cmd: Command, d: Display)
    requires DisplayInv(server, d) && d.owed == []
    ensures DisplayInv(Execute(server, cmd), d.(owed := Events(server, cmd)))
  {
    var events := Events(server, cmd);
    var d' := d.(owed := events);
    EventsMirrorOutcome(server, cmd);
    LogAfter(server, cmd);
    hide Execute, Events, Fold, Accepts;
    assert d.queue + d.owed == d.queue;
    assert Undelivered(d') == Undelivered(d) + events;
    if d.phase == Registered {
      AbsorbEvents(server.orders, d.queue, events);
    } else {
      FoldConcat(d.replica, Undelivered(d), events);
    }
    assert Execute(server, cmd).log[d.start..] == server.log[d.start..] + events;
    assert d.history + d.owed == d.history;
  }

  lemma LogAfter(server: Server, cmd: Command)
    ensures Execute(server, cmd).log == server.log + Events(server, cmd)
  {
  }

  /** Folding a snapshot from nothing gives the map it was taken from, in whatever order. */
  lemma {:induction false} FoldSnapshot(orders: OrderMap, ids: seq<int>)
    requires KeysAreIds(orders) && forall i :: 0 <= i < |ids| ==> ids[i] in orders
    ensures Fold(map[], SnapshotMessages(orders, ids)) == map k | k in ids :: orders[k]
  {
    var ms := SnapshotMessages(orders, ids);
    if ids == [] {
      assert ms == [];
    } else {
      var front, k := ids[..|ids| - 1], ids[|ids| - 1];
      assert ms == SnapshotMessages(orders, front) + [WithOrder(DISP_ORDER, orders[k])];
      FoldSnoc(map[], SnapshotMessages(orders, front), WithOrder(DISP_ORDER, orders[k]));
      FoldSnapshot(orders, front);
      assert forall j :: j in ids <==> j in front || j == k;
    }
  }

  lemma SnapshotKeepsDisplay(server: Server, d: Display, a: Action)
    requires a.Snapshot? && KeysAreIds(server.orders) && Enumerates(a.ids, server.orders)
    requires DisplayInv(server, d) && d.phase == Registered && d.owed == []
    ensures DisplayInv(server, DisplayAfter(server, d, a))
  {
    var d' := DisplayAfter(server, d, a);
    forall i | 0 <= i < |a.ids|
      ensures a.ids[i] in server.orders
    {
      var k := a.ids[i];
      assert k in a.ids;
    }
    FoldSnapshot(server.orders, a.ids);
    var copy := map k | k in a.ids :: server.orders[k];
    assert forall k :: k in copy <==> k in server.orders;
    assert copy == server.orders;
    assert Undelivered(d') == d'.outbox + (d.queue + d.owed);
    assert Undelivered(d) == d.queue + d.owed;
    FoldConcat(map[], d'.outbox, d.queue + d.owed);
  }

  lemma ReceiveKeepsDisplay(server: Server, d: Display, a: Action)
    requires a.Receive? && DisplayInv(server, d) && d.wire != []
    ensures DisplayInv(server, DisplayAfter(server, d, a))
  {
    var u, u' := Undelivered(d), Undelivered(DisplayAfter(server, d, a));
    assert u[0] == d.wire[0] && u' == u[1..];
    hide Accepts, Apply, Undelivered;
  }

  /** Moving the next message one stage along changes nothing that is undelivered;
      receiving it applies exactly the first of it. */
  lemma TransitKeepsDisplay(server: Server, d: Display, a: Action)
    requires a.Enqueue? || a.Dequeue? || a.Send? || a.Receive?
    requires DisplayInv(server, d)
    requires a.Dequeue? ==> d.phase == Live && d.outbox == [] && d.queue != []
    requires a.Enqueue? ==> d.owed != []
    requires a.Send? ==> d.outbox != []
    requires a.Receive? ==> d.wire != []
    ensures DisplayInv(server, DisplayAfter(server, d, a))
  {
    hide Fold, Accepts;
    var d' := DisplayAfter(server, d, a);
    if a.Receive? {
      ReceiveKeepsDisplay(server, d, a);
    } else if a.Enqueue? {
      assert d'.queue + d'.owed == d.queue + d.owed;
      assert d'.history + d'.owed == d.history + d.owed;
      assert Undelivered(d') == Undelivered(d);
    } else {
      assert Undelivered(d') == Undelivered(d);
    }
  }

  lemma HeartbeatKeepsDisplay(server: Server, d: Display, a: Action)
    requires a.Heartbeat?
    requires DisplayInv(server, d) && d.phase == Live && d.outbox == []
    ensures DisplayInv(server, DisplayAfter(server, d, a))
  {
    var beat, rest := [Plain(DISP_HEARTBEAT)], d.queue + d.owed;
    var u' := Undelivered(DisplayAfter(server, d, a));
    assert Undelivered(d) == d.wire + rest;
    assert u' == d.wire + (beat + rest);
    forall i | 0 <= i < |u'|
      ensures Accepts(u'[i])
    {
      assert i > |d.wire| ==> u'[i] == Undelivered(d)[i - 1];
      assert i < |d.wire| ==> u'[i] == Undelivered(d)[i];
    }
    FoldConcat(d.replica, d.wire, rest);
    FoldConcat(d.replica, d.wire, beat + rest);
    FoldConcat(Fold(d.replica, d.wire), beat, rest);
    FoldTwo(Fold(d.replica, d.wire), beat[0], beat[0]);
  }

  lemma StepKeepsInv(s: State, a: Action)
    requires Inv(s)
    ensures Inv(Step(s, a))
  {
    if Enabled(s, a) {
      match a
      case Request(cmd) =>
        KeysStayIds(s.server, cmd);
        forall c | c in s.displays
          ensures DisplayInv(Execute(s.server, cmd), s.displays[c].(owed := Events(s.server, cmd)))
        {
          RequestKeepsDisplay(s.server, cmd, s.displays[c]);
        }
      case Register(c) =>
      case Unregister(c) =>
      case Snapshot(c, _) => SnapshotKeepsDisplay(s.server, s.displays[c], a);
      case Heartbeat(c) => HeartbeatKeepsDisplay(s.server, s.displays[c], a);
      case _ => TransitKeepsDisplay(s.server, s.displays[a.c], a);
    }
  }

  lemma {:induction false} RunKeepsInv(actions: seq<Action>)
    ensures Inv(Run(actions))
  {
    if actions != [] {
      RunKeepsInv(actions[..|actions| - 1]);
      StepKeepsInv(Run(actions[..|actions| - 1]), actions[|actions| - 1]);
    }
  }

  // ---------------------------------------------------------------------------------
  // What every run guarantees
  // ---------------------------------------------------------------------------------

  /** Convergence: at every moment of every run, a display past its snapshot that applied all
      that is still under way to it would hold exactly the server's orders; in particular one
      with nothing under way does hold them. */
  lemma Convergence(actions: seq<Action>, c: int)
    ensures var s := Run(actions);
            c in s.displays && s.displays[c].phase == Live ==>
              && Fold(s.displays[c].replica, Undelivered(s.displays[c])) == s.server.orders
              && (Undelivered(s.displays[c]) == [] ==> s.displays[c].replica == s.server.orders)
  {
    RunKeepsInv(actions);
  }

  /** No display ever meets a message it answers with a ProtocolError. */
  lemma NoProtocolError(actions: seq<Action>, c: int)
    ensures var s := Run(actions);
            c in s.displays ==> forall i :: 0 <= i < |s.displays[c].wire| ==> Accepts(s.displays[c].wire[i])
  {
    RunKeepsInv(actions);
    var s := Run(actions);
    if c in s.displays {
      var d := s.displays[c];
      forall i | 0 <= i < |d.wire|
        ensures Accepts(d.wire[i])
      {
        assert d.wire[i] == Undelivered(d)[i];
      }
    }
  }

  /** Total order: what has been put in a display's queue is a contiguous stretch of the one
      global log, from the moment the display registered on, with nothing missing when no
      broadcast is under way. */
  lemma HistoryIsLogSegment(actions: seq<Action>, c: int)
    ensures var s := Run(actions);
            c in s.displays ==>
              var d := s.displays[c];
              && d.start + |d.history| <= |s.server.log|
              && d.history == s.server.log[d.start..d.start + |d.history|]
              && (LockFree(s) ==> d.history == s.server.log[d.start..])
  {
    RunKeepsInv(actions);
    var s := Run(actions);
    if c in s.displays {
      var d := s.displays[c];
      var l := d.history + d.owed;
      assert d.history == l[..|d.history|];
      assert s.server.log[d.start..][..|d.history|] == s.server.log[d.start..d.start + |d.history|];
      if LockFree(s) {
        assert l == d.history;
      }
    }
  }

  /** Any two displays see the events they share in the same order: at any log position both
      have received, they received the same message. */
  lemma DisplaysAgree(actions: seq<Action>, c1: int, c2: int, pos: nat)
    ensures var s := Run(actions);
            c1 in s.displays && c2 in s.displays ==>
              var d1, d2 := s.displays[c1], s.displays[c2];
              d1.start <= pos < d1.start + |d1.history| && d2.start <= pos < d2.start + |d2.history| ==>
                d1.history[pos - d1.start] == d2.history[pos - d2.start]
  {
    HistoryIsLogSegment(actions, c1);
    HistoryIsLogSegment(actions, c2);
  }

  // ---------------------------------------------------------------------------------
  // Every display can catch up
  // ---------------------------------------------------------------------------------

  /** How many steps the messages under way to a display still have to take. */
  function Distance(d: Display): nat {
    |d.wire| + 2 * |d.outbox| + 3 * |d.queue| + 4 * |d.owed|
  }

  /** The next step that brings a message of this display closer to it. */
  function NextDelivery(c: int, d: Display): Action {
    if d.wire != [] then Receive(c)
    else if d.outbox != [] then Send(c)
    else if d.queue != [] then Dequeue(c)
    else Enqueue(c)
  }

  ghost function Resume(s: State, actions: seq<Action>): State
    decreases |actions|
  {
    if actions == [] then s else Resume(Step(s, actions[0]), actions[1..])
  }

  /** The next delivery step brings what is under way to a display one step closer. */
  lemma DeliveryStep(s: State, c: int)
    requires c in s.displays && s.displays[c].phase == Live && Undelivered(s.displays[c]) != []
    ensures var a := NextDelivery(c, s.displays[c]); var s' := Step(s, a);
            && (a == Enqueue(c) || a == Dequeue(c) || a == Send(c) || a == Receive(c))
            && s'.server == s.server && c in s'.displays && s'.displays - {c} == s.displays - {c}
            && s'.displays[c].phase == Live
            && Distance(s'.displays[c]) < Distance(s.displays[c])
  {
    var d := s.displays[c];
    var a := NextDelivery(c, d);
    assert Enabled(s, a);
    assert Step(s, a).displays[c] == DisplayAfter(s.server, d, a);
    hide Enabled;
  }

  lemma NothingLeft(d: Display)
    requires Undelivered(d) == []
    ensures Fold(d.replica, Undelivered(d)) == d.replica
  {
  }

  /** From any state the invariant holds in, delivery steps alone, at most Distance of them, bring a live
      display to exactly the server's current orders, and touch neither the server nor any
      other display. */
  lemma {:induction false} CatchUp(s: State, c: int) returns (actions: seq<Action>)
    requires Inv(s) && c in s.displays && s.displays[c].phase == Live
    ensures |actions| <= Distance(s.displays[c])
    ensures forall i :: 0 <= i < |actions| ==>
              actions[i] == Enqueue(c) || actions[i] == Dequeue(c) || actions[i] == Send(c) || actions[i] == Receive(c)
    ensures var t := Resume(s, actions);
            && t.server == s.server && c in t.displays && t.displays - {c} == s.displays - {c}
            && t.displays[c].replica == s.server.orders && Undelivered(t.displays[c]) == []
    decreases Distance(s.displays[c])
  {
    var d := s.displays[c];
    if Undelivered(d) == [] {
      actions := [];
      NothingLeft(d);
    } else {
      hide Inv, Step, Undelivered, Converging;
      var a := NextDelivery(c, d);
      var s' := Step(s, a);
      StepKeepsInv(s, a);
      DeliveryStep(s, c);
      var rest := CatchUp(s', c);
      actions := [a] + rest;
      assert actions[1..] == rest;
    }
  }

  lemma {:induction false} ResumeRuns(actions: seq<Action>, more: seq<Action>)
    ensures Resume(Run(actions), more) == Run(actions + more)
    decreases |more|
  {
    hide Step;
    if more == [] {
      assert actions + more == actions;
    } else {
      assert (actions + [more[0]])[..|actions|] == actions;
      ResumeRuns(actions + [more[0]], more[1..]);
      assert actions + [more[0]] + more[1..] == actions + more;
    }
  }

  /** Every run can be prolonged by deliveries to a live display alone until that display holds
      exactly the orders the server holds, which are those it held before. */
  lemma EveryRunCanConverge(actions: seq<Action>, c: int) returns (more: seq<Action>)
    requires c in Run(actions).displays && Run(actions).displays[c].phase == Live
    ensures |more| <= Distance(Run(actions).displays[c])
    ensures var s := Run(actions + more);
            && s.server == Run(actions).server
            && c in s.displays && s.displays[c].replica == s.server.orders
  {
    hide Run, Resume;
    RunKeepsInv(actions);
    more := CatchUp(Run(actions), c);
    ResumeRuns(actions, more);
  }
}
