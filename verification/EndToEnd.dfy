/** From an accepted request to a display's screen: the event machine, the wire format, the
    framing and the display's receive loop together. */
module EndToEnd {
  import opened Wrappers
  import opened Model
  import opened Messages
  import opened Numerals
  import opened Splitting
  import opened Orders
  import opened Replication
  import opened Wire
  import opened WireNormal
  import opened Framing
  import opened Transport
  import opened Lifetimes
  import opened Room
  import Accounting
  import DisplayCode
  import Sessions
  import LateSnapshot
  import MessageCode
  import Format
  import opened Descriptors
  import C = Concurrency
  import I = Interleavings

  // ---------------------------------------------------------------------------------
  // The server of a run
  // ---------------------------------------------------------------------------------

  /** The server operations that took place in a run. */
  ghost function Requests(actions: seq<Action>): seq<Command> {
    if actions == [] then []
    else
      var front, a := actions[..|actions| - 1], actions[|actions| - 1];
      Requests(front) + if a.Request? && Enabled(Run(front), a) then [a.cmd] else []
  }

  lemma {:induction false} RunExecutes(actions: seq<Action>)
    ensures Run(actions).server == ExecuteAll(Requests(actions))
  {
    hide Enabled, Execute;
    if actions != [] {
      var front, a := actions[..|actions| - 1], actions[|actions| - 1];
      RunExecutes(front);
      assert Requests(front) + [] == Requests(front);
      if Enabled(Run(front), a) {
        StepByDisplay(Run(front), a);
        if a.Request? {
          assert (Requests(front) + [a.cmd])[..|Requests(front)|] == Requests(front);
        }
      }
    }
  }

  /** A display that has nothing under way shows, for every order created NEW with all items
      NEW, the status its items imply, and never DELIVERED. */
  lemma CaughtUpShowsDerived(actions: seq<Action>, c: int, k: int, born: Order)
    ensures var s := Run(actions);
            c in s.displays && s.displays[c].phase == Live && Undelivered(s.displays[c]) == []
            && k in s.displays[c].replica && Accounting.Created(s.server, k, born) && Accounting.BornNew(born) ==>
              var o := s.displays[c].replica[k];
              && (o.status == OrderStatus.NEW <==> Accounting.AllNew(o.items))
              && (o.items != [] ==> (o.status == OrderStatus.DONE <==> AllDone(o.items)))
              && (!Accounting.AllNew(o.items) && !AllDone(o.items) ==> o.status == OrderStatus.IN_PROGRESS)
              && o.status != OrderStatus.DELIVERED
  {
    hide Run, Accounting.Created;
    Convergence(actions, c);
    RunExecutes(actions);
    Accounting.StatusIsDerived(Requests(actions), k, born);
  }

  // ---------------------------------------------------------------------------------
  // Everything a display is sent fits the wire
  // ---------------------------------------------------------------------------------

  /** A creation request that leaves exactly the room that the DISP_ORDER messages of its order
      can come to need, with the id it is handed. */
  predicate Admissible(s: Server, cmd: Command) {
    cmd.CreateOrder? && Defined(s, cmd) ==>
      && GoodOrder(cmd.order) && cmd.order.id == 1
      && Encode(WithOrder(ORDER_NEW, cmd.order)).Success?
      && WorstLength(cmd.order, s.nextOrderId) <= MAX_PAYLOAD
  }

  predicate FitOrder(o: Order) {
    GoodOrder(o) && Encode(WithOrder(DISP_ORDER, o)).Success? && Peak(o) <= MAX_PAYLOAD
  }

  ghost predicate ServerFit(s: Server) {
    && KeysAreIds(s.orders)
    && (forall k :: k in s.orders ==> FitOrder(s.orders[k]) && k < s.nextOrderId)
    && FIRST_ORDER_ID <= s.nextOrderId <= INT_MAX
  }

  lemma OrderMessageSendable(o: Order)
    requires FitOrder(o)
    ensures Sendable(WithOrder(DISP_ORDER, o))
  {
    SendableByLength(o);
    hide Sendable, GoodOrder, Encode, Growth;
  }

  lemma FourParts(a: string, b: string, c: string, d: string, e: char)
    ensures |Join([a, b, c], e)| == |a| + |b| + |c| + 2
    ensures |Join([a, b, c, d], e)| == |a| + |b| + |c| + |d| + 3
  {
    JoinLength([a, b, c], e);
    JoinLength([a, b, c, d], e);
    assert [a, b, c, d][1..] == [b, c, d] && [b, c, d][1..] == [c, d] && [c, d][1..] == [d] && [d][1..] == [];
    assert [a, b, c][1..] == [b, c] && [b, c][1..] == [c] && [c][1..] == [];
    assert TotalLength([c]) == |c| && TotalLength([d]) == |d|;
    assert TotalLength([b, c]) == |b| + |c|;
    assert TotalLength([c, d]) == |c| + |d|;
    assert TotalLength([b, c, d]) == |b| + TotalLength([c, d]);
  }

  lemma ItemUpdateSendable(k: int, itemId: int, status: ItemStatus)
    requires IsId(k) && IsId(itemId) && status != ItemStatus.INVALID
    ensures Sendable(WithItemStatus(DISP_ITEM_UPDATE, k, itemId, status))
  {
    var m := WithItemStatus(DISP_ITEM_UPDATE, k, itemId, status);
    var name := MessageTypeToStr(DISP_ITEM_UPDATE);
    IntLength(k);
    IntLength(itemId);
    FourParts(name, ToString(k), ToString(itemId), ItemStatusToStr(status), '|');
    assert [name] + [ToString(k), ToString(itemId), ItemStatusToStr(status)]
        == [name, ToString(k), ToString(itemId), ItemStatusToStr(status)];
    hide ToString, Join;
    assert Payload(m) == Success([ToString(k), ToString(itemId), ItemStatusToStr(status)]);
  }

  lemma OrderUpdateSendable(k: int, status: OrderStatus)
    requires IsId(k) && status != OrderStatus.INVALID
    ensures Sendable(WithOrderStatus(DISP_ORDER_UPDATE, k, status))
  {
    var m := WithOrderStatus(DISP_ORDER_UPDATE, k, status);
    var name := MessageTypeToStr(DISP_ORDER_UPDATE);
    IntLength(k);
    FourParts(name, ToString(k), OrderStatusToStr(status), "", '|');
    assert [name] + [ToString(k), OrderStatusToStr(status)] == [name, ToString(k), OrderStatusToStr(status)];
    hide ToString, Join;
    assert Payload(m) == Success([ToString(k), OrderStatusToStr(status)]);
  }

  lemma HeartbeatSendable()
    ensures Sendable(Plain(DISP_HEARTBEAT))
  {
    var m := Plain(DISP_HEARTBEAT);
    assert [MessageTypeToStr(m.mtype)] + [] == [MessageTypeToStr(m.mtype)];
    assert Payload(m) == Success([]);
  }

  // ---------------------------------------------------------------------------------
  // Fitness is kept
  // ---------------------------------------------------------------------------------

  lemma CreateFits(s: Server, order: Order)
    requires ServerFit(s) && Admissible(s, CreateOrder(order)) && Defined(s, CreateOrder(order))
    ensures FitOrder(SetOrderId(order, s.nextOrderId))
  {
    hide GoodOrder, Encode, WorstLength, Peak;
    PeakOfRequest(order, s.nextOrderId);
  }

  lemma UpdateFits(o: Order, itemId: int, s: ItemStatus)
    requires FitOrder(o) && Accepted(o, itemId, s)
    ensures FitOrder(Updated(o, itemId, s)) && IsId(itemId) && s != ItemStatus.INVALID
  {
    assert GoodItem(o.items[FindItem(o.items, itemId)]);
    hide Free, Encode, Peak;
    PeakFalls(o, itemId, s);
    hide GoodOrder, Updated;
  }

  lemma ExecuteFits(s: Server, cmd: Command)
    requires ServerFit(s) && Admissible(s, cmd)
    ensures ServerFit(Execute(s, cmd))
  {
    KeysStayIds(s, cmd);
    var s' := Execute(s, cmd);
    assert s.nextOrderId <= s'.nextOrderId <= INT_MAX;
    hide FitOrder, Admissible, Accepted, Updated, SetOrderId;
    forall k | k in s'.orders
      ensures FitOrder(s'.orders[k]) && k < s'.nextOrderId
    {
      if k in s.orders {
        ExecuteEntry(s, cmd, k);
        if cmd.UpdateItem? && Accepted(s.orders[k], cmd.itemId, cmd.itemStatus) {
          UpdateFits(s.orders[k], cmd.itemId, cmd.itemStatus);
        }
      } else {
        NewEntry(s, cmd, k);
        CreateFits(s, cmd.order);
      }
    }
  }

  lemma NewEntry(s: Server, cmd: Command, k: int)
    requires k !in s.orders && k in Execute(s, cmd).orders
    ensures cmd.CreateOrder? && Defined(s, cmd) && k == s.nextOrderId < Execute(s, cmd).nextOrderId
    ensures Execute(s, cmd).orders[k] == SetOrderId(cmd.order, k)
  {
  }

  lemma ItemEventsFit(o: Order, k: int, itemId: int, s: ItemStatus)
    requires FitOrder(o) && o.id == k && Accepted(o, itemId, s)
    ensures AllSendable(ItemEvents(o, Updated(o, itemId, s), k, itemId, s))
  {
    var o' := Updated(o, itemId, s);
    UpdateFits(o, itemId, s);
    assert IsId(k) && o'.status != OrderStatus.INVALID;
    ItemUpdateSendable(k, itemId, s);
    OrderUpdateSendable(k, o'.status);
    hide Sendable, FitOrder, Updated, Accepted;
  }

  lemma EventsFit(s: Server, cmd: Command)
    requires ServerFit(s) && Admissible(s, cmd)
    ensures AllSendable(Events(s, cmd))
  {
    if Defined(s, cmd) && Outcome(s, cmd).Success? {
      match cmd
      case CreateOrder(order) =>
        CreateFits(s, order);
        OrderMessageSendable(SetOrderId(order, s.nextOrderId));
        hide Sendable;
      case UpdateItem(k, itemId, status) =>
        ItemEventsFit(s.orders[k], k, itemId, status);
        hide AllSendable, FitOrder, SetItemStatus, FindItem, NextOrderStatus, ItemEvents;
      case UpdateOrder(k, status) =>
        assert FitOrder(s.orders[k]);
        OrderUpdateSendable(k, status);
        hide Sendable;
    }
  }

  ghost predicate SystemFit(s: State) {
    ServerFit(s.server) && forall c :: c in s.displays ==> AllSendable(Undelivered(s.displays[c]))
  }

  lemma SnapshotFits(server: Server, ids: seq<int>)
    requires ServerFit(server) && forall i :: 0 <= i < |ids| ==> ids[i] in server.orders
    ensures AllSendable(SnapshotMessages(server.orders, ids))
  {
    hide FitOrder, Sendable;
    forall i | 0 <= i < |ids|
      ensures Sendable(SnapshotMessages(server.orders, ids)[i])
    {
      var k := ids[i];
      assert k in server.orders;
      OrderMessageSendable(server.orders[k]);
    }
  }

  lemma AllSendableConcat(a: seq<Message>, b: seq<Message>)
    ensures AllSendable(a + b) <==> AllSendable(a) && AllSendable(b)
  {
    hide Sendable;
    forall i | 0 <= i < |a|
      ensures AllSendable(a + b) ==> Sendable(a[i])
    {
      assert (a + b)[i] == a[i];
    }
    forall i | 0 <= i < |b|
      ensures AllSendable(a + b) ==> Sendable(b[i])
    {
      assert (a + b)[|a| + i] == b[i];
    }
  }

  /** Stage by stage, what is under way to a display. */
  lemma UndeliveredSendable(d: Display)
    ensures AllSendable(Undelivered(d))
       <==> AllSendable(d.wire) && AllSendable(d.outbox) && AllSendable(d.queue) && AllSendable(d.owed)
  {
    hide AllSendable;
    AllSendableConcat(d.wire, d.outbox);
    AllSendableConcat(d.wire + d.outbox, d.queue);
    AllSendableConcat(d.wire + d.outbox + d.queue, d.owed);
  }

  lemma DisplayFits(server: Server, c: int, d: Display, a: Action)
    requires ServerFit(server) && (a.Request? ==> Admissible(server, a.cmd)) && AllSendable(Undelivered(d))
    ensures AllSendable(Undelivered(NextDisplay(server, c, d, a)))
  {
    hide Sendable, ServerFit, Admissible, Undelivered, Execute, Events;
    UndeliveredSendable(d);
    UndeliveredSendable(NextDisplay(server, c, d, a));
    match a
    case Request(cmd) => EventsFit(server, cmd);
    case Snapshot(_, ids) =>
      if forall i :: 0 <= i < |ids| ==> ids[i] in server.orders {
        SnapshotFits(server, ids);
      }
    case Heartbeat(_) => HeartbeatSendable();
    case _ =>
  }

  /** Every creation that takes place in the run is admissible when it does. */
  ghost predicate AllAdmissible(actions: seq<Action>) {
    forall i :: 0 <= i < |actions| && actions[i].Request? && Enabled(Run(actions[..i]), actions[i]) ==>
      Admissible(Run(actions[..i]).server, actions[i].cmd)
  }

  lemma FrontAdmissible(actions: seq<Action>)
    requires actions != [] && AllAdmissible(actions)
    ensures var front, a := actions[..|actions| - 1], actions[|actions| - 1];
            AllAdmissible(front) && (a.Request? && Enabled(Run(front), a) ==> Admissible(Run(front).server, a.cmd))
  {
    var front := actions[..|actions| - 1];
    hide Admissible, Enabled, Run;
    forall i | 0 <= i < |front| && front[i].Request? && Enabled(Run(front[..i]), front[i])
      ensures Admissible(Run(front[..i]).server, front[i].cmd)
    {
      assert front[..i] == actions[..i] && front[i] == actions[i];
    }
  }

  lemma {:induction false} RunFits(actions: seq<Action>)
    requires AllAdmissible(actions)
    ensures SystemFit(Run(actions))
  {
    if actions != [] {
      var front, a := actions[..|actions| - 1], actions[|actions| - 1];
      hide Admissible, AllAdmissible, ServerFit, AllSendable, Enabled, Undelivered, NextDisplay;
      FrontAdmissible(actions);
      RunFits(front);
      StepFits(Run(front), a);
    } else {
      hide AllSendable;
    }
  }

  lemma StepFits(s: State, a: Action)
    requires SystemFit(s) && (a.Request? && Enabled(s, a) ==> Admissible(s.server, a.cmd))
    ensures SystemFit(Step(s, a))
  {
    hide Admissible, ServerFit, AllSendable, Undelivered, NextDisplay, Execute, Enabled;
    if Enabled(s, a) {
      StepByDisplay(s, a);
      if a.Request? {
        ExecuteFits(s.server, a.cmd);
      }
      forall c | c in Step(s, a).displays
        ensures AllSendable(Undelivered(Step(s, a).displays[c]))
      {
        if c in s.displays && !(a.Register? && a.c == c) {
          DisplayFits(s.server, c, s.displays[c], a);
        } else {
          NothingUnderWay(|s.server.log|);
        }
      }
    }
  }

  lemma NothingUnderWay(start: nat)
    ensures AllSendable(Undelivered(Display(Registered, map[], [], [], [], [], start, [])))
  {
  }

  // ---------------------------------------------------------------------------------
  // The screen
  // ---------------------------------------------------------------------------------

  /** Reading messages off the wire is folding them. */
  lemma {:induction false} ShowsStream(orders: OrderMap, ms: seq<Message>, rest: string)
    requires AllSendable(ms) && AllAccepted(ms)
    ensures DisplayCode.Shows(orders, StreamOf(ms) + rest) == DisplayCode.Shows(Fold(orders, ms), rest)
    decreases |ms|
  {
    hide Sendable, Accepts, Apply, ReceiveMessage;
    if ms == [] {
      assert StreamOf(ms) + rest == rest;
    } else {
      AllSendableCons(ms);
      Sessions.RequestArrives(ms, rest);
      ReceiveShrinks(StreamOf(ms) + rest);
      ShowsStream(Apply(orders, ms[0]), ms[1..], rest);
      assert Accepts(ms[0]);
    }
  }

  /** A message that arrives is applied if it is one of the four kinds for displays, an order
      being there where one belongs; any other ends the display with a ProtocolError. */
  lemma ShowsNext(orders: OrderMap, m: Message, rest: string)
    requires Sendable(m)
    ensures DisplayCode.Shows(orders, Frame(Encode(m).value) + rest)
         == if || m.mtype == DISP_ORDER || m.mtype == DISP_ITEM_UPDATE || m.mtype == DISP_ORDER_UPDATE
               || m.mtype == DISP_HEARTBEAT
            then DisplayCode.Shows(Apply(orders, m), rest) else (orders, ProtocolError)
  {
    assert m.mtype == DISP_ORDER ==> m.order.Some?;
    hide Sendable, Frame, Encode, ReceiveMessage;
    SendableArrives(m, rest);
    ReceiveShrinks(Frame(Encode(m).value) + rest);
  }

  /** Bytes that are no frame end it with an IOException, and a text that is no message with an
      InvalidMessage; what it shows stays. */
  lemma ShowsNoMore(orders: OrderMap, stream: string)
    ensures var frame := ReceiveFrame(stream);
            && (frame.Failure? ==> DisplayCode.Shows(orders, stream) == (orders, IOException))
            && (frame.Success? && Decode(frame.value.0).Failure? ==>
                  DisplayCode.Shows(orders, stream) == (orders, InvalidMessage))
  {
    FrameShrinks(stream);
    if ReceiveFrame(stream).Success? {
      Format.DecodeFails(ReceiveFrame(stream).value.0);
    }
    hide ReceiveFrame, Decode, Accepts;
  }

  /** End to end: in every run whose orders are requested with the room they need, the bytes of all
      that is under way to a live display are read by its receive loop without any exception
      but the end of the stream, and leave it with exactly the server's orders. */
  lemma ScreenConverges(actions: seq<Action>, c: int)
    requires AllAdmissible(actions)
    ensures var s := Run(actions);
            c in s.displays && s.displays[c].phase == Live ==>
              DisplayCode.Shows(s.displays[c].replica, StreamOf(Undelivered(s.displays[c])))
              == (s.server.orders, IOException)
  {
    hide Run, Undelivered, Fold, AllSendable, ServerFit, AllAccepted;
    var s := Run(actions);
    if c in s.displays && s.displays[c].phase == Live {
      var d := s.displays[c];
      RunFits(actions);
      Convergence(actions, c);
      Replication.RunKeepsInv(actions);
      ShowsStream(d.replica, Undelivered(d), "");
      assert StreamOf(Undelivered(d)) + "" == StreamOf(Undelivered(d));
      assert ReceiveMessage("") == Failure(IOException);
    }
  }

  /** A display that has just been sent its snapshot, and has all that was broadcast since its
      registration still in its queue, will come to exactly the server's orders, whatever the
      other threads did in between. */
  lemma JoinConverges(cmds: seq<Command>, between: seq<Command>, ids: seq<int>)
    requires Enumerates(ids, ExecuteAll(cmds + between).orders)
    requires forall i :: 0 <= i < |ids| ==> ids[i] in ExecuteAll(cmds + between).orders
    ensures var s, s' := ExecuteAll(cmds), ExecuteAll(cmds + between);
            && s.log <= s'.log
            && Fold(map[], SnapshotMessages(s'.orders, ids) + s'.log[|s.log|..]) == s'.orders
  {
    hide ExecuteAll, Fold, SnapshotMessages;
    var s, s' := ExecuteAll(cmds), ExecuteAll(cmds + between);
    LateSnapshot.LogFolds(cmds, between);
    LateSnapshot.KeysAlwaysIds(cmds + between);
    FoldSnapshot(s'.orders, ids);
    var copy := map k | k in ids :: s'.orders[k];
    assert forall k :: k in copy <==> k in s'.orders;
    assert copy == s'.orders;
    FoldConcat(map[], SnapshotMessages(s'.orders, ids), s'.log[|s.log|..]);
    ReplayAbsorption(s.orders, s'.log[|s.log|..]);
  }

  // ---------------------------------------------------------------------------------
  // Every interleaving
  // ---------------------------------------------------------------------------------

  /** The end-to-end result for the server's threads, in every interleaving of their steps. */
  lemma InterleavedScreenConverges(steps: seq<(int, C.Act)>, c: int)
    requires AllAdmissible(I.Actions(steps))
    ensures var s := C.Run(steps);
            C.Live(s, c) ==>
              && c in s.queues
              && DisplayCode.Shows(s.links[c].replica, StreamOf(I.UnderWay(s, c))) == (s.server.orders, IOException)
  {
    hide Run, C.Run, AllAdmissible, I.Actions, DisplayCode.Shows, StreamOf;
    var s := C.Run(steps);
    I.RunRefines(steps);
    I.EachHasQueue(s);
    hide C.Inv;
    if C.Live(s, c) {
      ScreenConverges(I.Actions(steps), c);
      assert c in C.Abs(s).displays && C.Abs(s).displays[c] == C.AbsAt(s, c);
      assert Undelivered(C.AbsAt(s, c)) == I.UnderWay(s, c);
    }
  }

  /** The accounting of delivered orders in every interleaving of the server's threads. */
  lemma InterleavedAccounting(steps: seq<(int, C.Act)>, k: int, born: Order)
    ensures var s := C.Run(steps).server;
            Accounting.Created(s, k, born) && Accounting.BornNew(born) && k !in s.orders ==>
              Accounting.FullHistory(Accounting.HistoryOf(s.log, k), k, born.items)
  {
    hide Run, C.Run, I.Actions, Requests, Accounting.Created, Accounting.FullHistory, Accounting.BornNew;
    I.RunRefines(steps);
    I.EachHasQueue(C.Run(steps));
    hide C.Inv;
    RunExecutes(I.Actions(steps));
    Accounting.DeliveredAccounting(Requests(I.Actions(steps)), k, born);
  }

  // ---------------------------------------------------------------------------------
  // A connection
  // ---------------------------------------------------------------------------------

  /** Messages sent one after another through one end of a connection and then received at the
      other, whatever chunks either end moves: the same messages, and no bytes left over. */
  method Transmit(ms: seq<Message>, here: Descriptor, there: Descriptor) returns (received: seq<Message>)
    requires here != there && AllSendable(ms) && here.reliable && here.outgoing == "" && there.Quiet()
    modifies here, there
    ensures received == ms && there.incoming == ""
  {
    hide Sendable, Decode, ReceiveMessage, StreamOf;
    StreamEmpty();
    for i := 0 to |ms|
      invariant here.outgoing == StreamOf(ms[..i]) && there.Quiet()
    {
      assert Sendable(ms[i]);
      SendableEncodes(ms, i);
      var r := MessageCode.SendMessage(here, ms[i]);
      StreamConcat(ms[..i], [ms[i]]);
      assert ms[..i + 1] == ms[..i] + [ms[i]];
    }
    assert ms[..|ms|] == ms;
    there.incoming := here.outgoing;
    received := [];
    for i := 0 to |ms|
      invariant there.Quiet() && there.incoming == StreamOf(ms[i..]) && received == ms[..i]
    {
      NextArrives(ms[i..]);
      var m := MessageCode.ReceiveMessage(there);
      received := received + [m.value];
      assert ms[i..][1..] == ms[i + 1..];
      assert ms[..i + 1] == ms[..i] + [ms[i]];
    }
    assert ms[|ms|..] == [];
  }

  lemma SendableEncodes(ms: seq<Message>, i: nat)
    requires AllSendable(ms) && i < |ms|
    ensures Encode(ms[i]).Success? && Encodable(ms[..i])
  {
  }

  lemma NextArrives(ms: seq<Message>)
    requires ms != [] && Sendable(ms[0])
    ensures ReceiveMessage(StreamOf(ms)) == Success((ms[0], StreamOf(ms[1..])))
  {
    Sessions.RequestArrives(ms, "");
    assert StreamOf(ms) + "" == StreamOf(ms) && StreamOf(ms[1..]) + "" == StreamOf(ms[1..]);
    hide ReceiveMessage, StreamOf;
  }
}
