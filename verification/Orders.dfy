/** What the server's three order operations do to its map of orders and which messages
    they broadcast (server.cpp), and what a display does with each message it receives
    (display_main.cpp). */
module Orders {
  import opened Wrappers
  import opened Model
  import opened Messages

  const FIRST_ORDER_ID: int := 1000

  const SAME_STATUS: string := "Must enter a new status. " + "Cannot update to item's current status"

  const NO_TRANSITION: string := "cannot transition from current status" + " to new_status"

  type OrderMap = map<int, Order>

  /** The server's data, with the log of everything it ever broadcast. */
  datatype Server = Server(orders: OrderMap, nextOrderId: int, log: seq<Message>)

  datatype Command =
    | CreateOrder(order: Order)
    | UpdateItem(orderId: int, itemId: int, itemStatus: ItemStatus)
    | UpdateOrder(orderId: int, orderStatus: OrderStatus)

  /** A successful operation: the new map, the messages to broadcast in order, the new id counter. */
  datatype Effect = Effect(orders: OrderMap, nextOrderId: int, events: seq<Message>)

  predicate LegalItemStep(cur: ItemStatus, next: ItemStatus) {
    || (cur == ItemStatus.NEW && next == ItemStatus.IN_PROGRESS)
    || (cur == ItemStatus.IN_PROGRESS && next == ItemStatus.DONE)
  }

  predicate AllDone(items: seq<Item>) {
    forall i :: 0 <= i < |items| ==> items[i].status == ItemStatus.DONE
  }

  /** The order status after one of its items moved to newStatus, giving these items. */
  function NextOrderStatus(cur: OrderStatus, newStatus: ItemStatus, items: seq<Item>): OrderStatus {
    if cur == OrderStatus.NEW && newStatus == ItemStatus.IN_PROGRESS then OrderStatus.IN_PROGRESS
    else if (cur == OrderStatus.IN_PROGRESS || cur == OrderStatus.NEW) && AllDone(items) then OrderStatus.DONE
    else cur
  }

  function ItemEvents(before: Order, after: Order, orderId: int, itemId: int, status: ItemStatus): seq<Message> {
    [WithItemStatus(DISP_ITEM_UPDATE, orderId, itemId, status)]
    + if after.status != before.status
      then [WithOrderStatus(DISP_ORDER_UPDATE, orderId, after.status)] else []
  }

  function DoUpdateItem(s: Server, orderId: int, itemId: int, newStatus: ItemStatus): Result<Effect, Exception> {
    if orderId !in s.orders then Failure(SemanticError("Order with order_id is not found"))
    else
      var order := s.orders[orderId];
      var i := FindItem(order.items, itemId);
      if i < 0 then Failure(SemanticError("Item with item_id is not found"))
      else
        var cur := order.items[i].status;
        if LegalItemStep(cur, newStatus) then
          var moved := SetItemStatus(order, itemId, newStatus);
          var after := moved.(status := NextOrderStatus(order.status, newStatus, moved.items));
          Success(Effect(s.orders[orderId := after], s.nextOrderId,
                         ItemEvents(order, after, orderId, itemId, newStatus)))
        else if cur == newStatus then
          Failure(SemanticError(SAME_STATUS))
        else Failure(SemanticError("Status change is invalid"))
  }

  function DoUpdateOrder(s: Server, orderId: int, newStatus: OrderStatus): Result<Effect, Exception> {
    if orderId !in s.orders then Failure(SemanticError("Order with order_id not found"))
    else if s.orders[orderId].status != OrderStatus.DONE || newStatus != OrderStatus.DELIVERED then
      Failure(SemanticError(NO_TRANSITION))
    else
      Success(Effect(s.orders - {orderId}, s.nextOrderId,
                     [WithOrderStatus(DISP_ORDER_UPDATE, orderId, newStatus)]))
  }

  function DoCreateOrder(s: Server, order: Order): Effect {
    var numbered := SetOrderId(order, s.nextOrderId);
    Effect(s.orders[s.nextOrderId := numbered], s.nextOrderId + 1, [WithOrder(DISP_ORDER, numbered)])
  }

  /** Creating an order at INT_MAX would overflow the counter, which C++ leaves undefined. */
  predicate Defined(s: Server, cmd: Command) {
    cmd.CreateOrder? ==> s.nextOrderId < INT_MAX
  }

  function Outcome(s: Server, cmd: Command): Result<Effect, Exception> {
    match cmd
    case CreateOrder(order) => Success(DoCreateOrder(s, order))
    case UpdateItem(orderId, itemId, status) => DoUpdateItem(s, orderId, itemId, status)
    case UpdateOrder(orderId, status) => DoUpdateOrder(s, orderId, status)
  }

  /** The messages one command broadcasts: none when it is rejected. */
  function Events(s: Server, cmd: Command): seq<Message> {
    var r := Outcome(s, cmd);
    if Defined(s, cmd) && r.Success? then r.value.events else []
  }

  function Execute(s: Server, cmd: Command): Server {
    var r := Outcome(s, cmd);
    if Defined(s, cmd) && r.Success?
    then Server(r.value.orders, r.value.nextOrderId, s.log + r.value.events)
    else s
  }

  const START: Server := Server(map[], FIRST_ORDER_ID, [])

  function ExecuteAll(cmds: seq<Command>): Server {
    if cmds == [] then START
    else Execute(ExecuteAll(cmds[..|cmds| - 1]), cmds[|cmds| - 1])
  }

  /** Further operations, from any state. */
  function ExecuteFrom(s: Server, cmds: seq<Command>): Server {
    if cmds == [] then s
    else Execute(ExecuteFrom(s, cmds[..|cmds| - 1]), cmds[|cmds| - 1])
  }

  lemma {:induction false} ExecuteMore(cmds: seq<Command>, more: seq<Command>)
    ensures ExecuteAll(cmds + more) == ExecuteFrom(ExecuteAll(cmds), more)
  {
    hide Execute;
    if more == [] {
      assert cmds + more == cmds;
    } else {
      assert (cmds + more)[..|cmds + more| - 1] == cmds + more[..|more| - 1];
      ExecuteMore(cmds, more[..|more| - 1]);
    }
  }

  // ---------------------------------------------------------------------------------
  // The display
  // ---------------------------------------------------------------------------------

  /** The messages a display handles without a ProtocolError. */
  predicate Accepts(m: Message) {
    || m.mtype == DISP_HEARTBEAT
    || (m.mtype == DISP_ORDER && m.order.Some?)
    || m.mtype == DISP_ITEM_UPDATE
    || m.mtype == DISP_ORDER_UPDATE
  }

  /** One received message applied to a display's map of orders. */
  function Apply(orders: OrderMap, m: Message): OrderMap {
    if m.mtype == DISP_ORDER && m.order.Some? then
      orders[m.order.value.id := m.order.value]
    else if m.mtype == DISP_ITEM_UPDATE && m.orderId in orders then
      orders[m.orderId := SetItemStatus(orders[m.orderId], m.itemId, m.itemStatus)]
    else if m.mtype == DISP_ORDER_UPDATE && m.orderId in orders then
      if m.orderStatus == OrderStatus.DELIVERED then orders - {m.orderId}
      else orders[m.orderId := orders[m.orderId].(status := m.orderStatus)]
    else orders
  }

  function Fold(orders: OrderMap, ms: seq<Message>): OrderMap
    decreases |ms|
  {
    if ms == [] then orders else Fold(Apply(orders, ms[0]), ms[1..])
  }

  lemma {:induction false} FoldConcat(orders: OrderMap, a: seq<Message>, b: seq<Message>)
    ensures Fold(orders, a + b) == Fold(Fold(orders, a), b)
    decreases |a|
  {
    if a == [] {
      assert a + b == b;
    } else {
      assert (a + b)[1..] == a[1..] + b;
      FoldConcat(Apply(orders, a[0]), a[1..], b);
    }
  }

  lemma FoldSnoc(orders: OrderMap, q: seq<Message>, e: Message)
    ensures Fold(orders, q + [e]) == Apply(Fold(orders, q), e)
  {
    FoldConcat(orders, q, [e]);
    assert Fold(Fold(orders, q), [e]) == Fold(Apply(Fold(orders, q), e), []);
  }

  // ---------------------------------------------------------------------------------
  // Replay absorption
  // ---------------------------------------------------------------------------------

  function SetStatusAt(items: seq<Item>, p: int, s: ItemStatus): seq<Item>
    requires p < |items|
  {
    if p < 0 then items else items[p := items[p].(status := s)]
  }

  lemma SetStatusAtAbsorbs(items: seq<Item>, p: int, s: ItemStatus, q: int, t: ItemStatus)
    requires p < |items| && q < |items|
    ensures SetStatusAt(SetStatusAt(SetStatusAt(items, p, s), q, t), p, s)
         == SetStatusAt(SetStatusAt(items, q, t), p, s)
  {
  }

  lemma LookupUnmoved(o: Order, i: int, s: ItemStatus, j: int)
    ensures FindItem(SetItemStatus(o, i, s).items, j) == FindItem(o.items, j)
    ensures SetItemStatus(o, i, s).items == SetStatusAt(o.items, FindItem(o.items, i), s)
  {
    FindItemById(SetItemStatus(o, i, s).items, o.items, j);
  }

  lemma SetItemStatusAbsorbs(o: Order, i: int, s: ItemStatus, j: int, t: ItemStatus)
    ensures SetItemStatus(SetItemStatus(SetItemStatus(o, i, s), j, t), i, s)
         == SetItemStatus(SetItemStatus(o, j, t), i, s)
  {
    hide FindItem;
    var a, b := SetItemStatus(o, i, s), SetItemStatus(o, j, t);
    var c := SetItemStatus(a, j, t);
    LookupUnmoved(o, i, s, j);
    LookupUnmoved(o, j, t, i);
    LookupUnmoved(a, j, t, i);
    LookupUnmoved(o, i, s, i);
    LookupUnmoved(b, i, s, i);
    LookupUnmoved(c, i, s, i);
    SetStatusAtAbsorbs(o.items, FindItem(o.items, i), s, FindItem(o.items, j), t);
  }

  lemma SetItemStatusTwice(o: Order, i: int, s: ItemStatus)
    ensures SetItemStatus(SetItemStatus(o, i, s), i, s) == SetItemStatus(o, i, s)
  {
    var a := SetItemStatus(o, i, s);
    FindItemById(o.items, a.items, i);
    assert SetItemStatus(a, i, s).items == a.items;
  }

  function Lookup(orders: OrderMap, k: int): Option<Order> {
    if k in orders then Some(orders[k]) else None
  }

  /** What a message does to the entry of one order, present or not. */
  function ApplyAt(entry: Option<Order>, k: int, m: Message): Option<Order> {
    if m.mtype == DISP_ORDER && m.order.Some? && m.order.value.id == k then m.order
    else if entry.None? then None
    else if m.mtype == DISP_ITEM_UPDATE && m.orderId == k then
      Some(SetItemStatus(entry.value, m.itemId, m.itemStatus))
    else if m.mtype == DISP_ORDER_UPDATE && m.orderId == k then
      if m.orderStatus == OrderStatus.DELIVERED then None
      else Some(entry.value.(status := m.orderStatus))
    else entry
  }

  /** Messages act on the orders one entry at a time. */
  lemma ApplyLookup(orders: OrderMap, m: Message, k: int)
    ensures Lookup(Apply(orders, m), k) == ApplyAt(Lookup(orders, k), k, m)
  {
  }

  lemma SetStatusesCommute(o: Order, i: int, s: ItemStatus, t: OrderStatus)
    ensures SetItemStatus(o.(status := t), i, s) == SetItemStatus(o, i, s).(status := t)
  {
  }

  lemma AbsorbEntry(entry: Option<Order>, k: int, e: Message, x: Message)
    ensures ApplyAt(ApplyAt(ApplyAt(entry, k, e), k, x), k, e) == ApplyAt(ApplyAt(entry, k, x), k, e)
  {
    if entry.Some? && e.mtype == DISP_ITEM_UPDATE && e.orderId == k {
      SetItemStatusTwice(entry.value, e.itemId, e.itemStatus);
      if x.mtype == DISP_ITEM_UPDATE && x.orderId == k {
        SetItemStatusAbsorbs(entry.value, e.itemId, e.itemStatus, x.itemId, x.itemStatus);
      } else if x.mtype == DISP_ORDER_UPDATE && x.orderId == k {
        SetStatusesCommute(SetItemStatus(entry.value, e.itemId, e.itemStatus), e.itemId, e.itemStatus, x.orderStatus);
        SetStatusesCommute(entry.value, e.itemId, e.itemStatus, x.orderStatus);
      }
    } else if entry.Some? && e.mtype == DISP_ORDER_UPDATE && e.orderId == k
              && x.mtype == DISP_ITEM_UPDATE && x.orderId == k {
      SetStatusesCommute(entry.value, x.itemId, x.itemStatus, e.orderStatus);
    }
  }

  /** Whatever comes between, an earlier delivery of e is invisible after a later one. */
  lemma AbsorbOne(orders: OrderMap, e: Message, x: Message)
    ensures Apply(Apply(Apply(orders, e), x), e) == Apply(Apply(orders, x), e)
  {
    var a, b := Apply(Apply(Apply(orders, e), x), e), Apply(Apply(orders, x), e);
    forall k: int
      ensures Lookup(a, k) == Lookup(b, k)
    {
      ApplyLookup(orders, e, k);
      ApplyLookup(Apply(orders, e), x, k);
      ApplyLookup(Apply(Apply(orders, e), x), e, k);
      ApplyLookup(orders, x, k);
      ApplyLookup(Apply(orders, x), e, k);
      AbsorbEntry(Lookup(orders, k), k, e, x);
    }
    SameEntries(a, b);
  }

  lemma SameEntries(a: OrderMap, b: OrderMap)
    requires forall k: int :: Lookup(a, k) == Lookup(b, k)
    ensures a == b
  {
    forall k: int
      ensures k in a <==> k in b
      ensures k in a && k in b ==> a[k] == b[k]
    {
      assert Lookup(a, k) == Lookup(b, k);
    }
  }

  lemma ApplyTwice(orders: OrderMap, e: Message)
    ensures Apply(Apply(orders, e), e) == Apply(orders, e)
  {
    AbsorbOne(orders, e, Plain(DISP_HEARTBEAT));
  }

  /** Two maps that e makes equal stay so under any further messages. */
  lemma {:induction false} SameAfter(a: OrderMap, b: OrderMap, q: seq<Message>, e: Message)
    requires Apply(a, e) == Apply(b, e)
    ensures Apply(Fold(a, q), e) == Apply(Fold(b, q), e)
    decreases |q|
  {
    if q != [] {
      AbsorbOne(a, e, q[0]);
      AbsorbOne(b, e, q[0]);
      SameAfter(Apply(a, q[0]), Apply(b, q[0]), q[1..], e);
    }
  }

  lemma Absorb(orders: OrderMap, q: seq<Message>, e: Message)
    ensures Fold(Apply(orders, e), q + [e]) == Fold(orders, q + [e])
  {
    ApplyTwice(orders, e);
    SameAfter(Apply(orders, e), orders, q, e);
    FoldSnoc(Apply(orders, e), q, e);
    FoldSnoc(orders, q, e);
  }

  /** Applying a whole sequence of messages again changes nothing, whatever the messages. */
  lemma {:induction false} ReplayAbsorption(orders: OrderMap, q: seq<Message>)
    ensures Fold(Fold(orders, q), q) == Fold(orders, q)
  {
    if q != [] {
      var p, e := q[..|q| - 1], q[|q| - 1];
      assert q == p + [e];
      FoldSnoc(orders, p, e);
      Absorb(Fold(orders, p), p, e);
      ReplayAbsorption(orders, p);
      FoldSnoc(Fold(orders, p), p, e);
    }
  }

  // ---------------------------------------------------------------------------------
  // The server is its own replica
  // ---------------------------------------------------------------------------------

  lemma FoldTwo(orders: OrderMap, a: Message, b: Message)
    ensures Fold(orders, [a]) == Apply(orders, a)
    ensures Fold(orders, [a, b]) == Apply(Apply(orders, a), b)
  {
    FoldSnoc(orders, [], a);
    FoldSnoc(orders, [a], b);
    assert [a] + [b] == [a, b] && [] + [a] == [a];
  }

  /** The messages of a command, applied by the display's rules to the server's own map,
      give the server's new map. */
  lemma EventsMirrorOutcome(s: Server, cmd: Command)
    ensures Execute(s, cmd).orders == Fold(s.orders, Events(s, cmd))
    ensures forall i :: 0 <= i < |Events(s, cmd)| ==> Accepts(Events(s, cmd)[i])
  {
    var events := Events(s, cmd);
    if |events| == 1 {
      FoldTwo(s.orders, events[0], events[0]);
      assert events == [events[0]];
    } else if |events| == 2 {
      FoldTwo(s.orders, events[0], events[1]);
      assert events == [events[0], events[1]];
    }
  }
}
