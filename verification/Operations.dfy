/** What the server's operations and the display's rules do, field by field and text by text
    (server.cpp, model.cpp, display_main.cpp). */
module Operations {
  import opened Wrappers
  import opened Model
  import opened Messages
  import opened Orders
  import Accounting
  import Lifetimes

  // ---------------------------------------------------------------------------------
  // Messages
  // ---------------------------------------------------------------------------------

  /** A message of this type in which only the named fields are set. */
  predicate OnlyText(m: Message, t: MessageType, text: string) {
    && m.mtype == t && m.str == text
    && m.clientMode == ClientMode.INVALID && m.order == None
    && m.orderId == -1 && m.orderStatus == OrderStatus.INVALID
    && m.itemId == -1 && m.itemStatus == ItemStatus.INVALID
  }

  predicate OnlyOrder(m: Message, t: MessageType, order: Order) {
    m.order == Some(order) && OnlyText(m.(order := None), t, "")
  }

  predicate OnlyItemStatus(m: Message, t: MessageType, orderId: int, itemId: int, status: ItemStatus) {
    && m.orderId == orderId && m.itemId == itemId && m.itemStatus == status
    && OnlyText(m.(orderId := -1, itemId := -1, itemStatus := ItemStatus.INVALID), t, "")
  }

  predicate OnlyOrderStatus(m: Message, t: MessageType, orderId: int, status: OrderStatus) {
    && m.orderId == orderId && m.orderStatus == status
    && OnlyText(m.(orderId := -1, orderStatus := OrderStatus.INVALID), t, "")
  }

  /** Each constructor sets its own fields and leaves the others at their defaults. */
  lemma Constructors(t: MessageType, text: string, mode: ClientMode, o: Order, k: int, i: int,
                     s: ItemStatus, u: OrderStatus)
    ensures OnlyText(Plain(t), t, "") && OnlyText(WithText(t, text), t, text)
    ensures WithLogin(t, mode, text).clientMode == mode
    ensures OnlyText(WithLogin(t, mode, text).(clientMode := ClientMode.INVALID), t, text)
    ensures OnlyOrder(WithOrder(t, o), t, o)
    ensures OnlyItemStatus(WithItemStatus(t, k, i, s), t, k, i, s)
    ensures OnlyOrderStatus(WithOrderStatus(t, k, u), t, k, u)
  {
  }

  // ---------------------------------------------------------------------------------
  // create_order
  // ---------------------------------------------------------------------------------

  /** The stored order is the requested one under this id: nothing but ids differs. */
  predicate Numbered(stored: Order, o: Order, k: int) {
    && stored.id == k && stored.status == o.status && |stored.items| == |o.items|
    && forall i :: 0 <= i < |o.items| ==>
         && stored.items[i].orderId == k
         && stored.items[i].id == o.items[i].id
         && stored.items[i].status == o.items[i].status
         && stored.items[i].desc == o.items[i].desc
         && stored.items[i].qty == o.items[i].qty
  }

  /** One order has been added under a key, in place of what may have been there. */
  predicate Added(before: OrderMap, after: OrderMap, k: int, o: Order) {
    && after.Keys == before.Keys + {k}
    && Numbered(after[k], o, k)
    && forall j :: j in before && j != k ==> after[j] == before[j]
  }

  /** The orders on the server start out empty and their ids with 1000; creating an order adds
      it under the next id with every status, description and quantity as requested, and
      announces what is stored in one message. */
  lemma CreateOrderExact(s: Server, o: Order)
    ensures START.nextOrderId == 1000 && START.orders == map[] && START.log == []
    ensures var cmd := CreateOrder(o); var s' := Execute(s, cmd);
            if s.nextOrderId < INT_MAX then
              && s'.nextOrderId == s.nextOrderId + 1
              && Added(s.orders, s'.orders, s.nextOrderId, o)
              && |Events(s, cmd)| == 1 && OnlyOrder(Events(s, cmd)[0], DISP_ORDER, s'.orders[s.nextOrderId])
              && s'.log == s.log + Events(s, cmd)
            else s' == s && Events(s, cmd) == []
  {
  }

  // ---------------------------------------------------------------------------------
  // update_item
  // ---------------------------------------------------------------------------------

  /** The first item with the id. */
  predicate FirstAt(items: seq<Item>, itemId: int, i: int) {
    && 0 <= i < |items| && items[i].id == itemId
    && forall j :: 0 <= j < i ==> items[j].id != itemId
  }

  predicate NoItem(items: seq<Item>, itemId: int) {
    forall i :: 0 <= i < |items| ==> items[i].id != itemId
  }

  predicate Step(cur: ItemStatus, next: ItemStatus) {
    || (cur == ItemStatus.NEW && next == ItemStatus.IN_PROGRESS)
    || (cur == ItemStatus.IN_PROGRESS && next == ItemStatus.DONE)
  }

  lemma FirstFound(items: seq<Item>, itemId: int)
    ensures var i := FindItem(items, itemId); if i < 0 then NoItem(items, itemId) else FirstAt(items, itemId, i)
    ensures forall i :: FirstAt(items, itemId, i) ==> FindItem(items, itemId) == i
  {
    FindItemFirst(items, itemId);
    forall i | FirstAt(items, itemId, i)
      ensures FindItem(items, itemId) == i
    {
      FindItemUnique(items, itemId, i);
    }
  }

  /** The text with which an item update is refused, and when. */
  ghost predicate ItemRefusal(orders: OrderMap, k: int, itemId: int, status: ItemStatus, text: string) {
    || (k !in orders && text == "Order with order_id is not found")
    || (k in orders && NoItem(orders[k].items, itemId) && text == "Item with item_id is not found")
    || (k in orders && text == "Must enter a new status. " + "Cannot update to item's current status"
        && exists i :: FirstAt(orders[k].items, itemId, i) && orders[k].items[i].status == status)
    || (k in orders && text == "Status change is invalid"
        && exists i :: FirstAt(orders[k].items, itemId, i)
                       && orders[k].items[i].status != status && !Step(orders[k].items[i].status, status))
  }

  /** The status an item update leaves its order in. */
  predicate FollowsItems(before: OrderStatus, after: OrderStatus, status: ItemStatus, items: seq<Item>) {
    if before == OrderStatus.NEW && status == ItemStatus.IN_PROGRESS then after == OrderStatus.IN_PROGRESS
    else if (before == OrderStatus.NEW || before == OrderStatus.IN_PROGRESS)
            && forall i :: 0 <= i < |items| ==> items[i].status == ItemStatus.DONE
    then after == OrderStatus.DONE
    else after == before
  }

  /** One item's status has changed, by a legal step, and its order's with it; nothing else. */
  ghost predicate ItemMoved(before: OrderMap, after: OrderMap, k: int, itemId: int, status: ItemStatus) {
    && k in before && after.Keys == before.Keys
    && (forall j :: j in before && j != k ==> after[j] == before[j])
    && exists i :: ItemMovedAt(before[k], after[k], itemId, status, i)
  }

  predicate ItemMovedAt(o: Order, o': Order, itemId: int, status: ItemStatus, i: int) {
    && FirstAt(o.items, itemId, i) && Step(o.items[i].status, status)
    && o'.id == o.id && |o'.items| == |o.items|
    && o'.items[i].status == status
    && o'.items[i].(status := o.items[i].status) == o.items[i]
    && (forall j :: 0 <= j < |o.items| && j != i ==> o'.items[j] == o.items[j])
    && FollowsItems(o.status, o'.status, status, o'.items)
  }

  /** The item's new status is announced and then its order's, if that has changed. */
  predicate ItemAnnounced(events: seq<Message>, o: Order, o': Order, k: int, itemId: int, status: ItemStatus) {
    && |events| == (if o'.status == o.status then 1 else 2)
    && OnlyItemStatus(events[0], DISP_ITEM_UPDATE, k, itemId, status)
    && (|events| == 2 ==> OnlyOrderStatus(events[1], DISP_ORDER_UPDATE, k, o'.status))
  }

  lemma ItemRefusedExact(s: Server, k: int, itemId: int, status: ItemStatus, text: string)
    ensures Outcome(s, UpdateItem(k, itemId, status)) == Failure(SemanticError(text))
       <==> ItemRefusal(s.orders, k, itemId, status, text)
  {
    if k in s.orders {
      FirstFound(s.orders[k].items, itemId);
      var i := FindItem(s.orders[k].items, itemId);
      hide FindItem, SetItemStatus, NextOrderStatus, ItemEvents;
      if i >= 0 {
        assert FirstAt(s.orders[k].items, itemId, i);
        DifferentRefusals();
      }
    }
  }

  lemma DifferentRefusals()
    ensures |SAME_STATUS| == 63 && |"Status change is invalid"| == 24
    ensures |"Order with order_id is not found"| == 32 && |"Item with item_id is not found"| == 30
  {
  }

  lemma ItemMovedExact(s: Server, k: int, itemId: int, status: ItemStatus)
    requires Outcome(s, UpdateItem(k, itemId, status)).Success?
    ensures var cmd := UpdateItem(k, itemId, status); var s' := Execute(s, cmd);
            && s'.nextOrderId == s.nextOrderId
            && ItemMoved(s.orders, s'.orders, k, itemId, status)
            && ItemAnnounced(Events(s, cmd), s.orders[k], s'.orders[k], k, itemId, status)
  {
    var o, o' := s.orders[k], Execute(s, UpdateItem(k, itemId, status)).orders[k];
    FirstFound(o.items, itemId);
    var i := FindItem(o.items, itemId);
    assert ItemMovedAt(o, o', itemId, status, i);
    hide FindItem;
  }

  /** An item update is refused with exactly these texts in exactly these cases, and then changes
      and announces nothing; otherwise it moves the one item and announces that. */
  lemma UpdateItemExact(s: Server, k: int, itemId: int, status: ItemStatus)
    ensures var cmd := UpdateItem(k, itemId, status); var s' := Execute(s, cmd);
            && (forall text :: Outcome(s, cmd) == Failure(SemanticError(text))
                               <==> ItemRefusal(s.orders, k, itemId, status, text))
            && s'.log == s.log + Events(s, cmd)
            && if exists text :: ItemRefusal(s.orders, k, itemId, status, text) then
                 Outcome(s, cmd).Failure? && s' == s && Events(s, cmd) == []
               else
                 && Outcome(s, cmd).Success? && s'.nextOrderId == s.nextOrderId
                 && ItemMoved(s.orders, s'.orders, k, itemId, status)
                 && ItemAnnounced(Events(s, cmd), s.orders[k], s'.orders[k], k, itemId, status)
  {
    var cmd := UpdateItem(k, itemId, status);
    forall text
      ensures Outcome(s, cmd) == Failure(SemanticError(text)) <==> ItemRefusal(s.orders, k, itemId, status, text)
    {
      ItemRefusedExact(s, k, itemId, status, text);
    }
    OnlySemanticErrors(s, cmd);
    RefusedNothing(s, cmd);
    Accounting.EventsAbout(s, cmd);
    if Outcome(s, cmd).Success? {
      ItemMovedExact(s, k, itemId, status);
    } else {
      assert ItemRefusal(s.orders, k, itemId, status, Outcome(s, cmd).error.what);
    }
    hide ItemRefusal, ItemMoved, ItemAnnounced, Outcome, Execute, Events;
  }

  lemma OnlySemanticErrors(s: Server, cmd: Command)
    ensures Outcome(s, cmd).Failure? ==> Outcome(s, cmd).error.SemanticError?
  {
    hide FindItem, SetItemStatus, NextOrderStatus, ItemEvents;
  }

  lemma RefusedNothing(s: Server, cmd: Command)
    ensures Outcome(s, cmd).Failure? ==> Execute(s, cmd) == s && Events(s, cmd) == []
  {
  }

  // ---------------------------------------------------------------------------------
  // update_order
  // ---------------------------------------------------------------------------------

  predicate OrderRefusal(orders: OrderMap, k: int, status: OrderStatus, text: string) {
    || (k !in orders && text == "Order with order_id not found")
    || (k in orders && (orders[k].status != OrderStatus.DONE || status != OrderStatus.DELIVERED)
        && text == "cannot transition from current status" + " to new_status")
  }

  /** The order has been removed and nothing else changed. */
  predicate Removed(before: OrderMap, after: OrderMap, k: int) {
    && k in before && after.Keys == before.Keys - {k}
    && forall j :: j in after ==> after[j] == before[j]
  }

  /** An order update is refused with exactly these texts in exactly these cases, and then changes
      and announces nothing; otherwise it announces the delivery and removes the order. */
  lemma UpdateOrderExact(s: Server, k: int, status: OrderStatus)
    ensures var cmd := UpdateOrder(k, status); var s' := Execute(s, cmd);
            && (forall text :: Outcome(s, cmd) == Failure(SemanticError(text))
                               <==> OrderRefusal(s.orders, k, status, text))
            && s'.log == s.log + Events(s, cmd)
            && if exists text :: OrderRefusal(s.orders, k, status, text) then
                 Outcome(s, cmd).Failure? && s' == s && Events(s, cmd) == []
               else
                 && Outcome(s, cmd).Success? && s'.nextOrderId == s.nextOrderId
                 && status == OrderStatus.DELIVERED && k in s.orders && s.orders[k].status == OrderStatus.DONE
                 && Removed(s.orders, s'.orders, k)
                 && |Events(s, cmd)| == 1
                 && OnlyOrderStatus(Events(s, cmd)[0], DISP_ORDER_UPDATE, k, OrderStatus.DELIVERED)
  {
    var cmd := UpdateOrder(k, status);
    if k !in s.orders {
      assert OrderRefusal(s.orders, k, status, "Order with order_id not found");
    } else if s.orders[k].status != OrderStatus.DONE || status != OrderStatus.DELIVERED {
      assert OrderRefusal(s.orders, k, status, NO_TRANSITION);
    }
  }

  // ---------------------------------------------------------------------------------
  // What was requested is what is kept
  // ---------------------------------------------------------------------------------

  /** The order has the items that were requested, whatever their statuses now. */
  predicate AsRequested(stored: Order, o: Order, k: int) {
    && stored.id == k && |stored.items| == |o.items|
    && forall i :: 0 <= i < |o.items| ==>
         && stored.items[i].orderId == k
         && stored.items[i].id == o.items[i].id
         && stored.items[i].desc == o.items[i].desc
         && stored.items[i].qty == o.items[i].qty
  }

  lemma StepKeepsRequest(s: Server, cmd: Command, k: int, o: Order)
    requires k in s.orders && k < s.nextOrderId && AsRequested(s.orders[k], o, k)
    ensures k in Execute(s, cmd).orders ==> AsRequested(Execute(s, cmd).orders[k], o, k)
  {
    match cmd
    case CreateOrder(other) => CreateOrderExact(s, other);
    case UpdateItem(j, itemId, status) =>
      UpdateItemExact(s, j, itemId, status);
      hide ItemRefusal, FirstAt, FollowsItems, Execute, Events, Outcome;
    case UpdateOrder(j, status) =>
      UpdateOrderExact(s, j, status);
      hide OrderRefusal, Execute, Events, Outcome;
  }

  /** In every run, an order that is stored has the ids, descriptions and quantities with which
      it was requested, under the id it was handed. */
  lemma {:induction false} RequestIsKept(cmds: seq<Command>, o: Order, more: seq<Command>)
    requires ExecuteAll(cmds).nextOrderId < INT_MAX
    ensures var k, s := ExecuteAll(cmds).nextOrderId, ExecuteAll(cmds + [CreateOrder(o)] + more);
            && k < s.nextOrderId
            && (more == [] ==> k in s.orders)
            && (k in s.orders ==> AsRequested(s.orders[k], o, k))
  {
    var k, start := ExecuteAll(cmds).nextOrderId, cmds + [CreateOrder(o)];
    if more == [] {
      assert start + more == start;
      Lifetimes.ExecuteSnoc(cmds, CreateOrder(o));
      CreateOrderExact(ExecuteAll(cmds), o);
      hide ExecuteAll, Execute, Events;
    } else {
      var front, cmd := more[..|more| - 1], more[|more| - 1];
      assert start + more == (start + front) + [cmd];
      RequestIsKept(cmds, o, front);
      Lifetimes.ExecuteSnoc(start + front, cmd);
      var s := ExecuteAll(start + front);
      Lifetimes.GoneStays(s, cmd, k);
      if k in s.orders {
        StepKeepsRequest(s, cmd, k, o);
      }
      hide ExecuteAll, Execute, AsRequested;
    }
  }

  // ---------------------------------------------------------------------------------
  // The display's rules
  // ---------------------------------------------------------------------------------

  /** What a display does with each kind of message; one about an order it does not have, or an
      item that the order does not have, is ignored. */
  lemma DisplayRules(orders: OrderMap, m: Message)
    ensures var after := Apply(orders, m); var k := m.orderId;
            && (m.mtype == DISP_ORDER && m.order.Some? ==>
                  && after.Keys == orders.Keys + {m.order.value.id} && after[m.order.value.id] == m.order.value
                  && forall j :: j in orders && j != m.order.value.id ==> after[j] == orders[j])
            && (m.mtype == DISP_ITEM_UPDATE && k in orders ==>
                  && after.Keys == orders.Keys && (forall j :: j in orders && j != k ==> after[j] == orders[j])
                  && after[k].id == orders[k].id && after[k].status == orders[k].status
                  && ItemsAfter(orders[k].items, after[k].items, m.itemId, m.itemStatus))
            && (m.mtype == DISP_ORDER_UPDATE && k in orders ==>
                  if m.orderStatus == OrderStatus.DELIVERED then Removed(orders, after, k)
                  else
                    && after.Keys == orders.Keys && (forall j :: j in orders && j != k ==> after[j] == orders[j])
                    && after[k] == orders[k].(status := m.orderStatus))
            && ((m.mtype == DISP_ITEM_UPDATE || m.mtype == DISP_ORDER_UPDATE) && k !in orders ==> after == orders)
            && (m.mtype == DISP_HEARTBEAT ==> after == orders)
  {
    if m.mtype == DISP_ITEM_UPDATE && m.orderId in orders {
      FirstFound(orders[m.orderId].items, m.itemId);
      hide FindItem;
    }
  }

  /** The status of the first item with the id is this one; nothing else has changed. */
  predicate ItemsAfter(items: seq<Item>, after: seq<Item>, itemId: int, status: ItemStatus) {
    && |after| == |items|
    && forall i :: 0 <= i < |items| ==>
         after[i] == if FirstAt(items, itemId, i) then items[i].(status := status) else items[i]
  }
}
