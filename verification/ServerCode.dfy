/** The server's methods on its shared objects (server.cpp), each run while its caller holds
    the server's mutex, proved against module Orders. */
module ServerCode {
  import opened Wrappers
  import opened Model
  import opened Messages
  import opened Orders
  import opened Heap
  import opened Replication

  class ServerObject {
    var orders: map<int, OrderObject>
    var clients: set<QueueObject>     // the registered displays, each by its queue
    var nextOrderId: int
    ghost var log: seq<Message>       // everything ever broadcast
    ghost var Store: set<object>      // the objects of the stored orders
    ghost var Repr: set<object>

    ghost var Stored: OrderMap        // the values of the stored orders

    /** The stored orders share no object with each other. */
    ghost predicate StoreValid()
      reads this`orders, this`Stored, this`Store, Store
    {
      && Stored.Keys == orders.Keys
      && (forall k :: k in orders ==>
            && orders[k] in Store && orders[k].Repr <= Store
            && orders[k].Valid() && orders[k].Apart() && orders[k].Value() == Stored[k])
      && (forall k, j :: k in orders && j in orders && k != j ==> orders[k].Repr !! orders[j].Repr)
    }

    /** Nothing queued is shared with the stored orders or between queues. */
    ghost predicate QueuesValid()
      reads this`clients, this`Store, this`Repr, Repr - {this}
    {
      && (forall q :: q in clients ==>
            q in Repr && q in q.Repr && q.Repr <= Repr && q.Repr !! Store && this !in q.Repr && q.Valid())
      && (forall q, p :: q in clients && p in clients && q != p ==> q.Repr !! p.Repr)
    }

    ghost predicate Valid()
      reads this, Repr
    {
      this in Repr && Store <= Repr && this !in Store && StoreValid() && QueuesValid()
    }

    ghost function State(): Server
      reads this
    {
      Server(Stored, nextOrderId, log)
    }

    constructor ()
      ensures Valid() && fresh(Repr) && State() == START && clients == {}
    {
      orders, clients, nextOrderId := map[], {}, FIRST_ORDER_ID;
      log, Stored, Store, Repr := [], map[], {}, {this};
    }

    lemma StoredKeys()
      requires Valid()
      ensures Stored.Keys == orders.Keys
    {
    }

    lemma StoredOrder(k: int)
      requires Valid() && k in orders
      ensures orders[k].Valid() && orders[k].Repr <= Repr
      ensures k in Stored && orders[k].Value() == Stored[k] && orders[k].status == Stored[k].status
      ensures this !in orders[k].Repr
    {
    }

    /** What has been broadcast since: the log and every registered queue grew by the events. */
    twostate predicate Sent(events: seq<Message>)
      reads this, clients
    {
      && clients == old(clients)
      && log == old(log) + events
      && forall q :: q in clients ==> q.Contents == old(q.Contents) + events && old(q.items) <= q.items
    }

    /** The objects added since are new ones. */
    twostate predicate Grown()
      reads this
    {
      fresh(Repr - old(Repr)) && old(Repr) <= Repr
    }

    /** One turn of the loop in broadcast. */
    method Deliver(q: QueueObject, message: MessageObject)
      requires Valid() && q in clients && message.Valid() && message.Repr !! Repr
      modifies this`Repr, q
      ensures Valid() && Grown()
      ensures message.Valid() && message.Repr !! Repr && message.Value() == old(message.Value())
      ensures q.Contents == old(q.Contents) + [message.Value()] && old(q.items) <= q.items
    {
      hide StoreValid, MessageObject.Value, QueueObject.Valid;
      var copy := message.Duplicate();
      q.Enqueue(copy);
      Repr := Repr + copy.Repr;
    }

    ghost method Record(m: Message)
      requires Valid()
      modifies this`log
      ensures Valid() && log == old(log) + [m]
    {
      log := log + [m];
    }

    /** broadcast: a copy of the message for every registered display, in any order. */
    method Broadcast(message: MessageObject)
      requires Valid() && message.Valid() && message.Repr !! Repr
      modifies this`Repr, this`log, clients
      ensures Valid() && Grown() && Sent([old(message.Value())])
    {
      hide StoreValid, QueuesValid, MessageObject.Valid, MessageObject.Value;
      ghost var m := message.Value();
      var todo := clients;
      while todo != {}
        invariant todo <= clients && Valid() && message.Valid() && message.Repr !! Repr
        invariant Grown()
        invariant message.Value() == m && log == old(log)
        invariant forall q :: q in clients ==>
                    q.Contents == old(q.Contents) + (if q in todo then [] else [m]) && old(q.items) <= q.items
        decreases |todo|
      {
        var q :| q in todo;
        Deliver(q, message);
        todo := todo - {q};
      }
      Record(m);
    }

    /** Makes a message without an order and broadcasts it. */
    method BroadcastStatus(m: Message)
      requires Valid() && m.order == None
      modifies this`Repr, this`log, clients
      ensures Valid() && Grown() && Sent([m])
    {
      hide StoreValid, QueuesValid;
      var message := new MessageObject.Of(m);
      Broadcast(message);
    }

    /** set_status on an item of a stored order: nothing else changes. */
    method WriteItemStatus(k: int, item: ItemObject, ghost at: nat, s: ItemStatus)
      requires Valid() && k in orders && at < |orders[k].items| && item == orders[k].items[at]
      requires at == Model.FindItem(Stored[k].items, item.id)
      modifies item`status, this`Stored
      ensures Valid() && Stored == old(Stored)[k := SetItemStatus(old(Stored)[k], item.id, s)]
    {
      hide OrderObject.Value, SetItemStatus, FindItem, QueueObject.Valid;
      orders[k].SetStatusOf(item, at, s);
      Stored := Stored[k := SetItemStatus(Stored[k], item.id, s)];
    }

    /** set_status on a stored order. */
    method WriteOrderStatus(k: int, s: OrderStatus)
      requires Valid() && k in orders
      modifies this`Stored, if k in orders then {orders[k]} else {}
      ensures Valid() && Stored == old(Stored)[k := old(Stored)[k].(status := s)]
    {
      hide OrderObject.Value, QueueObject.Valid;
      orders[k].SetStatus(s);
      Stored := Stored[k := Stored[k].(status := s)];
    }

    /** The loop that checks whether all items are done. */
    method Completed(order: OrderObject) returns (completed: bool)
      requires order.Valid()
      ensures completed <==> AllDone(order.Value().items)
    {
      completed := true;
      for i := 0 to |order.items|
        invariant completed
        invariant forall j :: 0 <= j < i ==> order.items[j].status == ItemStatus.DONE
      {
        if order.items[i].status != ItemStatus.DONE {
          assert order.Value().items[i].status != ItemStatus.DONE;
          completed := false;
          break;
        }
      }
    }

    /** What an operation promises: the state and the queues move as the command does. */
    twostate predicate Carried(cmd: Command)
      reads this, clients
    {
      Sent(Events(old(State()), cmd)) && State() == Execute(old(State()), cmd)
    }

    /** The status of a stored order, written and broadcast. */
    method PublishOrderStatus(orderId: int, s: OrderStatus)
      requires Valid() && orderId in orders
      modifies this`log, this`Repr, this`Stored, clients, if orderId in orders then {orders[orderId]} else {}
      ensures Valid() && Grown() && Sent([WithOrderStatus(DISP_ORDER_UPDATE, orderId, s)])
      ensures Stored == old(Stored)[orderId := old(Stored)[orderId].(status := s)]
    {
      NoOrder(orderId, s);
      hide StoreValid, QueuesValid, WithOrderStatus;
      WriteOrderStatus(orderId, s);
      BroadcastStatus(WithOrderStatus(DISP_ORDER_UPDATE, orderId, s));
    }

    /** The second half of update_item: the order's status follows its items'. */
    method RefreshOrderStatus(orderId: int, newStatus: ItemStatus)
      requires Valid() && orderId in orders
      modifies this`log, this`Repr, this`Stored, clients, if orderId in orders then {orders[orderId]} else {}
      ensures Valid() && Grown()
      ensures var o := old(Stored)[orderId];
              var next := NextOrderStatus(o.status, newStatus, o.items);
              && Stored == old(Stored)[orderId := o.(status := next)]
              && Sent(StatusEvents(orderId, o.status, next))
    {
      StoredOrder(orderId);
      hide StoreValid, QueuesValid, OrderObject.Valid, OrderObject.Value;
      ghost var before := Stored[orderId];
      var order := orders[orderId];
      var current := order.status;
      var newOrderStatus := current;
      if current == OrderStatus.NEW && newStatus == ItemStatus.IN_PROGRESS {
        newOrderStatus := OrderStatus.IN_PROGRESS;
      } else if current == OrderStatus.IN_PROGRESS || current == OrderStatus.NEW {
        var completed := Completed(order);
        if completed {
          newOrderStatus := OrderStatus.DONE;
        }
      }
      assert newOrderStatus == NextOrderStatus(before.status, newStatus, before.items);
      hide NextOrderStatus, AllDone, WithOrderStatus;
      if newOrderStatus != current {
        PublishOrderStatus(orderId, newOrderStatus);
      }
    }

    /** The first half of an accepted update_item: the item's status, written and broadcast. */
    method PublishItemStatus(orderId: int, item: ItemObject, ghost at: nat, newStatus: ItemStatus)
      requires Valid() && orderId in orders && at < |orders[orderId].items| && item == orders[orderId].items[at]
      requires at == Model.FindItem(Stored[orderId].items, item.id)
      modifies this`log, this`Repr, this`Stored, clients, item`status
      ensures Valid() && Grown() && Sent([WithItemStatus(DISP_ITEM_UPDATE, orderId, item.id, newStatus)])
      ensures Stored == old(Stored)[orderId := SetItemStatus(old(Stored)[orderId], item.id, newStatus)]
    {
      hide StoreValid, QueuesValid, SetItemStatus, FindItem;
      WriteItemStatus(orderId, item, at, newStatus);
      BroadcastStatus(WithItemStatus(DISP_ITEM_UPDATE, orderId, item.id, newStatus));
    }

    /** update_item from the point where the change is accepted. */
    method MoveItem(orderId: int, item: ItemObject, ghost at: nat, newStatus: ItemStatus)
      requires Valid() && orderId in orders && at < |orders[orderId].items| && item == orders[orderId].items[at]
      requires at == Model.FindItem(Stored[orderId].items, item.id)
      requires Outcome(State(), Command.UpdateItem(orderId, item.id, newStatus)).Success?
      modifies this`log, this`Repr, this`Stored, clients, item`status
      modifies if orderId in orders then {orders[orderId]} else {}
      ensures Valid() && Grown() && Carried(Command.UpdateItem(orderId, item.id, newStatus))
    {
      hide StoreValid, QueuesValid, SetItemStatus, NextOrderStatus, FindItem;
      hide Execute, Events, Outcome, WithItemStatus, StatusEvents;
      PublishItemStatus(orderId, item, at, newStatus);
      RefreshOrderStatus(orderId, newStatus);
      ItemUpdated(old(State()), orderId, item.id, newStatus);
    }

    /** The checks at the start of update_item, which find the item or throw. */
    method CheckItem(orderId: int, itemId: int, newStatus: ItemStatus)
      returns (r: Result<ItemObject, Exception>, ghost at: int)
      requires Valid()
      ensures var outcome := Outcome(State(), Command.UpdateItem(orderId, itemId, newStatus));
              if r.Failure? then outcome == Failure(r.error)
              else
                && outcome.Success? && orderId in orders && r.value.id == itemId
                && at == Model.FindItem(Stored[orderId].items, itemId)
                && 0 <= at < |orders[orderId].items| && r.value == orders[orderId].items[at]
                && {r.value, orders[orderId]} <= orders[orderId].Repr
    {
      if orderId !in orders {
        return Failure(SemanticError("Order with order_id is not found")), -1;
      }
      StoredOrder(orderId);
      hide StoreValid, QueuesValid, SetItemStatus, NextOrderStatus, ItemEvents;
      var item;
      item, at := orders[orderId].FindItem(itemId);
      if item == null {
        return Failure(SemanticError("Item with item_id is not found")), at;
      }
      assert item.Value() == Stored[orderId].items[at];
      var cur := item.status;
      if cur == ItemStatus.NEW && newStatus == ItemStatus.IN_PROGRESS {
      } else if cur == ItemStatus.IN_PROGRESS && newStatus == ItemStatus.DONE {
      } else if cur == newStatus {
        return Failure(SemanticError(SAME_STATUS)), at;
      } else {
        return Failure(SemanticError("Status change is invalid")), at;
      }
      r := Success(item);
    }

    /** update_item. */
    method UpdateItem(orderId: int, itemId: int, newStatus: ItemStatus) returns (r: Result<(), Exception>)
      requires Valid()
      modifies this`log, this`Repr, this`Stored, clients, if orderId in orders then orders[orderId].Repr else {}
      ensures Valid() && Grown() && Carried(Command.UpdateItem(orderId, itemId, newStatus))
      ensures var outcome := Outcome(old(State()), Command.UpdateItem(orderId, itemId, newStatus));
              if r.Success? then outcome.Success? else outcome == Failure(r.error)
    {
      hide StoreValid, QueuesValid, OrderObject.Valid, Outcome, Execute, Events;
      ghost var s, cmd := State(), Command.UpdateItem(orderId, itemId, newStatus);
      var found, at := CheckItem(orderId, itemId, newStatus);
      if found.Failure? {
        NothingHappens(s, cmd);
        return Failure(found.error);
      }
      MoveItem(orderId, found.value, at, newStatus);
      r := Success(());
    }

    /** update_order from the point where the change is accepted. */
    method DeliverOrder(orderId: int)
      requires Valid() && orderId in orders && Stored[orderId].status == OrderStatus.DONE
      modifies this`orders, this`log, this`Repr, this`Stored, clients
      modifies if orderId in orders then {orders[orderId]} else {}
      ensures Valid() && Grown() && Carried(Command.UpdateOrder(orderId, OrderStatus.DELIVERED))
    {
      StoredKeys();
      hide StoreValid, QueuesValid, OrderObject.Valid, OrderObject.Value, Outcome, Execute, Events, WithOrderStatus;
      PublishOrderStatus(orderId, OrderStatus.DELIVERED);
      Erase(orderId);
      OrderDelivered(old(State()), orderId);
    }

    /** update_order. */
    method UpdateOrder(orderId: int, newStatus: OrderStatus) returns (r: Result<(), Exception>)
      requires Valid()
      modifies this`orders, this`log, this`Repr, this`Stored, clients
      modifies if orderId in orders then {orders[orderId]} else {}
      ensures Valid() && Grown() && Carried(Command.UpdateOrder(orderId, newStatus))
      ensures var outcome := Outcome(old(State()), Command.UpdateOrder(orderId, newStatus));
              if r.Success? then outcome.Success? else outcome == Failure(r.error)
    {
      ghost var s := State();
      StoredKeys();
      if orderId !in orders {
        OrderRefused(s, orderId, newStatus);
        return Failure(SemanticError("Order with order_id not found"));
      }
      StoredOrder(orderId);
      hide StoreValid, QueuesValid, OrderObject.Valid, OrderObject.Value, Outcome, Execute, Events;
      var order := orders[orderId];
      var current := order.status;
      if current != OrderStatus.DONE || newStatus != OrderStatus.DELIVERED {
        OrderRefused(s, orderId, newStatus);
        return Failure(SemanticError(NO_TRANSITION));
      }
      OrderDelivered(s, orderId);
      DeliverOrder(orderId);
      r := Success(());
    }

    /** my_orders.erase. */
    method Erase(orderId: int)
      requires Valid()
      modifies this`orders, this`Stored
      ensures Valid() && Stored == old(Stored) - {orderId}
    {
      orders, Stored := orders - {orderId}, Stored - {orderId};
    }

    /** my_orders[order_id] = order. */
    method Insert(orderId: int, order: OrderObject)
      requires Valid() && order.Valid() && order.Apart() && order.Repr !! Repr
      modifies this`orders, this`Stored, this`Store, this`Repr
      ensures Valid() && Repr == old(Repr) + order.Repr
      ensures Stored == old(Stored)[orderId := order.Value()] && orders == old(orders)[orderId := order]
    {
      orders, Stored := orders[orderId := order], Stored[orderId := order.Value()];
      Store, Repr := Store + order.Repr, Repr + order.Repr;
    }

    /** The broadcast of create_order: a message with a copy of the stored order. */
    method BroadcastOrder(orderId: int)
      requires Valid() && orderId in orders
      modifies this`log, this`Repr, clients
      ensures Valid() && Grown() && Sent([WithOrder(DISP_ORDER, old(Stored)[orderId])])
    {
      StoredOrder(orderId);
      hide StoreValid, QueuesValid, OrderObject.Value;
      var copy := orders[orderId].Duplicate();
      var message := new MessageObject.ForOrder(DISP_ORDER, copy);
      Broadcast(message);
    }

    /** create_order; the caller gives up the order object. */
    method CreateOrder(order: OrderObject) returns (orderId: int)
      requires Valid() && order.Valid() && order.Apart() && order.Repr !! Repr
      requires Defined(State(), Command.CreateOrder(order.Value()))
      modifies this`orders, this`log, this`Repr, this`Stored, this`Store, this`nextOrderId, clients, order.Repr
      ensures Valid() && fresh(Repr - old(Repr) - old(order.Repr)) && old(Repr) <= Repr
      ensures orderId == old(nextOrderId) && Carried(Command.CreateOrder(old(order.Value())))
    {
      hide StoreValid, QueuesValid, OrderObject.Value, SetOrderId, Outcome, Execute, Events;
      ghost var s, value := State(), order.Value();
      orderId := nextOrderId;
      nextOrderId := nextOrderId + 1;
      order.Renumber(orderId);
      Insert(orderId, order);
      BroadcastOrder(orderId);
      OrderCreated(s, value);
    }

    /** add_client: inserting a display twice changes nothing. */
    method AddClient(q: QueueObject)
      requires Valid() && q.Valid() && (q in clients || q.Repr !! Repr)
      modifies this`clients, this`Repr
      ensures Valid() && clients == old(clients) + {q}
      ensures Repr == old(Repr) + q.Repr
    {
      clients, Repr := clients + {q}, Repr + q.Repr;
    }

    /** remove_client: erasing an unknown display changes nothing. */
    method RemoveClient(q: QueueObject)
      requires Valid()
      modifies this`clients
      ensures Valid() && clients == old(clients) - {q}
    {
      clients := clients - {q};
    }

    /** One copy of each order with these ids, made of these objects and sharing none of them. */
    ghost predicate Snapshot(copies: seq<OrderObject>, ids: seq<int>, made: set<object>)
      reads this`Stored, made
    {
      && |copies| == |ids|
      && (forall i :: 0 <= i < |ids| ==>
            && ids[i] in Stored && copies[i] in made && copies[i].Repr <= made
            && copies[i].Valid() && copies[i].Value() == Stored[ids[i]])
      && (forall i, j :: 0 <= i < j < |ids| ==> ids[i] != ids[j] && copies[i].Repr !! copies[j].Repr)
    }

    lemma SnapshotGrows(copies: seq<OrderObject>, ids: seq<int>, made: set<object>, copy: OrderObject, k: int)
      requires Snapshot(copies, ids, made) && k in Stored && k !in ids
      requires copy.Valid() && copy.Value() == Stored[k] && copy.Repr !! made
      ensures Snapshot(copies + [copy], ids + [k], made + copy.Repr)
    {
      hide OrderObject.Value;
    }

    /** The copy of all orders made under the lock, one of each: new objects that share nothing
        with the store, with any queued message or with each other. */
    method SnapshotOrders() returns (copies: seq<OrderObject>, ghost ids: seq<int>, ghost made: set<object>)
      requires Valid()
      ensures Enumerates(ids, State().orders) && Snapshot(copies, ids, made) && fresh(made)
    {
      StoredKeys();
      hide StoreValid, QueuesValid, OrderObject.Value, Snapshot;
      copies, ids, made := [], [], {};
      NoCopies();
      var todo := orders.Keys;
      while todo != {}
        invariant todo <= orders.Keys && fresh(made) && Snapshot(copies, ids, made)
        invariant forall k :: k in orders <==> k in todo || k in ids
        invariant forall k :: k in ids ==> k !in todo
        decreases |todo|
      {
        ghost var some := PickOne(todo);
        var k :| k in todo;
        StoredOrder(k);
        var copy := orders[k].Duplicate();
        SnapshotGrows(copies, ids, made, copy, k);
        copies, ids, todo, made := copies + [copy], ids + [k], todo - {k}, made + copy.Repr;
      }
    }

    lemma NoCopies()
      ensures Snapshot([], [], {})
    {
    }

    /** A client thread's dequeue, which needs no lock of the server: the message it takes
        shares no object with the stored orders or with what stays queued anywhere. */
    method Take(q: QueueObject) returns (msg: MessageObject?)
      requires Valid() && q in clients
      modifies q
      ensures Valid() && (msg == null <==> old(q.Contents) == [])
      ensures msg == null ==> q.Contents == []
      ensures msg != null ==>
                && msg.Valid() && msg == old(q.items)[0] && msg.Value() == old(q.Contents)[0]
                && q.Contents == old(q.Contents)[1..] && q.items == old(q.items)[1..]
                && msg.Repr !! Store
                && forall p :: p in clients ==> msg.Repr !! p.Repr
    {
      hide StoreValid;
      msg := q.Dequeue();
    }

    /** A message that was queued before an operation is the same object at the same place with
        the same value after it, whatever the operation wrote; each of them ends in Sent. */
    twostate lemma QueuedUntouched(events: seq<Message>, q: QueueObject, i: nat)
      requires old(Valid()) && Valid() && Sent(events)
      requires q in old(clients) && i < old(|q.items|)
      ensures q in clients && i < |q.items| && q.items[i] == old(q.items[i])
      ensures old(q.items[i].Valid()) && q.items[i].Valid() && q.items[i].Value() == old(q.items[i].Value())
      ensures q.items[i].Repr !! Store
    {
      assert q.Contents[i] == old(q.Contents[i]);
      assert old(q.Valid()) && q.Valid();
    }
  }

  function StatusEvents(k: int, cur: OrderStatus, next: OrderStatus): seq<Message> {
    if next == cur then [] else [WithOrderStatus(DISP_ORDER_UPDATE, k, next)]
  }

  /** An accepted item update, as the two writes and broadcasts that carry it out. */
  lemma ItemUpdated(s: Server, k: int, itemId: int, status: ItemStatus)
    requires Outcome(s, Command.UpdateItem(k, itemId, status)).Success?
    ensures k in s.orders
    ensures var cmd := Command.UpdateItem(k, itemId, status);
            var moved := SetItemStatus(s.orders[k], itemId, status);
            var next := NextOrderStatus(moved.status, status, moved.items);
            var first := [WithItemStatus(DISP_ITEM_UPDATE, k, itemId, status)];
            var second := StatusEvents(k, moved.status, next);
            && Execute(s, cmd).orders == s.orders[k := moved][k := moved.(status := next)]
            && Execute(s, cmd).nextOrderId == s.nextOrderId
            && Execute(s, cmd).log == s.log + first + second
            && forall sent: seq<Message> {:trigger sent + Events(s, cmd)} ::
                 sent + Events(s, cmd) == sent + first + second
  {
    var cmd := Command.UpdateItem(k, itemId, status);
    var moved := SetItemStatus(s.orders[k], itemId, status);
    var next := NextOrderStatus(moved.status, status, moved.items);
    var after := moved.(status := next);
    assert s.orders[k := moved][k := after] == s.orders[k := after];
    assert Events(s, cmd)
        == [WithItemStatus(DISP_ITEM_UPDATE, k, itemId, status)] + StatusEvents(k, moved.status, next);
  }

  lemma NoOrder(k: int, status: OrderStatus)
    ensures WithOrderStatus(DISP_ORDER_UPDATE, k, status).order == None
  {
  }

  lemma OrderDelivered(s: Server, k: int)
    requires k in s.orders && s.orders[k].status == OrderStatus.DONE
    ensures var cmd := Command.UpdateOrder(k, OrderStatus.DELIVERED);
            && Outcome(s, cmd).Success?
            && Events(s, cmd) == [WithOrderStatus(DISP_ORDER_UPDATE, k, OrderStatus.DELIVERED)]
            && Execute(s, cmd).orders == s.orders[k := s.orders[k].(status := OrderStatus.DELIVERED)] - {k}
            && Execute(s, cmd).nextOrderId == s.nextOrderId
            && Execute(s, cmd).log == s.log + Events(s, cmd)
  {
  }

  lemma OrderRefused(s: Server, k: int, status: OrderStatus)
    requires k !in s.orders || s.orders[k].status != OrderStatus.DONE || status != OrderStatus.DELIVERED
    ensures var cmd := Command.UpdateOrder(k, status);
            && Events(s, cmd) == [] && Execute(s, cmd) == s
            && Outcome(s, cmd) == Failure(SemanticError(
                  if k !in s.orders then "Order with order_id not found"
                  else NO_TRANSITION))
  {
  }

  lemma OrderCreated(s: Server, order: Order)
    requires Defined(s, Command.CreateOrder(order))
    ensures var cmd := Command.CreateOrder(order); var numbered := SetOrderId(order, s.nextOrderId);
            && Events(s, cmd) == [WithOrder(DISP_ORDER, numbered)]
            && Execute(s, cmd) == Server(s.orders[s.nextOrderId := numbered], s.nextOrderId + 1, s.log + Events(s, cmd))
  {
  }

  lemma NothingHappens(s: Server, cmd: Command)
    requires Outcome(s, cmd).Failure?
    ensures Events(s, cmd) == [] && Execute(s, cmd) == s
  {
  }
}
