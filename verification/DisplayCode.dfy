/** The display client's receive loop on its own map of order objects (display_main.cpp). */
module DisplayCode {
  import opened Wrappers
  import opened Model
  import opened Messages
  import opened Orders
  import opened Heap
  import opened Descriptors
  import opened Transport
  import MessageCode

  /** What a display shows once it has read a byte stream from this map on, and the exception
      that ends it. */
  function Shows(orders: OrderMap, stream: string): (OrderMap, Exception)
    decreases |stream|
  {
    match ReceiveMessage(stream)
    case Failure(e) => (orders, e)
    case Success((m, rest)) => if Accepts(m) then Shows(Apply(orders, m), rest) else (orders, ProtocolError)
  }

  class DisplayObject {
    var orders: map<int, OrderObject>
    ghost var Shown: OrderMap       // the values of the orders
    ghost var Repr: set<object>

    /** The orders share no object with each other. */
    ghost predicate Valid()
      reads this, Repr
    {
      && this in Repr
      && Shown.Keys == orders.Keys
      && (forall k :: k in orders ==>
            && orders[k] in Repr && orders[k].Repr <= Repr && this !in orders[k].Repr
            && orders[k].Valid() && orders[k].Apart() && orders[k].Value() == Shown[k])
      && (forall k, j :: k in orders && j in orders && k != j ==> orders[k].Repr !! orders[j].Repr)
    }

    constructor ()
      ensures Valid() && fresh(Repr) && Shown == map[]
    {
      orders, Shown, Repr := map[], map[], {this};
    }

    method Store(k: int, order: OrderObject)
      requires Valid() && order.Valid() && order.Apart() && order.Repr !! Repr
      modifies this
      ensures Valid() && Repr == old(Repr) + order.Repr && Shown == old(Shown)[k := order.Value()]
    {
      orders, Shown, Repr := orders[k := order], Shown[k := order.Value()], Repr + order.Repr;
    }

    method WriteItemStatus(k: int, item: ItemObject, ghost at: nat, s: ItemStatus)
      requires Valid() && k in orders && at < |orders[k].items| && item == orders[k].items[at]
      requires at == Model.FindItem(Shown[k].items, item.id)
      modifies item`status, this`Shown
      ensures Valid() && Shown == old(Shown)[k := SetItemStatus(old(Shown)[k], item.id, s)]
    {
      hide OrderObject.Value, SetItemStatus, FindItem;
      orders[k].SetStatusOf(item, at, s);
      Shown := Shown[k := SetItemStatus(Shown[k], item.id, s)];
    }

    method UpdateItem(k: int, itemId: int, status: ItemStatus)
      requires Valid()
      modifies Repr
      ensures Valid() && Repr == old(Repr)
      ensures Shown == if k !in old(Shown) then old(Shown)
                       else old(Shown)[k := SetItemStatus(old(Shown)[k], itemId, status)]
    {
      if k in orders {
        var item, at := orders[k].FindItem(itemId);
        if item != null {
          WriteItemStatus(k, item, at, status);
        }
      }
    }

    method UpdateOrder(k: int, status: OrderStatus)
      requires Valid()
      modifies Repr
      ensures Valid() && Repr == old(Repr)
      ensures Shown == if k !in old(Shown) then old(Shown)
                       else if status == OrderStatus.DELIVERED then old(Shown) - {k}
                       else old(Shown)[k := old(Shown)[k].(status := status)]
    {
      hide OrderObject.Value;
      if k in orders {
        if status == OrderStatus.DELIVERED {
          orders, Shown := orders - {k}, Shown - {k};
        } else {
          orders[k].SetStatus(status);
          Shown := Shown[k := Shown[k].(status := status)];
        }
      }
    }

    /** The body of the loop after decoding. */
    method Handle(msg: MessageObject) returns (r: Result<(), Exception>)
      requires Valid() && msg.Valid() && msg.Repr !! Repr && (msg.order != null ==> msg.order.Apart())
      modifies Repr
      ensures Valid() && old(Repr) <= Repr <= old(Repr) + old(msg.Repr)
      ensures if Accepts(old(msg.Value())) then r.Success? && Shown == Apply(old(Shown), old(msg.Value()))
              else r == Failure(ProtocolError) && Shown == old(Shown)
    {
      hide SetItemStatus;
      if msg.mtype == DISP_HEARTBEAT {
        return Success(());
      }
      if msg.mtype == DISP_ORDER {
        if msg.order == null {
          return Failure(ProtocolError);
        }
        Store(msg.order.id, msg.order);
      } else if msg.mtype == DISP_ITEM_UPDATE {
        UpdateItem(msg.orderId, msg.itemId, msg.itemStatus);
      } else if msg.mtype == DISP_ORDER_UPDATE {
        UpdateOrder(msg.orderId, msg.orderStatus);
      } else {
        return Failure(ProtocolError);
      }
      r := Success(());
    }

    /** receive: runs until an exception ends it, which on a finite stream one does: the one
        the bytes determine, or an IOException for a read that fails or is interrupted.  Either
        way the display shows what the messages handled so far make of its map. */
    method Receive(fd: Descriptor) returns (error: Exception, ghost handled: seq<Message>)
      requires Valid() && fd !in Repr
      modifies Repr, fd`incoming, fd`interrupts
      ensures Valid()
      ensures (Shown, error) == Shows(old(Shown), old(fd.incoming)) || (!old(fd.Quiet()) && error == IOException)
      ensures var r := ReceiveMessages(old(fd.incoming), |handled|); r.Success? && r.value.0 == handled
      ensures Shown == Fold(old(Shown), handled) && forall i :: 0 <= i < |handled| ==> Accepts(handled[i])
    {
      hide Accepts, Apply, Fold, ReceiveMessage, ReceiveMessages;
      handled := [];
      NothingReceived(fd.incoming);
      FoldNothing(Shown);
      while true
        invariant Valid() && fd !in Repr && (old(fd.Quiet()) ==> fd.Quiet())
        invariant fresh(Repr - old(Repr))
        invariant Shows(Shown, fd.incoming) == Shows(old(Shown), old(fd.incoming))
        invariant ReceiveMessages(old(fd.incoming), |handled|) == Success((handled, fd.incoming))
        invariant Shown == Fold(old(Shown), handled) && forall i :: 0 <= i < |handled| ==> Accepts(handled[i])
        decreases |fd.incoming|
      {
        ReceiveShrinks(fd.incoming);
        ReceiveMore(old(fd.incoming), |handled|);
        var next := MessageCode.ReceiveMessage(fd);
        if next.Failure? {
          return next.error, handled;
        }
        var msg := new MessageObject.Decoded(next.value);
        var done := Handle(msg);
        if done.Failure? {
          return done.error, handled;
        }
        FoldSnoc(old(Shown), handled, next.value);
        handled := handled + [next.value];
      }
    }
  }

  lemma FoldNothing(orders: OrderMap)
    ensures Fold(orders, []) == orders
  {
  }
}
