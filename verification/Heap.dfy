/** Items, orders, messages and queues as the program's shared, mutable objects, with the deep
    copies that keep them apart (model.cpp, message.cpp, message_queue.cpp). */
module Heap {
  import opened Wrappers
  import opened Model
  import opened Messages

  class ItemObject {
    var orderId: int
    var id: int
    var status: ItemStatus
    var desc: string
    var qty: int

    constructor (orderId: int, id: int, status: ItemStatus, desc: string, qty: int)
      ensures Value() == Item(orderId, id, status, desc, qty)
    {
      this.orderId, this.id, this.status, this.desc, this.qty := orderId, id, status, desc, qty;
    }

    function Value(): Item
      reads this
    {
      Item(orderId, id, status, desc, qty)
    }

    method Duplicate() returns (copy: ItemObject)
      ensures fresh(copy) && copy.Value() == Value()
    {
      copy := new ItemObject(orderId, id, status, desc, qty);
    }

    /** operator==. */
    method Equals(rhs: ItemObject) returns (equal: bool)
      ensures equal <==> Value() == rhs.Value()
    {
      equal := id == rhs.id && orderId == rhs.orderId && status == rhs.status && desc == rhs.desc && qty == rhs.qty;
    }
  }

  class OrderObject {
    var id: int
    var status: OrderStatus
    var items: seq<ItemObject>
    ghost var Repr: set<object>

    ghost predicate Valid()
      reads this, Repr
    {
      && this in Repr
      && (forall i :: 0 <= i < |items| ==> items[i] in Repr)
    }

    /** No item object is in the order twice, so that one can be changed without another. */
    ghost predicate Apart()
      reads this
    {
      forall i, j :: 0 <= i < j < |items| ==> items[i] != items[j]
    }

    function ItemValues(): (s: seq<Item>)
      requires Valid()
      reads this, Repr
      ensures |s| == |items| && forall i :: 0 <= i < |s| ==> s[i] == items[i].Value()
    {
      seq(|items|, i requires 0 <= i < |items| && items[i] in Repr reads this, Repr => items[i].Value())
    }

    function Value(): (o: Order)
      requires Valid()
      reads this, Repr
    {
      Order(id, status, ItemValues())
    }

    constructor (id: int, status: OrderStatus)
      ensures Valid() && Apart() && fresh(Repr) && Value() == Order(id, status, [])
    {
      this.id, this.status, items, Repr := id, status, [], {this};
    }

    /** An order built item by item, as decode_order does. */
    constructor Build(o: Order)
      ensures Valid() && Apart() && fresh(Repr) && Value() == o
    {
      id, status, items, Repr := o.id, o.status, [], {this};
      new;
      for i := 0 to |o.items|
        invariant Valid() && Apart() && fresh(Repr) && id == o.id && status == o.status && |items| == i
        invariant forall j :: 0 <= j < i ==> items[j].Value() == o.items[j]
      {
        var item := o.items[i];
        var added := new ItemObject(item.orderId, item.id, item.status, item.desc, item.qty);
        items, Repr := items + [added], Repr + {added};
      }
      assert Value().items == o.items;
    }

    /** The copy constructor: operator= onto a new, empty order. */
    constructor Copy(other: OrderObject)
      requires other.Valid()
      ensures Valid() && Apart() && fresh(Repr) && Value() == other.Value()
    {
      id, items, status, Repr := other.id, [], other.status, {this};
      new;
      for i := 0 to |other.items|
        invariant Valid() && Apart() && fresh(Repr) && |items| == i
        invariant id == other.id && status == other.status
        invariant forall j :: 0 <= j < i ==> items[j].Value() == other.items[j].Value()
      {
        var copy := other.items[i].Duplicate();
        items, Repr := items + [copy], Repr + {copy};
      }
    }

    method Duplicate() returns (copy: OrderObject)
      requires Valid()
      ensures fresh(copy) && copy.Valid() && copy.Apart() && fresh(copy.Repr) && copy.Value() == Value()
    {
      copy := new OrderObject.Copy(this);
    }

    method AddItem(item: ItemObject)
      requires Valid()
      modifies this
      ensures Valid() && Repr == old(Repr) + {item} && items == old(items) + [item]
      ensures Value() == old(Value()).(items := old(Value()).items + [item.Value()])
    {
      items, Repr := items + [item], Repr + {item};
    }

    /** set_status on the order, and on one of its items. */
    method SetStatus(s: OrderStatus)
      requires Valid()
      modifies this`status
      ensures Valid() && (old(Apart()) ==> Apart()) && Value() == old(Value()).(status := s)
    {
      status := s;
      assert Value().items == old(Value()).items;
    }

    method SetStatusOf(item: ItemObject, ghost at: nat, s: ItemStatus)
      requires Valid() && Apart() && at < |items| && items[at] == item
      requires at == Model.FindItem(Value().items, item.id)
      modifies item`status
      ensures Valid() && Apart() && Value() == SetItemStatus(old(Value()), item.id, s)
    {
      item.status := s;
      assert Value().items == SetItemStatus(old(Value()), item.id, s).items;
    }

    /** The renumbering at the start of create_order, in the order and all its items. */
    method Renumber(newId: int)
      requires Valid()
      modifies this`id, items
      ensures Valid() && (old(Apart()) ==> Apart()) && Value() == SetOrderId(old(Value()), newId)
      ensures id == newId && status == old(status) && items == old(items)
      ensures forall j :: 0 <= j < |items| ==>
                && items[j].orderId == newId
                && items[j].id == old(items[j].id) && items[j].status == old(items[j].status)
                && items[j].desc == old(items[j].desc) && items[j].qty == old(items[j].qty)
    {
      id := newId;
      for i := 0 to |items|
        invariant id == newId
        invariant forall j :: 0 <= j < |items| ==>
                    items[j].Value().(orderId := newId) == old(items[j].Value()).(orderId := newId)
        invariant forall j :: 0 <= j < i ==> items[j].orderId == newId
      {
        items[i].orderId := newId;
      }
      assert Value().items == SetOrderId(old(Value()), newId).items;
    }

    /** find_item: the first item with the id, or null. */
    method FindItem(itemId: int) returns (item: ItemObject?, ghost at: int)
      requires Valid()
      ensures at == Model.FindItem(Value().items, itemId)
      ensures var i := Model.FindItem(Value().items, itemId); item == if i < 0 then null else items[i]
    {
      for i := 0 to |items|
        invariant forall j :: 0 <= j < i ==> items[j].id != itemId
      {
        if items[i].id == itemId {
          FindItemUnique(Value().items, itemId, i);
          return items[i], i;
        }
      }
      FindItemFirst(Value().items, itemId);
      return null, -1;
    }

    /** operator==: the loop stops at the first difference. */
    method Equals(rhs: OrderObject) returns (equal: bool)
      requires Valid() && rhs.Valid()
      ensures equal <==> Value() == rhs.Value()
    {
      if id != rhs.id || status != rhs.status || |items| != |rhs.items| {
        return false;
      }
      for i := 0 to |items|
        invariant forall j :: 0 <= j < i ==> items[j].Value() == rhs.items[j].Value()
      {
        var same := items[i].Equals(rhs.items[i]);
        if !same {
          assert Value().items[i] != rhs.Value().items[i];
          return false;
        }
      }
      equal := true;
    }
  }

  class MessageObject {
    var mtype: MessageType
    var clientMode: ClientMode
    var str: string
    var order: OrderObject?
    var orderId: int
    var orderStatus: OrderStatus
    var itemId: int
    var itemStatus: ItemStatus
    ghost var Repr: set<object>

    ghost predicate Valid()
      reads this, Repr
    {
      && this in Repr
      && (order != null ==> order in Repr && order.Repr <= Repr && this !in order.Repr && order.Valid())
    }

    function Value(): Message
      requires Valid()
      reads this, Repr
    {
      Message(mtype, clientMode, str, if order == null then None else Some(order.Value()),
              orderId, orderStatus, itemId, itemStatus)
    }

    /** The constructors without an order. */
    constructor Of(m: Message)
      requires m.order == None
      ensures Valid() && fresh(Repr) && Value() == m
    {
      mtype, clientMode, str, order := m.mtype, m.clientMode, m.str, null;
      orderId, orderStatus, itemId, itemStatus := m.orderId, m.orderStatus, m.itemId, m.itemStatus;
      Repr := {this};
    }

    /** The constructor that stores the pointer to an order. */
    constructor ForOrder(t: MessageType, order: OrderObject)
      requires order.Valid()
      ensures Valid() && Value() == WithOrder(t, order.Value())
      ensures this.order == order && Repr == {this} + order.Repr
    {
      mtype, clientMode, str, this.order := t, ClientMode.INVALID, "", order;
      orderId, orderStatus, itemId, itemStatus := -1, OrderStatus.INVALID, -1, ItemStatus.INVALID;
      Repr := {this} + order.Repr;
    }

    /** A decoded message. */
    constructor Decoded(m: Message)
      ensures Valid() && fresh(Repr) && Value() == m && (order != null ==> order.Apart())
    {
      mtype, clientMode, str, order := m.mtype, m.clientMode, m.str, null;
      orderId, orderStatus, itemId, itemStatus := m.orderId, m.orderStatus, m.itemId, m.itemStatus;
      Repr := {this};
      new;
      if m.order.Some? {
        var built := new OrderObject.Build(m.order.value);
        order, Repr := built, {this} + built.Repr;
      }
    }

    /** The copy constructor: all fields, and a deep copy of the order. */
    constructor Copy(other: MessageObject)
      requires other.Valid()
      ensures Valid() && fresh(Repr) && Value() == other.Value()
    {
      mtype, clientMode, str, order := other.mtype, other.clientMode, other.str, null;
      orderId, orderStatus, itemId, itemStatus := other.orderId, other.orderStatus, other.itemId, other.itemStatus;
      Repr := {this};
      new;
      if other.order != null {
        var copy := other.order.Duplicate();
        order, Repr := copy, {this} + copy.Repr;
      }
    }

    method Duplicate() returns (copy: MessageObject)
      requires Valid()
      ensures fresh(copy) && copy.Valid() && fresh(copy.Repr) && copy.Value() == Value()
    {
      copy := new MessageObject.Copy(this);
    }
  }

  /** A display client's queue.  Module QueueProtocol shows that it acts as an atomic FIFO. */
  class QueueObject {
    var items: seq<MessageObject>
    ghost var Contents: seq<Message>
    ghost var Repr: set<object>

    /** Each queued message still has the value it was enqueued with, and shares no object with
        another. */
    ghost predicate Valid()
      reads this, Repr
    {
      && this in Repr
      && |Contents| == |items|
      && (forall i :: 0 <= i < |items| ==>
            && items[i] in Repr && items[i].Repr <= Repr && this !in items[i].Repr
            && items[i].Valid() && items[i].Value() == Contents[i])
      && (forall i, j :: 0 <= i < j < |items| ==> items[i].Repr !! items[j].Repr)
    }

    constructor ()
      ensures Valid() && fresh(Repr) && Contents == []
    {
      items, Contents, Repr := [], [], {this};
    }

    method Enqueue(msg: MessageObject)
      requires Valid() && msg.Valid() && msg.Repr !! Repr
      modifies this
      ensures Valid() && Repr == old(Repr) + msg.Repr
      ensures items == old(items) + [msg] && Contents == old(Contents) + [msg.Value()]
    {
      items, Contents, Repr := items + [msg], Contents + [msg.Value()], Repr + msg.Repr;
    }

    /** The oldest message, or null when none arrives in time. */
    method Dequeue() returns (msg: MessageObject?)
      requires Valid()
      modifies this
      ensures Valid()
      ensures if old(Contents) == [] then msg == null && Contents == [] && Repr == old(Repr)
              else && msg == old(items)[0] && msg.Valid() && msg.Value() == old(Contents)[0]
                   && Contents == old(Contents)[1..] && items == old(items)[1..]
                   && Repr == old(Repr) - msg.Repr && msg.Repr <= old(Repr)
    {
      if |items| == 0 {
        return null;
      }
      msg := items[0];
      items, Contents, Repr := items[1..], Contents[1..], Repr - msg.Repr;
    }
  }
}
