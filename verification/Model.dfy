/** Orders and items as values (model.h, model.cpp). */
module Model {

  const INT_MAX: int := 0x7FFF_FFFF

  datatype ClientMode = INVALID | UPDATER | DISPLAY

  datatype ItemStatus = INVALID | NEW | IN_PROGRESS | DONE

  datatype OrderStatus = INVALID | NEW | IN_PROGRESS | DONE | DELIVERED

  datatype Item = Item(orderId: int, id: int, status: ItemStatus, desc: string, qty: int)

  datatype Order = Order(id: int, status: OrderStatus, items: seq<Item>)

  /** The index of the first item with the given id, or -1: what find_item looks up. */
  function FindItem(items: seq<Item>, itemId: int): (i: int)
    ensures -1 <= i < |items|
    ensures i >= 0 ==> items[i].id == itemId
  {
    if items == [] then -1
    else if items[0].id == itemId then 0
    else
      var rest := FindItem(items[1..], itemId);
      if rest < 0 then -1 else rest + 1
  }

  /** The order with the status of its first item of that id overwritten, if it has one. */
  function SetItemStatus(order: Order, itemId: int, status: ItemStatus): Order {
    var i := FindItem(order.items, itemId);
    if i < 0 then order
    else order.(items := order.items[i := order.items[i].(status := status)])
  }

  /** The order renumbered to the id the server assigned, in its items too. */
  function SetOrderId(order: Order, id: int): Order {
    Order(id, order.status,
          seq(|order.items|, i requires 0 <= i < |order.items| => order.items[i].(orderId := id)))
  }

  /** find_item scans from the front and stops at the first match. */
  lemma FindItemFirst(items: seq<Item>, itemId: int)
    ensures var i := FindItem(items, itemId);
            forall j :: 0 <= j < (if i < 0 then |items| else i) ==> items[j].id != itemId
  {
  }

  lemma FindItemUnique(items: seq<Item>, itemId: int, i: nat)
    requires i < |items| && items[i].id == itemId
    requires forall j :: 0 <= j < i ==> items[j].id != itemId
    ensures FindItem(items, itemId) == i
  {
    FindItemFirst(items, itemId);
  }

  /** Lookup sees ids only: sequences with the same ids are searched alike. */
  lemma FindItemById(a: seq<Item>, b: seq<Item>, itemId: int)
    requires |a| == |b|
    requires forall j :: 0 <= j < |a| ==> a[j].id == b[j].id
    ensures FindItem(a, itemId) == FindItem(b, itemId)
  {
    if a != [] && a[0].id != itemId {
      FindItemById(a[1..], b[1..], itemId);
    }
  }
}
