/** What one order goes through in a run of the server: the ids it gets, the statuses it can
    have and every message that is broadcast about it (server.cpp). */
module Accounting {
  import opened Wrappers
  import opened Model
  import opened Messages
  import opened Orders

  /** The order a broadcast is about. */
  function About(m: Message): int {
    if m.order.Some? then m.order.value.id else m.orderId
  }

  /** The part of the log about one order. */
  function HistoryOf(log: seq<Message>, k: int): seq<Message> {
    if log == [] then []
    else
      var front, last := log[..|log| - 1], log[|log| - 1];
      HistoryOf(front, k) + if About(last) == k then [last] else []
  }

  lemma {:induction false} HistoryConcat(a: seq<Message>, b: seq<Message>, k: int)
    ensures HistoryOf(a + b, k) == HistoryOf(a, k) + HistoryOf(b, k)
  {
    if b == [] {
      assert a + b == a;
    } else {
      assert (a + b)[..|a + b| - 1] == a + b[..|b| - 1];
      HistoryConcat(a, b[..|b| - 1], k);
    }
  }

  lemma HistoryOfEvents(events: seq<Message>, k: int)
    requires |events| <= 2
    requires forall i :: 0 <= i < |events| ==> About(events[i]) == About(events[0])
    ensures HistoryOf(events, k) == if events != [] && About(events[0]) == k then events else []
  {
    if |events| == 2 {
      assert events[..1] == [events[0]];
      assert HistoryOf(events[..1], k) == if About(events[0]) == k then [events[0]] else [];
    }
  }

  /** The statuses broadcast for one item of an order, in order. */
  function ItemSteps(h: seq<Message>, itemId: int): seq<ItemStatus> {
    if h == [] then []
    else
      var front, last := h[..|h| - 1], h[|h| - 1];
      ItemSteps(front, itemId)
      + if last.mtype == DISP_ITEM_UPDATE && last.itemId == itemId then [last.itemStatus] else []
  }

  lemma ItemStepsSnoc(h: seq<Message>, m: Message, itemId: int)
    ensures ItemSteps(h + [m], itemId)
         == ItemSteps(h, itemId)
            + if m.mtype == DISP_ITEM_UPDATE && m.itemId == itemId then [m.itemStatus] else []
  {
    assert (h + [m])[..|h|] == h;
  }

  /** The statuses an item passes through to reach the given one from NEW. */
  function Ladder(s: ItemStatus): seq<ItemStatus> {
    match s
    case IN_PROGRESS => [ItemStatus.IN_PROGRESS]
    case DONE => [ItemStatus.IN_PROGRESS, ItemStatus.DONE]
    case _ => []
  }

  function Progress(items: seq<Item>): nat {
    if items == [] then 0
    else Progress(items[..|items| - 1]) + |Ladder(items[|items| - 1].status)|
  }

  /** Item updates the order can still accept: its measure. */
  function StepsLeft(o: Order): int {
    2 * |o.items| - Progress(o.items)
  }

  predicate AllNew(items: seq<Item>) {
    forall i :: 0 <= i < |items| ==> items[i].status == ItemStatus.NEW
  }

  predicate BornNew(o: Order) {
    o.status == OrderStatus.NEW && AllNew(o.items)
  }

  predicate DistinctIds(items: seq<Item>) {
    forall i, j :: 0 <= i < j < |items| ==> items[i].id != items[j].id
  }

  /** The status an order with these items ought to have. */
  function Derived(items: seq<Item>): OrderStatus {
    if AllNew(items) then OrderStatus.NEW
    else if AllDone(items) then OrderStatus.DONE
    else OrderStatus.IN_PROGRESS
  }

  lemma {:induction false} ProgressUpdate(items: seq<Item>, i: nat, s: ItemStatus)
    requires i < |items|
    ensures Progress(items[i := items[i].(status := s)])
         == Progress(items) - |Ladder(items[i].status)| + |Ladder(s)|
  {
    var front := items[..|items| - 1];
    var changed := items[i := items[i].(status := s)];
    if i == |items| - 1 {
      assert changed[..|items| - 1] == front;
    } else {
      assert changed[..|items| - 1] == front[i := front[i].(status := s)];
      ProgressUpdate(front, i, s);
    }
  }

  lemma {:induction false} ProgressBounds(items: seq<Item>)
    ensures Progress(items) <= 2 * |items|
    ensures Progress(items) == 2 * |items| <==> AllDone(items)
    ensures Progress(items) == 0 <==> forall i :: 0 <= i < |items| ==> Ladder(items[i].status) == []
  {
    if items != [] {
      var front := items[..|items| - 1];
      ProgressBounds(front);
      assert forall i :: 0 <= i < |front| ==> front[i] == items[i];
    }
  }

  // ---------------------------------------------------------------------------------
  // The history of an order created NEW with all items NEW
  // ---------------------------------------------------------------------------------

  predicate IsItemUpdate(m: Message, k: int) {
    m.mtype == DISP_ITEM_UPDATE && m.orderId == k
  }

  function StatusUpdate(k: int, s: OrderStatus): Message {
    WithOrderStatus(DISP_ORDER_UPDATE, k, s)
  }

  /** The broadcasts about order k once p of its 2n item updates have happened. */
  predicate Shape(h: seq<Message>, k: int, n: nat, p: nat) {
    && |h| == (if p == 0 then 1 else if p == 2 * n then p + 3 else p + 2)
    && h[0].mtype == DISP_ORDER
    && (p > 0 ==> IsItemUpdate(h[1], k) && h[2] == StatusUpdate(k, OrderStatus.IN_PROGRESS))
    && (forall j :: 3 <= j < p + 2 ==> IsItemUpdate(h[j], k))
    && (p > 0 && p == 2 * n ==> h[p + 2] == StatusUpdate(k, OrderStatus.DONE))
  }

  /** Every item has climbed the ladder of its status, as broadcast; an item hidden behind
      another with its id has not moved. */
  predicate Climbed(h: seq<Message>, items: seq<Item>) {
    forall i :: 0 <= i < |items| ==> ItemClimbed(h, items, i)
  }

  predicate ItemClimbed(h: seq<Message>, items: seq<Item>, i: nat)
    requires i < |items|
  {
    && items[i].status != ItemStatus.INVALID
    && if FindItem(items, items[i].id) == i
       then ItemSteps(h, items[i].id) == Ladder(items[i].status)
       else items[i].status == ItemStatus.NEW
  }

  predicate Underway(h: seq<Message>, k: int, o: Order) {
    var n, p := |o.items|, Progress(o.items);
    && Shape(h, k, n, p)
    && Climbed(h, o.items)
    && o.status == StageStatus(n, p)
  }

  /** The broadcasts about a delivered order of n items: 2n + 4 of them. */
  predicate DeliveredShape(h: seq<Message>, k: int, n: nat) {
    && n > 0
    && |h| == 2 * n + 4
    && h[0].mtype == DISP_ORDER
    && IsItemUpdate(h[1], k)
    && h[2] == StatusUpdate(k, OrderStatus.IN_PROGRESS)
    && (forall j :: 3 <= j < 2 * n + 2 ==> IsItemUpdate(h[j], k))
    && h[2 * n + 2] == StatusUpdate(k, OrderStatus.DONE)
    && h[2 * n + 3] == StatusUpdate(k, OrderStatus.DELIVERED)
  }

  /** Each item was moved exactly twice, and no two items share an id. */
  predicate EachItemTwice(h: seq<Message>, items: seq<Item>) {
    && DistinctIds(items)
    && forall i :: 0 <= i < |items| ==>
         ItemSteps(h, items[i].id) == [ItemStatus.IN_PROGRESS, ItemStatus.DONE]
  }

  predicate FullHistory(h: seq<Message>, k: int, items: seq<Item>) {
    DeliveredShape(h, k, |items|) && EachItemTwice(h, items)
  }

  /** The same order apart from statuses. */
  predicate SameExceptStatus(a: Order, b: Order) {
    && a.id == b.id
    && |a.items| == |b.items|
    && forall i :: 0 <= i < |a.items| ==> a.items[i].(status := ItemStatus.NEW) == b.items[i].(status := ItemStatus.NEW)
  }

  predicate ItemsNumbered(o: Order, k: int) {
    o.id == k && forall i :: 0 <= i < |o.items| ==> o.items[i].orderId == k
  }

  /** Exactly one DISP_ORDER, first, carrying the id in the order and in its items. */
  predicate Announced(h: seq<Message>, k: int) {
    && h != [] && h[0].mtype == DISP_ORDER && h[0].order.Some?
    && (forall j :: 0 < j < |h| ==> h[j].mtype != DISP_ORDER)
    && ItemsNumbered(h[0].order.value, k)
  }

  predicate Faithful(born: Order, entry: Option<Order>) {
    entry.Some? ==>
      && SameExceptStatus(born, entry.value)
      && (born.status == Derived(born.items) ==> entry.value.status == Derived(entry.value.items))
  }

  predicate Accounted(h: seq<Message>, k: int, born: Order, entry: Option<Order>) {
    BornNew(born) ==>
      if entry.Some? then Underway(h, k, entry.value) else FullHistory(h, k, born.items)
  }

  predicate EntryInv(handedOut: bool, h: seq<Message>, k: int, entry: Option<Order>) {
    if !handedOut then entry == None && h == []
    else Announced(h, k) && Faithful(h[0].order.value, entry) && Accounted(h, k, h[0].order.value, entry)
  }

  predicate HandedOut(s: Server, k: int) {
    FIRST_ORDER_ID <= k < s.nextOrderId
  }

  /** What holds of order id k in every reachable state. */
  predicate OrderInv(s: Server, k: int) {
    EntryInv(HandedOut(s, k), HistoryOf(s.log, k), k, Lookup(s.orders, k))
  }

  /** The order a command is about. */
  function Target(s: Server, cmd: Command): int {
    if cmd.CreateOrder? then s.nextOrderId else cmd.orderId
  }

  lemma EventsAbout(s: Server, cmd: Command)
    ensures |Events(s, cmd)| <= 2
    ensures forall i :: 0 <= i < |Events(s, cmd)| ==> About(Events(s, cmd)[i]) == Target(s, cmd)
    ensures Execute(s, cmd).log == s.log + Events(s, cmd)
  {
  }

  lemma HistoryAfter(s: Server, cmd: Command, k: int)
    ensures HistoryOf(Execute(s, cmd).log, k)
         == HistoryOf(s.log, k) + if Target(s, cmd) == k then Events(s, cmd) else []
  {
    EventsAbout(s, cmd);
    HistoryConcat(s.log, Events(s, cmd), k);
    HistoryOfEvents(Events(s, cmd), k);
  }

  lemma ItemStepMoves(o: Order, itemId: int, s: ItemStatus)
    requires FindItem(o.items, itemId) >= 0
    requires LegalItemStep(o.items[FindItem(o.items, itemId)].status, s)
    ensures var o' := SetItemStatus(o, itemId, s);
            && Progress(o'.items) == Progress(o.items) + 1
            && SameExceptStatus(o, o')
            && !AllNew(o'.items)
  {
    var i := FindItem(o.items, itemId);
    ProgressUpdate(o.items, i, s);
    var o' := SetItemStatus(o, itemId, s);
    assert o'.items[i].status == s;
  }

  /** What ClimbOne says of one item. */
  lemma ClimbItem(h: seq<Message>, m: Message, o: Order, i: nat)
    requires m.mtype == DISP_ITEM_UPDATE && FindItem(o.items, m.itemId) >= 0
    requires LegalItemStep(o.items[FindItem(o.items, m.itemId)].status, m.itemStatus)
    requires Climbed(h, o.items) && i < |o.items|
    ensures ItemClimbed(h + [m], SetItemStatus(o, m.itemId, m.itemStatus).items, i)
  {
    var items' := SetItemStatus(o, m.itemId, m.itemStatus).items;
    assert ItemClimbed(h, o.items, i) && ItemClimbed(h, o.items, FindItem(o.items, m.itemId));
    FindItemById(o.items, items', items'[i].id);
    ItemStepsSnoc(h, m, items'[i].id);
    hide FindItem, ItemSteps;
  }

  lemma ClimbOne(h: seq<Message>, k: int, o: Order, itemId: int, s: ItemStatus)
    requires FindItem(o.items, itemId) >= 0
    requires LegalItemStep(o.items[FindItem(o.items, itemId)].status, s)
    requires Climbed(h, o.items)
    ensures Climbed(h + [WithItemStatus(DISP_ITEM_UPDATE, k, itemId, s)], SetItemStatus(o, itemId, s).items)
  {
    var m := WithItemStatus(DISP_ITEM_UPDATE, k, itemId, s);
    forall i | 0 <= i < |o.items|
      ensures ItemClimbed(h + [m], SetItemStatus(o, itemId, s).items, i)
    {
      ClimbItem(h, m, o, i);
    }
    hide ItemClimbed;
  }

  lemma ClimbStill(h: seq<Message>, items: seq<Item>, m: Message)
    requires m.mtype != DISP_ITEM_UPDATE
    ensures Climbed(h + [m], items) == Climbed(h, items)
  {
    forall i | 0 <= i < |items|
      ensures ItemClimbed(h + [m], items, i) <==> ItemClimbed(h, items, i)
    {
      ItemStepsSnoc(h, m, items[i].id);
    }
    hide ItemClimbed;
  }

  /** The messages of the item update that makes the (p + 1)-st of 2n. */
  function StageEvents(u: Message, k: int, n: nat, p: nat): seq<Message> {
    [u] + if p == 0 then [StatusUpdate(k, OrderStatus.IN_PROGRESS)]
          else if p + 1 == 2 * n then [StatusUpdate(k, OrderStatus.DONE)]
          else []
  }

  lemma ShapeAdvances(h: seq<Message>, k: int, n: nat, p: nat, u: Message)
    requires Shape(h, k, n, p) && p < 2 * n && IsItemUpdate(u, k)
    ensures Shape(h + StageEvents(u, k, n, p), k, n, p + 1)
  {
    var h' := h + StageEvents(u, k, n, p);
    if p == 0 {
      assert h' == h + [u, StatusUpdate(k, OrderStatus.IN_PROGRESS)];
    } else {
      assert h'[p + 2] == u;
    }
  }

  /** The order status that p item updates out of 2n bring about. */
  function StageStatus(n: nat, p: nat): OrderStatus {
    if p == 0 then OrderStatus.NEW else if p == 2 * n then OrderStatus.DONE else OrderStatus.IN_PROGRESS
  }

  lemma StageAdvances(cur: OrderStatus, s: ItemStatus, n: nat, p: nat, items: seq<Item>)
    requires p < 2 * n && cur == StageStatus(n, p)
    requires AllDone(items) <==> p + 1 == 2 * n
    requires p == 0 ==> s == ItemStatus.IN_PROGRESS
    ensures NextOrderStatus(cur, s, items) == StageStatus(n, p + 1)
  {
  }

  lemma StepProgress(o: Order, itemId: int, s: ItemStatus)
    requires FindItem(o.items, itemId) >= 0
    requires LegalItemStep(o.items[FindItem(o.items, itemId)].status, s)
    ensures var n, p := |o.items|, Progress(o.items);
            && p < 2 * n
            && (AllDone(SetItemStatus(o, itemId, s).items) <==> p + 1 == 2 * n)
            && (p == 0 ==> s == ItemStatus.IN_PROGRESS)
  {
    var moved := SetItemStatus(o, itemId, s);
    ItemStepMoves(o, itemId, s);
    ProgressBounds(o.items);
    ProgressBounds(moved.items);
    hide Progress, SetItemStatus, AllDone, AllNew;
    if Progress(o.items) == 0 {
      assert Ladder(o.items[FindItem(o.items, itemId)].status) == [];
    }
  }

  lemma StatusAdvances(o: Order, itemId: int, s: ItemStatus)
    requires o.status == StageStatus(|o.items|, Progress(o.items))
    requires FindItem(o.items, itemId) >= 0
    requires LegalItemStep(o.items[FindItem(o.items, itemId)].status, s)
    ensures var moved := SetItemStatus(o, itemId, s);
            && Progress(o.items) < 2 * |o.items|
            && NextOrderStatus(o.status, s, moved.items) == StageStatus(|o.items|, Progress(o.items) + 1)
  {
    hide Progress, FindItem, SetItemStatus, NextOrderStatus, AllDone, StageStatus;
    StepProgress(o, itemId, s);
    StageAdvances(o.status, s, |o.items|, Progress(o.items), SetItemStatus(o, itemId, s).items);
  }

  /** An accepted item update takes an order created NEW one step further. */
  lemma ItemUpdateAdvances(h: seq<Message>, k: int, o: Order, itemId: int, s: ItemStatus)
    requires Underway(h, k, o)
    requires FindItem(o.items, itemId) >= 0
    requires LegalItemStep(o.items[FindItem(o.items, itemId)].status, s)
    ensures var moved := SetItemStatus(o, itemId, s);
            var after := moved.(status := NextOrderStatus(o.status, s, moved.items));
            Underway(h + ItemEvents(o, after, k, itemId, s), k, after)
  {
    hide Climbed, FindItem, Progress, ItemSteps;
    var moved := SetItemStatus(o, itemId, s);
    var after := moved.(status := NextOrderStatus(o.status, s, moved.items));
    var n, p := |o.items|, Progress(o.items);
    var u := WithItemStatus(DISP_ITEM_UPDATE, k, itemId, s);
    ItemStepMoves(o, itemId, s);
    StatusAdvances(o, itemId, s);
    ShapeAdvances(h, k, n, p, u);
    ClimbOne(h, k, o, itemId, s);
    var events := ItemEvents(o, after, k, itemId, s);
    assert events == StageEvents(u, k, n, p);
    assert |events| == 1 ==> h + events == h + [u];
    if |events| == 2 {
      ClimbStill(h + [u], moved.items, events[1]);
      assert h + events == h + [u] + [events[1]];
    }
  }

  lemma DoneMeansTwice(h: seq<Message>, born: Order, items: seq<Item>)
    requires Climbed(h, items) && AllDone(items)
    requires |born.items| == |items| && forall i :: 0 <= i < |items| ==> born.items[i].id == items[i].id
    ensures EachItemTwice(h, born.items)
  {
    forall i | 0 <= i < |items|
      ensures FindItem(items, items[i].id) == i
      ensures ItemSteps(h, items[i].id) == Ladder(ItemStatus.DONE)
    {
      assert ItemClimbed(h, items, i) && items[i].status == ItemStatus.DONE;
    }
  }

  lemma SameIds(a: Order, b: Order)
    requires SameExceptStatus(a, b)
    ensures forall i :: 0 <= i < |a.items| ==>
              a.items[i].id == b.items[i].id && a.items[i].orderId == b.items[i].orderId
  {
    forall i | 0 <= i < |a.items|
      ensures a.items[i].id == b.items[i].id && a.items[i].orderId == b.items[i].orderId
    {
      assert a.items[i].(status := ItemStatus.NEW) == b.items[i].(status := ItemStatus.NEW);
    }
  }

  lemma RepeatedNotDone(h: seq<Message>, k: int, born: Order, o: Order)
    requires Underway(h, k, o) && SameExceptStatus(born, o) && !DistinctIds(born.items)
    ensures o.status != OrderStatus.DONE
  {
    ProgressBounds(o.items);
    if AllDone(o.items) {
      SameIds(born, o);
      DoneMeansTwice(h, born, o.items);
    }
  }

  lemma ShapeDelivered(h: seq<Message>, k: int, n: nat)
    requires n > 0 && Shape(h, k, n, 2 * n)
    ensures DeliveredShape(h + [StatusUpdate(k, OrderStatus.DELIVERED)], k, n)
  {
  }

  lemma DoneIsAllDone(h: seq<Message>, k: int, o: Order)
    requires Underway(h, k, o) && o.status == OrderStatus.DONE
    ensures o.items != [] && AllDone(o.items) && Shape(h, k, |o.items|, 2 * |o.items|)
  {
    ProgressBounds(o.items);
  }

  lemma DeliveryCompletes(h: seq<Message>, k: int, born: Order, o: Order)
    requires Underway(h, k, o) && SameExceptStatus(born, o)
    requires o.status == OrderStatus.DONE
    ensures FullHistory(h + [StatusUpdate(k, OrderStatus.DELIVERED)], k, born.items)
  {
    hide Climbed, Shape, DeliveredShape, EachItemTwice, Progress, AllDone;
    DoneIsAllDone(h, k, o);
    SameIds(born, o);
    ShapeDelivered(h, k, |o.items|);
    DoneMeansTwice(h, born, o.items);
    TwiceStill(h, born.items, StatusUpdate(k, OrderStatus.DELIVERED));
  }

  lemma TwiceStill(h: seq<Message>, items: seq<Item>, m: Message)
    requires EachItemTwice(h, items) && m.mtype != DISP_ITEM_UPDATE
    ensures EachItemTwice(h + [m], items)
  {
    forall i | 0 <= i < |items|
      ensures ItemSteps(h + [m], items[i].id) == ItemSteps(h, items[i].id)
    {
      ItemStepsSnoc(h, m, items[i].id);
    }
  }

  lemma NewOrderUnderway(k: int, o: Order)
    requires BornNew(o)
    ensures Underway([WithOrder(DISP_ORDER, o)], k, o)
  {
    ProgressBounds(o.items);
    ItemStepsSnoc([], WithOrder(DISP_ORDER, o), 0);
    forall i | 0 <= i < |o.items|
      ensures ItemSteps([WithOrder(DISP_ORDER, o)], o.items[i].id) == []
    {
      ItemStepsSnoc([], WithOrder(DISP_ORDER, o), o.items[i].id);
      assert [] + [WithOrder(DISP_ORDER, o)] == [WithOrder(DISP_ORDER, o)];
    }
  }

  /** An order that has just been announced. */
  lemma NewEntry(k: int, o: Order)
    requires ItemsNumbered(o, k)
    ensures EntryInv(true, [WithOrder(DISP_ORDER, o)], k, Some(o))
  {
    SameAsItself(o);
    hide Underway, FullHistory, SameExceptStatus;
    if BornNew(o) {
      NewOrderUnderway(k, o);
    }
  }

  lemma CreationStarts(s: Server, order: Order)
    requires OrderInv(s, s.nextOrderId) && s.nextOrderId >= FIRST_ORDER_ID
    requires Defined(s, CreateOrder(order))
    ensures OrderInv(Execute(s, CreateOrder(order)), s.nextOrderId)
  {
    var k := s.nextOrderId;
    var o := SetOrderId(order, k);
    HistoryAfter(s, CreateOrder(order), k);
    assert HistoryOf(s.log, k) == [] && Events(s, CreateOrder(order)) == [WithOrder(DISP_ORDER, o)];
    assert [] + [WithOrder(DISP_ORDER, o)] == [WithOrder(DISP_ORDER, o)];
    NewEntry(k, o);
    hide EntryInv, HistoryOf, Events;
  }

  lemma SameAsItself(o: Order)
    ensures SameExceptStatus(o, o)
  {
  }

  lemma DerivedKept(o: Order, itemId: int, s: ItemStatus)
    requires FindItem(o.items, itemId) >= 0
    requires LegalItemStep(o.items[FindItem(o.items, itemId)].status, s)
    requires o.status == Derived(o.items)
    ensures var moved := SetItemStatus(o, itemId, s);
            NextOrderStatus(o.status, s, moved.items) == Derived(moved.items)
  {
    var i := FindItem(o.items, itemId);
    var moved := SetItemStatus(o, itemId, s);
    assert moved.items[i].status == s;
    if AllDone(o.items) || AllNew(o.items) {
      assert o.items[i].status != ItemStatus.DONE;
    }
  }

  lemma AnnouncedExtends(h: seq<Message>, k: int, events: seq<Message>)
    requires Announced(h, k)
    requires forall i :: 0 <= i < |events| ==> events[i].mtype != DISP_ORDER
    ensures Announced(h + events, k) && (h + events)[0] == h[0]
  {
  }

  lemma FaithfulItemUpdate(born: Order, o: Order, itemId: int, s: ItemStatus)
    requires FindItem(o.items, itemId) >= 0
    requires LegalItemStep(o.items[FindItem(o.items, itemId)].status, s)
    requires Faithful(born, Some(o))
    ensures var moved := SetItemStatus(o, itemId, s);
            Faithful(born, Some(moved.(status := NextOrderStatus(o.status, s, moved.items))))
  {
    ItemStepMoves(o, itemId, s);
    if o.status == Derived(o.items) {
      DerivedKept(o, itemId, s);
    }
  }

  lemma EntryItemUpdate(h: seq<Message>, k: int, o: Order, itemId: int, s: ItemStatus)
    requires EntryInv(true, h, k, Some(o))
    requires FindItem(o.items, itemId) >= 0
    requires LegalItemStep(o.items[FindItem(o.items, itemId)].status, s)
    ensures var moved := SetItemStatus(o, itemId, s);
            var after := moved.(status := NextOrderStatus(o.status, s, moved.items));
            EntryInv(true, h + ItemEvents(o, after, k, itemId, s), k, Some(after))
  {
    var born := h[0].order.value;
    var moved := SetItemStatus(o, itemId, s);
    var after := moved.(status := NextOrderStatus(o.status, s, moved.items));
    AnnouncedExtends(h, k, ItemEvents(o, after, k, itemId, s));
    FaithfulItemUpdate(born, o, itemId, s);
    if BornNew(born) {
      ItemUpdateAdvances(h, k, o, itemId, s);
    }
  }

  lemma EntryDelivery(h: seq<Message>, k: int, o: Order)
    requires EntryInv(true, h, k, Some(o)) && o.status == OrderStatus.DONE
    ensures EntryInv(true, h + [StatusUpdate(k, OrderStatus.DELIVERED)], k, None)
  {
    var born := h[0].order.value;
    AnnouncedExtends(h, k, [StatusUpdate(k, OrderStatus.DELIVERED)]);
    if BornNew(born) {
      DeliveryCompletes(h, k, born, o);
    }
  }

  lemma UpdateItemKeeps(s: Server, cmd: Command, k: int)
    requires cmd.UpdateItem? && cmd.orderId == k
    requires OrderInv(s, k)
    ensures OrderInv(Execute(s, cmd), k)
  {
    HistoryAfter(s, cmd, k);
    if Outcome(s, cmd).Success? {
      EntryItemUpdate(HistoryOf(s.log, k), k, s.orders[k], cmd.itemId, cmd.itemStatus);
    }
  }

  lemma UpdateOrderKeeps(s: Server, cmd: Command, k: int)
    requires cmd.UpdateOrder? && cmd.orderId == k
    requires OrderInv(s, k)
    ensures OrderInv(Execute(s, cmd), k)
  {
    HistoryAfter(s, cmd, k);
    if Outcome(s, cmd).Success? {
      EntryDelivery(HistoryOf(s.log, k), k, s.orders[k]);
    }
  }

  lemma OthersUntouched(s: Server, cmd: Command, k: int)
    requires Target(s, cmd) != k
    ensures HandedOut(Execute(s, cmd), k) == HandedOut(s, k)
    ensures HistoryOf(Execute(s, cmd).log, k) == HistoryOf(s.log, k)
    ensures Lookup(Execute(s, cmd).orders, k) == Lookup(s.orders, k)
  {
    HistoryAfter(s, cmd, k);
  }

  lemma ExecuteKeepsInv(s: Server, cmd: Command, k: int)
    requires OrderInv(s, k) && s.nextOrderId >= FIRST_ORDER_ID
    ensures OrderInv(Execute(s, cmd), k)
  {
    if cmd.CreateOrder? && k == s.nextOrderId {
      if Defined(s, cmd) {
        CreationStarts(s, cmd.order);
      }
    } else if cmd.UpdateItem? && cmd.orderId == k {
      UpdateItemKeeps(s, cmd, k);
    } else if cmd.UpdateOrder? && cmd.orderId == k {
      UpdateOrderKeeps(s, cmd, k);
    } else {
      OthersUntouched(s, cmd, k);
    }
  }

  lemma {:induction false} RunKeepsInv(cmds: seq<Command>, k: int)
    ensures OrderInv(ExecuteAll(cmds), k) && ExecuteAll(cmds).nextOrderId >= FIRST_ORDER_ID
  {
    if cmds != [] {
      RunKeepsInv(cmds[..|cmds| - 1], k);
      ExecuteKeepsInv(ExecuteAll(cmds[..|cmds| - 1]), cmds[|cmds| - 1], k);
    }
  }

  // ---------------------------------------------------------------------------------
  // What every run guarantees
  // ---------------------------------------------------------------------------------

  /** The id k has been handed out, and the order was created as given. */
  predicate Created(s: Server, k: int, born: Order) {
    FIRST_ORDER_ID <= k < s.nextOrderId && HistoryOf(s.log, k) != [] && HistoryOf(s.log, k)[0].order == Some(born)
  }

  /** An order created NEW with n NEW items that has been delivered contributed exactly 2n + 4
      broadcasts: its DISP_ORDER, two updates of each of its n items, IN_PROGRESS right after
      the first of these, DONE after the last, and DELIVERED. */
  lemma DeliveredAccounting(cmds: seq<Command>, k: int, born: Order)
    ensures var s := ExecuteAll(cmds);
            Created(s, k, born) && BornNew(born) && k !in s.orders ==>
              FullHistory(HistoryOf(s.log, k), k, born.items)
  {
    RunKeepsInv(cmds, k);
  }

  /** Item updates still to come are a measure: an accepted one takes exactly one away, and
      nothing else changes it while the order exists. */
  lemma StepsLeftDecreases(cmds: seq<Command>, cmd: Command, k: int)
    ensures var s, s' := ExecuteAll(cmds), Execute(ExecuteAll(cmds), cmd);
            k in s.orders && k in s'.orders ==>
              StepsLeft(s'.orders[k])
              == StepsLeft(s.orders[k])
                 - (if cmd.UpdateItem? && cmd.orderId == k && Outcome(s, cmd).Success? then 1 else 0)
  {
    var s := ExecuteAll(cmds);
    RunKeepsInv(cmds, s.nextOrderId);
    hide ExecuteAll, HistoryOf, Announced, Faithful, Accounted, Progress;
    if cmd.UpdateItem? && k in s.orders && cmd.orderId == k && Outcome(s, cmd).Success? {
      ItemStepMoves(s.orders[k], cmd.itemId, cmd.itemStatus);
    }
  }

  /** The stored status is the one its items imply, for orders created so (NEW with all items
      NEW among them), and DELIVERED is never stored. */
  lemma StatusIsDerived(cmds: seq<Command>, k: int, born: Order)
    ensures var s := ExecuteAll(cmds);
            k in s.orders && Created(s, k, born) && born.status == Derived(born.items) ==>
              var o := s.orders[k];
              && (o.status == OrderStatus.NEW <==> AllNew(o.items))
              && (o.items != [] ==> (o.status == OrderStatus.DONE <==> AllDone(o.items)))
              && (!AllNew(o.items) && !AllDone(o.items) ==> o.status == OrderStatus.IN_PROGRESS)
              && o.status != OrderStatus.DELIVERED
  {
    RunKeepsInv(cmds, k);
  }

  /** An order created NEW with a repeated item id is never done and never delivered. */
  lemma RepeatedItemNeverDelivered(cmds: seq<Command>, k: int, born: Order)
    ensures var s := ExecuteAll(cmds);
            Created(s, k, born) && BornNew(born) && !DistinctIds(born.items) ==>
              k in s.orders && s.orders[k].status != OrderStatus.DONE
  {
    var s := ExecuteAll(cmds);
    RunKeepsInv(cmds, k);
    if Created(s, k, born) && BornNew(born) && !DistinctIds(born.items) && k in s.orders {
      RepeatedNotDone(HistoryOf(s.log, k), k, born, s.orders[k]);
    }
  }

  /** Ids are never reused: one DISP_ORDER is broadcast per id, before anything else about it,
      and a stored order and all its items carry the id it is stored under. */
  lemma IdsAreKeys(cmds: seq<Command>, k: int)
    ensures var s := ExecuteAll(cmds); var h := HistoryOf(s.log, k);
            && (k in s.orders ==> ItemsNumbered(s.orders[k], k))
            && (h != [] <==> FIRST_ORDER_ID <= k < s.nextOrderId)
            && forall j :: 0 <= j < |h| ==> (h[j].mtype == DISP_ORDER <==> j == 0)
  {
    RunKeepsInv(cmds, k);
    var s := ExecuteAll(cmds);
    if k in s.orders {
      var born, o := HistoryOf(s.log, k)[0].order.value, s.orders[k];
      forall i | 0 <= i < |o.items|
        ensures o.items[i].orderId == k
      {
        assert born.items[i].(status := ItemStatus.NEW) == o.items[i].(status := ItemStatus.NEW);
      }
    }
  }

  /** The ids of the orders ever announced, in order of announcement. */
  function AnnouncedIds(log: seq<Message>): seq<int> {
    if log == [] then []
    else
      var front, last := log[..|log| - 1], log[|log| - 1];
      AnnouncedIds(front) + if last.mtype == DISP_ORDER then [About(last)] else []
  }

  lemma {:induction false} AnnouncedConcat(a: seq<Message>, b: seq<Message>)
    ensures AnnouncedIds(a + b) == AnnouncedIds(a) + AnnouncedIds(b)
  {
    if b == [] {
      assert a + b == a;
    } else {
      assert (a + b)[..|a + b| - 1] == a + b[..|b| - 1];
      AnnouncedConcat(a, b[..|b| - 1]);
    }
  }

  lemma AnnouncedOf(s: Server, cmd: Command)
    ensures AnnouncedIds(Events(s, cmd))
         == if cmd.CreateOrder? && Defined(s, cmd) then [s.nextOrderId] else []
  {
    var events := Events(s, cmd);
    if |events| == 2 {
      assert events == [events[0]] + [events[1]];
      AnnouncedConcat([events[0]], [events[1]]);
    }
  }

  lemma NextId(s: Server, cmd: Command)
    ensures Execute(s, cmd).nextOrderId == s.nextOrderId + if cmd.CreateOrder? && Defined(s, cmd) then 1 else 0
  {
  }

  /** Ids are handed out consecutively from 1000. */
  lemma {:induction false} IdsAreConsecutive(cmds: seq<Command>)
    ensures var s := ExecuteAll(cmds); var ids := AnnouncedIds(s.log);
            && s.nextOrderId == FIRST_ORDER_ID + |ids| <= INT_MAX
            && forall j :: 0 <= j < |ids| ==> ids[j] == FIRST_ORDER_ID + j
  {
    if cmds != [] {
      var s, cmd := ExecuteAll(cmds[..|cmds| - 1]), cmds[|cmds| - 1];
      EventsAbout(s, cmd);
      NextId(s, cmd);
      IdsAreConsecutive(cmds[..|cmds| - 1]);
      AnnouncedConcat(s.log, Events(s, cmd));
      AnnouncedOf(s, cmd);
      hide Events, Execute, AnnouncedIds;
    }
  }
}
