/** What a stretch of broadcasts does to the single statuses of one order, for an order that
    has missed an earlier stretch (server.cpp, display_main.cpp). */
module Fields {
  import opened Wrappers
  import opened Model
  import opened Messages
  import opened Orders
  import opened Accounting

  /** Messages applied to the entry of one order, present or not. */
  function FoldAt(entry: Option<Order>, k: int, ms: seq<Message>): Option<Order>
    decreases |ms|
  {
    if ms == [] then entry else FoldAt(ApplyAt(entry, k, ms[0]), k, ms[1..])
  }

  lemma {:induction false} FoldLookup(orders: OrderMap, ms: seq<Message>, k: int)
    ensures Lookup(Fold(orders, ms), k) == FoldAt(Lookup(orders, k), k, ms)
    decreases |ms|
  {
    if ms != [] {
      ApplyLookup(orders, ms[0], k);
      FoldLookup(Apply(orders, ms[0]), ms[1..], k);
    }
  }

  lemma {:induction false} FoldAtConcat(entry: Option<Order>, k: int, a: seq<Message>, b: seq<Message>)
    ensures FoldAt(entry, k, a + b) == FoldAt(FoldAt(entry, k, a), k, b)
    decreases |a|
  {
    if a == [] {
      assert a + b == b;
    } else {
      assert (a + b)[1..] == a[1..] + b;
      FoldAtConcat(ApplyAt(entry, k, a[0]), k, a[1..], b);
    }
  }

  // ---------------------------------------------------------------------------------
  // The server's broadcasts only ever raise statuses
  // ---------------------------------------------------------------------------------

  function ItemRank(s: ItemStatus): nat {
    match s
    case INVALID => 0
    case NEW => 1
    case IN_PROGRESS => 2
    case DONE => 3
  }

  function OrderRank(s: OrderStatus): nat {
    match s
    case INVALID => 0
    case NEW => 1
    case IN_PROGRESS => 2
    case DONE => 3
    case DELIVERED => 4
  }

  predicate IsUpdate(m: Message, k: int) {
    (m.mtype == DISP_ITEM_UPDATE || m.mtype == DISP_ORDER_UPDATE) && m.orderId == k
  }

  predicate IsDelivery(m: Message, k: int) {
    m.mtype == DISP_ORDER_UPDATE && m.orderId == k && m.orderStatus == OrderStatus.DELIVERED
  }

  predicate IsCopy(m: Message, k: int) {
    m.mtype == DISP_ORDER && m.order.Some? && m.order.value.id == k
  }

  /** A message does not announce the order again and, if it is about the order, raises the
      status it writes. */
  predicate Raises(entry: Option<Order>, k: int, m: Message) {
    && !IsCopy(m, k)
    && (IsUpdate(m, k) ==>
          && entry.Some?
          && if m.mtype == DISP_ITEM_UPDATE then
               var i := FindItem(entry.value.items, m.itemId);
               i >= 0 && ItemRank(entry.value.items[i].status) < ItemRank(m.itemStatus)
             else OrderRank(entry.value.status) < OrderRank(m.orderStatus))
  }

  predicate Climbs(entry: Option<Order>, k: int, ms: seq<Message>)
    decreases |ms|
  {
    ms == [] || (Raises(entry, k, ms[0]) && Climbs(ApplyAt(entry, k, ms[0]), k, ms[1..]))
  }

  lemma {:induction false} ClimbsConcat(entry: Option<Order>, k: int, a: seq<Message>, b: seq<Message>)
    ensures Climbs(entry, k, a + b) <==> Climbs(entry, k, a) && Climbs(FoldAt(entry, k, a), k, b)
    decreases |a|
  {
    hide Raises, ApplyAt;
    if a == [] {
      assert a + b == b;
    } else {
      assert (a + b)[1..] == a[1..] + b;
      ClimbsConcat(ApplyAt(entry, k, a[0]), k, a[1..], b);
    }
  }

  lemma NextStatusRises(cur: OrderStatus, s: ItemStatus, items: seq<Item>)
    ensures var next := NextOrderStatus(cur, s, items); next != cur ==> OrderRank(cur) < OrderRank(next)
  {
  }

  lemma ClimbsFew(entry: Option<Order>, k: int, a: Message, b: Message)
    ensures Climbs(entry, k, [a]) <==> Raises(entry, k, a)
    ensures Climbs(entry, k, [a, b]) <==> Raises(entry, k, a) && Raises(ApplyAt(entry, k, a), k, b)
  {
    hide Raises, ApplyAt;
    assert [a, b][1..] == [b] && [b][1..] == [] && [a][1..] == [];
    assert Climbs(ApplyAt(entry, k, a), k, [b]) <==> Raises(ApplyAt(entry, k, a), k, b);
  }

  lemma ItemUpdateRises(s: Server, cmd: Command)
    requires cmd.UpdateItem? && Outcome(s, cmd).Success?
    ensures Climbs(Lookup(s.orders, cmd.orderId), cmd.orderId, Events(s, cmd))
  {
    var k := cmd.orderId;
    var o := s.orders[k];
    var moved := SetItemStatus(o, cmd.itemId, cmd.itemStatus);
    NextStatusRises(o.status, cmd.itemStatus, moved.items);
    var events := Events(s, cmd);
    assert ApplyAt(Some(o), k, events[0]) == Some(moved);
    assert Raises(Some(o), k, events[0]);
    if |events| == 2 {
      assert Raises(Some(moved), k, events[1]);
      assert events == [events[0], events[1]];
      ClimbsFew(Some(o), k, events[0], events[1]);
    } else {
      assert events == [events[0]];
      ClimbsFew(Some(o), k, events[0], events[0]);
    }
  }

  /** An operation's broadcasts raise the statuses of every order created before it. */
  lemma EventsClimb(s: Server, cmd: Command, k: int)
    requires k < s.nextOrderId
    ensures Climbs(Lookup(s.orders, k), k, Events(s, cmd))
    ensures k < Execute(s, cmd).nextOrderId
  {
    var events := Events(s, cmd);
    if Defined(s, cmd) && Outcome(s, cmd).Success? {
      if cmd.UpdateItem? && cmd.orderId == k {
        ItemUpdateRises(s, cmd);
      } else if cmd.UpdateItem? {
        OthersClimb(Lookup(s.orders, k), k, events);
      } else {
        assert events == [events[0]] && events[1..] == [];
      }
    }
  }

  lemma OthersClimb(entry: Option<Order>, k: int, ms: seq<Message>)
    requires forall i :: 0 <= i < |ms| ==> !IsUpdate(ms[i], k) && !IsCopy(ms[i], k)
    ensures Climbs(entry, k, ms) && FoldAt(entry, k, ms) == entry
    decreases |ms|
  {
    if ms != [] {
      assert ApplyAt(entry, k, ms[0]) == entry;
      OthersClimb(entry, k, ms[1..]);
    }
  }

  // ---------------------------------------------------------------------------------
  // One status at a time
  // ---------------------------------------------------------------------------------

  /** The rank of the order's own status (field -1) or of an item's (field i). */
  function Get(o: Order, f: int): nat
    requires -1 <= f < |o.items|
  {
    if f == -1 then OrderRank(o.status) else ItemRank(o.items[f].status)
  }

  /** The field an update writes, or -2 if it is about an item that is not there. */
  function FieldOf(items: seq<Item>, m: Message): (f: int)
    ensures -2 <= f < |items|
  {
    if m.mtype == DISP_ORDER_UPDATE then -1
    else
      var i := FindItem(items, m.itemId);
      if i < 0 then -2 else i
  }

  function RankOf(m: Message): nat {
    if m.mtype == DISP_ORDER_UPDATE then OrderRank(m.orderStatus) else ItemRank(m.itemStatus)
  }

  predicate Delivers(k: int, ms: seq<Message>) {
    exists i :: 0 <= i < |ms| && IsDelivery(ms[i], k)
  }

  predicate Copies(k: int, ms: seq<Message>) {
    exists i :: 0 <= i < |ms| && IsCopy(ms[i], k)
  }

  predicate Writes(items: seq<Item>, k: int, ms: seq<Message>, f: int) {
    exists i :: 0 <= i < |ms| && IsUpdate(ms[i], k) && FieldOf(items, ms[i]) == f
  }

  lemma SameLookup(a: Order, b: Order, itemId: int)
    requires SameExceptStatus(a, b)
    ensures FindItem(a.items, itemId) == FindItem(b.items, itemId)
  {
    SameIds(a, b);
    FindItemById(a.items, b.items, itemId);
  }

  lemma SameFieldOf(a: Order, b: Order, m: Message)
    requires SameExceptStatus(a, b)
    ensures FieldOf(a.items, m) == FieldOf(b.items, m)
  {
    SameLookup(a, b, m.itemId);
  }

  lemma ApplyField(o: Order, k: int, m: Message, f: int)
    requires !IsCopy(m, k) && !IsDelivery(m, k) && -1 <= f < |o.items|
    ensures var e := ApplyAt(Some(o), k, m);
            && e.Some? && SameExceptStatus(o, e.value)
            && Get(e.value, f) == if IsUpdate(m, k) && FieldOf(o.items, m) == f then RankOf(m) else Get(o, f)
  {
  }

  /** Orders that agree but for statuses, and in every status, are equal. */
  lemma SameFields(a: Order, b: Order)
    requires SameExceptStatus(a, b) && forall f :: -1 <= f < |a.items| ==> Get(a, f) == Get(b, f)
    ensures a == b
  {
    assert Get(a, -1) == Get(b, -1);
    forall i | 0 <= i < |a.items|
      ensures a.items[i] == b.items[i]
    {
      assert Get(a, i) == Get(b, i);
      var x, y := a.items[i], b.items[i];
      assert x.(status := ItemStatus.NEW) == y.(status := ItemStatus.NEW);
      assert x == x.(status := ItemStatus.NEW).(status := x.status);
      assert y == y.(status := ItemStatus.NEW).(status := y.status);
    }
    assert a.items == b.items;
  }

  lemma {:induction false} DeliveredIsGone(entry: Option<Order>, k: int, ms: seq<Message>)
    requires Delivers(k, ms) || entry == None
    requires !Copies(k, ms)
    ensures FoldAt(entry, k, ms) == None
    decreases |ms|
  {
    if ms != [] {
      assert !IsCopy(ms[0], k);
      forall i | 0 <= i < |ms[1..]|
        ensures !IsCopy(ms[1..][i], k) && (IsDelivery(ms[i + 1], k) ==> Delivers(k, ms[1..]))
      {
        assert ms[1..][i] == ms[i + 1];
      }
      DeliveredIsGone(ApplyAt(entry, k, ms[0]), k, ms[1..]);
    }
  }

  lemma WritesCons(items: seq<Item>, k: int, ms: seq<Message>, f: int)
    requires ms != []
    ensures Writes(items, k, ms, f) <==>
              (IsUpdate(ms[0], k) && FieldOf(items, ms[0]) == f) || Writes(items, k, ms[1..], f)
  {
    hide IsUpdate, FieldOf;
    forall i | 0 <= i < |ms[1..]|
      ensures ms[1..][i] == ms[i + 1]
    {
    }
    if Writes(items, k, ms[1..], f) {
      var i :| 0 <= i < |ms[1..]| && IsUpdate(ms[1..][i], k) && FieldOf(items, ms[1..][i]) == f;
      assert IsUpdate(ms[i + 1], k) && FieldOf(items, ms[i + 1]) == f;
    } else if Writes(items, k, ms, f) {
      var i :| 0 <= i < |ms| && IsUpdate(ms[i], k) && FieldOf(items, ms[i]) == f;
      assert i > 0 ==> ms[i] == ms[1..][i - 1];
    }
  }

  lemma PlainTail(k: int, ms: seq<Message>)
    requires ms != [] && !Delivers(k, ms) && !Copies(k, ms)
    ensures !IsDelivery(ms[0], k) && !IsCopy(ms[0], k)
    ensures !Delivers(k, ms[1..]) && !Copies(k, ms[1..])
  {
    forall i | 0 <= i < |ms[1..]|
      ensures !IsDelivery(ms[1..][i], k) && !IsCopy(ms[1..][i], k)
    {
      assert ms[1..][i] == ms[i + 1];
    }
  }

  lemma SameTransitive(a: Order, b: Order, c: Order)
    requires SameExceptStatus(a, b) && SameExceptStatus(b, c)
    ensures SameExceptStatus(a, c)
  {
  }

  /** Without a delivery the order stays, but for its statuses. */
  lemma {:induction false} FoldStays(o: Order, k: int, ms: seq<Message>)
    requires !Delivers(k, ms) && !Copies(k, ms)
    ensures var e := FoldAt(Some(o), k, ms); e.Some? && SameExceptStatus(o, e.value)
    decreases |ms|
  {
    if ms != [] {
      PlainTail(k, ms);
      ApplyField(o, k, ms[0], -1);
      var next := ApplyAt(Some(o), k, ms[0]).value;
      FoldStays(next, k, ms[1..]);
      SameTransitive(o, next, FoldAt(Some(o), k, ms).value);
    }
  }

  /** After the same messages two versions of an order agree in a field exactly if the messages
      write it or they agreed in it before. */
  lemma {:induction false} FieldAfter(a: Order, b: Order, k: int, ms: seq<Message>, f: int)
    requires !Delivers(k, ms) && !Copies(k, ms) && SameExceptStatus(a, b) && -1 <= f < |a.items|
    ensures var x, y := FoldAt(Some(a), k, ms), FoldAt(Some(b), k, ms);
            && x.Some? && y.Some? && SameExceptStatus(a, x.value) && SameExceptStatus(b, y.value)
            && (Get(x.value, f) == Get(y.value, f) <==> Writes(a.items, k, ms, f) || Get(a, f) == Get(b, f))
    decreases |ms|
  {
    hide Delivers, Copies, IsDelivery, IsCopy, IsUpdate, ApplyAt, Get, FieldOf, SameExceptStatus;
    FoldStays(a, k, ms);
    FoldStays(b, k, ms);
    if ms != [] {
      PlainTail(k, ms);
      WritesCons(a.items, k, ms, f);
      ShapeKept(a, b);
      ApplyField(a, k, ms[0], f);
      ApplyField(b, k, ms[0], f);
      SameFieldOf(a, b, ms[0]);
      var a', b' := ApplyAt(Some(a), k, ms[0]).value, ApplyAt(Some(b), k, ms[0]).value;
      ShapeKept(a, a');
      ShapeAfter(a, b, a', b');
      SameWrites(a, a', k, ms[1..], f);
      FieldAfter(a', b', k, ms[1..], f);
    } else {
      NothingWritten(a.items, k, f);
    }
  }

  lemma ShapeKept(a: Order, b: Order)
    requires SameExceptStatus(a, b)
    ensures |a.items| == |b.items|
  {
  }

  lemma ShapeAfter(a: Order, b: Order, a': Order, b': Order)
    requires SameExceptStatus(a, b) && SameExceptStatus(a, a') && SameExceptStatus(b, b')
    ensures SameExceptStatus(a', b')
  {
  }

  lemma NothingWritten(items: seq<Item>, k: int, f: int)
    ensures !Writes(items, k, [], f)
  {
  }

  lemma SameWrites(a: Order, b: Order, k: int, ms: seq<Message>, f: int)
    requires SameExceptStatus(a, b)
    ensures Writes(a.items, k, ms, f) <==> Writes(b.items, k, ms, f)
  {
    hide SameExceptStatus, IsUpdate, FieldOf;
    forall i | 0 <= i < |ms|
      ensures FieldOf(a.items, ms[i]) == FieldOf(b.items, ms[i])
    {
      SameFieldOf(a, b, ms[i]);
    }
  }

  /** Messages that raise statuses change exactly the fields they write. */
  lemma {:induction false} FieldClimbs(o: Order, k: int, ms: seq<Message>, f: int)
    requires !Delivers(k, ms) && !Copies(k, ms) && Climbs(Some(o), k, ms) && -1 <= f < |o.items|
    ensures var e := FoldAt(Some(o), k, ms);
            && e.Some? && SameExceptStatus(o, e.value)
            && Get(o, f) <= Get(e.value, f)
            && (Get(o, f) < Get(e.value, f) <==> Writes(o.items, k, ms, f))
    decreases |ms|
  {
    hide Delivers, Copies, IsDelivery, IsCopy, IsUpdate, ApplyAt, Get, FieldOf, SameExceptStatus, Raises;
    FoldStays(o, k, ms);
    if ms != [] {
      PlainTail(k, ms);
      WritesCons(o.items, k, ms, f);
      ApplyField(o, k, ms[0], f);
      var next := ApplyAt(Some(o), k, ms[0]).value;
      ShapeKept(o, next);
      SameWrites(o, next, k, ms[1..], f);
      RaisesField(o, k, ms[0]);
      FieldClimbs(next, k, ms[1..], f);
    } else {
      NothingWritten(o.items, k, f);
    }
  }

  lemma RaisesField(o: Order, k: int, m: Message)
    requires Raises(Some(o), k, m)
    ensures IsUpdate(m, k) ==> var f := FieldOf(o.items, m); f >= -1 && Get(o, f) < RankOf(m)
  {
  }

  // ---------------------------------------------------------------------------------
  // A missed stretch
  // ---------------------------------------------------------------------------------

  /** The two updates write the same status. */
  predicate SameField(a: Message, b: Message) {
    a.mtype == b.mtype && (a.mtype == DISP_ITEM_UPDATE ==> a.itemId == b.itemId)
  }

  /** Each status written in the missed messages is written again later, or the order is
      delivered later. */
  predicate Repaired(k: int, missed: seq<Message>, later: seq<Message>) {
    || Delivers(k, later)
    || forall i :: 0 <= i < |missed| && IsUpdate(missed[i], k) ==> Rewritten(missed[i], k, later)
  }

  predicate Rewritten(m: Message, k: int, later: seq<Message>) {
    exists j :: 0 <= j < |later| && IsUpdate(later[j], k) && SameField(m, later[j])
  }

  lemma {:induction false} ClimbsNoCopy(entry: Option<Order>, k: int, ms: seq<Message>)
    requires Climbs(entry, k, ms)
    ensures !Copies(k, ms)
    decreases |ms|
  {
    if ms != [] {
      ClimbsNoCopy(ApplyAt(entry, k, ms[0]), k, ms[1..]);
      forall i | 0 <= i < |ms|
        ensures !IsCopy(ms[i], k)
      {
        assert i > 0 ==> ms[i] == ms[1..][i - 1];
      }
    }
  }

  lemma {:induction false} GoneStaysQuiet(k: int, ms: seq<Message>)
    requires Climbs(None, k, ms)
    ensures forall i :: 0 <= i < |ms| ==> !IsUpdate(ms[i], k)
    ensures FoldAt(None, k, ms) == None
    decreases |ms|
  {
    if ms != [] {
      GoneStaysQuiet(k, ms[1..]);
      forall i | 0 <= i < |ms|
        ensures !IsUpdate(ms[i], k)
      {
        assert i > 0 ==> ms[i] == ms[1..][i - 1];
      }
    }
  }

  /** An update that raises a status is about a field of the order. */
  lemma {:induction false} UpdateHasField(o: Order, k: int, ms: seq<Message>, i: nat)
    requires Climbs(Some(o), k, ms) && !Delivers(k, ms) && i < |ms| && IsUpdate(ms[i], k)
    ensures FieldOf(o.items, ms[i]) >= -1
    decreases |ms|
  {
    ClimbsNoCopy(Some(o), k, ms);
    PlainTail(k, ms);
    RaisesField(o, k, ms[0]);
    if i > 0 {
      ApplyField(o, k, ms[0], -1);
      var next := ApplyAt(Some(o), k, ms[0]).value;
      SameFieldOf(o, next, ms[i]);
      UpdateHasField(next, k, ms[1..], i - 1);
    }
  }

  lemma FieldsMatch(items: seq<Item>, a: Message, b: Message, k: int)
    requires IsUpdate(a, k) && IsUpdate(b, k) && FieldOf(items, a) >= -1
    ensures SameField(a, b) <==> FieldOf(items, a) == FieldOf(items, b)
  {
  }

  /** Repair, field by field. */
  lemma RepairedByField(o: Order, k: int, missed: seq<Message>, later: seq<Message>)
    requires Climbs(Some(o), k, missed) && !Delivers(k, missed) && !Delivers(k, later)
    ensures Repaired(k, missed, later)
       <==> forall f :: -1 <= f < |o.items| && Writes(o.items, k, missed, f) ==> Writes(o.items, k, later, f)
  {
    hide FieldOf, IsUpdate, SameField, Delivers, Climbs;
    forall i | 0 <= i < |missed| && IsUpdate(missed[i], k)
      ensures Rewritten(missed[i], k, later) <==> Writes(o.items, k, later, FieldOf(o.items, missed[i]))
      ensures -1 <= FieldOf(o.items, missed[i]) && Writes(o.items, k, missed, FieldOf(o.items, missed[i]))
    {
      UpdateHasField(o, k, missed, i);
      RewrittenField(o.items, missed[i], k, later);
    }
  }

  lemma RewrittenField(items: seq<Item>, m: Message, k: int, later: seq<Message>)
    requires IsUpdate(m, k) && FieldOf(items, m) >= -1
    ensures Rewritten(m, k, later) <==> Writes(items, k, later, FieldOf(items, m))
  {
    hide FieldOf, IsUpdate, SameField;
    forall j | 0 <= j < |later| && IsUpdate(later[j], k)
      ensures SameField(m, later[j]) <==> FieldOf(items, m) == FieldOf(items, later[j])
    {
      FieldsMatch(items, m, later[j], k);
    }
  }

  lemma KeptOrder(o: Order, k: int, missed: seq<Message>, later: seq<Message>)
    requires Climbs(Some(o), k, missed) && !Copies(k, missed) && !Copies(k, later)
    requires !Delivers(k, missed) && !Delivers(k, later)
    ensures var now := FoldAt(Some(o), k, missed);
            FoldAt(Some(o), k, later) == FoldAt(now, k, later) <==> Repaired(k, missed, later)
  {
    hide Climbs, Delivers, Copies, Repaired, Writes, Get, SameExceptStatus;
    FoldStays(o, k, missed);
    var now := FoldAt(Some(o), k, missed).value;
    FoldStays(o, k, later);
    FoldStays(now, k, later);
    var x, y := FoldAt(Some(o), k, later).value, FoldAt(Some(now), k, later).value;
    ShapeKept(o, now);
    ShapeKept(o, x);
    ShapeAfter(o, now, x, y);
    RepairedByField(o, k, missed, later);
    forall f | -1 <= f < |o.items|
      ensures Get(x, f) == Get(y, f) <==> (Writes(o.items, k, missed, f) ==> Writes(o.items, k, later, f))
    {
      FieldAfter(o, now, k, later, f);
      FieldClimbs(o, k, missed, f);
    }
    if forall f :: -1 <= f < |o.items| ==> Get(x, f) == Get(y, f) {
      SameFields(x, y);
    }
  }

  /** An order brought up to date as it was before the missed messages is right after the later
      ones if and only if these repair what was missed. */
  lemma MissedExact(o: Order, k: int, missed: seq<Message>, later: seq<Message>)
    requires Climbs(Some(o), k, missed + later)
    ensures FoldAt(Some(o), k, later) == FoldAt(Some(o), k, missed + later) <==> Repaired(k, missed, later)
  {
    var now := FoldAt(Some(o), k, missed);
    ClimbsConcat(Some(o), k, missed, later);
    FoldAtConcat(Some(o), k, missed, later);
    ClimbsNoCopy(Some(o), k, missed);
    ClimbsNoCopy(now, k, later);
    if Delivers(k, later) {
      DeliveredIsGone(Some(o), k, later);
      DeliveredIsGone(now, k, later);
    } else if Delivers(k, missed) {
      DeliveredIsGone(Some(o), k, missed);
      GoneStaysQuiet(k, later);
      FoldStays(o, k, later);
      var i :| 0 <= i < |missed| && IsDelivery(missed[i], k);
      assert IsUpdate(missed[i], k) && !Rewritten(missed[i], k, later);
    } else {
      KeptOrder(o, k, missed, later);
    }
  }
}
