/** How much room an order's request must leave so that the order can be shown: exactly, for its
    first DISP_ORDER and for every later one (server.cpp, wire.cpp, io.cpp). */
module Room {
  import opened Model
  import opened Messages
  import opened Numerals
  import opened Splitting
  import opened Orders
  import opened Wire
  import opened WireNormal
  import opened Framing
  import opened Transport
  import opened Lifetimes
  import A = Accounting

  // ---------------------------------------------------------------------------------
  // The exact length
  // ---------------------------------------------------------------------------------

  /** The characters of the items' order ids, and of their statuses. */
  function IdWidths(items: seq<Item>): nat {
    if items == [] then 0 else IdWidths(items[..|items| - 1]) + |ToString(items[|items| - 1].orderId)|
  }

  function StatusWidths(items: seq<Item>): nat {
    if items == [] then 0 else StatusWidths(items[..|items| - 1]) + |ItemStatusToStr(items[|items| - 1].status)|
  }

  lemma {:induction false} ItemsTextLength(items: seq<Item>)
    requires items != []
    ensures |Join(EncodeItems(items), ';')|
         == Cores(items) + IdWidths(items) + StatusWidths(items) + 5 * |items| - 1
  {
    var front, last := items[..|items| - 1], items[|items| - 1];
    ItemTextLength(last);
    assert items == front + [last];
    EncodeItemsSnoc(front, last);
    hide EncodeItem, EncodeItems, Core, ToString, ItemStatusToStr;
    if front == [] {
      assert EncodeItems(front) + [EncodeItem(last)] == [EncodeItem(last)] by {
        NoItemsText();
      }
    } else {
      ItemsTextLength(front);
      JoinSnoc(EncodeItems(front), EncodeItem(last), ';');
    }
  }

  lemma NoItemsText()
    ensures EncodeItems([]) == []
  {
  }

  /** The length of an order's message. */
  lemma MessageLength(t: MessageType, o: Order)
    requires t == ORDER_NEW || t == DISP_ORDER
    requires GoodOrder(o)
    ensures Encode(WithOrder(t, o)).Success?
    ensures |Encode(WithOrder(t, o)).value|
         == |MessageTypeToStr(t)| + |ToString(o.id)| + |OrderStatusToStr(o.status)|
            + Cores(o.items) + IdWidths(o.items) + StatusWidths(o.items) + 5 * |o.items| + 2
  {
    hide Encode, EncodeItems, ToString, OrderStatusToStr, MessageTypeToStr;
    OrderLength(t, o);
    ItemsTextLength(o.items);
  }

  lemma TypeWidths()
    ensures |MessageTypeToStr(DISP_ORDER)| == 10 && |MessageTypeToStr(ORDER_NEW)| == 9
    ensures |OrderStatusToStr(OrderStatus.NEW)| == 3 && |OrderStatusToStr(OrderStatus.IN_PROGRESS)| == 11
    ensures |ItemStatusToStr(ItemStatus.NEW)| == 3 && |ItemStatusToStr(ItemStatus.IN_PROGRESS)| == 11
  {
  }

  /** An order's message can be sent exactly if it is not too long. */
  lemma SendableByLength(o: Order)
    requires GoodOrder(o)
    ensures Encode(WithOrder(DISP_ORDER, o)).Success?
    ensures Sendable(WithOrder(DISP_ORDER, o)) <==> |Encode(WithOrder(DISP_ORDER, o)).value| <= MAX_PAYLOAD
  {
    MessageLength(DISP_ORDER, o);
    hide Encode, GoodOrder;
  }

  // ---------------------------------------------------------------------------------
  // The first DISP_ORDER
  // ---------------------------------------------------------------------------------

  lemma RenumberedIsGood(o: Order, k: int)
    requires GoodOrder(o) && IsId(k)
    ensures GoodOrder(SetOrderId(o, k))
  {
    hide Free;
    forall i | 0 <= i < |o.items|
      ensures GoodItem(SetOrderId(o, k).items[i])
    {
      assert GoodItem(o.items[i]);
    }
  }

  lemma {:induction false} RenumberedWidths(a: seq<Item>, b: seq<Item>, k: int)
    requires |a| == |b| && forall i :: 0 <= i < |a| ==> b[i] == a[i].(orderId := k)
    ensures IdWidths(b) == |b| * |ToString(k)| && StatusWidths(b) == StatusWidths(a)
  {
    hide ToString, ItemStatusToStr;
    if a != [] {
      RenumberedWidths(a[..|a| - 1], b[..|b| - 1], k);
    }
  }

  /** The length of the order's request, less the order ids its items came with, plus the id it
      is given in all of them. */
  function FirstLength(o: Order, k: int): int
    requires Encode(WithOrder(ORDER_NEW, o)).Success?
  {
    |Encode(WithOrder(ORDER_NEW, o)).value| + |ToString(k)| + |o.items| * |ToString(k)| - IdWidths(o.items)
  }

  /** The DISP_ORDER announcing a requested order takes exactly FirstLength characters. */
  lemma FirstMessage(o: Order, k: int)
    requires GoodOrder(o) && o.id == 1 && IsId(k)
    ensures Encode(WithOrder(ORDER_NEW, o)).Success? && Encode(WithOrder(DISP_ORDER, SetOrderId(o, k))).Success?
    ensures |Encode(WithOrder(DISP_ORDER, SetOrderId(o, k))).value| == FirstLength(o, k)
  {
    hide Encode, GoodItem;
    RenumberedIsGood(o, k);
    RenumberedWidths(o.items, SetOrderId(o, k).items, k);
    SameCoresSameBudget(o.items, SetOrderId(o, k).items);
    MessageLength(ORDER_NEW, o);
    MessageLength(DISP_ORDER, SetOrderId(o, k));
    OneDigit();
    TypeWidths();
  }

  lemma OneDigit()
    ensures |ToString(1)| == 1
  {
    assert Numeral(1, 10) == "1";
  }

  /** Exactly when a requested order can be announced: for every state of the server and every
      well-formed order, its DISP_ORDER can be framed if and only if FirstLength is at most
      9998, which the request alone and the next id tell. */
  lemma FirstFits(s: Server, o: Order)
    requires GoodOrder(o) && o.id == 1 && FIRST_ORDER_ID <= s.nextOrderId < INT_MAX
    ensures Encode(WithOrder(ORDER_NEW, o)).Success? && |Events(s, CreateOrder(o))| == 1
    ensures Sendable(Events(s, CreateOrder(o))[0]) <==> FirstLength(o, s.nextOrderId) <= MAX_PAYLOAD
  {
    hide Encode, GoodOrder, Sendable, FirstLength;
    FirstMessage(o, s.nextOrderId);
    RenumberedIsGood(o, s.nextOrderId);
    SendableByLength(SetOrderId(o, s.nextOrderId));
  }

  // ---------------------------------------------------------------------------------
  // Every later DISP_ORDER
  // ---------------------------------------------------------------------------------

  /** What the statuses of an order can still add to its text. */
  function Growth(o: Order): nat {
    var n := Growers(o.items, |o.items|);
    8 * n + if o.status == OrderStatus.NEW && n > 0 then 8 else 0
  }

  /** The most characters a DISP_ORDER of the order takes, now or after further operations. */
  function Peak(o: Order): int
    requires Encode(WithOrder(DISP_ORDER, o)).Success?
  {
    |Encode(WithOrder(DISP_ORDER, o)).value| + Growth(o)
  }

  lemma {:induction false} StatusWidthsUpdate(items: seq<Item>, f: nat, s: ItemStatus)
    requires f < |items|
    ensures StatusWidths(items[f := items[f].(status := s)])
         == StatusWidths(items) - |ItemStatusToStr(items[f].status)| + |ItemStatusToStr(s)|
  {
    hide ItemStatusToStr;
    var items', n := items[f := items[f].(status := s)], |items| - 1;
    if f == n {
      assert items'[..n] == items[..n];
    } else {
      StatusWidthsUpdate(items[..n], f, s);
      assert items'[..n] == items[..n][f := items[f].(status := s)];
    }
  }

  lemma {:induction false} GrowersUpdate(items: seq<Item>, items': seq<Item>, f: nat, n: nat)
    requires f < |items| == |items'| && n <= |items|
    requires forall i :: 0 <= i < |items| ==> Found(items', i) == Found(items, i)
    requires forall i :: 0 <= i < |items| && i != f ==> items'[i].status == items[i].status
    requires Found(items, f) && items'[f].status != ItemStatus.NEW
    ensures Growers(items', n) == Growers(items, n) - if f < n && items[f].status == ItemStatus.NEW then 1 else 0
  {
    if n > 0 {
      GrowersUpdate(items, items', f, n - 1);
    }
  }

  lemma {:induction false} AllDoneNoGrowers(items: seq<Item>, n: nat)
    requires AllDone(items) && n <= |items|
    ensures Growers(items, n) == 0
  {
    if n > 0 {
      AllDoneNoGrowers(items, n - 1);
    }
  }

  lemma {:induction false} SameIdWidths(a: seq<Item>, b: seq<Item>)
    requires |a| == |b| && forall i :: 0 <= i < |a| ==> a[i].orderId == b[i].orderId
    ensures IdWidths(a) == IdWidths(b)
  {
    hide ToString;
    if a != [] {
      SameIdWidths(a[..|a| - 1], b[..|b| - 1]);
    }
  }

  lemma UpdatedIsGood(o: Order, itemId: int, s: ItemStatus)
    requires GoodOrder(o) && Accepted(o, itemId, s)
    ensures GoodOrder(Updated(o, itemId, s))
  {
    hide Free;
    UpdatedItems(o, itemId, s);
    var o', f := Updated(o, itemId, s), FindItem(o.items, itemId);
    hide FindItem, SetItemStatus;
    forall i | 0 <= i < |o'.items|
      ensures GoodItem(o'.items[i])
    {
      assert GoodItem(o.items[i]);
    }
  }

  /** Statuses of the two texts, with all else equal. */
  lemma LengthByStatus(a: Order, b: Order)
    requires GoodOrder(a) && GoodOrder(b) && a.id == b.id && SameCores(a.items, b.items)
    requires forall i :: 0 <= i < |a.items| ==> a.items[i].orderId == b.items[i].orderId
    ensures Encode(WithOrder(DISP_ORDER, a)).Success? && Encode(WithOrder(DISP_ORDER, b)).Success?
    ensures |Encode(WithOrder(DISP_ORDER, b)).value| - |Encode(WithOrder(DISP_ORDER, a)).value|
         == |OrderStatusToStr(b.status)| - |OrderStatusToStr(a.status)| + StatusWidths(b.items) - StatusWidths(a.items)
  {
    hide Encode, GoodItem, ToString, Cores, IdWidths, StatusWidths, OrderStatusToStr, MessageTypeToStr;
    SameCoresSameBudget(a.items, b.items);
    SameIdWidths(a.items, b.items);
    MessageLength(DISP_ORDER, a);
    MessageLength(DISP_ORDER, b);
  }

  /** How an accepted update changes the length and the growth still to come. */
  lemma UpdateLength(o: Order, itemId: int, s: ItemStatus)
    requires GoodOrder(o) && Accepted(o, itemId, s)
    ensures var o', f := Updated(o, itemId, s), FindItem(o.items, itemId); var n := |o.items|;
            && GoodOrder(o') && |o'.items| == n
            && Encode(WithOrder(DISP_ORDER, o)).Success? && Encode(WithOrder(DISP_ORDER, o')).Success?
            && |Encode(WithOrder(DISP_ORDER, o')).value| - |Encode(WithOrder(DISP_ORDER, o)).value|
               == |OrderStatusToStr(o'.status)| - |OrderStatusToStr(o.status)|
                  + |ItemStatusToStr(s)| - |ItemStatusToStr(o.items[f].status)|
            && Growers(o'.items, n) == Growers(o.items, n) - if o.items[f].status == ItemStatus.NEW then 1 else 0
  {
    hide Encode, GoodItem, ToString, OrderStatusToStr, ItemStatusToStr, NextOrderStatus;
    var o', f := Updated(o, itemId, s), FindItem(o.items, itemId);
    UpdatedIsGood(o, itemId, s);
    UpdatedItems(o, itemId, s);
    hide SetItemStatus, FindItem, Found, Updated;
    LengthByStatus(o, o');
    StatusWidthsUpdate(o.items, f, s);
    GrowersUpdate(o.items, o'.items, f, |o.items|);
  }

  /** Updates never raise the peak. */
  lemma PeakFalls(o: Order, itemId: int, s: ItemStatus)
    requires GoodOrder(o) && Accepted(o, itemId, s)
    ensures var o' := Updated(o, itemId, s);
            && GoodOrder(o')
            && Encode(WithOrder(DISP_ORDER, o)).Success? && Encode(WithOrder(DISP_ORDER, o')).Success?
            && Peak(o') <= Peak(o)
  {
    var o' := Updated(o, itemId, s);
    UpdateLength(o, itemId, s);
    hide Encode, GoodOrder, SetItemStatus, FindItem;
    if AllDone(o'.items) {
      AllDoneNoGrowers(o'.items, |o'.items|);
    }
    hide Growers;
  }

  /** What is stored of an order later never exceeds its peak. */
  lemma {:induction false} PeakKept(cmds: seq<Command>, more: seq<Command>, k: int)
    requires k in ExecuteAll(cmds).orders && GoodOrder(ExecuteAll(cmds).orders[k])
    ensures k < ExecuteAll(cmds + more).nextOrderId
    ensures Encode(WithOrder(DISP_ORDER, ExecuteAll(cmds).orders[k])).Success?
    ensures var s := ExecuteAll(cmds + more);
            k in s.orders ==>
              && GoodOrder(s.orders[k]) && Encode(WithOrder(DISP_ORDER, s.orders[k])).Success?
              && Peak(s.orders[k]) <= Peak(ExecuteAll(cmds).orders[k])
  {
    hide ExecuteAll, Execute, Encode, GoodOrder, Accepted, Updated, Peak;
    MessageLength(DISP_ORDER, ExecuteAll(cmds).orders[k]);
    if more == [] {
      assert cmds + more == cmds;
      StoredWasHandedOut(cmds, k);
    } else {
      var front, cmd := more[..|more| - 1], more[|more| - 1];
      assert cmds + more == (cmds + front) + [cmd];
      PeakKept(cmds, front, k);
      var s := ExecuteAll(cmds + front);
      ExecuteSnoc(cmds + front, cmd);
      GoneStays(s, cmd, k);
      if k in s.orders {
        ExecuteEntry(s, cmd, k);
        if cmd.UpdateItem? && Accepted(s.orders[k], cmd.itemId, cmd.itemStatus) {
          PeakFalls(s.orders[k], cmd.itemId, cmd.itemStatus);
        }
      }
    }
  }

  lemma StageStatus(o: Order, i: nat)
    requires i < |o.items|
    ensures var s := Stage(o, |o.items|).items;
            && |s| == |o.items|
            && |ItemStatusToStr(s[i].status)|
               == |ItemStatusToStr(o.items[i].status)| + if Grows(o.items, i) then 8 else 0
  {
    TypeWidths();
    hide Found, ItemStatusToStr;
  }

  lemma {:induction false} StageWidths(o: Order, n: nat)
    requires n <= |o.items|
    ensures |Stage(o, |o.items|).items| == |o.items|
    ensures StatusWidths(Stage(o, |o.items|).items[..n]) == StatusWidths(o.items[..n]) + 8 * Growers(o.items, n)
  {
    hide StatusWidths, Grows, ItemStatusToStr, Stage;
    StageHead(o);
    var items := Stage(o, |o.items|).items;
    if n == 0 {
      NoWidth(items);
      NoWidth(o.items);
    } else {
      StageStatus(o, n - 1);
      StageWidths(o, n - 1);
      WidthOfNext(items, n - 1);
      WidthOfNext(o.items, n - 1);
    }
  }

  lemma NoWidth(items: seq<Item>)
    ensures StatusWidths(items[..0]) == 0
  {
  }

  lemma WidthOfNext(items: seq<Item>, n: nat)
    requires n < |items|
    ensures StatusWidths(items[..n + 1]) == StatusWidths(items[..n]) + |ItemStatusToStr(items[n].status)|
  {
    assert items[..n + 1][..n] == items[..n];
  }

  lemma StageIsGood(o: Order)
    requires GoodOrder(o)
    ensures GoodOrder(Stage(o, |o.items|)) && SameCores(o.items, Stage(o, |o.items|).items)
  {
    hide Free, Grows;
    var o' := Stage(o, |o.items|);
    forall i | 0 <= i < |o'.items|
      ensures GoodItem(o'.items[i])
    {
      assert GoodItem(o.items[i]);
    }
  }

  /** With all items started that can be, the order is at its peak. */
  lemma StageLength(o: Order)
    requires GoodOrder(o)
    ensures GoodOrder(Stage(o, |o.items|))
    ensures Encode(WithOrder(DISP_ORDER, o)).Success? && Encode(WithOrder(DISP_ORDER, Stage(o, |o.items|))).Success?
    ensures |Encode(WithOrder(DISP_ORDER, Stage(o, |o.items|))).value| == Peak(o)
  {
    var o', n := Stage(o, |o.items|), |o.items|;
    StageIsGood(o);
    StageWidths(o, n);
    StageHead(o);
    TypeWidths();
    hide Encode, GoodOrder, Grows, Growers, StatusWidths, SameCores, Stage;
    assert o'.items[..n] == o'.items && o.items[..n] == o.items;
    LengthByStatus(o, o');
  }

  lemma StageHead(o: Order)
    ensures var o', n := Stage(o, |o.items|), |o.items|;
            && o'.id == o.id && |o'.items| == n
            && (forall i :: 0 <= i < n ==> o.items[i].orderId == o'.items[i].orderId)
            && o'.status == if o.status == OrderStatus.NEW && Growers(o.items, n) > 0 then OrderStatus.IN_PROGRESS
                            else o.status
  {
    hide Grows, Growers;
  }

  /** The peak of a requested order, told from its request and the id it is given. */
  function WorstLength(o: Order, k: int): int
    requires Encode(WithOrder(ORDER_NEW, o)).Success?
  {
    FirstLength(o, k) + Growth(o)
  }

  lemma {:induction false} RenumberedGrowers(o: Order, k: int, n: nat)
    requires n <= |o.items|
    ensures Growers(SetOrderId(o, k).items, n) == Growers(o.items, n)
  {
    var items := SetOrderId(o, k).items;
    if n > 0 {
      FindItemById(items, o.items, items[n - 1].id);
      hide FindItem;
      RenumberedGrowers(o, k, n - 1);
    }
  }

  lemma PeakOfRequest(o: Order, k: int)
    requires GoodOrder(o) && o.id == 1 && IsId(k)
    ensures GoodOrder(SetOrderId(o, k))
    ensures Encode(WithOrder(ORDER_NEW, o)).Success? && Encode(WithOrder(DISP_ORDER, SetOrderId(o, k))).Success?
    ensures Peak(SetOrderId(o, k)) == WorstLength(o, k)
  {
    hide Encode, GoodOrder, FirstLength, Growers;
    FirstMessage(o, k);
    RenumberedIsGood(o, k);
    RenumberedGrowers(o, k, |o.items|);
  }

  /** What the server stores of the order is not too long to be shown. */
  ghost predicate ShownFits(cmds: seq<Command>, k: int) {
    k in ExecuteAll(cmds).orders ==> Sendable(WithOrder(DISP_ORDER, ExecuteAll(cmds).orders[k]))
  }

  lemma CreatedNow(cmds: seq<Command>, o: Order)
    requires ExecuteAll(cmds).nextOrderId < INT_MAX
    ensures var k := ExecuteAll(cmds).nextOrderId; var s := ExecuteAll(cmds + [CreateOrder(o)]);
            FIRST_ORDER_ID <= k && k in s.orders && s.orders[k] == SetOrderId(o, k)
  {
    A.RunKeepsInv(cmds, ExecuteAll(cmds).nextOrderId);
    ExecuteSnoc(cmds, CreateOrder(o));
  }

  /** Exactly when a requested order can be shown all its life: whatever operations follow, a
      DISP_ORDER of what the server stores of it can be framed, if and only if the request's
      length, with the ids renewed, leaves 8 characters for each item an update can take from
      NEW to IN_PROGRESS, and 8 more for the status of a new order that has such an item. */
  lemma LifetimeFits(cmds: seq<Command>, o: Order)
    requires GoodOrder(o) && o.id == 1 && ExecuteAll(cmds).nextOrderId < INT_MAX
    ensures Encode(WithOrder(ORDER_NEW, o)).Success?
    ensures var k := ExecuteAll(cmds).nextOrderId;
            (forall more: seq<Command> :: ShownFits(cmds + [CreateOrder(o)] + more, k))
            <==> WorstLength(o, k) <= MAX_PAYLOAD
  {
    hide Encode, GoodOrder, Sendable, ExecuteAll, Stage, WorstLength, Growers;
    var k, born := ExecuteAll(cmds).nextOrderId, SetOrderId(o, ExecuteAll(cmds).nextOrderId);
    var start := cmds + [CreateOrder(o)];
    CreatedNow(cmds, o);
    PeakOfRequest(o, k);
    if WorstLength(o, k) <= MAX_PAYLOAD {
      forall more: seq<Command>
        ensures ShownFits(start + more, k)
      {
        PeakKept(start, more, k);
        if k in ExecuteAll(start + more).orders {
          SendableByLength(ExecuteAll(start + more).orders[k]);
        }
      }
    } else {
      var n := |born.items|;
      var more := StartUpdates(k, born.items);
      ReachesStage(start, k, born, n);
      assert more[..n] == more;
      StageLength(born);
      SendableByLength(Stage(born, n));
      assert !ShownFits(start + more, k);
    }
  }

  lemma {:induction false} AllGrow(items: seq<Item>, n: nat)
    requires A.AllNew(items) && A.DistinctIds(items) && n <= |items|
    ensures Growers(items, n) == n
  {
    if n > 0 {
      DistinctFound(items, n - 1);
      AllGrow(items, n - 1);
    }
  }

  /** For an order requested as new with items of distinct ids these are 8 characters for the
      order and 8 for each item. */
  lemma NewLifetimeFits(cmds: seq<Command>, o: Order)
    requires GoodOrder(o) && o.id == 1 && ExecuteAll(cmds).nextOrderId < INT_MAX
    requires A.BornNew(o) && A.DistinctIds(o.items)
    ensures Encode(WithOrder(ORDER_NEW, o)).Success?
    ensures var k := ExecuteAll(cmds).nextOrderId;
            (forall more: seq<Command> :: ShownFits(cmds + [CreateOrder(o)] + more, k))
            <==> FirstLength(o, k) + 8 + 8 * |o.items| <= MAX_PAYLOAD
  {
    hide Encode, ExecuteAll, ShownFits, FirstLength, Growers;
    LifetimeFits(cmds, o);
    AllGrow(o.items, |o.items|);
  }

  lemma {:induction false} AtMostAll(items: seq<Item>, n: nat)
    requires n <= |items|
    ensures Growers(items, n) <= n
  {
    if n > 0 {
      AtMostAll(items, n - 1);
    }
  }

  lemma {:induction false} EachIdHasWidth(items: seq<Item>)
    ensures IdWidths(items) >= |items|
  {
    hide ToString;
    if items != [] {
      EachIdHasWidth(items[..|items| - 1]);
    }
  }

  /** The room that suffices whatever id the order is given. */
  lemma RoomSuffices(o: Order, k: int)
    requires GoodOrder(o) && o.id == 1 && IsId(k)
    ensures Encode(WithOrder(ORDER_NEW, o)).Success?
    ensures WorstLength(o, k) <= |Encode(WithOrder(ORDER_NEW, o)).value| + 17 * |o.items| + 18
  {
    MessageLength(ORDER_NEW, o);
    hide Encode, GoodOrder, Growers, IdWidths, ToString, FirstLength;
    IntLength(k);
    AtMostAll(o.items, |o.items|);
    EachIdHasWidth(o.items);
    FirstLengthAtMost(o, k);
  }

  lemma FirstLengthAtMost(o: Order, k: int)
    requires Encode(WithOrder(ORDER_NEW, o)).Success? && |ToString(k)| <= 10
    ensures FirstLength(o, k) <= |Encode(WithOrder(ORDER_NEW, o)).value| + 10 + 10 * |o.items| - IdWidths(o.items)
  {
    hide Encode, IdWidths, ToString;
    TimesAtMost(|o.items|, |ToString(k)|, 10);
  }

  lemma TimesAtMost(n: nat, w: nat, most: nat)
    requires w <= most
    ensures n * w <= n * most
  {
  }

  // ---------------------------------------------------------------------------------
  // An example
  // ---------------------------------------------------------------------------------

  /** A request for one item, with this description. */
  function OneItem(desc: string): Order {
    Order(1, OrderStatus.NEW, [Item(1, 1, ItemStatus.NEW, desc, 1)])
  }

  lemma OneItemTexts(desc: string)
    ensures var items := OneItem(desc).items;
            Cores(items) == |desc| + 2 && IdWidths(items) == 1 && StatusWidths(items) == 3
    ensures Growers(OneItem(desc).items, 1) == 1
  {
    var items := OneItem(desc).items;
    OneDigit();
    hide ToString;
    assert items[..0] == [] && Growers(items, 0) == 0;
    assert Cores(items[..0]) == 0 && IdWidths(items[..0]) == 0 && StatusWidths(items[..0]) == 0;
    assert Found(items, 0);
  }

  lemma FirstIdWidth()
    ensures |ToString(FIRST_ORDER_ID)| == 4
  {
    FourDigits();
  }

  /** The first order, with one item: its request is received up to 9972 characters of
      description, but announced only up to 9965, and shown to the end only up to 9949. */
  lemma RoomIsNeeded(desc: string)
    requires Free(desc, '|') && Free(desc, ';') && Free(desc, ':')
    ensures var o := OneItem(desc);
            && (Sendable(WithOrder(ORDER_NEW, o)) <==> |desc| <= 9972)
            && |Events(START, CreateOrder(o))| == 1
            && (Sendable(Events(START, CreateOrder(o))[0]) <==> |desc| <= 9965)
            && ((forall more: seq<Command> :: ShownFits([] + [CreateOrder(o)] + more, FIRST_ORDER_ID))
                <==> |desc| <= 9949)
  {
    var o := OneItem(desc);
    assert GoodItem(o.items[0]) by {
      hide Encode;
    }
    hide Encode, Events, ShownFits, ToString, Growers, Cores, IdWidths, StatusWidths;
    assert ExecuteAll([]) == START;
    MessageLength(ORDER_NEW, o);
    OneItemTexts(desc);
    OneDigit();
    FirstIdWidth();
    TypeWidths();
    FirstFits(START, o);
    LifetimeFits([], o);
  }
}
