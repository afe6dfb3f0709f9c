/** What decoding yields: only well-formed messages, and the text they print as, except for
    leading zeros; hence exactly which messages survive the wire (wire.cpp). */
module WireNormal {
  import opened Wrappers
  import opened Model
  import opened Messages
  import opened Numerals
  import opened Splitting
  import opened Wire

  predicate NoLeadingZero(s: string) {
    s != "" && s[0] != '0'
  }

  // The numerals of an encoded item, order and message have no leading zero.

  predicate PlainItem(s: string) {
    var f := Split(s, ':');
    |f| == 5 && NoLeadingZero(f[0]) && NoLeadingZero(f[1]) && NoLeadingZero(f[4])
  }

  predicate PlainItems(strs: seq<string>) {
    forall i :: 0 <= i < |strs| ==> PlainItem(strs[i])
  }

  predicate PlainOrder(s: string) {
    var f := CutOrder(s);
    f.Success? && NoLeadingZero(f.value.id) && PlainItems(Split(f.value.items, ';'))
  }

  predicate PlainParts(t: MessageType, f: seq<string>) {
    match t
    case ORDER_NEW | DISP_ORDER => |f| == 2 && PlainOrder(f[1])
    case ITEM_UPDATE | DISP_ITEM_UPDATE => |f| == 4 && NoLeadingZero(f[1]) && NoLeadingZero(f[2])
    case ORDER_UPDATE | DISP_ORDER_UPDATE => |f| == 3 && NoLeadingZero(f[1])
    case _ => true
  }

  predicate NoLeadingZeros(s: string) {
    var f := Split(s, '|');
    PlainParts(StrToMessageType(f[0]), f)
  }

  lemma DecodedItem(s: string)
    requires DecodeItem(s).Success? && Free(s, '|') && Free(s, ';')
    ensures GoodItem(DecodeItem(s).value)
    ensures EncodeItem(DecodeItem(s).value) == s <==> PlainItem(s)
  {
    var f, i := Split(s, ':'), DecodeItem(s).value;
    SplitJoins(s, ':');
    SplitKeepsFree(s, ':', '|');
    SplitKeepsFree(s, ':', ';');
    IdReads(f[0]);
    IdReads(f[1]);
    IdReads(f[4]);
    NamesPrint(f[2]);
    assert GoodItem(i);
    ItemFieldsFree(i, ':');
    JoinInjective(ItemFields(i), f, ':');
    assert f == [f[0], f[1], f[2], f[3], f[4]];
  }

  lemma {:induction false} DecodedItems(strs: seq<string>)
    requires DecodeItems(strs).Success? && AllFree(strs, '|') && AllFree(strs, ';')
    ensures var items := DecodeItems(strs).value;
            && (forall i :: 0 <= i < |items| ==> GoodItem(items[i]))
            && (EncodeItems(items) == strs <==> PlainItems(strs))
  {
    if strs != [] {
      var front, last := strs[..|strs| - 1], strs[|strs| - 1];
      var items := DecodeItems(strs).value;
      hide GoodItem, DecodeItem, EncodeItem, EncodeItems, PlainItem, PlainItems, Free, AllFree;
      AllFreeSplit(strs, '|');
      AllFreeSplit(strs, ';');
      DecodedItems(front);
      DecodedItem(last);
      var fronts := DecodeItems(front).value;
      assert items == fronts + [DecodeItem(last).value];
      EncodeItemsSnoc(fronts, DecodeItem(last).value);
      SnocEqual(EncodeItems(fronts), EncodeItem(DecodeItem(last).value), front, last);
      assert strs == front + [last];
      PlainItemsSnoc(front, last);
    } else {
      NoItemsDecoded();
    }
  }

  lemma NoItemsDecoded()
    ensures DecodeItems([]) == Success([]) && EncodeItems([]) == [] && PlainItems([])
  {
  }

  lemma PlainItemsSnoc(front: seq<string>, last: string)
    ensures PlainItems(front + [last]) <==> PlainItems(front) && PlainItem(last)
  {
    hide PlainItem;
    var strs := front + [last];
    if PlainItems(strs) {
      assert strs[|front|] == last;
      forall i | 0 <= i < |front|
        ensures PlainItem(front[i])
      {
        assert strs[i] == front[i];
      }
    }
  }

  lemma SnocEqual(a: seq<string>, x: string, b: seq<string>, y: string)
    requires |a| == |b|
    ensures a + [x] == b + [y] <==> a == b && x == y
  {
    if a + [x] == b + [y] {
      assert (a + [x])[..|a|] == a && (b + [y])[..|b|] == b;
      assert (a + [x])[|a|] == x && (b + [y])[|b|] == y;
    }
  }

  lemma GlueInjective(a: OrderFields, b: OrderFields)
    requires Free(a.id, ',') && Free(a.status, ',') && Free(b.id, ',') && Free(b.status, ',')
    ensures GlueOrder(a) == GlueOrder(b) <==> a == b
  {
    GlueThenCut(a);
    GlueThenCut(b);
  }

  lemma DecodedFields(f: OrderFields)
    requires DecodeOrderFields(f).Success? && Free(f.items, '|')
    ensures var o := DecodeOrderFields(f).value;
            && GoodOrder(o)
            && (FieldsOf(o) == f <==> NoLeadingZero(f.id) && PlainItems(Split(f.items, ';')))
  {
    var o, strs := DecodeOrderFields(f).value, Split(f.items, ';');
    SplitJoins(f.items, ';');
    SplitKeepsFree(f.items, ';', '|');
    NamesPrint(f.status);
    IdReads(f.id);
    hide Free, AllFree, GoodItem, PlainItems, ValidateId, OrderStatusToStr, StrToOrderStatus;
    hide Join, Split, DecodeItem, EncodeItem;
    DecodedItems(strs);
    FieldsFree(o);
    JoinInjective(EncodeItems(o.items), strs, ';');
  }

  lemma DecodedOrder(s: string)
    requires DecodeOrder(s).Success? && Free(s, '|')
    ensures GoodOrder(DecodeOrder(s).value)
    ensures OrderText(DecodeOrder(s).value) == s <==> PlainOrder(s)
  {
    hide Free, AllFree, GoodItem, PlainItems, CutOrder, GlueOrder, DecodeOrderFields;
    CutThenGlue(s);
    var f := CutOrder(s).value;
    DecodedFields(f);
    var o := DecodeOrder(s).value;
    FieldsFree(o);
    GlueInjective(FieldsOf(o), f);
  }

  lemma PartsIds(t: MessageType, f: seq<string>)
    requires f != [] && DecodeParts(t, f).Success?
    ensures t == ITEM_UPDATE || t == DISP_ITEM_UPDATE ==>
              |f| == 4 && ValidateId(f[1], 1).Success? && ValidateId(f[2], 1).Success?
    ensures t == ORDER_UPDATE || t == DISP_ORDER_UPDATE ==> |f| == 3 && ValidateId(f[1], 1).Success?
    ensures t == ORDER_NEW || t == DISP_ORDER ==> |f| == 2 && DecodeOrder(f[1]).Success?
    ensures DecodeParts(t, f).value.mtype == t
  {
  }

  /** What DecodedParts says of parts f of type t that decode to m. */
  predicate Faithful(t: MessageType, f: seq<string>, m: Message) {
    && WellFormed(m)
    && Payload(m).Success?
    && ([MessageTypeToStr(m.mtype)] + Payload(m).value == f <==> PlainParts(t, f))
  }

  lemma DecodedOrderMessage(t: MessageType, f: seq<string>)
    requires t == ORDER_NEW || t == DISP_ORDER
    requires |f| == 2 && Free(f[1], '|') && f[0] == MessageTypeToStr(t)
    requires DecodeOrder(f[1]).Success?
    ensures Faithful(t, f, WithOrder(t, DecodeOrder(f[1]).value))
  {
    DecodedOrder(f[1]);
    hide DecodeOrder, GoodItem, PlainOrder, OrderText;
    assert f == [f[0], f[1]];
  }

  lemma FourEqual(f: seq<string>, a: string, b: string, c: string, d: string)
    requires |f| == 4
    ensures [a] + [b, c, d] == f <==> a == f[0] && b == f[1] && c == f[2] && d == f[3]
  {
    assert f == [f[0]] + [f[1], f[2], f[3]];
    if [a] + [b, c, d] == f {
      assert ([a] + [b, c, d])[1] == b && ([a] + [b, c, d])[2] == c && ([a] + [b, c, d])[3] == d;
    }
  }

  lemma DecodedItemMessage(t: MessageType, f: seq<string>)
    requires t == ITEM_UPDATE || t == DISP_ITEM_UPDATE
    requires |f| == 4 && f[0] == MessageTypeToStr(t) && DecodeParts(t, f).Success?
    ensures Faithful(t, f, DecodeParts(t, f).value)
  {
    PartsIds(t, f);
    IdReads(f[1]);
    IdReads(f[2]);
    NamesPrint(f[3]);
    hide ValidateId, ItemStatusToStr, StrToItemStatus, MessageTypeToStr;
    var m := DecodeParts(t, f).value;
    FourEqual(f, f[0], ToString(m.orderId), ToString(m.itemId), ItemStatusToStr(m.itemStatus));
  }

  lemma DecodedStatusMessage(t: MessageType, f: seq<string>)
    requires t == ORDER_UPDATE || t == DISP_ORDER_UPDATE
    requires |f| == 3 && f[0] == MessageTypeToStr(t) && DecodeParts(t, f).Success?
    ensures Faithful(t, f, DecodeParts(t, f).value)
  {
    PartsIds(t, f);
    IdReads(f[1]);
    NamesPrint(f[2]);
    hide ValidateId, OrderStatusToStr, StrToOrderStatus, MessageTypeToStr;
    assert f == [f[0], f[1], f[2]];
  }

  lemma DecodedTextMessage(t: MessageType, f: seq<string>)
    requires t == LOGIN || t == QUIT || t == OK || t == ERROR || t == DISP_HEARTBEAT
    requires f != [] && AllFree(f, '|') && f[0] == MessageTypeToStr(t) && DecodeParts(t, f).Success?
    ensures Faithful(t, f, DecodeParts(t, f).value)
  {
    if t == LOGIN {
      NamesPrint(f[1]);
      assert f == [f[0], f[1], f[2]];
    } else if t == DISP_HEARTBEAT {
      assert f == [f[0]];
    } else {
      assert f == [f[0], f[1]];
    }
  }

  lemma DecodedParts(t: MessageType, f: seq<string>)
    requires f != [] && AllFree(f, '|') && t != MessageType.INVALID && f[0] == MessageTypeToStr(t)
    requires DecodeParts(t, f).Success?
    ensures Faithful(t, f, DecodeParts(t, f).value)
  {
    PartsIds(t, f);
    hide Faithful, MessageTypeToStr;
    match t
    case ORDER_NEW | DISP_ORDER => DecodedOrderMessage(t, f);
    case ITEM_UPDATE | DISP_ITEM_UPDATE => DecodedItemMessage(t, f);
    case ORDER_UPDATE | DISP_ORDER_UPDATE => DecodedStatusMessage(t, f);
    case _ => DecodedTextMessage(t, f);
  }

  lemma UnknownTypeFails(f: seq<string>)
    requires f != []
    ensures DecodeParts(MessageType.INVALID, f).Failure?
  {
  }

  /** Everything that decodes is well formed, survives a second trip, and is printed back as
      the very same text exactly when none of its numerals has a leading zero. */
  lemma DecodeNormalForm(s: string)
    requires Decode(s).Success?
    ensures var m := Decode(s).value;
            && WellFormed(m)
            && Encode(m).Success? && Decode(Encode(m).value) == Success(m)
            && (Encode(m) == Success(s) <==> NoLeadingZeros(s))
  {
    hide WellFormed, DecodeParts, Payload, PlainParts, MessageTypeToStr, StrToMessageType, Free;
    var f := Split(s, '|');
    var t := StrToMessageType(f[0]);
    SplitJoins(s, '|');
    NamesPrint(f[0]);
    UnknownTypeFails(f);
    DecodedParts(t, f);
    var m := Decode(s).value;
    PartsIds(t, f);
    RoundTrip(m);
    PayloadFree(m);
    NamesFree(m.mtype, m.itemStatus, m.orderStatus, m.clientMode, '|');
    JoinInjective([MessageTypeToStr(t)] + Payload(m).value, f, '|');
  }

  /** The exact domain of the format: a message comes back equal if and only if it is well
      formed. */
  lemma ExactDomain(m: Message)
    ensures WellFormed(m) <==> Encode(m).Success? && Decode(Encode(m).value) == Success(m)
  {
    if WellFormed(m) {
      RoundTrip(m);
    } else if Encode(m).Success? && Decode(Encode(m).value) == Success(m) {
      DecodeNormalForm(Encode(m).value);
    }
  }

  /** Two well-formed messages that print alike are equal. */
  lemma EncodeInjective(a: Message, b: Message)
    requires WellFormed(a) && WellFormed(b) && Encode(a) == Encode(b)
    ensures a == b
  {
    RoundTrip(a);
    RoundTrip(b);
  }

  // ---------------------------------------------------------------------------------
  // How much longer a displayed order can be than the request that created it
  // ---------------------------------------------------------------------------------

  /** The part of an item's text that never changes. */
  function Core(i: Item): nat {
    |ToString(i.id)| + |i.desc| + |ToString(i.qty)|
  }

  function Cores(items: seq<Item>): nat {
    if items == [] then 0 else Cores(items[..|items| - 1]) + Core(items[|items| - 1])
  }

  /** A bound on the length of the DISP_ORDER of an order whatever its ids and statuses. */
  function Budget(o: Order): int {
    33 + Cores(o.items) + 26 * |o.items|
  }

  predicate SameCores(a: seq<Item>, b: seq<Item>) {
    |a| == |b| && forall i :: 0 <= i < |a| ==> a[i].id == b[i].id && a[i].desc == b[i].desc && a[i].qty == b[i].qty
  }

  lemma {:induction false} SameCoresSameBudget(a: seq<Item>, b: seq<Item>)
    requires SameCores(a, b)
    ensures Cores(a) == Cores(b)
  {
    if a != [] {
      SameCoresSameBudget(a[..|a| - 1], b[..|b| - 1]);
    }
  }

  lemma ItemTextLength(i: Item)
    ensures |EncodeItem(i)| == Core(i) + |ToString(i.orderId)| + |ItemStatusToStr(i.status)| + 4
  {
    var f := ItemFields(i);
    JoinLength(f, ':');
    assert f[1..][1..][1..][1..] == [f[4]];
    assert TotalLength(f) == |f[0]| + (|f[1]| + (|f[2]| + (|f[3]| + |f[4]|))) by {
      assert f[1..] == [f[1], f[2], f[3], f[4]];
      assert f[1..][1..] == [f[2], f[3], f[4]];
      assert f[1..][1..][1..] == [f[3], f[4]];
      assert TotalLength([f[4]]) == |f[4]|;
      assert TotalLength([f[3], f[4]]) == |f[3]| + |f[4]|;
      assert TotalLength([f[2], f[3], f[4]]) == |f[2]| + (|f[3]| + |f[4]|);
    }
  }

  lemma ItemLength(i: Item)
    requires GoodItem(i)
    ensures Core(i) + 8 <= |EncodeItem(i)| <= Core(i) + 25
  {
    ItemTextLength(i);
    IntLength(i.orderId);
    hide ToString;
  }

  lemma {:induction false} ItemsLength(items: seq<Item>)
    requires items != [] && forall i :: 0 <= i < |items| ==> GoodItem(items[i])
    ensures var l := |Join(EncodeItems(items), ';')|;
            Cores(items) + 9 * |items| - 1 <= l <= Cores(items) + 26 * |items| - 1
  {
    var front, last := items[..|items| - 1], items[|items| - 1];
    ItemLength(last);
    assert items == front + [last];
    EncodeItemsSnoc(front, last);
    if front == [] {
      assert EncodeItems(items) == [EncodeItem(last)];
    } else {
      ItemsLength(front);
      JoinSnoc(EncodeItems(front), EncodeItem(last), ';');
    }
  }

  lemma OrderLength(t: MessageType, o: Order)
    requires t == ORDER_NEW || t == DISP_ORDER
    requires GoodOrder(o)
    ensures var r := Encode(WithOrder(t, o));
            && r.Success?
            && |r.value| == |MessageTypeToStr(t)| + 1 + |OrderText(o)|
    ensures |OrderText(o)| == |ToString(o.id)| + |OrderStatusToStr(o.status)| + 2 + |Join(EncodeItems(o.items), ';')|
  {
    var m := WithOrder(t, o);
    assert Payload(m) == Success([OrderText(o)]);
    assert [MessageTypeToStr(t)] + [OrderText(o)] == [MessageTypeToStr(t), OrderText(o)];
    JoinLength([MessageTypeToStr(t), OrderText(o)], '|');
    assert TotalLength([OrderText(o)]) == |OrderText(o)|;
    assert [MessageTypeToStr(t), OrderText(o)][1..] == [OrderText(o)];
  }

  /** Every DISP_ORDER of an order is within its budget, and the budget is at most 17n + 18
      more than the length of the ORDER_NEW request with n items and id 1. */
  lemma BudgetBounds(o: Order)
    requires GoodOrder(o)
    ensures Encode(WithOrder(DISP_ORDER, o)).Success? && |Encode(WithOrder(DISP_ORDER, o)).value| <= Budget(o)
    ensures o.id == 1 ==>
              && Encode(WithOrder(ORDER_NEW, o)).Success?
              && Budget(o) <= |Encode(WithOrder(ORDER_NEW, o)).value| + 17 * |o.items| + 18
  {
    ItemsLength(o.items);
    IntLength(o.id);
    OrderLength(DISP_ORDER, o);
    OrderLength(ORDER_NEW, o);
  }

  /** The growth bound: whatever id and statuses an order requested in L characters gets, its
      DISP_ORDER takes at most L + 17n + 18. */
  lemma GrowthBound(request: Order, later: Order)
    requires GoodOrder(request) && request.id == 1
    requires GoodOrder(later) && SameCores(request.items, later.items)
    ensures var r, d := Encode(WithOrder(ORDER_NEW, request)), Encode(WithOrder(DISP_ORDER, later));
            r.Success? && d.Success? && |d.value| <= |r.value| + 17 * |request.items| + 18
  {
    BudgetBounds(request);
    BudgetBounds(later);
    SameCoresSameBudget(request.items, later.items);
  }
}
