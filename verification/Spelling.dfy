/** Every text that decodes, and to which message: numerals may have leading zeros, and nothing
    else may differ from what the message prints (wire.cpp). */
module Spelling {
  import opened Wrappers
  import opened Model
  import opened Messages
  import opened Numerals
  import opened Splitting
  import opened Wire
  import opened WireNormal
  import opened Framing

  // ---------------------------------------------------------------------------------
  // Numbers
  // ---------------------------------------------------------------------------------

  /** The numeral of the number, with any number of leading zeros. */
  ghost predicate Spells(s: string, n: int) {
    exists zeros: nat :: s == Zeros(zeros) + ToString(n)
  }

  lemma {:induction false} StripZeros(s: string) returns (zeros: nat)
    requires s != "" && AllDigits(s, 10)
    ensures s == Zeros(zeros) + ToString(Value(s, 10))
  {
    hide Value, Numeral, Zeros;
    PrintsBackIff(s);
    if s == "0" || s[0] != '0' {
      zeros := 0;
      ZerosGrow(0, s);
    } else {
      FirstZero(s);
      var less := StripZeros(s[1..]);
      zeros := less + 1;
      ZerosGrow(less, ToString(Value(s, 10)));
    }
  }

  lemma FirstZero(s: string)
    requires |s| > 1 && s[0] == '0'
    ensures s == ['0'] + s[1..] && Value(s, 10) == Value(s[1..], 10)
  {
    PadValue(1, s[1..]);
    hide Value;
    assert s == seq(1, _ => '0') + s[1..];
  }

  lemma ZerosGrow(n: nat, s: string)
    ensures Zeros(0) + s == s
    ensures ['0'] + (Zeros(n) + s) == Zeros(n + 1) + s
  {
    assert ['0'] + Zeros(n) == Zeros(n + 1);
  }

  lemma PaddedReads(zeros: nat, n: nat)
    ensures var s := Zeros(zeros) + ToString(n); AllDigits(s, 10) && Value(s, 10) == n
  {
    NumeralReadsBack(n, 10);
    PadValue(zeros, ToString(n));
  }

  /** Which strings are read as a number, and as which: leading zeros make no difference. */
  lemma NumberExact(s: string, min: nat, n: int)
    ensures ValidateId(s, min) == Success(n) <==> min <= n <= INT_MAX && Spells(s, n)
    ensures ValidateId(s, min).Failure? ==> ValidateId(s, min) == Failure(InvalidMessage)
  {
    hide AllDigits, Value, SignedNumeral;
    if ValidateId(s, min) == Success(n) {
      var zeros := StripZeros(s);
    }
    if min <= n <= INT_MAX && Spells(s, n) {
      var zeros: nat :| s == Zeros(zeros) + ToString(n);
      PaddedReads(zeros, n);
    }
  }

  lemma SpelledFree(s: string, n: nat, c: char)
    requires Spells(s, n) && IsSeparator(c)
    ensures Free(s, c)
  {
    var zeros: nat :| s == Zeros(zeros) + ToString(n);
    PaddedReads(zeros, n);
    hide ToString, Zeros;
  }

  lemma SplitExact(s: string, sep: char, f: seq<string>)
    ensures Split(s, sep) == f <==> f != [] && AllFree(f, sep) && Join(f, sep) == s
  {
    hide AllFree, Join, Split;
    SplitJoins(s, sep);
    if f != [] && AllFree(f, sep) && Join(f, sep) == s {
      JoinSplits(f, sep);
    }
  }

  // ---------------------------------------------------------------------------------
  // Items and orders
  // ---------------------------------------------------------------------------------

  /** The five fields of an item's text. */
  ghost predicate ItemSpelled(f: seq<string>, i: Item) {
    && |f| == 5
    && Spells(f[0], i.orderId) && Spells(f[1], i.id) && f[2] == ItemStatusToStr(i.status)
    && f[3] == i.desc && Spells(f[4], i.qty)
  }

  ghost predicate ItemSpells(s: string, i: Item) {
    exists f :: ItemSpelled(f, i) && s == Join(f, ':')
  }

  predicate ReadableItem(i: Item) {
    && IsId(i.orderId) && IsId(i.id) && IsId(i.qty) && i.status != ItemStatus.INVALID && Free(i.desc, ':')
  }

  lemma ItemFieldsRead(f: seq<string>, i: Item)
    requires |f| == 5
    ensures ItemSpelled(f, i) && IsId(i.orderId) && IsId(i.id) && IsId(i.qty) && i.status != ItemStatus.INVALID
       <==> && ValidateId(f[0], 1) == Success(i.orderId) && ValidateId(f[1], 1) == Success(i.id)
            && StrToItemStatus(f[2]) == i.status != ItemStatus.INVALID
            && f[3] == i.desc && ValidateId(f[4], 1) == Success(i.qty)
  {
    NumberExact(f[0], 1, i.orderId);
    NumberExact(f[1], 1, i.id);
    NumberExact(f[4], 1, i.qty);
    NamesPrint(f[2]);
    NamesRead(OK, i.status, OrderStatus.NEW, ClientMode.UPDATER);
    hide Spells, ValidateId, StrToItemStatus, ItemStatusToStr;
  }

  lemma DecodeItemFields(s: string, i: Item)
    ensures var f := Split(s, ':');
            DecodeItem(s) == Success(i) <==>
              && |f| == 5
              && ValidateId(f[0], 1) == Success(i.orderId) && ValidateId(f[1], 1) == Success(i.id)
              && StrToItemStatus(f[2]) == i.status != ItemStatus.INVALID
              && f[3] == i.desc && ValidateId(f[4], 1) == Success(i.qty)
  {
    hide Split, ValidateId, StrToItemStatus;
  }

  lemma SpelledFieldsFree(f: seq<string>, i: Item)
    requires ItemSpelled(f, i) && ReadableItem(i)
    ensures AllFree(f, ':')
  {
    SpelledFree(f[0], i.orderId, ':');
    SpelledFree(f[1], i.id, ':');
    SpelledFree(f[4], i.qty, ':');
    NamesFree(OK, i.status, OrderStatus.NEW, ClientMode.UPDATER, ':');
    hide Spells, ItemStatusToStr, Free;
  }

  lemma ItemExact(s: string, i: Item)
    ensures DecodeItem(s) == Success(i) <==> ReadableItem(i) && ItemSpells(s, i)
  {
    DecodeItemFields(s, i);
    hide DecodeItem, ValidateId, StrToItemStatus, ItemSpelled, Split, Join, Free;
    if DecodeItem(s) == Success(i) {
      var f := Split(s, ':');
      ItemFieldsRead(f, i);
      SplitExact(s, ':', f);
      assert ItemSpelled(f, i) && Free(f[3], ':');
    }
    if ReadableItem(i) && ItemSpells(s, i) {
      var f :| ItemSpelled(f, i) && s == Join(f, ':');
      FiveFields(f, i);
      SpelledFieldsFree(f, i);
      SplitExact(s, ':', f);
      ItemFieldsRead(f, i);
    }
  }

  lemma FiveFields(f: seq<string>, i: Item)
    requires ItemSpelled(f, i)
    ensures |f| == 5
  {
  }

  ghost predicate ItemsSpelled(strs: seq<string>, items: seq<Item>) {
    |strs| == |items| && forall i :: 0 <= i < |items| ==> ItemSpells(strs[i], items[i])
  }

  predicate ReadableItems(items: seq<Item>) {
    forall i :: 0 <= i < |items| ==> ReadableItem(items[i])
  }

  lemma {:induction false} ItemsExact(strs: seq<string>, items: seq<Item>)
    ensures DecodeItems(strs) == Success(items) <==> ReadableItems(items) && ItemsSpelled(strs, items)
  {
    hide ReadableItem, ItemSpells, DecodeItem;
    if |strs| == |items| {
      if strs != [] {
        var n := |strs| - 1;
        ItemsExact(strs[..n], items[..n]);
        ItemExact(strs[n], items[n]);
        assert items == items[..n] + [items[n]];
      }
    }
  }

  /** The text of an order: its id, its status and its items' texts. */
  ghost predicate OrderSpells(s: string, o: Order) {
    exists f, strs :: OrderSpelled(f, strs, o) && s == GlueOrder(f)
  }

  ghost predicate OrderSpelled(f: OrderFields, strs: seq<string>, o: Order) {
    && Spells(f.id, o.id) && f.status == OrderStatusToStr(o.status)
    && f.items == Join(strs, ';') && ItemsSpelled(strs, o.items)
  }

  lemma CutExact(s: string, f: OrderFields)
    ensures CutOrder(s) == Success(f) <==> GlueOrder(f) == s && Free(f.id, ',') && Free(f.status, ',')
  {
    hide CutOrder, GlueOrder, Free;
    if CutOrder(s) == Success(f) {
      CutThenGlue(s);
    }
    if GlueOrder(f) == s && Free(f.id, ',') && Free(f.status, ',') {
      GlueThenCut(f);
    }
  }

  lemma DecodeFields(f: OrderFields, o: Order)
    ensures DecodeOrderFields(f) == Success(o) <==>
              && ValidateId(f.id, 1) == Success(o.id)
              && StrToOrderStatus(f.status) == o.status != OrderStatus.INVALID
              && f.items != "" && DecodeItems(Split(f.items, ';')) == Success(o.items)
  {
    hide ValidateId, StrToOrderStatus, DecodeItems, Split;
  }

  lemma SpelledItemFree(s: string, i: Item)
    requires ItemSpells(s, i) && GoodItem(i)
    ensures Free(s, ';') && Free(s, '|') && s != ""
  {
    var f :| ItemSpelled(f, i) && s == Join(f, ':');
    forall c | c == ';' || c == '|'
      ensures Free(s, c)
    {
      SpelledFree(f[0], i.orderId, c);
      SpelledFree(f[1], i.id, c);
      SpelledFree(f[4], i.qty, c);
      NamesFree(OK, i.status, OrderStatus.NEW, ClientMode.UPDATER, c);
      hide Spells, ItemStatusToStr, Free, Join;
      JoinKeepsFree(f, ':', c);
    }
    JoinLength(f, ':');
    hide Spells, ItemStatusToStr, Join;
  }

  lemma SpelledItemsFree(strs: seq<string>, items: seq<Item>)
    requires ItemsSpelled(strs, items) && items != [] && forall i :: 0 <= i < |items| ==> GoodItem(items[i])
    ensures AllFree(strs, ';') && AllFree(strs, '|') && strs != [] && strs[0] != ""
    ensures ReadableItems(items)
  {
    forall i | 0 <= i < |items|
      ensures Free(strs[i], ';') && Free(strs[i], '|') && strs[i] != ""
    {
      SpelledItemFree(strs[i], items[i]);
    }
    hide ItemSpells, Free;
  }

  lemma SpelledOrderReads(f: OrderFields, strs: seq<string>, o: Order)
    requires OrderSpelled(f, strs, o) && GoodOrder(o)
    ensures DecodeOrder(GlueOrder(f)) == Success(o) && Free(GlueOrder(f), '|')
  {
    SpelledItemsFree(strs, o.items);
    SpelledFree(f.id, o.id, ',');
    SpelledFree(f.id, o.id, '|');
    NamesFree(OK, ItemStatus.NEW, o.status, ClientMode.UPDATER, ',');
    NamesFree(OK, ItemStatus.NEW, o.status, ClientMode.UPDATER, '|');
    NamesRead(OK, ItemStatus.NEW, o.status, ClientMode.UPDATER);
    NumberExact(f.id, 1, o.id);
    ItemsExact(strs, o.items);
    hide Spells, ItemsSpelled, ReadableItems, GoodItem, AllFree, Free, Join, Split, OrderStatusToStr, StrToOrderStatus;
    JoinNonEmpty(strs, ';');
    SplitExact(f.items, ';', strs);
    JoinKeepsFree(strs, ';', '|');
    hide ValidateId, DecodeItems, DecodeOrderFields, CutOrder;
    DecodeFields(f, o);
    CutExact(GlueOrder(f), f);
    FreeConcat(f.status, [','], '|');
    FreeConcat(f.status + [','], f.items, '|');
    FreeConcat(f.id, [','], '|');
    FreeConcat(f.id + [','], f.status + [','] + f.items, '|');
    CommaFree();
  }

  lemma CommaFree()
    ensures Free([','], '|')
  {
  }

  lemma ReadOrderSpelled(s: string, o: Order)
    requires DecodeOrder(s) == Success(o)
    ensures OrderSpells(s, o)
  {
    hide CutOrder, DecodeOrderFields, ValidateId, DecodeItems, GlueOrder, Split;
    var f := CutOrder(s).value;
    CutExact(s, f);
    DecodeFields(f, o);
    var strs := Split(f.items, ';');
    ItemsExact(strs, o.items);
    SplitExact(f.items, ';', strs);
    NumberExact(f.id, 1, o.id);
    NamesPrint(f.status);
    hide Spells, ItemsSpelled, OrderStatusToStr, StrToOrderStatus, Join, Free;
    assert OrderSpelled(f, strs, o);
  }

  lemma OrderExact(s: string, o: Order)
    requires Free(s, '|')
    ensures DecodeOrder(s) == Success(o) <==> GoodOrder(o) && OrderSpells(s, o)
  {
    hide DecodeOrder, GoodOrder, OrderSpelled, GlueOrder;
    if DecodeOrder(s) == Success(o) {
      DecodedOrder(s);
      ReadOrderSpelled(s, o);
    }
    if GoodOrder(o) && OrderSpells(s, o) {
      var f, strs :| OrderSpelled(f, strs, o) && s == GlueOrder(f);
      SpelledOrderReads(f, strs, o);
    }
  }

  // ---------------------------------------------------------------------------------
  // Messages
  // ---------------------------------------------------------------------------------

  /** The parts of a message's text. */
  ghost predicate PartsSpelled(f: seq<string>, m: Message) {
    && f != [] && f[0] == MessageTypeToStr(m.mtype)
    && match m.mtype
       case DISP_HEARTBEAT => |f| == 1
       case LOGIN => |f| == 3 && f[1] == ClientModeToStr(m.clientMode) && f[2] == m.str
       case QUIT | OK | ERROR => |f| == 2 && f[1] == m.str
       case ORDER_NEW | DISP_ORDER => |f| == 2 && m.order.Some? && OrderSpells(f[1], m.order.value)
       case ITEM_UPDATE | DISP_ITEM_UPDATE =>
         |f| == 4 && Spells(f[1], m.orderId) && Spells(f[2], m.itemId) && f[3] == ItemStatusToStr(m.itemStatus)
       case ORDER_UPDATE | DISP_ORDER_UPDATE =>
         |f| == 3 && Spells(f[1], m.orderId) && f[2] == OrderStatusToStr(m.orderStatus)
       case INVALID => false
  }

  ghost predicate MessageSpells(s: string, m: Message) {
    exists f :: PartsSpelled(f, m) && s == Join(f, '|')
  }

  lemma SpelledOrderFree(s: string, o: Order)
    requires OrderSpells(s, o) && GoodOrder(o)
    ensures Free(s, '|')
  {
    hide OrderSpelled, GlueOrder, GoodOrder, Free;
    var f, strs :| OrderSpelled(f, strs, o) && s == GlueOrder(f);
    SpelledOrderReads(f, strs, o);
  }

  lemma SpelledPartsFree(f: seq<string>, m: Message)
    requires PartsSpelled(f, m) && WellFormed(m)
    ensures AllFree(f, '|')
  {
    NamesFree(m.mtype, m.itemStatus, m.orderStatus, m.clientMode, '|');
    if m.mtype == ORDER_NEW || m.mtype == DISP_ORDER {
      SpelledOrderFree(f[1], m.order.value);
    } else if m.mtype == ITEM_UPDATE || m.mtype == DISP_ITEM_UPDATE {
      SpelledFree(f[1], m.orderId, '|');
      SpelledFree(f[2], m.itemId, '|');
    } else if m.mtype == ORDER_UPDATE || m.mtype == DISP_ORDER_UPDATE {
      SpelledFree(f[1], m.orderId, '|');
    }
    hide MessageTypeToStr, ItemStatusToStr, OrderStatusToStr, ClientModeToStr, Spells, OrderSpells, Free, GoodOrder;
  }

  lemma OrderPartsExact(f: seq<string>, m: Message)
    requires m.mtype == ORDER_NEW || m.mtype == DISP_ORDER
    requires f != [] && AllFree(f, '|')
    ensures DecodeParts(m.mtype, f) == Success(m)
       <==> |f| == 2 && WellFormed(m) && OrderSpells(f[1], m.order.value)
  {
    hide DecodeOrder, GoodOrder, OrderSpells, Free;
    if |f| == 2 {
      if DecodeParts(m.mtype, f) == Success(m) {
        OrderExact(f[1], m.order.value);
      }
      if WellFormed(m) {
        OrderExact(f[1], m.order.value);
      }
    }
  }

  lemma IdPartsExact(f: seq<string>, m: Message)
    requires || m.mtype == ITEM_UPDATE || m.mtype == DISP_ITEM_UPDATE
             || m.mtype == ORDER_UPDATE || m.mtype == DISP_ORDER_UPDATE
    requires f != [] && f[0] == MessageTypeToStr(m.mtype)
    ensures DecodeParts(m.mtype, f) == Success(m) <==> PartsSpelled(f, m) && WellFormed(m)
  {
    hide Spells, ValidateId, MessageTypeToStr, ItemStatusToStr, OrderStatusToStr, StrToItemStatus, StrToOrderStatus;
    NamesRead(m.mtype, m.itemStatus, m.orderStatus, m.clientMode);
    if |f| > 2 {
      NumberExact(f[1], 1, m.orderId);
      NumberExact(f[2], 1, m.itemId);
      NamesPrint(f[2]);
      NamesPrint(f[|f| - 1]);
    }
  }

  lemma TextPartsExact(f: seq<string>, m: Message)
    requires m.mtype == LOGIN || m.mtype == QUIT || m.mtype == OK || m.mtype == ERROR || m.mtype == DISP_HEARTBEAT
    requires f != [] && f[0] == MessageTypeToStr(m.mtype) && AllFree(f, '|')
    ensures DecodeParts(m.mtype, f) == Success(m) <==> PartsSpelled(f, m) && WellFormed(m)
  {
    hide MessageTypeToStr, ClientModeToStr, StrToClientMode;
    NamesRead(m.mtype, m.itemStatus, m.orderStatus, m.clientMode);
    if |f| > 1 {
      NamesPrint(f[1]);
    }
  }

  lemma PartsExact(f: seq<string>, m: Message)
    requires f != [] && AllFree(f, '|')
    ensures DecodeParts(StrToMessageType(f[0]), f) == Success(m) <==> PartsSpelled(f, m) && WellFormed(m)
  {
    var t := StrToMessageType(f[0]);
    NamesPrint(f[0]);
    NamesRead(m.mtype, m.itemStatus, m.orderStatus, m.clientMode);
    UnknownTypeFails(f);
    if t != MessageType.INVALID && DecodeParts(t, f).Success? {
      PartsIds(t, f);
    }
    hide DecodeParts, MessageTypeToStr, StrToMessageType;
    if t == m.mtype {
      match t
      case ORDER_NEW | DISP_ORDER => OrderPartsExact(f, m);
      case INVALID =>
      case ITEM_UPDATE | DISP_ITEM_UPDATE | ORDER_UPDATE | DISP_ORDER_UPDATE => IdPartsExact(f, m);
      case _ => TextPartsExact(f, m);
    }
  }

  /** A text decodes to a message if and only if the message is well formed and the text is its
      name and parts, except that any numeral in it may have leading zeros. */
  lemma DecodeExact(s: string, m: Message)
    ensures Decode(s) == Success(m) <==> WellFormed(m) && MessageSpells(s, m)
  {
    hide PartsSpelled, WellFormed, DecodeParts, StrToMessageType, Split, Join, AllFree;
    var f := Split(s, '|');
    SplitExact(s, '|', f);
    PartsExact(f, m);
    if WellFormed(m) && MessageSpells(s, m) {
      var g :| PartsSpelled(g, m) && s == Join(g, '|');
      SpelledPartsFree(g, m);
      SomeParts(g, m);
      SplitExact(s, '|', g);
    }
  }

  lemma SomeParts(f: seq<string>, m: Message)
    requires PartsSpelled(f, m)
    ensures f != []
  {
  }
}
