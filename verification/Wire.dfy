/** The text form of messages (wire.cpp): how they are printed, parsed and rejected. */
module Wire {
  import opened Wrappers
  import opened Model
  import opened Messages
  import opened Numerals
  import opened Splitting

  // ---------------------------------------------------------------------------------
  // The name tables
  // ---------------------------------------------------------------------------------

  function ClientModeToStr(m: ClientMode): string {
    match m
    case INVALID => "INVALID"
    case UPDATER => "UPDATER"
    case DISPLAY => "DISPLAY"
  }

  function StrToClientMode(s: string): ClientMode {
    if s == "UPDATER" then ClientMode.UPDATER
    else if s == "DISPLAY" then ClientMode.DISPLAY
    else ClientMode.INVALID
  }

  function MessageTypeToStr(t: MessageType): string {
    match t
    case INVALID => "INVALID"
    case LOGIN => "LOGIN"
    case QUIT => "QUIT"
    case ORDER_NEW => "ORDER_NEW"
    case ITEM_UPDATE => "ITEM_UPDATE"
    case ORDER_UPDATE => "ORDER_UPDATE"
    case OK => "OK"
    case ERROR => "ERROR"
    case DISP_ORDER => "DISP_ORDER"
    case DISP_ITEM_UPDATE => "DISP_ITEM_UPDATE"
    case DISP_ORDER_UPDATE => "DISP_ORDER_UPDATE"
    case DISP_HEARTBEAT => "DISP_HEARTBEAT"
  }

  function StrToMessageType(s: string): MessageType {
    if s == "LOGIN" then LOGIN
    else if s == "QUIT" then QUIT
    else if s == "ORDER_NEW" then ORDER_NEW
    else if s == "ITEM_UPDATE" then ITEM_UPDATE
    else if s == "ORDER_UPDATE" then ORDER_UPDATE
    else if s == "OK" then OK
    else if s == "ERROR" then ERROR
    else if s == "DISP_ORDER" then DISP_ORDER
    else if s == "DISP_ITEM_UPDATE" then DISP_ITEM_UPDATE
    else if s == "DISP_ORDER_UPDATE" then DISP_ORDER_UPDATE
    else if s == "DISP_HEARTBEAT" then DISP_HEARTBEAT
    else MessageType.INVALID
  }

  function ItemStatusToStr(s: ItemStatus): string {
    match s
    case INVALID => "INVALID"
    case NEW => "NEW"
    case IN_PROGRESS => "IN_PROGRESS"
    case DONE => "DONE"
  }

  function StrToItemStatus(s: string): ItemStatus {
    if s == "NEW" then ItemStatus.NEW
    else if s == "IN_PROGRESS" then ItemStatus.IN_PROGRESS
    else if s == "DONE" then ItemStatus.DONE
    else ItemStatus.INVALID
  }

  function OrderStatusToStr(s: OrderStatus): string {
    match s
    case INVALID => "INVALID"
    case NEW => "NEW"
    case IN_PROGRESS => "IN_PROGRESS"
    case DONE => "DONE"
    case DELIVERED => "DELIVERED"
  }

  function StrToOrderStatus(s: string): OrderStatus {
    if s == "NEW" then OrderStatus.NEW
    else if s == "IN_PROGRESS" then OrderStatus.IN_PROGRESS
    else if s == "DONE" then OrderStatus.DONE
    else if s == "DELIVERED" then OrderStatus.DELIVERED
    else OrderStatus.INVALID
  }

  // ---------------------------------------------------------------------------------
  // Printing
  // ---------------------------------------------------------------------------------

  function ItemFields(i: Item): seq<string> {
    [ToString(i.orderId), ToString(i.id), ItemStatusToStr(i.status), i.desc, ToString(i.qty)]
  }

  function EncodeItem(i: Item): string {
    Join(ItemFields(i), ':')
  }

  function EncodeItems(items: seq<Item>): seq<string> {
    seq(|items|, i requires 0 <= i < |items| => EncodeItem(items[i]))
  }

  /** The three comma-separated fields of an order's text; the last may contain commas. */
  datatype OrderFields = OrderFields(id: string, status: string, items: string)

  function GlueOrder(f: OrderFields): string {
    f.id + [','] + (f.status + [','] + f.items)
  }

  function FieldsOf(o: Order): OrderFields {
    OrderFields(ToString(o.id), OrderStatusToStr(o.status), Join(EncodeItems(o.items), ';'))
  }

  function OrderText(o: Order): string {
    GlueOrder(FieldsOf(o))
  }

  function EncodeOrder(o: Option<Order>): Result<string, Exception> {
    if o.None? || o.value.items == [] then Failure(InvalidMessage)
    else Success(OrderText(o.value))
  }

  /** What a message prints after its type. */
  function Payload(m: Message): Result<seq<string>, Exception> {
    match m.mtype
    case DISP_HEARTBEAT => Success([])
    case LOGIN => Success([ClientModeToStr(m.clientMode), m.str])
    case QUIT | OK | ERROR => Success([m.str])
    case ORDER_NEW | DISP_ORDER =>
      var o :- EncodeOrder(m.order);
      Success([o])
    case ITEM_UPDATE | DISP_ITEM_UPDATE =>
      Success([ToString(m.orderId), ToString(m.itemId), ItemStatusToStr(m.itemStatus)])
    case ORDER_UPDATE | DISP_ORDER_UPDATE =>
      Success([ToString(m.orderId), OrderStatusToStr(m.orderStatus)])
    case INVALID => Failure(InvalidMessage)
  }

  function Encode(m: Message): Result<string, Exception> {
    var payload :- Payload(m);
    Success(Join([MessageTypeToStr(m.mtype)] + payload, '|'))
  }

  // ---------------------------------------------------------------------------------
  // Parsing
  // ---------------------------------------------------------------------------------

  /** validate_id_message: decimal digits only, at least min and at most INT_MAX. */
  function ValidateId(s: string, min: int): Result<int, Exception> {
    if s == "" || !AllDigits(s, 10) || Value(s, 10) > INT_MAX || Value(s, 10) < min then Failure(InvalidMessage)
    else Success(Value(s, 10))
  }

  function DecodeItem(s: string): Result<Item, Exception> {
    var f := Split(s, ':');
    if |f| != 5 then Failure(InvalidMessage)
    else
      var orderId :- ValidateId(f[0], 1);
      var id :- ValidateId(f[1], 1);
      var status := StrToItemStatus(f[2]);
      if status == ItemStatus.INVALID then Failure(InvalidMessage)
      else
        var qty :- ValidateId(f[4], 1);
        Success(Item(orderId, id, status, f[3], qty))
  }

  function DecodeItems(strs: seq<string>): (r: Result<seq<Item>, Exception>)
    ensures r.Success? ==> |r.value| == |strs|
  {
    if strs == [] then Success([])
    else
      var front :- DecodeItems(strs[..|strs| - 1]);
      var last :- DecodeItem(strs[|strs| - 1]);
      Success(front + [last])
  }

  /** The text cut at its first two commas. */
  function CutOrder(s: string): Result<OrderFields, Exception> {
    var idDelim := Find(s, ',', 0);
    if idDelim == -1 then Failure(InvalidMessage)
    else
      var statusDelim := Find(s, ',', idDelim + 1);
      if statusDelim == -1 then Failure(InvalidMessage)
      else Success(OrderFields(s[..idDelim], s[idDelim + 1..statusDelim], s[statusDelim + 1..]))
  }

  function DecodeOrderFields(f: OrderFields): Result<Order, Exception> {
    var id :- ValidateId(f.id, 1);
    var status := StrToOrderStatus(f.status);
    if status == OrderStatus.INVALID || f.items == "" then Failure(InvalidMessage)
    else
      var items :- DecodeItems(Split(f.items, ';'));
      Success(Order(id, status, items))
  }

  function DecodeOrder(s: string): Result<Order, Exception> {
    var f :- CutOrder(s);
    DecodeOrderFields(f)
  }

  /** The parts of a message of a known type, parsed. */
  function DecodeParts(t: MessageType, f: seq<string>): Result<Message, Exception>
    requires f != []
  {
    match t
    case DISP_HEARTBEAT =>
      if |f| != 1 then Failure(InvalidMessage) else Success(Plain(t))
    case LOGIN =>
      if |f| != 3 || StrToClientMode(f[1]) == ClientMode.INVALID then Failure(InvalidMessage)
      else Success(WithLogin(t, StrToClientMode(f[1]), f[2]))
    case QUIT | OK | ERROR =>
      if |f| != 2 then Failure(InvalidMessage) else Success(WithText(t, f[1]))
    case ORDER_NEW | DISP_ORDER =>
      if |f| != 2 then Failure(InvalidMessage)
      else
        var o :- DecodeOrder(f[1]);
        Success(WithOrder(t, o))
    case ITEM_UPDATE | DISP_ITEM_UPDATE =>
      if |f| != 4 then Failure(InvalidMessage)
      else
        var orderId :- ValidateId(f[1], 1);
        var itemId :- ValidateId(f[2], 1);
        if StrToItemStatus(f[3]) == ItemStatus.INVALID then Failure(InvalidMessage)
        else Success(WithItemStatus(t, orderId, itemId, StrToItemStatus(f[3])))
    case ORDER_UPDATE | DISP_ORDER_UPDATE =>
      if |f| != 3 then Failure(InvalidMessage)
      else
        var orderId :- ValidateId(f[1], 1);
        if StrToOrderStatus(f[2]) == OrderStatus.INVALID then Failure(InvalidMessage)
        else Success(WithOrderStatus(t, orderId, StrToOrderStatus(f[2])))
    case INVALID => Failure(InvalidMessage)
  }

  function Decode(s: string): Result<Message, Exception> {
    var f := Split(s, '|');
    DecodeParts(StrToMessageType(f[0]), f)
  }

  // ---------------------------------------------------------------------------------
  // Well-formed messages
  // ---------------------------------------------------------------------------------

  predicate IsId(n: int) {
    1 <= n <= INT_MAX
  }

  predicate GoodItem(i: Item) {
    && IsId(i.orderId) && IsId(i.id) && IsId(i.qty)
    && i.status != ItemStatus.INVALID
    && Free(i.desc, '|') && Free(i.desc, ';') && Free(i.desc, ':')
  }

  predicate GoodOrder(o: Order) {
    && IsId(o.id)
    && o.status != OrderStatus.INVALID
    && o.items != []
    && forall i :: 0 <= i < |o.items| ==> GoodItem(o.items[i])
  }

  /** The messages the wire format can carry: made by the constructor their type calls for,
      from valid parts. */
  predicate WellFormed(m: Message) {
    match m.mtype
    case DISP_HEARTBEAT => m == Plain(m.mtype)
    case LOGIN =>
      m == WithLogin(m.mtype, m.clientMode, m.str) && m.clientMode != ClientMode.INVALID && Free(m.str, '|')
    case QUIT | OK | ERROR => m == WithText(m.mtype, m.str) && Free(m.str, '|')
    case ORDER_NEW | DISP_ORDER =>
      m.order.Some? && m == WithOrder(m.mtype, m.order.value) && GoodOrder(m.order.value)
    case ITEM_UPDATE | DISP_ITEM_UPDATE =>
      && m == WithItemStatus(m.mtype, m.orderId, m.itemId, m.itemStatus)
      && IsId(m.orderId) && IsId(m.itemId) && m.itemStatus != ItemStatus.INVALID
    case ORDER_UPDATE | DISP_ORDER_UPDATE =>
      && m == WithOrderStatus(m.mtype, m.orderId, m.orderStatus)
      && IsId(m.orderId) && m.orderStatus != OrderStatus.INVALID
    case INVALID => false
  }

  // ---------------------------------------------------------------------------------
  // Names and numerals
  // ---------------------------------------------------------------------------------

  /** The characters the format uses for structure. */
  predicate IsSeparator(c: char) {
    c == '|' || c == ',' || c == ';' || c == ':'
  }

  predicate NameChars(s: string) {
    forall i :: 0 <= i < |s| ==> 'A' <= s[i] <= '_'
  }

  lemma NamesRead(t: MessageType, i: ItemStatus, o: OrderStatus, m: ClientMode)
    ensures StrToMessageType(MessageTypeToStr(t)) == t
    ensures StrToItemStatus(ItemStatusToStr(i)) == i
    ensures StrToOrderStatus(OrderStatusToStr(o)) == o
    ensures StrToClientMode(ClientModeToStr(m)) == m
  {
  }

  lemma NamesPrint(s: string)
    ensures StrToMessageType(s) != MessageType.INVALID ==> MessageTypeToStr(StrToMessageType(s)) == s
    ensures StrToItemStatus(s) != ItemStatus.INVALID ==> ItemStatusToStr(StrToItemStatus(s)) == s
    ensures StrToOrderStatus(s) != OrderStatus.INVALID ==> OrderStatusToStr(StrToOrderStatus(s)) == s
    ensures StrToClientMode(s) != ClientMode.INVALID ==> ClientModeToStr(StrToClientMode(s)) == s
  {
  }

  lemma TypeNameChars(t: MessageType)
    ensures NameChars(MessageTypeToStr(t))
  {
  }

  lemma StatusNameChars(i: ItemStatus, o: OrderStatus, m: ClientMode)
    ensures NameChars(ItemStatusToStr(i)) && NameChars(OrderStatusToStr(o)) && NameChars(ClientModeToStr(m))
  {
  }

  lemma NamesFree(t: MessageType, i: ItemStatus, o: OrderStatus, m: ClientMode, c: char)
    requires IsSeparator(c)
    ensures Free(MessageTypeToStr(t), c) && Free(ItemStatusToStr(i), c)
    ensures Free(OrderStatusToStr(o), c) && Free(ClientModeToStr(m), c)
  {
    TypeNameChars(t);
    StatusNameChars(i, o, m);
    hide MessageTypeToStr, ItemStatusToStr, OrderStatusToStr, ClientModeToStr;
  }

  /** A printed id is digits only and reads back as itself. */
  lemma IdRoundTrip(n: int, c: char)
    requires IsId(n) && IsSeparator(c)
    ensures ValidateId(ToString(n), 1) == Success(n)
    ensures Free(ToString(n), c)
  {
    NumeralReadsBack(n, 10);
  }

  /** A string read as an id is what the id prints as exactly if it has no leading zero. */
  lemma IdReads(s: string)
    requires ValidateId(s, 1).Success?
    ensures IsId(ValidateId(s, 1).value)
    ensures s != "" && (ToString(ValidateId(s, 1).value) == s <==> s[0] != '0')
  {
    PrintsBackIff(s);
  }

  // ---------------------------------------------------------------------------------
  // Round trip
  // ---------------------------------------------------------------------------------

  lemma ItemFieldsFree(i: Item, c: char)
    requires GoodItem(i) && IsSeparator(c) && c != ','
    ensures AllFree(ItemFields(i), c)
  {
    IdRoundTrip(i.orderId, c);
    IdRoundTrip(i.id, c);
    IdRoundTrip(i.qty, c);
    NamesFree(OK, i.status, OrderStatus.NEW, ClientMode.UPDATER, c);
  }

  lemma ItemRoundTrip(i: Item)
    requires GoodItem(i)
    ensures DecodeItem(EncodeItem(i)) == Success(i)
    ensures Free(EncodeItem(i), ';') && Free(EncodeItem(i), '|')
    ensures EncodeItem(i) != ""
  {
    ItemFieldsFree(i, ':');
    JoinSplits(ItemFields(i), ':');
    NamesRead(OK, i.status, OrderStatus.NEW, ClientMode.UPDATER);
    IdRoundTrip(i.orderId, ':');
    IdRoundTrip(i.id, ':');
    IdRoundTrip(i.qty, ':');
    ItemFieldsFree(i, ';');
    JoinKeepsFree(ItemFields(i), ':', ';');
    ItemFieldsFree(i, '|');
    JoinKeepsFree(ItemFields(i), ':', '|');
    assert |Join(ItemFields(i), ':')| > 0;
  }

  lemma EncodeItemsSnoc(front: seq<Item>, last: Item)
    ensures EncodeItems(front + [last]) == EncodeItems(front) + [EncodeItem(last)]
  {
    hide EncodeItem;
  }

  lemma DecodeItemsSnoc(front: seq<string>, last: string)
    requires DecodeItems(front).Success? && DecodeItem(last).Success?
    ensures DecodeItems(front + [last]) == Success(DecodeItems(front).value + [DecodeItem(last).value])
  {
    hide DecodeItem;
    assert (front + [last])[..|front|] == front;
  }

  lemma {:induction false} ItemsFree(items: seq<Item>)
    requires forall i :: 0 <= i < |items| ==> GoodItem(items[i])
    ensures AllFree(EncodeItems(items), ';') && AllFree(EncodeItems(items), '|')
  {
    forall i | 0 <= i < |items|
      ensures Free(EncodeItems(items)[i], ';') && Free(EncodeItems(items)[i], '|')
    {
      ItemRoundTrip(items[i]);
    }
    hide Free, EncodeItem, GoodItem;
  }

  lemma OneMoreRoundTrip(front: seq<Item>, last: Item)
    requires DecodeItems(EncodeItems(front)) == Success(front)
    requires DecodeItem(EncodeItem(last)) == Success(last)
    ensures DecodeItems(EncodeItems(front + [last])) == Success(front + [last])
  {
    hide DecodeItem, DecodeItems, EncodeItem, EncodeItems;
    EncodeItemsSnoc(front, last);
    DecodeItemsSnoc(EncodeItems(front), EncodeItem(last));
  }

  lemma NoItemsRoundTrip()
    ensures DecodeItems(EncodeItems([])) == Success([])
  {
  }

  lemma {:induction false} ItemsRoundTrip(items: seq<Item>)
    requires forall i :: 0 <= i < |items| ==> GoodItem(items[i])
    ensures DecodeItems(EncodeItems(items)) == Success(items)
  {
    hide GoodItem, DecodeItem, DecodeItems, EncodeItem, EncodeItems;
    if items == [] {
      NoItemsRoundTrip();
    } else {
      var front, last := items[..|items| - 1], items[|items| - 1];
      assert items == front + [last];
      ItemsRoundTrip(front);
      ItemRoundTrip(last);
      OneMoreRoundTrip(front, last);
    }
  }

  lemma GlueCommas(f: OrderFields)
    requires Free(f.id, ',') && Free(f.status, ',')
    ensures var s := GlueOrder(f);
            && Find(s, ',', 0) == |f.id|
            && Find(s, ',', |f.id| + 1) == |f.id| + 1 + |f.status|
  {
    hide Find, Free;
    var tail := f.status + [','] + f.items;
    FindFirst(f.id, ',', tail);
    FindFirst(f.status, ',', f.items);
    FindShift(GlueOrder(f), ',', |f.id| + 1);
    Cut(f.id, ',', tail);
  }

  /** The two commas that matter are the first two; later ones belong to the items. */
  lemma GlueThenCut(f: OrderFields)
    requires Free(f.id, ',') && Free(f.status, ',')
    ensures CutOrder(GlueOrder(f)) == Success(f)
  {
    GlueCommas(f);
    hide Find, Free;
    var tail := f.status + [','] + f.items;
    var s := GlueOrder(f);
    Cut(f.id, ',', tail);
    Cut(f.status, ',', f.items);
    SliceOfTail(s, |f.id| + 1, |f.id| + 1 + |f.status|);
    SliceOfTail(s, |f.id| + 1, |f.id| + 1 + |f.status| + 1);
  }

  lemma TailFree(s: string, at: nat)
    requires at <= |s|
    ensures forall c :: Free(s, c) ==> Free(s[at..], c)
  {
  }

  lemma GlueCut(s: string, a: string, b: string, c: string, tail: string)
    requires s == a + [','] + tail && tail == b + [','] + c
    ensures GlueOrder(OrderFields(a, b, c)) == s
  {
  }

  lemma CutParts(s: string)
    requires CutOrder(s).Success?
    ensures var i := Find(s, ',', 0);
            && i >= 0
            && var j := Find(s, ',', i + 1);
            && j > i && CutOrder(s).value == OrderFields(s[..i], s[i + 1..j], s[j + 1..])
  {
    hide Find;
  }

  lemma CutThenGlue(s: string)
    requires CutOrder(s).Success?
    ensures var f := CutOrder(s).value;
            && GlueOrder(f) == s
            && Free(f.id, ',') && Free(f.status, ',')
            && forall c :: Free(s, c) ==> Free(f.items, c)
  {
    hide CutOrder, GlueOrder, Find, Free;
    CutParts(s);
    var i := Find(s, ',', 0);
    var j := Find(s, ',', i + 1);
    FindCuts(s, ',');
    FindCutsFrom(s, ',', i + 1);
    TailFree(s, j + 1);
    GlueCut(s, s[..i], s[i + 1..j], s[j + 1..], s[i + 1..]);
  }

  lemma JoinNonEmpty(parts: seq<string>, sep: char)
    requires parts != [] && parts[0] != ""
    ensures Join(parts, sep) != ""
  {
  }

  lemma FieldsFree(o: Order)
    requires GoodOrder(o)
    ensures Free(ToString(o.id), ',') && Free(OrderStatusToStr(o.status), ',')
    ensures EncodeItems(o.items) != [] && AllFree(EncodeItems(o.items), ';')
  {
    IdRoundTrip(o.id, ',');
    NamesFree(OK, ItemStatus.NEW, o.status, ClientMode.UPDATER, ',');
    ItemsFree(o.items);
  }

  lemma OrderRoundTrip(o: Order)
    requires GoodOrder(o)
    ensures DecodeOrder(OrderText(o)) == Success(o)
  {
    FieldsFree(o);
    GlueThenCut(FieldsOf(o));
    IdRoundTrip(o.id, ',');
    NamesRead(OK, ItemStatus.NEW, o.status, ClientMode.UPDATER);
    ItemsRoundTrip(o.items);
    ItemRoundTrip(o.items[0]);
    hide Find, Free, AllFree, GoodItem, EncodeItem, DecodeItems;
    hide OrderStatusToStr, StrToOrderStatus, ValidateId, CutOrder, GlueOrder;
    JoinSplits(EncodeItems(o.items), ';');
    JoinNonEmpty(EncodeItems(o.items), ';');
  }

  lemma OrderTextFree(o: Order)
    requires GoodOrder(o)
    ensures Free(OrderText(o), '|')
  {
    var f := FieldsOf(o);
    ItemsFree(o.items);
    JoinKeepsFree(EncodeItems(o.items), ';', '|');
    IdRoundTrip(o.id, '|');
    NamesFree(OK, ItemStatus.NEW, o.status, ClientMode.UPDATER, '|');
    FreeConcat(f.id, [','], '|');
    FreeConcat(f.status, [','], '|');
    FreeConcat(f.status + [','], f.items, '|');
    FreeConcat(f.id + [','], f.status + [','] + f.items, '|');
  }

  lemma PayloadFree(m: Message)
    requires WellFormed(m)
    ensures Payload(m).Success? && AllFree(Payload(m).value, '|')
  {
    NamesFree(m.mtype, m.itemStatus, m.orderStatus, m.clientMode, '|');
    if m.mtype == ORDER_NEW || m.mtype == DISP_ORDER {
      OrderTextFree(m.order.value);
    } else if m.mtype == ITEM_UPDATE || m.mtype == DISP_ITEM_UPDATE {
      IdRoundTrip(m.orderId, '|');
      IdRoundTrip(m.itemId, '|');
    } else if m.mtype == ORDER_UPDATE || m.mtype == DISP_ORDER_UPDATE {
      IdRoundTrip(m.orderId, '|');
    }
  }

  lemma PartsRoundTrip(m: Message)
    requires WellFormed(m)
    ensures Payload(m).Success?
    ensures DecodeParts(m.mtype, [MessageTypeToStr(m.mtype)] + Payload(m).value) == Success(m)
  {
    NamesRead(m.mtype, m.itemStatus, m.orderStatus, m.clientMode);
    if m.mtype == ORDER_NEW || m.mtype == DISP_ORDER {
      OrderRoundTrip(m.order.value);
    } else if m.mtype == ITEM_UPDATE || m.mtype == DISP_ITEM_UPDATE {
      IdRoundTrip(m.orderId, '|');
      IdRoundTrip(m.itemId, '|');
    } else if m.mtype == ORDER_UPDATE || m.mtype == DISP_ORDER_UPDATE {
      IdRoundTrip(m.orderId, '|');
    }
  }

  lemma EncodedParts(m: Message)
    requires WellFormed(m)
    ensures Encode(m).Success?
    ensures Split(Encode(m).value, '|') == [MessageTypeToStr(m.mtype)] + Payload(m).value
  {
    PayloadFree(m);
    NamesFree(m.mtype, m.itemStatus, m.orderStatus, m.clientMode, '|');
    JoinSplits([MessageTypeToStr(m.mtype)] + Payload(m).value, '|');
  }

  lemma RoundTrip(m: Message)
    requires WellFormed(m)
    ensures Encode(m).Success? && Decode(Encode(m).value) == Success(m)
  {
    EncodedParts(m);
    PartsRoundTrip(m);
    NamesRead(m.mtype, m.itemStatus, m.orderStatus, m.clientMode);
  }
}
