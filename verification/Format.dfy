/** The bytes of the format, spelled out: names, digits, separators, headers, and the exceptions
    for what cannot be printed or read (model.cpp, message.cpp, wire.cpp, io.cpp). */
module Format {
  import opened Wrappers
  import opened Model
  import opened Messages
  import opened Numerals
  import opened Splitting
  import opened Wire
  import opened Framing

  // ---------------------------------------------------------------------------------
  // Names and digits
  // ---------------------------------------------------------------------------------

  lemma TypeNames()
    ensures MessageTypeToStr(LOGIN) == "LOGIN" && MessageTypeToStr(QUIT) == "QUIT"
    ensures MessageTypeToStr(OK) == "OK" && MessageTypeToStr(ERROR) == "ERROR"
    ensures MessageTypeToStr(ORDER_NEW) == "ORDER_NEW" && MessageTypeToStr(DISP_ORDER) == "DISP_ORDER"
    ensures MessageTypeToStr(ITEM_UPDATE) == "ITEM_UPDATE" && MessageTypeToStr(ORDER_UPDATE) == "ORDER_UPDATE"
    ensures MessageTypeToStr(DISP_ITEM_UPDATE) == "DISP_ITEM_UPDATE"
    ensures MessageTypeToStr(DISP_ORDER_UPDATE) == "DISP_ORDER_UPDATE"
    ensures MessageTypeToStr(DISP_HEARTBEAT) == "DISP_HEARTBEAT"
  {
  }

  lemma StatusNames()
    ensures ClientModeToStr(ClientMode.UPDATER) == "UPDATER" && ClientModeToStr(ClientMode.DISPLAY) == "DISPLAY"
    ensures ItemStatusToStr(ItemStatus.NEW) == "NEW" && OrderStatusToStr(OrderStatus.NEW) == "NEW"
    ensures ItemStatusToStr(ItemStatus.IN_PROGRESS) == "IN_PROGRESS"
    ensures OrderStatusToStr(OrderStatus.IN_PROGRESS) == "IN_PROGRESS"
    ensures ItemStatusToStr(ItemStatus.DONE) == "DONE" && OrderStatusToStr(OrderStatus.DONE) == "DONE"
    ensures OrderStatusToStr(OrderStatus.DELIVERED) == "DELIVERED"
    ensures ClientModeToStr(ClientMode.INVALID) == "INVALID" && MessageTypeToStr(MessageType.INVALID) == "INVALID"
    ensures ItemStatusToStr(ItemStatus.INVALID) == "INVALID" && OrderStatusToStr(OrderStatus.INVALID) == "INVALID"
  {
  }

  /** The names that are read, and no others, whatever the name of INVALID. */
  lemma NamesKnown(s: string)
    ensures StrToMessageType(s) == MessageType.INVALID
       <==> forall t: MessageType :: t != MessageType.INVALID ==> s != MessageTypeToStr(t)
    ensures StrToItemStatus(s) == ItemStatus.INVALID <==> s != "NEW" && s != "IN_PROGRESS" && s != "DONE"
    ensures StrToOrderStatus(s) == OrderStatus.INVALID
       <==> s != "NEW" && s != "IN_PROGRESS" && s != "DONE" && s != "DELIVERED"
    ensures StrToClientMode(s) == ClientMode.INVALID <==> s != "UPDATER" && s != "DISPLAY"
  {
    NamesPrint(s);
    forall t: MessageType | t != MessageType.INVALID
      ensures StrToMessageType(MessageTypeToStr(t)) == t
    {
      NamesRead(t, ItemStatus.NEW, OrderStatus.NEW, ClientMode.UPDATER);
    }
    hide MessageTypeToStr, StrToMessageType;
  }

  /** The digits are those of ASCII, lower-case letters from ten on. */
  lemma Digits(d: nat, c: char)
    requires d < 36
    ensures DigitChar(d) as int == if d < 10 then 48 + d else 87 + d
    ensures DigitValue(c) < 36 <==> 48 <= c as int <= 57 || 97 <= c as int <= 122
    ensures DigitValue(c) == d <==> c == DigitChar(d)
  {
  }

  /** Digits count by their position, most significant first. */
  lemma Positional(s: string, c: char, b: int)
    requires IsBase(b)
    ensures Value("", b) == 0 && Value(s + [c], b) == b * Value(s, b) + DigitValue(c)
  {
    assert (s + [c])[..|s|] == s;
  }

  /** The numeral of a number is its shortest digit string; a negative one's starts with a sign. */
  lemma Shortest(n: int, s: string)
    requires n >= 0 && AllDigits(s, 10) && s != "" && Value(s, 10) == n
    ensures |ToString(n)| <= |s| && (|ToString(n)| == |s| ==> ToString(n) == s)
    ensures n > 0 ==> ToString(-n) == ['-'] + ToString(n)
  {
    NumeralReadsBack(n, 10);
    ValueBound(s);
    NumeralLength(n, |s|);
    hide Numeral, AllDigits, Value;
    if |ToString(n)| == |s| {
      SameValueSameDigits(ToString(n), s);
    }
  }

  // ---------------------------------------------------------------------------------
  // Texts
  // ---------------------------------------------------------------------------------

  lemma JoinTwo(a: string, b: string, sep: char)
    ensures Join([a], sep) == a && Join([a, b], sep) == a + [sep] + b
  {
    assert [a, b][1..] == [b];
  }

  lemma JoinThree(a: string, b: string, c: string, sep: char)
    ensures Join([a, b, c], sep) == a + [sep] + b + [sep] + c
  {
    JoinTwo(b, c, sep);
    assert [a, b, c][1..] == [b, c];
    assert a + [sep] + (b + [sep] + c) == a + [sep] + b + [sep] + c;
  }

  lemma JoinFour(a: string, b: string, c: string, d: string, sep: char)
    ensures Join([a, b, c, d], sep) == a + [sep] + b + [sep] + c + [sep] + d
  {
    JoinThree(b, c, d, sep);
    hide Join;
    JoinCons(a, [b, c, d], sep);
    assert [a] + [b, c, d] == [a, b, c, d];
    assert a + [sep] + (b + [sep] + c + [sep] + d) == a + [sep] + b + [sep] + c + [sep] + d;
  }

  /** The text of an item, the colon-separated fields in this order. */
  lemma ItemText(i: Item)
    ensures EncodeItem(i) == ToString(i.orderId) + ":" + ToString(i.id) + ":" + ItemStatusToStr(i.status)
                             + ":" + i.desc + ":" + ToString(i.qty)
  {
    hide ToString, ItemStatusToStr;
    var f := ItemFields(i);
    JoinFour(f[1], f[2], f[3], f[4], ':');
    JoinCons(f[0], [f[1], f[2], f[3], f[4]], ':');
    assert [f[0]] + [f[1], f[2], f[3], f[4]] == f;
    Associate(f[0] + ":", f[1] + ":", f[2] + ":", f[3] + ":", f[4]);
    hide Join;
  }

  lemma Associate(a: string, b: string, c: string, d: string, e: string)
    ensures a + (b + c + d + e) == a + b + c + d + e
  {
  }

  /** The text of an order: id and status before the first two commas, then the items' texts
      with semicolons between them. */
  lemma OrderTexts(o: Order)
    ensures EncodeOrder(Some(o)) == if o.items == [] then Failure(InvalidMessage) else Success(OrderText(o))
    ensures OrderText(o) == ToString(o.id) + "," + OrderStatusToStr(o.status) + "," + Join(EncodeItems(o.items), ';')
    ensures |EncodeItems(o.items)| == |o.items|
    ensures forall i :: 0 <= i < |o.items| ==> EncodeItems(o.items)[i] == EncodeItem(o.items[i])
  {
    hide ToString, OrderStatusToStr, Join, EncodeItem;
  }

  /** A message cannot be printed exactly if it has no type, or its type calls for an order and
      it has none or one without items; the exception is an InvalidMessage. */
  lemma EncodeFails(m: Message)
    ensures Encode(m).Failure? <==>
              || m.mtype == MessageType.INVALID
              || ((m.mtype == ORDER_NEW || m.mtype == DISP_ORDER) && (m.order == None || m.order.value.items == []))
    ensures Encode(m).Failure? ==> Encode(m).error == InvalidMessage
  {
  }

  /** The text of a message that can be printed: its type's name and these parts, with bars
      between them. */
  lemma MessageText(m: Message)
    requires Encode(m).Success?
    ensures var name, text := MessageTypeToStr(m.mtype), Encode(m).value;
            && (m.mtype == DISP_HEARTBEAT ==> text == name)
            && (m.mtype == QUIT || m.mtype == OK || m.mtype == ERROR ==> text == name + "|" + m.str)
            && (m.mtype == LOGIN ==> text == name + "|" + ClientModeToStr(m.clientMode) + "|" + m.str)
            && (m.mtype == ORDER_NEW || m.mtype == DISP_ORDER ==> text == name + "|" + OrderText(m.order.value))
            && (m.mtype == ORDER_UPDATE || m.mtype == DISP_ORDER_UPDATE ==>
                  text == name + "|" + ToString(m.orderId) + "|" + OrderStatusToStr(m.orderStatus))
            && (m.mtype == ITEM_UPDATE || m.mtype == DISP_ITEM_UPDATE ==>
                  text == name + "|" + ToString(m.orderId) + "|" + ToString(m.itemId)
                          + "|" + ItemStatusToStr(m.itemStatus))
  {
    var name, parts := MessageTypeToStr(m.mtype), Payload(m).value;
    PartsInTurn(name, parts);
    if |parts| == 0 {
      JoinTwo(name, "", '|');
    } else if |parts| == 1 {
      JoinTwo(name, parts[0], '|');
    } else if |parts| == 2 {
      JoinThree(name, parts[0], parts[1], '|');
    } else {
      JoinFour(name, parts[0], parts[1], parts[2], '|');
    }
    hide ToString, Join, MessageTypeToStr, ClientModeToStr, ItemStatusToStr, OrderStatusToStr, OrderText;
  }

  lemma PartsInTurn(name: string, parts: seq<string>)
    ensures |parts| == 0 ==> [name] + parts == [name]
    ensures |parts| == 1 ==> [name] + parts == [name, parts[0]]
    ensures |parts| == 2 ==> [name] + parts == [name, parts[0], parts[1]]
    ensures |parts| == 3 ==> [name] + parts == [name, parts[0], parts[1], parts[2]]
  {
  }

  // ---------------------------------------------------------------------------------
  // Failures
  // ---------------------------------------------------------------------------------

  lemma ItemFails(s: string)
    ensures DecodeItem(s).Failure? ==> DecodeItem(s).error == InvalidMessage
  {
    hide Split, StrToItemStatus, AllDigits, Value;
  }

  lemma {:induction false} ItemsFail(strs: seq<string>)
    ensures DecodeItems(strs).Failure? ==> DecodeItems(strs).error == InvalidMessage
  {
    hide DecodeItem;
    if strs != [] {
      ItemsFail(strs[..|strs| - 1]);
      ItemFails(strs[|strs| - 1]);
    }
  }

  lemma OrderFails(s: string)
    ensures DecodeOrder(s).Failure? ==> DecodeOrder(s).error == InvalidMessage
  {
    hide Find, Split, DecodeItems, StrToOrderStatus, AllDigits, Value;
    if CutOrder(s).Success? {
      ItemsFail(Split(CutOrder(s).value.items, ';'));
    }
  }

  /** Whatever is wrong with a text, the exception is an InvalidMessage. */
  lemma DecodeFails(s: string)
    ensures Decode(s).Failure? ==> Decode(s).error == InvalidMessage
  {
    hide Split, DecodeOrder, StrToMessageType, StrToItemStatus, StrToOrderStatus, StrToClientMode, AllDigits, Value;
    var f := Split(s, '|');
    if |f| == 2 {
      OrderFails(f[1]);
    }
  }

  // ---------------------------------------------------------------------------------
  // Frames
  // ---------------------------------------------------------------------------------

  /** A frame: the length plus one in at least four digits, the text, a newline. */
  lemma FrameLayout(s: string)
    ensures var n := |Frame(s)| - |s| - 1;
            && n >= 4 && (n > 4 ==> |s| >= 9999)
            && AllDigits(Frame(s)[..n], 10) && Value(Frame(s)[..n], 10) == |s| + 1
            && Frame(s)[n..n + |s|] == s && Frame(s)[n + |s|] == '\n'
    ensures Frame("") == "0001\n"
  {
    var h := Header(s);
    HeaderExact(s);
    EmptyFrame();
    hide Header, Value, AllDigits;
    assert Frame(s) == h + (s + ['\n']);
    assert Frame(s)[..|h|] == h;
  }

  lemma HeaderExact(s: string)
    ensures var h := Header(s);
            |h| >= 4 && (|h| > 4 ==> |s| >= 9999) && AllDigits(h, 10) && Value(h, 10) == |s| + 1
  {
    if |s| <= MAX_PAYLOAD {
      HeaderReads(s);
    } else {
      NumeralReadsBack(|s| + 1, 10);
      NumeralLength(|s| + 1, 3);
      assert Pow10(3) == 1000;
    }
    hide Value, AllDigits, Numeral;
  }

  lemma EmptyFrame()
    ensures Frame("") == "0001\n"
  {
    assert Zeros(3) == "000";
    assert Numeral(1, 10) == "1";
  }
}
