/** The loops of wire.cpp, proved to compute the functions of module Wire. */
module WireCode {
  import opened Wrappers
  import opened Model
  import opened Messages
  import opened Numerals
  import opened Splitting
  import opened Wire

  /** std::stoi on a string of digits: out of range beyond INT_MAX. */
  function Stoi(s: string): Option<int>
    requires s != "" && AllDigits(s, 10)
  {
    if Value(s, 10) > INT_MAX then None else Some(Value(s, 10))
  }

  /** The range check '0'..'9' is being a decimal digit. */
  lemma DecimalDigit(c: char)
    ensures (c < '0' || c > '9') <==> DigitValue(c) >= 10
  {
  }

  method ValidateIdMessage(s: string, min: int) returns (r: Result<int, Exception>)
    ensures r == ValidateId(s, min)
  {
    if s == "" {
      return Failure(InvalidMessage);
    }
    for k := 0 to |s|
      invariant AllDigits(s[..k], 10)
    {
      DecimalDigit(s[k]);
      if s[k] < '0' || s[k] > '9' {
        return Failure(InvalidMessage);
      }
      assert s[..k + 1] == s[..k] + [s[k]];
    }
    assert s[..|s|] == s;
    match Stoi(s)
    case Some(current) =>
      if current < min {
        return Failure(InvalidMessage);
      }
      return Success(current);
    case None =>
      return Failure(InvalidMessage);
  }

  /** The text appended for one item. */
  lemma ItemText(i: Item)
    ensures EncodeItem(i)
         == ToString(i.orderId) + ":" + ToString(i.id) + ":" + ItemStatusToStr(i.status)
            + (":" + i.desc + ":" + ToString(i.qty))
  {
    hide ToString, ItemStatusToStr;
    var f := ItemFields(i);
    var a, b, c, d, e := f[0], f[1], f[2], f[3], f[4];
    assert f == [a, b, c, d, e];
    assert f[1..] == [b, c, d, e] && f[1..][1..] == [c, d, e];
    assert [c, d, e][1..] == [d, e] && [d, e][1..] == [e];
    assert Join([d, e], ':') == d + [':'] + e;
    assert Join([c, d, e], ':') == c + [':'] + Join([d, e], ':');
    assert Join(f[1..], ':') == b + [':'] + Join([c, d, e], ':');
    assert Join(f, ':') == a + [':'] + Join(f[1..], ':');
  }

  method EncodeOrderText(order: Option<Order>) returns (r: Result<string, Exception>)
    ensures r == EncodeOrder(order)
  {
    hide ToString, OrderStatusToStr, ItemStatusToStr, EncodeItem;
    if order.None? || |order.value.items| == 0 {
      return Failure(InvalidMessage);
    }
    var o := order.value;
    var s := ToString(o.id) + "," + OrderStatusToStr(o.status) + ",";
    ghost var header := s;
    for i := 0 to |o.items|
      invariant s == header + Join(EncodeItems(o.items[..i]), ';')
    {
      assert o.items[..i + 1] == o.items[..i] + [o.items[i]];
      assert EncodeItems(o.items[..i + 1]) == EncodeItems(o.items[..i]) + [EncodeItem(o.items[i])];
      ghost var before := s;
      if i > 0 {
        JoinSnoc(EncodeItems(o.items[..i]), EncodeItem(o.items[i]), ';');
        s := s + ";";
      } else {
        assert Join(EncodeItems(o.items[..1]), ';') == EncodeItem(o.items[0]);
      }
      var item := o.items[i];
      ItemText(item);
      s := s + (ToString(item.orderId) + ":" + ToString(item.id) + ":" + ItemStatusToStr(item.status)
                + (":" + item.desc + ":" + ToString(item.qty)));
    }
    assert o.items[..|o.items|] == o.items;
    assert s == OrderText(o);
    r := Success(s);
  }

  /** What one round of the item loop of decode_order does. */
  method DecodeItemText(s: string) returns (r: Result<Item, Exception>)
    ensures r == DecodeItem(s)
  {
    var f := SplitLoop(s, ':');
    if |f| != 5 {
      return Failure(InvalidMessage);
    }
    var orderId := ValidateIdMessage(f[0], 1);
    if orderId.Failure? {
      return Failure(orderId.error);
    }
    var id := ValidateIdMessage(f[1], 1);
    if id.Failure? {
      return Failure(id.error);
    }
    var status := StrToItemStatus(f[2]);
    if status == ItemStatus.INVALID {
      return Failure(InvalidMessage);
    }
    var qty := ValidateIdMessage(f[4], 1);
    if qty.Failure? {
      return Failure(qty.error);
    }
    r := Success(Item(orderId.value, id.value, status, f[3], qty.value));
  }

  /** Once a prefix fails to decode, so does the whole. */
  lemma {:induction false} ItemsFailEarly(strs: seq<string>, k: nat)
    requires k <= |strs| && DecodeItems(strs[..k]).Failure?
    ensures DecodeItems(strs) == Failure(InvalidMessage)
    decreases |strs|
  {
    ItemsFailSame(strs);
    if k < |strs| {
      assert strs[..|strs| - 1][..k] == strs[..k];
      ItemsFailEarly(strs[..|strs| - 1], k);
    } else {
      assert strs[..k] == strs;
    }
  }

  lemma ItemFailSame(s: string)
    ensures DecodeItem(s).Failure? ==> DecodeItem(s) == Failure(InvalidMessage)
  {
  }

  lemma {:induction false} ItemsFailSame(strs: seq<string>)
    ensures DecodeItems(strs).Failure? ==> DecodeItems(strs) == Failure(InvalidMessage)
  {
    if strs != [] {
      hide DecodeItem;
      ItemsFailSame(strs[..|strs| - 1]);
      ItemFailSame(strs[|strs| - 1]);
    }
  }

  method DecodeItemTexts(strs: seq<string>) returns (r: Result<seq<Item>, Exception>)
    ensures r == DecodeItems(strs)
  {
    var items: seq<Item> := [];
    for k := 0 to |strs|
      invariant DecodeItems(strs[..k]) == Success(items)
    {
      assert strs[..k + 1][..k] == strs[..k];
      var item := DecodeItemText(strs[k]);
      if item.Failure? {
        ItemsFailEarly(strs, k + 1);
        ItemFailSame(strs[k]);
        return Failure(item.error);
      }
      items := items + [item.value];
    }
    assert strs[..|strs|] == strs;
    r := Success(items);
  }

  method DecodeOrderText(s: string) returns (r: Result<Order, Exception>)
    ensures r == DecodeOrder(s)
  {
    hide ValidateId, StrToOrderStatus, DecodeItems, DecodeItem, Split;
    var idDelim := Find(s, ',', 0);
    if idDelim == -1 {
      return Failure(InvalidMessage);
    }
    var statusDelim := Find(s, ',', idDelim + 1);
    if statusDelim == -1 {
      return Failure(InvalidMessage);
    }
    var idStr, statusStr, itemsStr := s[..idDelim], s[idDelim + 1..statusDelim], s[statusDelim + 1..];
    var id := ValidateIdMessage(idStr, 1);
    if id.Failure? {
      return Failure(id.error);
    }
    var status := StrToOrderStatus(statusStr);
    if status == OrderStatus.INVALID {
      return Failure(InvalidMessage);
    }
    if itemsStr == "" {
      return Failure(InvalidMessage);
    }
    var itemStrs := SplitLoop(itemsStr, ';');
    var items := DecodeItemTexts(itemStrs);
    if items.Failure? {
      return Failure(items.error);
    }
    r := Success(Order(id.value, status, items.value));
  }

  /** Wire::encode. */
  method EncodeMessage(m: Message) returns (r: Result<string, Exception>)
    ensures r == Encode(m)
  {
    var s := MessageTypeToStr(m.mtype);
    JoinFew(s, "", "", "");
    match m.mtype {
      case DISP_HEARTBEAT =>
        assert [s] + [] == [s];
      case LOGIN =>
        JoinFew(s, ClientModeToStr(m.clientMode), m.str, "");
        s := s + ("|" + ClientModeToStr(m.clientMode) + "|" + m.str);
      case QUIT | OK | ERROR =>
        JoinFew(s, m.str, "", "");
        s := s + ("|" + m.str);
      case ORDER_NEW | DISP_ORDER =>
        var text := EncodeOrderText(m.order);
        if text.Failure? {
          return Failure(text.error);
        }
        JoinFew(s, text.value, "", "");
        s := s + ("|" + text.value);
      case ITEM_UPDATE | DISP_ITEM_UPDATE =>
        JoinFew(s, ToString(m.orderId), ToString(m.itemId), ItemStatusToStr(m.itemStatus));
        s := s + ("|" + ToString(m.orderId) + "|" + ToString(m.itemId) + "|" + ItemStatusToStr(m.itemStatus));
      case ORDER_UPDATE | DISP_ORDER_UPDATE =>
        JoinFew(s, ToString(m.orderId), OrderStatusToStr(m.orderStatus), "");
        s := s + ("|" + ToString(m.orderId) + "|" + OrderStatusToStr(m.orderStatus));
      case INVALID =>
        return Failure(InvalidMessage);
    }
    r := Success(s);
  }

  lemma JoinFew(a: string, b: string, c: string, d: string)
    ensures Join([a] + [b], '|') == a + ("|" + b)
    ensures Join([a] + [b, c], '|') == a + ("|" + b + "|" + c)
    ensures Join([a] + [b, c, d], '|') == a + ("|" + b + "|" + c + "|" + d)
  {
    assert [a] + [b] == [a, b] && [a] + [b, c] == [a, b, c] && [a] + [b, c, d] == [a, b, c, d];
    assert [a, b][1..] == [b] && [a, b, c][1..] == [b, c] && [a, b, c, d][1..] == [b, c, d];
    assert [b, c][1..] == [c] && [b, c, d][1..] == [c, d] && [c, d][1..] == [d];
    assert Join([b, c], '|') == b + ['|'] + c;
    assert Join([c, d], '|') == c + ['|'] + d;
    assert Join([b, c, d], '|') == b + ['|'] + Join([c, d], '|');
  }

  /** Wire::decode. */
  method DecodeMessage(s: string) returns (r: Result<Message, Exception>)
    ensures r == Decode(s)
  {
    var f := SplitLoop(s, '|');
    var t := StrToMessageType(f[0]);
    match t {
      case DISP_HEARTBEAT =>
        if |f| != 1 {
          return Failure(InvalidMessage);
        }
        r := Success(Plain(t));
      case LOGIN =>
        if |f| != 3 {
          return Failure(InvalidMessage);
        }
        var mode := StrToClientMode(f[1]);
        if mode == ClientMode.INVALID {
          return Failure(InvalidMessage);
        }
        r := Success(WithLogin(t, mode, f[2]));
      case QUIT | OK | ERROR =>
        if |f| != 2 {
          return Failure(InvalidMessage);
        }
        r := Success(WithText(t, f[1]));
      case ORDER_NEW | DISP_ORDER =>
        if |f| != 2 {
          return Failure(InvalidMessage);
        }
        var order := DecodeOrderText(f[1]);
        if order.Failure? {
          return Failure(order.error);
        }
        r := Success(WithOrder(t, order.value));
      case ITEM_UPDATE | DISP_ITEM_UPDATE =>
        if |f| != 4 {
          return Failure(InvalidMessage);
        }
        var orderId := ValidateIdMessage(f[1], 1);
        if orderId.Failure? {
          return Failure(orderId.error);
        }
        var itemId := ValidateIdMessage(f[2], 1);
        if itemId.Failure? {
          return Failure(itemId.error);
        }
        var status := StrToItemStatus(f[3]);
        if status == ItemStatus.INVALID {
          return Failure(InvalidMessage);
        }
        r := Success(WithItemStatus(t, orderId.value, itemId.value, status));
      case ORDER_UPDATE | DISP_ORDER_UPDATE =>
        if |f| != 3 {
          return Failure(InvalidMessage);
        }
        var orderId := ValidateIdMessage(f[1], 1);
        if orderId.Failure? {
          return Failure(orderId.error);
        }
        var status := StrToOrderStatus(f[2]);
        if status == OrderStatus.INVALID {
          return Failure(InvalidMessage);
        }
        r := Success(WithOrderStatus(t, orderId.value, status));
      case INVALID =>
        return Failure(InvalidMessage);
    }
  }
}
