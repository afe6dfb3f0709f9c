/** Messages (message.h, message.cpp): one record with the union of the fields of all types. */
module Messages {
  import opened Wrappers
  import opened Model

  datatype MessageType =
    | INVALID
    | LOGIN | QUIT | ORDER_NEW | ITEM_UPDATE | ORDER_UPDATE
    | OK | ERROR
    | DISP_ORDER | DISP_ITEM_UPDATE | DISP_ORDER_UPDATE | DISP_HEARTBEAT

  datatype Message = Message(
    mtype: MessageType,
    clientMode: ClientMode,
    str: string,
    order: Option<Order>,
    orderId: int,
    orderStatus: OrderStatus,
    itemId: int,
    itemStatus: ItemStatus)

  /** A message that carries nothing but its type; every constructor starts from it. */
  function Plain(t: MessageType): Message {
    Message(t, ClientMode.INVALID, "", None, -1, OrderStatus.INVALID, -1, ItemStatus.INVALID)
  }

  function WithText(t: MessageType, str: string): Message {
    Plain(t).(str := str)
  }

  function WithLogin(t: MessageType, mode: ClientMode, str: string): Message {
    Plain(t).(clientMode := mode, str := str)
  }

  function WithOrder(t: MessageType, order: Order): Message {
    Plain(t).(order := Some(order))
  }

  function WithOrderStatus(t: MessageType, orderId: int, status: OrderStatus): Message {
    Plain(t).(orderId := orderId, orderStatus := status)
  }

  function WithItemStatus(t: MessageType, orderId: int, itemId: int, status: ItemStatus): Message {
    Plain(t).(orderId := orderId, itemId := itemId, itemStatus := status)
  }
}
