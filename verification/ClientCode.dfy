/** A client thread on the server: logging in, answering an updater, bringing a display up to
    date (client.cpp), on the server's shared objects and its own descriptor. */
module ClientCode {
  import opened Wrappers
  import opened Model
  import opened Messages
  import opened Numerals
  import opened Orders
  import opened Heap
  import opened ServerCode
  import opened Framing
  import opened Descriptors
  import opened Transport
  import opened Sessions
  import Replication
  import Wire
  import MessageCode

  /** login: the mode and the answer the first message calls for, unless a read or a write fails. */
  method Login(fd: Descriptor, authenticate: string -> bool) returns (mode: ClientMode, exception: Option<Exception>)
    modifies fd`incoming, fd`outgoing, fd`interrupts
    ensures var e := Sessions.Login(old(fd.incoming), authenticate);
            && (|| (mode == e.mode && exception == e.exception && fd.outgoing == old(fd.outgoing) + StreamOf(e.replies))
                || (!old(fd.Quiet()) && exception == Some(IOException)
                    && (mode == e.mode || mode == ClientMode.INVALID)))
            && old(fd.outgoing) <= fd.outgoing <= old(fd.outgoing) + StreamOf(e.replies)
  {
    hide ReceiveMessage, StreamOf;
    StreamEmpty();
    var req := MessageCode.ReceiveMessage(fd);
    if req.Failure? {
      return ClientMode.INVALID, Some(req.error);
    }
    if req.value.mtype != LOGIN {
      return ClientMode.INVALID, Some(ProtocolError);
    }
    if !authenticate(req.value.str) {
      exception := SendText(fd, ERROR, "Bad Login");
      return ClientMode.INVALID, if exception.Some? then exception else Some(ProtocolError);
    }
    mode := req.value.clientMode;
    if mode != ClientMode.UPDATER && mode != ClientMode.DISPLAY {
      exception := SendText(fd, ERROR, "invalid client mode");
      return mode, if exception.Some? then exception else Some(ProtocolError);
    }
    exception := SendText(fd, OK, "successful login");
  }

  /** An answer sent, or the exception of the write that failed. */
  method SendText(fd: Descriptor, t: MessageType, text: string) returns (exception: Option<Exception>)
    requires t == OK || t == ERROR
    modifies fd`outgoing, fd`interrupts
    ensures exception == None ==> fd.outgoing == old(fd.outgoing) + StreamOf([WithText(t, text)])
    ensures exception.Some? ==> exception == Some(IOException) && !fd.reliable
    ensures old(fd.outgoing) <= fd.outgoing <= old(fd.outgoing) + StreamOf([WithText(t, text)])
    ensures fd.interrupts <= old(fd.interrupts)
  {
    TextEncodes(t, text);
    hide StreamOf;
    var sent := MessageCode.SendMessage(fd, WithText(t, text));
    exception := if sent.Success? then None else Some(sent.error);
  }

  /** The objects added to a server since are new ones, and each registered display's queue
      grew by exactly what was broadcast. */
  twostate predicate Followed(server: ServerObject)
    reads server, server.clients
  {
    && server.Grown()
    && server.clients == old(server.clients)
    && old(server.log) <= server.log
    && forall q :: q in server.clients ==> q.Contents == old(q.Contents) + server.log[|old(server.log)|..]
  }

  /** ORDER_NEW: the server gets a copy of the request's order. */
  method CreateOrder(server: ServerObject, order: OrderObject) returns (reply: Message)
    requires server.Valid() && order.Valid() && order.Repr !! server.Repr
    requires server.nextOrderId < INT_MAX
    modifies server, server.Repr
    ensures server.Valid() && Followed(server)
    ensures Carry(old(server.State()), Command.CreateOrder(old(order.Value())),
                  "Created order id " + ToString(old(server.nextOrderId)))
         == Success(Turn(server.State(), reply, false))
  {
    ghost var value := order.Value();
    hide ServerObject.StoreValid, ServerObject.QueuesValid, OrderObject.Value, Execute, Events;
    var copy := order.Duplicate();
    var newId := server.CreateOrder(copy);
    LogGrows(old(server.State()), Command.CreateOrder(value));
    reply := WithText(OK, "Created order id " + ToString(newId));
  }

  /** ITEM_UPDATE and ORDER_UPDATE: a SemanticError becomes an ERROR answer. */
  method UpdateItem(server: ServerObject, orderId: int, itemId: int, status: ItemStatus)
    returns (r: Result<Message, Exception>)
    requires server.Valid()
    modifies server, server.Repr
    ensures server.Valid() && Followed(server)
    ensures Answers(old(server.State()), server.State(), r,
                    Carry(old(server.State()), Command.UpdateItem(orderId, itemId, status), "successful item update"))
  {
    hide ServerObject.StoreValid, ServerObject.QueuesValid, Outcome, Execute, Events;
    LogGrows(server.State(), Command.UpdateItem(orderId, itemId, status));
    RefusedNothing(server.State(), Command.UpdateItem(orderId, itemId, status));
    ServerObjects(server);
    var done := server.UpdateItem(orderId, itemId, status);
    if done.Success? {
      return Success(WithText(OK, "successful item update"));
    }
    r := Caught(done.error);
  }

  method UpdateOrder(server: ServerObject, orderId: int, status: OrderStatus)
    returns (r: Result<Message, Exception>)
    requires server.Valid()
    modifies server, server.Repr
    ensures server.Valid() && Followed(server)
    ensures Answers(old(server.State()), server.State(), r,
                    Carry(old(server.State()), Command.UpdateOrder(orderId, status), "successful order update"))
  {
    hide ServerObject.StoreValid, ServerObject.QueuesValid, Outcome, Execute, Events;
    LogGrows(server.State(), Command.UpdateOrder(orderId, status));
    RefusedNothing(server.State(), Command.UpdateOrder(orderId, status));
    ServerObjects(server);
    var done := server.UpdateOrder(orderId, status);
    if done.Success? {
      return Success(WithText(OK, "successful order update"));
    }
    r := Caught(done.error);
  }

  /** The handler at the end of the loop: other exceptions pass through it. */
  method Caught(e: Exception) returns (r: Result<Message, Exception>)
    ensures r == if e.SemanticError? then Success(WithText(ERROR, e.what)) else Failure(e)
  {
    match e
    case SemanticError(what) => return Success(WithText(ERROR, what));
    case _ => return Failure(e);
  }

  /** The answer and the server's state are those of the turn, or both are those of its failure. */
  predicate Answers(before: Server, after: Server, r: Result<Message, Exception>, turn: Result<Turn, Exception>) {
    match turn
    case Failure(e) => r == Failure(e) && after == before
    case Success(t) => r == Success(t.reply) && after == t.server
  }

  /** The body of the loop of update_chat for one decoded request other than QUIT. */
  method Answer(server: ServerObject, req: MessageObject) returns (r: Result<Message, Exception>)
    requires server.Valid() && req.Valid() && req.Repr !! server.Repr && req.mtype != QUIT
    requires forall i :: 0 <= i < |Commands(req.Value())| ==> Defined(server.State(), Commands(req.Value())[i])
    modifies server, server.Repr
    ensures server.Valid() && Followed(server)
    ensures Answers(old(server.State()), server.State(), r, Respond(old(server.State()), old(req.Value())))
  {
    hide ServerObject.StoreValid, ServerObject.QueuesValid, Carry, OrderObject.Value, QueueObject.Valid;
    match req.mtype
    case ORDER_NEW =>
      if req.order == null {
        r := Caught(SemanticError("ORDER_NEW missing order"));
      } else if req.order.id != 1 {
        OrderId(req.order);
        r := Caught(SemanticError("ORDER_NEW must have order id of 1"));
      } else {
        OrderId(req.order);
        assert Commands(req.Value())[0] == Command.CreateOrder(req.order.Value());
        var reply := CreateOrder(server, req.order);
        r := Success(reply);
      }
    case ITEM_UPDATE => r := UpdateItem(server, req.orderId, req.itemId, req.itemStatus);
    case ORDER_UPDATE => r := UpdateOrder(server, req.orderId, req.orderStatus);
    case _ => r := Failure(ProtocolError);
  }

  /** One turn of update_chat after a request has been decoded: None to go on, or how the loop
      ends, normally or with an exception. */
  method TakeTurn(server: ServerObject, fd: Descriptor, req: Message) returns (end: Option<Option<Exception>>)
    requires server.Valid() && fd !in server.Repr
    requires forall i :: 0 <= i < |Commands(req)| ==> Defined(server.State(), Commands(req)[i])
    modifies server, server.Repr, fd`outgoing, fd`interrupts
    ensures server.Valid() && Followed(server) && fd.interrupts <= old(fd.interrupts)
    ensures TurnEnded(old(server.State()), server.State(), req, end, old(fd.outgoing), fd.outgoing, fd.reliable)
  {
    hide ServerObject.StoreValid, ServerObject.QueuesValid, StreamOf, Respond;
    TurnFacts(server.State(), req);
    if req.mtype == QUIT {
      var failed := SendText(fd, OK, "goodbye");
      return if failed.Some? then Some(failed) else Some(None);
    }
    var msg := new MessageObject.Decoded(req);
    var reply := Answer(server, msg);
    if reply.Failure? {
      return Some(Some(reply.error));
    }
    var failed := SendText(fd, reply.value.mtype, reply.value.str);
    end := if failed.Some? then Some(failed) else None;
  }

  /** Operations of other client threads, one after another under the server's mutex. */
  method Others(server: ServerObject, cmds: seq<Command>)
    requires server.Valid()
    modifies server, server.Repr
    ensures server.Valid() && Followed(server)
    ensures server.State() == ExecuteFrom(old(server.State()), cmds)
  {
    hide ServerObject.StoreValid, ServerObject.QueuesValid, Execute;
    assert cmds[..0] == [];
    for i := 0 to |cmds|
      invariant server.Valid() && Followed(server)
      invariant server.State() == ExecuteFrom(old(server.State()), cmds[..i])
    {
      OtherOperation(server, cmds[i]);
      assert cmds[..i + 1][..i] == cmds[..i];
    }
    assert cmds[..|cmds|] == cmds;
  }

  /** One of them; a creation at the end of the id range is left out, as it is undefined. */
  method OtherOperation(server: ServerObject, cmd: Command)
    requires server.Valid()
    modifies server, server.Repr
    ensures server.Valid() && Followed(server)
    ensures server.State() == Execute(old(server.State()), cmd)
  {
    hide ServerObject.StoreValid, ServerObject.QueuesValid, Outcome, OrderObject.Value;
    CarryExecutes(server.State(), cmd);
    if cmd.UpdateItem? {
      var _ := UpdateItem(server, cmd.orderId, cmd.itemId, cmd.itemStatus);
    } else if cmd.UpdateOrder? {
      var _ := UpdateOrder(server, cmd.orderId, cmd.orderStatus);
    } else if server.nextOrderId < INT_MAX {
      var o := new OrderObject.Build(cmd.order);
      var _ := CreateOrder(server, o);
    }
  }

  lemma CarryExecutes(s: Server, cmd: Command)
    ensures forall done: string ::
              match Carry(s, cmd, done)
              case Failure(_) => Execute(s, cmd) == s
              case Success(turn) => turn.server == Execute(s, cmd)
    ensures !Defined(s, cmd) ==> Execute(s, cmd) == s
  {
    RefusedNothing(s, cmd);
  }

  /** One turn of update_chat: other threads act, then a request is read and answered. */
  method ServeNext(server: ServerObject, fd: Descriptor, now: seq<Command>)
    returns (req: Result<Message, Exception>, end: Option<Option<Exception>>)
    requires server.Valid() && fd !in server.Repr
    requires var m := ReceiveMessage(fd.incoming);
             m.Success? ==> forall i :: 0 <= i < |Commands(m.value.0)| ==>
               Defined(ExecuteFrom(server.State(), now), Commands(m.value.0)[i])
    modifies server, server.Repr, fd
    ensures server.Valid() && Followed(server) && (old(fd.Quiet()) ==> req.Success? ==> fd.Quiet())
    ensures var s := ExecuteFrom(old(server.State()), now);
            if req.Failure? then
              && server.State() == s && fd.outgoing == old(fd.outgoing)
              && (|| ReceiveMessage(old(fd.incoming)) == Failure(req.error)
                  || (!old(fd.Quiet()) && req.error == IOException))
            else
              && ReceiveMessage(old(fd.incoming)) == Success((req.value, fd.incoming))
              && TurnEnded(s, server.State(), req.value, end, old(fd.outgoing), fd.outgoing, fd.reliable)
  {
    hide ServerObject.StoreValid, ServerObject.QueuesValid, ReceiveMessage, Respond, StreamOf, ExecuteFrom, Commands;
    Others(server, now);
    req := MessageCode.ReceiveMessage(fd);
    end := None;
    if req.Success? {
      end := TakeTurn(server, fd, req.value);
    }
  }

  /** What a turn leaves behind: the server, how the loop ends or None, and the bytes sent. */
  predicate TurnEnded(before: Server, after: Server, req: Message, end: Option<Option<Exception>>,
                      sent: string, now: string, reliable: bool) {
    var turn := Respond(before, req);
    if turn.Failure? then
      end == Some(Some(turn.error)) && after == before && now == sent
    else
      && after == turn.value.server
      && (|| (end == Some(Some(IOException)) && !reliable)
          || (end == (if turn.value.over then Some(None) else None) && now == sent + StreamOf([turn.value.reply])))
      && sent <= now <= sent + StreamOf([turn.value.reply])
  }

  /** update_chat, among the operations of other threads: the conversation the bytes received
      determine, or a part of it cut short by a read or a write that failed. */
  method UpdateChat(server: ServerObject, fd: Descriptor, others: seq<seq<Command>>)
    returns (exception: Option<Exception>, ghost reqs: seq<Message>)
    requires server.Valid() && fd !in server.Repr && CounterLasts(server.State(), fd.incoming, others)
    modifies server, server.Repr, fd
    ensures server.Valid() && Followed(server)
    ensures var e := Session(old(server.State()), old(fd.incoming), others);
            && (|| (server.State() == e.server && exception == e.exception
                    && fd.outgoing == old(fd.outgoing) + StreamOf(e.replies))
                || (!old(fd.Quiet()) && exception == Some(IOException)))
            && old(fd.outgoing) <= fd.outgoing <= old(fd.outgoing) + StreamOf(e.replies)
    ensures var r := ReceiveMessages(old(fd.incoming), |reqs|);
            && r.Success? && r.value.0 == reqs
            && (|| server.State() == After(old(server.State()), reqs, others)
                || server.State() == Before(old(server.State()), reqs, others, |reqs|))
  {
    hide ServerObject.StoreValid, ServerObject.QueuesValid, ReceiveMessage, ReceiveMessages, Respond;
    hide StreamOf, Session, Extend, CounterLasts, After, Before, ExecuteFrom, Commands, IsRequest, Wire.Encode;
    ghost var sent: seq<Message> := [];
    var left := others;
    reqs := [];
    StreamEmpty();
    NothingReceived(fd.incoming);
    AfterNothing(server.State(), others);
    ExtendByNothing(Session(server.State(), fd.incoming, others));
    while true
      invariant server.Valid() && fd !in server.Repr && Followed(server) && (old(fd.Quiet()) ==> fd.Quiet())
      invariant CounterLasts(server.State(), fd.incoming, left)
      invariant Encodable(sent) && fd.outgoing == old(fd.outgoing) + StreamOf(sent)
      invariant Extend(sent, Session(server.State(), fd.incoming, left))
             == Session(old(server.State()), old(fd.incoming), others)
      invariant ReceiveMessages(old(fd.incoming), |reqs|) == Success((reqs, fd.incoming))
      invariant forall i :: 0 <= i < |reqs| ==> IsRequest(reqs[i])
      invariant After(old(server.State()), reqs, others) == server.State()
      invariant left == if |reqs| <= |others| then others[|reqs|..] else []
      decreases |fd.incoming|
    {
      ghost var s := server.State();
      ReceiveShrinks(fd.incoming);
      ReceiveMore(old(fd.incoming), |reqs|);
      SessionStep(s, fd.incoming, left, sent);
      SessionSends(s, fd.incoming, left, sent);
      CounterStep(s, fd.incoming, left);
      BeforeNow(old(server.State()), reqs, others, left);
      ghost var now := ExecuteFrom(s, Now(left));
      var req, end := ServeNext(server, fd, Now(left));
      if req.Failure? {
        return Some(req.error), reqs;
      }
      AfterMore(old(server.State()), reqs, others, req.value);
      TurnSends(now, req.value, sent);
      if Respond(now, req.value).Success? {
        reqs := reqs + [req.value];
      }
      if end.Some? {
        return end.value, reqs;
      }
      left := Later(left);
      sent := sent + [Respond(now, req.value).value.reply];
    }
  }

  lemma BeforeNow(s: Server, reqs: seq<Message>, others: seq<seq<Command>>, left: seq<seq<Command>>)
    requires left == if |reqs| <= |others| then others[|reqs|..] else []
    ensures Before(s, reqs, others, |reqs|) == ExecuteFrom(After(s, reqs, others), Now(left))
  {
    hide After, ExecuteFrom;
    assert reqs[..|reqs|] == reqs;
  }

  /** One turn of the conversation, and the rest. */
  function SessionTurn(s: Server, stream: string, others: seq<seq<Command>>, sent: seq<Message>): Ended {
    var s' := ExecuteFrom(s, Now(others));
    match ReceiveMessage(stream)
    case Failure(e) => Ended(s', sent, Some(e))
    case Success((req, rest)) =>
      match Respond(s', req)
      case Failure(e) => Ended(s', sent, Some(e))
      case Success(turn) =>
        if turn.over then Ended(turn.server, sent + [turn.reply], None)
        else Extend(sent + [turn.reply], Session(turn.server, rest, Later(others)))
  }

  lemma SessionStep(s: Server, stream: string, others: seq<seq<Command>>, sent: seq<Message>)
    ensures Extend(sent, Session(s, stream, others)) == SessionTurn(s, stream, others, sent)
  {
    hide ReceiveMessage, Respond, ExecuteFrom;
    ReceiveShrinks(stream);
    var s' := ExecuteFrom(s, Now(others));
    if ReceiveMessage(stream).Success? {
      var (req, rest) := ReceiveMessage(stream).value;
      if Respond(s', req).Success? && !Respond(s', req).value.over {
        var turn := Respond(s', req).value;
        ExtendByOne(sent, turn.reply, Session(turn.server, rest, Later(others)));
      }
    }
  }

  /** What has been sent is the beginning of what the whole conversation sends. */
  lemma SessionSends(s: Server, stream: string, others: seq<seq<Command>>, sent: seq<Message>)
    requires Encodable(sent)
    ensures StreamOf(sent) <= StreamOf(Extend(sent, Session(s, stream, others)).replies)
    ensures var m, s' := ReceiveMessage(stream), ExecuteFrom(s, Now(others));
            m.Success? && Respond(s', m.value.0).Success? ==>
              StreamOf(sent) + StreamOf([Respond(s', m.value.0).value.reply])
              <= StreamOf(Extend(sent, Session(s, stream, others)).replies)
  {
    hide ReceiveMessage, Respond, StreamOf, ExecuteFrom;
    var s' := ExecuteFrom(s, Now(others));
    StreamConcat(sent, Session(s, stream, others).replies);
    ReceiveShrinks(stream);
    if ReceiveMessage(stream).Success? && Respond(s', ReceiveMessage(stream).value.0).Success? {
      var turn := Respond(s', ReceiveMessage(stream).value.0).value;
      var replies := Session(s, stream, others).replies;
      TurnFacts(s', ReceiveMessage(stream).value.0);
      assert replies == [turn.reply] + replies[1..];
      StreamConcat([turn.reply], replies[1..]);
    }
  }

  lemma TurnSends(s: Server, req: Message, sent: seq<Message>)
    requires Encodable(sent)
    ensures var turn := Respond(s, req);
            turn.Success? ==>
              && Encodable(sent + [turn.value.reply])
              && StreamOf(sent + [turn.value.reply]) == StreamOf(sent) + StreamOf([turn.value.reply])
              && (turn.value.over || IsRequest(req))
  {
    hide Respond, StreamOf, Wire.Encode;
    TurnFacts(s, req);
    RespondExecutes(s, req);
    if Respond(s, req).Success? {
      StreamConcat(sent, [Respond(s, req).value.reply]);
    }
  }

  lemma CounterStep(s: Server, stream: string, others: seq<seq<Command>>)
    requires CounterLasts(s, stream, others)
    ensures var r, s' := ReceiveMessage(stream), ExecuteFrom(s, Now(others));
            r.Success? ==>
              var (req, rest) := r.value;
              var turn := Respond(s', req);
              && (forall i :: 0 <= i < |Commands(req)| ==> Defined(s', Commands(req)[i]))
              && (turn.Success? && !turn.value.over ==> CounterLasts(turn.value.server, rest, Later(others)))
  {
    hide ReceiveMessage, Respond, Commands, ExecuteFrom;
  }

  lemma AfterNothing(s: Server, others: seq<seq<Command>>)
    ensures After(s, [], others) == s
  {
  }

  lemma AfterMore(s: Server, reqs: seq<Message>, others: seq<seq<Command>>, req: Message)
    requires forall i :: 0 <= i < |reqs| ==> IsRequest(reqs[i])
    ensures var turn := Respond(Before(s, reqs, others, |reqs|), req);
            turn.Success? ==> After(s, reqs + [req], others) == turn.value.server
  {
    hide Respond, After, ExecuteFrom;
    var all := reqs + [req];
    assert all[..|reqs|] == reqs == reqs[..|reqs|];
    if Respond(Before(s, reqs, others, |reqs|), req).Success? {
      AfterLast(s, all, others, |reqs|);
    }
  }

  lemma TextEncodes(t: MessageType, text: string)
    requires t == OK || t == ERROR
    ensures Wire.Encode(WithText(t, text)).Success?
  {
  }

  lemma TurnFacts(s: Server, req: Message)
    ensures var r := Respond(s, req);
            && (r.Success? ==>
                  var reply := r.value.reply;
                  && (reply.mtype == OK || reply.mtype == ERROR) && reply == WithText(reply.mtype, reply.str)
                  && Wire.Encode(reply).Success?)
            && (r.Success? && r.value.over <==> req.mtype == QUIT)
            && (req.mtype == QUIT ==> r == Success(Turn(s, WithText(OK, "goodbye"), true)))
  {
    var r := Respond(s, req);
    if r.Success? {
      var reply := r.value.reply;
      assert reply == WithText(reply.mtype, reply.str);
      TextEncodes(reply.mtype, reply.str);
    }
    hide Wire.Encode;
  }

  lemma OrderId(o: OrderObject)
    requires o.Valid()
    ensures o.Value().id == o.id
  {
  }

  lemma ServerObjects(server: ServerObject)
    requires server.Valid()
    ensures forall k :: k in server.orders ==> server.orders[k] in server.Repr && server.orders[k].Repr <= server.Repr
    ensures forall q :: q in server.clients ==> q in server.Repr
  {
  }

  lemma RefusedNothing(s: Server, cmd: Command)
    ensures Outcome(s, cmd).Failure? ==> Execute(s, cmd) == s
  {
  }

  lemma LogGrows(s: Server, cmd: Command)
    ensures s.log <= Execute(s, cmd).log && Execute(s, cmd).log[|s.log|..] == Events(s, cmd)
  {
  }

  // ---------------------------------------------------------------------------------
  // Bringing a display up to date
  // ---------------------------------------------------------------------------------

  /** Sends a DISP_ORDER for each copied order. */
  method SendOrders(copies: seq<OrderObject>, fd: Descriptor, ghost ms: seq<Message>) returns (r: Result<(), Exception>)
    requires |ms| == |copies|
    requires forall i :: 0 <= i < |ms| ==>
               copies[i].Valid() && fd !in copies[i].Repr && ms[i] == WithOrder(DISP_ORDER, copies[i].Value())
    modifies fd`outgoing, fd`interrupts
    ensures r.Success? ==> Encodable(ms) && fd.outgoing == old(fd.outgoing) + StreamOf(ms)
    ensures r.Failure? ==> !Encodable(ms) || (!fd.reliable && r.error == IOException)
    ensures old(fd.outgoing) <= fd.outgoing <= old(fd.outgoing) + StreamOf(ms)
  {
    hide StreamOf, Wire.Encode, OrderObject.Valid, OrderObject.Value;
    StreamEmpty();
    for i := 0 to |copies|
      invariant Encodable(ms[..i]) && fd.outgoing == old(fd.outgoing) + StreamOf(ms[..i])
    {
      StreamTurn(ms, i);
      var message := new MessageObject.ForOrder(DISP_ORDER, copies[i]);
      r := MessageCode.SendMessage(fd, message.Value());
      if r.Failure? {
        return;
      }
    }
    assert ms[..|copies|] == ms;
    r := Success(());
  }

  /** The bytes of the message at a position, among those of all of them. */
  lemma StreamTurn(ms: seq<Message>, i: nat)
    requires i < |ms| && Encodable(ms[..i])
    ensures StreamOf(ms[..i]) + StreamOf([ms[i]]) <= StreamOf(ms)
    ensures StreamOf(ms[..i + 1]) == StreamOf(ms[..i]) + StreamOf([ms[i]])
  {
    hide StreamOf, Wire.Encode;
    assert ms == ms[..i] + ms[i..] && ms[..i + 1] == ms[..i] + [ms[i]];
    StreamConcat(ms[..i], ms[i..]);
    StreamConcat(ms[..i], [ms[i]]);
    StreamFirst(ms[i..]);
  }

  lemma StreamFirst(ms: seq<Message>)
    requires ms != []
    ensures StreamOf([ms[0]]) <= StreamOf(ms)
  {
    hide Wire.Encode, Frame;
    assert StreamOf([]) == "" && [ms[0]][1..] == [];
  }

  /** The beginning of chat_display: register, copy the orders, send the copies; other threads
      use the server between the first two. */
  method Join(server: ServerObject, queue: QueueObject, fd: Descriptor, between: seq<Command>)
    returns (r: Result<(), Exception>, ghost ids: seq<int>)
    requires server.Valid() && queue.Valid() && queue.Repr !! server.Repr && fd !in server.Repr + queue.Repr
    modifies server, server.Repr, queue.Repr, fd`outgoing, fd`interrupts
    ensures server.Valid() && queue in server.clients
    ensures server.State() == ExecuteFrom(old(server.State()), between)
    ensures old(server.log) <= server.log
    ensures queue.Contents == old(queue.Contents) + server.log[|old(server.log)|..]
    ensures forall i :: 0 <= i < |ids| ==> ids[i] in server.State().orders
    ensures Replication.Enumerates(ids, server.State().orders)
    ensures forall i, j :: 0 <= i < j < |ids| ==> ids[i] != ids[j]
    ensures var ms := Replication.SnapshotMessages(server.State().orders, ids);
            && (r.Success? ==> Encodable(ms) && fd.outgoing == old(fd.outgoing) + StreamOf(ms))
            && (r.Failure? ==> !Encodable(ms) || (!fd.reliable && r.error == IOException))
            && old(fd.outgoing) <= fd.outgoing <= old(fd.outgoing) + StreamOf(ms)
  {
    hide ServerObject.StoreValid, ServerObject.QueuesValid, QueueObject.Valid, OrderObject.Value;
    hide StreamOf, Encodable, Replication.Enumerates, ExecuteFrom;
    server.AddClient(queue);
    Others(server, between);
    var copies;
    ghost var made;
    copies, ids, made := server.SnapshotOrders();
    SnapshotDefined(server.State().orders, ids);
    ghost var ms := Replication.SnapshotMessages(server.State().orders, ids);
    r := SendOrders(copies, fd, ms);
  }

  lemma SnapshotDefined(orders: OrderMap, ids: seq<int>)
    requires Replication.Enumerates(ids, orders)
    ensures forall i :: 0 <= i < |ids| ==> ids[i] in orders
  {
    forall i | 0 <= i < |ids|
      ensures ids[i] in orders
    {
      var k := ids[i];
      assert k in ids;
    }
  }

  /** The server, a queue and what its client thread has sent. */
  datatype Forwarding = Forwarding(server: Server, queue: seq<Message>, sent: seq<Message>)

  function LogSince(s: Server, later: Server): seq<Message> {
    if |s.log| <= |later.log| then later.log[|s.log|..] else []
  }

  /** One turn of the loop of chat_display after these operations of other threads: the next
      message, or a heartbeat when there is none. */
  function ForwardTurn(f: Forwarding, others: seq<Command>): Forwarding {
    var s := ExecuteFrom(f.server, others);
    var q := f.queue + LogSince(f.server, s);
    if q == [] then Forwarding(s, [], f.sent + [Plain(DISP_HEARTBEAT)])
    else Forwarding(s, q[1..], f.sent + [q[0]])
  }

  function Forwarded(s: Server, queue: seq<Message>, others: seq<seq<Command>>): (f: Forwarding)
    ensures |f.sent| == |others|
  {
    if others == [] then Forwarding(s, queue, [])
    else ForwardTurn(Forwarded(s, queue, others[..|others| - 1]), others[|others| - 1])
  }

  /** What is sent in fewer turns is the beginning of what is sent in all. */
  lemma {:induction false} SentGrows(s: Server, queue: seq<Message>, others: seq<seq<Command>>, i: nat)
    requires i <= |others|
    ensures Forwarded(s, queue, others[..i]).sent == Forwarded(s, queue, others).sent[..i]
  {
    if i == |others| {
      assert others[..i] == others;
    } else {
      var front := others[..|others| - 1];
      SentGrows(s, queue, front, i);
      assert front[..i] == others[..i];
    }
  }

  /** A turn only adds to what has been sent. */
  lemma AddsOne(f: Forwarding, others: seq<Command>)
    ensures var one := ForwardTurn(f.(sent := []), others);
            one.sent == [one.sent[0]] && ForwardTurn(f, others) == one.(sent := f.sent + one.sent)
  {
    hide ExecuteFrom;
    var one := ForwardTurn(f.(sent := []), others);
    assert [] + [one.sent[0]] == [one.sent[0]];
  }

  method ForwardOne(server: ServerObject, queue: QueueObject, fd: Descriptor, others: seq<Command>)
    returns (r: Result<(), Exception>)
    requires server.Valid() && queue in server.clients && fd !in server.Repr
    modifies server, server.Repr, fd`outgoing, fd`interrupts
    ensures server.Valid() && queue in server.clients && fresh(server.Repr - old(server.Repr))
    ensures var f := ForwardTurn(Forwarding(old(server.State()), old(queue.Contents), []), others);
            && f.sent == [f.sent[0]] && server.State() == f.server && queue.Contents == f.queue
            && (r.Success? ==> Encodable(f.sent) && fd.outgoing == old(fd.outgoing) + StreamOf(f.sent))
            && (r.Failure? ==> !Encodable(f.sent) || (!fd.reliable && r.error == IOException))
            && old(fd.outgoing) <= fd.outgoing <= old(fd.outgoing) + StreamOf(f.sent)
  {
    hide ServerObject.StoreValid, ServerObject.QueuesValid, QueueObject.Valid, StreamOf, Wire.Encode, ExecuteFrom;
    Others(server, others);
    ServerObjects(server);
    AddsOne(Forwarding(old(server.State()), old(queue.Contents), []), others);
    var msg := server.Take(queue);
    if msg == null {
      r := MessageCode.SendMessage(fd, Plain(DISP_HEARTBEAT));
    } else {
      r := MessageCode.SendMessage(fd, msg.Value());
    }
  }

  /** As many turns of the loop of chat_display as there are sets of operations of the other
      threads in between; it ends only when a message cannot be sent. */
  method Forward(server: ServerObject, queue: QueueObject, fd: Descriptor, others: seq<seq<Command>>)
    returns (r: Result<(), Exception>)
    requires server.Valid() && queue in server.clients && fd !in server.Repr
    modifies server, server.Repr, fd`outgoing, fd`interrupts
    ensures server.Valid()
    ensures var f := Forwarded(old(server.State()), old(queue.Contents), others);
            && (r.Success? ==>
                  && server.State() == f.server && queue.Contents == f.queue
                  && Encodable(f.sent) && fd.outgoing == old(fd.outgoing) + StreamOf(f.sent))
            && (r.Failure? ==> !Encodable(f.sent) || (!fd.reliable && r.error == IOException))
            && old(fd.outgoing) <= fd.outgoing <= old(fd.outgoing) + StreamOf(f.sent)
  {
    hide ServerObject.StoreValid, ServerObject.QueuesValid, QueueObject.Valid;
    hide StreamOf, Wire.Encode, Forwarded, ForwardTurn, ExecuteFrom;
    ghost var s0, q0 := server.State(), queue.Contents;
    ghost var ms := Forwarded(s0, q0, others).sent;
    NoTurn(s0, q0);
    StreamEmpty();
    assert others[..0] == [];
    for i := 0 to |others|
      invariant server.Valid() && queue in server.clients && fd !in server.Repr
      invariant fresh(server.Repr - old(server.Repr))
      invariant Forwarded(s0, q0, others[..i]) == Forwarding(server.State(), queue.Contents, ms[..i])
      invariant Encodable(ms[..i]) && fd.outgoing == old(fd.outgoing) + StreamOf(ms[..i])
    {
      SentGrows(s0, q0, others, i + 1);
      OneTurn(s0, q0, others, i);
      StreamTurn(ms, i);
      AddsOne(Forwarding(server.State(), queue.Contents, ms[..i]), others[i]);
      assert ms[..i + 1] == ms[..i] + [ms[i]];
      ghost var one := ForwardTurn(Forwarding(server.State(), queue.Contents, []), others[i]);
      assert one.sent[0] == (ms[..i] + one.sent)[i] == ms[i];
      r := ForwardOne(server, queue, fd, others[i]);
      if r.Failure? {
        return;
      }
    }
    assert ms[..|others|] == ms && others[..|others|] == others;
    r := Success(());
  }

  lemma NoTurn(s: Server, queue: seq<Message>)
    ensures Forwarded(s, queue, []) == Forwarding(s, queue, [])
  {
  }

  lemma OneTurn(s: Server, queue: seq<Message>, others: seq<seq<Command>>, i: nat)
    requires i < |others|
    ensures Forwarded(s, queue, others[..i + 1]) == ForwardTurn(Forwarded(s, queue, others[..i]), others[i])
  {
    assert others[..i + 1][..i] == others[..i];
  }
}
