/** What an updater is told about its requests, and what has then become of the orders
    (client.cpp, server.cpp). */
module Answers {
  import opened Wrappers
  import opened Model
  import opened Messages
  import opened Numerals
  import opened Orders
  import opened Wire
  import opened Operations
  import opened Transport
  import opened Sessions
  import Lifetimes

  /** ORDER_NEW: the order is added under a key that was not taken, and the answer names it; or
      the request lacks an order with id 1 and nothing happens.  The last id there is stays out. */
  ghost predicate CreationAnswered(before: Server, req: Message, after: Server, reply: Message) {
    if req.order == None then OnlyText(reply, ERROR, "ORDER_NEW missing order") && after == before
    else if req.order.value.id != 1 then
      OnlyText(reply, ERROR, "ORDER_NEW must have order id of 1") && after == before
    else before.nextOrderId < INT_MAX ==>
      exists k :: CreatedUnder(before, req.order.value, after, reply, k)
  }

  predicate CreatedUnder(before: Server, o: Order, after: Server, reply: Message, k: int) {
    && k !in before.orders && Added(before.orders, after.orders, k, o)
    && OnlyText(reply, OK, "Created order id " + ToString(k))
  }

  ghost predicate ItemUpdateAnswered(before: Server, req: Message, after: Server, reply: Message) {
    || (OnlyText(reply, ERROR, reply.str) && after == before
        && ItemRefusal(before.orders, req.orderId, req.itemId, req.itemStatus, reply.str))
    || (OnlyText(reply, OK, "successful item update")
        && (forall text :: !ItemRefusal(before.orders, req.orderId, req.itemId, req.itemStatus, text))
        && ItemMoved(before.orders, after.orders, req.orderId, req.itemId, req.itemStatus))
  }

  ghost predicate OrderUpdateAnswered(before: Server, req: Message, after: Server, reply: Message) {
    || (OnlyText(reply, ERROR, reply.str) && after == before
        && OrderRefusal(before.orders, req.orderId, req.orderStatus, reply.str))
    || (OnlyText(reply, OK, "successful order update")
        && (forall text :: !OrderRefusal(before.orders, req.orderId, req.orderStatus, text))
        && Removed(before.orders, after.orders, req.orderId))
  }

  /** What a request makes of the server and is answered. */
  ghost predicate Answered(before: Server, req: Message, after: Server, reply: Message) {
    match req.mtype
    case QUIT => OnlyText(reply, OK, "goodbye") && after == before
    case ORDER_NEW => CreationAnswered(before, req, after, reply)
    case ITEM_UPDATE => ItemUpdateAnswered(before, req, after, reply)
    case ORDER_UPDATE => OrderUpdateAnswered(before, req, after, reply)
    case _ => false
  }

  predicate FromUpdater(m: Message) {
    m.mtype == QUIT || m.mtype == ORDER_NEW || m.mtype == ITEM_UPDATE || m.mtype == ORDER_UPDATE
  }

  ghost predicate Fresh(s: Server) {
    forall k :: k in s.orders ==> k < s.nextOrderId
  }

  lemma CreationAnswer(s: Server, req: Message)
    requires Fresh(s) && req.mtype == ORDER_NEW
    ensures var r := Respond(s, req);
            r.Success? && !r.value.over && CreationAnswered(s, req, r.value.server, r.value.reply)
  {
    if req.order.Some? && req.order.value.id == 1 && s.nextOrderId < INT_MAX {
      CreateOrderExact(s, req.order.value);
      hide Execute, Events, ToString;
      assert CreatedUnder(s, req.order.value, Respond(s, req).value.server, Respond(s, req).value.reply, s.nextOrderId);
    }
  }

  lemma ItemUpdateAnswer(s: Server, req: Message)
    requires req.mtype == ITEM_UPDATE
    ensures var r := Respond(s, req);
            r.Success? && !r.value.over && ItemUpdateAnswered(s, req, r.value.server, r.value.reply)
  {
    var cmd := UpdateItem(req.orderId, req.itemId, req.itemStatus);
    UpdateItemExact(s, req.orderId, req.itemId, req.itemStatus);
    OnlySemanticErrors(s, cmd);
    hide Execute, Events, Outcome, ItemRefusal, ItemMoved, ItemAnnounced;
    if Outcome(s, cmd).Failure? {
      assert Outcome(s, cmd) == Failure(SemanticError(Outcome(s, cmd).error.what));
    }
  }

  lemma OrderUpdateAnswer(s: Server, req: Message)
    requires req.mtype == ORDER_UPDATE
    ensures var r := Respond(s, req);
            r.Success? && !r.value.over && OrderUpdateAnswered(s, req, r.value.server, r.value.reply)
  {
    var cmd := UpdateOrder(req.orderId, req.orderStatus);
    UpdateOrderExact(s, req.orderId, req.orderStatus);
    OnlySemanticErrors(s, cmd);
    hide Execute, Events, Outcome, OrderRefusal, Removed;
    if Outcome(s, cmd).Failure? {
      assert Outcome(s, cmd) == Failure(SemanticError(Outcome(s, cmd).error.what));
    }
  }

  /** An updater's request is answered, after QUIT the conversation is over, and a message of
      another type is a ProtocolError. */
  lemma AnswerExact(s: Server, req: Message)
    requires Fresh(s)
    ensures var r := Respond(s, req);
            if FromUpdater(req) then
              && r.Success? && (r.value.over <==> req.mtype == QUIT)
              && Answered(s, req, r.value.server, r.value.reply)
            else r == Failure(ProtocolError)
  {
    if req.mtype == ORDER_NEW {
      CreationAnswer(s, req);
    } else if req.mtype == ITEM_UPDATE {
      ItemUpdateAnswer(s, req);
    } else if req.mtype == ORDER_UPDATE {
      OrderUpdateAnswer(s, req);
    }
    hide Carry, CreationAnswered, ItemUpdateAnswered, OrderUpdateAnswered;
  }

  // ---------------------------------------------------------------------------------
  // The whole conversation
  // ---------------------------------------------------------------------------------

  lemma StaysFresh(s: Server, cmd: Command)
    requires Fresh(s)
    ensures Fresh(Execute(s, cmd))
  {
  }

  lemma {:induction false} OthersKeepFresh(s: Server, cmds: seq<Command>)
    requires Fresh(s)
    ensures Fresh(ExecuteFrom(s, cmds))
  {
    if cmds != [] {
      OthersKeepFresh(s, cmds[..|cmds| - 1]);
      StaysFresh(ExecuteFrom(s, cmds[..|cmds| - 1]), cmds[|cmds| - 1]);
      hide Execute;
    }
  }

  lemma TurnStaysFresh(s: Server, req: Message)
    requires Fresh(s) && Respond(s, req).Success?
    ensures Fresh(Respond(s, req).value.server)
  {
    RespondExecutes(s, req);
    if Commands(req) != [] {
      StaysFresh(s, Commands(req)[0]);
    }
    hide Respond, Execute;
  }

  lemma RunIsFresh(cmds: seq<Command>)
    ensures Fresh(ExecuteAll(cmds))
  {
    forall k | k in ExecuteAll(cmds).orders
      ensures k < ExecuteAll(cmds).nextOrderId
    {
      Lifetimes.StoredWasHandedOut(cmds, k);
    }
  }

  /** Requests answered one by one, each after some operations of other threads; the trail is
      the server at the start and after each answer. */
  ghost predicate Dialogue(trail: seq<Server>, others: seq<seq<Command>>, reqs: seq<Message>, replies: seq<Message>) {
    && |trail| == |reqs| + 1 && |replies| == |reqs|
    && forall i :: 0 <= i < |reqs| ==>
         Answered(ExecuteFrom(trail[i], At(others, i)), reqs[i], trail[i + 1], replies[i])
  }

  /** The conversation is over after n requests, the last of which was this: after QUIT, or with
      what is wrong with the bytes that follow. */
  predicate Over(e: Ended, last: Option<Message>, s: Server, now: seq<Command>, rest: string) {
    if last.Some? && last.value.mtype == QUIT then e.exception == None && e.server == s
    else
      && e.server == ExecuteFrom(s, now)
      && match ReceiveMessage(rest)
         case Failure(x) => e.exception == Some(x)
         case Success((m, _)) => !FromUpdater(m) && e.exception == Some(ProtocolError)
  }

  function Last(reqs: seq<Message>): Option<Message> {
    if reqs == [] then None else Some(reqs[|reqs| - 1])
  }

  lemma NoDialogue(s: Server, others: seq<seq<Command>>)
    ensures Dialogue([s], others, [], [])
  {
  }

  lemma DialogueCons(s: Server, s': Server, others: seq<seq<Command>>, req: Message, reply: Message,
                     trail: seq<Server>, reqs: seq<Message>, replies: seq<Message>)
    requires Dialogue(trail, Later(others), reqs, replies) && trail != [] && trail[0] == s'
    requires Answered(ExecuteFrom(s, Now(others)), req, s', reply)
    ensures Dialogue([s] + trail, others, [req] + reqs, [reply] + replies)
  {
    hide ExecuteFrom, Answered;
    var trail', reqs', replies' := [s] + trail, [req] + reqs, [reply] + replies;
    LaterAt(others, 0);
    forall i | 0 <= i < |reqs'|
      ensures Answered(ExecuteFrom(trail'[i], At(others, i)), reqs'[i], trail'[i + 1], replies'[i])
    {
      if i > 0 {
        LaterAt(others, i - 1);
        assert trail'[i] == trail[i - 1];
      }
    }
  }

  /** The rest of a conversation after its first request. */
  function Rest(turn: Turn, tail: string, others: seq<seq<Command>>): Ended {
    if turn.over then Ended(turn.server, [], None) else Session(turn.server, tail, Later(others))
  }

  lemma SessionUnfolds(s: Server, stream: string, others: seq<seq<Command>>)
    ensures var m, s' := ReceiveMessage(stream), ExecuteFrom(s, Now(others));
            var e := Session(s, stream, others);
            if m.Failure? then e == Ended(s', [], Some(m.error))
            else if Respond(s', m.value.0).Failure? then e == Ended(s', [], Some(Respond(s', m.value.0).error))
            else
              var turn := Respond(s', m.value.0).value;
              var more := Rest(turn, m.value.1, others);
              |m.value.1| < |stream| && e == more.(replies := [turn.reply] + more.replies)
  {
    ReceiveShrinks(stream);
    hide ReceiveMessage, Respond, ExecuteFrom;
    var m, s' := ReceiveMessage(stream), ExecuteFrom(s, Now(others));
    if m.Success? && Respond(s', m.value.0).Success? {
      var reply := Respond(s', m.value.0).value.reply;
      assert [reply] + [] == [reply];
    }
  }

  lemma ReceiveCons(stream: string, n: nat)
    requires ReceiveMessage(stream).Success?
    ensures var (m, tail) := ReceiveMessage(stream).value; var more := ReceiveMessages(tail, n);
            more.Success? ==> ReceiveMessages(stream, n + 1) == Success(([m] + more.value.0, more.value.1))
  {
    hide ReceiveMessage;
  }

  /** Whatever bytes an updater sends, the messages on them are answered one each and in order
      for as long as they are requests that can be read, up to QUIT. */
  lemma {:induction false} EveryAnswer(s: Server, stream: string, others: seq<seq<Command>>)
    returns (trail: seq<Server>, reqs: seq<Message>, rest: string)
    requires Fresh(s)
    ensures var e := Session(s, stream, others);
            && ReceiveMessages(stream, |reqs|) == Success((reqs, rest))
            && |trail| == |reqs| + 1 && trail[0] == s && Dialogue(trail, others, reqs, e.replies)
            && (forall i :: 0 <= i < |reqs| - 1 ==> reqs[i].mtype != QUIT)
            && Over(e, Last(reqs), trail[|reqs|], At(others, |reqs|), rest)
    decreases |stream|
  {
    hide ReceiveMessage, ReceiveMessages, Session, Respond, ExecuteFrom, Answered, FromUpdater, Dialogue;
    SessionUnfolds(s, stream, others);
    NothingReceived(stream);
    LaterAt(others, 0);
    var s' := ExecuteFrom(s, Now(others));
    OthersKeepFresh(s, Now(others));
    trail, reqs, rest := [s], [], stream;
    NoDialogue(s, others);
    if ReceiveMessage(stream).Success? {
      var (req, tail) := ReceiveMessage(stream).value;
      AnswerExact(s', req);
      if FromUpdater(req) {
        var turn := Respond(s', req).value;
        trail, reqs, rest := [turn.server], [], tail;
        NoDialogue(turn.server, Later(others));
        NothingReceived(tail);
        if !turn.over {
          TurnStaysFresh(s', req);
          trail, reqs, rest := EveryAnswer(turn.server, tail, Later(others));
        }
        DialogueCons(s, turn.server, others, req, turn.reply, trail, reqs, Rest(turn, tail, others).replies);
        ReceiveCons(stream, |reqs|);
        LaterAt(others, |reqs|);
        trail, reqs := [s] + trail, [req] + reqs;
      }
    }
  }

  /** After any operations, requests that can be sent are all answered, in order, and QUIT after
      them ends the conversation. */
  lemma RequestsAnswered(cmds: seq<Command>, reqs: seq<Message>, others: seq<seq<Command>>, rest: string)
    returns (trail: seq<Server>)
    requires AllSendable(reqs) && forall i :: 0 <= i < |reqs| ==> IsRequest(reqs[i])
    ensures var s := ExecuteAll(cmds);
            var e := Session(s, StreamOf(reqs + [QUIT_REQUEST]) + rest, others);
            && |trail| == |reqs| + 2 && trail[0] == s
            && Dialogue(trail, others, reqs + [QUIT_REQUEST], e.replies)
            && e.exception == None && e.server == trail[|reqs| + 1]
  {
    var s := ExecuteAll(cmds);
    RunIsFresh(cmds);
    var all := reqs + [QUIT_REQUEST];
    ThenQuit(reqs, rest);
    EveryRequestAnswered(s, reqs, others, rest);
    hide Sendable, StreamOf, Dialogue, Session, ReceiveMessages, IsRequest, ReceiveMessage, ExecuteFrom, Before;
    hide WithText, QUIT_REQUEST, ExecuteAll;
    var got, tail;
    trail, got, tail := EveryAnswer(s, StreamOf(all) + rest, others);
    DialogueLengths(trail, others, got, Session(s, StreamOf(all) + rest, others).replies);
    assert got == all;
  }

  lemma ThenQuit(reqs: seq<Message>, rest: string)
    requires AllSendable(reqs)
    ensures var all := reqs + [QUIT_REQUEST];
            && StreamOf(all) + rest == StreamOf(reqs) + (StreamOf([QUIT_REQUEST]) + rest)
            && ReceiveMessages(StreamOf(all) + rest, |all|) == Success((all, rest))
            && QUIT_REQUEST.mtype == QUIT
  {
    TextSendable(QUIT, "");
    ThenOne(reqs, QUIT_REQUEST, rest);
    hide Sendable, StreamOf, ReceiveMessages, AllSendable;
  }

  lemma ThenOne(ms: seq<Message>, m: Message, rest: string)
    requires AllSendable(ms) && Sendable(m)
    ensures StreamOf(ms + [m]) + rest == StreamOf(ms) + (StreamOf([m]) + rest)
    ensures ReceiveMessages(StreamOf(ms + [m]) + rest, |ms + [m]|) == Success((ms + [m], rest))
  {
    AllSendableSnoc(ms, m);
    hide Sendable, StreamOf, ReceiveMessages, AllSendable, Encodable;
    TransportExact(ms + [m], rest);
    StreamConcat(ms, [m]);
    Regroup(StreamOf(ms), StreamOf([m]), rest);
  }

  lemma Regroup(a: string, b: string, c: string)
    ensures (a + b) + c == a + (b + c)
  {
  }

  lemma AllSendableSnoc(ms: seq<Message>, m: Message)
    requires AllSendable(ms) && Sendable(m)
    ensures AllSendable(ms + [m]) && Encodable(ms)
  {
    hide WellFormed, Encode;
  }

  lemma DialogueLengths(trail: seq<Server>, others: seq<seq<Command>>, reqs: seq<Message>, replies: seq<Message>)
    requires Dialogue(trail, others, reqs, replies)
    ensures |reqs| == |replies|
  {
  }
}
