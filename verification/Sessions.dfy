/** The conversation of an updater with its client thread on the server: each request is
    answered in turn until QUIT or an exception (client.cpp). */
module Sessions {
  import opened Wrappers
  import opened Model
  import opened Messages
  import opened Numerals
  import opened Splitting
  import opened Orders
  import opened Wire
  import opened Framing
  import opened Transport

  /** The server after a request, its answer, and whether the conversation is over. */
  datatype Turn = Turn(server: Server, reply: Message, over: bool)

  /** Only a SemanticError is reported to the peer; the others end the conversation. */
  function Refuse(s: Server, e: Exception): Result<Turn, Exception> {
    match e
    case SemanticError(what) => Success(Turn(s, WithText(ERROR, what), false))
    case _ => Failure(e)
  }

  function Carry(s: Server, cmd: Command, done: string): Result<Turn, Exception> {
    match Outcome(s, cmd)
    case Success(_) => Success(Turn(Execute(s, cmd), WithText(OK, done), false))
    case Failure(e) => Refuse(s, e)
  }

  function Respond(s: Server, req: Message): Result<Turn, Exception> {
    match req.mtype
    case QUIT => Success(Turn(s, WithText(OK, "goodbye"), true))
    case ORDER_NEW =>
      if req.order.None? then Refuse(s, SemanticError("ORDER_NEW missing order"))
      else if req.order.value.id != 1 then Refuse(s, SemanticError("ORDER_NEW must have order id of 1"))
      else Carry(s, CreateOrder(req.order.value), "Created order id " + ToString(s.nextOrderId))
    case ITEM_UPDATE => Carry(s, UpdateItem(req.orderId, req.itemId, req.itemStatus), "successful item update")
    case ORDER_UPDATE => Carry(s, UpdateOrder(req.orderId, req.orderStatus), "successful order update")
    case _ => Failure(ProtocolError)
  }

  /** How a conversation ends: the server, the answers sent, and the exception, if any. */
  datatype Ended = Ended(server: Server, replies: seq<Message>, exception: Option<Exception>)

  /** What the other threads do on the server before the next request is answered, given what
      they do before each of the following ones; nothing when the list is used up. */
  function Now(others: seq<seq<Command>>): seq<Command> {
    if others == [] then [] else others[0]
  }

  function Later(others: seq<seq<Command>>): seq<seq<Command>> {
    if others == [] then [] else others[1..]
  }

  /** The conversation on a byte stream of requests, among the operations of other threads. */
  function Session(s: Server, stream: string, others: seq<seq<Command>>): Ended
    decreases |stream|
  {
    var s' := ExecuteFrom(s, Now(others));
    match ReceiveMessage(stream)
    case Failure(e) => Ended(s', [], Some(e))
    case Success((req, rest)) =>
      match Respond(s', req)
      case Failure(e) => Ended(s', [], Some(e))
      case Success(turn) =>
        if turn.over then Ended(turn.server, [turn.reply], None)
        else
          var more := Session(turn.server, rest, Later(others));
          more.(replies := [turn.reply] + more.replies)
  }

  /** No creation in the conversation meets an id counter at INT_MAX. */
  predicate CounterLasts(s: Server, stream: string, others: seq<seq<Command>>)
    decreases |stream|
  {
    var s' := ExecuteFrom(s, Now(others));
    var r := ReceiveMessage(stream);
    r.Success? ==>
      var (req, rest) := r.value;
      var turn := Respond(s', req);
      && (forall i :: 0 <= i < |Commands(req)| ==> Defined(s', Commands(req)[i]))
      && (turn.Success? && !turn.value.over ==> CounterLasts(turn.value.server, rest, Later(others)))
  }

  // ---------------------------------------------------------------------------------
  // What a conversation does to the server
  // ---------------------------------------------------------------------------------

  /** The server operation a request calls for, if any. */
  function Commands(req: Message): seq<Command> {
    match req.mtype
    case ORDER_NEW =>
      if req.order.Some? && req.order.value.id == 1 then [CreateOrder(req.order.value)] else []
    case ITEM_UPDATE => [UpdateItem(req.orderId, req.itemId, req.itemStatus)]
    case ORDER_UPDATE => [UpdateOrder(req.orderId, req.orderStatus)]
    case _ => []
  }

  predicate IsRequest(m: Message) {
    m.mtype == ORDER_NEW || m.mtype == ITEM_UPDATE || m.mtype == ORDER_UPDATE
  }

  /** The operations of the other threads and those called for by the requests on a stream, up
      to QUIT or an exception, in the order they take place. */
  function StreamCommands(stream: string, others: seq<seq<Command>>): seq<Command>
    decreases |stream|
  {
    Now(others)
    + match ReceiveMessage(stream)
      case Failure(_) => []
      case Success((req, rest)) =>
        if IsRequest(req) then Commands(req) + StreamCommands(rest, Later(others)) else []
  }

  lemma RespondExecutes(s: Server, req: Message)
    ensures var r := Respond(s, req);
            && (IsRequest(req) <==> r.Success? && !r.value.over)
            && (r.Success? ==>
                  r.value.server == if Commands(req) == [] then s else Execute(s, Commands(req)[0]))
            && |Commands(req)| <= 1
  {
  }

  lemma ExecuteOneMore(cmds: seq<Command>, one: seq<Command>)
    requires |one| <= 1
    ensures ExecuteAll(cmds + one) == if one == [] then ExecuteAll(cmds) else Execute(ExecuteAll(cmds), one[0])
  {
    if one == [] {
      assert cmds + one == cmds;
    } else {
      assert (cmds + one)[..|cmds|] == cmds;
    }
  }

  /** A conversation executes exactly the operations its requests call for, in order and among
      those of the other threads, so what holds after any sequence of operations holds after any
      conversations. */
  lemma {:induction false} SessionExecutes(cmds: seq<Command>, stream: string, others: seq<seq<Command>>)
    ensures Session(ExecuteAll(cmds), stream, others).server == ExecuteAll(cmds + StreamCommands(stream, others))
    decreases |stream|
  {
    hide ReceiveMessage, Respond, Commands, IsRequest, ExecuteAll, ExecuteFrom, Execute;
    var now := Now(others);
    ExecuteMore(cmds, now);
    var s := ExecuteAll(cmds + now);
    match ReceiveMessage(stream)
    case Failure(_) =>
      assert StreamCommands(stream, others) == now;
    case Success((req, rest)) =>
      RespondExecutes(s, req);
      ExecuteOneMore(cmds + now, Commands(req));
      ReceiveShrinks(stream);
      if IsRequest(req) {
        var more := StreamCommands(rest, Later(others));
        SessionExecutes(cmds + now + Commands(req), rest, Later(others));
        assert cmds + (now + (Commands(req) + more)) == cmds + now + Commands(req) + more;
      } else {
        QuitKeepsServer(s, req);
        assert StreamCommands(stream, others) == now;
      }
  }

  lemma QuitKeepsServer(s: Server, req: Message)
    ensures !IsRequest(req) && Respond(s, req).Success? ==> Respond(s, req).value.server == s
  {
  }

  // ---------------------------------------------------------------------------------
  // The answers
  // ---------------------------------------------------------------------------------

  /** The server after the requests, answered one by one among the operations of others. */
  function After(s: Server, reqs: seq<Message>, others: seq<seq<Command>>): Server
    decreases |reqs|
  {
    if reqs == [] then s
    else
      var r := Respond(ExecuteFrom(s, Now(others)), reqs[0]);
      if r.Success? then After(r.value.server, reqs[1..], Later(others)) else s
  }

  /** What the other threads do before request i is answered. */
  function At(others: seq<seq<Command>>, i: nat): seq<Command> {
    if i < |others| then others[i] else []
  }

  /** The server that answers request i. */
  function Before(s: Server, reqs: seq<Message>, others: seq<seq<Command>>, i: nat): Server
    requires i <= |reqs|
  {
    ExecuteFrom(After(s, reqs[..i], others), At(others, i))
  }

  lemma LaterAt(others: seq<seq<Command>>, i: nat)
    ensures At(others, 0) == Now(others)
    ensures At(Later(others), i) == At(others, i + 1)
  {
  }

  lemma BeforeLater(s: Server, reqs: seq<Message>, others: seq<seq<Command>>, i: nat)
    requires 0 < i <= |reqs| && Respond(ExecuteFrom(s, Now(others)), reqs[0]).Success?
    ensures var turn := Respond(ExecuteFrom(s, Now(others)), reqs[0]).value;
            Before(s, reqs, others, i) == Before(turn.server, reqs[1..], Later(others), i - 1)
  {
    hide Respond, ExecuteFrom;
    LaterAt(others, i - 1);
    assert reqs[..i][1..] == reqs[1..][..i - 1];
  }

  lemma BeforeFirst(s: Server, reqs: seq<Message>, others: seq<seq<Command>>)
    ensures Before(s, reqs, others, 0) == ExecuteFrom(s, Now(others))
  {
    hide ExecuteFrom;
  }

  /** The last of some messages, which need not be a request, takes the server one turn on. */
  lemma {:induction false} AfterLast(s: Server, reqs: seq<Message>, others: seq<seq<Command>>, n: nat)
    requires n + 1 == |reqs| && forall i :: 0 <= i < n ==> IsRequest(reqs[i])
    requires Respond(Before(s, reqs, others, n), reqs[n]).Success?
    ensures After(s, reqs, others) == Respond(Before(s, reqs, others, n), reqs[n]).value.server
    decreases n
  {
    hide Respond, ExecuteFrom, Before;
    var s' := ExecuteFrom(s, Now(others));
    RespondExecutes(s', reqs[0]);
    BeforeFirst(s, reqs, others);
    if n > 0 {
      BeforeLater(s, reqs, others, n);
      AfterLast(Respond(s', reqs[0]).value.server, reqs[1..], Later(others), n - 1);
    }
  }

  const QUIT_REQUEST: Message := WithText(QUIT, "")

  /** Requests that can be sent are answered one each and in order, every answer being given by
      the server as the earlier requests and the other threads left it; QUIT ends the
      conversation with "goodbye". */
  lemma {:induction false} EveryRequestAnswered(
    s: Server, reqs: seq<Message>, others: seq<seq<Command>>, rest: string)
    requires AllSendable(reqs) && forall i :: 0 <= i < |reqs| ==> IsRequest(reqs[i])
    ensures var e := Session(s, StreamOf(reqs) + (StreamOf([QUIT_REQUEST]) + rest), others);
            && e.exception == None
            && e.server == Before(s, reqs, others, |reqs|)
            && |e.replies| == |reqs| + 1
            && e.replies[|reqs|] == WithText(OK, "goodbye")
            && forall i :: 0 <= i < |reqs| ==>
                 var turn := Respond(Before(s, reqs, others, i), reqs[i]);
                 turn.Success? && e.replies[i] == turn.value.reply
    decreases |reqs|
  {
    hide Respond, ReceiveMessage, StreamOf, Sendable, IsRequest, ExecuteFrom, Before;
    var tail := StreamOf([QUIT_REQUEST]) + rest;
    var s' := ExecuteFrom(s, Now(others));
    BeforeFirst(s, reqs, others);
    if reqs == [] {
      QuitArrives(rest);
      QuitEnds(s');
      StreamEmpty();
      assert StreamOf(reqs) + tail == tail;
    } else {
      var stream := StreamOf(reqs) + tail;
      AllSendableCons(reqs);
      RequestArrives(reqs, tail);
      RespondExecutes(s', reqs[0]);
      var turn := Respond(s', reqs[0]).value;
      EveryRequestAnswered(turn.server, reqs[1..], Later(others), rest);
      var more := Session(turn.server, StreamOf(reqs[1..]) + tail, Later(others));
      ReceiveShrinks(stream);
      assert Session(s, stream, others) == more.(replies := [turn.reply] + more.replies);
      BeforeLater(s, reqs, others, |reqs|);
      forall i | 0 <= i < |reqs|
        ensures var t := Respond(Before(s, reqs, others, i), reqs[i]);
                t.Success? && ([turn.reply] + more.replies)[i] == t.value.reply
      {
        if i > 0 {
          BeforeLater(s, reqs, others, i);
          assert reqs[i] == reqs[1..][i - 1];
        }
      }
    }
  }

  lemma QuitArrives(rest: string)
    ensures ReceiveMessage(StreamOf([QUIT_REQUEST]) + rest) == Success((QUIT_REQUEST, rest))
  {
    hide Decode, Frame, ReceiveFrame;
    TextSendable(QUIT, "");
    SendableArrives(QUIT_REQUEST, rest);
    StreamHead([QUIT_REQUEST]);
    assert [QUIT_REQUEST][1..] == [];
    assert StreamOf([QUIT_REQUEST]) == Frame(Encode(QUIT_REQUEST).value);
  }

  lemma QuitEnds(s: Server)
    ensures Respond(s, QUIT_REQUEST) == Success(Turn(s, WithText(OK, "goodbye"), true))
  {
  }

  lemma RequestArrives(reqs: seq<Message>, tail: string)
    requires reqs != [] && Sendable(reqs[0])
    ensures ReceiveMessage(StreamOf(reqs) + tail) == Success((reqs[0], StreamOf(reqs[1..]) + tail))
  {
    hide Decode, Frame, ReceiveFrame, Encode, ReceiveMessage;
    StreamHead(reqs);
    SendableArrives(reqs[0], StreamOf(reqs[1..]) + tail);
    assert StreamOf(reqs) + tail == Frame(Encode(reqs[0]).value) + (StreamOf(reqs[1..]) + tail);
  }

  lemma TextSendable(t: MessageType, text: string)
    requires t == OK || t == ERROR || t == QUIT
    requires Free(text, '|') && |text| <= 1000
    ensures Sendable(WithText(t, text))
  {
    var m := WithText(t, text);
    assert Payload(m) == Success([text]);
    JoinLength([MessageTypeToStr(t), text], '|');
    assert [MessageTypeToStr(t)] + [text] == [MessageTypeToStr(t), text];
    assert TotalLength([text]) == |text|;
    assert [MessageTypeToStr(t), text][1..] == [text];
  }

  lemma FreeText(s: string, c: char)
    requires c !in s
    ensures Free(s, c)
  {
  }

  lemma ItemRefusalTexts()
    ensures '|' !in "Order with order_id is not found" && '|' !in "Item with item_id is not found"
    ensures '|' !in "Status change is invalid"
  {
  }

  lemma SameStatusText()
    ensures '|' !in SAME_STATUS && |SAME_STATUS| <= 1000
  {
    assert '|' !in "Must enter a new status. " && '|' !in "Cannot update to item's current status";
  }

  lemma OrderRefusalTexts()
    ensures '|' !in "Order with order_id not found" && '|' !in NO_TRANSITION
  {
  }

  lemma AnswerTexts()
    ensures '|' !in "goodbye" && '|' !in "ORDER_NEW missing order" && '|' !in "ORDER_NEW must have order id of 1"
    ensures '|' !in "successful item update" && '|' !in "successful order update" && '|' !in "Created order id "
  {
  }

  /** The texts of the exceptions an operation throws are fit for an ERROR reply. */
  lemma RefusalText(s: Server, cmd: Command)
    requires Outcome(s, cmd).Failure?
    ensures var e := Outcome(s, cmd).error;
            e.SemanticError? && '|' !in e.what && |e.what| <= 1000
  {
    hide FindItem, SetItemStatus, NextOrderStatus, ItemEvents;
    ItemRefusalTexts();
    SameStatusText();
    hide SAME_STATUS;
    OrderRefusalTexts();
  }

  lemma CarryReply(s: Server, cmd: Command, done: string)
    requires Free(done, '|') && |done| <= 1000
    ensures Carry(s, cmd, done).Success? && Sendable(Carry(s, cmd, done).value.reply)
  {
    if Outcome(s, cmd).Failure? {
      RefusalText(s, cmd);
      hide Outcome, Execute, Sendable, Free;
      FreeText(Outcome(s, cmd).error.what, '|');
      TextSendable(ERROR, Outcome(s, cmd).error.what);
    } else {
      hide Outcome, Execute, Sendable, Free;
      TextSendable(OK, done);
    }
  }

  lemma CreatedText(n: int)
    requires 1 <= n <= INT_MAX
    ensures Free("Created order id " + ToString(n), '|') && |"Created order id " + ToString(n)| <= 1000
  {
    IdRoundTrip(n, '|');
    IntLength(n);
    hide ToString;
    AnswerTexts();
    FreeText("Created order id ", '|');
    FreeConcat("Created order id ", ToString(n), '|');
  }

  lemma ReplySendable(s: Server, req: Message)
    requires 1 <= s.nextOrderId <= INT_MAX
    ensures Respond(s, req).Success? ==> Sendable(Respond(s, req).value.reply)
  {
    hide Sendable, Execute, ToString, Free, Carry;
    AnswerTexts();
    match req.mtype
    case QUIT =>
      FreeText("goodbye", '|');
      TextSendable(OK, "goodbye");
    case ORDER_NEW =>
      if req.order.None? {
        FreeText("ORDER_NEW missing order", '|');
        TextSendable(ERROR, "ORDER_NEW missing order");
      } else if req.order.value.id != 1 {
        FreeText("ORDER_NEW must have order id of 1", '|');
        TextSendable(ERROR, "ORDER_NEW must have order id of 1");
      } else {
        CreatedText(s.nextOrderId);
        CarryReply(s, CreateOrder(req.order.value), "Created order id " + ToString(s.nextOrderId));
      }
    case ITEM_UPDATE =>
      FreeText("successful item update", '|');
      CarryReply(s, UpdateItem(req.orderId, req.itemId, req.itemStatus), "successful item update");
    case ORDER_UPDATE =>
      FreeText("successful order update", '|');
      CarryReply(s, UpdateOrder(req.orderId, req.orderStatus), "successful order update");
    case _ =>
  }

  /** Whatever bytes an updater sends, every answer can be sent and arrives as it is. */
  lemma {:induction false} AnswersArrive(cmds: seq<Command>, stream: string, others: seq<seq<Command>>)
    ensures AllSendable(Session(ExecuteAll(cmds), stream, others).replies)
    decreases |stream|
  {
    hide ReceiveMessage, Respond, Sendable, ExecuteAll, ExecuteFrom, Execute, Commands, IsRequest;
    var now := Now(others);
    ExecuteMore(cmds, now);
    var s := ExecuteAll(cmds + now);
    if ReceiveMessage(stream).Success? {
      var (req, rest) := ReceiveMessage(stream).value;
      ReceiveShrinks(stream);
      IdsStayInRange(cmds + now);
      ReplySendable(s, req);
      RespondExecutes(s, req);
      ExecuteOneMore(cmds + now, Commands(req));
      if IsRequest(req) {
        AnswersArrive(cmds + now + Commands(req), rest, Later(others));
        AllSendableCons(Session(ExecuteAll(cmds), stream, others).replies);
      }
    }
  }

  lemma {:induction false} IdsStayInRange(cmds: seq<Command>)
    ensures FIRST_ORDER_ID <= ExecuteAll(cmds).nextOrderId <= INT_MAX
  {
    if cmds != [] {
      IdsStayInRange(cmds[..|cmds| - 1]);
    }
  }

  /** The end of a conversation in which some answers have been given before. */
  function Extend(replies: seq<Message>, e: Ended): Ended {
    e.(replies := replies + e.replies)
  }

  lemma ExtendByNothing(e: Ended)
    ensures Extend([], e) == e
  {
  }

  lemma ExtendByOne(replies: seq<Message>, reply: Message, e: Ended)
    ensures Extend(replies, e.(replies := [reply] + e.replies)) == Extend(replies + [reply], e)
  {
    assert replies + ([reply] + e.replies) == replies + [reply] + e.replies;
  }

  // ---------------------------------------------------------------------------------
  // Login
  // ---------------------------------------------------------------------------------

  /** How a login ends: the client's mode, what it is sent, and the exception, if any. */
  datatype LoginEnd = LoginEnd(mode: ClientMode, replies: seq<Message>, exception: Option<Exception>)

  function LoginWith(req: Message, authenticate: string -> bool): LoginEnd {
    if req.mtype != LOGIN then LoginEnd(ClientMode.INVALID, [], Some(ProtocolError))
    else if !authenticate(req.str) then
      LoginEnd(ClientMode.INVALID, [WithText(ERROR, "Bad Login")], Some(ProtocolError))
    else if req.clientMode == ClientMode.INVALID then
      LoginEnd(req.clientMode, [WithText(ERROR, "invalid client mode")], Some(ProtocolError))
    else
      LoginEnd(req.clientMode, [WithText(OK, "successful login")], None)
  }

  function Login(stream: string, authenticate: string -> bool): LoginEnd {
    match ReceiveMessage(stream)
    case Failure(e) => LoginEnd(ClientMode.INVALID, [], Some(e))
    case Success((req, _)) => LoginWith(req, authenticate)
  }

  /** The stream starts with a LOGIN message whose text authenticates, or does not. */
  predicate LoginArrives(stream: string, authenticate: string -> bool, good: bool) {
    var m := ReceiveMessage(stream);
    m.Success? && m.value.0.mtype == LOGIN && authenticate(m.value.0.str) == good
  }

  /** Bytes log a client in exactly if they start with a LOGIN message whose text authenticates,
      and only then it is told so; only one that does not authenticate is answered "Bad Login".
      The mode of a client that is logged in is the one it asked for, and never INVALID, so that
      "invalid client mode" is never sent; that of any other stays INVALID. */
  lemma LoginExact(stream: string, authenticate: string -> bool)
    ensures var e := Login(stream, authenticate); var m := ReceiveMessage(stream);
            && (e.replies == [WithText(OK, "successful login")] <==> LoginArrives(stream, authenticate, true))
            && (e.replies == [WithText(ERROR, "Bad Login")] <==> LoginArrives(stream, authenticate, false))
            && (e.replies == [] <==> m.Failure? || m.value.0.mtype != LOGIN)
            && (e.exception == None <==> LoginArrives(stream, authenticate, true))
            && (m.Success? && e.exception.Some? ==> e.exception == Some(ProtocolError))
            && (m.Failure? ==> e.exception == Some(m.error))
            && (e.exception == None ==> e.mode == m.value.0.clientMode && e.mode != ClientMode.INVALID)
            && (e.exception != None ==> e.mode == ClientMode.INVALID)
  {
    hide Decode, ReceiveFrame, ReceiveMessage;
    if ReceiveMessage(stream).Success? {
      ReceivedIsWellFormed(stream);
      assert WithText(OK, "successful login").mtype != WithText(ERROR, "Bad Login").mtype;
    }
  }
}
