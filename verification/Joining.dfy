/** What a display's client thread sends, turn by turn, from its registration on (client.cpp). */
module Joining {
  import opened Model
  import opened Messages
  import opened Orders
  import opened Replication
  import opened ClientCode
  import Operations
  import LateSnapshot
  import EndToEnd

  /** The messages that tell a display something. */
  function News(ms: seq<Message>): seq<Message> {
    if ms == [] then []
    else
      var last := ms[|ms| - 1];
      News(ms[..|ms| - 1]) + if last.mtype == DISP_HEARTBEAT then [] else [last]
  }

  predicate OnlyNews(ms: seq<Message>) {
    forall i :: 0 <= i < |ms| ==> ms[i].mtype != DISP_HEARTBEAT
  }

  /** The operations of several turns in one sequence. */
  function Flat(others: seq<seq<Command>>): seq<Command> {
    if others == [] then [] else Flat(others[..|others| - 1]) + others[|others| - 1]
  }

  lemma NewsSnoc(ms: seq<Message>, m: Message)
    ensures News(ms + [m]) == News(ms) + if m.mtype == DISP_HEARTBEAT then [] else [m]
  {
    assert (ms + [m])[..|ms|] == ms;
  }

  lemma {:induction false} ExecuteThen(s: Server, a: seq<Command>, b: seq<Command>)
    ensures ExecuteFrom(s, a + b) == ExecuteFrom(ExecuteFrom(s, a), b)
  {
    hide Execute;
    if b == [] {
      assert a + b == a;
    } else {
      assert (a + b)[..|a + b| - 1] == a + b[..|b| - 1];
      ExecuteThen(s, a, b[..|b| - 1]);
    }
  }

  /** Operations only add to the log, and never a heartbeat. */
  lemma {:induction false} LogHasNews(s: Server, cmds: seq<Command>)
    ensures var s' := ExecuteFrom(s, cmds); s.log <= s'.log && OnlyNews(s'.log[|s.log|..])
  {
    if cmds != [] {
      var front := cmds[..|cmds| - 1];
      LogHasNews(s, front);
      EventsAreNews(ExecuteFrom(s, front), cmds[|cmds| - 1]);
      hide Execute, Events;
    }
  }

  lemma EventsAreNews(s: Server, cmd: Command)
    ensures Execute(s, cmd).log == s.log + Events(s, cmd) && OnlyNews(Events(s, cmd))
  {
  }

  /** Everything put in a display's queue by the end of these turns, in order. */
  function Queued(s: Server, queue: seq<Message>, others: seq<seq<Command>>): seq<Message> {
    LogHasNews(s, Flat(others));
    queue + ExecuteFrom(s, Flat(others)).log[|s.log|..]
  }

  lemma TurnKeepsAll(f: Forwarding, others: seq<Command>)
    requires OnlyNews(f.queue)
    ensures var f' := ForwardTurn(f, others);
            && f'.server == ExecuteFrom(f.server, others) && f.server.log <= f'.server.log
            && OnlyNews(f'.queue)
            && News(f'.sent) + f'.queue == News(f.sent) + f.queue + f'.server.log[|f.server.log|..]
  {
    LogHasNews(f.server, others);
    hide ExecuteFrom, News;
    var f' := ForwardTurn(f, others);
    NewsSnoc(f.sent, f'.sent[|f.sent|]);
  }

  lemma QueuedSnoc(s: Server, queue: seq<Message>, front: seq<seq<Command>>, last: seq<Command>)
    ensures var mid, end := ExecuteFrom(s, Flat(front)), ExecuteFrom(s, Flat(front + [last]));
            && end == ExecuteFrom(mid, last) && mid.log <= end.log
            && Queued(s, queue, front + [last]) == Queued(s, queue, front) + end.log[|mid.log|..]
  {
    assert (front + [last])[..|front|] == front;
    ExecuteThen(s, Flat(front), last);
    LogHasNews(s, Flat(front));
    LogHasNews(ExecuteFrom(s, Flat(front)), last);
    hide ExecuteFrom;
  }

  /** What a display has been told in some turns, and what waits for it after them, is together
      what was put in its queue; the server is where all the operations left it. */
  lemma {:induction false} NothingLost(s: Server, queue: seq<Message>, others: seq<seq<Command>>)
    requires OnlyNews(queue)
    ensures var f := Forwarded(s, queue, others);
            && f.server == ExecuteFrom(s, Flat(others))
            && News(f.sent) + f.queue == Queued(s, queue, others)
            && OnlyNews(f.queue)
  {
    hide ExecuteFrom, News, Queued, ForwardTurn, OnlyNews;
    if others == [] {
      NothingSent(s, queue);
    } else {
      var front, last := others[..|others| - 1], others[|others| - 1];
      assert others == front + [last];
      NothingLost(s, queue, front);
      TurnKeepsAll(Forwarded(s, queue, front), last);
      QueuedSnoc(s, queue, front, last);
    }
  }

  lemma NothingSent(s: Server, queue: seq<Message>)
    ensures Queued(s, queue, []) == queue && News([]) + queue == queue && ExecuteFrom(s, []) == s
    ensures Flat([]) == []
  {
  }

  /** The next message for a display that has been told so much of what was queued. */
  predicate IsNext(m: Message, told: seq<Message>, queued: seq<Message>) {
    && told <= queued
    && if told == queued then Operations.OnlyText(m, DISP_HEARTBEAT, "")
       else m == queued[|told|] && m.mtype != DISP_HEARTBEAT
  }

  lemma FirstIsNext(told: seq<Message>, q: seq<Message>, m: Message)
    requires OnlyNews(q) && m == if q == [] then Plain(DISP_HEARTBEAT) else q[0]
    ensures IsNext(m, told, told + q)
  {
    assert q == [] <==> told == told + q;
    if q != [] {
      assert m == (told + q)[|told|];
    }
  }

  lemma LastTurn(s: Server, queue: seq<Message>, front: seq<seq<Command>>, last: seq<Command>)
    ensures Forwarded(s, queue, front + [last]) == ForwardTurn(Forwarded(s, queue, front), last)
  {
    hide ForwardTurn;
    assert (front + [last])[..|front|] == front;
  }

  lemma LastTurnSends(s: Server, queue: seq<Message>, front: seq<seq<Command>>, last: seq<Command>)
    requires OnlyNews(queue)
    ensures var f, g := Forwarded(s, queue, front + [last]), Forwarded(s, queue, front);
            && f.sent == g.sent + [f.sent[|front|]]
            && IsNext(f.sent[|front|], News(g.sent), Queued(s, queue, front + [last]))
  {
    var g := Forwarded(s, queue, front);
    LastTurn(s, queue, front, last);
    NothingLost(s, queue, front);
    QueuedSnoc(s, queue, front, last);
    hide Forwarded, ForwardTurn, ExecuteFrom, News, Queued, IsNext, Flat, OnlyNews, LogSince;
    TurnSends(g, last);
  }

  lemma TurnSends(f: Forwarding, others: seq<Command>)
    requires OnlyNews(f.queue)
    ensures var f', s' := ForwardTurn(f, others), ExecuteFrom(f.server, others);
            && f'.sent == f.sent + [f'.sent[|f.sent|]] && f.server.log <= s'.log
            && IsNext(f'.sent[|f.sent|], News(f.sent), (News(f.sent) + f.queue) + s'.log[|f.server.log|..])
  {
    LogHasNews(f.server, others);
    var since := LogSince(f.server, ExecuteFrom(f.server, others));
    var q := f.queue + since;
    TwoNews(f.queue, since);
    FirstIsNext(News(f.sent), q, if q == [] then Plain(DISP_HEARTBEAT) else q[0]);
    hide ExecuteFrom, News, IsNext, OnlyNews;
    assert News(f.sent) + q == (News(f.sent) + f.queue) + since;
  }

  lemma TwoNews(a: seq<Message>, b: seq<Message>)
    requires OnlyNews(a) && OnlyNews(b)
    ensures OnlyNews(a + b)
  {
  }

  /** Each turn sends the oldest of what was queued by then and has not been sent, or else, and
      only then, a heartbeat. */
  lemma EachTurnSends(s: Server, queue: seq<Message>, others: seq<seq<Command>>, i: nat)
    requires i < |others| && OnlyNews(queue)
    ensures var f := Forwarded(s, queue, others);
            |f.sent| == |others| && IsNext(f.sent[i], News(f.sent[..i]), Queued(s, queue, others[..i + 1]))
  {
    var sent := Forwarded(s, queue, others).sent;
    SentGrows(s, queue, others, i);
    SentGrows(s, queue, others, i + 1);
    LastTurnSends(s, queue, others[..i], others[i]);
    hide News, Queued, Forwarded, IsNext, OnlyNews;
    UpTo(others, i);
    UpTo(sent, i);
  }

  lemma UpTo<T>(s: seq<T>, i: nat)
    requires i < |s|
    ensures s[..i + 1] == s[..i] + [s[i]]
  {
  }

  // ---------------------------------------------------------------------------------
  // The whole stay
  // ---------------------------------------------------------------------------------

  lemma {:induction false} FoldNews(orders: OrderMap, ms: seq<Message>)
    ensures Fold(orders, News(ms)) == Fold(orders, ms)
  {
    if ms != [] {
      var front, last := ms[..|ms| - 1], ms[|ms| - 1];
      assert ms == front + [last];
      FoldNews(orders, front);
      FoldSnoc(orders, front, last);
      hide Fold;
      if last.mtype == DISP_HEARTBEAT {
        assert News(front) + [] == News(front);
      } else {
        FoldSnoc(orders, News(front), last);
      }
    }
  }

  /** A display that registers, is sent a snapshot and then stays for some turns: what it has
      been sent and what waits for it, folded from nothing, are the server's orders, whatever
      the other threads do between registration and snapshot and before each turn. */
  lemma StayConverges(cmds: seq<Command>, between: seq<Command>, ids: seq<int>, others: seq<seq<Command>>)
    requires Enumerates(ids, ExecuteAll(cmds + between).orders)
    requires forall i :: 0 <= i < |ids| ==> ids[i] in ExecuteAll(cmds + between).orders
    ensures var s, copied := ExecuteAll(cmds), ExecuteAll(cmds + between);
            && s.log <= copied.log
            && var f := Forwarded(copied, copied.log[|s.log|..], others);
               && f.server == ExecuteAll(cmds + between + Flat(others))
               && Fold(map[], SnapshotMessages(copied.orders, ids) + f.sent + f.queue) == f.server.orders
  {
    var s, copied := ExecuteAll(cmds), ExecuteAll(cmds + between);
    ExecuteMore(cmds, between);
    LogHasNews(s, between);
    var queue := copied.log[|s.log|..];
    var f := Forwarded(copied, queue, others);
    EndToEnd.JoinConverges(cmds, between, ids);
    hide ExecuteFrom, Forwarded, SnapshotMessages, Flat, Fold, ExecuteAll;
    StayQueued(cmds + between, queue, others);
    StayFolds(SnapshotMessages(copied.orders, ids), queue, f, f.server.log[|copied.log|..]);
  }

  lemma StayQueued(cmds: seq<Command>, queue: seq<Message>, others: seq<seq<Command>>)
    requires OnlyNews(queue)
    ensures var copied := ExecuteAll(cmds);
            var f := Forwarded(copied, queue, others);
            && f.server == ExecuteAll(cmds + Flat(others)) && copied.log <= f.server.log
            && News(f.sent) + f.queue == queue + f.server.log[|copied.log|..]
            && Fold(copied.orders, f.server.log[|copied.log|..]) == f.server.orders
  {
    ExecuteMore(cmds, Flat(others));
    NothingLost(ExecuteAll(cmds), queue, others);
    LateSnapshot.LogFolds(cmds, Flat(others));
    hide ExecuteFrom, Forwarded, Flat, Fold, ExecuteAll, News;
  }

  lemma StayFolds(first: seq<Message>, queue: seq<Message>, f: Forwarding, since: seq<Message>)
    requires News(f.sent) + f.queue == queue + since
    ensures Fold(map[], first + f.sent + f.queue) == Fold(Fold(map[], first + queue), since)
  {
    hide Fold, News;
    var start := Fold(map[], first);
    FoldConcat(map[], first + f.sent, f.queue);
    FoldConcat(map[], first, f.sent);
    FoldNews(start, f.sent);
    FoldConcat(start, News(f.sent), f.queue);
    FoldConcat(start, queue, since);
    FoldConcat(map[], first, queue);
  }
}
