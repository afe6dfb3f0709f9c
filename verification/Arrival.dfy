/** From every state the server's threads can reach, a new display can join, be brought up to
    date, and is sent heartbeats when there is nothing else (server.cpp, client.cpp,
    message_queue.cpp). */
module Arrival {
  import opened Wrappers
  import opened Messages
  import opened Concurrency
  import opened Progress
  import O = Orders
  import Operations
  import I = Interleavings
  import R = Replication
  import Q = QueueProtocol

  /** A client thread that has not registered and is outside the server. */
  predicate Newcomer(s: State, t: int) {
    Pc(s, t).Idle? && t !in s.links
  }

  lemma ResumeThen(s: State, a: seq<(int, Act)>, b: seq<(int, Act)>)
    ensures Resume(s, a + b) == Resume(Resume(s, a), b)
    decreases |a|
  {
    hide Step;
    if a == [] {
      assert a + b == b;
    } else {
      assert (a + b)[1..] == a[1..] + b;
      ResumeThen(Step(s, a[0].0, a[0].1), a[1..], b);
    }
  }

  lemma ResumeOne(s: State, t: int, act: Act)
    ensures Resume(s, [(t, act)]) == Step(s, t, act)
  {
    hide Step;
    assert Resume(Step(s, t, act), []) == Step(s, t, act);
  }

  lemma ResumeTwo(s: State, t: int, a: Act, b: Act)
    ensures Resume(s, [(t, a), (t, b)]) == Step(Step(s, t, a), t, b)
  {
    hide Step;
    ResumeOne(Step(s, t, a), t, b);
    assert [(t, a), (t, b)][1..] == [(t, b)];
  }

  // ---------------------------------------------------------------------------------
  // The server's mutex becomes free
  // ---------------------------------------------------------------------------------

  lemma CopyReleases(s: State, h: int) returns (act: Act)
    requires Inv(s) && s.lock == Some(h) && Pc(s, h) == InServer(CopyOrders)
    ensures act.Copy? && Work(Step(s, h, act)) < Work(s)
  {
    assert ThreadInv(s, h);
    var ids := I.Enumeration(s.server.orders.Keys);
    Enumerated(ids, s.server.orders);
    act := Copy(ids);
    hide Step, Work, Inv;
    CopyWork(s, h, ids);
  }

  lemma EnqueueReleases(s: State, h: int) returns (t: int)
    requires Inv(s) && s.lock == Some(h) && Pc(s, h).Enqueuing?
    ensures (t == h || Blocks(s, h, t)) && Work(Step(s, t, Go)) < Work(s)
  {
    assert ThreadInv(s, h);
    var q := Pc(s, h).c;
    hide Step, Work, Q.Inv;
    if QueuePc(s, q, h).EnqueueLock? && s.queues[q].lock.Some? {
      t := s.queues[q].lock.value;
      UnblockWork(s, h, t);
    } else {
      t := h;
      EnqueuingWork(s, h);
    }
  }

  /** The holder of the server's mutex, or the thread it waits for, gets closer to giving it back. */
  lemma HolderReleases(s: State, h: int) returns (t: int, act: Act)
    requires Inv(s) && s.lock == Some(h)
    ensures (t == h || Blocks(s, h, t)) && !act.Begin?
    ensures Work(Step(s, t, act)) < Work(s)
  {
    assert ThreadInv(s, h) && Pc(s, h).HoldsServer();
    t, act := h, Go;
    hide Step, Work, Blocks, Q.Inv;
    if Pc(s, h).Enqueuing? {
      t := EnqueueReleases(s, h);
    } else if Pc(s, h).InServer? && Pc(s, h).op.Serve? {
      ServeWork(s, h);
    } else if Pc(s, h).InServer? && Pc(s, h).op.CopyOrders? {
      act := CopyReleases(s, h);
    } else if Pc(s, h).InServer? {
      RegisterWork(s, h);
    } else if Pc(s, h).Broadcasting? && Pc(s, h).targets != {} {
      var d := PickOne(Pc(s, h).targets);
      act := Pick(d);
      PickWork(s, h, d);
    } else {
      NextMessageWork(s, h);
    }
  }

  /** Neither the holder nor a thread it waits for is one outside the server and its queue. */
  lemma NotTheNewcomer(s: State, h: int, u: int, t: int)
    requires Inv(s) && s.lock == Some(h) && Newcomer(s, t) && (u == h || Blocks(s, h, u))
    ensures u != t && !Pc(s, u).WantServer?
  {
    assert Pc(s, h).HoldsServer();
    assert ThreadInv(s, h);
    if u != h {
      I.QueueOwnerRuns(s, Pc(s, h).c, u);
      assert CallInv(s, Pc(s, h).c, u);
    }
    hide Q.Inv;
  }

  lemma OthersLeaveNewcomer(s: State, u: int, act: Act, t: int)
    requires Newcomer(s, t) && u != t
    ensures Newcomer(Step(s, u, act), t)
  {
    OthersStay(s, u, Effect(s, u, act), t, t);
    hide Effect;
  }

  lemma {:induction false} Release(s: State, t: int) returns (more: seq<(int, Act)>)
    requires Inv(s) && Newcomer(s, t)
    ensures |more| <= Work(s)
    ensures var s' := Resume(s, more);
            Inv(s') && Newcomer(s', t) && s'.lock == None && s'.server == Finished(s)
    decreases Work(s)
  {
    hide Step, Inv, Newcomer, Work;
    if s.lock == None {
      more := [];
    } else {
      var u, act := HolderReleases(s, s.lock.value);
      NotTheNewcomer(s, s.lock.value, u, t);
      StepKeepsInv(s, u, act);
      FinishedKept(s, u, act);
      OthersLeaveNewcomer(s, u, act, t);
      var rest := Release(Step(s, u, act), t);
      more := [(u, act)] + rest;
      assert more[1..] == rest;
    }
  }

  // ---------------------------------------------------------------------------------
  // Joining
  // ---------------------------------------------------------------------------------

  lemma Enters(s: State, t: int, op: Op)
    requires Pc(s, t).Idle? && s.lock == None && Allowed(LinkOf(s, t), op)
    ensures var s' := Resume(s, [(t, Begin(op)), (t, Go)]);
            && Pc(s', t) == InServer(op) && s'.lock == Some(t)
            && s'.server == s.server && LinkOf(s', t) == LinkOf(s, t)
  {
    ResumeTwo(s, t, Begin(op), Go);
    hide Resume;
  }

  lemma LeavesRegistered(s: State, t: int)
    requires Pc(s, t) == InServer(Register)
    ensures var s' := Resume(s, [(t, Go), (t, Go)]);
            && Pc(s', t).Idle? && s'.lock == None && s'.server == s.server
            && LinkOf(s', t) == Some(Link(R.Registered, map[], [], [], |s.server.log|))
  {
    ResumeTwo(s, t, Go, Go);
    hide Resume;
  }

  lemma LeavesCopied(s: State, t: int) returns (ids: seq<int>)
    requires Pc(s, t) == InServer(CopyOrders) && t in s.links
    ensures var s' := Resume(s, [(t, Copy(ids)), (t, Go)]);
            && Pc(s', t).Idle? && s'.lock == None && s'.server == s.server && Live(s', t)
  {
    ids := I.Enumeration(s.server.orders.Keys);
    Enumerated(ids, s.server.orders);
    ResumeTwo(s, t, Copy(ids), Go);
    hide Resume, R.Enumerates;
  }

  /** A client thread alone at the server takes eight steps to register and get its snapshot. */
  lemma Joins(s: State, t: int) returns (more: seq<(int, Act)>)
    requires Newcomer(s, t) && s.lock == None
    ensures |more| == 8
    ensures var s' := Resume(s, more);
            Live(s', t) && Pc(s', t).Idle? && s'.lock == None && s'.server == s.server
  {
    hide Step, Resume;
    Enters(s, t, Register);
    var enter := [(t, Begin(Register)), (t, Go)];
    var s1 := Resume(s, enter);
    LeavesRegistered(s1, t);
    var leave := [(t, Go), (t, Go)];
    var s2 := Resume(s1, leave);
    Enters(s2, t, CopyOrders);
    var again := [(t, Begin(CopyOrders)), (t, Go)];
    var s3 := Resume(s2, again);
    var ids := LeavesCopied(s3, t);
    var copy := [(t, Copy(ids)), (t, Go)];
    ResumeThen(s, enter, leave);
    ResumeThen(s, enter + leave, again);
    ResumeThen(s, enter + leave + again, copy);
    more := enter + leave + again + copy;
  }

  lemma {:induction false} ResumeKeepsInv(s: State, steps: seq<(int, Act)>)
    requires Inv(s)
    ensures Inv(Resume(s, steps))
    decreases |steps|
  {
    hide Step, Inv;
    if steps != [] {
      StepKeepsInv(s, steps[0].0, steps[0].1);
      ResumeKeepsInv(Step(s, steps[0].0, steps[0].1), steps[1..]);
    }
  }

  lemma NewStays(s: State, t: int)
    requires Inv(s) && Live(s, t) && Pc(s, t).Idle?
    ensures Stays(s, t)
  {
  }

  /** From every state the threads can reach, a client thread that has not registered can become
      a display that holds exactly the server's orders, with nothing under way: at most Work
      steps free the server, eight join it, and the rest deliver. */
  lemma AnyoneCanJoin(steps: seq<(int, Act)>, t: int) returns (more: seq<(int, Act)>)
    requires Newcomer(Run(steps), t)
    ensures Run(steps + more).server == Finished(Run(steps))
    ensures var s := Run(steps + more);
            && Live(s, t) && t in s.queues && s.lock == None
            && I.UnderWay(s, t) == [] && s.links[t].replica == s.server.orders
  {
    hide Run, Resume, Step, Inv, Newcomer, Distance, Work, I.UnderWay;
    RunKeepsInv(steps);
    var free := Release(Run(steps), t);
    ResumeRuns(steps, free);
    var join := Joins(Run(steps + free), t);
    ResumeRuns(steps + free, join);
    var joined := steps + free + join;
    RunKeepsInv(joined);
    NewStays(Run(joined), t);
    var rest := EveryInterleavingCanConverge(joined, t);
    more := free + join + rest;
    assert joined + rest == steps + more;
  }

  // ---------------------------------------------------------------------------------
  // Heartbeats
  // ---------------------------------------------------------------------------------

  lemma TimesOut(s: State, c: int)
    requires Inv(s) && Stays(s, c) && Pc(s, c).Idle? && s.links[c].outbox == [] && s.queues[c].sem == 0
    ensures var s' := Resume(s, [(c, BeginDequeue), (c, TimeOut)]);
            && Pc(s', c).Idle? && s'.server == s.server
            && c in s'.queues && s'.queues[c].items == s.queues[c].items
            && LinkOf(s', c) == Some(s.links[c].(outbox := [Plain(DISP_HEARTBEAT)]))
  {
    assert CallInv(s, c, c);
    OutsideIdle(s, c, c);
    ResumeTwo(s, c, BeginDequeue, TimeOut);
    hide Resume, Inv, Q.Inv, Plain;
  }

  lemma Sends(s: State, c: int)
    requires Pc(s, c).Idle? && c in s.links && s.links[c].outbox != []
    ensures var s' := Resume(s, [(c, Send)]); var l := s.links[c];
            && LinkOf(s', c) == Some(l.(wire := l.wire + [l.outbox[0]], outbox := l.outbox[1..]))
            && Pc(s', c).Idle? && s'.server == s.server && s'.queues == s.queues
  {
    ResumeOne(s, c, Send);
    hide Resume;
  }

  /** When its queue has nothing for it, a display's client thread can time out, and what it
      then sends is a heartbeat and nothing else. */
  lemma SendsHeartbeat(s: State, c: int)
    requires Inv(s) && Stays(s, c) && Pc(s, c).Idle? && s.links[c].outbox == [] && s.queues[c].sem == 0
    ensures var s' := Resume(s, [(c, BeginDequeue), (c, TimeOut)] + [(c, Send)]);
            && Pc(s', c).Idle? && s'.server == s.server
            && c in s'.queues && s'.queues[c].items == s.queues[c].items
            && c in s'.links
            && exists m :: Operations.OnlyText(m, DISP_HEARTBEAT, "")
                           && s'.links[c] == s.links[c].(wire := s.links[c].wire + [m])
  {
    TimesOut(s, c);
    Sends(Resume(s, [(c, BeginDequeue), (c, TimeOut)]), c);
    ResumeThen(s, [(c, BeginDequeue), (c, TimeOut)], [(c, Send)]);
    var m := Plain(DISP_HEARTBEAT);
    assert Operations.OnlyText(m, DISP_HEARTBEAT, "");
    hide Resume, Inv, Operations.OnlyText, Plain;
  }
}
