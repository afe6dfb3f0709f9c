/** From every state the server's threads can reach, a display that stays can be brought up to
    date by boundedly many of their steps (server.cpp, client.cpp, message_queue.cpp). */
module Progress {
  import opened Wrappers
  import opened Messages
  import O = Orders
  import Accounting
  import Model
  import opened Concurrency
  import I = Interleavings
  import R = Replication
  import Q = QueueProtocol

  /** The client of the display is being destroyed. */
  predicate Leaves(s: State, c: int) {
    Pc(s, c) == WantServer(Unregister) || Pc(s, c) == InServer(Unregister)
  }

  // ---------------------------------------------------------------------------------
  // How far there is to go
  // ---------------------------------------------------------------------------------

  /** Steps until the thread that holds a queue's mutex gives it back. */
  function Delay(q: Q.Queue<Message>): nat {
    if q.lock.None? then 0
    else
      match Q.PcOf(q, q.lock.value)
      case DequeueFront => 3
      case DequeuePop(_) => 2
      case DequeueUnlock(_) => 1
      case _ => 0
  }

  /** Steps until a thread leaves enqueue; the push counts for the steps it adds elsewhere. */
  function EnqueueWork(q: Q.Queue<Message>, t: int): nat {
    match Q.PcOf(q, t)
    case EnqueueLock(_) => 12 + Delay(q)
    case EnqueuePush(_) => 11
    case EnqueueUnlock => 2
    case EnqueuePost => 1
    case _ => 0
  }

  /** A bound on the steps for one message to n displays. */
  function Round(n: nat): nat {
    16 * n + 1
  }

  function Rounds(k: int, n: nat): nat {
    if k <= 0 then 0 else Rounds(k - 1, n) + Round(n)
  }

  /** Steps until the holder of the server's mutex gives it back, with n displays registered. */
  function HolderWork(pc: PC, n: nat, enqueue: nat): nat {
    match pc
    case InServer(Serve(_)) => 2 * Round(n) + 2
    case InServer(_) => 2
    case Broadcasting(todo, targets) => Rounds(|todo| - 1, n) + 16 * |targets| + 2
    case Enqueuing(_, todo, targets) =>
      Rounds(|todo| - 1, n) + 16 * (if targets == {} then 0 else |targets| - 1) + enqueue + 2
    case Leaving => 1
    case _ => 0
  }

  function EnqueueWorkOf(s: State, t: int): nat {
    var pc := Pc(s, t);
    if pc.Enqueuing? && pc.c in s.queues then EnqueueWork(s.queues[pc.c], t) else 0
  }

  function Work(s: State): nat {
    if s.lock.None? then 0
    else HolderWork(Pc(s, s.lock.value), |s.links.Keys|, EnqueueWorkOf(s, s.lock.value))
  }

  /** Steps of the client thread and the display for what is in the queue and in hand. */
  function QueueDistance(items: nat, own: Q.PC<Message>): nat {
    match own
    case DequeueWait => if items == 0 then 0 else 8 * items - 1
    case DequeueLock => if items == 0 then 0 else 8 * items - 2
    case DequeueFront => if items == 0 then 0 else 8 * items - 3
    case DequeuePop(_) => if items == 0 then 0 else 8 * items - 4
    case DequeueUnlock(_) => 8 * items + 3
    case _ => 8 * items
  }

  function Distance(s: State, c: int): nat
    requires c in s.links && c in s.queues
  {
    |s.links[c].wire| + 2 * |s.links[c].outbox| + QueueDistance(|s.queues[c].items|, QueuePc(s, c, c))
  }

  /** A bound on the steps that bring the display up to date. */
  function Remaining(s: State, c: int): nat
    requires c in s.links && c in s.queues
  {
    Work(s) + Distance(s, c)
  }

  // ---------------------------------------------------------------------------------
  // Steps of the holder of the server's mutex
  // ---------------------------------------------------------------------------------

  /** The server's data once the operation whose turn it is has run. */
  function Finished(s: State): O.Server {
    if s.lock.Some? && Pc(s, s.lock.value).InServer? && Pc(s, s.lock.value).op.Serve?
    then O.Execute(s.server, Pc(s, s.lock.value).op.cmd) else s.server
  }

  /** The steps of other threads change a display's distance only by a push, and then by 8. */
  lemma OthersDistance(s: State, t: int, act: Act, c: int)
    requires Inv(s) && t != c && c in s.links
    ensures var s' := Step(s, t, act);
            && c in s'.links && c in s'.queues
            && s'.links[c] == s.links[c]
            && Distance(s', c) <= Distance(s, c) + (if act.Go? && QueuePc(s, c, t).EnqueuePush? then 8 else 0)
  {
    var ch := Effect(s, t, act);
    assert CallInv(s, c, t);
    OthersStay(s, t, ch, c, c);
    if ch.queue.Move? && ch.queue.c == c {
      QueueContents(s.queues[c], t, ch.queue.move);
      MovesAreOwn(s, t, act);
    }
    hide Q.Step, Q.Inv, Effect;
  }

  lemma MovesAreOwn(s: State, t: int, act: Act)
    ensures var ch := Effect(s, t, act); ch.queue.Move? && ch.queue.move.Go? ==> act.Go?
  {
    hide O.Execute, O.Events;
  }

  /** Where the holder's step leads. */
  lemma HolderStep(s: State, h: int, act: Act)
    requires Inv(s) && s.lock == Some(h)
    ensures var ch := Effect(s, h, act); var s' := Step(s, h, act);
            && s'.lock == ch.lock && (ch.lock == Some(h) || ch.lock == None)
            && Pc(s', h) == ch.pc
  {
    LockChanges(s, h, act);
    hide Effect;
    assert Pc(s, h).HoldsServer();
  }

  // Inside a queue.

  lemma EnqueueGoes(q: Q.Queue<Message>, t: int)
    requires Q.PcOf(q, t).InEnqueue() && (Q.PcOf(q, t).EnqueueLock? ==> q.lock == None)
    ensures EnqueueWork(Q.Step(q, t, Q.Go), t) + (if Q.PcOf(q, t).EnqueuePush? then 9 else 1) <= EnqueueWork(q, t)
  {
  }

  lemma EnqueueStarts(q: Q.Queue<Message>, t: int, m: Message)
    requires Q.Inv(q) && Q.PcOf(q, t).Idle?
    ensures EnqueueWork(Q.Step(q, t, Q.StartEnqueue(m)), t) <= 15
  {
  }

  lemma DequeueGoes(q: Q.Queue<Message>, u: int)
    requires Q.Inv(q) && q.lock == Some(u) && Q.PcOf(q, u).InDequeue()
    ensures Delay(Q.Step(q, u, Q.Go)) < Delay(q)
  {
    assert Q.PcOf(q, u).Holds();
    if Q.PcOf(q, u).WaitedNotPopped() {
      Q.GrantedMeansNonEmpty(q, u);
    }
    hide Q.Inv;
  }

  // The holder of the server's mutex.

  lemma ServeStep(s: State, h: int)
    requires Inv(s) && s.lock == Some(h) && Pc(s, h).InServer? && Pc(s, h).op.Serve?
    ensures var s', events := Step(s, h, Go), O.Events(s.server, Pc(s, h).op.cmd);
            && Pc(s', h) == (if events == [] then Leaving else Broadcasting(events, s.links.Keys))
            && s'.links.Keys == s.links.Keys
  {
    assert ThreadInv(s, h);
    hide O.Execute, O.Events, Inv;
  }

  lemma ServeWork(s: State, h: int)
    requires Inv(s) && s.lock == Some(h) && Pc(s, h).InServer? && Pc(s, h).op.Serve?
    ensures Work(Step(s, h, Go)) < Work(s)
  {
    HolderStep(s, h, Go);
    ServeStep(s, h);
    Accounting.EventsAbout(s.server, Pc(s, h).op.cmd);
    hide O.Execute, O.Events, Inv, Step, EnqueueWorkOf, HolderWork;
    var s' := Step(s, h, Go);
    ServeValue(Pc(s, h), O.Events(s.server, Pc(s, h).op.cmd), s.links.Keys, EnqueueWorkOf(s, h), EnqueueWorkOf(s', h));
  }

  lemma ServeValue(pc: PC, events: seq<Message>, targets: set<int>, before: nat, after: nat)
    requires pc.InServer? && pc.op.Serve? && |events| <= 2
    ensures var n := |targets|;
            && 0 < HolderWork(Leaving, n, after) < HolderWork(pc, n, before)
            && HolderWork(Broadcasting(events, targets), n, after) < HolderWork(pc, n, before)
  {
    var n := |targets|;
    assert Rounds(0, n) == 0 && Rounds(1, n) == Round(n);
  }

  lemma RegisterWork(s: State, h: int)
    requires Inv(s) && s.lock == Some(h) && Pc(s, h).InServer? && (Pc(s, h).op.Register? || Pc(s, h).op.Unregister?)
    ensures Work(Step(s, h, Go)) < Work(s)
  {
    HolderStep(s, h, Go);
    assert Pc(Step(s, h, Go), h).Leaving?;
    hide Inv, Step;
  }

  lemma CopyWork(s: State, h: int, ids: seq<int>)
    requires Inv(s) && s.lock == Some(h) && Pc(s, h) == InServer(CopyOrders) && h in s.links
    requires R.Enumerates(ids, s.server.orders) && forall i :: 0 <= i < |ids| ==> ids[i] in s.server.orders
    ensures Work(Step(s, h, Copy(ids))) < Work(s)
  {
    HolderStep(s, h, Copy(ids));
    hide Inv, R.Enumerates;
  }

  lemma NextMessageWork(s: State, h: int)
    requires Inv(s) && s.lock == Some(h) && (Pc(s, h).Leaving? || (Pc(s, h).Broadcasting? && Pc(s, h).targets == {}))
    ensures Work(Step(s, h, Go)) < Work(s)
  {
    HolderStep(s, h, Go);
    var s' := Step(s, h, Go);
    NextMessageStep(s, h);
    hide Inv, Step, EnqueueWorkOf, HolderWork;
    NextValue(Pc(s, h), s.links.Keys, EnqueueWorkOf(s, h), EnqueueWorkOf(s', h));
  }

  lemma NextValue(pc: PC, targets: set<int>, before: nat, after: nat)
    requires pc.Leaving? || (pc.Broadcasting? && pc.targets == {})
    ensures var n := |targets|;
            && (pc.Leaving? ==> HolderWork(pc, n, before) > 0)
            && (pc.Broadcasting? ==>
                  HolderWork(if |pc.todo| <= 1 then Leaving else Broadcasting(pc.todo[1..], targets), n, after)
                  < HolderWork(pc, n, before))
  {
  }

  lemma NextMessageStep(s: State, h: int)
    requires Pc(s, h).Leaving? || (Pc(s, h).Broadcasting? && Pc(s, h).targets == {})
    ensures var s', pc := Step(s, h, Go), Pc(s, h);
            && s'.links.Keys == s.links.Keys
            && if pc.Leaving? then s'.lock == None
               else Pc(s', h) == if |pc.todo| <= 1 then Leaving else Broadcasting(pc.todo[1..], s.links.Keys)
  {
    hide O.Execute, O.Events;
  }

  lemma PickWork(s: State, h: int, c: int)
    requires Inv(s) && s.lock == Some(h) && Pc(s, h).Broadcasting? && c in Pc(s, h).targets
    ensures Work(Step(s, h, Pick(c))) < Work(s)
  {
    assert ThreadInv(s, h) && CallInv(s, c, h);
    HolderStep(s, h, Pick(c));
    OutsideIdle(s, c, h);
    EnqueueStarts(s.queues[c], h, Pc(s, h).todo[0]);
    hide Inv, Q.Inv, Q.Step, EnqueueWork;
  }

  lemma EnqueuingWork(s: State, h: int)
    requires Inv(s) && s.lock == Some(h) && Pc(s, h).Enqueuing?
    requires QueuePc(s, Pc(s, h).c, h).EnqueueLock? ==> s.queues[Pc(s, h).c].lock == None
    ensures Work(Step(s, h, Go)) + (if QueuePc(s, Pc(s, h).c, h).EnqueuePush? then 9 else 1) <= Work(s)
  {
    assert ThreadInv(s, h);
    HolderStep(s, h, Go);
    EnqueueGoes(s.queues[Pc(s, h).c], h);
    hide Inv, Q.Inv, Q.Step, EnqueueWork;
  }

  /** The thread that holds the mutex of the queue the holder waits for. */
  lemma UnblockWork(s: State, h: int, u: int)
    requires Inv(s) && s.lock == Some(h) && Pc(s, h).Enqueuing? && QueuePc(s, Pc(s, h).c, h).EnqueueLock?
    requires s.queues[Pc(s, h).c].lock == Some(u)
    ensures u == Pc(s, h).c && Pc(s, u).Dequeuing? && Work(Step(s, u, Go)) < Work(s)
  {
    var c := Pc(s, h).c;
    assert ThreadInv(s, h) && ThreadInv(s, u);
    I.QueueOwnerRuns(s, c, u);
    assert Pc(s, h).HoldsServer() && s.lock == Some(u) <==> Pc(s, u).HoldsServer();
    DequeueGoes(s.queues[c], u);
    OthersStay(s, u, Effect(s, u, Go), c, h);
    LockChanges(s, u, Go);
    EffectLinked(s, u, Go);
    hide Inv, Q.Inv, Q.Step, Delay;
  }

  // ---------------------------------------------------------------------------------
  // Steps of the display's own client thread
  // ---------------------------------------------------------------------------------

  /** A live display that stays: its client thread is idle, dequeuing, or about to give back the
      server's mutex after the snapshot. */
  predicate Stays(s: State, c: int) {
    c in s.links && c in s.queues && Live(s, c) && !Leaves(s, c)
  }

  lemma StayingPosition(s: State, c: int)
    requires Inv(s) && Stays(s, c)
    ensures Pc(s, c).Idle? || Pc(s, c).Dequeuing? || Pc(s, c).HoldsServer()
    ensures !Pc(s, c).InServer?
  {
    assert ThreadInv(s, c);
    hide Inv, Q.Inv;
  }

  lemma QueueGoes(q: Q.Queue<Message>, c: int)
    requires Q.Inv(q) && Q.PcOf(q, c).InDequeue()
    requires Q.PcOf(q, c).DequeueWait? ==> q.sem > 0 && q.items != []
    requires Q.PcOf(q, c).DequeueLock? ==> q.lock == None
    ensures var q', m := Q.Step(q, c, Q.Go), Q.PcOf(q, c);
            QueueDistance(|q'.items|, Q.PcOf(q', c)) + (if m.DequeueUnlock? then 3 else 1)
            <= QueueDistance(|q.items|, m)
  {
    if Q.PcOf(q, c).WaitedNotPopped() {
      Q.GrantedMeansNonEmpty(q, c);
    }
    hide Q.Inv;
  }

  lemma DequeuingAdvances(s: State, c: int)
    requires Inv(s) && Stays(s, c) && Pc(s, c).Dequeuing?
    requires QueuePc(s, c, c).DequeueWait? ==> s.queues[c].sem > 0 && s.queues[c].items != []
    requires QueuePc(s, c, c).DequeueLock? ==> s.queues[c].lock == None
    ensures var s' := Step(s, c, Go);
            && Stays(s', c) && Distance(s', c) < Distance(s, c) && s'.lock == s.lock
            && (Pc(s', c).Idle? || Pc(s', c).Dequeuing?)
  {
    assert ThreadInv(s, c);
    QueueGoes(s.queues[c], c);
    hide Inv, Q.Inv, Q.Step, QueueDistance;
  }

  /** With the server's mutex free and no one else at the queue, each queued message has a unit
      of the semaphore. */
  lemma QueueIsQuiet(s: State, c: int)
    requires Inv(s) && Stays(s, c) && s.lock == None
    ensures QueuePc(s, c, c).DequeueWait? ==> s.queues[c].sem == |s.queues[c].items|
    ensures QueuePc(s, c, c).DequeueLock? ==> s.queues[c].lock == None
  {
    var q := s.queues[c];
    forall t: int
      ensures QueuePc(s, c, t).Idle? || (t == c && QueuePc(s, c, t).InDequeue())
    {
      assert CallInv(s, c, t);
      assert s.lock == Some(t) <==> Pc(s, t).HoldsServer();
    }
    if QueuePc(s, c, c).DequeueWait? {
      forall t: int
        ensures t !in Q.Consumers(q) && t !in Q.Producers(q)
      {
        assert QueuePc(s, c, t).Idle? || t == c;
      }
      assert Q.Consumers(q) == {} && Q.Producers(q) == {};
      assert Q.Counted(q);
    }
    if q.lock.Some? {
      assert Q.Exclusive(q);
      assert QueuePc(s, c, q.lock.value).Holds();
    }
  }

  lemma ReceiveAdvances(s: State, c: int)
    requires Inv(s) && Stays(s, c) && s.links[c].wire != []
    ensures var s' := Step(s, c, Receive);
            Stays(s', c) && Distance(s', c) < Distance(s, c) && s'.lock == s.lock
  {
    hide Inv, Q.Inv, QueueDistance;
  }

  lemma IdleAdvances(s: State, c: int)
    requires Inv(s) && Stays(s, c) && Pc(s, c).Idle? && (s.links[c].outbox != [] || s.queues[c].items != [])
    ensures var s' := Step(s, c, if s.links[c].outbox != [] then Send else BeginDequeue);
            Stays(s', c) && Distance(s', c) < Distance(s, c) && s'.lock == s.lock
  {
    assert CallInv(s, c, c);
    OutsideIdle(s, c, c);
    QueueStepOwn(s.queues[c], c, Q.StartDequeue);
    QueueContents(s.queues[c], c, Q.StartDequeue);
    hide Inv, Q.Inv, Q.Step;
  }

  /** With the server's mutex free, a step of the display or its client thread gets closer. */
  lemma DeliveryAdvances(s: State, c: int) returns (act: Act)
    requires Inv(s) && Stays(s, c) && s.lock == None && Distance(s, c) > 0
    ensures !act.Begin? && !Pc(s, c).WantServer?
    ensures var s' := Step(s, c, act);
            Stays(s', c) && Distance(s', c) < Distance(s, c) && s'.lock == None
  {
    hide Step, Q.Inv;
    assert ThreadInv(s, c) && CallInv(s, c, c);
    assert s.lock == Some(c) <==> Pc(s, c).HoldsServer();
    StayingPosition(s, c);
    QueueIsQuiet(s, c);
    if s.links[c].wire != [] {
      act := Receive;
      ReceiveAdvances(s, c);
    } else if Pc(s, c).Idle? {
      OutsideIdle(s, c, c);
      act := if s.links[c].outbox != [] then Send else BeginDequeue;
      IdleAdvances(s, c);
    } else {
      act := Go;
      if QueuePc(s, c, c).DequeueWait? {
        assert s.queues[c].items != [];
      }
      DequeuingAdvances(s, c);
    }
  }

  // ---------------------------------------------------------------------------------
  // Getting there
  // ---------------------------------------------------------------------------------

  /** Steps of other threads leave a display that stays where it is. */
  lemma OthersStaying(s: State, t: int, act: Act, c: int)
    requires Inv(s) && t != c && Stays(s, c)
    ensures Stays(Step(s, t, act), c)
    ensures Distance(Step(s, t, act), c) <= Distance(s, c) + (if act.Go? && QueuePc(s, c, t).EnqueuePush? then 8 else 0)
  {
    OthersDistance(s, t, act, c);
    OthersStay(s, t, Effect(s, t, act), c, c);
    hide Inv, Effect, Q.Inv, Distance;
  }

  /** The holder of the server's mutex gives it back. */
  lemma LeavingAdvances(s: State, c: int)
    requires Inv(s) && Stays(s, c) && s.lock == Some(c) && Pc(s, c).Leaving?
    ensures var s' := Step(s, c, Go);
            Stays(s', c) && Distance(s', c) == Distance(s, c) && Work(s') < Work(s)
  {
    NextMessageWork(s, c);
    hide Inv, Q.Inv, Work, QueueDistance;
  }

  /** A live display's client thread holds the server's mutex only to give it back. */
  lemma OwnHolderLeaves(s: State, c: int)
    requires Inv(s) && Stays(s, c) && s.lock == Some(c)
    ensures Pc(s, c).Leaving?
  {
    assert ThreadInv(s, c);
    hide Q.Inv;
  }

  /** The thread owns the queue's mutex that the holder of the server's waits for. */
  predicate Blocks(s: State, h: int, t: int) {
    Pc(s, h).Enqueuing? && QueuePc(s, Pc(s, h).c, h).EnqueueLock? && I.Owns(s, t, I.QueueLock(Pc(s, h).c))
  }

  lemma EnqueuingAdvances(s: State, h: int, c: int) returns (t: int)
    requires Inv(s) && Stays(s, c) && s.lock == Some(h) && h != c && Pc(s, h).Enqueuing?
    ensures (t == h || Blocks(s, h, t)) && !Pc(s, t).WantServer?
    ensures Stays(Step(s, t, Go), c) && Remaining(Step(s, t, Go), c) < Remaining(s, c)
  {
    assert ThreadInv(s, h);
    var q := Pc(s, h).c;
    if QueuePc(s, q, h).EnqueueLock? && s.queues[q].lock.Some? {
      t := s.queues[q].lock.value;
      UnblockWork(s, h, t);
      if t == c {
        I.QueueOwnerRuns(s, q, t);
        hide Step, Work, Distance, Q.Inv;
        DequeuingAdvances(s, c);
      } else {
        hide Step, Work, Distance, Q.Inv;
        assert CallInv(s, c, t);
        OthersStaying(s, t, Go, c);
      }
    } else {
      t := h;
      assert CallInv(s, c, h);
      hide Step, Work, Distance, Q.Inv;
      EnqueuingWork(s, h);
      OthersStaying(s, h, Go, c);
    }
  }

  /** While the server's mutex is held, its holder, or the thread that holds the queue's mutex
      it waits for, gets closer to giving it back. */
  lemma HolderAdvances(s: State, h: int, c: int) returns (t: int, act: Act)
    requires Inv(s) && Stays(s, c) && s.lock == Some(h)
    ensures (t == h || (Blocks(s, h, t) && act.Go?)) && !act.Begin? && !Pc(s, t).WantServer?
    ensures Stays(Step(s, t, act), c) && Remaining(Step(s, t, act), c) < Remaining(s, c)
  {
    assert ThreadInv(s, h) && CallInv(s, c, h) && Pc(s, h).HoldsServer();
    t, act := h, Go;
    if h == c {
      OwnHolderLeaves(s, c);
      LeavingAdvances(s, c);
    } else if Pc(s, h).Enqueuing? {
      t := EnqueuingAdvances(s, h, c);
    } else {
      hide Step, Work, Distance, Q.Inv;
      if Pc(s, h).InServer? && Pc(s, h).op.Serve? {
        ServeWork(s, h);
      } else if Pc(s, h).InServer? && Pc(s, h).op.CopyOrders? {
        var ids := I.Enumeration(s.server.orders.Keys);
        Enumerated(ids, s.server.orders);
        act := Copy(ids);
        CopyWork(s, h, ids);
      } else if Pc(s, h).InServer? {
        RegisterWork(s, h);
      } else if Pc(s, h).Broadcasting? && Pc(s, h).targets != {} {
        var d := PickOne(Pc(s, h).targets);
        act := Pick(d);
        PickWork(s, h, d);
      } else {
        NextMessageWork(s, h);
      }
      OthersStaying(s, h, act, c);
    }
  }

  lemma Enumerated(ids: seq<int>, orders: map<int, Model.Order>)
    requires forall k :: k in orders.Keys <==> k in ids
    ensures R.Enumerates(ids, orders) && forall i :: 0 <= i < |ids| ==> ids[i] in orders
  {
    forall i | 0 <= i < |ids|
      ensures ids[i] in orders
    {
      var k := ids[i];
      assert k in ids;
    }
  }

  ghost function Resume(s: State, steps: seq<(int, Act)>): State
    decreases |steps|
  {
    if steps == [] then s else Resume(Step(s, steps[0].0, steps[0].1), steps[1..])
  }

  lemma {:induction false} ResumeRuns(steps: seq<(int, Act)>, more: seq<(int, Act)>)
    ensures Resume(Run(steps), more) == Run(steps + more)
    decreases |more|
  {
    hide Step;
    if more == [] {
      assert steps + more == steps;
    } else {
      assert (steps + [more[0]])[..|steps|] == steps;
      ResumeRuns(steps + [more[0]], more[1..]);
      assert steps + [more[0]] + more[1..] == steps + more;
    }
  }

  /** As many steps as remain, at most, free the server's mutex and bring everything under way
      to the display. */
  lemma {:induction false} Settle(s: State, c: int) returns (more: seq<(int, Act)>)
    requires Inv(s) && Stays(s, c)
    ensures |more| <= Remaining(s, c) && forall i :: 0 <= i < |more| ==> !more[i].1.Begin?
    ensures var s' := Resume(s, more);
            Stays(s', c) && s'.lock == None && Distance(s', c) == 0 && s'.server == Finished(s)
    decreases Remaining(s, c)
  {
    hide Step, Inv, Stays, Distance, Work;
    StaysDefined(s, c);
    if s.lock == None && Distance(s, c) == 0 {
      more := [];
    } else {
      var t, act := Advance(s, c);
      StepKeepsInv(s, t, act);
      FinishedKept(s, t, act);
      StaysDefined(Step(s, t, act), c);
      var rest := Settle(Step(s, t, act), c);
      more := [(t, act)] + rest;
      assert more[1..] == rest;
    }
  }

  /** Steps that let no thread into the server leave what will have been done there. */
  lemma FinishedKept(s: State, t: int, act: Act)
    requires Inv(s) && !Pc(s, t).WantServer?
    ensures Finished(Step(s, t, act)) == Finished(s)
  {
    assert s.lock == Some(t) <==> Pc(s, t).HoldsServer();
    EffectServer(s, t, act);
    LockChanges(s, t, act);
    if s.lock.Some? && s.lock.value != t {
      OthersStay(s, t, Effect(s, t, act), t, s.lock.value);
    }
    hide Inv, Effect, O.Execute;
  }

  lemma EffectServer(s: State, t: int, act: Act)
    requires !Pc(s, t).WantServer?
    ensures var ch := Effect(s, t, act);
            && !(ch.pc.InServer? && ch.pc != Pc(s, t))
            && (ch.pc.InServer? ==> ch.server == s.server)
            && if Pc(s, t).InServer? && Pc(s, t).op.Serve? && act.Go?
               then ch.server == O.Execute(s.server, Pc(s, t).op.cmd) && !ch.pc.InServer? else ch.server == s.server
    ensures var ch := Effect(s, t, act);
            Pc(s, t).InServer? && Pc(s, t).op.Serve? && !act.Go? ==> ch.pc == Pc(s, t)
  {
    hide O.Execute, O.Events, Q.Step;
  }

  lemma StaysDefined(s: State, c: int)
    requires Stays(s, c)
    ensures c in s.links && c in s.queues
  {
  }

  lemma Advance(s: State, c: int) returns (t: int, act: Act)
    requires Inv(s) && Stays(s, c) && (s.lock.Some? || Distance(s, c) > 0)
    ensures !act.Begin? && !Pc(s, t).WantServer?
    ensures Stays(Step(s, t, act), c) && Remaining(Step(s, t, act), c) < Remaining(s, c)
  {
    hide Step, Inv, Distance, HolderWork;
    if s.lock.Some? {
      t, act := HolderAdvances(s, s.lock.value, c);
    } else {
      t := c;
      act := DeliveryAdvances(s, c);
    }
  }

  lemma NothingUnderWay(s: State, c: int)
    requires Inv(s) && Stays(s, c) && s.lock == None && Distance(s, c) == 0
    ensures I.UnderWay(s, c) == []
  {
    if QueuePc(s, c, c).WaitedNotPopped() {
      Q.GrantedMeansNonEmpty(s.queues[c], c);
    }
    hide Inv, Q.Inv;
  }

  /** From every state the threads can reach, at most Remaining further steps of them, none of
      which begins a new call of the server's methods, bring a live display whose client is not
      being destroyed to exactly the server's orders, with nothing under way: the orders as they
      are, or as the operation leaves them that holds the mutex and has yet to be carried out. */
  lemma EveryInterleavingCanConverge(steps: seq<(int, Act)>, c: int) returns (more: seq<(int, Act)>)
    requires c in Run(steps).queues && Stays(Run(steps), c)
    ensures |more| <= Remaining(Run(steps), c) && forall i :: 0 <= i < |more| ==> !more[i].1.Begin?
    ensures Run(steps + more).server == Finished(Run(steps))
    ensures var s := Run(steps + more);
            && Live(s, c) && c in s.queues && s.lock == None
            && I.UnderWay(s, c) == [] && s.links[c].replica == s.server.orders
  {
    hide Run, Resume, Inv, Distance, Work, I.UnderWay;
    RunKeepsInv(steps);
    more := Settle(Run(steps), c);
    ResumeRuns(steps, more);
    RunKeepsInv(steps + more);
    NothingUnderWay(Run(steps + more), c);
    I.ConcurrentConvergence(steps + more, c);
  }
}
