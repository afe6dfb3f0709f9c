/** What holds in every interleaving of the server's threads. */
module Interleavings {
  import opened Wrappers
  import opened Messages
  import opened Orders
  import R = Replication
  import Q = QueueProtocol
  import opened Concurrency

  // ---------------------------------------------------------------------------------
  // Refinement, and what it carries over
  // ---------------------------------------------------------------------------------

  /** The atomic actions a sequence of steps performs, in order. */
  ghost function Actions(steps: seq<(int, Act)>): seq<R.Action> {
    if steps == [] then []
    else
      var front, last := steps[..|steps| - 1], steps[|steps| - 1];
      var a := AbstractAction(Run(front), last.0, last.1);
      Actions(front) + if a.Some? then [a.value] else []
  }

  /** Any interleaving of the threads' steps is a run of the atomic machine. */
  lemma {:induction false} RunRefines(steps: seq<(int, Act)>)
    ensures Inv(Run(steps)) && Abs(Run(steps)) == R.Run(Actions(steps))
  {
    RunKeepsInv(steps);
    if steps != [] {
      var front, last := steps[..|steps| - 1], steps[|steps| - 1];
      RunRefines(front);
      RunKeepsInv(front);
      StepRefines(Run(front), last.0, last.1);
      var a := AbstractAction(Run(front), last.0, last.1);
      hide Step, AbstractAction, Inv, Abs, R.Step;
      if a.Some? {
        assert Actions(steps)[..|Actions(front)|] == Actions(front);
      } else {
        assert Actions(steps) == Actions(front);
      }
    }
  }

  /** Everything under way to a display: on its connection, with its client thread, in its
      queue, and still to be enqueued by the thread that holds the server's mutex. */
  function UnderWay(s: State, c: int): seq<Message>
    requires c in s.links && c in s.queues
  {
    s.links[c].wire + InHand(QueuePc(s, c, c), s.links[c].outbox) + s.queues[c].items + Owed(s, c)
  }

  /** Convergence under every interleaving: a display past its snapshot that applied what is
      under way to it would hold exactly the server's orders. */
  lemma ConcurrentConvergence(steps: seq<(int, Act)>, c: int)
    ensures var s := Run(steps);
            Live(s, c) ==>
              && c in s.queues
              && Fold(s.links[c].replica, UnderWay(s, c)) == s.server.orders
              && (UnderWay(s, c) == [] ==> s.links[c].replica == s.server.orders)
  {
    var s := Run(steps);
    RunRefines(steps);
    if Live(s, c) {
      R.Convergence(Actions(steps), c);
      assert c in Abs(s).displays && Abs(s).displays[c] == AbsAt(s, c);
      assert R.Undelivered(AbsAt(s, c)) == UnderWay(s, c);
    }
  }

  lemma EachHasQueue(s: State)
    requires Inv(s)
    ensures s.queues.Keys == s.links.Keys
    ensures s.lock == None ==> forall c :: c in s.links ==> Owed(s, c) == []
  {
  }

  /** Whatever the order the loop over the displays takes, each queue receives a contiguous
      stretch of the log from the display's registration on, all of it once the mutex is free. */
  lemma QueueReceivesLogSegment(steps: seq<(int, Act)>, c: int)
    ensures var s := Run(steps);
            c in s.links ==>
              var start := s.links[c].start;
              && c in s.queues
              && start + |s.queues[c].pushed| <= |s.server.log|
              && s.queues[c].pushed == s.server.log[start..start + |s.queues[c].pushed|]
              && (s.lock == None ==> s.queues[c].pushed == s.server.log[start..])
  {
    hide Run, R.Run, Inv, Actions;
    var s := Run(steps);
    RunRefines(steps);
    EachHasQueue(s);
    R.HistoryIsLogSegment(Actions(steps), c);
    if c in s.links {
      assert c in Abs(s).displays && Abs(s).displays[c] == AbsAt(s, c);
      if s.lock == None {
        assert R.LockFree(Abs(s));
      }
    }
  }

  /** Two threads are never both inside the server's critical sections. */
  lemma ServerExclusion(steps: seq<(int, Act)>, t: int, u: int)
    ensures var s := Run(steps); Pc(s, t).HoldsServer() && Pc(s, u).HoldsServer() ==> t == u
  {
    hide Run;
    RunKeepsInv(steps);
    if Pc(Run(steps), t).HoldsServer() && Pc(Run(steps), u).HoldsServer() {
      OnlyHolder(Run(steps), t, u);
    }
  }

  /** front() never meets an empty deque, in any queue. */
  lemma NoEmptyFront(steps: seq<(int, Act)>, c: int)
    ensures c in Run(steps).queues ==> !Run(steps).queues[c].crashed
  {
    RunKeepsInv(steps);
  }

  // ---------------------------------------------------------------------------------
  // Deadlock freedom
  // ---------------------------------------------------------------------------------

  datatype Lock = ServerLock | QueueLock(c: int)

  /** The mutex a thread is about to lock. */
  function Wants(s: State, t: int): Option<Lock> {
    var pc := Pc(s, t);
    if pc.WantServer? then Some(ServerLock)
    else if pc.Enqueuing? && QueuePc(s, pc.c, t).EnqueueLock? then Some(QueueLock(pc.c))
    else if pc.Dequeuing? && QueuePc(s, t, t).DequeueLock? then Some(QueueLock(t))
    else None
  }

  predicate Owns(s: State, t: int, l: Lock) {
    match l
    case ServerLock => s.lock == Some(t)
    case QueueLock(c) => c in s.queues && s.queues[c].lock == Some(t)
  }

  predicate WaitsFor(s: State, t: int, u: int) {
    Wants(s, t).Some? && Owns(s, u, Wants(s, t).value)
  }

  /** Locks are taken in rank order: the server's mutex first, then one queue's. */
  function Rank(l: Lock): nat {
    if l.ServerLock? then 0 else 1
  }

  /** The owner of a queue's mutex is running: it is not about to lock anything. */
  lemma QueueOwnerRuns(s: State, c: int, u: int)
    requires Inv(s) && Owns(s, u, QueueLock(c))
    ensures Wants(s, u) == None
    ensures QueuePc(s, c, u).Holds()
    ensures (Pc(s, u).Enqueuing? && Pc(s, u).c == c) || (Pc(s, u).Dequeuing? && u == c)
  {
    assert Q.Exclusive(s.queues[c]);
    assert CallInv(s, c, u);
  }

  /** A thread that owns one mutex and waits for another waits for one of higher rank. */
  lemma RankIncreases(s: State, t: int, l: Lock)
    requires Inv(s) && Owns(s, t, l) && Wants(s, t).Some?
    ensures Rank(l) < Rank(Wants(s, t).value)
  {
    if l.QueueLock? {
      QueueOwnerRuns(s, l.c, t);
    } else {
      assert s.lock == Some(t) <==> Pc(s, t).HoldsServer();
    }
  }

  ghost predicate WaitPath(s: State, p: seq<int>) {
    forall i :: 0 <= i < |p| - 1 ==> WaitsFor(s, p[i], p[i + 1])
  }

  lemma {:induction false} RanksAlongPath(s: State, p: seq<int>)
    requires Inv(s) && |p| >= 2 && WaitPath(s, p) && Wants(s, p[|p| - 1]).Some?
    ensures Wants(s, p[0]).Some? && Rank(Wants(s, p[0]).value) < Rank(Wants(s, p[|p| - 1]).value)
    decreases |p|
  {
    assert WaitsFor(s, p[0], p[1]);
    var l := Wants(s, p[0]).value;
    if |p| == 2 {
      RankIncreases(s, p[1], l);
    } else {
      var rest := p[1..];
      forall i | 0 <= i < |rest| - 1
        ensures WaitsFor(s, rest[i], rest[i + 1])
      {
        assert WaitsFor(s, p[i + 1], p[i + 1 + 1]);
      }
      assert WaitsFor(s, p[1], p[2]);
      RanksAlongPath(s, rest);
      RankIncreases(s, p[1], l);
    }
  }

  /** No reachable state has a cycle of threads each waiting for a mutex the next one holds. */
  lemma NoWaitCycle(steps: seq<(int, Act)>, p: seq<int>)
    requires |p| >= 2 && p[0] == p[|p| - 1]
    ensures !WaitPath(Run(steps), p)
  {
    var s := Run(steps);
    RunKeepsInv(steps);
    if WaitPath(s, p) {
      assert WaitsFor(s, p[0], p[1]);
      RanksAlongPath(s, p);
    }
  }

  /** The step moves the thread on, in the server's methods or in a queue's. */
  ghost predicate Advances(s: State, t: int, act: Act) {
    var s' := Step(s, t, act);
    Pc(s', t) != Pc(s, t) || exists c :: QueuePc(s', c, t) != QueuePc(s, c, t)
  }

  /** Steps inside the server's and the queue's methods. */
  predicate Inside(act: Act) {
    act.Go? || act.Pick? || act.Copy?
  }

  ghost predicate CanAdvance(s: State, t: int) {
    exists act :: Inside(act) && Advances(s, t, act)
  }

  predicate FreeToLock(s: State, t: int) {
    match Wants(s, t)
    case None => false
    case Some(ServerLock) => s.lock == None
    case Some(QueueLock(c)) => c in s.queues && s.queues[c].lock == None
  }

  lemma {:induction false} Enumeration(keys: set<int>) returns (ids: seq<int>)
    ensures forall k :: k in keys <==> k in ids
  {
    if keys == {} {
      ids := [];
    } else {
      var k := PickOne(keys);
      var rest := Enumeration(keys - {k});
      ids := rest + [k];
    }
  }

  lemma QueueGoMoves(q: Q.Queue<Message>, t: int)
    requires Q.Inv(q)
    requires Q.PcOf(q, t).Holds() || Q.PcOf(q, t).EnqueuePost? || (Q.PcOf(q, t).WantsLock() && q.lock == None)
    ensures Q.PcOf(Q.Step(q, t, Q.Go), t) != Q.PcOf(q, t)
  {
    if Q.PcOf(q, t).WaitedNotPopped() {
      Q.GrantedMeansNonEmpty(q, t);
    }
  }

  lemma QueueGoAdvances(s: State, t: int, c: int)
    requires Inv(s) && c in s.queues
    requires (Pc(s, t).Enqueuing? && Pc(s, t).c == c) || (Pc(s, t).Dequeuing? && c == t)
    requires Q.PcOf(Q.Step(s.queues[c], t, Q.Go), t) != QueuePc(s, c, t)
    ensures CanAdvance(s, t)
  {
    hide Q.Step, Q.Inv;
    assert QueuePc(Step(s, t, Go), c, t) != QueuePc(s, c, t);
    assert Advances(s, t, Go);
    assert Inside(Go);
  }

  /** The holder of the server's mutex can go on unless it waits for a queue's. */
  lemma HolderAdvances(s: State, t: int)
    requires Inv(s) && Pc(s, t).HoldsServer() && (Wants(s, t).None? || FreeToLock(s, t))
    ensures CanAdvance(s, t)
  {
    assert ThreadInv(s, t);
    var pc := Pc(s, t);
    if pc.Enqueuing? {
      assert CallInv(s, pc.c, t);
      QueueGoMoves(s.queues[pc.c], t);
      QueueGoAdvances(s, t, pc.c);
    } else if pc == InServer(CopyOrders) {
      var ids := Enumeration(s.server.orders.Keys);
      assert R.Enumerates(ids, s.server.orders);
      forall i | 0 <= i < |ids|
        ensures ids[i] in s.server.orders
      {
        var k := ids[i];
        assert k in ids;
      }
      assert Inside(Copy(ids)) && Advances(s, t, Copy(ids));
    } else if pc.Broadcasting? && pc.targets != {} {
      var c := PickOne(pc.targets);
      assert Inside(Pick(c)) && Advances(s, t, Pick(c));
    } else {
      GoLeaves(s, t);
      assert Inside(Go) && Advances(s, t, Go);
    }
  }

  lemma GoLeaves(s: State, t: int)
    requires ThreadInv(s, t) && Pc(s, t).HoldsServer() && !Pc(s, t).Enqueuing?
    requires Pc(s, t) != InServer(CopyOrders) && (Pc(s, t).Broadcasting? ==> Pc(s, t).targets == {})
    ensures Pc(Step(s, t, Go), t) != Pc(s, t)
  {
    hide Events, Execute, Q.Step;
  }

  lemma QueueOwnerAdvances(s: State, c: int, u: int)
    requires Inv(s) && Owns(s, u, QueueLock(c))
    ensures CanAdvance(s, u)
  {
    QueueOwnerRuns(s, c, u);
    QueueGoMoves(s.queues[c], u);
    QueueGoAdvances(s, u, c);
  }

  lemma WaiterAdvances(s: State, t: int)
    requires Inv(s) && FreeToLock(s, t)
    ensures CanAdvance(s, t)
  {
    var pc := Pc(s, t);
    if pc.WantServer? {
      assert Inside(Go) && Advances(s, t, Go);
    } else {
      var c := Wants(s, t).value.c;
      QueueGoMoves(s.queues[c], t);
      QueueGoAdvances(s, t, c);
    }
  }

  /** The thread itself, one it waits for, or one that one waits for. */
  ghost predicate OnWaitPath(s: State, t: int, u: int) {
    || u == t
    || WaitsFor(s, t, u)
    || exists v :: WaitsFor(s, t, v) && WaitsFor(s, v, u)
  }

  /** Whenever a thread waits for a mutex, a thread can go on inside its method: the thread
      itself, the owner of the mutex, or the owner of the mutex that one waits for. */
  lemma SomeoneAdvances(steps: seq<(int, Act)>, t: int)
    requires Wants(Run(steps), t).Some?
    ensures var s := Run(steps); exists u :: OnWaitPath(s, t, u) && CanAdvance(s, u)
  {
    var s := Run(steps);
    RunKeepsInv(steps);
    assert ThreadInv(s, t);
    if FreeToLock(s, t) {
      WaiterAdvances(s, t);
      assert OnWaitPath(s, t, t);
    } else if Wants(s, t).value.QueueLock? {
      var c := Wants(s, t).value.c;
      var u := s.queues[c].lock.value;
      QueueOwnerAdvances(s, c, u);
      assert WaitsFor(s, t, u) && OnWaitPath(s, t, u);
    } else {
      var u := s.lock.value;
      assert s.lock == Some(u) <==> Pc(s, u).HoldsServer();
      assert ThreadInv(s, u) && WaitsFor(s, t, u);
      if Wants(s, u).None? || FreeToLock(s, u) {
        HolderAdvances(s, u);
        assert OnWaitPath(s, t, u);
      } else {
        var c := Wants(s, u).value.c;
        var v := s.queues[c].lock.value;
        QueueOwnerAdvances(s, c, v);
        assert WaitsFor(s, u, v) && OnWaitPath(s, t, v);
      }
    }
  }
}
