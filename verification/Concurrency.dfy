/** The server's threads, step by step: any number of client threads share the server's mutex
    and each display's queue (server.cpp, client.cpp, message_queue.cpp, guard.h).  Every
    interleaving is shown to be a run of module Replication, whose server operations are
    atomic, and to be free of deadlock. */
module Concurrency {
  import opened Wrappers
  import opened Messages
  import opened Orders
  import R = Replication
  import Q = QueueProtocol

  /** The server methods a client thread calls under the server's mutex. */
  datatype Op = Serve(cmd: Command) | Register | CopyOrders | Unregister

  /** Where a client thread is.  Broadcasting is the loop over the registered displays for the
      first message to do, with the displays still to visit. */
  datatype PC =
    | Idle
    | WantServer(op: Op)                                             // before Guard locks my_lock
    | InServer(op: Op)                                               // holds it
    | Broadcasting(todo: seq<Message>, targets: set<int>)            // holds it
    | Enqueuing(c: int, todo: seq<Message>, targets: set<int>)       // holds it, inside a queue's enqueue
    | Leaving                                                        // holds it
    | Dequeuing                                                      // inside its own queue's dequeue
  {
    predicate HoldsServer() {
      InServer? || Broadcasting? || Enqueuing? || Leaving?
    }
  }

  /** A registered display: its client thread's messages to send, its connection, its replica. */
  datatype Link = Link(phase: R.Phase, replica: OrderMap, wire: seq<Message>, outbox: seq<Message>, start: nat)

  datatype State = State(
    server: Server,
    lock: Option<int>,
    threads: map<int, PC>,
    links: map<int, Link>,
    queues: map<int, Q.Queue<Message>>)

  datatype Act =
    | Begin(op: Op) | BeginDequeue | Go | Copy(ids: seq<int>) | Pick(c: int) | TimeOut | Send | Receive

  /** What a step does to the queues: it moves the thread inside one, or creates or destroys
      the thread's own. */
  datatype QueueChange = NoChange | Move(c: int, move: Q.Move<Message>) | Create | Destroy

  /** All a step of thread t can change. */
  datatype Change = Change(pc: PC, lock: Option<int>, server: Server, link: Option<Link>, queue: QueueChange)

  const INITIAL: State := State(Orders.START, None, map[], map[], map[])

  function Pc(s: State, t: int): PC {
    if t in s.threads then s.threads[t] else Idle
  }

  function QueuePc(s: State, c: int, t: int): Q.PC<Message> {
    if c in s.queues then Q.PcOf(s.queues[c], t) else Q.Idle
  }

  function LinkOf(s: State, t: int): Option<Link> {
    if t in s.links then Some(s.links[t]) else None
  }

  /** No change. */
  function Stay(s: State, t: int): Change {
    Change(Pc(s, t), s.lock, s.server, LinkOf(s, t), NoChange)
  }

  function QueuesAfter(queues: map<int, Q.Queue<Message>>, t: int, ch: QueueChange): map<int, Q.Queue<Message>> {
    match ch
    case NoChange => queues
    case Move(c, move) => if c in queues then queues[c := Q.Step(queues[c], t, move)] else queues
    case Create => queues[t := Q.Empty()]
    case Destroy => queues - {t}
  }

  function Update(s: State, t: int, ch: Change): State {
    State(ch.server, ch.lock, s.threads[t := ch.pc],
          if ch.link.None? then s.links - {t} else s.links[t := ch.link.value],
          QueuesAfter(s.queues, t, ch.queue))
  }

  predicate Live(s: State, t: int) {
    t in s.links && s.links[t].phase == R.Live
  }

  /** What a client thread may call next: an updater serves commands, a display registers, then
      copies the orders once, and unregisters when its client is destroyed. */
  predicate Allowed(link: Option<Link>, op: Op) {
    match op
    case Serve(_) => link.None?
    case Register => link.None?
    case CopyOrders => link.Some? && link.value.phase == R.Registered && link.value.outbox == []
    case Unregister => link.Some?
  }

  /** The body of a server method, run by the holder of the server's mutex. */
  function ServerEffect(s: State, t: int, op: Op): Change {
    match op
    case Serve(cmd) =>
      var events := Events(s.server, cmd);
      Stay(s, t).(server := Execute(s.server, cmd),
                  pc := if events == [] then Leaving else Broadcasting(events, s.links.Keys))
    case Register =>
      Stay(s, t).(pc := Leaving, queue := Create,
                  link := Some(Link(R.Registered, map[], [], [], |s.server.log|)))
    case CopyOrders => Stay(s, t)
    case Unregister => Stay(s, t).(pc := Leaving, queue := Destroy, link := None)
  }

  /** One step inside enqueue; when it returns, the broadcast goes on to the other displays. */
  function EnqueuingEffect(s: State, t: int, c: int, todo: seq<Message>, targets: set<int>): Change {
    var finishing := QueuePc(s, c, t).EnqueuePost?;
    Stay(s, t).(queue := Move(c, Q.Go),
                pc := if finishing then Broadcasting(todo, targets - {c}) else Pc(s, t))
  }

  /** One step inside dequeue; when it returns a message, that is to be sent. */
  function DequeuingEffect(s: State, t: int): Change {
    var qpc := QueuePc(s, t, t);
    if qpc.DequeueUnlock? && t in s.links
    then Stay(s, t).(queue := Move(t, Q.Go), pc := Idle, link := Some(s.links[t].(outbox := [qpc.msg])))
    else Stay(s, t).(queue := Move(t, Q.Go))
  }

  function GoEffect(s: State, t: int): Change {
    match Pc(s, t)
    case WantServer(op) => if s.lock == None then Stay(s, t).(pc := InServer(op), lock := Some(t)) else Stay(s, t)
    case InServer(op) => ServerEffect(s, t, op)
    case Broadcasting(todo, targets) =>
      if targets != {} then Stay(s, t)
      else Stay(s, t).(pc := if |todo| <= 1 then Leaving else Broadcasting(todo[1..], s.links.Keys))
    case Enqueuing(c, todo, targets) => EnqueuingEffect(s, t, c, todo, targets)
    case Leaving => Stay(s, t).(pc := Idle, lock := None)
    case Dequeuing => DequeuingEffect(s, t)
    case Idle => Stay(s, t)
  }

  /** The locked copy of the orders, in the order the container lists their ids. */
  ghost function CopyEffect(s: State, t: int, ids: seq<int>): Change {
    if Pc(s, t) == InServer(CopyOrders) && t in s.links
       && R.Enumerates(ids, s.server.orders) && (forall i :: 0 <= i < |ids| ==> ids[i] in s.server.orders)
    then Stay(s, t).(pc := Leaving,
                     link := Some(s.links[t].(phase := R.Live, outbox := R.SnapshotMessages(s.server.orders, ids))))
    else Stay(s, t)
  }

  function PickEffect(s: State, t: int, c: int): Change {
    var pc := Pc(s, t);
    if pc.Broadcasting? && c in pc.targets && pc.todo != []
    then Stay(s, t).(pc := Enqueuing(c, pc.todo, pc.targets), queue := Move(c, Q.StartEnqueue(pc.todo[0])))
    else Stay(s, t)
  }

  function TimeOutEffect(s: State, t: int): Change {
    if Pc(s, t).Dequeuing? && t in s.links && t in s.queues && QueuePc(s, t, t).DequeueWait? && s.queues[t].sem == 0
    then Stay(s, t).(pc := Idle, queue := Move(t, Q.TimeOut),
                     link := Some(s.links[t].(outbox := [Plain(DISP_HEARTBEAT)])))
    else Stay(s, t)
  }

  function SendEffect(s: State, t: int): Change {
    if Pc(s, t).Idle? && t in s.links && s.links[t].outbox != []
    then
      var l := s.links[t];
      Stay(s, t).(link := Some(l.(wire := l.wire + [l.outbox[0]], outbox := l.outbox[1..])))
    else Stay(s, t)
  }

  /** The display at the other end applies the next message; its client thread does nothing. */
  function ReceiveEffect(s: State, t: int): Change {
    if t in s.links && s.links[t].wire != []
    then
      var l := s.links[t];
      Stay(s, t).(link := Some(l.(replica := Apply(l.replica, l.wire[0]), wire := l.wire[1..])))
    else Stay(s, t)
  }

  ghost function Effect(s: State, t: int, act: Act): Change {
    match act
    case Begin(op) =>
      if Pc(s, t).Idle? && Allowed(LinkOf(s, t), op) then Stay(s, t).(pc := WantServer(op)) else Stay(s, t)
    case BeginDequeue =>
      if Pc(s, t).Idle? && Live(s, t) && s.links[t].outbox == []
      then Stay(s, t).(pc := Dequeuing, queue := Move(t, Q.StartDequeue)) else Stay(s, t)
    case Go => GoEffect(s, t)
    case Copy(ids) => CopyEffect(s, t, ids)
    case Pick(c) => PickEffect(s, t, c)
    case TimeOut => TimeOutEffect(s, t)
    case Send => SendEffect(s, t)
    case Receive => ReceiveEffect(s, t)
  }

  ghost function Step(s: State, t: int, act: Act): State {
    Update(s, t, Effect(s, t, act))
  }

  ghost function Run(steps: seq<(int, Act)>): State {
    if steps == [] then INITIAL
    else
      var last := steps[|steps| - 1];
      Step(Run(steps[..|steps| - 1]), last.0, last.1)
  }

  // ---------------------------------------------------------------------------------
  // The invariant
  // ---------------------------------------------------------------------------------

  ghost predicate LockInv(s: State) {
    forall t :: s.lock == Some(t) <==> Pc(s, t).HoldsServer()
  }

  ghost predicate QueuesInv(s: State) {
    s.queues.Keys == s.links.Keys && forall c :: c in s.queues ==> Q.Inv(s.queues[c])
  }

  /** What a thread's position says about its display and about its position in a queue. */
  predicate PositionInv(pc: PC, link: Option<Link>, displays: set<int>, own: Q.PC<Message>, target: Q.PC<Message>) {
    match pc
    case WantServer(op) => Allowed(link, op)
    case InServer(op) => Allowed(link, op)
    case Broadcasting(todo, targets) => link.None? && todo != [] && targets <= displays
    case Enqueuing(c, todo, targets) =>
      && link.None? && todo != [] && targets <= displays && c in targets
      && target.InEnqueue()
      && (target.EnqueueLock? || target.EnqueuePush? ==> target.msg == todo[0])
    case Dequeuing => link.Some? && link.value.phase == R.Live && link.value.outbox == [] && own.InDequeue()
    case _ => true
  }

  function TargetPc(s: State, t: int, pc: PC): Q.PC<Message> {
    if pc.Enqueuing? then QueuePc(s, pc.c, t) else Q.Idle
  }

  predicate ThreadInv(s: State, t: int) {
    PositionInv(Pc(s, t), LinkOf(s, t), s.links.Keys, QueuePc(s, t, t), TargetPc(s, t, Pc(s, t)))
  }

  /** A thread inside a queue's method got there from the matching position. */
  predicate CallInv(s: State, c: int, t: int) {
    && (QueuePc(s, c, t).InEnqueue() ==> Pc(s, t).Enqueuing? && Pc(s, t).c == c)
    && (QueuePc(s, c, t).InDequeue() ==> Pc(s, t).Dequeuing? && t == c)
  }

  ghost predicate Inv(s: State) {
    && LockInv(s)
    && QueuesInv(s)
    && (forall t :: ThreadInv(s, t))
    && (forall c, t :: CallInv(s, c, t))
  }

  /** Two threads are never both in the server's critical sections. */
  lemma OnlyHolder(s: State, t: int, u: int)
    requires LockInv(s) && Pc(s, t).HoldsServer() && Pc(s, u).HoldsServer()
    ensures t == u
  {
    assert s.lock == Some(t) && s.lock == Some(u);
  }

  /** The mutex is taken when free by the thread that enters, and given back by its holder. */
  lemma LockChanges(s: State, t: int, act: Act)
    ensures var ch := Effect(s, t, act); var before, after := Pc(s, t).HoldsServer(), ch.pc.HoldsServer();
            if !before && after then s.lock == None && ch.lock == Some(t)
            else if before && !after then ch.lock == None
            else ch.lock == s.lock
  {
  }

  lemma StepLockInv(s: State, t: int, act: Act)
    requires LockInv(s)
    ensures LockInv(Step(s, t, act))
  {
    LockChanges(s, t, act);
    hide Effect;
    var s' := Step(s, t, act);
    forall u
      ensures s'.lock == Some(u) <==> Pc(s', u).HoldsServer()
    {
      assert s.lock == Some(u) <==> Pc(s, u).HoldsServer();
      assert s.lock == Some(t) <==> Pc(s, t).HoldsServer();
    }
  }

  /** A display's queue exists exactly while it is registered. */
  predicate LinkedChange(s: State, t: int, ch: Change) {
    match ch.queue
    case Create => ch.link.Some?
    case Destroy => ch.link.None?
    case _ => ch.link.Some? <==> t in s.links
  }

  lemma EffectLinked(s: State, t: int, act: Act)
    ensures LinkedChange(s, t, Effect(s, t, act))
  {
  }

  lemma StepQueuesInv(s: State, t: int, act: Act)
    requires QueuesInv(s)
    ensures QueuesInv(Step(s, t, act))
  {
    EffectLinked(s, t, act);
    var ch := Effect(s, t, act);
    hide Effect, Q.Inv, Q.Step;
    Q.RunKeepsInv<Message>([]);
    if ch.queue.Move? && ch.queue.c in s.queues {
      Q.StepKeepsInv(s.queues[ch.queue.c], t, ch.queue.move);
    }
  }

  /** Registration changes only inside the server's critical sections. */
  lemma EffectDisplays(s: State, t: int, act: Act)
    ensures var ch := Effect(s, t, act);
            (ch.link.Some? <==> t in s.links) || Pc(s, t).HoldsServer()
  {
  }

  lemma QueueStepOthers(q: Q.Queue<Message>, t: int, move: Q.Move<Message>, u: int)
    requires u != t
    ensures Q.PcOf(Q.Step(q, t, move), u) == Q.PcOf(q, u)
  {
  }

  /** A step of one thread leaves every other where it is, in the server and in the queues;
      only the queue of a display that comes or goes is emptied of threads. */
  lemma OthersStay(s: State, t: int, ch: Change, c: int, u: int)
    requires u != t
    ensures var s' := Update(s, t, ch);
            && Pc(s', u) == Pc(s, u) && LinkOf(s', u) == LinkOf(s, u)
            && (QueuePc(s', c, u) == QueuePc(s, c, u)
                || (c == t && (ch.queue.Create? || ch.queue.Destroy?) && QueuePc(s', c, u).Idle?))
  {
    if ch.queue.Move? && ch.queue.c in s.queues {
      QueueStepOthers(s.queues[ch.queue.c], t, ch.queue.move, u);
    }
    hide Q.Step;
  }

  lemma EffectQueueOwner(s: State, t: int, act: Act)
    ensures var ch := Effect(s, t, act); ch.queue.Create? || ch.queue.Destroy? ==> Pc(s, t).HoldsServer()
  {
  }

  lemma OtherThreadInv(s: State, t: int, act: Act, u: int)
    requires u != t && LockInv(s) && ThreadInv(s, u)
    ensures ThreadInv(Step(s, t, act), u)
  {
    var ch := Effect(s, t, act);
    EffectDisplays(s, t, act);
    EffectQueueOwner(s, t, act);
    hide Effect;
    OthersStay(s, t, ch, u, u);
    if Pc(s, u).HoldsServer() && Pc(s, t).HoldsServer() {
      OnlyHolder(s, t, u);
    }
    if Pc(s, u).Enqueuing? {
      OthersStay(s, t, ch, Pc(s, u).c, u);
    }
    assert !Pc(s, t).HoldsServer() ==> Update(s, t, ch).links.Keys == s.links.Keys;
  }

  /** Where a move takes the thread inside the queue. */
  lemma QueueStepOwn(q: Q.Queue<Message>, t: int, move: Q.Move<Message>)
    ensures var pc, pc' := Q.PcOf(q, t), Q.PcOf(Q.Step(q, t, move), t);
            && (pc.Idle? && move.StartEnqueue? ==> pc' == Q.EnqueueLock(move.msg))
            && (pc.Idle? && move.StartDequeue? ==> pc' == Q.DequeueWait)
            && (pc.InEnqueue() && move.Go? ==> if pc.EnqueuePost? then pc'.Idle? else pc'.InEnqueue())
            && (pc.InEnqueue() && move.Go? && (pc'.EnqueueLock? || pc'.EnqueuePush?) ==>
                  (pc.EnqueueLock? || pc.EnqueuePush?) && pc'.msg == pc.msg)
            && (pc.InDequeue() && move.Go? ==> if pc.DequeueUnlock? then pc'.Idle? else pc'.InDequeue())
            && (pc.DequeueWait? && move.TimeOut? && q.sem == 0 ==> pc'.Idle?)
  {
  }

  /** A thread outside a queue's methods is idle in every queue. */
  lemma OutsideIdle(s: State, c: int, t: int)
    requires CallInv(s, c, t) && !Pc(s, t).Enqueuing? && !Pc(s, t).Dequeuing?
    ensures QueuePc(s, c, t).Idle?
  {
  }

  lemma GoPosition(s: State, t: int)
    requires ThreadInv(s, t) && QueuesInv(s)
    ensures ThreadInv(Step(s, t, Go), t)
  {
    var ch := Effect(s, t, Go);
    if ch.queue.Move? && ch.queue.c in s.queues {
      QueueStepOwn(s.queues[ch.queue.c], t, ch.queue.move);
    }
    hide Q.Step, Q.Inv, Execute, Events;
  }

  lemma EffectPosition(s: State, t: int, act: Act)
    requires ThreadInv(s, t) && QueuesInv(s) && (forall c :: CallInv(s, c, t))
    ensures ThreadInv(Step(s, t, act), t)
  {
    if act.Go? {
      GoPosition(s, t);
    } else {
      hide GoEffect;
      var ch := Effect(s, t, act);
      if ch.queue.Move? && ch.queue.c in s.queues {
        QueueStepOwn(s.queues[ch.queue.c], t, ch.queue.move);
      }
      hide Q.Step, Q.Inv;
      if act.BeginDequeue? && Pc(s, t).Idle? {
        OutsideIdle(s, t, t);
      } else if act.Pick? && Pc(s, t).Broadcasting? {
        OutsideIdle(s, act.c, t);
      }
    }
  }

  lemma GoCallInv(s: State, t: int, c: int)
    requires ThreadInv(s, t) && CallInv(s, c, t)
    ensures CallInv(Step(s, t, Go), c, t)
  {
    var ch := Effect(s, t, Go);
    if ch.queue.Move? && ch.queue.c in s.queues {
      QueueStepOwn(s.queues[ch.queue.c], t, ch.queue.move);
    }
    hide Q.Step, Execute, Events;
  }

  lemma StepCallInv(s: State, t: int, act: Act, c: int)
    requires ThreadInv(s, t) && (forall c' :: CallInv(s, c', t))
    ensures CallInv(Step(s, t, act), c, t)
  {
    assert CallInv(s, c, t);
    if act.Go? {
      GoCallInv(s, t, c);
    } else {
      hide GoEffect;
      var ch := Effect(s, t, act);
      if ch.queue.Move? && ch.queue.c in s.queues {
        QueueStepOwn(s.queues[ch.queue.c], t, ch.queue.move);
      }
      hide Q.Step;
      if act.BeginDequeue? && Pc(s, t).Idle? {
        OutsideIdle(s, t, t);
      } else if act.Pick? && Pc(s, t).Broadcasting? {
        OutsideIdle(s, act.c, t);
      }
    }
  }

  lemma StepKeepsInv(s: State, t: int, act: Act)
    requires Inv(s)
    ensures Inv(Step(s, t, act))
  {
    StepLockInv(s, t, act);
    StepQueuesInv(s, t, act);
    forall u
      ensures ThreadInv(Step(s, t, act), u)
    {
      assert ThreadInv(s, u);
      if u == t {
        EffectPosition(s, t, act);
      } else {
        OtherThreadInv(s, t, act, u);
      }
    }
    forall c, u
      ensures CallInv(Step(s, t, act), c, u)
    {
      assert ThreadInv(s, t) && CallInv(s, c, u);
      if u == t {
        StepCallInv(s, t, act, c);
      } else {
        OthersStay(s, t, Effect(s, t, act), c, u);
      }
    }
  }

  lemma {:induction false} RunKeepsInv(steps: seq<(int, Act)>)
    ensures Inv(Run(steps))
  {
    if steps != [] {
      var front, last := steps[..|steps| - 1], steps[|steps| - 1];
      RunKeepsInv(front);
      StepKeepsInv(Run(front), last.0, last.1);
    }
  }

  // ---------------------------------------------------------------------------------
  // Every interleaving is a run of the replicated order state machine
  // ---------------------------------------------------------------------------------

  /** What the holder of the mutex still has to enqueue for display c. */
  function OwedBy(pc: PC, target: Q.PC<Message>, c: int): seq<Message> {
    match pc
    case Broadcasting(todo, targets) => if c in targets || todo == [] then todo else todo[1..]
    case Enqueuing(d, todo, targets) =>
      if todo == [] || (c in targets && !(c == d && target.PushedNotPosted())) then todo else todo[1..]
    case _ => []
  }

  function Owed(s: State, c: int): seq<Message> {
    if s.lock.None? then []
    else
      var pc := Pc(s, s.lock.value);
      OwedBy(pc, TargetPc(s, s.lock.value, pc), c)
  }

  /** A popped message is with the client thread before dequeue returns it. */
  function InHand(own: Q.PC<Message>, outbox: seq<Message>): seq<Message> {
    if own.DequeueUnlock? then [own.msg] else outbox
  }

  function AbsDisplay(link: Link, queue: Q.Queue<Message>, own: Q.PC<Message>, owed: seq<Message>): R.Display {
    R.Display(link.phase, link.replica, link.wire, InHand(own, link.outbox),
              queue.items, owed, link.start, queue.pushed)
  }

  function AbsAt(s: State, c: int): R.Display
    requires c in s.links && c in s.queues
  {
    AbsDisplay(s.links[c], s.queues[c], QueuePc(s, c, c), Owed(s, c))
  }

  ghost function Abs(s: State): R.State
    requires s.queues.Keys == s.links.Keys
  {
    R.State(s.server, map c | c in s.links :: AbsAt(s, c))
  }

  /** The atomic action a step performs, if it performs one. */
  ghost function AbstractAction(s: State, t: int, act: Act): Option<R.Action> {
    var pc := Pc(s, t);
    match act
    case Go =>
      if pc.InServer? && pc.op.Serve? && Defined(s.server, pc.op.cmd) then Some(R.Request(pc.op.cmd))
      else if pc.InServer? && pc.op.Register? then Some(R.Register(t))
      else if pc.InServer? && pc.op.Unregister? then Some(R.Unregister(t))
      else if pc.Enqueuing? && QueuePc(s, pc.c, t).EnqueuePush? then Some(R.Enqueue(pc.c))
      else if pc.Dequeuing? && QueuePc(s, t, t).DequeuePop? then Some(R.Dequeue(t))
      else None
    case Copy(ids) => if CopyEffect(s, t, ids) != Stay(s, t) then Some(R.Snapshot(t, ids)) else None
    case TimeOut => if TimeOutEffect(s, t) != Stay(s, t) then Some(R.Heartbeat(t)) else None
    case Send => if Pc(s, t).Idle? && t in s.links && s.links[t].outbox != [] then Some(R.Send(t)) else None
    case Receive => if t in s.links && s.links[t].wire != [] then Some(R.Receive(t)) else None
    case _ => None
  }

  ghost function After(a: R.State, action: Option<R.Action>): R.State {
    if action.None? then a else R.Step(a, action.value)
  }

  /** The holder of the mutex owes nothing unless it is broadcasting. */
  lemma OwedByHolder(s: State, t: int)
    requires LockInv(s) && Pc(s, t).HoldsServer()
    ensures forall c :: Owed(s, c) == OwedBy(Pc(s, t), TargetPc(s, t, Pc(s, t)), c)
  {
    assert s.lock == Some(t);
  }

  lemma LockFreeInServer(s: State, t: int)
    requires LockInv(s) && s.queues.Keys == s.links.Keys && Pc(s, t).InServer?
    ensures R.LockFree(Abs(s)) && forall c :: Owed(s, c) == []
  {
    OwedByHolder(s, t);
  }

  /** What is owed to a display after a step: only a command adds to it, only a push takes. */
  function OwedAfter(s: State, t: int, act: Act, c: int): seq<Message> {
    var pc, owed := Pc(s, t), Owed(s, c);
    if act.Go? && pc.InServer? && pc.op.Serve? && Defined(s.server, pc.op.cmd) then Events(s.server, pc.op.cmd)
    else if act.Go? && pc.Enqueuing? && pc.c == c && QueuePc(s, c, t).EnqueuePush? && owed != [] then owed[1..]
    else owed
  }

  lemma OwedChanges(s: State, t: int, act: Act, c: int)
    requires LockInv(s) && ThreadInv(s, t) && (forall d :: CallInv(s, d, t))
    requires c in s.links && s.queues.Keys == s.links.Keys
    ensures Owed(Step(s, t, act), c) == OwedAfter(s, t, act, c)
  {
    var ch := Effect(s, t, act);
    var s' := Step(s, t, act);
    StepLockInv(s, t, act);
    if ch.queue.Move? && ch.queue.c in s.queues {
      QueueStepOwn(s.queues[ch.queue.c], t, ch.queue.move);
      PushTakes(s.queues[ch.queue.c], t, ch.queue.move);
    }
    LockChanges(s, t, act);
    hide Q.Step;
    if act.Pick? && Pc(s, t).Broadcasting? {
      OutsideIdle(s, act.c, t);
    }
    if s.lock == Some(t) || ch.lock == Some(t) {
      assert s.lock == Some(t) <==> Pc(s, t).HoldsServer();
      assert s'.lock == Some(t) <==> Pc(s', t).HoldsServer();
    } else if s.lock.Some? {
      var u := s.lock.value;
      assert s.lock == Some(u) <==> Pc(s, u).HoldsServer();
      EffectQueueOwner(s, t, act);
      assert s.lock == Some(t) <==> Pc(s, t).HoldsServer();
      OthersStay(s, t, ch, if Pc(s, u).Enqueuing? then Pc(s, u).c else u, u);
    }
  }

  lemma PushTakes(q: Q.Queue<Message>, t: int, move: Q.Move<Message>)
    ensures var pc, pc' := Q.PcOf(q, t), Q.PcOf(Q.Step(q, t, move), t);
            pc.InEnqueue() && move.Go? && !pc.EnqueuePost? ==>
              (pc'.PushedNotPosted() <==> pc.EnqueuePush? || pc.PushedNotPosted())
  {
  }

  /** What a move does to the contents of the queue. */
  lemma QueueContents(q: Q.Queue<Message>, t: int, move: Q.Move<Message>)
    ensures var pc, q' := Q.PcOf(q, t), Q.Step(q, t, move);
            if move.Go? && pc.EnqueuePush? then
              q'.items == q.items + [pc.msg] && q'.pushed == q.pushed + [pc.msg]
            else if move.Go? && pc.DequeuePop? && q.items != [] then
              q'.items == q.items[1..] && q'.pushed == q.pushed && Q.PcOf(q', t) == Q.DequeueUnlock(pc.msg)
            else q'.items == q.items && q'.pushed == q.pushed
                 && (Q.PcOf(q', t).DequeueUnlock? ==> Q.PcOf(q, t) == Q.PcOf(q', t))
  {
  }

  /** What the display of a client looks like after the atomic action. */
  ghost function Expected(s: State, t: int, act: Act, c: int): R.Display
    requires c in s.links && c in s.queues
  {
    var a := AbstractAction(s, t, act);
    if a.None? then AbsAt(s, c) else R.NextDisplay(s.server, c, AbsAt(s, c), a.value)
  }

  /** A display other than the stepping thread's: only a push or a command reaches it. */
  lemma OtherDisplay(s: State, t: int, act: Act, c: int)
    requires Inv(s) && c in s.links && c != t
    ensures var s' := Step(s, t, act); c in s'.links && c in s'.queues && AbsAt(s', c) == Expected(s, t, act, c)
  {
    assert ThreadInv(s, t) && CallInv(s, c, t);
    OwedChanges(s, t, act, c);
    OthersStay(s, t, Effect(s, t, act), c, c);
    hide Q.Step, Q.Inv, Owed;
    if act.Go? {
      OtherGo(s, t, c);
    } else {
      OtherRest(s, t, act, c);
    }
  }

  lemma OtherPush(s: State, t: int, c: int)
    requires Inv(s) && c in s.links && c != t && Pc(s, t).Enqueuing?
    requires Owed(Step(s, t, Go), c) == OwedAfter(s, t, Go, c)
    requires QueuePc(Step(s, t, Go), c, c) == QueuePc(s, c, c)
    ensures var s' := Step(s, t, Go); c in s'.links && c in s'.queues && AbsAt(s', c) == Expected(s, t, Go, c)
  {
    assert ThreadInv(s, t) && CallInv(s, c, t);
    QueueContents(s.queues[c], t, Q.Go);
    OwedByHolder(s, t);
    hide Q.Step, Q.Inv, Execute, Events;
  }

  /** Of the steps of another thread, only a command moves the abstract display. */
  lemma OtherGoExpected(s: State, t: int, c: int)
    requires c in s.links && c in s.queues && c != t && !Pc(s, t).Enqueuing?
    ensures Expected(s, t, Go, c) == AbsAt(s, c).(owed := OwedAfter(s, t, Go, c))
  {
    hide CopyEffect, TimeOutEffect, Events, Owed;
  }

  lemma OtherGoStays(s: State, t: int, c: int)
    requires c in s.links && c in s.queues && c != t && !Pc(s, t).Enqueuing?
    ensures var s' := Step(s, t, Go);
            c in s'.links && c in s'.queues && s'.links[c] == s.links[c] && s'.queues[c] == s.queues[c]
  {
    hide Q.Step, Execute, Events;
  }

  lemma OtherGo(s: State, t: int, c: int)
    requires Inv(s) && c in s.links && c != t
    requires Owed(Step(s, t, Go), c) == OwedAfter(s, t, Go, c)
    requires QueuePc(Step(s, t, Go), c, c) == QueuePc(s, c, c)
    ensures var s' := Step(s, t, Go); c in s'.links && c in s'.queues && AbsAt(s', c) == Expected(s, t, Go, c)
  {
    if Pc(s, t).Enqueuing? {
      OtherPush(s, t, c);
    } else {
      OtherGoExpected(s, t, c);
      OtherGoStays(s, t, c);
      hide Inv, Step, Expected, Owed, OwedAfter;
    }
  }

  /** An action about another display, or none, leaves this one as it is. */
  lemma OtherUnmoved(s: State, t: int, act: Act, c: int)
    requires c in s.links && c in s.queues && c != t && !act.Go?
    ensures Expected(s, t, act, c) == AbsAt(s, c)
  {
    hide GoEffect, CopyEffect, TimeOutEffect, AbsAt, Events;
  }

  lemma OtherRest(s: State, t: int, act: Act, c: int)
    requires Inv(s) && c in s.links && c != t && !act.Go?
    requires Owed(Step(s, t, act), c) == Owed(s, c)
    requires QueuePc(Step(s, t, act), c, c) == QueuePc(s, c, c)
    ensures var s' := Step(s, t, act); c in s'.links && c in s'.queues && AbsAt(s', c) == Expected(s, t, act, c)
  {
    OtherUnmoved(s, t, act, c);
    var ch := Effect(s, t, act);
    assert CallInv(s, c, t);
    if ch.queue.Move? && ch.queue.c == c {
      QueueContents(s.queues[c], t, ch.queue.move);
      NotGoing(s, t, act);
    }
    hide Q.Step, Q.Inv, Owed, Effect, Expected, Inv;
  }

  lemma NotGoing(s: State, t: int, act: Act)
    ensures var ch := Effect(s, t, act); !act.Go? && ch.queue.Move? ==> !ch.queue.move.Go?
  {
    hide GoEffect;
  }

  /** The stepping thread's own display. */
  lemma OwnDisplay(s: State, t: int, act: Act)
    requires Inv(s) && t in s.links && t in Step(s, t, act).links
    ensures var s' := Step(s, t, act); t in s'.queues && AbsAt(s', t) == Expected(s, t, act, t)
  {
    KeysAfter(s, t, act);
    assert ThreadInv(s, t) && s.queues.Keys == s.links.Keys;
    OwedChanges(s, t, act, t);
    hide Step, Expected, AbsAt, ThreadInv, Owed;
    if act.Go? && Pc(s, t).Dequeuing? {
      OwnDequeue(s, t);
    } else if act.Go? {
      OwnGo(s, t);
    } else if act.Pick? || act.BeginDequeue? {
      OwnEnters(s, t, act);
    } else if act.TimeOut? {
      OwnTimesOut(s, t);
    } else {
      OwnRest(s, t, act);
    }
  }

  lemma OwnRest(s: State, t: int, act: Act)
    requires Inv(s) && t in s.links && (act.Begin? || act.Copy? || act.Send? || act.Receive?)
    requires Owed(Step(s, t, act), t) == Owed(s, t)
    ensures t in Step(s, t, act).queues && AbsAt(Step(s, t, act), t) == Expected(s, t, act, t)
  {
    assert ThreadInv(s, t) && CallInv(s, t, t);
    hide Q.Step, Q.Inv, Inv, Owed, R.Enumerates;
  }

  lemma OwnDequeue(s: State, t: int)
    requires Inv(s) && t in s.links && Pc(s, t).Dequeuing? && Owed(Step(s, t, Go), t) == Owed(s, t)
    ensures t in Step(s, t, Go).queues && AbsAt(Step(s, t, Go), t) == Expected(s, t, Go, t)
  {
    assert ThreadInv(s, t);
    QueueContents(s.queues[t], t, Q.Go);
    QueueStepOwn(s.queues[t], t, Q.Go);
    FrontIsPopped(s.queues[t], t);
    hide Q.Step, Q.Inv, Owed;
  }

  lemma OwnGo(s: State, t: int)
    requires Inv(s) && t in s.links && t in Step(s, t, Go).links && !Pc(s, t).Dequeuing?
    requires Owed(Step(s, t, Go), t) == OwedAfter(s, t, Go, t)
    ensures t in Step(s, t, Go).queues && AbsAt(Step(s, t, Go), t) == Expected(s, t, Go, t)
  {
    assert ThreadInv(s, t) && CallInv(s, t, t);
    hide Q.Step, Q.Inv;
  }

  lemma OwnEnters(s: State, t: int, act: Act)
    requires Inv(s) && t in s.links && (act.Pick? || act.BeginDequeue?)
    requires Owed(Step(s, t, act), t) == Owed(s, t)
    ensures t in Step(s, t, act).queues && AbsAt(Step(s, t, act), t) == Expected(s, t, act, t)
  {
    var ch := Effect(s, t, act);
    assert ThreadInv(s, t) && CallInv(s, t, t);
    if ch.queue.Move? && ch.queue.c == t {
      OutsideIdle(s, t, t);
      QueueContents(s.queues[t], t, ch.queue.move);
      QueueStepOwn(s.queues[t], t, ch.queue.move);
    }
    hide Q.Step, Q.Inv, Owed;
  }

  lemma OwnTimesOut(s: State, t: int)
    requires Inv(s) && t in s.links && Owed(Step(s, t, TimeOut), t) == Owed(s, t)
    ensures t in Step(s, t, TimeOut).queues && AbsAt(Step(s, t, TimeOut), t) == Expected(s, t, TimeOut, t)
  {
    QueueContents(s.queues[t], t, Q.TimeOut);
    QueueStepOwn(s.queues[t], t, Q.TimeOut);
    hide Q.Step, Q.Inv, Owed;
  }

  lemma FrontIsPopped(q: Q.Queue<Message>, t: int)
    requires Q.Inv(q)
    ensures Q.PcOf(q, t).DequeuePop? ==> q.items != [] && Q.PcOf(q, t).msg == q.items[0]
  {
  }

  lemma ServerActionEnabled(s: State, t: int, act: Act)
    requires Inv(s) && Pc(s, t).InServer? && (act.Go? || act.Copy?)
    ensures var a := AbstractAction(s, t, act); a.Some? ==> R.Enabled(Abs(s), a.value)
  {
    assert ThreadInv(s, t) && CallInv(s, t, t);
    LockFreeInServer(s, t);
    hide Q.Inv, Owed, R.LockFree;
  }

  lemma QueueActionEnabled(s: State, t: int)
    requires Inv(s) && (Pc(s, t).Enqueuing? || Pc(s, t).Dequeuing?)
    ensures var a := AbstractAction(s, t, Go); a.Some? ==> R.Enabled(Abs(s), a.value)
  {
    assert ThreadInv(s, t);
    if Pc(s, t).Enqueuing? {
      OwedByHolder(s, t);
    } else {
      FrontIsPopped(s.queues[t], t);
    }
    hide Q.Inv, Owed, R.LockFree;
  }

  lemma LinkActionEnabled(s: State, t: int, act: Act)
    requires Inv(s) && (act.TimeOut? || act.Send? || act.Receive?)
    ensures var a := AbstractAction(s, t, act); a.Some? ==> R.Enabled(Abs(s), a.value)
  {
    assert ThreadInv(s, t) && CallInv(s, t, t);
    hide Q.Inv, Owed, R.LockFree;
  }

  /** The guards of the atomic machine hold whenever the code gets there: nobody else is in
      the middle of a broadcast, and a granted queue is not empty. */
  lemma ActionEnabled(s: State, t: int, act: Act)
    requires Inv(s)
    ensures var a := AbstractAction(s, t, act); a.Some? ==> R.Enabled(Abs(s), a.value)
  {
    if Pc(s, t).InServer? && (act.Go? || act.Copy?) {
      ServerActionEnabled(s, t, act);
    } else if act.Go? && (Pc(s, t).Enqueuing? || Pc(s, t).Dequeuing?) {
      QueueActionEnabled(s, t);
    } else if act.TimeOut? || act.Send? || act.Receive? {
      LinkActionEnabled(s, t, act);
    }
    hide Inv, R.Enabled, Abs;
  }

  /** The server's data and the set of displays change as the atomic action says. */
  lemma ServerAfter(s: State, t: int, act: Act)
    requires ThreadInv(s, t)
    ensures var s', a := Step(s, t, act), AbstractAction(s, t, act);
            if a.Some? then
              && s'.server == (if a.value.Request? then Execute(s.server, a.value.cmd) else s.server)
              && s'.links.Keys == R.NextClients(s.links.Keys, a.value)
            else s'.server == s.server && s'.links.Keys == s.links.Keys
  {
    if Pc(s, t).InServer? && Pc(s, t).op.Serve? && !Defined(s.server, Pc(s, t).op.cmd) {
      assert Execute(s.server, Pc(s, t).op.cmd) == s.server;
    }
    hide Events, Execute, Q.Step;
  }

  lemma DisplayAfter(s: State, t: int, act: Act, c: int)
    requires s.queues.Keys == s.links.Keys
    requires AbstractAction(s, t, act).Some? ==> R.Enabled(Abs(s), AbstractAction(s, t, act).value)
    requires c in s.links && c in After(Abs(s), AbstractAction(s, t, act)).displays
    ensures After(Abs(s), AbstractAction(s, t, act)).displays[c] == Expected(s, t, act, c)
  {
    var a := AbstractAction(s, t, act);
    hide AbstractAction, R.Enabled, R.Step, R.NextDisplay, AbsAt;
    if a.Some? {
      R.StepByDisplay(Abs(s), a.value);
    }
  }

  lemma ServerAndClientsAfter(s: State, t: int, act: Act)
    requires Inv(s) && (AbstractAction(s, t, act).Some? ==> R.Enabled(Abs(s), AbstractAction(s, t, act).value))
    ensures var s', b := Step(s, t, act), After(Abs(s), AbstractAction(s, t, act));
            b.server == s'.server && b.displays.Keys == s'.links.Keys
  {
    assert ThreadInv(s, t) && s.queues.Keys == s.links.Keys;
    ServerAfter(s, t, act);
    var a := AbstractAction(s, t, act);
    hide Step, AbstractAction, R.Enabled, R.Step, R.NextDisplay, AbsAt, ThreadInv, Inv, Execute;
    if a.Some? {
      R.StepByDisplay(Abs(s), a.value);
    }
    assert Abs(s).displays.Keys == s.links.Keys;
  }

  lemma DisplaysAfter(s: State, t: int, act: Act)
    requires Inv(s) && (AbstractAction(s, t, act).Some? ==> R.Enabled(Abs(s), AbstractAction(s, t, act).value))
    ensures var s', b := Step(s, t, act), After(Abs(s), AbstractAction(s, t, act));
            && b.server == s'.server
            && b.displays.Keys == s'.links.Keys
            && forall c :: c in s.links && c in s'.links ==> b.displays[c] == Expected(s, t, act, c)
  {
    ServerAndClientsAfter(s, t, act);
    assert s.queues.Keys == s.links.Keys;
    hide Step, AbstractAction, R.Enabled, R.Step, Expected, AbsAt, Abs, After, Inv;
    forall c | c in s.links && c in Step(s, t, act).links
      ensures After(Abs(s), AbstractAction(s, t, act)).displays[c] == Expected(s, t, act, c)
    {
      DisplayAfter(s, t, act, c);
    }
  }

  lemma NewDisplay(s: State, t: int, act: Act)
    requires Inv(s) && t !in s.links && t in Step(s, t, act).links
    requires AbstractAction(s, t, act).Some? ==> R.Enabled(Abs(s), AbstractAction(s, t, act).value)
    ensures var s', b := Step(s, t, act), After(Abs(s), AbstractAction(s, t, act));
            t in s'.queues && t in b.displays && b.displays[t] == AbsAt(s', t)
  {
    StepLockInv(s, t, act);
    assert ThreadInv(s, t);
    assert Pc(s, t).InServer? && act.Go?;
    OwedByHolder(Step(s, t, act), t);
    R.StepByDisplay(Abs(s), R.Register(t));
    hide Q.Inv, Q.Step, R.Step, R.Enabled;
  }

  /** Only the stepping thread's own display comes or goes. */
  lemma ClientsAfter(s: State, t: int, act: Act)
    ensures forall c :: c in Step(s, t, act).links && c != t ==> c in s.links
  {
    hide Effect;
  }

  lemma KeysAfter(s: State, t: int, act: Act)
    requires Inv(s)
    ensures Step(s, t, act).queues.Keys == Step(s, t, act).links.Keys
  {
    StepQueuesInv(s, t, act);
  }

  /** A step is the atomic action it stands for, which is then enabled, or changes nothing
      that the atomic machine sees. */
  lemma StepRefines(s: State, t: int, act: Act)
    requires Inv(s)
    ensures var s', a := Step(s, t, act), AbstractAction(s, t, act);
            && s'.queues.Keys == s'.links.Keys
            && (a.Some? ==> R.Enabled(Abs(s), a.value))
            && Abs(s') == After(Abs(s), a)
  {
    var s', a := Step(s, t, act), AbstractAction(s, t, act);
    hide Step, AbstractAction, R.Enabled, R.Step, Q.Inv, Expected;
    KeysAfter(s, t, act);
    ActionEnabled(s, t, act);
    DisplaysAfter(s, t, act);
    ClientsAfter(s, t, act);
    forall c | c in s'.links
      ensures c in After(Abs(s), a).displays && AbsAt(s', c) == After(Abs(s), a).displays[c]
    {
      if c != t {
        OtherDisplay(s, t, act, c);
      } else if c in s.links {
        OwnDisplay(s, t, act);
      } else {
        NewDisplay(s, t, act);
      }
    }
    assert Abs(s').displays == After(Abs(s), a).displays;
  }
}
