/** One message queue used by any number of threads at once, step by step: a deque under a
    mutex and a semaphore that counts the messages available (message_queue.cpp). */
module QueueProtocol {
  import opened Wrappers

  /** Where a thread is inside the queue's methods. */
  datatype PC<T> =
    | Idle
    | EnqueueLock(msg: T)    // before pthread_mutex_lock
    | EnqueuePush(msg: T)    // holds the mutex
    | EnqueueUnlock          // holds the mutex, has pushed
    | EnqueuePost            // before sem_post
    | DequeueWait            // in sem_timedwait
    | DequeueLock            // before pthread_mutex_lock
    | DequeueFront           // holds the mutex
    | DequeuePop(msg: T)     // holds the mutex, has read the front
    | DequeueUnlock(msg: T)  // holds the mutex, has popped
  {
    predicate Holds() {
      EnqueuePush? || EnqueueUnlock? || DequeueFront? || DequeuePop? || DequeueUnlock?
    }

    predicate WantsLock() {
      EnqueueLock? || DequeueLock?
    }

    predicate InEnqueue() {
      EnqueueLock? || EnqueuePush? || EnqueueUnlock? || EnqueuePost?
    }

    predicate InDequeue() {
      DequeueWait? || DequeueLock? || DequeueFront? || DequeuePop? || DequeueUnlock?
    }

    predicate WaitedNotPopped() {
      DequeueLock? || DequeueFront? || DequeuePop?
    }

    predicate PushedNotPosted() {
      EnqueueUnlock? || EnqueuePost?
    }
  }

  datatype Queue<T> = Queue(
    items: seq<T>,
    lock: Option<int>,
    sem: nat,
    pcs: map<int, PC<T>>,
    pushed: seq<T>,         // every message ever pushed, in push order
    popped: seq<T>,         // every message ever popped, in pop order
    crashed: bool)          // front() or pop_front() was called on an empty deque

  datatype Move<T> = StartEnqueue(msg: T) | StartDequeue | TimeOut | Go

  function Empty<T>(): Queue<T> {
    Queue([], None, 0, map[], [], [], false)
  }

  function PcOf<T>(q: Queue<T>, t: int): PC<T> {
    if t in q.pcs then q.pcs[t] else Idle
  }

  function At<T>(q: Queue<T>, t: int, pc: PC<T>): Queue<T> {
    q.(pcs := q.pcs[t := pc])
  }

  /** The next step of thread t; blocked or impossible moves change nothing. */
  function Step<T>(q: Queue<T>, t: int, move: Move<T>): Queue<T> {
    match (move, PcOf(q, t))
    case (StartEnqueue(m), Idle) => At(q, t, EnqueueLock(m))
    case (StartDequeue, Idle) => At(q, t, DequeueWait)
    case (TimeOut, DequeueWait) => if q.sem == 0 then At(q, t, Idle) else q
    case (Go, EnqueueLock(m)) => if q.lock == None then At(q, t, EnqueuePush(m)).(lock := Some(t)) else q
    case (Go, EnqueuePush(m)) => At(q, t, EnqueueUnlock).(items := q.items + [m], pushed := q.pushed + [m])
    case (Go, EnqueueUnlock) => At(q, t, EnqueuePost).(lock := None)
    case (Go, EnqueuePost) => At(q, t, Idle).(sem := q.sem + 1)
    case (Go, DequeueWait) => if q.sem > 0 then At(q, t, DequeueLock).(sem := q.sem - 1) else q
    case (Go, DequeueLock) => if q.lock == None then At(q, t, DequeueFront).(lock := Some(t)) else q
    case (Go, DequeueFront) =>
      if q.items == [] then q.(crashed := true) else At(q, t, DequeuePop(q.items[0]))
    case (Go, DequeuePop(m)) =>
      if q.items == [] then q.(crashed := true)
      else At(q, t, DequeueUnlock(m)).(items := q.items[1..], popped := q.popped + [m])
    case (Go, DequeueUnlock(_)) => At(q, t, Idle).(lock := None)
    case _ => q
  }

  function Run<T>(steps: seq<(int, Move<T>)>): Queue<T> {
    if steps == [] then Empty()
    else
      var last := steps[|steps| - 1];
      Step(Run(steps[..|steps| - 1]), last.0, last.1)
  }

  // ---------------------------------------------------------------------------------
  // The invariant
  // ---------------------------------------------------------------------------------

  /** Consumers that have been granted a message they have not popped yet. */
  ghost function Consumers<T>(q: Queue<T>): set<int> {
    set t | t in q.pcs && q.pcs[t].WaitedNotPopped()
  }

  /** Producers that have pushed a message they have not announced yet. */
  ghost function Producers<T>(q: Queue<T>): set<int> {
    set t | t in q.pcs && q.pcs[t].PushedNotPosted()
  }

  ghost predicate Counted<T>(q: Queue<T>) {
    |q.items| == q.sem + |Consumers(q)| + |Producers(q)|
  }

  ghost predicate Exclusive<T>(q: Queue<T>) {
    forall t :: q.lock == Some(t) <==> PcOf(q, t).Holds()
  }

  ghost predicate FrontRead<T>(q: Queue<T>) {
    forall t :: t in q.pcs && q.pcs[t].DequeuePop? ==> q.items != [] && q.items[0] == q.pcs[t].msg
  }

  ghost predicate Inv<T>(q: Queue<T>) {
    && !q.crashed
    && Exclusive(q)
    && Counted(q)
    && FrontRead(q)
    && q.popped + q.items == q.pushed
  }

  lemma MoveMember(a: set<int>, b: set<int>, t: int)
    requires a - {t} == b - {t}
    ensures |b| == |a| + (if t in b then 1 else 0) - (if t in a then 1 else 0)
  {
    assert |a| == |a - {t}| + (if t in a then 1 else 0);
    assert |b| == |b - {t}| + (if t in b then 1 else 0);
  }

  lemma ConsumersMove<T>(q: Queue<T>, t: int, pc: PC<T>)
    ensures |Consumers(At(q, t, pc))|
         == |Consumers(q)| + (if pc.WaitedNotPopped() then 1 else 0) - (if PcOf(q, t).WaitedNotPopped() then 1 else 0)
  {
    var a, b := Consumers(q), Consumers(At(q, t, pc));
    assert a - {t} == b - {t};
    MoveMember(a, b, t);
  }

  lemma ProducersMove<T>(q: Queue<T>, t: int, pc: PC<T>)
    ensures |Producers(At(q, t, pc))|
         == |Producers(q)| + (if pc.PushedNotPosted() then 1 else 0) - (if PcOf(q, t).PushedNotPosted() then 1 else 0)
  {
    var a, b := Producers(q), Producers(At(q, t, pc));
    assert a - {t} == b - {t};
    MoveMember(a, b, t);
  }

  lemma SameCounts<T>(a: Queue<T>, b: Queue<T>)
    requires a.pcs == b.pcs
    ensures Consumers(a) == Consumers(b) && Producers(a) == Producers(b)
  {
  }

  lemma StepCounts<T>(q: Queue<T>, t: int, move: Move<T>)
    requires Inv(q)
    ensures Counted(Step(q, t, move))
  {
    var q' := Step(q, t, move);
    ConsumersMove(q, t, PcOf(q', t));
    ProducersMove(q, t, PcOf(q', t));
    hide Consumers, Producers;
    SameCounts(q', if t in q'.pcs then At(q, t, PcOf(q', t)) else q);
  }

  /** A thread that has been granted a message finds the deque non-empty. */
  lemma GrantedMeansNonEmpty<T>(q: Queue<T>, t: int)
    requires Inv(q) && PcOf(q, t).WaitedNotPopped()
    ensures q.items != []
  {
    assert t in Consumers(q);
  }

  lemma StepExclusive<T>(q: Queue<T>, t: int, move: Move<T>)
    requires Exclusive(q)
    ensures Exclusive(Step(q, t, move))
  {
    var q' := Step(q, t, move);
    forall u
      ensures q'.lock == Some(u) <==> PcOf(q', u).Holds()
    {
      assert q.lock == Some(u) <==> PcOf(q, u).Holds();
      assert q.lock == Some(t) <==> PcOf(q, t).Holds();
    }
  }

  lemma StepFrontRead<T>(q: Queue<T>, t: int, move: Move<T>)
    requires Exclusive(q) && FrontRead(q)
    ensures FrontRead(Step(q, t, move))
  {
    var q' := Step(q, t, move);
    forall u | u in q'.pcs && q'.pcs[u].DequeuePop?
      ensures q'.items != [] && q'.items[0] == q'.pcs[u].msg
    {
      if u != t {
        assert q.pcs[u].DequeuePop?;
        assert PcOf(q, u).Holds();
        assert !PcOf(q, t).Holds();
      }
    }
  }

  lemma StepKeepsInv<T>(q: Queue<T>, t: int, move: Move<T>)
    requires Inv(q)
    ensures Inv(Step(q, t, move))
  {
    StepCounts(q, t, move);
    StepExclusive(q, t, move);
    StepFrontRead(q, t, move);
    var pc := PcOf(q, t);
    if pc.WaitedNotPopped() {
      GrantedMeansNonEmpty(q, t);
    }
    hide Counted, Exclusive;
    if pc.DequeuePop? && move.Go? {
      assert q.popped + [q.items[0]] + q.items[1..] == q.popped + q.items;
    }
  }

  lemma {:induction false} RunKeepsInv<T>(steps: seq<(int, Move<T>)>)
    ensures Inv(Run(steps))
  {
    if steps == [] {
      assert Consumers(Empty<T>()) == {} && Producers(Empty<T>()) == {};
    } else {
      var front, last := steps[..|steps| - 1], steps[|steps| - 1];
      RunKeepsInv(front);
      StepKeepsInv(Run(front), last.0, last.1);
    }
  }

  // ---------------------------------------------------------------------------------
  // What every interleaving guarantees
  // ---------------------------------------------------------------------------------

  /** For any number of threads and any interleaving of their steps, timeouts included:
      front() and pop_front() never meet an empty deque; the deque has one message for every
      unit of the semaphore, every consumer between wait and pop and every producer between
      push and post; and the popped messages followed by the queued ones are the pushed ones,
      in push order. */
  lemma QueueSafety<T>(steps: seq<(int, Move<T>)>)
    ensures var q := Run(steps);
            && !q.crashed
            && |q.items| == q.sem + |Consumers(q)| + |Producers(q)|
            && q.popped + q.items == q.pushed
  {
    RunKeepsInv(steps);
  }

  /** At most one thread is ever between lock and unlock. */
  lemma MutualExclusion<T>(steps: seq<(int, Move<T>)>, t: int, u: int)
    ensures var q := Run(steps); PcOf(q, t).Holds() && PcOf(q, u).Holds() ==> t == u
  {
    RunKeepsInv(steps);
    var q := Run(steps);
    assert q.lock == Some(t) <==> PcOf(q, t).Holds();
    assert q.lock == Some(u) <==> PcOf(q, u).Holds();
  }

  /** To its users the queue is an atomic FIFO: each step leaves the contents alone, appends
      the message its thread brought, or removes and hands its thread the oldest one. */
  lemma StepsAreFifo<T>(steps: seq<(int, Move<T>)>, t: int, move: Move<T>)
    ensures var q := Run(steps); var q' := Step(q, t, move);
            if move.Go? && PcOf(q, t).EnqueuePush? then
              q'.items == q.items + [PcOf(q, t).msg]
            else if move.Go? && PcOf(q, t).DequeuePop? then
              q.items == [PcOf(q', t).msg] + q'.items && PcOf(q', t).DequeueUnlock?
            else q'.items == q.items
  {
    RunKeepsInv(steps);
    hide Run, Inv, Step;
    StepIsFifo(Run(steps), t, move);
  }

  lemma StepIsFifo<T>(q: Queue<T>, t: int, move: Move<T>)
    requires Inv(q)
    ensures var q' := Step(q, t, move);
            if move.Go? && PcOf(q, t).EnqueuePush? then
              q'.items == q.items + [PcOf(q, t).msg]
            else if move.Go? && PcOf(q, t).DequeuePop? then
              q.items == [PcOf(q', t).msg] + q'.items && PcOf(q', t).DequeueUnlock?
            else q'.items == q.items
  {
    hide Exclusive, Counted;
  }

  /** No message is stranded: when no thread is inside the queue's methods, each queued message
      has a semaphore unit waiting for a consumer. */
  lemma NothingStranded<T>(steps: seq<(int, Move<T>)>)
    ensures var q := Run(steps);
            (forall t :: t in q.pcs ==> q.pcs[t].Idle?) ==> q.sem == |q.items|
  {
    RunKeepsInv(steps);
    var q := Run(steps);
    if forall t :: t in q.pcs ==> q.pcs[t].Idle? {
      forall t: int
        ensures t !in Consumers(q) && t !in Producers(q)
      {
        if t in q.pcs {
          assert q.pcs[t].Idle?;
        }
      }
      assert |Consumers(q)| == 0 && |Producers(q)| == 0;
    }
  }
}
