/** The threaded message queue: any number of producers, one worker thread, and a destructor.

    Each step of a thread that touches shared state is one event, so a list of events is one
    interleaving; an event that is not enabled in a state does nothing there. The lock-free queue and
    the flag m_running are atomic: one event per operation. A producer's push is two events, because
    the flag is read before the enqueue. */
module MessageQueue {
  import opened RankingIndex
  import opened Runs
  import opened Sequences
  import opened TopLists

  datatype Command = NotDefined | Stop | AddKeyCommand | GetKeyRanking | IsHotKeyCommand | SetRankingLength

  datatype Message = Message(cmd: Command, str1: string, str2: string, byte: nat, short: nat, number: nat)

  /** A heap-allocated message: which allocation it is, and what it holds. */
  datatype Pointer = Pointer(id: nat, msg: Message)

  predicate IsOwned(m: Message) {
    m.cmd.AddKeyCommand? || m.cmd.SetRankingLength?
  }

  /** What dispatching a message asks of the consumer. */
  function OpsOf(m: Message): seq<Op> {
    match m.cmd
    case AddKeyCommand => [AddKey(m.str1, m.str2, m.number)]
    case SetRankingLength => [SetTop(m.short)]
    case _ => []
  }

  function AllOps(ps: seq<Pointer>): seq<Op> {
    if ps == [] then [] else AllOps(ps[..|ps| - 1]) + OpsOf(ps[|ps| - 1].msg)
  }

  /** The messages that run() deletes: it leaks stop messages and unknown ones. */
  function OwnedIn(ps: seq<Pointer>): seq<Pointer> {
    if ps == [] then []
    else OwnedIn(ps[..|ps| - 1]) + if IsOwned(ps[|ps| - 1].msg) then [ps[|ps| - 1]] else []
  }

  // ---------------------------------------------------------------- the state machine

  datatype Worker =
    | NoThread
    | AtTop                    // about to test m_running
    | AtPoll                   // about to look into the queue
    | Holding(p: Pointer)      // popped, not yet dispatched
    | Applied(q: Pointer)      // handed to the consumer, not yet deleted
    | Finished                 // out of the loop, not yet joined

  datatype Life = Alive | Destroying | Gone

  datatype System = System(
    running: bool,
    queue: seq<Pointer>,
    worker: Worker,
    life: Life,
    used: set<nat>,            // allocations made so far
    checked: set<Pointer>,     // pushes that saw m_running and have not enqueued yet
    accepted: seq<Pointer>,    // enqueued so far, in order
    popped: seq<Pointer>,      // popped by run() so far, in order
    drained: seq<Pointer>,     // popped by the destructor so far, in order
    deleted: seq<Pointer>,     // deletes so far, in order
    fault: bool,               // a deleted message was used or deleted again
    index: Index)

  datatype Event =
    | PushTest(p: Pointer)     // a producer allocates p and reads m_running
    | Enqueue(p: Pointer)
    | Test
    | Poll
    | Dispatch
    | Delete
    | StopRequest              // stop(): m_running = false
    | Join
    | Start
    | Destroy                  // the destructor begins
    | DestroyStep              // one turn of its loop

  function NewQueue(ix: Index): System {
    System(false, [], NoThread, Alive, {}, {}, [], [], [], [], false, ix)
  }

  /** The consumer call of a dispatch, if any. */
  function ApplyMessage(ix: Index, m: Message): Index {
    match m.cmd
    case AddKeyCommand => Add(ix, m.str1, m.str2, m.number)
    case SetRankingLength => SetBase(ix, m.short)
    case _ => ix
  }

  function DoDispatch(s: System, p: Pointer): System {
    s.(fault := s.fault || p in s.deleted,
       index := ApplyMessage(s.index, p.msg),
       running := s.running && !p.msg.cmd.Stop?,
       worker := if IsOwned(p.msg) then Applied(p) else AtTop)
  }

  function DoDelete(s: System, p: Pointer): System {
    s.(fault := s.fault || p in s.deleted, deleted := s.deleted + [p])
  }

  function Next(s: System, e: Event): System {
    match e
    case DestroyStep =>
      if !s.life.Destroying? then s
      else if s.queue == [] then s.(life := Gone)
      else DoDelete(s.(queue := s.queue[1..], drained := s.drained + [s.queue[0]]), s.queue[0])
    case _ => if s.life.Alive? then NextAlive(s, e) else s
  }

  function NextAlive(s: System, e: Event): System {
    match e
    case PushTest(p) =>
      if p.id in s.used then s
      else s.(used := s.used + {p.id}, checked := if s.running then s.checked + {p} else s.checked)
    case Enqueue(p) =>
      if p !in s.checked then s
      else s.(checked := s.checked - {p}, queue := s.queue + [p], accepted := s.accepted + [p],
              fault := s.fault || p in s.deleted)
    case Test => if s.worker.AtTop? then s.(worker := if s.running then AtPoll else Finished) else s
    case Poll =>
      if !s.worker.AtPoll? then s
      else if s.queue == [] then s.(worker := AtTop)
      else s.(queue := s.queue[1..], popped := s.popped + [s.queue[0]], worker := Holding(s.queue[0]))
    case Dispatch => if s.worker.Holding? then DoDispatch(s, s.worker.p) else s
    case Delete => if s.worker.Applied? then DoDelete(s, s.worker.q).(worker := AtTop) else s
    case StopRequest => s.(running := false)
    case Join => if s.worker.Finished? then s.(worker := NoThread) else s
    case Start => if s.worker.NoThread? then s.(running := true, worker := AtTop) else s
    case Destroy => if s.worker.NoThread? && s.checked == {} then s.(life := Destroying) else s
    case DestroyStep => s
  }

  function Exec(s: System, es: seq<Event>): System {
    if es == [] then s else Next(Exec(s, es[..|es| - 1]), es[|es| - 1])
  }

  // ---------------------------------------------------------------- the invariant

  predicate InHand(w: Worker) {
    w.Holding? || w.Applied?
  }

  function HandOf(w: Worker): Pointer
    requires InHand(w)
  {
    if w.Holding? then w.p else w.q
  }

  /** Popped and finished with: everything popped but what the worker has in its hand. */
  function Settled(s: System): seq<Pointer> {
    if InHand(s.worker) && s.popped != [] then s.popped[..|s.popped| - 1] else s.popped
  }

  /** Popped and handed to the consumer. */
  function Consumed(s: System): seq<Pointer> {
    if s.worker.Holding? && s.popped != [] then s.popped[..|s.popped| - 1] else s.popped
  }

  ghost predicate NoTwice(ps: seq<Pointer>) {
    forall i, j :: 0 <= i < j < |ps| ==> ps[i].id != ps[j].id
  }

  /** Nothing is lost, invented or reordered between push and pop. */
  ghost predicate Fifo(s: System) {
    s.popped + s.drained + s.queue == s.accepted
  }

  ghost predicate Allocated(s: System) {
    && NoTwice(s.accepted)
    && (forall p :: p in s.accepted ==> p.id in s.used)
    && (forall p :: p in s.checked ==> p.id in s.used && forall q :: q in s.accepted ==> p.id != q.id)
    && (forall p, q :: p in s.checked && q in s.checked && p != q ==> p.id != q.id)
  }

  ghost predicate Hand(s: System) {
    && (InHand(s.worker) ==> s.popped != [] && s.popped[|s.popped| - 1] == HandOf(s.worker))
    && (s.worker.Applied? ==> IsOwned(s.worker.q.msg))
    && (s.life.Alive? ==> s.drained == [])
    && (!s.life.Alive? ==> s.worker.NoThread?)
    && (s.life.Gone? ==> s.queue == [])
  }

  ghost predicate Structure(s: System) {
    Fifo(s) && Allocated(s) && Hand(s)
  }

  /** The consumer has seen exactly the consumed messages, in order; what is deleted is exactly what
      run() is done with and owns, then what the destructor popped; nothing was touched after that. */
  ghost predicate Effects(ix: Index, s: System) {
    && s.index == Run(ix, AllOps(Consumed(s)))
    && s.deleted == OwnedIn(Settled(s)) + s.drained
    && !s.fault
  }

  ghost predicate Invariant(ix: Index, s: System) {
    Structure(s) && Effects(ix, s)
  }

  // ---------------------------------------------------------------- one step keeps the structure

  lemma Shift<T>(a: seq<T>, b: seq<T>, c: seq<T>)
    requires c != []
    ensures a + b + c == a + (b + [c[0]]) + c[1..]
    ensures b == [] ==> a + b + c == a + [c[0]] + b + c[1..]
  {
  }

  lemma PollKeepsStructure(s: System)
    requires Structure(s) && s.life.Alive? && s.worker.AtPoll? && s.queue != []
    ensures Structure(Next(s, Poll))
  {
    Shift(s.popped, s.drained, s.queue);
    assert Fifo(Next(s, Poll));
  }

  lemma EnqueueKeepsStructure(s: System, p: Pointer)
    requires Structure(s) && s.life.Alive? && p in s.checked
    ensures Structure(Next(s, Enqueue(p)))
  {
    var s' := Next(s, Enqueue(p));
    assert s.popped + s.drained + (s.queue + [p]) == s.popped + s.drained + s.queue + [p];
    assert Fifo(s');
    assert Allocated(s');
  }

  lemma PushTestKeepsStructure(s: System, p: Pointer)
    requires Structure(s)
    ensures Structure(NextAlive(s, PushTest(p)))
  {
  }

  /** Steps that move no message. */
  predicate IsControl(s: System, e: Event) {
    !e.Enqueue? && !e.PushTest? && (e.Poll? && s.worker.AtPoll? ==> s.queue == [])
  }

  lemma ControlMovesNothing(s: System, e: Event)
    requires IsControl(s, e) && (Fifo(s) && Allocated(s))
    ensures Fifo(NextAlive(s, e)) && Allocated(NextAlive(s, e))
  {
    var s' := NextAlive(s, e);
    assert s'.popped == s.popped && s'.drained == s.drained && s'.queue == s.queue && s'.accepted == s.accepted;
    assert s'.used == s.used && s'.checked == s.checked;
  }

  lemma ControlKeepsHand(s: System, e: Event)
    requires IsControl(s, e) && Hand(s) && s.life.Alive?
    ensures Hand(NextAlive(s, e))
  {
  }

  lemma ControlKeepsStructure(s: System, e: Event)
    requires Structure(s) && s.life.Alive? && IsControl(s, e)
    ensures Structure(NextAlive(s, e))
  {
    ControlMovesNothing(s, e);
    ControlKeepsHand(s, e);
  }

  lemma DestroyStepKeepsStructure(s: System)
    requires Structure(s)
    ensures Structure(Next(s, DestroyStep))
  {
    if s.life.Destroying? && s.queue != [] {
      Shift(s.popped, s.drained, s.queue);
    }
  }

  lemma StepKeepsStructure(s: System, e: Event)
    requires Structure(s)
    ensures Structure(Next(s, e))
  {
    if e.DestroyStep? {
      DestroyStepKeepsStructure(s);
    } else if s.life.Alive? {
      if e.Poll? && s.worker.AtPoll? && s.queue != [] {
        PollKeepsStructure(s);
      } else if e.Enqueue? {
        if e.p in s.checked {
          EnqueueKeepsStructure(s, e.p);
        }
      } else if e.PushTest? {
        PushTestKeepsStructure(s, e.p);
      } else {
        ControlKeepsStructure(s, e);
      }
    }
  }

  // ---------------------------------------------------------------- one step keeps the effects

  lemma {:induction false} OwnedInSubset(ps: seq<Pointer>, p: Pointer)
    requires p in OwnedIn(ps)
    ensures p in ps && IsOwned(p.msg)
  {
    if ps != [] && p in OwnedIn(ps[..|ps| - 1]) {
      OwnedInSubset(ps[..|ps| - 1], p);
    }
  }

  lemma ConsumeOne(ix: Index, front: seq<Pointer>, p: Pointer)
    ensures Run(ix, AllOps(front + [p])) == ApplyMessage(Run(ix, AllOps(front)), p.msg)
  {
    assert (front + [p])[..|front|] == front;
    var ops := AllOps(front);
    if IsOwned(p.msg) {
      var op := OpsOf(p.msg)[0];
      assert (ops + [op])[..|ops|] == ops;
      assert AllOps(front + [p]) == ops + [op];
    } else {
      assert ops + [] == ops;
    }
  }

  lemma OwnOne(front: seq<Pointer>, p: Pointer)
    ensures OwnedIn(front + [p]) == OwnedIn(front) + if IsOwned(p.msg) then [p] else []
  {
    assert (front + [p])[..|front|] == front;
  }

  /** With distinct allocations, what comes later in the accepted order is not among the earlier. */
  lemma LaterIsNotEarlier(a: seq<Pointer>, p: Pointer, c: seq<Pointer>)
    requires NoTwice(a + [p] + c)
    ensures p !in a
  {
    assert (a + [p] + c)[|a|] == p;
    assert forall i :: 0 <= i < |a| ==> (a + [p] + c)[i] == a[i];
  }

  lemma DeletedIsPopped(ix: Index, s: System, p: Pointer)
    requires Effects(ix, s) && p in s.deleted
    ensures p in Settled(s) || p in s.drained
  {
    if p in OwnedIn(Settled(s)) {
      OwnedInSubset(Settled(s), p);
    }
  }

  lemma PoppedSplits(s: System)
    requires Hand(s) && InHand(s.worker)
    ensures s.popped == Settled(s) + [HandOf(s.worker)]
  {
  }

  lemma HandIsNotDeleted(ix: Index, s: System)
    requires Invariant(ix, s) && InHand(s.worker)
    ensures HandOf(s.worker) !in s.deleted
  {
    var p := HandOf(s.worker);
    PoppedSplits(s);
    assert s.drained == [];
    assert s.accepted == Settled(s) + [p] + s.queue;
    LaterIsNotEarlier(Settled(s), p, s.queue);
    if p in s.deleted {
      DeletedIsPopped(ix, s, p);
    }
  }

  lemma CheckedIsNotDeleted(ix: Index, s: System, p: Pointer)
    requires Invariant(ix, s) && s.life.Alive? && p in s.checked
    ensures p !in s.deleted
  {
    assert forall q :: q in Settled(s) || q in s.drained ==> q in s.popped + s.drained + s.queue;
    if p in s.deleted {
      DeletedIsPopped(ix, s, p);
    }
  }

  lemma QueuedIsNotDeleted(ix: Index, s: System)
    requires Invariant(ix, s) && s.life.Destroying? && s.queue != []
    ensures s.queue[0] !in s.deleted
  {
    SplitHead(s.popped + s.drained, s.queue);
    LaterIsNotEarlier(s.popped + s.drained, s.queue[0], s.queue[1..]);
    if s.queue[0] in s.deleted {
      DeletedIsPopped(ix, s, s.queue[0]);
    }
  }

  lemma PollKeepsEffects(ix: Index, s: System)
    requires Effects(ix, s) && s.worker.AtPoll? && s.queue != []
    ensures Effects(ix, NextAlive(s, Poll))
  {
    var s' := NextAlive(s, Poll);
    assert s'.popped[..|s'.popped| - 1] == s.popped;
  }

  lemma DispatchKeepsEffects(ix: Index, s: System, p: Pointer)
    requires Effects(ix, s) && s.worker == Holding(p) && s.popped == Settled(s) + [p] && p !in s.deleted
    ensures Effects(ix, NextAlive(s, Dispatch))
  {
    hide Run, AllOps, OwnedIn, ApplyMessage;
    var s' := NextAlive(s, Dispatch);
    ConsumeOne(ix, Settled(s), p);
    assert Consumed(s) == Settled(s) && Consumed(s') == s.popped;
    assert Settled(s') == if IsOwned(p.msg) then Settled(s) else s.popped;
    if !IsOwned(p.msg) {
      OwnNothing(Settled(s), p);
    }
  }

  lemma OwnNothing(front: seq<Pointer>, p: Pointer)
    requires !IsOwned(p.msg)
    ensures OwnedIn(front + [p]) == OwnedIn(front)
  {
    OwnOne(front, p);
  }

  lemma DeleteKeepsEffects(ix: Index, s: System, p: Pointer)
    requires Effects(ix, s) && s.worker == Applied(p) && IsOwned(p.msg)
    requires s.popped == Settled(s) + [p] && s.drained == [] && p !in s.deleted
    ensures Effects(ix, NextAlive(s, Delete))
  {
    hide Run, AllOps, OwnedIn;
    var s' := NextAlive(s, Delete);
    OwnLast(Settled(s), p);
    assert s'.popped == s.popped && !InHand(s'.worker);
  }

  lemma OwnLast(front: seq<Pointer>, p: Pointer)
    requires IsOwned(p.msg)
    ensures OwnedIn(front) + [] + [p] == OwnedIn(front + [p]) + []
  {
    OwnOne(front, p);
  }

  lemma WorkerKeepsEffects(ix: Index, s: System, e: Event)
    requires Invariant(ix, s) && s.life.Alive? && (e.Poll? || e.Dispatch? || e.Delete?)
    ensures Effects(ix, NextAlive(s, e))
  {
    hide Effects, ApplyMessage, Fifo, Allocated;
    if InHand(s.worker) {
      PoppedSplits(s);
      HandIsNotDeleted(ix, s);
    }
    if e.Poll? && s.worker.AtPoll? && s.queue != [] {
      PollKeepsEffects(ix, s);
    } else if e.Dispatch? && s.worker.Holding? {
      DispatchKeepsEffects(ix, s, s.worker.p);
    } else if e.Delete? && s.worker.Applied? {
      DeleteKeepsEffects(ix, s, s.worker.q);
    } else {
      QuietKeepsEffects(ix, s, NextAlive(s, e));
    }
  }

  /** Nothing that the effects are about has changed. */
  ghost predicate Quiet(s: System, s': System) {
    && s'.popped == s.popped && s'.drained == s.drained && s'.deleted == s.deleted
    && s'.index == s.index && s'.fault == s.fault
    && (s'.worker == s.worker || (!InHand(s.worker) && !InHand(s'.worker)))
  }

  lemma QuietKeepsEffects(ix: Index, s: System, s': System)
    requires Effects(ix, s) && Quiet(s, s')
    ensures Effects(ix, s')
  {
  }

  predicate IsWorkerStep(e: Event) {
    e.Poll? || e.Dispatch? || e.Delete?
  }

  lemma OtherEventsAreQuiet(s: System, e: Event)
    requires !IsWorkerStep(e) && !e.DestroyStep? && (e.Enqueue? ==> e.p !in s.deleted)
    ensures Quiet(s, NextAlive(s, e))
  {
  }

  lemma DestroyStepKeepsEffects(ix: Index, s: System)
    requires Invariant(ix, s) && s.life.Destroying? && s.queue != []
    ensures Effects(ix, Next(s, DestroyStep))
  {
    QueuedIsNotDeleted(ix, s);
    assert OwnedIn(s.popped) + s.drained + [s.queue[0]] == OwnedIn(s.popped) + (s.drained + [s.queue[0]]);
  }

  lemma StepKeepsEffects(ix: Index, s: System, e: Event)
    requires Invariant(ix, s)
    ensures Effects(ix, Next(s, e))
  {
    if e.DestroyStep? {
      if s.life.Destroying? && s.queue != [] {
        DestroyStepKeepsEffects(ix, s);
      } else {
        QuietKeepsEffects(ix, s, Next(s, e));
      }
    } else if s.life.Alive? {
      if IsWorkerStep(e) {
        WorkerKeepsEffects(ix, s, e);
      } else {
        if e.Enqueue? && e.p in s.checked {
          CheckedIsNotDeleted(ix, s, e.p);
        }
        KeepsQuiet(ix, s, e);
      }
    }
  }

  lemma KeepsQuiet(ix: Index, s: System, e: Event)
    requires Effects(ix, s) && !IsWorkerStep(e) && !e.DestroyStep?
    requires e.Enqueue? && e.p in s.checked ==> e.p !in s.deleted
    ensures Effects(ix, NextAlive(s, e))
  {
    if e.Enqueue? && e.p !in s.checked {
    } else {
      OtherEventsAreQuiet(s, e);
      QuietKeepsEffects(ix, s, NextAlive(s, e));
    }
  }

  /** Every interleaving, including stops and restarts and the destructor. */
  lemma {:induction false} ExecKeepsInvariant(ix: Index, es: seq<Event>)
    ensures Invariant(ix, Exec(NewQueue(ix), es))
  {
    if es == [] {
      assert Run(ix, AllOps([])) == ix;
    } else {
      ExecKeepsInvariant(ix, es[..|es| - 1]);
      StepKeepsStructure(Exec(NewQueue(ix), es[..|es| - 1]), es[|es| - 1]);
      StepKeepsEffects(ix, Exec(NewQueue(ix), es[..|es| - 1]), es[|es| - 1]);
    }
  }

  // ---------------------------------------------------------------- what follows for whole runs

  /** In every interleaving: what was popped, then what the destructor popped, then what is queued, is
      what was accepted, in order; and the consumer's state is the fold of the consumed messages. */
  lemma QueueIsFifo(ix: Index, es: seq<Event>)
    ensures var s := Exec(NewQueue(ix), es);
            && s.popped + s.drained + s.queue == s.accepted
            && s.index == Run(ix, AllOps(Consumed(s)))
            && Consumed(s) <= s.accepted
  {
    ExecKeepsInvariant(ix, es);
  }

  lemma {:induction false} OwnedOnce(ps: seq<Pointer>, p: Pointer)
    requires NoTwice(ps)
    ensures multiset(OwnedIn(ps))[p] == if p in ps && IsOwned(p.msg) then 1 else 0
  {
    if ps != [] {
      var n := |ps| - 1;
      OwnedOnce(ps[..n], p);
      assert ps == ps[..n] + [ps[n]];
      assert p in ps[..n] ==> p.id != ps[n].id;
    }
  }

  lemma {:induction false} ListedOnce(ps: seq<Pointer>, p: Pointer)
    requires NoTwice(ps)
    ensures multiset(ps)[p] == if p in ps then 1 else 0
  {
    if ps != [] {
      var n := |ps| - 1;
      ListedOnce(ps[..n], p);
      assert ps == ps[..n] + [ps[n]];
      assert p in ps[..n] ==> p.id != ps[n].id;
    }
  }

  lemma PartsOfDistinct(a: seq<Pointer>, b: seq<Pointer>)
    requires NoTwice(a + b)
    ensures NoTwice(a) && NoTwice(b)
    ensures forall p :: !(p in a && p in b)
  {
    assert forall i :: 0 <= i < |a| ==> (a + b)[i] == a[i];
    assert forall i :: 0 <= i < |b| ==> (a + b)[|a| + i] == b[i];
  }

  /** No interleaving deletes a message twice or touches a deleted one. When the destructor is through,
      every accepted message that asks something of the consumer has been deleted exactly once; the
      others exactly if they were still queued when the destructor ran. */
  lemma EachMessageDeletedOnce(ix: Index, es: seq<Event>, p: Pointer)
    ensures var s := Exec(NewQueue(ix), es);
            && !s.fault
            && multiset(s.deleted)[p] <= 1
            && (s.life.Gone? ==>
                  multiset(s.deleted)[p] ==
                  if p in s.accepted && (p.msg.cmd.AddKeyCommand? || p.msg.cmd.SetRankingLength? || p in s.drained)
                  then 1 else 0)
  {
    ExecKeepsInvariant(ix, es);
    var s := Exec(NewQueue(ix), es);
    PartsOfDistinct(s.popped + s.drained, s.queue);
    PartsOfDistinct(s.popped, s.drained);
    SettledIsPrefix(s);
    PartsOfDistinct(Settled(s), s.popped[|Settled(s)|..]);
    OwnedOnce(Settled(s), p);
    ListedOnce(s.drained, p);
    assert p in Settled(s) ==> p in s.popped;
    if s.life.Gone? {
      assert s.accepted == s.popped + s.drained;
    }
  }

  lemma SettledIsPrefix(s: System)
    ensures Settled(s) <= s.popped && s.popped == Settled(s) + s.popped[|Settled(s)|..]
  {
  }

  // ---------------------------------------------------------------- draining

  /** One turn of the worker's loop. */
  const TURN: seq<Event> := [Test, Poll, Dispatch, Delete]

  predicate Running(s: System) {
    s.life.Alive? && s.running && s.worker.AtTop?
  }

  /** The queue length is a termination measure: a turn consumes exactly the front message, and
      without a stop message the worker is ready for the next. */
  lemma TurnConsumesFront(s: System)
    requires Running(s) && s.queue != [] && !s.queue[0].msg.cmd.Stop?
    ensures var s' := Exec(s, TURN);
            && Running(s')
            && s'.queue == s.queue[1..] && s'.accepted == s.accepted
            && s'.index == ApplyMessage(s.index, s.queue[0].msg)
  {
    assert TURN[..3] == [Test, Poll, Dispatch] && TURN[..3][..2] == [Test, Poll] && TURN[..3][..2][..1] == [Test];
    var s1 := Next(s, Test);
    var s2 := Next(s1, Poll);
    var s3 := Next(s2, Dispatch);
    assert Exec(s, []) == s;
    assert Exec(s, [Test]) == s1;
    assert Exec(s, [Test, Poll]) == s2;
    assert Exec(s, [Test, Poll, Dispatch]) == s3;
    assert Exec(s, TURN) == Next(s3, Delete);
  }

  lemma {:induction false} ExecAppend(s: System, a: seq<Event>, b: seq<Event>)
    ensures Exec(s, a + b) == Exec(Exec(s, a), b)
  {
    if b == [] {
      assert a + b == a;
    } else {
      assert (a + b)[..|a + b| - 1] == a + b[..|b| - 1];
      ExecAppend(s, a, b[..|b| - 1]);
    }
  }

  function Turns(n: nat): seq<Event> {
    if n == 0 then [] else TURN + Turns(n - 1)
  }

  /** Without a stop message in it, a queue of n messages is drained by n turns. */
  lemma {:induction false} TurnsDrain(s: System)
    requires Running(s) && forall i :: 0 <= i < |s.queue| ==> !s.queue[i].msg.cmd.Stop?
    ensures var s' := Exec(s, Turns(|s.queue|));
            Running(s') && s'.queue == [] && s'.accepted == s.accepted
    decreases |s.queue|
  {
    if s.queue != [] {
      TurnConsumesFront(s);
      TurnsDrain(Exec(s, TURN));
      ExecAppend(s, TURN, Turns(|s.queue| - 1));
    }
  }

  // ---------------------------------------------------------------- shutting down

  function DestroySteps(n: nat): seq<Event> {
    if n == 0 then [] else [DestroyStep] + DestroySteps(n - 1)
  }

  lemma ExecOne(s: System, e: Event)
    ensures Exec(s, [e]) == Next(s, e)
  {
    assert [e][..0] == [];
  }

  lemma ExecFirst(s: System, e: Event, es: seq<Event>)
    ensures Exec(s, [e] + es) == Exec(Next(s, e), es)
  {
    ExecOne(s, e);
    ExecAppend(s, [e], es);
  }

  lemma DestroyStepEffect(s: System)
    requires s.life.Destroying?
    ensures var s' := Next(s, DestroyStep);
            && s'.accepted == s.accepted
            && if s.queue == [] then s'.life.Gone? else s'.life.Destroying? && |s'.queue| == |s.queue| - 1
  {
  }

  /** Any number of turns of the destructor's loop above the queue length is enough. */
  lemma {:induction false} DestructorEnds(s: System, n: nat)
    requires s.life.Destroying? && |s.queue| < n
    ensures Exec(s, DestroySteps(n)).life.Gone? && Exec(s, DestroySteps(n)).accepted == s.accepted
    decreases n
  {
    ExecFirst(s, DestroyStep, DestroySteps(n - 1));
    DestroyStepEffect(s);
    if s.queue != [] {
      DestructorEnds(Next(s, DestroyStep), n - 1);
    } else {
      GoneStays(Next(s, DestroyStep), n - 1);
    }
  }

  lemma {:induction false} GoneStays(s: System, n: nat)
    requires s.life.Gone?
    ensures Exec(s, DestroySteps(n)) == s
    decreases n
  {
    if n > 0 {
      ExecFirst(s, DestroyStep, DestroySteps(n - 1));
      GoneStays(s, n - 1);
    }
  }

  /** stop() clears the flag, the worker finishes the turn it is in and leaves, stop() joins it, and the
      destructor runs. Steps that the worker has behind it do nothing. */
  function Shutdown(n: nat): seq<Event> {
    [StopRequest] + [Poll] + [Dispatch] + [Delete] + [Test] + [Join] + [Destroy] + DestroySteps(n + 1)
  }

  function WindDown(s: System): System {
    Next(Next(Next(Next(s, StopRequest), Poll), Dispatch), Delete)
  }

  /** After its turn the worker is at the top of its loop, or was gone before. */
  lemma TurnEnds(s: System)
    requires s.life.Alive?
    ensures var s' := WindDown(s);
            && s'.life.Alive? && !s'.running && (s'.worker.AtTop? || s'.worker.Finished? || s'.worker.NoThread?)
            && s'.checked == s.checked && s'.accepted == s.accepted && |s'.queue| <= |s.queue|
  {
    hide ApplyMessage, IsOwned;
    var s1 := Next(s, StopRequest);
    assert !s1.running && s1.worker == s.worker && s1.queue == s.queue;
    var s2 := Next(s1, Poll);
    assert !s2.running && !s2.worker.AtPoll? && |s2.queue| <= |s.queue| && s2.accepted == s.accepted;
    var s3 := Next(s2, Dispatch);
    assert !s3.running && !s3.worker.AtPoll? && !s3.worker.Holding? && s3.queue == s2.queue;
  }

  lemma JoinAndDestroy(s: System)
    requires s.life.Alive? && !s.running && s.checked == {}
    requires s.worker.AtTop? || s.worker.Finished? || s.worker.NoThread?
    ensures var s' := Next(Next(Next(s, Test), Join), Destroy);
            s'.life.Destroying? && s'.queue == s.queue && s'.accepted == s.accepted
  {
    var s1 := Next(s, Test);
    assert s1.worker.Finished? || s1.worker.NoThread?;
  }

  lemma ShutdownUnfolds(s: System, n: nat)
    ensures Exec(s, Shutdown(n)) ==
            Exec(Next(Next(Next(WindDown(s), Test), Join), Destroy), DestroySteps(n + 1))
  {
    var a := [StopRequest];
    ExecOne(s, StopRequest);
    ExecThen(s, a, Poll);
    ExecThen(s, a + [Poll], Dispatch);
    ExecThen(s, a + [Poll] + [Dispatch], Delete);
    ExecThen(s, a + [Poll] + [Dispatch] + [Delete], Test);
    ExecThen(s, a + [Poll] + [Dispatch] + [Delete] + [Test], Join);
    ExecThen(s, a + [Poll] + [Dispatch] + [Delete] + [Test] + [Join], Destroy);
    ExecAppend(s, a + [Poll] + [Dispatch] + [Delete] + [Test] + [Join] + [Destroy], DestroySteps(n + 1));
  }

  lemma ExecThen(s: System, es: seq<Event>, e: Event)
    ensures Exec(s, es + [e]) == Next(Exec(s, es), e)
  {
    assert (es + [e])[..|es|] == es;
  }

  /** After any interleaving, wherever the worker is, as long as the queue is alive and no push is in
      flight: stopping and destroying the queue comes to an end, and then every owned message that was
      ever accepted has been deleted exactly once. */
  lemma ShutdownDeletesAll(ix: Index, es: seq<Event>, p: Pointer)
    requires var s := Exec(NewQueue(ix), es); s.life.Alive? && s.checked == {}
    requires p in Exec(NewQueue(ix), es).accepted && (p.msg.cmd.AddKeyCommand? || p.msg.cmd.SetRankingLength?)
    ensures var s' := Exec(NewQueue(ix), es + Shutdown(|Exec(NewQueue(ix), es).queue|));
            s'.life.Gone? && multiset(s'.deleted)[p] == 1
  {
    var s := Exec(NewQueue(ix), es);
    TurnEnds(s);
    JoinAndDestroy(WindDown(s));
    DestructorEnds(Next(Next(Next(WindDown(s), Test), Join), Destroy), |s.queue| + 1);
    ShutdownUnfolds(s, |s.queue|);
    ExecAppend(NewQueue(ix), es, Shutdown(|s.queue|));
    EachMessageDeletedOnce(ix, es + Shutdown(|s.queue|), p);
  }

  // ---------------------------------------------------------------- independence of the schedule

  /** The keys of the add messages, in order. */
  function SentKeys(ps: seq<Pointer>): seq<string> {
    if ps == [] then []
    else SentKeys(ps[..|ps| - 1]) + if ps[|ps| - 1].msg.cmd.AddKeyCommand? then [ps[|ps| - 1].msg.str1] else []
  }

  lemma {:induction false} OpsAreTracking(ps: seq<Pointer>)
    ensures Tracking(AllOps(ps)) && AddedKeys(AllOps(ps)) == SentKeys(ps)
  {
    if ps != [] {
      var front, m := ps[..|ps| - 1], ps[|ps| - 1].msg;
      OpsAreTracking(front);
      if IsOwned(m) {
        assert AllOps(ps)[..|AllOps(ps)| - 1] == AllOps(front);
      } else {
        assert AllOps(ps) == AllOps(front);
      }
    }
  }

  /** The queue is empty and the last popped message has reached the consumer. */
  predicate Drained(s: System) {
    s.life.Alive? && s.queue == [] && !s.worker.Holding?
  }

  lemma DrainedConsumedAll(ix: Index, es: seq<Event>)
    requires Drained(Exec(NewQueue(ix), es))
    ensures var s := Exec(NewQueue(ix), es); s.index == Run(ix, AllOps(s.accepted))
  {
    ExecKeepsInvariant(ix, es);
    var s := Exec(NewQueue(ix), es);
    assert s.popped + [] + [] == s.popped;
  }

  /** Any two interleavings that drain the queue and accepted the same keys equally often, in any
      order and from any producers, end with the same count for every key; and if they agree on the
      report size, with the same list of reported counts. */
  lemma ScheduleIndependence(ix: Index, es: seq<Event>, es': seq<Event>)
    requires ix.keys == map[] && ix.ranking == [] && ix.base <= ix.max
    requires Drained(Exec(NewQueue(ix), es)) && Drained(Exec(NewQueue(ix), es'))
    requires multiset(SentKeys(Exec(NewQueue(ix), es).accepted)) == multiset(SentKeys(Exec(NewQueue(ix), es').accepted))
    ensures var a, b := Exec(NewQueue(ix), es).index, Exec(NewQueue(ix), es').index;
            && CountTable(a.keys) == CountTable(b.keys)
            && (a.base == b.base ==> Freqs(Report(a)) == Freqs(Report(b)))
  {
    DrainedConsumedAll(ix, es);
    DrainedConsumedAll(ix, es');
    OpsAreTracking(Exec(NewQueue(ix), es).accepted);
    OpsAreTracking(Exec(NewQueue(ix), es').accepted);
    OrderIndependence(ix, AllOps(Exec(NewQueue(ix), es).accepted), AllOps(Exec(NewQueue(ix), es').accepted));
  }

  lemma {:induction false} OnlyAddsKeepBase(ix: Index, ps: seq<Pointer>)
    requires NoSizeChange(ps)
    ensures Run(ix, AllOps(ps)).base == ix.base
  {
    if ps != [] {
      var front, p := ps[..|ps| - 1], ps[|ps| - 1];
      SplitLast(ps);
      OnlyAddsKeepBase(ix, front);
      ConsumeOne(ix, front, p);
    }
  }

  predicate NoSizeChange(ps: seq<Pointer>) {
    forall i :: 0 <= i < |ps| ==> !ps[i].msg.cmd.SetRankingLength?
  }

  /** With key traffic only, the reports of any two draining interleavings show the same counts. */
  lemma KeyTrafficIndependence(ix: Index, es: seq<Event>, es': seq<Event>)
    requires ix.keys == map[] && ix.ranking == [] && ix.base <= ix.max
    requires Drained(Exec(NewQueue(ix), es)) && Drained(Exec(NewQueue(ix), es'))
    requires multiset(SentKeys(Exec(NewQueue(ix), es).accepted)) == multiset(SentKeys(Exec(NewQueue(ix), es').accepted))
    requires NoSizeChange(Exec(NewQueue(ix), es).accepted) && NoSizeChange(Exec(NewQueue(ix), es').accepted)
    ensures Freqs(Report(Exec(NewQueue(ix), es).index)) == Freqs(Report(Exec(NewQueue(ix), es').index))
  {
    ScheduleIndependence(ix, es, es');
    DrainedConsumedAll(ix, es);
    DrainedConsumedAll(ix, es');
    OnlyAddsKeepBase(ix, Exec(NewQueue(ix), es).accepted);
    OnlyAddsKeepBase(ix, Exec(NewQueue(ix), es').accepted);
  }
}
