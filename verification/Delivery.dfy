/** What the messages leave behind in the consumer, said of the messages themselves, in every
    interleaving of the queue. */
module Delivery {
  import opened MessageQueue
  import opened MessageServer
  import opened RankingIndex
  import opened Runs
  import opened Sequences

  predicate AddsKey(m: Message, k: string) {
    m.cmd.AddKeyCommand? && m.str1 == k
  }

  /** One more than the place of the last add message with a key; 0 when there is none. */
  function LastSent(ps: seq<Pointer>, k: string): (n: nat)
    ensures n <= |ps|
    ensures n > 0 ==> AddsKey(ps[n - 1].msg, k)
    ensures forall i :: n <= i < |ps| ==> !AddsKey(ps[i].msg, k)
  {
    if ps == [] then 0
    else if AddsKey(ps[|ps| - 1].msg, k) then |ps|
    else LastSent(ps[..|ps| - 1], k)
  }

  /** How many add messages there are with a key. */
  function TimesSent(ps: seq<Pointer>, k: string): (n: nat)
    ensures n <= |ps|
    ensures n > 0 <==> LastSent(ps, k) > 0
  {
    if ps == [] then 0
    else TimesSent(ps[..|ps| - 1], k) + if AddsKey(ps[|ps| - 1].msg, k) then 1 else 0
  }

  /** The operations of a list of messages tell the same history. */
  ghost predicate TellsHistory(ps: seq<Pointer>, k: string) {
    && Occurrences(AllOps(ps), k) == TimesSent(ps, k)
    && (LastAdd(AllOps(ps), k) > 0 <==> LastSent(ps, k) > 0)
    && (LastSent(ps, k) > 0 ==>
        var m := ps[LastSent(ps, k) - 1].msg;
        AllOps(ps)[LastAdd(AllOps(ps), k) - 1] == AddKey(k, m.str2, m.number))
  }

  lemma {:induction false} MessagesTellHistory(ps: seq<Pointer>, k: string)
    ensures TellsHistory(ps, k)
  {
    hide Occurrences, LastAdd, AllOps;
    if ps == [] {
      NoHistory(k);
    } else {
      MessagesTellHistory(ps[..|ps| - 1], k);
      SplitLast(ps);
      OneMoreMessage(ps[..|ps| - 1], ps[|ps| - 1], k);
    }
  }

  lemma OneMoreMessage(front: seq<Pointer>, p: Pointer, k: string)
    requires TellsHistory(front, k)
    ensures TellsHistory(front + [p], k)
  {
    hide Occurrences, LastAdd, AllOps;
    assert (front + [p])[..|front|] == front;
    MessageTellsOp(front, p);
    if OpsOf(p.msg) != [] {
      HistoryStep(AllOps(front), OpsOf(p.msg)[0], k);
    }
  }

  lemma NoHistory(k: string)
    ensures Occurrences(AllOps([]), k) == 0 && LastAdd(AllOps([]), k) == 0
  {
  }

  lemma MessageTellsOp(front: seq<Pointer>, p: Pointer)
    ensures AllOps(front + [p]) == if OpsOf(p.msg) == [] then AllOps(front) else AllOps(front) + [OpsOf(p.msg)[0]]
  {
    assert (front + [p])[..|front|] == front;
    assert OpsOf(p.msg) != [] ==> OpsOf(p.msg) == [OpsOf(p.msg)[0]];
  }

  lemma StoredOfMessages(ix: Index, ps: seq<Pointer>, k: string)
    requires ix.keys == map[]
    ensures k in Run(ix, AllOps(ps)).keys <==> LastSent(ps, k) > 0
    ensures LastSent(ps, k) > 0 ==>
              var m := ps[LastSent(ps, k) - 1].msg;
              Run(ix, AllOps(ps)).keys[k] == Details(m.str2, m.number, TimesSent(ps, k))
  {
    hide Run, AllOps, Occurrences, LastAdd, LastSent, TimesSent;
    OpsAreTracking(ps);
    RunCountsHistory(ix, AllOps(ps));
    assert KeyHistory(Run(ix, AllOps(ps)).keys, AllOps(ps), k);
    MessagesTellHistory(ps, k);
  }

  /** In every interleaving: a key is stored exactly if an add message with it was consumed, under the
      url and the number of the last one, with the number of all of them. */
  lemma StoredIsLastSent(ix: Index, es: seq<Event>, k: string)
    requires ix.keys == map[]
    ensures var s := Exec(NewQueue(ix), es); var ps := Consumed(s);
            && ps <= s.accepted
            && (k in s.index.keys <==> LastSent(ps, k) > 0)
            && (LastSent(ps, k) > 0 ==>
                var m := ps[LastSent(ps, k) - 1].msg;
                s.index.keys[k] == Details(m.str2, m.number, TimesSent(ps, k)))
  {
    QueueIsFifo(ix, es);
    StoredOfMessages(ix, Consumed(Exec(NewQueue(ix), es)), k);
  }

  /** For a key that the server sent last in a payload: stored are what follows the first comma of that
      payload, and port 0. */
  lemma PayloadIsStored(ix: Index, es: seq<Event>, k: string, data: string)
    requires ix.keys == map[]
    requires var ps := Consumed(Exec(NewQueue(ix), es));
             LastSent(ps, k) > 0 && ps[LastSent(ps, k) - 1].msg == KeyMessage(data)
    ensures var s := Exec(NewQueue(ix), es);
            && k in s.index.keys && s.index.keys[k].port == 0
            && if ',' in data then data == k + "," + s.index.keys[k].url else data == k && s.index.keys[k].url == ""
  {
    StoredIsLastSent(ix, es, k);
    KeyMessageCarries(data);
  }

  // ---------------------------------------------------------------- the report size

  /** One more than the place of the last size message; 0 when there is none. */
  function LastSize(ps: seq<Pointer>): (n: nat)
    ensures n <= |ps|
    ensures n > 0 ==> ps[n - 1].msg.cmd.SetRankingLength?
    ensures forall i :: n <= i < |ps| ==> !ps[i].msg.cmd.SetRankingLength?
  {
    if ps == [] then 0
    else if ps[|ps| - 1].msg.cmd.SetRankingLength? then |ps|
    else LastSize(ps[..|ps| - 1])
  }

  lemma {:induction false} SizeOfMessages(ix: Index, ps: seq<Pointer>)
    ensures Run(ix, AllOps(ps)).max == ix.max
    ensures Run(ix, AllOps(ps)).base ==
            if LastSize(ps) == 0 then ix.base else Min(ps[LastSize(ps) - 1].msg.short, ix.max)
  {
    hide ApplyMessage;
    if ps != [] {
      var front, p := ps[..|ps| - 1], ps[|ps| - 1];
      SizeOfMessages(ix, front);
      SplitLast(ps);
      ConsumeOne(ix, front, p);
      MessageSetsSize(Run(ix, AllOps(front)), p.msg);
    } else {
      assert AllOps(ps) == [];
    }
  }

  lemma MessageSetsSize(ix: Index, m: Message)
    ensures ApplyMessage(ix, m).max == ix.max
    ensures ApplyMessage(ix, m).base == if m.cmd.SetRankingLength? then Min(m.short, ix.max) else ix.base
  {
  }

  /** In every interleaving the report size is that of the last size message consumed, clipped to the
      maximum. */
  lemma SizeIsLastSent(ix: Index, es: seq<Event>)
    ensures var s := Exec(NewQueue(ix), es); var ps := Consumed(s);
            s.index.base == if LastSize(ps) == 0 then ix.base else Min(ps[LastSize(ps) - 1].msg.short, ix.max)
  {
    QueueIsFifo(ix, es);
    SizeOfMessages(ix, Consumed(Exec(NewQueue(ix), es)));
  }

  // ---------------------------------------------------------------- what is dropped

  predicate Dropped(s: System, p: Pointer) {
    && p.id in s.used && p !in s.checked && p !in s.accepted && p !in s.queue
    && p !in s.popped && p !in s.drained && p !in s.deleted
    && (InHand(s.worker) ==> HandOf(s.worker) != p)
  }

  lemma StepKeepsDropped(s: System, e: Event, p: Pointer)
    requires Dropped(s, p)
    ensures Dropped(Next(s, e), p)
  {
    hide ApplyMessage;
  }

  lemma {:induction false} StaysDropped(s: System, es: seq<Event>, p: Pointer)
    requires Dropped(s, p)
    ensures Dropped(Exec(s, es), p)
  {
    if es != [] {
      StaysDropped(s, es[..|es| - 1], p);
      StepKeepsDropped(Exec(s, es[..|es| - 1]), es[|es| - 1], p);
    }
  }

  lemma FreshIsNowhere(ix: Index, es: seq<Event>, p: Pointer)
    requires p.id !in Exec(NewQueue(ix), es).used
    ensures var s := Exec(NewQueue(ix), es); Dropped(s.(used := s.used + {p.id}), p)
  {
    ExecKeepsInvariant(ix, es);
    var s := Exec(NewQueue(ix), es);
    assert forall q :: q in s.popped || q in s.drained || q in s.queue ==> q in s.popped + s.drained + s.queue;
    if p in s.deleted {
      DeletedIsPopped(ix, s, p);
    }
    if InHand(s.worker) {
      assert HandOf(s.worker) in s.popped;
    }
  }

  /** A push that finds the queue stopped is lost for good: whatever happens later, restarts included,
      its message is never accepted, and nobody deletes it. */
  lemma PushWhileStoppedIsLost(ix: Index, es: seq<Event>, p: Pointer, later: seq<Event>)
    requires var s := Exec(NewQueue(ix), es); s.life.Alive? && !s.running && p.id !in s.used
    ensures var s' := Exec(NewQueue(ix), es + [PushTest(p)] + later); p !in s'.accepted && p !in s'.deleted
  {
    FreshIsNowhere(ix, es, p);
    ExecAppend(NewQueue(ix), es + [PushTest(p)], later);
    assert (es + [PushTest(p)])[..|es|] == es;
    StaysDropped(Exec(NewQueue(ix), es + [PushTest(p)]), later, p);
  }

  /** And one that finds it running is accepted by the next step of its thread. */
  lemma PushWhileRunningIsAccepted(s: System, p: Pointer)
    requires s.life.Alive? && s.running && p.id !in s.used
    ensures var s' := Next(Next(s, PushTest(p)), Enqueue(p));
            s'.accepted == s.accepted + [p] && s'.queue == s.queue + [p]
  {
  }

  // ---------------------------------------------------------------- what is deleted, and what ends the loop

  /** Of the messages that run() is done with it deletes the add and the size messages, each as often as
      it is there, and leaks the others. */
  lemma {:induction false} OwnedAreAddsAndSizes(ps: seq<Pointer>, p: Pointer)
    ensures multiset(OwnedIn(ps))[p] ==
            if p.msg.cmd.AddKeyCommand? || p.msg.cmd.SetRankingLength? then multiset(ps)[p] else 0
  {
    if ps != [] {
      SplitLast(ps);
      OwnedAreAddsAndSizes(ps[..|ps| - 1], p);
      OwnOne(ps[..|ps| - 1], ps[|ps| - 1]);
    }
  }

  /** A stop message at the front ends the worker's loop; the consumer sees nothing of it. */
  lemma StopMessageEndsLoop(s: System)
    requires Running(s) && s.queue != [] && s.queue[0].msg.cmd.Stop?
    ensures var s' := Next(Next(Next(Next(s, Test), Poll), Dispatch), Test);
            && s'.worker.Finished? && !s'.running && s'.index == s.index
            && s'.queue == s.queue[1..] && s'.deleted == s.deleted
  {
    var s1 := Next(s, Test);
    var s2 := Next(s1, Poll);
    assert s2.worker == Holding(s.queue[0]);
  }

  /** A start after a join, or the first one, sets the worker going; with nothing queued it looks again and
      again and changes nothing. */
  lemma StartedQueueRuns(s: System)
    requires s.life.Alive? && s.worker.NoThread?
    ensures Running(Next(s, Start)) && Next(s, Start).queue == s.queue
    ensures s.queue == [] ==> Next(Next(Next(s, Start), Test), Poll) == Next(s, Start)
  {
  }
}
