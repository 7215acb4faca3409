/** ThreadedMessageQueue as an object with its consumer: what one thread at a time does to the fields.
    MessageQueue holds the interleavings of these steps. */
module ThreadedQueue {
  import opened Manager
  import opened MessageQueue
  import opened RankingIndex
  import opened Runs
  import opened Sequences

  /** How many messages run() pops before it leaves its loop: up to and with the first stop message. */
  function Popped(q: seq<Pointer>): (n: nat)
    ensures n <= |q|
  {
    if q == [] then 0
    else if q[0].msg.cmd.Stop? then 1
    else 1 + Popped(q[1..])
  }

  predicate HasStop(q: seq<Pointer>) {
    q != [] && (q[0].msg.cmd.Stop? || HasStop(q[1..]))
  }

  /** The worker leaves with the first stop message; without one it takes everything. */
  lemma {:induction false} PoppedEndsAtFirstStop(q: seq<Pointer>)
    ensures forall i :: 0 <= i < Popped(q) - 1 ==> !q[i].msg.cmd.Stop?
    ensures HasStop(q) <==> Popped(q) > 0 && q[Popped(q) - 1].msg.cmd.Stop?
    ensures !HasStop(q) ==> Popped(q) == |q|
  {
    if q != [] {
      PoppedEndsAtFirstStop(q[1..]);
    }
  }

  lemma {:induction false} PoppedBeyond(a: seq<Pointer>, q: seq<Pointer>)
    requires !HasStop(a)
    ensures Popped(a + q) == |a| + Popped(q) && HasStop(a + q) == HasStop(q)
  {
    if a == [] {
      assert a + q == q;
    } else {
      assert (a + q)[1..] == a[1..] + q;
      PoppedBeyond(a[1..], q);
    }
  }

  /** Where the loop ends: at the end of what there is, or behind the first stop message. */
  lemma LoopEndsAt(all: seq<Pointer>, n: nat)
    requires n <= |all|
    ensures n == |all| && !HasStop(all[..n]) ==> Popped(all) == n && !HasStop(all)
    ensures n > 0 && !HasStop(all[..n - 1]) && all[n - 1].msg.cmd.Stop? ==> Popped(all) == n && HasStop(all)
  {
    assert all[..|all|] == all && all + [] == all;
    if n == |all| && !HasStop(all[..n]) {
      PoppedBeyond(all, []);
    }
    if n > 0 && !HasStop(all[..n - 1]) && all[n - 1].msg.cmd.Stop? {
      assert all == all[..n - 1] + all[n - 1..];
      PoppedBeyond(all[..n - 1], all[n - 1..]);
    }
  }

  /** What the producers push, batch by batch. */
  function Flat(batches: seq<seq<Pointer>>): seq<Pointer> {
    if batches == [] then [] else Flat(batches[..|batches| - 1]) + batches[|batches| - 1]
  }

  lemma {:induction false} FlatPrefix(batches: seq<seq<Pointer>>, k: nat)
    requires k <= |batches|
    ensures Flat(batches[..k]) <= Flat(batches)
    decreases |batches|
  {
    if k == |batches| {
      assert batches[..k] == batches;
    } else {
      var front := batches[..|batches| - 1];
      assert front[..k] == batches[..k];
      FlatPrefix(front, k);
    }
  }

  /** How often a key was counted before; an unknown one not at all. */
  function OldCount(m: KeyMap, key: string): nat {
    if key in m then m[key].frequency else 0
  }

  class ThreadedMessageQueue {
    var running: bool
    var queue: seq<Pointer>
    var consumer: MapManager?

    constructor ()
      ensures !running && queue == [] && consumer == null
    {
      running, queue, consumer := false, [], null;
    }

    method SetConsumer(m: MapManager?)
      modifies this`consumer
      ensures consumer == m
    {
      consumer := m;
    }

    /** False, and no change, without a consumer. */
    method Start() returns (ok: bool)
      modifies this`running
      ensures ok <==> consumer != null
      ensures running == (ok || old(running))
    {
      if consumer == null {
        return false;
      }
      running := true;
      return true;
    }

    method Stop()
      modifies this`running
      ensures !running
    {
      running := false;
    }

    /** Dropped, and then leaked by its caller, unless the worker runs. */
    method Push(p: Pointer)
      modifies this`queue
      ensures queue == if running then old(queue) + [p] else old(queue)
    {
      if running {
        queue := queue + [p];
      }
    }

    /** One non-empty turn of run(). Returns the messages it deletes. */
    method PopOne() returns (deleted: seq<Pointer>)
      requires consumer != null && Sorted(consumer.ranking)
      requires queue != []
      modifies this`running, this`queue, consumer
      ensures queue == old(queue)[1..]
      ensures consumer.State() == ApplyMessage(old(consumer.State()), old(queue)[0].msg)
      ensures Sorted(consumer.ranking)
      ensures running == (old(running) && !old(queue)[0].msg.cmd.Stop?)
      ensures deleted == if IsOwned(old(queue)[0].msg) then [old(queue)[0]] else []
      ensures deleted ==
              if old(queue)[0].msg.cmd.AddKeyCommand? || old(queue)[0].msg.cmd.SetRankingLength? then [old(queue)[0]] else []
      ensures var m := old(queue)[0].msg;
              && consumer.keyMap ==
                 (if !m.cmd.AddKeyCommand? then old(consumer.keyMap)
                  else old(consumer.keyMap)[m.str1 := Details(m.str2, m.number, 1 + OldCount(old(consumer.keyMap), m.str1))])
              && consumer.baseSize ==
                 (if !m.cmd.SetRankingLength? then old(consumer.baseSize)
                  else if m.short <= consumer.maxSize then m.short else consumer.maxSize)
              && consumer.maxSize == old(consumer.maxSize)
              && (!m.cmd.AddKeyCommand? ==> consumer.ranking == old(consumer.ranking))
    {
      var p := queue[0];
      queue := queue[1..];
      deleted := [];
      match p.msg.cmd {
        case AddKeyCommand =>
          consumer.AddOrUpdateKey(p.msg.str1, p.msg.str2, p.msg.number);
          deleted := [p];
        case SetRankingLength =>
          consumer.SetTopKeyReportBaseSize(p.msg.short);
          deleted := [p];
        case Stop => running := false;
        case _ =>
      }
    }

    method PushAll(ps: seq<Pointer>)
      modifies this`queue
      ensures queue == if running then old(queue) + ps else old(queue)
    {
      var i := 0;
      while i < |ps|
        invariant i <= |ps|
        invariant queue == if running then old(queue) + ps[..i] else old(queue)
      {
        Push(ps[i]);
        i := i + 1;
        assert ps[..i] == ps[..i - 1] + [ps[i - 1]];
      }
      assert ps[..i] == ps;
    }

    /** run() with producers at work: before its k-th turn the other threads push the batch pushes[k]. It
        goes on until it is stopped or nothing more comes. Whatever is pushed in between, it takes the
        accepted messages up to the first stop message, in order, and deletes those that it owns. */
    method RunLoop(pushes: seq<seq<Pointer>>) returns (deleted: seq<Pointer>, ghost accepted: seq<Pointer>)
      requires consumer != null && Sorted(consumer.ranking) && running
      modifies this`running, this`queue, consumer
      ensures accepted <= old(queue) + Flat(pushes)
      ensures var n := Popped(old(queue) + Flat(pushes));
              && n <= |accepted|
              && queue == accepted[n..]
              && consumer.State() == Run(old(consumer.State()), AllOps(accepted[..n]))
              && deleted == OwnedIn(accepted[..n])
      ensures running <==> !HasStop(old(queue) + Flat(pushes))
      ensures running ==> accepted == old(queue) + Flat(pushes) && queue == []
      ensures Sorted(consumer.ranking)
    {
      hide *;
      deleted, accepted := [], queue;
      ghost var first, start, n := queue, consumer.State(), 0;
      var k := 0;
      ProgressStarts(start, first, pushes);
      while running && (k < |pushes| || queue != [])
        invariant k <= |pushes| && consumer == old(consumer) && Sorted(consumer.ranking)
        invariant Progress(start, first, pushes, Loop(k, accepted, n, queue, consumer.State(), deleted, running))
        decreases |pushes| - k, |queue|
      {
        if k < |pushes| {
          ProgressBatch(start, first, pushes, Loop(k, accepted, n, queue, consumer.State(), deleted, running));
          PushAll(pushes[k]);
          accepted := accepted + pushes[k];
          k := k + 1;
        }
        if queue != [] {
          ProgressTurn(start, first, pushes, Loop(k, accepted, n, queue, consumer.State(), deleted, running));
          var d := PopOne();
          deleted := deleted + d;
          n := n + 1;
        }
      }
      ProgressEnds(start, first, pushes, Loop(k, accepted, n, queue, consumer.State(), deleted, running));
    }

    /** The destructor's loop: everything still queued is deleted, whatever it is. */
    method DeleteRest() returns (deleted: seq<Pointer>)
      modifies this`queue
      ensures queue == [] && deleted == old(queue)
    {
      deleted := [];
      while queue != []
        invariant deleted + queue == old(queue)
        decreases |queue|
      {
        deleted := deleted + [queue[0]];
        queue := queue[1..];
      }
    }
  }

  /** What one more consumed message adds to the fold and to what is deleted. */
  lemma TurnAdds(start: Index, accepted: seq<Pointer>, n: nat)
    requires n < |accepted|
    ensures accepted[n..] != [] && accepted[n..][0] == accepted[n] && accepted[n..][1..] == accepted[n + 1..]
    ensures Run(start, AllOps(accepted[..n + 1])) == ApplyMessage(Run(start, AllOps(accepted[..n])), accepted[n].msg)
    ensures OwnedIn(accepted[..n + 1]) ==
            OwnedIn(accepted[..n]) + if IsOwned(accepted[n].msg) then [accepted[n]] else []
    ensures !HasStop(accepted[..n]) && !accepted[n].msg.cmd.Stop? ==> !HasStop(accepted[..n + 1])
  {
    var front, p := accepted[..n], accepted[n];
    assert accepted[..n + 1] == front + [p];
    ConsumeOne(start, front, p);
    OwnOne(front, p);
    if !HasStop(front) {
      PoppedBeyond(front, [p]);
    }
  }

  /** What the loop of run() has done: k batches have come, n of the accepted messages are consumed. */
  datatype Loop = Loop(k: nat, accepted: seq<Pointer>, n: nat, queue: seq<Pointer>, state: Index,
                       deleted: seq<Pointer>, running: bool)

  ghost predicate Progress(start: Index, first: seq<Pointer>, pushes: seq<seq<Pointer>>, l: Loop) {
    && l.k <= |pushes| && l.n <= |l.accepted|
    && l.accepted == first + Flat(pushes[..l.k])
    && l.queue == l.accepted[l.n..]
    && l.state == Run(start, AllOps(l.accepted[..l.n]))
    && l.deleted == OwnedIn(l.accepted[..l.n])
    && if l.running then !HasStop(l.accepted[..l.n])
       else l.n > 0 && !HasStop(l.accepted[..l.n - 1]) && l.accepted[l.n - 1].msg.cmd.Stop?
  }

  lemma ProgressStarts(start: Index, first: seq<Pointer>, pushes: seq<seq<Pointer>>)
    ensures Progress(start, first, pushes, Loop(0, first, 0, first, start, [], true))
  {
    assert first[..0] == [] && first + [] == first && pushes[..0] == [] && first[0..] == first;
  }

  lemma ProgressBatch(start: Index, first: seq<Pointer>, pushes: seq<seq<Pointer>>, l: Loop)
    requires Progress(start, first, pushes, l) && l.k < |pushes| && l.running
    ensures Progress(start, first, pushes,
                     l.(k := l.k + 1, accepted := l.accepted + pushes[l.k], queue := l.queue + pushes[l.k]))
  {
    hide Flat, Run, AllOps, OwnedIn, HasStop;
    FlatOneMore(pushes, l.k);
    Regroup(first, Flat(pushes[..l.k]), pushes[l.k]);
    CutOfLonger(l.accepted, pushes[l.k], l.n);
    if l.n > 0 {
      CutOfLonger(l.accepted, pushes[l.k], l.n - 1);
    }
  }

  lemma FlatOneMore(batches: seq<seq<Pointer>>, k: nat)
    requires k < |batches|
    ensures Flat(batches[..k + 1]) == Flat(batches[..k]) + batches[k]
  {
    assert batches[..k + 1][..k] == batches[..k];
  }

  lemma ProgressTurn(start: Index, first: seq<Pointer>, pushes: seq<seq<Pointer>>, l: Loop)
    requires Progress(start, first, pushes, l) && l.queue != [] && l.running
    ensures var p := l.queue[0];
            Progress(start, first, pushes,
                     l.(n := l.n + 1, queue := l.queue[1..], state := ApplyMessage(l.state, p.msg),
                        deleted := l.deleted + if IsOwned(p.msg) then [p] else [],
                        running := !p.msg.cmd.Stop?))
  {
    TurnAdds(start, l.accepted, l.n);
  }

  lemma ProgressEnds(start: Index, first: seq<Pointer>, pushes: seq<seq<Pointer>>, l: Loop)
    requires Progress(start, first, pushes, l) && (l.running ==> l.k == |pushes| && l.queue == [])
    ensures l.accepted <= first + Flat(pushes)
    ensures Popped(first + Flat(pushes)) == l.n <= |l.accepted|
    ensures l.queue == l.accepted[l.n..] && l.deleted == OwnedIn(l.accepted[..l.n])
    ensures l.state == Run(start, AllOps(l.accepted[..l.n]))
    ensures l.running <==> !HasStop(first + Flat(pushes))
    ensures l.running ==> l.accepted == first + Flat(pushes)
  {
    hide AllOps, Run, OwnedIn;
    var all := first + Flat(pushes);
    FlatPrefix(pushes, l.k);
    assert pushes[..|pushes|] == pushes;
    assert l.accepted <= all;
    assert all[..l.n] == l.accepted[..l.n] && (l.n > 0 ==> all[..l.n - 1] == l.accepted[..l.n - 1]);
    LoopEndsAt(all, l.n);
  }
}
