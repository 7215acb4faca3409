/** An interleaving in which a purge cuts to a length that is stale, and two reports that no order of the
    calls explains. */
module StaleClip {
  import opened Clipping
  import opened LockProtocol
  import opened Purging
  import opened RankingIndex
  import opened Runs

  lemma {:induction false} ExecAppend(s: Shared, a: seq<Event>, b: seq<Event>)
    ensures Exec(s, a + b) == Exec(Exec(s, a), b)
    decreases |b|
  {
    if b == [] {
      assert a + b == a;
    } else {
      assert (a + b)[..|a + b| - 1] == a + b[..|b| - 1];
      ExecAppend(s, a, b[..|b| - 1]);
    }
  }

  lemma ExecTwo(s: Shared, a: Event, b: Event)
    ensures Exec(s, [a, b]) == Next(Next(s, a), b)
  {
    ExecLast(s, [], a);
    ExecLast(s, [a], b);
    assert [] + [a] == [a] && [a] + [b] == [a, b];
  }

  /** Nobody is inside and the flag is down. */
  ghost predicate Quiet(s: Shared) {
    s.mutex.Free? && !s.flag
  }

  /** A thread that wants the mutex for a write gets in, writes and leaves. */
  function InAndOut(t: nat): seq<Event> {
    [Acquire(t), SetFlag(t)] + [WriteKeys(t), WriteRest(t)] + [ClearFlag(t), Release(t)]
  }

  lemma WriteGoesThrough(s: Shared, t: nat, c: Change, from: nat)
    requires Quiet(s) && PcOf(s, t) == Wanting(Alter(c), from) && !Breaks(c)
    ensures var s' := Exec(s, InAndOut(t));
            && Quiet(s') && s'.index == ApplyChange(s.index, c) && s'.log == s.log + [c]
            && s'.answers == s.answers && PcOf(s', t).Idle? && forall u :: u != t ==> PcOf(s', u) == PcOf(s, u)
  {
    hide ApplyChange, Exec, Breaks, Next;
    ExecAppend(s, [Acquire(t), SetFlag(t)] + [WriteKeys(t), WriteRest(t)], [ClearFlag(t), Release(t)]);
    ExecAppend(s, [Acquire(t), SetFlag(t)], [WriteKeys(t), WriteRest(t)]);
    ExecTwo(s, Acquire(t), SetFlag(t));
    var s1 := Exec(s, [Acquire(t), SetFlag(t)]);
    GetIn(s, t, c, from);
    ExecTwo(s1, WriteKeys(t), WriteRest(t));
    var s2 := Exec(s1, [WriteKeys(t), WriteRest(t)]);
    WriteBoth(s1, t, c, from);
    ExecTwo(s2, ClearFlag(t), Release(t));
    GetOut(s2, t, c, from);
  }

  lemma GetIn(s: Shared, t: nat, c: Change, from: nat)
    requires Quiet(s) && PcOf(s, t) == Wanting(Alter(c), from)
    ensures var s' := Next(Next(s, Acquire(t)), SetFlag(t));
            && PcOf(s', t) == Writing(c, from) && (forall u :: u != t ==> PcOf(s', u) == PcOf(s, u))
            && s'.index == s.index && s'.log == s.log && s'.answers == s.answers
  {
  }

  lemma WriteBoth(s: Shared, t: nat, c: Change, from: nat)
    requires PcOf(s, t) == Writing(c, from) && !Breaks(c)
    ensures var s' := Next(Next(s, WriteKeys(t)), WriteRest(t));
            && PcOf(s', t) == Written(c, from) && (forall u :: u != t ==> PcOf(s', u) == PcOf(s, u))
            && s'.index == ApplyChange(s.index, c) && s'.log == s.log + [c] && s'.answers == s.answers
  {
    hide ApplyChange, Breaks;
  }

  lemma GetOut(s: Shared, t: nat, c: Change, from: nat)
    requires PcOf(s, t) == Written(c, from)
    ensures var s' := Next(Next(s, ClearFlag(t)), Release(t));
            && PcOf(s', t).Idle? && (forall u :: u != t ==> PcOf(s', u) == PcOf(s, u))
            && Quiet(s') && s'.index == s.index && s'.log == s.log && s'.answers == s.answers
  {
  }

  /** A reader begins, gets in, reads and leaves. */
  function ReadThrough(t: nat, task: Task): seq<Event> {
    [Begin(t, task), Acquire(t)] + [TestFlag(t), Read(t)] + [Release(t)]
  }

  lemma ReadGoesThrough(s: Shared, t: nat, task: Task)
    requires Quiet(s) && PcOf(s, t).Idle? && !task.Write?
    ensures var s' := Exec(s, ReadThrough(t, task)); var now := |s.log|;
            && Quiet(s') && s'.index == s.index && s'.log == s.log
            && s'.answers == s.answers + [Answer(task, ReplyTo(task, s.index), now, now, now)]
            && PcOf(s', t).Idle? && forall u :: u != t ==> PcOf(s', u) == PcOf(s, u)
  {
    hide ReplyTo, Exec, ApplyChange, Fails;
    ExecAppend(s, [Begin(t, task), Acquire(t)] + [TestFlag(t), Read(t)], [Release(t)]);
    ExecAppend(s, [Begin(t, task), Acquire(t)], [TestFlag(t), Read(t)]);
    ExecTwo(s, Begin(t, task), Acquire(t));
    var s1 := Exec(s, [Begin(t, task), Acquire(t)]);
    assert PcOf(s1, t) == Locked(Ask(task), |s.log|);
    ExecTwo(s1, TestFlag(t), Read(t));
    var s2 := Exec(s1, [TestFlag(t), Read(t)]);
    assert PcOf(s2, t).Answered?;
    ExecLast(s2, [], Release(t));
    assert [] + [Release(t)] == [Release(t)];
    assert Exec(s2, []) == s2 by { ExecNothing(s2); }
  }

  lemma ExecNothing(s: Shared)
    ensures Exec(s, []) == s
  {
  }

  // ---------------------------------------------------------------- the interleaving

  /** Thread 0 begins a purge to 0 and clips it, thread 1 sets the report size to 2, thread 2 reads a
      report, thread 0 cuts, and thread 2 reads another report. */
  function UntilResized(): seq<Event> {
    [Begin(0, Write(PurgeTo(0))), Clip(0)] + ([Begin(1, Write(SetTop(2)))] + InAndOut(1))
  }

  function StaleRun(): seq<Event> {
    UntilResized() + ReadThrough(2, ReadReport) + InAndOut(0) + ReadThrough(2, ReadReport)
  }

  lemma ClippedAndResized(ix: Index)
    requires ix.base == 0 <= ix.max && ix.max >= 2
    ensures var s := Exec(NewManager(ix), UntilResized());
            && Quiet(s) && s.index == SetBase(ix, 2) && s.answers == [] && PcOf(s, 2).Idle?
            && PcOf(s, 0) == Wanting(Alter(Cut(0, 0, 0)), 0)
  {
    hide Exec;
    var s := NewManager(ix);
    ExecAppend(s, [Begin(0, Write(PurgeTo(0))), Clip(0)], [Begin(1, Write(SetTop(2)))] + InAndOut(1));
    ExecTwo(s, Begin(0, Write(PurgeTo(0))), Clip(0));
    var s1 := Exec(s, [Begin(0, Write(PurgeTo(0))), Clip(0)]);
    ExecAppend(s1, [Begin(1, Write(SetTop(2)))], InAndOut(1));
    ExecLast(s1, [], Begin(1, Write(SetTop(2))));
    assert [] + [Begin(1, Write(SetTop(2)))] == [Begin(1, Write(SetTop(2)))];
    ExecNothing(s1);
    var s2 := Exec(s1, [Begin(1, Write(SetTop(2)))]);
    assert PcOf(s2, 1) == Wanting(Alter(Whole(SetTop(2))), 0);
    WriteGoesThrough(s2, 1, Whole(SetTop(2)), 0);
  }

  /** What the two reports show. */
  lemma StaleReports(ix: Index)
    requires ix.base == 0 && ix.max >= 2
    ensures var s := Exec(NewManager(ix), StaleRun());
            && |s.answers| == 2
            && s.answers[0].reply == Listed(Report(SetBase(ix, 2)))
            && s.answers[1].reply == Listed(Report(CutTo(SetBase(ix, 2), 0)))
  {
    hide Exec, Report, CutTo, UntilResized;
    var s0 := NewManager(ix);
    ExecAppend(s0, UntilResized() + ReadThrough(2, ReadReport) + InAndOut(0), ReadThrough(2, ReadReport));
    ExecAppend(s0, UntilResized() + ReadThrough(2, ReadReport), InAndOut(0));
    ExecAppend(s0, UntilResized(), ReadThrough(2, ReadReport));
    ClippedAndResized(ix);
    var s1 := Exec(s0, UntilResized());
    ReadGoesThrough(s1, 2, ReadReport);
    var s2 := Exec(s1, ReadThrough(2, ReadReport));
    WriteGoesThrough(s2, 0, Cut(0, 0, 0), 0);
    ReadGoesThrough(Exec(s2, InAndOut(0)), 2, ReadReport);
  }

  // ---------------------------------------------------------------- no order explains it

  /** The lengths of the reports after each number of the two calls, in either order. */
  lemma LengthsInOrder(ix: Index)
    requires Valid(ix) && ix.base == 0 && ix.max >= 2 && |ix.ranking| == 2
    ensures |Report(ix)| == 0
    ensures |Report(SetBase(ix, 2))| == 2 && |Report(Purge(SetBase(ix, 2), 0))| == 2
    ensures |Report(Purge(ix, 0))| == 0 && |Report(SetBase(Purge(ix, 0), 2))| == 1
    ensures |Report(CutTo(SetBase(ix, 2), 0))| == 1
  {
    hide CutTo, WalkTo, PurgeIsDefined, CutIsDefined, Restrict;
    var sized := SetBase(ix, 2);
    assert Valid(sized);
    PurgeMeetsNoOrphan(sized, 0);
    PurgeIsCut(sized, 0);
    PurgeMeetsNoOrphan(ix, 0);
    PurgeIsCut(ix, 0);
    StaleCut(ix);
  }

  lemma StaleCut(ix: Index)
    requires Valid(ix)
    ensures CutTo(SetBase(ix, 2), 0) == CutTo(ix, 0).(base := SetBase(ix, 2).base)
  {
  }

  /** The report that comes first shows two lines and the second one shows one. In either order of the two
      calls, no two moments show that. */
  lemma NoOrderExplains(ix: Index, ops: seq<Op>, i: nat, j: nat)
    requires Valid(ix) && ix.base == 0 && ix.max >= 2 && |ix.ranking| == 2
    requires ops == [PurgeTo(0), SetTop(2)] || ops == [SetTop(2), PurgeTo(0)]
    requires i <= 2 && j <= 2
    ensures var s := Exec(NewManager(ix), StaleRun());
            && |s.answers| == 2
            && (s.answers[0].reply != Listed(Report(Run(ix, ops[..i])))
                || s.answers[1].reply != Listed(Report(Run(ix, ops[..j]))))
  {
    hide Exec, Report, Purge, CutTo, Valid;
    StaleReports(ix);
    LengthsInOrder(ix);
    PrefixRuns(ix, ops, i);
    PrefixRuns(ix, ops, j);
  }

  lemma PrefixRuns(ix: Index, ops: seq<Op>, i: nat)
    requires |ops| == 2 && i <= 2
    ensures Run(ix, ops[..i]) ==
            if i == 0 then ix else if i == 1 then Apply(ix, ops[0]) else Apply(Apply(ix, ops[0]), ops[1])
  {
    hide Apply;
    RunStep(ix, ops[..0], ops[0]);
    RunStep(ix, ops[..1], ops[1]);
    assert ops[..1] == ops[..0] + [ops[0]] && ops[..2] == ops[..1] + [ops[1]];
  }

  lemma RunStep(ix: Index, ops: seq<Op>, op: Op)
    ensures Run(ix, ops + [op]) == Apply(Run(ix, ops), op)
  {
    assert (ops + [op])[..|ops|] == ops;
  }
}
