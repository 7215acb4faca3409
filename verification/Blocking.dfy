/** When a reader can block: a restore that throws leaves the writing flag set, and who comes to read
    then waits on the condition variable. */
module Blocking {
  import opened BackupText
  import opened Clipping
  import opened LockProtocol
  import opened RankingIndex
  import opened Runs

  ghost predicate MayFail(pc: Pc) {
    HasChange(pc) && Breaks(ChangeOf(pc))
  }

  /** The flag is set only by the thread inside; nobody waits for it. */
  ghost predicate FlagFollowsMutex(s: Shared) {
    && (s.flag <==> HasFlagSet(HolderPc(s)))
    && forall t :: !PcOf(s, t).Blocked? && !MayFail(PcOf(s, t))
  }

  lemma StepKeepsFlag(s: Shared, e: Event)
    requires Exclusive(s) && FlagFollowsMutex(s)
    requires e.Begin? && e.task.Write? ==> !Fails(e.task.op)
    ensures FlagFollowsMutex(Next(s, e))
  {
    hide ApplyChange, ReplyTo, Fails;
    var s', pc := Next(s, e), PcOf(s, e.t);
    assert InSection(pc) <==> s.mutex == Held(e.t);
    assert forall t :: t != e.t ==> PcOf(s', t) == PcOf(s, t);
  }

  lemma {:induction false} RunKeepsFlag(ix: Index, es: seq<Event>)
    requires forall i :: 0 <= i < |es| && es[i].Begin? && es[i].task.Write? ==> !Fails(es[i].task.op)
    ensures Exclusive(Exec(NewManager(ix), es)) && FlagFollowsMutex(Exec(NewManager(ix), es))
  {
    if es != [] {
      RunKeepsFlag(ix, es[..|es| - 1]);
      StepKeepsExclusive(Exec(NewManager(ix), es[..|es| - 1]), es[|es| - 1]);
      StepKeepsFlag(Exec(NewManager(ix), es[..|es| - 1]), es[|es| - 1]);
    }
  }

  ghost predicate SomeoneBlocked(s: Shared) {
    exists t :: PcOf(s, t).Blocked?
  }

  /** A failing restore of thread 0. */
  function FailedRestore(op: Op): seq<Event> {
    [Begin(0, Write(op))] + [Acquire(0)] + [SetFlag(0)] + [Throw(0)]
  }

  /** The same, and then a reader in thread 1. */
  function ThrowThenRead(op: Op, r: Task): seq<Event> {
    FailedRestore(op) + [Begin(1, r)] + [Acquire(1)] + [TestFlag(1)]
  }

  /** A writer gets in and sets the flag, from a state in which nobody is inside. */
  lemma WriterGetsIn(s: Shared, op: Op)
    requires s.mutex.Free? && PcOf(s, 0).Idle? && PcOf(s, 1).Idle? && !op.PurgeTo?
    ensures var s' := Next(Next(Next(s, Begin(0, Write(op))), Acquire(0)), SetFlag(0));
            PcOf(s', 0) == Writing(Whole(op), |s.log|) && PcOf(s', 1).Idle? && s'.flag
  {
    var s1 := Next(s, Begin(0, Write(op)));
    assert PcOf(s1, 0) == Wanting(Alter(Whole(op)), |s.log|) && PcOf(s1, 1).Idle? && s1.mutex.Free?;
    var s2 := Next(s1, Acquire(0));
    assert PcOf(s2, 0) == Locked(Alter(Whole(op)), |s.log|) && PcOf(s2, 1).Idle?;
  }

  lemma ThrowLeavesFlag(s: Shared, op: Op)
    requires Fails(op) && PcOf(s, 0).Writing? && PcOf(s, 0).change == Whole(op) && PcOf(s, 1).Idle? && s.flag
    ensures var s' := Next(s, Throw(0)); s'.flag && s'.mutex.Free? && PcOf(s', 1).Idle?
  {
    hide ApplyChange, Fails;
  }

  lemma FailedRestoreLeavesFlag(ix: Index, op: Op)
    requires Fails(op)
    ensures var s := Exec(NewManager(ix), FailedRestore(op));
            s.flag && s.mutex.Free? && PcOf(s, 1).Idle?
  {
    var s0 := NewManager(ix);
    assert [] + [Begin(0, Write(op))] == [Begin(0, Write(op))];
    ExecLast(s0, [], Begin(0, Write(op)));
    ExecLast(s0, [Begin(0, Write(op))], Acquire(0));
    ExecLast(s0, [Begin(0, Write(op))] + [Acquire(0)], SetFlag(0));
    ExecLast(s0, [Begin(0, Write(op))] + [Acquire(0)] + [SetFlag(0)], Throw(0));
    WriterGetsIn(s0, op);
    ThrowLeavesFlag(Exec(s0, [Begin(0, Write(op))] + [Acquire(0)] + [SetFlag(0)]), op);
  }

  /** A reader that comes with the flag up and the mutex free ends on the condition variable. */
  lemma ReaderBlocks(s: Shared, r: Task)
    requires s.flag && s.mutex.Free? && PcOf(s, 1).Idle? && !r.Write?
    ensures var s' := Next(Next(Next(s, Begin(1, r)), Acquire(1)), TestFlag(1));
            PcOf(s', 1).Blocked? && s'.mutex.Free? && s'.flag
  {
    var s1 := Next(s, Begin(1, r));
    assert PcOf(s1, 1) == Wanting(Ask(r), |s.log|) && s1.mutex.Free? && s1.flag;
    var s2 := Next(s1, Acquire(1));
    assert PcOf(s2, 1) == Locked(Ask(r), |s.log|) && s2.flag;
  }

  lemma ThrowBlocksReader(ix: Index, op: Op, r: Task)
    requires Fails(op) && !r.Write?
    ensures var s := Exec(NewManager(ix), ThrowThenRead(op, r));
            PcOf(s, 1).Blocked? && s.mutex.Free? && s.flag
  {
    var s0, e := NewManager(ix), FailedRestore(op);
    FailedRestoreLeavesFlag(ix, op);
    ExecLast(s0, e, Begin(1, r));
    ExecLast(s0, e + [Begin(1, r)], Acquire(1));
    ExecLast(s0, e + [Begin(1, r)] + [Acquire(1)], TestFlag(1));
    ReaderBlocks(Exec(s0, e), r);
  }

  ghost predicate NeverBlocks(ix: Index, tasks: set<Task>) {
    forall es :: OnlyTasks(es, tasks) ==> !SomeoneBlocked(Exec(NewManager(ix), es))
  }

  lemma ThrowTasks(op: Op, r: Task, tasks: set<Task>)
    requires r in tasks && Write(op) in tasks
    ensures OnlyTasks(ThrowThenRead(op, r), tasks)
  {
    var es := ThrowThenRead(op, r);
    assert es == [Begin(0, Write(op)), Acquire(0), SetFlag(0), Throw(0), Begin(1, r), Acquire(1), TestFlag(1)];
  }

  lemma FailingTaskBlocks(ix: Index, tasks: set<Task>, op: Op, r: Task)
    requires r in tasks && !r.Write? && Write(op) in tasks && Fails(op)
    ensures !NeverBlocks(ix, tasks)
  {
    ThrowBlocksReader(ix, op, r);
    ThrowTasks(op, r, tasks);
    assert PcOf(Exec(NewManager(ix), ThrowThenRead(op, r)), 1).Blocked?;
  }

  // Without readers nobody tests the flag.

  ghost predicate OnlyWritersInside(s: Shared) {
    forall t :: var pc := PcOf(s, t);
                !pc.Blocked? && (pc.Wanting? || pc.Locked? ==> pc.job.Alter?)
  }

  lemma StepKeepsWritersOnly(s: Shared, e: Event)
    requires OnlyWritersInside(s) && (e.Begin? ==> e.task.Write?)
    ensures OnlyWritersInside(Next(s, e))
  {
    hide ApplyChange, ReplyTo, Fails;
    var s' := Next(s, e);
    assert forall t :: t != e.t ==> PcOf(s', t) == PcOf(s, t);
  }

  lemma {:induction false} RunOfWriters(ix: Index, es: seq<Event>)
    requires forall i :: 0 <= i < |es| && es[i].Begin? ==> es[i].task.Write?
    ensures OnlyWritersInside(Exec(NewManager(ix), es))
  {
    if es != [] {
      RunOfWriters(ix, es[..|es| - 1]);
      StepKeepsWritersOnly(Exec(NewManager(ix), es[..|es| - 1]), es[|es| - 1]);
    }
  }

  ghost predicate NoReaders(tasks: set<Task>) {
    forall task :: task in tasks ==> task.Write?
  }

  ghost predicate NoFailingRestore(tasks: set<Task>) {
    forall task :: task in tasks && task.Write? ==> !Fails(task.op)
  }

  /** No reader ever blocks on the condition variable, in no interleaving of the allowed tasks, exactly
      if there is no reader or no restore of files with a record that does not parse. */
  lemma ReadersNeverBlockIff(ix: Index, tasks: set<Task>)
    ensures NeverBlocks(ix, tasks) <==> NoReaders(tasks) || NoFailingRestore(tasks)
  {
    if NoReaders(tasks) {
      forall es | OnlyTasks(es, tasks) ensures !SomeoneBlocked(Exec(NewManager(ix), es)) {
        RunOfWriters(ix, es);
      }
    } else if NoFailingRestore(tasks) {
      forall es | OnlyTasks(es, tasks) ensures !SomeoneBlocked(Exec(NewManager(ix), es)) {
        RunKeepsFlag(ix, es);
      }
    } else {
      var task :| task in tasks && task.Write? && Fails(task.op);
      var r :| r in tasks && !r.Write?;
      FailingTaskBlocks(ix, tasks, task.op, r);
    }
  }

  /** The restore of the backup of a state. */
  ghost function ReloadOf(src: Index): Op {
    Reload(KeyFile(src.keys), RankText(src.ranking))
  }

  /** The program's own backups block readers too: when all restores are of backups of some saved states
      that are read back record by record, no reader ever blocks exactly if in each of them the counts are
      below 2^64 and the port texts, what follows the first comma of the url included, convert. */
  lemma OwnBackupsNeverBlockIff(ix: Index, tasks: set<Task>, saved: set<Index>)
    requires !NoReaders(tasks)
    requires forall src :: src in saved ==> Separable(src) && Write(ReloadOf(src)) in tasks
    requires forall task :: task in tasks && task.Write? && task.op.Reload? ==>
               exists src :: src in saved && task.op == ReloadOf(src)
    ensures NeverBlocks(ix, tasks) <==> forall src :: src in saved ==> NumbersConvert(src)
  {
    ReadersNeverBlockIff(ix, tasks);
    forall src | src in saved ensures Fails(ReloadOf(src)) <==> !NumbersConvert(src) {
      OwnBackupParsesIff(src, ix);
    }
    if src :| src in saved && !NumbersConvert(src) {
      assert Write(ReloadOf(src)) in tasks && Fails(Write(ReloadOf(src)).op);
    }
  }

  ghost predicate FlagDownWhenFree(ix: Index, tasks: set<Task>) {
    forall es :: OnlyTasks(es, tasks) ==>
      var s := Exec(NewManager(ix), es); s.mutex.Free? ==> !s.flag
  }

  /** The flag is down whenever the mutex is free, in every interleaving of the allowed tasks, exactly if
      none of them is a restore of files with a record that does not parse. */
  lemma FreeMutexMeansFlagDownIff(ix: Index, tasks: set<Task>)
    ensures FlagDownWhenFree(ix, tasks) <==> NoFailingRestore(tasks)
  {
    hide Exec, FailedRestore, Fails;
    if NoFailingRestore(tasks) {
      forall es | OnlyTasks(es, tasks) ensures var s := Exec(NewManager(ix), es); s.mutex.Free? ==> !s.flag {
        RunKeepsFlag(ix, es);
      }
    } else {
      var task :| task in tasks && task.Write? && Fails(task.op);
      FailedRestoreLeavesFlag(ix, task.op);
      FailedRestoreTasks(task.op, tasks);
    }
  }

  lemma FailedRestoreTasks(op: Op, tasks: set<Task>)
    requires Write(op) in tasks
    ensures OnlyTasks(FailedRestore(op), tasks)
  {
    assert FailedRestore(op) == [Begin(0, Write(op)), Acquire(0), SetFlag(0), Throw(0)];
  }

  /** A blocked reader that is woken once the flag is down and the mutex free reads the index as it is. */
  lemma WokenReaderReads(s: Shared, t: nat)
    requires PcOf(s, t).Blocked? && !PcOf(s, t).task.Write? && s.mutex.Free? && !s.flag
    ensures var pc, s' := PcOf(s, t), Next(Next(Next(Next(s, Wake(t)), Acquire(t)), TestFlag(t)), Read(t));
            PcOf(s', t) == Answered(pc.task, pc.from, ReplyTo(pc.task, s.index), |s.log|) && s'.index == s.index
  {
    hide ReplyTo;
    var pc := PcOf(s, t);
    var s1 := Next(s, Wake(t));
    assert PcOf(s1, t) == Wanting(Ask(pc.task), pc.from);
    var s2 := Next(s1, Acquire(t));
    assert PcOf(s2, t) == Locked(Ask(pc.task), pc.from);
    var s3 := Next(s2, TestFlag(t));
    assert PcOf(s3, t) == Ready(pc.task, pc.from);
  }
}
