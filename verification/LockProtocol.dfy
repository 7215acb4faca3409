/** The mutex, the writing flag and the condition variable of MapManager, for any number of threads.

    Writers lock, set the flag, change the maps, clear the flag and unlock; readers lock, wait on the
    condition variable while the flag is set, read and unlock. A writer changes the key map and the
    ranking in two separate steps, so a reader that got in between would see a torn index. A purge clips
    its length to the sizes before it locks. A list of events is one interleaving; an event that is not
    enabled does nothing. */
module LockProtocol {
  import opened BackupText
  import opened Clipping
  import opened Purging
  import opened RankingIndex
  import opened Runs
  import opened TopLists

  datatype Task = Write(op: Op) | ReadReport | ReadHot(key: string) | ReadBackup

  datatype Reply = Listed(lines: seq<Entry>) | Hot(yes: bool) | Dumped(keys: KeyMap, ranking: seq<Entry>)

  /** What a thread wants the mutex for: a reader's task, or a write whose length, if it is a purge, is
      clipped already. */
  datatype Job = Ask(task: Task) | Alter(change: Change)

  /** Where a thread stands. Each task carries how many writes were complete when it began. */
  datatype Pc =
    | Idle
    | Clipping(n: nat, from: nat)                        // a purge that has not looked at the sizes
    | Wanting(job: Job, from: nat)                       // wants the mutex
    | Locked(job: Job, from: nat)                        // has it, has not looked at the flag
    | Blocked(task: Task, from: nat)                     // waits on the condition variable, without the mutex
    | Writing(change: Change, from: nat)                 // flag set, nothing changed yet
    | HalfWritten(change: Change, goal: Index, from: nat) // key map changed, ranking and size not yet
    | Written(change: Change, from: nat)
    | Ready(task: Task, from: nat)                       // past the wait
    | Answered(task: Task, from: nat, reply: Reply, at: nat)
    | Leaving                                            // a writer that is done and still has the mutex

  datatype Mutex = Free | Held(owner: nat)

  /** A reply, and how many writes were complete when its task began, when it was computed, and when the
      reader left. */
  datatype Answer = Answer(task: Task, reply: Reply, from: nat, at: nat, until: nat)

  datatype Shared = Shared(
    mutex: Mutex,
    flag: bool,
    index: Index,
    pcs: map<nat, Pc>,
    log: seq<Change>,       // the writes, in the order in which they were completed
    starts: seq<nat>,       // for each write, how many writes were complete when it began
    answers: seq<Answer>)

  datatype Event =
    | Begin(t: nat, task: Task)
    | Clip(t: nat)        // a purge reads the sizes, without the mutex
    | Acquire(t: nat)
    | TestFlag(t: nat)
    | Wake(t: nat)        // a notification or a spurious wake-up
    | SetFlag(t: nat)
    | WriteKeys(t: nat)
    | WriteRest(t: nat)
    | Throw(t: nat)       // a failing restore unwinds: mutex released, flag left set
    | ClearFlag(t: nat)
    | Read(t: nat)
    | Release(t: nat)

  function PcOf(s: Shared, t: nat): Pc {
    if t in s.pcs then s.pcs[t] else Idle
  }

  function At(s: Shared, t: nat, pc: Pc): Shared {
    s.(pcs := s.pcs[t := pc])
  }

  /** The operation is a restore of files with a record that does not parse. */
  ghost predicate Fails(op: Op) {
    op.Reload? && !FilesParse(op.keyFile, op.rankFile)
  }

  ghost predicate Breaks(c: Change) {
    c.Whole? && Fails(c.op)
  }

  /** That is when a restore leaves by an exception or an error return, with the flag set. */
  lemma FailsIff(ix: Index, keyFile: string, rankFile: string)
    ensures Fails(Reload(keyFile, rankFile)) <==> !Restore(ix, keyFile, rankFile).0.Completed?
  {
    RestoreCompletesIff(ix, keyFile, rankFile);
  }

  function ReplyTo(task: Task, ix: Index): Reply {
    match task
    case ReadHot(key) => Hot(IsHot(ix, key))
    case ReadBackup => Dumped(ix.keys, ix.ranking)
    case _ => Listed(Report(ix))
  }

  ghost function Next(s: Shared, e: Event): Shared {
    var pc := PcOf(s, e.t);
    match e
    case Begin(t, task) => if pc.Idle? then At(s, t, FirstPc(task, |s.log|)) else s
    case Clip(t) =>
      if pc.Clipping? then
        At(s, t, Wanting(Alter(Cut(pc.n, ClampPurge(s.index, pc.n), |s.log|)), pc.from))
      else s
    case Acquire(t) =>
      if pc.Wanting? && s.mutex.Free? then At(s, t, Locked(pc.job, pc.from)).(mutex := Held(t)) else s
    case TestFlag(t) =>
      if !pc.Locked? || pc.job.Alter? then s
      else if s.flag then At(s, t, Blocked(pc.job.task, pc.from)).(mutex := Free)
      else At(s, t, Ready(pc.job.task, pc.from))
    case Wake(t) => if pc.Blocked? then At(s, t, Wanting(Ask(pc.task), pc.from)) else s
    case SetFlag(t) =>
      if pc.Locked? && pc.job.Alter? then At(s, t, Writing(pc.job.change, pc.from)).(flag := true) else s
    case WriteKeys(t) =>
      if !pc.Writing? || Breaks(pc.change) then s
      else
        var goal := ApplyChange(s.index, pc.change);
        At(s, t, HalfWritten(pc.change, goal, pc.from)).(index := s.index.(keys := goal.keys))
    case WriteRest(t) =>
      if pc.HalfWritten? then Log(At(s, t, Written(pc.change, pc.from)), pc.change, pc.from).(index := pc.goal)
      else s
    case Throw(t) =>
      if pc.Writing? && Breaks(pc.change) then
        Log(At(s, t, Idle), pc.change, pc.from).(index := ApplyChange(s.index, pc.change), mutex := Free)
      else s
    case ClearFlag(t) => if pc.Written? then At(s, t, Leaving).(flag := false) else s
    case Read(t) =>
      if pc.Ready? then At(s, t, Answered(pc.task, pc.from, ReplyTo(pc.task, s.index), |s.log|)) else s
    case Release(t) =>
      if pc.Leaving? then At(s, t, Idle).(mutex := Free)
      else if pc.Answered? then
        var answer := Answer(pc.task, pc.reply, pc.from, pc.at, |s.log|);
        At(s, t, Idle).(mutex := Free, answers := s.answers + [answer])
      else s
  }

  function FirstPc(task: Task, now: nat): Pc {
    if !task.Write? then Wanting(Ask(task), now)
    else if task.op.PurgeTo? then Clipping(task.op.n, now)
    else Wanting(Alter(Whole(task.op)), now)
  }

  function Log(s: Shared, c: Change, from: nat): Shared {
    s.(log := s.log + [c], starts := s.starts + [from])
  }

  function NewManager(ix: Index): Shared {
    Shared(Free, false, ix, map[], [], [], [])
  }

  ghost function Exec(s: Shared, es: seq<Event>): Shared {
    if es == [] then s else Next(Exec(s, es[..|es| - 1]), es[|es| - 1])
  }

  lemma ExecLast(s: Shared, es: seq<Event>, e: Event)
    ensures Exec(s, es + [e]) == Next(Exec(s, es), e)
  {
    assert (es + [e])[..|es|] == es;
  }

  // ---------------------------------------------------------------- atomicity, in every interleaving

  predicate InSection(pc: Pc) {
    !pc.Idle? && !pc.Clipping? && !pc.Wanting? && !pc.Blocked?
  }

  predicate HasFlagSet(pc: Pc) {
    pc.Writing? || pc.HalfWritten? || pc.Written?
  }

  ghost predicate Exclusive(s: Shared) {
    forall t :: InSection(PcOf(s, t)) <==> s.mutex == Held(t)
  }

  function HolderPc(s: Shared): Pc {
    if s.mutex.Held? then PcOf(s, s.mutex.owner) else Idle
  }

  /** Outside the middle of a write the index is the fold of the completed writes. */
  ghost predicate Sequential(ix: Index, s: Shared) {
    var done := RunChanges(ix, s.log);
    if HolderPc(s).HalfWritten? then
      HolderPc(s).goal == ApplyChange(done, HolderPc(s).change) && s.index == done.(keys := HolderPc(s).goal.keys)
    else s.index == done
  }

  /** A reply of the index after some whole number of writes, a number that was reached between the
      begin of the task and now. */
  ghost predicate IsTimely(ix: Index, log: seq<Change>, task: Task, reply: Reply, from: nat, at: nat, now: nat) {
    from <= at <= now <= |log| && reply == ReplyTo(task, RunChanges(ix, log[..at]))
  }

  ghost predicate AnswersAreTimely(ix: Index, s: Shared) {
    && (forall a :: a in s.answers ==> IsTimely(ix, s.log, a.task, a.reply, a.from, a.at, a.until))
    && forall t :: PcOf(s, t).Answered? ==>
         var pc := PcOf(s, t); IsTimely(ix, s.log, pc.task, pc.reply, pc.from, pc.at, |s.log|)
  }

  function FromOf(pc: Pc): nat {
    if pc.Idle? || pc.Leaving? then 0 else pc.from
  }

  /** No task began after now, and every write comes after all those that were complete when it began. */
  ghost predicate WritesAreTimely(s: Shared) {
    && (forall t :: FromOf(PcOf(s, t)) <= |s.log|)
    && |s.starts| == |s.log|
    && forall i :: 0 <= i < |s.starts| ==> s.starts[i] <= i
  }

  ghost predicate Atomic(ix: Index, s: Shared) {
    Exclusive(s) && Sequential(ix, s) && AnswersAreTimely(ix, s) && WritesAreTimely(s)
  }

  lemma OthersStay(s: Shared, e: Event)
    ensures forall t :: t != e.t ==> PcOf(Next(s, e), t) == PcOf(s, t)
  {
  }

  /** The thread that steps takes the mutex, gives it back, or leaves it. */
  lemma StepMovesMutex(s: Shared, e: Event)
    requires InSection(PcOf(s, e.t)) <==> s.mutex == Held(e.t)
    ensures InSection(PcOf(Next(s, e), e.t)) <==> Next(s, e).mutex == Held(e.t)
    ensures Next(s, e).mutex == s.mutex || (s.mutex == Free && Next(s, e).mutex == Held(e.t))
            || (s.mutex == Held(e.t) && Next(s, e).mutex == Free)
  {
  }

  lemma StepKeepsExclusive(s: Shared, e: Event)
    requires Exclusive(s)
    ensures Exclusive(Next(s, e))
  {
    OthersStay(s, e);
    StepMovesMutex(s, e);
  }

  /** What one step does to the index and the log. */
  lemma StepWrites(s: Shared, e: Event)
    ensures var s', pc, pc' := Next(s, e), PcOf(s, e.t), PcOf(Next(s, e), e.t);
            || (pc.HalfWritten? && pc'.Written? && s'.index == pc.goal && s'.log == s.log + [pc.change])
            || (pc.Writing? && pc'.Idle? && s'.index == ApplyChange(s.index, pc.change) && s'.log == s.log + [pc.change])
            || (pc.Writing? && pc' == HalfWritten(pc.change, ApplyChange(s.index, pc.change), pc.from)
                && s'.index == s.index.(keys := pc'.goal.keys) && s'.log == s.log)
            || (s'.index == s.index && s'.log == s.log && (pc'.HalfWritten? || pc.HalfWritten? ==> pc' == pc))
  {
    hide ApplyChange, ReplyTo, Fails;
  }

  lemma StepKeepsSequential(ix: Index, s: Shared, e: Event)
    requires Exclusive(s) && Sequential(ix, s)
    ensures Sequential(ix, Next(s, e))
  {
    hide ApplyChange, RunChanges, Next;
    var s', pc := Next(s, e), PcOf(s, e.t);
    StepWrites(s, e);
    StepKeepsExclusive(s, e);
    OthersStay(s, e);
    assert InSection(pc) <==> s.mutex == Held(e.t);
    assert InSection(PcOf(s', e.t)) <==> s'.mutex == Held(e.t);
    StepMovesMutex(s, e);
    if pc.HalfWritten? || pc.Writing? {
      ChangesLast(ix, s.log, pc.change);
    }
  }

  lemma StepKeepsWrites(s: Shared, e: Event)
    requires WritesAreTimely(s)
    ensures WritesAreTimely(Next(s, e))
  {
    hide ApplyChange, ReplyTo, Fails;
    var s' := Next(s, e);
    assert FromOf(PcOf(s, e.t)) <= |s.log| && forall t :: t != e.t ==> PcOf(s', t) == PcOf(s, t);
  }

  lemma TimelyLater(ix: Index, log: seq<Change>, log': seq<Change>, task: Task, reply: Reply,
                    from: nat, at: nat, now: nat, now': nat)
    requires IsTimely(ix, log, task, reply, from, at, now) && log <= log' && now <= now' <= |log'|
    ensures IsTimely(ix, log', task, reply, from, at, now')
  {
    assert log'[..at] == log[..at];
  }

  lemma LogOnlyGrows(s: Shared, e: Event)
    ensures s.log <= Next(s, e).log
    ensures e.Read? || e.Release? ==> Next(s, e).log == s.log
  {
  }

  lemma StepKeepsAnswers(ix: Index, s: Shared, e: Event)
    requires Atomic(ix, s)
    ensures forall a :: a in Next(s, e).answers ==> IsTimely(ix, Next(s, e).log, a.task, a.reply, a.from, a.at, a.until)
  {
    var s' := Next(s, e);
    LogOnlyGrows(s, e);
    forall a | a in s'.answers ensures IsTimely(ix, s'.log, a.task, a.reply, a.from, a.at, a.until) {
      if a in s.answers {
        TimelyLater(ix, s.log, s'.log, a.task, a.reply, a.from, a.at, a.until, a.until);
      }
    }
  }

  lemma StepKeepsPending(ix: Index, s: Shared, e: Event, t: nat)
    requires Atomic(ix, s) && PcOf(Next(s, e), t).Answered?
    ensures var p := PcOf(Next(s, e), t); IsTimely(ix, Next(s, e).log, p.task, p.reply, p.from, p.at, |Next(s, e).log|)
  {
    var s', pc := Next(s, e), PcOf(s, e.t);
    LogOnlyGrows(s, e);
    OthersStay(s, e);
    var p := PcOf(s', t);
    if PcOf(s, t) == p {
      TimelyLater(ix, s.log, s'.log, p.task, p.reply, p.from, p.at, |s.log|, |s'.log|);
    } else {
      assert t == e.t && pc.Ready? && InSection(pc) && FromOf(pc) <= |s.log|;
      assert s.log[..|s.log|] == s.log;
    }
  }

  lemma StepKeepsTimely(ix: Index, s: Shared, e: Event)
    requires Atomic(ix, s)
    ensures AnswersAreTimely(ix, Next(s, e))
  {
    var s' := Next(s, e);
    StepKeepsAnswers(ix, s, e);
    forall t | PcOf(s', t).Answered?
      ensures var pc := PcOf(s', t); IsTimely(ix, s'.log, pc.task, pc.reply, pc.from, pc.at, |s'.log|)
    {
      StepKeepsPending(ix, s, e, t);
    }
  }

  // The lengths of purges.

  /** The change a thread is at work on. */
  function ChangeOf(pc: Pc): Change
    requires HasChange(pc)
  {
    if pc.Wanting? || pc.Locked? then pc.job.change else pc.change
  }

  predicate HasChange(pc: Pc) {
    ((pc.Wanting? || pc.Locked?) && pc.job.Alter?) || pc.Writing? || pc.HalfWritten? || pc.Written?
  }

  /** A purge was clipped to the sizes of a moment between its begin and now. */
  ghost predicate IsClipped(ix: Index, log: seq<Change>, c: Change, from: nat, now: nat) {
    c.Cut? ==>
      from <= c.read <= now <= |log| && c.length == ClampPurge(RunChanges(ix, log[..c.read]), c.n)
  }

  ghost predicate ClipsStand(ix: Index, s: Shared) {
    && |s.starts| == |s.log|
    && (forall i :: 0 <= i < |s.log| ==> IsClipped(ix, s.log, s.log[i], s.starts[i], i))
    && forall t :: HasChange(PcOf(s, t)) ==>
         IsClipped(ix, s.log, ChangeOf(PcOf(s, t)), FromOf(PcOf(s, t)), |s.log|)
  }

  lemma ClippedLater(ix: Index, log: seq<Change>, log': seq<Change>, c: Change, from: nat, now: nat, now': nat)
    requires IsClipped(ix, log, c, from, now) && log <= log' && now <= now' <= |log'|
    ensures IsClipped(ix, log', c, from, now')
  {
    if c.Cut? {
      assert log'[..c.read] == log[..c.read];
    }
  }

  /** A step takes over the change of the thread, or clips one. */
  lemma StepMovesChange(s: Shared, e: Event)
    requires HasChange(PcOf(Next(s, e), e.t))
    ensures var pc, pc' := PcOf(s, e.t), PcOf(Next(s, e), e.t);
            || (HasChange(pc) && ChangeOf(pc') == ChangeOf(pc) && FromOf(pc') == FromOf(pc))
            || ChangeOf(pc').Whole?
            || (pc.Clipping? && FromOf(pc') == pc.from
                && ChangeOf(pc') == Cut(pc.n, ClampPurge(s.index, pc.n), |s.log|))
  {
  }

  /** The sizes of the index are those of the completed writes, also in the middle of one. */
  lemma SizesAreSettled(ix: Index, s: Shared, n: nat)
    requires Sequential(ix, s)
    ensures ClampPurge(s.index, n) == ClampPurge(RunChanges(ix, s.log), n)
  {
  }

  lemma StepKeepsPendingClips(ix: Index, s: Shared, e: Event, t: nat)
    requires Sequential(ix, s) && ClipsStand(ix, s) && WritesAreTimely(s) && HasChange(PcOf(Next(s, e), t))
    ensures var pc' := PcOf(Next(s, e), t); IsClipped(ix, Next(s, e).log, ChangeOf(pc'), FromOf(pc'), |Next(s, e).log|)
  {
    var s', pc := Next(s, e), PcOf(s, t);
    LogOnlyGrows(s, e);
    OthersStay(s, e);
    if t == e.t {
      StepMovesChange(s, e);
    }
    if HasChange(pc) && ChangeOf(PcOf(s', t)) == ChangeOf(pc) && FromOf(PcOf(s', t)) == FromOf(pc) {
      ClippedLater(ix, s.log, s'.log, ChangeOf(pc), FromOf(pc), |s.log|, |s'.log|);
    } else if !ChangeOf(PcOf(s', t)).Whole? {
      SizesAreSettled(ix, s, pc.n);
      assert FromOf(pc) <= |s.log| && s'.log == s.log && s.log[..|s.log|] == s.log;
    }
  }

  /** What a step adds to the log is the change of the thread that steps. */
  lemma StepLogs(s: Shared, e: Event)
    requires |s.starts| == |s.log|
    ensures var s', pc := Next(s, e), PcOf(s, e.t);
            || (s'.log == s.log && s'.starts == s.starts)
            || (HasChange(pc) && s'.log == s.log + [ChangeOf(pc)] && s'.starts == s.starts + [FromOf(pc)])
  {
  }

  lemma StepKeepsClips(ix: Index, s: Shared, e: Event)
    requires Sequential(ix, s) && ClipsStand(ix, s) && WritesAreTimely(s)
    ensures ClipsStand(ix, Next(s, e))
  {
    hide Next;
    var s', pc := Next(s, e), PcOf(s, e.t);
    LogOnlyGrows(s, e);
    StepLogs(s, e);
    forall i | 0 <= i < |s'.log| ensures IsClipped(ix, s'.log, s'.log[i], s'.starts[i], i) {
      if i < |s.log| {
        ClippedLater(ix, s.log, s'.log, s.log[i], s.starts[i], i, i);
      } else {
        ClippedLater(ix, s.log, s'.log, ChangeOf(pc), FromOf(pc), i, i);
      }
    }
    forall t | HasChange(PcOf(s', t))
      ensures IsClipped(ix, s'.log, ChangeOf(PcOf(s', t)), FromOf(PcOf(s', t)), |s'.log|)
    {
      StepKeepsPendingClips(ix, s, e, t);
    }
  }

  /** In every interleaving of any threads, throws included: at most one thread is inside; every answer
      is that of the index after a whole number of writes, a number reached between the begin of the
      reader's task and its leaving; the writes are in an order that respects real time; and every purge
      among them cuts to a length that it clipped at some moment between its begin and its write. */
  lemma {:induction false} EveryRunIsAtomic(ix: Index, es: seq<Event>)
    ensures Atomic(ix, Exec(NewManager(ix), es)) && ClipsStand(ix, Exec(NewManager(ix), es))
  {
    if es != [] {
      var s := Exec(NewManager(ix), es[..|es| - 1]);
      EveryRunIsAtomic(ix, es[..|es| - 1]);
      StepKeepsExclusive(s, es[|es| - 1]);
      StepKeepsSequential(ix, s, es[|es| - 1]);
      StepKeepsTimely(ix, s, es[|es| - 1]);
      StepKeepsWrites(s, es[|es| - 1]);
      StepKeepsClips(ix, s, es[|es| - 1]);
    }
  }

  // ---------------------------------------------------------------- what the answers say

  /** A report lists the highest pairs of the ranking from the top down; a key is hot if the pair of its
      stored count is ranked, which in a valid index is to say that the key is; a dump is the two maps. */
  ghost predicate Truthful(task: Task, reply: Reply, ix: Index) {
    match task
    case ReadReport =>
      && reply.Listed? && |reply.lines| == Min(ix.base, |ix.ranking|)
      && forall i :: 0 <= i < |reply.lines| ==> reply.lines[i] == ix.ranking[|ix.ranking| - 1 - i]
    case ReadHot(key) =>
      && reply.Hot?
      && (reply.yes <==> key in ix.keys && Entry(ix.keys[key].frequency, key) in ix.ranking)
      && (Valid(ix) ==> (reply.yes <==> key in KeySet(ix.ranking)))
    case ReadBackup => reply.Dumped? && reply.keys == ix.keys && reply.ranking == ix.ranking
    case Write(_) => true
  }

  lemma RepliesAreTruthful(task: Task, ix: Index)
    ensures Truthful(task, ReplyTo(task, ix), ix)
  {
    if task.ReadHot? && Valid(ix) {
      HotIsRanked(ix, task.key);
    }
  }

  /** So in every interleaving every answer tells the truth about the index after some whole number of
      writes, reached while the reader was at it. */
  lemma AnswersAreTruthful(ix: Index, es: seq<Event>)
    ensures var s := Exec(NewManager(ix), es);
            forall a :: a in s.answers ==>
              a.from <= a.at <= a.until <= |s.log| && Truthful(a.task, a.reply, RunChanges(ix, s.log[..a.at]))
  {
    hide Truthful, ReplyTo, RunChanges, Exec;
    var s := Exec(NewManager(ix), es);
    EveryRunIsAtomic(ix, es);
    forall a | a in s.answers
      ensures a.from <= a.at <= a.until <= |s.log| && Truthful(a.task, a.reply, RunChanges(ix, s.log[..a.at]))
    {
      assert IsTimely(ix, s.log, a.task, a.reply, a.from, a.at, a.until);
      RepliesAreTruthful(a.task, RunChanges(ix, s.log[..a.at]));
    }
  }

  // ---------------------------------------------------------------- when the calls themselves are atomic

  /** Every answer is that of the index after a whole number of calls, in an order that respects real
      time, with every purge clipped to the sizes it finds. */
  ghost predicate Linearizable(ix: Index, s: Shared) {
    forall a :: a in s.answers ==>
      && a.from <= a.at <= a.until <= |s.log|
      && a.reply == ReplyTo(a.task, Run(ix, AsOps(s.log[..a.at])))
  }

  /** In any interleaving the index goes through the states of the calls, one after the other, exactly if
      every purge was clipped to a length that cuts as one read under the mutex; and then the answers are
      those of the calls. */
  lemma CallsAreAtomicIff(ix: Index, es: seq<Event>)
    requires AllDefined(ix, Exec(NewManager(ix), es).log)
    ensures var s := Exec(NewManager(ix), es);
            && (Original(ix, s.log) <==> AllClippedRight(ix, s.log))
            && (Original(ix, s.log) ==> Linearizable(ix, s))
  {
    hide *;
    var s := Exec(NewManager(ix), es);
    EveryRunIsAtomic(ix, es);
    OriginalIff(ix, s.log);
    if Original(ix, s.log) {
      OriginalAnswers(ix, s);
    }
  }

  lemma OriginalAnswers(ix: Index, s: Shared)
    requires Atomic(ix, s) && Original(ix, s.log)
    ensures Linearizable(ix, s)
  {
    hide Exclusive, Sequential, WritesAreTimely, RunChanges, Run, AsOps, ReplyTo;
  }

  /** The tasks begun in a run are all among the given ones. */
  ghost predicate OnlyTasks(es: seq<Event>, tasks: set<Task>) {
    forall i :: 0 <= i < |es| && es[i].Begin? ==> es[i].task in tasks
  }

  /** The calls behind a log and behind what the threads are at are all among the given ones. */
  ghost predicate CallsOf(s: Shared, tasks: set<Task>) {
    && (forall i :: 0 <= i < |s.log| ==> Write(OpOf(s.log[i])) in tasks && (s.log[i].Whole? ==> !s.log[i].op.PurgeTo?))
    && (forall t :: HasChange(PcOf(s, t)) ==>
         var c := ChangeOf(PcOf(s, t)); Write(OpOf(c)) in tasks && (c.Whole? ==> !c.op.PurgeTo?))
    && forall t :: PcOf(s, t).Clipping? ==> Write(PurgeTo(PcOf(s, t).n)) in tasks
  }

  lemma StepKeepsCalls(s: Shared, e: Event, tasks: set<Task>)
    requires |s.starts| == |s.log| && CallsOf(s, tasks) && (e.Begin? ==> e.task in tasks)
    ensures CallsOf(Next(s, e), tasks)
  {
    hide ApplyChange, ReplyTo, Fails;
    var s' := Next(s, e);
    StepLogs(s, e);
    OthersStay(s, e);
  }

  lemma {:induction false} RunKeepsCalls(ix: Index, es: seq<Event>, tasks: set<Task>)
    requires OnlyTasks(es, tasks)
    ensures CallsOf(Exec(NewManager(ix), es), tasks)
  {
    if es != [] {
      RunKeepsCalls(ix, es[..|es| - 1], tasks);
      EveryRunIsAtomic(ix, es[..|es| - 1]);
      StepKeepsCalls(Exec(NewManager(ix), es[..|es| - 1]), es[|es| - 1], tasks);
    }
  }

  /** As long as purges and size changes do not come together every interleaving is one of the calls. */
  lemma AtomicWithoutResize(ix: Index, es: seq<Event>, tasks: set<Task>)
    requires OnlyTasks(es, tasks)
    requires (forall n :: Write(SetTop(n)) !in tasks) || (forall n :: Write(PurgeTo(n)) !in tasks)
    ensures var s := Exec(NewManager(ix), es); Original(ix, s.log) && Linearizable(ix, s)
  {
    hide Sequential, WritesAreTimely, RunChanges, Run, AsOps, ReplyTo, Exec;
    var s := Exec(NewManager(ix), es);
    EveryRunIsAtomic(ix, es);
    RunKeepsCalls(ix, es, tasks);
    OriginalWhenApart(ix, s, tasks);
    OriginalAnswers(ix, s);
  }

  lemma OriginalWhenApart(ix: Index, s: Shared, tasks: set<Task>)
    requires ClipsStand(ix, s) && CallsOf(s, tasks)
    requires (forall n :: Write(SetTop(n)) !in tasks) || (forall n :: Write(PurgeTo(n)) !in tasks)
    ensures Original(ix, s.log)
  {
    if forall n :: Write(SetTop(n)) !in tasks {
      forall i | 0 <= i < |s.log| ensures !OpOf(s.log[i]).SetTop? {
        assert Write(OpOf(s.log[i])) in tasks;
      }
      OriginalWithoutResize(ix, s.log);
    } else {
      forall i | 0 <= i < |s.log| ensures s.log[i].Whole? {
        assert Write(OpOf(s.log[i])) in tasks;
      }
      OriginalWithoutPurge(ix, s.log);
    }
  }
}
