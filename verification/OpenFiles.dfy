/** A backup opens both its files, which empties them, before it has the mutex, and dumps under it. A
    restore reads under the mutex too. So a restore never sees half a dump, but it may see files that a
    backup has opened and not yet filled. */
module OpenFiles {
  import opened BackupText
  import KeyOrder
  import opened RankingIndex
  import opened TextStream

  /** How far a thread is with a backup. */
  datatype Stage = NotOpen | KeysOpen | BothOpen

  /** The two files, where the threads stand, and the state dumped last. */
  datatype Disk = Disk(keyFile: string, rankFile: string, stages: map<nat, Stage>, last: Index)

  datatype Event =
    | OpenKeys(t: nat)
    | OpenRanks(t: nat)
    | Dump(t: nat, ix: Index)   // the state found under the mutex; the dump ends with both files closed

  function StageOf(d: Disk, t: nat): Stage {
    if t in d.stages then d.stages[t] else NotOpen
  }

  function To(d: Disk, t: nat, stage: Stage): Disk {
    d.(stages := d.stages[t := stage])
  }

  /** Writing from the start of a file that may have been filled since it was opened. */
  function Over(found: string, text: string): string {
    if |found| <= |text| then text else text + found[|text|..]
  }

  ghost function Step(d: Disk, e: Event): Disk {
    match e
    case OpenKeys(t) => if StageOf(d, t).NotOpen? then To(d, t, KeysOpen).(keyFile := "") else d
    case OpenRanks(t) => if StageOf(d, t).KeysOpen? then To(d, t, BothOpen).(rankFile := "") else d
    case Dump(t, ix) =>
      if StageOf(d, t).BothOpen? then
        To(d, t, NotOpen).(keyFile := Over(d.keyFile, KeyFile(ix.keys)),
                           rankFile := Over(d.rankFile, RankText(ix.ranking)),
                           last := ix)
      else d
  }

  ghost function Exec(d: Disk, es: seq<Event>): Disk {
    if es == [] then d else Step(Exec(d, es[..|es| - 1]), es[|es| - 1])
  }

  /** A disk that holds the backup of a state. */
  ghost function Holding(ix: Index): Disk {
    Disk(KeyFile(ix.keys), RankText(ix.ranking), map[], ix)
  }

  // ---------------------------------------------------------------- one backup at a time

  ghost predicate NothingOpen(d: Disk) {
    forall t :: StageOf(d, t).NotOpen?
  }

  /** No backup opens its files while another has them open. */
  ghost predicate OneAtATime(d: Disk, es: seq<Event>) {
    forall i :: 0 <= i < |es| && es[i].OpenKeys? ==> NothingOpen(Exec(d, es[..i]))
  }

  ghost predicate KeysEmptied(d: Disk) {
    exists t :: !StageOf(d, t).NotOpen?
  }

  ghost predicate RanksEmptied(d: Disk) {
    exists t :: StageOf(d, t).BothOpen?
  }

  /** A file holds the last dump, or nothing while a backup has it open. */
  ghost predicate HoldsLast(d: Disk) {
    && (forall t, u :: StageOf(d, t).NotOpen? || StageOf(d, u).NotOpen? || t == u)
    && d.keyFile == (if KeysEmptied(d) then "" else KeyFile(d.last.keys))
    && d.rankFile == if RanksEmptied(d) then "" else RankText(d.last.ranking)
  }

  lemma StepKeepsLast(d: Disk, e: Event)
    requires HoldsLast(d) && (e.OpenKeys? ==> NothingOpen(d))
    ensures HoldsLast(Step(d, e))
  {
    var d' := Step(d, e);
    assert forall t :: t != e.t ==> StageOf(d', t) == StageOf(d, t);
    if StageOf(d', e.t) != StageOf(d, e.t) {
      assert e.OpenKeys? || !StageOf(d, e.t).NotOpen?;
      assert KeysEmptied(d') <==> !StageOf(d', e.t).NotOpen?;
      assert RanksEmptied(d') <==> StageOf(d', e.t).BothOpen?;
      if e.OpenKeys? {
        assert !RanksEmptied(d);
      } else {
        assert KeysEmptied(d);
        assert e.Dump? ==> RanksEmptied(d);
      }
    }
  }

  lemma {:induction false} RunHoldsLast(d: Disk, es: seq<Event>)
    requires HoldsLast(d) && OneAtATime(d, es)
    ensures HoldsLast(Exec(d, es))
  {
    if es != [] {
      var front := es[..|es| - 1];
      forall i | 0 <= i < |front| && front[i].OpenKeys? ensures NothingOpen(Exec(d, front[..i])) {
        assert front[..i] == es[..i] && front[i] == es[i];
      }
      RunHoldsLast(d, front);
      StepKeepsLast(Exec(d, front), es[|es| - 1]);
    }
  }

  // ---------------------------------------------------------------- what a restore finds

  lemma EmptyFilesLoad()
    ensures ReadKeys(Open(""), map[]) == Loaded(Completed, map[])
    ensures ReadRanks(Open(""), []) == Loaded(Completed, [])
  {
  }

  lemma WholeFilesLoad(ix: Index)
    requires Sorted(ix.ranking) && Storable(ix)
    ensures ReadKeys(Open(KeyFile(ix.keys)), map[]) == Loaded(Completed, ix.keys)
    ensures ReadRanks(Open(RankText(ix.ranking)), []) == Loaded(Completed, ix.ranking)
  {
    RankFileRoundTrip(ix.ranking);
    KeyFileRoundTrip(ix.keys);
  }

  /** With one backup at a time, at whatever moment: a restore completes, and gives back the state dumped
      last exactly if no backup has its files open, or nothing was in the files that it has emptied. */
  lemma RestoreFindsLastIff(first: Index, es: seq<Event>, target: Index)
    requires OneAtATime(Holding(first), es)
    requires var last := Exec(Holding(first), es).last; Sorted(last.ranking) && Storable(last)
    ensures var d := Exec(Holding(first), es);
            && Restore(target, d.keyFile, d.rankFile).0.Completed?
            && (Restore(target, d.keyFile, d.rankFile) ==
                (Completed, target.(keys := d.last.keys, ranking := d.last.ranking))
                <==> (KeysEmptied(d) ==> d.last.keys == map[]) && (RanksEmptied(d) ==> d.last.ranking == []))
  {
    hide KeyFile, RankText, ReadKeys, ReadRanks, Storable, Exec;
    var d := Exec(Holding(first), es);
    RunHoldsLast(Holding(first), es);
    EmptyFilesLoad();
    WholeFilesLoad(d.last);
  }

  // ---------------------------------------------------------------- backups that overlap

  /** The file is as long as the longer of the two, and holds text, and behind it what was there. */
  predicate LiesOver(text: string, found: string, file: string) {
    && |file| == (if |text| >= |found| then |text| else |found|)
    && forall i :: 0 <= i < |file| ==> file[i] == if i < |text| then text[i] else found[i]
  }

  /** A dump leaves its own text alone in the files, whatever other backups have done since it opened
      them, exactly if what it finds in them is not longer. Otherwise the end of the other dump stays. */
  lemma DumpIsWholeIff(d: Disk, t: nat, ix: Index)
    requires StageOf(d, t).BothOpen?
    ensures Step(d, Dump(t, ix)).keyFile == KeyFile(ix.keys) <==> |d.keyFile| <= |KeyFile(ix.keys)|
    ensures Step(d, Dump(t, ix)).rankFile == RankText(ix.ranking) <==> |d.rankFile| <= |RankText(ix.ranking)|
    ensures LiesOver(KeyFile(ix.keys), d.keyFile, Step(d, Dump(t, ix)).keyFile)
    ensures LiesOver(RankText(ix.ranking), d.rankFile, Step(d, Dump(t, ix)).rankFile)
  {
    hide KeyFile, RankText;
  }

  // ---------------------------------------------------------------- two moments to avoid

  lemma ExecLast(d: Disk, es: seq<Event>, e: Event)
    ensures Exec(d, es + [e]) == Step(Exec(d, es), e)
  {
    assert (es + [e])[..|es|] == es;
  }

  lemma ExecNothing(d: Disk)
    ensures Exec(d, []) == d
  {
  }

  /** Threads 0 and 1 open their files. */
  function BothOpened(): seq<Event> {
    [] + [OpenKeys(0)] + [OpenRanks(0)] + [OpenKeys(1)] + [OpenRanks(1)]
  }

  lemma FilesAreOpen(ix: Index)
    ensures var d := Exec(Holding(ix), BothOpened());
            && d.keyFile == "" && d.rankFile == "" && d.last == ix
            && StageOf(d, 0).BothOpen? && StageOf(d, 1).BothOpen?
  {
    hide KeyFile, RankText, Exec;
    var d := Holding(ix);
    assert Exec(d, []) == d by { ExecNothing(d); }
    ExecLast(d, [], OpenKeys(0));
    ExecLast(d, [] + [OpenKeys(0)], OpenRanks(0));
    ExecLast(d, [] + [OpenKeys(0)] + [OpenRanks(0)], OpenKeys(1));
    ExecLast(d, [] + [OpenKeys(0)] + [OpenRanks(0)] + [OpenKeys(1)], OpenRanks(1));
  }

  /** A restore that comes now empties the manager. */
  lemma OpenBackupEmptiesRestore(ix: Index, target: Index)
    ensures var d := Exec(Holding(ix), BothOpened());
            Restore(target, d.keyFile, d.rankFile) == (Completed, Zap(target))
  {
    hide Exec, BothOpened;
    FilesAreOpen(ix);
    EmptyFilesLoad();
  }

  /** And when thread 1 dumps an emptied manager after thread 0 has dumped a full one, the last dump is
      lost: a restore gives back the one before. */
  lemma ShorterDumpIsLost(ix: Index, target: Index)
    requires Sorted(ix.ranking) && Storable(ix)
    ensures var d := Exec(Holding(ix), BothOpened() + [Dump(0, ix)] + [Dump(1, Zap(ix))]);
            && d.last == Zap(ix)
            && Restore(target, d.keyFile, d.rankFile) ==
               (Completed, target.(keys := ix.keys, ranking := ix.ranking))
  {
    hide Exec, BothOpened, KeyFile, RankText, Restore;
    FilesAreOpen(ix);
    ExecLast(Holding(ix), BothOpened(), Dump(0, ix));
    ExecLast(Holding(ix), BothOpened() + [Dump(0, ix)], Dump(1, Zap(ix)));
    EmptyTexts(ix);
    OverNothing(KeyFile(ix.keys));
    OverNothing(RankText(ix.ranking));
    RoundTripIff(ix, target);
  }

  lemma OverNothing(text: string)
    ensures Over("", text) == text && Over(text, "") == text
  {
    assert "" + text[0..] == text;
  }

  lemma EmptyTexts(ix: Index)
    ensures KeyFile(Zap(ix).keys) == "" && RankText(Zap(ix).ranking) == ""
  {
    KeyOrder.OrderedCovers({});
  }
}
