/** States and files, all reached from a constructor, in which a property that does not hold always
    fails. The exact conditions are in the modules named beside them. */
module Instances {
  import opened BackupText
  import opened Blocking
  import opened Decimal
  import opened KeyOrder
  import opened LockProtocol
  import opened MessageServer
  import opened OwnRestores
  import opened Purging
  import opened RankingIndex
  import opened Rotation
  import opened Runs
  import opened StaleClip
  import opened TopLists
  import opened TruncatedBackup

  lemma RunOne(ix: Index, op: Op)
    ensures Run(ix, [op]) == Apply(ix, op)
  {
    assert [op][..0] == [];
  }

  /** One add to an empty manager. */
  lemma FirstAdd(n: nat, m: nat, key: string, url: string, port: nat)
    requires n < TWO_32 && m < TWO_32
    ensures var ix := Run(Initial(n, m), [AddKey(key, url, port)]);
            && Valid(ix) && ix.base == Initial(n, m).base && ix.max == Initial(n, m).max
            && ix.keys == map[key := Details(url, port, 1)]
            && ix.ranking == if ix.max == 0 then [] else [Entry(1, key)]
  {
    RunOne(Initial(n, m), AddKey(key, url, port));
    AddKeepsValid(Initial(n, m), key, url, port);
    assert Insert([], Entry(1, key)) == [Entry(1, key)];
  }

  /** Runs.InitialBaseFits: 65536 as a maximum is narrowed to 0, below the report size. */
  lemma NarrowedBelowBase()
    ensures Initial(10, 65536).max == 0 && Initial(10, 65536).base == 10
  {
  }

  /** RankingIndex.MissOnlyWithoutRanking: a maximum of 0 is possible, and then the return commented
      "Should never happen" is reached. */
  lemma MaximumOfZero()
    ensures Initial(65532, 0).max == 0
    ensures MissesFrequency(Run(Initial(65532, 0), [AddKey("a", "", 0)]), "a")
  {
    hide Run, MissesFrequency, Valid;
    FirstAdd(65532, 0, "a", "", 0);
    MissOnlyWithoutRanking(Run(Initial(65532, 0), [AddKey("a", "", 0)]), "a");
  }

  /** RankingIndex.ReportIsReference: with the maximum below the report size a report can be too short. */
  lemma ReportTooShort()
    ensures var ix := Run(Initial(10, 65536), [AddKey("a", "", 0)]);
            |Report(ix)| < Min(ix.base, |ix.keys|)
  {
    hide Run, Valid;
    FirstAdd(10, 65536, "a", "", 0);
  }

  /** RankingIndex.HotEqualsReported: hot and not reported. */
  lemma HotNotReported()
    ensures var ix := Run(Initial(0, 0), [AddKey("a", "", 0)]);
            IsHot(ix, "a") && "a" !in KeySet(Report(ix))
  {
    FirstAdd(0, 0, "a", "", 0);
  }

  /** Purging.PurgeKeepsValidIff and LaterPurgeIsDefinedIff: a first purge breaks the index, and after it
      a second one is undefined. */
  lemma PurgeBreaksIndex()
    ensures var ix := Run(Initial(0, 0), [AddKey("a", "", 0)]);
            && !Valid(Apply(ix, PurgeTo(0)))
            && !PurgeIsDefined(Apply(ix, PurgeTo(0)), 1)
  {
    FirstAdd(0, 0, "a", "", 0);
    PurgeOfOne(Run(Initial(0, 0), [AddKey("a", "", 0)]));
  }

  lemma PurgeOfOne(ix: Index)
    requires Valid(ix) && |ix.ranking| == 1 && ix.base == 0 && ix.max > 0
    ensures !Valid(Apply(ix, PurgeTo(0))) && !PurgeIsDefined(Apply(ix, PurgeTo(0)), 1)
  {
    PurgeKeepsValidIff(ix, 0);
    LaterPurgeIsDefinedIff(ix, 0, 1);
  }

  /** BackupText.RoundTripIff: one add is enough for a state that a backup and a restore do not bring
      back: a comma in the key or url, a newline in the key, a port of 2^31. */
  lemma RoundTripFails(target: Index)
    ensures !RoundTrips(AfterAdd("a,b", "", 0), target)
    ensures !RoundTrips(AfterAdd("a\nb", "", 0), target)
    ensures !RoundTrips(AfterAdd("a", "x,y", 0), target)
    ensures !RoundTrips(AfterAdd("a", "", TWO_31), target)
  {
    NotStorable("a,b", "", 0, target);
    NotStorable("a\nb", "", 0, target);
    NotStorable("a", "x,y", 0, target);
    NotStorable("a", "", TWO_31, target);
  }

  function AfterAdd(key: string, url: string, port: nat): Index {
    Run(Initial(10, 20), [AddKey(key, url, port)])
  }

  ghost predicate RoundTrips(ix: Index, target: Index) {
    Restore(target, KeyFile(ix.keys), RankText(ix.ranking)) ==
    (Completed, target.(keys := ix.keys, ranking := ix.ranking))
  }

  lemma NotStorable(key: string, url: string, port: nat, target: Index)
    requires !StorableKey(key, Details(url, port, 1)) || '\n' in key
    ensures !RoundTrips(AfterAdd(key, url, port), target)
  {
    var ix := AfterAdd(key, url, port);
    FirstAdd(10, 20, key, url, port);
    assert key in ix.keys && Entry(1, key) in ix.ranking;
    RoundTripIff(ix, target);
  }

  /** BackupText.RestoredElsewhereIff: a backup made under maximum 0 is no index under maximum 4. */
  lemma RestoredElsewhereFails()
    ensures var ix := Run(Initial(65532, 0), [AddKey("a", "", 0)]);
            && Valid(ix) && Storable(ix)
            && !Valid(Restore(Initial(0, 0), KeyFile(ix.keys), RankText(ix.ranking)).1)
  {
    hide Run, Valid, Storable, Restore, KeyFile, RankText;
    FirstAdd(65532, 0, "a", "", 0);
    RestoredWithRoom(Run(Initial(65532, 0), [AddKey("a", "", 0)]), Initial(0, 0));
  }

  lemma RestoredWithRoom(ix: Index, target: Index)
    requires Valid(ix) && ix.ranking == [] && ix.max == 0 && target.max > 0
    requires |ix.keys| == 1 && forall k :: k in ix.keys ==> StorableKey(k, ix.keys[k])
    ensures Storable(ix) && !Valid(Restore(target, KeyFile(ix.keys), RankText(ix.ranking)).1)
  {
    RestoredElsewhereIff(ix, target);
  }

  /** TruncatedBackup.TruncatedRestoreIsValidIff: with both files cut to nothing the result is the empty
      index; with the key file alone cut to nothing the ranking is left without keys. */
  lemma CutToNothing()
    ensures var ix := AfterAdd("a", "", 0);
            && Storable(ix)
            && Valid(Restore(ix, KeyFile(ix.keys)[..0], RankText(ix.ranking)[..0]).1)
            && !Valid(Restore(ix, KeyFile(ix.keys)[..0], RankText(ix.ranking)).1)
  {
    hide Run, Valid, Restore, KeyFile, RankText;
    FirstAdd(10, 20, "a", "", 0);
    CutOfOne(AfterAdd("a", "", 0), "a");
  }

  lemma CutOfOne(ix: Index, key: string)
    requires Valid(ix) && Storable(ix) && |ix.ranking| == 1 && ix.ranking[0].key == key
    ensures Valid(Restore(ix, KeyFile(ix.keys)[..0], RankText(ix.ranking)[..0]).1)
    ensures !Valid(Restore(ix, KeyFile(ix.keys)[..0], RankText(ix.ranking)).1)
  {
    var l := |RankText(ix.ranking)|;
    NothingKept(ix.keys);
    AllRanksWhole(ix.ranking, l);
    TruncatedRestoreIsValidIff(ix, ix, 0, 0);
    TruncatedRestoreIsValidIff(ix, ix, 0, l);
    assert RankText(ix.ranking)[..l] == RankText(ix.ranking);
    KeyAt(ix.ranking, 0);
    assert ix.ranking[..1] == ix.ranking;
    assert ix.ranking[..0] == [];
  }

  lemma NothingKept(m: KeyMap)
    ensures KeptKeys(m, 0) == map[]
  {
    OrderedCovers(m.Keys);
  }

  /** Rotation.RotationLogIff: two names of which one is a slot of the other. */
  lemma SlotsCollide()
    ensures Slot("a.csv", 1) == "a_1.csv"
    ensures !AlwaysLogs("a_1.csv", "a.csv")
  {
    hide AlwaysLogs;
    DotIsUnique("a.csv", 1);
    SlotAsName("a.csv", 1);
  }

  lemma SlotAsName(name: string, i: nat)
    requires i < SLOTS
    ensures !AlwaysLogs(Slot(name, i), name)
  {
    RotationLogIff(Slot(name, i), name);
    assert Slot(Slot(name, i), 0) == Slot(name, i);
  }

  /** Blocking.OwnBackupsNeverBlockIff: the program's own backup does not parse, and its restore leaves a
      reader on the condition variable, after one add with a large port and after one payload with two
      commas. */
  lemma OwnBackupBlocksReader(r: Task)
    requires !r.Write?
    ensures RestoreBlocks(AfterAdd("k", "u", TWO_31), r)
    ensures var m := KeyMessage("k,u,x");
            m.str1 == "k" && m.str2 == "u,x" && m.number == 0 && RestoreBlocks(AfterAdd("k", "u,x", 0), r)
  {
    hide RestoreBlocks, AfterAdd, KeyMessage, ReadsBack, PortText;
    CommaFreeReads(Details("u", TWO_31, 1));
    OneRecordBlocks("k", "u", TWO_31, r);
    TwoCommaPayload("k", "u", "x");
    assert "u" + [','] + "x" == "u,x" && "k" + [','] + "u,x" == "k,u,x";
    OneRecordBlocks("k", "u,x", 0, r);
  }

  ghost predicate RestoreBlocks(ix: Index, r: Task) {
    && Fails(ReloadOf(ix))
    && SomeoneBlocked(LockProtocol.Exec(NewManager(ix), ThrowThenRead(ReloadOf(ix), r)))
  }

  lemma OneRecordBlocks(key: string, url: string, port: nat, r: Task)
    requires ',' !in key && '\n' !in key && !r.Write?
    requires '\n' !in PortText(Details(url, port, 1)) && !ReadsBack(Details(url, port, 1))
    ensures RestoreBlocks(AfterAdd(key, url, port), r)
  {
    hide Run, Valid, Restore, KeyFile, RankText, LockProtocol.Exec, ThrowThenRead, PortText, ReadsBack, FilesParse;
    var ix := AfterAdd(key, url, port);
    FirstAdd(10, 20, key, url, port);
    OwnBackupParsesIff(ix, ix);
    assert key in ix.keys;
    ThrowBlocksReader(ix, ReloadOf(ix), r);
  }

  lemma TwoCommaPayload(key: string, url: string, text: string)
    requires ',' !in key && ',' !in url && '\n' !in text
    requires text != [] && !IsDigit(text[0]) && !IsSpace(text[0]) && !HasSign(text)
    ensures var m := KeyMessage(key + [','] + (url + [','] + text));
            && m.str1 == key && m.str2 == url + [','] + text && m.number == 0
            && var d := Details(m.str2, 0, 1); '\n' !in PortText(d) && !ReadsBack(d)
  {
    hide KeyMessage, PortText, ReadsBack, AsRead;
    MessageOfParts(key, url + [','] + text);
    FirstComma(url, text);
    RecordWithoutPort(Details(url + [','] + text, 0, 1));
  }

  /** LockProtocol.CallsAreAtomicIff: after two adds, two reports around a purge that no order of the two
      writes explains. */
  lemma PurgeIsNotAtomic()
    ensures var ix := Run(Initial(0, 0), [AddKey("a", "", 0), AddKey("b", "", 0)]);
            var s := LockProtocol.Exec(NewManager(ix), StaleRun());
            && |s.answers| == 2
            && forall ops, i, j | ops in {[PurgeTo(0), SetTop(2)], [SetTop(2), PurgeTo(0)]}
                                  && 0 <= i <= 2 && 0 <= j <= 2 ::
                 || s.answers[0].reply != Listed(Report(Run(ix, ops[..i])))
                 || s.answers[1].reply != Listed(Report(Run(ix, ops[..j])))
  {
    hide LockProtocol.Exec, StaleRun, Report, Valid;
    TwoAdds();
    var ix := Run(Initial(0, 0), [AddKey("a", "", 0), AddKey("b", "", 0)]);
    var s := LockProtocol.Exec(NewManager(ix), StaleRun());
    StaleReports(ix);
    forall ops, i, j | ops in {[PurgeTo(0), SetTop(2)], [SetTop(2), PurgeTo(0)]} && 0 <= i <= 2 && 0 <= j <= 2
      ensures || s.answers[0].reply != Listed(Report(Run(ix, ops[..i])))
              || s.answers[1].reply != Listed(Report(Run(ix, ops[..j])))
    {
      NoOrderExplains(ix, ops, i, j);
    }
  }

  lemma TwoAdds()
    ensures var ix := Run(Initial(0, 0), [AddKey("a", "", 0), AddKey("b", "", 0)]);
            Valid(ix) && ix.base == 0 && ix.max == 4 && |ix.ranking| == 2
  {
    hide Run, Valid, Add;
    var first := Run(Initial(0, 0), [AddKey("a", "", 0)]);
    FirstAdd(0, 0, "a", "", 0);
    assert [AddKey("a", "", 0), AddKey("b", "", 0)] == [AddKey("a", "", 0)] + [AddKey("b", "", 0)];
    RunStep(Initial(0, 0), [AddKey("a", "", 0)], AddKey("b", "", 0));
    SecondAdd(first, "a", "b");
  }

  lemma SecondAdd(ix: Index, key: string, other: string)
    requires Valid(ix) && key != other && ix.max >= 2
    requires |ix.ranking| == 1 && |ix.keys| == 1 && other !in ix.keys
    ensures var ix' := Add(ix, other, "", 0);
            Valid(ix') && ix'.base == ix.base && ix'.max == ix.max && |ix'.ranking| == 2
  {
    AddKeepsValid(ix, other, "", 0);
    assert Add(ix, other, "", 0).keys.Keys == ix.keys.Keys + {other};
  }
}
