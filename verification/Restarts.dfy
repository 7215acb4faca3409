/** Backing up, restarting with a fresh manager and restoring. */
module Restarts {
  import opened BackupText
  import opened Decimal
  import opened Purging
  import opened RankingIndex
  import opened Runs
  import opened TextStream
  import opened TopLists

  lemma {:induction false} RanksLoadSorted(st: Stream, acc: seq<Entry>)
    requires Sorted(acc)
    ensures Sorted(ReadRanks(st, acc).value)
    decreases |st.rest|
  {
    var (next, rec) := NextRank(st);
    if !st.eof && next.Good() && CountConverts(rec) {
      InsertKeepsSorted(acc, PairOf(rec));
      RanksLoadSorted(next, Insert(acc, PairOf(rec)));
    }
  }

  /** The ranking is sorted after every run whatever, safe or not. */
  lemma {:induction false} RunKeepsSorted(ix: Index, ops: seq<Op>)
    requires Sorted(ix.ranking)
    ensures Sorted(Run(ix, ops).ranking)
  {
    if ops != [] {
      var s, op := Run(ix, ops[..|ops| - 1]), ops[|ops| - 1];
      RunKeepsSorted(ix, ops[..|ops| - 1]);
      match op {
        case AddKey(key, _, _) => RerankKeepsSorted(s.ranking, CountOf(s.keys, key), key, s.max);
        case PurgeTo(n) => PurgeKeepsSorted(s, n);
        case Reload(_, rankFile) => RanksLoadSorted(Open(rankFile), []);
        case _ =>
      }
    }
  }

  lemma StepKeepsMax(ix: Index, op: Op)
    ensures Apply(ix, op).max == ix.max
  {
  }

  lemma {:induction false} RunKeepsMax(ix: Index, ops: seq<Op>)
    ensures Run(ix, ops).max == ix.max
  {
    if ops != [] {
      RunKeepsMax(ix, ops[..|ops| - 1]);
      StepKeepsMax(Run(ix, ops[..|ops| - 1]), ops[|ops| - 1]);
    }
  }

  lemma {:induction false} RunAppend(ix: Index, a: seq<Op>, b: seq<Op>)
    ensures Run(ix, a + b) == Run(Run(ix, a), b)
  {
    if b == [] {
      assert a + b == a;
    } else {
      assert (a + b)[..|a + b| - 1] == a + b[..|b| - 1];
      RunAppend(ix, a, b[..|b| - 1]);
    }
  }

  /** The two differ at most in the report size. */
  predicate SameMaps(a: Index, b: Index) {
    a.keys == b.keys && a.ranking == b.ranking && a.max == b.max
  }

  predicate NoPurge(ops: seq<Op>) {
    forall i :: 0 <= i < |ops| ==> !ops[i].PurgeTo?
  }

  lemma StepIgnoresBase(a: Index, b: Index, op: Op)
    requires SameMaps(a, b) && !op.PurgeTo?
    ensures SameMaps(Apply(a, op), Apply(b, op))
  {
    match op {
      case AddKey(key, url, port) => AddIgnoresBase(a, b, key, url, port);
      case Reload(keyFile, rankFile) => RestoreIgnoresBase(a, b, keyFile, rankFile);
      case _ =>
    }
  }

  lemma AddIgnoresBase(a: Index, b: Index, key: string, url: string, port: nat)
    requires SameMaps(a, b)
    ensures SameMaps(Add(a, key, url, port), Add(b, key, url, port))
  {
    assert TakesEarlyExit(a, key) == TakesEarlyExit(b, key) && Reranked(a, key) == Reranked(b, key);
  }

  lemma RestoreIgnoresBase(a: Index, b: Index, keyFile: string, rankFile: string)
    requires SameMaps(a, b)
    ensures SameMaps(Restore(a, keyFile, rankFile).1, Restore(b, keyFile, rankFile).1)
  {
  }

  lemma {:induction false} BaseIsIrrelevant(a: Index, b: Index, ops: seq<Op>)
    requires SameMaps(a, b) && (NoPurge(ops) || a.base == b.base)
    ensures SameMaps(Run(a, ops), Run(b, ops))
  {
    if a.base == b.base {
      assert a == b;
    } else if ops != [] {
      BaseIsIrrelevant(a, b, ops[..|ops| - 1]);
      StepIgnoresBase(Run(a, ops[..|ops| - 1]), Run(b, ops[..|ops| - 1]), ops[|ops| - 1]);
    }
  }

  /** What a manager of the same sizes holds after restoring a backup of s. */
  ghost function Restarted(n: nat, m: nat, s: Index): (Outcome, Index)
    requires n < TWO_32 && m < TWO_32
  {
    Restore(Initial(n, m), KeyFile(s.keys), RankText(s.ranking))
  }

  /** A restart is transparent: back up the state after any run a, restore into a fresh manager of the
      same sizes, run b, and both maps are what a + b would have given without the restart. Only the
      report size is not saved, so a purge in b, which clips to it, needs it unchanged by a. */
  lemma RestartIsTransparent(n: nat, m: nat, a: seq<Op>, b: seq<Op>)
    requires n < TWO_32 && m < TWO_32 && Storable(Run(Initial(n, m), a))
    requires NoPurge(b) || Run(Initial(n, m), a).base == Initial(n, m).base
    ensures Restarted(n, m, Run(Initial(n, m), a)).0.Completed?
    ensures SameMaps(Run(Restarted(n, m, Run(Initial(n, m), a)).1, b), Run(Initial(n, m), a + b))
  {
    var s := Run(Initial(n, m), a);
    RunKeepsSorted(Initial(n, m), a);
    RunKeepsMax(Initial(n, m), a);
    RestartKeepsMaps(n, m, s);
    RunAppend(Initial(n, m), a, b);
    BaseIsIrrelevant(Restarted(n, m, s).1, s, b);
  }

  // ---------------------------------------------------------------- any number of restarts

  /** Rounds of operations, with a backup, a restart and a restore before each. */
  ghost function AfterRounds(n: nat, m: nat, rounds: seq<seq<Op>>): Index
    requires n < TWO_32 && m < TWO_32
  {
    if rounds == [] then Initial(n, m)
    else Run(Restarted(n, m, AfterRounds(n, m, rounds[..|rounds| - 1])).1, rounds[|rounds| - 1])
  }

  function AllRounds(rounds: seq<seq<Op>>): seq<Op> {
    if rounds == [] then [] else AllRounds(rounds[..|rounds| - 1]) + rounds[|rounds| - 1]
  }

  /** Every state that is backed up, that is all but the last, is storable. */
  ghost predicate EachStorable(n: nat, m: nat, rounds: seq<seq<Op>>)
    requires n < TWO_32 && m < TWO_32
  {
    forall i :: 0 <= i < |rounds| ==> Storable(AfterRounds(n, m, rounds[..i]))
  }

  lemma RestartKeepsMaps(n: nat, m: nat, s: Index)
    requires n < TWO_32 && m < TWO_32 && Storable(s) && Sorted(s.ranking) && s.max == Initial(n, m).max
    ensures Restarted(n, m, s).0.Completed? && SameMaps(Restarted(n, m, s).1, s)
  {
    RoundTripIff(s, Initial(n, m));
  }

  /** However often the manager is restarted, both maps are those of one manager that went through all
      the rounds without any restart. */
  lemma {:induction false} RestartsAreTransparent(n: nat, m: nat, rounds: seq<seq<Op>>)
    requires n < TWO_32 && m < TWO_32 && EachStorable(n, m, rounds) && NoPurge(AllRounds(rounds))
    ensures SameMaps(AfterRounds(n, m, rounds), Run(Initial(n, m), AllRounds(rounds)))
  {
    hide Storable, NoPurge, Initial, Apply;
    if rounds != [] {
      var front, b := rounds[..|rounds| - 1], rounds[|rounds| - 1];
      var a := AllRounds(front);
      forall i | 0 <= i < |front| ensures Storable(AfterRounds(n, m, front[..i])) {
        assert front[..i] == rounds[..i];
      }
      NoPurgeInParts(a, b);
      RestartsAreTransparent(n, m, front);
      OneMoreRound(n, m, AfterRounds(n, m, front), a, b);
    }
  }

  lemma NoPurgeInParts(a: seq<Op>, b: seq<Op>)
    requires NoPurge(a + b)
    ensures NoPurge(a) && NoPurge(b)
  {
    assert forall i :: 0 <= i < |a| ==> (a + b)[i] == a[i];
    assert forall i :: 0 <= i < |b| ==> (a + b)[|a| + i] == b[i];
  }

  lemma OneMoreRound(n: nat, m: nat, s: Index, a: seq<Op>, b: seq<Op>)
    requires n < TWO_32 && m < TWO_32 && Storable(s) && NoPurge(b) && SameMaps(s, Run(Initial(n, m), a))
    ensures SameMaps(Run(Restarted(n, m, s).1, b), Run(Initial(n, m), a + b))
  {
    RunKeepsSorted(Initial(n, m), a);
    RunKeepsMax(Initial(n, m), a);
    RestartKeepsMaps(n, m, s);
    RunAppend(Initial(n, m), a, b);
    BaseIsIrrelevant(Restarted(n, m, s).1, Run(Initial(n, m), a), b);
  }

  /** So counting goes on across any number of restarts as if nothing had happened, and so does the order
      among equals. */
  lemma HistorySurvivesRestarts(n: nat, m: nat, rounds: seq<seq<Op>>)
    requires n < TWO_32 && m < TWO_32 && EachStorable(n, m, rounds) && Tracking(AllRounds(rounds))
    ensures var s := AfterRounds(n, m, rounds);
            CountsHistory(s.keys, AllRounds(rounds)) && RecencyOrder(AllRounds(rounds), s.ranking)
  {
    var ops := AllRounds(rounds);
    RestartsAreTransparent(n, m, rounds);
    InitialIsValid(n, m);
    RunCountsHistory(Initial(n, m), ops);
    TrackingIsSafe(Initial(n, m), ops);
    RunKeepsRecency(Initial(n, m), ops);
  }
}
