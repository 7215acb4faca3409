/** Whole runs of the index: any sequence of adds, size changes, zaps, purges and restores, from a
    constructor on. */
module Runs {
  import opened BackupText
  import opened Decimal
  import opened Purging
  import opened RankingIndex
  import opened Sequences
  import opened TopLists

  datatype Op =
    | AddKey(key: string, url: string, port: nat)
    | SetTop(n: nat)
    | ZapAll
    | PurgeTo(n: nat)
    | Reload(keyFile: string, rankFile: string)

  function Apply(ix: Index, op: Op): Index {
    match op
    case AddKey(key, url, port) => Add(ix, key, url, port)
    case SetTop(n) => SetBase(ix, n)
    case ZapAll => Zap(ix)
    case PurgeTo(n) => Purge(ix, n)
    case Reload(keyFile, rankFile) => Restore(ix, keyFile, rankFile).1
  }

  function Run(ix: Index, ops: seq<Op>): Index {
    if ops == [] then ix
    else Apply(Run(ix, ops[..|ops| - 1]), ops[|ops| - 1])
  }

  // ---------------------------------------------------------------- the constructors

  const TWO_16: nat := 0x1_0000
  const MIN_GAP: nat := 4

  /** MapManager(n, m): 32-bit arithmetic, then both sizes are narrowed to 16 bits. */
  function Initial(n: nat, m: nat): Index
    requires n < TWO_32 && m < TWO_32
  {
    var least := (n + MIN_GAP) % TWO_32;
    Index(map[], [], n % TWO_16, (if m > least then m else least) % TWO_16)
  }

  /** What an unsigned short holds of a number. */
  predicate LowBitsOf(short: nat, n: nat) {
    short < TWO_16 && (n - short) % TWO_16 == 0
  }

  /** Both maps are empty; the sizes are the low 16 bits of n and of the larger of m and n + 4. */
  lemma InitialSizes(n: nat, m: nat)
    requires n < TWO_32 && m < TWO_32
    ensures Initial(n, m).keys == map[] && Initial(n, m).ranking == []
    ensures LowBitsOf(Initial(n, m).base, n)
    ensures var least := (n + MIN_GAP) % TWO_32; LowBitsOf(Initial(n, m).max, if m > least then m else least)
  {
    var least := (n + MIN_GAP) % TWO_32;
    LowBits(n);
    LowBits(if m > least then m else least);
  }

  lemma LowBits(n: nat)
    ensures LowBitsOf(n % TWO_16, n)
  {
    assert n - n % TWO_16 == TWO_16 * (n / TWO_16);
  }

  lemma InitialIsValid(n: nat, m: nat)
    requires n < TWO_32 && m < TWO_32
    ensures Valid(Initial(n, m))
  {
  }

  /** The report fits the ranking exactly if the narrowing of the larger argument keeps the order: of m
      itself when it is chosen, of n + 4 otherwise. */
  lemma InitialBaseFits(n: nat, m: nat)
    requires n < TWO_32 && m < TWO_32
    ensures var least := (n + MIN_GAP) % TWO_32;
            Initial(n, m).base <= Initial(n, m).max <==>
            if m > least then n % TWO_16 <= m % TWO_16 else n % TWO_16 + MIN_GAP < TWO_16
    ensures n + MIN_GAP < TWO_16 && m < TWO_16 ==>
              Initial(n, m).base == n && Initial(n, m).max >= n + MIN_GAP && Initial(n, m).max >= m
              && Initial(n, m).max in {m, n + MIN_GAP}
  {
  }

  // ---------------------------------------------------------------- the index invariant over runs

  /** The two files are a backup of a valid storable state of a manager with the given maximum. */
  ghost predicate IsBackup(keyFile: string, rankFile: string, max: nat) {
    exists src: Index :: Valid(src) && Storable(src) && src.max == max
                         && keyFile == KeyFile(src.keys) && rankFile == RankText(src.ranking)
  }

  /** A purge has nothing to cut; a restore reads a backup made under the same maximum. */
  ghost predicate Safe(ix: Index, op: Op) {
    && (op.PurgeTo? ==> |ix.ranking| <= ClampPurge(ix, op.n))
    && (op.Reload? ==> IsBackup(op.keyFile, op.rankFile, ix.max))
  }

  ghost predicate SafeRun(ix: Index, ops: seq<Op>) {
    forall i :: 0 <= i < |ops| ==> Safe(Run(ix, ops[..i]), ops[i])
  }

  lemma StepKeepsValid(ix: Index, op: Op)
    requires Valid(ix) && Safe(ix, op)
    ensures Valid(Apply(ix, op)) && Apply(ix, op).max == ix.max
  {
    match op {
      case AddKey(key, url, port) => AddKeepsValid(ix, key, url, port);
      case SetTop(n) =>
      case ZapAll =>
      case PurgeTo(n) => PurgeKeepsValidIff(ix, n);
      case Reload(keyFile, rankFile) =>
        var src :| Valid(src) && Storable(src) && src.max == ix.max
                   && keyFile == KeyFile(src.keys) && rankFile == RankText(src.ranking);
        RoundTripIff(src, ix);
    }
  }

  lemma SafePrefix(ix: Index, ops: seq<Op>)
    requires ops != [] && SafeRun(ix, ops)
    ensures SafeRun(ix, ops[..|ops| - 1])
    ensures Safe(Run(ix, ops[..|ops| - 1]), ops[|ops| - 1])
  {
    var front := ops[..|ops| - 1];
    forall i | 0 <= i < |front| ensures Safe(Run(ix, front[..i]), front[i]) {
      assert front[..i] == ops[..i];
    }
  }

  /** After any safe run the ranking is a true top-`max` of the key map. */
  lemma {:induction false} RunKeepsValid(ix: Index, ops: seq<Op>)
    requires Valid(ix) && SafeRun(ix, ops)
    ensures Valid(Run(ix, ops)) && Run(ix, ops).max == ix.max
  {
    if ops != [] {
      SafePrefix(ix, ops);
      RunKeepsValid(ix, ops[..|ops| - 1]);
      StepKeepsValid(Run(ix, ops[..|ops| - 1]), ops[|ops| - 1]);
    }
  }

  lemma {:induction false} RunKeepsBase(ix: Index, ops: seq<Op>)
    requires ix.base <= ix.max
    ensures Run(ix, ops).base <= Run(ix, ops).max == ix.max
  {
    if ops != [] {
      RunKeepsBase(ix, ops[..|ops| - 1]);
    }
  }

  /** In every state of a safe run of a manager that started with its report size within its maximum,
      the report has min(N, number of keys) lines and shows the N largest counts of the whole key map. */
  lemma ReportsAreExact(n: nat, m: nat, ops: seq<Op>)
    requires n < TWO_32 && m < TWO_32 && SafeRun(Initial(n, m), ops)
    requires Initial(n, m).base <= Initial(n, m).max
    ensures var ix := Run(Initial(n, m), ops);
            && |Report(ix)| == Min(ix.base, |ix.keys|)
            && Freqs(Report(ix)) == ReferenceReport(CountTable(ix.keys), ix.base)
            && forall k :: IsHot(ix, k) <==> k in KeySet(ix.ranking)
  {
    var ix := Run(Initial(n, m), ops);
    InitialIsValid(n, m);
    RunKeepsValid(Initial(n, m), ops);
    RunKeepsBase(Initial(n, m), ops);
    ReportRefinesSort(ix);
    forall k ensures IsHot(ix, k) <==> k in KeySet(ix.ranking) {
      HotIsRanked(ix, k);
    }
  }

  // ---------------------------------------------------------------- counting

  /** Only what the message queue can ask for: adds and size changes. */
  predicate Tracking(ops: seq<Op>) {
    forall i :: 0 <= i < |ops| ==> ops[i].AddKey? || ops[i].SetTop?
  }

  function AddedKeys(ops: seq<Op>): seq<string> {
    if ops == [] then []
    else
      var op := ops[|ops| - 1];
      AddedKeys(ops[..|ops| - 1]) + if op.AddKey? then [op.key] else []
  }

  /** How often a key was added. */
  function Occurrences(ops: seq<Op>, key: string): nat {
    multiset(AddedKeys(ops))[key]
  }

  /** One more than the position of the last add of a key; 0 when there is none. */
  function LastAdd(ops: seq<Op>, key: string): (n: nat)
    ensures n <= |ops|
    ensures n > 0 ==> ops[n - 1].AddKey? && ops[n - 1].key == key
    ensures forall i :: n <= i < |ops| ==> !(ops[i].AddKey? && ops[i].key == key)
  {
    if ops == [] then 0
    else if ops[|ops| - 1].AddKey? && ops[|ops| - 1].key == key then |ops|
    else LastAdd(ops[..|ops| - 1], key)
  }

  lemma TrackingIsSafe(ix: Index, ops: seq<Op>)
    requires Tracking(ops)
    ensures SafeRun(ix, ops)
  {
  }

  /** A key is stored exactly if it was added, with its number of occurrences and its last url and port. */
  ghost predicate KeyHistory(keys: KeyMap, ops: seq<Op>, k: string) {
    && (k in keys <==> Occurrences(ops, k) > 0)
    && (k in keys ==>
          var last := LastAdd(ops, k);
          last > 0 && keys[k] == Details(ops[last - 1].url, ops[last - 1].port, Occurrences(ops, k)))
  }

  ghost predicate CountsHistory(keys: KeyMap, ops: seq<Op>) {
    forall k :: KeyHistory(keys, ops, k)
  }

  lemma {:induction false} RunCountsHistory(ix: Index, ops: seq<Op>)
    requires ix.keys == map[] && Tracking(ops)
    ensures CountsHistory(Run(ix, ops).keys, ops)
  {
    if ops != [] {
      var front, op := ops[..|ops| - 1], ops[|ops| - 1];
      RunCountsHistory(ix, front);
      SplitLast(ops);
      forall k ensures KeyHistory(Run(ix, ops).keys, ops, k) {
        StepCounts(Run(ix, front), front, op, k);
      }
    }
  }

  /** What one more operation does to the occurrences and the last add of a key. */
  lemma HistoryStep(ops: seq<Op>, op: Op, k: string)
    ensures Occurrences(ops + [op], k) == Occurrences(ops, k) + if op.AddKey? && op.key == k then 1 else 0
    ensures LastAdd(ops + [op], k) == if op.AddKey? && op.key == k then |ops| + 1 else LastAdd(ops, k)
  {
    assert (ops + [op])[..|ops|] == ops;
  }

  lemma StepCounts(ix: Index, ops: seq<Op>, op: Op, k: string)
    requires KeyHistory(ix.keys, ops, k) && (op.AddKey? || op.SetTop?)
    requires op.AddKey? ==> KeyHistory(ix.keys, ops, op.key)
    ensures KeyHistory(Apply(ix, op).keys, ops + [op], k)
  {
    hide Occurrences, LastAdd, TakesEarlyExit, Reranked;
    HistoryStep(ops, op, k);
    if op.AddKey? && op.key == k {
      assert (ops + [op])[|ops|] == op;
    } else if k in ix.keys {
      assert (ops + [op])[LastAdd(ops, k) - 1] == ops[LastAdd(ops, k) - 1];
    }
  }

  // ---------------------------------------------------------------- the sum of all counts

  ghost function Total(m: KeyMap): nat {
    if m == map[] then 0
    else var k :| k in m; m[k].frequency + Total(m - {k})
  }

  lemma {:induction false} TotalWithout(m: KeyMap, k: string)
    requires k in m
    ensures Total(m) == m[k].frequency + Total(m - {k})
  {
    var j :| j in m && Total(m) == m[j].frequency + Total(m - {j});
    if j != k {
      TotalWithout(m - {j}, k);
      TotalWithout(m - {k}, j);
      assert m - {j} - {k} == m - {k} - {j};
    }
  }

  lemma TotalOfAdd(ix: Index, key: string, url: string, port: nat)
    ensures Total(Add(ix, key, url, port).keys) == Total(ix.keys) + 1
  {
    var keys := Add(ix, key, url, port).keys;
    TotalWithout(keys, key);
    if key in ix.keys {
      TotalWithout(ix.keys, key);
      assert keys - {key} == ix.keys - {key};
    } else {
      assert keys - {key} == ix.keys;
    }
  }

  /** No add is lost: the stored counts sum to the number of adds. */
  lemma {:induction false} TotalIsAdds(ix: Index, ops: seq<Op>)
    requires ix.keys == map[] && Tracking(ops)
    ensures Total(Run(ix, ops).keys) == |AddedKeys(ops)|
  {
    if ops != [] {
      var front, op := ops[..|ops| - 1], ops[|ops| - 1];
      TotalIsAdds(ix, front);
      if op.AddKey? {
        TotalOfAdd(Run(ix, front), op.key, op.url, op.port);
      }
    }
  }

  // ---------------------------------------------------------------- order independence

  /** The counts, and with an equal report size the reported counts, depend on the multiset of added
      keys alone: not on the order of the adds, nor on when the size was changed. */
  lemma OrderIndependence(ix: Index, ops: seq<Op>, ops': seq<Op>)
    requires ix.keys == map[] && ix.ranking == [] && ix.base <= ix.max
    requires Tracking(ops) && Tracking(ops') && multiset(AddedKeys(ops)) == multiset(AddedKeys(ops'))
    ensures CountTable(Run(ix, ops).keys) == CountTable(Run(ix, ops').keys)
    ensures Run(ix, ops).base == Run(ix, ops').base ==>
              Freqs(Report(Run(ix, ops))) == Freqs(Report(Run(ix, ops')))
  {
    TrackedState(ix, ops);
    TrackedState(ix, ops');
    SameHistorySameCounts(Run(ix, ops).keys, ops, Run(ix, ops').keys, ops');
    ReportRefinesSort(Run(ix, ops));
    ReportRefinesSort(Run(ix, ops'));
  }

  lemma TrackedState(ix: Index, ops: seq<Op>)
    requires ix.keys == map[] && ix.ranking == [] && ix.base <= ix.max && Tracking(ops)
    ensures var ix' := Run(ix, ops);
            Valid(ix') && ix'.base <= ix'.max == ix.max && CountsHistory(ix'.keys, ops)
  {
    TrackingIsSafe(ix, ops);
    RunKeepsValid(ix, ops);
    RunKeepsBase(ix, ops);
    RunCountsHistory(ix, ops);
  }

  lemma SameHistorySameCounts(keys: KeyMap, ops: seq<Op>, keys': KeyMap, ops': seq<Op>)
    requires CountsHistory(keys, ops) && CountsHistory(keys', ops')
    requires multiset(AddedKeys(ops)) == multiset(AddedKeys(ops'))
    ensures CountTable(keys) == CountTable(keys')
  {
    forall k ensures k in keys <==> k in keys' {
      assert KeyHistory(keys, ops, k) && KeyHistory(keys', ops', k);
    }
    forall k | k in keys ensures keys[k].frequency == keys'[k].frequency {
      assert KeyHistory(keys, ops, k) && KeyHistory(keys', ops', k);
    }
  }

  // ---------------------------------------------------------------- thresholds over runs

  /** Once the ranking is full, no further run of adds empties a place or lowers the bar. */
  lemma {:induction false} ThresholdNeverFalls(ix: Index, ops: seq<Op>)
    requires Valid(ix) && |ix.ranking| == ix.max > 0 && Tracking(ops)
    ensures var ix' := Run(ix, ops);
            && Valid(ix') && ix'.max == ix.max == |ix'.ranking|
            && ix.ranking[0].freq <= ix'.ranking[0].freq
  {
    if ops != [] {
      var front, op := ops[..|ops| - 1], ops[|ops| - 1];
      ThresholdNeverFalls(ix, front);
      StepKeepsValid(Run(ix, front), op);
      if op.AddKey? {
        AddMovesThresholdUp(Run(ix, front), op.key, op.url, op.port);
      }
    }
  }

  // ---------------------------------------------------------------- the order among equals

  /** Strictly ordered by count and, among equal counts, by the time of the key's last add. */
  ghost predicate RecencyOrder(ops: seq<Op>, r: seq<Entry>) {
    forall i, j :: 0 <= i < j < |r| ==>
      r[i].freq < r[j].freq || (r[i].freq == r[j].freq && LastAdd(ops, r[i].key) < LastAdd(ops, r[j].key))
  }

  lemma RecencyErase(ops: seq<Op>, a: seq<Entry>, e: Entry, c: seq<Entry>)
    requires RecencyOrder(ops, a + [e] + c)
    ensures RecencyOrder(ops, a + c)
  {
    var r, s := a + [e] + c, a + c;
    forall i, j | 0 <= i < j < |s|
      ensures s[i].freq < s[j].freq || (s[i].freq == s[j].freq && LastAdd(ops, s[i].key) < LastAdd(ops, s[j].key))
    {
      assert s[i] == r[if i < |a| then i else i + 1];
      assert s[j] == r[if j < |a| then j else j + 1];
    }
  }

  lemma RecencyInsert(ops: seq<Op>, a: seq<Entry>, e: Entry, c: seq<Entry>)
    requires RecencyOrder(ops, a + c) && Fits(a, e, c)
    requires forall i :: 0 <= i < |a| ==> LastAdd(ops, a[i].key) < LastAdd(ops, e.key)
    ensures RecencyOrder(ops, a + [e] + c)
  {
    var r, s := a + c, a + [e] + c;
    forall i, j | 0 <= i < j < |s|
      ensures s[i].freq < s[j].freq || (s[i].freq == s[j].freq && LastAdd(ops, s[i].key) < LastAdd(ops, s[j].key))
    {
      if i != |a| && j != |a| {
        assert s[i] == r[if i < |a| then i else i - 1];
        assert s[j] == r[if j < |a| then j else j - 1];
      }
    }
  }

  lemma RecencySuffix(ops: seq<Op>, r: seq<Entry>, m: nat)
    requires RecencyOrder(ops, r)
    ensures RecencyOrder(ops, TrimTo(r, m))
  {
  }

  /** An operation that does not add a ranked key leaves the stamps of the ranking alone. */
  lemma RecencyExtend(ops: seq<Op>, op: Op, r: seq<Entry>)
    requires RecencyOrder(ops, r) && (op.AddKey? ==> FreshKey(r, op.key))
    ensures RecencyOrder(ops + [op], r)
    ensures forall i :: 0 <= i < |r| ==> LastAdd(ops + [op], r[i].key) <= |ops|
  {
    assert (ops + [op])[..|ops|] == ops;
    assert forall i :: 0 <= i < |r| ==> LastAdd(ops + [op], r[i].key) == LastAdd(ops, r[i].key);
  }

  lemma RecencyOfKept(ops: seq<Op>, r: seq<Entry>, prev: nat, key: string)
    requires Sorted(r) && DistinctKeys(r) && RecencyOrder(ops, r)
    requires key in KeySet(r) ==> prev > 0 && Entry(prev, key) in r
    ensures Sorted(Kept(r, prev, key)) && FreshKey(Kept(r, prev, key), key)
    ensures RecencyOrder(ops, Kept(r, prev, key))
  {
    if key in KeySet(r) {
      var was := Entry(prev, key);
      EraseExact(r, was);
      FreshKeyNotInKeySet(Erase(r, was), key);
      SplitSeq(r, Position(r, was));
      RecencyErase(ops, r[..Position(r, was)], was, r[Position(r, was) + 1..]);
    } else {
      KeptUnranked(r, prev, key);
      FreshKeyNotInKeySet(r, key);
    }
  }

  lemma RecencyOfInsert(ops: seq<Op>, op: Op, kept: seq<Entry>, e: Entry)
    requires op.AddKey? && op.key == e.key
    requires Sorted(kept) && FreshKey(kept, e.key) && RecencyOrder(ops, kept)
    ensures RecencyOrder(ops + [op], Insert(kept, e))
  {
    hide UpperBound;
    var u := UpperBound(kept, e.freq);
    RecencyExtend(ops, op, kept);
    UpperBoundFits(kept, e);
    SplitSeq(kept, u);
    assert (ops + [op])[..|ops|] == ops;
    RecencyInsert(ops + [op], kept[..u], e, kept[u..]);
  }

  lemma RerankKeepsRecency(ops: seq<Op>, op: Op, r: seq<Entry>, prev: nat, max: nat)
    requires op.AddKey? && Sorted(r) && DistinctKeys(r) && RecencyOrder(ops, r)
    requires op.key in KeySet(r) ==> prev > 0 && Entry(prev, op.key) in r
    ensures RecencyOrder(ops + [op], Rerank(r, prev, op.key, max))
  {
    RecencyOfKept(ops, r, prev, op.key);
    RecencyOfInsertTrim(ops, op, Kept(r, prev, op.key), Entry(prev + 1, op.key), max);
  }

  lemma RecencyOfInsertTrim(ops: seq<Op>, op: Op, kept: seq<Entry>, e: Entry, max: nat)
    requires op.AddKey? && op.key == e.key
    requires Sorted(kept) && FreshKey(kept, e.key) && RecencyOrder(ops, kept)
    ensures RecencyOrder(ops + [op], TrimTo(Insert(kept, e), max))
  {
    RecencyOfInsert(ops, op, kept, e);
    RecencySuffix(ops + [op], Insert(kept, e), max);
  }

  lemma StepKeepsRecency(ix: Index, ops: seq<Op>, op: Op)
    requires !op.Reload? && Valid(ix) && Safe(ix, op) && RecencyOrder(ops, ix.ranking)
    ensures RecencyOrder(ops + [op], Apply(ix, op).ranking)
  {
    if op.AddKey? {
      if TakesEarlyExit(ix, op.key) {
        EarlyExitUnranked(ix, op.key);
        FreshKeyNotInKeySet(ix.ranking, op.key);
        RecencyExtend(ops, op, ix.ranking);
      } else {
        if op.key in KeySet(ix.ranking) {
          RankedPair(ix, op.key);
        }
        RerankKeepsRecency(ops, op, ix.ranking, CountOf(ix.keys, op.key), ix.max);
      }
    } else if op.ZapAll? {
    } else {
      RecencyExtend(ops, op, ix.ranking);
      if op.PurgeTo? {
        PurgeMeetsNoOrphan(ix, op.n);
        PurgeIsCut(ix, op.n);
      }
      assert Apply(ix, op).ranking == ix.ranking;
    }
  }

  /** In every state of a safe run without restores, the ranking is strictly sorted by (count, time of
      the key's last add). */
  lemma {:induction false} RunKeepsRecency(ix: Index, ops: seq<Op>)
    requires Valid(ix) && ix.ranking == [] && SafeRun(ix, ops) && NoReload(ops)
    ensures RecencyOrder(ops, Run(ix, ops).ranking)
  {
    if ops != [] {
      var front, op := ops[..|ops| - 1], ops[|ops| - 1];
      SplitLast(ops);
      SafePrefix(ix, ops);
      RunKeepsRecency(ix, front);
      RunKeepsValid(ix, front);
      StepKeepsRecency(Run(ix, front), front, op);
    }
  }

  predicate NoReload(ops: seq<Op>) {
    forall i :: 0 <= i < |ops| ==> !ops[i].Reload?
  }

  /** The key that an add pushes out of a full ranking in recency order was, of all ranked keys, the one
      with the lowest count and, among those, the one whose last add is the longest ago. */
  lemma LeaverIsOldestLowest(s: Index, ops: seq<Op>, op: Op, k: string, e: Entry)
    requires Valid(s) && RecencyOrder(ops, s.ranking) && |s.ranking| == s.max > 0 && op.AddKey?
    requires k in KeySet(s.ranking) && e in s.ranking && e.key != k
    ensures k in s.keys
    ensures k !in KeySet(Apply(s, op).ranking) ==>
              s.keys[k].frequency < e.freq || (s.keys[k].frequency == e.freq && LastAdd(ops, k) < LastAdd(ops, e.key))
  {
    RankedPair(s, k);
    AddMovesThresholdUp(s, op.key, op.url, op.port);
    assert s.ranking[0] in s.ranking;
    var i :| 0 <= i < |s.ranking| && s.ranking[i] == e;
    assert k == s.ranking[0].key ==> i > 0;
  }

  /** So a report is fully ordered: equal counts come most recently added first. */
  lemma ReportOrder(ix: Index, ops: seq<Op>, i: nat, j: nat)
    requires Valid(ix) && ix.ranking == [] && SafeRun(ix, ops) && NoReload(ops)
    requires i < j < |Report(Run(ix, ops))|
    ensures var rep := Report(Run(ix, ops));
            rep[i].freq > rep[j].freq || (rep[i].freq == rep[j].freq && LastAdd(ops, rep[i].key) > LastAdd(ops, rep[j].key))
  {
    RunKeepsRecency(ix, ops);
  }
}
