/** What a restore leaves in the two maps, said of the records of its two files, for any files: valid,
    with repeated keys, or ending in an exception. */
module LoadedFiles {
  import opened BackupText
  import opened RankingIndex
  import opened Sequences
  import opened TextStream
  import opened TopLists

  // ---------------------------------------------------------------- the key map

  /** How many records come before the first that does not convert. */
  function GoodKeys(recs: seq<KeyRecord>): (n: nat)
    ensures n <= |recs|
    ensures forall i :: 0 <= i < n ==> Converts(recs[i])
    ensures n < |recs| ==> !Converts(recs[n])
  {
    if recs == [] || !Converts(recs[0]) then 0 else 1 + GoodKeys(recs[1..])
  }

  datatype Item = Item(key: string, details: Details)

  function ItemsOf(recs: seq<KeyRecord>): seq<Item>
    requires forall i :: 0 <= i < |recs| ==> Converts(recs[i])
  {
    seq(|recs|, i requires 0 <= i < |recs| => Item(recs[i].key, DetailsOf(recs[i])))
  }

  /** The place of the first item with a key, or the end. */
  function FirstAt(items: seq<Item>, k: string): (n: nat)
    ensures n <= |items|
    ensures n < |items| ==> items[n].key == k
    ensures forall i :: 0 <= i < n ==> items[i].key != k
  {
    if items == [] || items[0].key == k then 0 else 1 + FirstAt(items[1..], k)
  }

  /** The map holds the first item of each key, and nothing else. */
  ghost predicate FirstWins(m: KeyMap, items: seq<Item>) {
    forall k ::
      && (k in m <==> FirstAt(items, k) < |items|)
      && (k in m ==> m[k] == items[FirstAt(items, k)].details)
  }

  lemma FirstOfMore(items: seq<Item>, x: Item, k: string)
    ensures FirstAt(items + [x], k) ==
            if FirstAt(items, k) < |items| || x.key == k then FirstAt(items, k) else |items| + 1
  {
    var n, n' := FirstAt(items, k), FirstAt(items + [x], k);
    assert forall i :: 0 <= i < |items| ==> (items + [x])[i] == items[i];
    assert (items + [x])[|items|] == x;
  }

  lemma FirstStillWins(m: KeyMap, items: seq<Item>, x: Item)
    requires FirstWins(m, items)
    ensures FirstWins(InsertKey(m, x.key, x.details), items + [x])
  {
    hide FirstAt;
    forall k
      ensures k in InsertKey(m, x.key, x.details) <==> FirstAt(items + [x], k) < |items + [x]|
      ensures k in InsertKey(m, x.key, x.details) ==>
                InsertKey(m, x.key, x.details)[k] == (items + [x])[FirstAt(items + [x], k)].details
    {
      FirstOfMore(items, x, k);
    }
  }

  lemma {:induction false} KeysLoad(st: Stream, acc: KeyMap, items: seq<Item>)
    requires (st.fail ==> st.eof) && FirstWins(acc, items)
    ensures var recs := KeyRecords(st); var n := GoodKeys(recs);
            && FirstWins(ReadKeys(st, acc).value, items + ItemsOf(recs[..n]))
            && ReadKeys(st, acc).outcome == if n < |recs| then Threw else Completed
    decreases |st.rest|
  {
    hide FirstWins, NextKey, Converts, DetailsOf, InsertKey;
    var (next, rec) := NextKey(st);
    KeyRecordsUnfold(st);
    assert KeyRecords(st)[..0] == [] && items + ItemsOf([]) == items;
    if !st.eof && next.Good() {
      var rest := KeyRecords(next);
      assert ([rec] + rest)[1..] == rest;
      if Converts(rec) {
        var x := Item(rec.key, DetailsOf(rec));
        FirstStillWins(acc, items, x);
        KeysLoad(next, InsertKey(acc, rec.key, DetailsOf(rec)), items + [x]);
        ItemsInFront(items, rec, rest);
      } else {
        assert ([rec] + rest)[..0] == [];
      }
    }
  }

  lemma ItemsInFront(items: seq<Item>, rec: KeyRecord, rest: seq<KeyRecord>)
    requires Converts(rec)
    ensures var n := GoodKeys(rest);
            && GoodKeys([rec] + rest) == 1 + n
            && items + [Item(rec.key, DetailsOf(rec))] + ItemsOf(rest[..n]) == items + ItemsOf(([rec] + rest)[..1 + n])
  {
    hide Converts, DetailsOf;
    assert ([rec] + rest)[1..] == rest;
    assert ([rec] + rest)[..1 + GoodKeys(rest)] == [rec] + rest[..GoodKeys(rest)];
  }

  // ---------------------------------------------------------------- the records of a text

  function KeyRecordText(rec: KeyRecord): string {
    rec.key + [','] + (rec.count + [','] + (rec.url + [','] + (rec.port + ['\n'])))
  }

  predicate WholeKeyRecord(rec: KeyRecord) {
    ',' !in rec.key && ',' !in rec.count && ',' !in rec.url && '\n' !in rec.port
  }

  ghost predicate StartsWithKey(text: string) {
    exists rec: KeyRecord, tail: string :: WholeKeyRecord(rec) && text == KeyRecordText(rec) + tail
  }

  function KeyRecordsText(recs: seq<KeyRecord>): string {
    if recs == [] then "" else KeyRecordText(recs[0]) + KeyRecordsText(recs[1..])
  }

  lemma NextKeyTakes(text: string)
    ensures var (next, rec) := NextKey(Open(text));
            if next.Good() then WholeKeyRecord(rec) && text == KeyRecordText(rec) + next.rest
            else !StartsWithKey(text)
  {
    var (next, rec) := NextKey(Open(text));
    if next.Good() {
      var (s1, key) := GetLine(Open(text), ',');
      var (s2, count) := GetLine(s1, ',');
      var (s3, url) := GetLine(s2, ',');
      GetLineSplits(text, ',');
      GetLineSplits(s1.rest, ',');
      GetLineSplits(s2.rest, ',');
      GetLineSplits(s3.rest, '\n');
      KeyTextConcat(rec, next.rest);
    } else if StartsWithKey(text) {
      var r: KeyRecord, tail: string :| WholeKeyRecord(r) && text == KeyRecordText(r) + tail;
      KeyTextConcat(r, tail);
      NextKeyFinds(r.key, r.count, r.url, r.port, tail);
    }
  }

  lemma KeyTextConcat(r: KeyRecord, tail: string)
    ensures KeyRecordText(r) + tail == r.key + [','] + (r.count + [','] + (r.url + [','] + (r.port + ['\n'] + tail)))
  {
    var port := r.port + ['\n'];
    var url := r.url + [','] + port;
    var count := r.count + [','] + url;
    assert url + tail == r.url + [','] + (port + tail);
    assert count + tail == r.count + [','] + (url + tail);
  }

  /** The records of a key file are its text, cut behind the third comma's newline again and again, up to a
      rest that does not begin with a whole record. */
  lemma {:induction false} KeyRecordsAreText(text: string) returns (rest: string)
    ensures text == KeyRecordsText(KeyRecords(Open(text))) + rest
    ensures forall rec :: rec in KeyRecords(Open(text)) ==> WholeKeyRecord(rec)
    ensures !StartsWithKey(rest)
    decreases |text|
  {
    hide NextKey, StartsWithKey, KeyRecordText, WholeKeyRecord;
    var (next, rec) := NextKey(Open(text));
    NextKeyTakes(text);
    KeyRecordsUnfold(Open(text));
    if next.Good() {
      assert next == Open(next.rest);
      rest := KeyRecordsAreText(next.rest);
      var more := KeyRecords(next);
      assert ([rec] + more)[1..] == more;
      assert KeyRecordText(rec) + (KeyRecordsText(more) + rest) == KeyRecordText(rec) + KeyRecordsText(more) + rest;
    } else {
      rest := text;
    }
  }

  function RankRecordText(rec: RankRecord): string {
    rec.count + [','] + (rec.key + ['\n'])
  }

  predicate WholeRankRecord(rec: RankRecord) {
    ',' !in rec.count && '\n' !in rec.key
  }

  ghost predicate StartsWithRank(text: string) {
    exists rec: RankRecord, tail: string :: WholeRankRecord(rec) && text == RankRecordText(rec) + tail
  }

  function RankRecordsText(recs: seq<RankRecord>): string {
    if recs == [] then "" else RankRecordText(recs[0]) + RankRecordsText(recs[1..])
  }

  lemma NextRankTakes(text: string)
    ensures var (next, rec) := NextRank(Open(text));
            if next.Good() then WholeRankRecord(rec) && text == RankRecordText(rec) + next.rest
            else !StartsWithRank(text)
  {
    var (next, rec) := NextRank(Open(text));
    if next.Good() {
      var (s1, count) := GetLine(Open(text), ',');
      GetLineSplits(text, ',');
      GetLineSplits(s1.rest, '\n');
      RankTextConcat(rec, next.rest);
    } else if StartsWithRank(text) {
      var r: RankRecord, tail: string :| WholeRankRecord(r) && text == RankRecordText(r) + tail;
      RankTextConcat(r, tail);
      NextRankFinds(r.count, r.key, tail);
    }
  }

  lemma RankTextConcat(r: RankRecord, tail: string)
    ensures RankRecordText(r) + tail == r.count + [','] + (r.key + ['\n'] + tail)
  {
  }

  lemma {:induction false} RankRecordsAreText(text: string) returns (rest: string)
    ensures text == RankRecordsText(RankRecords(Open(text))) + rest
    ensures forall rec :: rec in RankRecords(Open(text)) ==> WholeRankRecord(rec)
    ensures !StartsWithRank(rest)
    decreases |text|
  {
    hide NextRank, StartsWithRank, RankRecordText, WholeRankRecord;
    var (next, rec) := NextRank(Open(text));
    NextRankTakes(text);
    RankRecordsUnfold(Open(text));
    if next.Good() {
      assert next == Open(next.rest);
      rest := RankRecordsAreText(next.rest);
      var more := RankRecords(next);
      assert ([rec] + more)[1..] == more;
      assert RankRecordText(rec) + (RankRecordsText(more) + rest) == RankRecordText(rec) + RankRecordsText(more) + rest;
    } else {
      rest := text;
    }
  }

  // ---------------------------------------------------------------- the ranking

  function GoodRanks(recs: seq<RankRecord>): (n: nat)
    ensures n <= |recs|
    ensures forall i :: 0 <= i < n ==> CountConverts(recs[i])
    ensures n < |recs| ==> !CountConverts(recs[n])
  {
    if recs == [] || !CountConverts(recs[0]) then 0 else 1 + GoodRanks(recs[1..])
  }

  function PairsOf(recs: seq<RankRecord>): seq<Entry>
    requires forall i :: 0 <= i < |recs| ==> CountConverts(recs[i])
  {
    seq(|recs|, i requires 0 <= i < |recs| => PairOf(recs[i]))
  }

  /** The pairs of one count, in their order. */
  function WithCount(s: seq<Entry>, f: nat): seq<Entry> {
    if s == [] then [] else (if s[0].freq == f then [s[0]] else []) + WithCount(s[1..], f)
  }

  /** The pairs sorted by count, equal counts in the order in which they came. */
  ghost predicate StableSort(r: seq<Entry>, pairs: seq<Entry>) {
    Sorted(r) && forall f :: WithCount(r, f) == WithCount(pairs, f)
  }

  lemma {:induction false} WithCountConcat(a: seq<Entry>, b: seq<Entry>, f: nat)
    ensures WithCount(a + b, f) == WithCount(a, f) + WithCount(b, f)
  {
    hide WithCount;
    if a == [] {
      assert a + b == b;
      NoneWithCount(a, f);
    } else {
      assert (a + b)[1..] == a[1..] + b && (a + b)[0] == a[0];
      WithCountConcat(a[1..], b, f);
      WithCountHead(a, f);
      WithCountHead(a + b, f);
      Regroup(WithCount([a[0]], f), WithCount(a[1..], f), WithCount(b, f));
    }
  }

  lemma WithCountHead(s: seq<Entry>, f: nat)
    requires s != []
    ensures WithCount(s, f) == WithCount([s[0]], f) + WithCount(s[1..], f)
  {
    hide WithCount;
    WithCountUnfolds(s, f);
    WithCountUnfolds([s[0]], f);
    WithCountUnfolds([], f);
    assert [s[0]][1..] == [] && [s[0]][0] == s[0];
  }

  lemma WithCountUnfolds(s: seq<Entry>, f: nat)
    ensures WithCount(s, f) == if s == [] then [] else (if s[0].freq == f then [s[0]] else []) + WithCount(s[1..], f)
  {
  }

  lemma {:induction false} NoneWithCount(s: seq<Entry>, f: nat)
    requires forall i :: 0 <= i < |s| ==> s[i].freq != f
    ensures WithCount(s, f) == []
  {
    if s != [] {
      NoneWithCount(s[1..], f);
    }
  }

  lemma InsertIsStable(r: seq<Entry>, e: Entry, pairs: seq<Entry>)
    requires StableSort(r, pairs)
    ensures StableSort(Insert(r, e), pairs + [e])
  {
    hide Insert, WithCount;
    InsertKeepsSorted(r, e);
    forall f ensures WithCount(Insert(r, e), f) == WithCount(pairs + [e], f) {
      InsertWithCount(r, e, f);
      WithCountConcat(pairs, [e], f);
    }
  }

  lemma InsertWithCount(r: seq<Entry>, e: Entry, f: nat)
    ensures WithCount(Insert(r, e), f) == WithCount(r, f) + WithCount([e], f)
  {
    hide WithCount;
    var u := UpperBound(r, e.freq);
    WithCountConcat(r[..u] + [e], r[u..], f);
    WithCountConcat(r[..u], [e], f);
    WithCountConcat(r[..u], r[u..], f);
    assert r == r[..u] + r[u..];
    if f == e.freq {
      NoneWithCount(r[u..], f);
    } else {
      NoneWithCount([e], f);
    }
  }

  lemma {:induction false} RanksLoad(st: Stream, acc: seq<Entry>, pairs: seq<Entry>)
    requires (st.fail ==> st.eof) && StableSort(acc, pairs)
    ensures var recs := RankRecords(st); var n := GoodRanks(recs);
            && StableSort(ReadRanks(st, acc).value, pairs + PairsOf(recs[..n]))
            && ReadRanks(st, acc).outcome == if n < |recs| then Threw else Completed
    decreases |st.rest|
  {
    hide StableSort, NextRank, CountConverts, PairOf, Insert;
    var (next, rec) := NextRank(st);
    RankRecordsUnfold(st);
    assert RankRecords(st)[..0] == [] && pairs + PairsOf([]) == pairs;
    if !st.eof && next.Good() {
      var rest := RankRecords(next);
      assert ([rec] + rest)[1..] == rest;
      if CountConverts(rec) {
        InsertIsStable(acc, PairOf(rec), pairs);
        RanksLoad(next, Insert(acc, PairOf(rec)), pairs + [PairOf(rec)]);
        PairsInFront(pairs, rec, rest);
      } else {
        assert ([rec] + rest)[..0] == [];
      }
    }
  }

  lemma PairsInFront(pairs: seq<Entry>, rec: RankRecord, rest: seq<RankRecord>)
    requires CountConverts(rec)
    ensures var n := GoodRanks(rest);
            && GoodRanks([rec] + rest) == 1 + n
            && pairs + [PairOf(rec)] + PairsOf(rest[..n]) == pairs + PairsOf(([rec] + rest)[..1 + n])
  {
    hide CountConverts, PairOf;
    assert ([rec] + rest)[1..] == rest;
    assert ([rec] + rest)[..1 + GoodRanks(rest)] == [rec] + rest[..GoodRanks(rest)];
  }

  // ---------------------------------------------------------------- both

  /** A restore of any two files: it throws at the first record that does not convert, and completes if
      there is none. The key map holds the key records before that, the first of each key; the ranking
      is the old one if the key file threw, and otherwise its records before that, sorted by count with
      equal counts in file order. The two sizes stay. */
  lemma RestoreLoads(ix: Index, keyFile: string, rankFile: string)
    ensures var (outcome, ix') := Restore(ix, keyFile, rankFile);
            var recs, ranks := KeyRecords(Open(keyFile)), RankRecords(Open(rankFile));
            var n, l := GoodKeys(recs), GoodRanks(ranks);
            && ix'.base == ix.base && ix'.max == ix.max
            && FirstWins(ix'.keys, ItemsOf(recs[..n]))
            && (n < |recs| ==> outcome == Threw && ix'.ranking == ix.ranking)
            && (n == |recs| ==>
                && StableSort(ix'.ranking, PairsOf(ranks[..l]))
                && outcome == if l < |ranks| then Threw else Completed)
  {
    hide StableSort, FirstWins, ReadKeys, ReadRanks, KeyRecords, RankRecords, ItemsOf, PairsOf;
    NothingLoaded();
    KeysLoad(Open(keyFile), map[], []);
    RanksLoad(Open(rankFile), [], []);
    var recs, ranks := KeyRecords(Open(keyFile)), RankRecords(Open(rankFile));
    assert [] + ItemsOf(recs[..GoodKeys(recs)]) == ItemsOf(recs[..GoodKeys(recs)]);
    assert [] + PairsOf(ranks[..GoodRanks(ranks)]) == PairsOf(ranks[..GoodRanks(ranks)]);
  }

  lemma NothingLoaded()
    ensures StableSort([], []) && FirstWins(map[], [])
  {
  }
}
