/** Restoring from files that were cut short, as after a crash in the middle of a backup: the
    incomplete last record is dropped and the restore reports success. */
module TruncatedBackup {
  import opened BackupText
  import opened Decimal
  import opened KeyOrder
  import opened RankingIndex
  import opened TextStream
  import opened TopLists

  /** A getline on a field that was cut, or on one that was not. */
  lemma {:induction false} CutField(field: string, delim: char, rest: string, n: nat)
    requires delim !in field && n <= |field| + 1 + |rest|
    ensures n <= |field| ==> GetLine(Open((field + [delim] + rest)[..n]), delim).0.eof
    ensures n > |field| ==> GetLine(Open((field + [delim] + rest)[..n]), delim) == (Open(rest[..n - |field| - 1]), field)
  {
    if n <= |field| {
      assert (field + [delim] + rest)[..n] == field[..n];
    } else {
      assert (field + [delim] + rest)[..n] == field + [delim] + rest[..n - |field| - 1];
      GetLineFinds(field, delim, rest[..n - |field| - 1]);
    }
  }

  // What is left of reading a key record before its port, its url and its count.

  function PortStage(st: Stream): Stream {
    GetLine(st, '\n').0
  }

  function UrlStage(st: Stream): Stream {
    PortStage(GetLine(st, ',').0)
  }

  function CountStage(st: Stream): Stream {
    UrlStage(GetLine(st, ',').0)
  }

  function KeyStage(st: Stream): Stream {
    CountStage(GetLine(st, ',').0)
  }

  lemma StagesKeepEof(st: Stream)
    requires st.eof
    ensures PortStage(st).eof && UrlStage(st).eof && CountStage(st).eof
  {
  }

  /** A stage on a field that is cut ends at eof; otherwise it hands the rest to the next stage. */
  lemma CutStage(field: string, rest: string, n: nat)
    requires ',' !in field && n <= |field| + 1 + |rest|
    ensures var st := Open((field + [','] + rest)[..n]);
            if n <= |field| then UrlStage(st).eof && CountStage(st).eof && KeyStage(st).eof
            else
              var next := Open(rest[..n - |field| - 1]);
              UrlStage(st) == PortStage(next) && CountStage(st) == UrlStage(next) && KeyStage(st) == CountStage(next)
  {
    CutField(field, ',', rest, n);
    if n <= |field| {
      StagesKeepEof(GetLine(Open((field + [','] + rest)[..n]), ',').0);
    }
  }

  lemma CutPort(r3: string, port: string, n: nat)
    requires r3 == port + ['\n'] + "" && '\n' !in port && n < |r3|
    ensures PortStage(Open(r3[..n])).eof
  {
    CutField(port, '\n', "", n);
  }

  lemma CutUrl(r2: string, url: string, r3: string, port: string, n: nat)
    requires r2 == url + [','] + r3 && r3 == port + ['\n'] + ""
    requires ',' !in url && '\n' !in port && n < |r2|
    ensures UrlStage(Open(r2[..n])).eof
  {
    hide *;
    CutStage(url, r3, n);
    if n > |url| {
      CutPort(r3, port, n - |url| - 1);
    }
  }

  lemma CutCount(r1: string, count: string, r2: string, url: string, r3: string, port: string, n: nat)
    requires r1 == count + [','] + r2 && r2 == url + [','] + r3 && r3 == port + ['\n'] + ""
    requires ',' !in count && ',' !in url && '\n' !in port && n < |r1|
    ensures CountStage(Open(r1[..n])).eof
  {
    hide *;
    CutStage(count, r2, n);
    if n > |count| {
      CutUrl(r2, url, r3, port, n - |count| - 1);
    }
  }

  /** A key record that lost its end leaves the stream at eof. */
  lemma CutKeyRecord(key: string, r1: string, count: string, r2: string, url: string, r3: string, port: string, n: nat)
    requires r1 == count + [','] + r2 && r2 == url + [','] + r3 && r3 == port + ['\n'] + ""
    requires ',' !in key && ',' !in count && ',' !in url && '\n' !in port && n < |key + [','] + r1|
    ensures KeyStage(Open((key + [','] + r1)[..n])).eof
  {
    hide *;
    CutStage(key, r1, n);
    if n > |key| {
      CutCount(r1, count, r2, url, r3, port, n - |key| - 1);
    }
  }

  lemma KeyStageIsNextKey(st: Stream)
    ensures NextKey(st).0 == KeyStage(st)
  {
  }

  lemma CutRankRecord(count: string, key: string, n: nat)
    requires ',' !in count && '\n' !in key && n < |count + [','] + (key + ['\n'] + "")|
    ensures NextRank(Open((count + [','] + (key + ['\n'] + ""))[..n])).0.eof
  {
    CutField(count, ',', key + ['\n'] + "", n);
    if n > |count| {
      CutField(key, '\n', "", n - |count| - 1);
    }
  }

  /** How many key records lie wholly in the first n characters of a key file. */
  function WholeKeys(ks: seq<string>, m: KeyMap, n: nat): (j: nat)
    requires forall k :: k in ks ==> k in m
    ensures j <= |ks|
  {
    if ks == [] then 0
    else
      var line := |KeyLine(ks[0], m[ks[0]], "")|;
      if n < line then 0 else 1 + WholeKeys(ks[1..], m, n - line)
  }

  function WholeRanks(r: seq<Entry>, n: nat): (j: nat)
    ensures j <= |r|
  {
    if r == [] then 0
    else
      var line := |RankLine(r[0], "")|;
      if n < line then 0 else 1 + WholeRanks(r[1..], n - line)
  }

  lemma LinesConcat(o: string, a: string, b: string, c: string, t: string)
    ensures o + [','] + (a + [','] + (b + [','] + (c + ['\n'] + t))) ==
            o + [','] + (a + [','] + (b + [','] + (c + ['\n'] + ""))) + t
    ensures o + [','] + (c + ['\n'] + t) == o + [','] + (c + ['\n'] + "") + t
  {
  }

  lemma CutConcat(a: string, b: string, n: nat)
    requires n <= |a + b|
    ensures (a + b)[..n] == if n < |a| then a[..n] else a + b[..n - |a|]
  {
  }

  /** A cut after the first record cuts the rest; a cut inside it leaves nothing to read. */
  lemma CutFirstKey(k: string, d: Details, tail: string, n: nat)
    requires StorableKey(k, d) && n <= |KeyLine(k, d, tail)|
    ensures var line := |KeyLine(k, d, "")|;
            if n < line then NextKey(Open(KeyLine(k, d, tail)[..n])).0.eof
            else n - line <= |tail| && KeyLine(k, d, tail)[..n] == KeyLine(k, d, tail[..n - line])
  {
    var f, p := ToText(d.frequency), ToText(d.port);
    LinesConcat(k, f, d.url, p, tail);
    CutConcat(KeyLine(k, d, ""), tail, n);
    if n < |KeyLine(k, d, "")| {
      TextHasNo(d.frequency, ',');
      TextHasNo(d.port, '\n');
      var r3 := p + ['\n'] + "";
      var r2 := d.url + [','] + r3;
      CutKeyRecord(k, f + [','] + r2, f, r2, d.url, r3, p, n);
      KeyStageIsNextKey(Open(KeyLine(k, d, "")[..n]));
    } else {
      LinesConcat(k, f, d.url, p, tail[..n - |KeyLine(k, d, "")|]);
    }
  }

  lemma CutFirstRank(e: Entry, tail: string, n: nat)
    requires StorablePair(e) && n <= |RankLine(e, tail)|
    ensures var line := |RankLine(e, "")|;
            if n < line then NextRank(Open(RankLine(e, tail)[..n])).0.eof
            else n - line <= |tail| && RankLine(e, tail)[..n] == RankLine(e, tail[..n - line])
  {
    LinesConcat(ToText(e.freq), "", "", e.key, tail);
    CutConcat(RankLine(e, ""), tail, n);
    if n < |RankLine(e, "")| {
      TextHasNo(e.freq, ',');
      CutRankRecord(ToText(e.freq), e.key, n);
    } else {
      LinesConcat(ToText(e.freq), "", "", e.key, tail[..n - |RankLine(e, "")|]);
    }
  }

  lemma StopsAtEof(st: Stream, acc: KeyMap, done: seq<Entry>)
    requires !st.eof
    ensures NextKey(st).0.eof ==> ReadKeys(st, acc) == Loaded(Completed, acc)
    ensures NextRank(st).0.eof ==> ReadRanks(st, done) == Loaded(Completed, done)
  {
  }

  lemma KeyTextUnfolds(ks: seq<string>, m: KeyMap)
    requires forall k :: k in ks ==> k in m
    ensures KeyText([], m) == "" && (ks != [] ==> KeyText(ks, m) == KeyLine(ks[0], m[ks[0]], KeyText(ks[1..], m)))
  {
  }

  lemma WholeKeysUnfolds(ks: seq<string>, m: KeyMap, n: nat)
    requires forall k :: k in ks ==> k in m
    ensures WholeKeys(ks, m, n) ==
            if ks == [] || n < |KeyLine(ks[0], m[ks[0]], "")| then 0
            else 1 + WholeKeys(ks[1..], m, n - |KeyLine(ks[0], m[ks[0]], "")|)
  {
  }

  lemma ReadableFirst(ks: seq<string>, m: KeyMap, acc: KeyMap)
    requires Readable(ks, m, acc) && AllStorable(ks, m)
    ensures forall k :: k in ks ==> k in m
    ensures ks != [] ==>
              && StorableKey(ks[0], m[ks[0]]) && AllStorable(ks[1..], m)
              && Readable(ks[1..], m, acc[ks[0] := m[ks[0]]]) && ks[0] !in acc
  {
    if ks != [] {
      ReadableTail(ks, m, acc, m[ks[0]]);
    }
  }

  lemma ReadStorableKey(k: string, d: Details, tail: string, acc: KeyMap)
    requires StorableKey(k, d) && k !in acc
    ensures ReadKeys(Open(KeyLine(k, d, tail)), acc) == ReadKeys(Open(tail), acc[k := d])
  {
    hide KeyLine, ReadKeys, PortText, ReadsBack, AsRead;
    CommaFreeReads(d);
    ReadOneKey(k, d, tail, acc);
  }

  /** A cut beyond the first record: read that record, then the rest with its cut. */
  lemma TruncatedKeysStep(ks: seq<string>, m: KeyMap, acc: KeyMap, n: nat)
    requires ks != [] && Readable(ks, m, acc) && AllStorable(ks, m)
    requires |KeyLine(ks[0], m[ks[0]], "")| <= n <= |KeyText(ks, m)|
    ensures n - |KeyLine(ks[0], m[ks[0]], "")| <= |KeyText(ks[1..], m)|
    ensures ReadKeys(Open(KeyText(ks, m)[..n]), acc) ==
            ReadKeys(Open(KeyText(ks[1..], m)[..n - |KeyLine(ks[0], m[ks[0]], "")|]), acc[ks[0] := m[ks[0]]])
  {
    hide *;
    var k := ks[0];
    ReadableFirst(ks, m, acc);
    KeyTextUnfolds(ks, m);
    CutFirstKey(k, m[k], KeyText(ks[1..], m), n);
    ReadStorableKey(k, m[k], KeyText(ks[1..], m)[..n - |KeyLine(k, m[k], "")|], acc);
  }

  lemma NoKeysLeft(acc: KeyMap, ks: seq<string>, m: KeyMap, text: string)
    requires NextKey(Open(text)).0.eof || text == ""
    ensures ReadKeys(Open(text), acc) == Loaded(Completed, acc + Selected(ks[..0], m))
  {
    StopsAtEof(Open(text), acc, []);
    assert acc + Selected(ks[..0], m) == acc;
  }

  lemma {:induction false} TruncatedKeys(ks: seq<string>, m: KeyMap, acc: KeyMap, n: nat)
    requires Readable(ks, m, acc) && AllStorable(ks, m) && n <= |KeyText(ks, m)|
    ensures ReadKeys(Open(KeyText(ks, m)[..n]), acc) == Loaded(Completed, acc + Selected(ks[..WholeKeys(ks, m, n)], m))
    decreases |ks|
  {
    hide *;
    ReadableFirst(ks, m, acc);
    KeyTextUnfolds(ks, m);
    WholeKeysUnfolds(ks, m, n);
    if ks == [] {
      NoKeysLeft(acc, ks, m, "");
    } else if n < |KeyLine(ks[0], m[ks[0]], "")| {
      CutFirstKey(ks[0], m[ks[0]], KeyText(ks[1..], m), n);
      NoKeysLeft(acc, ks, m, KeyText(ks, m)[..n]);
    } else {
      var rest := n - |KeyLine(ks[0], m[ks[0]], "")|;
      TruncatedKeysStep(ks, m, acc, n);
      TruncatedKeys(ks[1..], m, acc[ks[0] := m[ks[0]]], rest);
      SelectedGrows(ks, WholeKeys(ks[1..], m, rest), m, acc);
    }
  }

  lemma SelectedGrows(ks: seq<string>, j: nat, m: KeyMap, acc: KeyMap)
    requires ks != [] && ks[0] in m && j < |ks|
    ensures acc[ks[0] := m[ks[0]]] + Selected(ks[1..][..j], m) == acc + Selected(ks[..j + 1], m)
  {
    assert ks[..j + 1] == [ks[0]] + ks[1..][..j];
  }

  lemma TruncatedRanksStep(done: seq<Entry>, r: seq<Entry>, n: nat)
    requires r != [] && StorablePair(r[0]) && (done != [] ==> done[|done| - 1].freq <= r[0].freq)
    requires |RankLine(r[0], "")| <= n <= |RankText(r)|
    ensures n - |RankLine(r[0], "")| <= |RankText(r[1..])|
    ensures ReadRanks(Open(RankText(r)[..n]), done) ==
            ReadRanks(Open(RankText(r[1..])[..n - |RankLine(r[0], "")|]), done + [r[0]])
  {
    hide *;
    RankTextUnfolds(r);
    CutFirstRank(r[0], RankText(r[1..]), n);
    StorableBound(r[0]);
    ReadOneRank(r[0], RankText(r[1..])[..n - |RankLine(r[0], "")|], done);
    InsertHighest(done, r[0]);
  }

  lemma StorableBound(e: Entry)
    requires StorablePair(e)
    ensures '\n' !in e.key && e.freq < TWO_64
  {
  }

  lemma RankTextUnfolds(r: seq<Entry>)
    ensures RankText([]) == "" && (r != [] ==> RankText(r) == RankLine(r[0], RankText(r[1..])))
  {
  }

  lemma WholeRanksUnfolds(r: seq<Entry>, n: nat)
    ensures WholeRanks(r, n) ==
            if r == [] || n < |RankLine(r[0], "")| then 0 else 1 + WholeRanks(r[1..], n - |RankLine(r[0], "")|)
  {
  }

  lemma PrefixGrows(done: seq<Entry>, r: seq<Entry>, j: nat)
    requires r != [] && j < |r|
    ensures done + [r[0]] + r[1..][..j] == done + r[..j + 1]
  {
  }

  lemma {:induction false} TruncatedRanks(done: seq<Entry>, r: seq<Entry>, n: nat)
    requires Sorted(done + r) && NewlineFree(r) && AllStorablePairs(r) && n <= |RankText(r)|
    ensures ReadRanks(Open(RankText(r)[..n]), done) == Loaded(Completed, done + r[..WholeRanks(r, n)])
    decreases |r|
  {
    hide *;
    RankTextUnfolds(r);
    WholeRanksUnfolds(r, n);
    if r == [] {
      NothingLeft(done, [], []);
    } else if n < |RankLine(r[0], "")| {
      SortedStep(done, r);
      CutFirstRank(r[0], RankText(r[1..]), n);
      NothingLeft(done, r, RankText(r)[..n]);
    } else {
      SortedStep(done, r);
      TruncatedRanksStep(done, r, n);
      TruncatedRanks(done + [r[0]], r[1..], n - |RankLine(r[0], "")|);
      PrefixGrows(done, r, WholeRanks(r[1..], n - |RankLine(r[0], "")|));
    }
  }

  lemma NothingLeft(done: seq<Entry>, r: seq<Entry>, text: string)
    requires NextRank(Open(text)).0.eof || text == ""
    ensures ReadRanks(Open(text), done) == Loaded(Completed, done + r[..0])
  {
    StopsAtEof(Open(text), map[], done);
    assert done + r[..0] == done;
  }

  /** The keys that a cut key file still holds. */
  ghost function KeptKeys(m: KeyMap, n: nat): KeyMap {
    OrderedCovers(m.Keys);
    Selected(Ordered(m.Keys)[..WholeKeys(Ordered(m.Keys), m, n)], m)
  }

  lemma EmptyPlus(m: KeyMap)
    ensures map[] + m == m
  {
  }

  lemma TruncatedKeyFile(m: KeyMap, n: nat)
    requires StorableKeys(m) && n <= |KeyFile(m)|
    ensures ReadKeys(Open(KeyFile(m)[..n]), map[]) == Loaded(Completed, KeptKeys(m, n))
  {
    CommaFreeMapReads(m);
    OrderedReadable(m);
    TruncatedKeys(Ordered(m.Keys), m, map[], n);
    EmptyPlus(KeptKeys(m, n));
  }

  lemma StorableIsNewlineFree(r: seq<Entry>)
    requires AllStorablePairs(r)
    ensures NewlineFree(r)
  {
  }

  lemma TruncatedRankFile(r: seq<Entry>, n: nat)
    requires Sorted(r) && AllStorablePairs(r) && n <= |RankText(r)|
    ensures ReadRanks(Open(RankText(r)[..n]), []) == Loaded(Completed, r[..WholeRanks(r, n)])
  {
    hide *;
    assert [] + r == r && [] + r[..WholeRanks(r, n)] == r[..WholeRanks(r, n)];
    assert NewlineFree(r) by { StorableIsNewlineFree(r); }
    TruncatedRanks([], r, n);
  }

  /** A restore from cut files always reports success. It keeps exactly the key records and ranking
      records that are complete: the first keys in key order, and of the ranking the lowest pairs, for
      the file is written in ascending order. */
  lemma TruncatedRestore(ix: Index, target: Index, n: nat, l: nat)
    requires Sorted(ix.ranking) && Storable(ix)
    requires n <= |KeyFile(ix.keys)| && l <= |RankText(ix.ranking)|
    ensures Restore(target, KeyFile(ix.keys)[..n], RankText(ix.ranking)[..l]) ==
            (Completed, target.(keys := KeptKeys(ix.keys, n), ranking := ix.ranking[..WholeRanks(ix.ranking, l)]))
  {
    TruncatedKeyFile(ix.keys, n);
    TruncatedRankFile(ix.ranking, l);
  }

  // ---------------------------------------------------------------- when nothing is lost

  lemma {:induction false} AllKeysWhole(ks: seq<string>, m: KeyMap, n: nat)
    requires (forall k :: k in ks ==> k in m) && n <= |KeyText(ks, m)|
    ensures WholeKeys(ks, m, n) == |ks| <==> n == |KeyText(ks, m)|
    decreases |ks|
  {
    if ks != [] {
      var k := ks[0];
      var line := |KeyLine(k, m[k], "")|;
      LinesConcat(k, ToText(m[k].frequency), m[k].url, ToText(m[k].port), KeyText(ks[1..], m));
      assert |KeyText(ks, m)| == line + |KeyText(ks[1..], m)| && line > 0;
      if line <= n {
        AllKeysWhole(ks[1..], m, n - line);
      }
    }
  }

  lemma {:induction false} AllRanksWhole(r: seq<Entry>, n: nat)
    requires n <= |RankText(r)|
    ensures WholeRanks(r, n) == |r| <==> n == |RankText(r)|
    decreases |r|
  {
    if r != [] {
      var line := |RankLine(r[0], "")|;
      LinesConcat(ToText(r[0].freq), "", "", r[0].key, RankText(r[1..]));
      assert |RankText(r)| == line + |RankText(r[1..])| && line > 0;
      if line <= n {
        AllRanksWhole(r[1..], n - line);
      }
    }
  }

  /** A cut key file gives the whole key map back exactly if it was not cut. */
  lemma KeptAllIff(m: KeyMap, n: nat)
    requires n <= |KeyFile(m)|
    ensures KeptKeys(m, n) == m <==> n == |KeyFile(m)|
  {
    hide KeyText, WholeKeys, Ordered;
    var ks := Ordered(m.Keys);
    OrderedCovers(m.Keys);
    AllKeysWhole(ks, m, n);
    var j := WholeKeys(ks, m, n);
    if j == |ks| {
      assert ks[..j] == ks;
      assert Selected(ks, m) == m;
    } else {
      DroppedKeyIsMissing(ks, m, j);
    }
  }

  lemma DroppedKeyIsMissing(ks: seq<string>, m: KeyMap, j: nat)
    requires NoRepeats(ks) && j < |ks| && ks[j] in m
    ensures Selected(ks[..j], m) != m
  {
    assert ks[j] !in ks[..j];
    assert ks[j] !in Selected(ks[..j], m);
  }

  /** A successful restore from cut files is the saved state exactly if neither file was cut. */
  lemma TruncatedRestoreIsExactIff(ix: Index, target: Index, n: nat, l: nat)
    requires Sorted(ix.ranking) && Storable(ix)
    requires n <= |KeyFile(ix.keys)| && l <= |RankText(ix.ranking)|
    ensures Restore(target, KeyFile(ix.keys)[..n], RankText(ix.ranking)[..l]) ==
            (Completed, target.(keys := ix.keys, ranking := ix.ranking))
            <==> n == |KeyFile(ix.keys)| && l == |RankText(ix.ranking)|
  {
    TruncatedRestore(ix, target, n, l);
    KeptAllIff(ix.keys, n);
    AllRanksWhole(ix.ranking, l);
    assert ix.ranking[..|ix.ranking|] == ix.ranking;
  }

  // ---------------------------------------------------------------- when the cut result is an index

  lemma KeptIsSubmap(m: KeyMap, n: nat)
    ensures KeptKeys(m, n).Keys <= m.Keys && forall k :: k in KeptKeys(m, n) ==> KeptKeys(m, n)[k] == m[k]
  {
  }

  lemma PrefixFacts(r: seq<Entry>, i: nat)
    requires Sorted(r) && DistinctKeys(r) && i <= |r|
    ensures Sorted(r[..i]) && DistinctKeys(r[..i]) && |KeySet(r[..i])| == i
  {
    KeySetSize(r[..i]);
  }

  /** The lowest i pairs of a valid ranking beside a part of its key map. */
  lemma PartIsValidIff(ix: Index, keys: KeyMap, i: nat)
    requires Valid(ix) && i <= |ix.ranking|
    requires keys.Keys <= ix.keys.Keys && forall k :: k in keys ==> keys[k] == ix.keys[k]
    ensures Valid(ix.(keys := keys, ranking := ix.ranking[..i])) <==>
            || KeySet(ix.ranking[..i]) == keys.Keys
            || (i == |ix.ranking| && KeySet(ix.ranking) <= keys.Keys)
  {
    var r := ix.ranking;
    var part := ix.(keys := keys, ranking := r[..i]);
    PrefixFacts(r, i);
    assert i == |r| ==> r[..i] == r;
    if Valid(part) {
      RankedIsKnown(keys, r[..i]);
      SubsetSize(KeySet(r[..i]), keys.Keys);
    }
    if KeySet(r[..i]) == keys.Keys {
      PartIsFaithful(ix, keys, i);
      AllRankedNothingAbove(keys, r[..i]);
    } else if i == |r| && KeySet(r) <= keys.Keys {
      PartIsFaithful(ix, keys, i);
      SubsetSize(keys.Keys, ix.keys.Keys);
      SubsetSize(KeySet(r), keys.Keys);
    }
  }

  lemma PartIsFaithful(ix: Index, keys: KeyMap, i: nat)
    requires Valid(ix) && i <= |ix.ranking| && KeySet(ix.ranking[..i]) <= keys.Keys
    requires keys.Keys <= ix.keys.Keys && forall k :: k in keys ==> keys[k] == ix.keys[k]
    ensures Faithful(keys, ix.ranking[..i])
  {
    forall e | e in ix.ranking[..i] ensures e.key in keys && keys[e.key].frequency == e.freq {
      InKeySet(ix.ranking[..i], e);
      assert e in ix.ranking;
    }
  }

  /** What a restore from cut files leaves is a valid index exactly if the surviving pairs are those of
      the surviving keys, or the ranking survived whole and all its keys with it. */
  lemma TruncatedRestoreIsValidIff(ix: Index, target: Index, n: nat, l: nat)
    requires Valid(ix) && Storable(ix) && target.max == ix.max
    requires n <= |KeyFile(ix.keys)| && l <= |RankText(ix.ranking)|
    ensures var keys, i := KeptKeys(ix.keys, n), WholeRanks(ix.ranking, l);
            Valid(Restore(target, KeyFile(ix.keys)[..n], RankText(ix.ranking)[..l]).1) <==>
            || KeySet(ix.ranking[..i]) == keys.Keys
            || (l == |RankText(ix.ranking)| && KeySet(ix.ranking) <= keys.Keys)
  {
    TruncatedRestore(ix, target, n, l);
    AllRanksWhole(ix.ranking, l);
    KeptIsSubmap(ix.keys, n);
    PartIsValidIff(ix, KeptKeys(ix.keys, n), WholeRanks(ix.ranking, l));
  }
}
