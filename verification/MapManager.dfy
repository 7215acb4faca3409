/** The class itself: the fields of MapManager, and its methods with their iterator loops, each proved
    equal to the value function of RankingIndex or BackupText that the theorems are about.

    An iterator into the ranking is a position in it, |ranking| being end(); a reverse iterator is
    the position of its base(). The mutex is left to LockProtocol: here every method runs alone. */
module Manager {
  import opened BackupText
  import opened Decimal
  import opened FileFormat
  import opened KeyOrder
  import opened Purging
  import opened RankingIndex
  import opened Runs
  import opened TextStream
  import opened TopLists

  datatype KeyFrequency = KeyFrequency(key: string, frequency: string)

  /** A line of a report names the key of a ranked pair, and its count in decimal. */
  predicate Shows(line: KeyFrequency, e: Entry) {
    line.key == e.key && Writes(line.frequency, e.freq)
  }

  predicate ShowsAll(lines: seq<KeyFrequency>, t: seq<Entry>) {
    |lines| == |t| && forall i :: 0 <= i < |t| ==> Shows(lines[i], t[i])
  }

  class MapManager {
    var keyMap: KeyMap
    var ranking: seq<Entry>
    var baseSize: nat
    var maxSize: nat
    var writing: bool

    function State(): Index
      reads this
    {
      Index(keyMap, ranking, baseSize, maxSize)
    }

    constructor Default()
      ensures State() == Index(map[], [], 10, 20) && !writing
    {
      keyMap, ranking, baseSize, maxSize, writing := map[], [], 10, 20, false;
    }

    constructor (n: nat, m: nat)
      requires n < TWO_32 && m < TWO_32
      ensures State() == Initial(n, m) && !writing
    {
      var least := (n + MIN_GAP) % TWO_32;
      keyMap, ranking, writing := map[], [], false;
      baseSize := n % TWO_16;
      maxSize := (if m > least then m else least) % TWO_16;
    }

    method AddOrUpdateKey(key: string, url: string, port: nat)
      requires Sorted(ranking)
      modifies this
      ensures State() == Add(old(State()), key, url, port)
      ensures Sorted(ranking) && !writing
    {
      var prev, order := 0, 1;
      writing := true;
      if key in keyMap {
        prev := keyMap[key].frequency;
        order := 1 + prev;
      }
      keyMap := keyMap[key := Details(url, port, order)];
      var lowest := if ranking == [] then 1 else ranking[0].freq;
      var actualSize := |ranking|;
      if order <= lowest && actualSize >= maxSize {
        writing := false;
        return;
      }
      UpdateRanking(prev, key);
      writing := false;
    }

    /** The long path of an add: drop the old pair, insert the new one, trim. */
    method UpdateRanking(prev: nat, key: string)
      requires Sorted(ranking)
      modifies this`ranking
      ensures ranking == Rerank(old(ranking), prev, key, maxSize) && Sorted(ranking)
    {
      if prev > 0 {
        EraseFromRanking(prev, key);
      }
      InsertKeepsSorted(ranking, Entry(prev + 1, key));
      ranking := Insert(ranking, Entry(prev + 1, key));
      TrimRanking();
    }

    /** The scan of the equal range and the erase of the pair it finds. */
    method EraseFromRanking(prev: nat, key: string)
      requires Sorted(ranking)
      modifies this`ranking
      ensures ranking == Erase(old(ranking), Entry(prev, key)) && Sorted(ranking)
    {
      var it := Find(ranking, prev);
      while it != |ranking| && ranking[it].key != key && ranking[it].freq == prev
        invariant it <= |ranking|
        invariant forall j :: 0 <= j < it ==> ranking[j] != Entry(prev, key)
      {
        it := it + 1;
      }
      ScanStops(ranking, prev, key, it);
      EraseKeepsSorted(ranking, Entry(prev, key));
      if it != |ranking| && ranking[it].freq == prev {
        ranking := ranking[..it] + ranking[it + 1..];
      }
    }

    /** The size maintenance: erase begin() while there are too many pairs. */
    method TrimRanking()
      requires Sorted(ranking)
      modifies this`ranking
      ensures ranking == TrimTo(old(ranking), maxSize) && Sorted(ranking)
    {
      while |ranking| > maxSize
        invariant |ranking| <= |old(ranking)|
        invariant ranking == old(ranking)[|old(ranking)| - |ranking|..]
        invariant |ranking| < |old(ranking)| ==> |ranking| >= maxSize
      {
        ranking := ranking[1..];
      }
    }

    method SetTopKeyReportBaseSize(newBase: nat)
      modifies this
      ensures State() == SetBase(old(State()), newBase) && !writing
      ensures baseSize == (if newBase <= maxSize then newBase else maxSize)
      ensures keyMap == old(keyMap) && ranking == old(ranking) && maxSize == old(maxSize)
    {
      writing := true;
      if newBase > maxSize {
        baseSize := maxSize;
      } else {
        baseSize := newBase;
      }
      writing := false;
    }

    method IsHotKey(key: string) returns (hot: bool)
      requires Sorted(ranking) && !writing
      ensures hot <==> IsHot(State(), key)
      ensures hot <==> key in keyMap && Entry(keyMap[key].frequency, key) in ranking
    {
      if key !in keyMap {
        return false;
      }
      var order := keyMap[key].frequency;
      var lowest := if ranking == [] then 0 else ranking[0].freq;
      if order < lowest {
        return false;
      }
      var it := Find(ranking, order);
      if it == |ranking| {
        return false;
      }
      while it != |ranking| && ranking[it].key != key && ranking[it].freq == order
        invariant it <= |ranking|
        invariant forall j :: 0 <= j < it ==> ranking[j] != Entry(order, key)
      {
        it := it + 1;
      }
      ScanStops(ranking, order, key, it);
      PositionIsMembership(ranking, Entry(order, key));
      return it != |ranking| && ranking[it].freq == order;
    }

    method GetTopHotkeys(vec: seq<KeyFrequency>) returns (out: seq<KeyFrequency>)
      requires !writing
      ensures |out| == |vec| + (if baseSize <= |ranking| then baseSize else |ranking|) && out[..|vec|] == vec
      ensures forall i :: |vec| <= i < |out| ==>
                var e := ranking[|ranking| - 1 - (i - |vec|)]; out[i].key == e.key && Writes(out[i].frequency, e.freq)
      ensures ShowsAll(out[|vec|..], Report(State()))
      ensures Valid(State()) ==> forall i :: |vec| <= i < |out| ==>
                out[i].key in keyMap && Writes(out[i].frequency, keyMap[out[i].key].frequency)
    {
      out := vec;
      var index, it := 0, |ranking|;
      while it != 0 && index < baseSize
        invariant index + it == |ranking| && index <= Min(baseSize, |ranking|)
        invariant |out| == |vec| + index && out[..|vec|] == vec
        invariant forall i :: |vec| <= i < |out| ==> Shows(out[i], ranking[|ranking| - 1 - (i - |vec|)])
      {
        TextIsDecimal(ranking[it - 1].freq);
        out := out + [KeyFrequency(ranking[it - 1].key, ToText(ranking[it - 1].freq))];
        it, index := it - 1, index + 1;
      }
      LinesShowReport(State(), vec, out);
    }

    method BackupRequest() returns (keyFile: string, rankFile: string)
      requires !writing
      ensures keyFile == KeyFile(keyMap) && rankFile == RankText(ranking)
      ensures IsKeyDump(keyFile, keyMap) && IsRankDump(rankFile, ranking)
    {
      FilesHaveForm(keyMap, ranking);
      rankFile := DumpRanking();
      keyFile := DumpKeys();
    }

    method DumpRanking() returns (file: string)
      ensures file == RankText(ranking)
    {
      file := "";
      var it := 0;
      while it != |ranking|
        invariant it <= |ranking|
        invariant RankText(ranking) == file + RankText(ranking[it..])
      {
        RankLineAppends(file, ranking[it], RankText(ranking[it + 1..]));
        assert ranking[it..][1..] == ranking[it + 1..];
        file := file + ToText(ranking[it].freq) + [','] + ranking[it].key + ['\n'];
        it := it + 1;
      }
      assert ranking[it..] == [];
    }

    method DumpKeys() returns (file: string)
      ensures file == KeyFile(keyMap)
    {
      file := "";
      var left := keyMap.Keys;
      OrderedCovers(left);
      while left != {}
        invariant left <= keyMap.Keys
        invariant forall k :: k in Ordered(left) <==> k in left
        invariant KeyFile(keyMap) == file + KeyText(Ordered(left), keyMap)
      {
        FirstExists(left);
        var key :| IsFirst(key, left);
        OrderedStartsAt(left, key);
        OrderedCovers(left - {key});
        var d := keyMap[key];
        KeyLineAppends(file, key, d, KeyText(Ordered(left - {key}), keyMap));
        file := file + key + [','] + ToText(d.frequency) + [','] + d.url + [','] + ToText(d.port) + ['\n'];
        left := left - {key};
      }
    }

    /** A restore that does not complete leaves the writing flag set. */
    method RestoreRequest(keyFile: string, rankFile: string) returns (outcome: Outcome)
      modifies this
      ensures (outcome, State()) == Restore(old(State()), keyFile, rankFile)
      ensures writing <==> !outcome.Completed?
    {
      writing := true;
      outcome := LoadKeys(keyFile);
      if !outcome.Completed? {
        return;
      }
      outcome := LoadRanking(rankFile);
      if !outcome.Completed? {
        return;
      }
      writing := false;
    }

    method LoadKeys(keyFile: string) returns (outcome: Outcome)
      modifies this`keyMap
      ensures Loaded(outcome, keyMap) == ReadKeys(Open(keyFile), map[])
    {
      if |keyMap| > 0 {
        keyMap := map[];
      }
      var st := Open(keyFile);
      while !st.eof
        invariant ReadKeys(st, keyMap) == ReadKeys(Open(keyFile), map[])
        decreases |st.rest|
      {
        ghost var before := st;
        var key, count, url, port;
        var r := GetLine(st, ',');
        st, key := r.0, r.1;
        r := GetLine(st, ',');
        st, count := r.0, r.1;
        r := GetLine(st, ',');
        st, url := r.0, r.1;
        r := GetLine(st, '\n');
        st, port := r.0, r.1;
        assert NextKey(before) == (st, KeyRecord(key, count, url, port));
        if st.eof {
          break;
        }
        if st.fail {
          return ReadError;
        }
        var nPort, nCount := Stoi(port), Stoul(count);
        if !nPort.Value? || !nCount.Value? {
          return Threw;
        }
        keyMap := InsertKey(keyMap, key, Details(url, nPort.v % TWO_32, nCount.v % TWO_64));
      }
      return Completed;
    }

    method LoadRanking(rankFile: string) returns (outcome: Outcome)
      modifies this`ranking
      ensures Loaded(outcome, ranking) == ReadRanks(Open(rankFile), [])
    {
      if |ranking| > 0 {
        ranking := [];
      }
      var st := Open(rankFile);
      while !st.eof
        invariant ReadRanks(st, ranking) == ReadRanks(Open(rankFile), [])
        decreases |st.rest|
      {
        ghost var before := st;
        var count, key;
        var r := GetLine(st, ',');
        st, count := r.0, r.1;
        r := GetLine(st, '\n');
        st, key := r.0, r.1;
        assert NextRank(before) == (st, RankRecord(count, key));
        if st.eof {
          break;
        }
        if st.fail {
          return ReadError;
        }
        var nCount := Stoul(count);
        if !nCount.Value? {
          return Threw;
        }
        ranking := Insert(ranking, Entry(nCount.v % TWO_64, key));
      }
      return Completed;
    }

    /** Defined unless the loop erases the lowest pair, which its rend() refers to. */
    method Purge(newLength: nat)
      requires PurgeIsDefined(State(), newLength)
      modifies this
      ensures State() == Purging.Purge(old(State()), newLength) && !writing
    {
      var n := ClampLength(newLength);
      writing := true;
      var newKeys, it := CollectTop(n);
      if it != 0 { // there are still more pairs below
        ranking := ranking[it - 1..];
      }
      keyMap := newKeys;
      writing := false;
    }

    method ClampLength(newLength: nat) returns (n: nat)
      ensures n == ClampPurge(State(), newLength)
    {
      n := newLength;
      if n > maxSize {
        n := maxSize;
      } else if n < baseSize {
        n := baseSize;
      }
    }

    /** The purge loop: copy the details of the n highest pairs and erase orphans. Returns where base()
        stands. */
    method CollectTop(n: nat) returns (newKeys: KeyMap, it: nat)
      requires !PurgeWalk(keyMap, ranking, |ranking|, 0, n, map[]).undefined
      modifies this`ranking
      ensures PurgeWalk(keyMap, old(ranking), |old(ranking)|, 0, n, map[]) == Walk(newKeys, ranking, it, false)
      ensures it <= |ranking|
    {
      newKeys := map[];
      var i := 0;
      it := |ranking|;
      while it != 0 && i < n
        invariant it <= |ranking| && i <= n
        invariant PurgeWalk(keyMap, ranking, it, i, n, newKeys) ==
                  PurgeWalk(keyMap, old(ranking), |old(ranking)|, 0, n, map[])
      {
        var key := ranking[it - 1].key;
        if key !in keyMap {
          ranking := ranking[..it - 1] + ranking[it..];
          it := it - 1;
        } else {
          newKeys := InsertKey(newKeys, key, keyMap[key]);
        }
        i, it := i + 1, it - 1;
      }
    }

    method ZapAll()
      modifies this
      ensures State() == Zap(old(State())) && !writing
      ensures keyMap == map[] && ranking == [] && baseSize == old(baseSize) && maxSize == old(maxSize)
    {
      writing := true;
      ranking := [];
      keyMap := map[];
      writing := false;
    }
  }

  // ---------------------------------------------------------------- what the loops need

  lemma LinesShowReport(ix: Index, vec: seq<KeyFrequency>, out: seq<KeyFrequency>)
    requires |out| == |vec| + Min(ix.base, |ix.ranking|)
    requires forall i :: |vec| <= i < |out| ==> Shows(out[i], ix.ranking[|ix.ranking| - 1 - (i - |vec|)])
    ensures ShowsAll(out[|vec|..], Report(ix))
    ensures Valid(ix) ==> forall i :: |vec| <= i < |out| ==>
              out[i].key in ix.keys && Writes(out[i].frequency, ix.keys[out[i].key].frequency)
  {
    hide Writes, Valid;
    if Valid(ix) {
      RankedAreFaithful(ix);
    }
  }

  lemma RankedAreFaithful(ix: Index)
    requires Valid(ix)
    ensures forall i :: 0 <= i < |ix.ranking| ==>
              ix.ranking[i].key in ix.keys && ix.keys[ix.ranking[i].key].frequency == ix.ranking[i].freq
  {
    assert forall i :: 0 <= i < |ix.ranking| ==> ix.ranking[i] in ix.ranking;
  }

  /** Where the scan stops tells whether the pair is there: it never leaves the equal range of prev
      with a hit, and a miss means that the pair is nowhere in the ranking. */
  lemma ScanStops(r: seq<Entry>, prev: nat, key: string, it: nat)
    requires Sorted(r) && it <= |r|
    requires forall j :: 0 <= j < it ==> r[j] != Entry(prev, key)
    requires it == |r| || r[it].key == key || r[it].freq != prev
    requires it >= Find(r, prev)
    ensures Position(r, Entry(prev, key)) == if it != |r| && r[it].freq == prev then it else |r|
  {
    var p := Position(r, Entry(prev, key));
    if it < |r| && p < |r| {
      EqualRange(r, prev, it, p);
    }
  }

  /** From the first pair of a frequency to a later one, all pairs have that frequency. */
  lemma EqualRange(r: seq<Entry>, prev: nat, it: nat, p: nat)
    requires Sorted(r) && Find(r, prev) <= it <= p < |r| && r[p].freq == prev
    ensures r[it].freq == prev
  {
    assert r[Find(r, prev)].freq <= r[it].freq <= r[p].freq;
  }

  lemma PositionIsMembership(r: seq<Entry>, e: Entry)
    ensures Position(r, e) < |r| <==> e in r
  {
  }

  lemma RankLineAppends(done: string, e: Entry, tail: string)
    ensures done + RankLine(e, tail) == done + ToText(e.freq) + [','] + e.key + ['\n'] + tail
  {
  }

  lemma KeyLineAppends(done: string, k: string, d: Details, tail: string)
    ensures done + KeyLine(k, d, tail) ==
            done + k + [','] + ToText(d.frequency) + [','] + d.url + [','] + ToText(d.port) + ['\n'] + tail
  {
    Flatten(done, k, ToText(d.frequency), d.url, ToText(d.port), tail);
  }

  lemma Flatten(o: string, a: string, b: string, c: string, d: string, t: string)
    ensures o + (a + [','] + (b + [','] + (c + [','] + (d + ['\n'] + t)))) ==
            o + a + [','] + b + [','] + c + [','] + d + ['\n'] + t
  {
  }

}
