/** The bounded index behind MapManager, on values: the full key map, the ranking that holds at most
    `max` (count, key) pairs in the order of the frequency multimap, and the report length `base`.

    Assumptions on the ordered multimap: it iterates by ascending frequency; insert puts a new pair
    after every pair of the same frequency (ISO C++17, section 26.2.6); find returns the first pair
    of the given frequency (what libstdc++ does; the standard allows any of them). */
module RankingIndex {
  import opened Sequences
  import opened TopLists

  datatype Details = Details(url: string, port: nat, frequency: nat)

  type KeyMap = map<string, Details>

  datatype Index = Index(keys: KeyMap, ranking: seq<Entry>, base: nat, max: nat)

  // ---------------------------------------------------------------- the multimap

  predicate Sorted(r: seq<Entry>) {
    forall i, j :: 0 <= i < j < |r| ==> r[i].freq <= r[j].freq
  }

  /** Where a new pair of frequency f goes: after the last pair whose frequency is not above f. */
  function UpperBound(r: seq<Entry>, f: nat): (u: nat)
    ensures u <= |r|
    ensures u > 0 ==> r[u - 1].freq <= f
    ensures forall i :: u <= i < |r| ==> f < r[i].freq
  {
    if r == [] then 0
    else if r[|r| - 1].freq <= f then |r|
    else UpperBound(r[..|r| - 1], f)
  }

  function Insert(r: seq<Entry>, e: Entry): seq<Entry> {
    var u := UpperBound(r, e.freq);
    r[..u] + [e] + r[u..]
  }

  /** The first pair of frequency f, or |r| for end(). */
  function Find(r: seq<Entry>, f: nat): (i: nat)
    ensures i <= |r|
    ensures i < |r| ==> r[i].freq == f
    ensures forall j :: 0 <= j < i ==> r[j].freq != f
  {
    if r == [] then 0
    else if r[0].freq == f then 0
    else 1 + Find(r[1..], f)
  }

  /** The first place of an exact pair, or |r|. */
  function Position(r: seq<Entry>, e: Entry): (i: nat)
    ensures i <= |r|
    ensures i < |r| ==> r[i] == e
    ensures forall j :: 0 <= j < i ==> r[j] != e
  {
    if r == [] then 0
    else if r[0] == e then 0
    else 1 + Position(r[1..], e)
  }

  function Erase(r: seq<Entry>, e: Entry): seq<Entry> {
    var i := Position(r, e);
    if i < |r| then r[..i] + r[i + 1..] else r
  }

  /** The m pairs at the high end. */
  function TrimTo(r: seq<Entry>, m: nat): seq<Entry> {
    if |r| > m then r[|r| - m..] else r
  }

  function Reverse(r: seq<Entry>): (t: seq<Entry>) {
    seq(|r|, i requires 0 <= i < |r| => r[|r| - 1 - i])
  }

  // ---------------------------------------------------------------- operations

  function CountOf(keys: KeyMap, key: string): nat {
    if key in keys then keys[key].frequency else 0
  }

  function CountTable(keys: KeyMap): Counts {
    map k | k in keys :: keys[k].frequency
  }

  /** The lowest ranked frequency; an empty ranking counts as `default`. */
  function Lowest(r: seq<Entry>, default: nat): nat {
    if r == [] then default else r[0].freq
  }

  /** map::insert never replaces a key that is already there. */
  function InsertKey(m: KeyMap, k: string, d: Details): KeyMap {
    if k in m then m else m[k := d]
  }

  predicate TakesEarlyExit(ix: Index, key: string) {
    CountOf(ix.keys, key) + 1 <= Lowest(ix.ranking, 1) && |ix.ranking| >= ix.max
  }

  /** The ranking after the long path of an add: drop the key's old pair, insert the new one, trim. */
  function Rerank(r: seq<Entry>, prev: nat, key: string, max: nat): seq<Entry> {
    TrimTo(Insert(Kept(r, prev, key), Entry(prev + 1, key)), max)
  }

  function Kept(r: seq<Entry>, prev: nat, key: string): seq<Entry> {
    if prev > 0 then Erase(r, Entry(prev, key)) else r
  }

  function Reranked(ix: Index, key: string): seq<Entry> {
    Rerank(ix.ranking, CountOf(ix.keys, key), key, ix.max)
  }

  function Add(ix: Index, key: string, url: string, port: nat): Index {
    var keys := ix.keys[key := Details(url, port, CountOf(ix.keys, key) + 1)];
    if TakesEarlyExit(ix, key) then ix.(keys := keys)
    else ix.(keys := keys, ranking := Reranked(ix, key))
  }

  function SetBase(ix: Index, n: nat): Index {
    ix.(base := if n > ix.max then ix.max else n)
  }

  function Zap(ix: Index): Index {
    ix.(keys := map[], ranking := [])
  }

  function Report(ix: Index): seq<Entry> {
    Reverse(ix.ranking)[..Min(ix.base, |ix.ranking|)]
  }

  predicate IsHot(ix: Index, key: string) {
    key in ix.keys && Entry(ix.keys[key].frequency, key) in ix.ranking
  }

  function Min(a: nat, b: nat): nat {
    if a <= b then a else b
  }

  // ---------------------------------------------------------------- the index invariant

  /** Every ranked pair shows its key's stored count. */
  ghost predicate Faithful(keys: KeyMap, r: seq<Entry>) {
    forall e :: e in r ==> e.key in keys && keys[e.key].frequency == e.freq
  }

  /** No unranked key has a count above a ranked one. */
  ghost predicate NothingAbove(keys: KeyMap, r: seq<Entry>) {
    forall k, e :: k in keys && k !in KeySet(r) && e in r ==> keys[k].frequency <= e.freq
  }

  /** The ranking is a true top-`max` of the key map. */
  ghost predicate Valid(ix: Index) {
    && Sorted(ix.ranking)
    && DistinctKeys(ix.ranking)
    && Faithful(ix.keys, ix.ranking)
    && NothingAbove(ix.keys, ix.ranking)
    && |ix.ranking| == Min(ix.max, |ix.keys|)
    && forall k :: k in ix.keys ==> ix.keys[k].frequency >= 1
  }

  // ---------------------------------------------------------------- ranking arithmetic

  /** s is the sorted ranking r with the pair e of a fresh key put in. */
  ghost predicate Inserted(r: seq<Entry>, e: Entry, s: seq<Entry>) {
    && Sorted(s) && DistinctKeys(s)
    && |s| == |r| + 1 && KeySet(s) == KeySet(r) + {e.key}
    && (forall x :: x in s <==> x in r || x == e)
    && (r != [] && r[0].freq <= e.freq ==> s[0] == r[0])
  }

  /** s is the sorted ranking r without its pair e. */
  ghost predicate Erased(r: seq<Entry>, e: Entry, s: seq<Entry>) {
    && Sorted(s) && DistinctKeys(s)
    && |s| == |r| - 1 && KeySet(s) == KeySet(r) - {e.key}
    && forall x :: x in s <==> x in r && x != e
  }

  lemma InKeySet(r: seq<Entry>, e: Entry)
    requires e in r
    ensures e.key in KeySet(r)
  {
    var i :| 0 <= i < |r| && r[i] == e;
    KeyAt(r, i);
  }

  lemma KeySetAround(a: seq<Entry>, e: Entry, c: seq<Entry>)
    ensures KeySet(a + [e] + c) == KeySet(a + c) + {e.key}
  {
    KeySetConcat(a, [e]);
    KeySetConcat(a + [e], c);
    KeySetConcat(a, c);
    assert KeySet([e]) == {e.key};
  }

  predicate FreshKey(r: seq<Entry>, key: string) {
    forall i :: 0 <= i < |r| ==> r[i].key != key
  }

  lemma FreshKeyNotInKeySet(r: seq<Entry>, key: string)
    ensures FreshKey(r, key) <==> key !in KeySet(r)
  {
    if key in KeySet(r) {
      var i := IndexOfKey(r, key);
    } else {
      forall i | 0 <= i < |r| ensures r[i].key != key {
        KeyAt(r, i);
      }
    }
  }

  /** The pair e has its place between the pairs of a and those of c. */
  ghost predicate Fits(a: seq<Entry>, e: Entry, c: seq<Entry>) {
    && (forall i :: 0 <= i < |a| ==> a[i].freq <= e.freq && a[i].key != e.key)
    && (forall i :: 0 <= i < |c| ==> e.freq < c[i].freq && c[i].key != e.key)
  }

  lemma InsertBetween(a: seq<Entry>, e: Entry, c: seq<Entry>)
    requires Sorted(a + c) && DistinctKeys(a + c) && Fits(a, e, c)
    ensures Sorted(a + [e] + c) && DistinctKeys(a + [e] + c)
  {
    var r, s := a + c, a + [e] + c;
    forall i, j | 0 <= i < j < |s| ensures s[i].freq <= s[j].freq && s[i].key != s[j].key {
      if i != |a| && j != |a| {
        assert s[i] == r[if i < |a| then i else i - 1];
        assert s[j] == r[if j < |a| then j else j - 1];
      }
    }
  }

  lemma UpperBoundFits(r: seq<Entry>, e: Entry)
    requires Sorted(r) && FreshKey(r, e.key)
    ensures var u := UpperBound(r, e.freq); Fits(r[..u], e, r[u..])
  {
    var u := UpperBound(r, e.freq);
    forall i | 0 <= i < u ensures r[i].freq <= e.freq {
      assert r[i].freq <= r[u - 1].freq;
    }
  }

  lemma InsertedPieces(a: seq<Entry>, e: Entry, c: seq<Entry>)
    requires Sorted(a + c) && DistinctKeys(a + c) && Fits(a, e, c)
    ensures Inserted(a + c, e, a + [e] + c)
  {
    InsertBetween(a, e, c);
    KeySetAround(a, e, c);
    if a == [] {
      assert c != [] ==> (a + c)[0] == c[0];
    }
  }

  lemma InsertMembers(r: seq<Entry>, e: Entry)
    ensures forall x :: x in Insert(r, e) <==> x in r || x == e
  {
    SplitSeq(r, UpperBound(r, e.freq));
  }

  lemma InsertFresh(r: seq<Entry>, e: Entry)
    requires Sorted(r) && DistinctKeys(r) && e.key !in KeySet(r)
    ensures Inserted(r, e, Insert(r, e))
  {
    var u := UpperBound(r, e.freq);
    FreshKeyNotInKeySet(r, e.key);
    UpperBoundFits(r, e);
    SplitSeq(r, u);
    InsertedPieces(r[..u], e, r[u..]);
  }

  lemma EraseBetween(a: seq<Entry>, e: Entry, c: seq<Entry>)
    requires Sorted(a + [e] + c) && DistinctKeys(a + [e] + c)
    ensures Erased(a + [e] + c, e, a + c)
  {
    var r, s := a + [e] + c, a + c;
    KeySetAround(a, e, c);
    forall i | 0 <= i < |s| ensures s[i].key != e.key {
      assert r[|a|] == e && s[i] == r[if i < |a| then i else i + 1];
    }
    if e.key in KeySet(s) {
      var i := IndexOfKey(s, e.key);
    }
    forall i, j | 0 <= i < j < |s| ensures s[i].freq <= s[j].freq && s[i].key != s[j].key {
      assert s[i] == r[if i < |a| then i else i + 1];
      assert s[j] == r[if j < |a| then j else j + 1];
    }
  }

  lemma EraseExact(r: seq<Entry>, e: Entry)
    requires Sorted(r) && DistinctKeys(r) && e in r
    ensures Erased(r, e, Erase(r, e))
  {
    var i := Position(r, e);
    SplitSeq(r, i);
    EraseBetween(r[..i], e, r[i + 1..]);
  }

  lemma EraseAbsent(r: seq<Entry>, e: Entry)
    requires e.key !in KeySet(r)
    ensures Erase(r, e) == r
  {
    var i := Position(r, e);
    if i < |r| {
      KeyAt(r, i);
    }
  }

  lemma DropLowest(r: seq<Entry>)
    requires r != [] && Sorted(r) && DistinctKeys(r)
    ensures Erased(r, r[0], r[1..])
  {
    SplitSeq(r, 0);
    assert r == [r[0]] + r[1..];
    EraseFront(r[0], r[1..]);
  }

  lemma EraseFront(e: Entry, c: seq<Entry>)
    requires Sorted([e] + c) && DistinctKeys([e] + c)
    ensures Erased([e] + c, e, c)
  {
    assert [] + [e] + c == [e] + c && [] + c == c;
    EraseBetween([], e, c);
  }

  lemma RankedIsKnown(keys: KeyMap, r: seq<Entry>)
    requires Faithful(keys, r)
    ensures KeySet(r) <= keys.Keys
  {
    forall k | k in KeySet(r) ensures k in keys {
      var i := IndexOfKey(r, k);
      assert r[i] in r;
    }
  }

  /** A ranking with room left ranks every key. */
  lemma RoomRanksAll(ix: Index)
    requires Valid(ix) && |ix.ranking| < ix.max
    ensures KeySet(ix.ranking) == ix.keys.Keys
  {
    KeySetSize(ix.ranking);
    RankedIsKnown(ix.keys, ix.ranking);
    SubsetSize(KeySet(ix.ranking), ix.keys.Keys);
  }

  /** A ranked key has exactly the pair (its count, key) in the ranking. */
  lemma RankedPair(ix: Index, key: string)
    requires Valid(ix) && key in KeySet(ix.ranking)
    ensures key in ix.keys && Entry(ix.keys[key].frequency, key) in ix.ranking
    ensures Lowest(ix.ranking, 1) <= ix.keys[key].frequency
  {
    var i := IndexOfKey(ix.ranking, key);
    assert ix.ranking[i] in ix.ranking;
    assert ix.ranking[i] == Entry(ix.keys[key].frequency, key);
  }

  // ---------------------------------------------------------------- every add keeps the index

  /** The early exit is taken only for an unranked key, so no stale pair stays behind. */
  lemma EarlyExitUnranked(ix: Index, key: string)
    requires Valid(ix) && TakesEarlyExit(ix, key)
    ensures key !in KeySet(ix.ranking) && |ix.keys| >= ix.max
  {
    if key in KeySet(ix.ranking) {
      RankedPair(ix, key);
    }
  }

  /** The ranking r' is r with the pair of e's key moved up to e. */
  ghost predicate MovesUp(r: seq<Entry>, r': seq<Entry>, e: Entry) {
    && Sorted(r') && DistinctKeys(r') && |r'| == |r| && KeySet(r') == KeySet(r)
    && forall x :: x in r' ==> x == e || (x in r && x.key != e.key)
  }

  /** The ranking r' is r with its lowest pair replaced by e. */
  ghost predicate Replaces(r: seq<Entry>, r': seq<Entry>, e: Entry) {
    && r != [] && r[0].freq < e.freq && e.key !in KeySet(r)
    && Sorted(r') && DistinctKeys(r') && |r'| == |r|
    && KeySet(r') == KeySet(r) - {r[0].key} + {e.key}
    && forall x :: x in r' ==> x == e || (x in r && r[0].freq <= x.freq)
  }

  lemma EraseInsertMovesUp(r: seq<Entry>, was: Entry, kept: seq<Entry>, e: Entry, s: seq<Entry>)
    requires was in r && e.key == was.key && Erased(r, was, kept) && Inserted(kept, e, s)
    ensures MovesUp(r, s, e)
  {
    InKeySet(r, was);
    forall x | x in kept ensures x.key != e.key {
      InKeySet(kept, x);
    }
  }

  lemma RerankMovesUp(r: seq<Entry>, prev: nat, key: string, max: nat)
    requires Sorted(r) && DistinctKeys(r) && Entry(prev, key) in r && 0 < prev && |r| <= max
    ensures MovesUp(r, Rerank(r, prev, key, max), Entry(prev + 1, key))
  {
    var was, e := Entry(prev, key), Entry(prev + 1, key);
    EraseExact(r, was);
    InsertFresh(Erase(r, was), e);
    EraseInsertMovesUp(r, was, Erase(r, was), e, Insert(Erase(r, was), e));
  }

  lemma InsertDropReplaces(r: seq<Entry>, e: Entry, s: seq<Entry>)
    requires r != [] && r[0].freq < e.freq && e.key !in KeySet(r) && Inserted(r, e, s)
    ensures Replaces(r, s[1..], e)
  {
    DropLowest(s);
    InKeySet(r, r[0]);
  }

  lemma RerankReplaces(r: seq<Entry>, prev: nat, key: string)
    requires Sorted(r) && DistinctKeys(r) && r != [] && r[0].freq <= prev && key !in KeySet(r)
    ensures Replaces(r, Rerank(r, prev, key, |r|), Entry(prev + 1, key))
  {
    KeptUnranked(r, prev, key);
    InsertFresh(r, Entry(prev + 1, key));
    InsertDropReplaces(r, Entry(prev + 1, key), Insert(r, Entry(prev + 1, key)));
  }

  lemma RerankAppends(r: seq<Entry>, key: string, max: nat)
    requires Sorted(r) && DistinctKeys(r) && key !in KeySet(r) && |r| < max
    ensures Inserted(r, Entry(1, key), Rerank(r, 0, key, max))
  {
    InsertFresh(r, Entry(1, key));
  }

  lemma MovedUpIsValid(ix: Index, ix': Index, key: string, d: Details)
    requires Valid(ix) && key in KeySet(ix.ranking)
    requires ix'.keys == ix.keys[key := d] && ix'.max == ix.max
    requires d.frequency == CountOf(ix.keys, key) + 1
    requires MovesUp(ix.ranking, ix'.ranking, Entry(d.frequency, key))
    ensures Valid(ix')
  {
    RankedPair(ix, key);
    assert ix'.keys.Keys == ix.keys.Keys;
    var was := Entry(ix.keys[key].frequency, key);
    forall k, x | k in ix'.keys && k !in KeySet(ix'.ranking) && x in ix'.ranking
      ensures ix'.keys[k].frequency <= x.freq
    {
      assert ix'.keys[k].frequency <= was.freq;
    }
  }

  lemma ReplacedIsValid(ix: Index, ix': Index, key: string, d: Details)
    requires Valid(ix) && |ix.ranking| == ix.max
    requires ix'.keys == ix.keys[key := d] && ix'.max == ix.max
    requires Replaces(ix.ranking, ix'.ranking, Entry(d.frequency, key))
    ensures Valid(ix')
  {
    var r := ix.ranking;
    assert r[0] in r;
    forall x | x in r ensures x.key != key {
      InKeySet(r, x);
    }
    forall k, x | k in ix'.keys && k !in KeySet(ix'.ranking) && x in ix'.ranking
      ensures ix'.keys[k].frequency <= x.freq
    {
      if k != r[0].key {
        assert k !in KeySet(r);
      }
      assert ix.keys[k].frequency <= r[0].freq;
    }
  }

  lemma AppendedIsFaithful(keys: KeyMap, r: seq<Entry>, key: string, d: Details, r': seq<Entry>)
    requires Faithful(keys, r) && key !in keys && Inserted(r, Entry(d.frequency, key), r')
    ensures Faithful(keys[key := d], r')
  {
  }

  lemma AllRankedNothingAbove(keys: KeyMap, r: seq<Entry>)
    requires keys.Keys == KeySet(r)
    ensures NothingAbove(keys, r)
  {
  }

  lemma AppendedIsValid(ix: Index, ix': Index, key: string, d: Details)
    requires Faithful(ix.keys, ix.ranking) && KeySet(ix.ranking) == ix.keys.Keys
    requires |ix.ranking| == |ix.keys| < ix.max && key !in ix.keys
    requires forall k :: k in ix.keys ==> ix.keys[k].frequency >= 1
    requires ix'.keys == ix.keys[key := d] && ix'.max == ix.max && d.frequency == 1
    requires Inserted(ix.ranking, Entry(1, key), ix'.ranking)
    ensures Valid(ix')
  {
    AppendedIsFaithful(ix.keys, ix.ranking, key, d, ix'.ranking);
    AllRankedNothingAbove(ix'.keys, ix'.ranking);
  }

  lemma AddEarlyKeepsValid(ix: Index, key: string, url: string, port: nat)
    requires Valid(ix) && TakesEarlyExit(ix, key)
    ensures Valid(Add(ix, key, url, port))
  {
    EarlyExitUnranked(ix, key);
    var ix' := Add(ix, key, url, port);
    forall e | e in ix.ranking ensures e.key != key && ix.ranking[0].freq <= e.freq {
      InKeySet(ix.ranking, e);
    }
  }

  lemma AddKeepsValid(ix: Index, key: string, url: string, port: nat)
    requires Valid(ix)
    ensures Valid(Add(ix, key, url, port))
  {
    var prev, ix' := CountOf(ix.keys, key), Add(ix, key, url, port);
    var d := Details(url, port, prev + 1);
    if TakesEarlyExit(ix, key) {
      AddEarlyKeepsValid(ix, key, url, port);
    } else if key in KeySet(ix.ranking) {
      RankedPair(ix, key);
      RerankMovesUp(ix.ranking, prev, key, ix.max);
      MovedUpIsValid(ix, ix', key, d);
    } else if |ix.ranking| < ix.max {
      RoomRanksAll(ix);
      RerankAppends(ix.ranking, key, ix.max);
      AppendedIsValid(ix, ix', key, d);
    } else if ix.max > 0 {
      RerankReplaces(ix.ranking, prev, key);
      ReplacedIsValid(ix, ix', key, d);
    }
  }

  /** Skipping the long path changes nothing that can be observed in a report's counts: below the
      lowest ranked count the ranking would come out identical, at the lowest count the same
      frequencies in the same places. */
  lemma EarlyExitRefinesLongPath(ix: Index, key: string)
    requires Valid(ix) && TakesEarlyExit(ix, key)
    ensures Freqs(Reranked(ix, key)) == Freqs(ix.ranking)
    ensures CountOf(ix.keys, key) + 1 < Lowest(ix.ranking, 1) ==> Reranked(ix, key) == ix.ranking
  {
    EarlyExitUnranked(ix, key);
    RerankBelowBar(ix.ranking, CountOf(ix.keys, key), key);
  }

  lemma InsertBelowBar(r: seq<Entry>, e: Entry, i: nat)
    requires Sorted(r) && e.freq <= Lowest(r, 1) && i < |r|
    ensures Insert(r, e)[i + 1].freq == r[i].freq
    ensures e.freq < Lowest(r, 1) ==> Insert(r, e)[i + 1] == r[i]
  {
    var u := UpperBound(r, e.freq);
    if i < u {
      assert r[0].freq <= r[i].freq <= r[u - 1].freq;
      assert i + 1 < u ==> r[i + 1].freq <= r[u - 1].freq;
    }
  }

  lemma KeptUnranked(r: seq<Entry>, prev: nat, key: string)
    requires key !in KeySet(r)
    ensures Kept(r, prev, key) == r
  {
    EraseAbsent(r, Entry(prev, key));
  }

  lemma InsertDropBelowBar(r: seq<Entry>, e: Entry)
    requires Sorted(r) && e.freq <= Lowest(r, 1)
    ensures |Insert(r, e)| == |r| + 1 && Freqs(Insert(r, e)[1..]) == Freqs(r)
    ensures e.freq < Lowest(r, 1) ==> Insert(r, e)[1..] == r
  {
    var s := Insert(r, e);
    forall i | 0 <= i < |r|
      ensures s[i + 1].freq == r[i].freq && (e.freq < Lowest(r, 1) ==> s[i + 1] == r[i])
    {
      InsertBelowBar(r, e, i);
    }
    ShiftedAgree(r, s, e.freq < Lowest(r, 1));
  }

  lemma RerankBelowBar(r: seq<Entry>, prev: nat, key: string)
    requires Sorted(r) && key !in KeySet(r) && prev + 1 <= Lowest(r, 1)
    ensures Freqs(Rerank(r, prev, key, |r|)) == Freqs(r)
    ensures prev + 1 < Lowest(r, 1) ==> Rerank(r, prev, key, |r|) == r
  {
    KeptUnranked(r, prev, key);
    InsertDropBelowBar(r, Entry(prev + 1, key));
  }

  lemma ShiftedAgree(r: seq<Entry>, s: seq<Entry>, identical: bool)
    requires |s| == |r| + 1
    requires forall i :: 0 <= i < |r| ==> s[i + 1].freq == r[i].freq && (identical ==> s[i + 1] == r[i])
    ensures Freqs(s[1..]) == Freqs(r)
    ensures identical ==> s[1..] == r
  {
  }

  // ---------------------------------------------------------------- thresholds

  /** Once the ranking is full, an add keeps it full and never lowers the bar. The only key that can
      leave is the one at the front: the lowest count and, among equals, the oldest pair. The only
      key that can enter is the added one, and only by exceeding the bar strictly. */
  lemma AddMovesThresholdUp(ix: Index, key: string, url: string, port: nat)
    requires Valid(ix) && |ix.ranking| == ix.max > 0
    ensures var ix' := Add(ix, key, url, port);
            && |ix'.ranking| == ix.max
            && ix.ranking[0].freq <= ix'.ranking[0].freq
            && (forall k :: k in KeySet(ix.ranking) && k !in KeySet(ix'.ranking) ==> k == ix.ranking[0].key)
            && (forall k :: k !in KeySet(ix.ranking) && k in KeySet(ix'.ranking) ==>
                  k == key && ix'.keys[k].frequency > ix.ranking[0].freq)
  {
    var r, prev := ix.ranking, CountOf(ix.keys, key);
    if TakesEarlyExit(ix, key) {
    } else if key in KeySet(r) {
      RankedPair(ix, key);
      RerankMovesUp(r, prev, key, ix.max);
      LowestAfter(r, Reranked(ix, key), Entry(prev + 1, key));
    } else {
      RerankReplaces(r, prev, key);
      LowestAfter(r, Reranked(ix, key), Entry(prev + 1, key));
    }
  }

  lemma LowestAfter(r: seq<Entry>, r': seq<Entry>, e: Entry)
    requires Sorted(r) && r != [] && r[0].freq <= e.freq
    requires MovesUp(r, r', e) || Replaces(r, r', e)
    ensures |r'| == |r| && r[0].freq <= r'[0].freq
    ensures forall k :: k in KeySet(r) && k !in KeySet(r') ==> k == r[0].key
    ensures forall k :: k !in KeySet(r) && k in KeySet(r') ==> k == e.key && r[0].freq < e.freq
  {
    assert r'[0] in r';
  }

  // ---------------------------------------------------------------- queries

  lemma {:induction false} ReverseKeys(r: seq<Entry>)
    ensures KeySet(Reverse(r)) == KeySet(r)
  {
    if r != [] {
      var n := |r| - 1;
      assert Reverse(r) == [r[n]] + Reverse(r[..n]);
      KeySetConcat([r[n]], Reverse(r[..n]));
      ReverseKeys(r[..n]);
    }
  }

  /** Read from its high end, the ranking is a top list of the whole key map. */
  lemma RankingIsTopList(ix: Index)
    requires Valid(ix)
    ensures IsTopList(CountTable(ix.keys), Reverse(ix.ranking))
  {
    ReverseKeys(ix.ranking);
    ReverseOrder(ix.ranking);
    assert Agrees(CountTable(ix.keys), Reverse(ix.ranking));
  }

  lemma ReverseOrder(r: seq<Entry>)
    requires Sorted(r) && DistinctKeys(r)
    ensures Descending(Reverse(r)) && DistinctKeys(Reverse(r))
    ensures forall i :: 0 <= i < |r| ==> Reverse(r)[i] in r
  {
  }

  /** A report shows what sorting every key by count and taking the first ones would show. It has
      min(base, number of keys) lines exactly when the ranking is long enough for the base. */
  lemma ReportIsReference(ix: Index)
    requires Valid(ix)
    ensures IsTopList(CountTable(ix.keys), Report(ix))
    ensures Freqs(Report(ix)) == ReferenceReport(CountTable(ix.keys), |Report(ix)|)
    ensures |Report(ix)| == Min(ix.base, |ix.keys|) <==> ix.base <= ix.max || |ix.keys| <= ix.max
  {
    RankingIsTopList(ix);
    TopPrefix(CountTable(ix.keys), Reverse(ix.ranking), Min(ix.base, |ix.ranking|));
    TopListIsReference(CountTable(ix.keys), Report(ix));
  }

  /** With base <= max the report is the reference report of the base itself. */
  lemma ReportRefinesSort(ix: Index)
    requires Valid(ix) && ix.base <= ix.max
    ensures |Report(ix)| == Min(ix.base, |ix.keys|)
    ensures Freqs(Report(ix)) == ReferenceReport(CountTable(ix.keys), ix.base)
  {
    ReportIsReference(ix);
    SortIsFullSort(CountTable(ix.keys));
    assert CountTable(ix.keys).Keys == ix.keys.Keys;
  }

  lemma HotIsRanked(ix: Index, key: string)
    requires Valid(ix)
    ensures IsHot(ix, key) <==> key in KeySet(ix.ranking)
  {
    if key in KeySet(ix.ranking) {
      RankedPair(ix, key);
    }
    if IsHot(ix, key) {
      InKeySet(ix.ranking, Entry(ix.keys[key].frequency, key));
    }
  }

  /** The test of a hot key reaches its "frequency not in the ranking" return. */
  predicate MissesFrequency(ix: Index, key: string) {
    && key in ix.keys
    && ix.keys[key].frequency >= Lowest(ix.ranking, 0)
    && Find(ix.ranking, ix.keys[key].frequency) == |ix.ranking|
  }

  /** That return is dead code except in a manager whose maximum was narrowed to 0. */
  lemma MissOnlyWithoutRanking(ix: Index, key: string)
    requires Valid(ix)
    ensures MissesFrequency(ix, key) <==> key in ix.keys && ix.max == 0
  {
    if key in ix.keys && ix.max > 0 {
      var f := ix.keys[key].frequency;
      assert ix.keys != map[];
      assert ix.ranking[0] in ix.ranking;
      if key in KeySet(ix.ranking) {
        RankedPair(ix, key);
        var i :| 0 <= i < |ix.ranking| && ix.ranking[i] == Entry(f, key);
        assert ix.ranking[i].freq == f;
      } else if f >= Lowest(ix.ranking, 0) {
        assert ix.ranking[0].freq == f;
      }
    }
  }

  function KeysAbove(keys: KeyMap, f: nat): set<string> {
    set k | k in keys && keys[k].frequency > f
  }

  function KeysFrom(keys: KeyMap, f: nat): set<string> {
    set k | k in keys && keys[k].frequency >= f
  }

  /** A hot key is among the `max` most frequent; a key that is certainly among them is hot. */
  lemma HotRankBounds(ix: Index, key: string)
    requires Valid(ix) && key in ix.keys
    ensures IsHot(ix, key) ==> |KeysAbove(ix.keys, ix.keys[key].frequency)| < ix.max
    ensures |KeysFrom(ix.keys, ix.keys[key].frequency)| <= ix.max ==> IsHot(ix, key)
  {
    HotIsRanked(ix, key);
    KeySetSize(ix.ranking);
    var ranked, f := KeySet(ix.ranking), ix.keys[key].frequency;
    if IsHot(ix, key) {
      var above := KeysAbove(ix.keys, f);
      assert above + {key} <= ranked;
      SubsetSize(above + {key}, ranked);
    } else {
      if |ix.ranking| < ix.max {
        RoomRanksAll(ix);
      }
      forall k | k in ranked + {key} ensures k in KeysFrom(ix.keys, f) {
        if k != key {
          RankedPair(ix, k);
        }
      }
      SubsetSize(ranked + {key}, KeysFrom(ix.keys, f));
    }
  }

  /** A hot key need not be in the report: hotness is tested on the whole ranking. The two agree on
      every key exactly when the base covers the ranking. */
  lemma HotEqualsReported(ix: Index)
    requires Valid(ix)
    ensures (forall k :: IsHot(ix, k) <==> k in KeySet(Report(ix))) <==> |ix.ranking| <= ix.base
  {
    var all := Reverse(ix.ranking);
    ReverseKeys(ix.ranking);
    forall k ensures IsHot(ix, k) <==> k in KeySet(all) {
      HotIsRanked(ix, k);
    }
    if |ix.ranking| <= ix.base {
      assert Report(ix) == all;
    } else {
      KeyAt(all, ix.base);
      RankingIsTopList(ix);
      NotInPrefix(all, ix.base, ix.base);
      assert IsHot(ix, all[ix.base].key);
    }
  }

  lemma NotInPrefix(t: seq<Entry>, n: nat, i: nat)
    requires DistinctKeys(t) && n <= i < |t|
    ensures t[i].key !in KeySet(t[..n])
  {
    if t[i].key in KeySet(t[..n]) {
      var j := IndexOfKey(t[..n], t[i].key);
    }
  }

  // ---------------------------------------------------------------- sortedness alone

  lemma InsertKeepsSorted(r: seq<Entry>, e: Entry)
    requires Sorted(r)
    ensures Sorted(Insert(r, e))
  {
    var u := UpperBound(r, e.freq);
    assert forall i :: 0 <= i < u ==> r[i].freq <= r[u - 1].freq;
  }

  lemma EraseKeepsSorted(r: seq<Entry>, e: Entry)
    requires Sorted(r)
    ensures Sorted(Erase(r, e))
  {
  }

  lemma RerankKeepsSorted(r: seq<Entry>, prev: nat, key: string, max: nat)
    requires Sorted(r)
    ensures Sorted(Rerank(r, prev, key, max))
  {
    EraseKeepsSorted(r, Entry(prev, key));
    InsertKeepsSorted(Kept(r, prev, key), Entry(prev + 1, key));
  }
}
