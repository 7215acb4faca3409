/** The reference the ranking is compared with: sort every key by its count and take the first n.

    Nothing here knows about the bounded ranking. A list is a "top list" of a count table when it is
    non-increasing, lists no key twice, and leaves out no key with a larger count than a listed one.
    The counts along a top list are determined by the table (TopListsAgree), so any way of keeping
    a top list reports the same frequencies as a full sort. */
module TopLists {

  /** One (count, key) pair of the frequency multimap, or one line of a report. */
  datatype Entry = Entry(freq: nat, key: string)

  type Counts = map<string, nat>

  function KeySet(t: seq<Entry>): set<string> {
    if t == [] then {} else KeySet(t[..|t| - 1]) + {t[|t| - 1].key}
  }

  function Freqs(t: seq<Entry>): seq<nat> {
    seq(|t|, i requires 0 <= i < |t| => t[i].freq)
  }

  predicate DistinctKeys(t: seq<Entry>) {
    forall i, j :: 0 <= i < j < |t| ==> t[i].key != t[j].key
  }

  predicate Descending(t: seq<Entry>) {
    forall i, j :: 0 <= i < j < |t| ==> t[i].freq >= t[j].freq
  }

  predicate Agrees(c: Counts, t: seq<Entry>) {
    forall i :: 0 <= i < |t| ==> t[i].key in c && c[t[i].key] == t[i].freq
  }

  ghost predicate IsTopList(c: Counts, t: seq<Entry>) {
    && DistinctKeys(t)
    && Descending(t)
    && Agrees(c, t)
    && forall k, i :: k in c && k !in KeySet(t) && 0 <= i < |t| ==> c[k] <= t[i].freq
  }

  /** A full sort: a top list with every key in it. */
  ghost predicate IsFullSort(c: Counts, t: seq<Entry>) {
    IsTopList(c, t) && KeySet(t) == c.Keys
  }

  // ---------------------------------------------------------------- cardinalities

  lemma SubsetSize<T>(a: set<T>, b: set<T>)
    requires a <= b
    ensures |a| <= |b|
    ensures |a| == |b| ==> a == b
  {
    assert b == a + (b - a);
    assert |b| == |a| + |b - a|;
    if |a| == |b| {
      assert b - a == {};
    }
  }

  // ---------------------------------------------------------------- key sets

  lemma {:induction false} KeyAt(t: seq<Entry>, i: nat)
    requires i < |t|
    ensures t[i].key in KeySet(t)
  {
    if i < |t| - 1 {
      KeyAt(t[..|t| - 1], i);
    }
  }

  lemma {:induction false} IndexOfKey(t: seq<Entry>, k: string) returns (i: nat)
    requires k in KeySet(t)
    ensures i < |t| && t[i].key == k
  {
    i := |t| - 1;
    if t[i].key != k {
      i := IndexOfKey(t[..i], k);
    }
  }

  lemma {:induction false} KeySetConcat(a: seq<Entry>, b: seq<Entry>)
    ensures KeySet(a + b) == KeySet(a) + KeySet(b)
  {
    if b == [] {
      assert a + b == a;
    } else {
      var n := |b| - 1;
      assert (a + b)[..|a| + n] == a + b[..n];
      KeySetConcat(a, b[..n]);
    }
  }

  lemma {:induction false} KeySetSize(t: seq<Entry>)
    requires DistinctKeys(t)
    ensures |KeySet(t)| == |t|
  {
    if t != [] {
      var n := |t| - 1;
      KeySetSize(t[..n]);
      if t[n].key in KeySet(t[..n]) {
        var i := IndexOfKey(t[..n], t[n].key);
      }
    }
  }

  // ---------------------------------------------------------------- top lists

  lemma TopPrefix(c: Counts, t: seq<Entry>, n: nat)
    requires IsTopList(c, t) && n <= |t|
    ensures IsTopList(c, t[..n])
  {
    forall k, i | k in c && k !in KeySet(t[..n]) && 0 <= i < n
      ensures c[k] <= t[i].freq
    {
      if k in KeySet(t) {
        var j := IndexOfKey(t, k);
        KeyInPrefix(t, n, j);
      }
    }
  }

  lemma KeyInPrefix(t: seq<Entry>, n: nat, j: nat)
    requires n <= |t| && j < |t|
    ensures j < n ==> t[j].key in KeySet(t[..n])
  {
    if j < n {
      KeyAt(t[..n], j);
    }
  }

  /** The i-th count of one top list is not above the i-th count of another: otherwise the i+1 keys
      up to position i would all have to sit among the first i positions of the other list. */
  lemma TopListDominates(c: Counts, a: seq<Entry>, b: seq<Entry>, i: nat)
    requires IsTopList(c, a) && IsTopList(c, b)
    requires i < |a| && i < |b|
    ensures a[i].freq <= b[i].freq
  {
    if a[i].freq > b[i].freq {
      var front, room := a[..i + 1], b[..i];
      forall k | k in KeySet(front) ensures k in KeySet(room) {
        var j := IndexOfKey(front, k);
        assert c[k] == a[j].freq >= a[i].freq;
        var l := IndexOfKey(b, k);
        KeyInPrefix(b, i, l);
      }
      KeySetSize(front);
      KeySetSize(room);
      SubsetSize(KeySet(front), KeySet(room));
    }
  }

  /** Two top lists of one table show the same counts, position by position. */
  lemma TopListsAgree(c: Counts, a: seq<Entry>, b: seq<Entry>)
    requires IsTopList(c, a) && IsTopList(c, b) && |a| == |b|
    ensures Freqs(a) == Freqs(b)
  {
    forall i | 0 <= i < |a| ensures a[i].freq == b[i].freq {
      TopListDominates(c, a, b, i);
      TopListDominates(c, b, a, i);
    }
  }

  // ---------------------------------------------------------------- the sort itself

  lemma {:induction false} LargestExists(c: Counts, ks: set<string>)
    requires ks != {} && ks <= c.Keys
    ensures exists k :: k in ks && forall j :: j in ks ==> c[j] <= c[k]
  {
    var k :| k in ks;
    if ks - {k} != {} {
      LargestExists(c, ks - {k});
      var m :| m in ks - {k} && forall j :: j in ks - {k} ==> c[j] <= c[m];
      if c[m] <= c[k] {
        assert forall j :: j in ks ==> j == k || j in ks - {k};
      } else {
        assert forall j :: j in ks ==> j == k || j in ks - {k};
      }
    } else {
      assert forall j :: j in ks ==> j == k || j in ks - {k};
    }
  }

  /** Selection sort of a whole count table, ties in no particular order. */
  ghost function SortByCount(c: Counts): seq<Entry>
    decreases |c|
  {
    if c == map[] then []
    else
      LargestExists(c, c.Keys);
      var k :| k in c && forall j :: j in c.Keys ==> c[j] <= c[k];
      [Entry(c[k], k)] + SortByCount(c - {k})
  }

  /** A largest key in front of a full sort of the rest gives a full sort. */
  lemma PrependLargest(c: Counts, k: string, rest: seq<Entry>)
    requires k in c && forall j :: j in c.Keys ==> c[j] <= c[k]
    requires IsFullSort(c - {k}, rest)
    ensures IsFullSort(c, [Entry(c[k], k)] + rest)
  {
    var e := Entry(c[k], k);
    KeySetConcat([e], rest);
    assert KeySet([e]) == {k};
    assert KeySet([e] + rest) == c.Keys;
    forall i | 0 <= i < |rest| ensures rest[i].key != k && rest[i].freq <= c[k] {
      KeyAt(rest, i);
    }
  }

  lemma {:induction false} SortIsFullSort(c: Counts)
    ensures IsFullSort(c, SortByCount(c)) && |SortByCount(c)| == |c|
    decreases |c|
  {
    if c != map[] {
      LargestExists(c, c.Keys);
      var t := SortByCount(c);
      var k, rest := t[0].key, t[1..];
      assert rest == SortByCount(c - {k});
      SortIsFullSort(c - {k});
      PrependLargest(c, k, rest);
      assert t == [Entry(c[k], k)] + rest;
      assert c.Keys == (c - {k}).Keys + {k};
    }
  }

  /** What a report of n keys should show: the n largest counts of the table, largest first. */
  ghost function ReferenceReport(c: Counts, n: nat): seq<nat> {
    var t := SortByCount(c);
    Freqs(t[..if n <= |t| then n else |t|])
  }

  /** Any top list shows what sorting everything and cutting would have shown. */
  lemma TopListIsReference(c: Counts, t: seq<Entry>)
    requires IsTopList(c, t)
    ensures Freqs(t) == ReferenceReport(c, |t|)
  {
    SortIsFullSort(c);
    KeySetSize(t);
    forall k | k in KeySet(t) ensures k in c {
      var i := IndexOfKey(t, k);
    }
    SubsetSize(KeySet(t), c.Keys);
    TopPrefix(c, SortByCount(c), |t|);
    TopListsAgree(c, t, SortByCount(c)[..|t|]);
  }
}
