/** purge: keep the highest pairs and forget all other keys. */
module Purging {
  import opened RankingIndex
  import opened Sequences
  import opened TopLists

  function Distance(a: int, b: int): nat {
    if a <= b then b - a else a - b
  }

  /** The number of keys a purge to n keeps: of the lengths from base to max, the one nearest to n. */
  function ClampPurge(ix: Index, n: nat): (c: nat)
    ensures ix.base <= ix.max ==> ix.base <= c <= ix.max
    ensures forall x :: ix.base <= x <= ix.max ==> Distance(c, n) <= Distance(x, n)
    ensures ix.base > ix.max ==> c == if n > ix.max then ix.max else ix.base
  {
    if n > ix.max then ix.max else if n < ix.base then ix.base else n
  }

  function Restrict(keys: KeyMap, r: seq<Entry>): KeyMap {
    map k | k in keys && k in KeySet(r) :: keys[k]
  }

  // ---------------------------------------------------------------- the loop as written

  /** Where the loop stands: what it has copied, the ranking, the place of base(), and whether it has
      erased the pair that its own rend() refers to, after which nothing is defined. */
  datatype Walk = Walk(newKeys: KeyMap, ranking: seq<Entry>, it: nat, undefined: bool)

  /** The loop from a reverse iterator whose base() is at it. A ranked key without details is erased;
      the reverse iterator then refers to the pair before it, and the increment skips that one. */
  function PurgeWalk(keys: KeyMap, r: seq<Entry>, it: nat, i: nat, n: nat, newKeys: KeyMap): Walk
    requires it <= |r|
    decreases n - i
  {
    if it == 0 || i >= n then Walk(newKeys, r, it, false)
    else
      var key := r[it - 1].key;
      if key in keys then PurgeWalk(keys, r, it - 1, i + 1, n, InsertKey(newKeys, key, keys[key]))
      else if it == 1 then Walk(newKeys, r, it, true)
      else PurgeWalk(keys, r[..it - 1] + r[it..], it - 2, i + 1, n, newKeys)
  }

  /** The loop to a clipped length c. */
  function WalkTo(ix: Index, c: nat): Walk {
    PurgeWalk(ix.keys, ix.ranking, |ix.ranking|, 0, c, map[])
  }

  predicate CutIsDefined(ix: Index, c: nat) {
    !WalkTo(ix, c).undefined
  }

  predicate PurgeIsDefined(ix: Index, n: nat) {
    CutIsDefined(ix, ClampPurge(ix, n))
  }

  /** The erase after the loop ends one place before base(). */
  function CutBelow(r: seq<Entry>, it: nat): seq<Entry> {
    if 0 < it <= |r| then r[it - 1..] else r
  }

  /** What purge does once it has clipped its length: all that it does under the mutex. */
  function CutTo(ix: Index, c: nat): Index {
    var w := WalkTo(ix, c);
    ix.(keys := w.newKeys, ranking := CutBelow(w.ranking, w.it))
  }

  function Purge(ix: Index, n: nat): Index {
    CutTo(ix, ClampPurge(ix, n))
  }

  /** The same purge with the erase ending at base(), on a ranking without orphans. */
  function PurgeCorrected(ix: Index, n: nat): Index {
    var c := ClampPurge(ix, n);
    ix.(keys := Restrict(ix.keys, TrimTo(ix.ranking, c)), ranking := TrimTo(ix.ranking, c))
  }

  // ---------------------------------------------------------------- without orphans, a cut

  lemma SuffixGrows(r: seq<Entry>, i: nat)
    requires i < |r|
    ensures KeySet(TrimTo(r, i + 1)) == KeySet(TrimTo(r, i)) + {r[|r| - 1 - i].key}
  {
    var x := r[|r| - 1 - i];
    assert TrimTo(r, i + 1) == [x] + TrimTo(r, i);
    KeySetConcat([x], TrimTo(r, i));
    assert KeySet([x]) == {x.key};
  }

  lemma RestrictGrows(keys: KeyMap, s: seq<Entry>, s': seq<Entry>, key: string)
    requires key in keys && KeySet(s') == KeySet(s) + {key}
    ensures Restrict(keys, s') == InsertKey(Restrict(keys, s), key, keys[key])
  {
  }

  lemma SameTrim(r: seq<Entry>, i: nat, n: nat)
    requires i == n || (i == |r| && i <= n)
    ensures TrimTo(r, i) == TrimTo(r, n)
  {
  }

  /** Erasing up to one place before base() keeps one pair more than was walked. */
  lemma CutBelowBase(r: seq<Entry>, n: nat, it: nat)
    requires it == |r| - Min(n, |r|)
    ensures TrimTo(r, n + 1) == if it != 0 then r[it - 1..] else r
  {
  }

  lemma SuffixesNest(r: seq<Entry>, i: nat, n: nat)
    requires i <= |r| && i <= n
    ensures KeySet(TrimTo(r, i)) <= KeySet(TrimTo(r, n))
  {
    var s, t := TrimTo(r, i), TrimTo(r, n);
    assert t == t[..|t| - |s|] + s;
    KeySetConcat(t[..|t| - |s|], s);
  }

  lemma {:induction false} WalkWithoutOrphans(keys: KeyMap, r: seq<Entry>, i: nat, n: nat)
    requires i <= |r| && i <= n && KeySet(TrimTo(r, n)) <= keys.Keys
    ensures PurgeWalk(keys, r, |r| - i, i, n, Restrict(keys, TrimTo(r, i))) ==
            Walk(Restrict(keys, TrimTo(r, n)), r, |r| - Min(n, |r|), false)
    decreases n - i
  {
    if i < |r| && i < n {
      SuffixGrows(r, i);
      SuffixesNest(r, i + 1, n);
      RestrictGrows(keys, TrimTo(r, i), TrimTo(r, i + 1), r[|r| - 1 - i].key);
      WalkWithoutOrphans(keys, r, i + 1, n);
    } else {
      SameTrim(r, i, n);
    }
  }

  lemma WalkIsCut(ix: Index, c: nat)
    requires KeySet(TrimTo(ix.ranking, c)) <= ix.keys.Keys
    ensures WalkTo(ix, c) ==
            Walk(Restrict(ix.keys, TrimTo(ix.ranking, c)), ix.ranking, |ix.ranking| - Min(c, |ix.ranking|), false)
  {
    assert Restrict(ix.keys, TrimTo(ix.ranking, 0)) == map[];
    WalkWithoutOrphans(ix.keys, ix.ranking, 0, c);
  }

  /** When none of the pairs to keep is an orphan, the key map shrinks to their keys and the ranking to
      one pair more. */
  lemma PurgeIsCut(ix: Index, n: nat)
    requires KeySet(TrimTo(ix.ranking, ClampPurge(ix, n))) <= ix.keys.Keys
    ensures PurgeIsDefined(ix, n)
    ensures Purge(ix, n).keys == PurgeCorrected(ix, n).keys
    ensures Purge(ix, n) == ix.(keys := Purge(ix, n).keys, ranking := TrimTo(ix.ranking, ClampPurge(ix, n) + 1))
  {
    var r, c := ix.ranking, ClampPurge(ix, n);
    WalkIsCut(ix, c);
    CutBelowBase(r, c, |r| - Min(c, |r|));
  }

  // ---------------------------------------------------------------- the index invariant

  lemma TrimFacts(r: seq<Entry>, m: nat)
    requires Sorted(r) && DistinctKeys(r)
    ensures Sorted(TrimTo(r, m)) && DistinctKeys(TrimTo(r, m)) && |TrimTo(r, m)| == Min(m, |r|)
    ensures KeySet(TrimTo(r, m)) <= KeySet(r)
    ensures forall e :: e in TrimTo(r, m) ==> e in r
  {
    SplitSeq(r, |r| - |TrimTo(r, m)|);
    SuffixFacts(r[..|r| - |TrimTo(r, m)|], TrimTo(r, m));
  }

  lemma SuffixFacts(a: seq<Entry>, b: seq<Entry>)
    requires Sorted(a + b) && DistinctKeys(a + b)
    ensures Sorted(b) && DistinctKeys(b) && KeySet(b) <= KeySet(a + b)
    ensures forall e :: e in b ==> e in a + b
  {
    KeySetConcat(a, b);
    forall i, j | 0 <= i < j < |b| ensures b[i].freq <= b[j].freq && b[i].key != b[j].key {
      assert b[i] == (a + b)[|a| + i] && b[j] == (a + b)[|a| + j];
    }
  }

  /** What a cut to the c highest pairs leaves on both sides. */
  lemma CutFacts(ix: Index, c: nat)
    requires Valid(ix)
    ensures var r' := TrimTo(ix.ranking, c);
            && Sorted(r') && DistinctKeys(r') && |r'| == Min(c, |ix.ranking|)
            && Faithful(ix.keys, r') && KeySet(r') == Restrict(ix.keys, r').Keys
            && |Restrict(ix.keys, r').Keys| == |r'|
  {
    var r' := TrimTo(ix.ranking, c);
    TrimFacts(ix.ranking, c);
    forall k | k in KeySet(r') ensures k in ix.keys {
      RankedPair(ix, k);
    }
    KeySetSize(r');
    assert KeySet(r') == Restrict(ix.keys, r').Keys;
  }

  /** A key that a cut drops never had a larger count than a key that stays. */
  lemma CutKeepsHighest(ix: Index, c: nat, k: string, j: string)
    requires Valid(ix)
    requires k in KeySet(TrimTo(ix.ranking, c)) && j in ix.keys && j !in KeySet(TrimTo(ix.ranking, c))
    ensures k in ix.keys && ix.keys[j].frequency <= ix.keys[k].frequency
  {
    var r, r' := ix.ranking, TrimTo(ix.ranking, c);
    var i := IndexOfKey(r', k);
    var d := |r| - |r'|;
    assert r' == r[d..] && r[i + d] in r;
    if j in KeySet(r) {
      var l := IndexOfKey(r, j);
      KeyInSuffix(r, d, l);
      assert r[l] in r;
    }
  }

  lemma KeyInSuffix(r: seq<Entry>, d: nat, l: nat)
    requires d <= |r| && l < |r|
    ensures d <= l ==> r[l].key in KeySet(r[d..])
  {
    if d <= l {
      KeyAt(r[d..], l - d);
    }
  }

  lemma PurgeCorrectedKeepsValid(ix: Index, n: nat)
    requires Valid(ix)
    ensures Valid(PurgeCorrected(ix, n))
    ensures var ix' := PurgeCorrected(ix, n);
            && KeySet(ix'.ranking) == ix'.keys.Keys
            && |ix'.ranking| == Min(ClampPurge(ix, n), |ix.ranking|)
            && forall k, j :: k in ix'.keys && j in ix.keys && j !in ix'.keys ==>
                 ix'.keys[k] == ix.keys[k] && ix.keys[j].frequency <= ix.keys[k].frequency
  {
    var ix' := PurgeCorrected(ix, n);
    CutFacts(ix, ClampPurge(ix, n));
    forall e | e in ix'.ranking ensures e.key in ix'.keys && ix'.keys[e.key].frequency == e.freq {
      InKeySet(ix'.ranking, e);
    }
    forall k, j | k in ix'.keys && j in ix.keys && j !in ix'.keys
      ensures ix.keys[j].frequency <= ix.keys[k].frequency
    {
      CutKeepsHighest(ix, ClampPurge(ix, n), k, j);
    }
  }

  /** Under the index invariant the loop meets no ranked key without details. */
  lemma PurgeMeetsNoOrphan(ix: Index, n: nat)
    requires Valid(ix)
    ensures KeySet(TrimTo(ix.ranking, ClampPurge(ix, n))) <= ix.keys.Keys
    ensures PurgeIsDefined(ix, n)
  {
    CutFacts(ix, ClampPurge(ix, n));
    PurgeIsCut(ix, n);
  }

  /** As written, a purge keeps the index exactly when it has nothing to cut from the ranking.
      When it cuts, the extra pair it leaves belongs to a key it has just forgotten. */
  lemma PurgeKeepsValidIff(ix: Index, n: nat)
    requires Valid(ix)
    ensures Valid(Purge(ix, n)) <==> |ix.ranking| <= ClampPurge(ix, n)
    ensures |ix.ranking| > ClampPurge(ix, n) ==>
              var ix' := Purge(ix, n);
              && |ix'.ranking| == ClampPurge(ix, n) + 1
              && ix'.ranking[0].key !in ix'.keys
              && ix'.ranking[1..] == PurgeCorrected(ix, n).ranking
              && ix'.keys == PurgeCorrected(ix, n).keys
  {
    PurgeMeetsNoOrphan(ix, n);
    PurgeIsCut(ix, n);
    PurgeCorrectedKeepsValid(ix, n);
    var ix', r, c := Purge(ix, n), ix.ranking, ClampPurge(ix, n);
    if |r| > c {
      CutLeavesOrphan(r, c);
      assert ix'.ranking[0] in ix'.ranking;
    } else {
      assert ix' == PurgeCorrected(ix, n);
    }
  }

  lemma CutLeavesOrphan(r: seq<Entry>, c: nat)
    requires DistinctKeys(r) && c < |r|
    ensures var s := TrimTo(r, c + 1);
            |s| == c + 1 && s[1..] == TrimTo(r, c) && s[0].key !in KeySet(TrimTo(r, c))
  {
    var d, kept := |r| - c, TrimTo(r, c);
    assert TrimTo(r, c + 1) == [r[d - 1]] + kept;
    if r[d - 1].key in KeySet(kept) {
      var i := IndexOfKey(kept, r[d - 1].key);
    }
  }

  // ---------------------------------------------------------------- a second purge

  lemma {:induction false} WalkReachesLowestOrphan(keys: KeyMap, r: seq<Entry>, i: nat, n: nat, acc: KeyMap)
    requires i < |r| <= n && r[0].key !in keys && forall p :: 1 <= p < |r| ==> r[p].key in keys
    ensures PurgeWalk(keys, r, |r| - i, i, n, acc).undefined
    decreases n - i
  {
    if i + 1 < |r| {
      var key := r[|r| - i - 1].key;
      WalkReachesLowestOrphan(keys, r, i + 1, n, InsertKey(acc, key, keys[key]));
    }
  }

  /** After a purge that cut, a later purge is defined exactly if it is to no larger length. A larger one
      walks into the pair without a key, the branch called unreachable in the source; it is the lowest
      pair, so the branch erases what rend() refers to and the loop is no longer defined. */
  lemma LaterPurgeIsDefinedIff(ix: Index, n: nat, n': nat)
    requires Valid(ix) && |ix.ranking| > ClampPurge(ix, n)
    ensures PurgeIsDefined(Purge(ix, n), n') <==> ClampPurge(Purge(ix, n), n') <= ClampPurge(ix, n)
  {
    PurgeKeepsValidIff(ix, n);
    PurgeCorrectedKeepsValid(ix, n);
    var ix' := Purge(ix, n);
    var r, c := ix'.ranking, ClampPurge(ix', n');
    if c <= ClampPurge(ix, n) {
      assert TrimTo(r, |r| - 1) == r[1..];
      SuffixesNest(r, c, |r| - 1);
      PurgeIsCut(ix', n');
    } else {
      forall p | 1 <= p < |r| ensures r[p].key in ix'.keys {
        KeyAt(r[1..], p - 1);
      }
      WalkReachesLowestOrphan(ix'.keys, r, 0, c, map[]);
    }
  }

  /** A purge that meets an orphan above the lowest pair erases it, and passes over the pair below it: the
      loop goes on beneath that pair, whose details it has not copied. */
  lemma OrphanCostsNext(keys: KeyMap, low: seq<Entry>, next: Entry, orphan: Entry, high: seq<Entry>, n: nat)
    requires orphan.key !in keys && KeySet(high) <= keys.Keys && |high| < n
    ensures var r := low + [next, orphan] + high;
            PurgeWalk(keys, r, |r|, 0, n, map[]) ==
            PurgeWalk(keys, low + [next] + high, |low|, |high| + 1, n, Restrict(keys, high))
  {
    var r := low + [next, orphan] + high;
    assert r[|r| - |high|..] == high;
    WalkIsCutAt(keys, r, |high|);
    WalkGoesOn(keys, r, |r|, 0, |high|, n, map[]);
    assert r[|low| + 1] == orphan;
    assert r[..|low| + 1] + r[|low| + 2..] == low + [next] + high;
  }

  lemma WalkIsCutAt(keys: KeyMap, r: seq<Entry>, n: nat)
    requires n <= |r| && KeySet(r[|r| - n..]) <= keys.Keys
    ensures PurgeWalk(keys, r, |r|, 0, n, map[]) == Walk(Restrict(keys, r[|r| - n..]), r, |r| - n, false)
  {
    assert TrimTo(r, n) == r[|r| - n..];
    WalkIsCut(Index(keys, r, 0, 0), n);
  }

  // ---------------------------------------------------------------- two lengths, one result

  /** The loop to a larger length goes on from where the loop to a smaller one stands. */
  lemma {:induction false} WalkGoesOn(keys: KeyMap, r: seq<Entry>, it: nat, i: nat, n: nat, n': nat, acc: KeyMap)
    requires it <= |r| && n <= n' && i <= n
    ensures var w := PurgeWalk(keys, r, it, i, n, acc);
            && w.it <= |w.ranking| && acc.Keys <= w.newKeys.Keys
            && PurgeWalk(keys, r, it, i, n', acc) ==
               if w.undefined then w else PurgeWalk(keys, w.ranking, w.it, n, n', w.newKeys)
    decreases n - i
  {
    if it != 0 && i < n {
      var key := r[it - 1].key;
      if key in keys {
        WalkGoesOn(keys, r, it - 1, i + 1, n, n', InsertKey(acc, key, keys[key]));
      } else if it != 1 {
        WalkGoesOn(keys, r[..it - 1] + r[it..], it - 2, i + 1, n, n', acc);
      }
    }
  }

  /** The loop never gives up a pair it has passed, nor the one below. */
  lemma {:induction false} WalkLeaves(keys: KeyMap, r: seq<Entry>, it: nat, i: nat, n: nat, acc: KeyMap)
    requires it <= |r| && !PurgeWalk(keys, r, it, i, n, acc).undefined
    ensures var w := PurgeWalk(keys, r, it, i, n, acc);
            && acc.Keys <= w.newKeys.Keys
            && |CutBelow(w.ranking, w.it)| >= |r| - it + Min(it, 1)
    decreases n - i
  {
    if it != 0 && i < n {
      var key := r[it - 1].key;
      if key in keys {
        WalkLeaves(keys, r, it - 1, i + 1, n, InsertKey(acc, key, keys[key]));
      } else {
        WalkLeaves(keys, r[..it - 1] + r[it..], it - 2, i + 1, n, acc);
      }
    }
  }

  /** The loop that stands here has nothing left that a further step would change: it has come to the
      end, or the lowest pair is all that is left and its key is copied already, or of the two pairs
      left the upper one is an orphan that the lower one repeats. */
  predicate NothingToGain(keys: KeyMap, w: Walk)
    requires w.it <= |w.ranking|
  {
    || w.it == 0
    || (w.it == 1 && w.ranking[0].key in w.newKeys)
    || (w.it == 2 && w.ranking[1].key !in keys && w.ranking[0] == w.ranking[1])
  }

  lemma FurtherStepsIff(keys: KeyMap, w: Walk, n: nat, n': nat)
    requires w.it <= |w.ranking| && w.newKeys.Keys <= keys.Keys && n < n'
    requires !PurgeWalk(keys, w.ranking, w.it, n, n', w.newKeys).undefined
    ensures var w' := PurgeWalk(keys, w.ranking, w.it, n, n', w.newKeys);
            w'.newKeys == w.newKeys && CutBelow(w'.ranking, w'.it) == CutBelow(w.ranking, w.it)
            <==> NothingToGain(keys, w)
  {
    if w.it > 0 && w.ranking[w.it - 1].key in keys {
      FurtherCopy(keys, w, n, n');
    } else if w.it > 0 {
      FurtherErase(keys, w, n, n');
    }
  }

  /** The further step copies a key. */
  lemma FurtherCopy(keys: KeyMap, w: Walk, n: nat, n': nat)
    requires 0 < w.it <= |w.ranking| && w.newKeys.Keys <= keys.Keys && n < n' && w.ranking[w.it - 1].key in keys
    requires !PurgeWalk(keys, w.ranking, w.it, n, n', w.newKeys).undefined
    ensures var w' := PurgeWalk(keys, w.ranking, w.it, n, n', w.newKeys);
            w'.newKeys == w.newKeys && CutBelow(w'.ranking, w'.it) == CutBelow(w.ranking, w.it)
            <==> w.it == 1 && w.ranking[0].key in w.newKeys
  {
    var key := w.ranking[w.it - 1].key;
    WalkLeaves(keys, w.ranking, w.it - 1, n + 1, n', InsertKey(w.newKeys, key, keys[key]));
  }

  /** The further step erases an orphan. */
  lemma FurtherErase(keys: KeyMap, w: Walk, n: nat, n': nat)
    requires 0 < w.it <= |w.ranking| && n < n' && w.ranking[w.it - 1].key !in keys
    requires !PurgeWalk(keys, w.ranking, w.it, n, n', w.newKeys).undefined
    ensures var w' := PurgeWalk(keys, w.ranking, w.it, n, n', w.newKeys);
            w'.newKeys == w.newKeys && CutBelow(w'.ranking, w'.it) == CutBelow(w.ranking, w.it)
            <==> w.it == 2 && w.ranking[0] == w.ranking[1]
  {
    var r' := w.ranking[..w.it - 1] + w.ranking[w.it..];
    WalkLeaves(keys, r', w.it - 2, n + 1, n', w.newKeys);
    if w.it == 2 {
      assert r' == [w.ranking[0]] + w.ranking[2..] && CutBelow(w.ranking, 2) == [w.ranking[1]] + w.ranking[2..];
    }
  }

  /** Two lengths cut an index in the same way. */
  predicate SameCut(ix: Index, c: nat, c': nat) {
    WalkIsInside(ix, Min(c, c'));
    c == c' || NothingToGain(ix.keys, WalkTo(ix, Min(c, c')))
  }

  lemma {:induction false} WalkCopies(keys: KeyMap, r: seq<Entry>, it: nat, i: nat, n: nat, acc: KeyMap)
    requires it <= |r| && acc.Keys <= keys.Keys
    ensures var w := PurgeWalk(keys, r, it, i, n, acc); w.it <= |w.ranking| && w.newKeys.Keys <= keys.Keys
    decreases n - i
  {
    if it != 0 && i < n {
      var key := r[it - 1].key;
      if key in keys {
        WalkCopies(keys, r, it - 1, i + 1, n, InsertKey(acc, key, keys[key]));
      } else if it != 1 {
        WalkCopies(keys, r[..it - 1] + r[it..], it - 2, i + 1, n, acc);
      }
    }
  }

  lemma WalkIsInside(ix: Index, c: nat)
    ensures WalkTo(ix, c).it <= |WalkTo(ix, c).ranking| && WalkTo(ix, c).newKeys.Keys <= ix.keys.Keys
  {
    WalkCopies(ix.keys, ix.ranking, |ix.ranking|, 0, c, map[]);
  }

  /** Cutting any index to two lengths gives the same result exactly if the loop to the smaller one comes
      to where a further step changes nothing. */
  lemma SameCutIff(ix: Index, c: nat, c': nat)
    requires CutIsDefined(ix, c) && CutIsDefined(ix, c')
    ensures CutTo(ix, c) == CutTo(ix, c') <==> SameCut(ix, c, c')
  {
    if c != c' {
      var lo, hi := Min(c, c'), c + c' - Min(c, c');
      WalkIsInside(ix, lo);
      WalkGoesOn(ix.keys, ix.ranking, |ix.ranking|, 0, lo, hi, map[]);
      FurtherStepsIff(ix.keys, WalkTo(ix, lo), lo, hi);
    }
  }

  /** In a valid index that is when both lengths keep the same number of pairs. */
  lemma SameCutWhenValid(ix: Index, c: nat, c': nat)
    requires Valid(ix)
    ensures CutIsDefined(ix, c)
    ensures SameCut(ix, c, c') <==> Min(c, |ix.ranking|) == Min(c', |ix.ranking|)
  {
    WalkWhenValid(ix, c);
    WalkWhenValid(ix, Min(c, c'));
    WalkIsInside(ix, Min(c, c'));
  }

  lemma WalkWhenValid(ix: Index, c: nat)
    requires Valid(ix)
    ensures var w := WalkTo(ix, c);
            && w.it <= |w.ranking|
            && !w.undefined && w.it == |ix.ranking| - Min(c, |ix.ranking|)
            && (NothingToGain(ix.keys, w) <==> w.it == 0)
  {
    hide NothingToGain, WalkTo, Restrict, Valid;
    var r := ix.ranking;
    RankedAreStored(ix, c);
    WalkIsCut(ix, c);
    StillToGain(ix.keys, r, |r| - Min(c, |r|), Restrict(ix.keys, TrimTo(r, c)));
  }

  lemma RankedAreStored(ix: Index, c: nat)
    requires Valid(ix)
    ensures var r := ix.ranking;
            && DistinctKeys(r) && (forall i :: 0 <= i < |r| ==> r[i].key in ix.keys)
            && Restrict(ix.keys, TrimTo(r, c)).Keys <= KeySet(r[|r| - Min(c, |r|)..])
            && KeySet(TrimTo(r, c)) <= ix.keys.Keys
  {
    CutFacts(ix, c);
    assert forall i :: 0 <= i < |ix.ranking| ==> ix.ranking[i] in ix.ranking;
  }

  lemma StillToGain(keys: KeyMap, r: seq<Entry>, it: nat, copied: KeyMap)
    requires DistinctKeys(r) && it <= |r| && copied.Keys <= KeySet(r[it..])
    requires forall i :: 0 <= i < |r| ==> r[i].key in keys
    ensures NothingToGain(keys, Walk(copied, r, it, false)) <==> it == 0
  {
    if it == 1 && r[0].key in KeySet(r[it..]) {
      var i := IndexOfKey(r[it..], r[0].key);
    }
  }

  // ---------------------------------------------------------------- sortedness alone

  lemma {:induction false} WalkKeepsSorted(keys: KeyMap, r: seq<Entry>, it: nat, i: nat, n: nat, acc: KeyMap)
    requires it <= |r| && Sorted(r)
    ensures Sorted(PurgeWalk(keys, r, it, i, n, acc).ranking)
    decreases n - i
  {
    if it != 0 && i < n {
      var key := r[it - 1].key;
      if key in keys {
        WalkKeepsSorted(keys, r, it - 1, i + 1, n, InsertKey(acc, key, keys[key]));
      } else if it != 1 {
        WalkKeepsSorted(keys, r[..it - 1] + r[it..], it - 2, i + 1, n, acc);
      }
    }
  }

  lemma PurgeKeepsSorted(ix: Index, n: nat)
    requires Sorted(ix.ranking)
    ensures Sorted(Purge(ix, n).ranking)
  {
    WalkKeepsSorted(ix.keys, ix.ranking, |ix.ranking|, 0, ClampPurge(ix, n), map[]);
  }
}
