/** A purge reads the report size before it has the mutex, so the length it cuts to may be stale by then.
    These are runs in which every purge carries the length it was clipped to. */
module Clipping {
  import opened Purging
  import opened RankingIndex
  import opened Runs

  /** A write as it was done: any other operation as a whole; a purge to n whose length was clipped when
      `read` writes were complete. */
  datatype Change = Whole(op: Op) | Cut(n: nat, length: nat, read: nat)

  function ApplyChange(ix: Index, c: Change): Index {
    match c
    case Whole(op) => Apply(ix, op)
    case Cut(_, length, _) => CutTo(ix, length)
  }

  function RunChanges(ix: Index, cs: seq<Change>): Index {
    if cs == [] then ix
    else ApplyChange(RunChanges(ix, cs[..|cs| - 1]), cs[|cs| - 1])
  }

  /** The call that was made. */
  function OpOf(c: Change): Op {
    match c
    case Whole(op) => op
    case Cut(n, _, _) => PurgeTo(n)
  }

  function AsOps(cs: seq<Change>): seq<Op> {
    if cs == [] then [] else AsOps(cs[..|cs| - 1]) + [OpOf(cs[|cs| - 1])]
  }

  lemma ChangesLast(ix: Index, cs: seq<Change>, c: Change)
    ensures RunChanges(ix, cs + [c]) == ApplyChange(RunChanges(ix, cs), c)
    ensures Run(ix, AsOps(cs + [c])) == Apply(Run(ix, AsOps(cs)), OpOf(c))
  {
    hide Apply, ApplyChange, OpOf;
    assert (cs + [c])[..|cs|] == cs;
    assert (AsOps(cs) + [OpOf(c)])[..|AsOps(cs)|] == AsOps(cs);
  }

  // ---------------------------------------------------------------- when it is a run of the operations

  /** After every number of writes the index is what the calls, taken one after the other, give. */
  ghost predicate Original(ix: Index, cs: seq<Change>) {
    forall i :: 0 <= i <= |cs| ==> RunChanges(ix, cs[..i]) == Run(ix, AsOps(cs[..i]))
  }

  /** Cutting to the length read before the mutex and to the length of a read under it is the same. */
  predicate ClippedRight(s: Index, c: Change) {
    c.Cut? ==> SameCut(s, c.length, ClampPurge(s, c.n))
  }

  predicate BothDefined(s: Index, c: Change) {
    c.Cut? ==> CutIsDefined(s, c.length) && PurgeIsDefined(s, c.n)
  }

  /** No purge of the run, with either length, erases what its own rend() refers to. */
  ghost predicate AllDefined(ix: Index, cs: seq<Change>) {
    forall i :: 0 <= i < |cs| ==> BothDefined(RunChanges(ix, cs[..i]), cs[i])
  }

  ghost predicate AllClippedRight(ix: Index, cs: seq<Change>) {
    forall i :: 0 <= i < |cs| ==> ClippedRight(RunChanges(ix, cs[..i]), cs[i])
  }

  lemma ClippedRightIff(s: Index, c: Change)
    requires BothDefined(s, c)
    ensures ApplyChange(s, c) == Apply(s, OpOf(c)) <==> ClippedRight(s, c)
  {
    if c.Cut? {
      SameCutIff(s, c.length, ClampPurge(s, c.n));
    }
  }

  lemma OriginalStep(ix: Index, cs: seq<Change>, c: Change)
    ensures Original(ix, cs + [c]) <==>
            Original(ix, cs) && ApplyChange(RunChanges(ix, cs), c) == Apply(RunChanges(ix, cs), OpOf(c))
  {
    hide RunChanges, Run, AsOps, Apply, ApplyChange, OpOf;
    ChangesLast(ix, cs, c);
    var all := cs + [c];
    assert forall i :: 0 <= i <= |cs| ==> all[..i] == cs[..i];
    assert all[..|all|] == all && cs[..|cs|] == cs;
    if Original(ix, all) {
      forall i | 0 <= i <= |cs| ensures RunChanges(ix, cs[..i]) == Run(ix, AsOps(cs[..i])) {
        assert all[..i] == cs[..i];
      }
    }
  }

  /** The run is one of the operations exactly if every purge was clipped to a length that cuts its index
      as a length read under the mutex would. */
  lemma {:induction false} OriginalIff(ix: Index, cs: seq<Change>)
    requires AllDefined(ix, cs)
    ensures Original(ix, cs) <==> AllClippedRight(ix, cs)
  {
    hide RunChanges, BothDefined, ClippedRight, Original;
    if cs == [] {
      OriginalAtFirst(ix);
    } else {
      var front, c := cs[..|cs| - 1], cs[|cs| - 1];
      assert cs == front + [c];
      assert forall i :: 0 <= i < |front| ==> front[..i] == cs[..i];
      OriginalIff(ix, front);
      ClippedRightIff(RunChanges(ix, front), c);
      OriginalStep(ix, front, c);
    }
  }

  lemma OriginalAtFirst(ix: Index)
    ensures Original(ix, [])
  {
  }

  // ---------------------------------------------------------------- while the report size stays

  /** Every length was clipped to the sizes of some moment not after the write. */
  ghost predicate ClipsAreTimely(ix: Index, cs: seq<Change>) {
    forall i :: 0 <= i < |cs| && cs[i].Cut? ==>
      cs[i].read <= i && cs[i].length == ClampPurge(RunChanges(ix, cs[..cs[i].read]), cs[i].n)
  }

  predicate NoResize(cs: seq<Change>) {
    forall i :: 0 <= i < |cs| ==> !OpOf(cs[i]).SetTop?
  }

  lemma {:induction false} SizesStay(ix: Index, cs: seq<Change>)
    requires NoResize(cs)
    ensures RunChanges(ix, cs).base == ix.base && RunChanges(ix, cs).max == ix.max
  {
    if cs != [] {
      SizesStay(ix, cs[..|cs| - 1]);
    }
  }

  /** Without size changes every run is one of the operations. */
  lemma {:induction false} OriginalWithoutResize(ix: Index, cs: seq<Change>)
    requires NoResize(cs) && ClipsAreTimely(ix, cs)
    ensures Original(ix, cs)
  {
    if cs != [] {
      var front, c := cs[..|cs| - 1], cs[|cs| - 1];
      assert cs == front + [c];
      forall i | 0 <= i < |front| && front[i].Cut?
        ensures front[i].read <= i && front[i].length == ClampPurge(RunChanges(ix, front[..front[i].read]), front[i].n)
      {
        assert front[i] == cs[i] && front[..front[i].read] == cs[..cs[i].read];
      }
      OriginalWithoutResize(ix, front);
      if c.Cut? {
        SizesStay(ix, cs[..c.read]);
        SizesStay(ix, front);
      }
      OriginalStep(ix, front, c);
    }
  }

  /** Nor without purges. */
  lemma {:induction false} OriginalWithoutPurge(ix: Index, cs: seq<Change>)
    requires forall i :: 0 <= i < |cs| ==> cs[i].Whole?
    ensures Original(ix, cs)
  {
    if cs != [] {
      var front, c := cs[..|cs| - 1], cs[|cs| - 1];
      assert cs == front + [c];
      OriginalWithoutPurge(ix, front);
      OriginalStep(ix, front, c);
    }
  }
}
