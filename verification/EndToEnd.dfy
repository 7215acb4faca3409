/** Results across the components: payloads to queue to index to files and back. */
module EndToEnd {
  import opened BackupText
  import opened Decimal
  import opened MessageQueue
  import opened MessageServer
  import opened RankingIndex
  import opened Rotation
  import opened Runs

  // ---------------------------------------------------------------- what the server can put on the queue

  /** The message was made by keySent or by an accepted size request. */
  ghost predicate FromServer(m: Message) {
    (exists data :: m == KeyMessage(data)) || (exists n :: m == SizeRequest(n))
  }

  /** One comma at most, and no newline before it. */
  predicate CleanPayload(data: string) {
    ',' !in AfterKey(data) && '\n' !in KeyPart(data)
  }

  ghost predicate FromCleanServer(m: Message) {
    (exists data :: m == KeyMessage(data) && CleanPayload(data)) || (exists n :: m == SizeRequest(n))
  }

  predicate ServerOp(op: Op) {
    op.AddKey? ==> ',' !in op.key && op.port == 0
  }

  predicate CleanOp(op: Op) {
    op.AddKey? ==> ',' !in op.url && '\n' !in op.key
  }

  lemma KeyMessageFacts(data: string)
    ensures var m := KeyMessage(data);
            && m.cmd.AddKeyCommand? && m.number == 0 && ',' !in m.str1
            && (CleanPayload(data) ==> ',' !in m.str2 && '\n' !in m.str1)
  {
    PayloadSplits(data);
  }

  lemma ServerMessageOps(m: Message)
    requires FromServer(m)
    ensures forall i :: 0 <= i < |OpsOf(m)| ==> ServerOp(OpsOf(m)[i])
  {
    if data :| m == KeyMessage(data) {
      KeyMessageFacts(data);
    }
  }

  lemma CleanMessageOps(m: Message)
    requires FromCleanServer(m)
    ensures forall i :: 0 <= i < |OpsOf(m)| ==> CleanOp(OpsOf(m)[i])
  {
    if data :| m == KeyMessage(data) && CleanPayload(data) {
      KeyMessageFacts(data);
    }
  }

  lemma {:induction false} ServerOps(ps: seq<Pointer>)
    requires forall i :: 0 <= i < |ps| ==> FromServer(ps[i].msg)
    ensures |AllOps(ps)| <= |ps|
    ensures forall i :: 0 <= i < |AllOps(ps)| ==> ServerOp(AllOps(ps)[i])
    ensures (forall i :: 0 <= i < |ps| ==> FromCleanServer(ps[i].msg)) ==>
              forall i :: 0 <= i < |AllOps(ps)| ==> CleanOp(AllOps(ps)[i])
  {
    if ps != [] {
      ServerOps(ps[..|ps| - 1]);
      ServerMessageOps(ps[|ps| - 1].msg);
      if FromCleanServer(ps[|ps| - 1].msg) {
        CleanMessageOps(ps[|ps| - 1].msg);
      }
    }
  }

  lemma {:induction false} AddsAreOps(ops: seq<Op>)
    ensures |AddedKeys(ops)| <= |ops|
  {
    if ops != [] {
      AddsAreOps(ops[..|ops| - 1]);
    }
  }

  lemma CountAtMost<T>(s: seq<T>, x: T)
    ensures multiset(s)[x] <= |s|
  {
    var m := multiset(s);
    assert |m| == |s|;
    assert m == m[x := 0] + multiset([])[x := m[x]];
  }

  /** What a server history leaves stored under a key. */
  lemma StoredByServer(ix: Index, ops: seq<Op>, k: string)
    requires ix.keys == map[] && Tracking(ops) && |ops| < TWO_64
    requires forall i :: 0 <= i < |ops| ==> ServerOp(ops[i])
    requires k in Run(ix, ops).keys
    ensures var d := Run(ix, ops).keys[k];
            && ',' !in k && d.port == 0 && d.frequency < TWO_64
            && ((forall i :: 0 <= i < |ops| ==> CleanOp(ops[i])) ==> ',' !in d.url && '\n' !in k)
  {
    RunCountsHistory(ix, ops);
    assert KeyHistory(Run(ix, ops).keys, ops, k);
    var last := LastAdd(ops, k);
    assert ServerOp(ops[last - 1]);
    AddsAreOps(ops);
    CountAtMost(AddedKeys(ops), k);
  }

  /** A manager fed by onMessage through the queue can be backed up in every reachable state, whatever
      the interleaving, exactly if no stored url has a comma and no ranked key has a newline: commas
      in keys and large ports cannot arise. */
  lemma ServerStateStorableIff(ix: Index, es: seq<Event>)
    requires ix.keys == map[] && ix.ranking == [] && ix.base <= ix.max
    requires |Exec(NewQueue(ix), es).accepted| < TWO_64
    requires forall p :: p in Exec(NewQueue(ix), es).accepted ==> FromServer(p.msg)
    ensures var s := Exec(NewQueue(ix), es).index;
            && Valid(s)
            && (Storable(s) <==> NewlineFree(s.ranking) && forall k :: k in s.keys ==> ',' !in s.keys[k].url)
  {
    var ops := ServerHistory(ix, es);
    var s := Exec(NewQueue(ix), es).index;
    TrackedState(ix, ops);
    forall k | k in s.keys ensures ',' !in k && s.keys[k].port == 0 && s.keys[k].frequency < TWO_64 {
      StoredByServer(ix, ops, k);
    }
    forall e | e in s.ranking ensures e.freq < TWO_64 {
      assert e.key in s.keys;
    }
  }

  /** The operations the consumer has seen, and what the server guarantees about them. */
  lemma ServerHistory(ix: Index, es: seq<Event>) returns (ops: seq<Op>)
    requires |Exec(NewQueue(ix), es).accepted| < TWO_64
    requires forall p :: p in Exec(NewQueue(ix), es).accepted ==> FromServer(p.msg)
    ensures Exec(NewQueue(ix), es).index == Run(ix, ops)
    ensures Tracking(ops) && |ops| < TWO_64
    ensures forall i :: 0 <= i < |ops| ==> ServerOp(ops[i])
    ensures (forall p :: p in Exec(NewQueue(ix), es).accepted ==> FromCleanServer(p.msg)) ==>
              forall i :: 0 <= i < |ops| ==> CleanOp(ops[i])
  {
    var s := Exec(NewQueue(ix), es);
    QueueIsFifo(ix, es);
    var ps := Consumed(s);
    assert forall i :: 0 <= i < |ps| ==> ps[i] == s.accepted[i] && ps[i] in s.accepted;
    ServerOps(ps);
    OpsAreTracking(ps);
    ops := AllOps(ps);
  }

  /** With clean payloads every reachable state survives a backup and a restore unchanged. */
  lemma CleanTrafficRoundTrips(ix: Index, es: seq<Event>, target: Index)
    requires ix.keys == map[] && ix.ranking == [] && ix.base <= ix.max
    requires |Exec(NewQueue(ix), es).accepted| < TWO_64
    requires forall p :: p in Exec(NewQueue(ix), es).accepted ==> FromServer(p.msg) && FromCleanServer(p.msg)
    ensures var s := Exec(NewQueue(ix), es).index;
            Restore(target, KeyFile(s.keys), RankText(s.ranking)) ==
            (Completed, target.(keys := s.keys, ranking := s.ranking))
  {
    var s := Exec(NewQueue(ix), es).index;
    ServerStateStorableIff(ix, es);
    var ops := ServerHistory(ix, es);
    forall k | k in s.keys ensures ',' !in s.keys[k].url && '\n' !in k {
      StoredByServer(ix, ops, k);
    }
    forall e | e in s.ranking ensures '\n' !in e.key {
      assert e.key in s.keys;
    }
    RoundTripIff(s, target);
  }

  // ---------------------------------------------------------------- any slot brings its state back

  /** What the backups of some states write. */
  ghost function Dumps(states: seq<Index>): seq<Snapshot> {
    seq(|states|, i requires 0 <= i < |states| => Snapshot(KeyFile(states[i].keys), RankText(states[i].ranking)))
  }

  /** After any number of backups of any states, the files of slot i restore the state of i backups ago,
      if that state was storable. */
  lemma SlotRestoresState(keyName: string, freqName: string, states: seq<Index>, i: nat, target: Index)
    requires Apart(keyName, freqName) && i < SLOTS && i < |states|
    requires Sorted(states[|states| - 1 - i].ranking) && Storable(states[|states| - 1 - i])
    ensures var d, ix := AfterBackups(keyName, freqName, Dumps(states)), states[|states| - 1 - i];
            && Slot(keyName, i) in d && Slot(freqName, i) in d
            && Restore(target, d[Slot(keyName, i)], d[Slot(freqName, i)]) ==
               (Completed, target.(keys := ix.keys, ranking := ix.ranking))
  {
    BackupsKeepLog(keyName, freqName, Dumps(states));
    SlotHoldsDump(AfterBackups(keyName, freqName, Dumps(states)), keyName, freqName, states, i);
    RoundTripIff(states[|states| - 1 - i], target);
  }

  lemma SlotHoldsDump(d: Directory, keyName: string, freqName: string, states: seq<Index>, i: nat)
    requires IsLog(d, keyName, freqName, Dumps(states)) && i < SLOTS && i < |states|
    ensures var ix := states[|states| - 1 - i];
            && FileAt(d, Slot(keyName, i)) == Present(KeyFile(ix.keys))
            && FileAt(d, Slot(freqName, i)) == Present(RankText(ix.ranking))
  {
    hide KeyFile, RankText;
    DumpAt(states, |states| - 1 - i);
    LogAt(d, keyName, freqName, Dumps(states), i);
  }

  lemma DumpAt(states: seq<Index>, j: nat)
    requires j < |states|
    ensures |Dumps(states)| == |states|
    ensures Dumps(states)[j] == Snapshot(KeyFile(states[j].keys), RankText(states[j].ranking))
  {
  }
}
