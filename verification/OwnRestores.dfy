/** What the tracker makes of its own backups: which payload histories give a backup whose restore throws
    and leaves readers blocked, and what a restore that completes gives back. */
module OwnRestores {
  import opened BackupText
  import opened Blocking
  import opened Decimal
  import opened Delivery
  import opened LockProtocol
  import opened MessageQueue
  import opened MessageServer
  import opened RankingIndex
  import opened Runs
  import opened TextStream

  // ---------------------------------------------------------------- one record

  /** What follows the first comma of a url begins with a number that fits an int. */
  predicate UrlConverts(url: string) {
    ',' in url ==> Stoi(TailOf(url, ',')).Value?
  }

  /** The port that a restore finds behind a url, for a record that was stored with port 0. */
  function PortBehind(url: string): nat {
    if ',' in url && UrlConverts(url) then Stoi(TailOf(url, ',')).v % TWO_32 else 0
  }

  predicate LineUrl(url: string) {
    '\n' !in TailOf(url, ',')
  }

  lemma RecordWithoutPort(d: Details)
    requires d.port == 0 && d.frequency < TWO_64
    ensures ReadsBack(d) <==> UrlConverts(d.url)
    ensures AsRead(d) == Details(HeadOf(d.url, ','), PortBehind(d.url), d.frequency)
    ensures LineUrl(d.url) ==> '\n' !in PortText(d)
  {
    StoiReadsText(0);
    TextHasNo(0, '\n');
    StoiStopsAtComma(TailOf(d.url, ','), ToText(0));
  }

  /** A restore mends the record of a payload with a port: stored are a url that ends in the port, and
      port 0; restored are the url and the port. */
  lemma RestoreMendsRecord(key: string, url: string, port: nat, count: nat)
    requires ',' !in key && ',' !in url && port < TWO_31 && count < TWO_64
    ensures var m := KeyMessage(key + [','] + (url + [','] + ToText(port)));
            && m.str1 == key && m.number == 0
            && ReadsBack(Details(m.str2, m.number, count))
            && AsRead(Details(m.str2, m.number, count)) == Details(url, port, count)
  {
    hide KeyMessage, ReadsBack, AsRead, Stoi, ToText, HeadOf, TailOf;
    var text := url + [','] + ToText(port);
    MessageOfParts(key, text);
    FirstComma(url, ToText(port));
    StoiReadsText(port);
    RecordWithoutPort(Details(text, 0, count));
  }

  lemma MessageOfParts(key: string, text: string)
    requires ',' !in key
    ensures var m := KeyMessage(key + [','] + text); m.str1 == key && m.str2 == text && m.number == 0
  {
    hide HeadOf, TailOf, PortOf;
    FirstComma(key, text);
  }

  /** A negative number behind the url is read back modulo 2^32; the port that it gives cannot be read back
      another time. */
  lemma NegativePortWraps(url: string, n: nat, count: nat)
    requires ',' !in url && 0 < n <= TWO_31 && count < TWO_64
    ensures var d := Details(url + [','] + ("-" + ToText(n)), 0, count);
            ReadsBack(d) && AsRead(d) == Details(url, TWO_32 - n, count) && !ReadsBack(AsRead(d))
  {
    hide ReadsBack, AsRead, Stoi, ToText, HeadOf, TailOf, PortText;
    var text := "-" + ToText(n);
    FirstComma(url, text);
    SignedTextReads("", n);
    assert "" + text == text;
    RecordWithoutPort(Details(url + [','] + text, 0, count));
    CommaFreeReads(Details(url, TWO_32 - n, count));
  }

  lemma FirstComma(a: string, t: string)
    requires ',' !in a
    ensures ',' in a + [','] + t && HeadOf(a + [','] + t, ',') == a && TailOf(a + [','] + t, ',') == t
  {
    IndexOfFirst(a, ',', t);
    assert (a + [','] + t)[|a|] == ',';
  }

  // ---------------------------------------------------------------- histories of payloads

  /** No newline in the key, nor behind a second comma. */
  predicate LinePayload(data: string) {
    '\n' !in KeyPart(data) && LineUrl(AfterKey(data))
  }

  ghost predicate FromLineServer(m: Message) {
    (exists data :: m == KeyMessage(data) && LinePayload(data)) || (exists n :: m == SizeRequest(n))
  }

  /** What such a message carries. */
  lemma LineMessageFacts(m: Message)
    requires FromLineServer(m) && m.cmd.AddKeyCommand?
    ensures m.number == 0 && ',' !in m.str1 && '\n' !in m.str1 && LineUrl(m.str2)
  {
    var data :| m == KeyMessage(data) && LinePayload(data);
    KeyMessageCarries(data);
  }

  /** The traffic of a run of the queue: fewer than 2^64 messages, all made by the server from payloads
      that keep to their lines. */
  ghost predicate LineTraffic(ix: Index, es: seq<MessageQueue.Event>) {
    && ix.keys == map[] && ix.ranking == [] && ix.base <= ix.max
    && |MessageQueue.Exec(NewQueue(ix), es).accepted| < TWO_64
    && forall p :: p in MessageQueue.Exec(NewQueue(ix), es).accepted ==> FromLineServer(p.msg)
  }

  /** What the consumer has seen so far. */
  function Seen(ix: Index, es: seq<MessageQueue.Event>): seq<Pointer> {
    Consumed(MessageQueue.Exec(NewQueue(ix), es))
  }

  ghost predicate LineMessages(ps: seq<Pointer>) {
    |ps| < TWO_64 && forall i :: 0 <= i < |ps| ==> FromLineServer(ps[i].msg)
  }

  lemma SeenByServer(ix: Index, es: seq<MessageQueue.Event>)
    requires LineTraffic(ix, es)
    ensures MessageQueue.Exec(NewQueue(ix), es).index == Run(ix, AllOps(Seen(ix, es))) && LineMessages(Seen(ix, es))
  {
    var s := MessageQueue.Exec(NewQueue(ix), es);
    QueueIsFifo(ix, es);
    var ps := Consumed(s);
    assert forall i :: 0 <= i < |ps| ==> ps[i] == s.accepted[i] && ps[i] in s.accepted;
  }

  /** The url part of the last payload seen for a key. */
  function LastUrl(ps: seq<Pointer>, k: string): string
    requires LastSent(ps, k) > 0
  {
    ps[LastSent(ps, k) - 1].msg.str2
  }

  /** For every key seen, what follows the first comma of the url part of its last payload, if there is
      one, begins with a number that fits an int. */
  ghost predicate LastUrlsConvert(ps: seq<Pointer>) {
    forall k :: LastSent(ps, k) > 0 ==> UrlConverts(LastUrl(ps, k))
  }

  /** The record of a key after such messages. */
  lemma StoredRecord(ix: Index, ps: seq<Pointer>, k: string)
    requires ix.keys == map[] && LineMessages(ps)
    ensures k in Run(ix, AllOps(ps)).keys <==> LastSent(ps, k) > 0
    ensures LastSent(ps, k) > 0 ==>
              var d := Run(ix, AllOps(ps)).keys[k];
              && ',' !in k && '\n' !in k && d == Details(LastUrl(ps, k), 0, TimesSent(ps, k))
              && d.frequency < TWO_64 && LineUrl(d.url)
  {
    StoredOfMessages(ix, ps, k);
    if LastSent(ps, k) > 0 {
      LineMessageFacts(ps[LastSent(ps, k) - 1].msg);
    }
  }

  lemma HistoryIsSeparable(ix: Index, ps: seq<Pointer>)
    requires ix.keys == map[] && ix.ranking == [] && ix.base <= ix.max && LineMessages(ps)
    ensures Separable(Run(ix, AllOps(ps)))
    ensures NumbersConvert(Run(ix, AllOps(ps))) <==> LastUrlsConvert(ps)
  {
    hide Run, AllOps, FromLineServer, PortText, ReadsBack, UrlConverts, LineUrl, AsRead;
    var s := Run(ix, AllOps(ps));
    OpsAreTracking(ps);
    TrackedState(ix, AllOps(ps));
    forall k
      ensures k in s.keys <==> LastSent(ps, k) > 0
      ensures k in s.keys ==>
                && ',' !in k && '\n' !in k && '\n' !in PortText(s.keys[k]) && s.keys[k].frequency < TWO_64
                && (ReadsBack(s.keys[k]) <==> UrlConverts(LastUrl(ps, k)))
    {
      StoredRecord(ix, ps, k);
      if k in s.keys {
        RecordWithoutPort(s.keys[k]);
      }
    }
    forall e | e in s.ranking ensures '\n' !in e.key && e.freq < TWO_64 {
      assert e.key in s.keys;
    }
  }

  /** What a restore of the backup after such messages gives back: the last url of each key cut at its
      first comma, the port that stands behind it, and the number of adds. */
  ghost function Mended(ps: seq<Pointer>, keys: KeyMap): KeyMap
    requires forall k :: k in keys ==> LastSent(ps, k) > 0
  {
    map k | k in keys ::
      Details(HeadOf(LastUrl(ps, k), ','), PortBehind(LastUrl(ps, k)), TimesSent(ps, k))
  }

  /** A restore of the tracker's own backup, made in any state that payloads lead to in any interleaving,
      completes exactly if the last url of every key converts; and then all counts and the ranking come
      back, the urls cut at their first comma, and the ports of three-part payloads. */
  lemma OwnBackupRestoresIff(ix: Index, es: seq<MessageQueue.Event>, target: Index)
    requires LineTraffic(ix, es)
    ensures var s := MessageQueue.Exec(NewQueue(ix), es); var ps := Seen(ix, es);
            && (forall k :: k in s.index.keys ==> LastSent(ps, k) > 0)
            && (FilesParse(KeyFile(s.index.keys), RankText(s.index.ranking)) <==> LastUrlsConvert(ps))
            && (LastUrlsConvert(ps) ==>
                Restore(target, KeyFile(s.index.keys), RankText(s.index.ranking)) ==
                (Completed, target.(keys := Mended(ps, s.index.keys), ranking := s.index.ranking)))
  {
    hide MessageQueue.Exec, Seen, Separable, Restore, FilesParse, KeyFile, RankText, NumbersConvert, LastUrlsConvert;
    var s := MessageQueue.Exec(NewQueue(ix), es);
    SeenByServer(ix, es);
    HistoryIsSeparable(ix, Seen(ix, es));
    OwnBackupParsesIff(s.index, target);
    HistoryReads(ix, Seen(ix, es));
  }

  lemma HistoryReads(ix: Index, ps: seq<Pointer>)
    requires ix.keys == map[] && LineMessages(ps)
    ensures forall k :: k in Run(ix, AllOps(ps)).keys ==> LastSent(ps, k) > 0
    ensures AllAsRead(Run(ix, AllOps(ps)).keys) == Mended(ps, Run(ix, AllOps(ps)).keys)
  {
    hide PortBehind, AsRead, FromLineServer, Run, AllOps, ReadsBack, PortText, UrlConverts, LineUrl;
    var keys := Run(ix, AllOps(ps)).keys;
    forall k | k in keys
      ensures LastSent(ps, k) > 0
      ensures AsRead(keys[k]) ==
              Details(HeadOf(LastUrl(ps, k), ','), PortBehind(LastUrl(ps, k)), TimesSent(ps, k))
    {
      StoredRecord(ix, ps, k);
      RecordWithoutPort(keys[k]);
    }
  }

  /** And exactly then no reader blocks when the tracker restores its own backup. */
  lemma OwnRestoreBlocksIff(ix: Index, es: seq<MessageQueue.Event>, target: Index, r: Task)
    requires LineTraffic(ix, es) && !r.Write?
    ensures var s := MessageQueue.Exec(NewQueue(ix), es);
            NeverBlocks(target, {Write(ReloadOf(s.index)), r}) <==> LastUrlsConvert(Seen(ix, es))
  {
    var s := MessageQueue.Exec(NewQueue(ix), es);
    SeenByServer(ix, es);
    HistoryIsSeparable(ix, Seen(ix, es));
    OneOwnRestore(target, s.index, r);
  }

  lemma OneOwnRestore(target: Index, src: Index, r: Task)
    requires Separable(src) && !r.Write?
    ensures NeverBlocks(target, {Write(ReloadOf(src)), r}) <==> NumbersConvert(src)
  {
    var tasks := {Write(ReloadOf(src)), r};
    assert r in tasks && !r.Write?;
    OwnBackupsNeverBlockIff(target, tasks, {src});
    assert src in {src};
  }
}
