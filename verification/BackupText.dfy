/** The two backup files and the way back. A key record is `key,count,url,port` and a newline, in key
    order; a ranking record is `count,key` and a newline, in ascending order of frequency. */
module BackupText {
  import opened Decimal
  import opened KeyOrder
  import opened RankingIndex
  import opened TextStream
  import opened TopLists

  // ---------------------------------------------------------------- writing

  /** One key record in front of the rest of the file. */
  function KeyLine(k: string, d: Details, tail: string): string {
    k + [','] + (ToText(d.frequency) + [','] + (d.url + [','] + (ToText(d.port) + ['\n'] + tail)))
  }

  function KeyText(ks: seq<string>, m: KeyMap): string
    requires forall k :: k in ks ==> k in m
  {
    if ks == [] then "" else KeyLine(ks[0], m[ks[0]], KeyText(ks[1..], m))
  }

  /** One ranking record in front of the rest of the file. */
  function RankLine(e: Entry, tail: string): string {
    ToText(e.freq) + [','] + (e.key + ['\n'] + tail)
  }

  function RankText(r: seq<Entry>): string {
    if r == [] then "" else RankLine(r[0], RankText(r[1..]))
  }

  ghost function KeyFile(m: KeyMap): string {
    OrderedCovers(m.Keys);
    KeyText(Ordered(m.Keys), m)
  }

  // ---------------------------------------------------------------- reading

  /** How a restore ends: normally, with the "reading" error, or in an exception of a conversion. */
  datatype Outcome = Completed | ReadError | Threw

  datatype Loaded<T> = Loaded(outcome: Outcome, value: T)

  /** The fields of one key record, as text. */
  datatype KeyRecord = KeyRecord(key: string, count: string, url: string, port: string)

  datatype RankRecord = RankRecord(count: string, key: string)

  function NextKey(st: Stream): (r: (Stream, KeyRecord))
    ensures r.0.Good() ==> |r.0.rest| < |st.rest| && ',' !in r.1.key && ',' !in r.1.url
    ensures (st.fail ==> st.eof) ==> (r.0.fail ==> r.0.eof)
  {
    var (s1, key) := GetLine(st, ',');
    var (s2, count) := GetLine(s1, ',');
    var (s3, url) := GetLine(s2, ',');
    var (s4, port) := GetLine(s3, '\n');
    (s4, KeyRecord(key, count, url, port))
  }

  function NextRank(st: Stream): (r: (Stream, RankRecord))
    ensures r.0.Good() ==> |r.0.rest| < |st.rest| && '\n' !in r.1.key
    ensures (st.fail ==> st.eof) ==> (r.0.fail ==> r.0.eof)
  {
    var (s1, count) := GetLine(st, ',');
    var (s2, key) := GetLine(s1, '\n');
    (s2, RankRecord(count, key))
  }

  /** Both conversions succeed; otherwise one of them throws. */
  predicate Converts(rec: KeyRecord) {
    Stoi(rec.port).Value? && Stoul(rec.count).Value?
  }

  function DetailsOf(rec: KeyRecord): Details
    requires Converts(rec)
  {
    Details(rec.url, Stoi(rec.port).v % TWO_32, Stoul(rec.count).v % TWO_64)
  }

  predicate CountConverts(rec: RankRecord) {
    Stoul(rec.count).Value?
  }

  function PairOf(rec: RankRecord): Entry
    requires CountConverts(rec)
  {
    Entry(Stoul(rec.count).v % TWO_64, rec.key)
  }

  function ReadKeys(st: Stream, acc: KeyMap): Loaded<KeyMap>
    decreases |st.rest|
  {
    if st.eof then Loaded(Completed, acc)
    else
      var (next, rec) := NextKey(st);
      if next.eof then Loaded(Completed, acc)
      else if next.fail then Loaded(ReadError, acc)
      else if !Converts(rec) then Loaded(Threw, acc)
      else ReadKeys(next, InsertKey(acc, rec.key, DetailsOf(rec)))
  }

  function ReadRanks(st: Stream, acc: seq<Entry>): Loaded<seq<Entry>>
    decreases |st.rest|
  {
    if st.eof then Loaded(Completed, acc)
    else
      var (next, rec) := NextRank(st);
      if next.eof then Loaded(Completed, acc)
      else if next.fail then Loaded(ReadError, acc)
      else if !CountConverts(rec) then Loaded(Threw, acc)
      else ReadRanks(next, Insert(acc, PairOf(rec)))
  }

  /** A whole restore. When the key file does not load, the ranking is left alone. */
  function Restore(ix: Index, keyFile: string, rankFile: string): (Outcome, Index) {
    var ks := ReadKeys(Open(keyFile), map[]);
    if !ks.outcome.Completed? then (ks.outcome, ix.(keys := ks.value))
    else
      var rs := ReadRanks(Open(rankFile), []);
      (rs.outcome, ix.(keys := ks.value, ranking := rs.value))
  }

  // ---------------------------------------------------------------- what can be stored

  predicate StorableKey(k: string, d: Details) {
    ',' !in k && ',' !in d.url && d.port < TWO_31 && d.frequency < TWO_64
  }

  predicate StorablePair(e: Entry) {
    '\n' !in e.key && e.freq < TWO_64
  }

  ghost predicate StorableKeys(m: KeyMap) {
    forall k :: k in m ==> StorableKey(k, m[k])
  }

  ghost predicate AllStorablePairs(r: seq<Entry>) {
    forall e :: e in r ==> StorablePair(e)
  }

  /** No comma in a key or url, no newline in a ranked key, every port below 2^31. (Counts fit 64
      bits in the program by their type.) */
  ghost predicate Storable(ix: Index) {
    StorableKeys(ix.keys) && AllStorablePairs(ix.ranking)
  }

  // ---------------------------------------------------------------- how a written record is split

  /** The text that is read for the port: a comma in the url ends the url early, and what follows it
      stands before the port. */
  function PortText(d: Details): string {
    if ',' in d.url then TailOf(d.url, ',') + [','] + ToText(d.port) else ToText(d.port)
  }

  /** Both numbers of the written record convert. */
  predicate ReadsBack(d: Details) {
    Stoi(PortText(d)).Value? && d.frequency < TWO_64
  }

  /** What they are read back as: the url cut at its first comma, the port from the text after it. */
  function AsRead(d: Details): Details {
    Details(HeadOf(d.url, ','), if Stoi(PortText(d)).Value? then Stoi(PortText(d)).v % TWO_32 else 0, d.frequency)
  }

  function AllAsRead(m: KeyMap): KeyMap {
    map k | k in m :: AsRead(m[k])
  }

  /** Every record ends at its own newline and begins with its own key. */
  predicate LineClean(m: KeyMap) {
    forall k :: k in m ==> ',' !in k && '\n' !in PortText(m[k])
  }

  lemma CommaFreeReads(d: Details)
    requires ',' !in d.url
    ensures PortText(d) == ToText(d.port) && '\n' !in PortText(d)
    ensures ReadsBack(d) <==> d.port < TWO_31 && d.frequency < TWO_64
    ensures ReadsBack(d) ==> AsRead(d) == d
  {
    SplitAtFirst(d.url, ',');
    StoiReadsText(d.port);
    TextHasNo(d.port, '\n');
  }

  lemma CommaFreeMapReads(m: KeyMap)
    requires CommaFree(m)
    ensures LineClean(m)
    ensures (forall k :: k in m ==> ReadsBack(m[k])) <==> StorableKeys(m)
    ensures StorableKeys(m) ==> AllAsRead(m) == m
  {
    forall k | k in m
      ensures '\n' !in PortText(m[k]) && (ReadsBack(m[k]) <==> StorableKey(k, m[k]))
      ensures ReadsBack(m[k]) ==> AsRead(m[k]) == m[k]
    {
      CommaFreeReads(m[k]);
    }
  }

  // ---------------------------------------------------------------- reading what was written

  lemma NextKeyFinds(key: string, count: string, url: string, port: string, tail: string)
    requires ',' !in key && ',' !in count && ',' !in url && '\n' !in port
    ensures NextKey(Open(key + [','] + (count + [','] + (url + [','] + (port + ['\n'] + tail))))) ==
            (Open(tail), KeyRecord(key, count, url, port))
  {
    GetLineFinds(key, ',', count + [','] + (url + [','] + (port + ['\n'] + tail)));
    GetLineFinds(count, ',', url + [','] + (port + ['\n'] + tail));
    GetLineFinds(url, ',', port + ['\n'] + tail);
    GetLineFinds(port, '\n', tail);
  }

  lemma NextRankFinds(count: string, key: string, tail: string)
    requires ',' !in count && '\n' !in key
    ensures NextRank(Open(count + [','] + (key + ['\n'] + tail))) == (Open(tail), RankRecord(count, key))
  {
    GetLineFinds(count, ',', key + ['\n'] + tail);
    GetLineFinds(key, '\n', tail);
  }

  lemma ConvertsWritten(k: string, d: Details)
    ensures var rec := KeyRecord(k, ToText(d.frequency), HeadOf(d.url, ','), PortText(d));
            if ReadsBack(d) then Converts(rec) && DetailsOf(rec) == AsRead(d) else !Converts(rec)
  {
    StoulReadsText(d.frequency);
  }

  lemma UrlAndPort(d: Details, tail: string)
    ensures d.url + [','] + (ToText(d.port) + ['\n'] + tail) ==
            HeadOf(d.url, ',') + [','] + (PortText(d) + ['\n'] + tail)
  {
    SplitAtFirst(d.url, ',');
  }

  lemma NextKeyOfLine(k: string, d: Details, tail: string)
    requires ',' !in k && '\n' !in PortText(d)
    ensures NextKey(Open(KeyLine(k, d, tail))) ==
            (Open(tail), KeyRecord(k, ToText(d.frequency), HeadOf(d.url, ','), PortText(d)))
  {
    TextHasNo(d.frequency, ',');
    SplitAtFirst(d.url, ',');
    UrlAndPort(d, tail);
    NextKeyFinds(k, ToText(d.frequency), HeadOf(d.url, ','), PortText(d), tail);
  }

  lemma ReadKeysStep(st: Stream, acc: KeyMap, tail: string, rec: KeyRecord)
    requires st.Good() && NextKey(st) == (Open(tail), rec)
    ensures ReadKeys(st, acc) ==
            if Converts(rec) then ReadKeys(Open(tail), InsertKey(acc, rec.key, DetailsOf(rec))) else Loaded(Threw, acc)
  {
  }

  lemma ReadOneKey(k: string, d: Details, tail: string, acc: KeyMap)
    requires ',' !in k && '\n' !in PortText(d) && k !in acc
    ensures ReadKeys(Open(KeyLine(k, d, tail)), acc) ==
            if ReadsBack(d) then ReadKeys(Open(tail), acc[k := AsRead(d)]) else Loaded(Threw, acc)
  {
    hide KeyLine, ReadKeys, NextKey, AsRead, ReadsBack, PortText;
    NextKeyOfLine(k, d, tail);
    ConvertsWritten(k, d);
    ReadKeysStep(Open(KeyLine(k, d, tail)), acc, tail, KeyRecord(k, ToText(d.frequency), HeadOf(d.url, ','), PortText(d)));
  }

  lemma PairWritten(e: Entry)
    ensures var rec := RankRecord(ToText(e.freq), e.key);
            if e.freq < TWO_64 then CountConverts(rec) && PairOf(rec) == e else !CountConverts(rec)
  {
    StoulReadsText(e.freq);
  }

  lemma ReadRanksStep(st: Stream, acc: seq<Entry>, tail: string, rec: RankRecord)
    requires st.Good() && NextRank(st) == (Open(tail), rec)
    ensures ReadRanks(st, acc) ==
            if CountConverts(rec) then ReadRanks(Open(tail), Insert(acc, PairOf(rec))) else Loaded(Threw, acc)
  {
  }

  lemma ReadOneRank(e: Entry, tail: string, acc: seq<Entry>)
    requires '\n' !in e.key
    ensures ReadRanks(Open(RankLine(e, tail)), acc) ==
            if e.freq < TWO_64 then ReadRanks(Open(tail), Insert(acc, e)) else Loaded(Threw, acc)
  {
    TextHasNo(e.freq, ',');
    PairWritten(e);
    NextRankFinds(ToText(e.freq), e.key, tail);
    ReadRanksStep(Open(RankLine(e, tail)), acc, tail, RankRecord(ToText(e.freq), e.key));
  }

  function Selected(ks: seq<string>, m: KeyMap): KeyMap {
    map k | k in m && k in ks :: m[k]
  }

  ghost predicate AllStorable(ks: seq<string>, m: KeyMap)
    requires forall k :: k in ks ==> k in m
  {
    forall k :: k in ks ==> StorableKey(k, m[k])
  }

  ghost predicate AllReadBack(ks: seq<string>, m: KeyMap)
    requires forall k :: k in ks ==> k in m
  {
    forall k :: k in ks ==> ReadsBack(m[k])
  }

  /** The keys ks are distinct keys of m whose records are read one by one, and acc has none of them. */
  ghost predicate Readable(ks: seq<string>, m: KeyMap, acc: KeyMap) {
    && NoRepeats(ks)
    && forall k :: k in ks ==> k in m && k !in acc && ',' !in k && '\n' !in PortText(m[k])
  }

  lemma ReadableTail(ks: seq<string>, m: KeyMap, acc: KeyMap, d: Details)
    requires ks != [] && Readable(ks, m, acc)
    ensures Readable(ks[1..], m, acc[ks[0] := d])
    ensures forall j :: j in ks <==> j == ks[0] || j in ks[1..]
  {
    assert ks[0] !in ks[1..];
    assert NoRepeats(ks[1..]);
  }

  lemma SelectedTail(ks: seq<string>, m: KeyMap, acc: KeyMap)
    requires ks != [] && ks[0] in m && forall j :: j in ks <==> j == ks[0] || j in ks[1..]
    ensures acc + Selected(ks, m) == acc[ks[0] := m[ks[0]]] + Selected(ks[1..], m)
  {
  }

  /** A written key file whose records are read one by one loads exactly when all their numbers convert,
      and then it loads every record as it is read back. */
  lemma {:induction false} ReadKeysOfText(ks: seq<string>, m: KeyMap, acc: KeyMap)
    requires Readable(ks, m, acc)
    ensures AllReadBack(ks, m) ==>
              ReadKeys(Open(KeyText(ks, m)), acc) == Loaded(Completed, acc + Selected(ks, AllAsRead(m)))
    ensures !AllReadBack(ks, m) ==> ReadKeys(Open(KeyText(ks, m)), acc).outcome.Threw?
  {
    hide PortText, ReadsBack, AsRead, KeyLine;
    if ks == [] {
      assert acc + Selected(ks, AllAsRead(m)) == acc;
    } else {
      var k := ks[0];
      ReadableTail(ks, m, acc, AsRead(m[k]));
      SelectedTail(ks, AllAsRead(m), acc);
      ReadOneKey(k, m[k], KeyText(ks[1..], m), acc);
      if ReadsBack(m[k]) {
        ReadKeysOfText(ks[1..], m, acc[k := AsRead(m[k])]);
      }
    }
  }

  lemma InsertHighest(r: seq<Entry>, e: Entry)
    requires r != [] ==> r[|r| - 1].freq <= e.freq
    ensures Insert(r, e) == r + [e]
  {
  }

  lemma SortedStep(done: seq<Entry>, r: seq<Entry>)
    requires r != [] && Sorted(done + r) && NewlineFree(r)
    ensures done + r == done + [r[0]] + r[1..]
    ensures Sorted(done + [r[0]] + r[1..]) && NewlineFree(r[1..])
    ensures done != [] ==> done[|done| - 1].freq <= r[0].freq
    ensures AllStorablePairs(r) <==> StorablePair(r[0]) && AllStorablePairs(r[1..])
  {
    assert forall e :: e in r <==> e == r[0] || e in r[1..];
    if done != [] {
      assert (done + r)[|done| - 1].freq <= (done + r)[|done|].freq;
    }
  }

  lemma ReadRanksHead(done: seq<Entry>, r: seq<Entry>)
    requires r != [] && Sorted(done + r) && NewlineFree(r)
    ensures ReadRanks(Open(RankText(r)), done) ==
            if r[0].freq < TWO_64 then ReadRanks(Open(RankText(r[1..])), done + [r[0]]) else Loaded(Threw, done)
  {
    SortedStep(done, r);
    ReadOneRank(r[0], RankText(r[1..]), done);
    InsertHighest(done, r[0]);
  }

  lemma {:induction false} ReadRanksOfText(done: seq<Entry>, r: seq<Entry>)
    requires Sorted(done + r) && NewlineFree(r)
    ensures AllStorablePairs(r) ==> ReadRanks(Open(RankText(r)), done) == Loaded(Completed, done + r)
    ensures !AllStorablePairs(r) ==> ReadRanks(Open(RankText(r)), done).outcome.Threw?
    decreases |r|
  {
    if r == [] {
      assert done + r == done;
    } else {
      SortedStep(done, r);
      ReadRanksHead(done, r);
      if StorablePair(r[0]) {
        ReadRanksOfText(done + [r[0]], r[1..]);
      }
    }
  }

  // ---------------------------------------------------------------- what no restore can produce

  predicate CommaFree(m: KeyMap) {
    forall k :: k in m ==> ',' !in k && ',' !in m[k].url
  }

  predicate NewlineFree(r: seq<Entry>) {
    forall e :: e in r ==> '\n' !in e.key
  }

  lemma {:induction false} LoadedKeysAreCommaFree(st: Stream, acc: KeyMap)
    requires CommaFree(acc)
    ensures CommaFree(ReadKeys(st, acc).value)
    decreases |st.rest|
  {
    var (next, rec) := NextKey(st);
    if !st.eof && next.Good() && Converts(rec) {
      LoadedKeysAreCommaFree(next, InsertKey(acc, rec.key, DetailsOf(rec)));
    }
  }

  lemma {:induction false} LoadedPairsAreNewlineFree(st: Stream, acc: seq<Entry>)
    requires NewlineFree(acc)
    ensures NewlineFree(ReadRanks(st, acc).value)
    decreases |st.rest|
  {
    var (next, rec) := NextRank(st);
    if !st.eof && next.Good() && CountConverts(rec) {
      InsertMembers(acc, PairOf(rec));
      LoadedPairsAreNewlineFree(next, Insert(acc, PairOf(rec)));
    }
  }

  // ---------------------------------------------------------------- the round trip

  /** Backup and restore are inverse, tie order included, exactly for the storable states. */
  lemma RoundTripIff(ix: Index, target: Index)
    requires Sorted(ix.ranking)
    ensures Restore(target, KeyFile(ix.keys), RankText(ix.ranking))
            == (Completed, target.(keys := ix.keys, ranking := ix.ranking))
            <==> Storable(ix)
  {
    RankFileRoundTrip(ix.ranking);
    KeyFileRoundTrip(ix.keys);
  }

  lemma RankFileRoundTrip(r: seq<Entry>)
    requires Sorted(r)
    ensures ReadRanks(Open(RankText(r)), []) == Loaded(Completed, r) <==> AllStorablePairs(r)
  {
    LoadedPairsAreNewlineFree(Open(RankText(r)), []);
    assert [] + r == r;
    if NewlineFree(r) {
      ReadRanksOfText([], r);
    }
  }

  lemma KeyFileRoundTrip(m: KeyMap)
    ensures ReadKeys(Open(KeyFile(m)), map[]) == Loaded(Completed, m) <==> StorableKeys(m)
  {
    if CommaFree(m) {
      CommaFreeMapReads(m);
      KeyFileReads(m);
    } else {
      LoadedKeysAreCommaFree(Open(KeyFile(m)), map[]);
    }
  }

  lemma OrderedReadable(m: KeyMap)
    requires LineClean(m)
    ensures Readable(Ordered(m.Keys), m, map[])
    ensures map[] + Selected(Ordered(m.Keys), AllAsRead(m)) == AllAsRead(m)
    ensures AllReadBack(Ordered(m.Keys), m) <==> forall k :: k in m ==> ReadsBack(m[k])
  {
    hide PortText, ReadsBack, AsRead;
    OrderedCovers(m.Keys);
    AllSelected(Ordered(m.Keys), AllAsRead(m));
  }

  lemma AllSelected(ks: seq<string>, m: KeyMap)
    requires forall k :: k in m ==> k in ks
    ensures map[] + Selected(ks, m) == m
  {
  }

  /** A key file whose records keep to their lines loads exactly if all their numbers convert. */
  lemma KeyFileReads(m: KeyMap)
    requires LineClean(m)
    ensures if forall k :: k in m ==> ReadsBack(m[k])
            then ReadKeys(Open(KeyFile(m)), map[]) == Loaded(Completed, AllAsRead(m))
            else ReadKeys(Open(KeyFile(m)), map[]).outcome.Threw?
  {
    OrderedReadable(m);
    ReadKeysOfText(Ordered(m.Keys), m, map[]);
  }

  /** The "reading" error is never reported, whatever the files contain: an extraction that fails
      has always run into the end of the file, and the end is tested first. */
  lemma NoReadError(ix: Index, keyFile: string, rankFile: string)
    ensures !Restore(ix, keyFile, rankFile).0.ReadError?
  {
    KeysNeverReadError(Open(keyFile), map[]);
    RanksNeverReadError(Open(rankFile), []);
  }

  lemma {:induction false} KeysNeverReadError(st: Stream, acc: KeyMap)
    requires st.fail ==> st.eof
    ensures !ReadKeys(st, acc).outcome.ReadError?
    decreases |st.rest|
  {
    var (next, rec) := NextKey(st);
    if !st.eof && next.Good() && Converts(rec) {
      KeysNeverReadError(next, InsertKey(acc, rec.key, DetailsOf(rec)));
    }
  }

  lemma {:induction false} RanksNeverReadError(st: Stream, acc: seq<Entry>)
    requires st.fail ==> st.eof
    ensures !ReadRanks(st, acc).outcome.ReadError?
    decreases |st.rest|
  {
    var (next, rec) := NextRank(st);
    if !st.eof && next.Good() && CountConverts(rec) {
      RanksNeverReadError(next, Insert(acc, PairOf(rec)));
    }
  }

  /** A backup restored into a manager with another maximum is a true top list there exactly when
      both maxima cut the keys at the same place. */
  lemma RestoredElsewhereIff(ix: Index, target: Index)
    requires Valid(ix) && Storable(ix)
    ensures Valid(Restore(target, KeyFile(ix.keys), RankText(ix.ranking)).1)
            <==> Min(target.max, |ix.keys|) == Min(ix.max, |ix.keys|)
  {
    RoundTripIff(ix, target);
  }

  // ---------------------------------------------------------------- when a restore completes

  /** The complete records of a key file, converted or not. */
  function KeyRecords(st: Stream): seq<KeyRecord>
    decreases |st.rest|
  {
    if st.eof then []
    else
      var (next, rec) := NextKey(st);
      if next.Good() then [rec] + KeyRecords(next) else []
  }

  function RankRecords(st: Stream): seq<RankRecord>
    decreases |st.rest|
  {
    if st.eof then []
    else
      var (next, rec) := NextRank(st);
      if next.Good() then [rec] + RankRecords(next) else []
  }

  ghost predicate AllKeysConvert(recs: seq<KeyRecord>) {
    forall rec :: rec in recs ==> Converts(rec)
  }

  ghost predicate AllCountsConvert(recs: seq<RankRecord>) {
    forall rec :: rec in recs ==> CountConverts(rec)
  }

  /** Every complete record has numbers that stoi and stoul accept. */
  ghost predicate FilesParse(keyFile: string, rankFile: string) {
    AllKeysConvert(KeyRecords(Open(keyFile))) && AllCountsConvert(RankRecords(Open(rankFile)))
  }

  lemma FirstKeyConverts(rec: KeyRecord, rest: seq<KeyRecord>)
    ensures AllKeysConvert([rec] + rest) <==> Converts(rec) && AllKeysConvert(rest)
  {
    assert forall x :: x in [rec] + rest <==> x == rec || x in rest;
  }

  lemma FirstCountConverts(rec: RankRecord, rest: seq<RankRecord>)
    ensures AllCountsConvert([rec] + rest) <==> CountConverts(rec) && AllCountsConvert(rest)
  {
    assert forall x :: x in [rec] + rest <==> x == rec || x in rest;
  }

  lemma KeyRecordsUnfold(st: Stream)
    ensures KeyRecords(st) ==
            if st.eof || !NextKey(st).0.Good() then [] else [NextKey(st).1] + KeyRecords(NextKey(st).0)
  {
  }

  lemma RankRecordsUnfold(st: Stream)
    ensures RankRecords(st) ==
            if st.eof || !NextRank(st).0.Good() then [] else [NextRank(st).1] + RankRecords(NextRank(st).0)
  {
  }

  lemma {:induction false} ReadKeysCompletesIff(st: Stream, acc: KeyMap)
    requires st.fail ==> st.eof
    ensures ReadKeys(st, acc).outcome.Completed? <==> AllKeysConvert(KeyRecords(st))
    decreases |st.rest|
  {
    var (next, rec) := NextKey(st);
    KeyRecordsUnfold(st);
    if !st.eof && next.Good() {
      FirstKeyConverts(rec, KeyRecords(next));
      if Converts(rec) {
        ReadKeysCompletesIff(next, InsertKey(acc, rec.key, DetailsOf(rec)));
      }
    }
  }

  lemma {:induction false} ReadRanksCompletesIff(st: Stream, acc: seq<Entry>)
    requires st.fail ==> st.eof
    ensures ReadRanks(st, acc).outcome.Completed? <==> AllCountsConvert(RankRecords(st))
    decreases |st.rest|
  {
    var (next, rec) := NextRank(st);
    RankRecordsUnfold(st);
    if !st.eof && next.Good() {
      FirstCountConverts(rec, RankRecords(next));
      if CountConverts(rec) {
        ReadRanksCompletesIff(next, Insert(acc, PairOf(rec)));
      }
    }
  }

  /** A restore of any two files completes exactly if every complete record in them parses. */
  lemma RestoreCompletesIff(ix: Index, keyFile: string, rankFile: string)
    ensures Restore(ix, keyFile, rankFile).0.Completed? <==> FilesParse(keyFile, rankFile)
  {
    ReadKeysCompletesIff(Open(keyFile), map[]);
    ReadRanksCompletesIff(Open(rankFile), []);
  }

  /** A state whose two files are read back record by record; what is left to fail are the numbers. */
  ghost predicate Separable(ix: Index) {
    Sorted(ix.ranking) && LineClean(ix.keys) && NewlineFree(ix.ranking)
  }

  ghost predicate NumbersConvert(ix: Index) {
    (forall k :: k in ix.keys ==> ReadsBack(ix.keys[k])) && forall e :: e in ix.ranking ==> e.freq < TWO_64
  }

  /** The backup of such a state parses exactly if the counts are below 2^64 and every port text, what
      follows the first comma of the url included, converts; and then a restore gives back the same
      counts and ranking, the urls cut at their first comma and the ports that stand after it. */
  lemma OwnBackupParsesIff(ix: Index, target: Index)
    requires Separable(ix)
    ensures FilesParse(KeyFile(ix.keys), RankText(ix.ranking)) <==> NumbersConvert(ix)
    ensures NumbersConvert(ix) ==>
              Restore(target, KeyFile(ix.keys), RankText(ix.ranking)) ==
              (Completed, target.(keys := AllAsRead(ix.keys), ranking := ix.ranking))
  {
    RestoreCompletesIff(target, KeyFile(ix.keys), RankText(ix.ranking));
    KeyFileReads(ix.keys);
    assert [] + ix.ranking == ix.ranking;
    ReadRanksOfText([], ix.ranking);
  }

  /** Without commas in the urls that is being storable. */
  lemma CommaFreeConvertsIff(ix: Index)
    requires Sorted(ix.ranking) && CommaFree(ix.keys) && NewlineFree(ix.ranking)
    ensures Separable(ix) && (NumbersConvert(ix) <==> Storable(ix))
  {
    CommaFreeMapReads(ix.keys);
  }
}
