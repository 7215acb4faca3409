/** What the two backup files look like, said of their lines: one record a line, fields separated by
    commas, keys in lexicographic order, ranked pairs from the lowest to the highest. */
module FileFormat {
  import opened BackupText
  import opened Decimal
  import opened KeyOrder
  import opened RankingIndex
  import opened TopLists

  /** Fields with commas between them and a newline behind the last. */
  function Csv(fields: seq<string>): string {
    if fields == [] then "\n"
    else if |fields| == 1 then fields[0] + "\n"
    else fields[0] + "," + Csv(fields[1..])
  }

  function Concat(lines: seq<string>): string {
    if lines == [] then "" else lines[0] + Concat(lines[1..])
  }

  function KeyCsv(k: string, d: Details): string {
    Csv([k, ToText(d.frequency), d.url, ToText(d.port)])
  }

  function RankCsv(e: Entry): string {
    Csv([ToText(e.freq), e.key])
  }

  /** The file has one line for each key of the map, in lexicographic order. */
  ghost predicate IsKeyDump(file: string, m: KeyMap) {
    exists ks: seq<string>, lines: seq<string> ::
      && Ascending(ks, m.Keys) && |lines| == |ks| && file == Concat(lines)
      && forall i :: 0 <= i < |ks| ==> lines[i] == KeyCsv(ks[i], m[ks[i]])
  }

  /** The file has one line for each pair of the ranking, in its order. */
  ghost predicate IsRankDump(file: string, r: seq<Entry>) {
    exists lines: seq<string> ::
      && |lines| == |r| && file == Concat(lines)
      && forall i :: 0 <= i < |r| ==> lines[i] == RankCsv(r[i])
  }

  lemma KeyLineIsCsv(k: string, d: Details, tail: string)
    ensures KeyLine(k, d, tail) == KeyCsv(k, d) + tail
  {
    var f, p := ToText(d.frequency), ToText(d.port);
    assert [k, f, d.url, p][1..] == [f, d.url, p] && [f, d.url, p][1..] == [d.url, p] && [d.url, p][1..] == [p];
    var last := p + "\n";
    var two := d.url + "," + last;
    var three := f + "," + two;
    assert Csv([d.url, p]) == two && Csv([f, d.url, p]) == three && KeyCsv(k, d) == k + "," + three;
    assert d.url + [','] + (p + ['\n'] + tail) == two + tail;
    assert f + [','] + (two + tail) == three + tail;
  }

  lemma RankLineIsCsv(e: Entry, tail: string)
    ensures RankLine(e, tail) == RankCsv(e) + tail
  {
    var f := ToText(e.freq);
    assert [f, e.key][1..] == [e.key];
    assert Csv([f, e.key]) == f + "," + (e.key + "\n");
  }

  lemma {:induction false} KeyTextIsLines(ks: seq<string>, m: KeyMap) returns (lines: seq<string>)
    requires forall k :: k in ks ==> k in m
    ensures |lines| == |ks| && KeyText(ks, m) == Concat(lines)
    ensures forall i :: 0 <= i < |ks| ==> lines[i] == KeyCsv(ks[i], m[ks[i]])
  {
    lines := [];
    if ks != [] {
      var rest := KeyTextIsLines(ks[1..], m);
      KeyLineIsCsv(ks[0], m[ks[0]], KeyText(ks[1..], m));
      lines := [KeyCsv(ks[0], m[ks[0]])] + rest;
    }
  }

  lemma {:induction false} RankTextIsLines(r: seq<Entry>) returns (lines: seq<string>)
    ensures |lines| == |r| && RankText(r) == Concat(lines)
    ensures forall i :: 0 <= i < |r| ==> lines[i] == RankCsv(r[i])
  {
    lines := [];
    if r != [] {
      var rest := RankTextIsLines(r[1..]);
      RankLineIsCsv(r[0], RankText(r[1..]));
      lines := [RankCsv(r[0])] + rest;
    }
  }

  /** The files of any state have this form. */
  lemma FilesHaveForm(m: KeyMap, r: seq<Entry>)
    ensures IsKeyDump(KeyFile(m), m) && IsRankDump(RankText(r), r)
  {
    OrderedCovers(m.Keys);
    OrderedAscends(m.Keys);
    var lines := KeyTextIsLines(Ordered(m.Keys), m);
    var ranks := RankTextIsLines(r);
  }

  lemma ComesFirstIsStrict(a: string, b: string)
    requires ComesFirst(a, b)
    ensures a != b && !ComesFirst(b, a)
  {
    BeforeIsLexicographic(a, b);
    BeforeIsLexicographic(b, a);
    BeforeIsStrict(a, b);
  }

  /** There is only one ascending listing. */
  lemma {:induction false} AscendingIsUnique(ks: seq<string>, ls: seq<string>, s: set<string>)
    requires Ascending(ks, s) && Ascending(ls, s)
    ensures ks == ls
    decreases |ks|
  {
    ListedOrNone(ks, s);
    ListedOrNone(ls, s);
    if ks == [] || ls == [] {
      assert s == {};
    } else {
      SameFirst(ks, ls, s);
      AscendingTail(ks, s);
      AscendingTail(ls, s);
      AscendingIsUnique(ks[1..], ls[1..], s - {ks[0]});
      assert ks == [ks[0]] + ks[1..] && ls == [ls[0]] + ls[1..];
    }
  }

  lemma ListedOrNone(ks: seq<string>, s: set<string>)
    requires Ascending(ks, s)
    ensures if ks == [] then s == {} else ks[0] in s
  {
    assert forall k :: k in s ==> k in ks;
  }

  lemma SameFirst(ks: seq<string>, ls: seq<string>, s: set<string>)
    requires Ascending(ks, s) && Ascending(ls, s) && ks != [] && ls != []
    ensures ks[0] == ls[0]
  {
    assert ks[0] in ks && ls[0] in ls;
    var i :| 0 <= i < |ls| && ls[i] == ks[0];
    var j :| 0 <= j < |ks| && ks[j] == ls[0];
    if i > 0 && j > 0 {
      ComesFirstIsStrict(ks[0], ls[0]);
    }
  }

  lemma AscendingTail(ks: seq<string>, s: set<string>)
    requires Ascending(ks, s) && ks != []
    ensures Ascending(ks[1..], s - {ks[0]})
  {
    forall k ensures k in ks[1..] <==> k in s - {ks[0]} {
      if k in ks[1..] {
        var i :| 0 <= i < |ks[1..]| && ks[1..][i] == k;
        ComesFirstIsStrict(ks[0], ks[i + 1]);
        assert ks[i + 1] in ks;
      }
    }
  }

  /** So the form leaves nothing open: a file of this form is the one that is written. */
  lemma FormIsUnique(file: string, m: KeyMap)
    requires IsKeyDump(file, m)
    ensures file == KeyFile(m)
  {
    var ks: seq<string>, lines: seq<string> :|
      && Ascending(ks, m.Keys) && |lines| == |ks| && file == Concat(lines)
      && forall i :: 0 <= i < |ks| ==> lines[i] == KeyCsv(ks[i], m[ks[i]]);
    OrderedCovers(m.Keys);
    OrderedAscends(m.Keys);
    AscendingIsUnique(ks, Ordered(m.Keys), m.Keys);
    var written := KeyTextIsLines(ks, m);
    assert lines == written;
  }
}
