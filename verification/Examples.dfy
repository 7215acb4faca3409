/** One small history worked out to the letter: what is stored, ranked, reported and written to the files. */
module Examples {
  import opened BackupText
  import opened Decimal
  import opened FileFormat
  import opened KeyOrder
  import opened Manager
  import opened MessageQueue
  import opened MessageServer
  import opened RankingIndex
  import opened Runs
  import opened ServerReplies
  import opened TopLists

  lemma NumbersAsText()
    ensures ToText(0) == "0" && ToText(7) == "7" && ToText(80) == "80" && ToText(4096) == "4096"
    ensures ValueOf("") == 0 && ValueOf("80") == 80 && ValueOf("4096") == 4096
  {
    hide ToText, ValueOf;
    OneDigit(0);
    OneDigit(4);
    OneDigit(7);
    OneDigit(8);
    MoreDigits(8, 0);
    MoreDigits(4, 0);
    MoreDigits(40, 9);
    MoreDigits(409, 6);
    TextIsDecimal(80);
    TextIsDecimal(4096);
    assert ValueOf("") == 0 by { NoDigits(); }
  }

  lemma NoDigits()
    ensures ValueOf("") == 0
  {
  }

  lemma OneDigit(d: nat)
    requires d < 10
    ensures ToText(d) == [Digit(d)]
  {
  }

  lemma MoreDigits(n: nat, d: nat)
    requires n > 0 && d < 10
    ensures ToText(10 * n + d) == ToText(n) + [Digit(d)]
  {
    assert (10 * n + d) / 10 == n;
  }

  /** b once, with url u and port 80; a twice, without. */
  function Counted(): KeyMap {
    map["a" := Details("", 0, 2), "b" := Details("u", 80, 1)]
  }

  function Ranked(): seq<Entry> {
    [Entry(1, "b"), Entry(2, "a")]
  }

  lemma RunLast(ix: Index, ops: seq<Op>, op: Op)
    ensures Run(ix, ops + [op]) == Apply(Run(ix, ops), op)
  {
    assert (ops + [op])[..|ops|] == ops;
  }

  /** The first add of b, of a, and the second of a, to a manager with room. */
  lemma AddFirst(ix: Index)
    requires ix.keys == map[] && ix.ranking == [] && ix.max >= 2
    ensures Add(ix, "b", "u", 80) == ix.(keys := map["b" := Details("u", 80, 1)], ranking := [Entry(1, "b")])
  {
    assert Insert([], Entry(1, "b")) == [Entry(1, "b")];
  }

  lemma AddSecond(ix: Index)
    requires ix.keys == map["b" := Details("u", 80, 1)] && ix.ranking == [Entry(1, "b")] && ix.max >= 2
    ensures Add(ix, "a", "", 0) ==
            ix.(keys := map["a" := Details("", 0, 1), "b" := Details("u", 80, 1)], ranking := [Entry(1, "b"), Entry(1, "a")])
  {
    assert Insert([Entry(1, "b")], Entry(1, "a")) == [Entry(1, "b"), Entry(1, "a")];
  }

  lemma AddThird(ix: Index)
    requires ix.keys == map["a" := Details("", 0, 1), "b" := Details("u", 80, 1)]
    requires ix.ranking == [Entry(1, "b"), Entry(1, "a")] && ix.max > 2
    ensures Add(ix, "a", "", 0) == ix.(keys := Counted(), ranking := Ranked())
  {
    var r := [Entry(1, "b"), Entry(1, "a")];
    assert r[1..] == [Entry(1, "a")] && Position(r[1..], Entry(1, "a")) == 0 && Position(r, Entry(1, "a")) == 1;
    assert Erase(r, Entry(1, "a")) == [Entry(1, "b")];
    assert Insert([Entry(1, "b")], Entry(2, "a")) == [Entry(1, "b"), Entry(2, "a")];
  }

  function ThreeAdds(): seq<Op> {
    [AddKey("b", "u", 80)] + [AddKey("a", "", 0)] + [AddKey("a", "", 0)]
  }

  lemma AfterThreeAdds()
    ensures Run(Initial(10, 20), ThreeAdds()) == Index(Counted(), Ranked(), 10, 20)
  {
    hide Run, Add, Counted, Ranked;
    var ix := Initial(10, 20);
    assert [] + [AddKey("b", "u", 80)] == [AddKey("b", "u", 80)];
    assert Run(ix, []) == ix by { RunNothing(ix); }
    RunLast(ix, [], AddKey("b", "u", 80));
    AddFirst(ix);
    RunLast(ix, [AddKey("b", "u", 80)], AddKey("a", "", 0));
    AddSecond(Run(ix, [AddKey("b", "u", 80)]));
    RunLast(ix, [AddKey("b", "u", 80)] + [AddKey("a", "", 0)], AddKey("a", "", 0));
    AddThird(Run(ix, [AddKey("b", "u", 80)] + [AddKey("a", "", 0)]));
  }

  lemma RunNothing(ix: Index)
    ensures Run(ix, []) == ix
  {
  }

  /** The report lists a before b, and both are hot. */
  lemma ReportOfThreeAdds()
    ensures var ix := Run(Initial(10, 20), ThreeAdds());
            && Report(ix) == [Entry(2, "a"), Entry(1, "b")]
            && IsHot(ix, "a") && IsHot(ix, "b") && !IsHot(ix, "c")
  {
    hide Run, ThreeAdds, Initial;
    AfterThreeAdds();
    assert Ranked()[0] == Entry(1, "b") && Ranked()[1] == Entry(2, "a");
  }

  lemma KeyRecordsAsText()
    ensures KeyCsv("a", Details("", 0, 2)) == "a,2,,0\n"
    ensures KeyCsv("b", Details("u", 80, 1)) == "b,1,u,80\n"
    ensures RankCsv(Entry(1, "b")) == "1,b\n" && RankCsv(Entry(2, "a")) == "2,a\n"
  {
    hide ToText;
    NumbersAsText();
    OneDigit(1);
    OneDigit(2);
    CsvOfFour("a", "2", "", "0");
    CsvOfFour("b", "1", "u", "80");
    CsvOfTwo("1", "b");
    CsvOfTwo("2", "a");
  }

  lemma CsvOfTwo(a: string, b: string)
    ensures Csv([a, b]) == a + "," + b + "\n"
  {
    assert [a, b][1..] == [b];
    assert Csv([a, b]) == a + "," + (b + "\n");
  }

  lemma CsvOfFour(a: string, b: string, c: string, d: string)
    ensures Csv([a, b, c, d]) == a + "," + b + "," + c + "," + d + "\n"
  {
    assert [a, b, c, d][1..] == [b, c, d] && [b, c, d][1..] == [c, d];
    CsvOfTwo(c, d);
    assert Csv([b, c, d]) == b + "," + Csv([c, d]);
    assert Csv([a, b, c, d]) == a + "," + (b + "," + (c + "," + d + "\n"));
  }

  /** The two files of that state. */
  lemma FilesOfThreeAdds()
    ensures var ix := Run(Initial(10, 20), ThreeAdds());
            KeyFile(ix.keys) == "a,2,,0\nb,1,u,80\n" && RankText(ix.ranking) == "1,b\n2,a\n"
  {
    hide Run, ThreeAdds, Initial, KeyFile, RankText, Counted, Ranked;
    AfterThreeAdds();
    KeysAsText();
    RanksAsText();
  }

  lemma KeysAsText()
    ensures KeyFile(Counted()) == "a,2,,0\nb,1,u,80\n"
  {
    hide KeyFile, KeyCsv, RankCsv;
    KeyRecordsAsText();
    AComesFirst();
    DumpOfTwo(Counted(), "a", "b");
    assert "a,2,,0\n" + "b,1,u,80\n" == "a,2,,0\nb,1,u,80\n";
  }

  lemma DumpOfTwo(m: KeyMap, a: string, b: string)
    requires m.Keys == {a, b} && ComesFirst(a, b)
    ensures KeyFile(m) == KeyCsv(a, m[a]) + KeyCsv(b, m[b])
  {
    hide KeyFile, KeyCsv, ComesFirst, Concat;
    var ks, lines := [a, b], [KeyCsv(a, m[a]), KeyCsv(b, m[b])];
    TwoLines(lines[0], lines[1]);
    assert Ascending(ks, m.Keys);
    assert IsKeyDump(Concat(lines), m);
    FormIsUnique(Concat(lines), m);
  }

  lemma AComesFirst()
    ensures ComesFirst("a", "b")
  {
    assert ComesFirstAt("a", "b", 0);
  }

  lemma TwoLines(a: string, b: string)
    ensures Concat([a, b]) == a + b
  {
    assert [a, b][1..] == [b] && [b][1..] == [];
    assert Concat([b]) == b + Concat([]) == b;
  }

  lemma RanksAsText()
    ensures RankText(Ranked()) == "1,b\n2,a\n"
  {
    hide KeyCsv, RankCsv, RankLine;
    KeyRecordsAsText();
    var r := Ranked();
    assert r[1..] == [Entry(2, "a")];
    RankLineIsCsv(r[0], RankText(r[1..]));
    RankLineIsCsv(r[1], "");
    assert RankText([Entry(2, "a")]) == "2,a\n" + "";
  }

  /** The reply to getTopHotKeys in that state: any lines that show the report give this text. */
  lemma ReplyOfThreeAdds(lines: seq<KeyFrequency>)
    requires ShowsAll(lines, Report(Run(Initial(10, 20), ThreeAdds())))
    ensures "{[" + Joined(lines) + "]}" ==
            "{[" + "{\"Key\": \"a\",\"Frequency\": 2}" + "," + "{\"Key\": \"b\",\"Frequency\": 1}" + "]}"
  {
    hide Run, ThreeAdds, Initial, Report, ToText, Writes, LineText;
    ReportOfThreeAdds();
    OneDigit(1);
    OneDigit(2);
    TextIsDecimal(1);
    TextIsDecimal(2);
    assert Shows(lines[0], Entry(2, "a")) && Shows(lines[1], Entry(1, "b"));
    DecimalIsUnique(lines[0].frequency, "2", 2);
    DecimalIsUnique(lines[1].frequency, "1", 1);
    LinesAsText(lines);
  }

  lemma LinesAsText(lines: seq<KeyFrequency>)
    requires lines == [KeyFrequency("a", "2"), KeyFrequency("b", "1")]
    ensures "{[" + Joined(lines) + "]}" ==
            "{[" + "{\"Key\": \"a\",\"Frequency\": 2}" + "," + "{\"Key\": \"b\",\"Frequency\": 1}" + "]}"
  {
    hide LineText;
    assert lines[..1] == [KeyFrequency("a", "2")];
    FirstLineAsText();
    SecondLineAsText();
    assert Joined(lines) == LineText(lines[0]) + "," + LineText(lines[1]);
  }

  lemma FirstLineAsText()
    ensures LineText(KeyFrequency("a", "2")) == "{\"Key\": \"a\",\"Frequency\": 2}"
  {
    assert "{\"Key\": \"" + "a" == "{\"Key\": \"a";
    assert "{\"Key\": \"a" + "\",\"Frequency\": " == "{\"Key\": \"a\",\"Frequency\": ";
    assert "{\"Key\": \"a\",\"Frequency\": " + "2" == "{\"Key\": \"a\",\"Frequency\": 2";
  }

  lemma SecondLineAsText()
    ensures LineText(KeyFrequency("b", "1")) == "{\"Key\": \"b\",\"Frequency\": 1}"
  {
    assert "{\"Key\": \"" + "b" == "{\"Key\": \"b";
    assert "{\"Key\": \"b" + "\",\"Frequency\": " == "{\"Key\": \"b\",\"Frequency\": ";
    assert "{\"Key\": \"b\",\"Frequency\": " + "1" == "{\"Key\": \"b\",\"Frequency\": 1";
  }

  /** Payloads with no comma, one and two. */
  lemma PayloadsAsMessages()
    ensures KeyMessage("abc") == Message(AddKeyCommand, "abc", "", 0, 0, 0)
    ensures KeyMessage("k,u") == Message(AddKeyCommand, "k", "u", 0, 0, 0)
    ensures KeyMessage("k,80,x") == Message(AddKeyCommand, "k", "80,x", 0, 80, 0)
  {
    hide KeyMessage, Stoi;
    NumbersAsText();
    assert "80" + ",x" == "80,x" && "k" + "," + "u" == "k,u" && "k" + "," + "80,x" == "k,80,x";
    assert Parts("", "", "", "", "") && Parts("u", "", "", "", "u") && Parts("80,x", "", "", "80", ",x");
    StoiIs("", "", "", "", "");
    StoiIs("u", "", "", "", "u");
    StoiIs("80,x", "", "", "80", ",x");
    PayloadDetermines(Message(AddKeyCommand, "abc", "", 0, 0, 0), "abc");
    PayloadDetermines(Message(AddKeyCommand, "k", "u", 0, 0, 0), "k,u");
    PayloadDetermines(Message(AddKeyCommand, "k", "80,x", 0, 80, 0), "k,80,x");
  }
}
