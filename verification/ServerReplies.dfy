/** The reply to getTopHotKeys: the report of the map manager as JSON text, ten lines of it at most. */
module ServerReplies {
  import opened Manager
  import opened RankingIndex

  const REPLY_LINES: nat := 10

  function LineText(line: KeyFrequency): string {
    "{\"Key\": \"" + line.key + "\",\"Frequency\": " + line.frequency + "}"
  }

  /** The lines with commas between them. */
  function Joined(lines: seq<KeyFrequency>): string {
    if lines == [] then ""
    else if |lines| == 1 then LineText(lines[0])
    else Joined(lines[..|lines| - 1]) + "," + LineText(lines[|lines| - 1])
  }

  method GetTopHotKeys(mgr: MapManager) returns (outData: string, shown: seq<KeyFrequency>)
    requires !mgr.writing
    ensures var report := Report(mgr.State());
            ShowsAll(shown, if |report| <= 10 then report else report[..10])
    ensures outData == "{[" + Joined(shown) + "]}"
  {
    var v := mgr.GetTopHotkeys([]);
    assert v[0..] == v;
    shown := v[..if |v| >= REPLY_LINES then REPLY_LINES else |v|];
    outData := ReplyText(shown);
  }

  method ReplyText(v: seq<KeyFrequency>) returns (text: string)
    ensures text == "{[" + Joined(v) + "]}"
  {
    hide LineText;
    text := "{[";
    var i := 0;
    while i < |v|
      invariant i <= |v|
      invariant text == "{[" + Written(v, i)
    {
      WriteOne(v, i);
      text := text + LineText(v[i]);
      if i < |v| - 1 {
        text := text + ",";
      }
      i := i + 1;
    }
    assert v[..i] == v;
    text := text + "]}";
  }

  /** What is written of the lines before line i. */
  function Written(v: seq<KeyFrequency>, i: nat): string
    requires i <= |v|
  {
    Joined(v[..i]) + if 0 < i < |v| then "," else ""
  }

  lemma WriteOne(v: seq<KeyFrequency>, i: nat)
    requires i < |v|
    ensures Written(v, i + 1) == Written(v, i) + LineText(v[i]) + if i < |v| - 1 then "," else ""
  {
    hide LineText;
    assert v[..i + 1][..i] == v[..i];
  }

  /** The reply has a line for each of the min(base, keys) keys that the report size asks for exactly if
      these are ten at most, and the ranking has them. */
  lemma ReplyIsWholeIff(ix: Index)
    requires Valid(ix)
    ensures Min(10, |Report(ix)|) == Min(ix.base, |ix.keys|) <==>
            Min(ix.base, |ix.keys|) <= 10 && (ix.base <= ix.max || |ix.keys| <= ix.max)
  {
    ReportIsReference(ix);
  }
}
