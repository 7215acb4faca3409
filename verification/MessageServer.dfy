/** The two branches of MessageServer::onMessage that put messages on the queue. */
module MessageServer {
  import opened Decimal
  import opened MessageQueue
  import opened RankingIndex
  import opened Runs
  import opened TextStream

  const NPOS: nat := 0xFFFF_FFFF_FFFF_FFFF

  datatype Status = CmdFailed | CmdSucceeded

  datatype MaybeMessage = NoMessage | Send(msg: Message)

  /** std::string::find of a character from position 0. */
  function FindChar(s: string, c: char): nat {
    var i := IndexOf(s, c);
    if i < |s| then i else NPOS
  }

  /** std::string::substr with its count clipped to what is there. */
  function Substr(s: string, start: nat, count: nat): string
    requires start <= |s|
  {
    if count < |s| - start then s[start..start + count] else s[start..]
  }

  /** size_t subtraction. */
  function Minus(a: nat, b: nat): nat {
    (a - b) % TWO_64
  }

  /** The payload up to its first comma. */
  function KeyPart(data: string): string {
    HeadOf(data, ',')
  }

  /** The payload after its first comma. */
  function AfterKey(data: string): string {
    TailOf(data, ',')
  }

  /** The port of a payload: its text after the first comma, 0 when that is no number. */
  function PortOf(data: string): nat {
    if ',' in data && Stoi(AfterKey(data)).Value? then Stoi(AfterKey(data)).v % TWO_32 else 0
  }

  lemma PayloadSplits(data: string)
    ensures ',' !in KeyPart(data)
    ensures data == if ',' in data then KeyPart(data) + [','] + AfterKey(data) else KeyPart(data)
  {
    SplitAtFirst(data, ',');
  }

  /** What keySent puts on the queue. The port is in the 16-bit field; the 32-bit field stays 0. */
  function KeyMessage(data: string): Message {
    Message(AddKeyCommand, KeyPart(data), AfterKey(data), 0, PortOf(data) % TWO_16, 0)
  }

  /** The message of a payload: everything up to the first comma is the key, everything behind it the
      url, and the number that the url begins with, if any, is in the 16-bit field. */
  ghost predicate CarriesPayload(m: Message, data: string) {
    && m.cmd.AddKeyCommand? && m.number == 0 && m.byte == 0 && ',' !in m.str1
    && (if ',' in data then data == m.str1 + "," + m.str2 else data == m.str1 && m.str2 == "")
    && m.short == if Stoi(m.str2).Value? then Stoi(m.str2).v % TWO_16 else 0
  }

  lemma KeyMessageCarries(data: string)
    ensures CarriesPayload(KeyMessage(data), data)
  {
    PayloadSplits(data);
    if ',' in data {
      SameLowBits(PortNumber(data));
    }
  }

  function PortNumber(data: string): int {
    if Stoi(AfterKey(data)).Value? then Stoi(AfterKey(data)).v else 0
  }

  lemma SameLowBits(v: int)
    ensures v % TWO_32 % TWO_16 == v % TWO_16
  {
    var q := v / TWO_32;
    assert v == TWO_16 * (TWO_16 * q) + v % TWO_32;
    SameRemainder(v % TWO_32, TWO_16 * q);
  }

  lemma SameRemainder(a: int, q: int)
    ensures (TWO_16 * q + a) % TWO_16 == a % TWO_16
  {
    var r := (TWO_16 * q + a) % TWO_16;
    assert TWO_16 * q + a - r == TWO_16 * ((TWO_16 * q + a) / TWO_16);
  }

  /** There is only one such message. */
  lemma PayloadDetermines(m: Message, data: string)
    requires CarriesPayload(m, data)
    ensures m == KeyMessage(data)
  {
    KeyMessageCarries(data);
    if ',' in data {
      IndexOfFirst(m.str1, ',', m.str2);
      IndexOfFirst(KeyPart(data), ',', AfterKey(data));
      assert m.str1 + [','] + m.str2 == KeyPart(data) + [','] + AfterKey(data);
      assert m.str1 == data[..|m.str1|] == KeyPart(data);
      assert m.str2 == data[|m.str1| + 1..] == AfterKey(data);
    }
  }

  lemma FindFirst(s: string, c: char)
    requires |s| < NPOS
    ensures FindChar(s, c) == if c in s then IndexOf(s, c) else NPOS
    ensures c in s <==> IndexOf(s, c) < |s|
  {
    assert s[..|s|] == s;
  }

  /** A size_t difference of one too little is larger than any string, so substr takes everything. */
  lemma WrapsAround(end: nat)
    requires end < NPOS
    ensures Minus(end, end + 1) == NPOS && Minus(end, 0) == end
  {
  }

  /** keySent. The second search starts at 0 again, so it finds the same comma: the url runs to the
      end of the payload and the port is read from the same text. The port goes into the 16-bit
      field of the message, so the 32-bit field stays 0. */
  method KeySent(inData: string) returns (message: Message, outData: string)
    requires |inData| < NPOS
    ensures message == KeyMessage(inData) && CarriesPayload(message, inData)
    ensures message.cmd.AddKeyCommand? && message.number == 0 && ',' !in message.str1
    ensures if ',' in inData then inData == message.str1 + "," + message.str2
            else message.str1 == inData && message.str2 == ""
    ensures outData == "reported key sent : " + message.str1
  {
    KeyMessageCarries(inData);
    var port: nat := 0;
    var key, url := "", "";
    var start: nat := 0;
    FindFirst(inData, ',');
    var end := FindChar(inData, ',');
    if end == NPOS {
      assert inData[..|inData|] == inData;
      key := inData[start..];
    } else {
      WrapsAround(end);
      key := Substr(inData, start, Minus(end, start));
      start := end + 1;
      end := FindChar(inData, ',');
      if end == NPOS {
        assert false; // the comma found before is found again
      } else {
        url := Substr(inData, start, Minus(end, start));
        var n := Stoi(inData[1 + end..]);
        port := if n.Value? then n.v % TWO_32 else 0;
      }
    }
    message := Message(AddKeyCommand, key, url, 0, port % TWO_16, 0);
    outData := "reported key sent : " + key;
  }

  function SizeRequest(n: nat): Message {
    Message(SetRankingLength, "", "", 0, n % TWO_16, 0)
  }

  /** setTopHotKeys: the request is refused with a reason, or sent with a confirmation. */
  method SetTopHotKeys(inData: string) returns (status: Status, message: MaybeMessage, outData: string)
    ensures status.CmdSucceeded? <==> Stoi(inData).Value? && Stoi(inData).v > 0
    ensures message == if status.CmdSucceeded? then Send(SizeRequest(Stoi(inData).v)) else NoMessage
    ensures outData == match Stoi(inData)
                       case InvalidArgument => "Invalid Argument: " + inData
                       case OutOfRange => "Argument out of range: " + inData
                       case Value(v) => (if v > 0 then "Top key report size is now "
                                         else "Argument should be greater than zero: ") + inData
    ensures forall blanks, n: nat :: Blanks(blanks) && inData == blanks + ToText(n) ==>
              if n == 0 then message == NoMessage && outData == "Argument should be greater than zero: " + inData
              else if n < TWO_31 then outData == "Top key report size is now " + inData
                && message == Send(Message(SetRankingLength, "", "", 0, n % TWO_16, 0))
              else message == NoMessage && outData == "Argument out of range: " + inData
    ensures forall blanks, n: nat :: Blanks(blanks) && inData == blanks + ("-" + ToText(n)) ==>
              && status == CmdFailed && message == NoMessage
              && outData == (if n <= TWO_31 then "Argument should be greater than zero: "
                             else "Argument out of range: ") + inData
    ensures Blanks(inData) ==> status == CmdFailed && outData == "Invalid Argument: " + inData
  {
    forall blanks, n: nat | Blanks(blanks) {
      SignedTextReads(blanks, n);
    }
    if Blanks(inData) {
      SignedTextReads(inData, 0);
    }
    var num := Stoi(inData);
    if num.InvalidArgument? {
      return CmdFailed, NoMessage, "Invalid Argument: " + inData;
    }
    if num.OutOfRange? {
      return CmdFailed, NoMessage, "Argument out of range: " + inData;
    }
    if num.v <= 0 {
      return CmdFailed, NoMessage, "Argument should be greater than zero: " + inData;
    }
    return CmdSucceeded, Send(SizeRequest(num.v)), "Top key report size is now " + inData;
  }

  /** What an accepted size request does to the report length. The request is narrowed to 16 bits on its
      way, so it gets min(n, max) exactly if n fits or its low 16 bits reach the maximum anyway; a
      multiple of 65536 empties the report although the request was answered with success. */
  lemma SizeRequestEffect(ix: Index, n: nat)
    requires 0 < n < TWO_31 && ix.max < TWO_16
    ensures var base := ApplyMessage(ix, SizeRequest(n)).base;
            && (base == Min(n, ix.max) <==> n < TWO_16 || n % TWO_16 >= ix.max)
            && (base == 0 <==> n % TWO_16 == 0 || ix.max == 0)
  {
  }
}
