/** An input file stream as std::getline sees it (ISO C++17, section 24.3.3.9): the characters not
    yet extracted, and the two state bits a string extraction can set. */
module TextStream {

  datatype Stream = Stream(rest: string, eof: bool, fail: bool) {
    predicate Good() {
      !eof && !fail
    }
  }

  function Open(text: string): Stream {
    Stream(text, false, false)
  }

  function IndexOf(s: string, c: char): (i: nat)
    ensures i <= |s|
    ensures i < |s| ==> s[i] == c
    ensures c !in s[..i]
  {
    if s == [] || s[0] == c then 0
    else
      var i := 1 + IndexOf(s[1..], c);
      assert s[..i] == [s[0]] + s[1..][..i - 1];
      i
  }

  /** What stands before the first c, and what stands after it. */
  function HeadOf(s: string, c: char): string {
    s[..IndexOf(s, c)]
  }

  function TailOf(s: string, c: char): string {
    if c in s then s[IndexOf(s, c) + 1..] else ""
  }

  lemma SplitAtFirst(s: string, c: char)
    ensures c !in HeadOf(s, c)
    ensures s == if c in s then HeadOf(s, c) + [c] + TailOf(s, c) else HeadOf(s, c)
  {
    var i := IndexOf(s, c);
    if i < |s| {
      assert s[i] == c;
    } else {
      assert s[..i] == s;
    }
  }

  /** One getline up to `delim`. On a stream that is not good the sentry only sets failbit; the
      string argument then keeps its old value, which no caller looks at, so "" stands for it.
      Running into the end sets eofbit, and failbit too when not a single character was there. */
  function GetLine(st: Stream, delim: char): (r: (Stream, string))
    ensures r.0.Good() ==> st.Good() && |r.0.rest| < |st.rest| && delim !in r.1
    ensures (st.fail ==> st.eof) ==> (r.0.fail ==> r.0.eof)
  {
    if !st.Good() then (st.(fail := true), "")
    else
      var i := IndexOf(st.rest, delim);
      if i < |st.rest| then (Open(st.rest[i + 1..]), st.rest[..i])
      else (Stream("", true, st.rest == []), st.rest)
  }

  /** A getline takes everything up to the delimiter and the delimiter; without one it takes everything,
      and the stream is at its end. */
  lemma GetLineSplits(text: string, delim: char)
    ensures var (next, field) := GetLine(Open(text), delim);
            if delim in text then
              delim !in field && next.Good() && text == field + [delim] + next.rest
            else field == text && next.eof && next.rest == "" && (next.fail <==> text == "")
  {
    SplitAtFirst(text, delim);
    var i := IndexOf(text, delim);
    assert delim in text ==> i < |text| by { assert text[..|text|] == text; }
  }

  lemma {:induction false} IndexOfFirst(field: string, delim: char, tail: string)
    requires delim !in field
    ensures IndexOf(field + [delim] + tail, delim) == |field|
  {
    if field != [] {
      assert (field + [delim] + tail)[1..] == field[1..] + [delim] + tail;
      IndexOfFirst(field[1..], delim, tail);
    }
  }

  lemma GetLineFinds(field: string, delim: char, tail: string)
    requires delim !in field
    ensures GetLine(Open(field + [delim] + tail), delim) == (Open(tail), field)
  {
    IndexOfFirst(field, delim, tail);
    var s := field + [delim] + tail;
    assert s[..|field|] == field && s[|field| + 1..] == tail;
  }
}
