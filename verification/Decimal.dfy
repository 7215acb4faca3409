/** Numbers as text: what operator<< and std::to_string write for an unsigned number, and how
    std::stoi and std::stoul read a text back (ISO C++17, section 24.3.4). */
module Decimal {

  const TWO_31: int := 0x8000_0000
  const TWO_32: int := 0x1_0000_0000
  const TWO_64: int := 0x1_0000_0000_0000_0000

  /** The value of a conversion, or the exception it throws. */
  datatype Number = Value(v: int) | InvalidArgument | OutOfRange

  function Digit(d: nat): char
    requires d < 10
  {
    ('0' as int + d) as char
  }

  function ToText(n: nat): string {
    if n < 10 then [Digit(n)] else ToText(n / 10) + [Digit(n % 10)]
  }

  predicate IsDigit(c: char) {
    '0' <= c <= '9'
  }

  predicate AllDigits(s: string) {
    forall i :: 0 <= i < |s| ==> IsDigit(s[i])
  }

  /** isspace in the "C" locale: blank, and tab to carriage return. */
  predicate IsSpace(c: char) {
    c == ' ' || 9 <= c as int <= 13
  }

  function SkipSpaces(s: string): string {
    if s != [] && IsSpace(s[0]) then SkipSpaces(s[1..]) else s
  }

  function LeadingDigits(s: string): (n: nat)
    ensures n <= |s| && AllDigits(s[..n])
    ensures n < |s| ==> !IsDigit(s[n])
  {
    if s != [] && IsDigit(s[0]) then
      var n := 1 + LeadingDigits(s[1..]);
      assert s[..n] == [s[0]] + s[1..][..n - 1];
      n
    else 0
  }

  function ValueOf(s: string): nat
    requires AllDigits(s)
  {
    if s == [] then 0
    else 10 * ValueOf(s[..|s| - 1]) + (s[|s| - 1] as int - '0' as int)
  }

  predicate HasSign(s: string) {
    s != [] && (s[0] == '-' || s[0] == '+')
  }

  /** The digits that strtol and strtoul convert. */
  function DigitsOf(s: string): (d: string)
    ensures AllDigits(d)
  {
    var t := SkipSpaces(s);
    var u := if HasSign(t) then t[1..] else t;
    u[..LeadingDigits(u)]
  }

  predicate IsNegative(s: string) {
    var t := SkipSpaces(s);
    t != [] && t[0] == '-'
  }

  function Stoul(s: string): Number {
    var digits := DigitsOf(s);
    if digits == [] then InvalidArgument
    else if ValueOf(digits) >= TWO_64 then OutOfRange
    else if IsNegative(s) then Value((TWO_64 - ValueOf(digits)) % TWO_64)
    else Value(ValueOf(digits))
  }

  function Stoi(s: string): Number {
    var digits := DigitsOf(s);
    if digits == [] then InvalidArgument
    else
      var v: int := if IsNegative(s) then -(ValueOf(digits) as int) else ValueOf(digits);
      if -TWO_31 <= v < TWO_31 then Value(v) else OutOfRange
  }

  // ---------------------------------------------------------------- what a conversion reads, on every text

  /** Blank, tab, newline, vertical tab, form feed and carriage return. */
  predicate IsBlank(c: char) {
    c as int in {32, 9, 10, 11, 12, 13}
  }

  predicate Blanks(s: string) {
    forall i :: 0 <= i < |s| ==> IsBlank(s[i])
  }

  /** A text taken apart: blanks, at most one sign, digits, and what is left. */
  predicate Parts(s: string, blanks: string, sign: string, digits: string, rest: string) {
    && s == blanks + (sign + (digits + rest))
    && Blanks(blanks) && (sign == "" || sign == "+" || sign == "-") && AllDigits(digits)
    && (rest != [] ==> !IsDigit(rest[0]))
    && (sign == "" && digits == "" && rest != [] ==> !IsBlank(rest[0]) && rest[0] != '+' && rest[0] != '-')
  }

  lemma {:induction false} SkipBlanks(blanks: string, t: string)
    requires Blanks(blanks) && (t != [] ==> !IsBlank(t[0]))
    ensures SkipSpaces(blanks + t) == t
  {
    if blanks == [] {
      assert blanks + t == t;
    } else {
      assert (blanks + t)[1..] == blanks[1..] + t;
      SkipBlanks(blanks[1..], t);
    }
  }

  lemma {:induction false} DigitsLead(digits: string, rest: string)
    requires AllDigits(digits) && (rest != [] ==> !IsDigit(rest[0]))
    ensures LeadingDigits(digits + rest) == |digits|
  {
    if digits == [] {
      assert digits + rest == rest;
    } else {
      assert (digits + rest)[1..] == digits[1..] + rest;
      DigitsLead(digits[1..], rest);
    }
  }

  /** The sign and the digits are found where they are. */
  lemma PartsAreFound(s: string, blanks: string, sign: string, digits: string, rest: string)
    requires Parts(s, blanks, sign, digits, rest)
    ensures DigitsOf(s) == digits && (IsNegative(s) <==> sign == "-")
  {
    var t := sign + (digits + rest);
    assert t != [] ==> t[0] == if sign != "" then sign[0] else if digits != "" then digits[0] else rest[0];
    SkipBlanks(blanks, t);
    assert sign != "" ==> t[1..] == digits + rest;
    assert sign == "" ==> t == digits + rest;
    DigitsLead(digits, rest);
    assert (digits + rest)[..|digits|] == digits;
  }

  /** What stoi makes of any text, by its parts. */
  lemma StoiIs(s: string, blanks: string, sign: string, digits: string, rest: string)
    requires Parts(s, blanks, sign, digits, rest)
    ensures digits == "" ==> Stoi(s) == InvalidArgument
    ensures digits != "" && sign != "-" ==>
              Stoi(s) == if ValueOf(digits) < TWO_31 then Value(ValueOf(digits)) else OutOfRange
    ensures digits != "" && sign == "-" ==>
              Stoi(s) == if ValueOf(digits) <= TWO_31 then Value(-(ValueOf(digits) as int)) else OutOfRange
  {
    PartsAreFound(s, blanks, sign, digits, rest);
  }

  /** And stoul: a negative number is taken modulo 2^64. */
  lemma StoulIs(s: string, blanks: string, sign: string, digits: string, rest: string)
    requires Parts(s, blanks, sign, digits, rest)
    ensures digits == "" ==> Stoul(s) == InvalidArgument
    ensures digits != "" && ValueOf(digits) >= TWO_64 ==> Stoul(s) == OutOfRange
    ensures digits != "" && ValueOf(digits) < TWO_64 ==>
              && Stoul(s).Value? && 0 <= Stoul(s).v < TWO_64
              && (sign != "-" ==> Stoul(s).v == ValueOf(digits))
              && (sign == "-" ==> (Stoul(s).v + ValueOf(digits)) % TWO_64 == 0)
  {
    PartsAreFound(s, blanks, sign, digits, rest);
  }

  /** Every text can be taken apart. */
  lemma {:induction false} EveryTextHasParts(s: string) returns (blanks: string, sign: string, digits: string, rest: string)
    ensures Parts(s, blanks, sign, digits, rest)
  {
    if s != [] && IsBlank(s[0]) {
      blanks, sign, digits, rest := EveryTextHasParts(s[1..]);
      OneMoreBlank(s, blanks, sign, digits, rest);
      blanks := [s[0]] + blanks;
    } else {
      blanks := "";
      sign := if s != [] && s[0] == '-' then "-" else if s != [] && s[0] == '+' then "+" else "";
      digits, rest := DigitsFirst(s[|sign|..]);
      assert sign + (digits + rest) == s;
    }
  }

  lemma OneMoreBlank(s: string, blanks: string, sign: string, digits: string, rest: string)
    requires s != [] && IsBlank(s[0]) && Parts(s[1..], blanks, sign, digits, rest)
    ensures Parts(s, [s[0]] + blanks, sign, digits, rest)
  {
    assert s == [s[0]] + s[1..];
  }

  lemma DigitsFirst(u: string) returns (digits: string, rest: string)
    ensures u == digits + rest && AllDigits(digits) && (rest != [] ==> !IsDigit(rest[0]))
    ensures digits == "" ==> rest == u
  {
    var n := LeadingDigits(u);
    digits, rest := u[..n], u[n..];
  }

  /** The decimal text of a number: digits of that value, with no leading zero. */
  predicate Writes(text: string, n: nat) {
    && text != "" && AllDigits(text) && ValueOf(text) == n
    && (text[0] == '0' ==> text == "0")
  }

  lemma {:induction false} TextIsDecimal(n: nat)
    ensures Writes(ToText(n), n)
  {
    if n < 10 {
      assert ToText(n)[..0] == [] && ValueOf([]) == 0;
    } else {
      TextIsDecimal(n / 10);
      assert ToText(n)[..|ToText(n)| - 1] == ToText(n / 10);
    }
  }

  lemma {:induction false} PositiveValue(s: string)
    requires AllDigits(s) && s != "" && s[0] != '0'
    ensures ValueOf(s) > 0
  {
    if |s| > 1 {
      PositiveValue(s[..|s| - 1]);
    }
  }

  /** There is only one. */
  lemma {:induction false} DecimalIsUnique(s: string, t: string, n: nat)
    requires Writes(s, n) && Writes(t, n)
    ensures s == t
    decreases |s|
  {
    if |s| == 1 || |t| == 1 {
      if |t| > 1 {
        PositiveValue(t[..|t| - 1]);
      } else if |s| > 1 {
        PositiveValue(s[..|s| - 1]);
      }
      assert ValueOf(s[..0]) == ValueOf(t[..0]) == 0;
    } else {
      DecimalIsUnique(s[..|s| - 1], t[..|t| - 1], n / 10);
      assert s == s[..|s| - 1] + [s[|s| - 1]] && t == t[..|t| - 1] + [t[|t| - 1]];
    }
  }

  /** A written number with blanks and a sign in front. */
  lemma SignedTextReads(blanks: string, n: nat)
    requires Blanks(blanks)
    ensures Stoi(blanks + ("-" + ToText(n))) == if n <= TWO_31 then Value(-(n as int)) else OutOfRange
    ensures Stoi(blanks + ("+" + ToText(n))) == if n < TWO_31 then Value(n) else OutOfRange
    ensures Stoi(blanks + ToText(n)) == if n < TWO_31 then Value(n) else OutOfRange
    ensures Stoi(blanks) == InvalidArgument
  {
    TextIsDecimal(n);
    var text := ToText(n);
    assert text + "" == text && "" + (text + "") == text && "" + ("" + "") == "" && blanks + "" == blanks;
    StoiIs(blanks + ("-" + text), blanks, "-", text, "");
    StoiIs(blanks + ("+" + text), blanks, "+", text, "");
    StoiIs(blanks + text, blanks, "", text, "");
    StoiIs(blanks, blanks, "", "", "");
  }

  // ---------------------------------------------------------------- written numbers read back

  lemma {:induction false} AllLeading(s: string)
    requires AllDigits(s)
    ensures LeadingDigits(s) == |s|
  {
    if s != [] {
      AllLeading(s[1..]);
    }
  }

  lemma TextIsUnsigned(n: nat)
    ensures DigitsOf(ToText(n)) == ToText(n) && !IsNegative(ToText(n))
    ensures AllDigits(ToText(n)) && ToText(n) != [] && ValueOf(ToText(n)) == n
  {
    TextIsDecimal(n);
    AllLeading(ToText(n));
    assert IsDigit(ToText(n)[0]);
    assert SkipSpaces(ToText(n)) == ToText(n);
  }

  /** A 64-bit count written by a backup is read back; a larger number is refused, not misread. */
  lemma StoulReadsText(n: nat)
    ensures Stoul(ToText(n)) == if n < TWO_64 then Value(n) else OutOfRange
  {
    TextIsUnsigned(n);
  }

  /** The port goes through a signed conversion, which refuses the upper half of its range. */
  lemma StoiReadsText(n: nat)
    ensures Stoi(ToText(n)) == if n < TWO_31 then Value(n) else OutOfRange
  {
    TextIsUnsigned(n);
  }

  lemma {:induction false} DigitsStopAt(a: string, c: char, t: string)
    requires !IsDigit(c)
    ensures LeadingDigits(a + [c] + t) == LeadingDigits(a)
  {
    if a != [] {
      assert (a + [c] + t)[1..] == a[1..] + [c] + t;
      DigitsStopAt(a[1..], c, t);
    }
  }

  lemma {:induction false} SpacesStopAt(a: string, c: char, t: string)
    requires !IsSpace(c)
    ensures SkipSpaces(a + [c] + t) == SkipSpaces(a) + [c] + t
  {
    if a != [] {
      assert (a + [c] + t)[1..] == a[1..] + [c] + t;
      SpacesStopAt(a[1..], c, t);
    }
  }

  /** A conversion does not look beyond a comma. */
  lemma StoiStopsAtComma(a: string, t: string)
    ensures Stoi(a + [','] + t) == Stoi(a)
  {
    SpacesStopAt(a, ',', t);
    var b := SkipSpaces(a);
    var u := if HasSign(b) then b[1..] else b;
    assert HasSign(b) ==> (b + [','] + t)[1..] == b[1..] + [','] + t;
    DigitsStopAt(u, ',', t);
    assert (u + [','] + t)[..LeadingDigits(u)] == u[..LeadingDigits(u)];
  }

  lemma TextHasNo(n: nat, c: char)
    requires !IsDigit(c)
    ensures c !in ToText(n)
  {
    TextIsDecimal(n);
  }
}
