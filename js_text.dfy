/**
  The pieces of JavaScript string behaviour the poll code relies on:
  `String.prototype.trim`, filtering a list of strings by `s.trim()`,
  and the decimal rendering of integers used in template strings
  (and its inverse, `parseInt` on a plain digit string).
 */
module JsText {

  /** The ECMAScript WhiteSpace and LineTerminator code points that `trim` strips. */
  predicate IsWhitespace(c: char) {
    || c == '\t' || c == '\n' || c == '\U{000B}' || c == '\U{000C}' || c == '\r' || c == ' '
    || c == '\U{00A0}' || c == '\U{1680}' || ('\U{2000}' <= c <= '\U{200A}')
    || c == '\U{2028}' || c == '\U{2029}' || c == '\U{202F}' || c == '\U{205F}'
    || c == '\U{3000}' || c == '\U{FEFF}'
  }

  predicate AllWhitespace(s: string) {
    forall i :: 0 <= i < |s| ==> IsWhitespace(s[i])
  }

  /** How many whitespace characters `s` starts with. */
  function LeadingWhitespace(s: string): (n: nat)
    ensures n <= |s|
    ensures forall i :: 0 <= i < n ==> IsWhitespace(s[i])
    ensures n < |s| ==> !IsWhitespace(s[n])
  {
    if s != [] && IsWhitespace(s[0]) then
      var n := 1 + LeadingWhitespace(s[1..]);
      assert forall i :: 1 <= i < n ==> s[i] == s[1..][i - 1];
      n
    else
      0
  }

  /** How many whitespace characters `s` ends with. */
  function TrailingWhitespace(s: string): (n: nat)
    ensures n <= |s|
    ensures forall i :: |s| - n <= i < |s| ==> IsWhitespace(s[i])
    ensures n < |s| ==> !IsWhitespace(s[|s| - n - 1])
  {
    if s != [] && IsWhitespace(s[|s| - 1]) then
      1 + TrailingWhitespace(s[..|s| - 1])
    else
      0
  }

  /**
    `s.trim()`: the result is the slice of `s` after its leading whitespace
    that neither starts nor ends with whitespace, and what was cut off after
    it is all whitespace. It is empty exactly when `s` is all whitespace.
   */
  function Trim(s: string): (r: string)
    ensures r != [] ==> !IsWhitespace(r[0]) && !IsWhitespace(r[|r| - 1])
    ensures var k := LeadingWhitespace(s);
            && k + |r| <= |s| && r == s[k..k + |r|]
            && forall i :: k + |r| <= i < |s| ==> IsWhitespace(s[i])
    ensures r == [] <==> AllWhitespace(s)
  {
    var a := LeadingWhitespace(s);
    if a == |s| then
      assert s[a..a] == [];
      []
    else
      var r := s[a..|s| - TrailingWhitespace(s)];
      assert r[0] == s[a];
      r
  }

  /** A string made of whitespace only; `BlankIffTrimEmpty` shows these are the ones whose `trim()` is falsy. */
  predicate IsBlank(s: string) {
    s == [] || (IsWhitespace(s[0]) && IsBlank(s[1..]))
  }

  /** `!s.trim()` holds exactly of the blank strings. */
  lemma {:induction false} BlankIffTrimEmpty(s: string)
    ensures IsBlank(s) <==> Trim(s) == []
    ensures IsBlank(s) <==> AllWhitespace(s)
  {
    if s != [] {
      BlankIffTrimEmpty(s[1..]);
      assert AllWhitespace(s) <==> IsWhitespace(s[0]) && AllWhitespace(s[1..]) by {
        if IsWhitespace(s[0]) && AllWhitespace(s[1..]) {
          forall i | 0 <= i < |s| ensures IsWhitespace(s[i]) {
            if i > 0 { assert s[i] == s[1..][i - 1]; }
          }
        }
      }
    }
  }

  /** The trim of a string is never blank unless it is empty. */
  lemma TrimNotBlank(s: string)
    requires !IsBlank(s)
    ensures !IsBlank(Trim(s)) && Trim(s) != []
  {
    BlankIffTrimEmpty(s);
    BlankIffTrimEmpty(Trim(s));
    TrimIdempotent(s);
  }

  /** Trimming twice changes nothing more than trimming once. */
  lemma TrimIdempotent(s: string)
    ensures Trim(Trim(s)) == Trim(s)
  {
    var r := Trim(s);
    TrimUnchanged(r);
  }

  /** A string with no whitespace at either end is its own trim. */
  lemma TrimUnchanged(s: string)
    requires s != [] ==> !IsWhitespace(s[0]) && !IsWhitespace(s[|s| - 1])
    ensures Trim(s) == s
  {
    assert LeadingWhitespace(s) == 0;
    if s != [] {
      assert TrailingWhitespace(s) == 0;
    }
  }

  /** `list.filter(s => s.trim())`: the entries that are not blank, in their original order. */
  function NonBlank(list: seq<string>): (r: seq<string>)
    ensures |r| <= |list|
    ensures forall i :: 0 <= i < |r| ==> !IsBlank(r[i])
  {
    if list == [] then []
    else if IsBlank(list[0]) then NonBlank(list[1..])
    else [list[0]] + NonBlank(list[1..])
  }

  /** An entry is kept exactly when it is not blank. */
  lemma {:induction false} NonBlankMembers(list: seq<string>, x: string)
    ensures x in NonBlank(list) <==> x in list && !IsBlank(x)
  {
    if list != [] {
      NonBlankMembers(list[1..], x);
      assert x in list <==> x == list[0] || x in list[1..];
    }
  }

  /** Filtering distributes over concatenation, so the original order is kept. */
  lemma {:induction false} NonBlankAppend(a: seq<string>, b: seq<string>)
    ensures NonBlank(a + b) == NonBlank(a) + NonBlank(b)
  {
    if a == [] {
      assert a + b == b;
    } else {
      assert (a + b)[0] == a[0];
      assert (a + b)[1..] == a[1..] + b;
      NonBlankAppend(a[1..], b);
    }
  }

  /** A list with no blank entry passes the filter unchanged; in particular the filter is idempotent. */
  lemma {:induction false} NonBlankUnchanged(list: seq<string>)
    requires forall i :: 0 <= i < |list| ==> !IsBlank(list[i])
    ensures NonBlank(list) == list
  {
    if list != [] {
      NonBlankUnchanged(list[1..]);
    }
  }

  lemma NonBlankIdempotent(list: seq<string>)
    ensures NonBlank(NonBlank(list)) == NonBlank(list)
  {
    NonBlankUnchanged(NonBlank(list));
  }

  // Decimal rendering of integers, as `${n}` and String(n) produce it.

  predicate IsDigit(c: char) {
    '0' <= c <= '9'
  }

  predicate AllDigits(s: string) {
    forall i :: 0 <= i < |s| ==> IsDigit(s[i])
  }

  function DigitChar(d: nat): (c: char)
    requires d < 10
    ensures IsDigit(c) && c as int - '0' as int == d
  {
    ('0' as int + d) as char
  }

  function DigitValue(c: char): nat
    requires IsDigit(c)
  {
    c as int - '0' as int
  }

  /** The value of a string of decimal digits, as `parseInt` reads it. */
  function DecimalValue(s: string): nat
    requires AllDigits(s)
  {
    if s == [] then 0 else DecimalValue(s[..|s| - 1]) * 10 + DigitValue(s[|s| - 1])
  }

  /** The decimal digits of `n`, with no leading zero. */
  function NatToDecimal(n: nat): (r: string)
    ensures |r| >= 1 && AllDigits(r)
    ensures r[0] == '0' ==> n == 0
  {
    if n < 10 then [DigitChar(n)] else NatToDecimal(n / 10) + [DigitChar(n % 10)]
  }

  /** Reading the digits back gives the number. */
  lemma {:induction false} DecimalRoundTrip(n: nat)
    ensures DecimalValue(NatToDecimal(n)) == n
  {
    var r := NatToDecimal(n);
    if n >= 10 {
      DecimalRoundTrip(n / 10);
      assert r[..|r| - 1] == NatToDecimal(n / 10);
    }
  }

  /** How JavaScript renders an integer: a minus sign for negatives, then the digits. */
  function IntToDecimal(i: int): (r: string)
    ensures |r| >= 1
  {
    if i < 0 then "-" + NatToDecimal(-i) else NatToDecimal(i)
  }

  /** A string `IntToDecimal` can produce the shape of: an optional minus sign, then digits. */
  predicate IsIntText(s: string) {
    if s != [] && s[0] == '-' then |s| >= 2 && AllDigits(s[1..]) else |s| >= 1 && AllDigits(s)
  }

  function IntValue(s: string): int
    requires IsIntText(s)
  {
    if s[0] == '-' then -(DecimalValue(s[1..]) as int) else DecimalValue(s)
  }

  /** The rendered integer reads back as itself, so distinct integers render differently. */
  lemma IntRoundTrip(i: int)
    ensures IsIntText(IntToDecimal(i)) && IntValue(IntToDecimal(i)) == i
  {
    var r := IntToDecimal(i);
    if i < 0 {
      assert r[1..] == NatToDecimal(-i);
      DecimalRoundTrip(-i);
    } else {
      DecimalRoundTrip(i);
      assert r[0] != '-';
    }
  }
}
