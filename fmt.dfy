/** The two uses of Go's fmt package that the status report relies on: the
    worker renders "%d %s" with Sprintf, and the coordinator reads the same
    pattern back with Fscanf. Go's int is 64 bits wide. */
module Fmt {
  import opened Wrappers

  const MinInt64: int := -0x8000_0000_0000_0000
  const MaxInt64: int := 0x7fff_ffff_ffff_ffff

  /** fmt's own table of space characters (tab to carriage return, space,
      and the Unicode spaces it lists). */
  predicate IsSpace(c: char) {
    ('\t' <= c <= '\r') || c == ' ' || c == '\U{85}' || c == '\U{A0}' || c == '\U{1680}'
    || ('\U{2000}' <= c <= '\U{200A}') || c == '\U{2028}' || c == '\U{2029}'
    || c == '\U{202F}' || c == '\U{205F}' || c == '\U{3000}'
  }

  /** A space that Fscanf skips; a newline instead stops the scan with an error. */
  predicate IsBlank(c: char) { IsSpace(c) && c != '\n' }

  predicate IsTokenChar(c: char) { !IsSpace(c) }

  predicate IsDigit(c: char) { '0' <= c <= '9' }

  predicate AllDigits(s: string) { forall k :: 0 <= k < |s| ==> IsDigit(s[k]) }

  /** Length of the longest prefix of `s` whose characters all satisfy `p`. */
  function Span(s: string, p: char -> bool): (n: nat)
    ensures n <= |s|
    ensures forall k :: 0 <= k < n ==> p(s[k])
    ensures n < |s| ==> !p(s[n])
  {
    if s == [] || !p(s[0]) then 0 else 1 + Span(s[1..], p)
  }

  function DigitValue(c: char): (d: nat)
    requires IsDigit(c)
    ensures d < 10
  {
    c as int - '0' as int
  }

  function DigitChar(d: nat): (c: char)
    requires d < 10
    ensures IsDigit(c) && DigitValue(c) == d
  {
    (d + '0' as int) as char
  }

  /** The number a run of decimal digits denotes. */
  function DigitsValue(ds: string): nat
    requires AllDigits(ds)
  {
    if ds == [] then 0 else 10 * DigitsValue(ds[..|ds| - 1]) + DigitValue(ds[|ds| - 1])
  }

  /** %d of a non-negative number: its decimal digits, most significant first. */
  function NatString(n: nat): (s: string)
    ensures s != [] && AllDigits(s)
  {
    if n < 10 then [DigitChar(n)] else NatString(n / 10) + [DigitChar(n % 10)]
  }

  /** %d of an int: a minus sign before the digits of a negative number. */
  function IntString(i: int): string {
    if i < 0 then "-" + NatString(-i) else NatString(i)
  }

  /** Sprintf("%d %s", i, s). */
  function SprintIntString(i: int, s: string): string {
    IntString(i) + " " + s
  }

  /** The decimal digits at the start of `input`: their value and the input
      after them; None when `input` does not start with a digit. */
  function ScanDigits(input: string): Option<(nat, string)> {
    var nd := Span(input, IsDigit);
    if nd == 0 then None else Some((DigitsValue(input[..nd]), input[nd..]))
  }

  /** Fscanf's %d: skip leading spaces, read an optional sign and at least
      one decimal digit, and fail unless the number fits in 64 bits. Gives
      the number and the input that follows it. */
  function ScanInt(input: string): (r: Option<(int, string)>)
    ensures r.Some? ==> MinInt64 <= r.value.0 <= MaxInt64
  {
    var a := input[Span(input, IsBlank)..];
    var negative := a != [] && a[0] == '-';
    var b := if a != [] && (a[0] == '-' || a[0] == '+') then a[1..] else a;
    match ScanDigits(b)
    case None => None
    case Some((m, rest)) =>
      var v: int := if negative then -(m as int) else m;
      if v < MinInt64 || MaxInt64 < v then None else Some((v, rest))
  }

  /** The pattern's " %s" after the number: at least one space (the space in
      the pattern), then a non-empty token that ends at the next space. */
  function ScanSpaceToken(input: string): (r: Option<string>)
    ensures r.Some? ==> r.value != [] && forall k :: 0 <= k < |r.value| ==> !IsSpace(r.value[k])
  {
    if input == [] || !IsBlank(input[0]) then None
    else
      var d := input[Span(input, IsBlank)..];
      var t := Span(d, IsTokenChar);
      if t == 0 then None else Some(d[..t])
  }

  /** Fscanf(body, "%d %s", &i, &s); None is a scan error. Input after the
      token is not read. */
  function ScanIntString(body: string): (r: Option<(int, string)>)
    ensures r.Some? ==> MinInt64 <= r.value.0 <= MaxInt64
    ensures r.Some? ==> r.value.1 != [] && forall k :: 0 <= k < |r.value.1| ==> !IsSpace(r.value.1[k])
  {
    match ScanInt(body)
    case None => None
    case Some((v, rest)) =>
      match ScanSpaceToken(rest)
      case None => None
      case Some(t) => Some((v, t))
  }

  /** A prefix made only of characters satisfying `p`, stopped by one that
      does not (or by the end), is exactly what Span measures. */
  lemma SpanOfPrefix(x: string, y: string, p: char -> bool)
    requires forall k :: 0 <= k < |x| ==> p(x[k])
    requires y == [] || !p(y[0])
    ensures Span(x + y, p) == |x|
  {
    assert forall k :: 0 <= k < |x| ==> (x + y)[k] == x[k];
    if y != [] {
      assert (x + y)[|x|] == y[0];
    }
  }

  lemma {:induction false} NatStringValue(n: nat)
    ensures DigitsValue(NatString(n)) == n
  {
    if n >= 10 {
      var s := NatString(n);
      NatStringValue(n / 10);
      assert s[..|s| - 1] == NatString(n / 10);
    }
  }

  lemma ScanDigitsOf(digits: string, rest: string)
    requires digits != [] && AllDigits(digits)
    requires rest == [] || !IsDigit(rest[0])
    ensures ScanDigits(digits + rest) == Some((DigitsValue(digits), rest))
  {
    SpanOfPrefix(digits, rest, IsDigit);
    assert (digits + rest)[..|digits|] == digits;
    assert (digits + rest)[|digits|..] == rest;
  }

  /** Input that does not start with a blank is not skipped into. */
  lemma NoBlankSkipped(input: string)
    requires input != [] && !IsBlank(input[0])
    ensures input[Span(input, IsBlank)..] == input
  {
  }

  /** %d on a minus sign followed by digits: the negated number. */
  lemma ScanIntMinus(after: string, m: nat, rest: string)
    requires after != [] && IsDigit(after[0])
    requires ScanDigits(after) == Some((m, rest))
    requires m <= -MinInt64
    ensures ScanInt(['-'] + after) == Some((-(m as int), rest))
  {
    var input := ['-'] + after;
    NoBlankSkipped(input);
    assert input[1..] == after;
  }

  /** %d on digits: the number they denote. */
  lemma ScanIntDigits(input: string, m: nat, rest: string)
    requires input != [] && IsDigit(input[0])
    requires ScanDigits(input) == Some((m, rest))
    requires m <= MaxInt64
    ensures ScanInt(input) == Some((m, rest))
  {
    NoBlankSkipped(input);
  }

  lemma ScanIntOfNegative(i: int, rest: string)
    requires MinInt64 <= i < 0
    requires rest == [] || !IsDigit(rest[0])
    ensures ScanInt(IntString(i) + rest) == Some((i, rest))
  {
    var digits := NatString(-i);
    var after := digits + rest;
    assert IntString(i) + rest == ['-'] + after;
    NatStringValue(-i);
    ScanDigitsOf(digits, rest);
    assert after[0] == digits[0];
    ScanIntMinus(after, -i, rest);
  }

  lemma ScanIntOfNonNegative(i: nat, rest: string)
    requires i <= MaxInt64
    requires rest == [] || !IsDigit(rest[0])
    ensures ScanInt(IntString(i) + rest) == Some((i, rest))
  {
    var after := NatString(i) + rest;
    NatStringValue(i);
    ScanDigitsOf(NatString(i), rest);
    assert after[0] == NatString(i)[0];
    ScanIntDigits(after, i, rest);
    assert IntString(i) + rest == after;
  }

  /** %d reads back the digits %d wrote, stopping at the first non-digit. */
  lemma ScanIntOfIntString(i: int, rest: string)
    requires MinInt64 <= i <= MaxInt64
    requires rest == [] || !IsDigit(rest[0])
    ensures ScanInt(IntString(i) + rest) == Some((i, rest))
  {
    if i < 0 {
      ScanIntOfNegative(i, rest);
    } else {
      ScanIntOfNonNegative(i, rest);
    }
  }

  /** " %s" reads back a token written after one space. */
  lemma ScanSpaceTokenOf(s: string, rest: string)
    requires s != [] && forall k :: 0 <= k < |s| ==> !IsSpace(s[k])
    requires rest == [] || IsSpace(rest[0])
    ensures ScanSpaceToken(" " + s + rest) == Some(s)
  {
    var input := " " + s + rest;
    SpanOfPrefix(" ", s + rest, IsBlank);
    assert input == " " + (s + rest);
    assert input[1..] == s + rest;
    SpanOfPrefix(s, rest, IsTokenChar);
    assert (s + rest)[..|s|] == s;
  }

  /** Scanning what Sprintf("%d %s") produced gives back the number and the
      token, whenever the number fits in 64 bits and the token is a non-empty
      run of non-space characters; whatever follows a space after the token
      is ignored. */
  lemma SprintScanRoundTrip(i: int, s: string, rest: string)
    requires MinInt64 <= i <= MaxInt64
    requires s != [] && forall k :: 0 <= k < |s| ==> !IsSpace(s[k])
    requires rest == [] || IsSpace(rest[0])
    ensures ScanIntString(SprintIntString(i, s) + rest) == Some((i, s))
  {
    var after := " " + s + rest;
    assert SprintIntString(i, s) + rest == IntString(i) + after;
    ScanIntOfIntString(i, after);
    ScanSpaceTokenOf(s, rest);
  }

  /** A newline where the pattern's space stands is a scan error: Fscanf does
      not let spaces in the pattern match newlines in the input. */
  lemma NewlineAfterNumberRejected(i: int, rest: string)
    requires MinInt64 <= i <= MaxInt64
    ensures ScanIntString(IntString(i) + "\n" + rest) == None
  {
    assert IntString(i) + "\n" + rest == IntString(i) + ("\n" + rest);
    ScanIntOfIntString(i, "\n" + rest);
  }

  /** A number with nothing after it is a scan error: the token is missing. */
  lemma MissingTokenRejected(i: int)
    requires MinInt64 <= i <= MaxInt64
    ensures ScanIntString(IntString(i)) == None
  {
    assert IntString(i) + [] == IntString(i);
    ScanIntOfIntString(i, []);
  }
}
