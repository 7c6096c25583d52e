/** String operations the signature model relies on: Ruby's String#strip,
    String#downcase, Object#blank? on strings, Integer#to_s and the integer
    literal test of Rails' numericality validator. */
module Text {

  /** The characters String#strip removes: NUL, tab, line feed, vertical
      tab, form feed, carriage return and space. */
  predicate IsStripSpace(c: char)
  {
    c == '\0' || c == '\t' || c == '\n' || c == '\U{000B}' || c == '\U{000C}' || c == '\r' || c == ' '
  }

  predicate AllStripSpace(s: string)
  {
    forall i :: 0 <= i < |s| ==> IsStripSpace(s[i])
  }

  /** Number of strip-space characters at the start of s. */
  function LeadingSpace(s: string): (n: nat)
    ensures n <= |s| && AllStripSpace(s[..n])
    ensures n == |s| || !IsStripSpace(s[n])
  {
    if s == [] || !IsStripSpace(s[0]) then 0
    else
      var n := 1 + LeadingSpace(s[1..]);
      assert s[..n] == [s[0]] + s[1..][..n - 1];
      n
  }

  /** Number of strip-space characters at the end of s. */
  function TrailingSpace(s: string): (n: nat)
    ensures n <= |s| && AllStripSpace(s[|s| - n..])
    ensures n == |s| || !IsStripSpace(s[|s| - 1 - n])
  {
    if s == [] || !IsStripSpace(s[|s| - 1]) then 0
    else
      var n := 1 + TrailingSpace(s[..|s| - 1]);
      assert s[|s| - n..] == s[..|s| - 1][|s| - n..] + [s[|s| - 1]];
      n
  }

  /** String#strip. */
  function Strip(s: string): (r: string)
    ensures r == [] || (!IsStripSpace(r[0]) && !IsStripSpace(r[|r| - 1]))
    ensures exists i, j :: 0 <= i <= j <= |s| && r == s[i..j] && AllStripSpace(s[..i]) && AllStripSpace(s[j..])
  {
    var i := LeadingSpace(s);
    var rest := s[i..];
    var k := TrailingSpace(rest);
    var r := rest[..|rest| - k];
    assert r == s[i..|s| - k];
    assert s[|s| - k..] == rest[|rest| - k..];
    r
  }

  /** A string with no strip-space at either end is left as it is. */
  lemma StripOfTrimmed(s: string)
    requires s == [] || (!IsStripSpace(s[0]) && !IsStripSpace(s[|s| - 1]))
    ensures Strip(s) == s
  {
    assert LeadingSpace(s) == 0;
    assert s[0..] == s;
    assert TrailingSpace(s) == 0;
  }

  /** Stripping is idempotent: a stripped string is left as it is. */
  lemma StripIdempotent(s: string)
    ensures Strip(Strip(s)) == Strip(s)
  {
    StripOfTrimmed(Strip(s));
  }

  predicate IsUpper(c: char)
  {
    'A' <= c <= 'Z'
  }

  function LowerChar(c: char): (l: char)
    ensures !IsUpper(l)
    ensures IsUpper(c) ==> l as int == c as int + 32
    ensures !IsUpper(c) ==> l == c
  {
    if IsUpper(c) then (c as int + 32) as char else c
  }

  /** String#downcase, restricted to the ASCII letters. */
  function Downcase(s: string): (r: string)
    ensures |r| == |s|
    ensures forall i :: 0 <= i < |r| ==> r[i] == LowerChar(s[i])
    ensures forall i :: 0 <= i < |r| ==> !IsUpper(r[i])
    ensures forall i :: 0 <= i < |r| ==> (r[i] == s[i] <==> !IsUpper(s[i]))
    ensures forall i :: 0 <= i < |r| ==> (IsStripSpace(r[i]) <==> IsStripSpace(s[i]))
  {
    if s == [] then [] else [LowerChar(s[0])] + Downcase(s[1..])
  }

  /** Lower-casing a lower-cased string leaves it as it is. */
  lemma {:induction false} DowncaseIdempotent(s: string)
    ensures Downcase(Downcase(s)) == Downcase(s)
  {
    if s != [] {
      DowncaseIdempotent(s[1..]);
      assert Downcase(s)[1..] == Downcase(s[1..]);
    }
  }

  /** Lower-casing a stripped string leaves it stripped. */
  lemma StripOfDowncasedStripped(s: string)
    ensures Strip(Downcase(Strip(s))) == Downcase(Strip(s))
  {
    var t := Strip(s);
    var d := Downcase(t);
    if d != [] {
      assert IsStripSpace(d[0]) <==> IsStripSpace(t[0]);
      assert IsStripSpace(d[|d| - 1]) <==> IsStripSpace(t[|t| - 1]);
    }
    StripOfTrimmed(d);
  }

  /** The whitespace Object#blank? sees on a string ([[:space:]]): ASCII
      white space and the Unicode space separators. NUL is not blank. */
  predicate IsBlankSpace(c: char)
  {
    c == ' ' || c == '\t' || c == '\n' || c == '\U{000B}' || c == '\U{000C}' || c == '\r'
    || c == '\U{0085}' || c == '\U{00A0}' || c == '\U{1680}' || ('\U{2000}' <= c <= '\U{200A}')
    || c == '\U{2028}' || c == '\U{2029}' || c == '\U{202F}' || c == '\U{205F}' || c == '\U{3000}'
  }

  /** String#blank?: empty or white space only. */
  predicate IsBlank(s: string)
  {
    forall i :: 0 <= i < |s| ==> IsBlankSpace(s[i])
  }

  predicate IsDigit(c: char)
  {
    '0' <= c <= '9'
  }

  function DigitChar(d: int): (c: char)
    requires 0 <= d < 10
    ensures IsDigit(c)
  {
    ('0' as int + d) as char
  }

  function DigitValue(c: char): (d: int)
    requires IsDigit(c)
    ensures 0 <= d < 10 && DigitChar(d) == c
  {
    c as int - '0' as int
  }

  /** Decimal digits of a natural number, without leading zeros. */
  function NatToString(n: nat): (s: string)
    ensures |s| >= 1 && forall i :: 0 <= i < |s| ==> IsDigit(s[i])
    ensures |s| > 1 ==> s[0] != '0'
    ensures s[0] == '0' <==> n == 0
  {
    if n < 10 then [DigitChar(n)] else NatToString(n / 10) + [DigitChar(n % 10)]
  }

  /** Integer#to_s: decimal, with a leading '-' for negatives. */
  function IntToString(n: int): (s: string)
    ensures |s| >= 1
    ensures s[0] == '-' <==> n < 0
    ensures s[0] == '-' ==> |s| >= 2 && IsDigit(s[1])
    ensures forall i :: 0 < i < |s| ==> IsDigit(s[i])
    ensures IsDigit(s[0]) || s[0] == '-'
    ensures s[0] == '-' ==> s[1] != '0'
    ensures s[0] != '-' && |s| > 1 ==> s[0] != '0'
    ensures s == "0" <==> n == 0
  {
    if n < 0 then "-" + NatToString(-n) else NatToString(n)
  }

  /** Value of a string of decimal digits. */
  function ParseDigits(s: string): nat
    requires forall i :: 0 <= i < |s| ==> IsDigit(s[i])
  {
    if s == [] then 0 else 10 * ParseDigits(s[..|s| - 1]) + DigitValue(s[|s| - 1])
  }

  /** String#to_i on what Integer#to_s produced. */
  function ParseInt(s: string): int
  {
    if |s| >= 1 && s[0] == '-' && forall i :: 1 <= i < |s| ==> IsDigit(s[i]) then -(ParseDigits(s[1..]) as int)
    else if forall i :: 0 <= i < |s| ==> IsDigit(s[i]) then ParseDigits(s)
    else 0
  }

  lemma {:induction false} NatToStringRoundTrip(n: nat)
    ensures ParseDigits(NatToString(n)) == n
  {
    if n >= 10 {
      NatToStringRoundTrip(n / 10);
      var s := NatToString(n);
      assert s[..|s| - 1] == NatToString(n / 10);
    }
  }

  /** Reading back what Integer#to_s wrote gives the integer again. */
  lemma IntToStringRoundTrip(n: int)
    ensures ParseInt(IntToString(n)) == n
  {
    var s := IntToString(n);
    if n < 0 {
      NatToStringRoundTrip(-n);
      assert s[1..] == NatToString(-n);
    } else {
      NatToStringRoundTrip(n);
    }
  }

  /** Distinct integers have distinct decimal renderings. */
  lemma IntToStringInjective(a: int, b: int)
    ensures IntToString(a) == IntToString(b) <==> a == b
  {
    if IntToString(a) == IntToString(b) {
      IntToStringRoundTrip(a);
      IntToStringRoundTrip(b);
    }
  }

  /** When a shorter rendering and its rest spell a longer rendering and
      its rest, the rest starts inside the longer rendering's digits. */
  lemma ShorterRenderingMeetsDigit(a: int, b: int, r1: string, r2: string)
    ensures IntToString(a) + r1 == IntToString(b) + r2 && |IntToString(a)| < |IntToString(b)| && r1 != []
        ==> IsDigit(r1[0])
  {
    var sa, sb := IntToString(a), IntToString(b);
    if sa + r1 == sb + r2 && |sa| < |sb| && r1 != [] {
      assert (sa + r1)[|sa|] == r1[0];
      assert (sb + r2)[|sa|] == sb[|sa|];
    }
  }

  /** A rendering followed by a non-digit ends where the rendering ends:
      two such strings are equal only for the same integer and the same
      rest. */
  lemma RenderingPrefix(a: int, b: int, r1: string, r2: string)
    requires IntToString(a) + r1 == IntToString(b) + r2
    requires r1 != [] && r2 != [] && !IsDigit(r1[0]) && !IsDigit(r2[0])
    ensures a == b && r1 == r2
  {
    var sa, sb := IntToString(a), IntToString(b);
    ShorterRenderingMeetsDigit(a, b, r1, r2);
    ShorterRenderingMeetsDigit(b, a, r2, r1);
    assert sa == (sa + r1)[..|sa|] == sb;
    IntToStringInjective(a, b);
  }

  /** The integer test of Rails' numericality validator: /\A[+-]?\d+\z/. */
  predicate IsIntegerLiteral(s: string)
  {
    var body := if |s| > 0 && (s[0] == '+' || s[0] == '-') then s[1..] else s;
    |body| > 0 && forall i :: 0 <= i < |body| ==> IsDigit(body[i])
  }
}
