/**
 * Character and string helpers shared by the card engine: ASCII digits,
 * decimal rendering with zero padding (Python's `str(n)` and `f"{n:02d}"`),
 * decimal parsing, `str.split`, and ASCII upper and title casing.
 */
module Text {
  import opened Wrappers

  type Digit = d: int | 0 <= d <= 9

  predicate IsDigitChar(c: char) { '0' <= c <= '9' }

  /** Python's `str.isdigit()` restricted to ASCII: non-empty and all digits. */
  predicate IsDigits(s: string) {
    |s| > 0 && forall i :: 0 <= i < |s| ==> IsDigitChar(s[i])
  }

  function DigitChar(d: Digit): (c: char)
    ensures IsDigitChar(c)
  {
    ('0' as int + d) as char
  }

  function DigitValue(c: char): Digit
    requires IsDigitChar(c)
  {
    c as int - '0' as int
  }

  function DigitString(ds: seq<Digit>): (s: string)
    ensures |s| == |ds|
    ensures forall i :: 0 <= i < |ds| ==> s[i] == DigitChar(ds[i])
  {
    seq(|ds|, i requires 0 <= i < |ds| => DigitChar(ds[i]))
  }

  function DigitsOf(s: string): (ds: seq<Digit>)
    requires forall i :: 0 <= i < |s| ==> IsDigitChar(s[i])
    ensures |ds| == |s|
    ensures forall i :: 0 <= i < |s| ==> ds[i] == DigitValue(s[i])
  {
    seq(|s|, i requires 0 <= i < |s| => DigitValue(s[i]))
  }

  /** Value of a string of decimal digits, most significant first. */
  function DecimalValue(s: string): nat
    requires forall i :: 0 <= i < |s| ==> IsDigitChar(s[i])
  {
    if s == [] then 0 else DecimalValue(s[..|s| - 1]) * 10 + DigitValue(s[|s| - 1])
  }

  /** Python's `str(n)` for a natural number. */
  function NatToString(n: nat): (s: string)
    ensures |s| > 0
    ensures forall i :: 0 <= i < |s| ==> IsDigitChar(s[i])
  {
    if n < 10 then [DigitChar(n)] else NatToString(n / 10) + [DigitChar(n % 10)]
  }

  /** Python's `f"{n:0<width>d}"`: at least `width` characters, padded with '0'. */
  function ZeroPad(n: nat, width: nat): (s: string)
    ensures forall i :: 0 <= i < |s| ==> IsDigitChar(s[i])
  {
    var digits := NatToString(n);
    if |digits| >= width then digits
    else seq(width - |digits|, _ => '0') + digits
  }

  /** Parsing a decimal string: `None` for what `int()` would reject. */
  function ParseNat(s: string): (r: Option<nat>)
    ensures r.Some? <==> IsDigits(s)
  {
    if IsDigits(s) then Some(DecimalValue(s)) else None
  }

  lemma {:induction false} DecimalValueOfNatToString(n: nat)
    ensures DecimalValue(NatToString(n)) == n
  {
    if n >= 10 {
      var s := NatToString(n);
      assert s[..|s| - 1] == NatToString(n / 10);
      DecimalValueOfNatToString(n / 10);
    }
  }

  lemma {:induction false} LeadingZerosAddNothing(k: nat, s: string)
    requires forall i :: 0 <= i < |s| ==> IsDigitChar(s[i])
    ensures DecimalValue(seq(k, _ => '0') + s) == DecimalValue(s)
  {
    if s == [] {
      ZerosHaveNoValue(k);
      assert seq(k, _ => '0') + s == seq(k, _ => '0');
    } else {
      var t := seq(k, _ => '0') + s;
      assert t[..|t| - 1] == seq(k, _ => '0') + s[..|s| - 1];
      LeadingZerosAddNothing(k, s[..|s| - 1]);
    }
  }

  lemma {:induction false} ZerosHaveNoValue(k: nat)
    ensures DecimalValue(seq(k, _ => '0')) == 0
  {
    if k > 0 {
      assert seq(k, _ => '0')[..k - 1] == seq(k - 1, _ => '0');
      ZerosHaveNoValue(k - 1);
    }
  }

  /** Zero-padded rendering parses back to the number it renders. */
  lemma ZeroPadRoundTrip(n: nat, width: nat)
    ensures ParseNat(ZeroPad(n, width)) == Some(n)
  {
    var digits := NatToString(n);
    DecimalValueOfNatToString(n);
    if |digits| < width {
      LeadingZerosAddNothing(width - |digits|, digits);
    }
  }

  lemma {:induction false} NatToStringLength(n: nat, k: nat)
    requires 1 <= k
    requires n < Pow10(k)
    ensures |NatToString(n)| <= k
  {
    if n >= 10 {
      NatToStringLength(n / 10, k - 1);
    }
  }

  lemma {:induction false} NatToStringLengthAtLeast(n: nat, k: nat)
    requires Pow10(k) <= n
    ensures |NatToString(n)| >= k + 1
  {
    if k > 0 {
      assert 10 * Pow10(k - 1) <= n;
      assert Pow10(k - 1) <= n / 10;
      NatToStringLengthAtLeast(n / 10, k - 1);
    }
  }

  function Pow10(k: nat): nat {
    if k == 0 then 1 else 10 * Pow10(k - 1)
  }

  /** A number below 10^width renders in exactly `width` characters. */
  lemma ZeroPadLength(n: nat, width: nat)
    requires 1 <= width
    requires n < Pow10(width)
    ensures |ZeroPad(n, width)| == width
  {
    NatToStringLength(n, width);
  }

  /** Python's `str.split(sep)`: the pieces between occurrences of `sep`. */
  function Split(s: string, sep: char): (parts: seq<string>)
    ensures |parts| >= 1
    ensures sep !in s ==> parts == [s]
    decreases |s|
  {
    if s == [] then [""]
    else
      var rest := Split(s[1..], sep);
      if s[0] == sep then [""] + rest
      else
        assert sep !in s ==> sep !in s[1..] && s == [s[0]] + s[1..];
        [[s[0]] + rest[0]] + rest[1..]
  }

  function UpperChar(c: char): char {
    if 'a' <= c <= 'z' then (c as int - 32) as char else c
  }

  function LowerChar(c: char): char {
    if 'A' <= c <= 'Z' then (c as int + 32) as char else c
  }

  predicate IsLetter(c: char) { 'a' <= c <= 'z' || 'A' <= c <= 'Z' }

  /** Python's `str.upper()` on ASCII letters. */
  function Upper(s: string): (u: string)
    ensures |u| == |s|
    ensures forall i :: 0 <= i < |s| ==> u[i] == UpperChar(s[i])
  {
    seq(|s|, i requires 0 <= i < |s| => UpperChar(s[i]))
  }

  /** Upper-casing an upper-cased name changes nothing. */
  lemma UpperIdempotent(s: string)
    ensures Upper(Upper(s)) == Upper(s)
  {
  }

  /**
   * Python's `str.title()` on ASCII: a letter is upper-cased when the
   * character before it is not a letter, and lower-cased otherwise.
   */
  function Title(s: string): (t: string)
    ensures |t| == |s|
  {
    seq(|s|, i requires 0 <= i < |s| =>
      if i > 0 && IsLetter(s[i - 1]) then LowerChar(s[i]) else UpperChar(s[i]))
  }
}
