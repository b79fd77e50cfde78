/**
 * Text helpers shared by the formatter and the widget: decimal rendering of
 * integers (JavaScript's number-to-string for integral values), rendering of
 * a count of hundredths with two decimals (`(n / 100).toFixed(2)`), and
 * splitting and joining on a separator character. Each rendering comes with
 * its parser and a round-trip lemma.
 */
module Text {
  import opened Wrappers

  predicate IsDigit(c: char) { '0' <= c <= '9' }

  predicate AllDigits(s: string) { forall i :: 0 <= i < |s| ==> IsDigit(s[i]) }

  function Digit(d: nat): (c: char)
    requires d < 10
    ensures IsDigit(c) && DigitValue(c) == d
  {
    ('0' as int + d) as char
  }

  function DigitValue(c: char): nat
    requires IsDigit(c)
  {
    c as int - '0' as int
  }

  // ---------------------------------------------------------------------
  // Decimal integers

  /** Decimal digits of `n`, most significant first, without leading zeros. */
  function NatText(n: nat): (s: string)
    ensures |s| > 0 && AllDigits(s)
    ensures n < 10 <==> |s| == 1
  {
    if n < 10 then [Digit(n)] else NatText(n / 10) + [Digit(n % 10)]
  }

  /** The value of a string of decimal digits. */
  function DigitsValue(s: string): nat
    requires AllDigits(s)
  {
    if s == [] then 0 else DigitsValue(s[..|s| - 1]) * 10 + DigitValue(s[|s| - 1])
  }

  lemma {:induction false} NatTextRoundTrip(n: nat)
    ensures DigitsValue(NatText(n)) == n
  {
    if n >= 10 {
      var s := NatText(n);
      assert s[..|s| - 1] == NatText(n / 10);
      NatTextRoundTrip(n / 10);
    }
  }

  /** How `${n}` renders an integral number. */
  function IntText(n: int): (s: string)
    ensures |s| > 0
  {
    if n < 0 then "-" + NatText(-n) else NatText(n)
  }

  /** Strict decimal integer syntax: an optional minus sign and at least one digit. */
  function ParseInt(s: string): (r: Option<int>)
    ensures r.Some? ==> |s| > 0
  {
    if |s| > 1 && s[0] == '-' && AllDigits(s[1..]) then Some(0 - DigitsValue(s[1..]) as int)
    else if |s| > 0 && AllDigits(s) then Some(DigitsValue(s))
    else None
  }

  lemma IntTextRoundTrip(n: int)
    ensures ParseInt(IntText(n)) == Some(n)
  {
    if n < 0 {
      var s := IntText(n);
      assert s[1..] == NatText(-n);
      NatTextRoundTrip(-n);
    } else {
      NatTextRoundTrip(n);
    }
  }

  lemma IntTextSymbols(n: int)
    ensures forall i :: 0 <= i < |IntText(n)| ==> IsDigit(IntText(n)[i]) || IntText(n)[i] == '-'
  {
    var d := NatText(if n < 0 then -n else n);
    assert AllDigits(d);
  }

  // ---------------------------------------------------------------------
  // Two-decimal fixed point

  /**
   * `(n / 100).toFixed(2)` for an integer count `n` of hundredths: the sign,
   * the whole part in decimal, a point and exactly two digits.
   */
  function Hundredths(n: int): (s: string)
    ensures |s| >= 4
  {
    var a := if n < 0 then -n else n;
    (if n < 0 then "-" else "") + NatText(a / 100) + "." + [Digit(a / 10 % 10), Digit(a % 10)]
  }

  function ParseUnsignedHundredths(s: string): Option<nat>
  {
    if |s| >= 4 && s[|s| - 3] == '.' && AllDigits(s[..|s| - 3])
       && IsDigit(s[|s| - 2]) && IsDigit(s[|s| - 1])
    then Some(DigitsValue(s[..|s| - 3]) * 100 + DigitValue(s[|s| - 2]) * 10 + DigitValue(s[|s| - 1]))
    else None
  }

  /** Reads back a count of hundredths from its rendering. */
  function ParseHundredths(s: string): Option<int>
  {
    if |s| > 0 && s[0] == '-' then
      match ParseUnsignedHundredths(s[1..])
      case Some(a) => Some(0 - a as int)
      case None => None
    else
      match ParseUnsignedHundredths(s)
      case Some(a) => Some(a)
      case None => None
  }

  lemma SplitHundreds(a: nat)
    ensures a == a / 100 * 100 + a / 10 % 10 * 10 + a % 10
  {
    var q := a / 10;
    assert a == q * 10 + a % 10;
    assert q == q / 10 * 10 + q % 10;
    assert q / 10 == a / 100;
  }

  lemma {:induction false} HundredthsRoundTrip(n: int)
    ensures ParseHundredths(Hundredths(n)) == Some(n)
  {
    var a := if n < 0 then -n else n;
    var u := NatText(a / 100) + "." + [Digit(a / 10 % 10), Digit(a % 10)];
    assert u[..|u| - 3] == NatText(a / 100);
    NatTextRoundTrip(a / 100);
    SplitHundreds(a);
    assert ParseUnsignedHundredths(u) == Some(a);
    if n < 0 {
      assert Hundredths(n) == "-" + u;
      assert ("-" + u)[1..] == u;
    } else {
      assert Hundredths(n) == u;
    }
  }

  lemma HundredthsSymbols(n: int)
    ensures forall i :: 0 <= i < |Hundredths(n)| ==> IsDigit(Hundredths(n)[i]) || Hundredths(n)[i] in "-."
  {
    var a := if n < 0 then -n else n;
    assert AllDigits(NatText(a / 100));
  }

  // ---------------------------------------------------------------------
  // Searching, splitting and joining

  /** Position of the first occurrence of `c` in `s`. */
  function IndexOf(s: string, c: char): (i: nat)
    requires c in s
    ensures i < |s| && s[i] == c && c !in s[..i]
  {
    if s[0] == c then 0 else
      assert c in s[1..] by { var k :| 0 <= k < |s| && s[k] == c; assert s[1..][k - 1] == c; }
      var j := IndexOf(s[1..], c);
      assert s[..j + 1] == [s[0]] + s[1..][..j];
      j + 1
  }

  lemma IndexOfAfter(a: string, c: char, b: string)
    requires c !in a
    ensures c in a + [c] + b && IndexOf(a + [c] + b, c) == |a|
  {
    var s := a + [c] + b;
    assert s[|a|] == c;
    assert s[..|a|] == a;
  }

  /** The text before and after the first `c`. */
  function SplitAt(s: string, c: char): (string, string)
    requires c in s
  {
    var i := IndexOf(s, c);
    (s[..i], s[i + 1..])
  }

  lemma SplitAtAfter(a: string, c: char, b: string)
    requires c !in a
    ensures c in a + [c] + b && SplitAt(a + [c] + b, c) == (a, b)
  {
    IndexOfAfter(a, c, b);
    var s := a + [c] + b;
    assert s[..|a|] == a;
    assert s[|a| + 1..] == b;
  }

  /** `s.split(c)`: the pieces between occurrences of `c`. */
  function Split(s: string, c: char): (r: seq<string>)
    ensures |r| > 0
    decreases |s|
  {
    if c !in s then [s]
    else
      var i := IndexOf(s, c);
      [s[..i]] + Split(s[i + 1..], c)
  }

  /** `parts.join(c)`; the empty list joins to the empty string. */
  function Join(parts: seq<string>, c: char): string
  {
    if parts == [] then ""
    else if |parts| == 1 then parts[0]
    else parts[0] + [c] + Join(parts[1..], c)
  }

  lemma {:induction false} SplitJoin(parts: seq<string>, c: char)
    requires |parts| > 0
    requires forall i :: 0 <= i < |parts| ==> c !in parts[i]
    ensures Split(Join(parts, c), c) == parts
  {
    if |parts| > 1 {
      SplitJoin(parts[1..], c);
      SplitAtAfter(parts[0], c, Join(parts[1..], c));
    }
  }
}
