/**
 * String helpers the core relies on: Go's strings.Join, strings.HasPrefix and
 * strings.Contains, and the decimal rendering behind fmt's %d / %0Nd verbs.
 */
module Text {

  /** strings.Join: the parts, in order, with `sep` between neighbours. */
  function Join(parts: seq<string>, sep: string): (r: string)
    ensures parts == [] ==> r == ""
    ensures |parts| == 1 ==> r == parts[0]
    ensures |parts| > 1 ==> r == parts[0] + sep + Join(parts[1..], sep)
  {
    if |parts| == 0 then ""
    else if |parts| == 1 then parts[0]
    else parts[0] + sep + Join(parts[1..], sep)
  }

  /** strings.HasPrefix */
  predicate HasPrefix(s: string, prefix: string) {
    |prefix| <= |s| && s[..|prefix|] == prefix
  }

  /** strings.Contains: `sub` occurs at some position of `s`. */
  predicate Contains(s: string, sub: string)
    decreases |s|
  {
    HasPrefix(s, sub) || (|s| > 0 && Contains(s[1..], sub))
  }

  /** A string occurs in anything that has it in the middle. */
  lemma {:induction false} ContainsIn(a: string, sub: string, b: string)
    ensures Contains(a + sub + b, sub)
    decreases |a|
  {
    if a == [] {
      assert (a + sub + b)[..|sub|] == sub;
    } else {
      ContainsIn(a[1..], sub, b);
      assert (a + sub + b)[1..] == a[1..] + sub + b;
    }
  }

  /** Nothing shorter than `sub` contains it. */
  lemma {:induction false} ShorterLacks(s: string, sub: string)
    requires |s| < |sub|
    ensures !Contains(s, sub)
    decreases |s|
  {
    if |s| > 0 {
      ShorterLacks(s[1..], sub);
    }
  }

  predicate IsDigit(c: char) {
    '0' <= c <= '9'
  }

  predicate AllDigits(s: string) {
    forall i :: 0 <= i < |s| ==> IsDigit(s[i])
  }

  function DigitChar(d: nat): (c: char)
    requires d < 10
    ensures IsDigit(c) && c as int - '0' as int == d
  {
    ('0' as int + d) as char
  }

  function Pow10(k: nat): (p: nat)
    ensures p >= 1
  {
    if k == 0 then 1 else 10 * Pow10(k - 1)
  }

  /** The decimal digits of `n`, most significant first, without leading zeros. */
  function Decimal(n: nat): (r: string)
    ensures |r| >= 1 && AllDigits(r)
  {
    if n < 10 then [DigitChar(n)] else Decimal(n / 10) + [DigitChar(n % 10)]
  }

  /** fmt's %d: a minus sign before the digits of a negative value. */
  function SignedDecimal(n: int): string {
    if n < 0 then "-" + Decimal(-n) else Decimal(n)
  }

  /** A number below 10^w (w >= 1) has at most w decimal digits. */
  lemma {:induction false} DecimalFits(n: nat, w: nat)
    requires w >= 1 && n < Pow10(w)
    ensures |Decimal(n)| <= w
  {
    if n >= 10 {
      DecimalFits(n / 10, w - 1);
    }
  }

  function Zeros(k: nat): (r: string)
    ensures |r| == k && forall i :: 0 <= i < k ==> r[i] == '0'
  {
    if k == 0 then "" else "0" + Zeros(k - 1)
  }

  /** fmt's %0<width>d for a non-negative value: left-padded with zeros up to `width`. */
  function ZeroPadded(n: nat, width: nat): (r: string)
    ensures |r| == if |Decimal(n)| < width then width else |Decimal(n)|
    ensures AllDigits(r)
    ensures |Decimal(n)| >= width ==> r == Decimal(n)
  {
    var d := Decimal(n);
    if |d| < width then Zeros(width - |d|) + d else d
  }

  /** A value below 10^w, padded to width w, is exactly w digits. */
  lemma ZeroPaddedWidth(n: nat, w: nat)
    requires w >= 1 && n < Pow10(w)
    ensures |ZeroPadded(n, w)| == w && AllDigits(ZeroPadded(n, w))
  {
    DecimalFits(n, w);
  }
}
