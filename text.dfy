/** Python's `str()` on the values a record holds: decimal integers and
    ISO dates, as the serialiser writes them. */
module Text {
  import opened Wrappers

  predicate IsDigit(c: char) {
    '0' <= c <= '9'
  }

  function DigitChar(d: int): (c: char)
    requires 0 <= d <= 9
    ensures IsDigit(c)
  {
    ('0' as int + d) as char
  }

  /** The decimal digits of `n`, without leading zeros. */
  function NatToDecimal(n: nat): (r: string)
    ensures 1 <= |r|
    ensures AllDigits(r)
    ensures |r| > 1 ==> r[0] != '0'
    decreases n
  {
    if n < 10 then [DigitChar(n)] else NatToDecimal(n / 10) + [DigitChar(n % 10)]
  }

  predicate AllDigits(s: string) {
    forall i :: 0 <= i < |s| ==> IsDigit(s[i])
  }

  function DigitValue(c: char): nat
    requires IsDigit(c)
  {
    c as int - '0' as int
  }

  /** The number a string of digits denotes. */
  function DigitsValue(s: string): nat
    requires AllDigits(s)
    decreases |s|
  {
    if s == [] then 0 else DigitsValue(s[..|s| - 1]) * 10 + DigitValue(s[|s| - 1])
  }

  /** Reading back the decimal form of `n` gives `n`. */
  lemma {:induction false} NatToDecimalRoundTrip(n: nat)
    ensures DigitsValue(NatToDecimal(n)) == n
    decreases n
  {
    if n >= 10 {
      var r := NatToDecimal(n);
      assert r[..|r| - 1] == NatToDecimal(n / 10);
      NatToDecimalRoundTrip(n / 10);
    }
  }

  /** `str(n)` for a Python `int`. */
  function IntToDecimal(n: int): string {
    if n < 0 then "-" + NatToDecimal(-n) else NatToDecimal(n)
  }

  /** `int(s)` on the strings `str` produces: an optional minus sign and
      digits; anything else is rejected. */
  function ParseInt(s: string): Option<int> {
    if |s| >= 2 && s[0] == '-' && AllDigits(s[1..]) then Some(0 - DigitsValue(s[1..]))
    else if |s| >= 1 && AllDigits(s) then Some(DigitsValue(s))
    else None
  }

  /** `int(str(n)) == n`. */
  lemma IntToDecimalRoundTrip(n: int)
    ensures ParseInt(IntToDecimal(n)) == Some(n)
  {
    var m: nat := if n < 0 then -n else n;
    var d := NatToDecimal(m);
    NatToDecimalRoundTrip(m);
    if n < 0 {
      assert IntToDecimal(n) == "-" + d;
      ParseNegative(d);
    } else {
      assert IntToDecimal(n) == d;
      ParseDigits(d);
    }
  }

  /** `int` reads a minus sign followed by digits as the negated number. */
  lemma ParseNegative(d: string)
    requires |d| >= 1 && AllDigits(d)
    ensures ParseInt("-" + d) == Some(0 - DigitsValue(d))
  {
    var r := "-" + d;
    assert r[1..] == d && r[0] == '-';
  }

  /** `int` reads a string of digits as the number it denotes. */
  lemma ParseDigits(d: string)
    requires |d| >= 1 && AllDigits(d)
    ensures ParseInt(d) == Some(DigitsValue(d))
  {
    assert IsDigit(d[0]);
  }

  /** `str` of distinct integers differ. */
  lemma IntToDecimalInjective(a: int, b: int)
    requires IntToDecimal(a) == IntToDecimal(b)
    ensures a == b
  {
    IntToDecimalRoundTrip(a);
    IntToDecimalRoundTrip(b);
  }

  function Pow10(k: nat): nat {
    if k == 0 then 1 else 10 * Pow10(k - 1)
  }

  /** A number below `10^k` has at most `k` digits. */
  lemma {:induction false} NatToDecimalLength(n: nat, k: nat)
    requires 1 <= k && n < Pow10(k)
    ensures |NatToDecimal(n)| <= k
    decreases k
  {
    if n >= 10 {
      NatToDecimalLength(n / 10, k - 1);
    }
  }

  /** `%0<width>d`: left-pad with zeros. */
  function ZeroPad(s: string, width: nat): (r: string)
    ensures |r| == if |s| >= width then |s| else width
    decreases width - |s|
  {
    if |s| >= width then s else ZeroPad("0" + s, width)
  }

  /** A leading zero does not change the number a digit string denotes. */
  lemma {:induction false} LeadingZero(s: string)
    requires AllDigits(s)
    ensures AllDigits("0" + s) && DigitsValue("0" + s) == DigitsValue(s)
    decreases |s|
  {
    var z := "0" + s;
    if s != [] {
      var p := s[..|s| - 1];
      assert z[..|z| - 1] == "0" + p;
      LeadingZero(p);
    }
  }

  /** Zero padding keeps a digit string's value. */
  lemma {:induction false} ZeroPadValue(s: string, width: nat)
    requires AllDigits(s)
    ensures AllDigits(ZeroPad(s, width)) && DigitsValue(ZeroPad(s, width)) == DigitsValue(s)
    decreases width - |s|
  {
    if |s| < width {
      LeadingZero(s);
      ZeroPadValue("0" + s, width);
    }
  }

  /** `str(date)`, i.e. `date.isoformat()`: `%04d-%02d-%02d`. */
  function IsoDate(year: nat, month: nat, day: nat): (r: string)
    ensures |r| >= 10
    ensures year <= 9999 ==> r[4] == '-' && ParseInt(r[..4]) == Some(year)
  {
    var y := ZeroPad(NatToDecimal(year), 4);
    ZeroPadValue(NatToDecimal(year), 4);
    NatToDecimalRoundTrip(year);
    assert year <= 9999 ==> |y| == 4 && y[0] != '-' by {
      if year <= 9999 {
        assert Pow10(4) == 10000 by { assert Pow10(2) == 100; }
        NatToDecimalLength(year, 4);
      }
    }
    var r := y + "-" + ZeroPad(NatToDecimal(month), 2) + "-" + ZeroPad(NatToDecimal(day), 2);
    assert year <= 9999 ==> r[..4] == y;
    r
  }

  /** For years up to 9999 the ISO form has the fixed shape `YYYY-MM-DD`,
      and its three digit groups read back as the year, month and day. */
  lemma IsoDateShape(year: nat, month: nat, day: nat)
    requires year <= 9999 && month <= 99 && day <= 99
    ensures var r := IsoDate(year, month, day);
      |r| == 10 && r[4] == '-' && r[7] == '-'
      && ParseInt(r[..4]) == Some(year) && ParseInt(r[5..7]) == Some(month) && ParseInt(r[8..]) == Some(day)
  {
    assert Pow10(4) == 10000 && Pow10(2) == 100 by {
      assert Pow10(1) == 10;
      assert Pow10(3) == 1000;
    }
    NatToDecimalLength(year, 4);
    NatToDecimalLength(month, 2);
    NatToDecimalLength(day, 2);
    var y := ZeroPad(NatToDecimal(year), 4);
    var m := ZeroPad(NatToDecimal(month), 2);
    var d := ZeroPad(NatToDecimal(day), 2);
    ZeroPadValue(NatToDecimal(year), 4);
    ZeroPadValue(NatToDecimal(month), 2);
    ZeroPadValue(NatToDecimal(day), 2);
    NatToDecimalRoundTrip(year);
    NatToDecimalRoundTrip(month);
    NatToDecimalRoundTrip(day);
    var r := IsoDate(year, month, day);
    assert r == y + "-" + m + "-" + d;
    assert r[..4] == y && r[5..7] == m && r[8..] == d;
    assert !IsDigit('-');
    assert y[0] != '-' && m[0] != '-' && d[0] != '-';
  }
}
