/**
 Decimal text of integers: what QString::arg(int) writes and what
 QString::toInt() reads back.
 */
module Decimal {
  import opened Options
  import QtText

  const Int32Min: int := -0x8000_0000
  const Int32Max: int := 0x7FFF_FFFF

  predicate IsInt32(n: int) {
    Int32Min <= n <= Int32Max
  }

  predicate IsDigit(c: char) {
    '0' <= c <= '9'
  }

  predicate AllDigits(s: string) {
    forall i :: 0 <= i < |s| ==> IsDigit(s[i])
  }

  function DigitChar(d: int): (c: char)
    requires 0 <= d < 10
    ensures IsDigit(c)
  {
    ('0' as int + d) as char
  }

  function DigitValue(c: char): int
    requires IsDigit(c)
  {
    c as int - '0' as int
  }

  /** The value of a digit string, most significant digit first. */
  function DigitsValue(s: string): nat
    requires AllDigits(s)
  {
    if |s| == 0 then 0 else DigitsValue(s[..|s| - 1]) * 10 + DigitValue(s[|s| - 1])
  }

  /** Digits with no leading zero, except "0" itself. */
  predicate IsCanonicalDigits(s: string) {
    |s| >= 1 && AllDigits(s) && (s[0] == '0' ==> |s| == 1)
  }

  /** Decimal digits of a natural number, without leading zeros. */
  function NatText(n: nat): (r: string)
    ensures IsCanonicalDigits(r)
    ensures DigitsValue(r) == n
  {
    if n < 10 then [DigitChar(n)]
    else
      var hi := NatText(n / 10);
      var r := hi + [DigitChar(n % 10)];
      assert r[..|r| - 1] == hi;
      r
  }

  /** QString::arg(int): a minus sign for negative numbers, then the digits. */
  function Dec(n: int): (r: string)
    ensures |r| >= 1
    ensures forall i :: 0 <= i < |r| ==> IsDigit(r[i]) || r[i] == '-'
  {
    if n < 0 then "-" + NatText(-n) else NatText(n)
  }

  /** Reads exactly the texts Dec writes: an optional minus sign, then canonical digits. */
  function ParseDec(s: string): Option<int>
  {
    if |s| >= 2 && s[0] == '-' && IsCanonicalDigits(s[1..]) && s[1..] != "0" then
      Some(0 - DigitsValue(s[1..]))
    else if IsCanonicalDigits(s) then
      Some(DigitsValue(s))
    else
      None
  }

  /** A canonical digit string of two or more digits is worth at least ten. */
  lemma {:induction false} CanonicalAtLeastTen(s: string)
    requires IsCanonicalDigits(s) && |s| >= 2
    ensures DigitsValue(s) >= 10
  {
    var hi := s[..|s| - 1];
    assert IsCanonicalDigits(hi);
    if |hi| >= 2 {
      CanonicalAtLeastTen(hi);
    } else {
      assert hi[0] != '0';
    }
  }

  /** Appending a digit to a number's text writes ten times the number plus the digit. */
  lemma NatTextAppend(v: nat, d: int)
    requires v >= 1 && 0 <= d < 10
    ensures NatText(v * 10 + d) == NatText(v) + [DigitChar(d)]
  {
    assert (v * 10 + d) / 10 == v && (v * 10 + d) % 10 == d;
  }

  /** Dropping the last digit of a canonical string of two or more digits
      leaves a canonical string worth at least one. */
  lemma CanonicalPrefix(s: string)
    requires IsCanonicalDigits(s) && |s| >= 2
    ensures IsCanonicalDigits(s[..|s| - 1]) && DigitsValue(s[..|s| - 1]) >= 1
    ensures DigitsValue(s) == DigitsValue(s[..|s| - 1]) * 10 + DigitValue(s[|s| - 1])
  {
    CanonicalAtLeastTen(s);
  }

  /** Canonical digit strings are determined by their value. */
  lemma {:induction false} CanonicalIsNatText(s: string)
    requires IsCanonicalDigits(s)
    ensures s == NatText(DigitsValue(s))
  {
    if |s| >= 2 {
      var hi := s[..|s| - 1];
      var last := s[|s| - 1];
      CanonicalPrefix(s);
      CanonicalIsNatText(hi);
      var v := DigitsValue(hi);
      var d := DigitValue(last);
      NatTextAppend(v, d);
      assert DigitChar(d) == last;
      assert s == hi + [last];
    }
  }

  /** Reading back what Dec wrote gives the number. */
  lemma DecRoundTrip(n: int)
    ensures ParseDec(Dec(n)) == Some(n)
  {
    if n < 0 {
      assert Dec(n)[1..] == NatText(-n);
    }
  }

  /** Only Dec's own output parses: ParseDec is a left inverse of Dec. */
  lemma ParseDecOnlyDec(s: string, n: int)
    requires ParseDec(s) == Some(n)
    ensures s == Dec(n)
  {
    if |s| >= 2 && s[0] == '-' && IsCanonicalDigits(s[1..]) && s[1..] != "0" {
      CanonicalIsNatText(s[1..]);
      assert s == "-" + s[1..];
    } else {
      CanonicalIsNatText(s);
    }
  }

  /** Dec is injective: distinct numbers are written differently. */
  lemma DecInjective(m: int, n: int)
    requires Dec(m) == Dec(n)
    ensures m == n
  {
    DecRoundTrip(m);
    DecRoundTrip(n);
  }

  /** QString::toInt(): surrounding white space is skipped, an optional sign and
      one or more digits are read; an unreadable text or a value outside the
      32-bit range gives 0. */
  function ToInt(s: string): (r: int)
    ensures IsInt32(r)
  {
    ReadSigned(QtText.Trim(s))
  }

  /** The sign-and-digits part of toInt, on already trimmed text. */
  function ReadSigned(t: string): (r: int)
    ensures IsInt32(r)
  {
    var negative := |t| > 0 && t[0] == '-';
    var digits := if |t| > 0 && (t[0] == '-' || t[0] == '+') then t[1..] else t;
    if |digits| >= 1 && AllDigits(digits) then
      var v: int := if negative then 0 - DigitsValue(digits) else DigitsValue(digits);
      if IsInt32(v) then v else 0
    else 0
  }

  lemma DecIsTrimmed(n: int)
    ensures QtText.Trim(Dec(n)) == Dec(n)
  {
    var d := Dec(n);
    assert !QtText.IsSpace(d[0]) && !QtText.IsSpace(d[|d| - 1]);
    QtText.TrimmedIsFixed(d);
  }

  /** toInt reads back every 32-bit number QString::arg wrote. */
  lemma ToIntDec(n: int)
    requires IsInt32(n)
    ensures ToInt(Dec(n)) == n
  {
    DecIsTrimmed(n);
    var d := Dec(n);
    if n < 0 {
      assert d[1..] == NatText(-n);
    } else {
      assert d[0] != '-' && d[0] != '+';
    }
  }

  /** toInt skips white space around the number. */
  lemma ToIntPadded(w1: string, s: string, w2: string)
    requires QtText.AllSpace(w1) && QtText.AllSpace(w2)
    ensures ToInt(w1 + s + w2) == ToInt(s)
  {
    QtText.TrimPadded(w1, s, w2);
  }

  /** Blank text reads as 0. */
  lemma ToIntBlank(s: string)
    requires QtText.AllSpace(s)
    ensures ToInt(s) == 0
  {
    QtText.TrimAllSpace(s);
  }

  /** An explicit plus sign is accepted. */
  lemma ToIntPlus(n: int)
    requires 0 <= n <= Int32Max
    ensures ToInt("+" + Dec(n)) == n
  {
    var t := "+" + Dec(n);
    assert t[1..] == NatText(n);
    assert !QtText.IsSpace(t[0]) && !QtText.IsSpace(t[|t| - 1]);
    QtText.TrimmedIsFixed(t);
  }

  /** toInt on an optional sign and digits: leading zeros are read, "-0" is 0,
      and a value outside the 32-bit range gives 0. */
  lemma ToIntSignedDigits(sign: string, d: string)
    requires sign == "" || sign == "+" || sign == "-"
    requires |d| >= 1 && AllDigits(d)
    ensures var v := if sign == "-" then 0 - DigitsValue(d) else DigitsValue(d);
      ToInt(sign + d) == if IsInt32(v) then v else 0
  {
    SignedDigitsTrimmed(sign, d);
    ReadSignedDigits(sign, d);
  }

  lemma SignedDigitsTrimmed(sign: string, d: string)
    requires sign == "" || sign == "+" || sign == "-"
    requires |d| >= 1 && AllDigits(d)
    ensures QtText.Trim(sign + d) == sign + d
  {
    var t := sign + d;
    assert t[|t| - 1] == d[|d| - 1];
    assert IsDigit(t[|t| - 1]);
    assert t[0] == if sign == "" then d[0] else sign[0];
    assert !QtText.IsSpace(t[0]) && !QtText.IsSpace(t[|t| - 1]);
    QtText.TrimmedIsFixed(t);
  }

  lemma ReadSignedDigits(sign: string, d: string)
    requires sign == "" || sign == "+" || sign == "-"
    requires |d| >= 1 && AllDigits(d)
    ensures var v := if sign == "-" then 0 - DigitsValue(d) else DigitsValue(d);
      ReadSigned(sign + d) == if IsInt32(v) then v else 0
  {
    var t := sign + d;
    if sign == "" {
      assert t == d;
      assert IsDigit(t[0]);
    } else {
      assert t[0] == sign[0];
      assert t[1..] == d;
    }
  }

  /** A sign with no digits after it reads as 0. */
  lemma ToIntLoneSign(sign: string)
    requires sign == "+" || sign == "-"
    ensures ToInt(sign) == 0
  {
    assert !QtText.IsSpace(sign[0]);
    QtText.TrimmedIsFixed(sign);
    assert sign[1..] == "";
  }

  /** A number outside the 32-bit range reads as 0. */
  lemma ToIntOutOfRange(n: int)
    requires !IsInt32(n)
    ensures ToInt(Dec(n)) == 0
  {
    DecIsTrimmed(n);
    var d := Dec(n);
    if n < 0 {
      assert d[1..] == NatText(-n);
    } else {
      assert d[0] != '-' && d[0] != '+';
    }
  }

  /** Any character other than a digit, except a sign in front, makes the text read as 0. */
  lemma ToIntJunk(s: string, i: int)
    requires 0 <= i < |QtText.Trim(s)|
    requires !IsDigit(QtText.Trim(s)[i])
    requires i > 0 || (QtText.Trim(s)[i] != '-' && QtText.Trim(s)[i] != '+')
    ensures ToInt(s) == 0
  {
    var t := QtText.Trim(s);
    if t[0] == '-' || t[0] == '+' {
      assert t[1..][i - 1] == t[i];
    }
  }

  /** The decimal texts used by the worked examples. */
  lemma DecSmallExamples()
    ensures Dec(5) == "5" && Dec(90) == "90" && Dec(100) == "100" && Dec(200) == "200"
  {
    assert DigitChar(0) == '0' && DigitChar(1) == '1' && DigitChar(2) == '2';
    assert DigitChar(5) == '5' && DigitChar(9) == '9';
    assert NatText(10) == NatText(1) + ['0'];
    assert NatText(100) == NatText(10) + ['0'];
    assert NatText(20) == NatText(2) + ['0'];
    assert NatText(200) == NatText(20) + ['0'];
    assert NatText(90) == NatText(9) + ['0'];
  }
}
