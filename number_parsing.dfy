/**
 * A decimal reader standing in for Python's `float(text)`, and the text that
 * `str()` gives for a whole number of dollars.
 *
 * Accepted: an optional `+` or `-`, then digits with at most one `.`, and at
 * least one digit in all ("12", "12.5", ".5", "5.", "-3.25"). Everything else
 * is a conversion failure (`ValueError` in the program).
 */
module NumberParsing {
  import opened Wrappers

  predicate IsDigit(c: char)
  {
    '0' <= c <= '9'
  }

  predicate AllDigits(d: string)
  {
    forall i :: 0 <= i < |d| ==> IsDigit(d[i])
  }

  /** Characters that can occur in an accepted numeral. */
  predicate IsNumeralChar(c: char)
  {
    IsDigit(c) || c == '.' || c == '+' || c == '-'
  }

  function DigitValue(c: char): (v: nat)
    requires IsDigit(c)
    ensures v < 10
  {
    c as int - '0' as int
  }

  function DigitChar(v: nat): (c: char)
    requires v < 10
    ensures IsDigit(c) && DigitValue(c) == v
  {
    ('0' as int + v) as char
  }

  /** The value of a string of decimal digits, read left to right. */
  function DigitsValue(d: string): nat
    requires AllDigits(d)
    decreases |d|
  {
    if d == [] then 0 else DigitsValue(d[..|d| - 1]) * 10 + DigitValue(d[|d| - 1])
  }

  function Pow10(k: nat): (p: nat)
    ensures p >= 1
  {
    if k == 0 then 1 else 10 * Pow10(k - 1)
  }

  /** Index of the first `.` in s, or |s| when there is none. */
  function DotIndex(s: string): (k: nat)
    ensures k <= |s|
    ensures forall i :: 0 <= i < k ==> s[i] != '.'
    ensures k < |s| ==> s[k] == '.'
  {
    if s == [] then 0 else if s[0] == '.' then 0 else 1 + DotIndex(s[1..])
  }

  /** An unsigned numeral: whole digits, optionally `.` and fraction digits. */
  function ParseUnsigned(s: string): (r: Option<real>)
    ensures r.Some? ==> r.value >= 0.0
    ensures r.Some? ==> forall i :: 0 <= i < |s| ==> IsDigit(s[i]) || s[i] == '.'
    ensures r.Some? ==> exists i :: 0 <= i < |s| && IsDigit(s[i])
  {
    var k := DotIndex(s);
    var whole := s[..k];
    var frac := if k < |s| then s[k + 1..] else [];
    if AllDigits(whole) && AllDigits(frac) && |whole| + |frac| > 0 then
      assert |whole| > 0 ==> IsDigit(s[0]);
      assert |whole| == 0 ==> IsDigit(s[k + 1]);
      assert forall i :: k < i < |s| ==> s[i] == frac[i - k - 1];
      var num, den := DigitsValue(frac) as real, Pow10(|frac|) as real;
      assert num / den >= 0.0 by {
        assert num / den * den == num;
      }
      Some(DigitsValue(whole) as real + num / den)
    else
      None
  }

  /** float(text), with a conversion failure as None. */
  function Parse(s: string): (r: Option<real>)
    ensures r.Some? ==> forall i :: 0 <= i < |s| ==> IsNumeralChar(s[i])
    ensures r.Some? ==> exists i :: 0 <= i < |s| && IsDigit(s[i])
  {
    if |s| > 0 && (s[0] == '-' || s[0] == '+') then
      var u := ParseUnsigned(s[1..]);
      assert u.Some? ==> forall i :: 1 <= i < |s| ==> s[i] == s[1..][i - 1];
      assert u.Some? ==> exists i :: 1 <= i < |s| && IsDigit(s[i]) by {
        if u.Some? {
          var j :| 0 <= j < |s[1..]| && IsDigit(s[1..][j]);
          assert IsDigit(s[j + 1]);
        }
      }
      match u
      case Some(v) => if s[0] == '-' then Some(-v) else Some(v)
      case None => None
    else
      ParseUnsigned(s)
  }

  /** str(n) for a natural number n. */
  function NatText(n: nat): (t: string)
    ensures |t| > 0 && AllDigits(t)
    decreases n
  {
    if n < 10 then [DigitChar(n)] else NatText(n / 10) + [DigitChar(n % 10)]
  }

  /**
   * str(float(n)) for a whole number of dollars below 10^16: the digits and
   * ".0". From 10^16 on Python's str writes an exponent ("1e+16"), which
   * this text does not follow.
   */
  function WholeAmountText(n: nat): string
  {
    NatText(n) + ".0"
  }

  lemma {:induction false} DigitsValueOfNatText(n: nat)
    ensures DigitsValue(NatText(n)) == n
    decreases n
  {
    var t := NatText(n);
    if n >= 10 {
      DigitsValueOfNatText(n / 10);
      assert t[..|t| - 1] == NatText(n / 10);
    }
  }

  /** Reading back the text of a whole amount gives the amount. */
  lemma WholeAmountRoundTrip(n: nat)
    ensures Parse(WholeAmountText(n)) == Some(n as real)
  {
    var t := NatText(n);
    var s := WholeAmountText(n);
    assert IsDigit(t[0]);
    assert DotIndex(s) == |t| by {
      DotAfterDigits(t, ".0");
    }
    assert s[..|t|] == t;
    assert s[|t| + 1..] == "0";
    DigitsValueOfNatText(n);
    assert DigitsValue("0") == 0 by {
      assert "0"[..0] == [];
    }
  }

  /** Reading back a typed whole number such as "50" gives the number. */
  lemma NatTextRoundTrip(n: nat)
    ensures Parse(NatText(n)) == Some(n as real)
  {
    var t := NatText(n);
    assert IsDigit(t[0]);
    assert DotIndex(t) == |t| by {
      DotAfterDigits(t, []);
      assert t + [] == t;
    }
    assert t[..|t|] == t;
    DigitsValueOfNatText(n);
    assert Pow10(0) == 1;
  }

  lemma {:induction false} DotAfterDigits(d: string, rest: string)
    requires AllDigits(d)
    requires rest == [] || rest[0] == '.'
    ensures DotIndex(d + rest) == |d|
    decreases |d|
  {
    if d != [] {
      assert (d + rest)[1..] == d[1..] + rest;
      DotAfterDigits(d[1..], rest);
    }
  }

  /** The text a failed edit is reset to reads back as zero. */
  lemma ResetTextIsZero()
    ensures Parse("0.0") == Some(0.0)
  {
    WholeAmountRoundTrip(0);
    assert WholeAmountText(0) == "0.0";
  }

  /** Text that is not a number is refused: "abc", the empty string, a lone dot. */
  lemma NonNumbersAreRefused()
    ensures Parse("abc") == None
    ensures Parse("") == None
    ensures Parse(".") == None
    ensures Parse("$5") == None
  {
    assert !IsNumeralChar("abc"[0]);
    assert !IsNumeralChar("$5"[0]);
  }
}
