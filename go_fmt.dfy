/**
 * Go's `fmt` rendering of an integer under the `%d` verb: an optional leading
 * '-', then the decimal digits of the magnitude, most significant first, with
 * no leading zeros ("0" for zero). `ParseInt` reads such a string back.
 */
module GoFmt {
  import opened Wrappers

  predicate IsDigit(c: char) { '0' <= c <= '9' }

  predicate AllDigits(s: string) { forall i :: 0 <= i < |s| ==> IsDigit(s[i]) }

  function DigitValue(c: char): (d: nat)
    requires IsDigit(c)
    ensures d < 10
  {
    c as int - '0' as int
  }

  function DigitChar(d: nat): (c: char)
    requires d < 10
    ensures IsDigit(c) && DigitValue(c) == d
  {
    ('0' as int + d) as char
  }

  /** A digit string as `%d` prints a natural number: non-empty, no leading zero. */
  predicate IsNatDecimal(s: string) {
    |s| > 0 && AllDigits(s) && (s[0] == '0' ==> |s| == 1)
  }

  /** A string as `%d` prints some integer; "-0" is not one of them. */
  predicate IsIntDecimal(s: string) {
    IsNatDecimal(s) || (|s| > 1 && s[0] == '-' && IsNatDecimal(s[1..]) && s[1..] != "0")
  }

  /** The decimal digits of `n`, most significant first. */
  function NatDigits(n: nat): (s: string)
    ensures IsNatDecimal(s)
    ensures s == "0" <==> n == 0
    decreases n
  {
    if n < 10 then [DigitChar(n)] else NatDigits(n / 10) + [DigitChar(n % 10)]
  }

  /** The value of a digit string read in base 10; the empty string reads as 0. */
  function DigitsValue(s: string): nat
    requires AllDigits(s)
    decreases |s|
  {
    if |s| == 0 then 0 else DigitsValue(s[..|s| - 1]) * 10 + DigitValue(s[|s| - 1])
  }

  /** `fmt.Sprintf("%d", n)`. */
  function FormatInt(n: int): (s: string)
    ensures IsIntDecimal(s)
    ensures n < 0 <==> s[0] == '-'
  {
    if n < 0 then "-" + NatDigits(-n) else NatDigits(n)
  }

  /** Reads an optional '-' followed by at least one decimal digit. */
  function ParseInt(s: string): (r: Option<int>)
    ensures r.None? <==> !(AllDigits(s) && |s| > 0) && !(|s| > 1 && s[0] == '-' && AllDigits(s[1..]))
  {
    if |s| > 1 && s[0] == '-' && AllDigits(s[1..]) then Some(-(DigitsValue(s[1..]) as int))
    else if |s| > 0 && AllDigits(s) then Some(DigitsValue(s))
    else None
  }

  lemma {:induction false} NatDigitsValue(n: nat)
    ensures DigitsValue(NatDigits(n)) == n
    decreases n
  {
    if n >= 10 {
      var s := NatDigits(n);
      assert s[..|s| - 1] == NatDigits(n / 10);
      NatDigitsValue(n / 10);
    }
  }

  /** A digit string with a non-zero leading digit denotes a positive number. */
  lemma {:induction false} LeadingDigitPositive(s: string)
    requires |s| > 0 && AllDigits(s) && s[0] != '0'
    ensures DigitsValue(s) > 0
    decreases |s|
  {
    if |s| > 1 {
      LeadingDigitPositive(s[..|s| - 1]);
    }
  }

  lemma {:induction false} ValueNatDigits(s: string)
    requires IsNatDecimal(s)
    ensures NatDigits(DigitsValue(s)) == s
    decreases |s|
  {
    if |s| > 1 {
      var t := s[..|s| - 1];
      var d := DigitValue(s[|s| - 1]);
      LeadingDigitPositive(t);
      ValueNatDigits(t);
      var v := DigitsValue(t);
      assert DigitsValue(s) == v * 10 + d;
      assert (v * 10 + d) / 10 == v && (v * 10 + d) % 10 == d;
      assert DigitChar(d) == s[|s| - 1];
      assert s == t + [s[|s| - 1]];
    }
  }

  /** Reading back a `%d` rendering gives the integer that was printed. */
  lemma FormatParse(n: int)
    ensures ParseInt(FormatInt(n)) == Some(n)
  {
    if n < 0 {
      var s := FormatInt(n);
      assert s[1..] == NatDigits(-n);
      NatDigitsValue(-n);
    } else {
      NatDigitsValue(n);
    }
  }

  /** Every `%d`-shaped string is the rendering of the integer it denotes. */
  lemma ParseFormat(s: string)
    requires IsIntDecimal(s)
    ensures ParseInt(s).Some? && FormatInt(ParseInt(s).value) == s
  {
    if IsNatDecimal(s) {
      assert s[0] != '-';
      ValueNatDigits(s);
    } else {
      var t := s[1..];
      ValueNatDigits(t);
      LeadingDigitPositive(t);
      assert s == "-" + t;
    }
  }

  /** Distinct integers print differently. */
  lemma FormatInjective(m: int, n: int)
    requires FormatInt(m) == FormatInt(n)
    ensures m == n
  {
    FormatParse(m);
    FormatParse(n);
  }
}
