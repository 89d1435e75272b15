/** Decimal rendering of integers (`Number.prototype.toString` on integral values) and
    the prefix test couldBeCorrect built on it. */
module Decimal {

  predicate IsDigit(c: char) { '0' <= c <= '9' }

  predicate AllDigits(s: string) { forall i :: 0 <= i < |s| ==> IsDigit(s[i]) }

  function DigitChar(d: int): (c: char)
    requires 0 <= d < 10
    ensures IsDigit(c) && c as int - '0' as int == d
  {
    (d + '0' as int) as char
  }

  /** The decimal digits of `n`, most significant first, with no leading zero. */
  function NatToDecimal(n: nat): (s: string)
    ensures |s| >= 1 && AllDigits(s)
    ensures n >= 10 ==> s[0] != '0'
    decreases n
  {
    if n < 10 then [DigitChar(n)] else NatToDecimal(n / 10) + [DigitChar(n % 10)]
  }

  /** The value of a string of decimal digits. */
  function DigitsValue(s: string): nat
    requires AllDigits(s)
    decreases |s|
  {
    if |s| == 0 then 0
    else DigitsValue(s[..|s| - 1]) * 10 + (s[|s| - 1] as int - '0' as int)
  }

  /** Reading the digits back gives the number: the rendering loses nothing. */
  lemma {:induction false} DecimalRoundTrip(n: nat)
    ensures DigitsValue(NatToDecimal(n)) == n
    decreases n
  {
    if n >= 10 {
      var s := NatToDecimal(n);
      DecimalRoundTrip(n / 10);
      assert s[..|s| - 1] == NatToDecimal(n / 10);
    }
  }

  /** `toString` of an integer: a minus sign before the digits of a negative value. */
  function IntToDecimal(i: int): (s: string)
    ensures |s| >= 1 && (s[0] == '-' <==> i < 0)
    ensures i >= 0 ==> AllDigits(s)
  {
    if i < 0 then "-" + NatToDecimal(-i) else NatToDecimal(i)
  }

  /** Two integers with the same decimal text are equal. */
  lemma IntToDecimalInjective(a: int, b: int)
    requires IntToDecimal(a) == IntToDecimal(b)
    ensures a == b
  {
    if a < 0 {
      assert b < 0;
      var sa, sb := NatToDecimal(-a), NatToDecimal(-b);
      assert sa == IntToDecimal(a)[1..] == IntToDecimal(b)[1..] == sb;
      DecimalRoundTrip(-a);
      DecimalRoundTrip(-b);
    } else {
      assert b >= 0;
      assert NatToDecimal(a) == NatToDecimal(b);
      DecimalRoundTrip(a);
      DecimalRoundTrip(b);
    }
  }

  /** `n` with its last `j` decimal digits removed (`floor(n / 10^j)`). */
  function DropDigits(n: nat, j: nat): nat
    decreases j
  {
    if j == 0 then n else DropDigits(n / 10, j - 1)
  }

  /** Cutting the last `j` characters off the text of `n` gives the text of `n` with
      its last `j` digits removed. */
  lemma {:induction false} TextPrefixIsDropDigits(n: nat, j: nat)
    requires j < |NatToDecimal(n)|
    ensures NatToDecimal(n)[..|NatToDecimal(n)| - j] == NatToDecimal(DropDigits(n, j))
    decreases j
  {
    if j > 0 {
      var s, t := NatToDecimal(n), NatToDecimal(n / 10);
      assert n >= 10;
      assert s == t + [DigitChar(n % 10)];
      TextPrefixIsDropDigits(n / 10, j - 1);
      assert s[..|s| - j] == t[..|t| - (j - 1)];
    }
  }

  /** The text of `p` begins the text of `c` exactly when `p` is `c` with some of its
      last digits removed (never all of them). */
  lemma PrefixIffDropDigits(p: nat, c: nat)
    ensures NatToDecimal(p) <= NatToDecimal(c) <==>
            exists j :: 0 <= j < |NatToDecimal(c)| && DropDigits(c, j) == p
  {
    var t, s := NatToDecimal(p), NatToDecimal(c);
    if t <= s {
      var j := |s| - |t|;
      TextPrefixIsDropDigits(c, j);
      assert s[..|s| - j] == t;
      DecimalRoundTrip(p);
      DecimalRoundTrip(DropDigits(c, j));
    }
    forall j | 0 <= j < |s| && DropDigits(c, j) == p
      ensures t <= s
    {
      TextPrefixIsDropDigits(c, j);
    }
  }

  function Magnitude(i: int): nat { if i < 0 then -i else i }

  /** Text that starts with the same character is a prefix exactly when the rest is. */
  lemma PrefixAfterSameHead(c: char, x: string, y: string)
    ensures [c] + x <= [c] + y <==> x <= y
  {
    if |x| <= |y| {
      assert ([c] + y)[..|x| + 1] == [c] + y[..|x|];
      if [c] + x <= [c] + y {
        assert x == ([c] + x)[1..] == ([c] + y[..|x|])[1..] == y[..|x|];
      }
    }
  }

  /** couldBeCorrect: the text of the partial answer begins the text of the correct one.
      In numbers: both have the same sign and the magnitude of the partial answer is
      that of the correct one with some of its last digits removed. */
  function CouldBeCorrect(partialAnswer: int, correctAnswer: int): (r: bool)
    ensures partialAnswer == correctAnswer ==> r
    ensures r ==> (partialAnswer < 0 <==> correctAnswer < 0)
    ensures (partialAnswer < 0 <==> correctAnswer < 0) ==>
              (r <==> exists j :: 0 <= j < |NatToDecimal(Magnitude(correctAnswer))| &&
                                 DropDigits(Magnitude(correctAnswer), j) == Magnitude(partialAnswer))
    ensures r && |IntToDecimal(partialAnswer)| == |IntToDecimal(correctAnswer)| ==>
              partialAnswer == correctAnswer
  {
    var partialStr, correctStr := IntToDecimal(partialAnswer), IntToDecimal(correctAnswer);
    var r := partialStr <= correctStr;
    SameTextSameNumber(partialAnswer, correctAnswer, r);
    if partialAnswer >= 0 && correctAnswer >= 0 then
      PrefixIffDropDigits(Magnitude(partialAnswer), Magnitude(correctAnswer));
      r
    else if partialAnswer < 0 && correctAnswer < 0 then
      assert partialStr == ['-'] + NatToDecimal(-partialAnswer);
      assert correctStr == ['-'] + NatToDecimal(-correctAnswer);
      PrefixAfterSameHead('-', NatToDecimal(-partialAnswer), NatToDecimal(-correctAnswer));
      PrefixIffDropDigits(Magnitude(partialAnswer), Magnitude(correctAnswer));
      r
    else
      r
  }

  /** A prefix as long as the whole text is the whole text, so the numbers are equal. */
  lemma SameTextSameNumber(a: int, b: int, r: bool)
    requires r == (IntToDecimal(a) <= IntToDecimal(b))
    ensures r && |IntToDecimal(a)| == |IntToDecimal(b)| ==> a == b
  {
    if r && |IntToDecimal(a)| == |IntToDecimal(b)| {
      assert IntToDecimal(a) == IntToDecimal(b);
      IntToDecimalInjective(a, b);
    }
  }
}
