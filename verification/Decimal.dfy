/** Decimal text: std::to_string on non-negative values and std::stoi. */
module Decimal {
  import opened TextStream

  const INT_MAX := 0x7FFF_FFFF
  const INT_MIN := -0x8000_0000

  /** The exceptions derived from std::exception that the gateway's own code can raise. */
  datatype Error = InvalidArgument | OutOfRange | LengthError

  datatype Result<+T> = Ok(value: T) | Err(error: Error)

  predicate IsDigit(c: char) { '0' <= c <= '9' }

  predicate AllDigits(s: string) { forall i | 0 <= i < |s| :: IsDigit(s[i]) }

  function Digit(c: char): nat
    requires IsDigit(c)
  {
    c as int - '0' as int
  }

  function DigitRun(s: string): (k: nat)
    ensures k <= |s| && AllDigits(s[..k])
    ensures k < |s| ==> !IsDigit(s[k])
    ensures k == |s| <==> AllDigits(s)
  {
    if s == "" || !IsDigit(s[0]) then 0 else 1 + DigitRun(s[1..])
  }

  function Value(s: string): nat
    requires AllDigits(s)
  {
    if s == "" then 0 else 10 * Value(s[..|s| - 1]) + Digit(s[|s| - 1])
  }

  function ToDecimal(n: nat): (s: string)
    ensures s != "" && AllDigits(s) && Value(s) == n
    ensures s[0] == '0' ==> s == "0"
  {
    var last := ['0' + (n % 10) as char];
    if n < 10 then last
    else
      var s := ToDecimal(n / 10) + last;
      assert s[..|s| - 1] == ToDecimal(n / 10);
      s
  }

  /** How a number is written, digit by digit. */
  lemma Numerals(n: nat, digit: nat)
    requires digit < 10
    ensures ToDecimal(digit) == ["0123456789"[digit]]
    ensures n > 0 ==> ToDecimal(10 * n + digit) == ToDecimal(n) + ToDecimal(digit)
    ensures IsDigit("0123456789"[digit]) && Digit("0123456789"[digit]) == digit
  {
    assert (10 * n + digit) / 10 == n && (10 * n + digit) % 10 == digit;
  }

  /** A decimal numeral without superfluous leading zeros. */
  predicate Canonical(s: string) { s != "" && AllDigits(s) && (s[0] == '0' ==> |s| == 1) }

  /** A number has one canonical numeral: the one that ToDecimal prints. */
  lemma {:induction false} CanonicalIsPrinted(s: string)
    requires Canonical(s)
    ensures ToDecimal(Value(s)) == s
  {
    var front := s[..|s| - 1];
    var last := Digit(s[|s| - 1]);
    assert '0' + last as char == s[|s| - 1];
    if |s| == 1 {
      assert Value(s) == last;
    } else {
      assert front[0] == s[0];
      CanonicalIsPrinted(front);
      PositiveNumeral(front);
      assert Value(s) == 10 * Value(front) + last;
      assert Value(s) / 10 == Value(front) && Value(s) % 10 == last;
      assert s == front + [s[|s| - 1]];
    }
  }

  lemma {:induction false} PositiveNumeral(s: string)
    requires s != "" && AllDigits(s) && s[0] != '0'
    ensures Value(s) > 0
  {
    if |s| > 1 {
      PositiveNumeral(s[..|s| - 1]);
    }
  }

  /** Three digits are enough exactly for the numbers below 1000. */
  lemma ThreeDigits(n: nat)
    ensures |ToDecimal(n)| <= 3 <==> n < 1000
  {
    if n >= 10 {
      assert |ToDecimal(n)| == |ToDecimal(n / 10)| + 1;
      if n >= 100 {
        assert |ToDecimal(n / 10)| == |ToDecimal(n / 10 / 10)| + 1;
        if n >= 1000 {
          assert |ToDecimal(n / 10 / 10)| == |ToDecimal(n / 10 / 10 / 10)| + 1;
        }
      }
    }
  }

  /** `std::stoi(s)`: leading white space, an optional sign, digits; the rest is ignored. */
  function Stoi(s: string): (r: Result<int>)
    ensures r.Ok? ==> INT_MIN <= r.value <= INT_MAX
  {
    Signed(s[SpaceRun(s)..])
  }

  function Signed(t: string): (r: Result<int>)
    ensures r.Ok? ==> INT_MIN <= r.value <= INT_MAX
  {
    var d := if t != "" && (t[0] == '-' || t[0] == '+') then t[1..] else t;
    var n := DigitRun(d);
    if n == 0 then Err(InvalidArgument) else InRange(t[0] == '-', Value(d[..n]))
  }

  function InRange(negative: bool, magnitude: nat): (r: Result<int>)
    ensures r.Ok? ==> INT_MIN <= r.value <= INT_MAX
  {
    var v := if negative then 0 - magnitude else magnitude;
    if INT_MIN <= v <= INT_MAX then Ok(v) else Err(OutOfRange)
  }

  /** Printing a number and converting it back works exactly up to the largest int. */
  lemma StoiOfDecimal(n: nat)
    ensures Stoi(ToDecimal(n)) == if n <= 2147483647 then Ok(n) else Err(OutOfRange)
  {
    var s := ToDecimal(n);
    assert IsDigit(s[0]);
    assert SpaceRun(s) == 0 && s[0..] == s;
    assert s[..DigitRun(s)] == s;
  }

  lemma {:induction false} DigitRunAt(digits: string, rest: string)
    requires AllDigits(digits) && (rest == "" || !IsDigit(rest[0]))
    ensures DigitRun(digits + rest) == |digits|
  {
    if digits == "" {
      assert digits + rest == rest;
    } else {
      assert (digits + rest)[1..] == digits[1..] + rest;
      DigitRunAt(digits[1..], rest);
    }
  }

  /** The numerals that std::stoi reads: white space, a sign or none, digits, and anything else. */
  lemma StoiReads(blanks: string, sign: string, digits: string, rest: string)
    requires AllSpace(blanks) && sign in ["", "+", "-"]
    requires digits != "" && AllDigits(digits) && (rest == "" || !IsDigit(rest[0]))
    ensures var v: int := if sign == "-" then 0 - Value(digits) else Value(digits);
            Stoi(blanks + (sign + (digits + rest))) ==
            if -2147483648 <= v <= 2147483647 then Ok(v) else Err(OutOfRange)
  {
    var t := sign + (digits + rest);
    assert IsDigit(digits[0]);
    assert t[0] == if sign == "" then digits[0] else sign[0];
    SpaceRunAt(blanks, t);
    assert (blanks + t)[|blanks|..] == t;
    SignedReads(sign, digits, rest);
  }

  lemma SignedReads(sign: string, digits: string, rest: string)
    requires sign in ["", "+", "-"]
    requires digits != "" && AllDigits(digits) && (rest == "" || !IsDigit(rest[0]))
    ensures Signed(sign + (digits + rest)) == InRange(sign == "-", Value(digits))
  {
    var d := digits + rest;
    assert IsDigit(d[0]);
    DigitRunAt(digits, rest);
    assert d[..|digits|] == digits;
    SignStripped(sign, d);
  }

  lemma SignStripped(sign: string, d: string)
    requires sign in ["", "+", "-"] && d != "" && IsDigit(d[0])
    ensures Signed(sign + d) == InRange(sign == "-", Value(d[..DigitRun(d)]))
  {
    var t := sign + d;
    if sign == "" {
      assert t == d;
    } else {
      assert t[0] == sign[0] && t[1..] == d;
    }
  }

  /** Without a digit at the front, or behind a sign at the front, there is nothing to convert. */
  lemma StoiRejects(blanks: string, sign: string, rest: string)
    requires AllSpace(blanks) && sign in ["", "+", "-"]
    requires rest == "" || !IsDigit(rest[0])
    requires rest != "" && sign == "" ==> !IsSpace(rest[0]) && rest[0] != '+' && rest[0] != '-'
    ensures Stoi(blanks + (sign + rest)) == Err(InvalidArgument)
  {
    var t := sign + rest;
    if t != "" {
      SpaceRunAt(blanks, t);
      assert (blanks + t)[|blanks|..] == t;
    }
  }

  predicate AllZeros(s: string) { forall i | 0 <= i < |s| :: s[i] == '0' }

  /** Digits have the value of the number whose numeral they are, whatever zeros stand in front. */
  lemma ValueOfNumeral(zeros: string, n: nat)
    requires AllZeros(zeros)
    ensures AllDigits(zeros + ToDecimal(n)) && Value(zeros + ToDecimal(n)) == n
  {
    LeadingZeros(zeros, ToDecimal(n));
  }

  lemma {:induction false} LeadingZeros(zeros: string, digits: string)
    requires AllZeros(zeros) && AllDigits(digits)
    ensures AllDigits(zeros + digits) && Value(zeros + digits) == Value(digits)
    decreases |zeros| + |digits|
  {
    if digits != "" {
      var front := digits[..|digits| - 1];
      LeadingZeros(zeros, front);
      assert (zeros + digits)[..|zeros + digits| - 1] == zeros + front;
    } else if zeros != "" {
      var front := zeros[..|zeros| - 1];
      assert zeros + digits == zeros;
      LeadingZeros(front, "");
      assert front + "" == front;
    }
  }
}
