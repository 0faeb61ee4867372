/** The strict token conversions of the parser: `to_int` (parser.h:37-47), which rests on
    `std::from_chars`, and `to_bool` (parser.h:66-74). `to_double` (parser.h:49-64) goes through
    the host's floating-point library and is a parameter of the model (see Registry.Coerce). */
module Coercion {
  import opened Wrappers

  /** The range of the C++ `int` that `to_int` converts to. */
  const IntMin: int := -0x8000_0000
  const IntMax: int := 0x7fff_ffff

  predicate IsDigit(c: char) {
    '0' <= c <= '9'
  }

  predicate AllDigits(s: string) {
    forall k :: 0 <= k < |s| ==> IsDigit(s[k])
  }

  /** The number a run of decimal digits denotes, most significant digit first. */
  function DigitsValue(s: string): nat
    requires AllDigits(s)
  {
    if s == [] then 0 else 10 * DigitsValue(s[..|s| - 1]) + (s[|s| - 1] as int - '0' as int)
  }

  /** Length of the longest run of digits in `s` that starts at `from`. */
  function DigitRun(s: string, from: nat): (n: nat)
    requires from <= |s|
    ensures from + n <= |s|
    ensures AllDigits(s[from..from + n])
    ensures from + n < |s| ==> !IsDigit(s[from + n])
    decreases |s| - from
  {
    if from < |s| && IsDigit(s[from]) then
      var rest := DigitRun(s, from + 1);
      assert s[from..from + 1 + rest] == [s[from]] + s[from + 1..from + 1 + rest];
      1 + rest
    else
      0
  }

  /** The error codes `std::from_chars` reports. */
  datatype Errc = NoError | InvalidArgument | ResultOutOfRange

  /** What `std::from_chars` hands back: where it stopped, its error code, and the value it wrote
      (only meaningful when the code is NoError; the model writes 0 otherwise). */
  datatype FromCharsResult = FromCharsResult(ptr: nat, ec: Errc, value: int)

  /** `std::from_chars` for `int` in base 10: an optional '-', then the longest run of digits.
      No digits: InvalidArgument and nothing consumed. Digits whose value does not fit an `int`:
      ResultOutOfRange, with the digits consumed. */
  function FromChars(s: string): (r: FromCharsResult)
    ensures r.ptr <= |s|
    ensures r.ec == NoError ==> IntMin <= r.value <= IntMax
  {
    var sign := if |s| > 0 && s[0] == '-' then 1 else 0;
    var n := DigitRun(s, sign);
    if n == 0 then
      FromCharsResult(0, InvalidArgument, 0)
    else
      var magnitude: int := DigitsValue(s[sign..sign + n]);
      var v: int := if sign == 1 then -magnitude else magnitude;
      if v < IntMin || IntMax < v then FromCharsResult(sign + n, ResultOutOfRange, 0)
      else FromCharsResult(sign + n, NoError, v)
  }

  /** `to_int`: rejects the token when from_chars fails or does not consume all of it. */
  function ToInt(input: string): (r: Option<int>)
    ensures r.Some? ==> IntMin <= r.value <= IntMax
  {
    var result := FromChars(input);
    if result.ec == InvalidArgument || result.ec == ResultOutOfRange || result.ptr != |input| then None
    else Some(result.value)
  }

  /** A whole-token base-10 integer literal: one or more digits, optionally after a single '-'.
      No '+', no blanks, nothing after the digits. */
  predicate IsIntegerLiteral(s: string) {
    if |s| > 0 && s[0] == '-' then |s| > 1 && AllDigits(s[1..]) else |s| > 0 && AllDigits(s)
  }

  /** The integer an integer literal denotes. */
  function LiteralValue(s: string): int
    requires IsIntegerLiteral(s)
  {
    if s[0] == '-' then -(DigitsValue(s[1..]) as int) else DigitsValue(s)
  }

  /** `to_int` accepts exactly the integer literals whose value fits an `int`, and returns that value. */
  lemma ToIntAcceptsExactlyLiterals(s: string)
    ensures ToInt(s).Some? <==> IsIntegerLiteral(s) && IntMin <= LiteralValue(s) <= IntMax
    ensures ToInt(s).Some? ==> ToInt(s).value == LiteralValue(s)
  {
    var sign := if |s| > 0 && s[0] == '-' then 1 else 0;
    var n := DigitRun(s, sign);
    if IsIntegerLiteral(s) {
      assert sign + n == |s|;
      assert s[sign..sign + n] == s[sign..];
    }
    if ToInt(s).Some? {
      assert sign + n == |s| && n > 0;
      assert s[sign..sign + n] == s[sign..];
      if sign == 0 {
        assert s[0..] == s;
      }
    }
  }

  /** The decimal digits of a natural number, without leading zeros. */
  function NatDigits(m: nat): string
    decreases m
  {
    if m < 10 then ['0' + m as char] else NatDigits(m / 10) + ['0' + (m % 10) as char]
  }

  /** The canonical decimal rendering of an integer, as `std::to_string` writes it. */
  function Decimal(n: int): string {
    if n < 0 then "-" + NatDigits(-n) else NatDigits(n)
  }

  lemma {:induction false} NatDigitsDenote(m: nat)
    ensures |NatDigits(m)| > 0 && AllDigits(NatDigits(m))
    ensures DigitsValue(NatDigits(m)) == m
    decreases m
  {
    var s := NatDigits(m);
    if m >= 10 {
      NatDigitsDenote(m / 10);
      assert s[..|s| - 1] == NatDigits(m / 10);
    }
  }

  /** Rendering then converting gives the number back, for every `int`. */
  lemma ToIntOfDecimal(n: int)
    requires IntMin <= n <= IntMax
    ensures ToInt(Decimal(n)) == Some(n)
  {
    var s := Decimal(n);
    if n < 0 {
      NatDigitsDenote(-n);
      assert s[1..] == NatDigits(-n);
    } else {
      NatDigitsDenote(n);
    }
    ToIntAcceptsExactlyLiterals(s);
  }

  /** The spelling `to_bool` accepts for each truth value. */
  function BoolText(b: bool): string {
    if b then "true" else "false"
  }

  /** `to_bool`: exactly the two spellings of BoolText, case-sensitive. */
  function ToBool(input: string): (r: Option<bool>)
    ensures forall b :: r == Some(b) <==> input == BoolText(b)
  {
    if input == "true" then Some(true)
    else if input == "false" then Some(false)
    else None
  }

  /** `to_int` on tokens it accepts, including the smallest `int`. */
  lemma IntExamples()
    ensures ToInt("42") == Some(42)
    ensures ToInt("-7") == Some(-7)
    ensures ToInt("-2147483648") == Some(IntMin)
  {
    ToIntOfDecimal(42);
    assert Decimal(42) == "42";
    ToIntOfDecimal(-7);
    assert Decimal(-7) == "-7";
    ToIntOfDecimal(IntMin);
    assert Decimal(IntMin) == "-2147483648";
  }

  /** `to_int` refuses trailing text, a '+', blanks, a lone '-' and the empty token. */
  lemma IntRejections()
    ensures ToInt("42x") == None
    ensures ToInt("+7") == None
    ensures ToInt(" 7") == None
    ensures ToInt("-") == None
    ensures ToInt("") == None
  {
    ToIntAcceptsExactlyLiterals("42x");
    assert !IsDigit("42x"[2]);
    ToIntAcceptsExactlyLiterals("+7");
    ToIntAcceptsExactlyLiterals(" 7");
    ToIntAcceptsExactlyLiterals("-");
    ToIntAcceptsExactlyLiterals("");
  }

  /** `to_bool` is case-sensitive and accepts no other spelling. */
  lemma BoolExamples()
    ensures ToBool("True") == None && ToBool("1") == None && ToBool("") == None
    ensures ToBool("true") == Some(true) && ToBool("false") == Some(false)
  {
  }
}
