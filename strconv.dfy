/** A simplified model of Go's `strconv.Atoi`: an optional '+' or '-' followed by one or
    more ASCII digits. The 64-bit range check of the real function is not modelled. */
module Strconv {
  import opened Wrappers
  import opened Strings

  function Pow10(k: nat): (p: nat)
    ensures p >= 1
  {
    if k == 0 then 1 else 10 * Pow10(k - 1)
  }

  function DigitValue(c: char): (d: nat)
    requires IsDigit(c)
    ensures d <= 9
  {
    c as int - '0' as int
  }

  /** The number written in decimal by the digit string `s`; a k-digit string denotes
      a number below 10^k. */
  function DecimalValue(s: string): (v: nat)
    requires AllDigits(s)
    ensures v < Pow10(|s|)
  {
    if |s| == 0 then 0
    else 10 * DecimalValue(s[..|s| - 1]) + DigitValue(s[|s| - 1])
  }

  /** The shortest decimal spelling of `n` (what strconv.Itoa writes for n >= 0). */
  function DecimalString(n: nat): (s: string)
    ensures |s| >= 1 && AllDigits(s)
  {
    var last := ['0' + (n % 10) as char];
    if n < 10 then last else DecimalString(n / 10) + last
  }

  lemma {:induction false} DecimalValueOfDecimalString(n: nat)
    ensures DecimalValue(DecimalString(n)) == n
  {
    var s := DecimalString(n);
    if n >= 10 {
      DecimalValueOfDecimalString(n / 10);
      assert s[..|s| - 1] == DecimalString(n / 10);
    }
  }

  predicate IsSign(c: char) {
    c == '+' || c == '-'
  }

  /** strconv.Atoi without its range check: Some(value) for an optionally signed decimal
      literal, None for anything else. Only digits may follow the sign, so a string
      holding a separator, a space or nothing at all never parses. */
  function Atoi(s: string): (r: Option<int>)
    ensures r.Some? ==> |s| >= 1 && (IsDigit(s[0]) || IsSign(s[0]))
    ensures r.Some? ==> forall i :: 0 < i < |s| ==> IsDigit(s[i])
    ensures r.Some? ==> -(Pow10(|s| - 1) as int) < r.value < Pow10(|s|)
    ensures |s| >= 1 && AllDigits(s) ==> r == Some(DecimalValue(s))
    ensures r.Some? <==> (|s| >= 1 && AllDigits(s)) || (|s| >= 2 && IsSign(s[0]) && AllDigits(s[1..]))
    ensures |s| >= 2 && IsSign(s[0]) && AllDigits(s[1..])
            ==> r == Some(if s[0] == '-' then -(DecimalValue(s[1..]) as int) else DecimalValue(s[1..]))
  {
    if |s| > 0 && IsSign(s[0]) then
      var digits := s[1..];
      if |digits| > 0 && AllDigits(digits) then
        Some(if s[0] == '-' then -(DecimalValue(digits) as int) else DecimalValue(digits))
      else None
    else if |s| > 0 && AllDigits(s) then
      PowMonotone(|s| - 1, |s|);
      Some(DecimalValue(s))
    else None
  }

  lemma {:induction false} PowMonotone(j: nat, k: nat)
    requires j <= k
    ensures Pow10(j) <= Pow10(k)
    decreases k
  {
    if j < k {
      PowMonotone(j, k - 1);
    }
  }

  /** The source's `v, _ := strconv.Atoi(field)`: the error is dropped and a failed
      parse yields 0. */
  function AtoiOrZero(s: string): (v: int)
    ensures (exists i :: 0 <= i < |s| && !IsDigit(s[i]) && (i > 0 || !IsSign(s[i]))) ==> v == 0
    ensures |s| == 0 ==> v == 0
    ensures |s| >= 1 && AllDigits(s) ==> v == DecimalValue(s)
    ensures Atoi(s).None? ==> v == 0
    ensures |s| >= 2 && IsSign(s[0]) && AllDigits(s[1..])
            ==> v == if s[0] == '-' then -(DecimalValue(s[1..]) as int) else DecimalValue(s[1..])
  {
    match Atoi(s)
    case Some(v) => v
    case None => 0
  }

  /** The decimal spelling of an integer, with a leading '-' when it is negative (what
      strconv.Itoa writes). */
  function FormatInt(x: int): (s: string)
    ensures |s| >= 1 && (IsDigit(s[0]) || s[0] == '-') && IsDigit(s[|s| - 1])
    ensures forall i :: 0 < i < |s| ==> IsDigit(s[i])
  {
    if x < 0 then "-" + DecimalString(-x) else DecimalString(x)
  }

  /** A field holding a character that is neither a digit nor a sign never parses, so it
      reads as 0. */
  lemma AtoiOrZeroRejects(s: string, c: char)
    requires !IsDigit(c) && !IsSign(c) && Count(s, c) > 0
    ensures AtoiOrZero(s) == 0
  {
    CountZero(s, c);
    var i := IndexOf(s, c).value;
    assert !IsDigit(s[i]) && !IsSign(s[i]);
  }

  /** A lone sign does not parse; a signed literal takes its sign, leading zeros and all. */
  lemma AtoiSignedExamples()
    ensures Atoi("-") == None && Atoi("+") == None
    ensures Atoi("+12") == Some(12) && Atoi("-012") == Some(-12)
    ensures AtoiOrZero("-") == 0 && AtoiOrZero("-7") == -7
  {
    assert "+12"[1..] == "12" && "12"[..1] == "1";
    assert "-012"[1..] == "012" && "012"[..2] == "01" && "01"[..1] == "0";
    assert "-7"[1..] == "7";
  }

  /** A formatted integer is a run of digits after an optional '-': it neither starts
      nor ends with white space and holds no comma. */
  lemma FormatIntPlain(x: int)
    ensures var s := FormatInt(x);
      && !IsSpace(s[0]) && !IsSpace(s[|s| - 1])
      && forall k :: 0 <= k < |s| ==> s[k] != ','
  {
  }

  /** The writer and the parser agree: formatting an integer and parsing it back gives
      the integer, with its sign. */
  lemma AtoiFormatRoundTrip(x: int)
    ensures Atoi(FormatInt(x)) == Some(x)
  {
    if x < 0 {
      var s := "-" + DecimalString(-x);
      assert s[1..] == DecimalString(-x);
      DecimalValueOfDecimalString(-x);
    } else {
      DecimalValueOfDecimalString(x);
    }
  }

  /** The same round trip through the loader's parse, which reads failures as 0. */
  lemma AtoiOrZeroFormat(x: int)
    ensures AtoiOrZero(FormatInt(x)) == x
  {
    AtoiFormatRoundTrip(x);
  }
}
