/** The three checks applied to a card number: the format check (validateInput), the
    Luhn checksum of ISO/IEC 7812-1 (validateLuhn) and BIN extraction (extractBIN). */
module Card {
  import opened Strings
  import opened Strconv

  /** A card number as the format check accepts it: 13 to 19 characters, all digits. */
  predicate WellFormed(cardNumber: string) {
    13 <= |cardNumber| <= 19 && AllDigits(cardNumber)
  }

  /** validateInput: rejects a bad length first, then scans for a non-digit. */
  method ValidateInput(cardNumber: string) returns (ok: bool)
    ensures ok <==> WellFormed(cardNumber)
  {
    if |cardNumber| < 13 || |cardNumber| > 19 {
      return false;
    }
    for i := 0 to |cardNumber|
      invariant forall j :: 0 <= j < i ==> IsDigit(cardNumber[j])
    {
      if !IsDigit(cardNumber[i]) {
        return false;
      }
    }
    return true;
  }

  // ---------------------------------------------------------------- Luhn

  /** `int(cardNumber[i] - '0')`: the subtraction is on a byte, so it wraps modulo 256. */
  function ByteDigit(c: char): (d: nat)
    ensures d < 256
    ensures IsDigit(c) ==> d == DigitValue(c)
  {
    (c as int - '0' as int) % 256
  }

  /** What one character adds to the Luhn sum: its digit, or, when doubled, twice the
      digit with 9 taken off a two-digit result. */
  function Contribution(c: char, doubled: bool): nat
  {
    var d := ByteDigit(c);
    if doubled then (if 2 * d > 9 then 2 * d - 9 else 2 * d) else d
  }

  /** The Luhn sum of `s` read from its rightmost character to its leftmost, the
      rightmost one doubled exactly when `doubled` holds and the flag flipping after
      every character. */
  function LuhnSum(s: string, doubled: bool): nat
  {
    if |s| == 0 then 0
    else Contribution(s[|s| - 1], doubled) + LuhnSum(s[..|s| - 1], !doubled)
  }

  /** The Luhn check of ISO/IEC 7812-1: the sum, with the check digit itself not doubled,
      is a multiple of 10. */
  predicate LuhnValid(s: string) {
    LuhnSum(s, false) % 10 == 0
  }

  /** validateLuhn: one pass from the rightmost character to the leftmost, with a running
      sum and a flag that alternates after every character. */
  method ValidateLuhn(cardNumber: string) returns (valid: bool)
    ensures valid <==> LuhnValid(cardNumber)
  {
    var sum := 0;
    var double := false;
    var i := |cardNumber| - 1;
    assert cardNumber[..i + 1] == cardNumber;
    while i >= 0
      invariant -1 <= i < |cardNumber|
      invariant sum + LuhnSum(cardNumber[..i + 1], double) == LuhnSum(cardNumber, false)
      invariant AllDigits(cardNumber) ==> sum <= 9 * (|cardNumber| - 1 - i)
    {
      var digit := ByteDigit(cardNumber[i]);
      if double {
        digit := digit * 2;
        if digit > 9 {
          digit := digit - 9;
        }
      }
      assert cardNumber[..i + 1][..i] == cardNumber[..i];
      sum := sum + digit;
      double := !double;
      i := i - 1;
    }
    assert cardNumber[..0] == [];
    valid := sum % 10 == 0;
  }

  /** On a digit the doubling step is a permutation of 0..9: every contribution is a digit
      value and distinct digits contribute distinct values. */
  lemma ContributionIsDigitPermutation(c: char, e: char, doubled: bool)
    requires IsDigit(c) && IsDigit(e)
    ensures Contribution(c, doubled) <= 9
    ensures c != e ==> Contribution(c, doubled) != Contribution(e, doubled)
  {
  }

  /** On a digit string every character adds at most 9 to the sum. */
  lemma {:induction false} LuhnSumBound(s: string, doubled: bool)
    requires AllDigits(s)
    ensures LuhnSum(s, doubled) <= 9 * |s|
  {
    if |s| > 0 {
      ContributionIsDigitPermutation(s[|s| - 1], s[|s| - 1], doubled);
      LuhnSumBound(s[..|s| - 1], !doubled);
    }
  }

  /** Changing the character at position k changes the sum by exactly the change in that
      character's contribution; the character is doubled exactly when its distance from
      the right end, |s| - 1 - k, is odd (for a sum that starts undoubled). */
  lemma {:induction false} LuhnSumDifference(s: string, t: string, k: nat, doubled: bool)
    requires |s| == |t| && k < |s|
    requires forall i :: 0 <= i < |s| && i != k ==> s[i] == t[i]
    ensures var atK := doubled != ((|s| - 1 - k) % 2 == 1);
            LuhnSum(s, doubled) - LuhnSum(t, doubled) == Contribution(s[k], atK) - Contribution(t[k], atK)
  {
    var n := |s|;
    var s', t' := s[..n - 1], t[..n - 1];
    assert LuhnSum(s, doubled) == Contribution(s[n - 1], doubled) + LuhnSum(s', !doubled);
    assert LuhnSum(t, doubled) == Contribution(t[n - 1], doubled) + LuhnSum(t', !doubled);
    if k == n - 1 {
      assert s' == t';
    } else {
      assert s[n - 1] == t[n - 1] && s'[k] == s[k] && t'[k] == t[k];
      LuhnSumDifference(s', t', k, !doubled);
      FlipParity(n - 2 - k);
      var atK := doubled != ((n - 1 - k) % 2 == 1);
      assert (!doubled != ((|s'| - 1 - k) % 2 == 1)) == atK;
      assert LuhnSum(s', !doubled) - LuhnSum(t', !doubled) == Contribution(s[k], atK) - Contribution(t[k], atK);
    }
  }

  lemma FlipParity(m: nat)
    ensures ((m + 1) % 2 == 1) == !(m % 2 == 1)
  {
  }

  /** Two sums that differ by 1..9 cannot both be multiples of 10. */
  lemma NotBothMultiplesOfTen(a: int, b: int)
    requires 0 < a - b < 10 || 0 < b - a < 10
    requires a % 10 == 0
    ensures b % 10 != 0
  {
  }

  /** The Luhn check catches every single-digit error: a valid number with one digit
      replaced by a different digit is no longer valid. */
  lemma LuhnDetectsSingleDigitError(s: string, t: string, k: nat)
    requires AllDigits(s) && AllDigits(t)
    requires |s| == |t| && k < |s| && s[k] != t[k]
    requires forall i :: 0 <= i < |s| && i != k ==> s[i] == t[i]
    requires LuhnValid(s)
    ensures !LuhnValid(t)
  {
    var atK := (|s| - 1 - k) % 2 == 1;
    LuhnSumDifference(s, t, k, false);
    ContributionIsDigitPermutation(s[k], t[k], atK);
    ContributionIsDigitPermutation(t[k], s[k], atK);
    NotBothMultiplesOfTen(LuhnSum(s, false), LuhnSum(t, false));
  }

  /** The first eight digits of the test number below, with the doubling they get as
      part of the sixteen-digit number. */
  lemma LuhnSumOfTestPrefix()
    ensures LuhnSum("45395787", false) == 50
  {
    assert LuhnSum("4", true) == 8;
    assert "45"[..1] == "4";
    assert LuhnSum("45", false) == 13;
    assert "453"[..2] == "45";
    assert LuhnSum("453", true) == 19;
    assert "4539"[..3] == "453";
    assert LuhnSum("4539", false) == 28;
    assert "45395"[..4] == "4539";
    assert LuhnSum("45395", true) == 29;
    assert "453957"[..5] == "45395";
    assert LuhnSum("453957", false) == 36;
    assert "4539578"[..6] == "453957";
    assert LuhnSum("4539578", true) == 43;
    assert "45395787"[..7] == "4539578";
    assert LuhnSum("45395787", false) == 50;
  }

  /** A well-known valid test number: its Luhn sum is 80. */
  lemma LuhnValidExample()
    ensures LuhnValid("4539578763621486")
  {
    LuhnSumOfTestPrefix();
    assert "453957876"[..8] == "45395787";
    assert LuhnSum("453957876", true) == 53;
    assert "4539578763"[..9] == "453957876";
    assert LuhnSum("4539578763", false) == 56;
    assert "45395787636"[..10] == "4539578763";
    assert LuhnSum("45395787636", true) == 59;
    assert "453957876362"[..11] == "45395787636";
    assert LuhnSum("453957876362", false) == 61;
    assert "4539578763621"[..12] == "453957876362";
    assert LuhnSum("4539578763621", true) == 63;
    assert "45395787636214"[..13] == "4539578763621";
    assert LuhnSum("45395787636214", false) == 67;
    assert "453957876362148"[..14] == "45395787636214";
    assert LuhnSum("453957876362148", true) == 74;
    assert "4539578763621486"[..15] == "453957876362148";
    assert LuhnSum("4539578763621486", false) == 80;
  }

  /** The same number with its last digit changed fails the check: its sum is 81. */
  lemma LuhnInvalidExample()
    ensures !LuhnValid("4539578763621487")
  {
    LuhnSumOfTestPrefix();
    assert "453957876"[..8] == "45395787";
    assert LuhnSum("453957876", true) == 53;
    assert "4539578763"[..9] == "453957876";
    assert LuhnSum("4539578763", false) == 56;
    assert "45395787636"[..10] == "4539578763";
    assert LuhnSum("45395787636", true) == 59;
    assert "453957876362"[..11] == "45395787636";
    assert LuhnSum("453957876362", false) == 61;
    assert "4539578763621"[..12] == "453957876362";
    assert LuhnSum("4539578763621", true) == 63;
    assert "45395787636214"[..13] == "4539578763621";
    assert LuhnSum("45395787636214", false) == 67;
    assert "453957876362148"[..14] == "45395787636214";
    assert LuhnSum("453957876362148", true) == 74;
    assert "4539578763621487"[..15] == "453957876362148";
    assert LuhnSum("4539578763621487", false) == 81;
  }

  // ---------------------------------------------------------------- BIN

  /** extractBIN: the integer written by the first six characters, 0 for a shorter string
      or a prefix that does not parse. Only a sign can make it negative. */
  function ExtractBin(cardNumber: string): (bin: int)
    ensures |cardNumber| < 6 ==> bin == 0
    ensures -99999 <= bin <= 999999
    ensures |cardNumber| >= 6 && AllDigits(cardNumber[..6])
            ==> 0 <= bin && bin == DecimalValue(cardNumber[..6])
  {
    if |cardNumber| < 6 then 0 else AtoiOrZero(cardNumber[..6])
  }

  /** The BIN of a card number is read from its first six characters only. */
  lemma ExtractBinReadsSixCharacters(s: string, t: string)
    requires |s| >= 6 && |t| >= 6 && s[..6] == t[..6]
    ensures ExtractBin(s) == ExtractBin(t)
  {
  }

  lemma ExtractBinExample()
    ensures ExtractBin("4539578763621486") == 453957
  {
    assert "4539578763621486"[..6] == "453957";
    assert DecimalValue("4") == 4;
    assert "45"[..1] == "4";
    assert DecimalValue("45") == 45;
    assert "453"[..2] == "45";
    assert DecimalValue("453") == 453;
    assert "4539"[..3] == "453";
    assert DecimalValue("4539") == 4539;
    assert "45395"[..4] == "4539";
    assert DecimalValue("45395") == 45395;
    assert "453957"[..5] == "45395";
    assert DecimalValue("453957") == 453957;
  }
}
