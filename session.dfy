/** The interactive loop of the validator (main): each line the user types is trimmed
    and classified, and the loop ends at the first blank line. Printing is left aside;
    what a line produces is recorded as an Outcome. */
module Session {
  import opened Strings
  import opened Strconv
  import opened Card
  import opened Banks

  /** What one input produces: the end of the session, one of the two error messages,
      or the message for a valid number with its issuer. */
  datatype Outcome = Exit | FormatError | LuhnError | Valid(bankName: string)

  /** The decision for one trimmed input: empty ends the session; the format check comes
      before the Luhn check; only a number passing both is looked up in the table. */
  function Classify(cardNumber: string, banks: seq<Bank>): Outcome
  {
    if |cardNumber| == 0 then Exit
    else if !WellFormed(cardNumber) then FormatError
    else if !LuhnValid(cardNumber) then LuhnError
    else Valid(Resolve(ExtractBin(cardNumber), banks))
  }

  /** One pass of the loop body, with validateInput, validateLuhn, extractBIN and
      identifyBank called in the order main calls them. */
  method ProcessInput(cardNumber: string, banks: seq<Bank>) returns (o: Outcome)
    ensures o == Classify(cardNumber, banks)
  {
    if cardNumber == "" {
      return Exit;
    }
    var wellFormed := ValidateInput(cardNumber);
    if !wellFormed {
      return FormatError;
    }
    var luhn := ValidateLuhn(cardNumber);
    if !luhn {
      return LuhnError;
    }
    var bin := ExtractBin(cardNumber);
    var bankName := IdentifyBank(bin, banks);
    return Valid(bankName);
  }

  /** A number is reported valid exactly when it passes both checks, and then its issuer
      is the first record covering the number its first six digits spell, or the
      unknown-issuer label when no record covers it. */
  lemma ClassifyValid(cardNumber: string, banks: seq<Bank>)
    ensures Classify(cardNumber, banks).Valid? <==> WellFormed(cardNumber) && LuhnValid(cardNumber)
    ensures Classify(cardNumber, banks).Valid? ==>
      var bin := DecimalValue(cardNumber[..6]);
      && 0 <= bin <= 999999
      && ((forall i :: 0 <= i < |banks| ==> !Covers(banks[i], bin))
          ==> Classify(cardNumber, banks).bankName == UnknownIssuer)
      && (forall i :: (0 <= i < |banks| && Covers(banks[i], bin)
                       && (forall j :: 0 <= j < i ==> !Covers(banks[j], bin)))
                      ==> Classify(cardNumber, banks).bankName == banks[i].name)
  {
    if WellFormed(cardNumber) {
      assert AllDigits(cardNumber[..6]);
      ResolveIsFirstMatch(ExtractBin(cardNumber), banks);
    }
  }

  /** The table matters only for valid numbers: with any two tables an input gets the
      same kind of outcome, and the same outcome unless it is valid. */
  lemma ClassifyTableOnlyNamesIssuer(cardNumber: string, banks: seq<Bank>, others: seq<Bank>)
    ensures Classify(cardNumber, banks).Valid? == Classify(cardNumber, others).Valid?
    ensures !Classify(cardNumber, banks).Valid? ==> Classify(cardNumber, banks) == Classify(cardNumber, others)
  {
  }

  /** Inputs the loop rejects or stops at. */
  lemma ClassifyExamples(banks: seq<Bank>)
    ensures Classify("", banks) == Exit
    ensures Classify("123", banks) == FormatError
    ensures Classify("4539 5787 6362 1486", banks) == FormatError
    ensures Classify("4539578763621487", banks) == LuhnError
  {
    assert !IsDigit("4539 5787 6362 1486"[4]);
    LuhnInvalidExample();
  }

  /** A valid test number whose BIN falls in the first record of a two-record table. */
  lemma ClassifyValidExample()
    ensures Classify("4539578763621486", [Bank("BankA", 453000, 453999), Bank("BankB", 400000, 499999)])
            == Valid("BankA")
  {
    LuhnValidExample();
    ExtractBinExample();
  }

  /** The input line the loop reads k-th: the typed line, or, once the input is used up,
      the empty string (ReadString's error is dropped). */
  function InputLine(inputs: seq<string>, k: nat): string
  {
    if k < |inputs| then inputs[k] else ""
  }

  /** The outcomes of a session over the lines typed, in order, up to and including the
      Exit of the first line that trims to nothing. */
  function Outcomes(inputs: seq<string>, banks: seq<Bank>): (outs: seq<Outcome>)
    ensures 1 <= |outs| <= |inputs| + 1
    decreases |inputs|
  {
    if |inputs| == 0 then [Exit]
    else
      var o := Classify(TrimSpace(inputs[0]), banks);
      if o.Exit? then [Exit] else [o] + Outcomes(inputs[1..], banks)
  }

  /** main's loop: read, trim, classify, and stop after reporting Exit. */
  method RunSession(inputs: seq<string>, banks: seq<Bank>) returns (outs: seq<Outcome>)
    ensures outs == Outcomes(inputs, banks)
  {
    outs := [];
    var k := 0;
    while true
      invariant k <= |inputs|
      invariant outs + Outcomes(inputs[k..], banks) == Outcomes(inputs, banks)
      decreases |inputs| - k
    {
      var cardNumber := TrimSpace(InputLine(inputs, k));
      var o := ProcessInput(cardNumber, banks);
      outs := outs + [o];
      if o.Exit? {
        return;
      }
      assert inputs[k..][1..] == inputs[k + 1..];
      k := k + 1;
    }
  }

  /** The session stops at the first line that trims to nothing, and only there: every
      outcome before the last classifies its own line, and the last is Exit, at a
      blank line or past the end of the input. */
  lemma {:induction false} SessionShape(inputs: seq<string>, banks: seq<Bank>)
    ensures var outs := Outcomes(inputs, banks);
      && outs[|outs| - 1] == Exit
      && (|outs| - 1 == |inputs| || TrimSpace(inputs[|outs| - 1]) == [])
    ensures forall i :: 0 <= i < |Outcomes(inputs, banks)| - 1 ==>
      TrimSpace(inputs[i]) != [] && Outcomes(inputs, banks)[i] == Classify(TrimSpace(inputs[i]), banks)
    decreases |inputs|
  {
    if |inputs| > 0 && |TrimSpace(inputs[0])| > 0 {
      var rest := Outcomes(inputs[1..], banks);
      SessionShape(inputs[1..], banks);
      assert Outcomes(inputs, banks) == [Classify(TrimSpace(inputs[0]), banks)] + rest;
      forall i | 0 < i < |rest|
        ensures inputs[i] == inputs[1..][i - 1]
      {
      }
    }
  }

  /** Changing the table changes only the issuers named: the session has the same length
      and the same outcome at every step that is not a valid number. */
  lemma {:induction false} SessionTableOnlyNamesIssuers(inputs: seq<string>, banks: seq<Bank>, others: seq<Bank>)
    ensures |Outcomes(inputs, banks)| == |Outcomes(inputs, others)|
    ensures forall i :: 0 <= i < |Outcomes(inputs, banks)| && !Outcomes(inputs, banks)[i].Valid? ==>
      Outcomes(inputs, banks)[i] == Outcomes(inputs, others)[i]
    decreases |inputs|
  {
    if |inputs| > 0 {
      var c := TrimSpace(inputs[0]);
      ClassifyTableOnlyNamesIssuer(c, banks, others);
      if !Classify(c, banks).Exit? {
        SessionTableOnlyNamesIssuers(inputs[1..], banks, others);
        var a, b := Outcomes(inputs[1..], banks), Outcomes(inputs[1..], others);
        assert Outcomes(inputs, banks) == [Classify(c, banks)] + a;
        assert Outcomes(inputs, others) == [Classify(c, others)] + b;
      }
    }
  }
}
