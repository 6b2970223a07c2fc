/** The bank table: its records, the issuer lookup (identifyBank) and the loader
    (loadBankData) with its line parser, the file handling left aside. */
module Banks {
  import opened Wrappers
  import opened Strings
  import opened Strconv

  /** One line of the table: an issuer and the inclusive range of BINs it owns. Nothing
      forces binFrom <= binTo. */
  datatype Bank = Bank(name: string, binFrom: int, binTo: int)

  /** The label returned when no record covers a BIN ("unknown issuer"). */
  const UnknownIssuer: string := "Неизвестный эмитент"

  predicate Covers(bank: Bank, bin: int) {
    bank.binFrom <= bin <= bank.binTo
  }

  // ---------------------------------------------------------------- lookup

  /** The issuer of `bin`: the name of the first record whose range covers it, in table
      order, or UnknownIssuer. */
  function Resolve(bin: int, banks: seq<Bank>): (name: string)
    ensures name == UnknownIssuer
            || exists i :: 0 <= i < |banks| && Covers(banks[i], bin) && banks[i].name == name
  {
    if |banks| == 0 then UnknownIssuer
    else if Covers(banks[0], bin) then banks[0].name
    else Resolve(bin, banks[1..])
  }

  /** First match wins: the name returned belongs to the earliest covering record, and the
      sentinel is returned exactly when no record covers the BIN. */
  lemma {:induction false} ResolveIsFirstMatch(bin: int, banks: seq<Bank>)
    ensures (forall i :: 0 <= i < |banks| ==> !Covers(banks[i], bin))
            ==> Resolve(bin, banks) == UnknownIssuer
    ensures forall i :: (0 <= i < |banks| && Covers(banks[i], bin)
                         && (forall j :: 0 <= j < i ==> !Covers(banks[j], bin)))
                        ==> Resolve(bin, banks) == banks[i].name
  {
    if |banks| > 0 && !Covers(banks[0], bin) {
      ResolveIsFirstMatch(bin, banks[1..]);
      forall i | 0 <= i < |banks| && Covers(banks[i], bin)
                 && (forall j :: 0 <= j < i ==> !Covers(banks[j], bin))
        ensures Resolve(bin, banks) == banks[i].name
      {
        assert i > 0 && banks[1..][i - 1] == banks[i];
        assert forall j :: 0 <= j < i - 1 ==> banks[1..][j] == banks[j + 1];
      }
    }
  }

  /** identifyBank: a scan of the table that returns at the first covering record. */
  method IdentifyBank(bin: int, banks: seq<Bank>) returns (name: string)
    ensures name == Resolve(bin, banks)
  {
    for i := 0 to |banks|
      invariant Resolve(bin, banks[i..]) == Resolve(bin, banks)
    {
      var bank := banks[i];
      if bin >= bank.binFrom && bin <= bank.binTo {
        return bank.name;
      }
      assert banks[i..][1..] == banks[i + 1..];
    }
    return UnknownIssuer;
  }

  /** Overlapping ranges: the earlier record wins. A BIN nobody covers is unknown. */
  lemma ResolveExamples()
    ensures Resolve(400500, [Bank("BankA", 400000, 400999), Bank("BankB", 400000, 450000)]) == "BankA"
    ensures Resolve(999999, [Bank("BankA", 400000, 400999), Bank("BankB", 400000, 450000)]) == UnknownIssuer
    ensures Resolve(400500, []) == UnknownIssuer
  {
    var banks := [Bank("BankA", 400000, 400999), Bank("BankB", 400000, 450000)];
    assert banks[1..][1..] == [];
  }

  // ---------------------------------------------------------------- loading

  /** One line of the table file: trimmed; skipped (None) when empty or when it does not
      split into three fields at its first two commas; otherwise the three trimmed fields,
      the bounds parsed with any parse failure read as 0. */
  function ParseLine(line: string): Option<Bank>
  {
    ParseFields(TrimSpace(line))
  }

  /** The record of an already trimmed line. */
  function ParseFields(trimmed: string): Option<Bank>
  {
    if trimmed == "" then None
    else
      var parts := SplitN(trimmed, ',', 3);
      if |parts| != 3 then None
      else Some(Bank(TrimSpace(parts[0]), AtoiOrZero(TrimSpace(parts[1])), AtoiOrZero(TrimSpace(parts[2]))))
  }

  /** A line yields a record exactly when it holds at least two commas; an empty or blank
      line holds none. */
  lemma ParseLineKeepsIffTwoCommas(line: string)
    ensures ParseLine(line).Some? <==> Count(line, ',') >= 2
  {
    TrimSpaceKeepsCount(line, ',');
    SplitNLength(TrimSpace(line), ',', 3);
  }

  /** The fields of a trimmed line t, found in the untrimmed line it was cut from. */
  lemma ParseFieldsOfStretch(line: string, t: string, a: nat, e: nat, i: nat, j: nat)
    requires a <= i < j < e <= |line| && e == a + |t| && t == line[a..e]
    requires line[i] == ',' && line[j] == ','
    requires forall k :: 0 <= k < j && k != i ==> line[k] != ','
    ensures ParseFields(t) == Some(Bank(TrimSpace(line[a..i]),
                                        AtoiOrZero(TrimSpace(line[i + 1..j])),
                                        AtoiOrZero(TrimSpace(line[j + 1..e]))))
  {
    SplitNThreeOfSlice(line, t, ',', a, i, j);
    ParseFieldsOfSplit(t, line[a..i], line[i + 1..j], line[j + 1..e]);
  }

  /** A trimmed line that splits into three pieces is the record of those pieces. */
  lemma ParseFieldsOfSplit(t: string, x: string, y: string, z: string)
    requires |t| > 0 && SplitN(t, ',', 3) == [x, y, z]
    ensures ParseFields(t) == Some(Bank(TrimSpace(x), AtoiOrZero(TrimSpace(y)), AtoiOrZero(TrimSpace(z))))
  {
  }

  /** With i and j the first two commas of a line, the line is kept and its record is
      the trimmed text before i, the bound between i and j and the bound after j (each
      trimmed, then parsed with failure read as 0). The white space trimmed off the
      whole line first changes none of the three. */
  lemma ParseLineFields(line: string, i: nat, j: nat)
    requires i < j < |line| && line[i] == ',' && line[j] == ','
    requires forall k :: 0 <= k < j && k != i ==> line[k] != ','
    ensures ParseLine(line) == Some(Bank(TrimSpace(line[..i]),
                                         AtoiOrZero(TrimSpace(line[i + 1..j])),
                                         AtoiOrZero(TrimSpace(line[j + 1..]))))
  {
    var t := TrimSpace(line);
    var front, back := TrimSpacePads(line);
    var a, e := |front|, |front| + |t|;
    TrimSpaceKeepsNonSpace(line, front, back, i);
    TrimSpaceKeepsNonSpace(line, front, back, j);
    ConcatSlices(front, t, back);
    TrimSpaceOfFirstField(line, a, i);
    TrimSpaceOfLastField(line, j, e);
    ParseFieldsOfStretch(line, t, a, e, i, j);
  }

  /** The third field of a line keeps every comma after the second one. */
  lemma ThirdFieldKeepsExtraCommas(line: string)
    requires Count(line, ',') >= 2
    ensures |SplitN(TrimSpace(line), ',', 3)| == 3
    ensures Count(TrimSpace(SplitN(TrimSpace(line), ',', 3)[2]), ',') == Count(line, ',') - 2
  {
    TrimSpaceKeepsCount(line, ',');
    SplitNLength(TrimSpace(line), ',', 3);
    SplitNLastPiece(TrimSpace(line), ',', 3);
    TrimSpaceKeepsCount(SplitN(TrimSpace(line), ',', 3)[2], ',');
  }

  /** A line with three or more commas is not skipped: SplitN leaves the extra commas in
      the third field, which then fails to parse, so the upper bound becomes 0. */
  lemma ParseLineExtraCommasZeroUpperBound(line: string)
    requires Count(line, ',') >= 3
    ensures ParseLine(line).Some? && ParseLine(line).value.binTo == 0
  {
    ParseLineKeepsIffTwoCommas(line);
    ThirdFieldKeepsExtraCommas(line);
    var field := TrimSpace(SplitN(TrimSpace(line), ',', 3)[2]);
    assert ParseLine(line).value.binTo == AtoiOrZero(field);
    AtoiOrZeroRejects(field, ',');
  }

  /** A line assembled from three comma-free fields joined by commas parses into those
      fields, each trimmed, the bounds parsed with failure read as 0. */
  lemma ParseLineOfFields(name: string, from: string, to: string)
    requires forall k :: 0 <= k < |name| ==> name[k] != ','
    requires forall k :: 0 <= k < |from| ==> from[k] != ','
    ensures ParseLine(name + [','] + from + [','] + to)
         == Some(Bank(TrimSpace(name), AtoiOrZero(TrimSpace(from)), AtoiOrZero(TrimSpace(to))))
  {
    var line := name + [','] + from + [','] + to;
    var i, j := |name|, |name| + 1 + |from|;
    ThreePieces(name, from, to, ',');
    ThreePiecesFirstSeparators(name, from, to, ',');
    assert line[..i] == name && line[i + 1..j] == from && line[j + 1..] == to;
    ParseLineFields(line, i, j);
  }

  /** A record the table format can hold: its name has no comma and no white space at
      either end. */
  predicate Writable(bank: Bank) {
    (forall k :: 0 <= k < |bank.name| ==> bank.name[k] != ',')
    && (bank.name == [] || (!IsSpace(bank.name[0]) && !IsSpace(bank.name[|bank.name| - 1])))
  }

  /** The table line for a record: name, lower bound and upper bound, comma-separated. */
  function FormatLine(bank: Bank): (line: string)
    ensures |line| > |bank.name| && line[|bank.name|] == ','
  {
    bank.name + [','] + FormatInt(bank.binFrom) + [','] + FormatInt(bank.binTo)
  }

  /** The parser reads back every record the format can hold. */
  lemma ParseLineFormatLine(bank: Bank)
    requires Writable(bank)
    ensures ParseLine(FormatLine(bank)) == Some(bank)
  {
    var from, to := FormatInt(bank.binFrom), FormatInt(bank.binTo);
    FormatIntPlain(bank.binFrom);
    FormatIntPlain(bank.binTo);
    ParseLineOfFields(bank.name, from, to);
    TrimSpaceOfUnpadded(bank.name);
    TrimSpaceOfUnpadded(from);
    TrimSpaceOfUnpadded(to);
    AtoiOrZeroFormat(bank.binFrom);
    AtoiOrZeroFormat(bank.binTo);
  }

  /** Blank lines and lines with fewer than two commas add nothing. */
  lemma ParseLineSkipExamples()
    ensures ParseLine("   ") == None
    ensures ParseLine("BankA,400000") == None
  {
    ParseLineKeepsIffTwoCommas("   ");
    ParseLineKeepsIffTwoCommas("BankA,400000");
    assert Count("BankA,400000", ',') == 1 by {
      assert "BankA,400000"[1..] == "ankA,400000";
      assert "ankA,400000"[1..] == "nkA,400000";
      assert "nkA,400000"[1..] == "kA,400000";
      assert "kA,400000"[1..] == "A,400000";
      assert "A,400000"[1..] == ",400000";
      assert ",400000"[1..] == "400000";
      assert Count("400000", ',') == 0;
    }
  }

  /** The values `f` gives for `xs`, in order, with the Nones dropped. */
  function FilterMap<T, U>(xs: seq<T>, f: T -> Option<U>): (ys: seq<U>)
    ensures |ys| <= |xs|
  {
    if |xs| == 0 then []
    else
      var init := FilterMap(xs[..|xs| - 1], f);
      match f(xs[|xs| - 1])
      case Some(y) => init + [y]
      case None => init
  }

  lemma {:induction false} FilterMapAppend<T, U>(a: seq<T>, b: seq<T>, f: T -> Option<U>)
    ensures FilterMap(a + b, f) == FilterMap(a, f) + FilterMap(b, f)
    decreases |b|
  {
    if |b| == 0 {
      assert a + b == a;
    } else {
      var n := |b| - 1;
      assert (a + b)[..|a + b| - 1] == a + b[..n];
      assert (a + b)[|a + b| - 1] == b[n];
      FilterMapAppend(a, b[..n], f);
    }
  }

  lemma {:induction false} FilterMapSound<T, U>(xs: seq<T>, f: T -> Option<U>)
    ensures forall y :: y in FilterMap(xs, f) ==> exists x :: x in xs && f(x) == Some(y)
  {
    if |xs| > 0 {
      var init := xs[..|xs| - 1];
      FilterMapSound(init, f);
      forall y | y in FilterMap(xs, f)
        ensures exists x :: x in xs && f(x) == Some(y)
      {
        if y in FilterMap(init, f) {
          var x :| x in init && f(x) == Some(y);
          assert x in xs;
        } else {
          assert f(xs[|xs| - 1]) == Some(y);
        }
      }
    }
  }

  /** The records of the table lines, in line order. */
  function ParseLines(lines: seq<string>): (banks: seq<Bank>)
    ensures |banks| <= |lines|
  {
    FilterMap(lines, ParseLine)
  }

  /** loadBankData's scan: each line read either adds one record at the end or nothing. */
  method LoadBanks(lines: seq<string>) returns (banks: seq<Bank>)
    ensures banks == ParseLines(lines)
  {
    banks := [];
    for i := 0 to |lines|
      invariant banks == FilterMap(lines[..i], ParseLine)
    {
      assert lines[..i + 1][..i] == lines[..i];
      match ParseLine(lines[i])
      case Some(bank) =>
        banks := banks + [bank];
      case None =>
    }
    assert lines[..|lines|] == lines;
  }

  /** Loading is line by line: the records of two consecutive chunks of the file are the
      records of the first chunk followed by those of the second, so a line never
      affects the records of another. */
  lemma ParseLinesAppend(a: seq<string>, b: seq<string>)
    ensures ParseLines(a + b) == ParseLines(a) + ParseLines(b)
  {
    FilterMapAppend(a, b, ParseLine);
  }

  /** Every loaded record is the parse of some line of the file. */
  lemma ParseLinesSound(lines: seq<string>)
    ensures forall bank :: bank in ParseLines(lines) ==> exists line :: line in lines && ParseLine(line) == Some(bank)
  {
    FilterMapSound(lines, ParseLine);
  }

  /** `g` applied to each element of `xs`, in order. */
  function Map<T, U>(xs: seq<T>, g: T -> U): (ys: seq<U>)
    ensures |ys| == |xs| && forall k :: 0 <= k < |xs| ==> ys[k] == g(xs[k])
  {
    if |xs| == 0 then [] else Map(xs[..|xs| - 1], g) + [g(xs[|xs| - 1])]
  }

  /** Filtering through a left inverse of `g` undoes mapping by `g`. */
  lemma {:induction false} FilterMapOfMap<T, U>(ys: seq<U>, g: U -> T, f: T -> Option<U>)
    requires forall y :: y in ys ==> f(g(y)) == Some(y)
    ensures FilterMap(Map(ys, g), f) == ys
  {
    if |ys| > 0 {
      var init, last := ys[..|ys| - 1], ys[|ys| - 1];
      assert forall y :: y in init ==> y in ys;
      FilterMapOfMap(init, g, f);
      assert Map(ys, g)[..|ys| - 1] == Map(init, g);
      assert f(g(last)) == Some(last);
      assert ys == init + [last];
    }
  }

  /** The table file for a list of records, one line per record. */
  function FormatLines(banks: seq<Bank>): (lines: seq<string>)
    ensures |lines| == |banks|
  {
    Map(banks, FormatLine)
  }

  /** Loading a written table gives back its records, in order. */
  lemma ParseLinesFormatLines(banks: seq<Bank>)
    requires forall bank :: bank in banks ==> Writable(bank)
    ensures ParseLines(FormatLines(banks)) == banks
  {
    forall bank | bank in banks
      ensures ParseLine(FormatLine(bank)) == Some(bank)
    {
      ParseLineFormatLine(bank);
    }
    FilterMapOfMap(banks, FormatLine, ParseLine);
  }


}
