# Card validator — a Dafny model

A model of the command-line payment-card validator in `main.go`. The program loads a
table of issuers from a comma-separated file: one `Bank{Name, BinFrom, BinTo}` record per
line. It then reads card numbers from the terminal until it gets an empty line. Each
number goes through three steps:

- a format check, `validateInput`: 13 to 19 characters, all digits;
- the mod-10 Luhn checksum of ISO/IEC 7812-1, `validateLuhn`;
- an issuer lookup, `identifyBank`, on the number's first six digits, the BIN extracted
  by `extractBIN`. The first record whose inclusive range covers the BIN wins.

The modules follow that structure:

- `wrappers.dfy`, module `Wrappers`: an `Option` type.
- `strings.dfy`, module `Strings`: the parts of Go's `strings` package the program calls.
  These are `TrimSpace`, `SplitN` on a one-character separator, and the helpers used to
  reason about them: `IndexOf`, `Count` and `Join`. All are on ASCII strings.
- `strconv.dfy`, module `Strconv`: a simplified `strconv.Atoi` (an optional sign, then
  decimal digits) and the "error means 0" reading the loader uses. It also holds a
  decimal printer, used as the parser's inverse.
- `card.dfy`, module `Card`: `validateInput` and `validateLuhn` as methods, proved
  against the specification `WellFormed`, and against the recursive `LuhnSum` with
  `LuhnValid`.
  `extractBIN` is a function. The file also holds the Luhn properties.
- `banks.dfy`, module `Banks`: the `Bank` record, `identifyBank` as a method proved
  against the first-match function `Resolve`, and the per-line parser of `loadBankData`
  (`ParseLine`). It also has the loader's append loop (`LoadBanks`, against
  `ParseLines`) and a table writer (`FormatLine`, `FormatLines`), used as the parser's
  inverse.
- `session.dfy`, module `Session`: the loop in `main`. One input is classified as
  `Exit | FormatError | LuhnError | Valid(bankName)` by `ProcessInput`, against
  `Classify`. A whole run over the lines typed is `RunSession`, against `Outcomes`.

A record is `Banks.Bank(name, binFrom, binTo)`, the struct of main.go:15-19; nothing
forces `binFrom <= binTo`. `Banks.UnknownIssuer` is the label of main.go:111 returned when
no record covers a BIN.

Strings are sequences of ASCII characters. A digit is `'0'..'9'`. White space is Go's
ASCII set: tab, line feed, vertical tab, form feed, carriage return and space.

The table loader keeps a line that has more than two commas. `SplitN(line, ",", 3)`
leaves the extra commas in the third field, so `Atoi` fails on it and the upper bound
reads as 0. For example, `X,1,2,3` gives `Bank("X", 1, 0)`. A plain-language reading of
the loader suggests such a line is dropped. The model follows the code
(`ParseLineExtraCommasZeroUpperBound`).

## Model

| member | source | states |
|---|---|---|
| Card.ValidateInput | main.go:65-75 | accepts exactly the strings that are `WellFormed`: 13 to 19 characters, all digits; any other length is rejected whatever the content |
| Card.WellFormed | main.go:66-74 | the format the check accepts, by definition: 13 to 19 characters, each in '0'..'9' |
| Card.ByteDigit | main.go:82 | the value of `cardNumber[i] - '0'` on a byte is below 256, and is the digit's value on a digit |
| Card.Contribution | main.go:82-88 | by definition, what one character adds: its byte digit, or, when doubled, twice that with 9 taken off a result above 9 |
| Card.LuhnSum | main.go:79-91 | by definition, the sum from the rightmost character to the leftmost, the doubling flag flipping after every character |
| Card.LuhnValid | main.go:80-92 | by definition, the sum with the rightmost character undoubled is a multiple of 10 |
| Card.ValidateLuhn | main.go:78-93 | the right-to-left loop with its alternating flag returns exactly `LuhnValid`, the recursive Luhn specification; on a digit string the running sum stays at most 9 times the number of characters read |
| Card.ContributionIsDigitPermutation | main.go:83-88 | on digits, doubling with 9 taken off a two-digit result gives a value in 0..9, and distinct digits give distinct values |
| Card.LuhnSumBound | main.go:79-91 | on a digit string of length n the Luhn sum is at most 9n |
| Card.LuhnSumDifference | main.go:81-91 | changing one character changes the sum by the change in its contribution; it is doubled exactly when its distance from the right end is odd |
| Card.NotBothMultiplesOfTen | main.go:92 | two sums 1 to 9 apart are not both multiples of 10 |
| Card.LuhnDetectsSingleDigitError | main.go:78-93 | a valid number with one digit replaced by a different digit fails the check |
| Card.LuhnSumOfTestPrefix | main.go:81-91 | the Luhn sum of the first eight digits of 4539578763621486, doubled as in the full number, is 50 |
| Card.LuhnValidExample | main.go:78-93 | 4539578763621486 passes the Luhn check |
| Card.LuhnInvalidExample | main.go:78-93 | 4539578763621487 fails the Luhn check |
| Card.ExtractBin | main.go:96-102 | 0 for fewer than six characters; the result lies in -99999..999999; for six leading digits it is their decimal value, in 0..999999 |
| Card.ExtractBinReadsSixCharacters | main.go:100 | two numbers with the same first six characters have the same BIN |
| Card.ExtractBinExample | main.go:96-102 | the BIN of 4539578763621486 is 453957 |
| Banks.ResolveIsFirstMatch | main.go:105-112 | the name returned is that of the earliest record whose inclusive range covers the BIN; with no covering record, including an empty table, the result is the unknown-issuer label |
| Banks.Covers | main.go:107 | by definition, both ends of a record's range are inclusive |
| Banks.Resolve | main.go:105-112 | the result is the unknown-issuer label or the name of a record covering the BIN; by definition the table is searched in order and the first covering record answers |
| Banks.IdentifyBank | main.go:105-112 | the scan with early return computes `Resolve`, the first-match lookup |
| Banks.ResolveExamples | main.go:105-112 | with overlapping ranges the earlier record wins; an uncovered BIN or an empty table gives the unknown-issuer label |
| Banks.ParseLineKeepsIffTwoCommas | main.go:33-40 | a line gives a record exactly when it holds at least two commas; an empty or blank line gives none |
| Banks.ParseLine | main.go:33-50 | by definition, the line is trimmed and its record is that of the trimmed text |
| Banks.ParseFields | main.go:34-50 | by definition, an empty text or one that does not split into three pieces at its first two commas gives no record; otherwise the name is the first piece trimmed and the bounds are the other two trimmed and parsed, a failure read as 0 |
| Banks.ParseLineFields | main.go:33-50 | with i and j the first two commas, the record is the trimmed text before i, then the trimmed texts between i and j and after j, each parsed with a failure read as 0 |
| Banks.ParseFieldsOfStretch | main.go:37-50 | proof step, not a source operation: the fields of the trimmed line are the fields cut from the untrimmed line at the same commas |
| Banks.ParseFieldsOfSplit | main.go:37-50 | proof step, not a source operation: a trimmed line that splits into three pieces gives the record of the three trimmed pieces |
| Banks.ThirdFieldKeepsExtraCommas | main.go:37 | the third field holds every comma of the line after the second |
| Banks.ParseLineExtraCommasZeroUpperBound | main.go:37-44 | a line with three or more commas is kept, and its upper bound is 0 |
| Banks.ParseLineOfFields | main.go:33-50 | three fields joined by commas, the first two comma-free, parse back to those fields trimmed, the bounds parsed with a failure read as 0 |
| Banks.ParseLineFormatLine | main.go:33-50 | parsing the line written for a record gives the record back, when its name has no comma and no outer white space |
| Banks.ParseLineSkipExamples | main.go:33-40 | a blank line and a line with a single comma give no record |
| Banks.FilterMap | main.go:32-51 | the records kept are never more than the lines read |
| Banks.FilterMapAppend | main.go:32-51 | filtering two chunks one after the other is filtering their concatenation |
| Banks.FilterMapSound | main.go:32-51 | every value kept comes from some input |
| Banks.ParseLines | main.go:32-51 | a table has at most one record per line |
| Banks.LoadBanks | main.go:29-51 | the append loop builds exactly `ParseLines`, the records of the lines in line order |
| Banks.ParseLinesAppend | main.go:32-51 | the records of two consecutive chunks of lines are those of the first followed by those of the second, so each line adds its record after all earlier ones |
| Banks.ParseLinesSound | main.go:32-51 | every loaded record is the parse of some line |
| Banks.ParseLinesFormatLines | main.go:32-51 | loading a written table gives back its records, in order |
| Strings.TrimSpace | main.go:33 | the result is no longer than the input and neither starts nor ends with white space |
| Strings.IsSpace | main.go:33 | by definition, Go's ASCII white space: tab, line feed, vertical tab, form feed, carriage return, space |
| Strings.IsDigit | main.go:70 | by definition, a character in '0'..'9' |
| Strings.TrimSpacePads | main.go:33 | the input is the result with a front and a back of white space added |
| Strings.TrimSpaceOfUnpadded | main.go:42 | a string that neither starts nor ends with white space is its own trimming |
| Strings.TrimSpaceIdempotent | main.go:33 | trimming twice trims nothing more |
| Strings.TrimSpaceOfSpace | main.go:33-35 | a string of white space trims to the empty string |
| Strings.TrimSpaceSkipsLeadingSpace | main.go:42 | white space added in front is trimmed off |
| Strings.TrimSpaceSkipsTrailingSpace | main.go:44 | white space added at the end is trimmed off |
| Strings.TrimSpaceOfPadded | main.go:42 | trimming white-space pads off an unpadded string gives that string |
| Strings.TrimSpaceKeepsCount | main.go:33 | trimming keeps the count of every character that is not white space |
| Strings.TrimSpaceKeepsNonSpace | main.go:33 | a character that is not white space lies inside the trimmed part |
| Strings.TrimSpaceOfFirstField | main.go:42 | text up to a position trims the same with or without its front of white space |
| Strings.TrimSpaceOfLastField | main.go:44 | text after a position trims the same with or without its back of white space |
| Strings.IndexOf | main.go:37 | None exactly when the character is absent; otherwise the position of its first occurrence |
| Strings.IndexOfIsFirst | main.go:37 | a position holding the character with none before it is the one found |
| Strings.IndexOfAfter | main.go:37 | proof step, not a source operation: in the text after position i, the first occurrence is the next one after i |
| Strings.CountZero | main.go:37 | the count is zero exactly when the character is absent |
| Strings.CountAfterFirst | main.go:37 | cutting at the first occurrence takes exactly one off the count |
| Strings.SplitN | main.go:37-38 | at most n pieces, and at least one when n is positive |
| Strings.SplitNLength | main.go:37-38 | the number of pieces is the number of separators plus one, capped at n |
| Strings.SplitNPiecesHaveNoSep | main.go:37 | no piece but the last holds a separator |
| Strings.SplitNLastPiece | main.go:37 | with n pieces, the last one keeps every separator after the first n - 1 |
| Strings.JoinSplitN | main.go:37 | joining the pieces with the separator gives back the string |
| Strings.SplitNAtFirst | main.go:37 | proof step, not a source operation: a split cuts at the first separator and splits the rest into one piece fewer |
| Strings.SplitNThreeAt | main.go:37-38 | with i and j the first two separators, the split into three is the text before i, between i and j, and after j |
| Strings.SplitNThreeOfSlice | main.go:37-38 | proof step, not a source operation: the same split for a stretch of a larger string, in the larger string's positions |
| Strconv.DecimalValue | main.go:43-44 | a k-digit string denotes a number below 10^k |
| Strconv.DecimalValueOfDecimalString | main.go:43-44 | reading a number's decimal spelling gives the number back |
| Strconv.Atoi | main.go:43-44 | a parse succeeds exactly on a digit string or on a sign followed by at least one digit and only digits; a digit string parses to its decimal value and a signed one to that value with its sign; a lone sign fails; the value is bounded by the length |
| Strconv.AtoiOrZero | main.go:43-44 | a failed parse reads as 0: the empty string, a lone sign, or any string with a character other than a digit (or a sign in front); a digit string reads as its value and a signed one as its signed value |
| Strconv.AtoiOrZeroRejects | main.go:43-44 | a field holding a character that is neither a digit nor a sign reads as 0 |
| Strconv.AtoiSignedExamples | main.go:43-44 | a lone sign does not parse and reads as 0; "+12" is 12, "-012" is -12, "-7" reads as -7 |
| Strconv.AtoiFormatRoundTrip | main.go:43-44 | parsing a printed integer gives it back, with its sign |
| Strconv.AtoiOrZeroFormat | main.go:43-44 | the loader's "error means 0" parse reads a printed integer back |
| Session.ProcessInput | main.go:128-154 | the loop body with its early `continue`s gives exactly `Classify`: empty input exits; the format check, the Luhn check and the lookup run in that order |
| Session.Classify | main.go:131-150 | by definition, empty input exits; otherwise the format check, then the Luhn check, then the lookup of the BIN, in that order, each failure ending the pass |
| Session.ClassifyValid | main.go:137-150 | an input is reported valid exactly when it passes both checks; its issuer is then the first record covering the number its first six digits spell, or the unknown-issuer label |
| Session.ClassifyTableOnlyNamesIssuer | main.go:137-150 | the table is used only for valid numbers: any two tables give the same kind of outcome, and the same outcome unless it is valid |
| Session.ClassifyExamples | main.go:131-146 | an empty input exits; "123" and a number with spaces are format errors; 4539578763621487 is a Luhn error |
| Session.ClassifyValidExample | main.go:149-154 | 4539578763621486 with a table whose first record covers 453957 is valid with that record's name |
| Session.Outcomes | main.go:127-156 | a session over n lines has between 1 and n + 1 outcomes |
| Session.InputLine | main.go:60-61 | by definition, the k-th line read, or the empty string once the input is used up |
| Session.RunSession | main.go:127-156 | the read-trim-classify loop, stopped at the first Exit, produces exactly `Outcomes` |
| Session.SessionShape | main.go:127-156 | the last outcome is Exit, at the first line that trims to nothing or past the end of the input; every earlier outcome is the classification of its own non-blank line |
| Session.SessionTableOnlyNamesIssuers | main.go:127-156 | changing the table changes only the issuers named: the run has the same length and the same outcome at every step that is not a valid number |

## Left out

- File handling of `loadBankData` is not modelled: opening and closing the file, the scanner and its token-size limit, and the error it returns. The loader takes the file's lines as a sequence of strings.
- Terminal I/O is not modelled: the prompt, `bufio.Reader` and every message printed. `RunSession` takes the lines typed as a sequence. It reads the empty string once they run out, as `ReadString` does at end of input with its error ignored. A last line without a line feed is one element of that sequence.
- Strconv.Atoi does not model Go's 64-bit range check. Go clamps an out-of-range value to the largest or smallest `int`, and since the error is ignored that clamped value would be stored. The model keeps the unbounded value.
- Strings are ASCII only. `unicode.IsDigit` also accepts non-ASCII decimal digits, and `strings.TrimSpace` also trims non-ASCII white space. `len` counts bytes, and so does the byte arithmetic in `validateLuhn`. `Card.ByteDigit` models that arithmetic modulo 256 on each character.
- Card.ValidateInput follows `unicode.IsDigit` only on ASCII, for the reason above.
- Session.RunSession and Session.Outcomes take one element of `inputs` per read, as at a terminal in canonical mode, where each read returns one line. `getUserInput` builds a new buffered reader on every call (main.go:58). On a pipe or a file, that reader can take in several lines at once and drop the ones after the first when it is discarded. The model does not capture those lost lines.
