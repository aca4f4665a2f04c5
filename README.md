# chilean-rut in Dafny

This project models the Kotlin library for the Chilean RUT (Rol Único Tributario). A RUT is a
numeric body of up to eight digits plus a check digit, `0`–`9` or `k`. The check digit is
computed modulo 11: the body's digits are read from the right, weighted cyclically by
2, 3, 4, 5, 6, 7, and the check digit is `11 - sum mod 11`. That value is written `0` for 11
and `k` for 10.

The repository holds two versions of the `Rut` class, and both are modelled:

- **Current class** (`com.mrcoto.chilean_rut`). The constructor checks the body against
  `numberRgx` and the check digit against `dvRgx`. It then drops the dots, reads the body as an
  `Int` and lower-cases the check digit. The class also has `parse` for the textual forms
  (`12345678-k`, `12345678k`, `12.345.678-k`, `12.345.678K`), `parse(Int)`, `calcDv`,
  `isValid`, the three formats (FULL `12.345.678-k`, ONLY_DASH `12345678-k`, ESCAPED
  `12345678k`), `compareTo` and `equals`.
- **Older class** (`com.espin.chilean_rut`). The constructor checks nothing: the body goes
  through `toInt()` and the check digit is lower-cased. `isValidNumber` matches against an
  empty pattern. The class has the same `calcDv`, `isValid` and `format`.

Layout:

- `results.dfy` — the `Option` and `Result` types. A thrown `IllegalArgumentException` or
  `NumberFormatException` becomes a `Failure` or a `None`.
- `kotlin.dfy` — the library behaviour the classes rely on, written out: 32-bit `Int`,
  `Int.toString()`, `String.toInt()`, `toLowerCase()`, `replace`, `"%,d"`, and how
  `String.format` reads the directives of the text after its last argument.
- `grammar.dfy` — `numberRgx` as a recursive predicate that follows the pattern's structure.
  It is proved equal to a declarative description: one to eight digits without a leading
  zero, with an independent choice of `.` before each trailing group of three. `dvRgx` is
  modelled here too.
- `checksum.dfy` — the modulo-11 check digit as a specification function. It also proves that
  the check digit completes the sum, that it is unique, and that it detects every
  single-digit substitution and every adjacent transposition.
- `mrcoto_rut.dfy` — the current class. `calcDv` keeps the source's loop and is proved against
  the specification.
- `espin_rut.dfy` — the older class.
- `versions.dfy` — the two classes compared.
- `rut_tests.dfy` — the concrete cases of the repository's test class, and the example in the
  older file's `main`.

Where the code may surprise a reader, the model follows the code:

- `parse("")` and `parse("0")` do not return a placeholder Rut. They call `Rut("", "")`, and
  that throws. `parse` of any other one-character text fails earlier, when it indexes the
  empty prefix.
- `numberRgx` lets every `.` be present or absent independently, so mixed groupings such as
  `12345.678` are accepted (`RutTests.MixedGroupingAccepted`).
- The older class accepts `"0"`, negative bodies and any check-digit text. A body of zero or
  less gets check digit `"0"` and is then valid.
- The older class's FULL format puts the check digit into the format string of
  `"%,d-$dv".format(number)`. A `%` in the check digit is therefore read as a directive:
  `"%"` alone throws, `"%d"` asks for an argument that is not there, `"%%"` writes `%` and
  `"%n"` a line break (`EspinRut.PercentInCheckDigit`, `EspinRut.EscapesInCheckDigit`).

## Model

| member | source | states |
|---|---|---|
| Kotlin.NatToString | src/main/kotlin/com/mrcoto/chilean_rut/rut.kt:196 | The decimal form of a number is non-empty and all digits, and starts with '0' exactly for 0 |
| Kotlin.ValueOfNatToString | src/main/kotlin/com/mrcoto/chilean_rut/rut.kt:173 | Reading back the decimal form of n gives n |
| Kotlin.NatToStringOfValue | src/main/kotlin/com/mrcoto/chilean_rut/rut.kt:173 | Writing out the value of a digit string with no leading zero gives that string back |
| Kotlin.ToIntOfIntToString | src/main/kotlin/com/espin/chilean_rut/rut.kt:39 | `toInt()` of `Int.toString()` gives the same Int, for either sign |
| Kotlin.ToIntOfDigits | src/main/kotlin/com/mrcoto/chilean_rut/rut.kt:173 | `toInt()` of one to nine plain digits succeeds with their value (no overflow) |
| Kotlin.ToLower | src/main/kotlin/com/mrcoto/chilean_rut/rut.kt:174 | `toLowerCase()` keeps the length |
| Kotlin.ReplaceGroupSeparator | src/main/kotlin/com/mrcoto/chilean_rut/rut.kt:195 | Replacing ',' by "." in digits grouped with ',' gives the digits grouped with '.' |
| Kotlin.GroupStripped | src/main/kotlin/com/mrcoto/chilean_rut/rut.kt:195 | Dropping the '.' separators of grouped digits gives the digits back |
| Kotlin.IntToString | src/main/kotlin/com/mrcoto/chilean_rut/rut.kt:83 | `Int.toString()`: a '-' for negatives, then the decimal digits of the magnitude; its partners are `Kotlin.NatToString` (non-empty digits, no leading zero) and `Kotlin.ToIntOfIntToString` (read back by `toInt()`) |
| Kotlin.ToInt | src/main/kotlin/com/mrcoto/chilean_rut/rut.kt:173 | `toInt()`: an optional sign and at least one digit whose value fits an Int, else NumberFormatException; stated by `Kotlin.ToIntOfIntToString` and `Kotlin.ToIntOfDigits` |
| Kotlin.ReplaceAll | src/main/kotlin/com/mrcoto/chilean_rut/rut.kt:173 | `replace`: every occurrence of a character replaced, the rest kept in order; stated by `Kotlin.ReplaceAllAppend` (it distributes over concatenation) and `Kotlin.ReplaceAllAbsent` (text without the character is unchanged) |
| Kotlin.FormatThousands | src/main/kotlin/com/mrcoto/chilean_rut/rut.kt:195 | `"%,d"`: the sign, then the digits grouped by three with ','; stated by `Kotlin.ReplaceGroupSeparator` and `MrcotoRut.FormatShapes` |
| Kotlin.ScanFormat | src/main/kotlin/com/espin/chilean_rut/rut.kt:48 | The Formatter's parse pass over the whole format text, left to right: the first unreadable directive (a lone '%' or an unknown conversion, so "%d%q" fails this way) decides the failure, otherwise the written text and whether some directive asks for an argument; stated by `Kotlin.ScanPlain` and, through `Kotlin.FormatTail`, by `Kotlin.FormatTailDirectives` |
| Kotlin.FormatTail | src/main/kotlin/com/espin/chilean_rut/rut.kt:48 | What `String.format` does with the format text after the directive that used its only argument: the first directive it cannot read throws UnknownFormatConversion, then any directive taking an argument throws MissingFormatArgument, else `%%` and `%n` are written out with the plain text; a directive opened by a digit, a flag, '<', '.' or 't'/'T' gives `DirectiveNotModelled` instead; stated by `Kotlin.FormatTailPlain` and `Kotlin.FormatTailDirectives` |
| Kotlin.ScanPlain | src/main/kotlin/com/espin/chilean_rut/rut.kt:48 | A format string without '%' is read as itself, with no directive |
| Kotlin.FormatTailPlain | src/main/kotlin/com/espin/chilean_rut/rut.kt:48 | The text after the last argument's directive, without '%', is written as it is |
| Kotlin.FormatTailDirectives | src/main/kotlin/com/espin/chilean_rut/rut.kt:48 | After the last argument, `%%` writes '%' and `%n` the line separator; a lone '%' and an unknown conversion throw UnknownFormatConversion; `%d` throws MissingFormatArgument |
| Grammar.Dotted | src/main/kotlin/com/mrcoto/chilean_rut/rut.kt:36 | A rendering of digits starts with their first digit and ends with their last |
| Grammar.DottedMatches | src/main/kotlin/com/mrcoto/chilean_rut/rut.kt:36 | Every rendering within the pattern's bounds (lead length, number of groups) matches the pattern |
| Grammar.MatchesAreDotted | src/main/kotlin/com/mrcoto/chilean_rut/rut.kt:36 | Every match of the pattern is a rendering of digits within those bounds |
| Grammar.BodyTextIsDottedBody | src/main/kotlin/com/mrcoto/chilean_rut/rut.kt:36 | numberRgx matches exactly the renderings of 1 to 8 digits without a leading zero |
| Grammar.StripDotted | src/main/kotlin/com/mrcoto/chilean_rut/rut.kt:173 | Dropping the dots of a rendering gives back its digits |
| Grammar.DottedChars | src/main/kotlin/com/mrcoto/chilean_rut/rut.kt:36 | A rendering holds only digits and '.' |
| Grammar.BodyTextDigits | src/main/kotlin/com/mrcoto/chilean_rut/rut.kt:171-173 | An accepted body, with its dots dropped, is 1 to 8 digits with no leading zero; it starts with 1-9, ends with a digit, and holds only digits and '.' |
| Grammar.BodyTextShape | src/main/kotlin/com/mrcoto/chilean_rut/rut.kt:36 | An accepted body holds only digits and '.', and its last three characters are digits |
| Grammar.BodyDigitsAreBodyText | src/main/kotlin/com/mrcoto/chilean_rut/rut.kt:36 | The dots are optional: bare digits of an accepted length are accepted |
| Grammar.NoDotsIsPlain | src/main/kotlin/com/mrcoto/chilean_rut/rut.kt:36 | The rendering without dots is the plain digits |
| Grammar.GroupIsAllDots | src/main/kotlin/com/mrcoto/chilean_rut/rut.kt:195 | FULL's grouping by three is the rendering with every dot present |
| Grammar.IsBodyText | src/main/kotlin/com/mrcoto/chilean_rut/rut.kt:36 | `numberRgx`: a lead of 1 or 2 digits and up to two groups of three, or a lead of 1 to 3 digits and up to one group, each group with an optional '.'; proved to be exactly the renderings of 1 to 8 digits without a leading zero by `Grammar.BodyTextIsDottedBody` |
| Grammar.IsDvText | src/main/kotlin/com/mrcoto/chilean_rut/rut.kt:37 | `dvRgx`: one character, a digit, 'k' or 'K'; what it lets through is stated by `MrcotoRut.New` and `MrcotoRut.WellformedParts` |
| Checksum.WeightedSum | src/main/kotlin/com/mrcoto/chilean_rut/rut.kt:92-102 | The loop's sum: the digits from the right weighted cyclically by SERIE; stated by `Checksum.WeightedSumOfEightDigits`, `Checksum.LoopStep` and `Checksum.WeightedSumOfReplaceDigit` |
| Checksum.CheckDigit | src/main/kotlin/com/mrcoto/chilean_rut/rut.kt:92-102 | `dvFromResult(11 - sum % 11)`; characterised by `Checksum.CheckDigitCharacterised` (a check symbol completing the sum to a multiple of 11, and the only one) and `Checksum.CheckDigitCompletesSum` |
| Checksum.DvFromResult | src/main/kotlin/com/mrcoto/chilean_rut/rut.kt:111-115 | 11 gives "0", 10 gives "k", any other result its decimal form; stated by `Checksum.DvFromResultSymbol` |
| Checksum.SymbolValueInjective | src/main/kotlin/com/mrcoto/chilean_rut/rut.kt:111-115 | Different check symbols stand for different values in 0..10 |
| Checksum.DvFromResultSymbol | src/main/kotlin/com/mrcoto/chilean_rut/rut.kt:111-115 | `dvFromResult` maps 1..11 to the lower-case check symbol whose value is the result mod 11 |
| Checksum.CheckDigitCompletesSum | src/main/kotlin/com/mrcoto/chilean_rut/rut.kt:92-102 | The check digit is a check symbol, and its value brings the weighted sum to a multiple of 11 |
| Checksum.CheckDigitCharacterised | src/main/kotlin/com/mrcoto/chilean_rut/rut.kt:92-102 | A string is the check digit if and only if it is a check symbol completing the weighted sum to a multiple of 11 |
| Checksum.CheckDigitsEqual | src/main/kotlin/com/mrcoto/chilean_rut/rut.kt:92-102 | Two bodies share a check digit if and only if their weighted sums agree mod 11 |
| Checksum.LoopStep | src/main/kotlin/com/mrcoto/chilean_rut/rut.kt:96-100 | One loop turn consumes one digit at the current weight, and the index advances and wraps as the place count does mod 6 |
| Checksum.WeightedSumOfEightDigits | src/main/kotlin/com/mrcoto/chilean_rut/rut.kt:45 | The weighted sum of an 8-digit body weighs the units 2, then 3, 4, 5, 6, 7, 2, 3 |
| Checksum.DigitOfReplaceDigit | src/main/kotlin/com/mrcoto/chilean_rut/rut.kt:96-98 | Replacing one digit changes that digit and no other |
| Checksum.WeightedSumOfReplaceDigit | src/main/kotlin/com/mrcoto/chilean_rut/rut.kt:96-99 | Replacing one digit changes the weighted sum by that place's weight times the difference |
| Checksum.ChangeNotMultipleOf11 | src/main/kotlin/com/mrcoto/chilean_rut/rut.kt:45 | No single-digit change times a weight of SERIE is a multiple of 11 |
| Checksum.ShiftDetected | src/main/kotlin/com/mrcoto/chilean_rut/rut.kt:101 | Weighted sums that differ by a non-multiple of 11 give different check digits |
| Checksum.SubstitutionDetected | src/main/kotlin/com/mrcoto/chilean_rut/rut.kt:92-102 | Changing any one digit of a body changes its check digit |
| Checksum.SwapSum | src/main/kotlin/com/mrcoto/chilean_rut/rut.kt:96-99 | Swapping two adjacent digits adds both places' changes to the weighted sum |
| Checksum.SwapNotMultipleOf11 | src/main/kotlin/com/mrcoto/chilean_rut/rut.kt:45 | The change from swapping two different adjacent digits is never a multiple of 11 |
| Checksum.TranspositionDetected | src/main/kotlin/com/mrcoto/chilean_rut/rut.kt:92-102 | Swapping two different adjacent digits changes the check digit |
| MrcotoRut.New | src/main/kotlin/com/mrcoto/chilean_rut/rut.kt:170-175 | Succeeds if and only if the body matches numberRgx and the check digit matches dvRgx; the body is checked first, each failure has its error; on success the Rut is well-formed, its number written out is the body without dots, and its check digit is the input lower-cased |
| MrcotoRut.BodyDigitsInRange | src/main/kotlin/com/mrcoto/chilean_rut/rut.kt:171-173 | The digits of an accepted body denote 1..99,999,999 and are that number's decimal form |
| MrcotoRut.Parse | src/main/kotlin/com/mrcoto/chilean_rut/rut.kt:67-74 | "" and "0" fail as an invalid format, other one-character texts fail on the empty prefix, and every success is well-formed and comes from at least two characters |
| MrcotoRut.ParseAcceptsForms | src/main/kotlin/com/mrcoto/chilean_rut/rut.kt:67-74 | An accepted body, an optional '-' and one character parse as the constructor applied to the body and that character |
| MrcotoRut.ParseOnlyAcceptsForms | src/main/kotlin/com/mrcoto/chilean_rut/rut.kt:67-74 | Every text that parses is an accepted body, an optional '-' and an accepted check digit, and parses as those |
| MrcotoRut.ParseInt | src/main/kotlin/com/mrcoto/chilean_rut/rut.kt:83 | `parse(Int)` succeeds exactly for 1..99,999,999 and then yields a valid Rut of that number; otherwise the format is invalid |
| MrcotoRut.NewOfIntToString | src/main/kotlin/com/mrcoto/chilean_rut/rut.kt:83 | The constructor on an Int's decimal form and its check digit gives that Rut exactly in range, and an invalid format otherwise |
| MrcotoRut.CalcDv | src/main/kotlin/com/mrcoto/chilean_rut/rut.kt:92-102 | The loop computes the check digit of the specification; a body <= 0 gets "0"; the result is a check symbol |
| MrcotoRut.IsValid | src/main/kotlin/com/mrcoto/chilean_rut/rut.kt:182 | Valid if and only if the check digit is a check symbol completing the weighted sum to a multiple of 11 |
| MrcotoRut.Format | src/main/kotlin/com/mrcoto/chilean_rut/rut.kt:194-198 | `format`: FULL is `"%,d-$dv"` with ',' replaced by '.', ONLY_DASH the number, '-' and the check digit, ESCAPED the two joined; stated by `MrcotoRut.FormatShapes` and `MrcotoRut.ParseFormat` (parse inverts each format) |
| MrcotoRut.FormatShapes | src/main/kotlin/com/mrcoto/chilean_rut/rut.kt:194-198 | FULL is the digits grouped by three with '.', then '-' and the check digit; ONLY_DASH is the digits, '-' and the check digit; ESCAPED is the digits and the check digit, with no '.' or '-' |
| MrcotoRut.WellformedParts | src/main/kotlin/com/mrcoto/chilean_rut/rut.kt:170-175 | A constructed Rut's decimal digits and check digit pass the constructor's checks, and its check digit is already lower case |
| MrcotoRut.NewOfDigitsOf | src/main/kotlin/com/mrcoto/chilean_rut/rut.kt:170-175 | Any accepted body whose dots drop out to a Rut's digits, with its check digit, constructs that Rut |
| MrcotoRut.WellformedIsConstructed | src/main/kotlin/com/mrcoto/chilean_rut/rut.kt:170-175 | Every well-formed Rut is what its plain digits and check digit construct |
| MrcotoRut.GroupedIsConstructed | src/main/kotlin/com/mrcoto/chilean_rut/rut.kt:170-175 | Every well-formed Rut is also what its '.'-grouped digits construct |
| MrcotoRut.ParseFormat | src/main/kotlin/com/mrcoto/chilean_rut/rut.kt:194-198 | Parsing any of the three formats of a constructed Rut gives that Rut back |
| MrcotoRut.NewNormalises | src/main/kotlin/com/mrcoto/chilean_rut/rut.kt:173-174 | Removing the dots and lower-casing the check digit first builds the same Rut |
| MrcotoRut.CompareTo | src/main/kotlin/com/mrcoto/chilean_rut/rut.kt:207 | Negative exactly when the first body is smaller, zero exactly when the bodies are equal |
| MrcotoRut.Equals | src/main/kotlin/com/mrcoto/chilean_rut/rut.kt:214 | Equal if and only if same body and same check digit; equal Ruts compare as 0 |
| MrcotoRut.CompareToAntisymmetric | src/main/kotlin/com/mrcoto/chilean_rut/rut.kt:207 | compareTo(a, b) is -compareTo(b, a) |
| MrcotoRut.CompareToTransitive | src/main/kotlin/com/mrcoto/chilean_rut/rut.kt:207 | compareTo is transitive |
| MrcotoRut.CompareToMatchesEqualsOnValid | src/main/kotlin/com/mrcoto/chilean_rut/rut.kt:207-214 | On valid Ruts, comparing as 0 and being equal coincide |
| MrcotoRut.CompareToIgnoresCheckDigit | src/main/kotlin/com/mrcoto/chilean_rut/rut.kt:207-214 | Rut("1","9") and Rut("1","0") compare as 0 but are not equal |
| EspinRut.New | src/main/kotlin/com/espin/chilean_rut/rut.kt:37-41 | Succeeds exactly when `toInt()` reads the body; the number is what it reads and the check digit is lower-cased |
| EspinRut.NewOfIntToString | src/main/kotlin/com/espin/chilean_rut/rut.kt:39-40 | Every Int written out, of either sign, constructs the Rut of that Int |
| EspinRut.DottedBodyRejected | src/main/kotlin/com/espin/chilean_rut/rut.kt:39 | A dotted body such as "12.345.678" makes the constructor throw |
| EspinRut.IsValidNumber | src/main/kotlin/com/espin/chilean_rut/rut.kt:11-43 | Every text the empty pattern accepts makes the constructor throw, whatever the check digit, so the check would let no Rut be built; it accepts exactly the empty text |
| EspinRut.CalcDv | src/main/kotlin/com/espin/chilean_rut/rut.kt:17-27 | The loop computes the check digit of the specification; a body <= 0 gets "0"; the result is a check symbol |
| EspinRut.IsValid | src/main/kotlin/com/espin/chilean_rut/rut.kt:45 | Valid if and only if the check digit is a check symbol completing the weighted sum to a multiple of 11 |
| EspinRut.NonPositiveBodies | src/main/kotlin/com/espin/chilean_rut/rut.kt:45 | A body <= 0 is valid with check digit "0" and with no other |
| EspinRut.ZeroAndNegativeAreValid | src/main/kotlin/com/espin/chilean_rut/rut.kt:37-45 | Rut("0","0") and Rut("-5","0") are built and are valid |
| EspinRut.Format | src/main/kotlin/com/espin/chilean_rut/rut.kt:47-51 | `format`: FULL is `"%,d-$dv"` read by `String.format`, so it fails when the check digit holds a directive that throws, and has ',' replaced by '.'; ONLY_DASH and ESCAPED as in the current class; stated by `EspinRut.FormatShapes`, `EspinRut.PercentInCheckDigit` and `EspinRut.EscapesInCheckDigit` |
| EspinRut.FormatShapes | src/main/kotlin/com/espin/chilean_rut/rut.kt:47-51 | The three formats for bodies of either sign. FULL throws exactly when the check digit, read as the end of the format string, throws; otherwise it is the grouped digits, '-' and what that text writes, with any ',' turned into '.' |
| EspinRut.FullWithoutDotsIsOnlyDash | src/main/kotlin/com/espin/chilean_rut/rut.kt:47-51 | For a check digit without ',', '.' or '%', FULL succeeds, and with its dots removed it is ONLY_DASH |
| EspinRut.FullOfOne | src/main/kotlin/com/espin/chilean_rut/rut.kt:48 | FULL of the body 1 is "1-" and what the check digit writes as format text, or that text's failure |
| EspinRut.PercentInCheckDigit | src/main/kotlin/com/espin/chilean_rut/rut.kt:48 | FULL of Rut(1,"%") throws for an unknown conversion, and of Rut(1,"%d") for a missing argument |
| EspinRut.EscapesInCheckDigit | src/main/kotlin/com/espin/chilean_rut/rut.kt:48 | FULL of Rut(1,"%%") is "1-%", and of Rut(1,"%n") is "1-" and a line break |
| Versions.SameOnPlainBodies | src/main/kotlin/com/espin/chilean_rut/rut.kt:37-51 | On plain bodies and check digits the current class accepts, both classes build the same Rut and agree on validity and on every format |
| Versions.EspinAcceptsMore | src/main/kotlin/com/espin/chilean_rut/rut.kt:37-41 | "0" is refused by the current constructor but builds a valid Rut in the older one |
| Versions.SameCheckDigit | src/main/kotlin/com/espin/chilean_rut/rut.kt:17-33 | Both versions' calcDv return the same check digit for every Int |
| RutTests.CheckDigitOf1 | src/test/kotlin/com/espin/chilean_rut/rut_test.kt:10 | calcDv(1) is "9" |
| RutTests.CheckDigitOf21198663 | src/test/kotlin/com/espin/chilean_rut/rut_test.kt:11 | calcDv(21198663) is "8" |
| RutTests.CheckDigitOf21313774 | src/test/kotlin/com/espin/chilean_rut/rut_test.kt:12 | calcDv(21313774) is "3" |
| RutTests.CheckDigitOf13239959 | src/test/kotlin/com/espin/chilean_rut/rut_test.kt:13 | calcDv(13239959) is "k" |
| RutTests.CheckDigitOf21770960 | src/test/kotlin/com/espin/chilean_rut/rut_test.kt:14 | calcDv(21770960) is "1" |
| RutTests.CheckDigitOf19963722 | src/test/kotlin/com/espin/chilean_rut/rut_test.kt:15 | calcDv(19963722) is "3" |
| RutTests.CheckDigitOf11765793 | src/test/kotlin/com/espin/chilean_rut/rut_test.kt:16 | calcDv(11765793) is "0" |
| RutTests.CheckDigitOf14713193 | src/test/kotlin/com/espin/chilean_rut/rut_test.kt:17 | calcDv(14713193) is "3" |
| RutTests.CheckDigitOf14449209 | src/test/kotlin/com/espin/chilean_rut/rut_test.kt:18 | calcDv(14449209) is "9" |
| RutTests.CheckDigitOf15605286 | src/test/kotlin/com/espin/chilean_rut/rut_test.kt:19 | calcDv(15605286) is "8" |
| RutTests.CheckDigitOf5942232 | src/test/kotlin/com/espin/chilean_rut/rut_test.kt:20 | calcDv(5942232) is "4" |
| RutTests.CheckDigitOf19253299 | src/test/kotlin/com/espin/chilean_rut/rut_test.kt:81 | calcDv(19253299) is "k" |
| RutTests.CheckDigitOf17679133 | src/main/kotlin/com/espin/chilean_rut/rut.kt:56-60 | calcDv(17679133) is "0" |
| RutTests.CheckDigitOf1234567 | src/main/kotlin/com/espin/chilean_rut/rut.kt:61 | calcDv(1234567) is "4" |
| RutTests.Constructs1 | src/test/kotlin/com/espin/chilean_rut/rut_test.kt:10-27 | Rut("1","9") and Rut("1","0") are built as given |
| RutTests.Validity1 | src/test/kotlin/com/espin/chilean_rut/rut_test.kt:9-40 | Rut(1,"9") is valid and Rut(1,"0") is not |
| RutTests.Constructs21198663 | src/test/kotlin/com/espin/chilean_rut/rut_test.kt:11-28 | Both test Ruts for 21198663 are built as given |
| RutTests.Validity21198663 | src/test/kotlin/com/espin/chilean_rut/rut_test.kt:9-40 | Rut(21198663,"8") is valid and Rut(21198663,"7") is not |
| RutTests.Constructs21313774 | src/test/kotlin/com/espin/chilean_rut/rut_test.kt:12-29 | Both test Ruts for 21313774 are built as given |
| RutTests.Validity21313774 | src/test/kotlin/com/espin/chilean_rut/rut_test.kt:9-40 | Rut(21313774,"3") is valid and Rut(21313774,"4") is not |
| RutTests.Constructs13239959 | src/test/kotlin/com/espin/chilean_rut/rut_test.kt:13-30 | Both test Ruts for 13239959 are built as given |
| RutTests.Validity13239959 | src/test/kotlin/com/espin/chilean_rut/rut_test.kt:9-40 | Rut(13239959,"k") is valid and Rut(13239959,"1") is not |
| RutTests.Constructs21770960 | src/test/kotlin/com/espin/chilean_rut/rut_test.kt:14-31 | Both test Ruts for 21770960 are built as given |
| RutTests.Validity21770960 | src/test/kotlin/com/espin/chilean_rut/rut_test.kt:9-40 | Rut(21770960,"1") is valid and Rut(21770960,"2") is not |
| RutTests.Constructs19963722 | src/test/kotlin/com/espin/chilean_rut/rut_test.kt:15-32 | Both test Ruts for 19963722 are built as given |
| RutTests.Validity19963722 | src/test/kotlin/com/espin/chilean_rut/rut_test.kt:9-40 | Rut(19963722,"3") is valid and Rut(19963722,"6") is not |
| RutTests.Constructs11765793 | src/test/kotlin/com/espin/chilean_rut/rut_test.kt:16-33 | Both test Ruts for 11765793 are built as given |
| RutTests.Validity11765793 | src/test/kotlin/com/espin/chilean_rut/rut_test.kt:9-40 | Rut(11765793,"0") is valid and Rut(11765793,"7") is not |
| RutTests.Constructs14713193 | src/test/kotlin/com/espin/chilean_rut/rut_test.kt:17-34 | Both test Ruts for 14713193 are built as given |
| RutTests.Validity14713193 | src/test/kotlin/com/espin/chilean_rut/rut_test.kt:9-40 | Rut(14713193,"3") is valid and Rut(14713193,"9") is not |
| RutTests.Constructs14449209 | src/test/kotlin/com/espin/chilean_rut/rut_test.kt:18-35 | Both test Ruts for 14449209 are built as given |
| RutTests.Validity14449209 | src/test/kotlin/com/espin/chilean_rut/rut_test.kt:9-40 | Rut(14449209,"9") is valid and Rut(14449209,"0") is not |
| RutTests.Constructs15605286 | src/test/kotlin/com/espin/chilean_rut/rut_test.kt:19-36 | Both test Ruts for 15605286 are built as given |
| RutTests.Validity15605286 | src/test/kotlin/com/espin/chilean_rut/rut_test.kt:9-40 | Rut(15605286,"8") is valid and Rut(15605286,"k") is not |
| RutTests.Constructs5942232 | src/test/kotlin/com/espin/chilean_rut/rut_test.kt:20-37 | Both test Ruts for 5942232 are built as given |
| RutTests.Validity5942232 | src/test/kotlin/com/espin/chilean_rut/rut_test.kt:9-40 | Rut(5942232,"4") is valid and Rut(5942232,"1") is not |
| RutTests.Formats15605286 | src/test/kotlin/com/espin/chilean_rut/rut_test.kt:42-56 | The three formats of Rut(15605286,"8") are "15.605.286-8", "15605286-8" and "156052868" |
| RutTests.Formats1 | src/test/kotlin/com/espin/chilean_rut/rut_test.kt:42-56 | The three formats of Rut(1,"9") are "1-9", "1-9" and "19" |
| RutTests.Formats13239959 | src/test/kotlin/com/espin/chilean_rut/rut_test.kt:45 | FULL of Rut(13239959,"k") is "13.239.959-k" |
| RutTests.NewCaseInsensitive | src/main/kotlin/com/mrcoto/chilean_rut/rut.kt:172-174 | Upper- and lower-case check digits build the same Rut |
| RutTests.ParsedPlainDash | src/test/kotlin/com/espin/chilean_rut/rut_test.kt:81 | "19253299-k" parses as Rut(19253299,"k") |
| RutTests.ParsedPlain | src/test/kotlin/com/espin/chilean_rut/rut_test.kt:81 | "19253299k" parses as Rut(19253299,"k") |
| RutTests.ParsedDottedDash | src/test/kotlin/com/espin/chilean_rut/rut_test.kt:81 | "19.253.299-k" parses as Rut(19253299,"k") |
| RutTests.ParsedDotted | src/test/kotlin/com/espin/chilean_rut/rut_test.kt:81 | "19.253.299k" parses as Rut(19253299,"k") |
| RutTests.ParsedUpperCase | src/test/kotlin/com/espin/chilean_rut/rut_test.kt:81 | "19.253.299K" parses as Rut(19253299,"k") |
| RutTests.ParsedIsValid | src/test/kotlin/com/espin/chilean_rut/rut_test.kt:82 | The parsed Rut is valid |
| RutTests.RejectedEmpty | src/test/kotlin/com/espin/chilean_rut/rut_test.kt:87-95 | "" and "0" are refused as an invalid format |
| RutTests.Rejected1Dot2 | src/test/kotlin/com/espin/chilean_rut/rut_test.kt:88 | "1.2" is refused |
| RutTests.RejectedShortGroup | src/test/kotlin/com/espin/chilean_rut/rut_test.kt:89 | "12.345.67c" is refused |
| RutTests.RejectedLetterInBody | src/test/kotlin/com/espin/chilean_rut/rut_test.kt:90 | "1a.345.678" is refused |
| RutTests.RejectedLongGroup | src/test/kotlin/com/espin/chilean_rut/rut_test.kt:91 | "7.6543.21" is refused |
| RutTests.RejectedTrailingShortGroup | src/test/kotlin/com/espin/chilean_rut/rut_test.kt:92 | "123.456.78" is refused |
| RutTests.RejectedTooManyGroups | src/test/kotlin/com/espin/chilean_rut/rut_test.kt:93 | "12.345.678.345" is refused |
| RutTests.RejectedCommas | src/test/kotlin/com/espin/chilean_rut/rut_test.kt:94 | "12,345,678" is refused |
| RutTests.RejectedCheckDigit | src/test/kotlin/com/espin/chilean_rut/rut_test.kt:96 | "12-A" is refused for its check digit |
| RutTests.Comparison | src/test/kotlin/com/espin/chilean_rut/rut_test.kt:105-110 | Rut("1234","3") < Rut("1345","5") and not > |
| RutTests.Normalisation | src/main/kotlin/com/mrcoto/chilean_rut/rut.kt:171-174 | "12.345.678" with "K" and "12345678" with "k" build the same Rut |
| RutTests.NewOfDotted | src/main/kotlin/com/mrcoto/chilean_rut/rut.kt:170-175 | Every rendering of a Rut's digits, with any choice of dots, constructs that Rut |
| RutTests.MixedGroupingAccepted | src/main/kotlin/com/mrcoto/chilean_rut/rut.kt:36 | "12345.678", with a dot before its last group only, is accepted as 12345678 |
| RutTests.OlderExample | src/main/kotlin/com/espin/chilean_rut/rut.kt:55-60 | In the older class, "17679133" with "0" builds a valid Rut |

## Left out

- `random`, `randoms` and `uniques` are not modelled. They draw from `kotlin.random.Random`. With a fixed seed, every draw of `uniques` is the same Rut, so it never ends for n > 1.
- `hashCode`, `toString` and `component1`/`component2` are not modelled. They compute no property the rest relies on.
- `equals` against an object that is not a `Rut` (always false) is not modelled. `MrcotoRut.Equals` takes two Ruts.
- The locale of `"%,d"` is fixed as a locale that groups by three with ','. Another locale would change FULL.
- Kotlin.ToInt: reads ASCII digits only; `parseInt` also reads other Unicode decimal digits, which are not modelled.
- Kotlin.ToLower: its contract states only the length; the characters are stated where they are used (`RutTests.NewCaseInsensitive`, `MrcotoRut.WellformedParts`). It maps ASCII letters only; other Unicode case mappings are not modelled. `toLowerCase()` also uses the default locale, which is not modelled: under a Turkish locale "I" becomes "ı", which changes the check digit the older class stores.
- MrcotoRut.Parse: text is a sequence of code points, while Kotlin indexes UTF-16 units. A character outside the Basic Multilingual Plane counts as one here and as two in the source, so `"😀"` fails here on the empty prefix but in the source as an invalid format, and `"12😀"` fails here for its check digit but in the source as an invalid format.
- `%n` writes `System.lineSeparator()`, fixed here as "\n" (`Kotlin.LineSeparator`).
- The regular-expression engine is not modelled. `numberRgx` and `dvRgx` are stated as predicates over the pattern's structure.
- The older file's `main` prints; only what it computes is stated (`RutTests.OlderExample`, `RutTests.CheckDigitOf1234567`).
- `calcDv`'s `sum` is not modelled as a 32-bit Int. It stays far below the Int range, since each digit adds at most 63.
- Kotlin.FormatTail: a '%' followed by a digit, a flag (`-#+ 0,(`), '<', '.' or 't'/'T' opens a directive with an argument index, flags, a width, a precision or a date/time conversion, and gives `DirectiveNotModelled` where Java's Formatter would read it on: for example `"%5d"` throws MissingFormatArgument and `"%-"` throws UnknownFormatConversion there.
- Kotlin.ScanFormat: stops with `DirectiveNotModelled` at the same directives as `Kotlin.FormatTail`, without reading the rest of the text for a later parse error.
- EspinRut.Format: a '%' in the check digit followed by a digit, a flag (`-#+ 0,(`), '<', '.' or 't'/'T' opens a directive with an argument index, flags, a width, a precision or a date/time conversion; FULL then returns `DirectiveNotModelled` instead of what Java's Formatter does with it.
- EspinRut.FullWithoutDotsIsOnlyDash: stated for check digits without '%' only, since with a directive in the check digit FULL may throw or write other text than ONLY_DASH.
