# zipcodelib in Dafny

A model of the two functions of `zipcodelib`, a small library for UK
postcodes, and proofs about them.

- `str_format` (the formatter) keeps only the letters and digits of its
  input. It then chooses how many of them form the outward code. It
  looks first for a prefix from a list (WC, EC1–EC4, NW1W, SE1P, SW1),
  then for E1, N1 or W1, then for a single-letter area, and last uses
  the length. The result is "outward inward", where the inward code is
  the last three characters. Otherwise the function raises `ValueError`.
- `is_valid` (the validator) first checks the code against the pattern
  `^[A-Z]{1,2}[0-9][A-Z0-9]? ?[0-9][A-Z]{2}$`. It then splits the code by
  position into area, district, sector and unit, and applies the Royal
  Mail allocation rules as a chain of early returns: the areas with only
  single-digit or only double-digit districts, district 0 and district
  10, the central London districts with a trailing letter, the letters
  forbidden in the first and second positions, the letters allowed in
  the third and fourth positions, and the letters forbidden in the unit.

Files:

- `text.dfy` (module `Text`): the Python string operations the code
  uses. Slices clamp like Python's, and `startswith` is searched over a
  list. `isalnum`, `isalpha` and `isdigit` cover ASCII only.
- `formatter.dfy` (module `Formatter`): `StrFormat`, the rule chain
  `OutwardLength`, stripping `KeepAlnum`, and their properties.
- `validator.dfy` (module `Validator`): the pattern check, the
  positional split, `IsValid` guard by guard, and `Accepted`. `Accepted`
  states the same rules as one conjunction, and `IsValidExactly` proves
  the two agree.
- `pipeline.dfy` (module `Pipeline`): how the formatter's output meets
  the validator's positional split.
- `examples.dfy` (modules `FormatterExamples` and `ValidatorExamples`):
  the library's unit-test tables, stated on the model. Where a table
  repeats a rule over a list (every area, every letter), the lemma is
  stated for all members of the list.

Both functions are pure, so the model uses datatypes, functions and
lemmas only. The exceptions the code raises are result values:
`FormatResult.FormatError` and `FormatResult.IndexError` for the
formatter, and `Outcome.IndexError` for the validator.

### Where the code differs from its documented intent

The model follows the code in each of these cases:

- The two gatekeeping area lists return their verdict at once, so the
  later rules never apply to those areas. For example, `BR9 9CA` is
  accepted even though C is forbidden in the unit (`AcceptsBR99CA`).
- `is_valid` can raise. Take any five- or six-character code outside
  the two gatekeeping lists that starts with a central London prefix.
  The positional split leaves it an empty district, and `district[-1]`
  raises `IndexError`. Examples are `W1 9AA`
  (`EmptyCentralLondonDistrictRaises`) and the spaceless `W1A0AX`
  (`SpacelessW1A0AXRaises`). `str_format` raises `IndexError` on input
  with no letter or digit (`IndexErrorExactly`).
- The pattern's `$` also matches before a final newline. So
  `"M1 1AE\n"` passes the shape check, and the split reads district
  `" "` and unit `"E\n"` from it. It is accepted
  (`TrailingNewlineAccepted`).
- The formatter is not idempotent: `"WC"` formats to `"WC WC"`, and
  that formats to `"WCWC CWC"` (`NotIdempotent`). It is idempotent on
  every result that kept each character exactly once
  (`LosslessResultIsFixedPoint`).
- Neither function changes letter case. Lower-case input reaches the
  validator's pattern unchanged and is rejected.
- The validator splits by position, so it misreads a central London
  code written without its space. With a four-character outward code
  the district shrinks to one digit and the code is rejected (`EC1A1BB`,
  `CentralLondonWithoutSpaceRejected`). With a three-character outward
  code (`W1A0AX`, `E1W9AA`, `N1C9AA`) the district is empty and
  `is_valid` raises `IndexError` (`SpacelessThreeCharCentralLondonRaises`).
  The formatter produces the spaced form, which is accepted.
- The formatter gives every stripped string that starts with E1, N1 or
  W1 a three-character outward code, although the comment on its
  single-letter rule lists E and N under the "A9 9AA" format. So an
  ordinary five-character code of those districts gains a character:
  `E1 6AN` formats to `E16 6AN` (`E1CodeGainsACharacter`), and the
  validator accepts that result (`AcceptsE166AN`).

## Model

| member | source | states |
|---|---|---|
| Text.Take | zipcodelib/formatter.py:14 | `s[:n]` clamps: its length is the smaller of n and the length of s, and it agrees with s index by index |
| Text.Drop | zipcodelib/validator.py:32 | `s[n:]` clamps, and `s[:n] + s[n:]` gives back s |
| Text.LastN | zipcodelib/formatter.py:14 | `s[-n:]` holds the last n characters, or all of them when s is shorter |
| Text.StartsWithAny | zipcodelib/formatter.py:12-14 | the loop over a prefix list finds a match exactly when some prefix of the list matches |
| Formatter.KeepAlnum | zipcodelib/formatter.py:8 | the stripped string is no longer than the input and holds only letters and digits |
| Formatter.OutwardLength | zipcodelib/formatter.py:12-34 | the rule chain fails on the first character exactly for an empty stripped string; an outward code has 2 to 4 characters; the length rules take the whole string minus three; no rule fits exactly when no prefix matches, it is not a five-character single-letter area, and the length is neither 6 nor 7 |
| Formatter.StrFormat | zipcodelib/formatter.py:6-36 | IndexError exactly when nothing survives stripping; the ValueError message is "Unable to format " followed by the original input; a result joins the first 2–4 stripped characters and the last three with a space |
| Formatter.Join | zipcodelib/formatter.py:14 | `' '.join([outward, inward])`: the two parts with one space between; `FormattedHasOneSpace` and `KeepAlnumOfJoin` state its properties |
| Formatter.KeepAlnumAppend | zipcodelib/formatter.py:8 | stripping a concatenation strips each part and keeps their order |
| Formatter.KeepAlnumFixedPoint | zipcodelib/formatter.py:8 | stripping leaves a string unchanged exactly when it is all letters and digits |
| Formatter.KeepAlnumEmpty | zipcodelib/formatter.py:8 | nothing survives stripping exactly when the input has no letter or digit |
| Formatter.KeepAlnumIgnoresSeparator | zipcodelib/formatter.py:8 | removing one non-alphanumeric character does not change the stripped string |
| Formatter.PrefixRuleFirst | zipcodelib/formatter.py:12-14 | a stripped string starting with WC, EC1–EC4, NW1W, SE1P or SW1 formats as its first four and last three characters, whatever its length |
| Formatter.A9aRuleSecond | zipcodelib/formatter.py:18-19 | otherwise, E1, N1 and W1 format as the first three and last three characters, whatever the length |
| Formatter.SingleLetterAreaRule | zipcodelib/formatter.py:23-27 | a single-letter area splits five characters 2+3 and six characters 3+3; seven characters fall through to the generic 4+3 |
| Formatter.GenericRule | zipcodelib/formatter.py:31-36 | other codes split six characters 3+3 and seven characters 4+3; every other length raises ValueError naming the input |
| Formatter.FormatErrorExactly | zipcodelib/formatter.py:12-36 | ValueError is raised exactly when no rule of the chain fits |
| Formatter.IndexErrorExactly | zipcodelib/formatter.py:23 | reading the first stripped character raises exactly for input with no letter or digit |
| Formatter.FormattedHasOneSpace | zipcodelib/formatter.py:14 | a result is letters and digits except for one space after the outward code; the space is fourth from the end when at least three characters survived |
| Formatter.KeepAlnumOfJoin | zipcodelib/formatter.py:14 | stripping a joined result gives the outward part followed by the inward part |
| Formatter.LosslessExactly | zipcodelib/formatter.py:12-34 | deleting the space gives back the stripped input exactly when the outward length plus three equals its length |
| Formatter.LengthRulesLossless | zipcodelib/formatter.py:23-34 | the length-based rules never lose or repeat a character |
| Formatter.SeparatorsDoNotMatter | zipcodelib/formatter.py:8 | two inputs with the same letters and digits format the same; only the error message repeats the input as written |
| Formatter.SeparatorInvisible | zipcodelib/formatter.py:8 | inserting a space, '-', '/' or any other non-alphanumeric character anywhere does not change a result |
| Formatter.LosslessResultIsFixedPoint | zipcodelib/formatter.py:6-36 | formatting a lossless result again returns the same result |
| Formatter.NotIdempotent | zipcodelib/formatter.py:12-14 | "WC" formats to "WC WC", and that formats to "WCWC CWC" |
| Validator.IsInwardShape | zipcodelib/validator.py:4 | `[0-9][A-Z]{2}`: a digit and two capital letters; `CanonicalCodeShapeAndSplit` shows every outward and inward pair passes the shape check |
| Validator.IsOutwardShape | zipcodelib/validator.py:4 | `[A-Z]{1,2}[0-9][A-Z0-9]?` has 2 to 4 characters |
| Validator.MatchesToEnd | zipcodelib/validator.py:4 | a string matching the pattern to its end has 5 to 8 characters |
| Validator.CheckValidationRegex | zipcodelib/validator.py:12-19 | a string passing the shape check, with a final newline allowed by `$`, has 5 to 9 characters |
| Validator.SplitZipcode | zipcodelib/validator.py:22-37 | on six or more characters the area is the first two and the district runs up to the fourth character from the end; on five characters the area is one character and the district is empty; the sector is third from the end and the unit is the last two |
| Validator.SplitReassembles | zipcodelib/validator.py:30-36 | the split loses only the character fourth from the end |
| Validator.OutwardReassembles | zipcodelib/validator.py:30-36 | area and district together are `zipcode[:-4]`; sector and unit together are `zipcode[-3:]` |
| Validator.CanonicalCodeShapeAndSplit | zipcodelib/validator.py:4-37 | outward, space, inward passes the shape check, with or without the space, and splits back into area and district of the outward code |
| Validator.CheckSingleDigitDistrict | zipcodelib/validator.py:40-54 | WC takes a digit and a capital letter, every other area one digit; `SingleDigitAreaDecided` states what this decides for a whole code |
| Validator.CheckDoubleDigitDistrict | zipcodelib/validator.py:57-64 | exactly two digits; `DoubleDigitAreaDecided` states what this decides for a whole code |
| Validator.CentralLondonScan | zipcodelib/validator.py:97-100 | the loop raises exactly when the district is empty and some prefix matches; it rejects exactly when the district's last character is not a letter and some prefix matches |
| Validator.StartsLikeA9A | zipcodelib/validator.py:113 | `re.match(r'[A-Z][0-9][A-Z].*')`: a capital, a digit and a capital at the start; `ThirdPositionTable` uses it |
| Validator.StartsLikeAA9A | zipcodelib/validator.py:120 | `re.match(r'[A-Z]{2}[0-9][A-Z].*')`: two capitals, a digit and a capital at the start; `FourthPositionTable` uses it |
| Validator.HasExcludedUnitLetter | zipcodelib/validator.py:125 | the set intersection is non-empty exactly when some unit character is C, I, K, M, O or V |
| Validator.IsValid | zipcodelib/validator.py:67-128 | True only after the shape check passes; IndexError exactly for an ungated code with an empty district and a central London prefix |
| Validator.Accepted | zipcodelib/validator.py:67-128 | the rules side by side, as a reference definition: the shape check, then the single-digit or double-digit district check for the two gatekeeping lists and `OtherAreaRules` for every other area; `IsValidExactly` shows `is_valid` returns True exactly on it |
| Validator.OtherAreaRules | zipcodelib/validator.py:86-126 | the district 0 and 10 rules, central London districts ending in a letter, the first, second, third and fourth position letters, and no excluded unit letter, all as one conjunction; `ExactlyForOtherArea` ties it to `is_valid` |
| Validator.CentralLondonScanPasses | zipcodelib/validator.py:97-100 | the loop lets a code through exactly when every prefix it starts with is followed by a district ending in a letter |
| Validator.ExactlyForSingleDigitArea | zipcodelib/validator.py:80-81 | for the single-digit areas, True exactly when the rules as one conjunction hold |
| Validator.ExactlyForDoubleDigitArea | zipcodelib/validator.py:83-84 | for AB, LL and SO, True exactly when the rules as one conjunction hold |
| Validator.ExactlyForOtherArea | zipcodelib/validator.py:86-128 | outside the two gatekeeping area lists, True exactly when all the remaining rules hold |
| Validator.OtherAreaOutcome | zipcodelib/validator.py:86-128 | outside the two gatekeeping area lists, the result is IndexError for an empty district under a central London prefix, and otherwise whether all remaining rules hold |
| Validator.IsValidExactly | zipcodelib/validator.py:67-128 | `is_valid` returns True exactly for the codes that satisfy every rule |
| Validator.ShapeCheckedFirst | zipcodelib/validator.py:75-76 | a code failing the shape check is rejected |
| Validator.SingleDigitAreaDecided | zipcodelib/validator.py:40-54 | the single-digit areas are decided by length and district alone: one digit, or a digit and a letter for WC |
| Validator.DoubleDigitAreaDecided | zipcodelib/validator.py:57-64 | AB, LL and SO are decided by length and district alone: exactly two digits |
| Validator.DistrictZeroRule | zipcodelib/validator.py:86-88 | outside the two gatekeeping area lists, district 0 is accepted only in BL, BS, CM, CR, FY, HA, PR, SL and SS, and rejected elsewhere |
| Validator.DistrictTenRule | zipcodelib/validator.py:90-92 | outside the two gatekeeping area lists, the areas with a district 0 other than BS reject district 10 |
| Validator.CentralLondonRule | zipcodelib/validator.py:94-100 | outside the two gatekeeping area lists, under a central London prefix an empty district raises, and a district ending in a non-letter is rejected |
| Validator.FirstPositionRule | zipcodelib/validator.py:102-104 | outside the two gatekeeping area lists, Q, V and X in the first position are rejected |
| Validator.SecondPositionRule | zipcodelib/validator.py:106-108 | outside the two gatekeeping area lists, I, J and Z in the second position are rejected |
| Validator.CentralLondonInitials | zipcodelib/validator.py:9 | a code starting with a central London prefix starts with E, N, S or W, followed by 1, C, E or W |
| Validator.CentralLondonPrefixInitials | zipcodelib/validator.py:9 | every central London prefix has at least two characters, starting with E, N, S or W, followed by 1, C, E or W |
| Validator.ThirdPositionRule | zipcodelib/validator.py:110-115 | outside the two gatekeeping area lists, after a letter and a digit, a third letter outside ABCDEFGHJKPSTUW is never accepted |
| Validator.FourthPositionRule | zipcodelib/validator.py:117-122 | outside the two gatekeeping area lists, after two letters and a digit, a fourth letter outside ABEHMNPRVWXY is never accepted |
| Validator.UnitRule | zipcodelib/validator.py:124-126 | outside the two gatekeeping area lists, a unit containing C, I, K, M, O or V is never accepted |
| Pipeline.FormattedSplitsAtSpace | zipcodelib/validator.py:30-36 | a formatted code has its space fourth from the end; the validator's split reads the formatter's outward part and the last three stripped characters |
| Pipeline.FormattedCodePassesShapeCheck | zipcodelib/formatter.py:6-36 | a lossless formatting of a stripped code in the validator's shape passes the shape check and splits back into the code's outward part |
| FormatterExamples.FormatsStripped | zipcodelib/formatter.py:8-14 | a string of letters and digits whose rule picks n characters formats to its first n and last three characters |
| FormatterExamples.PrefixInitials | zipcodelib/formatter.py:1 | every four-character prefix starts with W, E, N or S, followed by C, W or E |
| FormatterExamples.NoPrefixStartsWith | zipcodelib/formatter.py:12-14 | a string whose first two characters do not fit those initials matches no four-character prefix |
| FormatterExamples.FormatsJoined | zipcodelib/formatter.py:8-34 | an outward part and three inward characters whose rule picks the outward length format to the two parts joined by a space |
| FormatterExamples.NoSpaceEC1A | unittests/test_formatter.py:20 | EC1A1BB formats to EC1A 1BB |
| FormatterExamples.NoSpaceW1A | unittests/test_formatter.py:21 | W1A0AX formats to W1A 0AX |
| FormatterExamples.NoSpaceM1 | unittests/test_formatter.py:22 | M11AE formats to M1 1AE |
| FormatterExamples.NoSpaceB33 | unittests/test_formatter.py:23 | B338TH formats to B33 8TH |
| FormatterExamples.NoSpaceCR2 | unittests/test_formatter.py:24 | CR26XH formats to CR2 6XH |
| FormatterExamples.NoSpaceDN55 | unittests/test_formatter.py:25 | DN551PT formats to DN55 1PT |
| FormatterExamples.RowEC1A | unittests/test_formatter.py:5-53 | EC1A 1BB written with a space, with none, with '-' or with '/' formats to EC1A 1BB |
| FormatterExamples.RowW1A | unittests/test_formatter.py:6-53 | the same four spellings of W1A 0AX format to W1A 0AX |
| FormatterExamples.RowM1 | unittests/test_formatter.py:7-53 | the same four spellings of M1 1AE format to M1 1AE |
| FormatterExamples.RowB33 | unittests/test_formatter.py:8-53 | the same four spellings of B33 8TH format to B33 8TH |
| FormatterExamples.RowCR2 | unittests/test_formatter.py:9-53 | the same four spellings of CR2 6XH format to CR2 6XH |
| FormatterExamples.RowDN55 | unittests/test_formatter.py:10-53 | the same four spellings of DN55 1PT format to DN55 1PT |
| FormatterExamples.WithSeparator | unittests/test_formatter.py:34-53 | a space, '-' or '/' between the two parts gives the same result as no separator |
| FormatterExamples.Spread | unittests/test_formatter.py:56-60 | a string spread out with a gap between each two characters has the expected length |
| FormatterExamples.KeepAlnumSpread | unittests/test_formatter.py:56-60 | gaps without letters or digits vanish in stripping |
| FormatterExamples.SpacedEC1A | unittests/test_formatter.py:57 | "E C 1 A 1 B B" formats to EC1A 1BB |
| FormatterExamples.SpacedW1A | unittests/test_formatter.py:58 | "W  1  A  0  A  X" formats to W1A 0AX |
| FormatterExamples.SpacedM1 | unittests/test_formatter.py:59 | "M   1   1   A   E" formats to M1 1AE |
| FormatterExamples.TooShort | unittests/test_formatter.py:68-71 | "123" raises ValueError with message "Unable to format 123" |
| FormatterExamples.E1CodeGainsACharacter | zipcodelib/formatter.py:18-19 | "E1 6AN" formats to "E16 6AN": the E1/N1/W1 rule takes three characters even from a five-character code |
| FormatterExamples.LongPrefixCode | zipcodelib/formatter.py:12-14 | the prefix rule ignores length: "EC1A1BBXY" formats to "EC1A BXY", losing characters |
| ValidatorExamples.CanonicalReading | zipcodelib/validator.py:30-36 | outward, space, inward passes the shape check and splits into area and district of the outward code, sector and unit of the inward code |
| ValidatorExamples.CanonicalCentralLondon | zipcodelib/validator.py:97-100 | such a code passes the central London loop when its district ends in a letter or its first two characters fit no central London prefix |
| ValidatorExamples.CanonicalRules | zipcodelib/validator.py:86-126 | such a code passes the non-gatekeeping rules when its parts do |
| ValidatorExamples.CanonicalAccepted | zipcodelib/validator.py:67-128 | such a code outside the gatekeeping areas is accepted when its parts satisfy every rule |
| ValidatorExamples.AcceptsEC1A1BB | unittests/test_validator.py:6 | EC1A 1BB is accepted |
| ValidatorExamples.AcceptsW1A0AX | unittests/test_validator.py:7 | W1A 0AX is accepted |
| ValidatorExamples.AcceptsM11AE | unittests/test_validator.py:8 | M1 1AE is accepted |
| ValidatorExamples.AcceptsB338TH | unittests/test_validator.py:9 | B33 8TH is accepted |
| ValidatorExamples.AcceptsCR26XH | unittests/test_validator.py:10 | CR2 6XH is accepted |
| ValidatorExamples.AcceptsDN551PT | unittests/test_validator.py:11 | DN55 1PT is accepted |
| ValidatorExamples.AcceptsEC1A9AA | unittests/test_validator.py:156 | EC1A 9AA is accepted |
| ValidatorExamples.AcceptsEC3A9AA | unittests/test_validator.py:158 | EC3A 9AA is accepted |
| ValidatorExamples.AcceptsEC4A9AA | unittests/test_validator.py:159 | EC4A 9AA is accepted |
| ValidatorExamples.AcceptsW1A9AA | unittests/test_validator.py:161 | W1A 9AA is accepted |
| ValidatorExamples.AcceptsEC2A9AA | unittests/test_validator.py:157 | EC2A 9AA is accepted |
| ValidatorExamples.AcceptsSW1A9AA | unittests/test_validator.py:160 | SW1A 9AA is accepted |
| ValidatorExamples.AcceptsE1W9AA | unittests/test_validator.py:164 | E1W 9AA is accepted |
| ValidatorExamples.AcceptsN1C9AA | unittests/test_validator.py:165 | N1C 9AA is accepted |
| ValidatorExamples.AcceptsN1P9AA | unittests/test_validator.py:166 | N1P 9AA is accepted |
| ValidatorExamples.AcceptsNW1W9AA | unittests/test_validator.py:167 | NW1W 9AA is accepted |
| ValidatorExamples.AcceptsSE1P9AA | unittests/test_validator.py:168 | SE1P 9AA is accepted |
| ValidatorExamples.AreaIsTwoLetters | zipcodelib/validator.py:5-7 | every gatekeeping area is two capital letters |
| ValidatorExamples.CanonicalSingleDigitArea | zipcodelib/validator.py:80-81 | a spaced code of a single-digit area is accepted exactly when its outward code has three characters (for WC: four, ending in a letter) |
| ValidatorExamples.CanonicalDoubleDigitArea | zipcodelib/validator.py:83-84 | a spaced code of AB, LL or SO is accepted exactly when its outward code is the area and two digits |
| ValidatorExamples.SingleDigitDistricts | unittests/test_validator.py:20-58 | every single-digit area but WC accepts one digit and rejects two |
| ValidatorExamples.WcDistricts | unittests/test_validator.py:61-73 | WC accepts a digit and a letter, and rejects a digit alone or two digits |
| ValidatorExamples.WcLettersRejected | unittests/test_validator.py:67 | WC followed by two letters is rejected |
| ValidatorExamples.DoubleDigitDistricts | unittests/test_validator.py:76-96 | AB, LL and SO accept two digits, and reject one digit or a digit and a letter |
| ValidatorExamples.DistrictZeroAccepted | unittests/test_validator.py:99-108 | every area with a district 0 accepts it |
| ValidatorExamples.DistrictTenRejected | unittests/test_validator.py:110-118 | every area with a district 0 except BS rejects district 10 |
| ValidatorExamples.BsTenAccepted | unittests/test_validator.py:130-133 | BS10 9AA is accepted |
| ValidatorExamples.DistrictZeroRejected | unittests/test_validator.py:121 | AA0 followed by any inward code is rejected |
| ValidatorExamples.FirstPositionTable | unittests/test_validator.py:141-151 | Q, V or X followed by A9A and any inward code is rejected |
| ValidatorExamples.SecondPositionTable | unittests/test_validator.py:187-197 | A followed by I, J or Z, then 9A and any inward code, is rejected |
| ValidatorExamples.AreaInitials | zipcodelib/validator.py:5-7 | no gatekeeping area starts with a letter other than A, B, F, H, J, L, S, W or Z |
| ValidatorExamples.FirstLetterA | zipcodelib/validator.py:5-7 | the only gatekeeping area starting with A is AB |
| ValidatorExamples.ThirdPositionTable | unittests/test_validator.py:200-235 | A9 followed by a letter is accepted exactly when the letter is allowed in the third position |
| ValidatorExamples.FourthPositionTable | unittests/test_validator.py:238-273 | AA9 followed by a letter is accepted exactly when the letter is allowed in the fourth position |
| ValidatorExamples.UnitTable | unittests/test_validator.py:276-295 | A9A 9 followed by two letters is accepted exactly when neither letter is C, I, K, M, O or V |
| ValidatorExamples.CanonicalCentralLondonRejected | zipcodelib/validator.py:97-100 | outside the two gatekeeping area lists, a spaced code starting with a central London prefix whose district ends in a digit is rejected |
| ValidatorExamples.PrefixSurvives | zipcodelib/validator.py:98 | a prefix of a string is a prefix of any extension of it |
| ValidatorExamples.EmptyCentralLondonDistrictRaises | zipcodelib/validator.py:99 | "W1" with a space and any inward code raises IndexError |
| ValidatorExamples.CentralLondonWithoutSpaceRejected | zipcodelib/validator.py:30-37 | outside the two gatekeeping area lists, a four-character outward code that starts with any central London prefix (NW1W and SE1P included) is rejected when written without its space |
| ValidatorExamples.SpacelessThreeCharCentralLondonRaises | zipcodelib/validator.py:30-99 | a three-character outward code written without its space, outside the gatekeeping areas and starting with a central London prefix, makes `is_valid` raise IndexError |
| ValidatorExamples.SpacelessW1A0AXRaises | zipcodelib/validator.py:99 | W1A0AX makes `is_valid` raise IndexError |
| ValidatorExamples.AcceptsE166AN | zipcodelib/validator.py:67-128 | E16 6AN, the formatter's result for E1 6AN, is accepted |
| ValidatorExamples.SpacelessReading | zipcodelib/validator.py:30-37 | without the space, a four-character outward code splits into area `o[..2]` and district `o[2]` alone; its fourth character falls where the space would be and is lost |
| ValidatorExamples.RejectsSpacelessEC1A1BB | zipcodelib/validator.py:30-37 | EC1A1BB is rejected |
| ValidatorExamples.RejectsSpacelessNW1W9AA | zipcodelib/validator.py:30-37 | NW1W9AA is rejected |
| ValidatorExamples.RejectsEC19 | unittests/test_validator.py:171 | EC19 9AA is rejected |
| ValidatorExamples.RejectsEC29 | unittests/test_validator.py:172 | EC29 9AA is rejected |
| ValidatorExamples.RejectsEC39 | unittests/test_validator.py:173 | EC39 9AA is rejected |
| ValidatorExamples.RejectsEC49 | unittests/test_validator.py:174 | EC49 9AA is rejected |
| ValidatorExamples.RejectsSW19 | unittests/test_validator.py:175 | SW19 9AA is rejected |
| ValidatorExamples.RejectsW19 | unittests/test_validator.py:176 | W19 9AA is rejected |
| ValidatorExamples.TrailingNewlineReading | zipcodelib/validator.py:4-37 | "M1 1AE\n" passes the shape check and splits into area "M1", district " ", sector 'A' and unit "E\n" |
| ValidatorExamples.TrailingNewlineAccepted | zipcodelib/validator.py:67-128 | "M1 1AE\n" is accepted |
| ValidatorExamples.AcceptsBR99CA | zipcodelib/validator.py:80-81 | BR9 9CA is accepted: the single-digit areas skip the unit rule |

## Left out

- Regular expressions: the pattern and the two `re.match` calls are
  written out as predicates over characters, not run through a regex
  engine. `$` before a final newline is modelled.
- Unicode: `str.isalnum`, `str.isalpha` and `str.isdigit` accept only
  ASCII letters and digits here. Python also accepts other scripts and
  digit forms, and the formatter would keep them.
- Exceptions are result values (`FormatError`, `IndexError`), not
  control flow.
- Validator.SplitZipcode: requires a non-empty code. `is_valid` calls it
  only after the shape check, which guarantees at least five characters.
  On an empty string, Python would raise `IndexError` at `inward_code[0]`.
- Test tables stated over a list (every area, every letter) are proved
  for all members of the list at once, not row by row. The central
  London rows for the two-letter area WC (`WC1A 9AA`, `WC19 9AA`) fall
  under the single-digit area lemmas (`WcDistricts`), because the code
  decides WC before the central London loop.
- Packaging, the test runner and the module layout of the Python
  package are not part of this model.
