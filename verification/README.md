# Numerology engine in Dafny

This project models the numerology engine of a Turkish numerology web
application together with the number-keyed data built on it.

The engine has these parts:

- a Pythagorean letter table over Latin and Turkish letters;
- name normalisation (lower-case, keep only `[a-zçğıöşü]`);
- digit reduction, where the Master Numbers 11, 22 and 33 survive unless the
  reduction is *final*;
- the three name numbers: Destiny (all letters), Soul Urge (vowels) and
  Personality (consonants);
- the 9-bin character chart;
- the date numbers: Life Path, Universal Day, Personal Year with its
  breakdown, and Personal Day;
- the `YYYY-MM-DD` to `DD.MM.YYYY` reshaper.

On top of the engine sit:

- the love-compatibility score;
- the loops that fill the report, personal-year and career tables;
- the entry choice of the interaction text.

Modules, one per file:

- `Wrappers` (`wrappers.dfy`): the `Option` type.
- `Letters` (`letters.dfy`): letter values, vowels, lower-casing and `Normalize`.
- `Reduction` (`reduction.dfy`): `DigitSum`, `Reduce` and the facts about them.
  - Reduction keeps the residue modulo 9.
  - A finalized reduction is the digital root.
  - The Master-Number rules.
- `NameNumbers` (`name_numbers.dfy`): the summing loop of `calculateNameNumber`, as a method, and its three callers.
- `CharacterChart` (`character_chart.dfy`): the chart-filling loop, as a method over a `map<string, nat>`.
- `DateNumbers` (`dates.dfy`): everything about dates.
  - `split`/`join` on one separator.
  - `Number()` on digit strings.
  - The four date numbers.
  - `formatDateForApi`.
- `NumerologyData` (`numerology_data.dfy`): everything built on the engine.
  - The compatibility score, as a method that reassigns a local score.
  - The three table-building loops, as methods that build maps.
  - The interaction-entry choice.

Modelling choices:

- Invalid input gets the same answer as in the source. A malformed date
  gives the sentinel `0`, or `{0, []}` for the Personal Year. An
  optional result type would have been cleaner, but the code returns
  the sentinel, so the model does too.
- Numeric inputs are `nat`.
- A JavaScript `Date` is replaced by its day, month and year
  (`CalendarDate`).

## Model

| member | source | states |
|---|---|---|
| Letters.IsVowel | utils/numerology.ts:16 | `vowels.includes(char)` over the eight vowels "aeıioöuü"; every vowel is a character the normalisation keeps |
| Letters.Lower | utils/numerology.ts:24 | `toLowerCase` as far as it matters to the filter: each capital A-Z becomes the lower-case letter at the same position of the alphabet; Ç Ğ İ Ö Ş Ü and the Kelvin sign become kept letters; every kept character stays as it is |
| Letters.IsKept | utils/numerology.ts:24 | the character class `[a-zçğıöşü]` that the normalisation keeps (a definition; `KeptAreLetters` states its relation to the letter table) |
| Letters.ValueOf | utils/numerology.ts:4-14 | a character's value is at most 9, and 0 exactly when the character is not in the letter table (`letterValues[char] \|\| 0`) |
| Letters.KeptAreLetters | utils/numerology.ts:4-24 | the characters the normalisation filter keeps are exactly the keys of the letter table |
| Letters.LettersHaveDigitValues | utils/numerology.ts:4-14 | every value in the letter table lies in 1..9 |
| Letters.Normalize | utils/numerology.ts:23-25 | the normalised name is no longer than the name and holds only characters of `[a-zçğıöşü]` |
| Letters.NormalizeEmpty | utils/numerology.ts:23-25 | the normalised name is empty exactly when no character of the name lower-cases to a kept character |
| Letters.NormalizeAppend | utils/numerology.ts:23-25 | normalisation distributes over concatenation: it treats each character on its own |
| Letters.NormalizeOne | utils/numerology.ts:24 | a single character survives, lower-cased, exactly when its lower case is in `[a-zçğıöşü]` |
| Letters.NormalizedHasValues | utils/numerology.ts:4-25 | every character of a normalised name has a letter value in 1..9 |
| Letters.NormalizeIdempotent | utils/numerology.ts:23-25 | normalising a normalised name changes nothing |
| Letters.NormalizeIgnoresCase | utils/numerology.ts:24 | two names that agree character by character after lower-casing normalise to the same string |
| Letters.CapitalIsAlike | utils/numerology.ts:13-24 | `I` lower-cases to `i`; `İ` lower-cases to `i` followed by a combining dot (U+0307) that the filter drops, so the model maps it to `i`; and `i` and `ı` are both vowels of value 9, so the Turkish and the default lower-casing of `I` give the same numbers |
| Letters.NormalizeExample | utils/numerology.ts:23-25 | "ELİF" normalises to "elif" |
| Reduction.DigitSum | utils/numerology.ts:39-43 | the digit sum of a single digit is the digit itself; above 9 it is positive and strictly smaller than the number, which makes the recursion terminate; it is 0 only for 0 |
| Reduction.IsMasterNumber | utils/numerology.ts:27 | `MASTER_NUMBERS.includes(n)` as used at lines 36 and 45: n is one of 11, 22, 33 (a definition) |
| Reduction.DigitSumResidue | utils/numerology.ts:39-43 | the digit sum is congruent to the number modulo 9 |
| Reduction.Reduce | utils/numerology.ts:35-50 | the result is 0 exactly for input 0; with `final` it is at most 9; in every case it is a digit or one of 11, 22, 33 |
| Reduction.ReduceDigitSum | utils/numerology.ts:39-49 | the part of the reduction after the Master-Number check: the digit sum, reduced again unless it is at most 9 or (without `final`) a Master Number; the same three guarantees as the whole reduction |
| Reduction.ReduceResidue | utils/numerology.ts:35-50 | reduction, final or not, keeps the residue modulo 9 |
| Reduction.FinalIsDigitalRoot | utils/numerology.ts:39-50 | for n >= 1 the final reduction lies in 1..9, is never a Master Number and equals the digital root 1 + (n - 1) mod 9 |
| Reduction.DigitOfResidue | utils/numerology.ts:39-50 | the digit 1..9 congruent to n >= 1 modulo 9 is 1 + (n - 1) mod 9, the value the finalized reduction is shown to take |
| Reduction.SingleDigitFixed | utils/numerology.ts:39-49 | every digit 0..9 is its own reduction, final or not |
| Reduction.FinalIdempotent | utils/numerology.ts:35-50 | reducing a final reduction again changes nothing |
| Reduction.MasterKept | utils/numerology.ts:36-38 | without `final`, 11, 22 and 33 are returned unchanged |
| Reduction.MasterCollapsed | utils/numerology.ts:39-47 | with `final`, 11, 22 and 33 become 2, 4 and 6 |
| Reduction.NonFinalStep | utils/numerology.ts:39-47 | for a number that is not a Master Number, the non-final reduction equals that of its digit sum, and when the digit sum is 11, 22 or 33 the reduction stops there |
| Reduction.FinalStep | utils/numerology.ts:39-47 | the final reduction of every number equals that of its digit sum |
| Reduction.IntermediateMasterStops | utils/numerology.ts:45-47 | instances of that rule: 29 gives 11 without `final` and 2 with it, and 1990 gives 1 |
| Reduction.FinalDeterminedByResidue | utils/numerology.ts:39-50 | two numbers that are congruent modulo 9 and both zero or both non-zero have the same final reduction |
| Reduction.PartialThenFinal | utils/numerology.ts:35-50 | finalizing a non-final reduction gives the final reduction; the two agree unless the non-final one is a Master Number m, and then the final one is m / 11 * 2 |
| Reduction.ReducedSum | utils/numerology.ts:35-50 | reducing two parts and adding them agrees modulo 9 with reducing their sum, and both have the same final reduction |
| Reduction.ReducedPartsResidue | utils/numerology.ts:35-50 | the sum of two non-final reductions is congruent to the plain sum modulo 9, and is 0 only when the plain sum is |
| Reduction.ReducedParts | utils/numerology.ts:119-128 | reducing three components, adding them and reducing the sum keeps the residue of the plain sum modulo 9, and gives 0 only when the plain sum is 0 |
| NameNumbers.Total | utils/numerology.ts:60-70 | the running `total`: the sum of `letterValues[char] \|\| 0` over the characters that pass the filter (a definition; `CalculateNameNumber` proves its loop equal to it) |
| NameNumbers.Matches | utils/numerology.ts:63-67 | the filter condition: every character for 'all', the vowels for 'vowels', the non-vowels for 'consonants' (a definition) |
| NameNumbers.TotalBound | utils/numerology.ts:60-70 | each character adds at most 9, so the total is at most nine times the length |
| NameNumbers.TotalZeroIffNoneMatch | utils/numerology.ts:58-70 | on letters, the filtered total is 0 exactly when no letter passes the filter |
| NameNumbers.VowelsPlusConsonants | utils/numerology.ts:61-70 | the vowel total plus the consonant total is the total of all letters |
| NameNumbers.TotalStep | utils/numerology.ts:61-70 | one more character adds its letter value to the running total exactly when it passes the filter |
| NameNumbers.NameTotalZero | utils/numerology.ts:58-72 | the reduced total of a normalised name is 0 exactly when none of its letters passes the filter |
| NameNumbers.CalculateNameNumber | utils/numerology.ts:58-72 | the loop's total is the filtered letter total of the normalised name; the result is its non-final reduction, so it is a digit or a Master Number, and it is 0 exactly when no letter passes the filter |
| NameNumbers.GetDestinyNumber | utils/numerology.ts:80 | the Destiny number reduces the total of all letters without `final`, and is 0 exactly when the normalised name is empty, that is when no character of the name lower-cases to a kept letter |
| NameNumbers.GetSoulUrgeNumber | utils/numerology.ts:87 | the Soul Urge number reduces the vowel total without `final`, and is 0 exactly for a name without vowels |
| NameNumbers.GetPersonalityNumber | utils/numerology.ts:94 | the Personality number reduces the consonant total without `final`, and is 0 exactly for a name whose letters are all vowels |
| NameNumbers.DestinyFromParts | utils/numerology.ts:58-94 | Destiny is congruent to Soul Urge plus Personality modulo 9, and finalizing Destiny gives the final reduction of that sum |
| NameNumbers.CaseInsensitiveExample | utils/numerology.ts:58-72 | "ELİF" and "elif" give the same name numbers under every filter |
| CharacterChart.Key | utils/numerology.ts:107 | `value.toString()` of a value 1..9 is the one-digit key of that value, one of "1".."9" |
| CharacterChart.CountsAddUpToLength | utils/numerology.ts:101-111 | on letters, the nine value counts add up to the length of the string |
| CharacterChart.WeightedCountsGiveTotal | utils/numerology.ts:101-111 | the counts, each weighted by its value, add up to the all-letters total behind the Destiny number |
| CharacterChart.EmptyChartCountsNothing | utils/numerology.ts:102 | the nine zero bins are the chart of the empty name |
| CharacterChart.CountingStep | utils/numerology.ts:104-108 | incrementing the bin of a character's value, when it has one, turns the chart of a string into the chart of that string followed by the character |
| CharacterChart.ChartSumOfCounts | utils/numerology.ts:101-111 | a chart whose bins count the letters of a string adds up to its length |
| CharacterChart.WeightedSumOfCounts | utils/numerology.ts:101-111 | weighted by value, such a chart adds up to the string's all-letters total |
| CharacterChart.ChartOfName | utils/numerology.ts:101-111 | a chart counting the letters of the normalised name has the keys "1".."9", the per-value counts, the length as its sum and the all-letters total as its weighted sum |
| CharacterChart.GetCharacterChart | utils/numerology.ts:101-111 | the chart has exactly the keys "1".."9"; bin v counts the letters of value v in the normalised name; the bins add up to its length; weighted by value they add up to its all-letters total |
| DateNumbers.Split | utils/numerology.ts:137 | `split` with one separator gives at least one part, and no part contains the separator |
| DateNumbers.JoinSplit | utils/numerology.ts:137 | joining the parts of a split with the separator gives back the string |
| DateNumbers.SplitAfterPiece | utils/numerology.ts:137 | splitting a string that starts with a separator-free piece glues that piece onto the first part of the rest's split |
| DateNumbers.JoinThree | utils/numerology.ts:199 | joining three pieces puts the separator between them |
| DateNumbers.SplitJoin | utils/numerology.ts:198 | splitting a join of separator-free parts gives back the parts |
| DateNumbers.ParseNumber | utils/numerology.ts:137-138 | `Number(part)` is a number exactly when the part consists of ASCII digits (the empty part counts) |
| DateNumbers.DecimalValue | utils/numerology.ts:137 | the value `Number(part)` gives a string of ASCII digits: its decimal value, with the empty string as 0 (a definition) |
| DateNumbers.ParseDob | utils/numerology.ts:137-140 | a date of birth is accepted exactly when it splits on '.' into three parts that are all numeric |
| DateNumbers.LifePathNumber | utils/numerology.ts:136-146 | 0 for a rejected date; otherwise the Life Path of the parsed parts: a digit or Master Number congruent to day + month + year modulo 9, and 0 only when all three are 0 |
| DateNumbers.LifePathOf | utils/numerology.ts:141-145 | reducing day, month and year without `final`, adding and reducing again gives a digit or Master Number congruent to their plain sum modulo 9, 0 only when all three are 0; when the reduced parts add up to a Master Number, that number is the Life Path, not collapsed |
| DateNumbers.LifePathFinalized | utils/numerology.ts:136-146 | finalizing a Life Path number gives the final reduction of day + month + year |
| DateNumbers.LifePathOfFinalized | utils/numerology.ts:141-145 | finalizing the Life Path computed from day, month and year gives the final reduction of their plain sum |
| DateNumbers.ParseDobExample | utils/numerology.ts:137-141 | "15.06.1990" is accepted as day 15, month 6, year 1990 |
| DateNumbers.LifePathExample | utils/numerology.ts:136-146 | the Life Path of "15.06.1990" is 4 |
| DateNumbers.ParseDobMasterExample | utils/numerology.ts:137-141 | "01.08.2000" is accepted as day 1, month 8, year 2000 |
| DateNumbers.LifePathMasterExample | utils/numerology.ts:136-146 | the Life Path of "01.08.2000" is the Master Number 11 |
| DateNumbers.LifePathOfMasterExample | utils/numerology.ts:36-38 | day 1, month 8 and year 2000 reduce to 1, 8 and 2; their sum 11 stays 11, where finalizing would give 2 |
| DateNumbers.LifePathOfIntermediateMaster | utils/numerology.ts:141-145 | day 11, month 11, year 7: the reduced parts add up to 29, whose digit sum 11 is the Life Path |
| DateNumbers.LifePathOfExample | utils/numerology.ts:141-145 | day 15, month 6 and year 1990 reduce to 6, 6 and 1, whose sum 13 reduces to 4 |
| DateNumbers.UniversalDayNumber | utils/numerology.ts:119-129 | the Universal Day is at most 9, congruent to day + month + year modulo 9, and 0 only when all three are 0 |
| DateNumbers.UniversalDayRange | utils/numerology.ts:119-129 | for a date with a positive component the Universal Day lies in 1..9, is never a Master Number and equals the final reduction of day + month + year |
| DateNumbers.UniversalDayExample | utils/numerology.ts:119-129 | 8 August 2024 has Universal Day 6 |
| DateNumbers.PersonalYearNumber | utils/numerology.ts:154-174 | a rejected date gives `{0, []}`; an accepted one gives the Personal Year of its day and month |
| DateNumbers.PersonalYearOf | utils/numerology.ts:159-173 | the breakdown has exactly three entries, in the order birth day, birth month, target year, each the final reduction of its number; the Personal Year is at most 9, congruent to day + month + target year modulo 9, and 0 only when all three are 0 |
| DateNumbers.PersonalYearIgnoresBirthYear | utils/numerology.ts:159 | two dates of birth with the same day and month give the same Personal Year and breakdown, whatever their years |
| DateNumbers.ParseDobFirstJanuaryExample | utils/numerology.ts:155-158 | "01.01.2000" is accepted as day 1, month 1, year 2000 |
| DateNumbers.PersonalYearOfExample | utils/numerology.ts:159-173 | day 1, month 1 and target year 2024 give Personal Year 1 with breakdown 1, 1, 8 |
| DateNumbers.PersonalYearExample | utils/numerology.ts:154-174 | "01.01.2000" in 2024 gives Personal Year 1 with breakdown 1, 1, 8 |
| DateNumbers.PersonalDayNumber | utils/numerology.ts:183-186 | the Personal Day is at most 9, congruent to Life Path + day + month + year modulo 9, and 0 only when all of them are 0 |
| DateNumbers.PersonalDayOfMaster | utils/numerology.ts:183-186 | a Master Life Path gives the same Personal Day as its collapsed digit |
| DateNumbers.PersonalDayByResidue | utils/numerology.ts:183-186 | two positive Life Path numbers congruent modulo 9 give the same Personal Day on every date |
| DateNumbers.FinalOfShifted | utils/numerology.ts:185 | adding the same amount to two positive numbers congruent modulo 9 gives equal final reductions |
| DateNumbers.IsIsoDate | utils/numerology.ts:195 | the test of `/^\d{4}-\d{2}-\d{2}$/`: ten characters, ASCII digits around '-' at positions 4 and 7 (a definition) |
| DateNumbers.IsoDateParts | utils/numerology.ts:198 | a string matching `^\d{4}-\d{2}-\d{2}$` splits on '-' into its year, month and day |
| DateNumbers.FormatDateForApi | utils/numerology.ts:194-200 | the empty string unless the input matches `^\d{4}-\d{2}-\d{2}$`; otherwise the day, month and year pieces joined by '.' |
| DateNumbers.DottedOfIso | utils/numerology.ts:194-200 | the reshaped form of a matching input is its day, month and year joined with '.', ten characters long, and reshapes back to the input |
| DateNumbers.IsoPiecesAreDigits | utils/numerology.ts:195 | the year, month and day pieces of a matching input are digit strings |
| DateNumbers.ParseJoined | utils/numerology.ts:137-141 | three digit strings joined with '.' pass the Life Path check with their values as day, month and year |
| DateNumbers.FormatThenParse | utils/numerology.ts:194-200 | a non-empty result comes from a matching input; reshaping it back gives that input; the Life Path check accepts it with the input's day, month and year |
| DateNumbers.FormatExample | utils/numerology.ts:194-200 | "1990-06-15" becomes "15.06.1990" |
| DateNumbers.FormatRejectsExample | utils/numerology.ts:195-197 | "1990-6-15", with a one-digit month, is rejected with the empty string |
| NumerologyData.InterpretationKeysAreReductions | services/numerologyData.ts:6-19 | the interpretation keys are exactly the positive digits and Master Numbers, so every positive non-final reduction has an interpretation |
| NumerologyData.Distance | services/numerologyData.ts:42 | `Math.abs` of a difference: adding it to the smaller number gives the larger |
| NumerologyData.SameParity | services/numerologyData.ts:45 | `num1 % 2 === num2 % 2` on the raw inputs (a definition) |
| NumerologyData.CompatibilityScore | services/numerologyData.ts:42-46 | the score as one formula in the distance of the final reductions; it lies in 30..100 and is a multiple of 10 |
| NumerologyData.GetLoveCompatibility | services/numerologyData.ts:41-49 | the score after the floor, the parity bonus and the cap is the closed-form score, lies in 30..100 and is a multiple of 10 |
| NumerologyData.CompatibilitySymmetric | services/numerologyData.ts:42-45 | swapping the two numbers leaves the score unchanged |
| NumerologyData.CompatibilityByDistance | services/numerologyData.ts:42-46 | by the distance d of the final reductions: with equal parity 100 for d <= 1, 110 - 10d up to d = 7 and 40 beyond; without it 100 - 10d up to d = 7 and 30 beyond |
| NumerologyData.PerfectScore | services/numerologyData.ts:42-46 | the score is 100 exactly when the final reductions are equal, or differ by one and the raw inputs have equal parity |
| NumerologyData.CompatibilityExamples | services/numerologyData.ts:42-46 | (2, 4) scores 90; (11, 4) scores 80 although 11 reduces to 2, because parity is taken on the raw inputs; (4, 6) scores 90 |
| NumerologyData.BuildPersonalReportPoints | services/numerologyData.ts:27-38 | the report table has entries for exactly the interpretation keys 1..9, 11, 22, 33, each with four points |
| NumerologyData.BuildPersonalYearInterpretations | services/numerologyData.ts:64-75 | the personal-year table has entries for exactly the keys 1..9, each with four points |
| NumerologyData.BuildCareerInterpretations | services/numerologyData.ts:78-97 | the career table has entries for exactly the interpretation keys, each with four points and one pitfall |
| NumerologyData.InsightKeys | services/numerologyData.ts:99-115 | the keys of `interactionInsights`: destiny 1, 4, 9; soul urge 2, 5, 7; personality 3, 6, 8; three digits per type |
| NumerologyData.SelectInteraction | services/numerologyData.ts:117-123 | the entry looked up is the one under the final reduction of the number: an insight is chosen exactly when that reduction is a key of the type's insights, and then its key is that reduction |
| NumerologyData.SelectionIsDigitalRoot | services/numerologyData.ts:117-123 | for a positive number the chosen entry is the one under its digital root 1 + (num - 1) mod 9, or the fallback when the type has none there |
| NumerologyData.SelectionIgnoresReduction | services/numerologyData.ts:118-119 | a number and its final reduction choose the same entry |
| NumerologyData.MasterSelectsDigit | services/numerologyData.ts:99-123 | destiny 22 chooses the entry of 4, soul urge 11 the entry of 2, personality 33 the entry of 6, and destiny 11 falls back |
| NumerologyData.SelectionByResidue | services/numerologyData.ts:118-119 | positive numbers that are congruent modulo 9 choose the same entry |
| NumerologyData.ExactlyOneInsight | services/numerologyData.ts:99-115 | a positive number finds an insight under exactly one of the three types; 0 falls back under all three |

## Left out

- Narrative content is left out: interpretation titles and descriptions, point titles and descriptions, pitfall texts, the compatibility title and points, and the interaction sentences. Table entries are modelled by the icons of their points, and interaction texts by the key they are chosen by (`Insight(key)` or `Fallback`).
- `getCompatibilityImpact` and the other string templates are left out: they hold no logic.
- Dates: `Date` objects and the current date are replaced by integer day, month and year components. There is no calendar validation, as in the source.
- ParseNumber: models `Number()` only on strings of ASCII digits, with the empty string as 0. JavaScript also accepts surrounding whitespace, a sign, and any other numeric literal form (hexadecimal, binary, octal, exponent notation, `Infinity`). Such dates are rejected here, although the source would accept them.
- Reduce: takes natural numbers only. On negative, fractional or NaN input the source yields NaN, since `Number('-')` is NaN. That path is not modelled.
- Reduce: the digits of `num.toString()` are modelled for exact integers. The exponent notation JavaScript prints for numbers of 10^21 and beyond, and the loss of precision above 2^53, are not modelled.
- Letters.Lower: models `toLowerCase` only for A-Z, the Turkish capitals Ç Ğ İ Ö Ş Ü and the Kelvin sign. Other capitals lower-case to characters the filter drops either way, so they are left as they are.
- `Math.round` in the compatibility score is omitted: the score is always an integer, so rounding leaves it unchanged.
- Invalid input keeps the source's sentinel `0`. No separate error value is introduced, so the model returns what the code returns.
- The composition layer that pairs numbers with interpretations and the AI-generated text is not part of this model. Neither are storage, routing and the user interface.
