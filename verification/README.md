# Card-number check helpers of `api/luhn.js`

This project models the three helpers behind the `/api/luhn/check` route of a
small Express service:

- `luhnCheck` (module `Luhn`): the mod-10 "double-add-double" check-digit test of
  ISO/IEC 7812-1, Annex B (the Luhn formula). The string is first stripped of
  every character that is not an ASCII digit (module `Digits`). The digits are
  then walked from the right, doubling every second one and subtracting 9 from
  a doubled value over 9. The number passes when the sum is a multiple of 10.
  `LuhnCheck` is a method with the source's loop and its two accumulators
  (`sum`, `isEven`). It is proved against the recursive specification
  `LuhnSum`, which weights each digit by its distance from the right end.
- `getCardType` (module `CardType`): four anchored, all-digit patterns tried in
  the order visa, mastercard, amex, discover. Each regular expression is an
  explicit predicate built from the pieces of the pattern. The function works
  on the string as the route passes it, separators included.
  `CardType.Brand.Label` gives the lower-case labels it returns. The route's
  upper-cased brand is left out with the route.
- `getBinInfo` (module `BinInfo`): a fixed table keyed by the first character,
  with an "Unknown Bank" fallback.

The main proved properties are:
- Stripping comes first, so strings with the same digits get the same verdict.
- A string with no digits passes.
- Each digit contributes 0..9. A doubled digit contributes the digit sum of its
  double.
- Any single-digit substitution in a passing number makes it fail, with or
  without separators.
- The four brand patterns are mutually exclusive. Each brand implies its length
  and prefix and, for an all-digit string, the converse also holds.
- A separator makes the brand "unknown" while the checksum verdict stays
  unchanged.
- The issuer entry depends only on the first character and agrees with the
  brand.

Notes on the code as written:
- The Visa pattern `^4[0-9]{12}(?:[0-9]{3})?$` accepts 13 or 16 characters,
  not 14 or 15.
- `luhnCheck` places no minimum on the number of digits. A string without any
  digit sums to 0 and passes.
- The route passes `getCardType` the string it received, separators included.

## Model

| member | source | states |
|---|---|---|
| `Digits.DigitsOf` | api/luhn.js:10-11 | the result holds only digits and is no longer than the input. An all-digit input is returned unchanged, so stripping is idempotent |
| `Digits.DigitsOfMembers` | api/luhn.js:11 | a character survives stripping exactly when it occurs in the input and is a digit |
| `Digits.DigitsOfConcat` | api/luhn.js:11 | stripping a concatenation is the concatenation of the stripped parts |
| `Digits.DigitsOfIdempotent` | api/luhn.js:11 | stripping twice equals stripping once |
| `Digits.DigitsOfUpdate` | api/luhn.js:11 | replacing one digit character of a raw string replaces exactly one digit of its stripped form, at the index equal to the number of digits before it |
| `Digits.DigitValue` | api/luhn.js:14 | `parseInt` of a digit character is a value in 0..9, and it is 0 exactly for `'0'` |
| `Digits.DigitValueRoundTrip` | api/luhn.js:14 | the digit character is recovered as `'0'` plus its value, so distinct digit characters have distinct values |
| `Digits.UpdateKeepsAllDigits` | api/luhn.js:11 | writing a digit into an all-digit string leaves it all-digit |
| `Digits.DigitsOfDropNonDigit` | api/luhn.js:11 | removing one non-digit character from a string leaves its stripped form unchanged |
| `Luhn.IsDoubledPosition` | api/luhn.js:8-24 | the `isEven` flag as a function of the distance from the right end: false for the rightmost digit, flipped for each digit further left |
| `Luhn.Contribution` | api/luhn.js:16-21 | a digit adds 0..9 to the sum, and an undoubled digit adds itself |
| `Luhn.ContributionIsDigitSum` | api/luhn.js:17-20 | doubling and subtracting 9 when over 9 equals adding the two decimal digits of the double (the "double-add-double" rule) |
| `Luhn.ContributionInjective` | api/luhn.js:16-21 | for a fixed position kind, distinct digits give distinct contributions (the doubling map is a bijection on 0..9) |
| `Luhn.DoubledIffOdd` | api/luhn.js:8-24 | the `isEven` flag, false for the rightmost digit and flipped after each digit, marks exactly the digits at an odd distance from the right end |
| `Luhn.LuhnSum` | api/luhn.js:13-25 | the value `sum` reaches over an all-digit string: each digit's contribution, doubled or kept by its distance from the right end |
| `Luhn.LuhnValid` | api/luhn.js:11-27 | the returned verdict: the sum over the stripped digits is a multiple of 10 |
| `Luhn.LuhnSumBound` | api/luhn.js:13-25 | the weighted sum of n digits is at most 9n |
| `Luhn.LuhnSumStep` | api/luhn.js:13-25 | the sum over the digits from index i adds digit i's contribution, taken at i's distance from the right end, to the sum over the digits after it |
| `Luhn.WalkStep` | api/luhn.js:14-24 | one pass of the loop body: the value added to `sum` extends the sum over the digits already visited by the next digit's contribution, and the flipped `isEven` is the kind of the digit after it |
| `Luhn.LuhnCheck` | api/luhn.js:6-28 | the loop's result is true exactly when the sum over the stripped digits is a multiple of 10. The loop doubles the digit at distance d from the right exactly when d is odd |
| `Luhn.StripFirst` | api/luhn.js:11 | the verdict on a raw string equals the verdict on its digits, and two strings with the same digits get the same verdict |
| `Luhn.NoDigitsPasses` | api/luhn.js:7-27 | a string containing no digit passes |
| `Luhn.SubstitutionDelta` | api/luhn.js:13-25 | replacing the digit at index i changes the sum by the difference of the two digits' contributions. Both contributions are taken at i's distance from the right end |
| `Luhn.SingleDigitErrorDetected` | api/luhn.js:16-27 | replacing any one digit of a passing all-digit string by a different digit makes it fail |
| `Luhn.SingleDigitErrorDetectedRaw` | api/luhn.js:11-27 | the same for a raw string with separators: changing one of its digit characters to a different digit turns pass into fail |
| `CardType.Brand.Label` | api/luhn.js:32-42 | the five strings `getCardType` can return: the four pattern keys and `"unknown"` |
| `CardType.MatchesVisa` | api/luhn.js:33 | the anchored pattern `^4[0-9]{12}(?:[0-9]{3})?$` |
| `CardType.MatchesMastercard` | api/luhn.js:34 | the anchored pattern `^5[1-5][0-9]{14}$` |
| `CardType.MatchesAmex` | api/luhn.js:35 | the anchored pattern `^3[47][0-9]{13}$` |
| `CardType.MatchesDiscover` | api/luhn.js:36 | the anchored Discover pattern: a `6`, then `011` or a `5` and two digits, then twelve digits |
| `CardType.GetCardType` | api/luhn.js:31-43 | each brand implies its length and prefix: visa 13 or 16 with first `4`; mastercard 16 with `5` then `1`-`5`; amex 15 with `34` or `37`; discover 16 with `6011` or `65`. Any brand other than "unknown" implies an all-digit string |
| `CardType.DiscoverPrefix` | api/luhn.js:36 | a string matching the Discover pattern has 16 characters and starts with `6011` or `65` |
| `CardType.PatternsExclusive` | api/luhn.js:32-37 | at most one of the four patterns matches any string |
| `CardType.CardTypeIsTheMatchingPattern` | api/luhn.js:39-42 | each brand is returned exactly when its own pattern matches. "unknown" is returned exactly when no pattern matches |
| `CardType.BrandOfWellFormedNumber` | api/luhn.js:33-36 | conversely, every all-digit string with a brand's length and prefix is classified as that brand |
| `CardType.SeparatorGivesUnknown` | api/luhn.js:79-80 | a string containing any non-digit is classified "unknown", while removing that character leaves its checksum verdict unchanged |
| `BinInfo.GetBinInfo` | api/luhn.js:46-60 | leading `4`, `5`, `3`, `6` give the VISA, MasterCard, American Express and Discover entries. Any other first character, or an empty string, gives the Unknown Bank entry |
| `BinInfo.BinInfoDependsOnFirstCharOnly` | api/luhn.js:56-59 | two strings with the same first character (or both empty) get the same entry |
| `BinInfo.KnownBankIffLeadingThreeToSix` | api/luhn.js:49-59 | a known entry is returned exactly when the first character is `3` to `6` |
| `BinInfo.BinInfoAgreesWithCardType` | api/luhn.js:31-60 | whenever the brand is not "unknown", the issuer entry is that brand's entry |

## Left out

- The `/check` route handler (api/luhn.js:62-128) is not modelled. It covers request parsing, the 20-card cap, the split on `|`, the one-second artificial delay, the Live/Dead labelling and the JSON envelopes: this is I/O and asynchronous plumbing.
- `BinInfo.GetBinInfo` does not model the six-character `bin` substring the source computes (api/luhn.js:47). The source never reads it.
- The outbound lookup client of api/lookup.js is not modelled: its core is a network `fetch` to an external service. Besides that call it only splits the input on `|`, takes a six-character prefix, fills missing response fields with `'N/A'` or `'Yes'`/`'No'` defaults, and answers a request without `card` with a 400 error; none of this is modelled.
- index.js is not modelled: it is application wiring, middleware, static files and `listen`.
- api/basic.js and api/pro.js are not part of this model. No masking or number-derivation behaviour is modelled for them.
- JavaScript `parseInt` corner cases are not modelled. Every character it sees has already passed the digit filter, so it is modelled as the character's offset from `'0'`.
- Strings are sequences of Unicode scalar values, while JavaScript indexes UTF-16 code units. Stripping, the four patterns and the table key test only ASCII characters, so no result differs.
- The sum is an unbounded integer. The source's double-precision `sum` is exact for any realistic input length.
