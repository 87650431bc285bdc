# Scores and tales

A Dafny model of the small training functions of an API-testing project:

- `getScore` (`src/app.js`) adds up a dictionary from user name to score with
  an accumulator loop over the users. It is modelled as the method
  `App.GetScore`, a `while` loop over the not-yet-visited keys of a
  `map<string, int>`, proved equal to the ghost function `App.SumValues`.
  The commented-out `Object.values(scores).reduce((a, b) => a + b, 0)` form is
  modelled as a left fold (`App.Reduce`) over the values listed in any key
  order, and proved equal to the same total.
- `kolobok` and `newYear` (`src/tale.js`) are pure string functions. `kolobok`
  lower-cases a character name and maps the three characters of the tale to
  their phrases. Any other name throws an error whose message quotes the name
  as given. `newYear` repeats `"<name>! "` three times. They are modelled in
  module `Tale`, with the thrown error as the `Err` arm of `Results.Result`.
- `src/functions/tale.js` holds a second copy in which `kolobok` takes two
  more parameters that it never reads. Module `FunctionsTale` models it and
  proves that it agrees with `Tale` on every input.

Module `Text` holds the shared string operations: `toLowerCase` restricted to
Latin `A`–`Z` and Cyrillic U+0400–U+042F, and `String.prototype.repeat`.

## Model

| member | source | states |
|---|---|---|
| `Text.LowerChar` | src/tale.js:2 | a lowered character is never a capital; characters that are not capitals are kept; capitals are changed |
| `Text.LowerCharInjective` | src/tale.js:2 | two different capitals never lower to the same character |
| `Text.Lower` | src/tale.js:2 | `toLowerCase` keeps the length and lowers each character in place |
| `Text.LowerFixedIff` | src/tale.js:2 | lowering leaves a string unchanged exactly when it holds no capital |
| `Text.LowerIdempotent` | src/tale.js:2 | lowering a lowered name changes nothing |
| `Text.Repeat` | src/tale.js:14 | `s.repeat(n)` has length `n * |s|` |
| `Text.RepeatAdd` | src/tale.js:14 | repeating `a + b` times is repeating `a` times followed by `b` times |
| `Text.RepeatBlock` | src/tale.js:14 | block `k` of `s.repeat(n)` is `s`, for every `k < n` |
| `Tale.UnknownCharacter` | src/tale.js:10 | the error message is 27 characters longer than the name and quotes the name verbatim |
| `Tale.Phrases` | src/tale.js:3-8 | the three cases of the switch: lower-case name to phrase |
| `Tale.Kolobok` | src/tale.js:1-12 | succeeds iff the lower-cased name is one of the three characters, with that character's phrase from the table; otherwise fails with the message quoting the original name |
| `Tale.NewYear` | src/tale.js:14 | the result is `name + "! "` three times, of length `3 * (|name| + 2)` |
| `Tale.KolobokCaseInsensitive` | src/tale.js:2 | two names with the same lower-case form both succeed or both fail, and succeed with the same phrase |
| `Tale.KolobokOfLower` | src/tale.js:2 | `kolobok(n)` and `kolobok(n.toLowerCase())` both succeed or both fail, and succeed with the same phrase |
| `Tale.UnknownCharacterInjective` | src/tale.js:10 | different names give different error messages |
| `Tale.KolobokGrandfather` | src/tale.js:2-4 | `'Дедушка'` gets `'Я от дедушки ушёл'` |
| `Tale.KolobokHare` | src/tale.js:2-6 | `'ЗАЯЦ'` gets `'Я от зайца ушёл'` |
| `Tale.KolobokFox` | src/tale.js:2-8 | `'лиса'` gets `'Меня съели'` |
| `Tale.KolobokUnknown` | src/tale.js:9-10 | `'Колобок'` gets the error quoting it |
| `Tale.NewYearEmpty` | src/tale.js:14 | the empty name gives `"! ! ! "` |
| `Tale.NewYearInjective` | src/tale.js:14 | different names give different greetings |
| `FunctionsTale.Kolobok` | src/functions/tale.js:2-13 | the same table-driven contract as the one-argument copy, with the two extra parameters |
| `FunctionsTale.NewYear` | src/functions/tale.js:16 | the result is `name + "! "` three times, of length `3 * (|name| + 2)` |
| `FunctionsTale.KolobokIgnoresExtraNames` | src/functions/tale.js:2-12 | the outcome does not depend on `secondName` or `thirdName` |
| `FunctionsTale.KolobokAgreesWithTale` | src/functions/tale.js:2-13 | the three-argument `kolobok` equals the one-argument one on every input, errors included |
| `FunctionsTale.NewYearAgreesWithTale` | src/functions/tale.js:16 | both copies of `newYear` are equal on every input |
| `FunctionsTale.KolobokOfLower` | src/functions/tale.js:3 | the three-argument `kolobok` is case-insensitive in its first argument |
| `App.SumValues` | src/app.js:1 | the reference total: the sum of the scores of all users |
| `App.SumValuesRemove` | src/app.js:9-11 | the total is any one user's score plus the total of the others, whichever user is taken |
| `App.SumValuesAddFresh` | src/app.js:9-11 | adding a user not yet in the dictionary raises the total by exactly that user's score |
| `App.SumValuesNonNegative` | src/app.js:1-3 | an extra fact about the total, not a promise of the source: non-negative scores give a non-negative total |
| `App.SumValuesBounds` | src/app.js:1-3 | an extra fact about the total, not a promise of the source: with non-negative scores no single score exceeds the total |
| `App.ValuesInOrder` | src/app.js:16 | `Object.values` listed in a key order has one entry per key, the score of that key |
| `App.Reduce` | src/app.js:16 | `reduce((a, b) => a + b, acc)` as a left fold `((acc + v0) + v1) + ...` |
| `App.ReduceShift` | src/app.js:16 | the starting accumulator of `reduce((a, b) => a + b, acc)` adds to the result |
| `App.ReduceEqualsSumValues` | src/app.js:16 | the `reduce` formulation equals the total for every order in which the keys are listed once each |
| `App.GetScore` | src/app.js:7-13 | the loop returns exactly the sum of all values, whatever order the users are visited in, and 0 for an empty dictionary |
| `App.GetScoreExample` | src/app.js:4 | `{Anna: 10, Olga: 1, Ivan: 5}` totals 16 |

## Left out

- `Text.LowerChar`: models `toLowerCase` only for Latin `A`–`Z` and Cyrillic U+0400–U+042F; other scripts and the special cases of full Unicode lower-casing (final sigma, dotted `İ`) are not modelled, as none of the tale's names needs them.
- `Text.Lower`: lowers one character at a time and always keeps the length, whereas JavaScript's `toLowerCase` turns U+0130 (`İ`) into two code units and lowers capital sigma to `ς` or `σ` depending on the letters around it.
- `App.GetScore`: scores are unbounded integers; JavaScript `number` arithmetic (floating point, rounding, `NaN`, `Infinity`) and non-numeric values (where `+=` would concatenate strings) are not modelled.
- `App.GetScore`: `for ... in` also visits inherited enumerable properties; the model visits only the dictionary's own keys.
- `App.GetScore`: the dictionary is a map value, so "the input is unchanged" holds by construction rather than as a proved frame property.
- `Tale.Kolobok`, `Tale.NewYear`, `FunctionsTale.Kolobok`, `FunctionsTale.NewYear`: only string arguments are modelled. On a non-string, `kolobok` throws a `TypeError` from `toLowerCase` rather than the unknown-character error, and `newYear` turns any value into text through the template literal (`undefined` gives `"undefined! undefined! undefined! "`); neither case can be expressed here. Strings are sequences of Unicode scalar values, not UTF-16 code units, so the lengths in the `NewYear` and `UnknownCharacter` contracts count code points rather than `.length`, and lone surrogates cannot be represented.
- Thrown JavaScript errors are modelled as the `Err` arm of a result value; the `Error` object itself, its stack and its type are not.
- The HTTP client wrappers, JSON-schema validation, random fixture data, the Jest test suites and the Jest configuration are not part of this model: they are calls into libraries and a remote service with no logic of their own to verify.
