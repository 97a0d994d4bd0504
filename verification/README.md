# Password strength scoring, modelled in Dafny

This project models the password strength analyzer's scoring pipeline and proves properties of it. A password is first checked against five weighted character-class rules: lowercase 26, uppercase 26, special character 33, digit 10, and length of at least 8 characters 1. The weights of the rules that pass are added up as the password's *points*. The entropy estimate is the number of distinct characters times `log2(points)`. A clamped step function maps the entropy to an integer *score* in `[0, maxScore]`. Finally a *mode* (`strict`, `regex` or `score`) turns the rule outcomes and the score into a verdict.

Modules, one per part of the pipeline:

- `Log2` (`log2.dfy`): the host's `Math.log2` is not visible to the model. It becomes a parameter `lg: nat -> real` that must satisfy `IsLog2`. That predicate says `lg(2) = 1`, `lg(a·b) = lg(a) + lg(b)`, and `lg` is strictly increasing on the positive integers. The numeric bounds the worked examples need are proved from these laws through integer powers. For example, 3⁴ > 2⁶ and 3⁵ < 2⁸ together give 6.5 < lg(96) < 6.6.
- `Rules` (`rules.dfy`): patterns, rules and `validatePasswordRules`. A regular expression is modelled by what it matches. A bracket class `[...]` is a sequence of character ranges. `.{n,}` is a run of `n` consecutive characters, none of them a line terminator (`\n`, `\r`, U+2028, U+2029).
- `Scoring` (`scoring.dfy`): `calculateEntropy` and `calculatePasswordScore`.
- `Strength` (`strength.dfy`): `validatePasswordStrength`. This covers default options, message merging, normalisation of the settings, the canonical rule list and the mode verdict.
- `Examples` (`examples.dfy`): the source's test cases, proved for every `lg` that satisfies `IsLog2`.
- `Wrappers` (`wrappers.dfy`): `Option`, used for JavaScript properties that may be undefined.

Points where the code's behaviour differs from what its rule messages and option names suggest. The model follows the code:

- The length rule is `/.{8,}/`, which is not "length ≥ 8". A line terminator breaks a run, so `"abcd\nefgh"` fails the rule (`RunOfAcrossTerminator`). On passwords without line terminators the two readings agree (`RunOfMatchesLength`).
- `maxScore` is never validated by the code. The model requires `maxScore >= 2`.
- In `score` mode the empty password is valid when the capped `minRequiredScore` is 0 or less (`EmptyPassword`).
- Only `"strict"` and `"regex"` are compared explicitly. Every other mode value falls through to the score verdict.

One test in `passwordStrengthUtils.test.ts:71-77` is named "returns 1 when entropy is just above 0". It actually checks entropy 80 against `minBestEntropy` 80, which scores `maxScore`. `ScoreExamples` proves what the test checks.

## Model

| member | source | states |
|---|---|---|
| Rules.Test | src/utils/passwordStrengthUtils.ts:17 | `regex.test(password)` for the two shapes of expression at src/validatePasswordStrength.ts:21-25. A match needs at least one character for a bracket class and at least `n` characters for `.{n,}`. |
| Rules.TestUnanchored | src/utils/passwordStrengthUtils.ts:17 | The expressions are unanchored. A password that matches still matches with any text added before or after it. |
| Rules.EvaluateRules | src/utils/passwordStrengthUtils.ts:14-27 | The result has the same length and order as the input. Each entry keeps its pattern, weight and message. Each entry's `passed` flag equals its pattern tested on the password. The points are the sum of the weights of the entries that passed. |
| Rules.EvaluationPointsBound | src/utils/passwordStrengthUtils.ts:15-19 | The points never exceed the sum of all weights. With positive weights they equal that sum if and only if every rule matches. |
| Rules.EvaluationIgnoresPriorFlags | src/utils/passwordStrengthUtils.ts:17-22 | Flags a rule list carries in are overwritten: two lists that differ only in their flags evaluate identically. |
| Rules.EvaluationIdempotent | src/utils/passwordStrengthUtils.ts:16-24 | Evaluating the already-evaluated list again with the same password changes nothing. |
| Rules.EvaluationIgnoresMessages | src/utils/passwordStrengthUtils.ts:16-24 | Lists with the same patterns and weights get the same flags and the same points, whatever their messages. |
| Rules.EvaluationOfConcat | src/utils/passwordStrengthUtils.ts:16-24 | No rule short-circuits another. Evaluating `a + b` gives a's results followed by b's, and the two point totals add up. |
| Rules.EvaluationPointsIgnoreOrder | src/utils/passwordStrengthUtils.ts:15-19 | Any rearrangement of the same rules, that is any list with the same multiset of rules, collects the same points. |
| Rules.EmptyPasswordMatches | src/validatePasswordStrength.ts:21-25 | The empty password matches no bracket class. It matches `.{n,}` only when `n` is 0. |
| Rules.RunOfMatchesLength | src/validatePasswordStrength.ts:25 | On a password without line terminators, `.{n,}` matches if and only if the password has at least `n` characters. |
| Rules.RunOfAcrossTerminator | src/validatePasswordStrength.ts:25 | A line terminator splits the password. `.{n,}` matches the whole if and only if it matches the part before or the part after. |
| Scoring.CharSet | src/utils/passwordStrengthUtils.ts:5 | `new Set(password)`: a character is in the set if and only if it occurs in the password. |
| Scoring.Entropy | src/utils/passwordStrengthUtils.ts:3-7 | Zero points or an empty password give exactly 0. |
| Scoring.DistinctCountBounds | src/utils/passwordStrengthUtils.ts:5 | The distinct-character count is at most the password length. It is at least 1 for a non-empty password. |
| Scoring.DistinctCountOfNoRepeats | src/utils/passwordStrengthUtils.ts:5 | A password with no repeated character has as many distinct characters as characters. |
| Scoring.EntropyDependsOnlyOnCharSet | src/utils/passwordStrengthUtils.ts:5-6 | Two passwords with the same set of characters have the same entropy for the same points. |
| Scoring.EntropyIgnoresOrder | src/utils/passwordStrengthUtils.ts:5-6 | Rearranging a password's characters leaves its entropy unchanged. |
| Scoring.EntropyIgnoresRepetition | src/utils/passwordStrengthUtils.ts:5-6 | `s + s` has the entropy of `s`. |
| Scoring.EntropySign | src/utils/passwordStrengthUtils.ts:4-6 | Entropy is never negative. It is positive if and only if the password is non-empty and has at least 2 points. |
| Scoring.EntropyAtMostLengthTimesLog | src/utils/passwordStrengthUtils.ts:5-6 | With at least 1 point, entropy is at most the password length times `log2(points)`. |
| Scoring.EntropyMonotoneInPoints | src/utils/passwordStrengthUtils.ts:4-6 | For a fixed password, more points never give less entropy. |
| Scoring.Score | src/utils/passwordStrengthUtils.ts:9-12 | The score never exceeds `maxScore`. It is 0 at zero entropy, at least 1 for positive entropy, and at most 0 for negative entropy. |
| Scoring.ScoreReaches | src/utils/passwordStrengthUtils.ts:10-11 | For `1 <= s <= maxScore`: the score reaches `s` if and only if the entropy is non-zero and at least `s - 1` steps of `minBestEntropy / (maxScore - 1)`. |
| Scoring.ScoreBand | src/utils/passwordStrengthUtils.ts:10-11 | For `1 <= s < maxScore`: the score is exactly `s` if and only if the entropy is non-zero and lies in `[(s-1)·step, s·step)`. |
| Scoring.ScoreAtCeiling | src/utils/passwordStrengthUtils.ts:11 | Any entropy at or above `minBestEntropy` scores exactly `maxScore`. |
| Scoring.ScoreRange | src/utils/passwordStrengthUtils.ts:10-11 | A non-negative entropy scores in `[0, maxScore]`. The score is 0 if and only if the entropy is 0. |
| Scoring.ScoreMonotone | src/utils/passwordStrengthUtils.ts:10-11 | For fixed settings, the score is non-decreasing in the entropy over all reals. |
| Strength.MergeMessages | src/validatePasswordStrength.ts:16 | Each of the five texts is the caller's override when one is given and the default otherwise. Without `configMessages` the defaults are used. |
| Strength.Normalize | src/validatePasswordStrength.ts:14-18 | Absent options take the defaults 5, 80, 3 and strict. `minRequiredScore` becomes the smaller of the requested value and `maxScore`. `minBestEntropy` becomes the larger of the requested value and 20. |
| Strength.NormalizeIdempotent | src/validatePasswordStrength.ts:17-18 | Normalising a normalised configuration again leaves it unchanged. |
| Strength.NormalizeKeepsSettledValues | src/validatePasswordStrength.ts:17-18 | Settings already within the bounds are kept exactly as given. |
| Strength.Literals | src/validatePasswordStrength.ts:23 | A class built from a string of literal characters matches exactly the characters in that string. |
| Strength.CanonicalRules | src/validatePasswordStrength.ts:20-26 | There are five rules with positive weights summing to 96, none of them marked passed. |
| Strength.Verdict | src/validatePasswordStrength.ts:35-41 | Valid if and only if the score reaches `minRequiredScore` unless the mode is regex, and all 96 points are collected unless the mode is score. |
| Strength.ValidatePasswordStrength | src/validatePasswordStrength.ts:12-44 | The password is returned unchanged. The five rules come back in canonical order with their weights and merged messages, each flagged by its own test. The entropy is that of the canonical points, whatever the messages. The score is the score of that entropy under the normalised settings, at most `maxScore`, and 0 when the entropy is 0. The verdict is `Verdict` of the normalised mode. The empty password has entropy 0. |
| Strength.CanonicalPointsOfAnyMessages | src/validatePasswordStrength.ts:16-30 | The canonical point total does not depend on the messages. |
| Strength.PointsAre96IffAllPass | src/validatePasswordStrength.ts:20-38 | The canonical points are at most 96. The hard-coded `points === 96` holds if and only if all five canonical rules match. |
| Strength.CanonicalPointsSum | src/validatePasswordStrength.ts:20-30 | The canonical points are 26, 26, 33, 10 and 1 added for each rule the password passes. |
| Strength.CharacterClasses | src/validatePasswordStrength.ts:21-24 | Each bracket class matches if and only if some character of the password lies in `a-z`, `A-Z`, `0-9` or the special-character list. |
| Strength.SpecialCharactersAreSymbols | src/validatePasswordStrength.ts:23 | The special class lists 33 characters, matching its weight, and contains no letter or digit. |
| Strength.RuleMessages | src/validatePasswordStrength.ts:16-25 | Each returned rule's message is the caller's override for that rule if one is given, otherwise the default text. |
| Strength.MessagesDoNotAffectVerdict | src/validatePasswordStrength.ts:16-43 | Options that differ only in `configMessages` give the same entropy, score, verdict, password and rule outcomes. |
| Strength.StrictIsRegexAndScore | src/validatePasswordStrength.ts:35-41 | The strict verdict holds if and only if both the regex verdict and the score verdict hold, so a strict-valid password is valid in the other two modes. |
| Strength.RegexModeVerdict | src/validatePasswordStrength.ts:37-38 | In regex mode the password is valid if and only if all five rules pass. This does not depend on the score, the score settings or `log2`. |
| Strength.ScoreModeVerdict | src/validatePasswordStrength.ts:39-40 | In score mode the password is valid if and only if the score reaches the capped `minRequiredScore`. |
| Strength.HighEntropyIsValid | src/validatePasswordStrength.ts:17-40 | An entropy at or above the normalised `minBestEntropy`, the larger of the requested value and 20, scores `maxScore`. It is valid in score mode. In strict mode it is valid if and only if all rules pass. |
| Strength.ResponseScoreRange | src/validatePasswordStrength.ts:32-33 | The returned entropy is non-negative. The score lies in `[0, maxScore]` and is 0 if and only if the entropy is 0. |
| Strength.EmptyPassword | src/validatePasswordStrength.ts:20-41 | The empty password fails every rule and has entropy 0 and score 0. It is valid only in score mode with a capped `minRequiredScore` of 0 or less. |
| Examples.ZaqTwoWsxFacts | src/__tests__/passwordStrengthUtils.test.ts:98-113 | `"ZAQ!2wsx"` passes all five rules, collects 96 points and has entropy in (52, 52.8). |
| Examples.DefaultOptionsExample | src/__tests__/validatePasswordStrength.test.ts:5-16 | With default options, `"ZAQ!2wsx"` passes every rule, scores 3 and is valid. |
| Examples.CustomScaleExample | src/__tests__/validatePasswordStrength.test.ts:18-33 | With `maxScore` 10, `minBestEntropy` 100 and `minRequiredScore` 7, `"ZAQ!2wsx"` passes every rule, scores 5 and is invalid. |
| Examples.MinBestEntropy100Example | src/__tests__/validatePasswordStrength.test.ts:35-48 | With `minBestEntropy` 100, `"ZAQ!2wsx"` scores 3 and is valid. |
| Examples.ScoreModeExample | src/__tests__/validatePasswordStrength.test.ts:50-62 | In score mode with `minRequiredScore` 3, `"QAWSEDRFtgyhuj"` has entropy in (80, 80.5), scores 5 and is valid. |
| Examples.InsufficientScoreExample | src/__tests__/validatePasswordStrength.test.ts:64-76 | In score mode with `minRequiredScore` 3, `"ZAQ!1q"` has entropy in (36, 40), scores 2 and is invalid. |
| Examples.RegexModeExample | src/__tests__/validatePasswordStrength.test.ts:78-92 | In regex mode with `minRequiredScore` 4, `"ZAQ!2wsx"` scores 3 and is still valid. |
| Examples.RegexFailureExample | src/__tests__/validatePasswordStrength.test.ts:94-106 | In regex mode, `"QADRFtghuj"` fails the special and digit rules, scores 3 and is invalid. |
| Examples.CustomMessagesExample | src/__tests__/validatePasswordStrength.test.ts:108-145 | With all five messages overridden, `"ZAQ!2wsx"` stays valid and each of the five rules, identified by its expression, carries its custom message. |
| Examples.ScoreExamples | src/__tests__/passwordStrengthUtils.test.ts:46-95 | The score mapping gives 0, 5, 9, 3 and 5 on the inputs of its unit tests. |

## Left out

- `usePasswordStrength` (src/usePasswordStrength.ts): React state plumbing (`useState`, `useCallback`, `useMemo`). Its pure parts repeat the normalisation and verdict modelled in `Strength`.
- Exact IEEE-754 values: the model computes with `real` and an `lg` that satisfies the laws of `log2`. Entropies are bounded rather than given to the last digit. In the worked examples the scores and verdicts come out exact. At a step boundary the floating-point quotient of `passwordStrengthUtils.ts:11` can round to the other side, which the model does not follow.
- The JavaScript regular-expression engine: each expression is modelled by what it matches.
- UTF-16: the model has one notion of character, a Unicode scalar value. `/.{8,}/` counts UTF-16 code units, while `new Set(password)` counts code points. The two differ for characters outside the Basic Multilingual Plane.
- In-place mutation of the caller's rule objects: evaluation returns a fresh list, so aliasing is not modelled.
- Option validation: options are typed as integers (`maxScore`, `minRequiredScore`) and a real (`minBestEntropy`). Non-numeric or fractional integer options are not modelled.
- `configMessages` entries present but set to `undefined`: object spread would copy `undefined` over the default. The model treats such an entry as absent.
- Mode strings other than the three named ones: the source sends any other value to the score verdict. The model's `Mode` type has only the three.
- Rule weights are natural numbers. Negative or fractional weights are not modelled.
- Strength.ValidatePasswordStrength: requires `maxScore >= 2`, because the source divides by `maxScore - 1` without a guard.
- Scoring.Score: requires `minBestEntropy > 0` and `maxScore >= 2`. The source is only ever called with a normalised `minBestEntropy` of at least 20. It does not model JavaScript's infinite quotient for `minBestEntropy` 0.
