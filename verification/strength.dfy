/**
  `validatePasswordStrength`: fills in the default options, merges the rule
  messages, normalises the score settings, builds the five canonical rules,
  runs rule evaluation, the entropy estimate and the score mapping, and decides
  validity according to the selected mode.
 */
module Strength {
  import opened Wrappers
  import opened Log2
  import opened Rules
  import opened Scoring

  /** How the verdict is reached: `"strict"`, `"regex"` or `"score"`. */
  datatype Mode = Strict | Regex | ByScore

  /** The human-readable text of each canonical rule. */
  datatype Messages = Messages(
    minLowercaseMessage: string,
    minUppercaseMessage: string,
    minSpecialCharMessage: string,
    minNumberMessage: string,
    minLengthMessage: string)

  /** The caller's `configMessages`: any of the five texts may be replaced. */
  datatype MessageOverrides = MessageOverrides(
    minLowercase: Option<string>,
    minUppercase: Option<string>,
    minSpecialChar: Option<string>,
    minNumber: Option<string>,
    minLength: Option<string>)

  /** The optional settings the caller may pass; an absent one takes its default. */
  datatype Options = Options(
    maxScore: Option<int>,
    minBestEntropy: Option<real>,
    minRequiredScore: Option<int>,
    mode: Option<Mode>,
    configMessages: Option<MessageOverrides>)

  /** The settings actually used, after defaults and normalisation. */
  datatype Config = Config(
    maxScore: int,
    minBestEntropy: real,
    minRequiredScore: int,
    mode: Mode,
    messages: Messages)

  /** What `validatePasswordStrength` returns. */
  datatype Response = Response(
    validationResult: seq<Rule>,
    score: int,
    entropy: real,
    password: string,
    isValid: bool)

  const NoOptions := Options(None, None, None, None, None)

  const DefaultMaxScore := 5
  const DefaultMinBestEntropy := 80.0
  const DefaultMinRequiredScore := 3
  const DefaultMode := Strict

  /** `minBestEntropy` is raised to at least this value. */
  const EntropyFloor := 20.0

  /** The points a password collects when every canonical rule passes. */
  const MaxPoints := 96

  const DefaultMessages := Messages(
    "At least 1 lowercase letter",
    "At least 1 uppercase letter",
    "At least 1 special character",
    "At least 1 number",
    "At least 8 characters long")

  /** The options are usable: the score range has at least two steps. */
  predicate ValidOptions(options: Options)
  {
    options.maxScore.GetOr(DefaultMaxScore) >= 2
  }

  /** `text` is the override when one is given and the default otherwise. */
  predicate Chosen(override: Option<string>, default: string, text: string)
  {
    (override.Some? && text == override.value) || (override.None? && text == default)
  }

  /** `{ ...defaultMessages, ...configMessages }`. */
  function MergeMessages(overrides: Option<MessageOverrides>): (m: Messages)
    ensures overrides.None? ==> m == DefaultMessages
    ensures overrides.Some? ==>
              && Chosen(overrides.value.minLowercase, DefaultMessages.minLowercaseMessage, m.minLowercaseMessage)
              && Chosen(overrides.value.minUppercase, DefaultMessages.minUppercaseMessage, m.minUppercaseMessage)
              && Chosen(overrides.value.minSpecialChar, DefaultMessages.minSpecialCharMessage, m.minSpecialCharMessage)
              && Chosen(overrides.value.minNumber, DefaultMessages.minNumberMessage, m.minNumberMessage)
              && Chosen(overrides.value.minLength, DefaultMessages.minLengthMessage, m.minLengthMessage)
  {
    match overrides
    case None => DefaultMessages
    case Some(o) =>
      Messages(
        o.minLowercase.GetOr(DefaultMessages.minLowercaseMessage),
        o.minUppercase.GetOr(DefaultMessages.minUppercaseMessage),
        o.minSpecialChar.GetOr(DefaultMessages.minSpecialCharMessage),
        o.minNumber.GetOr(DefaultMessages.minNumberMessage),
        o.minLength.GetOr(DefaultMessages.minLengthMessage))
  }

  /**
    Defaults filled in, `minRequiredScore` capped at `maxScore` and
    `minBestEntropy` raised to at least 20.
   */
  function Normalize(options: Options): (c: Config)
    requires ValidOptions(options)
    ensures c.maxScore == options.maxScore.GetOr(DefaultMaxScore) && c.maxScore >= 2
    ensures c.mode == options.mode.GetOr(DefaultMode)
    ensures c.messages == MergeMessages(options.configMessages)
    // the smaller of the requested score and maxScore
    ensures c.minRequiredScore <= c.maxScore
    ensures c.minRequiredScore <= options.minRequiredScore.GetOr(DefaultMinRequiredScore)
    ensures c.minRequiredScore in {options.minRequiredScore.GetOr(DefaultMinRequiredScore), c.maxScore}
    // the larger of the requested entropy and the floor
    ensures c.minBestEntropy >= EntropyFloor
    ensures c.minBestEntropy >= options.minBestEntropy.GetOr(DefaultMinBestEntropy)
    ensures c.minBestEntropy in {options.minBestEntropy.GetOr(DefaultMinBestEntropy), EntropyFloor}
  {
    var maxScore := options.maxScore.GetOr(DefaultMaxScore);
    var required := options.minRequiredScore.GetOr(DefaultMinRequiredScore);
    var best := options.minBestEntropy.GetOr(DefaultMinBestEntropy);
    Config(
      maxScore,
      if best < EntropyFloor then EntropyFloor else best,
      if required > maxScore then maxScore else required,
      options.mode.GetOr(DefaultMode),
      MergeMessages(options.configMessages))
  }

  /** Options that spell out every setting of `c`. */
  function Explicit(c: Config): Options
  {
    Options(
      Some(c.maxScore),
      Some(c.minBestEntropy),
      Some(c.minRequiredScore),
      Some(c.mode),
      Some(MessageOverrides(
        Some(c.messages.minLowercaseMessage),
        Some(c.messages.minUppercaseMessage),
        Some(c.messages.minSpecialCharMessage),
        Some(c.messages.minNumberMessage),
        Some(c.messages.minLengthMessage))))
  }

  /** Normalisation is idempotent: a configuration it produced passes through it unchanged. */
  lemma NormalizeIdempotent(options: Options)
    requires ValidOptions(options)
    ensures ValidOptions(Explicit(Normalize(options)))
    ensures Normalize(Explicit(Normalize(options))) == Normalize(options)
  {
  }

  /** Settings already inside the bounds are kept as given. */
  lemma NormalizeKeepsSettledValues(options: Options)
    requires ValidOptions(options)
    requires options.minRequiredScore.GetOr(DefaultMinRequiredScore) <= options.maxScore.GetOr(DefaultMaxScore)
    requires options.minBestEntropy.GetOr(DefaultMinBestEntropy) >= EntropyFloor
    ensures Normalize(options).minRequiredScore == options.minRequiredScore.GetOr(DefaultMinRequiredScore)
    ensures Normalize(options).minBestEntropy == options.minBestEntropy.GetOr(DefaultMinBestEntropy)
  {
  }

  /** A bracket class made of the literal characters of `s`. */
  function Literals(s: string): (cls: seq<CharRange>)
    ensures forall c :: InClass(cls, c) <==> c in s
  {
    var cls := seq(|s|, i requires 0 <= i < |s| => CharRange(s[i], s[i]));
    assert forall c :: c in s ==> InClass(cls, c) by {
      forall c | c in s
        ensures InClass(cls, c)
      {
        var i :| 0 <= i < |s| && s[i] == c;
        assert InRange(cls[i], c);
      }
    }
    cls
  }

  /** The members of the special-character class `[ !@#$%^&*()_+\-=[\]{};':"\\|,.<>/?`~]`. */
  const SpecialCharacters: string := " !@#$%^&*()_+-=[]{};':\"\\|,.<>/?`~"

  const LowercasePattern := AnyOf([CharRange('a', 'z')])
  const UppercasePattern := AnyOf([CharRange('A', 'Z')])
  const SpecialPattern := AnyOf(Literals(SpecialCharacters))
  const DigitPattern := AnyOf([CharRange('0', '9')])
  const LengthPattern := RunOf(8)

  /** The five rules, in the source's order, with their weights and the merged messages. */
  function CanonicalRules(m: Messages): (rules: seq<Rule>)
    ensures |rules| == 5
    ensures TotalPoints(rules) == MaxPoints
    ensures PositiveWeights(rules)
    ensures forall i :: 0 <= i < 5 ==> !rules[i].passed
  {
    var rules := [
      Rule(LowercasePattern, 26, m.minLowercaseMessage, false),
      Rule(UppercasePattern, 26, m.minUppercaseMessage, false),
      Rule(SpecialPattern, 33, m.minSpecialCharMessage, false),
      Rule(DigitPattern, 10, m.minNumberMessage, false),
      Rule(LengthPattern, 1, m.minLengthMessage, false)
    ];
    assert TotalPoints(rules[4..]) == 1 by {
      assert rules[4..][1..] == [];
    }
    assert TotalPoints(rules[3..]) == 11 by {
      assert rules[3..][1..] == rules[4..];
    }
    assert TotalPoints(rules[2..]) == 44 by {
      assert rules[2..][1..] == rules[3..];
    }
    assert TotalPoints(rules[1..]) == 70 by {
      assert rules[1..][1..] == rules[2..];
    }
    rules
  }

  /** Every canonical rule matches the password. */
  predicate AllCanonicalMatch(password: string)
  {
    && Test(LowercasePattern, password)
    && Test(UppercasePattern, password)
    && Test(SpecialPattern, password)
    && Test(DigitPattern, password)
    && Test(LengthPattern, password)
  }

  /**
    The mode-dependent verdict: every mode but regex demands the required
    score, every mode but score demands all 96 points.
   */
  function Verdict(mode: Mode, score: int, points: nat, minRequiredScore: int): (valid: bool)
    ensures valid <==> (mode != Regex ==> score >= minRequiredScore) && (mode != ByScore ==> points == MaxPoints)
  {
    match mode
    case Strict => score >= minRequiredScore && points == MaxPoints
    case Regex => points == MaxPoints
    case ByScore => score >= minRequiredScore
  }

  /**
    `validatePasswordStrength`: the rules as evaluated, the entropy, the score,
    the password itself and the verdict. `lg` stands for `Math.log2`.
   */
  function ValidatePasswordStrength(password: string, options: Options, lg: nat -> real): (r: Response)
    requires ValidOptions(options)
    ensures r.password == password
    ensures SameDefinitions(CanonicalRules(Normalize(options).messages), r.validationResult)
    ensures |r.validationResult| == 5
    ensures r.validationResult[0].passed == Test(LowercasePattern, password)
    ensures r.validationResult[1].passed == Test(UppercasePattern, password)
    ensures r.validationResult[2].passed == Test(SpecialPattern, password)
    ensures r.validationResult[3].passed == Test(DigitPattern, password)
    ensures r.validationResult[4].passed == Test(LengthPattern, password)
    ensures r.entropy == Entropy(CanonicalPoints(password), password, lg)
    ensures r.score == Score(r.entropy, Normalize(options).minBestEntropy, Normalize(options).maxScore)
    ensures r.isValid == Verdict(Normalize(options).mode, r.score, CanonicalPoints(password), Normalize(options).minRequiredScore)
    ensures r.score <= Normalize(options).maxScore
    ensures r.entropy == 0.0 ==> r.score == 0
    ensures |password| == 0 ==> r.entropy == 0.0
  {
    var c := Normalize(options);
    CanonicalPointsOfAnyMessages(password, c.messages);
    var evaluation := EvaluateRules(password, CanonicalRules(c.messages));
    var entropy := Entropy(evaluation.points, password, lg);
    var score := Score(entropy, c.minBestEntropy, c.maxScore);
    Response(evaluation.result, score, entropy, password, Verdict(c.mode, score, evaluation.points, c.minRequiredScore))
  }

  /** The points the canonical rules award `password`; messages play no part. */
  function CanonicalPoints(password: string): nat
  {
    EvaluateRules(password, CanonicalRules(DefaultMessages)).points
  }

  lemma CanonicalPointsOfAnyMessages(password: string, m: Messages)
    ensures EvaluateRules(password, CanonicalRules(m)).points == CanonicalPoints(password)
  {
    EvaluationIgnoresMessages(password, CanonicalRules(m), CanonicalRules(DefaultMessages));
  }

  /** The hard-coded test `points === 96` holds exactly when all five canonical rules pass. */
  lemma PointsAre96IffAllPass(password: string)
    ensures CanonicalPoints(password) <= MaxPoints
    ensures CanonicalPoints(password) == MaxPoints <==> AllCanonicalMatch(password)
  {
    var rules := CanonicalRules(DefaultMessages);
    EvaluationPointsBound(password, rules);
    assert AllMatch(rules, password) <==> AllCanonicalMatch(password) by {
      if AllCanonicalMatch(password) {
        forall i | 0 <= i < 5
          ensures Test(rules[i].pattern, password)
        {
        }
      }
      if AllMatch(rules, password) {
        assert Test(rules[0].pattern, password);
        assert Test(rules[1].pattern, password);
        assert Test(rules[2].pattern, password);
        assert Test(rules[3].pattern, password);
        assert Test(rules[4].pattern, password);
      }
    }
  }

  /** Each rule's message is the caller's override when one is given and the default otherwise. */
  lemma RuleMessages(password: string, options: Options, lg: nat -> real)
    requires ValidOptions(options)
    ensures var r := ValidatePasswordStrength(password, options, lg);
            var o := options.configMessages.GetOr(MessageOverrides(None, None, None, None, None));
            && Chosen(o.minLowercase, DefaultMessages.minLowercaseMessage, r.validationResult[0].message)
            && Chosen(o.minUppercase, DefaultMessages.minUppercaseMessage, r.validationResult[1].message)
            && Chosen(o.minSpecialChar, DefaultMessages.minSpecialCharMessage, r.validationResult[2].message)
            && Chosen(o.minNumber, DefaultMessages.minNumberMessage, r.validationResult[3].message)
            && Chosen(o.minLength, DefaultMessages.minLengthMessage, r.validationResult[4].message)
  {
  }

  /** Messages never change the entropy, the score, the verdict or any rule outcome. */
  lemma MessagesDoNotAffectVerdict(password: string, o1: Options, o2: Options, lg: nat -> real)
    requires ValidOptions(o1)
    requires o2 == o1.(configMessages := o2.configMessages)
    ensures var r1, r2 := ValidatePasswordStrength(password, o1, lg), ValidatePasswordStrength(password, o2, lg);
            && r1.entropy == r2.entropy
            && r1.score == r2.score
            && r1.isValid == r2.isValid
            && r1.password == r2.password
            && forall i :: 0 <= i < 5 ==> r1.validationResult[i].passed == r2.validationResult[i].passed
  {
    var c1, c2 := Normalize(o1), Normalize(o2);
    assert c1.maxScore == c2.maxScore && c1.minBestEntropy == c2.minBestEntropy;
    assert c1.minRequiredScore == c2.minRequiredScore && c1.mode == c2.mode;
  }

  /** The options `o` with the mode replaced. */
  function WithMode(o: Options, mode: Mode): Options
  {
    o.(mode := Some(mode))
  }

  /**
    A strict verdict is the conjunction of the regex and the score verdicts, so
    a password valid in strict mode is valid in the other two.
   */
  lemma StrictIsRegexAndScore(password: string, options: Options, lg: nat -> real)
    requires ValidOptions(options)
    ensures ValidatePasswordStrength(password, WithMode(options, Strict), lg).isValid
            <==> ValidatePasswordStrength(password, WithMode(options, Regex), lg).isValid
                 && ValidatePasswordStrength(password, WithMode(options, ByScore), lg).isValid
  {
  }

  /** In regex mode the verdict is "every rule passes", whatever the score settings or `log2`. */
  lemma RegexModeVerdict(password: string, options: Options, lg: nat -> real)
    requires ValidOptions(options)
    requires options.mode == Some(Regex)
    ensures ValidatePasswordStrength(password, options, lg).isValid <==> AllCanonicalMatch(password)
    ensures var r := ValidatePasswordStrength(password, options, lg);
            r.isValid <==> forall i :: 0 <= i < |r.validationResult| ==> r.validationResult[i].passed
  {
    PointsAre96IffAllPass(password);
  }

  /** In score mode the verdict is "score reaches the capped `minRequiredScore`", whatever the rule outcomes. */
  lemma ScoreModeVerdict(password: string, options: Options, lg: nat -> real)
    requires ValidOptions(options)
    requires options.mode == Some(ByScore)
    ensures var r := ValidatePasswordStrength(password, options, lg);
            r.isValid <==> r.score >= Normalize(options).minRequiredScore
  {
  }

  /**
    Because `minRequiredScore` is capped at `maxScore`, any entropy at or above
    the normalised `minBestEntropy`, which is the larger of the requested value
    and 20, satisfies the score test: valid in score mode, and in strict mode
    as soon as every rule passes.
   */
  lemma HighEntropyIsValid(password: string, options: Options, lg: nat -> real)
    requires ValidOptions(options)
    requires ValidatePasswordStrength(password, options, lg).entropy >= Normalize(options).minBestEntropy
    ensures var r := ValidatePasswordStrength(password, options, lg);
            && r.score == Normalize(options).maxScore
            && (Normalize(options).mode == ByScore ==> r.isValid)
            && (Normalize(options).mode == Strict ==> (r.isValid <==> AllCanonicalMatch(password)))
  {
    var c := Normalize(options);
    ScoreAtCeiling(ValidatePasswordStrength(password, options, lg).entropy, c.minBestEntropy, c.maxScore);
    PointsAre96IffAllPass(password);
  }

  /** The score lies in `[0, maxScore]` and is 0 exactly when the entropy is. */
  lemma ResponseScoreRange(password: string, options: Options, lg: nat -> real)
    requires ValidOptions(options)
    requires IsLog2(lg)
    ensures var r := ValidatePasswordStrength(password, options, lg);
            && r.entropy >= 0.0
            && 0 <= r.score <= Normalize(options).maxScore
            && (r.score == 0 <==> r.entropy == 0.0)
  {
    var c := Normalize(options);
    EntropySign(CanonicalPoints(password), password, lg);
    ScoreRange(ValidatePasswordStrength(password, options, lg).entropy, c.minBestEntropy, c.maxScore);
  }

  /**
    The empty password fails every rule and scores 0; it is valid only in score
    mode with a (capped) `minRequiredScore` of 0 or less.
   */
  lemma EmptyPassword(options: Options, lg: nat -> real)
    requires ValidOptions(options)
    ensures var r := ValidatePasswordStrength("", options, lg);
            && r.entropy == 0.0
            && r.score == 0
            && (forall i :: 0 <= i < 5 ==> !r.validationResult[i].passed)
            && (r.isValid <==> Normalize(options).mode == ByScore && Normalize(options).minRequiredScore <= 0)
  {
    var r := ValidatePasswordStrength("", options, lg);
    EmptyPasswordMatches(LowercasePattern);
    EmptyPasswordMatches(UppercasePattern);
    EmptyPasswordMatches(SpecialPattern);
    EmptyPasswordMatches(DigitPattern);
    EmptyPasswordMatches(LengthPattern);
    PointsAre96IffAllPass("");
  }

  /** The canonical points are the sum of the weights of the rules the password passes. */
  lemma CanonicalPointsSum(password: string)
    ensures CanonicalPoints(password)
            == (if Test(LowercasePattern, password) then 26 else 0)
               + (if Test(UppercasePattern, password) then 26 else 0)
               + (if Test(SpecialPattern, password) then 33 else 0)
               + (if Test(DigitPattern, password) then 10 else 0)
               + (if Test(LengthPattern, password) then 1 else 0)
  {
    var rs := EvaluateRules(password, CanonicalRules(DefaultMessages)).result;
    assert rs[4..][1..] == [];
    assert rs[3..][1..] == rs[4..];
    assert rs[2..][1..] == rs[3..];
    assert rs[1..][1..] == rs[2..];
    assert PassedPoints(rs[4..]) == (if Test(LengthPattern, password) then 1 else 0);
    assert PassedPoints(rs[3..]) == (if Test(DigitPattern, password) then 10 else 0) + PassedPoints(rs[4..]);
    assert PassedPoints(rs[2..]) == (if Test(SpecialPattern, password) then 33 else 0) + PassedPoints(rs[3..]);
    assert PassedPoints(rs[1..]) == (if Test(UppercasePattern, password) then 26 else 0) + PassedPoints(rs[2..]);
  }

  /**
    The four bracket classes, character by character: a password matches one
    exactly when some character of it lies in the class.
   */
  lemma CharacterClasses(password: string)
    ensures Test(LowercasePattern, password) <==> exists i :: 0 <= i < |password| && 'a' <= password[i] <= 'z'
    ensures Test(UppercasePattern, password) <==> exists i :: 0 <= i < |password| && 'A' <= password[i] <= 'Z'
    ensures Test(DigitPattern, password) <==> exists i :: 0 <= i < |password| && '0' <= password[i] <= '9'
    ensures Test(SpecialPattern, password) <==> exists i :: 0 <= i < |password| && password[i] in SpecialCharacters
  {
    forall i | 0 <= i < |password|
      ensures InClass(LowercasePattern.cls, password[i]) <==> 'a' <= password[i] <= 'z'
      ensures InClass(UppercasePattern.cls, password[i]) <==> 'A' <= password[i] <= 'Z'
      ensures InClass(DigitPattern.cls, password[i]) <==> '0' <= password[i] <= '9'
    {
      assert InRange(LowercasePattern.cls[0], password[i]) <==> 'a' <= password[i] <= 'z';
      assert InRange(UppercasePattern.cls[0], password[i]) <==> 'A' <= password[i] <= 'Z';
      assert InRange(DigitPattern.cls[0], password[i]) <==> '0' <= password[i] <= '9';
    }
  }

  /**
    The special class lists 33 characters, matching its weight as the weights
    of the letter and digit classes match their alphabets, and holds no letter
    or digit.
   */
  lemma SpecialCharactersAreSymbols(c: char)
    requires 'a' <= c <= 'z' || 'A' <= c <= 'Z' || '0' <= c <= '9'
    ensures c !in SpecialCharacters
    ensures |SpecialCharacters| == 33
  {
  }
}
