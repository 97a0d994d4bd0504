/**
  The worked cases of the source's test suite, proved for every `lg` that obeys
  the laws of the binary logarithm. Entropies are bounded rather than given to
  the last floating-point digit; the scores and verdicts come out exact.
 */
module Examples {
  import opened Wrappers
  import opened Log2
  import opened Rules
  import opened Scoring
  import opened Strength

  /** `s` holds no line terminator, so the length rule is a plain length test. */
  lemma LengthRule(s: string)
    requires forall j :: 0 <= j < |s| ==> !IsLineTerminator(s[j])
    ensures Test(LengthPattern, s) <==> |s| >= 8
  {
    RunOfMatchesLength(s, 8);
  }

  /** Witnesses for the four bracket classes. */
  lemma ClassesAt(s: string, lower: int, upper: int, special: int, digit: int)
    requires 0 <= lower < |s| && 'a' <= s[lower] <= 'z'
    requires 0 <= upper < |s| && 'A' <= s[upper] <= 'Z'
    requires 0 <= special < |s| && s[special] in SpecialCharacters
    requires 0 <= digit < |s| && '0' <= s[digit] <= '9'
    ensures Test(LowercasePattern, s) && Test(UppercasePattern, s)
    ensures Test(SpecialPattern, s) && Test(DigitPattern, s)
  {
    CharacterClasses(s);
  }

  /** A password of letters only, with both cases present, passes the two letter classes and nothing else of the four. */
  lemma LettersOnly(s: string, lower: int, upper: int)
    requires forall i :: 0 <= i < |s| ==> 'a' <= s[i] <= 'z' || 'A' <= s[i] <= 'Z'
    requires 0 <= lower < |s| && 'a' <= s[lower] <= 'z'
    requires 0 <= upper < |s| && 'A' <= s[upper] <= 'Z'
    ensures Test(LowercasePattern, s) && Test(UppercasePattern, s)
    ensures !Test(SpecialPattern, s) && !Test(DigitPattern, s)
  {
    CharacterClasses(s);
    forall i | 0 <= i < |s|
      ensures s[i] !in SpecialCharacters
    {
      SpecialCharactersAreSymbols(s[i]);
    }
  }

  lemma ZaqTwoWsxClasses()
    ensures Test(LowercasePattern, "ZAQ!2wsx") && Test(UppercasePattern, "ZAQ!2wsx")
    ensures Test(SpecialPattern, "ZAQ!2wsx") && Test(DigitPattern, "ZAQ!2wsx")
  {
    var s := "ZAQ!2wsx";
    assert s[3] == SpecialCharacters[1];
    ClassesAt(s, 5, 0, 3, 4);
  }

  lemma ZaqTwoWsxLength()
    ensures Test(LengthPattern, "ZAQ!2wsx")
  {
    LengthRule("ZAQ!2wsx");
  }

  /** `"ZAQ!2wsx"` passes all five rules and collects 96 points; its entropy is `8 * lg(96)`. */
  lemma ZaqTwoWsxFacts(lg: nat -> real)
    requires IsLog2(lg)
    ensures AllCanonicalMatch("ZAQ!2wsx")
    ensures CanonicalPoints("ZAQ!2wsx") == 96
    ensures 52.0 < Entropy(96, "ZAQ!2wsx", lg) < 52.8
  {
    ZaqTwoWsxClasses();
    ZaqTwoWsxLength();
    PointsAre96IffAllPass("ZAQ!2wsx");
    DistinctCountOfNoRepeats("ZAQ!2wsx");
    LogOf96(lg);
  }

  /** `"QAWSEDRFtgyhuj"`: both letter classes and the length rule pass, 53 points. */
  lemma QawsedrftgyhujPoints()
    ensures CanonicalPoints("QAWSEDRFtgyhuj") == 53
  {
    var s := "QAWSEDRFtgyhuj";
    LettersOnly(s, 8, 0);
    LengthRule(s);
    CanonicalPointsSum(s);
  }

  /** `"QADRFtghuj"`: both letter classes and the length rule pass, 53 points. */
  lemma QadrftghujPoints()
    ensures !Test(SpecialPattern, "QADRFtghuj") && !Test(DigitPattern, "QADRFtghuj")
    ensures CanonicalPoints("QADRFtghuj") == 53
  {
    var s := "QADRFtghuj";
    LettersOnly(s, 5, 0);
    LengthRule(s);
    CanonicalPointsSum(s);
  }

  lemma ZaqOneQLength()
    ensures !Test(LengthPattern, "ZAQ!1q")
  {
    LengthRule("ZAQ!1q");
  }

  /** `"ZAQ!1q"`: the four classes pass, the length rule fails, 95 points. */
  lemma ZaqOneQPoints()
    ensures CanonicalPoints("ZAQ!1q") == 95
  {
    var s := "ZAQ!1q";
    assert s[3] == SpecialCharacters[1];
    ClassesAt(s, 5, 0, 3, 4);
    ZaqOneQLength();
    CanonicalPointsSum("ZAQ!1q");
  }

  lemma QawsedrftgyhujEntropy(lg: nat -> real)
    requires IsLog2(lg)
    ensures 80.0 < Entropy(53, "QAWSEDRFtgyhuj", lg) < 80.5
  {
    DistinctCountOfNoRepeats("QAWSEDRFtgyhuj");
    LogOf53(lg);
  }

  lemma QadrftghujEntropy(lg: nat -> real)
    requires IsLog2(lg)
    ensures 57.0 < Entropy(53, "QADRFtghuj", lg) < 57.5
  {
    DistinctCountOfNoRepeats("QADRFtghuj");
    LogOf53(lg);
  }

  lemma ZaqOneQEntropy(lg: nat -> real)
    requires IsLog2(lg)
    ensures 36.0 < Entropy(95, "ZAQ!1q", lg) < 40.0
  {
    DistinctCountOfNoRepeats("ZAQ!1q");
    LogOf95(lg);
  }

  /** With `minBestEntropy` 100 and `maxScore` 10 a step is 100/9 wide: entropies in `[400/9, 500/9)` score 5. */
  lemma ScaleTenScore(e: real)
    requires 400.0 / 9.0 <= e < 500.0 / 9.0
    ensures Score(e, 100.0, 10) == 5
  {
    ScoreBand(e, 100.0, 10, 5);
  }

  /** Default options: every rule passes, the score is 3 and the password is valid. */
  lemma DefaultOptionsExample(lg: nat -> real)
    requires IsLog2(lg)
    ensures var r := ValidatePasswordStrength("ZAQ!2wsx", NoOptions, lg);
            && (forall i :: 0 <= i < 5 ==> r.validationResult[i].passed)
            && 52.0 < r.entropy < 52.8
            && r.score == 3
            && r.isValid
  {
    ZaqTwoWsxFacts(lg);
    ScoreBand(ValidatePasswordStrength("ZAQ!2wsx", NoOptions, lg).entropy, 80.0, 5, 3);
  }

  /** `maxScore` 10, `minBestEntropy` 100, `minRequiredScore` 7: the score stays below 7 and the password is invalid. */
  lemma CustomScaleExample(lg: nat -> real)
    requires IsLog2(lg)
    ensures var r := ValidatePasswordStrength("ZAQ!2wsx", Options(Some(10), Some(100.0), Some(7), None, None), lg);
            && (forall i :: 0 <= i < 5 ==> r.validationResult[i].passed)
            && r.score == 5
            && !r.isValid
  {
    var o := Options(Some(10), Some(100.0), Some(7), None, None);
    var r := ValidatePasswordStrength("ZAQ!2wsx", o, lg);
    ZaqTwoWsxFacts(lg);
    assert 52.0 < r.entropy < 52.8;
    ScaleTenScore(r.entropy);
  }

  /** `minBestEntropy` 100 alone: the score is still 3 and the password valid. */
  lemma MinBestEntropy100Example(lg: nat -> real)
    requires IsLog2(lg)
    ensures var r := ValidatePasswordStrength("ZAQ!2wsx", Options(None, Some(100.0), None, None, None), lg);
            r.score == 3 && r.isValid
  {
    var o := Options(None, Some(100.0), None, None, None);
    ZaqTwoWsxFacts(lg);
    ScoreBand(ValidatePasswordStrength("ZAQ!2wsx", o, lg).entropy, 100.0, 5, 3);
  }

  /** Regex mode with `minRequiredScore` 4: the score 3 does not matter, all rules pass, so valid. */
  lemma RegexModeExample(lg: nat -> real)
    requires IsLog2(lg)
    ensures var r := ValidatePasswordStrength("ZAQ!2wsx", Options(None, None, Some(4), Some(Regex), None), lg);
            r.score == 3 && r.isValid
  {
    var o := Options(None, None, Some(4), Some(Regex), None);
    ZaqTwoWsxFacts(lg);
    ScoreBand(ValidatePasswordStrength("ZAQ!2wsx", o, lg).entropy, 80.0, 5, 3);
  }

  /** `"QAWSEDRFtgyhuj"` in score mode: 53 points, entropy above 80, score 5, valid. */
  lemma ScoreModeExample(lg: nat -> real)
    requires IsLog2(lg)
    ensures var r := ValidatePasswordStrength("QAWSEDRFtgyhuj", Options(None, None, Some(3), Some(ByScore), None), lg);
            && 80.0 < r.entropy < 80.5
            && r.score == 5
            && r.isValid
  {
    var s := "QAWSEDRFtgyhuj";
    var o := Options(None, None, Some(3), Some(ByScore), None);
    var r := ValidatePasswordStrength(s, o, lg);
    QawsedrftgyhujPoints();
    QawsedrftgyhujEntropy(lg);
    assert r.entropy == Entropy(53, s, lg);
    ScoreAtCeiling(r.entropy, 80.0, 5);
  }

  /** `"ZAQ!1q"` in score mode with `minRequiredScore` 3: too short for 96 points, entropy below 40, score 2, invalid. */
  lemma InsufficientScoreExample(lg: nat -> real)
    requires IsLog2(lg)
    ensures var r := ValidatePasswordStrength("ZAQ!1q", Options(None, None, Some(3), Some(ByScore), None), lg);
            && 36.0 < r.entropy < 40.0
            && r.score == 2
            && !r.isValid
  {
    var s := "ZAQ!1q";
    var o := Options(None, None, Some(3), Some(ByScore), None);
    var r := ValidatePasswordStrength(s, o, lg);
    ZaqOneQPoints();
    ZaqOneQEntropy(lg);
    assert r.entropy == Entropy(95, s, lg);
    ScoreBand(r.entropy, 80.0, 5, 2);
  }

  /** `"QADRFtghuj"` in regex mode: no digit and no special character, so invalid; its score 3 is below 4 too. */
  lemma RegexFailureExample(lg: nat -> real)
    requires IsLog2(lg)
    ensures var r := ValidatePasswordStrength("QADRFtghuj", Options(None, None, Some(4), Some(Regex), None), lg);
            && r.score == 3
            && !r.isValid
            && !r.validationResult[2].passed
            && !r.validationResult[3].passed
  {
    var s := "QADRFtghuj";
    var o := Options(None, None, Some(4), Some(Regex), None);
    var r := ValidatePasswordStrength(s, o, lg);
    QadrftghujPoints();
    QadrftghujEntropy(lg);
    assert r.entropy == Entropy(53, s, lg);
    ScoreBand(r.entropy, 80.0, 5, 3);
  }

  /** Custom messages replace every default text and leave the verdict valid. */
  lemma CustomMessagesExample(lg: nat -> real)
    requires IsLog2(lg)
    ensures var m := MessageOverrides(
              Some("Custom: At least 1 lowercase letter"),
              Some("Custom: At least 1 uppercase letter"),
              Some("Custom: At least 1 special character"),
              Some("Custom: At least 1 number"),
              Some("Custom: Password must be at least 8 characters"));
            var r := ValidatePasswordStrength("ZAQ!2wsx", Options(None, None, None, None, Some(m)), lg);
            && r.isValid
            && r.validationResult[0].pattern == LowercasePattern
            && r.validationResult[0].message == "Custom: At least 1 lowercase letter"
            && r.validationResult[1].pattern == UppercasePattern
            && r.validationResult[1].message == "Custom: At least 1 uppercase letter"
            && r.validationResult[2].pattern == SpecialPattern
            && r.validationResult[2].message == "Custom: At least 1 special character"
            && r.validationResult[3].pattern == DigitPattern
            && r.validationResult[3].message == "Custom: At least 1 number"
            && r.validationResult[4].pattern == LengthPattern
            && r.validationResult[4].message == "Custom: Password must be at least 8 characters"
  {
    var m := MessageOverrides(
      Some("Custom: At least 1 lowercase letter"),
      Some("Custom: At least 1 uppercase letter"),
      Some("Custom: At least 1 special character"),
      Some("Custom: At least 1 number"),
      Some("Custom: Password must be at least 8 characters"));
    var o := Options(None, None, None, None, Some(m));
    DefaultOptionsExample(lg);
    MessagesDoNotAffectVerdict("ZAQ!2wsx", NoOptions, o, lg);
    RuleMessages("ZAQ!2wsx", o, lg);
  }

  /** The score mapping on the inputs of its own tests. */
  lemma ScoreExamples()
    ensures Score(0.0, 50.0, 5) == 0
    ensures Score(80.0, 80.0, 5) == 5
    ensures Score(80.0, 80.0, 9) == 9
    ensures Score(25.0, 50.0, 5) == 3
    ensures Score(100.0, 50.0, 5) == 5
  {
    ScoreAtCeiling(80.0, 80.0, 5);
    ScoreAtCeiling(80.0, 80.0, 9);
    ScoreBand(25.0, 50.0, 5, 3);
    ScoreAtCeiling(100.0, 50.0, 5);
  }
}
