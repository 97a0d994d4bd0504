/**
  The entropy estimate (`calculateEntropy`) and the step function from entropy
  to an integer score (`calculatePasswordScore`).

  The estimate treats the rule points a password collected as the size of its
  alphabet: each distinct character is credited `log2(points)` bits. This is
  the source's deliberate approximation, not Shannon entropy.
 */
module Scoring {
  import opened Log2

  /** The distinct characters of `s`: the contents of `new Set(s)`. */
  function CharSet(s: string): (r: set<char>)
    ensures forall c :: c in r <==> c in s
  {
    set i | 0 <= i < |s| :: s[i]
  }

  /**
    `calculateEntropy`: zero for zero points or the empty password, otherwise
    the number of distinct characters times `lg(points)`.
   */
  function Entropy(points: nat, password: string, lg: nat -> real): (r: real)
    ensures points == 0 || |password| == 0 ==> r == 0.0
  {
    if points == 0 || |password| == 0 then 0.0
    else |CharSet(password)| as real * lg(points)
  }

  lemma CharSetOfSnoc(s: string, c: char)
    ensures CharSet(s + [c]) == CharSet(s) + {c}
  {
    var t := s + [c];
    forall x | x in CharSet(t)
      ensures x in CharSet(s) + {c}
    {
      var i :| 0 <= i < |t| && t[i] == x;
      if i < |s| {
        assert s[i] == x;
      }
    }
    forall x | x in CharSet(s)
      ensures x in CharSet(t)
    {
      var i :| 0 <= i < |s| && s[i] == x;
      assert t[i] == x;
    }
    assert t[|s|] == c;
  }

  /** A password has at least one and at most `|s|` distinct characters. */
  lemma {:induction false} DistinctCountBounds(s: string)
    ensures |CharSet(s)| <= |s|
    ensures |s| > 0 ==> |CharSet(s)| >= 1
  {
    if |s| > 0 {
      var init := s[..|s| - 1];
      assert init + [s[|s| - 1]] == s;
      CharSetOfSnoc(init, s[|s| - 1]);
      DistinctCountBounds(init);
    }
  }

  /** No character of `s` occurs twice. */
  predicate NoRepeats(s: string)
  {
    forall i, j :: 0 <= i < j < |s| ==> s[i] != s[j]
  }

  /** A password without repeated characters has as many distinct characters as characters. */
  lemma {:induction false} DistinctCountOfNoRepeats(s: string)
    requires NoRepeats(s)
    ensures |CharSet(s)| == |s|
  {
    if |s| > 0 {
      var init, last := s[..|s| - 1], s[|s| - 1];
      assert init + [last] == s;
      CharSetOfSnoc(init, last);
      assert NoRepeats(init);
      DistinctCountOfNoRepeats(init);
      assert last !in CharSet(init);
    }
  }

  /** The distinct characters depend only on which characters occur, not on their order or number. */
  lemma CharSetOfSameMultiset(a: string, b: string)
    requires multiset(a) == multiset(b)
    ensures CharSet(a) == CharSet(b)
  {
    forall x | x in CharSet(a)
      ensures x in CharSet(b)
    {
      var i :| 0 <= i < |a| && a[i] == x;
      assert x in multiset(a);
    }
    forall x | x in CharSet(b)
      ensures x in CharSet(a)
    {
      var i :| 0 <= i < |b| && b[i] == x;
      assert x in multiset(b);
    }
  }

  lemma CharSetOfConcat(a: string, b: string)
    ensures CharSet(a + b) == CharSet(a) + CharSet(b)
  {
    var t := a + b;
    forall x | x in CharSet(t)
      ensures x in CharSet(a) + CharSet(b)
    {
      var i :| 0 <= i < |t| && t[i] == x;
      if i < |a| {
        assert a[i] == x;
      } else {
        assert b[i - |a|] == x;
      }
    }
    forall x | x in CharSet(a) + CharSet(b)
      ensures x in CharSet(t)
    {
      if x in CharSet(a) {
        var i :| 0 <= i < |a| && a[i] == x;
        assert t[i] == x;
      } else {
        var i :| 0 <= i < |b| && b[i] == x;
        assert t[|a| + i] == x;
      }
    }
  }

  /** Entropy depends on the password only through its set of characters. */
  lemma EntropyDependsOnlyOnCharSet(points: nat, a: string, b: string, lg: nat -> real)
    requires CharSet(a) == CharSet(b)
    ensures Entropy(points, a, lg) == Entropy(points, b, lg)
  {
    if |a| > 0 {
      assert a[0] in CharSet(b);
    }
    if |b| > 0 {
      assert b[0] in CharSet(a);
    }
  }

  /** Reordering the characters of a password leaves its entropy unchanged. */
  lemma EntropyIgnoresOrder(points: nat, a: string, b: string, lg: nat -> real)
    requires multiset(a) == multiset(b)
    ensures Entropy(points, a, lg) == Entropy(points, b, lg)
  {
    CharSetOfSameMultiset(a, b);
    EntropyDependsOnlyOnCharSet(points, a, b, lg);
  }

  /** Repeating a password leaves its entropy unchanged. */
  lemma EntropyIgnoresRepetition(points: nat, s: string, lg: nat -> real)
    ensures Entropy(points, s + s, lg) == Entropy(points, s, lg)
  {
    CharSetOfConcat(s, s);
    EntropyDependsOnlyOnCharSet(points, s + s, s, lg);
  }

  /**
    Entropy is never negative, and it is positive exactly when the password is
    non-empty and collected at least 2 points (`lg(1) == 0`).
   */
  lemma EntropySign(points: nat, password: string, lg: nat -> real)
    requires IsLog2(lg)
    ensures Entropy(points, password, lg) >= 0.0
    ensures Entropy(points, password, lg) > 0.0 <==> points >= 2 && |password| > 0
  {
    if points > 0 && |password| > 0 {
      LogSign(lg, points);
      DistinctCountBounds(password);
    }
  }

  /** Entropy is at most `|password| * lg(points)`: each character is credited at most once. */
  lemma EntropyAtMostLengthTimesLog(points: nat, password: string, lg: nat -> real)
    requires IsLog2(lg)
    requires points >= 1
    ensures Entropy(points, password, lg) <= |password| as real * lg(points)
  {
    LogSign(lg, points);
    DistinctCountBounds(password);
  }

  /** More points never lower the entropy of the same password. */
  lemma EntropyMonotoneInPoints(p1: nat, p2: nat, password: string, lg: nat -> real)
    requires IsLog2(lg)
    requires p1 <= p2
    ensures Entropy(p1, password, lg) <= Entropy(p2, password, lg)
  {
    EntropySign(p2, password, lg);
    if p1 > 0 && |password| > 0 {
      LogMonotone(lg, p1, p2);
    }
  }

  /** Width of one score step: `minBestEntropy / (maxScore - 1)`. */
  function Step(minBestEntropy: real, maxScore: int): (w: real)
    requires minBestEntropy > 0.0 && maxScore >= 2
    ensures w > 0.0
  {
    minBestEntropy / (maxScore - 1) as real
  }

  /**
    `calculatePasswordScore`: 0 for zero entropy, otherwise one more than the
    number of whole steps the entropy spans, capped at `maxScore`.
   */
  function Score(entropy: real, minBestEntropy: real, maxScore: int): (r: int)
    requires minBestEntropy > 0.0 && maxScore >= 2
    ensures r <= maxScore
    ensures entropy == 0.0 ==> r == 0
    ensures entropy > 0.0 ==> r >= 1
    ensures entropy < 0.0 ==> r <= 0
  {
    if entropy == 0.0 then 0
    else
      var q := entropy / Step(minBestEntropy, maxScore);
      assert entropy > 0.0 ==> q > 0.0;
      assert entropy < 0.0 ==> q < 0.0;
      if q.Floor + 1 < maxScore then q.Floor + 1 else maxScore
  }

  /** Dividing by a positive width and multiplying back returns the dividend. */
  lemma QuotientTimesDivisor(e: real, w: real)
    requires w > 0.0
    ensures (e / w) * w == e
  {
  }

  /** Multiplying by a positive width preserves comparisons, both ways. */
  lemma ScaleComparison(q: real, k: real, w: real)
    requires w > 0.0
    ensures q >= k <==> q * w >= k * w
  {
    assert q * w - k * w == (q - k) * w;
    if q >= k {
      assert (q - k) * w >= 0.0;
    } else {
      assert (k - q) * w > 0.0;
    }
  }

  /** A quotient by a positive width reaches `k` exactly when the dividend reaches `k` widths. */
  lemma QuotientAtLeast(e: real, k: real, w: real)
    requires w > 0.0
    ensures e / w >= k <==> e >= k * w
  {
    QuotientTimesDivisor(e, w);
    ScaleComparison(e / w, k, w);
  }

  /** The floor of `q` reaches the integer `n` exactly when `q` does. */
  lemma FloorAtLeast(q: real, n: int)
    ensures q.Floor >= n <==> q >= n as real
  {
  }

  /** Dividing by a positive width preserves order. */
  lemma DivideMonotone(a: real, b: real, w: real)
    requires w > 0.0 && a <= b
    ensures a / w <= b / w
  {
    QuotientTimesDivisor(a, w);
    QuotientTimesDivisor(b, w);
    ScaleComparison(b / w, a / w, w);
  }

  /**
    Score `s` (for `1 <= s <= maxScore`) is reached exactly when the entropy is
    non-zero and at least `s - 1` steps.
   */
  lemma ScoreReaches(entropy: real, minBestEntropy: real, maxScore: int, s: int)
    requires minBestEntropy > 0.0 && maxScore >= 2
    requires 1 <= s <= maxScore
    ensures Score(entropy, minBestEntropy, maxScore) >= s
            <==> entropy != 0.0 && entropy >= (s - 1) as real * Step(minBestEntropy, maxScore)
  {
    var w := Step(minBestEntropy, maxScore);
    if entropy != 0.0 {
      var q := entropy / w;
      QuotientAtLeast(entropy, (s - 1) as real, w);
      FloorAtLeast(q, s - 1);
      assert Score(entropy, minBestEntropy, maxScore) >= s <==> q.Floor >= s - 1;
    } else {
      assert (s - 1) as real * w >= 0.0;
    }
  }

  /** For `1 <= s < maxScore`, the entropies scoring exactly `s` form the band `[(s-1) step, s step)`. */
  lemma ScoreBand(entropy: real, minBestEntropy: real, maxScore: int, s: int)
    requires minBestEntropy > 0.0 && maxScore >= 2
    requires 1 <= s < maxScore
    ensures Score(entropy, minBestEntropy, maxScore) == s
            <==> entropy != 0.0
                 && (s - 1) as real * Step(minBestEntropy, maxScore) <= entropy < s as real * Step(minBestEntropy, maxScore)
  {
    ScoreReaches(entropy, minBestEntropy, maxScore, s);
    ScoreReaches(entropy, minBestEntropy, maxScore, s + 1);
  }

  /** Any entropy at or beyond `minBestEntropy` scores exactly `maxScore`. */
  lemma ScoreAtCeiling(entropy: real, minBestEntropy: real, maxScore: int)
    requires minBestEntropy > 0.0 && maxScore >= 2
    requires entropy >= minBestEntropy
    ensures Score(entropy, minBestEntropy, maxScore) == maxScore
  {
    ScoreReaches(entropy, minBestEntropy, maxScore, maxScore);
    assert (maxScore - 1) as real * Step(minBestEntropy, maxScore) == minBestEntropy;
  }

  /** A non-negative entropy scores in `[0, maxScore]`, and 0 exactly when the entropy is 0. */
  lemma ScoreRange(entropy: real, minBestEntropy: real, maxScore: int)
    requires minBestEntropy > 0.0 && maxScore >= 2
    requires entropy >= 0.0
    ensures 0 <= Score(entropy, minBestEntropy, maxScore) <= maxScore
    ensures Score(entropy, minBestEntropy, maxScore) == 0 <==> entropy == 0.0
  {
  }

  /** For fixed `minBestEntropy` and `maxScore`, more entropy never lowers the score. */
  lemma ScoreMonotone(e1: real, e2: real, minBestEntropy: real, maxScore: int)
    requires minBestEntropy > 0.0 && maxScore >= 2
    requires e1 <= e2
    ensures Score(e1, minBestEntropy, maxScore) <= Score(e2, minBestEntropy, maxScore)
  {
    if e1 != 0.0 && e2 != 0.0 {
      var w := Step(minBestEntropy, maxScore);
      DivideMonotone(e1, e2, w);
      assert (e1 / w).Floor <= (e2 / w).Floor;
    }
  }
}
