/**
  Rule evaluation: the weighted character-class and length rules, and the fold
  that tests each of them against a password and totals the weights of those
  that pass (`validatePasswordRules`).

  The source's rules carry a JavaScript regular expression. Only two shapes of
  expression occur, and each is modelled by what it matches:
  - a bracket class `[...]`, matched by a string holding at least one character
    of the class (`AnyOf`);
  - `.{n,}`, matched by a string holding a run of `n` consecutive characters
    none of which is a line terminator (`RunOf`).
 */
module Rules {

  /** One member of a bracket class: the range `lo-hi`, or the single character `lo` when `lo == hi`. */
  datatype CharRange = CharRange(lo: char, hi: char)

  predicate InRange(r: CharRange, c: char)
  {
    r.lo <= c <= r.hi
  }

  /** `c` is matched by the bracket class made of the ranges `cls`. */
  predicate InClass(cls: seq<CharRange>, c: char)
  {
    exists k :: 0 <= k < |cls| && InRange(cls[k], c)
  }

  /** The characters that `.` in a regular expression does not match. */
  predicate IsLineTerminator(c: char)
  {
    c == '\n' || c == '\r' || c == '\U{2028}' || c == '\U{2029}'
  }

  datatype Pattern =
    | AnyOf(cls: seq<CharRange>)  // `[...]`
    | RunOf(min: nat)             // `.{min,}`

  /** `s[i..i+n]` lies inside `s` and holds no line terminator. */
  predicate RunAt(s: string, i: int, n: nat)
  {
    0 <= i && i + n <= |s| && forall j :: i <= j < i + n ==> !IsLineTerminator(s[j])
  }

  /** The fewest characters a match of `p` takes. */
  function MinimumLength(p: Pattern): nat
  {
    match p
    case AnyOf(_) => 1
    case RunOf(n) => n
  }

  /**
    `RegExp.prototype.test`: some part of `s` matches the pattern. A match
    takes at least `MinimumLength(p)` characters of the password.
   */
  predicate Test(p: Pattern, s: string)
    ensures Test(p, s) ==> |s| >= MinimumLength(p)
  {
    match p
    case AnyOf(cls) => exists i :: 0 <= i < |s| && InClass(cls, s[i])
    case RunOf(n) => exists i :: 0 <= i <= |s| - n && RunAt(s, i, n)
  }

  /** A weighted rule and the outcome of its last evaluation. */
  datatype Rule = Rule(pattern: Pattern, points: nat, message: string, passed: bool)

  /** What `validatePasswordRules` returns: the total weight of the rules that passed, and the rules. */
  datatype Evaluation = Evaluation(points: nat, result: seq<Rule>)

  /** Sum of the weights of the rules whose `passed` flag is set. */
  function PassedPoints(rules: seq<Rule>): nat
  {
    if |rules| == 0 then 0
    else (if rules[0].passed then rules[0].points else 0) + PassedPoints(rules[1..])
  }

  /** Sum of the weights of all the rules: the most a password can collect. */
  function TotalPoints(rules: seq<Rule>): nat
  {
    if |rules| == 0 then 0 else rules[0].points + TotalPoints(rules[1..])
  }

  /** Every rule has a positive weight. */
  predicate PositiveWeights(rules: seq<Rule>)
  {
    forall i :: 0 <= i < |rules| ==> rules[i].points > 0
  }

  /** Every rule's pattern matches `s`. */
  predicate AllMatch(rules: seq<Rule>, s: string)
  {
    forall i :: 0 <= i < |rules| ==> Test(rules[i].pattern, s)
  }

  /** `b` is `a` with only the `passed` flags possibly changed. */
  predicate SameDefinitions(a: seq<Rule>, b: seq<Rule>)
  {
    |a| == |b| &&
    forall i :: 0 <= i < |a| ==>
      a[i].pattern == b[i].pattern && a[i].points == b[i].points && a[i].message == b[i].message
  }

  lemma {:induction false} PassedPointsAppend(rules: seq<Rule>, r: Rule)
    ensures PassedPoints(rules + [r]) == PassedPoints(rules) + (if r.passed then r.points else 0)
  {
    if |rules| > 0 {
      assert (rules + [r])[1..] == rules[1..] + [r];
      PassedPointsAppend(rules[1..], r);
    }
  }

  /**
    `validatePasswordRules`: every rule is tested in order, its `passed` flag
    overwritten with the outcome, and the weight of each passing rule added to
    the running total. The rules come back as a fresh list.
   */
  function EvaluateRules(password: string, rules: seq<Rule>): (e: Evaluation)
    ensures SameDefinitions(rules, e.result)
    ensures forall i :: 0 <= i < |rules| ==> e.result[i].passed == Test(rules[i].pattern, password)
    ensures e.points == PassedPoints(e.result)
  {
    if |rules| == 0 then Evaluation(0, [])
    else
      var prefix := EvaluateRules(password, rules[..|rules| - 1]);
      var last := rules[|rules| - 1];
      var passed := Test(last.pattern, password);
      var rule := last.(passed := passed);
      PassedPointsAppend(prefix.result, rule);
      Evaluation(prefix.points + (if passed then last.points else 0), prefix.result + [rule])
  }

  lemma {:induction false} PassedAtMostTotal(rules: seq<Rule>)
    ensures PassedPoints(rules) <= TotalPoints(rules)
    ensures PositiveWeights(rules) ==>
              (PassedPoints(rules) == TotalPoints(rules) <==> forall i :: 0 <= i < |rules| ==> rules[i].passed)
  {
    if |rules| > 0 {
      PassedAtMostTotal(rules[1..]);
      if PositiveWeights(rules) && PassedPoints(rules) == TotalPoints(rules) {
        forall i | 0 <= i < |rules|
          ensures rules[i].passed
        {
          if i > 0 {
            assert rules[1..][i - 1] == rules[i];
          }
        }
      }
    }
  }

  lemma {:induction false} TotalPointsOfSameDefinitions(a: seq<Rule>, b: seq<Rule>)
    requires SameDefinitions(a, b)
    ensures TotalPoints(a) == TotalPoints(b)
  {
    if |a| > 0 {
      TotalPointsOfSameDefinitions(a[1..], b[1..]);
    }
  }

  /**
    The total is at most the sum of all weights; when every weight is positive
    it reaches that sum exactly when every rule matches.
   */
  lemma EvaluationPointsBound(password: string, rules: seq<Rule>)
    ensures EvaluateRules(password, rules).points <= TotalPoints(rules)
    ensures PositiveWeights(rules) ==>
              (EvaluateRules(password, rules).points == TotalPoints(rules) <==> AllMatch(rules, password))
  {
    var e := EvaluateRules(password, rules);
    TotalPointsOfSameDefinitions(rules, e.result);
    PassedAtMostTotal(e.result);
    assert PositiveWeights(rules) ==> PositiveWeights(e.result);
  }

  /**
    The flags a rule list carries before evaluation play no part: evaluating
    two lists with the same definitions gives the same result. In particular
    evaluating the same password again is idempotent.
   */
  lemma {:induction false} EvaluationIgnoresPriorFlags(password: string, a: seq<Rule>, b: seq<Rule>)
    requires SameDefinitions(a, b)
    ensures EvaluateRules(password, a) == EvaluateRules(password, b)
  {
    if |a| > 0 {
      EvaluationIgnoresPriorFlags(password, a[..|a| - 1], b[..|b| - 1]);
    }
  }

  /** `b` has the patterns and weights of `a`; messages and flags may differ. */
  predicate SameScoring(a: seq<Rule>, b: seq<Rule>)
  {
    |a| == |b| &&
    forall i :: 0 <= i < |a| ==> a[i].pattern == b[i].pattern && a[i].points == b[i].points
  }

  lemma {:induction false} PassedPointsOfSameFlags(a: seq<Rule>, b: seq<Rule>)
    requires SameScoring(a, b)
    requires forall i :: 0 <= i < |a| ==> a[i].passed == b[i].passed
    ensures PassedPoints(a) == PassedPoints(b)
  {
    if |a| > 0 {
      PassedPointsOfSameFlags(a[1..], b[1..]);
    }
  }

  /** Messages play no part in evaluation: rules with the same patterns and weights pass alike and total alike. */
  lemma EvaluationIgnoresMessages(password: string, a: seq<Rule>, b: seq<Rule>)
    requires SameScoring(a, b)
    ensures EvaluateRules(password, a).points == EvaluateRules(password, b).points
    ensures forall i :: 0 <= i < |a| ==>
              EvaluateRules(password, a).result[i].passed == EvaluateRules(password, b).result[i].passed
  {
    var ea, eb := EvaluateRules(password, a), EvaluateRules(password, b);
    PassedPointsOfSameFlags(ea.result, eb.result);
  }

  lemma EvaluationIdempotent(password: string, rules: seq<Rule>)
    ensures EvaluateRules(password, EvaluateRules(password, rules).result) == EvaluateRules(password, rules)
  {
    EvaluationIgnoresPriorFlags(password, rules, EvaluateRules(password, rules).result);
  }

  lemma {:induction false} PassedPointsConcat(a: seq<Rule>, b: seq<Rule>)
    ensures PassedPoints(a + b) == PassedPoints(a) + PassedPoints(b)
  {
    if |a| > 0 {
      assert (a + b)[1..] == a[1..] + b;
      PassedPointsConcat(a[1..], b);
    } else {
      assert a + b == b;
    }
  }

  /** Rules are evaluated independently: splitting the list splits the result. */
  lemma EvaluationOfConcat(password: string, a: seq<Rule>, b: seq<Rule>)
    ensures EvaluateRules(password, a + b).result == EvaluateRules(password, a).result + EvaluateRules(password, b).result
    ensures EvaluateRules(password, a + b).points == EvaluateRules(password, a).points + EvaluateRules(password, b).points
  {
    var ea, eb, eab := EvaluateRules(password, a), EvaluateRules(password, b), EvaluateRules(password, a + b);
    forall i | 0 <= i < |a + b|
      ensures eab.result[i] == (ea.result + eb.result)[i]
    {
      if i >= |a| {
        assert (a + b)[i] == b[i - |a|];
      }
    }
    assert eab.result == ea.result + eb.result;
    PassedPointsConcat(ea.result, eb.result);
  }

  /** Taking rule `k` out of a list takes its points out of the total. */
  lemma PointsWithout(password: string, b: seq<Rule>, k: int)
    requires 0 <= k < |b|
    ensures EvaluateRules(password, b).points
            == EvaluateRules(password, [b[k]]).points + EvaluateRules(password, b[..k] + b[k + 1..]).points
  {
    var front, back := b[..k], b[k + 1..];
    assert b == (front + [b[k]]) + back;
    EvaluationOfConcat(password, front + [b[k]], back);
    EvaluationOfConcat(password, front, [b[k]]);
    EvaluationOfConcat(password, front, back);
  }

  /** The first rule's points and the rest's add up to the total. */
  lemma PointsWithoutFirst(password: string, a: seq<Rule>)
    requires 0 < |a|
    ensures EvaluateRules(password, a).points
            == EvaluateRules(password, [a[0]]).points + EvaluateRules(password, a[1..]).points
  {
    assert a == [a[0]] + a[1..];
    EvaluationOfConcat(password, [a[0]], a[1..]);
  }

  /** Removing a matched element from two equal multisets leaves equal multisets. */
  lemma MultisetWithout<T>(a: seq<T>, b: seq<T>, k: int)
    requires multiset(a) == multiset(b)
    requires 0 < |a| && 0 <= k < |b| && b[k] == a[0]
    ensures multiset(a[1..]) == multiset(b[..k] + b[k + 1..])
  {
    var x, rest := a[0], b[..k] + b[k + 1..];
    assert a == [x] + a[1..];
    assert b == (b[..k] + [x]) + b[k + 1..];
    assert multiset(a) == multiset([x]) + multiset(a[1..]);
    assert multiset(b) == multiset(b[..k]) + multiset([x]) + multiset(b[k + 1..]);
    assert multiset(rest) == multiset(b[..k]) + multiset(b[k + 1..]);
    forall y
      ensures multiset(a[1..])[y] == multiset(rest)[y]
    {
      assert multiset(a)[y] == multiset([x])[y] + multiset(a[1..])[y];
      assert multiset(b)[y] == multiset(b[..k])[y] + multiset([x])[y] + multiset(b[k + 1..])[y];
    }
  }

  /**
    The order of the rules changes the order of the result, never the total:
    any rearrangement of the same rules collects the same points.
   */
  lemma {:induction false} EvaluationPointsIgnoreOrder(password: string, a: seq<Rule>, b: seq<Rule>)
    requires multiset(a) == multiset(b)
    ensures EvaluateRules(password, a).points == EvaluateRules(password, b).points
    decreases |a|
  {
    if |a| == 0 {
      assert |b| == |multiset(b)| == 0;
      assert b == [];
    } else {
      assert a[0] in multiset(b);
      var k :| 0 <= k < |b| && b[k] == a[0];
      MultisetWithout(a, b, k);
      EvaluationPointsIgnoreOrder(password, a[1..], b[..k] + b[k + 1..]);
      PointsWithoutFirst(password, a);
      PointsWithout(password, b, k);
    }
  }

  /** On the empty password no class matches, and a length rule matches only when its minimum is 0. */
  lemma EmptyPasswordMatches(p: Pattern)
    ensures Test(p, "") <==> p.RunOf? && p.min == 0
  {
    if p.RunOf? && p.min == 0 {
      assert RunAt("", 0, 0);
    }
  }

  /** The expressions are unanchored: a match inside `t` is a match inside any text around `t`. */
  lemma TestUnanchored(p: Pattern, s: string, t: string, u: string)
    requires Test(p, t)
    ensures Test(p, s + t + u)
  {
    var w := s + t + u;
    match p
    case AnyOf(cls) =>
      var i :| 0 <= i < |t| && InClass(cls, t[i]);
      assert w[|s| + i] == t[i];
    case RunOf(n) =>
      var i :| 0 <= i <= |t| - n && RunAt(t, i, n);
      forall j | |s| + i <= j < |s| + i + n
        ensures !IsLineTerminator(w[j])
      {
        assert w[j] == t[j - |s|];
      }
      assert RunAt(w, |s| + i, n);
  }

  /**
    On a password without line terminators, `.{n,}` matches exactly when the
    password is at least `n` characters long.
   */
  lemma RunOfMatchesLength(s: string, n: nat)
    requires forall j :: 0 <= j < |s| ==> !IsLineTerminator(s[j])
    ensures Test(RunOf(n), s) <==> |s| >= n
  {
    if |s| >= n {
      assert RunAt(s, 0, n);
    }
  }

  /** A line terminator splits the password: `.{n,}` must match inside one of the two sides. */
  lemma RunOfAcrossTerminator(s: string, t: string, c: char, n: nat)
    requires IsLineTerminator(c)
    ensures Test(RunOf(n), s + [c] + t) <==> Test(RunOf(n), s) || Test(RunOf(n), t)
  {
    var w := s + [c] + t;
    if Test(RunOf(n), w) {
      var i :| 0 <= i <= |w| - n && RunAt(w, i, n);
      if i + n <= |s| {
        assert RunAt(s, i, n) by {
          forall j | i <= j < i + n ensures !IsLineTerminator(s[j]) {
            assert w[j] == s[j];
          }
        }
      } else {
        assert w[|s|] == c;
        assert i > |s|;
        assert RunAt(t, i - |s| - 1, n) by {
          forall j | i - |s| - 1 <= j < i - |s| - 1 + n ensures !IsLineTerminator(t[j]) {
            assert w[j + |s| + 1] == t[j];
          }
        }
      }
    }
    if Test(RunOf(n), s) {
      var i :| 0 <= i <= |s| - n && RunAt(s, i, n);
      assert RunAt(w, i, n) by {
        forall j | i <= j < i + n ensures !IsLineTerminator(w[j]) {
          assert w[j] == s[j];
        }
      }
    }
    if Test(RunOf(n), t) {
      var i :| 0 <= i <= |t| - n && RunAt(t, i, n);
      assert RunAt(w, i + |s| + 1, n) by {
        forall j | i + |s| + 1 <= j < i + |s| + 1 + n ensures !IsLineTerminator(w[j]) {
          assert w[j] == t[j - |s| - 1];
        }
      }
    }
  }
}
