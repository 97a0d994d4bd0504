/**
  The binary logarithm the entropy estimate is built on.

  The scorer calls the host's `Math.log2`, which this model cannot see. It is
  therefore a parameter `lg: nat -> real` of every member that needs it, and
  `IsLog2` states the laws any binary logarithm obeys on the positive integers.
  The bounds the worked examples need (for instance `6.5 < lg(96) < 7`) are
  derived from those laws rather than assumed.
 */
module Log2 {

  /** `b` raised to the power `k`. */
  function Pow(b: nat, k: nat): nat
  {
    if k == 0 then 1 else b * Pow(b, k - 1)
  }

  /** Integer product, named so that the product law of `IsLog2` has a trigger. */
  function Mul(a: nat, b: nat): nat
  {
    a * b
  }

  /** The laws of the binary logarithm, restricted to the positive integers. */
  ghost predicate IsLog2(lg: nat -> real)
  {
    && lg(2) == 1.0
    && (forall a: nat, b: nat {:trigger Mul(a, b)} :: 0 < a && 0 < b ==> lg(Mul(a, b)) == lg(a) + lg(b))
    && (forall a: nat, b: nat {:trigger lg(a), lg(b)} :: 0 < a < b ==> lg(a) < lg(b))
  }

  lemma LogOfOne(lg: nat -> real)
    requires IsLog2(lg)
    ensures lg(1) == 0.0
  {
    assert Mul(1, 1) == 1;
  }

  /** The logarithm of a positive integer is non-negative, and positive from 2 on. */
  lemma LogSign(lg: nat -> real, n: nat)
    requires IsLog2(lg)
    requires n >= 1
    ensures lg(n) >= 0.0
    ensures n >= 2 <==> lg(n) > 0.0
  {
    LogOfOne(lg);
    if n > 1 {
      assert lg(1) < lg(n);
    }
  }

  lemma LogMonotone(lg: nat -> real, a: nat, b: nat)
    requires IsLog2(lg)
    requires 0 < a <= b
    ensures lg(a) <= lg(b)
  {
    if a < b {
      assert lg(a) < lg(b);
    }
  }

  /** `lg(b^k) == k * lg(b)`: the product law applied `k` times. */
  lemma {:induction false} LogOfPow(lg: nat -> real, b: nat, k: nat)
    requires IsLog2(lg)
    requires b > 0
    ensures Pow(b, k) > 0
    ensures lg(Pow(b, k)) == k as real * lg(b)
  {
    if k == 0 {
      LogOfOne(lg);
    } else {
      LogOfPow(lg, b, k - 1);
      assert Pow(b, k) == Mul(b, Pow(b, k - 1));
    }
  }

  /** Exponents add under multiplication. */
  lemma {:induction false} PowAdd(b: nat, m: nat, n: nat)
    ensures Pow(b, m + n) == Pow(b, m) * Pow(b, n)
  {
    if m > 0 {
      PowAdd(b, m - 1, n);
      assert Pow(b, m + n) == b * Pow(b, m - 1 + n);
    }
  }

  /** 2^20 and 2^40, by halves. */
  lemma PowersOfTwo()
    ensures Pow(2, 20) == 1048576
    ensures Pow(2, 40) == 1099511627776
  {
    assert Pow(2, 10) == 1024;
    PowAdd(2, 10, 10);
    PowAdd(2, 20, 20);
  }

  /** `lg(2^k) == k`. */
  lemma LogOfPowerOfTwo(lg: nat -> real, k: nat)
    requires IsLog2(lg)
    ensures lg(Pow(2, k)) == k as real
  {
    LogOfPow(lg, 2, k);
  }

  /** 96 = 3 * 2^5, and 2^6 < 3^4 = 81 while 3^5 = 243 < 2^8, so 6.5 < lg(96) < 6.6. */
  lemma LogOf96(lg: nat -> real)
    requires IsLog2(lg)
    ensures 6.5 < lg(96) < 6.6
  {
    LogOfPow(lg, 3, 4);
    LogOfPowerOfTwo(lg, 6);
    assert Pow(3, 4) == 81;
    assert Pow(2, 6) == 64;
    assert lg(64) < lg(81);
    LogOfPow(lg, 3, 5);
    LogOfPowerOfTwo(lg, 8);
    assert Pow(3, 5) == 243;
    assert Pow(2, 8) == 256;
    assert lg(243) < lg(256);
    LogOfPowerOfTwo(lg, 5);
    assert Pow(2, 5) == 32;
    assert Mul(3, 32) == 96;
  }

  /** 2^40 < 53^7 and 53^4 < 2^23, so 40/7 < lg(53) < 23/4. */
  lemma LogOf53(lg: nat -> real)
    requires IsLog2(lg)
    ensures 40.0 / 7.0 < lg(53) < 23.0 / 4.0
  {
    LogOfPow(lg, 53, 7);
    LogOfPowerOfTwo(lg, 40);
    assert Pow(53, 7) == 1174711139837;
    PowersOfTwo();
    assert lg(1099511627776) < lg(1174711139837);
    LogOfPow(lg, 53, 4);
    LogOfPowerOfTwo(lg, 23);
    assert Pow(53, 4) == 7890481;
    assert Pow(2, 23) == 8388608;
    assert lg(7890481) < lg(8388608);
  }

  /** 95^3 < 2^20, so lg(95) < 20/3; and 2^6 < 95. */
  lemma LogOf95(lg: nat -> real)
    requires IsLog2(lg)
    ensures 6.0 < lg(95) < 20.0 / 3.0
  {
    LogOfPow(lg, 95, 3);
    LogOfPowerOfTwo(lg, 20);
    assert Pow(95, 3) == 857375;
    PowersOfTwo();
    assert lg(857375) < lg(1048576);
    LogOfPowerOfTwo(lg, 6);
    assert Pow(2, 6) == 64;
    assert lg(64) < lg(95);
  }
}
