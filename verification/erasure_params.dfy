// ValidateECParams of slabs/slabs.go: the loops that sum the binomial tail, over exact reals.
module ErasureParams {

  const MIN_RECOVERY_PROBABILITY: real := 99.99
  const MAX_TOTAL_SHARDS := 256
  const MIN_REDUNDANCY: real := 1.5
  const MAX_REDUNDANCY: real := 4.0

  // C(n, k), by Pascal's rule.
  function Choose(n: nat, k: nat): nat {
    if k == 0 then 1 else if n == 0 then 0 else Choose(n - 1, k - 1) + Choose(n - 1, k)
  }

  // 0.75^i * 0.25^j: the chance that i given shards are available and j others are not.
  function Weight(i: nat, j: nat): (w: real)
    ensures w > 0.0
  {
    if i > 0 then 0.75 * Weight(i - 1, j) else if j > 0 then 0.25 * Weight(i, j - 1) else 1.0
  }

  // The probability that exactly i of n independent shards are available.
  function Exactly(n: nat, i: nat): real
    requires i <= n
  {
    Choose(n, i) as real * Weight(i, n - i)
  }

  // The probability that at least k of n shards are available.
  function AtLeast(n: nat, k: nat): real
    requires k <= n + 1
    decreases n + 1 - k
  {
    if k == n + 1 then 0.0 else Exactly(n, k) + AtLeast(n, k + 1)
  }

  lemma {:induction false} ChooseAboveIsZero(n: nat, k: nat)
    requires k > n
    ensures Choose(n, k) == 0
  {
    if n > 0 {
      ChooseAboveIsZero(n - 1, k - 1);
      ChooseAboveIsZero(n - 1, k);
    }
  }

  // The ratio of neighbouring coefficients, which is what the source multiplies by.
  lemma {:induction false} ChooseRatio(n: nat, k: nat)
    requires k < n
    ensures Choose(n, k + 1) * (k + 1) == Choose(n, k) * (n - k)
  {
    if k == 0 {
      ChooseOne(n);
    } else {
      ChooseRatio(n - 1, k - 1);
      if k < n - 1 {
        ChooseRatio(n - 1, k);
      } else {
        ChooseAboveIsZero(n - 1, k + 1);
      }
      RatioStep(Choose(n - 1, k - 1), Choose(n - 1, k), Choose(n - 1, k + 1), n, k);
    }
  }

  lemma {:induction false} ChooseOne(n: nat)
    requires n > 0
    ensures Choose(n, 1) == n
  {
    if n > 1 {
      ChooseOne(n - 1);
    }
  }

  lemma RatioStep(a: int, b: int, c: int, n: int, k: int)
    requires b * k == a * (n - k) && c * (k + 1) == b * (n - 1 - k)
    ensures (b + c) * (k + 1) == (a + b) * (n - k)
  {
    assert (b + c) * (k + 1) == b * k + b + c * (k + 1);
    assert b * (n - 1 - k) == b * (n - k) - b;
    assert (a + b) * (n - k) == a * (n - k) + b * (n - k);
  }

  lemma CastProduct(x: int, y: int)
    ensures (x * y) as real == x as real * y as real
  {
  }

  lemma {:induction false} WeightShift(i: nat, j: nat)
    ensures Weight(i + 1, j) == 0.75 * Weight(i, j)
    ensures Weight(i, j + 1) == 0.25 * Weight(i, j)
  {
    if i > 0 {
      WeightShift(i - 1, j);
    }
  }

  lemma ChooseRatioReal(n: nat, k: nat)
    requires k < n
    ensures Choose(n, k + 1) as real * (k + 1) as real == Choose(n, k) as real * (n - k) as real
  {
    ChooseRatio(n, k);
    CastProduct(Choose(n, k + 1), k + 1);
    CastProduct(Choose(n, k), n - k);
  }

  // One iteration of either loop turns the i-th term into the next one: 0.75 / 0.25 is 3.
  lemma NextTerm(n: nat, i: nat)
    requires i < n
    ensures Exactly(n, i + 1) == Exactly(n, i) * ((n - i) as real / (i + 1) as real * 3.0)
  {
    ChooseRatioReal(n, i);
    WeightShift(i, n - i - 1);
    NextTermArithmetic(Choose(n, i) as real, Choose(n, i + 1) as real, (n - i) as real, (i + 1) as real,
                       Weight(i, n - i), Weight(i + 1, n - i - 1));
  }

  lemma NextTermArithmetic(c: real, d: real, a: real, b: real, u: real, v: real)
    requires b > 0.0 && d * b == c * a && v == 3.0 * u
    ensures d * v == (c * u) * (a / b * 3.0)
  {
    var r := a / b;
    assert r * b == a;
    assert d == c * r by {
      Cancel(d, c * r, b);
    }
    assert (c * u) * (r * 3.0) == (c * r) * (3.0 * u);
  }

  lemma Cancel(x: real, y: real, b: real)
    requires b > 0.0 && x * b == y * b
    ensures x == y
  {
    assert (x - y) * b == 0.0;
  }

  // The same weight reached from one available shard less, and from one unavailable shard less.
  lemma WeightTwoWays(k: nat, j: nat)
    ensures Weight(k + 1, j + 1) == 0.75 * Weight(k, j + 1) == 0.25 * Weight(k + 1, j)
  {
    WeightShift(k, j + 1);
    WeightShift(k + 1, j);
  }

  lemma SumTimes(a: nat, b: nat, w: real)
    ensures (a + b) as real * w == a as real * w + b as real * w
  {
  }

  lemma ScaledTerm(a: real, w: real, v: real, f: real)
    requires w == f * v
    ensures a * w == f * (a * v)
  {
  }

  // Adding one shard: exactly k + 1 of n + 1 are available iff the new one is and k of the others
  // are, or it is not and k + 1 of the others are.
  lemma ExactlyStep(n: nat, k: nat)
    requires k <= n
    ensures Exactly(n + 1, k + 1) == 0.75 * Exactly(n, k) + (if k < n then 0.25 * Exactly(n, k + 1) else 0.0)
  {
    if k < n {
      InnerStep(n, k);
    } else {
      OuterStep(n);
    }
  }

  lemma InnerStep(n: nat, k: nat)
    requires k < n
    ensures Exactly(n + 1, k + 1) == 0.75 * Exactly(n, k) + 0.25 * Exactly(n, k + 1)
  {
    var a, b := Choose(n, k), Choose(n, k + 1);
    var w := Weight(k + 1, n - k);
    WeightTwoWays(k, n - k - 1);
    SumTimes(a, b, w);
    ScaledTerm(a as real, w, Weight(k, n - k), 0.75);
    ScaledTerm(b as real, w, Weight(k + 1, n - k - 1), 0.25);
  }

  lemma OuterStep(n: nat)
    ensures Exactly(n + 1, n + 1) == 0.75 * Exactly(n, n)
  {
    ChooseAboveIsZero(n, n + 1);
    WeightShift(n, 0);
    ScaledTerm(Choose(n, n) as real, Weight(n + 1, 0), Weight(n, 0), 0.75);
  }

  lemma {:induction false} AtLeastStep(n: nat, k: nat)
    requires k <= n
    ensures AtLeast(n + 1, k + 1) == 0.75 * AtLeast(n, k) + 0.25 * AtLeast(n, k + 1)
    decreases n - k
  {
    ExactlyStep(n, k);
    if k < n {
      AtLeastStep(n, k + 1);
    } else {
      assert AtLeast(n + 1, n + 2) == 0.0;
    }
  }

  // Every outcome has some number of available shards: (0.75 + 0.25)^n == 1.
  lemma {:induction false} BinomialTheorem(n: nat)
    ensures AtLeast(n, 0) == 1.0
  {
    if n > 0 {
      BinomialTheorem(n - 1);
      AtLeastStep(n - 1, 0);
      WeightShift(0, n - 1);
      assert Exactly(n, 0) == 0.25 * Exactly(n - 1, 0);
    }
  }

  lemma {:induction false} TailNonNegative(n: nat, k: nat)
    requires k <= n + 1
    ensures 0.0 <= AtLeast(n, k)
    decreases n + 1 - k
  {
    if k <= n {
      ExactlyNonNegative(n, k);
      TailNonNegative(n, k + 1);
    }
  }

  lemma ExactlyNonNegative(n: nat, k: nat)
    requires k <= n
    ensures Exactly(n, k) >= 0.0
  {
  }

  lemma {:induction false} TailBelowWhole(n: nat, k: nat)
    requires k <= n + 1
    ensures AtLeast(n, k) <= AtLeast(n, 0)
  {
    if k > 0 {
      ExactlyNonNegative(n, k - 1);
      TailBelowWhole(n, k - 1);
    }
  }

  // The tail is a probability.
  lemma TailIsProbability(n: nat, k: nat)
    requires k <= n + 1
    ensures 0.0 <= AtLeast(n, k) <= 1.0
  {
    BinomialTheorem(n);
    TailNonNegative(n, k);
    TailBelowWhole(n, k);
  }

  // Durability never drops when a parity shard is added, and never rises when one more data shard
  // is needed.
  lemma MoreParityNeverHurts(n: nat, k: nat)
    requires k <= n
    ensures AtLeast(n, k + 1) <= AtLeast(n, k) <= AtLeast(n + 1, k)
  {
    ExactlyNonNegative(n, k);
    if k == 0 {
      BinomialTheorem(n);
      BinomialTheorem(n + 1);
    } else {
      AtLeastStep(n, k - 1);
      ExactlyNonNegative(n, k - 1);
    }
  }

  datatype ECError =
    | TooManyShards | ZeroDataShards | ZeroTotalShards | DataAboveTotal | TooManyDataShards | TooManyParityShards
    | RedundancyTooLow | RedundancyTooHigh | NotDurable(percent: real)

  datatype Verdict = Accepted | Rejected(error: ECError)

  // The parameters are acceptable: shard counts in range, redundancy between 1.5 and 4, and a
  // recovery probability of at least 99.99 percent.
  ghost predicate Acceptable(dataShards: int, totalShards: int) {
    && 1 <= dataShards <= 255 && dataShards <= totalShards <= MAX_TOTAL_SHARDS && totalShards - dataShards <= 255
    && 3 * dataShards <= 2 * totalShards && totalShards <= 4 * dataShards
    && 100.0 * AtLeast(totalShards, dataShards) >= MIN_RECOVERY_PROBABILITY
  }

  // term *= float64(totalShards-i) / float64(i+1) * (p / q)
  method Multiply(term: real, totalShards: nat, i: nat) returns (next: real)
    requires i < totalShards && term == Exactly(totalShards, i)
    ensures next == Exactly(totalShards, i + 1)
  {
    NextTerm(totalShards, i);
    next := term * ((totalShards - i) as real / (i + 1) as real * 3.0);
  }

  // The two loops: the first walks the term up to C(n,k) p^k q^(n-k), the second sums the tail.
  method RecoveryProbability(dataShards: nat, totalShards: nat) returns (sum: real)
    requires dataShards <= totalShards
    ensures sum == AtLeast(totalShards, dataShards)
    ensures 0.0 <= sum <= 1.0
  {
    var term := Weight(0, totalShards);
    for i := 0 to dataShards
      invariant term == Exactly(totalShards, i)
    {
      term := Multiply(term, totalShards, i);
    }
    sum := term;
    var i := dataShards;
    while i < totalShards
      invariant dataShards <= i <= totalShards
      invariant term == Exactly(totalShards, i)
      invariant sum + AtLeast(totalShards, i + 1) == AtLeast(totalShards, dataShards)
    {
      term := Multiply(term, totalShards, i);
      sum := sum + term;
      i := i + 1;
    }
    TailIsProbability(totalShards, dataShards);
  }

  // Accepts exactly the acceptable parameters, for every pair of integers.
  method ValidateECParams(dataShards: int, totalShards: int) returns (v: Verdict)
    ensures v == Accepted <==> Acceptable(dataShards, totalShards)
    ensures v.Rejected? && v.error.NotDurable? ==>
              0 <= dataShards <= totalShards && v.error.percent == 100.0 * AtLeast(totalShards, dataShards)
  {
    if totalShards > MAX_TOTAL_SHARDS {
      return Rejected(TooManyShards);
    } else if dataShards == 0 {
      return Rejected(ZeroDataShards);
    } else if totalShards == 0 {
      return Rejected(ZeroTotalShards);
    } else if dataShards > totalShards {
      return Rejected(DataAboveTotal);
    } else if dataShards > 255 {
      return Rejected(TooManyDataShards);
    } else if totalShards - dataShards > 255 {
      return Rejected(TooManyParityShards);
    }
    var redundancy := totalShards as real / dataShards as real;
    RedundancyBounds(dataShards, totalShards);
    if redundancy < MIN_REDUNDANCY {
      return Rejected(RedundancyTooLow);
    } else if redundancy > MAX_REDUNDANCY {
      return Rejected(RedundancyTooHigh);
    }
    var sum := RecoveryProbability(dataShards, totalShards);
    var prob := sum * 100.0;
    if prob < MIN_RECOVERY_PROBABILITY {
      return Rejected(NotDurable(prob));
    }
    return Accepted;
  }

  lemma RedundancyBounds(k: int, n: int)
    requires k != 0 && k <= n
    ensures k > 0 ==> (n as real / k as real >= 1.5 <==> 3 * k <= 2 * n) && (n as real / k as real <= 4.0 <==> n <= 4 * k)
    ensures k < 0 ==> n as real / k as real < 1.5
  {
    CompareQuotient(n as real, 1.5, k as real);
    CompareQuotient(n as real, 4.0, k as real);
  }

  lemma CompareQuotient(x: real, bound: real, y: real)
    requires y != 0.0
    ensures y > 0.0 ==> (x / y >= bound <==> x >= bound * y) && (x / y <= bound <==> x <= bound * y)
    ensures y < 0.0 ==> (x / y < bound <==> x > bound * y)
  {
    var r := x / y;
    assert r * y == x;
    CompareProducts(r, bound, y);
  }

  lemma CompareProducts(r: real, s: real, y: real)
    ensures y > 0.0 ==> (r < s <==> r * y < s * y) && (r > s <==> r * y > s * y)
    ensures y < 0.0 ==> (r < s <==> r * y > s * y)
  {
    assert (s - r) * y == s * y - r * y;
  }
}
