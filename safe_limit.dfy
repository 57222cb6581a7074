/**
 * The safe-limit arithmetic that both backends compute for a proposed
 * parameter value and the multiplier of a tuning strategy: a risk score
 * clamped to [0, 100], a hard ceiling that shrinks as the multiplier
 * grows, and a verdict saying whether the value stays under the ceiling.
 */
module SafeLimit {

  /** The response of `/api/safe-limit` (risk_score, hard_limit, strategy, is_safe). */
  datatype SafeLimitResult = SafeLimitResult(riskScore: real, hardLimit: real, strategy: string, isSafe: bool)

  function Min(a: real, b: real): real
  {
    if a <= b then a else b
  }

  function Max(a: real, b: real): real
  {
    if a >= b then a else b
  }

  /** The value over the reference 100, times the base risk 50 and the multiplier, clamped to [0, 100]. */
  function RiskScore(currentValue: real, multiplier: real): (risk: real)
    ensures 0.0 <= risk <= 100.0
  {
    Min(100.0, Max(0.0, (currentValue / 100.0) * 50.0 * multiplier))
  }

  /** The base ceiling 150 divided by the multiplier: the largest value the strategy tolerates. */
  function HardLimit(multiplier: real): (limit: real)
    requires multiplier > 0.0
    ensures limit > 0.0
    ensures limit * multiplier == 150.0
  {
    150.0 * (1.0 / multiplier)
  }

  /** The response for a value and the multiplier its strategy resolved to. */
  function Assess(currentValue: real, strategy: string, multiplier: real): (r: SafeLimitResult)
    requires multiplier > 0.0
    ensures 0.0 <= r.riskScore <= 100.0
    ensures r.hardLimit > 0.0 && r.hardLimit * multiplier == 150.0
    ensures r.isSafe <==> currentValue <= r.hardLimit
    ensures r.strategy == strategy
  {
    var hardLimit := HardLimit(multiplier);
    SafeLimitResult(RiskScore(currentValue, multiplier), hardLimit, strategy, currentValue <= hardLimit)
  }

  /** For a fixed strategy the risk score never falls as the value rises. */
  lemma RiskScoreMonotone(v1: real, v2: real, multiplier: real)
    requires multiplier > 0.0
    requires v1 <= v2
    ensures RiskScore(v1, multiplier) <= RiskScore(v2, multiplier)
  {
    var d := v2 - v1;
    ProductNonnegative(d, multiplier);
    assert (v2 / 100.0) * 50.0 * multiplier == (v1 / 100.0) * 50.0 * multiplier + d * multiplier / 2.0;
  }

  /** The product of two non-negative reals is non-negative. */
  lemma ProductNonnegative(x: real, y: real)
    requires x >= 0.0 && y >= 0.0
    ensures x * y >= 0.0
  {
  }

  /** Below saturation the risk score is exactly value * multiplier / 2. */
  lemma RiskScoreUnclamped(currentValue: real, multiplier: real)
    requires 0.0 <= currentValue * multiplier <= 200.0
    ensures RiskScore(currentValue, multiplier) == currentValue * multiplier / 2.0
  {
  }

  /** At or above value * multiplier = 200 the risk score saturates at 100. */
  lemma RiskScoreSaturated(currentValue: real, multiplier: real)
    requires currentValue * multiplier >= 200.0
    ensures RiskScore(currentValue, multiplier) == 100.0
  {
  }

  /** At or below value * multiplier = 0 the risk score is clamped to 0. */
  lemma RiskScoreFloor(currentValue: real, multiplier: real)
    requires currentValue * multiplier <= 0.0
    ensures RiskScore(currentValue, multiplier) == 0.0
  {
  }

  /** A riskier strategy (larger multiplier) has a strictly lower ceiling. */
  lemma HardLimitDecreasing(m1: real, m2: real)
    requires 0.0 < m1 < m2
    ensures HardLimit(m1) > HardLimit(m2)
  {
    var h1, h2 := HardLimit(m1), HardLimit(m2);
    ProductNonnegative(h2, m2 - m1);
    assert (h1 - h2) * m1 == h2 * (m2 - m1);
    ProductPositiveCancel(h1 - h2, m1, h2 * (m2 - m1));
  }

  /** A product with a positive factor that is positive has a positive other factor. */
  lemma ProductPositiveCancel(x: real, y: real, p: real)
    requires y > 0.0 && x * y == p
    ensures p > 0.0 ==> x > 0.0
  {
  }

  /** The hard limit does not depend on the value being assessed. */
  lemma AssessLimitIndependentOfValue(v1: real, v2: real, strategy: string, multiplier: real)
    requires multiplier > 0.0
    ensures Assess(v1, strategy, multiplier).hardLimit == Assess(v2, strategy, multiplier).hardLimit
  {
  }

  /** A value below a safe value is safe too. */
  lemma AssessSafeDownwardClosed(v1: real, v2: real, strategy: string, multiplier: real)
    requires multiplier > 0.0
    requires v1 <= v2 && Assess(v2, strategy, multiplier).isSafe
    ensures Assess(v1, strategy, multiplier).isSafe
  {
  }
}
