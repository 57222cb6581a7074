/**
 * The `/api/safe-limit` handler of the Node server: it reads
 * `current_value` and `strategy` from the query string, with defaults for
 * missing values, looks the strategy's multiplier up in a fixed table and
 * answers with the shared safe-limit assessment.
 */
module Server {
  import opened Wrappers
  import opened SafeLimit

  /** The request's query parameters; None when a parameter is absent. */
  datatype SafeLimitQuery = SafeLimitQuery(currentValue: Option<real>, strategy: Option<string>)

  /** The fixed strategy table. */
  const StrategyMultipliers: map<string, real> :=
    map["Heavy Duty" := 0.8, "Gasoline" := 1.2, "Diesel" := 1.0, "Eco" := 0.5, "Manual" := 1.5]

  /**
   * The value parameter with JavaScript's falsy fallback: a missing or
   * unparseable value (NaN, modelled as None) becomes 0; a parsed 0 stays 0.
   */
  function CurrentValueOf(q: SafeLimitQuery): (v: real)
    ensures q.currentValue.None? ==> v == 0.0
    ensures q.currentValue.Some? ==> v == q.currentValue.value
  {
    q.currentValue.GetOr(0.0)
  }

  /** The strategy parameter with the falsy fallback: a missing or empty one becomes "Manual". */
  function StrategyOf(q: SafeLimitQuery): (s: string)
    ensures s != ""
    ensures q.strategy.Some? && q.strategy.value != "" ==> s == q.strategy.value
    ensures q.strategy.None? || q.strategy.value == "" ==> s == "Manual"
  {
    match q.strategy
    case None => "Manual"
    case Some(s) => if s == "" then "Manual" else s
  }

  /**
   * The table lookup with the falsy fallback: an absent entry (undefined)
   * or a zero entry gives 1.0.
   */
  function Multiplier(strategy: string): (m: real)
    ensures m > 0.0
  {
    var entry := if strategy in StrategyMultipliers then Some(StrategyMultipliers[strategy]) else None;
    if entry.None? || entry.value == 0.0 then 1.0 else entry.value
  }

  /** The handler body: the JSON object the response carries. */
  function SafeLimitHandler(q: SafeLimitQuery): (r: SafeLimitResult)
    ensures 0.0 <= r.riskScore <= 100.0
    ensures r.isSafe <==> CurrentValueOf(q) <= r.hardLimit
    ensures r.strategy != ""
  {
    var currentValue := CurrentValueOf(q);
    var strategy := StrategyOf(q);
    var multiplier := Multiplier(strategy);
    Assess(currentValue, strategy, multiplier)
  }

  // ---------------------------------------------------------------------
  // Properties
  // ---------------------------------------------------------------------

  /** The five multipliers, and 1.0 for every other name. */
  lemma MultiplierTable(strategy: string)
    ensures Multiplier("Heavy Duty") == 0.8
    ensures Multiplier("Gasoline") == 1.2
    ensures Multiplier("Diesel") == 1.0
    ensures Multiplier("Eco") == 0.5
    ensures Multiplier("Manual") == 1.5
    ensures strategy !in ["Heavy Duty", "Gasoline", "Diesel", "Eco", "Manual"] ==> Multiplier(strategy) == 1.0
  {
  }

  /** The hard limit of each strategy; they fall strictly as the multiplier rises. */
  lemma HardLimitTable(v: real)
    ensures SafeLimitHandler(SafeLimitQuery(Some(v), Some("Eco"))).hardLimit == 300.0
    ensures SafeLimitHandler(SafeLimitQuery(Some(v), Some("Heavy Duty"))).hardLimit == 187.5
    ensures SafeLimitHandler(SafeLimitQuery(Some(v), Some("Diesel"))).hardLimit == 150.0
    ensures SafeLimitHandler(SafeLimitQuery(Some(v), Some("Gasoline"))).hardLimit == 125.0
    ensures SafeLimitHandler(SafeLimitQuery(Some(v), Some("Manual"))).hardLimit == 100.0
  {
  }

  /** A missing strategy is "Manual"; a missing or unparseable value is 0. */
  lemma DefaultInputs(q: SafeLimitQuery)
    ensures q.strategy.None? ==>
              SafeLimitHandler(q) == SafeLimitHandler(SafeLimitQuery(q.currentValue, Some("Manual")))
    ensures q.currentValue.None? ==>
              SafeLimitHandler(q) == SafeLimitHandler(SafeLimitQuery(Some(0.0), q.strategy))
  {
  }

  /** A non-empty strategy string is echoed unchanged. */
  lemma EchoesStrategy(v: Option<real>, s: string)
    requires s != ""
    ensures SafeLimitHandler(SafeLimitQuery(v, Some(s))).strategy == s
  {
  }

  /** An unknown name is assessed exactly as Diesel, the table's 1.0 entry. */
  lemma UnknownStrategyIsDiesel(v: real, s: string)
    requires s != "" && s !in StrategyMultipliers
    ensures var r, d := SafeLimitHandler(SafeLimitQuery(Some(v), Some(s))),
                        SafeLimitHandler(SafeLimitQuery(Some(v), Some("Diesel")));
            r.riskScore == d.riskScore && r.hardLimit == d.hardLimit && r.isSafe == d.isSafe
  {
  }

  /** For a fixed strategy the risk score never falls as the value rises. */
  lemma RiskMonotone(v1: real, v2: real, s: Option<string>)
    requires v1 <= v2
    ensures SafeLimitHandler(SafeLimitQuery(Some(v1), s)).riskScore
         <= SafeLimitHandler(SafeLimitQuery(Some(v2), s)).riskScore
  {
    var strategy := StrategyOf(SafeLimitQuery(Some(v1), s));
    RiskScoreMonotone(v1, v2, Multiplier(strategy));
  }

  /** The three worked examples of the safe-limit engine. */
  lemma Scenarios()
    ensures SafeLimitHandler(SafeLimitQuery(Some(100.0), Some("Heavy Duty")))
         == SafeLimitResult(40.0, 187.5, "Heavy Duty", true)
    ensures SafeLimitHandler(SafeLimitQuery(Some(200.0), Some("Eco")))
         == SafeLimitResult(50.0, 300.0, "Eco", true)
    ensures SafeLimitHandler(SafeLimitQuery(Some(160.0), Some("UnknownXYZ")))
         == SafeLimitResult(80.0, 150.0, "UnknownXYZ", false)
  {
  }
}
