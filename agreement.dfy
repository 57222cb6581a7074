/**
 * The two backends side by side: the Python service and the Node server
 * carry the same strategy table and answer every request that names a
 * strategy identically; they part only on an empty strategy string.
 */
module BackendAgreement {
  import opened Wrappers
  import opened SafeLimit
  import Server
  import Backend

  /** Both copies of the strategy table hold the same five entries. */
  lemma TablesAgree()
    ensures Backend.StrategyMultipliers == Server.StrategyMultipliers
  {
  }

  /** The lookup with a default and the lookup with a falsy fallback pick the same multiplier. */
  lemma MultipliersAgree(strategy: string)
    ensures Backend.Multiplier(strategy) == Server.Multiplier(strategy)
  {
  }

  /** For every value and non-empty strategy the two responses are equal. */
  lemma BackendsAgree(currentValue: real, strategy: string)
    requires strategy != ""
    ensures Backend.CalculateSafeLimit(currentValue, strategy)
         == Server.SafeLimitHandler(Server.SafeLimitQuery(Some(currentValue), Some(strategy)))
  {
    MultipliersAgree(strategy);
  }

  /**
   * An empty strategy string: the server treats it as "Manual" (limit 100)
   * while the Python service echoes it and uses 1.0 (limit 150).
   */
  lemma EmptyStrategyDiffers(currentValue: real)
    ensures Backend.CalculateSafeLimit(currentValue, "").hardLimit == 150.0
    ensures Server.SafeLimitHandler(Server.SafeLimitQuery(Some(currentValue), Some(""))).hardLimit == 100.0
    ensures Server.SafeLimitHandler(Server.SafeLimitQuery(Some(currentValue), Some(""))).strategy == "Manual"
  {
  }
}
