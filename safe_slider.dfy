/**
 * The slider that shows the safe limit: it keeps the last risk score,
 * hard limit and verdict it received, colours its bar from them, and
 * never passes a value above the hard limit on to its owner.
 */
module SafeSlider {
  import opened Wrappers
  import opened SafeLimit
  import Server

  /** The slider's maximum when its owner gives none. */
  const DefaultMax: real := 200.0

  /** The component state the slider renders from. */
  datatype SliderState = SliderState(riskScore: real, hardLimit: real, isSafe: bool)

  /** The bar's colour bands. */
  datatype Colour = Red | Emerald | Yellow | Orange {

    /** The style class the bar is given. */
    function ClassName(): string
    {
      match this
      case Red => "bg-red-600"
      case Emerald => "bg-emerald-500"
      case Yellow => "bg-yellow-500"
      case Orange => "bg-orange-500"
    }
  }

  /** The state before any answer arrives: no risk, the range's maximum as limit, safe. */
  function InitialState(max: Option<real>): (s: SliderState)
    ensures s.riskScore == 0.0 && s.isSafe
    ensures max.Some? ==> s.hardLimit == max.value
    ensures max.None? ==> s.hardLimit == DefaultMax
  {
    SliderState(0.0, max.GetOr(DefaultMax), true)
  }

  /** The state the slider holds after the server's answer for a value and strategy. */
  function StateAfter(currentValue: real, strategy: string): SliderState
  {
    var r := Server.SafeLimitHandler(Server.SafeLimitQuery(Some(currentValue), Some(strategy)));
    SliderState(r.riskScore, r.hardLimit, r.isSafe)
  }

  /** `getSliderColor`: red when unsafe, otherwise banded by the risk score. */
  function SliderColour(s: SliderState): (c: Colour)
    ensures c == Red <==> !s.isSafe
    ensures c == Emerald ==> s.riskScore < 30.0
    ensures c == Orange ==> s.riskScore >= 70.0
  {
    if !s.isSafe then Red
    else if s.riskScore < 30.0 then Emerald
    else if s.riskScore < 70.0 then Yellow
    else Orange
  }

  /** `handleSliderChange`: the value handed to `onChange` for a new slider position. */
  function HandleSliderChange(s: SliderState, newValue: real): (v: real)
    ensures v <= s.hardLimit
    ensures v <= newValue
    ensures v == newValue || v == s.hardLimit
  {
    if newValue <= s.hardLimit then newValue else s.hardLimit
  }

  // ---------------------------------------------------------------------
  // Properties
  // ---------------------------------------------------------------------

  /** Each colour band and the exact condition that selects it. */
  lemma ColourBands(s: SliderState)
    ensures SliderColour(s) == Red <==> !s.isSafe
    ensures SliderColour(s) == Emerald <==> s.isSafe && s.riskScore < 30.0
    ensures SliderColour(s) == Yellow <==> s.isSafe && 30.0 <= s.riskScore < 70.0
    ensures SliderColour(s) == Orange <==> s.isSafe && 70.0 <= s.riskScore
  {
  }

  /** The class string the bar receives for each band, as the component returns it. */
  lemma SliderClassNames(s: SliderState)
    ensures SliderColour(s).ClassName() == "bg-red-600" <==> !s.isSafe
    ensures SliderColour(s).ClassName() == "bg-emerald-500" <==> s.isSafe && s.riskScore < 30.0
    ensures SliderColour(s).ClassName() == "bg-yellow-500" <==> s.isSafe && 30.0 <= s.riskScore < 70.0
    ensures SliderColour(s).ClassName() == "bg-orange-500" <==> s.isSafe && 70.0 <= s.riskScore
  {
    ColourBands(s);
  }

  /** A position at or under the limit is passed on unchanged, and clamping twice changes nothing. */
  lemma ClampKeepsSafeValues(s: SliderState, newValue: real)
    ensures newValue <= s.hardLimit ==> HandleSliderChange(s, newValue) == newValue
    ensures HandleSliderChange(s, HandleSliderChange(s, newValue)) == HandleSliderChange(s, newValue)
  {
  }

  /** The clamped value never falls as the slider moves up. */
  lemma ClampMonotone(s: SliderState, v1: real, v2: real)
    requires v1 <= v2
    ensures HandleSliderChange(s, v1) <= HandleSliderChange(s, v2)
  {
  }

  /** Before any answer the bar is emerald and the range's maximum is the limit. */
  lemma InitialStateColour(max: Option<real>, newValue: real)
    ensures SliderColour(InitialState(max)) == Emerald
    ensures HandleSliderChange(InitialState(max), newValue) <= max.GetOr(DefaultMax)
  {
  }

  /**
   * Once the server has answered for a strategy, every value the slider
   * passes on is one the server judges safe for that strategy.
   */
  lemma ClampedValueIsSafe(currentValue: real, strategy: string, newValue: real)
    ensures var v := HandleSliderChange(StateAfter(currentValue, strategy), newValue);
            Server.SafeLimitHandler(Server.SafeLimitQuery(Some(v), Some(strategy))).isSafe
  {
    var q := Server.SafeLimitQuery(Some(currentValue), Some(strategy));
    var v := HandleSliderChange(StateAfter(currentValue, strategy), newValue);
    var strategy' := Server.StrategyOf(q);
    AssessLimitIndependentOfValue(currentValue, v, strategy', Server.Multiplier(strategy'));
  }

  /** After the server's answer the bar is red exactly when the value is over the limit. */
  lemma RedExactlyOverLimit(currentValue: real, strategy: string)
    ensures SliderColour(StateAfter(currentValue, strategy)) == Red
            <==> currentValue > StateAfter(currentValue, strategy).hardLimit
  {
  }
}
