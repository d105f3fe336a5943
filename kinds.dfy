/** The kinds of metric an instrument records. */
module Kinds {

  /**
   * Marker counts events, Counter adds non-negative quantities, Level adds
   * signed deltas to a running total, Gauge records instantaneous values and
   * Timer records durations in microseconds. Percentile keeps every sample of
   * the period; the aggregation bucket knows it, the older outputs do not.
   */
  datatype InputKind = Marker | Counter | Level | Gauge | Timer | Percentile

  /** The `Debug` rendering of a kind: its variant name. */
  function KindName(k: InputKind): string
  {
    match k
    case Marker => "Marker"
    case Counter => "Counter"
    case Level => "Level"
    case Gauge => "Gauge"
    case Timer => "Timer"
    case Percentile => "Percentile"
  }

  /** Distinct kinds have distinct renderings. */
  lemma KindNameInjective(a: InputKind, b: InputKind)
    requires KindName(a) == KindName(b)
    ensures a == b
  {
  }
}
