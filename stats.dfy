/**
 * Aggregated scores and the three preset statistics functions that turn a
 * metric's scores into publishable values: each score is retyped, renamed
 * or dropped.
 */
module Stats {
  import opened Wrappers
  import opened Machine
  import opened Kinds
  import opened Name

  /**
   * A score of one aggregation period. Mean and Rate are floating-point in the
   * source; here they are kept as the exact quotient num / den (den may be 0,
   * or even negative after a wrapped hit count). Percentile holds the
   * percentile and the sample found at its rank.
   */
  datatype ScoreType =
    | Count(n: ISize)
    | Sum(n: ISize)
    | Max(n: ISize)
    | Min(n: ISize)
    | Mean(num: int, den: int)
    | Rate(num: int, den: int)
    | Percentile(p: int, sample: ISize)

  /** A publishable statistic: the kind and name to publish under, and its value. */
  datatype Stat = Stat(kind: InputKind, name: NameParts, value: ISize)

  /** A statistics function: the metric's kind and name and one score, to an optional statistic. */
  type StatsFn = (InputKind, NameParts, ScoreType) -> Option<Stat>

  /** `(num as f64 / den as f64).round() as isize`, with the sign of the denominator folded into the numerator. */
  function RoundRatio(num: int, den: int): (r: ISize)
    ensures den == 0 && num > 0 ==> r == ISIZE_MAX
    ensures den == 0 && num < 0 ==> r == ISIZE_MIN
  {
    if den < 0 then RoundToISize(-num, -den) else RoundToISize(num, den)
  }

  /** The leaf appended by `stats_all` to the metric's name for each score. */
  function AllSuffix(score: ScoreType): string
  {
    match score
    case Count(_) => "count"
    case Sum(_) => "sum"
    case Mean(_, _) => "mean"
    case Max(_) => "max"
    case Min(_) => "min"
    case Rate(_, _) => "rate"
    case Percentile(_, _) => ""
  }

  /** `stats_all`: every score but Percentile is published under its own suffixed name. */
  function StatsAll(kind: InputKind, name: NameParts, score: ScoreType): (r: Option<Stat>)
    ensures r.Some? <==> !score.Percentile?
    ensures r.Some? ==> Within(r.value.name, name) && |r.value.name| == |name| + 1
  {
    match score
    case Count(hit) => Some(Stat(Counter, MakeName(name, "count"), hit))
    case Sum(sum) => Some(Stat(kind, MakeName(name, "sum"), sum))
    case Mean(n, d) => Some(Stat(kind, MakeName(name, "mean"), RoundRatio(n, d)))
    case Max(max) => Some(Stat(Gauge, MakeName(name, "max"), max))
    case Min(min) => Some(Stat(Gauge, MakeName(name, "min"), min))
    case Rate(n, d) => Some(Stat(Gauge, MakeName(name, "rate"), RoundRatio(n, d)))
    case Percentile(_, _) => None
  }

  /** `stats_average`: a Marker publishes its Count, every other kind its Mean, under the metric's own name. */
  function StatsAverage(kind: InputKind, name: NameParts, score: ScoreType): (r: Option<Stat>)
    ensures r.Some? ==> r.value.name == name
  {
    if kind == Marker then
      (match score
       case Count(count) => Some(Stat(Counter, name, count))
       case _ => None)
    else
      (match score
       case Mean(n, d) => Some(Stat(Gauge, name, RoundRatio(n, d)))
       case _ => None)
  }

  /**
   * `stats_summary`: Markers publish their Count, Counters and Timers their Sum,
   * Gauges and Levels their Mean, under the metric's own name. The Percentile
   * kind publishes nothing.
   */
  function StatsSummary(kind: InputKind, name: NameParts, score: ScoreType): (r: Option<Stat>)
    ensures r.Some? ==> r.value.name == name
  {
    match kind
    case Marker =>
      (match score
       case Count(count) => Some(Stat(Counter, name, count))
       case _ => None)
    case Counter | Timer =>
      (match score
       case Sum(sum) => Some(Stat(kind, name, sum))
       case _ => None)
    case Gauge | Level =>
      (match score
       case Mean(n, d) => Some(Stat(Gauge, name, RoundRatio(n, d)))
       case _ => None)
    case Percentile => None
  }

  /** The function used when a bucket has none of its own. */
  function DefaultStats(): (f: StatsFn)
    ensures forall kind, name, score :: f(kind, name, score).Some? ==> f(kind, name, score).value.name == name
  {
    StatsSummary
  }

  /** `stats_all` gives distinct score types distinct names, so the statistics of one metric never collide. */
  lemma StatsAllNamesDistinct(kind: InputKind, name: NameParts, a: ScoreType, b: ScoreType)
    requires !a.Percentile? && !b.Percentile?
    requires AllSuffix(a) != AllSuffix(b)
    ensures StatsAll(kind, name, a).value.name != StatsAll(kind, name, b).value.name
  {
    assert StatsAll(kind, name, a).value.name[|name|] == AllSuffix(a);
    assert StatsAll(kind, name, b).value.name[|name|] == AllSuffix(b);
  }

  /** `stats_all` publishes Count as a Counter, Max, Min and Rate as Gauges, and Sum and Mean with the metric's kind. */
  lemma StatsAllRetypes(kind: InputKind, name: NameParts, score: ScoreType)
    requires !score.Percentile?
    ensures var k := StatsAll(kind, name, score).value.kind;
      (score.Count? ==> k == Counter)
      && (score.Max? || score.Min? || score.Rate? ==> k == Gauge)
      && (score.Sum? || score.Mean? ==> k == kind)
  {
  }

  /** `stats_all` publishes the integer scores unchanged and the quotients rounded. */
  lemma StatsAllValues(kind: InputKind, name: NameParts, score: ScoreType)
    requires !score.Percentile?
    ensures var v := StatsAll(kind, name, score).value.value;
      (score.Count? || score.Sum? || score.Max? || score.Min? ==> v == score.n)
      && (score.Mean? || score.Rate? ==> v == RoundRatio(score.num, score.den))
  {
  }

  /** Exactly what `stats_average` keeps: a Marker's Count as a Counter, any other kind's Mean as a Gauge. */
  lemma StatsAverageKeeps(kind: InputKind, name: NameParts, score: ScoreType)
    ensures var r := StatsAverage(kind, name, score);
      (r.Some? <==> (if kind == Marker then score.Count? else score.Mean?))
      && (r.Some? && kind == Marker ==> r.value.kind == Counter && r.value.value == score.n)
      && (r.Some? && kind != Marker ==> r.value.kind == Gauge)
  {
  }

  /** Exactly what `stats_summary` keeps, and how it retypes it. */
  lemma StatsSummaryKeeps(kind: InputKind, name: NameParts, score: ScoreType)
    ensures var r := StatsSummary(kind, name, score);
      (r.Some? <==>
        (kind == Marker && score.Count?)
        || ((kind == Counter || kind == Timer) && score.Sum?)
        || ((kind == Gauge || kind == Level) && score.Mean?))
      && (r.Some? && kind == Marker ==> r.value.kind == Counter && r.value.value == score.n)
      && (r.Some? && (kind == Counter || kind == Timer) ==> r.value.kind == kind && r.value.value == score.n)
      && (r.Some? && (kind == Gauge || kind == Level) ==> r.value.kind == Gauge)
  {
  }

  /** Percentile scores are dropped by all three presets. */
  lemma PresetsDropPercentiles(kind: InputKind, name: NameParts, p: int, v: ISize)
    ensures StatsAll(kind, name, ScoreType.Percentile(p, v)).None?
    ensures StatsAverage(kind, name, ScoreType.Percentile(p, v)).None?
    ensures StatsSummary(kind, name, ScoreType.Percentile(p, v)).None?
  {
  }

  /** A statistics function that never publishes under an empty name when given a non-empty one. */
  ghost predicate KeepsNames(f: StatsFn)
  {
    forall kind, name, score :: |name| > 0 && f(kind, name, score).Some? ==> |f(kind, name, score).value.name| > 0
  }

  /** The three presets publish under the metric's name or a name one part longer. */
  lemma PresetsKeepNames()
    ensures KeepsNames(StatsAll) && KeepsNames(StatsAverage) && KeepsNames(StatsSummary)
  {
  }
}
