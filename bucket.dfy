/**
 * The aggregation bucket: one set of scores per prefixed metric name, drained
 * on flush through a statistics function into a map scope.
 */
module Bucket {
  import opened Wrappers
  import opened Machine
  import opened Kinds
  import opened Name
  import opened Stats
  import opened Attributes
  import opened MapOutput
  import opened Atomic
  import opened Orderings

  /** The values held by one metric's scores. */
  datatype ScoresState = ScoresState(kind: InputKind, cells: Cells, samples: seq<ISize>)

  /** What a reset leaves of a metric's values. */
  function StateAfterReset(st: ScoresState): ScoresState
  {
    ScoresState(st.kind, AfterSnapshot(st.cells),
      if st.cells[HIT] != 0 then [] else st.samples)
  }

  /** One metric that had data, with the scores its reset listed. */
  datatype Drained = Drained(name: NameParts, kind: InputKind, scores: seq<ScoreType>)

  /** The metrics `flush_to` collects, visiting the names in `order`: those whose reset returns scores. */
  function DrainOf(states: map<NameParts, ScoresState>, order: seq<NameParts>, elapsedUs: nat): (r: seq<Drained>)
    requires forall i :: 0 <= i < |order| ==> order[i] in states
    ensures |r| <= |order|
    ensures forall i :: 0 <= i < |r| ==> r[i].name in order && r[i].kind == states[r[i].name].kind
  {
    if |order| == 0 then []
    else
      var n := order[|order| - 1];
      var st := states[n];
      DrainOf(states, order[..|order| - 1], elapsedUs)
        + match ResetOf(st.kind, st.cells, st.samples, elapsedUs)
          case None => []
          case Some(l) => [Drained(n, st.kind, l)]
  }

  /** The statistics published for one metric's scores, in order. */
  function PublishedScores(f: StatsFn, kind: InputKind, name: NameParts, scores: seq<ScoreType>): (r: seq<Stat>)
    ensures |r| <= |scores|
  {
    if |scores| == 0 then []
    else
      PublishedScores(f, kind, name, scores[..|scores| - 1])
        + match f(kind, name, scores[|scores| - 1])
          case None => []
          case Some(st) => [st]
  }

  /** A statistics function that keeps exactly the score at `i` publishes that score's statistic alone. */
  lemma {:induction false} PublishedOnly(f: StatsFn, kind: InputKind, name: NameParts, scores: seq<ScoreType>, i: nat)
    requires i < |scores| && f(kind, name, scores[i]).Some?
    requires forall j :: 0 <= j < |scores| && j != i ==> f(kind, name, scores[j]).None?
    ensures PublishedScores(f, kind, name, scores) == [f(kind, name, scores[i]).value]
  {
    var front := scores[..|scores| - 1];
    if i == |scores| - 1 {
      PublishedNone(f, kind, name, front);
    } else {
      PublishedOnly(f, kind, name, front, i);
    }
  }

  /** A statistics function that keeps none of the scores publishes nothing. */
  lemma {:induction false} PublishedNone(f: StatsFn, kind: InputKind, name: NameParts, scores: seq<ScoreType>)
    requires forall j :: 0 <= j < |scores| ==> f(kind, name, scores[j]).None?
    ensures PublishedScores(f, kind, name, scores) == []
  {
    if |scores| > 0 {
      PublishedNone(f, kind, name, scores[..|scores| - 1]);
    }
  }

  /** A statistics function that keeps every score publishes one statistic per score, in order. */
  lemma {:induction false} PublishedEvery(f: StatsFn, kind: InputKind, name: NameParts, scores: seq<ScoreType>)
    requires forall j :: 0 <= j < |scores| ==> f(kind, name, scores[j]).Some?
    ensures var p := PublishedScores(f, kind, name, scores);
      |p| == |scores| && forall j :: 0 <= j < |scores| ==> p[j] == f(kind, name, scores[j]).value
  {
    if |scores| > 0 {
      PublishedEvery(f, kind, name, scores[..|scores| - 1]);
    }
  }

  /** The value `stats_summary` keeps of a metric with data: its hits, its sum, or its rounded mean, by kind. */
  function SummaryStat(kind: InputKind, name: NameParts, c: Cells): Stat
  {
    match kind
    case Marker => Stat(Counter, name, c[HIT])
    case Counter | Timer => Stat(kind, name, c[SUM])
    case _ => Stat(Gauge, name, RoundRatio(c[SUM], c[HIT]))
  }

  /** The value `stats_average` keeps of a metric with data: a Marker's hits, any other kind's rounded mean. */
  function AverageStat(kind: InputKind, name: NameParts, c: Cells): Stat
  {
    if kind == Marker then Stat(Counter, name, c[HIT]) else Stat(Gauge, name, RoundRatio(c[SUM], c[HIT]))
  }

  /**
   * Over the scores a reset lists, `stats_summary` publishes exactly one
   * value per metric, under the metric's own name; a Percentile metric
   * publishes none.
   */
  lemma SummaryOnePerMetric(kind: InputKind, name: NameParts, c: Cells, samples: seq<ISize>, elapsedUs: nat)
    requires c[HIT] != 0
    ensures var p := PublishedScores(StatsSummary, kind, name, ResetOf(kind, c, samples, elapsedUs).value);
      p == if kind == InputKind.Percentile then [] else [SummaryStat(kind, name, c)]
  {
    var l := ResetOf(kind, c, samples, elapsedUs).value;
    match kind {
      case Marker => ResetListMarker(c, samples, elapsedUs); PublishedOnly(StatsSummary, kind, name, l, 0);
      case Gauge => ResetListGauge(c, samples, elapsedUs); PublishedOnly(StatsSummary, kind, name, l, 2);
      case Level => ResetListFull(kind, c, samples, elapsedUs); PublishedOnly(StatsSummary, kind, name, l, 4);
      case Counter => ResetListFull(kind, c, samples, elapsedUs); PublishedOnly(StatsSummary, kind, name, l, 1);
      case Timer => ResetListFull(kind, c, samples, elapsedUs); PublishedOnly(StatsSummary, kind, name, l, 1);
      case Percentile => ResetListPercentile(c, samples, elapsedUs); PublishedNone(StatsSummary, kind, name, l);
    }
  }

  /**
   * Over the scores a reset lists, `stats_average` publishes exactly one
   * value per metric, under the metric's own name; a Percentile metric
   * publishes none.
   */
  lemma AverageOnePerMetric(kind: InputKind, name: NameParts, c: Cells, samples: seq<ISize>, elapsedUs: nat)
    requires c[HIT] != 0
    ensures var p := PublishedScores(StatsAverage, kind, name, ResetOf(kind, c, samples, elapsedUs).value);
      p == if kind == InputKind.Percentile then [] else [AverageStat(kind, name, c)]
  {
    var l := ResetOf(kind, c, samples, elapsedUs).value;
    match kind {
      case Marker => ResetListMarker(c, samples, elapsedUs); PublishedOnly(StatsAverage, kind, name, l, 0);
      case Gauge => ResetListGauge(c, samples, elapsedUs); PublishedOnly(StatsAverage, kind, name, l, 2);
      case Percentile => ResetListPercentile(c, samples, elapsedUs); PublishedNone(StatsAverage, kind, name, l);
      case _ => AverageFull(kind, name, c, samples, elapsedUs);
    }
  }

  /** The kinds whose reset lists all five scores publish their mean under `stats_average`. */
  lemma AverageFull(kind: InputKind, name: NameParts, c: Cells, samples: seq<ISize>, elapsedUs: nat)
    requires c[HIT] != 0 && (kind == Counter || kind == Level || kind == Timer)
    ensures PublishedScores(StatsAverage, kind, name, ResetOf(kind, c, samples, elapsedUs).value) == [AverageStat(kind, name, c)]
  {
    var l := ResetOf(kind, c, samples, elapsedUs).value;
    ResetListFull(kind, c, samples, elapsedUs);
    PublishedOnly(StatsAverage, kind, name, l, 4);
  }

  /** Over the scores of a Marker's reset, `stats_all` publishes its count as a Counter and its rate as a Gauge. */
  lemma AllStatsMarker(name: NameParts, c: Cells, samples: seq<ISize>, elapsedUs: nat)
    requires c[HIT] != 0
    ensures PublishedScores(StatsAll, Marker, name, ResetOf(Marker, c, samples, elapsedUs).value)
      == [Stat(Counter, MakeName(name, "count"), c[HIT]),
          Stat(Gauge, MakeName(name, "rate"), RoundRatio(PerSecond(c[HIT]), elapsedUs))]
  {
    var l := ResetOf(Marker, c, samples, elapsedUs).value;
    ResetListMarker(c, samples, elapsedUs);
    PublishedEvery(StatsAll, Marker, name, l);
  }

  /** Over the scores of a Gauge's reset, `stats_all` publishes its max and min as Gauges and its mean with kind Gauge. */
  lemma AllStatsGauge(name: NameParts, c: Cells, samples: seq<ISize>, elapsedUs: nat)
    requires c[HIT] != 0
    ensures PublishedScores(StatsAll, Gauge, name, ResetOf(Gauge, c, samples, elapsedUs).value)
      == [Stat(Gauge, MakeName(name, "max"), c[MAX]), Stat(Gauge, MakeName(name, "min"), c[MIN]),
          Stat(Gauge, MakeName(name, "mean"), RoundRatio(c[SUM], c[HIT]))]
  {
    var l := ResetOf(Gauge, c, samples, elapsedUs).value;
    ResetListGauge(c, samples, elapsedUs);
    PublishedEvery(StatsAll, Gauge, name, l);
  }

  /**
   * Over the scores of a Timer's, Counter's or Level's reset, `stats_all`
   * publishes all six: count as a Counter, sum and mean with the metric's
   * kind, max, min and rate as Gauges.
   */
  lemma AllStatsFull(kind: InputKind, name: NameParts, c: Cells, samples: seq<ISize>, elapsedUs: nat)
    requires c[HIT] != 0 && (kind == Timer || kind == Counter || kind == Level)
    ensures var s := SnapshotCells(kind, c).value;
      PublishedScores(StatsAll, kind, name, ResetOf(kind, c, samples, elapsedUs).value)
      == [Stat(Counter, MakeName(name, "count"), c[HIT]), Stat(kind, MakeName(name, "sum"), c[SUM]),
          Stat(Gauge, MakeName(name, "max"), s[MAX]), Stat(Gauge, MakeName(name, "min"), s[MIN]),
          Stat(kind, MakeName(name, "mean"), RoundRatio(c[SUM], c[HIT])),
          Stat(Gauge, MakeName(name, "rate"), RoundRatio(PerSecond(if kind == Timer then c[HIT] else c[SUM]), elapsedUs))]
  {
    var s := SnapshotCells(kind, c).value;
    var l := ResetOf(kind, c, samples, elapsedUs).value;
    var rate := if kind == Timer then c[HIT] else c[SUM];
    assert l == [Count(c[HIT]), Sum(c[SUM]), Max(s[MAX]), Min(s[MIN]), Mean(c[SUM], c[HIT]),
      Rate(PerSecond(rate), elapsedUs)];
    AllStatsSix(kind, name, c[HIT], c[SUM], s[MAX], s[MIN], PerSecond(rate), elapsedUs);
  }

  /** `stats_all` over the six scores of a full reset publishes one statistic for each, in order. */
  lemma AllStatsSix(kind: InputKind, name: NameParts, hit: ISize, sum: ISize, max: ISize, min: ISize, rate: int, elapsedUs: nat)
    ensures PublishedScores(StatsAll, kind, name, [Count(hit), Sum(sum), Max(max), Min(min), Mean(sum, hit), Rate(rate, elapsedUs)])
      == [Stat(Counter, MakeName(name, "count"), hit), Stat(kind, MakeName(name, "sum"), sum),
          Stat(Gauge, MakeName(name, "max"), max), Stat(Gauge, MakeName(name, "min"), min),
          Stat(kind, MakeName(name, "mean"), RoundRatio(sum, hit)),
          Stat(Gauge, MakeName(name, "rate"), RoundRatio(rate, elapsedUs))]
  {
    PublishedEvery(StatsAll, kind, name, [Count(hit), Sum(sum), Max(max), Min(min), Mean(sum, hit), Rate(rate, elapsedUs)]);
  }

  /** The statistics published for all collected metrics, in order. */
  function PublishedAll(f: StatsFn, drained: seq<Drained>): (r: seq<Stat>)
    ensures |r| <= ScoreCount(drained)
  {
    if |drained| == 0 then []
    else
      var d := drained[|drained| - 1];
      PublishedAll(f, drained[..|drained| - 1]) + PublishedScores(f, d.kind, d.name, d.scores)
  }

  /** The number of scores the collected metrics listed. */
  function ScoreCount(drained: seq<Drained>): nat
  {
    if |drained| == 0 then 0 else ScoreCount(drained[..|drained| - 1]) + |drained[|drained| - 1].scores|
  }

  predicate NamesNonEmpty(stats: seq<Stat>)
  {
    forall i :: 0 <= i < |stats| ==> |stats[i].name| > 0
  }

  /** The map writes of published statistics: each under its name prefixed and joined by the scope. */
  function StatWrites(a: Attributes, stats: seq<Stat>): (r: seq<(string, ISize)>)
    requires NamesNonEmpty(stats)
    ensures |r| == |stats|
    ensures forall i :: 0 <= i < |stats| ==> r[i] == StatWrite(a, stats[i])
  {
    seq(|stats|, i requires 0 <= i < |stats| => StatWrite(a, stats[i]))
  }

  /** The map write of one published statistic. */
  function StatWrite(a: Attributes, st: Stat): (r: (string, ISize))
    requires |st.name| > 0
    ensures r.1 == st.value
    ensures a.naming == [] ==> r.0 == Join(st.name, ".")
  {
    AppendNothing(st.name);
    (MapKey(a, st.name), st.value)
  }

  /**
   * In an unnamed map, statistics with distinct names whose parts hold no "."
   * each end up under their name joined by ".", whatever else was written:
   * no two of them collide.
   */
  lemma PublishedLands(c: map<string, ISize>, a: Attributes, stats: seq<Stat>, i: nat)
    requires a.naming == [] && NamesNonEmpty(stats) && i < |stats|
    requires forall j :: 0 <= j < |stats| ==> FreeOf(stats[j].name, '.')
    requires forall j, k :: 0 <= j < k < |stats| ==> stats[j].name != stats[k].name
    ensures Join(stats[i].name, ".") in WriteAll(c, StatWrites(a, stats))
    ensures WriteAll(c, StatWrites(a, stats))[Join(stats[i].name, ".")] == stats[i].value
  {
    var w := StatWrites(a, stats);
    forall j | 0 <= j < |stats| ensures w[j].0 == Join(stats[j].name, ".") {
      AppendNothing(stats[j].name);
    }
    forall x | x in w && x.0 == w[i].0 ensures x.1 == w[i].1 {
      var j :| 0 <= j < |w| && w[j] == x;
      JoinInjective(stats[j].name, stats[i].name, '.');
      assert j == i;
    }
    WriteAllConsistent(c, w, w[i]);
  }

  /**
   * `Arc::strong_count` of a registered scores object: one reference for each
   * map that holds it, and one for each handle.
   */
  function StrongCount(maps: nat, holders: nat): (c: nat)
    ensures c >= maps && (c == 1 <==> (maps == 1 && holders == 0) || (maps == 0 && holders == 1))
  {
    maps + holders
  }

  /** A metric handle of the bucket: its id and the scores it updates. */
  datatype BucketMetric = BucketMetric(id: string, scores: AtomicScores)

  class AtomicBucket {
    const attributes: Attributes
    var metrics: map<NameParts, AtomicScores>
    /** The start of the current period, in microseconds. */
    var periodStart: int
    var stats: Option<StatsFn>

    /** The registered scores objects. */
    ghost function Repr(): set<AtomicScores>
      reads this`metrics
    {
      set n | n in metrics :: metrics[n]
    }

    /**
     * Every registered name is non-empty, no two names share their scores,
     * and the bucket's own statistics function keeps names non-empty.
     */
    ghost predicate Valid()
      reads this`metrics, this`stats
    {
      (forall n :: n in metrics ==> n != [])
      && (forall a, b :: Apart(a, b))
      && (stats.Some? ==> KeepsNames(stats.value))
    }

    /** Two registered names do not share their scores. */
    ghost predicate Apart(a: NameParts, b: NameParts)
      reads this`metrics
    {
      a in metrics && b in metrics && a != b ==> metrics[a] != metrics[b]
    }

    /** The values of every registered metric. */
    ghost function States(): (r: map<NameParts, ScoresState>)
      reads this`metrics, Repr()`cells, Repr()`samples
      ensures r.Keys == metrics.Keys
    {
      map n | n in metrics :: ScoresState(metrics[n].kind, metrics[n].cells, metrics[n].samples)
    }

    /** The statistics function in use: the bucket's own, or the default one. */
    function StatsFunction(): (f: StatsFn)
      reads this`stats
      ensures f == if stats.Some? then stats.value else DefaultStats()
    {
      stats.GetOr(DefaultStats())
    }

    /** `AtomicBucket::new`: no metrics, no statistics function of its own, the period starting now. */
    constructor(attributes: Attributes, nowUs: int)
      ensures Valid() && this.attributes == attributes
      ensures metrics == map[] && periodStart == nowUs && stats == None
    {
      this.attributes := attributes;
      metrics := map[];
      periodStart := nowUs;
      stats := None;
    }

    /** `stats`: sets the bucket's own statistics function. */
    method SetStats(f: StatsFn)
      requires Valid() && KeepsNames(f)
      modifies this
      ensures Valid() && stats == Some(f) && metrics == old(metrics) && periodStart == old(periodStart)
    {
      stats := Some(f);
    }

    /** `unset_stats`: back to the default statistics function. */
    method UnsetStats()
      requires Valid()
      modifies this
      ensures Valid() && stats == None && metrics == old(metrics) && periodStart == old(periodStart)
    {
      stats := None;
    }

    /** The number of live handles of every registered metric. */
    ghost function Holders(): (r: map<NameParts, nat>)
      reads this`metrics, Repr()`holders
      ensures r.Keys == metrics.Keys
    {
      map n | n in metrics :: metrics[n].holders
    }

    /**
     * Every metric holds what a reset leaves of its values in `before` and
     * keeps its number of handles in `holders`.
     */
    ghost predicate AllReset(before: map<NameParts, ScoresState>, holders: map<NameParts, nat>)
      reads this`metrics, Repr()`cells, Repr()`samples, Repr()`holders
    {
      forall n :: n in metrics ==>
        n in before && n in holders && StateOf(n) == StateAfterReset(before[n]) && metrics[n].holders == holders[n]
    }

    /** The values held by the scores registered under `n`. */
    ghost function StateOf(n: NameParts): ScoresState
      requires n in metrics
      reads this`metrics, {metrics[n]}`cells, {metrics[n]}`samples
    {
      ScoresState(metrics[n].kind, metrics[n].cells, metrics[n].samples)
    }

    /**
     * `new_metric`: the scores under the prefixed name, created with the
     * requested kind when absent; an existing entry keeps its own kind.
     * The returned handle holds the scores.
     */
    method NewMetric(name: NameParts, kind: InputKind) returns (m: BucketMetric)
      requires Valid() && |name| > 0
      modifies this`metrics, Repr()`holders
      ensures Valid() && stats == old(stats) && periodStart == old(periodStart)
      ensures Appended(name, attributes.naming) in metrics
      ensures m.scores == metrics[Appended(name, attributes.naming)] && m.id == Forge("stats", name)
      ensures Appended(name, attributes.naming) in old(metrics) ==> metrics == old(metrics)
      ensures Appended(name, attributes.naming) !in old(metrics) ==>
        fresh(m.scores) && metrics == old(metrics)[Appended(name, attributes.naming) := m.scores]
        && m.scores.kind == kind && m.scores.cells == Blank() && m.scores.samples == []
      ensures forall n :: n in old(metrics) ==>
        metrics[n].cells == old(metrics[n].cells) && metrics[n].samples == old(metrics[n].samples)
      ensures m.scores.holders == old(if Appended(name, attributes.naming) in metrics then metrics[Appended(name, attributes.naming)].holders else 0) + 1
      ensures forall n :: n in metrics && metrics[n] != m.scores ==> metrics[n].holders == old(metrics[n].holders)
    {
      var key := Append(name, attributes.naming);
      var scores: AtomicScores;
      if key in metrics {
        scores := metrics[key];
      } else {
        scores := new AtomicScores(kind);
        metrics := metrics[key := scores];
      }
      scores.holders := scores.holders + 1;
      m := BucketMetric(Forge("stats", name), scores);
      forall a, b ensures Apart(a, b) {
        assert old(Apart(a, b));
      }
    }

    /** The drop of a metric handle: the scores have one holder less. */
    method ReleaseHandle(m: BucketMetric)
      requires m.scores.holders > 0
      modifies m.scores`holders
      ensures m.scores.holders == old(m.scores.holders) - 1
    {
      m.scores.holders := m.scores.holders - 1;
    }

    /** The reset of the scores under one name; no other metric changes. */
    method ResetOne(n: NameParts, elapsedUs: nat) returns (r: Option<seq<ScoreType>>)
      requires Valid() && n in metrics
      modifies {metrics[n]}`cells, {metrics[n]}`samples
      ensures metrics == old(metrics) && stats == old(stats) && periodStart == old(periodStart)
      ensures r == ResetOf(old(StateOf(n)).kind, old(StateOf(n)).cells, old(StateOf(n)).samples, elapsedUs)
      ensures StateOf(n) == StateAfterReset(old(StateOf(n)))
      ensures forall m :: m in metrics && m != n ==> StateOf(m) == old(StateOf(m))
      ensures forall m :: m in metrics ==> metrics[m].holders == old(metrics[m].holders)
    {
      assert forall m :: Apart(m, n) && (m in metrics && m != n ==> metrics[m] != metrics[n]);
      r := metrics[n].Reset(elapsedUs);
    }

    /**
     * The reset pass of `flush_to`: every metric is reset once, visiting the
     * names in an unspecified order, and those with data are collected.
     */
    method ResetAll(elapsedUs: nat) returns (order: seq<NameParts>, drained: seq<Drained>)
      requires Valid()
      modifies Repr()`cells, Repr()`samples
      ensures Valid() && metrics == old(metrics) && stats == old(stats) && periodStart == old(periodStart)
      ensures Enumerates(order, metrics.Keys)
      ensures drained == DrainOf(old(States()), order, elapsedUs)
      ensures AllReset(old(States()), old(Holders()))
    {
      ghost var states := States();
      ghost var holders := Holders();
      order := Enumerate(metrics.Keys);
      drained := [];
      for i := 0 to |order|
        invariant drained == DrainOf(states, order[..i], elapsedUs)
        invariant Valid() && metrics == old(metrics) && stats == old(stats) && periodStart == old(periodStart)
        invariant ResetUpTo(states, holders, order, i)
      {
        drained := DrainStep(order, i, elapsedUs, states, holders, drained);
      }
      assert order[..|order|] == order;
      ResetDone(states, holders, order);
    }

    /** Once the reset pass has visited every name of the enumeration, every metric is reset. */
    lemma ResetDone(states: map<NameParts, ScoresState>, holders: map<NameParts, nat>, order: seq<NameParts>)
      requires Enumerates(order, metrics.Keys) && ResetUpTo(states, holders, order, |order|)
      ensures AllReset(states, holders)
    {
      forall n | n in metrics ensures n in states && StateOf(n) == StateAfterReset(states[n]) {
        EnumerationCovers(order, metrics.Keys, n);
      }
    }

    /**
     * The metrics under `order[..i]` hold what a reset leaves of their values
     * in `states`, the others still hold those values, and every metric keeps
     * its number of handles in `holders`.
     */
    ghost predicate ResetUpTo(states: map<NameParts, ScoresState>, holders: map<NameParts, nat>, order: seq<NameParts>, i: nat)
      reads this`metrics, Repr()`cells, Repr()`samples, Repr()`holders
    {
      i <= |order|
      && (forall j :: 0 <= j < |order| ==> order[j] in metrics && order[j] in states)
      && (forall j :: 0 <= j < i ==> StateOf(order[j]) == StateAfterReset(states[order[j]]))
      && (forall j :: i <= j < |order| ==> StateOf(order[j]) == states[order[j]])
      && (forall n :: n in metrics ==> n in holders && metrics[n].holders == holders[n])
    }

    /** One step of the reset pass, with the metric it collects. */
    method DrainStep(order: seq<NameParts>, i: nat, elapsedUs: nat, ghost states: map<NameParts, ScoresState>,
                     ghost holders: map<NameParts, nat>, drained: seq<Drained>) returns (more: seq<Drained>)
      requires Valid() && Enumerates(order, metrics.Keys) && i < |order| && ResetUpTo(states, holders, order, i)
      requires drained == DrainOf(states, order[..i], elapsedUs)
      modifies Repr()`cells, Repr()`samples
      ensures Valid() && metrics == old(metrics) && stats == old(stats) && periodStart == old(periodStart)
      ensures ResetUpTo(states, holders, order, i + 1)
      ensures more == DrainOf(states, order[..i + 1], elapsedUs)
    {
      var n := order[i];
      var kind := metrics[n].kind;
      var r := ResetStep(order, i, elapsedUs, states, holders);
      DrainOfSnoc(states, order, i, elapsedUs);
      more := drained;
      if r.Some? {
        more := drained + [Drained(n, kind, r.value)];
      }
    }

    /** One step of the reset pass: the reset of the metric under `order[i]`. */
    method ResetStep(order: seq<NameParts>, i: nat, elapsedUs: nat, ghost states: map<NameParts, ScoresState>, ghost holders: map<NameParts, nat>)
      returns (r: Option<seq<ScoreType>>)
      requires Valid() && Enumerates(order, metrics.Keys) && i < |order| && ResetUpTo(states, holders, order, i)
      modifies Repr()`cells, Repr()`samples
      ensures Valid() && metrics == old(metrics) && stats == old(stats) && periodStart == old(periodStart)
      ensures ResetUpTo(states, holders, order, i + 1)
      ensures r == ResetOf(states[order[i]].kind, states[order[i]].cells, states[order[i]].samples, elapsedUs)
    {
      r := ResetOne(order[i], elapsedUs);
    }

    /**
     * `flush_to`: resets every metric (in the order `order`) and starts a new
     * period at `nowUs`. When no metric had data nothing is written and the
     * target is not flushed; otherwise every score goes through the
     * statistics function, each statistic it keeps is written to the target,
     * and the target is flushed once (its listeners called in the order `keys`).
     */
    method FlushTo(target: StatsMapScope, nowUs: int) returns (elapsedUs: nat, order: seq<NameParts>, keys: seq<string>)
      requires Valid() && nowUs >= periodStart
      modifies this`periodStart, Repr()`cells, Repr()`samples, target`contents, target`flushCount
      ensures Valid() && metrics == old(metrics) && stats == old(stats) && periodStart == nowUs
      ensures elapsedUs == nowUs - old(periodStart)
      ensures Enumerates(order, metrics.Keys)
      ensures AllReset(old(States()), old(Holders()))
      ensures var drained := DrainOf(old(States()), order, elapsedUs);
        Delivered(old(target.contents), old(target.flushCount), target.contents, target.flushCount,
          target.attributes, PublishedAll(StatsFunction(), drained), drained != [], keys)
    {
      elapsedUs := nowUs - periodStart;
      ghost var states, holders := States(), Holders();
      ghost var registry, own := metrics, stats;
      ghost var contents, flushCount := target.contents, target.flushCount;
      periodStart := nowUs;
      assert States() == states && Holders() == holders;
      var drained;
      order, drained := ResetAll(elapsedUs);
      assert metrics == registry && stats == own;
      DrainNames(states, order, elapsedUs);
      assert target.contents == contents && target.flushCount == flushCount;
      keys := Deliver(target, drained, states, holders);
      assert metrics == registry && stats == own;
    }

    /** The names some handle still holds. */
    ghost function Held(): (r: set<NameParts>)
      reads this`metrics, Repr()`holders
      ensures r <= metrics.Keys
      ensures forall n :: n in metrics ==> (n in r <==> metrics[n].holders > 0)
    {
      set n | n in metrics && metrics[n].holders > 0
    }

    /**
     * The purge after a flush, as written: the registry is cloned first, so
     * while the filter runs every scores object is held by both maps besides
     * its handles, its strong count is never 1, and nothing is removed.
     */
    method Purge()
      requires Valid()
      modifies this`metrics
      ensures Valid() && stats == old(stats) && periodStart == old(periodStart)
      ensures metrics == old(metrics)
    {
      var purged := metrics;
      var remaining := metrics.Keys;
      while remaining != {}
        invariant remaining <= metrics.Keys && purged == metrics
        decreases |remaining|
      {
        var k :| k in remaining;
        if StrongCount(2, metrics[k].holders) == 1 {
          purged := purged - {k};
        }
        remaining := remaining - {k};
      }
      metrics := purged;
    }

    /**
     * The purge as evidently intended: the entries no handle holds any more
     * (a strong count of 1, the registry's own) are removed; every other entry
     * stays as it was.
     */
    method FixedPurge(ghost states: map<NameParts, ScoresState>, ghost holders: map<NameParts, nat>)
      requires Valid()
      modifies this`metrics
      ensures Valid() && stats == old(stats) && periodStart == old(periodStart)
      ensures metrics.Keys == old(Held())
      ensures forall n :: n in metrics ==> metrics[n] == old(metrics[n])
      ensures old(AllReset(states, holders)) ==> AllReset(states, holders)
    {
      var purged := metrics;
      var remaining := metrics.Keys;
      while remaining != {}
        invariant remaining <= metrics.Keys && purged.Keys <= metrics.Keys
        invariant forall n :: n in metrics ==> (n in purged <==> n in remaining || metrics[n].holders > 0)
        invariant forall n :: n in purged ==> purged[n] == metrics[n]
        decreases |remaining|
      {
        var k :| k in remaining;
        if StrongCount(1, metrics[k].holders) == 1 {
          purged := purged - {k};
        }
        remaining := remaining - {k};
      }
      ghost var before := metrics;
      ghost var values := map n | n in before :: StateOf(n);
      metrics := purged;
      forall a, b ensures Apart(a, b) {
        assert a in metrics && b in metrics ==> a in before && b in before;
        assert old(Apart(a, b));
      }
      forall n | n in metrics ensures StateOf(n) == values[n] {
        assert n in before && metrics[n] == before[n];
      }
    }

    /**
     * `flush`: `flush_to` into the target, then the purge, which as written
     * keeps every entry, held or not.
     */
    method Flush(target: StatsMapScope, nowUs: int) returns (elapsedUs: nat, order: seq<NameParts>, keys: seq<string>)
      requires Valid() && nowUs >= periodStart
      modifies this`periodStart, this`metrics, Repr()`cells, Repr()`samples, target`contents, target`flushCount
      ensures Valid() && stats == old(stats) && periodStart == nowUs
      ensures elapsedUs == nowUs - old(periodStart)
      ensures Enumerates(order, old(metrics).Keys)
      ensures metrics == old(metrics)
      ensures AllReset(old(States()), old(Holders()))
      ensures var drained := DrainOf(old(States()), order, elapsedUs);
        Delivered(old(target.contents), old(target.flushCount), target.contents, target.flushCount,
          target.attributes, PublishedAll(StatsFunction(), drained), drained != [], keys)
    {
      elapsedUs, order, keys := FlushTo(target, nowUs);
      Purge();
    }

    /** `flush` with the intended purge: the entries no handle holds are gone afterwards. */
    method FixedFlush(target: StatsMapScope, nowUs: int) returns (elapsedUs: nat, order: seq<NameParts>, keys: seq<string>)
      requires Valid() && nowUs >= periodStart
      modifies this`periodStart, this`metrics, Repr()`cells, Repr()`samples, target`contents, target`flushCount
      ensures Valid() && stats == old(stats) && periodStart == nowUs
      ensures elapsedUs == nowUs - old(periodStart)
      ensures Enumerates(order, old(metrics).Keys)
      ensures metrics.Keys == old(Held())
      ensures forall n :: n in metrics ==> metrics[n] == old(metrics[n])
      ensures AllReset(old(States()), old(Holders()))
      ensures var drained := DrainOf(old(States()), order, elapsedUs);
        Delivered(old(target.contents), old(target.flushCount), target.contents, target.flushCount,
          target.attributes, PublishedAll(StatsFunction(), drained), drained != [], keys)
    {
      ghost var held, states, holders := Held(), States(), Holders();
      elapsedUs, order, keys := FlushTo(target, nowUs);
      assert Held() == held;
      FixedPurge(states, holders);
    }

    /** The publishing half of `flush_to`, which leaves the bucket's own state alone. */
    method Deliver(target: StatsMapScope, drained: seq<Drained>, ghost states: map<NameParts, ScoresState>, ghost holders: map<NameParts, nat>)
      returns (keys: seq<string>)
      requires Valid() && NamedAll(drained) && AllReset(states, holders)
      modifies target`contents, target`flushCount
      ensures Valid() && metrics == old(metrics) && stats == old(stats) && periodStart == old(periodStart)
      ensures AllReset(states, holders)
      ensures Delivered(old(target.contents), old(target.flushCount), target.contents, target.flushCount,
        target.attributes, PublishedAll(StatsFunction(), drained), drained != [], keys)
    {
      PresetsKeepNames();
      keys := PublishAndFlush(target, StatsFunction(), drained);
    }
  }

  /**
   * What flushing the collected statistics `published` leaves in a map scope
   * that held `c0` after `count0` flushes: nothing changes when no metric had
   * data; otherwise every statistic is written under its key, in order, and the
   * scope is flushed once, its listeners called in the order `keys`.
   */
  ghost predicate Delivered(c0: map<string, ISize>, count0: nat, c1: map<string, ISize>, count1: nat,
    a: Attributes, published: seq<Stat>, someData: bool, keys: seq<string>)
    reads a.flushListeners`listeners
  {
    NamesNonEmpty(published)
    && (!someData ==> c1 == c0 && count1 == count0)
    && (someData ==>
          Enumerates(keys, a.flushListeners.listeners.Keys)
          && count1 == count0 + 1
          && c1 == Notified(WriteAll(c0, StatWrites(a, published)), a.flushListeners.listeners, keys))
  }

  /** The publishing half of `flush_to`: the statistics of the collected metrics, then one flush of the target. */
  method PublishAndFlush(target: StatsMapScope, f: StatsFn, drained: seq<Drained>) returns (keys: seq<string>)
    requires KeepsNames(f) && NamedAll(drained)
    modifies target`contents, target`flushCount
    ensures Delivered(old(target.contents), old(target.flushCount), target.contents, target.flushCount,
      target.attributes, PublishedAll(f, drained), drained != [], keys)
  {
    PublishedNames(f, drained);
    if drained == [] {
      keys := [];
      return;
    }
    Publish(target, f, drained);
    keys := target.Flush();
  }

  /** Writes every statistic the function keeps for the collected metrics to the target. */
  method Publish(target: StatsMapScope, f: StatsFn, drained: seq<Drained>)
    requires KeepsNames(f) && NamedAll(drained)
    modifies target`contents, target`flushCount
    ensures NamesNonEmpty(PublishedAll(f, drained))
    ensures target.contents == WriteAll(old(target.contents), StatWrites(target.attributes, PublishedAll(f, drained)))
    ensures target.flushCount == old(target.flushCount)
  {
    ghost var published: seq<Stat> := [];
    for i := 0 to |drained|
      invariant published == PublishedAll(f, drained[..i])
      invariant NamesNonEmpty(published)
      invariant target.contents == WriteAll(old(target.contents), StatWrites(target.attributes, published))
      invariant target.flushCount == old(target.flushCount)
    {
      var d := drained[i];
      PublishedAllSnoc(f, drained, i);
      ghost var mid := target.contents;
      PublishScores(target, f, d);
      PublishedConcat(old(target.contents), target.attributes, published, PublishedScores(f, d.kind, d.name, d.scores));
      published := published + PublishedScores(f, d.kind, d.name, d.scores);
    }
    assert drained[..|drained|] == drained;
  }

  lemma PublishedAllSnoc(f: StatsFn, drained: seq<Drained>, i: nat)
    requires i < |drained|
    ensures PublishedAll(f, drained[..i + 1])
      == PublishedAll(f, drained[..i]) + PublishedScores(f, drained[i].kind, drained[i].name, drained[i].scores)
  {
    assert drained[..i + 1][..i] == drained[..i];
  }

  /** Writing two batches of statistics one after the other is writing their concatenation. */
  lemma PublishedConcat(c: map<string, ISize>, a: Attributes, s1: seq<Stat>, s2: seq<Stat>)
    requires NamesNonEmpty(s1) && NamesNonEmpty(s2)
    ensures NamesNonEmpty(s1 + s2)
    ensures WriteAll(WriteAll(c, StatWrites(a, s1)), StatWrites(a, s2)) == WriteAll(c, StatWrites(a, s1 + s2))
  {
    StatWritesConcat(a, s1, s2);
    WriteAllAppend(c, StatWrites(a, s1), StatWrites(a, s2));
  }

  /** Writes every statistic the function keeps for one metric's scores to the target. */
  method PublishScores(target: StatsMapScope, f: StatsFn, d: Drained)
    requires KeepsNames(f) && |d.name| > 0
    modifies target`contents, target`flushCount
    ensures NamesNonEmpty(PublishedScores(f, d.kind, d.name, d.scores))
    ensures target.contents
      == WriteAll(old(target.contents), StatWrites(target.attributes, PublishedScores(f, d.kind, d.name, d.scores)))
    ensures target.flushCount == old(target.flushCount)
  {
    ghost var published: seq<Stat> := [];
    for j := 0 to |d.scores|
      invariant published == PublishedScores(f, d.kind, d.name, d.scores[..j])
      invariant NamesNonEmpty(published)
      invariant target.contents == WriteAll(old(target.contents), StatWrites(target.attributes, published))
      invariant target.flushCount == old(target.flushCount)
    {
      PublishedScoresSnoc(f, d.kind, d.name, d.scores, j);
      var filtered := f(d.kind, d.name, d.scores[j]);
      if filtered.Some? {
        var st := filtered.value;
        var metric := target.NewMetric(st.name, st.kind);
        target.Write(metric, st.value);
        StatWritesSnoc(old(target.contents), target.attributes, published, st);
        published := published + [st];
      }
    }
    assert d.scores[..|d.scores|] == d.scores;
  }

  lemma PublishedScoresSnoc(f: StatsFn, kind: InputKind, name: NameParts, scores: seq<ScoreType>, j: nat)
    requires j < |scores|
    ensures PublishedScores(f, kind, name, scores[..j + 1])
      == PublishedScores(f, kind, name, scores[..j])
        + match f(kind, name, scores[j]) case None => [] case Some(st) => [st]
  {
    assert scores[..j + 1][..j] == scores[..j];
  }

  lemma StatWritesSnoc(c: map<string, ISize>, a: Attributes, stats: seq<Stat>, st: Stat)
    requires NamesNonEmpty(stats) && |st.name| > 0
    ensures NamesNonEmpty(stats + [st])
    ensures WriteAll(c, StatWrites(a, stats + [st])) == WriteAll(c, StatWrites(a, stats))[MapKey(a, st.name) := st.value]
  {
    NamesSnoc(stats, st);
    StatWritesLast(a, stats, st);
    WriteAllSnoc(c, StatWrites(a, stats), (MapKey(a, st.name), st.value));
  }

  lemma NamesSnoc(stats: seq<Stat>, st: Stat)
    requires NamesNonEmpty(stats) && |st.name| > 0
    ensures NamesNonEmpty(stats + [st])
  {
    forall i | 0 <= i < |stats| + 1 ensures |(stats + [st])[i].name| > 0 {
      if i < |stats| { assert (stats + [st])[i] == stats[i]; }
    }
  }

  lemma StatWritesLast(a: Attributes, stats: seq<Stat>, st: Stat)
    requires NamesNonEmpty(stats) && |st.name| > 0 && NamesNonEmpty(stats + [st])
    ensures StatWrites(a, stats + [st]) == StatWrites(a, stats) + [StatWrite(a, st)]
  {
    var all := stats + [st];
    var x, w := StatWrites(a, all), StatWrites(a, stats);
    forall i | 0 <= i < |stats| ensures x[i] == w[i] {
      assert all[i] == stats[i];
    }
    assert all[|stats|] == st;
    SnocPointwise(x, w, StatWrite(a, st));
  }

  /** A sequence that agrees with `w` and then ends with `last` is `w + [last]`. */
  lemma SnocPointwise<T>(x: seq<T>, w: seq<T>, last: T)
    requires |x| == |w| + 1 && x[|w|] == last && forall i :: 0 <= i < |w| ==> x[i] == w[i]
    ensures x == w + [last]
  {
    assert forall i :: 0 <= i < |x| ==> x[i] == (w + [last])[i];
  }

  lemma WriteAllSnoc(c: map<string, ISize>, writes: seq<(string, ISize)>, w: (string, ISize))
    ensures WriteAll(c, writes + [w]) == WriteAll(c, writes)[w.0 := w.1]
  {
    assert (writes + [w])[..|writes|] == writes;
  }

  /** The writes of two batches of statistics are the writes of the first, then of the second. */
  lemma StatWritesConcat(a: Attributes, s1: seq<Stat>, s2: seq<Stat>)
    requires NamesNonEmpty(s1) && NamesNonEmpty(s2)
    ensures NamesNonEmpty(s1 + s2)
    ensures StatWrites(a, s1 + s2) == StatWrites(a, s1) + StatWrites(a, s2)
  {
    assert forall i :: 0 <= i < |s2| ==> (s1 + s2)[|s1| + i] == s2[i];
  }

  lemma DrainOfSnoc(states: map<NameParts, ScoresState>, order: seq<NameParts>, i: nat, elapsedUs: nat)
    requires (forall k :: 0 <= k < |order| ==> order[k] in states) && i < |order|
    ensures DrainOf(states, order[..i + 1], elapsedUs)
      == DrainOf(states, order[..i], elapsedUs)
        + match ResetOf(states[order[i]].kind, states[order[i]].cells, states[order[i]].samples, elapsedUs)
          case None => []
          case Some(l) => [Drained(order[i], states[order[i]].kind, l)]
  {
    assert order[..i + 1][..i] == order[..i];
  }

  /** Every collected metric has a non-empty name. */
  predicate NamedAll(drained: seq<Drained>)
  {
    forall i :: 0 <= i < |drained| ==> |drained[i].name| > 0
  }

  /** Each collected metric is a registered name, hence non-empty when all registered names are. */
  lemma {:induction false} DrainNames(states: map<NameParts, ScoresState>, order: seq<NameParts>, elapsedUs: nat)
    requires forall i :: 0 <= i < |order| ==> order[i] in states
    ensures forall i :: 0 <= i < |DrainOf(states, order, elapsedUs)| ==> DrainOf(states, order, elapsedUs)[i].name in states
    ensures (forall n :: n in states ==> n != []) ==> NamedAll(DrainOf(states, order, elapsedUs))
  {
    if |order| > 0 {
      DrainNames(states, order[..|order| - 1], elapsedUs);
    }
  }

  /** Writes in two batches are the writes of the concatenation. */
  lemma {:induction false} WriteAllAppend(c: map<string, ISize>, w1: seq<(string, ISize)>, w2: seq<(string, ISize)>)
    ensures WriteAll(WriteAll(c, w1), w2) == WriteAll(c, w1 + w2)
    decreases |w2|
  {
    if |w2| > 0 {
      assert (w1 + w2)[..|w1 + w2| - 1] == w1 + w2[..|w2| - 1];
      WriteAllAppend(c, w1, w2[..|w2| - 1]);
    } else {
      assert w1 + w2 == w1;
    }
  }

  /** A statistics function that keeps names publishes non-empty names for non-empty metric names. */
  lemma {:induction false} PublishedNames(f: StatsFn, drained: seq<Drained>)
    requires KeepsNames(f) && NamedAll(drained)
    ensures NamesNonEmpty(PublishedAll(f, drained))
  {
    if |drained| > 0 {
      var d := drained[|drained| - 1];
      PublishedNames(f, drained[..|drained| - 1]);
      PublishedScoresNames(f, d.kind, d.name, d.scores);
    }
  }

  lemma {:induction false} PublishedScoresNames(f: StatsFn, kind: InputKind, name: NameParts, scores: seq<ScoreType>)
    requires KeepsNames(f) && |name| > 0
    ensures NamesNonEmpty(PublishedScores(f, kind, name, scores))
  {
    if |scores| > 0 {
      PublishedScoresNames(f, kind, name, scores[..|scores| - 1]);
    }
  }
}
