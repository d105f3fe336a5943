/**
 * The aggregation tests of the atomic bucket: a bucket named "test" whose
 * metrics are written, then flushed after three seconds into an unnamed map
 * scope through one of the three presets.
 */
module BucketTests {
  import opened Wrappers
  import opened Machine
  import opened Kinds
  import opened Name
  import opened Stats
  import opened Attributes
  import opened MapOutput
  import opened Atomic
  import opened Bucket

  /** The period of the tests: the mock clock advances three seconds before the flush. */
  const PERIOD_US: nat := 3_000_000

  /** The scores a metric of `kind` updated with `vs` lists when the period ends. */
  function TestScores(kind: InputKind, vs: seq<ISize>): seq<ScoreType>
    requires 0 < |vs| <= ISIZE_MAX
  {
    HitCount(kind, vs);
    ResetOf(kind, CellsAfter(kind, vs), SamplesAfter(kind, vs), PERIOD_US).value
  }

  /** The statistics the flush publishes for the metric `leaf` of the bucket named "test". */
  function TestStats(f: StatsFn, kind: InputKind, leaf: string, vs: seq<ISize>): seq<Stat>
    requires 0 < |vs| <= ISIZE_MAX
  {
    PublishedScores(f, kind, ["test", leaf], TestScores(kind, vs))
  }

  /** The name the bucket registers for `leaf`: its naming "test" inserted before the leaf. */
  lemma TestName(a: Attributes, leaf: string)
    requires a.naming == ["test"]
    ensures PrefixAppend(a, FromString(leaf)) == ["test", leaf]
  {
    PrefixOnePart(a, leaf);
  }

  /** An unnamed map stores the statistic `suffix` of the test metric `leaf` under "test.", the leaf, "." and the suffix. */
  lemma TestKey(a: Attributes, leaf: string, suffix: string)
    requires a.naming == []
    ensures MapKey(a, ["test", leaf, suffix]) == "test." + leaf + "." + suffix
  {
    var n: NameParts := ["test", leaf, suffix];
    assert PrefixAppend(a, n) == n;
    assert n[..2] == ["test", leaf] && ["test", leaf][..1] == ["test"];
    assert Join(["test", leaf], ".") == "test." + leaf;
    assert Join(n, ".") == "test." + leaf + "." + suffix;
  }

  /** The cells of counter_a, counted 10 and 20. */
  lemma CounterACells()
    ensures CellsAfter(Counter, [10, 20]) == [2, 30, 20, 10]
  {
    var vs: seq<ISize> := [10, 20];
    assert vs[..1] == [10] && [10][..0] == [];
    assert CellsAfter(Counter, [10]) == [1, 10, 10, 10];
  }
  /** The cells of counter_b, counted 9, 18 and 3. */
  lemma CounterBCells()
    ensures CellsAfter(Counter, [9, 18, 3]) == [3, 30, 18, 3]
  {
    var vs: seq<ISize> := [9, 18, 3];
    assert vs[..2] == [9, 18] && [9, 18][..1] == [9] && [9][..0] == [];
    assert CellsAfter(Counter, [9]) == [1, 9, 9, 9];
    assert CellsAfter(Counter, [9, 18]) == [2, 27, 18, 9];
  }
  /** The cells of timer_a, timed 10 and 20 seconds in microseconds. */
  lemma TimerACells()
    ensures CellsAfter(Timer, [10_000_000, 20_000_000]) == [2, 30_000_000, 20_000_000, 10_000_000]
  {
    var vs: seq<ISize> := [10_000_000, 20_000_000];
    assert vs[..1] == [10_000_000] && [10_000_000][..0] == [];
    assert CellsAfter(Timer, [10_000_000]) == [1, 10_000_000, 10_000_000, 10_000_000];
  }
  /** The cells of gauge_a, set to 10 then 20. */
  lemma GaugeACells()
    ensures CellsAfter(Gauge, [10, 20]) == [2, 30, 20, 10]
  {
    var vs: seq<ISize> := [10, 20];
    assert vs[..1] == [10] && [10][..0] == [];
    assert CellsAfter(Gauge, [10]) == [1, 10, 10, 10];
  }
  /** The cells of level_a, adjusted by 789, -7789 and 77788. */
  lemma LevelACells()
    ensures CellsAfter(Level, [789, -7789, 77788]) == [3, 70788, 789, -7000]
  {
    var vs: seq<ISize> := [789, -7789, 77788];
    assert vs[..2] == [789, -7789] && [789, -7789][..1] == [789] && [789][..0] == [];
    assert CellsAfter(Level, [789]) == [1, 789, 0, 0];
    assert CellsAfter(Level, [789, -7789]) == [2, -7000, 789, 0];
  }
  /** The cells of marker_a, marked three times. */
  lemma MarkerACells()
    ensures CellsAfter(Marker, [1, 1, 1]) == [3, 0, ISIZE_MIN, ISIZE_MAX]
  {
    var vs: seq<ISize> := [1, 1, 1];
    assert vs[..2] == [1, 1] && [1, 1][..1] == [1] && [1][..0] == [];
    assert CellsAfter(Marker, [1]) == [1, 0, ISIZE_MIN, ISIZE_MAX];
    assert CellsAfter(Marker, [1, 1]) == [2, 0, ISIZE_MIN, ISIZE_MAX];
  }

  /** counter_a: all statistics are count 2, sum 30, max 20, min 10, mean 15 and rate 10 per second; summary 30, average 15. */
  lemma CounterATest()
    ensures TestStats(StatsAll, Counter, "counter_a", [10, 20]) == [
        Stat(Counter, ["test", "counter_a", "count"], 2),
        Stat(Counter, ["test", "counter_a", "sum"], 30),
        Stat(Gauge, ["test", "counter_a", "max"], 20),
        Stat(Gauge, ["test", "counter_a", "min"], 10),
        Stat(Counter, ["test", "counter_a", "mean"], 15),
        Stat(Gauge, ["test", "counter_a", "rate"], 10)]
    ensures TestStats(StatsSummary, Counter, "counter_a", [10, 20]) == [Stat(Counter, ["test", "counter_a"], 30)]
    ensures TestStats(StatsAverage, Counter, "counter_a", [10, 20]) == [Stat(Gauge, ["test", "counter_a"], 15)]
  {
    var name: NameParts := ["test", "counter_a"];
    CounterACells();
    var c, samples := CellsAfter(Counter, [10, 20]), SamplesAfter(Counter, [10, 20]);
    assert RoundRatio(30, 2) == 15 && RoundRatio(30_000_000, PERIOD_US) == 10;
    AllStatsFull(Counter, name, c, samples, PERIOD_US);
    assert forall x: string :: MakeName(name, x) == ["test", "counter_a", x];
    SummaryOnePerMetric(Counter, name, c, samples, PERIOD_US);
    AverageOnePerMetric(Counter, name, c, samples, PERIOD_US);
  }

  /** counter_b: all statistics are count 3, sum 30, max 18, min 3, mean 10 and rate 10 per second; summary 30, average 10. */
  lemma CounterBTest()
    ensures TestStats(StatsAll, Counter, "counter_b", [9, 18, 3]) == [
        Stat(Counter, ["test", "counter_b", "count"], 3),
        Stat(Counter, ["test", "counter_b", "sum"], 30),
        Stat(Gauge, ["test", "counter_b", "max"], 18),
        Stat(Gauge, ["test", "counter_b", "min"], 3),
        Stat(Counter, ["test", "counter_b", "mean"], 10),
        Stat(Gauge, ["test", "counter_b", "rate"], 10)]
    ensures TestStats(StatsSummary, Counter, "counter_b", [9, 18, 3]) == [Stat(Counter, ["test", "counter_b"], 30)]
    ensures TestStats(StatsAverage, Counter, "counter_b", [9, 18, 3]) == [Stat(Gauge, ["test", "counter_b"], 10)]
  {
    var name: NameParts := ["test", "counter_b"];
    CounterBCells();
    var c, samples := CellsAfter(Counter, [9, 18, 3]), SamplesAfter(Counter, [9, 18, 3]);
    assert RoundRatio(30, 3) == 10 && RoundRatio(30_000_000, PERIOD_US) == 10;
    AllStatsFull(Counter, name, c, samples, PERIOD_US);
    assert forall x: string :: MakeName(name, x) == ["test", "counter_b", x];
    SummaryOnePerMetric(Counter, name, c, samples, PERIOD_US);
    AverageOnePerMetric(Counter, name, c, samples, PERIOD_US);
  }

  /** timer_a: all statistics are count 2, sum 30000000, max 20000000, min 10000000, mean 15000000 and rate 1 per second (2 hits in 3 seconds, rounded); summary 30000000, average 15000000. */
  lemma TimerATest()
    ensures TestStats(StatsAll, Timer, "timer_a", [10_000_000, 20_000_000]) == [
        Stat(Counter, ["test", "timer_a", "count"], 2),
        Stat(Timer, ["test", "timer_a", "sum"], 30_000_000),
        Stat(Gauge, ["test", "timer_a", "max"], 20_000_000),
        Stat(Gauge, ["test", "timer_a", "min"], 10_000_000),
        Stat(Timer, ["test", "timer_a", "mean"], 15_000_000),
        Stat(Gauge, ["test", "timer_a", "rate"], 1)]
    ensures TestStats(StatsSummary, Timer, "timer_a", [10_000_000, 20_000_000]) == [Stat(Timer, ["test", "timer_a"], 30_000_000)]
    ensures TestStats(StatsAverage, Timer, "timer_a", [10_000_000, 20_000_000]) == [Stat(Gauge, ["test", "timer_a"], 15_000_000)]
  {
    var name: NameParts := ["test", "timer_a"];
    TimerACells();
    var c, samples := CellsAfter(Timer, [10_000_000, 20_000_000]), SamplesAfter(Timer, [10_000_000, 20_000_000]);
    assert RoundRatio(30_000_000, 2) == 15_000_000 && RoundRatio(2_000_000, PERIOD_US) == 1;
    AllStatsFull(Timer, name, c, samples, PERIOD_US);
    assert forall x: string :: MakeName(name, x) == ["test", "timer_a", x];
    SummaryOnePerMetric(Timer, name, c, samples, PERIOD_US);
    AverageOnePerMetric(Timer, name, c, samples, PERIOD_US);
  }

  /** gauge_a: all statistics are max 20, min 10, mean 15; summary and average 15. */
  lemma GaugeATest()
    ensures TestStats(StatsAll, Gauge, "gauge_a", [10, 20]) == [
        Stat(Gauge, ["test", "gauge_a", "max"], 20),
        Stat(Gauge, ["test", "gauge_a", "min"], 10),
        Stat(Gauge, ["test", "gauge_a", "mean"], 15)]
    ensures TestStats(StatsSummary, Gauge, "gauge_a", [10, 20]) == [Stat(Gauge, ["test", "gauge_a"], 15)]
    ensures TestStats(StatsAverage, Gauge, "gauge_a", [10, 20]) == [Stat(Gauge, ["test", "gauge_a"], 15)]
  {
    var name: NameParts := ["test", "gauge_a"];
    GaugeACells();
    var c, samples := CellsAfter(Gauge, [10, 20]), SamplesAfter(Gauge, [10, 20]);
    assert RoundRatio(30, 2) == 15;
    AllStatsGauge(name, c, samples, PERIOD_US);
    assert forall x: string :: MakeName(name, x) == ["test", "gauge_a", x];
    SummaryOnePerMetric(Gauge, name, c, samples, PERIOD_US);
    AverageOnePerMetric(Gauge, name, c, samples, PERIOD_US);
  }

  /** level_a: all statistics are count 3, sum 70788, max 70788 and min -7000 (the extremes of the running sums 0, 789, -7000, 70788), mean 23596 and rate 23596 per second; summary and average 23596. */
  lemma LevelATest()
    ensures TestStats(StatsAll, Level, "level_a", [789, -7789, 77788]) == [
        Stat(Counter, ["test", "level_a", "count"], 3),
        Stat(Level, ["test", "level_a", "sum"], 70788),
        Stat(Gauge, ["test", "level_a", "max"], 70788),
        Stat(Gauge, ["test", "level_a", "min"], -7000),
        Stat(Level, ["test", "level_a", "mean"], 23596),
        Stat(Gauge, ["test", "level_a", "rate"], 23596)]
    ensures TestStats(StatsSummary, Level, "level_a", [789, -7789, 77788]) == [Stat(Gauge, ["test", "level_a"], 23596)]
    ensures TestStats(StatsAverage, Level, "level_a", [789, -7789, 77788]) == [Stat(Gauge, ["test", "level_a"], 23596)]
  {
    var name: NameParts := ["test", "level_a"];
    LevelACells();
    var c, samples := CellsAfter(Level, [789, -7789, 77788]), SamplesAfter(Level, [789, -7789, 77788]);
    assert RoundRatio(70788, 3) == 23596 && RoundRatio(70_788_000_000, PERIOD_US) == 23596;
    AllStatsFull(Level, name, c, samples, PERIOD_US);
    assert forall x: string :: MakeName(name, x) == ["test", "level_a", x];
    SummaryOnePerMetric(Level, name, c, samples, PERIOD_US);
    AverageOnePerMetric(Level, name, c, samples, PERIOD_US);
  }

  /** marker_a: all statistics are count 3 and rate 1 per second; summary and average 3. */
  lemma MarkerATest()
    ensures TestStats(StatsAll, Marker, "marker_a", [1, 1, 1]) == [
        Stat(Counter, ["test", "marker_a", "count"], 3),
        Stat(Gauge, ["test", "marker_a", "rate"], 1)]
    ensures TestStats(StatsSummary, Marker, "marker_a", [1, 1, 1]) == [Stat(Counter, ["test", "marker_a"], 3)]
    ensures TestStats(StatsAverage, Marker, "marker_a", [1, 1, 1]) == [Stat(Counter, ["test", "marker_a"], 3)]
  {
    var name: NameParts := ["test", "marker_a"];
    MarkerACells();
    var c, samples := CellsAfter(Marker, [1, 1, 1]), SamplesAfter(Marker, [1, 1, 1]);
    assert RoundRatio(3_000_000, PERIOD_US) == 1;
    AllStatsMarker(name, c, samples, PERIOD_US);
    assert forall x: string :: MakeName(name, x) == ["test", "marker_a", x];
    SummaryOnePerMetric(Marker, name, c, samples, PERIOD_US);
    AverageOnePerMetric(Marker, name, c, samples, PERIOD_US);
  }

  /** The handle `m` is dropped and the bucket flushed as written: the registry stays as it was. */
  method DropAndFlush(bucket: AtomicBucket, target: StatsMapScope, m: BucketMetric)
    requires bucket.Valid() && m.scores.holders > 0 && bucket.periodStart <= PERIOD_US
    modifies m.scores`holders, bucket`periodStart, bucket`metrics, bucket.Repr()`cells, bucket.Repr()`samples
    modifies target`contents, target`flushCount
    ensures bucket.Valid() && bucket.metrics == old(bucket.metrics)
  {
    bucket.ReleaseHandle(m);
    var _, _, _ := bucket.Flush(target, PERIOD_US);
  }

  /** The only handle of the entry `key` is dropped and the bucket flushed with the intended purge: the entry is gone. */
  method DropAndFixedFlush(bucket: AtomicBucket, target: StatsMapScope, m: BucketMetric, key: NameParts)
    requires bucket.Valid() && key in bucket.metrics && bucket.metrics[key] == m.scores && m.scores.holders == 1
    requires bucket.periodStart <= PERIOD_US
    modifies m.scores`holders, bucket`periodStart, bucket`metrics, bucket.Repr()`cells, bucket.Repr()`samples
    modifies target`contents, target`flushCount
    ensures bucket.Valid() && key !in bucket.metrics && bucket.Repr() <= old(bucket.Repr())
  {
    bucket.ReleaseHandle(m);
    assert key !in bucket.Held();
    var _, _, _ := bucket.FixedFlush(target, PERIOD_US);
  }

  /**
   * The handle of a Counter "a" is dropped, the bucket flushed, and "a" asked
   * for again as a Gauge. As written the unheld entry survives the purge, so
   * the Counter scores come back.
   */
  method UnheldSurvivesFlush() returns (kind: InputKind)
    ensures kind == Counter
  {
    var attrs := DefaultAttributes();
    var bucket := new AtomicBucket(attrs, 0);
    var target := new StatsMapScope(attrs);
    var m := bucket.NewMetric(FromString("a"), Counter);
    DropAndFlush(bucket, target, m);
    var again := bucket.NewMetric(FromString("a"), Gauge);
    kind := again.scores.kind;
  }

  /** The same steps with the intended purge: the unheld entry is gone, and "a" is created anew as a Gauge. */
  method UnheldPurgedByFixedFlush() returns (kind: InputKind)
    ensures kind == Gauge
  {
    var attrs := DefaultAttributes();
    var bucket := new AtomicBucket(attrs, 0);
    var target := new StatsMapScope(attrs);
    var m := bucket.NewMetric(FromString("a"), Counter);
    DropAndFixedFlush(bucket, target, m, Appended(FromString("a"), attrs.naming));
    var again := bucket.NewMetric(FromString("a"), Gauge);
    kind := again.scores.kind;
  }
}
