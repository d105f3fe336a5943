/**
 * Aggregation of metric values: every metric keeps four cells (hit count,
 * sum, max, min) and, for the Percentile kind, the list of samples of the
 * period. A reset takes a snapshot of the cells, puts them back to blank and
 * turns the snapshot into the metric kind's list of scores.
 */
module Atomic {
  import opened Wrappers
  import opened Machine
  import opened Kinds
  import opened Name
  import opened Stats

  const HIT: nat := 0
  const SUM: nat := 1
  const MAX: nat := 2
  const MIN: nat := 3

  /** The four cells of a metric's scores, in the order hit, sum, max, min. */
  type Cells = c: seq<ISize> | |c| == 4 witness [0, 0, 0, 0]

  /** The percentiles a Percentile metric reports, in this order. */
  const PERCENTILES: seq<int> := [0, 25, 50, 75, 90, 100]

  /** The cells of a metric with no value in the period: max starts at the least isize, min at the greatest. */
  function Blank(): (c: Cells)
    ensures c[HIT] == 0 && c[SUM] == 0 && c[MAX] == ISIZE_MIN && c[MIN] == ISIZE_MAX
  {
    [0, 0, ISIZE_MIN, ISIZE_MAX]
  }

  /** The two comparisons `swap_if` is called with: `new > current` and `new < current`. */
  datatype Compare = Greater | Less

  predicate Holds(cmp: Compare, newValue: int, current: int)
  {
    match cmp
    case Greater => newValue > current
    case Less => newValue < current
  }

  /*
   * Specification of one update, of a run of updates and of a snapshot
   */

  /**
   * The cells after one `update(v)`. Every kind counts the hit. A Level's
   * extremes are compared against the sum before this value is added (the
   * running sum trails by one update); a Counter, Timer or Gauge compares the
   * value itself. Markers and Percentiles touch no other cell.
   */
  function UpdateCells(kind: InputKind, c: Cells, v: ISize): (r: Cells)
    ensures r[HIT] == WrapAdd(c[HIT], 1)
    ensures kind == Marker || kind == InputKind.Percentile ==> r[SUM..] == c[SUM..]
  {
    var hit := WrapAdd(c[HIT], 1);
    match kind
    case Marker => [hit, c[SUM], c[MAX], c[MIN]]
    case Percentile => [hit, c[SUM], c[MAX], c[MIN]]
    case Level =>
      var prev := c[SUM];
      [hit, WrapAdd(prev, v), if Holds(Greater, prev, c[MAX]) then prev else c[MAX],
        if Holds(Less, prev, c[MIN]) then prev else c[MIN]]
    case _ =>
      [hit, WrapAdd(c[SUM], v), if Holds(Greater, v, c[MAX]) then v else c[MAX],
        if Holds(Less, v, c[MIN]) then v else c[MIN]]
  }

  /** The samples after one `update(v)`: only a Percentile metric keeps its values. */
  function UpdateSamples(kind: InputKind, samples: seq<ISize>, v: ISize): (r: seq<ISize>)
    ensures kind == InputKind.Percentile ==> r == samples + [v]
    ensures kind != InputKind.Percentile ==> r == samples
  {
    if kind == InputKind.Percentile then samples + [v] else samples
  }

  /** The cells after the updates `vs`, applied in order to blank cells. */
  function CellsAfter(kind: InputKind, vs: seq<ISize>): Cells
  {
    if |vs| == 0 then Blank() else UpdateCells(kind, CellsAfter(kind, vs[..|vs| - 1]), vs[|vs| - 1])
  }

  /** The samples after the updates `vs`, applied in order to an empty list. */
  function SamplesAfter(kind: InputKind, vs: seq<ISize>): seq<ISize>
  {
    if |vs| == 0 then [] else UpdateSamples(kind, SamplesAfter(kind, vs[..|vs| - 1]), vs[|vs| - 1])
  }

  /** The sum of the values with the wrap-around of `fetch_add`. */
  function WrapSum(vs: seq<ISize>): ISize
  {
    if |vs| == 0 then 0 else WrapAdd(WrapSum(vs[..|vs| - 1]), vs[|vs| - 1])
  }

  /** The running sums 0, s1, ..., sn of a Level metric over a period. */
  function RunningSums(vs: seq<ISize>): (r: seq<ISize>)
    ensures |r| == |vs| + 1 && r[0] == 0 && r[|vs|] == WrapSum(vs)
  {
    if |vs| == 0 then [0] else RunningSums(vs[..|vs| - 1]) + [WrapSum(vs)]
  }

  /** The greatest element of a non-empty sequence. */
  function SeqMax(s: seq<ISize>): ISize
    requires |s| > 0
  {
    if |s| == 1 then s[0]
    else
      var m := SeqMax(s[..|s| - 1]);
      if s[|s| - 1] > m then s[|s| - 1] else m
  }

  /** The least element of a non-empty sequence. */
  function SeqMin(s: seq<ISize>): ISize
    requires |s| > 0
  {
    if |s| == 1 then s[0]
    else
      var m := SeqMin(s[..|s| - 1]);
      if s[|s| - 1] < m then s[|s| - 1] else m
  }

  /**
   * The cells `snapshot` reads when there is data (None when the hit count is
   * zero). A Level picks up the trailing comparison against the final sum.
   */
  function SnapshotCells(kind: InputKind, c: Cells): (r: Option<Cells>)
    ensures r.Some? <==> c[HIT] != 0
    ensures r.Some? ==> r.value[HIT] == c[HIT] && r.value[SUM] == c[SUM]
    ensures r.Some? && kind != Level ==> r.value == c
  {
    if c[HIT] == 0 then None
    else if kind == Level then
      Some([c[HIT], c[SUM], if c[SUM] > c[MAX] then c[SUM] else c[MAX],
        if c[SUM] < c[MIN] then c[SUM] else c[MIN]])
    else Some(c)
  }

  /** The cells a snapshot leaves behind: hit and sum are always swapped to 0, max and min only when there was data. */
  function AfterSnapshot(c: Cells): (r: Cells)
    ensures r[HIT] == 0
    ensures c[HIT] != 0 ==> r == Blank()
  {
    if c[HIT] == 0 then [0, 0, c[MAX], c[MIN]] else Blank()
  }

  /*
   * Percentiles
   */

  predicate Sorted(s: seq<ISize>)
  {
    forall i, j :: 0 <= i < j < |s| ==> s[i] <= s[j]
  }

  lemma SortedCons(h: ISize, t: seq<ISize>)
    requires Sorted(t) && (|t| > 0 ==> h <= t[0])
    ensures Sorted([h] + t)
  {
    var r := [h] + t;
    forall i, j | 0 <= i < j < |r|
      ensures r[i] <= r[j]
    {
      if i == 0 {
        assert r[j] == t[j - 1];
        assert t[0] <= t[j - 1];
      } else {
        assert r[i] == t[i - 1] && r[j] == t[j - 1];
      }
    }
  }

  function InsertSorted(x: ISize, s: seq<ISize>): (r: seq<ISize>)
    requires Sorted(s)
    ensures Sorted(r) && multiset(r) == multiset(s) + multiset{x}
    ensures |r| == |s| + 1 && (r[0] == x || (|s| > 0 && r[0] == s[0]))
  {
    if |s| == 0 then [x]
    else if x <= s[0] then
      SortedCons(x, s);
      [x] + s
    else
      var rest := InsertSorted(x, s[1..]);
      assert s == [s[0]] + s[1..];
      assert |s| > 1 ==> s[0] <= s[1];
      SortedCons(s[0], rest);
      [s[0]] + rest
  }

  /** The ascending order of the samples (the source sorts them in place with the standard library's sort). */
  function SortSeq(s: seq<ISize>): (r: seq<ISize>)
    ensures Sorted(r) && multiset(r) == multiset(s)
  {
    if |s| == 0 then []
    else
      assert s == s[..|s| - 1] + [s[|s| - 1]];
      InsertSorted(s[|s| - 1], SortSeq(s[..|s| - 1]))
  }

  /** True while the index has not yet reached percentile p of n samples: `100 * (i + 1) < p * n`. */
  predicate BelowRank(p: int, n: nat, i: nat)
  {
    100 * (i + 1) < p * n
  }

  function RankFrom(p: int, n: nat, i: nat): (r: nat)
    requires i <= n
    ensures i <= r <= n
    ensures r < n ==> !BelowRank(p, n, r)
    ensures forall j :: i <= j < r ==> BelowRank(p, n, j)
    decreases n - i
  {
    if i < n && BelowRank(p, n, i) then RankFrom(p, n, i + 1) else i
  }

  /** The first index of n samples at which `100 * (index + 1) < p * n` fails, or n if there is none. */
  function Rank(p: int, n: nat): (r: nat)
    ensures r <= n && (r < n ==> !BelowRank(p, n, r))
    ensures forall j :: 0 <= j < r ==> BelowRank(p, n, j)
  {
    RankFrom(p, n, 0)
  }

  /** The (percentile, sample) pair reported for percentile p of the sorted samples: the rank clamped to the last index. */
  function Pick(sorted: seq<ISize>, p: int): (r: (ISize, ISize))
    requires |sorted| > 0 && ISIZE_MIN <= p <= ISIZE_MAX
    ensures r.0 == p && r.1 in sorted
    ensures Rank(p, |sorted|) < |sorted| ==> r.1 == sorted[Rank(p, |sorted|)]
    ensures Rank(p, |sorted|) >= |sorted| - 1 ==> r.1 == sorted[|sorted| - 1]
  {
    var i := Rank(p, |sorted|);
    (p, sorted[if i < |sorted| - 1 then i else |sorted| - 1])
  }

  /** The percentile scores of a period: none without samples, otherwise one pair per configured percentile. */
  function PercentileScores(samples: seq<ISize>): (r: seq<(ISize, ISize)>)
    ensures |samples| == 0 ==> r == []
    ensures |samples| > 0 ==> |r| == |PERCENTILES|
  {
    if |samples| == 0 then []
    else
      var sorted := SortSeq(samples);
      seq(|PERCENTILES|, j requires 0 <= j < |PERCENTILES| => Pick(sorted, PERCENTILES[j]))
  }

  /*
   * Scores of a reset
   */

  /** A count per period of `elapsedUs` microseconds is `PerSecond(count) / elapsedUs` per second. */
  function PerSecond(x: int): (r: int)
    ensures r % 1_000_000 == 0 && r / 1_000_000 == x
  {
    x * 1_000_000
  }

  /**
   * The scores `reset` lists, per kind, from a snapshot and the period length
   * in microseconds. `x as f64 / duration_seconds` is the quotient
   * PerSecond(x) / elapsedUs.
   */
  function ScoresOf(kind: InputKind, s: Cells, pScores: seq<(ISize, ISize)>, elapsedUs: nat): (r: seq<ScoreType>)
    ensures kind == InputKind.Percentile ==> |r| == |pScores|
  {
    match kind
    case Marker => [Count(s[HIT]), Rate(PerSecond(s[HIT]), elapsedUs)]
    case Gauge => [Max(s[MAX]), Min(s[MIN]), Mean(s[SUM], s[HIT])]
    case Timer =>
      [Count(s[HIT]), Sum(s[SUM]), Max(s[MAX]), Min(s[MIN]), Mean(s[SUM], s[HIT]),
        Rate(PerSecond(s[HIT]), elapsedUs)]
    case Counter =>
      [Count(s[HIT]), Sum(s[SUM]), Max(s[MAX]), Min(s[MIN]), Mean(s[SUM], s[HIT]),
        Rate(PerSecond(s[SUM]), elapsedUs)]
    case Level =>
      [Count(s[HIT]), Sum(s[SUM]), Max(s[MAX]), Min(s[MIN]), Mean(s[SUM], s[HIT]),
        Rate(PerSecond(s[SUM]), elapsedUs)]
    case Percentile => seq(|pScores|, i requires 0 <= i < |pScores| => ScoreType.Percentile(pScores[i].0, pScores[i].1))
  }

  /** What `reset` returns for cells `c` and samples `samples`. */
  function ResetOf(kind: InputKind, c: Cells, samples: seq<ISize>, elapsedUs: nat): (r: Option<seq<ScoreType>>)
    ensures r.Some? <==> c[HIT] != 0
  {
    match SnapshotCells(kind, c)
    case None => None
    case Some(s) =>
      // only a Percentile metric lists its percentile scores
      var pScores := if kind == InputKind.Percentile then PercentileScores(samples) else [];
      Some(ScoresOf(kind, s, pScores, elapsedUs))
  }

  /*
   * The scores of one metric
   */

  /**
   * The aggregated values of one metric. The four cells are an inline array of
   * the scores (no other object can hold them), written one cell at a time.
   */
  class AtomicScores {
    const kind: InputKind
    var cells: Cells
    var samples: seq<ISize>
    /** The percentiles reported, fixed at creation. */
    const percentiles: seq<int> := PERCENTILES
    /** The number of metric handles sharing these scores besides the bucket (the Arc count less one). */
    var holders: nat

    constructor(kind: InputKind)
      ensures this.kind == kind
      ensures cells == Blank() && samples == [] && holders == 0
    {
      this.kind := kind;
      cells := Blank();
      samples := [];
      holders := 0;
    }

    /** `swap_if` with one writer at a time: the cell takes the new value exactly when the comparison holds. */
    method SwapIf(i: nat, newValue: ISize, cmp: Compare)
      requires i < 4
      modifies this`cells
      ensures cells == old(cells)[i := if Holds(cmp, newValue, old(cells)[i]) then newValue else old(cells)[i]]
    {
      var current := cells[i];
      if Holds(cmp, newValue, current) {
        cells := cells[i := newValue];
      }
    }

    /** `metric_kind`. */
    function MetricKind(): (k: InputKind)
      ensures k == kind
    {
      kind
    }

    /** `update`: records one value. */
    method Update(v: ISize)
      modifies this`cells, this`samples
      ensures cells == UpdateCells(kind, old(cells), v)
      ensures samples == UpdateSamples(kind, old(samples), v)
    {
      cells := cells[HIT := WrapAdd(cells[HIT], 1)];
      match kind {
        case Marker =>
        case Level =>
          var prevSum := cells[SUM];
          cells := cells[SUM := WrapAdd(prevSum, v)];
          SwapIf(MAX, prevSum, Greater);
          SwapIf(MIN, prevSum, Less);
        case Percentile =>
          samples := samples + [v];
        case _ =>
          cells := cells[SUM := WrapAdd(cells[SUM], v)];
          SwapIf(MAX, v, Greater);
          SwapIf(MIN, v, Less);
      }
    }

    /**
     * The percentile loop of `snapshot`: one index walks the sorted samples
     * across all percentiles in order.
     */
    method PercentileLoop(sorted: seq<ISize>) returns (out: seq<(ISize, ISize)>)
      requires |sorted| > 0
      ensures out == seq(|PERCENTILES|, j requires 0 <= j < |PERCENTILES| => Pick(sorted, PERCENTILES[j]))
    {
      var n := |sorted|;
      var index := 0;
      out := [];
      for j := 0 to |percentiles|
        invariant |out| == j
        invariant index <= n
        invariant j == 0 ==> index == 0
        invariant j > 0 ==> index == Rank(percentiles[j - 1], n)
        invariant forall t :: 0 <= t < j ==> out[t] == Pick(sorted, PERCENTILES[t])
      {
        var p := percentiles[j];
        if j > 0 {
          RankResume(percentiles[j - 1], p, n);
        }
        while index < n && 100 * (index + 1) < p * n
          invariant index <= n
          invariant RankFrom(p, n, index) == Rank(p, n)
          decreases n - index
        {
          index := index + 1;
        }
        var i := if index < n - 1 then index else n - 1;
        out := out + [(p, sorted[i])];
      }
    }

    /**
     * `snapshot`: moves hit and sum into `buffer` and zeroes them; when there
     * was data, also moves max and min (resetting them to blank), reconciles a
     * Level's extremes with its final sum, and turns the samples into
     * percentile scores.
     */
    method Snapshot(buffer: array<ISize>) returns (ok: bool, pScores: seq<(ISize, ISize)>)
      requires buffer.Length == 4
      modifies buffer, this`cells, this`samples
      ensures ok <==> old(cells)[HIT] != 0
      ensures ok ==> SnapshotCells(kind, old(cells)) == Some(buffer[..])
      ensures !ok ==> buffer[..] == old(buffer[..])[HIT := 0][SUM := old(cells)[SUM]]
      ensures cells == AfterSnapshot(old(cells))
      ensures ok ==> samples == [] && pScores == PercentileScores(old(samples))
      ensures !ok ==> samples == old(samples) && pScores == []
    {
      pScores := [];
      ok := TakeCells(buffer);
      if ok && |samples| > 0 {
        var sorted := SortSeq(samples);
        samples := sorted;
        pScores := PercentileLoop(sorted);
        samples := [];
      }
    }

    /** The part of `snapshot` on the cells: what it moves into `buffer` and what it leaves. */
    method TakeCells(buffer: array<ISize>) returns (ok: bool)
      requires buffer.Length == 4
      modifies buffer, this`cells
      ensures ok <==> old(cells)[HIT] != 0
      ensures ok ==> SnapshotCells(kind, old(cells)) == Some(buffer[..])
      ensures !ok ==> buffer[..] == old(buffer[..])[HIT := 0][SUM := old(cells)[SUM]]
      ensures cells == AfterSnapshot(old(cells))
    {
      ghost var c := cells;
      buffer[HIT] := cells[HIT];
      cells := cells[HIT := 0];
      buffer[SUM] := cells[SUM];
      cells := cells[SUM := 0];
      if buffer[HIT] == 0 {
        return false;
      }
      buffer[MAX] := cells[MAX];
      cells := cells[MAX := ISIZE_MIN];
      buffer[MIN] := cells[MIN];
      cells := cells[MIN := ISIZE_MAX];
      if kind == Level {
        if buffer[SUM] > buffer[MAX] {
          buffer[MAX] := buffer[SUM];
        }
        if buffer[SUM] < buffer[MIN] {
          buffer[MIN] := buffer[SUM];
        }
      }
      assert buffer[..] == SnapshotCells(kind, c).value;
      ok := true;
    }

    /** `reset`: a snapshot turned into the kind's list of scores, or None when there was no update. */
    method Reset(elapsedUs: nat) returns (r: Option<seq<ScoreType>>)
      modifies this`cells, this`samples
      ensures r == ResetOf(kind, old(cells), old(samples), elapsedUs)
      ensures cells == AfterSnapshot(old(cells))
      ensures samples == if r.Some? then [] else old(samples)
    {
      var buffer := new ISize[4];
      buffer[HIT], buffer[SUM], buffer[MAX], buffer[MIN] := 0, 0, ISIZE_MIN, ISIZE_MAX;
      var ok, pScores := Snapshot(buffer);
      if !ok {
        return None;
      }
      var snapshot := ScoresFrom(buffer[..], pScores, elapsedUs);
      r := Some(snapshot);
    }

    /** The scores `reset` lists for the kind, from the snapshot buffer `s` and the percentile scores. */
    method ScoresFrom(s: seq<ISize>, pScores: seq<(ISize, ISize)>, elapsedUs: nat) returns (snapshot: seq<ScoreType>)
      requires |s| == 4
      ensures snapshot == ScoresOf(kind, s, pScores, elapsedUs)
    {
      snapshot := [];
      match kind {
        case Marker =>
          snapshot := snapshot + [Count(s[HIT])];
          snapshot := snapshot + [Rate(PerSecond(s[HIT]), elapsedUs)];
          assert snapshot == ScoresOf(kind, s, pScores, elapsedUs);
        case Gauge =>
          snapshot := snapshot + [Max(s[MAX])];
          snapshot := snapshot + [Min(s[MIN])];
          snapshot := snapshot + [Mean(s[SUM], s[HIT])];
          assert snapshot == ScoresOf(kind, s, pScores, elapsedUs);
        case Timer =>
          snapshot := snapshot + [Count(s[HIT]), Sum(s[SUM])];
          snapshot := snapshot + [Max(s[MAX]), Min(s[MIN])];
          snapshot := snapshot + [Mean(s[SUM], s[HIT])];
          snapshot := snapshot + [Rate(PerSecond(s[HIT]), elapsedUs)];
          assert snapshot == ScoresOf(kind, s, pScores, elapsedUs);
        case Counter =>
          snapshot := snapshot + [Count(s[HIT]), Sum(s[SUM])];
          snapshot := snapshot + [Max(s[MAX]), Min(s[MIN])];
          snapshot := snapshot + [Mean(s[SUM], s[HIT])];
          snapshot := snapshot + [Rate(PerSecond(s[SUM]), elapsedUs)];
          assert snapshot == ScoresOf(kind, s, pScores, elapsedUs);
        case Level =>
          snapshot := snapshot + [Count(s[HIT]), Sum(s[SUM])];
          snapshot := snapshot + [Max(s[MAX]), Min(s[MIN])];
          snapshot := snapshot + [Mean(s[SUM], s[HIT])];
          snapshot := snapshot + [Rate(PerSecond(s[SUM]), elapsedUs)];
          assert snapshot == ScoresOf(kind, s, pScores, elapsedUs);
        case Percentile =>
          for i := 0 to |pScores|
            invariant snapshot == seq(i, t requires 0 <= t < i => ScoreType.Percentile(pScores[t].0, pScores[t].1))
          {
            snapshot := snapshot + [ScoreType.Percentile(pScores[i].0, pScores[i].1)];
          }
          assert snapshot == ScoresOf(kind, s, pScores, elapsedUs);
      }
    }
  }

  /*
   * Lemmas about percentile ranks
   */

  lemma MulMonotone(a: int, b: int, n: nat)
    requires a <= b
    ensures a * n <= b * n
  {
    assert b * n - a * n == (b - a) * n;
  }

  /** A larger percentile never has a smaller rank. */
  lemma {:induction false} RankFromMonotone(p1: int, p2: int, n: nat, i: nat)
    requires p1 <= p2 && i <= n
    ensures RankFrom(p1, n, i) <= RankFrom(p2, n, i)
    decreases n - i
  {
    MulMonotone(p1, p2, n);
    if i < n && BelowRank(p1, n, i) {
      RankFromMonotone(p1, p2, n, i + 1);
    }
  }

  /** Starting the walk at any index up to the rank finds the same rank. */
  lemma {:induction false} RankFromSkip(p: int, n: nat, i: nat, j: nat)
    requires i <= n && i <= j <= RankFrom(p, n, i)
    ensures RankFrom(p, n, j) == RankFrom(p, n, i)
    decreases j - i
  {
    if i < j {
      assert i < n && BelowRank(p, n, i);
      RankFromSkip(p, n, i + 1, j);
    }
  }

  /** The walk for the next percentile may resume where the previous one stopped. */
  lemma RankResume(p1: int, p2: int, n: nat)
    requires p1 <= p2
    ensures Rank(p1, n) <= n && RankFrom(p2, n, Rank(p1, n)) == Rank(p2, n)
  {
    RankFromMonotone(p1, p2, n, 0);
    RankFromSkip(p2, n, 0, Rank(p1, n));
  }

  lemma RankOfZero(n: nat)
    ensures Rank(0, n) == 0
  {
  }

  /** Percentile 100 of n samples ranks at the last index. */
  lemma {:induction false} RankFromHundred(n: nat, i: nat)
    requires 0 < n && i <= n - 1
    ensures RankFrom(100, n, i) == n - 1
    decreases n - i
  {
    if i < n - 1 {
      assert BelowRank(100, n, i);
      RankFromHundred(n, i + 1);
    } else {
      assert !BelowRank(100, n, i);
    }
  }

  lemma SortedLength(samples: seq<ISize>)
    ensures |SortSeq(samples)| == |samples|
  {
    assert |multiset(SortSeq(samples))| == |multiset(samples)|;
  }

  /** Each percentile score pairs the configured percentile, in order, with a sample of the period. */
  lemma PercentilePairs(samples: seq<ISize>)
    requires |samples| > 0
    ensures var r := PercentileScores(samples);
      |r| == |PERCENTILES| && forall j :: 0 <= j < |r| ==> r[j].0 == PERCENTILES[j] && r[j].1 in samples
  {
    var sorted := SortSeq(samples);
    SortedLength(samples);
    var r := PercentileScores(samples);
    forall j | 0 <= j < |r|
      ensures r[j].0 == PERCENTILES[j] && r[j].1 in samples
    {
      assert r[j] == Pick(sorted, PERCENTILES[j]);
      PickIsSample(sorted, samples, PERCENTILES[j]);
    }
  }

  lemma PickIsSample(sorted: seq<ISize>, samples: seq<ISize>, p: int)
    requires |sorted| > 0 && ISIZE_MIN <= p <= ISIZE_MAX && multiset(sorted) == multiset(samples)
    ensures Pick(sorted, p).1 in samples
  {
    assert Pick(sorted, p).1 in multiset(sorted);
  }

  /** On sorted samples, a larger percentile never reports a smaller sample. */
  lemma PickMonotone(sorted: seq<ISize>, p1: ISize, p2: ISize)
    requires |sorted| > 0 && Sorted(sorted) && p1 <= p2
    ensures Pick(sorted, p1).1 <= Pick(sorted, p2).1
  {
    RankFromMonotone(p1, p2, |sorted|, 0);
  }

  /** The reported samples never decrease from one percentile to the next. */
  lemma PercentilesNonDecreasing(samples: seq<ISize>)
    requires |samples| > 0
    ensures var r := PercentileScores(samples);
      forall j, k :: 0 <= j < k < |r| ==> r[j].1 <= r[k].1
  {
    var sorted := SortSeq(samples);
    var r := PercentileScores(samples);
    forall j, k | 0 <= j < k < |r|
      ensures r[j].1 <= r[k].1
    {
      assert PERCENTILES[j] <= PERCENTILES[k];
      PickMonotone(sorted, PERCENTILES[j], PERCENTILES[k]);
    }
  }

  /** On sorted samples, percentile 0 reports the first sample and percentile 100 the last. */
  lemma PickEnds(sorted: seq<ISize>)
    requires |sorted| > 0
    ensures Pick(sorted, 0).1 == sorted[0]
    ensures Pick(sorted, 100).1 == sorted[|sorted| - 1]
  {
    RankOfZero(|sorted|);
    RankFromHundred(|sorted|, 0);
  }

  /** The first and last elements of a sorted permutation bound every element of the original. */
  lemma SortedBounds(samples: seq<ISize>, sorted: seq<ISize>)
    requires |sorted| > 0 && Sorted(sorted) && multiset(sorted) == multiset(samples)
    ensures forall i :: 0 <= i < |samples| ==> sorted[0] <= samples[i] <= sorted[|sorted| - 1]
  {
    forall i | 0 <= i < |samples|
      ensures sorted[0] <= samples[i] <= sorted[|sorted| - 1]
    {
      assert samples[i] in multiset(sorted);
      var t :| 0 <= t < |sorted| && sorted[t] == samples[i];
    }
  }

  /** Percentile 0 reports the least sample and percentile 100 the greatest. */
  lemma PercentileExtremes(samples: seq<ISize>)
    requires |samples| > 0
    ensures var r := PercentileScores(samples);
      |r| == 6 && forall i :: 0 <= i < |samples| ==> r[0].1 <= samples[i] <= r[5].1
  {
    var sorted := SortSeq(samples);
    SortedLength(samples);
    var r := PercentileScores(samples);
    PickEnds(sorted);
    assert r[0] == Pick(sorted, 0) && r[5] == Pick(sorted, 100);
    SortedBounds(samples, sorted);
  }

  /*
   * Lemmas about updates and resets
   */

  lemma {:induction false} SeqMaxIsGreatest(s: seq<ISize>)
    requires |s| > 0
    ensures SeqMax(s) in s && forall i :: 0 <= i < |s| ==> s[i] <= SeqMax(s)
  {
    if |s| > 1 {
      var init := s[..|s| - 1];
      SeqMaxIsGreatest(init);
      assert forall i :: 0 <= i < |init| ==> init[i] == s[i];
    }
  }

  lemma {:induction false} SeqMinIsLeast(s: seq<ISize>)
    requires |s| > 0
    ensures SeqMin(s) in s && forall i :: 0 <= i < |s| ==> SeqMin(s) <= s[i]
  {
    if |s| > 1 {
      var init := s[..|s| - 1];
      SeqMinIsLeast(init);
      assert forall i :: 0 <= i < |init| ==> init[i] == s[i];
    }
  }

  lemma {:induction false} HitCount(kind: InputKind, vs: seq<ISize>)
    requires |vs| <= ISIZE_MAX
    ensures CellsAfter(kind, vs)[HIT] == |vs|
  {
    if |vs| > 0 {
      HitCount(kind, vs[..|vs| - 1]);
    }
  }

  /**
   * A Counter, Timer or Gauge updated with the values `vs` holds their
   * (wrapped) sum, their greatest and their least value.
   */
  lemma {:induction false} ValueKindUpdates(kind: InputKind, vs: seq<ISize>)
    requires kind == Counter || kind == Timer || kind == Gauge
    requires |vs| > 0
    ensures var c := CellsAfter(kind, vs);
      c[SUM] == WrapSum(vs) && c[MAX] == SeqMax(vs) && c[MIN] == SeqMin(vs)
  {
    var n := |vs|;
    var init, v := vs[..n - 1], vs[n - 1];
    var before := CellsAfter(kind, init);
    assert CellsAfter(kind, vs) == UpdateCells(kind, before, v);
    ValueStep(kind, before, v);
    assert WrapSum(vs) == WrapAdd(WrapSum(init), v);
    if n > 1 {
      ValueKindUpdates(kind, init);
      assert SeqMax(vs) == if v > SeqMax(init) then v else SeqMax(init);
      assert SeqMin(vs) == if v < SeqMin(init) then v else SeqMin(init);
    } else {
      assert init == [];
    }
  }

  /** One update of a Counter, Timer or Gauge adds the value to the sum and compares it with the extremes. */
  lemma ValueStep(kind: InputKind, c: Cells, v: ISize)
    requires kind == Counter || kind == Timer || kind == Gauge
    ensures var r := UpdateCells(kind, c, v);
      r[SUM] == WrapAdd(c[SUM], v) && r[MAX] == (if v > c[MAX] then v else c[MAX]) && r[MIN] == (if v < c[MIN] then v else c[MIN])
  {
  }

  /** A Marker counts hits only: its sum, max and min keep their blank values. */
  lemma {:induction false} MarkerUpdates(vs: seq<ISize>)
    ensures CellsAfter(Marker, vs)[SUM..] == Blank()[SUM..]
  {
    if |vs| > 0 {
      MarkerUpdates(vs[..|vs| - 1]);
    }
  }

  /** Before the final reconciliation, a Level's extremes cover the running sums up to the one before last. */
  lemma {:induction false} LevelTrailing(vs: seq<ISize>)
    requires |vs| > 0
    ensures var c := CellsAfter(Level, vs);
      var before := RunningSums(vs[..|vs| - 1]);
      c[SUM] == WrapSum(vs) && c[MAX] == SeqMax(before) && c[MIN] == SeqMin(before)
  {
    var n := |vs|;
    var init := vs[..n - 1];
    if n == 1 {
      assert init == [];
    } else {
      LevelTrailing(init);
      var sums := RunningSums(init);
      assert sums[..|sums| - 1] == RunningSums(vs[..n - 2]) by {
        assert init[..|init| - 1] == vs[..n - 2];
      }
    }
  }

  /**
   * The snapshot of a Level updated with `vs` reports as max and min the
   * extremes of all running sums of the period, the initial 0 and the final
   * sum included.
   */
  lemma {:induction false} LevelExtremes(vs: seq<ISize>)
    requires 0 < |vs| <= ISIZE_MAX
    ensures var s := SnapshotCells(Level, CellsAfter(Level, vs));
      var sums := RunningSums(vs);
      s.Some? && s.value[MAX] == SeqMax(sums) && s.value[MIN] == SeqMin(sums)
  {
    var c := CellsAfter(Level, vs);
    HitCount(Level, vs);
    LevelTrailing(vs);
    var sums := RunningSums(vs);
    var before := RunningSums(vs[..|vs| - 1]);
    var last := WrapSum(vs);
    assert sums == before + [last];
    assert sums[..|sums| - 1] == before;
    assert SeqMax(sums) == if last > SeqMax(before) then last else SeqMax(before);
    assert SeqMin(sums) == if last < SeqMin(before) then last else SeqMin(before);
    assert SnapshotCells(Level, c) == Some([c[HIT], last,
      if last > c[MAX] then last else c[MAX], if last < c[MIN] then last else c[MIN]]);
  }

  /** No update since the previous snapshot: the next reset returns None. */
  lemma ResetAfterReset(kind: InputKind, c: Cells, samples: seq<ISize>, elapsedUs: nat)
    ensures ResetOf(kind, AfterSnapshot(c), samples, elapsedUs).None?
  {
  }

  /** The kind of each score in a list, without its value. */
  datatype ScoreTag = TCount | TSum | TMax | TMin | TMean | TRate | TPercentile

  function TagOf(s: ScoreType): ScoreTag
  {
    match s
    case Count(_) => TCount
    case Sum(_) => TSum
    case Max(_) => TMax
    case Min(_) => TMin
    case Mean(_, _) => TMean
    case Rate(_, _) => TRate
    case Percentile(_, _) => TPercentile
  }

  function Tags(l: seq<ScoreType>): (r: seq<ScoreTag>)
    ensures |r| == |l|
  {
    seq(|l|, i requires 0 <= i < |l| => TagOf(l[i]))
  }

  /** A Marker's reset lists its Count (the hits) and its Rate (hits per second). */
  lemma ResetListMarker(c: Cells, samples: seq<ISize>, elapsedUs: nat)
    requires c[HIT] != 0
    ensures var l := ResetOf(Marker, c, samples, elapsedUs).value;
      Tags(l) == [TCount, TRate] && l[0].n == c[HIT]
      && l[1].num == PerSecond(c[HIT]) && l[1].den == elapsedUs
  {
    var l := ResetOf(Marker, c, samples, elapsedUs).value;
    assert l == [Count(c[HIT]), Rate(PerSecond(c[HIT]), elapsedUs)];
  }

  /** A Gauge's reset lists its Max, Min and Mean (sum over hits), and no Count, Sum or Rate. */
  lemma ResetListGauge(c: Cells, samples: seq<ISize>, elapsedUs: nat)
    requires c[HIT] != 0
    ensures var l := ResetOf(Gauge, c, samples, elapsedUs).value;
      Tags(l) == [TMax, TMin, TMean] && l[0].n == c[MAX] && l[1].n == c[MIN]
      && l[2].num == c[SUM] && l[2].den == c[HIT]
  {
    var l := ResetOf(Gauge, c, samples, elapsedUs).value;
    assert l == [Max(c[MAX]), Min(c[MIN]), Mean(c[SUM], c[HIT])];
  }

  /**
   * A Timer's, Counter's or Level's reset lists Count, Sum, Max, Min, Mean and
   * Rate; the rate is hits per second for a Timer and sum per second otherwise.
   */
  lemma ResetListFull(kind: InputKind, c: Cells, samples: seq<ISize>, elapsedUs: nat)
    requires kind == Timer || kind == Counter || kind == Level
    requires c[HIT] != 0
    ensures var l := ResetOf(kind, c, samples, elapsedUs).value;
      Tags(l) == [TCount, TSum, TMax, TMin, TMean, TRate]
      && l[0].n == c[HIT] && l[1].n == c[SUM] && l[4].num == c[SUM] && l[4].den == c[HIT]
      && l[5].num == PerSecond(if kind == Timer then c[HIT] else c[SUM]) && l[5].den == elapsedUs
  {
    var s := SnapshotCells(kind, c).value;
    var l := ResetOf(kind, c, samples, elapsedUs).value;
    var rate := if kind == Timer then c[HIT] else c[SUM];
    assert l == [Count(c[HIT]), Sum(c[SUM]), Max(s[MAX]), Min(s[MIN]), Mean(c[SUM], c[HIT]),
      Rate(PerSecond(rate), elapsedUs)];
  }

  /** A Percentile's reset lists exactly its percentile scores, in order. */
  lemma ResetListPercentile(c: Cells, samples: seq<ISize>, elapsedUs: nat)
    requires c[HIT] != 0
    ensures var l := ResetOf(InputKind.Percentile, c, samples, elapsedUs).value;
      var ps := PercentileScores(samples);
      |l| == |ps| && forall i :: 0 <= i < |l| ==> l[i] == ScoreType.Percentile(ps[i].0, ps[i].1)
  {
  }
}
