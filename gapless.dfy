/**
 * The gapless input scope: a cache in front of a target scope that
 * remembers the last value written to each metric and, on every flush,
 * writes that value again for each metric that was not written since the
 * previous flush, so that the target sees no gap in any series.
 *
 * The target is observed through the calls it receives, in order.
 */
module Gapless {
  import opened Machine
  import opened Kinds
  import opened Name
  import opened Attributes
  import opened Orderings

  /** A call into the target scope. */
  datatype TargetCall =
    | Define(name: NameParts, kind: InputKind)
    | Write(name: NameParts, value: ISize)
    | FlushTarget

  /** `LastValueMetric` without its target handle: the `touched` flag and the last value written. */
  datatype LastValue = LastValue(touched: bool, lastValue: ISize)

  /** The handle `new_metric` returns: it writes through the cache entry of its prefixed name. */
  datatype GaplessMetric = GaplessMetric(name: NameParts)

  /*
   * The flush, as functions of the cache
   */

  /** The value writes a flush replays when it visits the cached metrics in `order`: one per untouched entry. */
  function Replays(cache: map<NameParts, LastValue>, order: seq<NameParts>): seq<TargetCall>
    requires forall i :: 0 <= i < |order| ==> order[i] in cache
  {
    if |order| == 0 then []
    else
      var n := order[|order| - 1];
      Replays(cache, order[..|order| - 1]) + (if cache[n].touched then [] else [Write(n, cache[n].lastValue)])
  }

  /** Visiting one more metric adds its replay, if any, at the end. */
  lemma ReplaysSnoc(cache: map<NameParts, LastValue>, order: seq<NameParts>, n: NameParts)
    requires forall i :: 0 <= i < |order| ==> order[i] in cache
    requires n in cache
    ensures forall i :: 0 <= i < |order + [n]| ==> (order + [n])[i] in cache
    ensures Replays(cache, order + [n])
      == Replays(cache, order) + (if cache[n].touched then [] else [Write(n, cache[n].lastValue)])
  {
    assert (order + [n])[..|order|] == order;
  }

  /** The cache after a flush: every flag cleared, every value kept. */
  function Cleared(cache: map<NameParts, LastValue>): (r: map<NameParts, LastValue>)
    ensures r.Keys == cache.Keys
    ensures forall n :: n in r ==> !r[n].touched && r[n].lastValue == cache[n].lastValue
  {
    map n | n in cache :: LastValue(false, cache[n].lastValue)
  }

  /** The number of writes to `n` among `calls`. */
  function WritesTo(calls: seq<TargetCall>, n: NameParts): nat
  {
    if |calls| == 0 then 0
    else WritesTo(calls[..|calls| - 1], n) + (if calls[|calls| - 1].Write? && calls[|calls| - 1].name == n then 1 else 0)
  }

  lemma WritesToAppend(a: seq<TargetCall>, b: seq<TargetCall>, n: NameParts)
    ensures WritesTo(a + b, n) == WritesTo(a, n) + WritesTo(b, n)
    decreases |b|
  {
    if |b| == 0 {
      assert a + b == a;
    } else {
      assert (a + b)[..|a + b| - 1] == a + b[..|b| - 1];
      WritesToAppend(a, b[..|b| - 1], n);
    }
  }

  /** Every replayed write is the last value of a cached metric that was not touched. */
  lemma {:induction false} ReplaysAreLastValues(cache: map<NameParts, LastValue>, order: seq<NameParts>)
    requires forall i :: 0 <= i < |order| ==> order[i] in cache
    ensures forall i :: 0 <= i < |Replays(cache, order)| ==>
      var c := Replays(cache, order)[i];
      c.Write? && c.name in cache && !cache[c.name].touched && c.value == cache[c.name].lastValue
  {
    if |order| > 0 {
      ReplaysAreLastValues(cache, order[..|order| - 1]);
    }
  }

  /** Over distinct cached names, a flush writes a name once if it is listed and untouched, and never otherwise. */
  lemma {:induction false} ReplaysCount(cache: map<NameParts, LastValue>, order: seq<NameParts>, n: NameParts)
    requires forall i :: 0 <= i < |order| ==> order[i] in cache
    requires forall i, j :: 0 <= i < j < |order| ==> order[i] != order[j]
    ensures WritesTo(Replays(cache, order), n)
      == if (exists i :: 0 <= i < |order| && order[i] == n) && !cache[n].touched then 1 else 0
  {
    if |order| > 0 {
      var front := order[..|order| - 1];
      var last := order[|order| - 1];
      ReplaysCount(cache, front, n);
      var tail: seq<TargetCall> := if cache[last].touched then [] else [Write(last, cache[last].lastValue)];
      WritesToAppend(Replays(cache, front), tail, n);
      assert WritesTo(tail, n) == if last == n && !cache[last].touched then 1 else 0 by {
        if tail != [] {
          assert tail[..0] == [];
        }
      }
      if last == n {
        assert !exists i :: 0 <= i < |front| && front[i] == n by {
          forall i | 0 <= i < |front| ensures front[i] != n {
            assert order[i] == front[i];
          }
        }
      } else {
        assert (exists i :: 0 <= i < |order| && order[i] == n) <==> (exists i :: 0 <= i < |front| && front[i] == n) by {
          if exists i :: 0 <= i < |order| && order[i] == n {
            var i :| 0 <= i < |order| && order[i] == n;
            assert i < |front| && front[i] == n;
          }
          if exists i :: 0 <= i < |front| && front[i] == n {
            var i :| 0 <= i < |front| && front[i] == n;
            assert order[i] == n;
          }
        }
      }
    }
  }

  /**
   * Whatever the order of the visit, a flush writes each cached metric's last
   * value exactly once if it was not touched since the previous flush, and
   * writes a touched or unknown metric not at all.
   */
  lemma ReplayedIffUntouched(cache: map<NameParts, LastValue>, order: seq<NameParts>, n: NameParts)
    requires Enumerates(order, cache.Keys)
    ensures WritesTo(Replays(cache, order), n) == if n in cache && !cache[n].touched then 1 else 0
  {
    ReplaysCount(cache, order, n);
    if n in cache {
      EnumerationCovers(order, cache.Keys, n);
    }
  }

  /** After a flush, the next flush replays every cached metric, each with its last value, in its order of visit. */
  lemma {:induction false} ClearedReplaysAll(cache: map<NameParts, LastValue>, order: seq<NameParts>)
    requires forall i :: 0 <= i < |order| ==> order[i] in cache
    ensures |Replays(Cleared(cache), order)| == |order|
    ensures forall i :: 0 <= i < |order| ==> Replays(Cleared(cache), order)[i] == Write(order[i], cache[order[i]].lastValue)
  {
    if |order| > 0 {
      ClearedReplaysAll(cache, order[..|order| - 1]);
    }
  }

  /** The receiving end of a flush is untouched by an untouched cache: flushing twice replays the same writes. */
  lemma ClearedIdempotent(cache: map<NameParts, LastValue>)
    ensures Cleared(Cleared(cache)) == Cleared(cache)
  {
  }

  /** Part way through a flush: the metrics already visited have their flag cleared, the others are as they were. */
  ghost predicate Visited(before: map<NameParts, LastValue>, now: map<NameParts, LastValue>, remaining: set<NameParts>)
  {
    now.Keys == before.Keys
    && (forall n :: n in now && n in remaining ==> now[n] == before[n])
    && (forall n :: n in now && n !in remaining ==> now[n] == LastValue(false, before[n].lastValue))
  }

  /** Visiting one more metric keeps a flush part way through. */
  lemma VisitedStep(before: map<NameParts, LastValue>, now: map<NameParts, LastValue>, remaining: set<NameParts>, n: NameParts)
    requires Visited(before, now, remaining) && n in remaining && n in now
    ensures Visited(before, now[n := LastValue(false, now[n].lastValue)], remaining - {n})
    ensures now[n] == before[n]
  {
  }

  /** At the end of a flush, every flag is cleared. */
  lemma VisitedAll(before: map<NameParts, LastValue>, now: map<NameParts, LastValue>)
    requires Visited(before, now, {})
    ensures now == Cleared(before)
  {
  }

  /*
   * The scope
   */

  class GaplessScope {
    const attributes: Attributes
    /** The cached metrics, by prefixed name. */
    var cache: map<NameParts, LastValue>
    /** The calls the target scope received so far, in order. */
    var calls: seq<TargetCall>

    /** `GaplessInput::metrics()`: an empty cache in front of the target. */
    constructor(attributes: Attributes)
      ensures this.attributes == attributes && cache == map[] && calls == []
    {
      this.attributes := attributes;
      cache := map[];
      calls := [];
    }

    /**
     * `new_metric`: the prefixed name's cache entry if there is one (its kind
     * stays the first one defined); otherwise a new target metric and an
     * entry with the value 0, not touched.
     */
    method NewMetric(name: NameParts, kind: InputKind) returns (m: GaplessMetric)
      requires |name| > 0
      modifies this`cache, this`calls
      ensures m.name == PrefixAppend(attributes, name) && m.name in cache
      ensures old(cache).Keys <= cache.Keys
      ensures m.name in old(cache) ==> cache == old(cache) && calls == old(calls)
      ensures m.name !in old(cache) ==>
        cache == old(cache)[m.name := LastValue(false, 0)] && calls == old(calls) + [Define(m.name, kind)]
    {
      var prefixed := Append(name, attributes.naming);
      m := GaplessMetric(prefixed);
      if prefixed !in cache {
        calls := calls + [Define(prefixed, kind)];
        cache := cache[prefixed := LastValue(false, 0)];
      }
    }

    /** A write through a handle: the value and the `touched` flag are stored, then the value goes to the target. */
    method Write(m: GaplessMetric, value: ISize)
      requires m.name in cache
      modifies this`cache, this`calls
      ensures cache == old(cache)[m.name := LastValue(true, value)]
      ensures calls == old(calls) + [TargetCall.Write(m.name, value)]
    {
      cache := cache[m.name := LastValue(true, value)];
      calls := calls + [TargetCall.Write(m.name, value)];
    }

    /** One step of `flush`: clears the flag of `n` and, if it was not set, writes its last value again. */
    method Visit(n: NameParts)
      requires n in cache
      modifies this`cache, this`calls
      ensures cache == old(cache)[n := LastValue(false, old(cache)[n].lastValue)]
      ensures calls == old(calls) + (if old(cache)[n].touched then [] else [TargetCall.Write(n, old(cache)[n].lastValue)])
    {
      var entry := cache[n];
      cache := cache[n := LastValue(false, entry.lastValue)];
      if !entry.touched {
        calls := calls + [TargetCall.Write(n, entry.lastValue)];
      }
    }

    /**
     * `flush`: visits the cached metrics in an unspecified order, returned as
     * `order`; for each, clears its flag and, if the flag was not set, writes
     * its last value again. Then the target is flushed once, and its outcome
     * `targetOk` is the result.
     */
    method Flush(targetOk: bool) returns (order: seq<NameParts>, ok: bool)
      modifies this`cache, this`calls
      ensures Enumerates(order, old(cache).Keys)
      ensures cache == Cleared(old(cache))
      ensures calls == old(calls) + Replays(old(cache), order) + [FlushTarget]
      ensures ok == targetOk
    {
      var visited := cache;
      order := Enumerate(visited.Keys);
      ghost var remaining := visited.Keys;
      assert order[..0] == [];
      for i := 0 to |order|
        invariant visited == old(cache)
        invariant Partway(visited, old(calls), order, i, remaining)
      {
        remaining := VisitNext(visited, old(calls), order, i, remaining);
      }
      assert order[..|order|] == order;
      VisitedAll(visited, cache);
      calls := calls + [FlushTarget];
      ok := targetOk;
    }

    /** A flush after its `i` first visits: the visited metrics are cleared and their replays sent, the others remain. */
    ghost predicate Partway(visited: map<NameParts, LastValue>, before: seq<TargetCall>, order: seq<NameParts>, i: nat, remaining: set<NameParts>)
      reads this
    {
      Enumerates(order, visited.Keys) && i <= |order|
      && (forall j :: i <= j < |order| ==> order[j] in remaining)
      && remaining <= visited.Keys && |remaining| == |order| - i
      && Visited(visited, cache, remaining)
      && calls == before + Replays(visited, order[..i])
    }

    /** The `i`-th visit of a flush. */
    method VisitNext(ghost visited: map<NameParts, LastValue>, ghost before: seq<TargetCall>, order: seq<NameParts>, i: nat,
                     ghost remaining: set<NameParts>) returns (ghost left: set<NameParts>)
      requires i < |order| && Partway(visited, before, order, i, remaining)
      modifies this`cache, this`calls
      ensures Partway(visited, before, order, i + 1, left)
    {
      var n := order[i];
      VisitedStep(visited, cache, remaining, n);
      ReplaysSnoc(visited, order[..i], n);
      assert order[..i + 1] == order[..i] + [n];
      Visit(n);
      left := remaining - {n};
      forall j | i + 1 <= j < |order| ensures order[j] in left {
        assert order[j] != order[i];
      }
    }
  }

  /*
   * Scenarios
   */

  /** A metric defined and never written: every flush writes 0 to it. */
  method NeverWrittenScenario(attrs: Attributes) returns (calls: seq<TargetCall>)
    requires attrs.naming == []
    ensures calls == [Define(["count"], Counter), Write(["count"], 0), FlushTarget, Write(["count"], 0), FlushTarget]
  {
    var scope := new GaplessScope(attrs);
    var counter := scope.NewMetric(FromString("count"), Counter);
    PrefixOnePart(attrs, "count");
    var order, _ := scope.Flush(true);
    assert order == [["count"]] by {
      EnumerationCovers(order, {["count"]}, ["count"]);
    }
    var order2, _ := scope.Flush(true);
    assert order2 == [["count"]] by {
      EnumerationCovers(order2, {["count"]}, ["count"]);
    }
    calls := scope.calls;
  }

  /** A metric written once: the flush right after does not repeat the value, the next one does. */
  method WrittenOnceScenario(attrs: Attributes) returns (calls: seq<TargetCall>)
    requires attrs.naming == []
    ensures calls == [Define(["count"], Counter), Write(["count"], 5), FlushTarget, Write(["count"], 5), FlushTarget]
  {
    var scope := new GaplessScope(attrs);
    var counter := scope.NewMetric(FromString("count"), Counter);
    PrefixOnePart(attrs, "count");
    scope.Write(counter, 5);
    var order, _ := scope.Flush(true);
    assert order == [["count"]] by {
      EnumerationCovers(order, {["count"]}, ["count"]);
    }
    var order2, _ := scope.Flush(true);
    assert order2 == [["count"]] by {
      EnumerationCovers(order2, {["count"]}, ["count"]);
    }
    calls := scope.calls;
  }

  /** Defining a name twice, even with another kind, defines one target metric and shares its entry. */
  method RedefineScenario(attrs: Attributes) returns (calls: seq<TargetCall>)
    requires attrs.naming == []
    ensures calls == [Define(["x"], Counter), Write(["x"], 7), FlushTarget]
  {
    var scope := new GaplessScope(attrs);
    var first := scope.NewMetric(FromString("x"), Counter);
    var second := scope.NewMetric(FromString("x"), Gauge);
    PrefixOnePart(attrs, "x");
    scope.Write(second, 7);
    var order, _ := scope.Flush(true);
    assert order == [["x"]] by {
      EnumerationCovers(order, {["x"]}, ["x"]);
    }
    calls := scope.calls;
  }
}
