/**
 * The cache's test scenario, and the two call sequences on which the cache
 * as written holds more keys than its capacity, each run on the cache as
 * written and on the corrected one. Keys are any four distinct values.
 */
module LruTests {
  import opened Wrappers
  import opened Lru
  import opened LruFixed

  /*
   * The states of the cache as written, step by step
   */

  /** After insert foo, bar. */
  function FooBar<K>(foo: K, bar: K): Lru<K, int>
  {
    Lru(map[foo := 0, bar := 1], [Entry(foo, Some(1), None, Some(1)), Entry(bar, Some(2), Some(0), None)], Some(1), Some(0), 2)
  }

  /** After get foo: foo's slot is first but still links to nothing. */
  function FooFirst<K>(foo: K, bar: K): Lru<K, int>
  {
    Lru(map[foo := 0, bar := 1], [Entry(foo, Some(1), None, Some(1)), Entry(bar, Some(2), None, None)], Some(0), Some(1), 2)
  }

  /** After insert baz: bar is evicted, but `last` still addresses bar's slot. */
  function BazIn<K>(foo: K, bar: K, baz: K): Lru<K, int>
  {
    Lru(map[foo := 0, baz := 2],
      [Entry(foo, Some(1), None, Some(2)), Entry(bar, Some(2), None, None), Entry(baz, Some(3), Some(0), None)],
      Some(2), Some(1), 2)
  }

  /** After get foo again. */
  function FooFirstAgain<K>(foo: K, bar: K, baz: K): Lru<K, int>
  {
    Lru(map[foo := 0, baz := 2],
      [Entry(foo, Some(1), None, Some(2)), Entry(bar, Some(2), None, None), Entry(baz, Some(3), None, None)],
      Some(0), Some(2), 2)
  }

  lemma InsertFooBar<K>(foo: K, bar: K)
    requires foo != bar
    ensures InsertOf(InsertOf(Empty<K, int>(2), foo, 1).0, bar, 2).0 == FooBar(foo, bar)
  {
    var s1 := InsertOf(Empty<K, int>(2), foo, 1).0;
    assert s1 == Lru(map[foo := 0], [Entry(foo, Some(1), None, None)], Some(0), Some(0), 2);
  }

  lemma GetFoo<K>(foo: K, bar: K)
    requires foo != bar
    ensures GetOf(FooBar(foo, bar), foo) == (FooFirst(foo, bar), Some(1))
  {
    var s := FooBar(foo, bar);
    assert s.entries[0].prev == Some(1) && s.entries[0].next == None;
    assert RemoveFromListOf(s, 0) == FooFirst(foo, bar).(first := Some(1));
  }

  lemma InsertBaz<K>(foo: K, bar: K, baz: K)
    requires foo != bar && foo != baz && bar != baz
    ensures InsertOf(FooFirst(foo, bar), baz, 3).0 == BazIn(foo, bar, baz)
  {
    RoomForBaz(foo, bar);
    PushBaz(foo, bar, baz);
  }

  /** Making room in the full cache drops bar from the table and changes no link. */
  lemma RoomForBaz<K>(foo: K, bar: K)
    requires foo != bar
    ensures EnsureRoomOf(FooFirst(foo, bar)) == FooFirst(foo, bar).(table := map[foo := 0])
  {
    var s := FooFirst(foo, bar);
    TwoKeys(foo, bar, 0, 1);
    assert RemoveFromListOf(s, 1) == s;
    assert s.table - {bar} == map[foo := 0];
    assert RemoveLastOf(s) == s.(table := map[foo := 0]);
  }

  lemma PushBaz<K>(foo: K, bar: K, baz: K)
    requires foo != bar && foo != baz && bar != baz
    ensures PushFront(FooFirst(foo, bar).(table := map[foo := 0]), baz, 3) == BazIn(foo, bar, baz)
  {
  }

  lemma GetFooAgain<K>(foo: K, bar: K, baz: K)
    requires foo != bar && foo != baz && bar != baz
    ensures GetOf(BazIn(foo, bar, baz), foo) == (FooFirstAgain(foo, bar, baz), Some(1))
  {
    var s := BazIn(foo, bar, baz);
    assert s.entries[0].prev == Some(2) && s.entries[0].next == None;
    assert RemoveFromListOf(s, 0) == FooFirstAgain(foo, bar, baz).(first := Some(2));
  }

  lemma InsertQux<K>(foo: K, bar: K, baz: K, qux: K)
    requires foo != bar && foo != baz && foo != qux && bar != baz && bar != qux && baz != qux
    ensures InsertOf(FooFirstAgain(foo, bar, baz), qux, 4).0.table == map[foo := 0, qux := 3]
  {
    assert EnsureRoomOf(FooFirstAgain(foo, bar, baz)).table == map[foo := 0];
  }

  lemma InsertQuxAfterBaz<K>(foo: K, bar: K, baz: K, qux: K)
    requires foo != bar && foo != baz && foo != qux && bar != baz && bar != qux && baz != qux
    ensures InsertOf(BazIn(foo, bar, baz), qux, 4).0.table == map[foo := 0, baz := 2, qux := 3]
  {
    var s := BazIn(foo, bar, baz);
    var t := EnsureRoomOf(s);
    RoomAfterBaz(foo, bar, baz);
    assert qux !in s.table;
    assert InsertOf(s, qux, 4).0 == PushFront(t, qux, 4);
  }

  /** With bar's stale slot last, making room evicts bar again, which is no longer in the table: nothing changes there. */
  lemma RoomAfterBaz<K>(foo: K, bar: K, baz: K)
    requires foo != bar && foo != baz && bar != baz
    ensures var t := EnsureRoomOf(BazIn(foo, bar, baz)); t.table == map[foo := 0, baz := 2] && |t.entries| == 3
  {
    var s := BazIn(foo, bar, baz);
    TwoKeys(foo, baz, 0, 2);
    assert s.entries[s.last.value].key == bar;
    assert map[foo := 0, baz := 2] - {bar} == map[foo := 0, baz := 2];
    assert |RemoveLastEntries(s)| == 3;
  }

  /**
   * `get_and_get_mut_promote`, as written: after insert foo, bar; get foo;
   * insert baz, foo and baz are present and bar is not; after get foo;
   * insert qux, foo and qux are present and baz is not.
   */
  lemma PromoteScenario<K>(foo: K, bar: K, baz: K, qux: K)
    requires foo != bar && foo != baz && foo != qux && bar != baz && bar != qux && baz != qux
    ensures var s2 := InsertOf(InsertOf(Empty<K, int>(2), foo, 1).0, bar, 2).0;
      var s4 := InsertOf(GetOf(s2, foo).0, baz, 3).0;
      var s6 := InsertOf(GetOf(s4, foo).0, qux, 4).0;
      GetOf(s2, foo).1 == Some(1) && foo in s4.table && baz in s4.table && bar !in s4.table
      && GetOf(s4, foo).1 == Some(1) && foo in s6.table && qux in s6.table && baz !in s6.table
  {
    InsertFooBar(foo, bar);
    GetFoo(foo, bar);
    InsertBaz(foo, bar, baz);
    GetFooAgain(foo, bar, baz);
    InsertQux(foo, bar, baz, qux);
  }

  /**
   * Finding, as written: continuing the scenario with insert qux straight
   * after insert baz, `remove_last` evicts bar's slot a second time and three
   * keys remain in a cache of capacity 2.
   */
  lemma GetBreaksBound<K>(foo: K, bar: K, baz: K, qux: K)
    requires foo != bar && foo != baz && foo != qux && bar != baz && bar != qux && baz != qux
    ensures var s2 := InsertOf(InsertOf(Empty<K, int>(2), foo, 1).0, bar, 2).0;
      var s4 := InsertOf(GetOf(s2, foo).0, baz, 3).0;
      var s5 := InsertOf(s4, qux, 4).0;
      foo in s5.table && baz in s5.table && qux in s5.table && |s5.table| == 3 > s5.capacity
  {
    InsertFooBar(foo, bar);
    GetFoo(foo, bar);
    InsertBaz(foo, bar, baz);
    InsertQuxAfterBaz(foo, bar, baz, qux);
    ThreeKeys(foo, baz, qux);
  }

  lemma TwoKeys<K>(a: K, b: K, x: int, y: int)
    requires a != b
    ensures |map[a := x, b := y]| == 2
  {
    assert (map[a := x, b := y]).Keys == {a, b};
  }

  lemma ThreeKeys<K>(a: K, b: K, c: K)
    requires a != b && a != c && b != c
    ensures |map[a := 0, b := 2, c := 3]| == 3
  {
    assert (map[a := 0, b := 2, c := 3]).Keys == {a, b, c};
  }

  /** With capacity 1, after insert a, b: a is evicted, but `last` still addresses a's slot. */
  function AThenB<K>(a: K, b: K): Lru<K, int>
  {
    Lru(map[b := 1], [Entry(a, Some(1), None, Some(1)), Entry(b, Some(2), Some(0), None)], Some(1), Some(0), 1)
  }

  lemma InsertAThenB<K>(a: K, b: K)
    requires a != b
    ensures InsertOf(InsertOf(Empty<K, int>(1), a, 1).0, b, 2).0 == AThenB(a, b)
  {
    var s1 := InsertOf(Empty<K, int>(1), a, 1).0;
    assert s1 == Lru(map[a := 0], [Entry(a, Some(1), None, None)], Some(0), Some(0), 1);
    assert EnsureRoomOf(s1) == Lru(map[], [Entry(a, Some(1), None, None)], Some(0), Some(0), 1);
  }

  lemma InsertCAfterB<K>(a: K, b: K, c: K)
    requires a != b && a != c && b != c
    ensures InsertOf(AThenB(a, b), c, 3).0.table == map[b := 1, c := 2]
  {
    assert EnsureRoomOf(AThenB(a, b)).table == map[b := 1];
  }

  /**
   * Finding, as written: with capacity 1, inserting b evicts a but leaves
   * `last` on a's slot, so inserting c evicts nothing and two keys remain.
   */
  lemma CapacityOneBreaksBound<K>(a: K, b: K, c: K)
    requires a != b && a != c && b != c
    ensures var s3 := InsertOf(InsertOf(InsertOf(Empty<K, int>(1), a, 1).0, b, 2).0, c, 3).0;
      b in s3.table && c in s3.table && |s3.table| == 2 > s3.capacity
  {
    InsertAThenB(a, b);
    InsertCAfterB(a, b, c);
    assert (map[b := 1, c := 2]).Keys == {b, c};
  }

  /**
   * The corrected cache on the same calls: the scenario keeps foo and baz,
   * then foo and qux; the call sequence of the first finding leaves qux and
   * baz, two keys; the one of the second leaves c alone.
   */
  lemma FixedScenarios<K>(foo: K, bar: K, baz: K, qux: K)
    requires foo != bar && foo != baz && foo != qux && bar != baz && bar != qux && baz != qux
    ensures var ops := [Insert(foo, 1), Insert(bar, 2), Get(foo), Insert(baz, 3)];
      RecentRun([], 2, ops) == [baz, foo]
      && RecentRun([], 2, ops + [Get(foo), Insert(qux, 4)]) == [qux, foo]
      && RecentRun([], 2, ops + [Insert(qux, 4)]) == [qux, baz]
    ensures RecentRun<K, int>([], 1, [Insert(foo, 1), Insert(bar, 2), Insert(baz, 3)]) == [baz]
  {
    var ops := [Insert(foo, 1), Insert(bar, 2), Get(foo), Insert(baz, 3)];
    assert Find([foo], bar) == 1 && Find([bar, foo], foo) == 1 && Find([foo, bar], baz) == 2;
    assert Find([baz, foo], foo) == 1 && Find([foo, baz], qux) == 2 && Find([baz, foo], qux) == 2;
    assert RecentRun([], 2, ops) == [baz, foo] by {
      RunSteps<K, int>([], 2, ops);
    }
    RunAppend([], 2, ops, [Get(foo), Insert(qux, 4)]);
    RunSteps<K, int>([baz, foo], 2, [Get(foo), Insert(qux, 4)]);
    RunAppend([], 2, ops, [Insert(qux, 4)]);
    RunSteps<K, int>([baz, foo], 2, [Insert(qux, 4)]);
    assert Find([foo], bar) == 1 && Find([bar], baz) == 1;
    RunSteps<K, int>([], 1, [Insert(foo, 1), Insert(bar, 2), Insert(baz, 3)]);
  }

  /**
   * The same, on the corrected cache itself: what it holds after each of the
   * three call sequences.
   */
  lemma FixedScenarioTables<K>(foo: K, bar: K, baz: K, qux: K)
    requires foo != bar && foo != baz && foo != qux && bar != baz && bar != qux && baz != qux
    ensures var ops := [Insert(foo, 1), Insert(bar, 2), Get(foo), Insert(baz, 3)];
      (forall k :: k in FixedRunOf(Empty(2), ops).table <==> k == baz || k == foo)
      && (forall k :: k in FixedRunOf(Empty(2), ops + [Get(foo), Insert(qux, 4)]).table <==> k == qux || k == foo)
      && (forall k :: k in FixedRunOf(Empty(2), ops + [Insert(qux, 4)]).table <==> k == qux || k == baz)
    ensures forall k :: k in FixedRunOf(Empty<K, int>(1), [Insert(foo, 1), Insert(bar, 2), Insert(baz, 3)]).table <==> k == baz
  {
    var ops := [Insert(foo, 1), Insert(bar, 2), Get(foo), Insert(baz, 3)];
    FixedScenarios(foo, bar, baz, qux);
    FixedRunBounded(2, ops);
    FixedRunBounded(2, ops + [Get(foo), Insert(qux, 4)]);
    FixedRunBounded(2, ops + [Insert(qux, 4)]);
    FixedRunBounded<K, int>(1, [Insert(foo, 1), Insert(bar, 2), Insert(baz, 3)]);
  }

  /** A literal list of up to four calls runs one call at a time. */
  lemma RunSteps<K, V>(keys: seq<K>, capacity: nat, ops: seq<Op<K, V>>)
    requires |ops| <= 4
    ensures RecentRun(keys, capacity, ops) == if ops == [] then keys else
      var k1 := RecentStep(keys, capacity, ops[0]);
      if |ops| == 1 then k1 else
      var k2 := RecentStep(k1, capacity, ops[1]);
      if |ops| == 2 then k2 else
      var k3 := RecentStep(k2, capacity, ops[2]);
      if |ops| == 3 then k3 else RecentStep(k3, capacity, ops[3])
  {
    if ops != [] {
      var k1 := RecentStep(keys, capacity, ops[0]);
      assert RecentRun(keys, capacity, ops) == RecentRun(k1, capacity, ops[1..]);
      if |ops| > 1 {
        var k2 := RecentStep(k1, capacity, ops[1]);
        assert ops[1..][1..] == ops[2..];
        assert RecentRun(k1, capacity, ops[1..]) == RecentRun(k2, capacity, ops[2..]);
        if |ops| > 2 {
          var k3 := RecentStep(k2, capacity, ops[2]);
          assert ops[2..][1..] == ops[3..];
          assert RecentRun(k2, capacity, ops[2..]) == RecentRun(k3, capacity, ops[3..]);
          if |ops| > 3 {
            assert ops[3..][1..] == [];
            assert RecentRun(k3, capacity, ops[3..]) == RecentRun(RecentStep(k3, capacity, ops[3]), capacity, ops[3..][1..]);
          }
        }
      }
    }
  }

  /** Running two lists of calls one after the other is running their concatenation. */
  lemma {:induction false} RunAppend<K, V>(keys: seq<K>, capacity: nat, ops: seq<Op<K, V>>, more: seq<Op<K, V>>)
    ensures RecentRun(keys, capacity, ops + more) == RecentRun(RecentRun(keys, capacity, ops), capacity, more)
    decreases |ops|
  {
    if ops != [] {
      assert (ops + more)[0] == ops[0] && (ops + more)[1..] == ops[1..] + more;
      RunAppend(RecentStep(keys, capacity, ops[0]), capacity, ops[1..], more);
    } else {
      assert ops + more == more;
    }
  }
}
