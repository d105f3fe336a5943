/**
 * The coatcheck's tests as scenario lemmas, and the free list that names an
 * entry twice.
 */
module CoatcheckTests {
  import opened Wrappers
  import opened Coatcheck

  /** An entry at `index` held by `handles` handles, with payload "A". */
  function A(index: nat, handles: nat): Entry<string>
  {
    Entry(index, handles, "A")
  }

  /** A coatcheck of strings with no items, created with the given capacity. */
  function Empty(capacity: nat): Store<string>
  {
    Store([], capacity, [])
  }

  /** A check while the vector has room appends a new entry held once. */
  lemma PushStep<T>(items: seq<Entry<T>>, capacity: nat, payload: T)
    requires |items| < capacity
    ensures CheckOf(Store(items, capacity, []), payload)
      == (Store(items + [Entry(|items|, 1, payload)], capacity, []), Handle(|items|))
  {
    var r := CheckOf(Store(items, capacity, []), payload);
    assert r.0.items == items + [Entry(|items|, 1, payload)];
  }

  /** A check on a full vector with no free entry appends and grows the vector. */
  lemma GrowStep<T>(items: seq<Entry<T>>, payload: T)
    requires Scanned(items, |items|, []) == []
    ensures CheckOf(Store(items, |items|, []), payload)
      == (Store(items + [Entry(|items|, 1, payload)], Grown(|items|), []), Handle(|items|))
  {
    var r := CheckOf(Store(items, |items|, []), payload);
    assert r.0.items == items + [Entry(|items|, 1, payload)];
  }

  /** A check with a non-empty free list reloads the entry at its back. */
  lemma ReuseStep<T>(items: seq<Entry<T>>, capacity: nat, freeList: seq<nat>, payload: T)
    requires Valid(Store(items, capacity, freeList)) && freeList != []
    ensures var f := freeList[|freeList| - 1];
      CheckOf(Store(items, capacity, freeList), payload)
      == (Store(items[f := Entry(f, items[f].handles + 1, payload)], capacity, freeList[..|freeList| - 1]), Handle(f))
  {
    var f := freeList[|freeList| - 1];
    var r := CheckOf(Store(items, capacity, freeList), payload);
    assert r.0.items == items[f := Entry(f, items[f].handles + 1, payload)];
  }

  /** A check on a full vector whose scan finds free entries reuses one of them. */
  lemma ScanStep<T>(items: seq<Entry<T>>, payload: T)
    requires Valid(Store(items, |items|, [])) && Scanned(items, |items|, []) != []
    requires Valid(Store(items, |items|, Scanned(items, |items|, [])))
    ensures CheckOf(Store(items, |items|, []), payload) == CheckOf(Store(items, |items|, Scanned(items, |items|, [])), payload)
  {
    ScannedInRange(items, |items|, []);
  }

  /** `linear`: four held checks on a new coatcheck give four items, no free entry, and the fourth handle index 3. */
  lemma Linear()
    ensures var s0 := Empty(0);
      var (s1, h1) := CheckOf(s0, "A");
      var (s2, h2) := CheckOf(s1, "A");
      var (s3, h3) := CheckOf(s2, "A");
      var (s4, h4) := CheckOf(s3, "A");
      |s4.items| == 4 && |s4.freeList| == 0 && h4.index == 3
  {
    GrowStep([], "A");
    assert [] + [A(0, 1)] == [A(0, 1)];
    PushStep([A(0, 1)], 4, "A");
    assert [A(0, 1)] + [A(1, 1)] == [A(0, 1), A(1, 1)];
    PushStep([A(0, 1), A(1, 1)], 4, "A");
    assert [A(0, 1), A(1, 1)] + [A(2, 1)] == [A(0, 1), A(1, 1), A(2, 1)];
    PushStep([A(0, 1), A(1, 1), A(2, 1)], 4, "A");
  }

  /** One round of `recycle_all`: check, drop the handle, update the free list. */
  function RecycleRound(s: Store<string>): (r: Store<string>)
    requires Valid(s)
    ensures Valid(r)
  {
    ClaimAfterCheck(s, "A");
    CheckValid(s, "A");
    var (r, h) := CheckOf(s, "A");
    if h.index < |r.items| && r.items[h.index].handles > 0 then
      var d := DropHandleOf(r, h);
      ScannedInRange(d.items, |d.items|, d.freeList);
      UpdateFreeListOf(d)
    else r
  }

  /** The store `recycle_all` reaches after its first round, and keeps. */
  lemma RecycleFixed()
    ensures RecycleRound(Empty(0)) == Store([A(0, 0)], 4, [0])
    ensures RecycleRound(Store([A(0, 0)], 4, [0])) == Store([A(0, 0)], 4, [0])
  {
    GrowStep([], "A");
    assert [] + [A(0, 1)] == [A(0, 1)];
    assert Scanned([A(0, 0)], 1, []) == [0];
    ReuseStep([A(0, 0)], 4, [0], "A");
    assert [A(0, 0)][0 := A(0, 1)] == [A(0, 1)];
  }

  /** `recycle_all`: the one entry is reused every round and put back on the free list. */
  lemma RecycleAll()
    ensures var s4 := RecycleRound(RecycleRound(RecycleRound(RecycleRound(Empty(0)))));
      |s4.items| == 1 && |s4.freeList| == 1
  {
    RecycleFixed();
  }

  /** One round of `recycle_one`: check, then drop the handle. */
  function CheckDropped(s: Store<string>): (r: Store<string>)
    requires Valid(s)
    ensures Valid(r)
  {
    ClaimAfterCheck(s, "A");
    CheckValid(s, "A");
    var (r, h) := CheckOf(s, "A");
    if h.index < |r.items| && r.items[h.index].handles > 0 then DropHandleOf(r, h) else r
  }

  /** The store `recycle_one` reaches after its first round, and keeps. */
  lemma RecycleOneFixed()
    ensures CheckDropped(Empty(1)) == Store([A(0, 0)], 1, [])
    ensures CheckDropped(Store([A(0, 0)], 1, [])) == Store([A(0, 0)], 1, [])
  {
    PushStep([], 1, "A");
    assert [] + [A(0, 1)] == [A(0, 1)];
    assert Scanned([A(0, 0)], 1, []) == [0];
    ScanStep([A(0, 0)], "A");
    ReuseStep([A(0, 0)], 1, [0], "A");
    assert [A(0, 0)][0 := A(0, 1)] == [A(0, 1)];
  }

  /** `recycle_one`: with capacity 1, the dropped entry is found by the scan and reused every time. */
  lemma RecycleOne()
    ensures var s4 := CheckDropped(CheckDropped(CheckDropped(CheckDropped(Empty(1)))));
      |s4.items| == 1 && |s4.freeList| == 0
  {
    RecycleOneFixed();
  }

  /** Four held checks on `s`. */
  function CheckFour(s: Store<string>): (r: Store<string>)
    requires Valid(s)
    ensures Valid(r)
  {
    CheckValid(s, "A");
    var s1 := CheckOf(s, "A").0;
    CheckValid(s1, "A");
    var s2 := CheckOf(s1, "A").0;
    CheckValid(s2, "A");
    var s3 := CheckOf(s2, "A").0;
    CheckValid(s3, "A");
    CheckOf(s3, "A").0
  }

  /** The items after the first two batches of `alloc_and_free`, the first batch held `first` times. */
  function Eight(first: nat): (r: seq<Entry<string>>)
    ensures |r| == 8 && forall i :: 0 <= i < 8 ==> r[i].index == i
  {
    [A(0, first), A(1, first), A(2, first), A(3, first), A(4, 1), A(5, 1), A(6, 1), A(7, 1)]
  }

  /** The first batch of `alloc_and_free`: four checks fill the capacity of 4. */
  lemma AllocFirstBatch()
    ensures CheckFour(Empty(4)) == Store([A(0, 1), A(1, 1), A(2, 1), A(3, 1)], 4, [])
  {
    PushStep([], 4, "A");
    assert [] + [A(0, 1)] == [A(0, 1)];
    PushStep([A(0, 1)], 4, "A");
    assert [A(0, 1)] + [A(1, 1)] == [A(0, 1), A(1, 1)];
    PushStep([A(0, 1), A(1, 1)], 4, "A");
    assert [A(0, 1), A(1, 1)] + [A(2, 1)] == [A(0, 1), A(1, 1), A(2, 1)];
    PushStep([A(0, 1), A(1, 1), A(2, 1)], 4, "A");
    assert [A(0, 1), A(1, 1), A(2, 1)] + [A(3, 1)] == [A(0, 1), A(1, 1), A(2, 1), A(3, 1)];
  }

  /** The second batch of `alloc_and_free`: the vector is full and nothing is free, so it grows to 8. */
  lemma AllocSecondBatch()
    ensures CheckFour(Store([A(0, 1), A(1, 1), A(2, 1), A(3, 1)], 4, [])) == Store(Eight(1), 8, [])
  {
    var f := [A(0, 1), A(1, 1), A(2, 1), A(3, 1)];
    assert Scanned(f, 4, []) == [];
    GrowStep(f, "A");
    PushStep(f + [A(4, 1)], 8, "A");
    assert f + [A(4, 1)] + [A(5, 1)] == f + [A(4, 1), A(5, 1)];
    PushStep(f + [A(4, 1), A(5, 1)], 8, "A");
    assert f + [A(4, 1), A(5, 1)] + [A(6, 1)] == f + [A(4, 1), A(5, 1), A(6, 1)];
    PushStep(f + [A(4, 1), A(5, 1), A(6, 1)], 8, "A");
    assert f + [A(4, 1), A(5, 1), A(6, 1)] + [A(7, 1)] == Eight(1);
  }

  /** After the first handles are dropped, the scan lists the first batch, lowest index last. */
  lemma LastBatchScan()
    ensures Scanned(Eight(0), 8, []) == [3, 2, 1, 0]
  {
    var e := Eight(0);
    assert Scanned(e, 4, []) == [3, 2, 1, 0];
  }

  /** The last batch part-way: the first `k` entries of the first batch reused, the rest free. */
  function Reloaded(k: nat): seq<Entry<string>>
  {
    seq(8, (i: int) requires 0 <= i < 8 => if i < 4 && k <= i then A(i, 0) else A(i, 1))
  }

  /** The free list part-way through the last batch: 3 down to `k`. */
  function Pending(k: nat): seq<nat>
    requires k <= 4
  {
    seq(4 - k, (j: int) requires 0 <= j < 4 - k => (3 - j) as nat)
  }

  /** One reuse of the last batch: the back of the free list is the lowest free entry. */
  lemma LastBatchReuse(k: nat)
    requires k < 4
    ensures CheckOf(Store(Reloaded(k), 8, Pending(k)), "A").0 == Store(Reloaded(k + 1), 8, Pending(k + 1))
  {
    var e := Reloaded(k);
    var p := Pending(k);
    assert p[|p| - 1] == k;
    ReuseStep(e, 8, p, "A");
    assert e[k := Entry(k, 1, "A")] == Reloaded(k + 1);
    assert p[..|p| - 1] == Pending(k + 1);
  }

  /** The four reuses of the last batch, from the back of the scanned free list. */
  lemma LastBatchReuses()
    ensures var s1 := CheckOf(Store(Eight(0), 8, [3, 2, 1, 0]), "A").0;
      var s2 := CheckOf(s1, "A").0;
      var s3 := CheckOf(s2, "A").0;
      CheckOf(s3, "A").0 == Store(Eight(1), 8, [])
  {
    assert Eight(0) == Reloaded(0);
    assert Pending(0) == [3, 2, 1, 0];
    LastBatchReuse(0);
    LastBatchReuse(1);
    LastBatchReuse(2);
    LastBatchReuse(3);
    assert Reloaded(4) == Eight(1);
    assert Pending(4) == [];
  }

  /** The last batch of `alloc_and_free`: after the first handles are dropped, the scan finds 0..3 and four checks reuse them. */
  lemma AllocLastBatch()
    ensures CheckFour(Store(Eight(0), 8, [])) == Store(Eight(1), 8, [])
  {
    LastBatchScan();
    ScanStep(Eight(0), "A");
    LastBatchReuses();
  }

  /**
   * `alloc_and_free`: four checks, four more (8 items, none free), the first
   * four handles dropped, four more checks: still 8 items and none free.
   */
  lemma AllocAndFree()
    ensures var s4 := CheckFour(Empty(4));
      |s4.items| == 4 && |s4.freeList| == 0
    ensures var s8 := CheckFour(CheckFour(Empty(4)));
      |s8.items| == 8 && |s8.freeList| == 0
    ensures CheckFour(Store(Eight(0), 8, [])) == Store(Eight(1), 8, [])
  {
    AllocFirstBatch();
    AllocSecondBatch();
    AllocLastBatch();
  }

  /**
   * `get_handle`: claiming the handle of a check gives the checked value back;
   * the handle is moved into the claim, so afterwards no copy of it is held.
   */
  lemma GetHandle()
    ensures var (s, h) := CheckOf(Empty(4), "A");
      Holds(s, h) && ClaimOf(s, h).0 == Some("A") && IsFree(ClaimOf(s, h).1.items[h.index])
  {
    ClaimAfterCheck(Empty(4), "A");
  }

  /*
   * Finding: `update_free_list` does not deduplicate
   */

  /** One entry "A", no handle held: a check whose handle was dropped. */
  function Dropped(): Store<string>
  {
    Store([A(0, 0)], 4, [])
  }

  /**
   * As written: two scans list the free entry twice; a check of "B" then
   * reuses it, and a check of "C" reuses it again while "B"'s handle is still
   * held, so claiming that handle gives "C".
   */
  lemma DoubleUpdateOverwrites()
    ensures var s := UpdateFreeListOf(UpdateFreeListOf(Dropped()));
      s.freeList == [0, 0] && !Sound(s) &&
      var (s1, hb) := CheckOf(s, "B");
      var (s2, hc) := CheckOf(s1, "C");
      hb == hc && s2.items[0].handles == 2 && ClaimOf(s2, hb).0 == Some("C")
  {
    assert Scanned([A(0, 0)], 1, []) == [0];
    assert Scanned([A(0, 0)], 1, [0]) == [0, 0];
    var s := Store([A(0, 0)], 4, [0, 0]);
    assert UpdateFreeListOf(UpdateFreeListOf(Dropped())) == s;
    ReuseStep([A(0, 0)], 4, [0, 0], "B");
    assert [A(0, 0)][0 := Entry(0, 1, "B")] == [Entry(0, 1, "B")];
    ReuseStep([Entry(0, 1, "B")], 4, [0], "C");
    assert [Entry(0, 1, "B")][0 := Entry(0, 2, "C")] == [Entry(0, 2, "C")];
  }

  /**
   * Corrected: with the deduplicating scan the second scan lists nothing new,
   * so the check of "C" gets a new entry and "B"'s handle still claims "B".
   */
  lemma DedupUpdateKeepsHeld()
    ensures var s := DedupUpdateFreeListOf(DedupUpdateFreeListOf(Dropped()));
      s.freeList == [0] && Sound(s) &&
      var (s1, hb) := CheckOf(s, "B");
      var (s2, hc) := CheckOf(s1, "C");
      hb != hc && ClaimOf(s2, hb).0 == Some("B") && ClaimOf(s2, hc).0 == Some("C")
  {
    assert DedupScanned([A(0, 0)], 1, []) == [0];
    assert DedupScanned([A(0, 0)], 1, [0]) == [0];
    ReuseStep([A(0, 0)], 4, [0], "B");
    assert [A(0, 0)][0 := Entry(0, 1, "B")] == [Entry(0, 1, "B")];
    PushStep([Entry(0, 1, "B")], 4, "C");
  }
}
