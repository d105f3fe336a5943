/**
 * The cache with `remove_from_list` and `access` corrected, the rest of the
 * operations as in `Lru`: unlinking a slot also repairs `first` when it was
 * the front and `last` when it was the end, and promoting a slot links it in
 * front of the old first slot. With these, every insert and get keeps the
 * list well formed and moves the keys as the recency order says, so a cache
 * of capacity 1 or more never holds more keys than its capacity.
 */
module LruFixed {
  import opened Wrappers
  import opened Lru

  /** `remove_from_list`, corrected: both neighbours, `first` and `last` are relinked around slot `i`. */
  function FixedRemoveFromListOf<K(==), V>(s: Lru<K, V>, i: nat): (r: Lru<K, V>)
    requires Wf(s) && i < |s.entries|
    ensures Wf(r) && r.table == s.table && r.capacity == s.capacity
    ensures |r.entries| == |s.entries| && forall j :: 0 <= j < |r.entries| ==>
      r.entries[j].key == s.entries[j].key && r.entries[j].value == s.entries[j].value
  {
    var e := s.entries[i];
    var es := if e.prev.Some? then s.entries[e.prev.value := s.entries[e.prev.value].(next := e.next)] else s.entries;
    var es2 := if e.next.Some? then es[e.next.value := es[e.next.value].(prev := e.prev)] else es;
    s.(entries := es2, first := if e.prev.None? then e.next else s.first,
      last := if e.next.None? then e.prev else s.last)
  }

  /** Slot `i` linked in front of the first slot. */
  function LinkFrontOf<K(==), V>(s: Lru<K, V>, i: nat): (r: Lru<K, V>)
    requires Wf(s) && i < |s.entries|
    ensures Wf(r) && r.table == s.table && r.capacity == s.capacity
    ensures |r.entries| == |s.entries| && forall j :: 0 <= j < |r.entries| ==>
      r.entries[j].key == s.entries[j].key && r.entries[j].value == s.entries[j].value
  {
    var es := if s.first.Some? then s.entries[s.first.value := s.entries[s.first.value].(prev := Some(i))] else s.entries;
    s.(entries := es[i := es[i].(next := s.first, prev := None)], first := Some(i),
      last := if s.last.None? then Some(i) else s.last)
  }

  /** `access`, corrected: the key's slot leaves the list and comes back in front. */
  function FixedAccessOf<K(==), V>(s: Lru<K, V>, key: K): (r: Lru<K, V>)
    requires Wf(s) && key in s.table
    ensures Wf(r) && r.table == s.table && r.first == Some(s.table[key]) && r.capacity == s.capacity
    ensures |r.entries| == |s.entries| && forall j :: 0 <= j < |r.entries| ==>
      r.entries[j].key == s.entries[j].key && r.entries[j].value == s.entries[j].value
  {
    var i := s.table[key];
    LinkFrontOf(FixedRemoveFromListOf(s, i), i)
  }

  /** `remove_last` over the corrected `remove_from_list`. */
  function FixedRemoveLastOf<K(==), V>(s: Lru<K, V>): (r: Lru<K, V>)
    requires Wf(s)
    ensures Wf(r) && r.capacity == s.capacity && r.table.Keys <= s.table.Keys
    ensures |r.entries| == |s.entries|
  {
    var r := if s.last.Some? then
        var idx := s.last.value;
        var t := FixedRemoveFromListOf(s, idx);
        t.(table := t.table - {t.entries[idx].key})
      else s;
    if r.last.None? then r.(first := None) else r
  }

  /** `ensure_room` over the corrected `remove_last`. */
  function FixedEnsureRoomOf<K(==), V>(s: Lru<K, V>): (r: Lru<K, V>)
    requires Wf(s)
    ensures Wf(r) && r.capacity == s.capacity && r.table.Keys <= s.table.Keys
    ensures |r.entries| == |s.entries|
  {
    if s.capacity == |s.table| then FixedRemoveLastOf(s) else s
  }

  /** `insert` over the corrected `access` and `ensure_room`. */
  function FixedInsertOf<K(==), V>(s: Lru<K, V>, key: K, value: V): (r: (Lru<K, V>, Option<V>))
    requires Wf(s)
    ensures Wf(r.0) && r.0.capacity == s.capacity
  {
    if key in s.table then
      var a := FixedAccessOf(s, key);
      var i := a.first.value;
      (Replace(a, i, value), a.entries[i].value)
    else
      (PushFront(FixedEnsureRoomOf(s), key, value), None)
  }

  /** `get` over the corrected `access`. */
  function FixedGetOf<K(==), V>(s: Lru<K, V>, key: K): (r: (Lru<K, V>, Option<V>))
    requires Wf(s)
    ensures Wf(r.0) && r.0.capacity == s.capacity
  {
    var t := if key in s.table then FixedAccessOf(s, key) else s;
    (t, PeekOf(t, key))
  }

  /*
   * Unlinking slot `order[p]` from the list `order`
   */

  /**
   * `r` is `s` with the slot at position `p` of `order` unlinked: its
   * neighbours point to each other, `first` and `last` skip it, and nothing
   * else changes.
   */
  ghost predicate Unlinked<K, V>(s: Lru<K, V>, r: Lru<K, V>, order: seq<nat>, p: nat)
    requires Listed(s, order) && p < |order|
  {
    var n := |order|;
    var before := if p > 0 then Some(order[p - 1]) else None;
    var after := if p + 1 < n then Some(order[p + 1]) else None;
    |r.entries| == |s.entries| && r.table == s.table
    && (forall i :: 0 <= i < |s.entries| ==> r.entries[i].key == s.entries[i].key)
    && (forall i :: 0 <= i < |s.entries| && before != Some(i) ==> r.entries[i].next == s.entries[i].next)
    && (forall i :: 0 <= i < |s.entries| && after != Some(i) ==> r.entries[i].prev == s.entries[i].prev)
    && (p > 0 ==> r.entries[order[p - 1]].next == after)
    && (p + 1 < n ==> r.entries[order[p + 1]].prev == before)
    && r.first == (if p == 0 then after else s.first)
    && r.last == (if p + 1 == n then before else s.last)
  }

  /** What unlinking slot `i` does to each slot's links, in terms of the slot's own links. */
  lemma FixedRemoveLinks<K, V>(s: Lru<K, V>, i: nat)
    requires Wf(s) && i < |s.entries|
    ensures var e, r := s.entries[i], FixedRemoveFromListOf(s, i);
      (forall x :: 0 <= x < |s.entries| ==> r.entries[x].next == if e.prev == Some(x) then e.next else s.entries[x].next)
      && (forall x :: 0 <= x < |s.entries| ==> r.entries[x].prev == if e.next == Some(x) then e.prev else s.entries[x].prev)
      && r.first == (if e.prev.None? then e.next else s.first)
      && r.last == (if e.next.None? then e.prev else s.last)
  {
  }

  lemma FixedRemoveShape<K, V>(s: Lru<K, V>, order: seq<nat>, p: nat)
    requires Wf(s) && Chain(s, order) && p < |order|
    ensures Unlinked(s, FixedRemoveFromListOf(s, order[p]), order, p)
  {
    var n := |order|;
    assert s.entries[order[p]].prev == if p > 0 then Some(order[p - 1]) else None;
    assert s.entries[order[p]].next == if p + 1 < n then Some(order[p + 1]) else None;
    FixedRemoveLinks(s, order[p]);
  }

  lemma UnlinkedChainEnds<K, V>(s: Lru<K, V>, r: Lru<K, V>, order: seq<nat>, p: nat)
    requires Chain(s, order) && p < |order| && Unlinked(s, r, order, p)
    ensures Listed(r, Without(order, p)) && Distinct(Without(order, p)) && Ends(r, Without(order, p))
  {
    var o := Without(order, p);
    if p == 0 && |o| > 0 { assert o[0] == order[1]; }
    if p + 1 == |order| && |o| > 0 { assert o[|o| - 1] == order[p - 1]; }
    if p > 0 && p + 1 < |order| { assert o[|o| - 1] == order[|order| - 1]; }
    forall j, k | 0 <= j < k < |o| ensures o[j] != o[k] {
      var j', k' := if j < p then j else j + 1, if k < p then k else k + 1;
      assert o[j] == order[j'] && o[k] == order[k'];
    }
  }

  lemma UnlinkedForward<K, V>(s: Lru<K, V>, r: Lru<K, V>, order: seq<nat>, p: nat)
    requires Chain(s, order) && p < |order| && Unlinked(s, r, order, p) && Listed(r, Without(order, p))
    ensures Forward(r, Without(order, p))
  {
    var o, n := Without(order, p), |order|;
    forall j | 0 <= j < n - 1 ensures r.entries[o[j]].next == if j + 1 < n - 1 then Some(o[j + 1]) else None {
      if j + 1 == p {
        assert o[j] == order[p - 1];
        if p + 1 < n { assert o[j + 1] == order[p + 1]; }
      } else if j + 1 < p {
        assert o[j] == order[j] && o[j + 1] == order[j + 1] && order[j] != order[p - 1];
      } else {
        assert o[j] == order[j + 1];
        if p > 0 { assert order[j + 1] != order[p - 1]; }
        if j + 1 < n - 1 { assert o[j + 1] == order[j + 2]; }
      }
    }
  }

  lemma UnlinkedBackward<K, V>(s: Lru<K, V>, r: Lru<K, V>, order: seq<nat>, p: nat)
    requires Chain(s, order) && p < |order| && Unlinked(s, r, order, p) && Listed(r, Without(order, p))
    ensures Backward(r, Without(order, p))
  {
    var o, n := Without(order, p), |order|;
    forall j | 0 <= j < n - 1 ensures r.entries[o[j]].prev == if j > 0 then Some(o[j - 1]) else None {
      if j == p {
        assert o[j] == order[p + 1];
        if p > 0 { assert o[j - 1] == order[p - 1]; }
      } else if j < p {
        assert o[j] == order[j];
        if p + 1 < n { assert order[j] != order[p + 1]; }
        if j > 0 { assert o[j - 1] == order[j - 1]; }
      } else {
        assert o[j] == order[j + 1] && o[j - 1] == order[j] && order[j + 1] != order[p + 1];
      }
    }
  }

  /** Unlinking the slot at position `p` leaves the list without it. */
  lemma FixedRemoveChain<K, V>(s: Lru<K, V>, order: seq<nat>, p: nat)
    requires Wf(s) && Chain(s, order) && p < |order|
    ensures Chain(FixedRemoveFromListOf(s, order[p]), Without(order, p))
  {
    var r := FixedRemoveFromListOf(s, order[p]);
    FixedRemoveShape(s, order, p);
    UnlinkedChainEnds(s, r, order, p);
    UnlinkedForward(s, r, order, p);
    UnlinkedBackward(s, r, order, p);
  }

  /*
   * Linking slot `i` in front of the list `order`
   */

  /** `r` is `s` with slot `i` linked in front of the first slot, nothing else changed. */
  ghost predicate Fronted<K, V>(s: Lru<K, V>, r: Lru<K, V>, i: nat)
  {
    |r.entries| == |s.entries| && i < |s.entries| && r.table == s.table
    && (forall x :: 0 <= x < |s.entries| ==> r.entries[x].key == s.entries[x].key)
    && r.entries[i].next == s.first && r.entries[i].prev == None
    && (forall x :: 0 <= x < |s.entries| && x != i ==> r.entries[x].next == s.entries[x].next)
    && (forall x :: 0 <= x < |s.entries| && x != i ==>
          r.entries[x].prev == if s.first == Some(x) then Some(i) else s.entries[x].prev)
    && r.first == Some(i) && r.last == (if s.last.None? then Some(i) else s.last)
  }

  lemma LinkFrontShape<K, V>(s: Lru<K, V>, i: nat)
    requires Wf(s) && i < |s.entries| && s.first != Some(i)
    ensures Fronted(s, LinkFrontOf(s, i), i)
  {
  }

  lemma FrontedChain<K, V>(s: Lru<K, V>, r: Lru<K, V>, order: seq<nat>, i: nat)
    requires Chain(s, order) && Fronted(s, r, i) && forall j :: 0 <= j < |order| ==> order[j] != i
    ensures Chain(r, [i] + order)
  {
    var o, n := [i] + order, |order|;
    assert Listed(r, o) && Distinct(o) && Ends(r, o) by {
      forall j | 0 < j < n + 1 ensures o[j] == order[j - 1] { }
    }
    FrontedForward(s, r, order, i);
    FrontedBackward(s, r, order, i);
  }

  lemma FrontedForward<K, V>(s: Lru<K, V>, r: Lru<K, V>, order: seq<nat>, i: nat)
    requires Chain(s, order) && Fronted(s, r, i) && forall j :: 0 <= j < |order| ==> order[j] != i
    requires Listed(r, [i] + order)
    ensures Forward(r, [i] + order)
  {
    var o, n := [i] + order, |order|;
    forall j | 0 <= j < n + 1 ensures r.entries[o[j]].next == if j + 1 < n + 1 then Some(o[j + 1]) else None {
      if 0 < j {
        assert o[j] == order[j - 1] != i;
        if j < n { assert o[j + 1] == order[j]; }
      }
    }
  }

  lemma FrontedBackward<K, V>(s: Lru<K, V>, r: Lru<K, V>, order: seq<nat>, i: nat)
    requires Chain(s, order) && Fronted(s, r, i) && forall j :: 0 <= j < |order| ==> order[j] != i
    requires Listed(r, [i] + order)
    ensures Backward(r, [i] + order)
  {
    var o, n := [i] + order, |order|;
    forall j | 0 <= j < n + 1 ensures r.entries[o[j]].prev == if j > 0 then Some(o[j - 1]) else None {
      if 0 < j {
        assert o[j] == order[j - 1] != i;
        if j == 1 { assert s.first == Some(order[0]); }
        if 1 < j { assert o[j - 1] == order[j - 2] && order[j - 1] != order[0]; }
      }
    }
  }

  /** A list of the same slots in another order, each slot keeping its key, is still keyed by the table. */
  lemma PromotedKeyed<K, V>(s: Lru<K, V>, r: Lru<K, V>, order: seq<nat>, p: nat)
    requires Linked(s, order) && p < |order| && Listed(r, Promote(order, p)) && r.table == s.table
    requires |r.entries| == |s.entries| && forall x :: 0 <= x < |s.entries| ==> r.entries[x].key == s.entries[x].key
    ensures Keyed(r, Promote(order, p)) && KeysOf(r, Promote(order, p)) == Promote(KeysOf(s, order), p)
  {
    var o := Promote(order, p);
    var a, b := KeysOf(r, o), Promote(KeysOf(s, order), p);
    forall j | 0 <= j < |o| ensures r.entries[o[j]].key in r.table && r.table[r.entries[o[j]].key] == o[j] && a[j] == b[j] {
      var j' := if j == 0 then p else if j <= p then j - 1 else j;
      assert o[j] == order[j'] && b[j] == KeysOf(s, order)[j'];
    }
  }

  /**
   * The corrected `access` moves the key's slot, at position `p` of the list,
   * to the front, and the key to the front of the recency order.
   */
  lemma FixedAccessLinked<K, V>(s: Lru<K, V>, order: seq<nat>, key: K) returns (p: nat)
    requires Wf(s) && Linked(s, order) && key in s.table
    ensures p == Find(KeysOf(s, order), key) && p < |order| && order[p] == s.table[key]
    ensures Linked(FixedAccessOf(s, key), Promote(order, p))
    ensures KeysOf(FixedAccessOf(s, key), Promote(order, p)) == Promote(KeysOf(s, order), p)
  {
    LinkedKeys(s, order);
    p := Find(KeysOf(s, order), key);
    assert s.table[s.entries[order[p]].key] == order[p];
    AccessChain(s, order, p);
    PromotedKeyed(s, FixedAccessOf(s, key), order, p);
  }

  /** Unlinking the slot at position `p` and linking it in front moves it to the front of the list. */
  lemma AccessChain<K, V>(s: Lru<K, V>, order: seq<nat>, p: nat)
    requires Wf(s) && Chain(s, order) && p < |order|
    ensures Chain(LinkFrontOf(FixedRemoveFromListOf(s, order[p]), order[p]), Promote(order, p))
  {
    var i := order[p];
    var t := FixedRemoveFromListOf(s, i);
    FixedRemoveChain(s, order, p);
    var w := Without(order, p);
    WithoutExcludes(order, p);
    assert t.first != Some(i);
    LinkFrontShape(t, i);
    FrontedChain(t, LinkFrontOf(t, i), w, i);
  }

  /** Removing position `p` of a list without repeats removes its element. */
  lemma WithoutExcludes<T>(xs: seq<T>, p: nat)
    requires Distinct(xs) && p < |xs|
    ensures forall j :: 0 <= j < |Without(xs, p)| ==> Without(xs, p)[j] != xs[p]
  {
    var w := Without(xs, p);
    forall j | 0 <= j < |w| ensures w[j] != xs[p] {
      assert w[j] == xs[if j < p then j else j + 1];
    }
  }

  /** Replacing a slot's value keeps the list and its keys. */
  lemma ReplaceLinked<K, V>(s: Lru<K, V>, order: seq<nat>, i: nat, value: V)
    requires Wf(s) && Linked(s, order) && i < |s.entries|
    ensures Linked(Replace(s, i, value), order) && KeysOf(Replace(s, i, value), order) == KeysOf(s, order)
  {
    var r := Replace(s, i, value);
    assert forall x :: 0 <= x < |s.entries| ==>
      r.entries[x].key == s.entries[x].key && r.entries[x].next == s.entries[x].next && r.entries[x].prev == s.entries[x].prev;
  }

  /** The corrected `remove_last` drops the last slot of a non-empty list and its key. */
  lemma FixedRemoveLastLinked<K, V>(s: Lru<K, V>, order: seq<nat>)
    requires Wf(s) && Linked(s, order) && order != []
    ensures Linked(FixedRemoveLastOf(s), order[..|order| - 1])
    ensures KeysOf(FixedRemoveLastOf(s), order[..|order| - 1]) == KeysOf(s, order)[..|order| - 1]
  {
    var n := |order|;
    var idx := order[n - 1];
    var t := FixedRemoveFromListOf(s, idx);
    var r := t.(table := t.table - {t.entries[idx].key});
    assert FixedRemoveLastOf(s) == r;
    assert Chain(r, order[..n - 1]) by {
      FixedRemoveChain(s, order, n - 1);
      assert Without(order, n - 1) == order[..n - 1];
    }
    DroppedKeyed(s, r, order);
  }

  /** The table without the last listed key is keyed by the rest of the list. */
  lemma DroppedKeyed<K, V>(s: Lru<K, V>, r: Lru<K, V>, order: seq<nat>)
    requires Linked(s, order) && order != [] && Listed(r, order[..|order| - 1])
    requires |r.entries| == |s.entries| && forall x :: 0 <= x < |s.entries| ==> r.entries[x].key == s.entries[x].key
    requires r.table == s.table - {s.entries[order[|order| - 1]].key}
    ensures |r.table| == |order| - 1 && Keyed(r, order[..|order| - 1])
    ensures KeysOf(r, order[..|order| - 1]) == KeysOf(s, order)[..|order| - 1]
  {
    DroppedOthers(s, r, order);
    assert s.entries[order[|order| - 1]].key in s.table;
    MapRemoveSize(s.table, s.entries[order[|order| - 1]].key);
    DroppedKeys(s, r, order);
  }

  /** The slots before the last still hold their keys, which stay in the table. */
  lemma DroppedOthers<K, V>(s: Lru<K, V>, r: Lru<K, V>, order: seq<nat>)
    requires Chain(s, order) && Keyed(s, order) && order != [] && Listed(r, order[..|order| - 1])
    requires |r.entries| == |s.entries| && forall x :: 0 <= x < |s.entries| ==> r.entries[x].key == s.entries[x].key
    requires r.table == s.table - {s.entries[order[|order| - 1]].key}
    ensures Keyed(r, order[..|order| - 1])
  {
    var n := |order|;
    var o := order[..n - 1];
    forall j | 0 <= j < n - 1 ensures r.entries[o[j]].key in r.table && r.table[r.entries[o[j]].key] == o[j] {
      assert o[j] == order[j] && order[j] != order[n - 1];
      assert s.table[s.entries[order[j]].key] == order[j];
    }
  }

  lemma DroppedKeys<K, V>(s: Lru<K, V>, r: Lru<K, V>, order: seq<nat>)
    requires Listed(s, order) && order != [] && Listed(r, order[..|order| - 1])
    requires |r.entries| == |s.entries| && forall x :: 0 <= x < |s.entries| ==> r.entries[x].key == s.entries[x].key
    ensures KeysOf(r, order[..|order| - 1]) == KeysOf(s, order)[..|order| - 1]
  {
    var n := |order|;
    var a, b := KeysOf(r, order[..n - 1]), KeysOf(s, order)[..n - 1];
    forall j | 0 <= j < n - 1 ensures a[j] == b[j] {
      assert order[..n - 1][j] == order[j];
    }
  }

  lemma MapRemoveSize<K, V>(m: map<K, V>, key: K)
    requires key in m
    ensures |m - {key}| == |m| - 1
  {
    assert (m - {key}).Keys == m.Keys - {key};
  }

  /** The list after the corrected `ensure_room`: the last slot of a full cache dropped. */
  lemma FixedEnsureRoomLinked<K, V>(s: Lru<K, V>, order: seq<nat>)
    requires Wf(s) && Linked(s, order)
    ensures Linked(FixedEnsureRoomOf(s), RoomOrder(s, order))
    ensures KeysOf(FixedEnsureRoomOf(s), RoomOrder(s, order))
      == if RoomOrder(s, order) == order then KeysOf(s, order) else KeysOf(s, order)[..|order| - 1]
  {
    if s.capacity == |s.table| {
      if order != [] { FixedRemoveLastLinked(s, order); } else { assert FixedEnsureRoomOf(s) == s.(first := None); }
    }
  }

  /**
   * The corrected `insert` keeps the list well formed, returns the key's
   * previous value, and moves the keys as the recency order says.
   */
  lemma FixedInsertLinked<K, V>(s: Lru<K, V>, order: seq<nat>, key: K, value: V) returns (o: seq<nat>)
    requires Wf(s) && Linked(s, order)
    ensures FixedInsertOf(s, key, value).1 == PeekOf(s, key)
    ensures Linked(FixedInsertOf(s, key, value).0, o)
    ensures KeysOf(FixedInsertOf(s, key, value).0, o) == RecentInsert(KeysOf(s, order), s.capacity, key)
  {
    if key in s.table {
      o := FixedInsertPresent(s, order, key, value);
    } else {
      o := FixedInsertAbsent(s, order, key, value);
    }
  }

  lemma FixedInsertPresent<K, V>(s: Lru<K, V>, order: seq<nat>, key: K, value: V) returns (o: seq<nat>)
    requires Wf(s) && Linked(s, order) && key in s.table
    ensures FixedInsertOf(s, key, value).1 == PeekOf(s, key)
    ensures Linked(FixedInsertOf(s, key, value).0, o)
    ensures KeysOf(FixedInsertOf(s, key, value).0, o) == RecentInsert(KeysOf(s, order), s.capacity, key)
  {
    LinkedKeys(s, order);
    var p := FixedAccessLinked(s, order, key);
    var a := FixedAccessOf(s, key);
    ReplaceLinked(a, Promote(order, p), a.first.value, value);
    o := Promote(order, p);
  }

  lemma FixedInsertAbsent<K, V>(s: Lru<K, V>, order: seq<nat>, key: K, value: V) returns (o: seq<nat>)
    requires Wf(s) && Linked(s, order) && key !in s.table
    ensures FixedInsertOf(s, key, value).1 == PeekOf(s, key)
    ensures Linked(FixedInsertOf(s, key, value).0, o)
    ensures KeysOf(FixedInsertOf(s, key, value).0, o) == RecentInsert(KeysOf(s, order), s.capacity, key)
  {
    var keys := KeysOf(s, order);
    LinkedKeys(s, order);
    assert Find(keys, key) == |keys| == |s.table|;
    var t := FixedEnsureRoomOf(s);
    FixedEnsureRoomLinked(s, order);
    var rest := RoomOrder(s, order);
    var tk := KeysOf(t, rest);
    assert tk == if |keys| == s.capacity && keys != [] then keys[..|keys| - 1] else keys;
    assert key !in t.table;
    PushFrontLinked(t, rest, key, value);
    o := [|t.entries|] + rest;
    assert FixedInsertOf(s, key, value).0 == PushFront(t, key, value);
    RecentInsertAbsent(keys, s.capacity, key);
  }

  /** The corrected `get` returns the key's value and moves a present key to the front of the recency order. */
  lemma FixedGetLinked<K, V>(s: Lru<K, V>, order: seq<nat>, key: K) returns (o: seq<nat>)
    requires Wf(s) && Linked(s, order)
    ensures FixedGetOf(s, key).1 == PeekOf(s, key)
    ensures Linked(FixedGetOf(s, key).0, o)
    ensures KeysOf(FixedGetOf(s, key).0, o) == RecentGet(KeysOf(s, order), key)
  {
    LinkedKeys(s, order);
    if key in s.table {
      var p := FixedAccessLinked(s, order, key);
      o := Promote(order, p);
    } else {
      assert Find(KeysOf(s, order), key) == |order|;
      o := order;
    }
  }

  /*
   * Any sequence of operations
   */

  /** A call on the cache. */
  datatype Op<K, V> = Insert(key: K, value: V) | Get(key: K)

  /** The corrected cache after the calls `ops` in turn. */
  function FixedRunOf<K(==), V>(s: Lru<K, V>, ops: seq<Op<K, V>>): (r: Lru<K, V>)
    requires Wf(s)
    ensures Wf(r) && r.capacity == s.capacity
    decreases |ops|
  {
    if ops == [] then s
    else
      var t := match ops[0]
        case Insert(k, v) => FixedInsertOf(s, k, v).0
        case Get(k) => FixedGetOf(s, k).0;
      FixedRunOf(t, ops[1..])
  }

  /** The recency order after one call. */
  function RecentStep<K(==), V>(keys: seq<K>, capacity: nat, op: Op<K, V>): seq<K>
  {
    match op
    case Insert(k, _) => RecentInsert(keys, capacity, k)
    case Get(k) => RecentGet(keys, k)
  }

  /** The recency order after the calls `ops` in turn. */
  function RecentRun<K(==), V>(keys: seq<K>, capacity: nat, ops: seq<Op<K, V>>): seq<K>
    decreases |ops|
  {
    if ops == [] then keys else RecentRun(RecentStep(keys, capacity, ops[0]), capacity, ops[1..])
  }

  /** Every run of the corrected cache follows the recency order. */
  lemma {:induction false} FixedRunLinked<K, V>(s: Lru<K, V>, order: seq<nat>, ops: seq<Op<K, V>>) returns (o: seq<nat>)
    requires Wf(s) && Linked(s, order)
    ensures Linked(FixedRunOf(s, ops), o)
    ensures KeysOf(FixedRunOf(s, ops), o) == RecentRun(KeysOf(s, order), s.capacity, ops)
    decreases |ops|
  {
    if ops == [] {
      o := order;
    } else {
      var o1, t;
      match ops[0] {
        case Insert(k, v) =>
          o1 := FixedInsertLinked(s, order, k, v);
          t := FixedInsertOf(s, k, v).0;
        case Get(k) =>
          o1 := FixedGetLinked(s, order, k);
          t := FixedGetOf(s, k).0;
      }
      o := FixedRunLinked(t, o1, ops[1..]);
    }
  }

  /** The recency order of a cache of capacity 1 or more never holds more keys than the capacity. */
  lemma {:induction false} RecentRunBounded<K, V>(keys: seq<K>, capacity: nat, ops: seq<Op<K, V>>)
    requires 1 <= capacity && |keys| <= capacity
    ensures |RecentRun(keys, capacity, ops)| <= capacity
    decreases |ops|
  {
    if ops != [] {
      RecentRunBounded(RecentStep(keys, capacity, ops[0]), capacity, ops[1..]);
    }
  }

  /**
   * The doc comments' promise, for the corrected cache: starting empty with
   * capacity 1 or more, after any inserts and gets it holds no more keys than
   * its capacity, and exactly the keys of the recency order.
   */
  lemma FixedRunBounded<K, V>(capacity: nat, ops: seq<Op<K, V>>)
    requires capacity >= 1
    ensures |FixedRunOf(Empty(capacity), ops).table| <= capacity
    ensures forall k :: k in FixedRunOf(Empty(capacity), ops).table <==> k in RecentRun([], capacity, ops)
  {
    var s := Empty<K, V>(capacity);
    EmptyLinked<K, V>(capacity);
    var o := FixedRunLinked(s, [], ops);
    assert KeysOf(s, []) == [];
    RecentRunBounded([], capacity, ops);
    LinkedKeys(FixedRunOf(s, ops), o);
  }
}
