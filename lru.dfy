/**
 * A fixed-size cache with least-recently-used eviction, built as a doubly
 * linked list threaded through a growing vector of entries: `table` maps each
 * key to the index of its entry, `first` is the most recently used entry and
 * `last` the next one to evict.
 *
 * The functions below state what each operation of the source does to the
 * whole state; the class runs the same steps on its fields in place.
 */
module Lru {
  import opened Wrappers
  import opened Orderings

  /** One slot of the vector: the key, its value, and the links to the next (older) and previous (newer) slots. */
  datatype Entry<K, V> = Entry(key: K, value: Option<V>, next: Option<nat>, prev: Option<nat>)

  /** The fields of the cache. */
  datatype Lru<K(==), V> = Lru(table: map<K, nat>, entries: seq<Entry<K, V>>,
    first: Option<nat>, last: Option<nat>, capacity: nat)

  /** An index that, when present, addresses a slot. */
  predicate InRange(o: Option<nat>, n: nat)
  {
    o.Some? ==> o.value < n
  }

  /**
   * What every operation keeps: each key's index addresses a slot holding that
   * key and a value, and every link addresses a slot. No index the source
   * follows can then be out of bounds.
   */
  ghost predicate Wf<K, V>(s: Lru<K, V>)
  {
    var n := |s.entries|;
    (forall k :: k in s.table ==> s.table[k] < n && s.entries[s.table[k]].key == k && s.entries[s.table[k]].value.Some?)
    && InRange(s.first, n) && InRange(s.last, n)
    && (forall i :: 0 <= i < n ==> InRange(s.entries[i].next, n) && InRange(s.entries[i].prev, n))
  }

  /** `with_capacity`: an empty cache. */
  function Empty<K(==), V>(capacity: nat): (s: Lru<K, V>)
    ensures Wf(s) && s.table == map[] && s.capacity == capacity
  {
    Lru(map[], [], None, None, capacity)
  }

  /** `peek`: the value under the key, if present. */
  function PeekOf<K(==), V>(s: Lru<K, V>, key: K): (r: Option<V>)
    requires Wf(s)
    ensures r.Some? <==> key in s.table
    ensures r.Some? ==> s.entries[s.table[key]] == Entry(key, r, s.entries[s.table[key]].next, s.entries[s.table[key]].prev)
  {
    if key in s.table then s.entries[s.table[key]].value else None
  }

  /**
   * `remove_from_list`, as written: a slot in the middle is unlinked from both
   * neighbours and a slot at the end makes its predecessor the last one; a slot
   * without predecessor is left linked as it was.
   */
  function RemoveFromListOf<K(==), V>(s: Lru<K, V>, i: nat): (r: Lru<K, V>)
    requires Wf(s) && i < |s.entries|
    ensures Wf(r) && r.table == s.table && r.first == s.first && r.capacity == s.capacity
    ensures |r.entries| == |s.entries| && forall j :: 0 <= j < |r.entries| ==>
      r.entries[j].key == s.entries[j].key && r.entries[j].value == s.entries[j].value
  {
    var e := s.entries[i];
    match (e.prev, e.next)
    case (Some(j), Some(k)) =>
      var es := s.entries[j := s.entries[j].(next := e.next)];
      s.(entries := es[k := es[k].(prev := e.prev)])
    case (Some(j), None) =>
      s.(entries := s.entries[j := s.entries[j].(next := None)], last := e.prev)
    case _ => s
  }

  /** `access`, as written: the key's slot is taken out of the list and made the first one. */
  function AccessOf<K(==), V>(s: Lru<K, V>, key: K): (r: Lru<K, V>)
    requires Wf(s) && key in s.table
    ensures Wf(r) && r.table == s.table && r.first == Some(s.table[key]) && r.capacity == s.capacity
    ensures |r.entries| == |s.entries| && forall j :: 0 <= j < |r.entries| ==>
      r.entries[j].key == s.entries[j].key && r.entries[j].value == s.entries[j].value
  {
    var i := s.table[key];
    RemoveFromListOf(s, i).(first := Some(i))
  }

  /** `remove_last`: the last slot leaves the list and its key the table; no last slot means no first one either. */
  function RemoveLastOf<K(==), V>(s: Lru<K, V>): (r: Lru<K, V>)
    requires Wf(s)
    ensures Wf(r) && r.capacity == s.capacity && r.entries == RemoveLastEntries(s)
    ensures s.last.Some? ==> r.table == s.table - {s.entries[s.last.value].key}
    ensures s.last.None? ==> r.table == s.table && r.first.None?
  {
    var r := if s.last.Some? then
        var idx := s.last.value;
        var t := RemoveFromListOf(s, idx);
        t.(table := t.table - {t.entries[idx].key})
      else s;
    if r.last.None? then r.(first := None) else r
  }

  /** The slots after `remove_last`: those `remove_from_list` leaves. */
  function RemoveLastEntries<K(==), V>(s: Lru<K, V>): seq<Entry<K, V>>
    requires Wf(s)
  {
    if s.last.Some? then RemoveFromListOf(s, s.last.value).entries else s.entries
  }

  /** `ensure_room`: a full cache (as many keys as its capacity) drops its last slot. */
  function EnsureRoomOf<K(==), V>(s: Lru<K, V>): (r: Lru<K, V>)
    requires Wf(s)
    ensures Wf(r) && r.capacity == s.capacity && r.table.Keys <= s.table.Keys
  {
    if s.capacity == |s.table| then RemoveLastOf(s) else s
  }

  /**
   * `insert`: a present key is accessed and its value replaced, the previous
   * one returned; an absent key gets a new slot pushed at the end of the
   * vector, linked in front of the first slot, after making room.
   */
  function InsertOf<K(==), V>(s: Lru<K, V>, key: K, value: V): (r: (Lru<K, V>, Option<V>))
    requires Wf(s)
    ensures Wf(r.0) && r.0.capacity == s.capacity
  {
    if key in s.table then
      var a := AccessOf(s, key);
      var i := a.first.value;
      (Replace(a, i, value), a.entries[i].value)
    else
      (PushFront(EnsureRoomOf(s), key, value), None)
  }

  /** The slot `i` with its value replaced. */
  function Replace<K(==), V>(s: Lru<K, V>, i: nat, value: V): (r: Lru<K, V>)
    requires Wf(s) && i < |s.entries|
    ensures Wf(r)
  {
    s.(entries := s.entries[i := s.entries[i].(value := Some(value))])
  }

  /** A new slot for an absent key, pushed at the end of the vector and linked in front of the first slot. */
  function PushFront<K(==), V>(s: Lru<K, V>, key: K, value: V): (r: Lru<K, V>)
    requires Wf(s) && key !in s.table
    ensures Wf(r) && r.capacity == s.capacity && r.table == s.table[key := |s.entries|]
  {
    var idx := |s.entries|;
    var linked := if s.first.Some? then
        s.entries[s.first.value := s.entries[s.first.value].(prev := Some(idx))]
      else s.entries;
    var entries := linked + [Entry(key, Some(value), s.first, None)];
    assert forall k :: k in s.table ==>
      (entries[s.table[k]].key == s.entries[s.table[k]].key && entries[s.table[k]].value == s.entries[s.table[k]].value);
    var first := Some(idx);
    s.(entries := entries, first := first, last := if s.last.Some? then s.last else first,
      table := s.table[key := idx])
  }

  /** `get`: a present key is accessed; then the value is peeked. */
  function GetOf<K(==), V>(s: Lru<K, V>, key: K): (r: (Lru<K, V>, Option<V>))
    requires Wf(s)
    ensures Wf(r.0)
  {
    var t := if key in s.table then AccessOf(s, key) else s;
    (t, PeekOf(t, key))
  }

  /*
   * What each operation promises
   */

  /** Inserting an absent key returns None; afterwards the key is present with the new value. */
  lemma InsertAbsent<K, V>(s: Lru<K, V>, key: K, value: V)
    requires Wf(s) && key !in s.table
    ensures var (t, previous) := InsertOf(s, key, value);
      previous == None && key in t.table && PeekOf(t, key) == Some(value)
  {
  }

  /**
   * Inserting a present key returns its previous value and leaves the number
   * of keys as it was; afterwards the key holds the new value and every other
   * key its old one.
   */
  lemma InsertPresent<K, V>(s: Lru<K, V>, key: K, value: V)
    requires Wf(s) && key in s.table
    ensures var (t, previous) := InsertOf(s, key, value);
      previous == PeekOf(s, key) && previous.Some? && t.table == s.table && PeekOf(t, key) == Some(value)
      && forall k :: k in s.table && k != key ==> PeekOf(t, k) == PeekOf(s, k)
  {
  }

  /** `get` of an absent key returns None and changes nothing. */
  lemma GetAbsent<K, V>(s: Lru<K, V>, key: K)
    requires Wf(s) && key !in s.table
    ensures GetOf(s, key) == (s, None)
  {
  }

  /** `get` of a present key returns its value and keeps every key and value. */
  lemma GetPresent<K, V>(s: Lru<K, V>, key: K)
    requires Wf(s) && key in s.table
    ensures var (t, v) := GetOf(s, key);
      v == PeekOf(s, key) && v.Some? && t.table == s.table && forall k :: k in s.table ==> PeekOf(t, k) == PeekOf(s, k)
  {
  }

  /**
   * The vector only grows by a push: an insert keeps every slot's key and
   * puts an absent key in a new slot at the end, so a slot is never reused.
   */
  lemma InsertPushes<K, V>(s: Lru<K, V>, key: K, value: V)
    requires Wf(s)
    ensures var t := InsertOf(s, key, value).0;
      |s.entries| <= |t.entries| && (forall j :: 0 <= j < |s.entries| ==> t.entries[j].key == s.entries[j].key)
      && (key !in s.table ==> |t.entries| == |s.entries| + 1 && t.table[key] == |s.entries|)
      && (key in s.table ==> |t.entries| == |s.entries|)
  {
    if key !in s.table {
      var t := EnsureRoomOf(s);
      assert |t.entries| == |s.entries| && forall j :: 0 <= j < |s.entries| ==> t.entries[j].key == s.entries[j].key by {
        if s.capacity == |s.table| && s.last.Some? {
          assert t.entries == RemoveFromListOf(s, s.last.value).entries;
        }
      }
      PushFrontShape(t, key, value);
    }
  }

  /*
   * The list the links describe
   */

  /**
   * The slots `order`, most recently used first, are exactly the linked list:
   * one per key, each linked to its neighbours in `order`, `first` and `last`
   * at its two ends.
   */
  ghost predicate Linked<K, V>(s: Lru<K, V>, order: seq<nat>)
  {
    |order| == |s.table| && Chain(s, order) && Keyed(s, order)
  }

  /** The slots `order` form the linked list from `first` to `last`. */
  ghost predicate Chain<K, V>(s: Lru<K, V>, order: seq<nat>)
  {
    Listed(s, order) && Distinct(order) && Ends(s, order) && Forward(s, order) && Backward(s, order)
  }

  ghost predicate Listed<K, V>(s: Lru<K, V>, order: seq<nat>)
  {
    forall j :: 0 <= j < |order| ==> order[j] < |s.entries|
  }

  ghost predicate Distinct<T>(xs: seq<T>)
  {
    forall j, k :: 0 <= j < k < |xs| ==> xs[j] != xs[k]
  }

  ghost predicate Ends<K, V>(s: Lru<K, V>, order: seq<nat>)
  {
    s.first == (if |order| == 0 then None else Some(order[0]))
    && s.last == (if |order| == 0 then None else Some(order[|order| - 1]))
  }

  /** Each listed slot links forward to the next older one, the last to none. */
  ghost predicate Forward<K, V>(s: Lru<K, V>, order: seq<nat>)
    requires Listed(s, order)
  {
    forall j {:trigger order[j]} :: 0 <= j < |order| ==> s.entries[order[j]].next == if j + 1 < |order| then Some(order[j + 1]) else None
  }

  /** Each listed slot links back to the next newer one, the first to none. */
  ghost predicate Backward<K, V>(s: Lru<K, V>, order: seq<nat>)
    requires Listed(s, order)
  {
    forall j {:trigger order[j]} :: 0 <= j < |order| ==> s.entries[order[j]].prev == if j > 0 then Some(order[j - 1]) else None
  }

  /** The key of each listed slot is in the table under that slot. */
  ghost predicate Keyed<K, V>(s: Lru<K, V>, order: seq<nat>)
    requires Listed(s, order)
  {
    forall j :: 0 <= j < |order| ==> s.entries[order[j]].key in s.table && s.table[s.entries[order[j]].key] == order[j]
  }

  /** The keys of the listed slots, most recently used first. */
  ghost function KeysOf<K, V>(s: Lru<K, V>, order: seq<nat>): (r: seq<K>)
    requires Listed(s, order)
    ensures |r| == |order|
  {
    seq(|order|, j requires 0 <= j < |order| => s.entries[order[j]].key)
  }

  /** The listed keys are the keys of the table. */
  lemma {:induction false} LinkedKeys<K, V>(s: Lru<K, V>, order: seq<nat>)
    requires Wf(s) && Linked(s, order)
    ensures forall k :: k in s.table <==> k in KeysOf(s, order)
  {
    var keys := KeysOf(s, order);
    var listed := set j | 0 <= j < |keys| :: keys[j];
    assert listed <= s.table.Keys;
    forall j, k | 0 <= j < k < |keys| ensures keys[j] != keys[k] {
      assert s.table[keys[j]] == order[j] && s.table[keys[k]] == order[k];
    }
    DistinctCard(keys);
    if exists k :: k in s.table && k !in listed {
      var k :| k in s.table && k !in listed;
      SubsetCard(listed + {k}, s.table.Keys);
    }
  }

  /** An empty cache is the empty list. */
  lemma EmptyLinked<K, V>(capacity: nat)
    ensures Linked(Empty<K, V>(capacity), [])
  {
  }

  /**
   * `r` is `s` with a new slot for `key` appended and linked in front of the
   * old first slot.
   */
  ghost predicate Pushed<K, V>(s: Lru<K, V>, r: Lru<K, V>, key: K)
  {
    var idx := |s.entries|;
    |r.entries| == idx + 1 && r.entries[idx].key == key && r.entries[idx].next == s.first
    && r.entries[idx].prev == None
    && r.table == s.table[key := idx] && r.first == Some(idx)
    && r.last == (if s.last.None? then Some(idx) else s.last)
    && (forall i :: 0 <= i < idx ==> r.entries[i].key == s.entries[i].key && r.entries[i].next == s.entries[i].next)
    && (forall i :: 0 <= i < idx ==> r.entries[i].prev == if s.first == Some(i) then Some(idx) else s.entries[i].prev)
  }

  lemma PushFrontShape<K, V>(s: Lru<K, V>, key: K, value: V)
    requires Wf(s) && key !in s.table
    ensures Pushed(s, PushFront(s, key, value), key)
  {
  }

  lemma PushedListed<K, V>(s: Lru<K, V>, r: Lru<K, V>, order: seq<nat>, key: K)
    requires Linked(s, order) && Pushed(s, r, key)
    ensures Listed(r, [|s.entries|] + order) && Distinct([|s.entries|] + order) && Ends(r, [|s.entries|] + order)
  {
    var o := [|s.entries|] + order;
    forall j | 0 < j < |o| ensures o[j] == order[j - 1] < |s.entries| { }
  }

  lemma PushedForward<K, V>(s: Lru<K, V>, r: Lru<K, V>, order: seq<nat>, key: K)
    requires Linked(s, order) && Pushed(s, r, key) && Listed(r, [|s.entries|] + order)
    ensures Forward(r, [|s.entries|] + order)
  {
    var o, n := [|s.entries|] + order, |order|;
    forall j | 0 <= j < n + 1 ensures r.entries[o[j]].next == if j + 1 < n + 1 then Some(o[j + 1]) else None {
      if 0 < j { assert o[j] == order[j - 1]; }
      if 0 < j < n { assert o[j + 1] == order[j]; }
    }
  }

  lemma PushedBackward<K, V>(s: Lru<K, V>, r: Lru<K, V>, order: seq<nat>, key: K)
    requires Linked(s, order) && Pushed(s, r, key) && Listed(r, [|s.entries|] + order)
    ensures Backward(r, [|s.entries|] + order)
  {
    var o, n := [|s.entries|] + order, |order|;
    forall j | 0 <= j < n + 1 ensures r.entries[o[j]].prev == if j > 0 then Some(o[j - 1]) else None {
      if 0 < j { assert o[j] == order[j - 1]; }
      if 1 < j { assert o[j - 1] == order[j - 2] && order[j - 1] != order[0]; }
    }
  }

  lemma PushedKeyed<K, V>(s: Lru<K, V>, r: Lru<K, V>, order: seq<nat>, key: K)
    requires key !in s.table && Listed(s, order) && Keyed(s, order) && Pushed(s, r, key) && Listed(r, [|s.entries|] + order)
    ensures Keyed(r, [|s.entries|] + order)
    ensures KeysOf(r, [|s.entries|] + order) == [key] + KeysOf(s, order)
  {
    var o := [|s.entries|] + order;
    forall j | 0 < j < |o| ensures o[j] == order[j - 1] && r.entries[o[j]].key == s.entries[order[j - 1]].key { }
    PushedKeyedTable(s, r, order, key);
    PushedKeysOf(s, r, order, key);
  }

  lemma PushedKeyedTable<K, V>(s: Lru<K, V>, r: Lru<K, V>, order: seq<nat>, key: K)
    requires key !in s.table && Listed(s, order) && Keyed(s, order) && Pushed(s, r, key) && Listed(r, [|s.entries|] + order)
    requires forall j :: 0 < j < |order| + 1 ==> r.entries[([|s.entries|] + order)[j]].key == s.entries[order[j - 1]].key
    ensures Keyed(r, [|s.entries|] + order)
  {
    var o := [|s.entries|] + order;
    forall j | 0 <= j < |o| ensures r.entries[o[j]].key in r.table && r.table[r.entries[o[j]].key] == o[j] {
      if j > 0 {
        var k := s.entries[order[j - 1]].key;
        assert o[j] == order[j - 1];
        assert k in s.table && s.table[k] == order[j - 1] && k != key;
      }
    }
  }

  lemma PushedKeysOf<K, V>(s: Lru<K, V>, r: Lru<K, V>, order: seq<nat>, key: K)
    requires Listed(s, order) && Pushed(s, r, key) && Listed(r, [|s.entries|] + order)
    requires forall j :: 0 < j < |order| + 1 ==> r.entries[([|s.entries|] + order)[j]].key == s.entries[order[j - 1]].key
    ensures KeysOf(r, [|s.entries|] + order) == [key] + KeysOf(s, order)
  {
    var o := [|s.entries|] + order;
    var a, b := KeysOf(r, o), [key] + KeysOf(s, order);
    assert |a| == |b|;
    forall j | 0 <= j < |a| ensures a[j] == b[j] {
      if j > 0 { assert b[j] == KeysOf(s, order)[j - 1]; }
    }
  }

  /** Pushing a slot for an absent key puts it at the front of the list. */
  lemma PushFrontLinked<K, V>(s: Lru<K, V>, order: seq<nat>, key: K, value: V)
    requires Wf(s) && Linked(s, order) && key !in s.table
    ensures Linked(PushFront(s, key, value), [|s.entries|] + order)
    ensures KeysOf(PushFront(s, key, value), [|s.entries|] + order) == [key] + KeysOf(s, order)
  {
    var r := PushFront(s, key, value);
    PushFrontShape(s, key, value);
    PushedListed(s, r, order, key);
    PushedForward(s, r, order, key);
    PushedBackward(s, r, order, key);
    PushedKeyed(s, r, order, key);
  }

  /**
   * `r` is `s` with the last of the listed slots `order` dropped from the table
   * and its predecessor made the last.
   */
  ghost predicate Trimmed<K, V>(s: Lru<K, V>, r: Lru<K, V>, order: seq<nat>)
    requires Listed(s, order) && |order| >= 2
  {
    var n := |order|;
    r.entries == s.entries[order[n - 2] := s.entries[order[n - 2]].(next := None)]
    && r.table == s.table - {s.entries[order[n - 1]].key}
    && r.first == s.first && r.last == Some(order[n - 2])
  }

  lemma RemoveLastShape<K, V>(s: Lru<K, V>, order: seq<nat>)
    requires Wf(s) && Linked(s, order) && |order| >= 2
    ensures Trimmed(s, RemoveLastOf(s), order)
  {
    var n := |order|;
    assert s.entries[order[n - 1]].prev == Some(order[n - 2]);
    assert s.entries[order[n - 1]].next == None;
  }

  lemma TrimmedLinked<K, V>(s: Lru<K, V>, r: Lru<K, V>, order: seq<nat>)
    requires Linked(s, order) && |order| >= 2 && Trimmed(s, r, order)
    ensures Linked(r, order[..|order| - 1])
  {
    var n := |order|;
    var o := order[..n - 1];
    assert Listed(r, o);
    TrimmedForward(s, r, order);
    TrimmedBackward(s, r, order);
    TrimmedKeyed(s, r, order);
    assert |r.table| == n - 1 by {
      assert s.entries[order[n - 1]].key in s.table;
    }
  }

  lemma TrimmedForward<K, V>(s: Lru<K, V>, r: Lru<K, V>, order: seq<nat>)
    requires Linked(s, order) && |order| >= 2 && Trimmed(s, r, order) && Listed(r, order[..|order| - 1])
    ensures Forward(r, order[..|order| - 1])
  {
    var n := |order|;
    var o := order[..n - 1];
    forall j | 0 <= j < n - 1 ensures r.entries[o[j]].next == if j + 1 < n - 1 then Some(o[j + 1]) else None {
      assert o[j] == order[j];
      if j + 1 < n - 1 { assert o[j + 1] == order[j + 1] && order[j] != order[n - 2]; }
    }
  }

  lemma TrimmedBackward<K, V>(s: Lru<K, V>, r: Lru<K, V>, order: seq<nat>)
    requires Linked(s, order) && |order| >= 2 && Trimmed(s, r, order) && Listed(r, order[..|order| - 1])
    ensures Backward(r, order[..|order| - 1])
  {
    var n := |order|;
    var o := order[..n - 1];
    forall j | 0 <= j < n - 1 ensures r.entries[o[j]].prev == if j > 0 then Some(o[j - 1]) else None {
      assert o[j] == order[j];
      if j > 0 { assert o[j - 1] == order[j - 1]; }
    }
  }

  lemma TrimmedKeyed<K, V>(s: Lru<K, V>, r: Lru<K, V>, order: seq<nat>)
    requires Linked(s, order) && |order| >= 2 && Trimmed(s, r, order) && Listed(r, order[..|order| - 1])
    ensures Keyed(r, order[..|order| - 1])
  {
    var n := |order|;
    var o := order[..n - 1];
    forall j | 0 <= j < n - 1 ensures r.entries[o[j]].key in r.table && r.table[r.entries[o[j]].key] == o[j] {
      assert o[j] == order[j] && r.entries[o[j]].key == s.entries[order[j]].key;
      assert s.table[s.entries[order[j]].key] == order[j] && order[j] != order[n - 1];
    }
  }

  /** Dropping the last of two or more listed slots shortens the list by its end. */
  lemma RemoveLastLinked<K, V>(s: Lru<K, V>, order: seq<nat>)
    requires Wf(s) && Linked(s, order) && |order| >= 2
    ensures Linked(RemoveLastOf(s), order[..|order| - 1])
    ensures KeysOf(RemoveLastOf(s), order[..|order| - 1]) == KeysOf(s, order)[..|order| - 1]
  {
    RemoveLastShape(s, order);
    TrimmedLinked(s, RemoveLastOf(s), order);
  }

  /*
   * The recency order the doc comments promise, on keys alone: most recently
   * used first, a full cache forgetting its least recently used key.
   */

  /** The position of `key` in `keys`, or `|keys|` when it is absent. */
  function Find<K(==)>(keys: seq<K>, key: K): (r: nat)
    ensures r <= |keys| && (r < |keys| ==> keys[r] == key)
    ensures forall j :: 0 <= j < r ==> keys[j] != key
  {
    if keys == [] then 0
    else if keys[0] == key then 0
    else 1 + Find(keys[1..], key)
  }

  /** The key at position `p` moved to the front, the others in their order. */
  function Promote<K>(keys: seq<K>, p: nat): (r: seq<K>)
    requires p < |keys|
    ensures |r| == |keys| && r[0] == keys[p]
    ensures forall j :: 0 < j <= p ==> r[j] == keys[j - 1]
    ensures forall j :: p < j < |keys| ==> r[j] == keys[j]
  {
    [keys[p]] + Without(keys, p)
  }

  /** The list `xs` without its element at position `p`. */
  function Without<T>(xs: seq<T>, p: nat): (r: seq<T>)
    requires p < |xs|
    ensures |r| == |xs| - 1
    ensures forall j :: 0 <= j < p ==> r[j] == xs[j]
    ensures forall j :: p <= j < |r| ==> r[j] == xs[j + 1]
  {
    xs[..p] + xs[p + 1..]
  }

  /**
   * The keys after inserting `key`: a present key moves to the front; an
   * absent one goes in front, after the last key leaves a cache holding as
   * many keys as its capacity.
   */
  function RecentInsert<K(==)>(keys: seq<K>, capacity: nat, key: K): seq<K>
  {
    var p := Find(keys, key);
    if p < |keys| then Promote(keys, p)
    else if |keys| == capacity && keys != [] then [key] + keys[..|keys| - 1]
    else [key] + keys
  }

  /** The keys after `get`: a present key moves to the front. */
  function RecentGet<K(==)>(keys: seq<K>, key: K): seq<K>
  {
    var p := Find(keys, key);
    if p < |keys| then Promote(keys, p) else keys
  }

  /** The slots left in order once `ensure_room` has run: the last goes when the cache is full. */
  ghost function RoomOrder<K, V>(s: Lru<K, V>, order: seq<nat>): seq<nat>
  {
    if s.capacity == |s.table| && order != [] then order[..|order| - 1] else order
  }

  /** The new list after an insert of an absent key (the as-written order). */
  ghost function FreshOrder<K, V>(s: Lru<K, V>, order: seq<nat>): seq<nat>
  {
    [|s.entries|] + RoomOrder(s, order)
  }

  /** The keys `insert` leaves for an absent key: it goes in front, the last goes when full. */
  lemma RecentInsertAbsent<K>(keys: seq<K>, capacity: nat, key: K)
    requires Find(keys, key) == |keys|
    ensures RecentInsert(keys, capacity, key)
      == [key] + if |keys| == capacity && keys != [] then keys[..|keys| - 1] else keys
  {
  }

  /**
   * As written, `ensure_room` drops the last slot of a full cache and its key,
   * as long as the capacity is not 1.
   */
  lemma EnsureRoomLinked<K, V>(s: Lru<K, V>, order: seq<nat>)
    requires Wf(s) && Linked(s, order) && s.capacity != 1
    ensures Linked(EnsureRoomOf(s), RoomOrder(s, order)) && |EnsureRoomOf(s).entries| == |s.entries|
    ensures KeysOf(EnsureRoomOf(s), RoomOrder(s, order))
      == if RoomOrder(s, order) == order then KeysOf(s, order) else KeysOf(s, order)[..|order| - 1]
  {
    if s.capacity == |s.table| {
      if order != [] { RemoveLastLinked(s, order); } else { assert EnsureRoomOf(s) == s.(first := None); }
    }
  }

  /**
   * As written, inserting an absent key into a cache whose capacity is not 1
   * keeps the list well formed and moves the keys as the recency order says.
   */
  lemma InsertFreshLinked<K, V>(s: Lru<K, V>, order: seq<nat>, key: K, value: V)
    requires Wf(s) && Linked(s, order) && key !in s.table && s.capacity != 1
    ensures Linked(InsertOf(s, key, value).0, FreshOrder(s, order))
    ensures KeysOf(InsertOf(s, key, value).0, FreshOrder(s, order)) == RecentInsert(KeysOf(s, order), s.capacity, key)
  {
    var keys := KeysOf(s, order);
    LinkedKeys(s, order);
    assert Find(keys, key) == |keys| == |s.table|;
    var t := EnsureRoomOf(s);
    EnsureRoomLinked(s, order);
    var rest := RoomOrder(s, order);
    var tk := KeysOf(t, rest);
    assert tk == if |keys| == s.capacity && keys != [] then keys[..|keys| - 1] else keys;
    assert key !in t.table;
    PushFrontLinked(t, rest, key, value);
    assert InsertOf(s, key, value).0 == PushFront(t, key, value);
    RecentInsertAbsent(keys, s.capacity, key);
  }

  /** The cache after inserting each of the pairs `ps` in turn. */
  function InsertAllOf<K(==), V>(s: Lru<K, V>, ps: seq<(K, V)>): (r: Lru<K, V>)
    requires Wf(s)
    ensures Wf(r) && r.capacity == s.capacity
    decreases |ps|
  {
    if ps == [] then s else InsertAllOf(InsertOf(s, ps[0].0, ps[0].1).0, ps[1..])
  }

  /** The keys of the pairs `ps`. */
  function KeysIn<K, V>(ps: seq<(K, V)>): (r: seq<K>)
    ensures |r| == |ps| && forall j :: 0 <= j < |ps| ==> r[j] == ps[j].0
  {
    seq(|ps|, j requires 0 <= j < |ps| => ps[j].0)
  }

  /** The recency order after inserting each of `ks` in turn. */
  function RecentInsertAll<K(==)>(keys: seq<K>, capacity: nat, ks: seq<K>): seq<K>
    decreases |ks|
  {
    if ks == [] then keys else RecentInsertAll(RecentInsert(keys, capacity, ks[0]), capacity, ks[1..])
  }

  function Reversed<T>(xs: seq<T>): (r: seq<T>)
    ensures |r| == |xs| && forall j :: 0 <= j < |xs| ==> r[j] == xs[|xs| - 1 - j]
    decreases |xs|
  {
    if xs == [] then [] else Reversed(xs[1..]) + [xs[0]]
  }

  /** Reversing puts the first element last. */
  lemma ReversedFirst<T>(xs: seq<T>)
    requires xs != []
    ensures Reversed(xs) == Reversed(xs[1..]) + [xs[0]]
  {
  }

  lemma ConcatAssociates<T>(a: seq<T>, b: seq<T>, c: seq<T>)
    ensures a + (b + c) == (a + b) + c
  {
  }

  function Min(a: nat, b: nat): nat
  {
    if a < b then a else b
  }

  /**
   * Inserting distinct absent keys into a cache of capacity 1 or more keeps
   * the most recent ones in front: the last key inserted first, and the
   * oldest ones dropped once the capacity is reached, so eviction follows
   * insertion order.
   */
  lemma {:induction false} RecentFreshAll<K>(keys: seq<K>, capacity: nat, ks: seq<K>)
    requires 1 <= capacity && |keys| <= capacity && Distinct(ks)
    requires forall j, i :: 0 <= j < |ks| && 0 <= i < |keys| ==> ks[j] != keys[i]
    ensures RecentInsertAll(keys, capacity, ks) == (Reversed(ks) + keys)[..Min(capacity, |ks| + |keys|)]
    decreases |ks|
  {
    if ks != [] {
      var k, rest := ks[0], ks[1..];
      var next := FreshStep(keys, capacity, ks);
      RecentFreshAll(next, capacity, rest);
      FreshJoin(keys, capacity, ks, next, RecentInsertAll(next, capacity, rest));
    }
  }

  /** The result of RecentFreshAll for `ks` from its result for the keys after the first. */
  lemma FreshJoin<K>(keys: seq<K>, capacity: nat, ks: seq<K>, next: seq<K>, after: seq<K>)
    requires 1 <= capacity && |keys| <= capacity && ks != []
    requires next == ([ks[0]] + keys)[..Min(capacity, 1 + |keys|)]
    requires after == (Reversed(ks[1..]) + next)[..Min(capacity, |ks[1..]| + |next|)]
    ensures after == (Reversed(ks) + keys)[..Min(capacity, |ks| + |keys|)]
  {
    var k, rest := ks[0], ks[1..];
    var newer := Reversed(rest);
    assert |next| == Min(capacity, 1 + |keys|);
    RecentShift(newer, k, keys, capacity);
    assert after == (newer + ([k] + keys))[..Min(capacity, |newer| + 1 + |keys|)];
    ReversedFirst(ks);
    ConcatAssociates(newer, [k], keys);
    assert |ks| == |newer| + 1;
  }

  /** The first insertion of RecentFreshAll, and the requirements of the rest on what it leaves. */
  lemma FreshStep<K>(keys: seq<K>, capacity: nat, ks: seq<K>) returns (next: seq<K>)
    requires 1 <= capacity && |keys| <= capacity && Distinct(ks) && ks != []
    requires forall j, i :: 0 <= j < |ks| && 0 <= i < |keys| ==> ks[j] != keys[i]
    ensures next == ([ks[0]] + keys)[..Min(capacity, 1 + |keys|)]
    ensures RecentInsertAll(keys, capacity, ks) == RecentInsertAll(next, capacity, ks[1..])
    ensures |next| <= capacity && Distinct(ks[1..])
    ensures forall j, i :: 0 <= j < |ks[1..]| && 0 <= i < |next| ==> ks[1..][j] != next[i]
  {
    var k, rest := ks[0], ks[1..];
    next := RecentFresh(keys, capacity, k);
    forall j, i | 0 <= j < i < |rest| ensures rest[j] != rest[i] {
      assert rest[j] == ks[j + 1] && rest[i] == ks[i + 1];
    }
    forall j, i | 0 <= j < |rest| && 0 <= i < |next| ensures rest[j] != next[i] {
      assert rest[j] == ks[j + 1];
      if i > 0 { assert next[i] == keys[i - 1]; } else { assert next[i] == k == ks[0]; }
    }
  }

  /** Inserting an absent key: it goes in front and the list keeps at most `capacity` keys. */
  lemma RecentFresh<K>(keys: seq<K>, capacity: nat, k: K) returns (next: seq<K>)
    requires 1 <= capacity && |keys| <= capacity && forall i :: 0 <= i < |keys| ==> keys[i] != k
    ensures next == RecentInsert(keys, capacity, k) == ([k] + keys)[..Min(capacity, 1 + |keys|)]
  {
    assert Find(keys, k) == |keys|;
    next := RecentInsert(keys, capacity, k);
  }

  /** Cutting the tail to the capacity before or after putting newer keys in front is the same. */
  lemma RecentShift<K>(newer: seq<K>, k: K, keys: seq<K>, capacity: nat)
    requires 1 <= capacity && |keys| <= capacity
    ensures (newer + ([k] + keys)[..Min(capacity, 1 + |keys|)])[..Min(capacity, |newer| + Min(capacity, 1 + |keys|))]
      == (newer + ([k] + keys))[..Min(capacity, |newer| + 1 + |keys|)]
  {
    var a := newer + ([k] + keys)[..Min(capacity, 1 + |keys|)];
    var b := newer + ([k] + keys);
    var m := Min(capacity, |newer| + 1 + |keys|);
    assert Min(capacity, |newer| + Min(capacity, 1 + |keys|)) == m;
    forall j | 0 <= j < m ensures a[j] == b[j] {
      if j >= |newer| { assert a[j] == ([k] + keys)[j - |newer|]; }
    }
  }

  /**
   * As written, inserting distinct absent keys into a cache whose capacity is
   * not 1 keeps the list well formed and its keys in the recency order.
   */
  lemma {:induction false} InsertAllFreshLinked<K, V>(s: Lru<K, V>, order: seq<nat>, ps: seq<(K, V)>) returns (o: seq<nat>)
    requires Wf(s) && Linked(s, order) && s.capacity != 1 && Distinct(KeysIn(ps))
    requires forall j :: 0 <= j < |ps| ==> ps[j].0 !in s.table
    ensures Linked(InsertAllOf(s, ps), o)
    ensures KeysOf(InsertAllOf(s, ps), o) == RecentInsertAll(KeysOf(s, order), s.capacity, KeysIn(ps))
    decreases |ps|
  {
    if ps == [] {
      o := order;
    } else {
      var t := InsertOf(s, ps[0].0, ps[0].1).0;
      InsertFreshLinked(s, order, ps[0].0, ps[0].1);
      assert KeysIn(ps)[1..] == KeysIn(ps[1..]);
      forall j | 0 <= j < |ps[1..]| ensures ps[1..][j].0 !in t.table {
        assert KeysIn(ps)[0] != KeysIn(ps)[j + 1];
      }
      o := InsertAllFreshLinked(t, FreshOrder(s, order), ps[1..]);
    }
  }

  /**
   * The doc comments' promise for insert-only use, as written: inserting
   * distinct keys into an empty cache of capacity 2 or more keeps exactly the
   * last `capacity` of them (all of them while fewer), so the size never
   * exceeds the capacity and the oldest key is always the one evicted.
   */
  lemma FreshInsertsKeepRecent<K, V>(capacity: nat, ps: seq<(K, V)>) returns (o: seq<nat>)
    requires capacity >= 2 && Distinct(KeysIn(ps))
    ensures var r := InsertAllOf(Empty(capacity), ps);
      Linked(r, o) && KeysOf(r, o) == Reversed(KeysIn(ps))[..Min(capacity, |ps|)]
      && |r.table| == Min(capacity, |ps|)
      && forall k :: k in r.table <==> k in Reversed(KeysIn(ps))[..Min(capacity, |ps|)]
  {
    var s := Empty<K, V>(capacity);
    EmptyLinked<K, V>(capacity);
    var r := InsertAllOf(s, ps);
    o := InsertAllFreshLinked(s, [], ps);
    RecentFreshAll([], capacity, KeysIn(ps));
    assert KeysOf(s, []) == [] && Reversed(KeysIn(ps)) + [] == Reversed(KeysIn(ps));
    LinkedKeys(r, o);
  }

  /*
   * The cache, updated in place
   */

  class LruCache<K(==), V> {
    var table: map<K, nat>
    var entries: seq<Entry<K, V>>
    var first: Option<nat>
    var last: Option<nat>
    const capacity: nat

    function State(): Lru<K, V>
      reads this
    {
      Lru(table, entries, first, last, capacity)
    }

    /** `with_capacity`. */
    constructor(size: nat)
      ensures State() == Empty(size)
    {
      table := map[];
      entries := [];
      first := None;
      last := None;
      capacity := size;
    }

    /** `len`: the number of keys in the table. */
    method Len() returns (n: nat)
      ensures n == |table|
    {
      n := |table|;
    }

    /** `contains_key`. */
    method ContainsKey(key: K) returns (b: bool)
      ensures b <==> key in table
    {
      b := key in table;
    }

    /** `peek`: looks the key up without touching any field. */
    method Peek(key: K) returns (v: Option<V>)
      requires Wf(State())
      ensures v == PeekOf(State(), key)
    {
      if key in table {
        v := entries[table[key]].value;
      } else {
        v := None;
      }
    }

    method RemoveFromList(i: nat)
      requires Wf(State()) && i < |entries|
      modifies this
      ensures State() == RemoveFromListOf(old(State()), i)
    {
      var prev, next := entries[i].prev, entries[i].next;
      match (prev, next) {
        case (Some(j), Some(k)) =>
          entries := entries[j := entries[j].(next := next)];
          entries := entries[k := entries[k].(prev := prev)];
        case (Some(j), None) =>
          entries := entries[j := entries[j].(next := None)];
          last := prev;
        case _ =>
      }
    }

    method Access(key: K)
      requires Wf(State()) && key in table
      modifies this
      ensures State() == AccessOf(old(State()), key)
    {
      var i := table[key];
      RemoveFromList(i);
      first := Some(i);
    }

    method RemoveLast()
      requires Wf(State())
      modifies this
      ensures State() == RemoveLastOf(old(State()))
    {
      if last.Some? {
        var idx := last.value;
        RemoveFromList(idx);
        var key := entries[idx].key;
        table := table - {key};
      }
      if last.None? {
        first := None;
      }
    }

    method EnsureRoom()
      requires Wf(State())
      modifies this
      ensures State() == EnsureRoomOf(old(State()))
    {
      if capacity == |table| {
        RemoveLast();
      }
    }

    method Insert(key: K, value: V) returns (previous: Option<V>)
      requires Wf(State())
      modifies this
      ensures (State(), previous) == InsertOf(old(State()), key, value)
    {
      if key in table {
        Access(key);
        var i := first.value;
        previous := entries[i].value;
        entries := entries[i := entries[i].(value := Some(value))];
      } else {
        EnsureRoom();
        var idx := |entries|;
        if first.Some? {
          var e := first.value;
          entries := entries[e := entries[e].(prev := Some(idx))];
        }
        entries := entries + [Entry(key, Some(value), first, None)];
        first := Some(idx);
        last := if last.Some? then last else first;
        table := table[key := idx];
        previous := None;
      }
    }

    method Get(key: K) returns (v: Option<V>)
      requires Wf(State())
      modifies this
      ensures (State(), v) == GetOf(old(State()), key)
    {
      if key in table {
        Access(key);
      }
      v := Peek(key);
    }
  }
}
