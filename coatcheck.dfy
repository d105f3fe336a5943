/**
 * The coatcheck: checked values are stored in a vector and each check
 * returns a handle holding the value's index; a value's slot is reused once
 * every copy of its handle is gone and the slot has been put on the free list.
 *
 * A handle is a reference-counted index. An entry records, besides its index
 * and payload, how many handles outside the coatcheck hold it (the reference
 * count minus the coatcheck's own reference), so "free" is "no handle held".
 * The vector's capacity is a field; growing a full vector gives it the larger
 * of twice its capacity and 4, the growth rule of the standard library for
 * elements of this size.
 */
module Coatcheck {
  import opened Wrappers

  /** `CoatcheckEntry`: the index its handles hold, the number of handles held, and the payload. */
  datatype Entry<T> = Entry(index: nat, handles: nat, payload: T)

  /** A handle: the index of its entry. */
  datatype Handle = Handle(index: nat)

  /** The coatcheck's state: the items, the vector's capacity and the free list (front first). */
  datatype Store<T> = Store(items: seq<Entry<T>>, capacity: nat, freeList: seq<nat>)

  /** `CoatcheckEntry::create`: an entry no handle holds yet. */
  function Create<T>(index: nat, payload: T): Entry<T>
  {
    Entry(index, 0, payload)
  }

  /** `Arc::strong_count` of the entry's inner handle: the coatcheck's own reference and every handle held. */
  function StrongCount<T>(e: Entry<T>): (c: nat)
    ensures c >= 1
  {
    e.handles + 1
  }

  /** `is_free`: only the coatcheck refers to the entry, so no handle is held. */
  predicate IsFree<T>(e: Entry<T>): (r: bool)
    ensures r <==> e.handles == 0
  {
    StrongCount(e) == 1
  }

  /** `reload`: a new payload, and a handle cloned for the caller. */
  function ReloadOf<T>(e: Entry<T>, payload: T): (Entry<T>, Handle)
  {
    (e.(payload := payload, handles := e.handles + 1), Handle(e.index))
  }

  /** The capacity after the vector grows. */
  function Grown(capacity: nat): (r: nat)
    ensures r > capacity && r >= 4
  {
    if 2 * capacity < 4 then 4 else 2 * capacity
  }

  /** Every index on the free list addresses an item. */
  ghost predicate InRange<T>(s: Store<T>)
  {
    forall j :: 0 <= j < |s.freeList| ==> s.freeList[j] < |s.items|
  }

  /** Every entry holds its own position, and the vector is within its capacity. */
  ghost predicate WellIndexed<T>(s: Store<T>)
  {
    |s.items| <= s.capacity && forall i :: 0 <= i < |s.items| ==> s.items[i].index == i
  }

  /** The structure is usable: what every operation keeps. */
  ghost predicate Valid<T>(s: Store<T>)
  {
    InRange(s) && WellIndexed(s)
  }

  /** `new_handle`: pushes a created entry, growing a full vector, and hands out its handle. */
  function NewHandleOf<T>(s: Store<T>, payload: T): (r: (Store<T>, Handle))
    ensures r.1.index == |s.items| && r.0.items == s.items + [Entry(|s.items|, 1, payload)] && r.0.freeList == s.freeList
    ensures r.0.capacity >= s.capacity && (|s.items| < s.capacity ==> r.0.capacity == s.capacity)
    ensures |s.items| <= s.capacity ==> |r.0.items| <= r.0.capacity
  {
    var e := Create(|s.items|, payload);
    var capacity := if |s.items| < s.capacity then s.capacity else Grown(s.capacity);
    (Store(s.items + [e.(handles := e.handles + 1)], capacity, s.freeList), Handle(e.index))
  }

  /** `reuse_handle`: reloads the entry at `free`. */
  function ReuseOf<T>(s: Store<T>, free: nat, payload: T): (r: (Store<T>, Handle))
    requires free < |s.items|
    ensures r.1 == Handle(s.items[free].index) && r.0.capacity == s.capacity && r.0.freeList == s.freeList
    ensures |r.0.items| == |s.items| && r.0.items[free] == Entry(s.items[free].index, s.items[free].handles + 1, payload)
    ensures forall i :: 0 <= i < |s.items| && i != free ==> r.0.items[i] == s.items[i]
  {
    var r := ReloadOf(s.items[free], payload);
    (s.(items := s.items[free := r.0]), r.1)
  }

  /** The free list once the scan of `update_free_list` has passed the first `n` items: each free one is pushed at the front. */
  function Scanned<T>(items: seq<Entry<T>>, n: nat, freeList: seq<nat>): seq<nat>
    requires n <= |items|
    decreases n
  {
    if n == 0 then freeList
    else
      var r := Scanned(items, n - 1, freeList);
      if IsFree(items[n - 1]) then [n - 1] + r else r
  }

  /** `update_free_list`. */
  function UpdateFreeListOf<T>(s: Store<T>): (r: Store<T>)
    ensures r.items == s.items && r.capacity == s.capacity
    ensures forall x: nat :: x in r.freeList <==> x in s.freeList || (x < |s.items| && IsFree(s.items[x]))
  {
    ScannedAll(s.items, |s.items|, s.freeList);
    s.(freeList := Scanned(s.items, |s.items|, s.freeList))
  }

  /** Reuses the entry at the back of a non-empty free list. */
  function ReuseLastOf<T>(s: Store<T>, payload: T): (Store<T>, Handle)
    requires InRange(s) && s.freeList != []
  {
    var free := s.freeList[|s.freeList| - 1];
    ReuseOf(s.(freeList := s.freeList[..|s.freeList| - 1]), free, payload)
  }

  /**
   * `check`: reuses the back of the free list; else appends while the vector
   * has room; else scans for free entries and reuses one; else appends, growing.
   */
  function CheckOf<T>(s: Store<T>, payload: T): (r: (Store<T>, Handle))
    requires InRange(s)
    ensures |r.0.items| == |s.items| || r.0.items == s.items + [Entry(|s.items|, 1, payload)]
    ensures r.0.capacity >= s.capacity
  {
    if s.freeList != [] then ReuseLastOf(s, payload)
    else if |s.items| < s.capacity then NewHandleOf(s, payload)
    else
      var u := UpdateFreeListOf(s);
      ScannedInRange(s.items, |s.items|, s.freeList);
      if u.freeList != [] then ReuseLastOf(u, payload) else NewHandleOf(u, payload)
  }

  /**
   * A handle the caller passes in is one of the copies an entry counts. The
   * source hands out handles only through `check` and cloning, so the entry a
   * handle addresses, when there is one, counts it.
   */
  ghost predicate Holds<T>(s: Store<T>, h: Handle)
  {
    h.index < |s.items| ==> s.items[h.index].handles > 0
  }

  /**
   * `claim`: the payload at the handle's index (None where the source panics
   * on an index out of range). The handle is passed by value, so this copy is
   * dropped once the call returns.
   */
  function ClaimOf<T>(s: Store<T>, h: Handle): (r: (Option<T>, Store<T>))
    requires Holds(s, h)
    ensures r.0.Some? <==> h.index < |s.items|
    ensures r.0.Some? ==> r.0.value == s.items[h.index].payload
    ensures r.1.capacity == s.capacity && r.1.freeList == s.freeList && |r.1.items| == |s.items|
  {
    if h.index < |s.items| then (Some(s.items[h.index].payload), DropHandleOf(s, h)) else (None, s)
  }

  /**
   * `claim_mut`, through which the caller stores `payload`; the handle passed
   * by value is dropped. Nothing changes when the source panics.
   */
  function ClaimMutOf<T>(s: Store<T>, h: Handle, payload: T): (r: Store<T>)
    requires Holds(s, h)
    ensures r.capacity == s.capacity && r.freeList == s.freeList && |r.items| == |s.items|
    ensures h.index < |s.items| ==> r.items[h.index].payload == payload
  {
    if h.index < |s.items| then
      var e := s.items[h.index];
      s.(items := s.items[h.index := e.(payload := payload, handles := e.handles - 1)])
    else s
  }

  /** A copy of a held handle is made. */
  function CloneHandleOf<T>(s: Store<T>, h: Handle): Store<T>
    requires h.index < |s.items|
  {
    s.(items := s.items[h.index := s.items[h.index].(handles := s.items[h.index].handles + 1)])
  }

  /** A copy of a held handle is dropped. */
  function DropHandleOf<T>(s: Store<T>, h: Handle): Store<T>
    requires h.index < |s.items| && s.items[h.index].handles > 0
  {
    s.(items := s.items[h.index := s.items[h.index].(handles := s.items[h.index].handles - 1)])
  }

  /*
   * The scan
   */

  /** The scan adds exactly the free items to what was listed. */
  lemma {:induction false} ScannedMembers<T>(items: seq<Entry<T>>, n: nat, freeList: seq<nat>, x: nat)
    requires n <= |items|
    ensures x in Scanned(items, n, freeList) <==> x in freeList || (x < n && IsFree(items[x]))
    decreases n
  {
    if n > 0 {
      ScannedMembers(items, n - 1, freeList, x);
    }
  }

  /** ScannedMembers for every index at once. */
  lemma ScannedAll<T>(items: seq<Entry<T>>, n: nat, freeList: seq<nat>)
    requires n <= |items|
    ensures forall x: nat :: x in Scanned(items, n, freeList) <==> x in freeList || (x < n && IsFree(items[x]))
  {
    forall x: nat {
      ScannedMembers(items, n, freeList, x);
    }
  }

  /** The scan only lists indices of items. */
  lemma {:induction false} ScannedInRange<T>(items: seq<Entry<T>>, n: nat, freeList: seq<nat>)
    requires n <= |items| && forall j :: 0 <= j < |freeList| ==> freeList[j] < |items|
    ensures forall j :: 0 <= j < |Scanned(items, n, freeList)| ==> Scanned(items, n, freeList)[j] < |items|
    decreases n
  {
    if n > 0 {
      ScannedInRange(items, n - 1, freeList);
    }
  }

  /** The scan keeps what was listed at the back and pushes the free indices in front, highest first. */
  lemma {:induction false} ScannedShape<T>(items: seq<Entry<T>>, n: nat, freeList: seq<nat>)
    requires n <= |items|
    ensures var r := Scanned(items, n, freeList);
      |r| >= |freeList| && r[|r| - |freeList|..] == freeList &&
      (forall j :: 0 <= j < |r| - |freeList| ==> r[j] < n && IsFree(items[r[j]])) &&
      (forall j, k :: 0 <= j < k < |r| - |freeList| ==> r[j] > r[k])
    decreases n
  {
    if n > 0 {
      ScannedShape(items, n - 1, freeList);
      var r := Scanned(items, n - 1, freeList);
      if IsFree(items[n - 1]) {
        assert ([n - 1] + r)[|[n - 1] + r| - |freeList|..] == r[|r| - |freeList|..];
      }
    }
  }

  /** A scan from an empty free list ends with the lowest free index: the one `check` reuses. */
  lemma ScannedLowest<T>(items: seq<Entry<T>>)
    requires Scanned(items, |items|, []) != []
    ensures var r := Scanned(items, |items|, []);
      r[|r| - 1] < |items| && IsFree(items[r[|r| - 1]]) &&
      forall i :: 0 <= i < r[|r| - 1] ==> !IsFree(items[i])
  {
    var r := Scanned(items, |items|, []);
    ScannedShape(items, |items|, []);
    var low := r[|r| - 1];
    forall i | 0 <= i < low ensures !IsFree(items[i]) {
      ScannedMembers(items, |items|, [], i);
    }
  }

  /*
   * Check
   */

  /** Every step of `check` keeps the store usable. */
  lemma CheckValid<T>(s: Store<T>, payload: T)
    requires Valid(s)
    ensures Valid(CheckOf(s, payload).0)
  {
    if s.freeList == [] && |s.items| >= s.capacity {
      ScannedInRange(s.items, |s.items|, s.freeList);
    }
  }

  /** `claim(check(p)) == p`: the handle `check` returns addresses the payload it stored. */
  lemma ClaimAfterCheck<T>(s: Store<T>, payload: T)
    requires Valid(s)
    ensures var (r, h) := CheckOf(s, payload);
      Holds(r, h) && ClaimOf(r, h).0 == Some(payload)
  {
    CheckValid(s, payload);
    if s.freeList == [] && |s.items| >= s.capacity {
      ScannedInRange(s.items, |s.items|, s.freeList);
    }
  }

  /** `check` never shrinks the items: it adds one exactly when it reuses nothing. */
  lemma CheckLength<T>(s: Store<T>, payload: T)
    requires Valid(s)
    ensures var r := CheckOf(s, payload).0;
      |r.items| == |s.items| || |r.items| == |s.items| + 1
    ensures CheckOf(s, payload).1.index == |s.items| <==> |CheckOf(s, payload).0.items| == |s.items| + 1
  {
    if s.freeList == [] && |s.items| >= s.capacity {
      ScannedInRange(s.items, |s.items|, s.freeList);
    }
  }

  /**
   * The order in which `check` finds a slot: the back of the free list; else
   * a new item while the vector has room; else the lowest free item; else a
   * new item in a grown vector.
   */
  lemma CheckStrategy<T>(s: Store<T>, payload: T)
    requires Valid(s)
    ensures var (r, h) := CheckOf(s, payload);
      (s.freeList != [] ==>
        h.index == s.freeList[|s.freeList| - 1] && r.freeList == s.freeList[..|s.freeList| - 1] && |r.items| == |s.items|) &&
      (s.freeList == [] && |s.items| < s.capacity ==>
        h.index == |s.items| && r.capacity == s.capacity && r.freeList == []) &&
      (s.freeList == [] && |s.items| == s.capacity && (exists i :: 0 <= i < |s.items| && IsFree(s.items[i])) ==>
        h.index < |s.items| && IsFree(s.items[h.index]) && (forall i :: 0 <= i < h.index ==> !IsFree(s.items[i])) &&
        |r.items| == |s.items|) &&
      (s.freeList == [] && |s.items| == s.capacity && (forall i :: 0 <= i < |s.items| ==> !IsFree(s.items[i])) ==>
        h.index == |s.items| && r.capacity == Grown(s.capacity) && r.freeList == [])
  {
    if s.freeList == [] && |s.items| == s.capacity {
      var sc := Scanned(s.items, |s.items|, []);
      ScannedInRange(s.items, |s.items|, []);
      if exists i :: 0 <= i < |s.items| && IsFree(s.items[i]) {
        var i :| 0 <= i < |s.items| && IsFree(s.items[i]);
        ScannedMembers(s.items, |s.items|, [], i);
        ScannedLowest(s.items);
      } else if sc != [] {
        ScannedMembers(s.items, |s.items|, [], sc[0]);
      }
    }
  }

  /*
   * Held values are never replaced
   */

  /** Distinct values. */
  ghost predicate Distinct(xs: seq<nat>)
  {
    forall j, k :: 0 <= j < k < |xs| ==> xs[j] != xs[k]
  }

  /** The free list names only free entries, each once: then a reused entry is never a held one. */
  ghost predicate Sound<T>(s: Store<T>)
  {
    Valid(s) && Distinct(s.freeList) && forall j :: 0 <= j < |s.freeList| ==> IsFree(s.items[s.freeList[j]])
  }

  /**
   * On a sound store, `check` keeps it sound, gives the new handle the entry
   * to itself, and leaves every held entry as it was: a checked value is only
   * replaced once all its handles are dropped.
   */
  lemma CheckKeepsHeld<T>(s: Store<T>, payload: T)
    requires Sound(s)
    ensures var (r, h) := CheckOf(s, payload);
      Sound(r) && h.index < |r.items| && r.items[h.index].handles == 1 && |r.items| >= |s.items| &&
      forall i :: 0 <= i < |s.items| && s.items[i].handles > 0 ==> r.items[i] == s.items[i]
  {
    CheckValid(s, payload);
    if s.freeList != [] {
      SoundPop(s);
    } else if |s.items| >= s.capacity {
      var u := UpdateFreeListOf(s);
      ScannedSound(s.items, |s.items|);
      if u.freeList != [] {
        SoundPop(u);
      }
    }
  }

  /** Popping the back of a sound free list and reloading that entry keeps the store sound. */
  lemma SoundPop<T>(s: Store<T>)
    requires Sound(s) && s.freeList != []
    ensures forall payload: T ::
      var (r, h) := ReuseLastOf(s, payload);
      Sound(r) && r.items[h.index].handles == 1
  {
    var n := |s.freeList|;
    var free := s.freeList[n - 1];
    forall j | 0 <= j < n - 1 ensures s.freeList[j] != free { }
  }

  /** A scan from an empty free list lists each free entry once. */
  lemma ScannedSound<T>(items: seq<Entry<T>>, n: nat)
    requires n <= |items|
    ensures Distinct(Scanned(items, n, [])) &&
      forall j :: 0 <= j < |Scanned(items, n, [])| ==> Scanned(items, n, [])[j] < n && IsFree(items[Scanned(items, n, [])[j]])
  {
    ScannedShape(items, n, []);
  }

  /** Dropping a copy of a held handle keeps the store sound; the entry is free once no copy is left. */
  lemma DropKeepsSound<T>(s: Store<T>, h: Handle)
    requires Sound(s) && h.index < |s.items| && s.items[h.index].handles > 0
    ensures Sound(DropHandleOf(s, h))
    ensures IsFree(DropHandleOf(s, h).items[h.index]) <==> s.items[h.index].handles == 1
  {
    var i := h.index;
    forall j | 0 <= j < |s.freeList| ensures s.freeList[j] != i { }
  }

  /**
   * Claiming through a clone of a held handle, and storing through a clone,
   * keep the store sound and leave the entry's count as it was; the next
   * claim through a clone sees the stored payload.
   */
  lemma CloneAndClaimKeepSound<T>(s: Store<T>, h: Handle, payload: T)
    requires Sound(s) && h.index < |s.items| && s.items[h.index].handles > 0
    ensures Sound(CloneHandleOf(s, h))
    ensures ClaimOf(CloneHandleOf(s, h), h) == (Some(s.items[h.index].payload), s)
    ensures var r := ClaimMutOf(CloneHandleOf(s, h), h, payload);
      Sound(r) && r.items[h.index].handles == s.items[h.index].handles &&
      (forall i :: 0 <= i < |s.items| && i != h.index ==> r.items[i] == s.items[i]) &&
      ClaimOf(CloneHandleOf(r, h), h).0 == Some(payload)
  {
    var i := h.index;
    forall j | 0 <= j < |s.freeList| ensures s.freeList[j] != i { }
    var c := CloneHandleOf(s, h);
    assert c.items[i := c.items[i].(handles := c.items[i].handles - 1)] == s.items;
  }

  /**
   * Claiming with the caller's last copy of a handle frees its entry: the
   * store stays sound and the entry is free exactly when no other copy is held.
   */
  lemma ClaimDropsHandle<T>(s: Store<T>, h: Handle, payload: T)
    requires Sound(s) && h.index < |s.items| && s.items[h.index].handles > 0
    ensures Sound(ClaimOf(s, h).1) && Sound(ClaimMutOf(s, h, payload))
    ensures IsFree(ClaimOf(s, h).1.items[h.index]) <==> s.items[h.index].handles == 1
    ensures IsFree(ClaimMutOf(s, h, payload).items[h.index]) <==> s.items[h.index].handles == 1
  {
    var i := h.index;
    forall j | 0 <= j < |s.freeList| ensures s.freeList[j] != i { }
  }

  /*
   * The free list scan, as written and deduplicated
   */

  /** As written, a scan keeps a sound store sound when none of the free entries is listed yet. */
  lemma UpdateKeepsSound<T>(s: Store<T>)
    requires Sound(s)
    requires forall j :: 0 <= j < |s.freeList| ==> s.freeList[j] !in Scanned(s.items, |s.items|, [])
    ensures Sound(UpdateFreeListOf(s))
  {
    var r := Scanned(s.items, |s.items|, s.freeList);
    ScannedShape(s.items, |s.items|, s.freeList);
    ScannedInRange(s.items, |s.items|, s.freeList);
    var m := |r| - |s.freeList|;
    forall j, k | 0 <= j < k < |r| ensures r[j] != r[k] {
      if j < m && m <= k {
        assert r[k] == s.freeList[k - m];
        ScannedMembers(s.items, |s.items|, [], r[j]);
      }
    }
  }

  /** The scan that pushes a free index only when it is not listed yet. */
  function DedupScanned<T>(items: seq<Entry<T>>, n: nat, freeList: seq<nat>): seq<nat>
    requires n <= |items|
    decreases n
  {
    if n == 0 then freeList
    else
      var r := DedupScanned(items, n - 1, freeList);
      if IsFree(items[n - 1]) && (n - 1) !in r then [n - 1] + r else r
  }

  /** `update_free_list` with the deduplicating scan. */
  function DedupUpdateFreeListOf<T>(s: Store<T>): Store<T>
  {
    s.(freeList := DedupScanned(s.items, |s.items|, s.freeList))
  }

  /** The deduplicating scan lists the same entries as the source's. */
  lemma {:induction false} DedupMembers<T>(items: seq<Entry<T>>, n: nat, freeList: seq<nat>, x: nat)
    requires n <= |items|
    ensures x in DedupScanned(items, n, freeList) <==> x in Scanned(items, n, freeList)
    decreases n
  {
    if n > 0 {
      DedupMembers(items, n - 1, freeList, x);
      ScannedMembers(items, n - 1, freeList, x);
      ScannedMembers(items, n, freeList, x);
    }
  }

  /** The deduplicating scan keeps every sound store sound, however often it runs. */
  lemma {:induction false} DedupKeepsSound<T>(items: seq<Entry<T>>, n: nat, freeList: seq<nat>)
    requires n <= |items| && Distinct(freeList)
    requires forall j :: 0 <= j < |freeList| ==> freeList[j] < |items| && IsFree(items[freeList[j]])
    ensures var r := DedupScanned(items, n, freeList);
      Distinct(r) && forall j :: 0 <= j < |r| ==> r[j] < |items| && IsFree(items[r[j]])
    decreases n
  {
    if n > 0 {
      DedupKeepsSound(items, n - 1, freeList);
      var r := DedupScanned(items, n - 1, freeList);
      if IsFree(items[n - 1]) && (n - 1) !in r {
        var r2 := [n - 1] + r;
        forall j, k | 0 <= j < k < |r2| ensures r2[j] != r2[k] {
          if j == 0 { assert r2[k] == r[k - 1]; }
        }
      }
    }
  }

  /** With the deduplicating scan, `update_free_list` keeps the store sound. */
  lemma DedupUpdateSound<T>(s: Store<T>)
    requires Sound(s)
    ensures Sound(DedupUpdateFreeListOf(s))
    ensures forall x: nat :: x in DedupUpdateFreeListOf(s).freeList <==> x in UpdateFreeListOf(s).freeList
  {
    DedupKeepsSound(s.items, |s.items|, s.freeList);
    forall x: nat ensures x in DedupUpdateFreeListOf(s).freeList <==> x in UpdateFreeListOf(s).freeList {
      DedupMembers(s.items, |s.items|, s.freeList, x);
    }
  }

  /** Distinct indices below `n` are at most `n` in number. */
  lemma {:induction false} DistinctBounded(xs: seq<nat>, n: nat)
    requires Distinct(xs) && forall j :: 0 <= j < |xs| ==> xs[j] < n
    ensures |xs| <= n
    decreases n
  {
    if n > 0 {
      // Remove n - 1, if it is there, and bound what is left by n - 1.
      if exists j :: 0 <= j < |xs| && xs[j] == n - 1 {
        var j :| 0 <= j < |xs| && xs[j] == n - 1;
        var ys := xs[..j] + xs[j + 1..];
        assert forall k :: 0 <= k < |ys| ==> ys[k] == (if k < j then xs[k] else xs[k + 1]);
        DistinctBounded(ys, n - 1);
      } else {
        DistinctBounded(xs, n - 1);
      }
    }
  }

  /** A sound free list is no longer than the items. */
  lemma FreeListBounded<T>(s: Store<T>)
    ensures Sound(s) ==> |s.freeList| <= |s.items|
  {
    if Sound(s) {
      DistinctBounded(s.freeList, |s.items|);
    }
  }

  /*
   * The coatcheck object
   */

  /** `Coatcheck`: the items vector with its capacity, and the free list. */
  class Coatcheck<T> {
    var items: seq<Entry<T>>
    var capacity: nat
    var freeList: seq<nat>

    function State(): Store<T>
      reads this
    {
      Store(items, capacity, freeList)
    }

    /** `Coatcheck::new`: no items, no capacity, an empty free list. */
    constructor New()
      ensures State() == Store([], 0, []) && Sound(State())
    {
      items, capacity, freeList := [], 0, [];
    }

    /** `Coatcheck::with_capacity`. */
    constructor WithCapacity(size: nat)
      ensures State() == Store([], size, []) && Sound(State())
    {
      items, capacity, freeList := [], size, [];
    }

    /** `len`: the number of items, which a usable coatcheck keeps within the vector's capacity. */
    function Len(): (n: nat)
      reads this
      ensures Valid(State()) ==> n <= capacity
    {
      |items|
    }

    /** `free_len`: on a sound coatcheck the free list never outgrows the items. */
    function FreeLen(): (n: nat)
      reads this
      ensures Sound(State()) ==> n <= |items|
    {
      FreeListBounded(State());
      |freeList|
    }

    /** `check`. */
    method Check(payload: T) returns (h: Handle)
      requires Valid(State())
      modifies this
      ensures State() == CheckOf(old(State()), payload).0 && h == CheckOf(old(State()), payload).1
    {
      if freeList != [] {
        var free := freeList[|freeList| - 1];
        freeList := freeList[..|freeList| - 1];
        h := ReuseHandle(free, payload);
      } else if |items| < capacity {
        h := NewHandle(payload);
      } else {
        UpdateFreeList();
        ScannedInRange(old(items), |old(items)|, old(freeList));
        if freeList != [] {
          var free := freeList[|freeList| - 1];
          freeList := freeList[..|freeList| - 1];
          h := ReuseHandle(free, payload);
        } else {
          h := NewHandle(payload);
        }
      }
    }

    /** `reuse_handle`: the source panics when `free` is out of range, which a valid free list rules out. */
    method ReuseHandle(free: nat, payload: T) returns (h: Handle)
      requires free < |items|
      modifies this`items
      ensures State() == ReuseOf(old(State()), free, payload).0 && h == ReuseOf(old(State()), free, payload).1
    {
      var e := items[free];
      items := items[free := e.(payload := payload, handles := e.handles + 1)];
      h := Handle(e.index);
    }

    /** `new_handle`. */
    method NewHandle(payload: T) returns (h: Handle)
      modifies this`items, this`capacity
      ensures State() == NewHandleOf(old(State()), payload).0 && h == NewHandleOf(old(State()), payload).1
    {
      if |items| >= capacity {
        capacity := Grown(capacity);
      }
      var e := Create(|items|, payload);
      items := items + [e.(handles := 1)];
      h := Handle(e.index);
    }

    /** `update_free_list`: walks the items and pushes each free index at the front. */
    method UpdateFreeList()
      modifies this`freeList
      ensures State() == UpdateFreeListOf(old(State()))
    {
      var i := 0;
      while i < |items|
        invariant 0 <= i <= |items| && freeList == Scanned(items, i, old(freeList))
      {
        if items[i].handles == 0 {
          freeList := [i] + freeList;
        }
        i := i + 1;
      }
    }

    /** `claim`: the handle passed by value is dropped, so the entry's count falls. */
    method Claim(h: Handle) returns (r: Option<T>)
      requires Holds(State(), h)
      modifies this`items
      ensures (r, State()) == ClaimOf(old(State()), h)
    {
      if h.index < |items| {
        var e := items[h.index];
        r := Some(e.payload);
        items := items[h.index := e.(handles := e.handles - 1)];
      } else {
        r := None;
      }
    }

    /** `claim_mut`, storing `payload` through the reference; `ok` is false where the source panics. */
    method ClaimMut(h: Handle, payload: T) returns (ok: bool)
      requires Holds(State(), h)
      modifies this`items
      ensures State() == ClaimMutOf(old(State()), h, payload) && (ok <==> h.index < |old(items)|)
    {
      ok := h.index < |items|;
      if ok {
        var e := items[h.index];
        items := items[h.index := e.(payload := payload, handles := e.handles - 1)];
      }
    }
  }
}
