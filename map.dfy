/**
 * The map output: a scope whose metrics store every written value under the
 * metric's prefixed name joined by ".", the last value written winning.
 * Flushing it only notifies the flush listeners of its attributes.
 */
module MapOutput {
  import opened Machine
  import opened Kinds
  import opened Name
  import opened Attributes
  import opened Orderings

  /** The write handle of a metric of the map: the key it stores under. */
  datatype MapMetric = MapMetric(key: string)

  /** The key of a metric: the name with the scope's naming inserted before the leaf, joined by ".". */
  function MapKey(a: Attributes, name: NameParts): (r: string)
    requires |name| > 0
    ensures |Leaf(name)| <= |r| && r[|r| - |Leaf(name)|..] == Leaf(name)
  {
    var p := PrefixAppend(a, name);
    JoinEnds(p, ".");
    Join(p, ".")
  }

  /*
   * Writes and the notification of the flush listeners
   */

  /** The contents after the writes, in order: each write replaces the value under its key. */
  function WriteAll(contents: map<string, ISize>, writes: seq<(string, ISize)>): (r: map<string, ISize>)
    ensures forall k :: k in r <==> k in contents || exists i :: 0 <= i < |writes| && writes[i].0 == k
    ensures |writes| > 0 ==> r[writes[|writes| - 1].0] == writes[|writes| - 1].1
  {
    if |writes| == 0 then contents
    else
      var last := writes[|writes| - 1];
      WriteAll(contents, writes[..|writes| - 1])[last.0 := last.1]
  }

  /** A key no write names keeps its contents, present or absent. */
  lemma {:induction false} WriteAllKeepsOthers(contents: map<string, ISize>, writes: seq<(string, ISize)>, k: string)
    requires forall i :: 0 <= i < |writes| ==> writes[i].0 != k
    ensures k in WriteAll(contents, writes) <==> k in contents
    ensures k in contents ==> WriteAll(contents, writes)[k] == contents[k]
  {
    if |writes| > 0 {
      WriteAllKeepsOthers(contents, writes[..|writes| - 1], k);
    }
  }

  /** A written key whose writes all carry the same value holds that value, whatever the order of the writes. */
  lemma {:induction false} WriteAllConsistent(contents: map<string, ISize>, writes: seq<(string, ISize)>, w: (string, ISize))
    requires w in writes
    requires forall x :: x in writes && x.0 == w.0 ==> x.1 == w.1
    ensures w.0 in WriteAll(contents, writes) && WriteAll(contents, writes)[w.0] == w.1
  {
    var front := writes[..|writes| - 1];
    var last := writes[|writes| - 1];
    if last.0 != w.0 {
      assert w in front by {
        var i :| 0 <= i < |writes| && writes[i] == w;
        assert i < |writes| - 1 && front[i] == w;
      }
      forall x | x in front && x.0 == w.0 ensures x.1 == w.1 {
        var i :| 0 <= i < |front| && front[i] == x;
        assert writes[i] == x;
      }
      WriteAllConsistent(contents, front, w);
    }
  }

  /** The writes of the listeners under `keys`, called in that order. */
  function ListenerWrites(listeners: map<string, Listener>, keys: seq<string>): (r: seq<(string, ISize)>)
    requires forall i :: 0 <= i < |keys| ==> keys[i] in listeners
    ensures |r| == |keys|
    ensures forall i :: 0 <= i < |keys| ==> r[i] == (listeners[keys[i]].key, listeners[keys[i]].value)
  {
    seq(|keys|, i requires 0 <= i < |keys| => (listeners[keys[i]].key, listeners[keys[i]].value))
  }

  /**
   * `notify_flush_listeners` into a map: the contents after calling the
   * listeners under `keys`, in that order, each writing its gauge's value.
   */
  function Notified(contents: map<string, ISize>, listeners: map<string, Listener>, keys: seq<string>): (r: map<string, ISize>)
    requires forall i :: 0 <= i < |keys| ==> keys[i] in listeners
    ensures forall k :: k in r <==> k in contents || exists i :: 0 <= i < |keys| && listeners[keys[i]].key == k
  {
    var w := ListenerWrites(listeners, keys);
    assert forall i :: 0 <= i < |keys| ==> w[i].0 == listeners[keys[i]].key;
    WriteAll(contents, w)
  }

  /** Listeners writing to distinct keys. */
  predicate DistinctOutputs(listeners: map<string, Listener>)
  {
    forall a, b :: a in listeners && b in listeners && a != b ==> listeners[a].key != listeners[b].key
  }

  /** With listeners writing to distinct keys, every listener's value is in place after a flush, whatever the order of the calls. */
  lemma NotifiedAnyOrder(contents: map<string, ISize>, listeners: map<string, Listener>, keys: seq<string>, id: string)
    requires Enumerates(keys, listeners.Keys) && DistinctOutputs(listeners)
    requires id in listeners
    ensures listeners[id].key in Notified(contents, listeners, keys)
    ensures Notified(contents, listeners, keys)[listeners[id].key] == listeners[id].value
  {
    var writes := ListenerWrites(listeners, keys);
    var l := listeners[id];
    EnumerationCovers(keys, listeners.Keys, id);
    var i :| 0 <= i < |keys| && keys[i] == id;
    assert writes[i] == (l.key, l.value);
    forall x | x in writes && x.0 == l.key ensures x.1 == l.value {
      var j :| 0 <= j < |writes| && writes[j] == x;
      assert listeners[keys[j]].key == l.key;
    }
    WriteAllConsistent(contents, writes, (l.key, l.value));
  }

  /** A key no listener writes keeps its contents through a flush. */
  lemma NotifiedKeepsOthers(contents: map<string, ISize>, listeners: map<string, Listener>, keys: seq<string>, k: string)
    requires forall i :: 0 <= i < |keys| ==> keys[i] in listeners
    requires forall id :: id in listeners ==> listeners[id].key != k
    ensures k in Notified(contents, listeners, keys) <==> k in contents
    ensures k in contents ==> Notified(contents, listeners, keys)[k] == contents[k]
  {
    WriteAllKeepsOthers(contents, ListenerWrites(listeners, keys), k);
  }

  /*
   * The scope
   */

  class StatsMapScope {
    const attributes: Attributes
    var contents: map<string, ISize>
    /** The number of flushes so far. */
    ghost var flushCount: nat

    /** `StatsMap::metrics()`: a scope with the given attributes and an empty map. */
    constructor(attributes: Attributes)
      ensures this.attributes == attributes && contents == map[] && flushCount == 0
    {
      this.attributes := attributes;
      contents := map[];
      flushCount := 0;
    }

    /**
     * `new_metric`, identical in the input and output scope implementations:
     * the kind is ignored and the handle writes under the prefixed, joined name.
     */
    method NewMetric(name: NameParts, kind: InputKind) returns (m: MapMetric)
      requires |name| > 0
      ensures m.key == MapKey(attributes, name)
    {
      var prefixed := Append(name, attributes.naming);
      m := MapMetric(Join(prefixed, "."));
    }

    /** A write through a metric handle: the value replaces any previous one under its key. */
    method Write(m: MapMetric, value: ISize)
      modifies this`contents
      ensures contents == old(contents)[m.key := value] && flushCount == old(flushCount)
    {
      contents := contents[m.key := value];
    }

    /**
     * `flush`: calls every installed flush listener once, in an unspecified
     * order, returned as `keys`. Nothing else is written.
     */
    method Flush() returns (keys: seq<string>)
      modifies this`contents, this`flushCount
      ensures Enumerates(keys, attributes.flushListeners.listeners.Keys)
      ensures contents == Notified(old(contents), attributes.flushListeners.listeners, keys)
      ensures flushCount == old(flushCount) + 1
    {
      flushCount := flushCount + 1;
      var listeners := attributes.flushListeners.listeners;
      var remaining := listeners.Keys;
      keys := [];
      while remaining != {}
        invariant remaining <= listeners.Keys
        invariant |keys| + |remaining| == |listeners.Keys|
        invariant forall i :: 0 <= i < |keys| ==> keys[i] in listeners && keys[i] !in remaining
        invariant forall i, j :: 0 <= i < j < |keys| ==> keys[i] != keys[j]
        invariant contents == Notified(old(contents), listeners, keys)
        invariant flushCount == old(flushCount) + 1
        decreases |remaining|
      {
        var id :| id in remaining;
        var l := listeners[id];
        assert ListenerWrites(listeners, keys + [id]) == ListenerWrites(listeners, keys) + [(l.key, l.value)];
        contents := contents[l.key := l.value];
        keys := keys + [id];
        remaining := remaining - {id};
      }
    }

    /** `into_map` and the `From` conversion: the current contents. */
    method IntoMap() returns (m: map<string, ISize>)
      ensures m == contents
    {
      m := contents;
    }
  }

  /** With no listener installed, a flush changes nothing. */
  lemma NotifiedNone(contents: map<string, ISize>, keys: seq<string>)
    requires Enumerates(keys, {})
    ensures Notified(contents, map[], keys) == contents
  {
  }

  /** One part named in an unnamed scope is stored under that part. */
  lemma MapKeyUnnamed(a: Attributes, leaf: string)
    requires a.naming == []
    ensures MapKey(a, FromString(leaf)) == leaf
  {
    PrefixOnePart(a, leaf);
  }

  /** A leaf in a named scope is stored under the joined naming, ".", then the leaf. */
  lemma MapKeyNamed(a: Attributes, leaf: string)
    requires |a.naming| > 0
    ensures MapKey(a, FromString(leaf)) == Join(a.naming, ".") + "." + leaf
  {
    PrefixOnePart(a, leaf);
    JoinMakeName(a.naming, leaf, ".");
  }

  /**
   * The flush-listener scenario: a gauge "my_gauge" observed with the
   * constant 4 on flush; after one flush the map holds my_gauge = 4.
   */
  method ObserveOnFlushScenario(metricId: string) returns (m: map<string, ISize>)
    ensures "my_gauge" in m && m["my_gauge"] == 4
  {
    var attrs := DefaultAttributes();
    var scope := new StatsMapScope(attrs);
    var gauge := scope.NewMetric(FromString("my_gauge"), Gauge);
    MapKeyUnnamed(attrs, "my_gauge");
    var gen := new IdGenerator();
    var _ := OnFlush(attrs, gen, metricId, gauge.key, 4);
    var keys := scope.Flush();
    NotifiedAnyOrder(map[], attrs.flushListeners.listeners, keys, metricId);
    m := scope.IntoMap();
  }
}
