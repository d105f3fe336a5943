/**
 * Attributes shared by metric components: a naming (the namespace prefix),
 * sampling and buffering settings, the registry of flush listeners and the
 * list of recurring tasks. Cloning a component clones its attributes: the
 * naming and settings are copied, the listener registry and the list of scheduled tasks
 * are shared.
 */
module Attributes {
  import opened Machine
  import opened Name

  datatype Sampling = Full | Random(rate: real)

  datatype Buffering = Unbuffered | BufferSize(size: nat) | Unlimited

  /** `MetricId::forge`: the output type, a colon, then the name's parts joined by "/". */
  function Forge(outType: string, name: NameParts): (id: string)
    ensures |id| > |outType| && id[..|outType|] == outType && id[|outType|] == ':'
    ensures id[|outType| + 1..] == Join(name, "/")
  {
    outType + ":" + Join(name, "/")
  }

  predicate NoColon(s: string)
  {
    forall i :: 0 <= i < |s| ==> s[i] != ':'
  }

  /** Ids forged for different output types (written without a colon) never collide. */
  lemma ForgeSeparatesOutputs(t1: string, t2: string, a: NameParts, b: NameParts)
    requires NoColon(t1) && NoColon(t2) && t1 != t2
    ensures Forge(t1, a) != Forge(t2, b)
  {
    var x, y := Forge(t1, a), Forge(t2, b);
    if |t1| < |t2| {
      assert x[|t1|] == ':' && y[|t1|] == t2[|t1|];
    } else if |t2| < |t1| {
      assert y[|t2|] == ':' && x[|t2|] == t1[|t2|];
    } else {
      assert x[..|t1|] == t1 && y[..|t2|] == t2;
    }
  }

  /** Ids forged for one output type differ exactly when the joined names differ. */
  lemma ForgeSameOutput(t: string, a: NameParts, b: NameParts)
    ensures Forge(t, a) == Forge(t, b) <==> Join(a, "/") == Join(b, "/")
  {
    if Forge(t, a) == Forge(t, b) {
      assert Forge(t, a)[|t| + 1..] == Forge(t, b)[|t| + 1..];
    }
  }

  /**
   * A flush listener. Its function writes the value of an observed gauge; the
   * gauge is the metric under `key` in the component's output, and the value
   * is what the observed operation returns at that flush, taken as a constant.
   */
  datatype Listener = Listener(listenerId: nat, key: string, value: ISize)

  /** The flush listeners of a component and its clones, by metric id. */
  class ListenerRegistry {
    var listeners: map<string, Listener>

    constructor()
      ensures listeners == map[]
    {
      listeners := map[];
    }
  }

  /** The process-wide source of listener ids. */
  class IdGenerator {
    var next: nat

    constructor()
      ensures next == 0
    {
      next := 0;
    }
  }

  /** A cancellable handle to a scheduled task. */
  class CancelHandle {
    var cancelled: bool

    constructor()
      ensures !cancelled
    {
      cancelled := false;
    }

    method Cancel()
      modifies this
      ensures cancelled
    {
      cancelled := true;
    }
  }

  /** The cancel handles of the scheduled jobs of a component and its clones. */
  class TaskList {
    var tasks: seq<CancelHandle>

    constructor()
      ensures tasks == []
    {
      tasks := [];
    }
  }

  datatype Attributes = Attributes(
    naming: NameParts,
    sampling: Sampling,
    buffering: Buffering,
    flushListeners: ListenerRegistry,
    tasks: TaskList)

  /** `Attributes::default()`: no naming, full sampling, unbuffered, and a fresh registry and task list. */
  method DefaultAttributes() returns (a: Attributes)
    ensures a.naming == [] && a.sampling == Full && a.buffering == Unbuffered
    ensures fresh(a.flushListeners) && fresh(a.tasks)
    ensures a.flushListeners.listeners == map[] && a.tasks.tasks == []
  {
    var registry := new ListenerRegistry();
    var tasks := new TaskList();
    a := Attributes([], Full, Unbuffered, registry, tasks);
  }

  /*
   * Flush listeners
   */

  /** The registry after installing a listener: it replaces any listener of the same metric id. */
  function Install(listeners: map<string, Listener>, metricId: string, l: Listener): (r: map<string, Listener>)
    ensures metricId in r && r[metricId] == l
    ensures forall k :: k in listeners && k != metricId ==> k in r && r[k] == listeners[k]
    ensures r.Keys == listeners.Keys + {metricId}
  {
    listeners[metricId := l]
  }

  /** The registry after a cancel: the listener goes only while the installed id is the handle's own. */
  function CancelOf(listeners: map<string, Listener>, metricId: string, listenerId: nat): (r: map<string, Listener>)
    ensures forall k :: k in listeners && k != metricId ==> k in r && r[k] == listeners[k]
    ensures r.Keys <= listeners.Keys
  {
    if metricId in listeners && listeners[metricId].listenerId == listenerId then
      listeners - {metricId}
    else
      listeners
  }

  /** The handle `on_flush` returns: it cancels the listener it installed, and only that one. */
  datatype OnFlushCancel = OnFlushCancel(registry: ListenerRegistry, metricId: string, listenerId: nat)

  /** `ObserveWhen::on_flush`: installs a listener under the metric id with the next listener id. */
  method OnFlush(attrs: Attributes, gen: IdGenerator, metricId: string, key: string, value: ISize)
    returns (h: OnFlushCancel)
    modifies attrs.flushListeners, gen
    ensures gen.next == old(gen.next) + 1
    ensures attrs.flushListeners.listeners
      == Install(old(attrs.flushListeners.listeners), metricId, Listener(old(gen.next), key, value))
    ensures h == OnFlushCancel(attrs.flushListeners, metricId, old(gen.next))
  {
    var listenerId := gen.next;
    gen.next := gen.next + 1;
    attrs.flushListeners.listeners := attrs.flushListeners.listeners[metricId := Listener(listenerId, key, value)];
    h := OnFlushCancel(attrs.flushListeners, metricId, listenerId);
  }

  /** `OnFlushCancel::cancel`. */
  method Cancel(h: OnFlushCancel)
    modifies h.registry
    ensures h.registry.listeners == CancelOf(old(h.registry.listeners), h.metricId, h.listenerId)
  {
    var listeners := h.registry.listeners;
    if h.metricId in listeners {
      var installedId := listeners[h.metricId].listenerId;
      if installedId == h.listenerId {
        h.registry.listeners := listeners - {h.metricId};
      }
    }
  }

  /** Cancelling the listener just installed removes it. */
  lemma CancelInstalled(listeners: map<string, Listener>, metricId: string, l: Listener)
    ensures CancelOf(Install(listeners, metricId, l), metricId, l.listenerId) == listeners - {metricId}
  {
  }

  /** After a newer listener replaced it, an old handle cancels nothing. */
  lemma CancelAfterReplace(listeners: map<string, Listener>, metricId: string, oldId: nat, l: Listener)
    requires l.listenerId != oldId
    ensures CancelOf(Install(listeners, metricId, l), metricId, oldId) == Install(listeners, metricId, l)
  {
  }

  /** Cancelling twice is cancelling once. */
  lemma CancelIdempotent(listeners: map<string, Listener>, metricId: string, listenerId: nat)
    ensures CancelOf(CancelOf(listeners, metricId, listenerId), metricId, listenerId)
      == CancelOf(listeners, metricId, listenerId)
  {
  }

  /**
   * The scenario of a metric observed twice: the second `on_flush` replaces the
   * first listener with a larger id; the first handle then cancels nothing, the
   * second removes the listener, and cancelling again does nothing.
   */
  method ObserveTwiceScenario(metricId: string) returns (first: nat, second: nat, afterFirst: bool, afterSecond: bool, afterAgain: bool)
    ensures first < second
    ensures afterFirst && !afterSecond && !afterAgain
  {
    var attrs := DefaultAttributes();
    var gen := new IdGenerator();
    var h1 := OnFlush(attrs, gen, metricId, "gauge", 1);
    var h2 := OnFlush(attrs, gen, metricId, "gauge", 2);
    first, second := h1.listenerId, h2.listenerId;
    Cancel(h1);
    afterFirst := metricId in attrs.flushListeners.listeners;
    Cancel(h2);
    afterSecond := metricId in attrs.flushListeners.listeners;
    Cancel(h2);
    afterAgain := metricId in attrs.flushListeners.listeners;
  }

  /*
   * Recurring tasks
   */

  /**
   * `ObserveWhen::every`: records the handle of the scheduled task. The
   * scheduler itself is not part of this model; the handle it returns is
   * given.
   */
  method Every(attrs: Attributes, handle: CancelHandle) returns (r: CancelHandle)
    modifies attrs.tasks
    ensures attrs.tasks.tasks == old(attrs.tasks.tasks) + [handle]
    ensures r == handle
  {
    attrs.tasks.tasks := attrs.tasks.tasks + [handle];
    r := handle;
  }

  /** `Drop for Attributes`: drains the list of scheduled tasks, cancelling every task. */
  method Drop(attrs: Attributes)
    modifies attrs.tasks, set i | 0 <= i < |attrs.tasks.tasks| :: attrs.tasks.tasks[i]
    ensures attrs.tasks.tasks == []
    ensures forall i :: 0 <= i < |old(attrs.tasks.tasks)| ==> old(attrs.tasks.tasks)[i].cancelled
  {
    var drained := attrs.tasks.tasks;
    attrs.tasks.tasks := [];
    for i := 0 to |drained|
      invariant attrs.tasks.tasks == []
      invariant forall t :: 0 <= t < i ==> drained[t].cancelled
    {
      drained[i].Cancel();
    }
  }

  /*
   * Naming
   */

  /** `add_name`: a clone with one more part at the end of the naming. */
  function AddName(a: Attributes, name: string): (r: Attributes)
    ensures r.naming == MakeName(a.naming, name)
    ensures r.flushListeners == a.flushListeners && r.tasks == a.tasks && r.buffering == a.buffering
  {
    a.(naming := a.naming + [name])
  }

  /** `named`: a clone whose naming is the single given part. */
  function Named(a: Attributes, name: string): (r: Attributes)
    ensures r.naming == FromString(name)
    ensures r.flushListeners == a.flushListeners && r.tasks == a.tasks && r.buffering == a.buffering
  {
    a.(naming := FromString(name))
  }

  /** `prefix_append`: the component's naming inserted before the name's leaf. */
  function PrefixAppend(a: Attributes, name: NameParts): (r: NameParts)
    requires |name| > 0
    ensures |r| == |a.naming| + |name| && Leaf(r) == Leaf(name)
  {
    Appended(name, a.naming)
  }

  /** `prefix_prepend`: the component's naming in front of the name. */
  function PrefixPrepend(a: Attributes, name: NameParts): (r: NameParts)
    ensures Within(r, a.naming) && r[|a.naming|..] == name
  {
    a.naming + name
  }

  /** On a one-part name, both prefixings put the naming in front of it. */
  lemma PrefixOnePart(a: Attributes, leaf: string)
    ensures PrefixAppend(a, FromString(leaf)) == PrefixPrepend(a, FromString(leaf)) == MakeName(a.naming, leaf)
  {
    AppendLeaf(leaf, a.naming);
  }

  /** Naming then adding a name gives the two-part namespace. */
  lemma NamedThenAdded(a: Attributes, first: string, second: string)
    ensures AddName(Named(a, first), second).naming == [first, second]
  {
  }

  /** `is_buffered`. */
  function IsBuffered(a: Attributes): (r: bool)
    ensures r <==> !a.buffering.Unbuffered?
  {
    a.buffering != Unbuffered
  }
}
