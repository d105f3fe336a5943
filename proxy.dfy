/**
 * The proxy routing table: namespaces are given target scopes, and each
 * proxied metric forwards its values to the target of the longest prefix
 * of its name that has one, or to the void output when none has. Setting
 * or removing a target rebinds the live metrics it affects.
 *
 * A target scope is a value of the type parameter `T`. A metric's binding
 * is the metric object the proxy created on its target: the target (None
 * for the void output), the one-part name and the kind it was created
 * with, and the length of the namespace that target was set on (0 for the
 * void output). The registry's weak references are a `live` flag on each
 * entry.
 */
module Proxy {
  import opened Wrappers
  import opened Kinds
  import opened Name
  import opened Attributes

  /**
   * Where a proxied metric forwards to: the metric `new_metric(name, kind)`
   * created on `target` (None: the void output), and the length of the
   * namespace that target was set on.
   */
  datatype Binding<T> = Binding(target: Option<T>, name: NameParts, kind: InputKind, length: nat)

  /**
   * The binding a metric named `name` of kind `kind` gets from the result
   * `to` of `get_effective_target`: a metric created under `name.short()` on
   * that target with its namespace length, or on the void output with length 0.
   */
  function BindingTo<T>(to: Option<(T, nat)>, name: NameParts, kind: InputKind): (b: Binding<T>)
    requires name != []
    ensures b.name == Short(name) && b.kind == kind
  {
    match to
    case None => Binding(None, Short(name), kind, 0)
    case Some(p) => Binding(Some(p.0), Short(name), kind, p.1)
  }

  /** A registered proxy metric: its kind, whether a handle still holds it, and its binding. */
  datatype ProxyMetric<T> = ProxyMetric(kind: InputKind, live: bool, binding: Binding<T>)

  /*
   * Effective targets
   */

  /**
   * `get_effective_target`: the target of `ns` itself with its length, else
   * the target of the nearest enclosing namespace that has one.
   */
  function Effective<T>(targets: map<NameParts, T>, ns: NameParts): (r: Option<(T, nat)>)
    ensures r.Some? ==> r.value.1 <= |ns| && ns[..r.value.1] in targets && targets[ns[..r.value.1]] == r.value.0
    decreases |ns|
  {
    if ns in targets then
      assert ns[..|ns|] == ns;
      Some((targets[ns], |ns|))
    else if ns == [] then None
    else
      var up := Effective(targets, ns[..|ns| - 1]);
      assert up.Some? ==> ns[..|ns| - 1][..up.value.1] == ns[..up.value.1];
      up
  }

  /**
   * The binding a metric named `name` gets: a metric created under its leaf
   * name, with its kind, on the target of the longest targeted prefix of the
   * name, or on the void output with length 0 when no prefix is targeted.
   */
  function Bound<T>(targets: map<NameParts, T>, name: NameParts, kind: InputKind): (b: Binding<T>)
    requires name != []
    ensures b.name == Short(name) && b.kind == kind
    ensures b.target.None? <==> forall l :: 0 <= l <= |name| ==> name[..l] !in targets
    ensures b.target.None? ==> b.length == 0
    ensures b.target.Some? ==> b.length <= |name| && name[..b.length] in targets && targets[name[..b.length]] == b.target.value
    ensures b.target.Some? ==> forall l :: b.length < l <= |name| ==> name[..l] !in targets
  {
    EffectiveLongest(targets, name);
    BindingTo(Effective(targets, name), name, kind)
  }

  /**
   * The effective target is the longest prefix that has a target: no longer
   * prefix has one, and there is none at all exactly when no prefix has one.
   */
  lemma {:induction false} EffectiveLongest<T>(targets: map<NameParts, T>, ns: NameParts)
    ensures Effective(targets, ns).Some? ==>
      forall l :: Effective(targets, ns).value.1 < l <= |ns| ==> ns[..l] !in targets
    ensures Effective(targets, ns).None? <==> forall l :: 0 <= l <= |ns| ==> ns[..l] !in targets
    decreases |ns|
  {
    if ns in targets {
      assert ns[..|ns|] == ns;
    } else if ns == [] {
    } else {
      var up := ns[..|ns| - 1];
      EffectiveLongest(targets, up);
      forall l | 0 <= l < |ns| ensures ns[..l] == up[..l] { }
      assert ns[..|ns|] == ns;
    }
  }

  /** Targets that agree everywhere except possibly on `ns`. */
  ghost predicate AgreeOff<T>(targets: map<NameParts, T>, other: map<NameParts, T>, ns: NameParts)
  {
    (forall k :: k != ns ==> (k in targets <==> k in other)) &&
    (forall k :: k != ns && k in targets ==> targets[k] == other[k])
  }

  /** A name outside `ns` keeps its effective target when only `ns`'s target changes. */
  lemma {:induction false} EffectiveOutside<T>(targets: map<NameParts, T>, other: map<NameParts, T>, ns: NameParts, name: NameParts)
    requires AgreeOff(targets, other, ns) && !Within(name, ns)
    ensures Effective(other, name) == Effective(targets, name)
    decreases |name|
  {
    if name in targets {
    } else if name == [] {
    } else {
      var up := name[..|name| - 1];
      assert !Within(up, ns);
      EffectiveOutside(targets, other, ns, up);
    }
  }

  /** A name whose effective namespace is longer than `ns` keeps it when only `ns`'s target changes. */
  lemma {:induction false} EffectiveLonger<T>(targets: map<NameParts, T>, other: map<NameParts, T>, ns: NameParts, name: NameParts)
    requires AgreeOff(targets, other, ns)
    requires Effective(targets, name).Some? && Effective(targets, name).value.1 > |ns|
    ensures Effective(other, name) == Effective(targets, name)
    decreases |name|
  {
    if name in targets {
    } else {
      EffectiveLonger(targets, other, ns, name[..|name| - 1]);
    }
  }

  /** A target set on `ns` becomes the effective one of each name within `ns` that no longer namespace targets. */
  lemma {:induction false} EffectiveSetWithin<T>(targets: map<NameParts, T>, ns: NameParts, t: T, name: NameParts)
    requires Within(name, ns)
    requires Effective(targets, name).None? || Effective(targets, name).value.1 <= |ns|
    ensures Effective(targets[ns := t], name) == Some((t, |ns|))
    decreases |name|
  {
    if name == ns {
    } else {
      var up := name[..|name| - 1];
      assert name !in targets;
      assert Within(up, ns) by { assert up[..|ns|] == name[..|ns|]; }
      EffectiveSetWithin(targets, ns, t, up);
    }
  }

  /** A name within a targeted `ns` has a target at least as long as `ns`. */
  lemma {:induction false} EffectiveAtLeast<T>(targets: map<NameParts, T>, ns: NameParts, name: NameParts)
    requires Within(name, ns) && ns in targets
    ensures Effective(targets, name).Some? && Effective(targets, name).value.1 >= |ns|
    decreases |name|
  {
    if name == ns {
    } else if name !in targets {
      var up := name[..|name| - 1];
      assert Within(up, ns) by { assert up[..|ns|] == name[..|ns|]; }
      EffectiveAtLeast(targets, ns, up);
    }
  }

  /**
   * Once the target of `ns` is removed, a name within `ns` that `ns` was the
   * effective namespace of falls back to whatever `ns` itself now falls back to.
   */
  lemma {:induction false} EffectiveUnsetWithin<T>(targets: map<NameParts, T>, ns: NameParts, name: NameParts)
    requires Within(name, ns)
    requires Effective(targets, name).Some? && Effective(targets, name).value.1 == |ns|
    ensures Effective(targets - {ns}, name) == Effective(targets - {ns}, ns)
    decreases |name|
  {
    if name != ns {
      var up := name[..|name| - 1];
      assert name !in targets;
      assert Within(up, ns) by { assert up[..|ns|] == name[..|ns|]; }
      EffectiveUnsetWithin(targets, ns, up);
    }
  }

  /*
   * Bindings of the registered metrics
   */

  /** Every registered name has a leaf: names come from `new_metric`, which is given a one-part name at least. */
  ghost predicate Registered<T>(metrics: map<NameParts, ProxyMetric<T>>)
  {
    forall n :: n in metrics ==> n != []
  }

  /** Every live metric is bound to the effective target of its name; this is what the length field records. */
  ghost predicate BoundLive<T>(targets: map<NameParts, T>, metrics: map<NameParts, ProxyMetric<T>>)
    requires Registered(metrics)
  {
    forall n :: n in metrics && metrics[n].live ==> metrics[n].binding == Bound(targets, n, metrics[n].kind)
  }

  /** The loops of `set_target` and `unset_target` touch each live metric within `ns` not bound by a longer namespace. */
  predicate Affected<T>(m: ProxyMetric<T>, name: NameParts, ns: NameParts)
  {
    m.live && Within(name, ns) && m.binding.length <= |ns|
  }

  /**
   * The registry after those loops, given the target `to` they rebind to:
   * each affected metric gets a new metric created on `to` under its leaf
   * name with its own kind; every other entry is unchanged.
   */
  function RebindWithin<T>(metrics: map<NameParts, ProxyMetric<T>>, ns: NameParts, to: Option<(T, nat)>): (r: map<NameParts, ProxyMetric<T>>)
    requires Registered(metrics)
    ensures r.Keys == metrics.Keys && Registered(r)
    ensures forall n :: n in metrics ==> r[n].kind == metrics[n].kind && r[n].live == metrics[n].live
    ensures forall n :: n in metrics && !Affected(metrics[n], n, ns) ==> r[n] == metrics[n]
    ensures forall n :: n in metrics && Affected(metrics[n], n, ns) ==>
      r[n].binding.name == Short(n) && r[n].binding.kind == metrics[n].kind
  {
    map n | n in metrics :: if Affected(metrics[n], n, ns) then metrics[n].(binding := BindingTo(to, n, metrics[n].kind)) else metrics[n]
  }

  /**
   * The registry after a lookup of `name`: kept when a live proxy is there,
   * else a new live one of the given kind, bound to the name's effective target.
   */
  function LookupOrDefine<T>(metrics: map<NameParts, ProxyMetric<T>>, targets: map<NameParts, T>, name: NameParts, kind: InputKind): (r: map<NameParts, ProxyMetric<T>>)
    requires name != []
    ensures r.Keys == metrics.Keys + {name} && r[name].live
    ensures name in metrics && metrics[name].live ==> r == metrics
    ensures !(name in metrics && metrics[name].live) ==> r[name] == ProxyMetric(kind, true, Bound(targets, name, kind))
    ensures forall n :: n != name && n in metrics ==> r[n] == metrics[n]
  {
    if name in metrics && metrics[name].live then metrics
    else metrics[name := ProxyMetric(kind, true, Bound(targets, name, kind))]
  }

  /**
   * A lookup keeps every live metric bound to its effective target, leaves the
   * other entries alone, and the first registered kind of a live name wins.
   */
  lemma LookupOrDefineKeepsBound<T>(metrics: map<NameParts, ProxyMetric<T>>, targets: map<NameParts, T>, name: NameParts, kind: InputKind)
    requires name != [] && Registered(metrics) && BoundLive(targets, metrics)
    ensures var r := LookupOrDefine(metrics, targets, name, kind);
      Registered(r) && BoundLive(targets, r) && name in r && r[name].live &&
      r[name].kind == (if name in metrics && metrics[name].live then metrics[name].kind else kind) &&
      forall n :: n != name && n in metrics ==> n in r && r[n] == metrics[n]
  {
  }

  /** `set_target` keeps every live metric bound to its effective target. */
  lemma SetTargetKeepsBound<T>(targets: map<NameParts, T>, metrics: map<NameParts, ProxyMetric<T>>, ns: NameParts, t: T)
    requires Registered(metrics) && BoundLive(targets, metrics)
    ensures BoundLive(targets[ns := t], RebindWithin(metrics, ns, Some((t, |ns|))))
  {
    var after := targets[ns := t];
    var r := RebindWithin(metrics, ns, Some((t, |ns|)));
    forall n | n in r && r[n].live ensures r[n].binding == Bound(after, n, r[n].kind) {
      if !Within(n, ns) {
        EffectiveOutside(targets, after, ns, n);
      } else if metrics[n].binding.length <= |ns| {
        EffectiveSetWithin(targets, ns, t, n);
      } else {
        EffectiveLonger(targets, after, ns, n);
      }
    }
  }

  /** `unset_target` of a targeted `ns` keeps every live metric bound to its effective target. */
  lemma UnsetTargetKeepsBound<T>(targets: map<NameParts, T>, metrics: map<NameParts, ProxyMetric<T>>, ns: NameParts)
    requires Registered(metrics) && BoundLive(targets, metrics) && ns in targets
    ensures BoundLive(targets - {ns}, RebindWithin(metrics, ns, Effective(targets - {ns}, ns)))
  {
    var after := targets - {ns};
    var r := RebindWithin(metrics, ns, Effective(after, ns));
    forall n | n in r && r[n].live ensures r[n].binding == Bound(after, n, r[n].kind) {
      if !Within(n, ns) {
        EffectiveOutside(targets, after, ns, n);
      } else {
        EffectiveAtLeast(targets, ns, n);
        if metrics[n].binding.length <= |ns| {
          EffectiveUnsetWithin(targets, ns, n);
        } else {
          EffectiveLonger(targets, after, ns, n);
        }
      }
    }
  }

  /** Setting a target on an untargeted namespace and then unsetting it restores the registry exactly. */
  lemma SetThenUnset<T>(targets: map<NameParts, T>, metrics: map<NameParts, ProxyMetric<T>>, ns: NameParts, t: T)
    requires Registered(metrics) && BoundLive(targets, metrics) && ns !in targets
    ensures targets[ns := t] - {ns} == targets
    ensures RebindWithin(RebindWithin(metrics, ns, Some((t, |ns|))), ns, Effective(targets[ns := t] - {ns}, ns)) == metrics
  {
    var afterSet := RebindWithin(metrics, ns, Some((t, |ns|)));
    assert targets[ns := t] - {ns} == targets;
    var back := RebindWithin(afterSet, ns, Effective(targets, ns));
    forall n | n in metrics ensures back[n] == metrics[n] {
      if Affected(metrics[n], n, ns) {
        EffectiveSetWithin(targets, ns, t, n);
        EffectiveUnsetWithin(targets[ns := t], ns, n);
      }
    }
  }

  /*
   * The proxy's shared state
   */

  /** `InnerProxy`: the targets by namespace and the registry of proxied metrics by full name. */
  class InnerProxy<T> {
    var targets: map<NameParts, T>
    var metrics: map<NameParts, ProxyMetric<T>>

    ghost predicate Valid()
      reads this
    {
      Registered(metrics) && BoundLive(targets, metrics)
    }

    /** `InnerProxy::new`: no targets, no metrics. */
    constructor()
      ensures targets == map[] && metrics == map[] && Valid()
    {
      targets := map[];
      metrics := map[];
    }

    /** `get_effective_target`: checks `ns`, then pops trailing parts until a namespace with a target is found. */
    method GetEffectiveTarget(ns: NameParts) returns (r: Option<(T, nat)>)
      ensures r == Effective(targets, ns)
    {
      if ns in targets {
        return Some((targets[ns], |ns|));
      }
      var name := ns;
      while name != []
        invariant name !in targets && Effective(targets, ns) == Effective(targets, name)
        decreases |name|
      {
        name := name[..|name| - 1];
        if name in targets {
          return Some((targets[name], |name|));
        }
      }
      return None;
    }

    /**
     * The rebinding loop shared by `set_target` and `unset_target`: each live
     * metric within `ns` not bound by a longer namespace gets a new metric
     * created on `to` under its leaf name. The source walks the names from
     * `ns` on in order and stops at the first live one outside `ns`; the
     * names within `ns` are exactly those, so the order does not matter here.
     */
    method RebindAffected(ns: NameParts, to: Option<(T, nat)>)
      requires Registered(metrics)
      modifies this`metrics
      ensures metrics == RebindWithin(old(metrics), ns, to)
    {
      ghost var start := metrics;
      var remaining := metrics.Keys;
      while remaining != {}
        invariant remaining <= start.Keys && metrics.Keys == start.Keys
        invariant forall n :: n in start ==>
          metrics[n] == if n !in remaining && Affected(start[n], n, ns) then start[n].(binding := BindingTo(to, n, start[n].kind)) else start[n]
        decreases remaining
      {
        var n :| n in remaining;
        var m := metrics[n];
        if m.live {
          var within := IsWithin(n, ns);
          if within && m.binding.length <= |ns| {
            metrics := metrics[n := m.(binding := BindingTo(to, n, m.kind))];
          }
        }
        remaining := remaining - {n};
      }
    }

    /**
     * `set_target`: records `t` for `ns` and binds every live metric within
     * `ns` that no longer namespace targets to `t`, with the length of `ns`.
     */
    method SetTarget(ns: NameParts, t: T)
      requires Valid()
      modifies this
      ensures targets == old(targets)[ns := t]
      ensures metrics == RebindWithin(old(metrics), ns, Some((t, |ns|)))
      ensures forall n :: n in old(metrics) && Affected(old(metrics)[n], n, ns) ==>
        metrics[n].binding == Binding(Some(t), Short(n), old(metrics)[n].kind, |ns|)
      ensures Valid()
    {
      SetTargetKeepsBound(targets, metrics, ns, t);
      targets := targets[ns := t];
      RebindAffected(ns, Some((t, |ns|)));
    }

    /**
     * `unset_target`: nothing when `ns` has no target; otherwise removes it and
     * binds the metrics it was effective for to the next enclosing target, or void.
     */
    method UnsetTarget(ns: NameParts)
      requires Valid()
      modifies this
      ensures ns !in old(targets) ==> targets == old(targets) && metrics == old(metrics)
      ensures ns in old(targets) ==> targets == old(targets) - {ns}
      ensures ns in old(targets) ==> metrics == RebindWithin(old(metrics), ns, Effective(old(targets) - {ns}, ns))
      ensures ns in old(targets) ==> forall n :: n in old(metrics) && Affected(old(metrics)[n], n, ns) ==>
        metrics[n].binding == BindingTo(Effective(targets, ns), n, old(metrics)[n].kind)
      ensures Valid()
    {
      if ns !in targets {
        return;
      }
      UnsetTargetKeepsBound(targets, metrics, ns);
      targets := targets - {ns};
      var up := GetEffectiveTarget(ns);
      RebindAffected(ns, up);
    }

    /** `drop_metric`: removes the entry of `name`; the source panics when there is none. */
    method DropMetric(name: NameParts) returns (panicked: bool)
      requires Valid()
      modifies this`metrics
      ensures panicked <==> name !in old(metrics)
      ensures metrics == old(metrics) - {name}
      ensures Valid()
    {
      panicked := name !in metrics;
      metrics := metrics - {name};
    }

    /** The last handle of `name` is gone: its weak reference no longer upgrades. */
    method Expire(name: NameParts)
      requires Valid() && name in metrics
      modifies this`metrics
      ensures metrics == old(metrics)[name := old(metrics)[name].(live := false)]
      ensures Valid()
    {
      metrics := metrics[name := metrics[name].(live := false)];
    }

    /**
     * `InnerProxy::flush`: the effective target of `ns`, if any, is flushed
     * with the outcome `flushes` gives; with none, the flush succeeds.
     */
    method Flush(ns: NameParts, flushes: T -> bool) returns (flushed: Option<T>, ok: bool)
      ensures flushed.None? <==> forall l :: 0 <= l <= |ns| ==> ns[..l] !in targets
      ensures flushed.Some? ==> Effective(targets, ns).Some? && flushed.value == Effective(targets, ns).value.0
      ensures ok <==> flushed.None? || flushes(flushed.value)
    {
      EffectiveLongest(targets, ns);
      var e := GetEffectiveTarget(ns);
      match e {
        case None => flushed, ok := None, true;
        case Some(p) => flushed, ok := Some(p.0), flushes(p.0);
      }
    }

    /**
     * The registry update of `Proxy::new_metric`, made under the write lock: a
     * new entry forwards to a metric created on the name's effective target
     * (or void) under `name.short()`.
     */
    method Define(name: NameParts, kind: InputKind)
      requires Valid() && name != []
      modifies this`metrics
      ensures metrics == LookupOrDefine(old(metrics), targets, name, kind)
      ensures Valid() && name in metrics && metrics[name].live
      ensures metrics[name].binding == Bound(targets, name, metrics[name].kind) && metrics[name].binding.name == Short(name)
    {
      LookupOrDefineKeepsBound(metrics, targets, name, kind);
      if name in metrics && metrics[name].live {
        return;
      }
      var e := GetEffectiveTarget(name);
      metrics := metrics[name := ProxyMetric(kind, true, BindingTo(e, name, kind))];
    }
  }

  /*
   * The proxy front end
   */

  /** `Proxy`: attributes of its own and an inner proxy shared with its clones. */
  datatype Proxy<T> = Proxy(attributes: Attributes, inner: InnerProxy<T>)

  /** A proxied input metric: its id and the full name that addresses its registry entry. */
  datatype ProxyInput = ProxyInput(id: string, name: NameParts)

  /**
   * `Proxy::new_metric`: names the metric with the proxy's prefix, returns the
   * live proxy already registered under that name (whatever its kind), and
   * otherwise registers a new one bound to the name's effective target.
   */
  method NewMetric<T>(p: Proxy<T>, name: NameParts, kind: InputKind) returns (m: ProxyInput)
    requires |name| > 0 && p.inner.Valid()
    modifies p.inner`metrics
    ensures m.name == PrefixAppend(p.attributes, name) && m.id == Forge("proxy", m.name)
    ensures p.inner.metrics == LookupOrDefine(old(p.inner.metrics), p.inner.targets, m.name, kind)
    ensures p.inner.Valid() && m.name in p.inner.metrics && p.inner.metrics[m.name].live
    ensures p.inner.metrics[m.name].binding.name == Short(name)
  {
    var full := PrefixAppend(p.attributes, name);
    m := ProxyInput(Forge("proxy", full), full);
    p.inner.Define(full, kind);
  }

  /** `Proxy::flush`: flushes the effective target of the proxy's naming. */
  method FlushProxy<T>(p: Proxy<T>, flushes: T -> bool) returns (flushed: Option<T>, ok: bool)
    ensures flushed.None? <==> forall l :: 0 <= l <= |p.attributes.naming| ==> p.attributes.naming[..l] !in p.inner.targets
    ensures flushed.Some? ==> (Effective(p.inner.targets, p.attributes.naming).Some? &&
      flushed.value == Effective(p.inner.targets, p.attributes.naming).value.0)
    ensures ok <==> flushed.None? || flushes(flushed.value)
  {
    flushed, ok := p.inner.Flush(p.attributes.naming, flushes);
  }

  /**
   * Rebinding, step by step: a metric defined before any target is void; a
   * target on its namespace binds it; a root target does not override that;
   * unsetting the namespace falls back to the root; unsetting the root to void.
   */
  method RoutingScenario() returns (b1: Binding<string>, b2: Binding<string>, b3: Binding<string>, b4: Binding<string>, b5: Binding<string>)
    ensures b1 == Binding(None, ["requests"], Counter, 0)
    ensures b2 == Binding(Some("a"), ["requests"], Counter, 1) && b3 == b2
    ensures b4 == Binding(Some("root"), ["requests"], Counter, 0)
    ensures b5 == Binding(None, ["requests"], Counter, 0)
  {
    var inner := new InnerProxy<string>();
    var name := ["app", "requests"];
    inner.Define(name, Counter);
    b1 := inner.metrics[name].binding;
    inner.SetTarget(["app"], "a");
    b2 := inner.metrics[name].binding;
    inner.SetTarget([], "root");
    b3 := inner.metrics[name].binding;
    inner.UnsetTarget(["app"]);
    b4 := inner.metrics[name].binding;
    inner.UnsetTarget([]);
    b5 := inner.metrics[name].binding;
  }
}
