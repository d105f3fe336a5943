/**
 * Metric labels. A label scope is a key/value table that is never changed in
 * place: setting or unsetting a key returns a changed copy. The application
 * scope and the current thread's scope are set by the program; a `Labels`
 * value carries value labels and, once saved, copies of those two scopes, and
 * its lookup searches them in a fixed precedence.
 */
module Label {
  import opened Wrappers

  /** `LabelScope`: no table at all, or a table of pairs (which may be empty). */
  datatype LabelScope = LabelScope(pairs: Option<map<string, string>>)

  /** `LabelScope::default()`: no table. */
  function NoLabels(): LabelScope
  {
    LabelScope(None)
  }

  /** `get`: the value of `key`, none when there is no table. */
  function Get(s: LabelScope, key: string): (r: Option<string>)
    ensures r.Some? <==> s.pairs.Some? && key in s.pairs.value
    ensures r.Some? ==> r.value == s.pairs.value[key]
  {
    match s.pairs
    case None => None
    case Some(m) => if key in m then Some(m[key]) else None
  }

  /** `set`: a copy of the table with `key` bound to `value`; every other key keeps its value. */
  function Set(s: LabelScope, key: string, value: string): (r: LabelScope)
    ensures r.pairs.Some?
    ensures Get(r, key) == Some(value)
    ensures forall k :: k != key ==> Get(r, k) == Get(s, k)
  {
    var base := match s.pairs case None => map[] case Some(m) => m;
    LabelScope(Some(base[key := value]))
  }

  /**
   * `unset`: a copy without `key`, and no table at all once its last pair is
   * removed; the scope itself when `key` is absent.
   */
  function Unset(s: LabelScope, key: string): (r: LabelScope)
    ensures Get(r, key) == None
    ensures forall k :: k != key ==> Get(r, k) == Get(s, k)
    ensures Get(s, key) == None ==> r == s
    ensures Get(s, key).Some? ==> (r.pairs.None? <==> s.pairs.value.Keys == {key})
  {
    match s.pairs
    case None => s
    case Some(m) =>
      if key in m then
        var rest := m - {key};
        if rest == map[] then
          assert m.Keys == {key} by {
            forall k | k in m ensures k == key {
              assert k !in rest;
            }
          }
          LabelScope(None)
        else
          assert m.Keys != {key} by {
            var k :| k in rest;
            assert k in m && k != key;
          }
          LabelScope(Some(rest))
      else s
  }

  /** Setting an absent key and unsetting it again gives back the scope, unless it held an empty table. */
  lemma SetThenUnset(s: LabelScope, key: string, value: string)
    requires Get(s, key) == None && s.pairs != Some(map[])
    ensures Unset(Set(s, key, value), key) == s
  {
    match s.pairs
    case None =>
      assert Set(s, key, value).pairs.value - {key} == map[];
    case Some(m) =>
      assert Set(s, key, value).pairs.value - {key} == m;
  }

  /** `collect`: the map extended with the scope's pairs, which replace those already there. */
  function Collect(s: LabelScope, m: map<string, string>): (r: map<string, string>)
    ensures forall k :: k in r <==> k in m || Get(s, k).Some?
    ensures forall k :: k in r ==> r[k] == (if Get(s, k).Some? then Get(s, k).value else m[k])
  {
    match s.pairs
    case None => m
    case Some(p) => m + p
  }

  /*
   * Labels and their lookup precedence
   */

  /** `Labels`: the scopes a lookup searches before, or instead of, the current context. */
  datatype Labels = Labels(scopes: seq<LabelScope>)

  /** `labels!` with pairs: a single value scope holding them. */
  function FromMap(m: map<string, string>): (r: Labels)
    ensures |r.scopes| == 1 && forall k :: Get(r.scopes[0], k) == (if k in m then Some(m[k]) else None)
  {
    Labels([LabelScope(Some(m))])
  }

  /** `Labels::default()`: no scope; lookups go to the current context. */
  function Default(): Labels
  {
    Labels([])
  }

  /** The value in the first scope of `order` that has `key`. */
  function FirstWith(order: seq<LabelScope>, key: string): (r: Option<string>)
    ensures r.Some? ==> exists i :: 0 <= i < |order| && Get(order[i], key) == r && forall j :: 0 <= j < i ==> Get(order[j], key).None?
    ensures r.None? ==> forall i :: 0 <= i < |order| ==> Get(order[i], key).None?
  {
    if order == [] then None
    else if Get(order[0], key).Some? then Get(order[0], key)
    else
      var r := FirstWith(order[1..], key);
      assert forall i :: 0 < i < |order| ==> order[i] == order[1..][i - 1];
      r
  }

  /** The first of two scopes that has the key. */
  lemma FirstOfTwo(a: LabelScope, b: LabelScope, key: string)
    ensures FirstWith([a, b], key) == if Get(a, key).Some? then Get(a, key) else Get(b, key)
  {
    assert [a, b][1..] == [b];
    assert [b][1..] == [];
  }

  /** The first of three scopes that has the key. */
  lemma FirstOfThree(a: LabelScope, b: LabelScope, c: LabelScope, key: string)
    ensures FirstWith([a, b, c], key) == if Get(a, key).Some? then Get(a, key) else FirstWith([b, c], key)
  {
    assert [a, b, c][1..] == [b, c];
  }

  /** Searching two sequences in turn is searching the first, then the second. */
  lemma {:induction false} FirstWithAppend(a: seq<LabelScope>, b: seq<LabelScope>, key: string)
    ensures FirstWith(a + b, key) == if FirstWith(a, key).Some? then FirstWith(a, key) else FirstWith(b, key)
  {
    if a != [] {
      assert (a + b)[0] == a[0];
      assert (a + b)[1..] == a[1..] + b;
      FirstWithAppend(a[1..], b, key);
      if Get(a[0], key).None? {
        assert FirstWith(a + b, key) == FirstWith(a[1..] + b, key);
        assert FirstWith(a, key) == FirstWith(a[1..], key);
      }
    } else {
      assert a + b == b;
    }
  }

  /**
   * The scopes `lookup` searches, in order: with no scope, the thread then the
   * application labels; with one, that scope first; with two or more, only
   * those scopes, without falling back on the current context.
   */
  function SearchOrder(l: Labels, thread: LabelScope, app: LabelScope): seq<LabelScope>
  {
    if |l.scopes| == 0 then [thread, app]
    else if |l.scopes| == 1 then [l.scopes[0], thread, app]
    else l.scopes
  }

  /** What `lookup` finds, given the current thread and application scopes. */
  function LookupIn(l: Labels, thread: LabelScope, app: LabelScope, key: string): (r: Option<string>)
    ensures r.Some? ==> r == Get(thread, key) || r == Get(app, key) || exists i :: 0 <= i < |l.scopes| && r == Get(l.scopes[i], key)
    ensures r.None? ==> forall i :: 0 <= i < |l.scopes| ==> Get(l.scopes[i], key).None?
    ensures r.None? && |l.scopes| < 2 ==> Get(thread, key).None? && Get(app, key).None?
  {
    var order := SearchOrder(l, thread, app);
    assert |l.scopes| == 0 ==> order[0] == thread && order[1] == app;
    assert |l.scopes| == 1 ==> order[0] == l.scopes[0] && order[1] == thread && order[2] == app;
    FirstWith(order, key)
  }

  /** With no scope, the thread labels come first, then the application labels. */
  lemma LookupNoScope(l: Labels, thread: LabelScope, app: LabelScope, key: string)
    requires |l.scopes| == 0
    ensures LookupIn(l, thread, app, key) == if Get(thread, key).Some? then Get(thread, key) else Get(app, key)
  {
    FirstOfTwo(thread, app, key);
  }

  /** With one scope, that scope comes first, then the thread labels, then the application labels. */
  lemma LookupOneScope(l: Labels, thread: LabelScope, app: LabelScope, key: string)
    requires |l.scopes| == 1
    ensures LookupIn(l, thread, app, key)
      == if Get(l.scopes[0], key).Some? then Get(l.scopes[0], key)
         else if Get(thread, key).Some? then Get(thread, key) else Get(app, key)
  {
    FirstOfThree(l.scopes[0], thread, app, key);
    FirstOfTwo(thread, app, key);
  }

  /** With two or more scopes, the thread and application labels are never consulted. */
  lemma LookupManyScopes(l: Labels, thread: LabelScope, app: LabelScope, thread2: LabelScope, app2: LabelScope, key: string)
    requires |l.scopes| >= 2
    ensures LookupIn(l, thread, app, key) == LookupIn(l, thread2, app2, key) == FirstWith(l.scopes, key)
  {
  }

  /**
   * Values saved with `save_context` from labels of at most one scope are
   * found later as they would have been found at the time of saving,
   * whatever the thread and application labels have become.
   */
  lemma SavedLookup(l: Labels, thread: LabelScope, app: LabelScope, thread2: LabelScope, app2: LabelScope, key: string)
    requires |l.scopes| <= 1
    ensures LookupIn(Labels(l.scopes + [thread, app]), thread2, app2, key) == LookupIn(l, thread, app, key)
  {
    var saved := Labels(l.scopes + [thread, app]);
    assert |saved.scopes| >= 2;
    assert SearchOrder(saved, thread2, app2) == saved.scopes;
    if |l.scopes| == 1 {
      assert saved.scopes == [l.scopes[0], thread, app];
    } else {
      assert saved.scopes == [thread, app];
    }
  }

  /** Saved contexts come after the scopes that were there before: those win. */
  lemma SavedAfterScopes(l: Labels, thread: LabelScope, app: LabelScope, thread2: LabelScope, app2: LabelScope, key: string)
    requires |l.scopes| >= 2
    ensures LookupIn(Labels(l.scopes + [thread, app]), thread2, app2, key)
      == if FirstWith(l.scopes, key).Some? then LookupIn(l, thread2, app2, key) else FirstWith([thread, app], key)
  {
    FirstWithAppend(l.scopes, [thread, app], key);
  }

  /*
   * The current context
   */

  /** The application labels and the current thread's labels. */
  class Context {
    var thread: LabelScope
    var app: LabelScope

    /** Both scopes start without a table. */
    constructor()
      ensures thread == NoLabels() && app == NoLabels()
    {
      thread := NoLabels();
      app := NoLabels();
    }

    /** `ThreadLabel::get`. */
    function ThreadGet(key: string): Option<string>
      reads this`thread
    {
      Get(thread, key)
    }

    /** `ThreadLabel::set`: replaces the thread scope by a copy with the key set. */
    method ThreadSet(key: string, value: string)
      modifies this`thread
      ensures thread == Set(old(thread), key, value)
    {
      thread := Set(thread, key, value);
    }

    /** `ThreadLabel::unset`. */
    method ThreadUnset(key: string)
      modifies this`thread
      ensures thread == Unset(old(thread), key)
    {
      thread := Unset(thread, key);
    }

    /** `AppLabel::get`. */
    function AppGet(key: string): Option<string>
      reads this`app
    {
      Get(app, key)
    }

    /** `AppLabel::set`. */
    method AppSet(key: string, value: string)
      modifies this`app
      ensures app == Set(old(app), key, value)
    {
      app := Set(app, key, value);
    }

    /** `AppLabel::unset`. */
    method AppUnset(key: string)
      modifies this`app
      ensures app == Unset(old(app), key)
    {
      app := Unset(app, key);
    }

    /**
     * `save_context`: the labels with copies of the thread scope and then the
     * application scope pushed at the end. A later lookup of what had at most
     * one scope sees the value labels, then these copies, whatever the
     * context has become.
     */
    method SaveContext(l: Labels) returns (r: Labels)
      ensures r.scopes == l.scopes + [thread, app]
      ensures |l.scopes| <= 1 ==> forall t, a, key :: LookupIn(r, t, a, key) == LookupIn(l, thread, app, key)
    {
      r := Labels(l.scopes + [thread, app]);
      forall t, a, key | |l.scopes| <= 1 ensures LookupIn(r, t, a, key) == LookupIn(l, thread, app, key) {
        SavedLookup(l, thread, app, t, a, key);
      }
    }

    /** `lookup`: by the number of scopes, the current context, one scope then the context, or the scopes in turn. */
    method Lookup(l: Labels, key: string) returns (r: Option<string>)
      ensures r == LookupIn(l, thread, app, key)
    {
      if |l.scopes| == 0 {
        r := ThreadGet(key);
        if r.None? {
          r := AppGet(key);
        }
        LookupNoScope(l, thread, app, key);
      } else if |l.scopes| == 1 {
        r := Get(l.scopes[0], key);
        if r.None? {
          r := ThreadGet(key);
          if r.None? {
            r := AppGet(key);
          }
        }
        LookupOneScope(l, thread, app, key);
      } else {
        var i := 0;
        while i < |l.scopes|
          invariant 0 <= i <= |l.scopes|
          invariant FirstWith(l.scopes, key) == FirstWith(l.scopes[i..], key)
        {
          var v := Get(l.scopes[i], key);
          if v.Some? {
            return v;
          }
          assert l.scopes[i..][1..] == l.scopes[i + 1..];
          i := i + 1;
        }
        r := None;
      }
    }

    /**
     * `into_map`: collects the application, then the thread, then the value
     * scope; or, with two or more scopes, the scopes from last to first. Each
     * later collection wins, so the map holds what `lookup` finds, key by key.
     */
    method IntoMap(l: Labels) returns (m: map<string, string>)
      ensures forall key :: key in m <==> LookupIn(l, thread, app, key).Some?
      ensures forall key :: key in m ==> m[key] == LookupIn(l, thread, app, key).value
    {
      m := map[];
      if |l.scopes| == 0 {
        m := Collect(app, m);
        m := Collect(thread, m);
        forall key ensures LookupIn(l, thread, app, key) == if Get(thread, key).Some? then Get(thread, key) else Get(app, key) {
          LookupNoScope(l, thread, app, key);
        }
      } else if |l.scopes| == 1 {
        m := Collect(app, m);
        m := Collect(thread, m);
        m := Collect(l.scopes[0], m);
        forall key ensures LookupIn(l, thread, app, key)
          == if Get(l.scopes[0], key).Some? then Get(l.scopes[0], key) else if Get(thread, key).Some? then Get(thread, key) else Get(app, key)
        {
          LookupOneScope(l, thread, app, key);
        }
      } else {
        var i := |l.scopes|;
        while i > 0
          invariant 0 <= i <= |l.scopes|
          invariant forall key :: key in m <==> FirstWith(l.scopes[i..], key).Some?
          invariant forall key :: key in m ==> m[key] == FirstWith(l.scopes[i..], key).value
        {
          i := i - 1;
          assert l.scopes[i..][1..] == l.scopes[i + 1..];
          m := Collect(l.scopes[i], m);
        }
        assert l.scopes[0..] == l.scopes;
      }
    }
  }

  /*
   * The source's tests
   */

  /** `context_labels`: thread labels win over application labels, and unsetting falls back, then finds nothing. */
  method ContextLabels() returns (first: Option<string>, second: Option<string>, third: Option<string>)
    ensures first == Some("123") && second == Some("456") && third == None
  {
    var c := new Context();
    c.AppSet("abc", "456");
    c.ThreadSet("abc", "123");
    var none := FromMap(map[]);
    first := c.Lookup(none, "abc");
    LookupOneScope(none, c.thread, c.app, "abc");
    c.ThreadUnset("abc");
    second := c.Lookup(none, "abc");
    LookupOneScope(none, c.thread, c.app, "abc");
    c.AppUnset("abc");
    third := c.Lookup(none, "abc");
    LookupOneScope(none, c.thread, c.app, "abc");
  }

  /** `labels_macro`: both pairs given to the macro are found. */
  method LabelsMacro() returns (abc: Option<string>, xyz: Option<string>)
    ensures abc == Some("789") && xyz == Some("123")
  {
    var c := new Context();
    var l := FromMap(map["abc" := "789", "xyz" := "123"]);
    abc := c.Lookup(l, "abc");
    LookupOneScope(l, c.thread, c.app, "abc");
    xyz := c.Lookup(l, "xyz");
    LookupOneScope(l, c.thread, c.app, "xyz");
  }

  /** `value_labels`: a value label wins over application and thread labels set afterwards. */
  method ValueLabels() returns (before: Option<string>, withApp: Option<string>, withThread: Option<string>)
    ensures before == Some("789") && withApp == Some("789") && withThread == Some("789")
  {
    var c := new Context();
    var l := FromMap(map["abc" := "789"]);
    before := c.Lookup(l, "abc");
    LookupOneScope(l, c.thread, c.app, "abc");
    c.AppSet("abc", "456");
    withApp := c.Lookup(l, "abc");
    LookupOneScope(l, c.thread, c.app, "abc");
    c.ThreadSet("abc", "123");
    withThread := c.Lookup(l, "abc");
    LookupOneScope(l, c.thread, c.app, "abc");
  }
}
