/**
 * Metric names: a name is the sequence of its parts, outermost namespace
 * first and the metric's own (leaf) name last. A namespace is a name too.
 */
module Name {

  type NameParts = seq<string>

  /** `name` equals `ns` or lies inside it: the parts of `ns` begin `name`. */
  predicate Within(name: NameParts, ns: NameParts)
  {
    |ns| <= |name| && name[..|ns|] == ns
  }

  /** Being within a namespace is being that namespace followed by some more parts. */
  lemma WithinExtends(name: NameParts, ns: NameParts)
    ensures Within(name, ns) <==> exists tail :: name == ns + tail
  {
    if Within(name, ns) {
      assert name == ns + name[|ns|..];
    }
  }

  /** `is_within`: compares the parts of `other` one by one with the front of `self`. */
  method IsWithin(self: NameParts, other: NameParts) returns (r: bool)
    ensures r <==> Within(self, other)
  {
    if |self| < |other| {
      return false;
    }
    var i := 0;
    while i < |other|
      invariant 0 <= i <= |other|
      invariant other[..i] == self[..i]
    {
      if other[i] != self[i] {
        return false;
      }
      i := i + 1;
    }
    assert self[..|other|] == other[..i];
    return true;
  }

  lemma WithinReflexive(name: NameParts)
    ensures Within(name, name)
  {
  }

  lemma WithinTransitive(a: NameParts, b: NameParts, c: NameParts)
    requires Within(a, b) && Within(b, c)
    ensures Within(a, c)
  {
    assert a[..|c|] == a[..|b|][..|c|];
  }

  /** Within goes one way only: a name within another and containing it is that name. */
  lemma WithinAntisymmetric(a: NameParts, b: NameParts)
    requires Within(a, b) && Within(b, a)
    ensures a == b
  {
    assert a == a[..|b|];
  }

  /** `make_name`: the name of a leaf in this namespace, one part longer. */
  function MakeName(ns: NameParts, leaf: string): (r: NameParts)
    ensures |r| == |ns| + 1 && Within(r, ns) && r[|ns|] == leaf
  {
    ns + [leaf]
  }

  /** The last part of a name; `short` panics on an empty name. */
  function Leaf(name: NameParts): string
    requires |name| > 0
  {
    name[|name| - 1]
  }

  /** A name is its namespace followed by its leaf. */
  lemma LeafSplits(name: NameParts)
    requires |name| > 0
    ensures name == name[..|name| - 1] + [Leaf(name)]
  {
  }

  /** `short`: the one-part name holding the leaf. */
  function Short(name: NameParts): (r: NameParts)
    requires |name| > 0
    ensures |r| == 1 && r[0] == Leaf(name)
  {
    [name[|name| - 1]]
  }

  /**
   * Conversion of a string into a name: a single part. The source debug-asserts
   * that the string is not empty; a release build accepts the empty string.
   */
  function FromString(s: string): (r: NameParts)
    ensures |r| == 1 && r[0] == s
  {
    [s]
  }

  lemma ShortOfMakeName(ns: NameParts, leaf: string)
    ensures Short(MakeName(ns, leaf)) == FromString(leaf)
  {
  }

  /** `prepend`: pushes the parts of `ns` to the front, last part first. */
  method Prepend(name: NameParts, ns: NameParts) returns (r: NameParts)
    ensures r == ns + name
    ensures Within(r, ns) && r[|ns|..] == name
  {
    r := name;
    var i := |ns|;
    while i > 0
      invariant 0 <= i <= |ns|
      invariant r == ns[i..] + name
    {
      i := i - 1;
      r := [ns[i]] + r;
    }
  }

  /** A name with the parts of `ns` inserted just before its leaf. */
  function Appended(name: NameParts, ns: NameParts): (r: NameParts)
    requires |name| > 0
    ensures |r| == |name| + |ns| && Leaf(r) == Leaf(name)
    ensures r[..|name| - 1] == name[..|name| - 1]
    ensures forall i :: 0 <= i < |ns| ==> r[|name| - 1 + i] == ns[i]
  {
    name[..|name| - 1] + ns + [Leaf(name)]
  }

  /**
   * `append`: inserts the parts of `ns` just before the leaf, one at a time.
   * The source computes `len() - 1`, which underflows (and panics) on an
   * empty name, hence the precondition.
   */
  method Append(name: NameParts, ns: NameParts) returns (r: NameParts)
    requires |name| > 0
    ensures r == Appended(name, ns)
  {
    var offset := |name| - 1;
    r := name;
    for i := 0 to |ns|
      invariant r == name[..offset] + ns[..i] + [name[offset]]
    {
      assert ns[..i + 1] == ns[..i] + [ns[i]];
      r := r[..i + offset] + [ns[i]] + r[i + offset..];
    }
    assert ns[..|ns|] == ns;
  }

  /** Appending the empty namespace leaves a name as it is. */
  lemma AppendNothing(name: NameParts)
    requires |name| > 0
    ensures Appended(name, []) == name
  {
    assert name == name[..|name| - 1] + [name[|name| - 1]];
  }

  /** On a one-part name, appending a namespace is prepending it. */
  lemma AppendOnePart(name: NameParts, ns: NameParts)
    requires |name| == 1
    ensures Appended(name, ns) == ns + name
  {
    assert name[..0] == [];
  }

  /** Appending to the name made from a leaf yields that leaf made in the namespace. */
  lemma AppendLeaf(leaf: string, ns: NameParts)
    ensures Appended(FromString(leaf), ns) == MakeName(ns, leaf)
  {
    AppendOnePart(FromString(leaf), ns);
  }

  /** `join`: the parts with the separator between each two neighbours. */
  function Join(name: NameParts, sep: string): string
  {
    if |name| == 0 then ""
    else if |name| == 1 then name[0]
    else Join(name[..|name| - 1], sep) + sep + name[|name| - 1]
  }

  function TotalLength(name: NameParts): nat
  {
    if |name| == 0 then 0 else TotalLength(name[..|name| - 1]) + |name[|name| - 1]|
  }

  lemma JoinSingle(part: string, sep: string)
    ensures Join([part], sep) == part
  {
  }

  /** A join starts with the first part and ends with the last. */
  lemma {:induction false} JoinEnds(name: NameParts, sep: string)
    requires |name| > 0
    ensures var r := Join(name, sep);
      |name[0]| <= |r| && r[..|name[0]|] == name[0] &&
      |name[|name| - 1]| <= |r| && r[|r| - |name[|name| - 1]|..] == name[|name| - 1]
  {
    if |name| > 1 {
      var front := name[..|name| - 1];
      JoinEnds(front, sep);
      assert front[0] == name[0];
      var j := Join(front, sep);
      assert (j + sep + name[|name| - 1])[..|name[0]|] == j[..|name[0]|];
    }
  }

  /** Joining two parts puts one separator between them. */
  lemma JoinTwo(a: string, b: string, sep: string)
    ensures Join([a, b], sep) == a + sep + b
  {
    assert [a, b][..1] == [a];
  }

  /** Joining k > 0 parts adds exactly k - 1 separators to the parts' text. */
  lemma {:induction false} JoinLength(name: NameParts, sep: string)
    requires |name| > 0
    ensures |Join(name, sep)| == TotalLength(name) + (|name| - 1) * |sep|
  {
    if |name| > 1 {
      JoinLength(name[..|name| - 1], sep);
    } else {
      assert name[..0] == [];
    }
  }

  /** Joining a name made in a namespace is joining the namespace, a separator, then the leaf. */
  lemma JoinMakeName(ns: NameParts, leaf: string, sep: string)
    requires |ns| > 0
    ensures Join(MakeName(ns, leaf), sep) == Join(ns, sep) + sep + leaf
  {
    assert MakeName(ns, leaf)[..|ns|] == ns;
  }

  /** No part of the name contains the character `c`. */
  predicate FreeOf(name: NameParts, c: char)
  {
    forall i :: 0 <= i < |name| ==> c !in name[i]
  }

  /**
   * Joining with a one-character separator that no part contains loses
   * nothing: distinct non-empty names join to distinct strings.
   */
  lemma {:induction false} JoinInjective(a: NameParts, b: NameParts, c: char)
    requires |a| > 0 && |b| > 0 && FreeOf(a, c) && FreeOf(b, c)
    requires Join(a, [c]) == Join(b, [c])
    ensures a == b
    decreases |a|
  {
    var j := Join(a, [c]);
    var la, lb := a[|a| - 1], b[|b| - 1];
    assert c !in la && c !in lb;
    if |a| == 1 && |b| == 1 {
    } else if |a| == 1 {
      JoinLastSeparator(b, c);
      assert false;
    } else if |b| == 1 {
      JoinLastSeparator(a, c);
      assert false;
    } else {
      var fa, fb := a[..|a| - 1], b[..|b| - 1];
      JoinLastSeparator(a, c);
      JoinLastSeparator(b, c);
      if |la| < |lb| {
        assert false;
      } else if |lb| < |la| {
        assert false;
      } else {
        assert la == j[|j| - |la|..] == lb;
        assert Join(fa, [c]) == j[..|j| - |la| - 1] == Join(fb, [c]);
        assert FreeOf(fa, c) by {
          forall i | 0 <= i < |fa| ensures c !in fa[i] { assert fa[i] == a[i]; }
        }
        assert FreeOf(fb, c) by {
          forall i | 0 <= i < |fb| ensures c !in fb[i] { assert fb[i] == b[i]; }
        }
        JoinInjective(fa, fb, c);
        assert a == fa + [la] && b == fb + [lb];
      }
    }
  }

  /** In the join of several parts free of `c`, the last `c` comes just before the last part. */
  lemma JoinLastSeparator(a: NameParts, c: char)
    requires |a| > 1 && FreeOf(a, c)
    ensures var j, l := Join(a, [c]), a[|a| - 1];
      |l| < |j| && j[|j| - |l| - 1] == c && j[|j| - |l|..] == l
      && j[..|j| - |l| - 1] == Join(a[..|a| - 1], [c])
  {
    assert Join(a, [c]) == Join(a[..|a| - 1], [c]) + [c] + a[|a| - 1];
  }
}
