/**
 * Iteration orders. The source walks hash maps and tree maps whose order it
 * does not rely on; the model takes that order as any sequence listing
 * every key exactly once.
 */
module Orderings {

  /** `order` lists every element of `elems` exactly once. */
  predicate Enumerates<T>(order: seq<T>, elems: set<T>)
  {
    |order| == |elems|
    && (forall i :: 0 <= i < |order| ==> order[i] in elems)
    && (forall i, j :: 0 <= i < j < |order| ==> order[i] != order[j])
  }

  /** Some order of the elements: each once. */
  method Enumerate<T>(elems: set<T>) returns (order: seq<T>)
    ensures Enumerates(order, elems)
  {
    var remaining := elems;
    order := [];
    while remaining != {}
      invariant remaining <= elems
      invariant |order| + |remaining| == |elems|
      invariant forall i :: 0 <= i < |order| ==> order[i] in elems && order[i] !in remaining
      invariant forall i, j :: 0 <= i < j < |order| ==> order[i] != order[j]
      decreases |remaining|
    {
      var x :| x in remaining;
      order := order + [x];
      remaining := remaining - {x};
    }
  }

  /** An enumeration lists each element. */
  lemma EnumerationCovers<T>(order: seq<T>, elems: set<T>, x: T)
    requires Enumerates(order, elems) && x in elems
    ensures exists i :: 0 <= i < |order| && order[i] == x
  {
    var listed := set i | 0 <= i < |order| :: order[i];
    if x !in listed {
      DistinctCard(order);
      SubsetCard(listed + {x}, elems);
    }
  }

  lemma {:induction false} SubsetCard<T>(a: set<T>, b: set<T>)
    requires a <= b
    ensures |a| <= |b|
    decreases |b|
  {
    if a != {} {
      var x :| x in a;
      SubsetCard(a - {x}, b - {x});
    }
  }

  /** The set of a sequence without repetitions has as many elements as the sequence. */
  lemma {:induction false} DistinctCard<T>(s: seq<T>)
    requires forall i, j :: 0 <= i < j < |s| ==> s[i] != s[j]
    ensures |set i | 0 <= i < |s| :: s[i]| == |s|
  {
    if |s| > 0 {
      var front := s[..|s| - 1];
      DistinctCard(front);
      var a := set i | 0 <= i < |s| :: s[i];
      var b := set i | 0 <= i < |front| :: front[i];
      assert a == b + {s[|s| - 1]} by {
        forall x | x in a ensures x in b + {s[|s| - 1]} {
          var i :| 0 <= i < |s| && s[i] == x;
          if i < |front| { assert front[i] == x; }
        }
      }
      assert s[|s| - 1] !in b;
    }
  }
}
