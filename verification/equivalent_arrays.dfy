/**
  The harness comparison of two identifier lists (editor names, editor IDs,
  deliverer IDs), `equivalentArray` in test/rules.js.

  The code accepts two present lists of equal length in which every element
  of the first occurs somewhere in the second. Multiplicities are NOT
  compared: `[x, x]` is accepted against `[x, y]`.
*/
module EquivalentArrays {
  import opened Wrappers

  /** Every element of `a1` occurs somewhere in `a2`. */
  ghost predicate Covers<T>(a1: seq<T>, a2: seq<T>) {
    forall i :: 0 <= i < |a1| ==> a1[i] in a2
  }

  /** The lists the comparison accepts; a missing list (`None`) is never accepted. */
  ghost predicate Accepts<T>(a1: Option<seq<T>>, a2: Option<seq<T>>) {
    && a1.Some?
    && a2.Some?
    && |a1.value| == |a2.value|
    && Covers(a1.value, a2.value)
  }

  /**
    The nested loop of `equivalentArray`. `found` counts the prefix of `a1` whose
    elements were all matched; the inner loop runs only while the current
    element is still unmatched, so `found` grows by at most one per outer
    iteration and stops growing at the first unmatched element.
  */
  method EquivalentArray<T(==)>(a1: Option<seq<T>>, a2: Option<seq<T>>) returns (r: bool)
    ensures a1.None? || a2.None? ==> !r
    ensures a1.Some? && a2.Some? && |a1.value| != |a2.value| ==> !r
    ensures r <==> Accepts(a1, a2)
  {
    if a1.Some? && a2.Some? && |a1.value| == |a2.value| {
      var xs, ys := a1.value, a2.value;
      var found := 0;
      for i := 0 to |xs|
        invariant found <= i
        invariant found == i <==> Covers(xs[..i], ys)
      {
        ghost var before := found;
        var j := 0;
        while j < |ys| && found == i
          invariant 0 <= j <= |ys|
          invariant found == before || (before == i && found == i + 1)
          invariant found == i ==> xs[i] !in ys[..j]
          invariant found == i + 1 ==> xs[i] in ys
        {
          if xs[i] == ys[j] {
            found := found + 1;
          }
          j := j + 1;
        }
        assert xs[..i + 1] == xs[..i] + [xs[i]];
        if before == i && found == i {
          assert ys[..j] == ys;
        }
      }
      assert xs[..|xs|] == xs;
      return found == |xs|;
    }
    return false;
  }

  /** Any present list is accepted against itself. */
  lemma Reflexive<T>(a: seq<T>)
    ensures Accepts(Some(a), Some(a))
  {
  }

  /**
    Acceptance is transitive: if every element of `a` occurs in `b` and every
    element of `b` occurs in `c`, every element of `a` occurs in `c`.
  */
  lemma Transitive<T>(a: seq<T>, b: seq<T>, c: seq<T>)
    requires Accepts(Some(a), Some(b))
    requires Accepts(Some(b), Some(c))
    ensures Accepts(Some(a), Some(c))
  {
  }

  /** Two lists holding the same elements with the same multiplicities are accepted. */
  lemma SameMultisetAccepted<T>(a1: seq<T>, a2: seq<T>)
    requires multiset(a1) == multiset(a2)
    ensures Accepts(Some(a1), Some(a2))
  {
    assert |a1| == |multiset(a1)| == |multiset(a2)| == |a2|;
    forall i | 0 <= i < |a1|
      ensures a1[i] in a2
    {
      assert a1[i] in multiset(a1);
    }
  }

  /**
    The converse fails: multiplicities are not compared, so a list with a
    repeated element is accepted against one holding a different element.
  */
  lemma MultiplicityIgnored<T>(x: T, y: T)
    requires x != y
    ensures Accepts(Some([x, x]), Some([x, y]))
    ensures multiset([x, x]) != multiset([x, y])
  {
  }

  /** The same pair the other way round is rejected: acceptance is not symmetric. */
  lemma NotSymmetric<T>(x: T, y: T)
    requires x != y
    ensures Accepts(Some([x, x]), Some([x, y]))
    ensures !Accepts(Some([x, y]), Some([x, x]))
  {
    MultiplicityIgnored(x, y);
    assert [x, y][1] == y;
    assert y !in [x, x];
  }
}
