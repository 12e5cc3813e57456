/** A Miller index (h, k, l): the three-element integer list the index
    pipeline passes around, and its canonical (ascending) form. */
module Miller {

  /** A plane `[h, k, l]`, held as a list of three integers. */
  type Triple = t: seq<int> | |t| == 3 witness [0, 0, 0]

  /** Components in non-decreasing order: the canonical representative. */
  predicate IsSorted(t: Triple) {
    t[0] <= t[1] <= t[2]
  }

  /** `plane.sort()` on a three-element list: the same components (see
      Sort3Permutes), ascending. */
  function Sort3(t: Triple): (r: Triple)
    ensures IsSorted(r)
  {
    var a, b, c := t[0], t[1], t[2];
    if a <= b then
      if b <= c then [a, b, c]
      else if a <= c then [a, c, b]
      else [c, a, b]
    else
      if a <= c then [b, a, c]
      else if b <= c then [b, c, a]
      else [c, b, a]
  }

  lemma SwapFirst(x: int, y: int, z: int)
    ensures multiset([x, y, z]) == multiset([y, x, z])
  {
  }

  lemma SwapLast(x: int, y: int, z: int)
    ensures multiset([x, y, z]) == multiset([x, z, y])
  {
  }

  /** Sorting a plane only rearranges its components. */
  lemma Sort3Permutes(t: Triple)
    ensures multiset(Sort3(t)) == multiset(t)
  {
    var a, b, c := t[0], t[1], t[2];
    assert t == [a, b, c];
    var r := Sort3(t);
    if a <= b {
      if b <= c {
        assert r == [a, b, c];
      } else if a <= c {
        assert r == [a, c, b];
        SwapLast(a, b, c);
      } else {
        assert r == [c, a, b];
        SwapLast(a, b, c);
        SwapFirst(a, c, b);
      }
    } else {
      if a <= c {
        assert r == [b, a, c];
        SwapFirst(a, b, c);
      } else if b <= c {
        assert r == [b, c, a];
        SwapFirst(a, b, c);
        SwapLast(b, a, c);
      } else {
        assert r == [c, b, a];
        SwapLast(a, b, c);
        SwapFirst(a, c, b);
        SwapLast(c, a, b);
      }
    }
  }

  lemma TripleMultiset(t: Triple)
    ensures multiset(t) == multiset{t[0], t[1], t[2]}
  {
    assert t == [t[0]] + [t[1]] + [t[2]];
  }

  /** Two ascending triples with the same components are equal. */
  lemma SortedUnique(t: Triple, u: Triple)
    requires IsSorted(t) && IsSorted(u) && multiset(t) == multiset(u)
    ensures t == u
  {
    TripleMultiset(t);
    TripleMultiset(u);
    var m := multiset(t);
    assert t[0] in m && u[0] in m && t[2] in m && u[2] in m;
    // the least and the greatest components are shared, so the middle one is too
    assert t[0] == u[0];
    assert t[2] == u[2];
    assert m[t[1]] > 0;
    assert t[1] == u[1];
  }

  /** Canonicalisation: an already sorted plane is left as it is, and every
      permutation of a plane sorts to the same canonical form. */
  lemma CanonicalForm(t: Triple, u: Triple)
    ensures IsSorted(t) ==> Sort3(t) == t
    ensures multiset(t) == multiset(u) ==> Sort3(t) == Sort3(u)
  {
    Sort3Permutes(t);
    Sort3Permutes(u);
    if IsSorted(t) {
      SortedUnique(Sort3(t), t);
    }
    if multiset(t) == multiset(u) {
      SortedUnique(Sort3(t), Sort3(u));
    }
  }

  /** Sorting only rearranges: each component of the sorted plane is one of
      the original components and vice versa. */
  lemma Sort3Components(t: Triple, x: int)
    ensures x in Sort3(t) <==> x in t
  {
  }
}
