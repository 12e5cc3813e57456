/** The size of the list `hkl_generator` returns over the range `0..n-1`: the
    number of multisets of three values drawn from `n`, C(n + 2, 3), less the
    one triple dropped at the head. The count is obtained by listing the
    ascending triples layer by layer and comparing that list with the output. */
module Counting {
  import opened Miller
  import opened Sequences
  import opened Generator

  /** The triangular numbers: sorted pairs below `n`. */
  function Tri(n: nat): nat {
    if n == 0 then 0 else Tri(n - 1) + n
  }

  /** The tetrahedral numbers: sorted triples below `n`. */
  function Tetra(n: nat): nat {
    if n == 0 then 0 else Tetra(n - 1) + Tri(n)
  }

  lemma {:induction false} TriClosed(n: nat)
    ensures 2 * Tri(n) == n * (n + 1)
  {
    if n > 0 {
      TriClosed(n - 1);
      assert (n - 1) * n + 2 * n == n * (n + 1);
    }
  }

  lemma {:induction false} TetraClosed(n: nat)
    ensures 6 * Tetra(n) == n * (n + 1) * (n + 2)
  {
    if n > 0 {
      var m := n - 1;
      TetraClosed(m);
      TriClosed(n);
      TetraStep(m, n);
    }
  }

  lemma TetraStep(m: int, n: int)
    requires n == m + 1
    ensures m * (m + 1) * (m + 2) + 3 * (n * (n + 1)) == n * (n + 1) * (n + 2)
  {
    var q := n * (n + 1);
    assert m * (m + 1) * (m + 2) == m * q;
    assert m * q + 3 * q == (m + 3) * q;
  }

  // ---------------------------------------------------------------------------
  // The ascending triples, listed layer by layer

  /** `[0, b, c], ..., [a - 1, b, c]`. */
  function RowOf(b: int, c: int, a: nat): seq<Triple> {
    if a == 0 then [] else RowOf(b, c, a - 1) + [[a - 1, b, c]]
  }

  /** The ascending triples `[x, y, c]` with `y < b`, for a fixed last component. */
  function Layer(c: int, b: nat): seq<Triple> {
    if b == 0 then [] else Layer(c, b - 1) + RowOf(b - 1, c, b)
  }

  /** All ascending triples with components in `0..n-1`. */
  function Canon(n: nat): seq<Triple> {
    if n == 0 then [] else Canon(n - 1) + Layer(n - 1, n)
  }

  lemma {:induction false} RowOfMember(b: int, c: int, a: nat, t: Triple)
    ensures t in RowOf(b, c, a) <==> 0 <= t[0] < a && t[1] == b && t[2] == c
  {
    if a > 0 {
      var m := a - 1;
      RowOfMember(b, c, m, t);
      assert t == [m, b, c] <==> t[0] == m && t[1] == b && t[2] == c;
    }
  }

  lemma {:induction false} LayerMember(c: int, b: nat, t: Triple)
    ensures t in Layer(c, b) <==> 0 <= t[0] <= t[1] < b && t[2] == c
  {
    if b > 0 {
      var m := b - 1;
      var prev, row := Layer(c, m), RowOf(m, c, b);
      LayerMember(c, m, t);
      RowOfMember(m, c, b, t);
      assert t in prev + row <==> t in prev || t in row;
    }
  }

  /** An ascending triple below `n` either stays below `m = n - 1` or ends in `m`. */
  lemma LastSplit(x: int, y: int, z: int, m: int, n: int)
    requires n == m + 1
    ensures (0 <= x <= y <= z < m || (0 <= x <= y < n && z == m)) <==> 0 <= x <= y <= z < n
  {
  }

  lemma {:induction false} CanonMember(n: nat, t: Triple)
    ensures t in Canon(n) <==> 0 <= t[0] <= t[1] <= t[2] < n
  {
    if n > 0 {
      var m := n - 1;
      var prev, layer := Canon(m), Layer(m, n);
      var inPrev, inLayer := t in prev, t in layer;
      assert inPrev <==> 0 <= t[0] <= t[1] <= t[2] < m by {
        CanonMember(m, t);
      }
      assert inLayer <==> 0 <= t[0] <= t[1] < n && t[2] == m by {
        LayerMember(m, n, t);
      }
      assert t in Canon(n) <==> inPrev || inLayer;
      LastSplit(t[0], t[1], t[2], m, n);
    }
  }

  lemma {:induction false} RowOfLength(b: int, c: int, a: nat)
    ensures |RowOf(b, c, a)| == a
  {
    if a > 0 {
      RowOfLength(b, c, a - 1);
    }
  }

  lemma {:induction false} LayerLength(c: int, b: nat)
    ensures |Layer(c, b)| == Tri(b)
  {
    if b > 0 {
      var m := b - 1;
      LayerLength(c, m);
      RowOfLength(m, c, b);
    }
  }

  lemma {:induction false} CanonLength(n: nat)
    ensures |Canon(n)| == Tetra(n)
  {
    if n > 0 {
      var m := n - 1;
      CanonLength(m);
      LayerLength(m, n);
    }
  }

  lemma {:induction false} RowOfDistinct(b: int, c: int, a: nat)
    ensures Distinct(RowOf(b, c, a))
  {
    if a > 0 {
      var m := a - 1;
      var last: Triple := [m, b, c];
      RowOfDistinct(b, c, m);
      RowOfMember(b, c, m, last);
      DistinctSnoc(RowOf(b, c, m), last);
    }
  }

  lemma {:induction false} LayerDistinct(c: int, b: nat)
    ensures Distinct(Layer(c, b))
  {
    if b > 0 {
      var m := b - 1;
      var prev, row := Layer(c, m), RowOf(m, c, b);
      LayerDistinct(c, m);
      RowOfDistinct(m, c, b);
      forall x | x in prev ensures x !in row {
        LayerMember(c, m, x);
        RowOfMember(m, c, b, x);
      }
      DistinctAppend(prev, row);
    }
  }

  lemma {:induction false} CanonDistinct(n: nat)
    ensures Distinct(Canon(n))
  {
    if n > 0 {
      var m := n - 1;
      var prev, layer := Canon(m), Layer(m, n);
      CanonDistinct(m);
      LayerDistinct(m, n);
      forall x | x in prev ensures x !in layer {
        CanonMember(m, x);
        LayerMember(m, n, x);
      }
      DistinctAppend(prev, layer);
    }
  }

  // ---------------------------------------------------------------------------
  // The size of the output

  /** Over `0..n-1` with `n >= 1`, `hkl_generator` returns C(n + 2, 3) - 1
      triples: every multiset of three values of the range, less `[0, 0, 0]`. */
  lemma HklCount(n: nat)
    requires n >= 1
    ensures |Hkl(Range(n))| == n * (n + 1) * (n + 2) / 6 - 1
  {
    var hkl, canon := Hkl(Range(n)), Canon(n);
    var zero: Triple := [0, 0, 0];
    CanonMember(n, zero);
    CanonLength(n);
    CanonDistinct(n);
    HklDistinct(Range(n));
    forall t: Triple ensures t in hkl <==> t in canon && t != zero {
      HklRange(n, t);
      CanonMember(n, t);
    }
    var i :| 0 <= i < |canon| && canon[i] == zero;
    DistinctRemove(canon, i);
    SameElementsSameLength(hkl, canon[..i] + canon[i + 1..]);
    TetraClosed(n);
  }
}
