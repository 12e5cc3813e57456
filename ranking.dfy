/** The ranking step: `sqrt_ind` computes g_hkl for every plane, and the
    table of planes, g_hkl and lattice-parameter estimates is sorted by g_hkl
    and cut down to its first nine rows. The key used here is the exact
    integer h² + k² + l². The square root is strictly increasing on
    non-negative numbers, so for components of moderate size (such as the
    range 0..4 the program uses) this key orders the rows as the program's
    floating-point g_hkl does; for very large components the program's
    64-bit integers and rounded square roots can differ from it. */
module Ranking {
  import opened Miller
  import opened Sequences

  /** How many rows the cut at line 112 keeps. */
  const Keep: nat := 9

  /** g_hkl², the sort key of a plane. */
  function NormSq(t: Triple): (r: int)
    ensures r >= 0
    ensures r == 0 <==> t == [0, 0, 0]
  {
    assert t == [t[0], t[1], t[2]];
    t[0] * t[0] + t[1] * t[1] + t[2] * t[2]
  }

  /** `sqrt_ind`: one key per plane, in the order of the planes. */
  method SqrtInd(millerList: seq<Triple>) returns (sqrtSum: seq<int>)
    ensures |sqrtSum| == |millerList|
    ensures forall i :: 0 <= i < |millerList| ==> sqrtSum[i] == NormSq(millerList[i])
  {
    sqrtSum := [];
    var i := 0;
    while i < |millerList|
      invariant 0 <= i <= |millerList|
      invariant |sqrtSum| == i
      invariant forall j :: 0 <= j < i ==> sqrtSum[j] == NormSq(millerList[j])
    {
      var hkl := millerList[i];
      var gHkl := hkl[0] * hkl[0] + hkl[1] * hkl[1] + hkl[2] * hkl[2];
      sqrtSum := sqrtSum + [gHkl];
      i := i + 1;
    }
  }

  // ---------------------------------------------------------------------------
  // The joined table

  /** One row of the joined table: the plane (its label), its key and the
      lattice-parameter estimates of that plane, one per d-spacing. */
  datatype Row = Row(hkl: Triple, g: int, params: seq<real>)

  /** The outcome of the ranking: the kept rows, or one of two failures the
      program raises. With no estimate rows at all the estimate array is
      one-dimensional and asking for its column count fails at line 95
      (`NoEstimateRows`); estimate rows that do not line up with the labels
      make the scatter plot of line 97 fail first, and the frame of line 99
      after it (`ShapeMismatch`). */
  datatype Ranked = Ranked(rows: seq<Row>) | NoEstimateRows | ShapeMismatch

  /** The join of the key frame with the estimate frames. Every frame is
      indexed by the same labels, and when those labels are distinct the join
      pairs row `i` of each frame: plane `i`, its key and its estimates. */
  function Joined(millerInd: seq<Triple>, aParams: seq<seq<real>>): (rows: seq<Row>)
    requires |aParams| == |millerInd|
  {
    seq(|millerInd|, i requires 0 <= i < |millerInd| =>
      Row(millerInd[i], NormSq(millerInd[i]), aParams[i]))
  }

  function Labels(s: seq<Row>): (r: seq<Triple>)
    ensures |r| == |s|
    ensures forall i :: 0 <= i < |s| ==> r[i] == s[i].hkl
  {
    seq(|s|, i requires 0 <= i < |s| => s[i].hkl)
  }

  predicate DistinctLabels(s: seq<Row>) {
    forall i, j :: 0 <= i < j < |s| ==> s[i].hkl != s[j].hkl
  }

  predicate SortedByG(s: seq<Row>) {
    forall i, j :: 0 <= i < j < |s| ==> s[i].g <= s[j].g
  }

  // ---------------------------------------------------------------------------
  // Sorting by g_hkl

  function Insert(x: Row, s: seq<Row>): (r: seq<Row>)
    requires SortedByG(s)
    ensures SortedByG(r)
    ensures multiset(r) == multiset(s) + multiset{x}
    ensures |r| == |s| + 1
    ensures r[0] == if s == [] || x.g <= s[0].g then x else s[0]
  {
    if s == [] then [x]
    else if x.g <= s[0].g then [x] + s
    else
      var rest := Insert(x, s[1..]);
      assert forall j :: 0 <= j < |rest| ==> rest[0].g <= rest[j].g;
      assert s == [s[0]] + s[1..];
      [s[0]] + rest
  }

  /** The sort by g_hkl (line 111): the same rows, in non-decreasing key order.
      Rows with equal keys may come out in any order; pandas does not promise
      one. */
  function SortByG(s: seq<Row>): (r: seq<Row>)
    ensures SortedByG(r)
    ensures multiset(r) == multiset(s)
  {
    if s == [] then []
    else
      assert s == [s[0]] + s[1..];
      Insert(s[0], SortByG(s[1..]))
  }

  // ---------------------------------------------------------------------------
  // Cutting the sorted table down

  function Min(a: nat, b: nat): nat {
    if a <= b then a else b
  }

  /** Dropping by label: every row whose label is listed goes. */
  function DropLabels(s: seq<Row>, labels: seq<Triple>): seq<Row>
  {
    Filter<Row>(s, (r: Row) => r.hkl !in labels)
  }

  /** The cut of line 112: the labels of the rows from position 9 on are
      dropped (none when there are nine or fewer). */
  function Reduced(sorted: seq<Row>): seq<Row>
  {
    DropLabels(sorted, Labels(sorted[Min(Keep, |sorted|)..]))
  }

  /** What `plotter` computes for a list of distinct planes: the failure
      of line 95, the size mismatch first met at line 97, then the join,
      sort and cut of lines 110-112. */
  function Rank(millerInd: seq<Triple>, aParams: seq<seq<real>>): Ranked
    requires Distinct(millerInd)
  {
    if |aParams| == 0 then NoEstimateRows
    else if |aParams| != |millerInd| then ShapeMismatch
    else Ranked(Reduced(SortByG(Joined(millerInd, aParams))))
  }

  /** The ranking as `plotter` performs it: keys from `sqrt_ind`, the joined
      table, the sort and the drop. */
  method RankTable(millerInd: seq<Triple>, aParams: seq<seq<real>>) returns (result: Ranked)
    requires Distinct(millerInd)
    ensures result == Rank(millerInd, aParams)
  {
    var gHkl := SqrtInd(millerInd);
    if |aParams| == 0 {
      return NoEstimateRows;
    }
    if |aParams| != |millerInd| {
      return ShapeMismatch;
    }
    var fullDf := seq(|millerInd|, i requires 0 <= i < |millerInd| =>
                        Row(millerInd[i], gHkl[i], aParams[i]));
    assert fullDf == Joined(millerInd, aParams);
    var sortedDf := SortByG(fullDf);
    var dropped := Labels(sortedDf[Min(Keep, |sortedDf|)..]);
    result := Ranked(DropLabels(sortedDf, dropped));
  }

  // ---------------------------------------------------------------------------
  // What the ranking promises

  /** A permutation of rows with distinct labels has distinct labels. */
  lemma PermutationKeepsLabelsDistinct(a: seq<Row>, b: seq<Row>)
    requires DistinctLabels(a) && multiset(a) == multiset(b)
    ensures DistinctLabels(b)
  {
    assert Distinct(a);
    forall x | x in b ensures multiset(b)[x] <= 1 {
      DistinctCount(a, x);
    }
    CountDistinct(b);
    forall i, j | 0 <= i < j < |b| ensures b[i].hkl != b[j].hkl {
      assert b[i] in multiset(a) && b[j] in multiset(a);
      var p :| 0 <= p < |a| && a[p] == b[i];
      var q :| 0 <= q < |a| && a[q] == b[j];
      assert p != q;
    }
  }

  /** Dropping by label removes exactly the rows from position `Keep` on when
      the labels are distinct. */
  lemma ReducedIsPrefix(s: seq<Row>)
    requires DistinctLabels(s)
    ensures Reduced(s) == s[..Min(Keep, |s|)]
  {
    var m := Min(Keep, |s|);
    var dropped := Labels(s[m..]);
    var keep := (r: Row) => r.hkl !in dropped;
    assert s == s[..m] + s[m..];
    FilterAppend(s[..m], s[m..], keep);
    forall x | x in s[..m] ensures keep(x) {
      var i :| 0 <= i < m && s[..m][i] == x;
    }
    forall x | x in s[m..] ensures !keep(x) {
      var j :| 0 <= j < |s[m..]| && s[m..][j] == x;
      assert dropped[j] == x.hkl;
    }
    FilterAllKept(s[..m], keep);
    FilterNoneKept(s[m..], keep);
  }

  /** A prefix of a sorted table is sorted, is part of the table, and holds
      keys no larger than those of the rows after it. */
  lemma SortedPrefix(sorted: seq<Row>, m: nat)
    requires SortedByG(sorted) && m <= |sorted|
    ensures SortedByG(sorted[..m])
    ensures multiset(sorted[..m]) <= multiset(sorted)
    ensures forall x, y :: x in multiset(sorted) - multiset(sorted[..m]) && y in sorted[..m] ==> y.g <= x.g
  {
    var rows := sorted[..m];
    assert sorted == rows + sorted[m..];
    assert multiset(sorted) == multiset(rows) + multiset(sorted[m..]);
    forall x, y | x in multiset(sorted) - multiset(rows) && y in rows ensures y.g <= x.g {
      assert x in sorted[m..];
      var j :| 0 <= j < |sorted[m..]| && sorted[m..][j] == x;
      var i :| 0 <= i < m && rows[i] == y;
      assert sorted[m + j] == x && sorted[i] == y;
    }
  }

  /** Every row of the joined table carries its own plane's key. */
  lemma JoinedKeys(millerInd: seq<Triple>, aParams: seq<seq<real>>, r: Row)
    requires |aParams| == |millerInd| && r in multiset(Joined(millerInd, aParams))
    ensures r.hkl in millerInd && r.g == NormSq(r.hkl)
  {
  }

  /** With distinct planes, the drop by label is the cut to the first nine
      rows of the sorted table. */
  lemma RankIsPrefix(millerInd: seq<Triple>, aParams: seq<seq<real>>)
    requires Distinct(millerInd) && 0 < |aParams| == |millerInd|
    ensures Rank(millerInd, aParams) ==
              Ranked(SortByG(Joined(millerInd, aParams))[..Min(Keep, |millerInd|)])
  {
    var joined := Joined(millerInd, aParams);
    var sorted := SortByG(joined);
    assert DistinctLabels(joined);
    PermutationKeepsLabelsDistinct(joined, sorted);
    ReducedIsPrefix(sorted);
  }

  /** The ranking succeeds exactly when there is one estimate row per plane
      and at least one plane; an empty plane list always fails, as the
      program's column-count lookup does. A successful ranking holds between
      one and nine rows. */
  lemma RankOutcome(millerInd: seq<Triple>, aParams: seq<seq<real>>)
    requires Distinct(millerInd)
    ensures Rank(millerInd, aParams).Ranked? <==> 0 < |aParams| == |millerInd|
    ensures millerInd == [] ==> !Rank(millerInd, aParams).Ranked?
    ensures Rank(millerInd, aParams).Ranked? ==> 1 <= |Rank(millerInd, aParams).rows| <= Keep
  {
    if 0 < |aParams| == |millerInd| {
      var joined := Joined(millerInd, aParams);
      var sorted := SortByG(joined);
      RankIsPrefix(millerInd, aParams);
      assert |sorted| == |multiset(sorted)| == |multiset(joined)| == |joined|;
    }
  }

  /** Sorting by g_hkl and keeping the first nine rows yields `min(9, P)`
      rows, in non-decreasing g_hkl, each a row of the joined table (as a
      sub-multiset) keyed by its own plane; and every row left out has a
      g_hkl at least as large as every row kept. */
  lemma RankKeepsLowestOrders(millerInd: seq<Triple>, aParams: seq<seq<real>>)
    requires Distinct(millerInd) && 0 < |aParams| == |millerInd|
    ensures Rank(millerInd, aParams).Ranked?
    ensures var rows := Rank(millerInd, aParams).rows;
            var joined := Joined(millerInd, aParams);
            && |rows| == Min(Keep, |millerInd|)
            && SortedByG(rows)
            && multiset(rows) <= multiset(joined)
            && (forall r :: r in rows ==> r.hkl in millerInd && r.g == NormSq(r.hkl))
            && (forall x, y :: x in multiset(joined) - multiset(rows) && y in rows ==> y.g <= x.g)
  {
    var joined := Joined(millerInd, aParams);
    var sorted := SortByG(joined);
    var m := Min(Keep, |millerInd|);
    RankIsPrefix(millerInd, aParams);
    SortedPrefix(sorted, m);
    var rows := sorted[..m];
    forall r | r in rows ensures r.hkl in millerInd && r.g == NormSq(r.hkl) {
      assert r in multiset(joined);
      JoinedKeys(millerInd, aParams, r);
    }
  }
}
