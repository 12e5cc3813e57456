/** How `main` chains the pieces: the planes of `hkl_generator` are split by
    `fcc_indices` and `bcc_indices`, and each list then labels one table that
    `plotter` ranks. */
module Pipeline {
  import opened Miller
  import opened Sequences
  import opened Generator
  import opened Parity
  import opened Ranking

  /** Lines 138-142 of `main`: the candidate planes and their two
      structure-allowed subsets. */
  method IndexSets(index: seq<int>) returns (millerFcc: seq<Triple>, millerBcc: seq<Triple>)
    ensures millerFcc == FccPlanes(Hkl(index))
    ensures millerBcc == BccPlanes(Hkl(index))
  {
    var millerList := HklGenerator(index);
    millerFcc := FccIndices(millerList);
    millerBcc := BccIndices(millerList);
  }

  /** Both subsets label their tables without repeats, which is what makes the
      ranking's drop by label the same as keeping the first nine rows. */
  lemma LabelsDistinct(index: seq<int>)
    ensures Distinct(FccPlanes(Hkl(index))) && Distinct(BccPlanes(Hkl(index)))
  {
    HklDistinct(index);
    FilterDistinct<Triple>(Hkl(index), FccAllowed);
    FilterDistinct<Triple>(Hkl(index), BccAllowed);
  }

  /** The first row of a ranking belongs to a plane of the list whose key is
      no larger than that of any plane `x` of the list. */
  lemma TopIsLeast(millerInd: seq<Triple>, aParams: seq<seq<real>>, x: Triple)
    requires Distinct(millerInd) && |aParams| == |millerInd| && x in millerInd
    ensures Rank(millerInd, aParams).Ranked?
    ensures Rank(millerInd, aParams).rows != []
    ensures Rank(millerInd, aParams).rows[0].hkl in millerInd
    ensures NormSq(Rank(millerInd, aParams).rows[0].hkl) <= NormSq(x)
  {
    var joined := Joined(millerInd, aParams);
    var sorted := SortByG(joined);
    RankIsPrefix(millerInd, aParams);
    var i :| 0 <= i < |millerInd| && millerInd[i] == x;
    assert joined[i] in multiset(sorted);
    var j :| 0 <= j < |sorted| && sorted[j] == joined[i];
    assert sorted[0] in multiset(joined);
    JoinedKeys(millerInd, aParams, sorted[0]);
  }

  /** Among the non-zero canonical planes of non-negative components, (1, 1, 1)
      is the only face-centred one with g_hkl² at most 3. */
  lemma FccLeast(t: Triple)
    requires IsSorted(t) && 0 <= t[0] && t != [0, 0, 0]
    requires FccAllowed(t) && NormSq(t) <= 3
    ensures t == [1, 1, 1]
  {
    assert t[2] <= 1;
    FccRule(t);
    assert t == [t[0], t[1], t[2]];
  }

  /** Among the non-zero canonical planes of non-negative components, (0, 1, 1)
      is the only body-centred one with g_hkl² at most 2. */
  lemma BccLeast(t: Triple)
    requires IsSorted(t) && 0 <= t[0] && t != [0, 0, 0]
    requires BccAllowed(t) && NormSq(t) <= 2
    ensures t == [0, 1, 1]
  {
  }

  /** Over the range `0..n-1` with `n >= 2`, the top-ranked face-centred
      plane is (1, 1, 1), whatever the estimates in the table. */
  lemma FccTopPlane(n: nat, aParams: seq<seq<real>>)
    requires n >= 2 && |aParams| == |FccPlanes(Hkl(Range(n)))|
    ensures Distinct(FccPlanes(Hkl(Range(n))))
    ensures Rank(FccPlanes(Hkl(Range(n))), aParams).Ranked?
    ensures Rank(FccPlanes(Hkl(Range(n))), aParams).rows != []
    ensures Rank(FccPlanes(Hkl(Range(n))), aParams).rows[0].hkl == [1, 1, 1]
  {
    var hkl := Hkl(Range(n));
    var fcc := FccPlanes(hkl);
    var one: Triple := [1, 1, 1];
    LabelsDistinct(Range(n));
    HklRange(n, one);
    FccSelection(hkl, one);
    TopIsLeast(fcc, aParams, one);
    var t := Rank(fcc, aParams).rows[0].hkl;
    FccSelection(hkl, t);
    HklRange(n, t);
    FccRule(t);
    FccLeast(t);
  }

  /** Over the range `0..n-1` with `n >= 2`, the top-ranked body-centred
      plane is (0, 1, 1), whatever the estimates in the table. */
  lemma BccTopPlane(n: nat, aParams: seq<seq<real>>)
    requires n >= 2 && |aParams| == |BccPlanes(Hkl(Range(n)))|
    ensures Distinct(BccPlanes(Hkl(Range(n))))
    ensures Rank(BccPlanes(Hkl(Range(n))), aParams).Ranked?
    ensures Rank(BccPlanes(Hkl(Range(n))), aParams).rows != []
    ensures Rank(BccPlanes(Hkl(Range(n))), aParams).rows[0].hkl == [0, 1, 1]
  {
    var hkl := Hkl(Range(n));
    var bcc := BccPlanes(hkl);
    var low: Triple := [0, 1, 1];
    LabelsDistinct(Range(n));
    HklRange(n, low);
    BccSelection(hkl, low);
    TopIsLeast(bcc, aParams, low);
    var t := Rank(bcc, aParams).rows[0].hkl;
    BccSelection(hkl, t);
    HklRange(n, t);
    BccLeast(t);
  }
}
