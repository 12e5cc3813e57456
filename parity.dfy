/** `fcc_indices` and `bcc_indices`: the systematic-absence rules that pick the
    planes a face-centred or a body-centred cubic lattice can reflect from.
    Parity is Python's `i % 2`, which for the divisor 2 agrees with Dafny's
    `%` on every integer: the remainder is 0 or 1. */
module Parity {
  import opened Miller
  import opened Sequences

  predicate AllEven(t: Triple) {
    t[0] % 2 == 0 && t[1] % 2 == 0 && t[2] % 2 == 0
  }

  predicate AllOdd(t: Triple) {
    t[0] % 2 == 1 && t[1] % 2 == 1 && t[2] % 2 == 1
  }

  /** How many of the first `n` components of `s` are even. */
  function CountEven(s: seq<int>, n: nat): nat
    requires n <= |s|
  {
    if n == 0 then 0 else CountEven(s, n - 1) + (if s[n - 1] % 2 == 0 then 1 else 0)
  }

  /** How many of the first `n` components of `s` are odd. */
  function CountOdd(s: seq<int>, n: nat): nat
    requires n <= |s|
  {
    if n == 0 then 0 else CountOdd(s, n - 1) + (if s[n - 1] % 2 == 0 then 0 else 1)
  }

  /** The test after the counting loop (line 58): all three components were
      counted as even, or all three as odd. */
  predicate FccAllowed(t: Triple) {
    CountEven(t, 3) == 3 || CountOdd(t, 3) == 3
  }

  /** The body-centred test (line 68): the component sum is even. */
  predicate BccAllowed(t: Triple) {
    (t[0] + t[1] + t[2]) % 2 == 0
  }

  /** What `fcc_indices(miller_list)` returns. */
  function FccPlanes(millerList: seq<Triple>): seq<Triple>
  {
    Filter<Triple>(millerList, FccAllowed)
  }

  /** What `bcc_indices(miller_list)` returns. */
  function BccPlanes(millerList: seq<Triple>): seq<Triple>
  {
    Filter<Triple>(millerList, BccAllowed)
  }

  // ---------------------------------------------------------------------------
  // The two filters

  /** `fcc_indices`: count the even and odd components of each plane and keep
      the plane when three of either kind were counted. */
  method FccIndices(millerList: seq<Triple>) returns (finalList: seq<Triple>)
    ensures finalList == FccPlanes(millerList)
  {
    finalList := [];
    var p := 0;
    while p < |millerList|
      invariant 0 <= p <= |millerList|
      invariant finalList == FccPlanes(millerList[..p])
    {
      var plane := millerList[p];
      var oddCounter, evenCounter := 0, 0;
      var c := 0;
      while c < |plane|
        invariant 0 <= c <= |plane|
        invariant evenCounter == CountEven(plane, c)
        invariant oddCounter == CountOdd(plane, c)
      {
        if plane[c] % 2 == 0 {
          evenCounter := evenCounter + 1;
        } else {
          oddCounter := oddCounter + 1;
        }
        c := c + 1;
      }
      if evenCounter == 3 || oddCounter == 3 {
        finalList := finalList + [plane];
      }
      FilterSnoc<Triple>(millerList[..p], plane, FccAllowed);
      assert millerList[..p + 1] == millerList[..p] + [plane];
      p := p + 1;
    }
    assert millerList[..p] == millerList;
  }

  /** `bcc_indices`: keep each plane whose component sum is even. */
  method BccIndices(millerList: seq<Triple>) returns (finalList: seq<Triple>)
    ensures finalList == BccPlanes(millerList)
  {
    finalList := [];
    var p := 0;
    while p < |millerList|
      invariant 0 <= p <= |millerList|
      invariant finalList == BccPlanes(millerList[..p])
    {
      var plane := millerList[p];
      if (plane[0] + plane[1] + plane[2]) % 2 == 0 {
        finalList := finalList + [plane];
      }
      FilterSnoc<Triple>(millerList[..p], plane, BccAllowed);
      assert millerList[..p + 1] == millerList[..p] + [plane];
      p := p + 1;
    }
    assert millerList[..p] == millerList;
  }

  // ---------------------------------------------------------------------------
  // What the rules mean

  /** Every component is counted exactly once, as even or as odd. */
  lemma {:induction false} CountsAddUp(s: seq<int>, n: nat)
    requires n <= |s|
    ensures CountEven(s, n) + CountOdd(s, n) == n
  {
    if n > 0 {
      CountsAddUp(s, n - 1);
    }
  }

  /** The counting rule is the face-centred extinction rule: a plane is kept
      exactly when its components are all even or all odd; since a plane has
      three components, the two counters always add up to 3. */
  lemma FccRule(t: Triple)
    ensures CountEven(t, 3) + CountOdd(t, 3) == 3
    ensures FccAllowed(t) <==> AllEven(t) || AllOdd(t)
  {
    CountsAddUp(t, 3);
    assert CountEven(t, 1) == (if t[0] % 2 == 0 then 1 else 0);
    assert CountEven(t, 2) == CountEven(t, 1) + (if t[1] % 2 == 0 then 1 else 0);
    assert CountOdd(t, 1) == (if t[0] % 2 == 0 then 0 else 1);
    assert CountOdd(t, 2) == CountOdd(t, 1) + (if t[1] % 2 == 0 then 0 else 1);
    assert CountEven(t, 3) == (if t[0] % 2 == 0 then 1 else 0) + (if t[1] % 2 == 0 then 1 else 0)
                             + (if t[2] % 2 == 0 then 1 else 0);
    assert CountOdd(t, 3) == (if t[0] % 2 == 0 then 0 else 1) + (if t[1] % 2 == 0 then 0 else 1)
                            + (if t[2] % 2 == 0 then 0 else 1);
  }

  /** The body-centred rule holds exactly when an even number (none or two) of
      the components are odd. */
  lemma BccRule(t: Triple)
    ensures BccAllowed(t) <==> CountOdd(t, 3) % 2 == 0
  {
    assert CountOdd(t, 1) == (if t[0] % 2 == 0 then 0 else 1);
    assert CountOdd(t, 2) == CountOdd(t, 1) + (if t[1] % 2 == 0 then 0 else 1);
    assert CountOdd(t, 3) == (if t[0] % 2 == 0 then 0 else 1) + (if t[1] % 2 == 0 then 0 else 1)
                            + (if t[2] % 2 == 0 then 0 else 1);
  }

  /** A plane passes both rules exactly when all its components are even. */
  lemma BothRules(t: Triple)
    ensures FccAllowed(t) && BccAllowed(t) <==> AllEven(t)
  {
    FccRule(t);
    BccRule(t);
  }

  /** `fcc_indices` keeps exactly the all-even and all-odd planes, every
      occurrence of them, in their original relative order, and never
      lengthens the list; applied to its own output it changes nothing. */
  lemma FccSelection(s: seq<Triple>, t: Triple)
    ensures t in FccPlanes(s) <==> t in s && (AllEven(t) || AllOdd(t))
    ensures multiset(FccPlanes(s))[t] ==
              if AllEven(t) || AllOdd(t) then multiset(s)[t] else 0
    ensures IsSubsequence(FccPlanes(s), s)
    ensures |FccPlanes(s)| <= |s|
    ensures FccPlanes(FccPlanes(s)) == FccPlanes(s)
  {
    FccRule(t);
    FilterMember<Triple>(s, FccAllowed, t);
    FilterMultiset<Triple>(s, FccAllowed, t);
    FilterSubsequence<Triple>(s, FccAllowed);
    FilterLength<Triple>(s, FccAllowed);
    FilterIdempotent<Triple>(s, FccAllowed);
  }

  /** `bcc_indices` keeps exactly the planes with an even component sum, every
      occurrence of them, in their original relative order, and never
      lengthens the list; applied to its own output it changes nothing. */
  lemma BccSelection(s: seq<Triple>, t: Triple)
    ensures t in BccPlanes(s) <==> t in s && (t[0] + t[1] + t[2]) % 2 == 0
    ensures multiset(BccPlanes(s))[t] ==
              if (t[0] + t[1] + t[2]) % 2 == 0 then multiset(s)[t] else 0
    ensures IsSubsequence(BccPlanes(s), s)
    ensures |BccPlanes(s)| <= |s|
    ensures BccPlanes(BccPlanes(s)) == BccPlanes(s)
  {
    FilterMember<Triple>(s, BccAllowed, t);
    FilterMultiset<Triple>(s, BccAllowed, t);
    FilterSubsequence<Triple>(s, BccAllowed);
    FilterLength<Triple>(s, BccAllowed);
    FilterIdempotent<Triple>(s, BccAllowed);
  }

  /** The classification of three sample planes: (1,1,1) is face-centred
      only, (1,1,2) body-centred only, (2,2,2) both. */
  lemma SamplePlanes()
    ensures FccAllowed([1, 1, 1]) && !BccAllowed([1, 1, 1])
    ensures !FccAllowed([1, 1, 2]) && BccAllowed([1, 1, 2])
    ensures FccAllowed([2, 2, 2]) && BccAllowed([2, 2, 2])
  {
  }
}
