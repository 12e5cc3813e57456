/** `hkl_generator`: every triple over the index range, each sorted into its
    canonical form, duplicates removed keeping the first occurrence, and the
    first surviving triple dropped by position. */
module Generator {
  import opened Miller
  import opened Sequences

  // ---------------------------------------------------------------------------
  // The enumeration of the three nested loops, h outermost, l innermost

  /** The innermost loop after `c` steps: `[h, k, l]` for the first `c`
      values `l` of `ls`, in order. */
  function EnumL(h: int, k: int, ls: seq<int>, c: nat): seq<Triple>
    requires c <= |ls|
  {
    if c == 0 then [] else EnumL(h, k, ls, c - 1) + [[h, k, ls[c - 1]]]
  }

  /** The two inner loops for one `h`, after `b` steps of the middle one. */
  function EnumKL(h: int, ks: seq<int>, ls: seq<int>, b: nat): seq<Triple>
    requires b <= |ks|
  {
    if b == 0 then [] else EnumKL(h, ks, ls, b - 1) + EnumL(h, ks[b - 1], ls, |ls|)
  }

  /** All three loops, after `a` steps of the outer one. */
  function EnumHKL(hs: seq<int>, ks: seq<int>, ls: seq<int>, a: nat): seq<Triple>
    requires a <= |hs|
  {
    if a == 0 then [] else EnumHKL(hs, ks, ls, a - 1) + EnumKL(hs[a - 1], ks, ls, |ks|)
  }

  /** The list built by the three loops, before any sorting. */
  function Enumeration(index: seq<int>): seq<Triple>
  {
    EnumHKL(index, index, index, |index|)
  }

  lemma {:induction false} EnumLMember(h: int, k: int, ls: seq<int>, c: nat, t: Triple)
    requires c <= |ls|
    ensures t in EnumL(h, k, ls, c) <==> t[0] == h && t[1] == k && t[2] in ls[..c]
  {
    if c > 0 {
      EnumLMember(h, k, ls, c - 1, t);
      assert ls[..c] == ls[..c - 1] + [ls[c - 1]];
      assert t == [h, k, ls[c - 1]] <==> t[0] == h && t[1] == k && t[2] == ls[c - 1];
    }
  }

  lemma {:induction false} EnumKLMember(h: int, ks: seq<int>, ls: seq<int>, b: nat, t: Triple)
    requires b <= |ks|
    ensures t in EnumKL(h, ks, ls, b) <==> t[0] == h && t[1] in ks[..b] && t[2] in ls
  {
    if b > 0 {
      var prev, last := EnumKL(h, ks, ls, b - 1), EnumL(h, ks[b - 1], ls, |ls|);
      EnumKLMember(h, ks, ls, b - 1, t);
      EnumLMember(h, ks[b - 1], ls, |ls|, t);
      assert t in prev + last <==> t in prev || t in last;
      assert ks[..b] == ks[..b - 1] + [ks[b - 1]];
      assert t[1] in ks[..b] <==> t[1] in ks[..b - 1] || t[1] == ks[b - 1];
      assert ls[..|ls|] == ls;
    }
  }

  lemma {:induction false} EnumHKLMember(hs: seq<int>, ks: seq<int>, ls: seq<int>, a: nat, t: Triple)
    requires a <= |hs|
    ensures t in EnumHKL(hs, ks, ls, a) <==> t[0] in hs[..a] && t[1] in ks && t[2] in ls
  {
    if a > 0 {
      var prev, last := EnumHKL(hs, ks, ls, a - 1), EnumKL(hs[a - 1], ks, ls, |ks|);
      EnumHKLMember(hs, ks, ls, a - 1, t);
      EnumKLMember(hs[a - 1], ks, ls, |ks|, t);
      assert t in prev + last <==> t in prev || t in last;
      assert hs[..a] == hs[..a - 1] + [hs[a - 1]];
      assert t[0] in hs[..a] <==> t[0] in hs[..a - 1] || t[0] == hs[a - 1];
      assert ks[..|ks|] == ks;
    }
  }

  /** The loops produce exactly the triples whose components are all drawn
      from `index`. */
  lemma EnumerationMember(index: seq<int>, t: Triple)
    ensures t in Enumeration(index) <==> t[0] in index && t[1] in index && t[2] in index
  {
    EnumHKLMember(index, index, index, |index|, t);
    assert index[..|index|] == index;
  }

  lemma {:induction false} EnumLHead(h: int, k: int, ls: seq<int>, c: nat)
    requires 0 < c <= |ls|
    ensures EnumL(h, k, ls, c) != [] && EnumL(h, k, ls, c)[0] == [h, k, ls[0]]
  {
    if c > 1 {
      EnumLHead(h, k, ls, c - 1);
    }
  }

  lemma {:induction false} EnumKLHead(h: int, ks: seq<int>, ls: seq<int>, b: nat)
    requires 0 < b <= |ks| && ls != []
    ensures EnumKL(h, ks, ls, b) != [] && EnumKL(h, ks, ls, b)[0] == [h, ks[0], ls[0]]
  {
    if b > 1 {
      EnumKLHead(h, ks, ls, b - 1);
    } else {
      EnumLHead(h, ks[0], ls, |ls|);
    }
  }

  lemma {:induction false} EnumHKLHead(hs: seq<int>, ks: seq<int>, ls: seq<int>, a: nat)
    requires 0 < a <= |hs| && ks != [] && ls != []
    ensures EnumHKL(hs, ks, ls, a) != [] && EnumHKL(hs, ks, ls, a)[0] == [hs[0], ks[0], ls[0]]
  {
    if a > 1 {
      EnumHKLHead(hs, ks, ls, a - 1);
    } else {
      EnumKLHead(hs[0], ks, ls, |ks|);
    }
  }

  lemma {:induction false} EnumLLength(h: int, k: int, ls: seq<int>, c: nat)
    requires c <= |ls|
    ensures |EnumL(h, k, ls, c)| == c
  {
    if c > 0 {
      EnumLLength(h, k, ls, c - 1);
    }
  }

  lemma MulStep(a: nat, m: nat)
    requires a > 0
    ensures (a - 1) * m + m == a * m
  {
  }

  lemma {:induction false} EnumKLLength(h: int, ks: seq<int>, ls: seq<int>, b: nat)
    requires b <= |ks|
    ensures |EnumKL(h, ks, ls, b)| == b * |ls|
  {
    if b > 0 {
      EnumKLLength(h, ks, ls, b - 1);
      EnumLLength(h, ks[b - 1], ls, |ls|);
      MulStep(b, |ls|);
    }
  }

  lemma {:induction false} EnumHKLLength(hs: seq<int>, ks: seq<int>, ls: seq<int>, a: nat)
    requires a <= |hs|
    ensures |EnumHKL(hs, ks, ls, a)| == a * (|ks| * |ls|)
  {
    if a > 0 {
      EnumHKLLength(hs, ks, ls, a - 1);
      EnumKLLength(hs[a - 1], ks, ls, |ks|);
      MulStep(a, |ks| * |ls|);
    }
  }

  // ---------------------------------------------------------------------------
  // The specification of hkl_generator

  /** The second loop: every triple replaced by its sorted form. */
  function SortAll(s: seq<Triple>): (r: seq<Triple>)
    ensures |r| == |s|
    ensures forall i :: 0 <= i < |s| ==> r[i] == Sort3(s[i])
  {
    seq(|s|, i requires 0 <= i < |s| => Sort3(s[i]))
  }

  /** The sorted enumeration that the deduplicating loop walks through. */
  function Sorted(index: seq<int>): seq<Triple>
  {
    SortAll(Enumeration(index))
  }

  /** The deduplicated list, before its head is dropped. */
  function Candidates(index: seq<int>): seq<Triple>
  {
    Dedup(Sorted(index))
  }

  /** What `hkl_generator(index)` returns: `res_miller_list[1:]`. */
  function Hkl(index: seq<int>): seq<Triple>
  {
    Tail(Candidates(index))
  }

  /** `hkl_generator`: the three phases of the function body, then the slice
      `res_miller_list[1:]`. */
  method HklGenerator(index: seq<int>) returns (result: seq<Triple>)
    ensures result == Hkl(index)
    ensures index == [] ==> result == []
  {
    var millerList := BuildAll(index);
    millerList := SortEach(millerList);
    var resMillerList := KeepFirst(millerList);
    result := if |resMillerList| == 0 then [] else resMillerList[1..];
  }

  /** The three nested loops (h, then k, then l) appending `[h, k, l]`. */
  method BuildAll(index: seq<int>) returns (millerList: seq<Triple>)
    ensures millerList == Enumeration(index)
  {
    millerList := [];
    var a := 0;
    while a < |index|
      invariant 0 <= a <= |index|
      invariant millerList == EnumHKL(index, index, index, a)
    {
      var h := index[a];
      var b := 0;
      while b < |index|
        invariant 0 <= b <= |index|
        invariant millerList == EnumHKL(index, index, index, a) + EnumKL(h, index, index, b)
      {
        var k := index[b];
        var c := 0;
        while c < |index|
          invariant 0 <= c <= |index|
          invariant millerList == EnumHKL(index, index, index, a) + EnumKL(h, index, index, b)
                                  + EnumL(h, k, index, c)
        {
          var l := index[c];
          millerList := millerList + [[h, k, l]];
          c := c + 1;
        }
        b := b + 1;
      }
      a := a + 1;
    }
  }

  /** The second loop (lines 34-35): each plane replaced by its ascending
      form, position by position. */
  method SortEach(millerList: seq<Triple>) returns (sorted: seq<Triple>)
    ensures sorted == SortAll(millerList)
  {
    sorted := millerList;
    var p := 0;
    while p < |sorted|
      invariant 0 <= p <= |sorted| == |millerList|
      invariant forall q :: 0 <= q < p ==> sorted[q] == Sort3(millerList[q])
      invariant forall q :: p <= q < |sorted| ==> sorted[q] == millerList[q]
    {
      sorted := sorted[p := Sort3(sorted[p])];
      p := p + 1;
    }
  }

  /** The third loop (lines 39-41): a plane is appended only when it has not
      been kept already, leaving the first occurrence of each plane. */
  method KeepFirst(millerList: seq<Triple>) returns (resMillerList: seq<Triple>)
    ensures resMillerList == Dedup(millerList)
  {
    resMillerList := [];
    var i := 0;
    while i < |millerList|
      invariant 0 <= i <= |millerList|
      invariant resMillerList == Dedup(millerList[..i])
    {
      var plane := millerList[i];
      assert millerList[..i + 1][..i] == millerList[..i];
      if plane !in resMillerList {
        resMillerList := resMillerList + [plane];
      }
      i := i + 1;
    }
    assert millerList[..i] == millerList;
  }

  // ---------------------------------------------------------------------------
  // What hkl_generator promises

  /** Before the slice, the list holds exactly the canonical (sorted) triples
      whose components are all drawn from `index`. */
  lemma CandidatesMember(index: seq<int>, t: Triple)
    ensures t in Candidates(index) <==>
              IsSorted(t) && t[0] in index && t[1] in index && t[2] in index
  {
    var e := Enumeration(index);
    var s := Sorted(index);
    DedupMember(s, t);
    if t in s {
      var q :| 0 <= q < |s| && s[q] == t;
      var u := e[q];
      assert t == Sort3(u);
      EnumerationMember(index, u);
      Sort3Components(u, t[0]);
      Sort3Components(u, t[1]);
      Sort3Components(u, t[2]);
    }
    if IsSorted(t) && t[0] in index && t[1] in index && t[2] in index {
      EnumerationMember(index, t);
      var q :| 0 <= q < |e| && e[q] == t;
      CanonicalForm(t, t);
      assert s[q] == t;
    }
  }

  /** The element that the positional drop removes is the first one kept,
      `[index[0], index[0], index[0]]` (which is `[0, 0, 0]` for a range
      starting at 0). */
  lemma CandidatesHead(index: seq<int>)
    requires index != []
    ensures Candidates(index) != []
    ensures Candidates(index)[0] == [index[0], index[0], index[0]]
    ensures Hkl(index) == Candidates(index)[1..]
  {
    EnumHKLHead(index, index, index, |index|);
    var t: Triple := [index[0], index[0], index[0]];
    CanonicalForm(t, t);
    DedupHead(Sorted(index));
  }

  /** Completeness and soundness: the output holds exactly the canonical
      triples over `index` other than `[index[0], index[0], index[0]]`. */
  lemma HklMember(index: seq<int>, t: Triple)
    requires index != []
    ensures t in Hkl(index) <==>
              IsSorted(t) && t[0] in index && t[1] in index && t[2] in index &&
              t != [index[0], index[0], index[0]]
  {
    var d := Candidates(index);
    CandidatesHead(index);
    CandidatesMember(index, t);
    DedupDistinct(Sorted(index));
    if t in d[1..] {
      var k :| 1 <= k < |d| && d[k] == t;
      assert t != d[0];
    }
    if t in d && t != d[0] {
      var k :| 0 <= k < |d| && d[k] == t;
      assert d[1..][k - 1] == t;
    }
  }

  /** An empty range yields an empty list. */
  lemma HklEmpty()
    ensures Hkl([]) == []
  {
  }

  /** No two triples of the output are equal. */
  lemma HklDistinct(index: seq<int>)
    ensures Distinct(Hkl(index))
  {
    var d := Candidates(index);
    DedupDistinct(Sorted(index));
    if d != [] {
      forall i, j | 0 <= i < j < |d| - 1 ensures Hkl(index)[i] != Hkl(index)[j] {
        assert Hkl(index)[i] == d[i + 1] && Hkl(index)[j] == d[j + 1];
      }
    }
  }

  /** The output is in first-occurrence order of the sorted enumeration: an
      earlier output triple always occurs in the enumeration before any
      occurrence of a later one. */
  lemma HklOrder(index: seq<int>, i: nat, j: nat, q: nat)
    requires i < j < |Hkl(index)|
    requires q < |Sorted(index)| && Sorted(index)[q] == Hkl(index)[j]
    ensures Hkl(index)[i] in Sorted(index)[..q]
  {
    var d := Candidates(index);
    assert Hkl(index)[i] == d[i + 1] && Hkl(index)[j] == d[j + 1];
    DedupOrder(Sorted(index), i + 1, j + 1, q);
  }

  /** The output is at least one shorter than the number of loop iterations. */
  lemma HklLength(index: seq<int>)
    requires index != []
    ensures |Hkl(index)| < |index| * (|index| * |index|)
  {
    CandidatesHead(index);
    DedupLength(Sorted(index));
    EnumHKLLength(index, index, index, |index|);
  }

  /** `0, 1, ..., n - 1`, the range the program uses (`np.arange`). */
  function Range(n: nat): (r: seq<int>)
    ensures |r| == n
    ensures forall i :: 0 <= i < n ==> r[i] == i
  {
    seq(n, i => i)
  }

  /** Over `0..n-1` the output is every non-decreasing triple of that range
      except `[0, 0, 0]`; in particular no component is ever negative. */
  lemma HklRange(n: nat, t: Triple)
    ensures t in Hkl(Range(n)) <==>
              0 <= t[0] <= t[1] <= t[2] < n && t != [0, 0, 0]
  {
    var r := Range(n);
    if n == 0 {
      HklEmpty();
    } else {
      HklMember(r, t);
      if 0 <= t[0] <= t[1] <= t[2] < n {
        assert r[t[0]] == t[0] && r[t[1]] == t[1] && r[t[2]] == t[2];
      }
    }
  }

  /** Deduplication is up to permutation only, not up to sign: whenever the
      range holds `-1`, `0` and `1`, both `[-1, 0, 0]` and its sign variant
      `[0, 0, 1]` are kept. */
  lemma SignVariantsKept(index: seq<int>)
    requires -1 in index && 0 in index && 1 in index
    ensures [-1, 0, 0] in Hkl(index) && [0, 0, 1] in Hkl(index)
  {
    HklMember(index, [-1, 0, 0]);
    HklMember(index, [0, 0, 1]);
  }
}
