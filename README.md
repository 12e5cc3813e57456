# Miller-index generation, systematic absences and ranking (ICMP)

This project models the index machinery of `ICMP/icmp_calc.py`, a script that
indexes a powder-diffraction pattern of a cubic crystal:

- `hkl_generator` builds every triple `[h, k, l]` over an index range. It sorts
  each triple into canonical (ascending) order and removes duplicates, keeping
  the first occurrence. It then drops the first survivor by position.
- `fcc_indices` keeps the planes whose components are all even or all odd
  (the face-centred cubic extinction rule).
- `bcc_indices` keeps the planes whose component sum is even (the
  body-centred rule).
- `sqrt_ind` gives each plane its g_hkl = sqrt(h² + k² + l²).
- `plotter` joins g_hkl with the lattice-parameter estimates, sorts the table
  by g_hkl and keeps the first nine rows.

The loops of the source are modelled as methods with loop invariants:
`Generator.BuildAll`, `SortEach`, `KeepFirst`, `Parity.FccIndices`,
`Parity.BccIndices` and `Ranking.SqrtInd`. Each method is proved equal to a
specification function (`Hkl`, `FccPlanes`, `BccPlanes`, `Rank`). What the
program promises is proved as lemmas about those functions.

Modules:

- `Miller`: the plane type (a three-element integer list) and `plane.sort()`.
- `Sequences`: list helpers, namely first-occurrence deduplication, filtering,
  distinctness and subsequences.
- `Generator`: `hkl_generator`.
- `Counting`: the exact size of `hkl_generator`'s output over `0..n-1`.
- `Parity`: `fcc_indices` and `bcc_indices`.
- `Ranking`: `sqrt_ind` and the sort/cut step of `plotter`.
- `Pipeline`: how `main` chains these pieces.

Design notes:

- The ranking key is the exact integer h² + k² + l². The square root is
  strictly increasing on non-negative numbers. For the component sizes the
  program uses (the range 0..4), this key orders rows as the floating-point
  g_hkl does. For very large components that no longer holds (see
  "## Left out").
- Python's `i % 2` agrees with Dafny's `%` for the divisor 2 on every integer.
- `res_miller_list[1:]` removes the first element by position, not the
  all-zero triple by value. The model does the same. `Generator.CandidatesHead`
  proves that the removed triple is `[index[0], index[0], index[0]]`, which is
  `[0, 0, 0]` for the range `0..n-1` that `main` uses (`Generator.HklRange`).
- The comment at line 37 says duplicates are unique "up to permutation and
  negatives". The code handles only permutations, and the generator never
  produces a negative component when the range is `np.arange`.
  `Generator.SignVariantsKept` shows that sign variants are both kept when the
  range does contain negatives.
- `sort_values(by = 'g_hkl')` uses pandas' default sort, which is not
  guaranteed to be stable. The model therefore promises only that the
  sorted table is ordered and a permutation of the joined table; it promises
  no order among rows with equal g_hkl.
- `drop(sorted_df_carry.index[9:])` drops rows by label. The model drops by
  label too. With distinct labels, which `fcc_indices` and `bcc_indices`
  always supply (`Pipeline.LabelsDistinct`), this is the same as keeping the
  first nine rows (`Ranking.ReducedIsPrefix`).

## Model

| member | source | states |
|---|---|---|
| Generator.HklGenerator | ICMP/icmp_calc.py:22-43 | the loops of `hkl_generator` compute `Hkl(index)`; an empty range gives an empty list |
| Generator.BuildAll | ICMP/icmp_calc.py:24-32 | the three nested loops produce the enumeration, h outermost and l innermost |
| Generator.SortEach | ICMP/icmp_calc.py:34-35 | every plane is replaced by its ascending form, position by position |
| Generator.KeepFirst | ICMP/icmp_calc.py:37-41 | the `not in` loop yields the first-occurrence deduplication of the sorted list |
| Generator.EnumerationMember | ICMP/icmp_calc.py:25-32 | the loops produce exactly the triples whose three components all come from `index` |
| Generator.EnumHKLLength | ICMP/icmp_calc.py:25-32 | after `a` outer steps the list holds `a * |ks| * |ls|` triples |
| Generator.CandidatesMember | ICMP/icmp_calc.py:34-41 | before the slice, the list holds exactly the ascending triples over `index` |
| Generator.CandidatesHead | ICMP/icmp_calc.py:43 | the positional drop removes `[index[0], index[0], index[0]]`, the first triple kept |
| Generator.HklMember | ICMP/icmp_calc.py:22-43 | a triple is in the output iff it is ascending, its components are in `index`, and it is not `[index[0], index[0], index[0]]` |
| Generator.HklEmpty | ICMP/icmp_calc.py:43 | an empty range yields an empty list, since slicing an empty list gives an empty list |
| Generator.HklDistinct | ICMP/icmp_calc.py:39-41 | no triple appears twice in the output |
| Generator.HklOrder | ICMP/icmp_calc.py:39-41 | output order is first-occurrence order in the sorted enumeration |
| Generator.HklLength | ICMP/icmp_calc.py:25-43 | the output is shorter than the `n³` iterations of the loops |
| Counting.HklCount | ICMP/icmp_calc.py:22-43 | over `0..n-1` with `n >= 1` the output has exactly C(n+2, 3) - 1 = n(n+1)(n+2)/6 - 1 triples |
| Generator.HklRange | ICMP/icmp_calc.py:22-43 | over `0..n-1` the output is every triple `0 <= h <= k <= l < n` except `[0, 0, 0]`, so it has no negative component |
| Generator.SignVariantsKept | ICMP/icmp_calc.py:37 | deduplication is not up to sign: with -1, 0 and 1 in the range, both `[-1, 0, 0]` and `[0, 0, 1]` are kept |
| Generator.Range | ICMP/icmp_calc.py:126 | `np.arange(n)` is `0, 1, ..., n - 1` |
| Miller.Sort3 | ICMP/icmp_calc.py:35 | `plane.sort()` yields an ascending triple |
| Miller.Sort3Permutes | ICMP/icmp_calc.py:35 | sorting only rearranges the components (equal multisets) |
| Miller.CanonicalForm | ICMP/icmp_calc.py:35 | an ascending plane is unchanged by the sort; every permutation of a plane sorts to the same form |
| Miller.Sort3Components | ICMP/icmp_calc.py:35 | a value is a component of the sorted plane iff it is a component of the original |
| Miller.SortedUnique | ICMP/icmp_calc.py:35 | two ascending triples with the same components are equal |
| Sequences.DedupMember | ICMP/icmp_calc.py:39-41 | the deduplicated list holds exactly the elements of the input |
| Sequences.DedupDistinct | ICMP/icmp_calc.py:39-41 | the deduplicated list has no repeats |
| Sequences.DedupOrder | ICMP/icmp_calc.py:39-41 | an element kept earlier occurs in the input before every occurrence of one kept later |
| Sequences.DedupHead | ICMP/icmp_calc.py:39-41 | the first element of a non-empty input is kept first |
| Parity.FccIndices | ICMP/icmp_calc.py:45-61 | the counting loops compute `FccPlanes(millerList)` |
| Parity.BccIndices | ICMP/icmp_calc.py:63-71 | the loop computes `BccPlanes(millerList)` |
| Parity.CountsAddUp | ICMP/icmp_calc.py:52-56 | every component is counted once, as even or as odd |
| Parity.FccRule | ICMP/icmp_calc.py:50-58 | the two counters sum to 3, and the test holds iff all components are even or all are odd |
| Parity.BccRule | ICMP/icmp_calc.py:68 | the sum is even iff an even number of components are odd |
| Parity.BothRules | ICMP/icmp_calc.py:45-71 | a plane passes both rules iff all its components are even |
| Parity.FccSelection | ICMP/icmp_calc.py:45-61 | `fcc_indices` keeps exactly the all-even and all-odd planes, with every occurrence, in order, never lengthening the list, and is idempotent |
| Parity.BccSelection | ICMP/icmp_calc.py:63-71 | `bcc_indices` keeps exactly the planes with an even sum, with every occurrence, in order, never lengthening the list, and is idempotent |
| Parity.SamplePlanes | ICMP/icmp_calc.py:45-71 | (1,1,1) is face-centred only, (1,1,2) body-centred only, and (2,2,2) both |
| Ranking.NormSq | ICMP/icmp_calc.py:17 | the key h² + k² + l² is non-negative and is zero only for `[0, 0, 0]` |
| Ranking.SqrtInd | ICMP/icmp_calc.py:13-20 | one key per plane, in the order of the planes |
| Ranking.Insert | ICMP/icmp_calc.py:111 | inserting a row into a sorted table keeps it sorted and adds exactly that row |
| Ranking.SortByG | ICMP/icmp_calc.py:111 | the sorted table is ordered by g_hkl and is a permutation of its input |
| Ranking.RankTable | ICMP/icmp_calc.py:92-112 | for distinct planes, the steps of `plotter` compute `Rank`: the failures of lines 95 and 97, then the join, the sort and the drop by label |
| Ranking.RankOutcome | ICMP/icmp_calc.py:95-112 | the ranking succeeds iff there is one estimate row per plane and at least one plane, so an empty plane list always fails; a success holds between 1 and 9 rows |
| Ranking.PermutationKeepsLabelsDistinct | ICMP/icmp_calc.py:111 | sorting cannot make two rows share a label |
| Ranking.ReducedIsPrefix | ICMP/icmp_calc.py:112 | with distinct labels, dropping the labels from position 9 on keeps exactly the first `min(9, P)` rows |
| Ranking.SortedPrefix | ICMP/icmp_calc.py:111-112 | a prefix of a sorted table is sorted, is part of the table, and has no key above a key left out |
| Ranking.JoinedKeys | ICMP/icmp_calc.py:92-110 | every joined row carries its own plane's key |
| Ranking.RankIsPrefix | ICMP/icmp_calc.py:110-112 | with distinct planes and one estimate row per plane, the ranking is the sorted join cut to `min(9, P)` rows |
| Ranking.RankKeepsLowestOrders | ICMP/icmp_calc.py:110-112 | when the ranking succeeds (see `RankOutcome`), the result has `min(9, P)` rows, sorted by g_hkl, drawn from the joined table and keyed by their own planes, and no row left out has a smaller g_hkl than a row kept |
| Pipeline.IndexSets | ICMP/icmp_calc.py:138-142 | `main` computes the candidate list and its two structure-allowed subsets |
| Pipeline.LabelsDistinct | ICMP/icmp_calc.py:138-142 | both subsets are free of repeats, so their tables have distinct labels |
| Pipeline.TopIsLeast | ICMP/icmp_calc.py:110-112 | the top-ranked row belongs to a listed plane whose key is at most that of any listed plane |
| Pipeline.FccLeast | ICMP/icmp_calc.py:58 | (1,1,1) is the only non-zero ascending non-negative face-centred plane with key at most 3 |
| Pipeline.BccLeast | ICMP/icmp_calc.py:68 | (0,1,1) is the only non-zero ascending non-negative body-centred plane with key at most 2 |
| Pipeline.FccTopPlane | ICMP/icmp_calc.py:138-149 | over `0..n-1` with `n >= 2`, the top face-centred row is (1,1,1) |
| Pipeline.BccTopPlane | ICMP/icmp_calc.py:138-152 | over `0..n-1` with `n >= 2`, the top body-centred row is (0,1,1) |

## Left out

- Bragg's law (`d_space`, line 129) and `lattice_param_a` (lines 73-80) are floating-point computations. The estimates reach the ranking as opaque `real` rows, taken as a parameter.
- The square root of `sqrt_ind` is replaced by the integer key h² + k² + l². This is order-equivalent, but the model does not compute the floating-point g_hkl value.
- Plotting, `dfi.export`, `to_excel`, `print` and the hard-coded angles of `main` are I/O and are not modelled.
- Ranking.SortByG: does not fix the order of rows with equal g_hkl. The pandas default sort does not promise one, so only sortedness and permutation are stated.
- `dataframe_g_hkl.join(dataframe_list)` is modelled as a positional pairing of row `i` with estimate row `i`. That matches pandas only when the labels are distinct. With a repeated label, pandas pairs every copy with every copy and the table grows. `Ranking.Rank` and `Ranking.RankTable` therefore require distinct planes. `main` always supplies them (`Pipeline.LabelsDistinct`); the join of a list with repeated planes is not modelled.
- Estimate rows of zero length (no estimate columns, so `dataframe_list` is empty) and rows of different lengths are not distinguished. The model assumes one rectangular estimate array.
- Two failures of `plotter` are returned as values, not raised as exceptions. `NoEstimateRows` stands for the IndexError at line 95, when the estimate array has no rows and so no second axis. `ShapeMismatch` stands for the ValueError that `plt.scatter` raises at line 97 when the estimate rows do not line up with the labels (x and y of different sizes); the frame built at line 99 would fail the same way.
- Ranking.Rank: does not model a third failure, of the join at line 110 when two d-spacings are equal: the estimate columns are named after the d-spacing (line 99), and pandas refuses to join frames with overlapping column names. The model does not carry column labels, so `Ranking.Rank` ranks such a table instead of failing. `main`'s nine diffraction angles (line 121) are distinct, so its d-spacings are distinct and this failure does not arise there.
- Integer width and floating point: the model's integers are unbounded, while the program holds components as 64-bit integers and g_hkl as 64-bit floats. For components beyond about 3·10⁷, neighbouring keys h² + k² + l² round to the same float g_hkl. The program then sees a tie and may order such rows either way, where the model orders them strictly. Beyond about 3·10⁹, `hkl[0]**2` at line 17 wraps around; at the extremes of the 64-bit range, so does `sum(plane)` at line 68. The model describes the program only for components small enough that none of this happens, which includes the range 0..4 of `main`.
- Generator.HklGenerator: the function body is modelled as three phase methods (`BuildAll`, `SortEach`, `KeepFirst`) called in sequence. In place of the in-place `plane.sort()` on shared list objects, the sorted list is a new value.
- Deduplication up to sign, mentioned in the comment at line 37, is not implemented by the code, so it is not modelled as behaviour.
