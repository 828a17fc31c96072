# binsort: the counting-sort permutation kernel

binsort sorts floating-point values approximately. It maps each value to a
bin index, which is non-negative for non-degenerate input, then hands the
bin indices to a Go kernel,
`approx(bins, order)`. The kernel fills `order` with a stable argsort: the
positions of `bins` ordered by bin, with positions that share a bin kept in
their original order. This project models that kernel and proves it correct.

The kernel makes four passes over arrays, and the model follows them:

1. `InitOrder` writes the identity into `order` and finds `nBins`, one more
   than the largest bin index.
2. `CountBins` allocates a zeroed table of `nBins + 1` cells and adds one to
   cell `1 + b` for every position holding bin `b`.
3. `AccumulateCounts` turns the table into running sums in place. Cell `b`
   then holds the number of positions whose bin lies below `b`.
4. `Scatter` visits the positions in order. It writes each position at the
   cursor of its bin, then advances that cursor. In the Go code the cursors
   are the slice `starts = counts[:len(counts)-1]`, so they share storage
   with the count table. The model passes the same array object
   (`var starts := counts`) and reads only its first `nBins` cells.

`BinSort.Approx` runs the four passes in this order over `array<int>`. Its
contract ties the result to a reference definition, `StableSort.Argsort`.
That definition is independent of the loops: the positions of bin 0 in
increasing order, then those of bin 1, and so on (`Buckets`/`Positions`).
The model proves three things about `Argsort`:

- It satisfies `IsStableArgsort`: it is a permutation of `[0, n)`, the bins
  along it never decrease, and equal bins keep their original order.
- It is the only sequence with that property (`ArgsortUnique`).
- It places every position `i` at `Rank(s, i)`. The rank is the number of
  positions with a smaller bin plus the number of earlier positions with
  the same bin, which is exactly where the scatter pass writes `i`.

Module layout:

- `counts.dfy` (module `Counts`): occurrence counts over a bin sequence.
- `stablesort.dfy` (module `StableSort`): the reference argsort, its
  uniqueness, and the concrete cases from the kernel's tests.
- `binsort.dfy` (module `BinSort`): the four passes and `Approx`.

Integers are mathematical integers. The verifier checks every array access
in the methods, including `counts[1 + bins[i]]`, `starts[bins[i]]` and the
scatter target `order[j]`.

## Model

| member | source | states |
|---|---|---|
| BinSort.Approx | binsort.go:20-43 | For `n` non-negative bins and an `order` of at least `n` cells, the first `n` cells of `order` become the stable argsort of `bins`. They form a permutation of the positions, sorted by bin, with ties in original order. `bins` and the rest of `order` are unchanged. |
| BinSort.InitOrder | binsort.go:21-27 | After the first loop, `order[i] == i` for every position, and `nBins` equals `NumBins(bins)`. Cells of `order` past the first `n` are untouched. |
| StableSort.NumBins | binsort.go:21-27 | The value the first loop computes is one more than the largest bin: every bin lies below it, and it is either 0 or one more than a bin that occurs. An empty input gives 0. |
| BinSort.CountBins | binsort.go:29-30 | Returns a new table of `nBins + 1` cells. Cell 0 is 0, and cell `b + 1` holds the number of positions whose bin is `b`. |
| BinSort.TallyStep | binsort.go:30 | Counting one more position adds one to cell `1 + bins[i]` and changes no other cell. |
| BinSort.AccumulateCounts | binsort.go:32-34 | Afterwards each cell `c` holds the sum of the old cells `0..c`. The pass works in place. |
| BinSort.TallyRunningSums | binsort.go:29-34 | After the tally and the prefix pass, cell `b` holds the number of positions whose bin lies below `b`. This is the first write position of bin `b`. |
| Counts.CountLessStep | binsort.go:32-34 | The positions below bin `b + 1` are those below `b` plus those equal to `b`. This is the step one iteration of the prefix pass takes. |
| BinSort.Scatter | binsort.go:36-42 | Given the cursor table the prefix pass leaves, the scatter leaves the first `n` cells of `order` equal to `Argsort(bins)`. The cells past them are left alone. Each cursor ends just past the run of its bin. The loop keeps the cursor of bin `b` at (positions below `b`) + (earlier positions equal to `b`). |
| BinSort.CursorsStep | binsort.go:39-41 | Placing position `i` advances only the cursor of bin `bins[i]`, by one. |
| StableSort.Rank | binsort.go:38-40 | The scatter target of position `i` (positions with a smaller bin, plus earlier positions with the same bin) lies in `[0, n)`. |
| StableSort.RankOrder | binsort.go:38-42 | A position that comes earlier in sort order (smaller bin, or same bin and earlier) gets a strictly smaller target. |
| StableSort.RanksDistinct | binsort.go:38-42 | Position `i` is written to a slot no earlier position used, so no write is overwritten. |
| StableSort.RanksDetermineOrder | binsort.go:38-42 | A sequence that holds every position at its rank is the stable argsort. |
| StableSort.Argsort | binsort.go:20-43 | The reference result is a stable argsort (permutation of `[0, n)`, non-decreasing bins, ties in original order). Each position `i` stands at `Rank(s, i)`. |
| StableSort.ArgsortUnique | binsort.go:20-43 | Any sequence that is a stable argsort of the bins equals `Argsort`, so the contract of `Approx` fixes its output completely. |
| StableSort.PositionsSorted | binsort.go:38-42 | The list of one bin holds exactly the positions with that bin, in strictly increasing order. |
| StableSort.BucketsSorted | binsort.go:38-42 | The concatenated lists of the bins below `hi` hold only positions with a bin below `hi`, each before the next in sort order. |
| StableSort.BucketsRank | binsort.go:38-42 | When every bin lies below `hi`, the concatenated lists have length `n`, contain every position, and put each position at its rank. |
| StableSort.SortedGivesIdentity | binsort.py:71 | Non-decreasing bins give the identity order. This covers all-equal bins, one element and the empty input. |
| StableSort.DecreasingGivesReverse | binsort.py:72-73 | Strictly decreasing bins give the reversed order. |
| StableSort.ScenarioSorted | binsort.py:71 | `[0, 1, 2, 3, 4]` sorts to `[0, 1, 2, 3, 4]`. |
| StableSort.ScenarioReversed | binsort.py:72 | `[4, 3, 2, 1, 0]` sorts to `[4, 3, 2, 1, 0]`. |
| StableSort.ScenarioReversedWide | binsort.py:73 | `[40, 30, 20, 10, 0]` sorts to `[4, 3, 2, 1, 0]`. |
| StableSort.ScenarioPairs | binsort.py:74 | `[0, 0, 2, 2, 1, 1]` sorts to `[0, 1, 4, 5, 2, 3]`, with the pairs kept in order. |
| BinSort.ApproxOrder | binsort.py:80-82 | The test's way of calling the kernel: it copies the bins into an array, passes a zeroed `order` of the same length, and reads that array back. What it reads is `Argsort(bins)`. |
| BinSort.ApproxSorted | binsort.py:71 | Running the kernel through the test's call on `[0, 1, 2, 3, 4]` gives `[0, 1, 2, 3, 4]`. |
| BinSort.ApproxReversed | binsort.py:72 | Running the kernel on `[4, 3, 2, 1, 0]` gives `[4, 3, 2, 1, 0]`. |
| BinSort.ApproxReversedWide | binsort.py:73 | Running the kernel on `[40, 30, 20, 10, 0]` gives `[4, 3, 2, 1, 0]`. |
| BinSort.ApproxPairs | binsort.py:74 | Running the kernel on `[0, 0, 2, 2, 1, 1]` gives `[0, 1, 4, 5, 2, 3]`, the result the test expects. |

## Left out

- `cApprox` (binsort.go:8-18) is not modelled. It is C-export glue that reinterprets two C pointers as length-n Go slices and calls `approx`; `ApproxOrder` plays its role in the model.
- The ctypes setup and library loading (binsort.py:6-47) is foreign-function plumbing with no logic in it.
- The value-to-bin mapping `binsort` (binsort.py:49-66) is left out because it is floating-point numerics (`np.log`, float division, truncation to int). It can also produce invalid bins for the kernel. When all values are equal, `dx` is 0 (line 60), so line 61 divides 0 by 0 and casts NaN to int. Under `log_bins`, a value of 0 or below makes `np.log` give -inf or NaN (line 57). Either way the kernel can receive the negative bins that `Approx`'s precondition excludes.
- The test harness beyond its four literal kernel cases (binsort.py:77-154) is left out: random inputs, plotting and timing. The second literal test goes through the float mapping.
- The empty `main` (binsort.go:45).
- Approx: the Go `int` is 64 bits wide, and the model uses unbounded integers. A bin near 2^63 would overflow `bins[i]+1`, and a huge `nBins` makes `make` fail. Neither is modelled. `nBins + 1` cells are allocated as asked.
- Approx: requires every bin to be non-negative. The Go code does not check this. A bin of -1 makes the scatter pass index `starts[-1]`, and a bin of -2 or less makes the tally index a negative cell; both panic. The kernel does not check for this case; it panics. The model states non-negativity as a precondition.
- Approx: requires `order` to be at least as long as `bins`. The Go code writes `order[i]` for every position and panics on a shorter slice.
- Approx: requires `bins` and `order` to be different arrays. The kernel is never called with the two aliased, and the result would be meaningless if it were.
- The four loops of the single Go function are four methods, called in the same order on the same arrays. Only the split is a modelling choice; together the methods do what the function does.
