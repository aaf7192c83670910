# Label counting of metal/analysis.py, in Dafny

This project models the label-counting part of `metal/analysis.py`:

- `error_buckets`: one pass over two label sequences. It groups the positions, or the matching items of `X`, under the key `(gold[i], pred[i])`.
- The `ConfusionMatrix` class:
  - its counter of `(gold, pred)` keys, which `add` updates in place;
  - the cached matrix `mat`, which `compile` assigns;
  - the two visibility flags `null_pred` and `null_gold`;
  - `__repr__`;
  - the lines that `display` prints.
- `confusion_matrix` without `normalize`.

The model is a Dafny 4.11 program in five modules:

| file | module | contents |
|---|---|---|
| `counting.dfy` | `Counting` | labels and `(gold, pred)` keys; `zip` with truncation to the shorter input; the counter as a multiset; the largest label; dictionary sums |
| `buckets.dfy` | `Buckets` | `error_buckets` as two loop methods: one groups positions, one groups items. A reference function over the zipped labels specifies both. |
| `matrix.dfy` | `Matrix` | the matrix `compile` builds, as a function of the counter; trimming; cell totals; the rows of an `array2` |
| `render.dfy` | `Render` | the text `display` produces, as functions that follow its loops, plus independent reference definitions (`Join`, `Visible`) and lemmas that connect the two |
| `analysis.dfy` | `Analysis` | the `ConfusionMatrix` class, whose fields its methods update; `confusion_matrix`; the loops of `compile` and `display` |

Conventions the model takes from the code:

- **Key order.** A key is `(gold, pred)`. `compile` writes the count of key `(p, y)` to cell `[p, y]`. So row r holds gold label r and column c holds predicted label c. The docstrings describe the opposite axes. As a result, `null_pred` governs the gold-0 row and `null_gold` governs the predicted-0 column.
- **No length check.** `zip` truncates to the shorter input. Only `min(|gold|, |pred|)` positions are counted or bucketed.
- **Cache.** `compile` always caches its result, and `add` leaves the cache as it was. The cached matrix can therefore be stale, and `__repr__` shows it without recompiling.

## Model

| member | source | states |
|---|---|---|
| Counting.Zip | metal/analysis.py:24 | zipping pairs gold[i] with pred[i] at every position below min(\|gold\|, \|pred\|), and nowhere else |
| Counting.ZipAppend | metal/analysis.py:80 | when the first gold and pred have equal lengths, zipping the concatenations gives the concatenation of the zips |
| Counting.ZipAppendNeedsAlignedHalves | metal/analysis.py:80 | for [1, 2]/[3] then [5]/[6], two adds count different keys from one add of [1, 2, 5]/[3, 6], so the equal-length condition of ZipAppend and AddTwice is needed |
| Counting.MaxLabel | metal/analysis.py:83 | the largest label of any key bounds every label of every key and is attained by some key |
| Counting.Width | metal/analysis.py:83 | k = 1 + the largest label is at least 1, and every label of every counted key is below k |
| Counting.CountMap | metal/analysis.py:86 | `counter.items()`: exactly the counted keys, each with its positive count |
| Counting.CountMapTotal | metal/analysis.py:80 | the counts of the counter add up to the number of keys added |
| Buckets.Positions | metal/analysis.py:24-25 | the reference bucket of one key: the positions whose zipped pair is that key, collected in loop order; every entry lies below the zip length (its other properties are in PositionsSpec) |
| Buckets.BucketsOf | metal/analysis.py:23-26 | the reference result of `error_buckets` without `X`: a bucket for each pair that occurs, and none for any other pair (properties in BucketKeysOccur and EachPositionOnce) |
| Buckets.Lookup | metal/analysis.py:25 | reading the `defaultdict(list)`: the bucket of a key, or the empty list for a key never seen |
| Buckets.PositionsSpec | metal/analysis.py:23-26 | a key's bucket lists exactly the positions holding that key, in strictly increasing order, once per occurrence |
| Buckets.PositionsCount | metal/analysis.py:24-25 | the bucket of every key has as many entries as the key has occurrences |
| Buckets.BucketsOfSnoc | metal/analysis.py:25 | one more loop step appends the position to the bucket of its key (created if missing) and changes no other bucket |
| Buckets.BucketKeysSnoc | metal/analysis.py:25 | one more loop step adds the key of that position to the keys, and no other key |
| Buckets.IndexBuckets | metal/analysis.py:23-26 | grouping positions (`X` is None) yields the reference buckets of the zipped labels |
| Buckets.ItemBucketsOfSnoc | metal/analysis.py:25 | one more loop step appends `X[i]` to the bucket of the key at position i and changes no other bucket |
| Buckets.ItemBucketsOfSpec | metal/analysis.py:23-25 | the item buckets have the same keys as the position buckets, and each holds the items at those positions, in the same order |
| Buckets.ItemBuckets | metal/analysis.py:23-26 | grouping items fails with an index error at \|X\| exactly when X is shorter than the zip; otherwise each bucket holds X[i] for the positions of the position bucket, in order |
| Buckets.IncreasingHoldsOnce | metal/analysis.py:24-25 | a strictly increasing bucket holds each of its positions exactly once |
| Buckets.PositionOnlyInOwnBucket | metal/analysis.py:25 | a position is never listed under a key it does not hold |
| Buckets.EachPositionOnce | metal/analysis.py:23-26 | every position below the zip length lies in the bucket keyed (gold[i], pred[i]) exactly once, and in no other bucket |
| Buckets.BucketKeysOccur | metal/analysis.py:23-25 | a key has a bucket if and only if its pair occurs at some position |
| Buckets.BucketSizesAreCounts | metal/analysis.py:23-26 | the bucket sizes, key by key, equal the counter of the zipped labels |
| Buckets.BucketSizesSum | metal/analysis.py:23-26 | the bucket sizes add up to min(\|gold\|, \|pred\|) |
| Matrix.Compiled | metal/analysis.py:83-92 | the value `compile(trim)` returns: the k-by-k grid of counts, then `mat[1:, :]` when trim is set and null_pred is not, then `mat[:, 1:]` when trim is set and null_gold is not (shape and cells in CompiledCells) |
| Matrix.GridShifted | metal/analysis.py:85-87 | the filled k-by-k array holds at cell [a, b] the count of key (a, b) |
| Matrix.DropRowShifted | metal/analysis.py:90 | `mat[1:, :]` has one row less, and its cell [r, c] is the cell [r + 1, c] of the original |
| Matrix.DropColumnShifted | metal/analysis.py:92 | `mat[:, 1:]` has one column less, and its cell [r, c] is the cell [r, c + 1] of the original |
| Matrix.CompiledShifted | metal/analysis.py:85-92 | the compiled matrix has 1 + the largest label rows and columns, less the dropped ones, and each cell holds the count of the key its indices name, shifted by the dropped row and column |
| Matrix.CompiledCells | metal/analysis.py:85-92 | row 0 goes exactly when trim is set and null_pred is not, column 0 exactly when trim is set and null_gold is not; each remaining cell is the count of the key its shifted indices name |
| Matrix.GridAddOne | metal/analysis.py:86-87 | counting one more key inside the grid raises the cell total by one |
| Matrix.GridTotal | metal/analysis.py:85-87 | a grid that holds every counted key has a cell total equal to the number of keys counted |
| Matrix.DenseTotal | metal/analysis.py:83-87 | the cells of the untrimmed matrix add up to the counter total, `sum(counter.values())` |
| Matrix.SumUpdate | metal/analysis.py:87 | writing one cell of a row changes the row sum by the difference |
| Matrix.TotalUpdate | metal/analysis.py:87 | replacing one row changes the matrix total by the difference of the row sums |
| Matrix.SumZero | metal/analysis.py:85 | a row of zeros sums to 0 |
| Matrix.TotalZero | metal/analysis.py:85 | `np.zeros` has total 0 |
| Matrix.Rows | metal/analysis.py:85 | the rows of a 2-D array have its dimensions and its cells |
| Render.SpacesSpec | metal/analysis.py:101-102 | `' ' * n` is max(n, 0) blanks |
| Render.NatStr | metal/analysis.py:109 | `str(j)` of a label: its decimal digits, most significant first (properties in NatStrRoundTrip) |
| Render.Center | metal/analysis.py:126 | the `^5d` field: text at least as wide as the field unchanged, otherwise floor(padding / 2) blanks before and the rest after (properties in CenterSpec) |
| Render.Mark | metal/analysis.py:124 | `s[:-1] + '*'`: the last character replaced by '*', or "*" alone for an empty line (properties in StarInMark) |
| Render.Marked | metal/analysis.py:105-128 | the loop that builds a line: from its opening, for each column below j, skip column 0 unless shown, put the mark on the diagonal column when marking, then append that column's text (properties in UnmarkedIsJoin and StarsOfMarked) |
| Render.Header | metal/analysis.py:105-110 | the header line: the margin and a corner of 5 + spacing blanks, then " y=j " and the gap for each visible column, never marked (properties in HeaderIsJoin and NoStarInHeader) |
| Render.RowLine | metal/analysis.py:117-129 | the line of row i: the margin, " l=i " and the gap, then one cell text per visible column, marked on the diagonal only in rate mode with mark_diag (properties in CountRowIsJoin and DiagonalMark) |
| Render.Lines | metal/analysis.py:104-129 | everything display prints: the header, then the line of each visible row in order (properties in LinesShape and NoMarkInCounts) |
| Render.NatStrRoundTrip | metal/analysis.py:109 | the decimal text of a label is all digits and reads back as the label |
| Render.CenterSpec | metal/analysis.py:126 | `^5d` centring: the field is as wide as the text or wider, the text sits at floor(padding / 2), and blanks fill both sides |
| Render.Visible | metal/analysis.py:106-108 | the printed indices all lie below the dimension |
| Render.VisibleCount | metal/analysis.py:106-108 | index 0 is printed only when shown: n or n - 1 indices, and the t-th is t or t + 1 |
| Render.VisibleSnoc | metal/analysis.py:106-108 | one more index extends the visible indices by that index, unless it is the hidden index 0 |
| Render.JoinSnoc | metal/analysis.py:109 | joining one more entry appends that entry's text |
| Render.UnmarkedIsJoin | metal/analysis.py:106-109 | with marking off, the loop appends the text of every visible column, in increasing order, and nothing else |
| Render.StarInConcat | metal/analysis.py:124 | a concatenation holds '*' exactly when one of its parts does |
| Render.StarInMark | metal/analysis.py:124 | `s[:-1] + '*'` holds a '*' |
| Render.StarsOfMarked | metal/analysis.py:118-128 | with star-free texts, the line holds a '*' if and only if marking is on and the diagonal column was printed |
| Render.HeaderIsJoin | metal/analysis.py:105-109 | the header is the margin, a blank corner of 5 + spacing, and one " y=j " entry plus the gap per visible column, in increasing order |
| Render.CountRowIsJoin | metal/analysis.py:117-126 | in counts mode a row line is the margin, " l=i ", the gap, and one centred count plus the gap per visible column, in increasing order |
| Render.RowLinesAtUpTo | metal/analysis.py:113-116 | the row loop emits one line per visible row, and its t-th line is the line of the t-th visible row |
| Render.LinesShape | metal/analysis.py:104-129 | display prints the header, then the line of each visible row in increasing order (row 0 only when null_pred) |
| Render.NoStarInNumbers | metal/analysis.py:109 | the decimal text of a number holds no '*' |
| Render.NoStarInLabels | metal/analysis.py:109 | labels and blanks hold no '*' |
| Render.NoStarInCentre | metal/analysis.py:126 | centring star-free text adds no '*' |
| Render.NoStarInRowStart | metal/analysis.py:117 | the opening of a row line holds no '*' |
| Render.NoStarInHeaderEntries | metal/analysis.py:109 | no header entry holds a '*' |
| Render.NoStarInCountCells | metal/analysis.py:126 | no counts-mode cell holds a '*' |
| Render.NoStarInRateCells | metal/analysis.py:128 | with star-free rate texts, no rate-mode cell holds a '*' |
| Render.NoStarInHeader | metal/analysis.py:105-110 | the header never holds a '*' |
| Render.NoStarInCountLine | metal/analysis.py:117-126 | in counts mode no row line holds a '*' |
| Render.NoMarkInCounts | metal/analysis.py:123-126 | in counts mode no printed line carries the diagonal mark |
| Render.DiagonalMark | metal/analysis.py:123-124 | in rate mode the line of row i holds a '*' if and only if mark_diag is set and column i is printed |
| Analysis.ConfusionMatrix.constructor | metal/analysis.py:57-67 | an empty counter, no cached matrix, and the two flags as given |
| Analysis.ConfusionMatrix.Add | metal/analysis.py:74-80 | the counter grows by the zipped keys: each key's count grows by its occurrences, keys that do not occur are unchanged, and the cache is untouched |
| Analysis.ConfusionMatrix.Compile | metal/analysis.py:82-95 | the result is the compiled matrix of the counter and becomes the cache; it has k - 1 rows when row 0 is trimmed and k otherwise, and k - 1 columns when column 0 is trimmed and k otherwise (also when no row is left), with k = 1 + the largest label; untrimmed, its cells add up to the number of keys added |
| Analysis.ConfusionMatrix.Repr | metal/analysis.py:69-72 | compiles (trimmed) only when nothing is cached, keeps an existing, possibly stale, cache otherwise, and returns the cached matrix |
| Analysis.ConfusionMatrix.Display | metal/analysis.py:97-129 | caches the untrimmed matrix and returns the header and row lines of that matrix |
| Analysis.CountedPairs | metal/analysis.py:39-40 | a fresh matrix object after one add counts exactly the zipped keys, with nothing cached |
| Analysis.ConfusionMatrixOf | metal/analysis.py:29-49 | the result is the trimmed compiled matrix of the zipped keys, with its row and column counts fixed as for Compile; with pretty, the printed lines are those of a default counts-mode display |
| Analysis.PrettyLines | metal/analysis.py:46-47 | with pretty, the lines of `display()` with its default arguments; without, nothing is printed and the cache is left as it was |
| Analysis.AddTwice | metal/analysis.py:80 | two adds give the same counter in either order, for all inputs; and the same counter as one add of the concatenated inputs when the first gold and pred have equal lengths |
| Analysis.BucketsMatchCounts | metal/analysis.py:24-25 | after one add of the same labels, the bucket size of (a, b) equals cell [a, b] of the untrimmed compiled matrix |
| Analysis.DenseTotalOfZip | metal/analysis.py:80-87 | the untrimmed matrix of one add holds min(\|gold\|, \|pred\|) items in all |
| Analysis.HeaderLine | metal/analysis.py:105-109 | the header loop builds the header line |
| Analysis.RowTexts | metal/analysis.py:113-129 | the row loop emits the lines of the visible rows, in order |
| Analysis.RowText | metal/analysis.py:117-128 | the column loop builds the line of row i, marking the diagonal only in rate mode |
| Analysis.CellLine | metal/analysis.py:125-128 | a cell is the centred count, or the rate text of the cell and its row denominator, followed by the gap |
| Analysis.LargestLabel | metal/analysis.py:83 | the loop over the keys finds the largest label of any key |
| Analysis.CountGrid | metal/analysis.py:85-87 | filling a zeroed k-by-k array from the counter gives the grid of counts |
| Analysis.RowSum | metal/analysis.py:128 | the loop computes `sum(mat[i, 1:])` |
| Analysis.DropRow | metal/analysis.py:90 | `mat[1:, :]` drops the first row |
| Analysis.DropColumn | metal/analysis.py:92 | `mat[:, 1:]` drops the first column |

## Left out

- The `normalize` branch of `confusion_matrix` (metal/analysis.py:43-44) is float division and is not modelled. `ConfusionMatrixOf` returns the integer matrix.
- The float formatting of a rate-mode cell (`:>5.3f` of a division, which can be nan or inf) is not modelled. `Display` takes it as a function `rateText` of the cell and its row's denominator. The rest of rate mode, including the diagonal mark, is modelled.
- `decimals` is accepted by `display` but never used, so it is not a parameter of `Display`.
- `print` and standard output are left out. `Display` returns the lines that would be printed, and `ConfusionMatrixOf` returns them when `pretty` is set.
- `str(ndarray)` is left out. `Repr` returns the cached matrix as rows of integers rather than numpy's text.
- numpy slicing returns views. `DropRow` and `DropColumn` copy into fresh arrays, so sharing between the full and the trimmed matrix is not modelled.
- torch's `.numpy()` is not modelled. Labels are sequences of natural numbers, which excludes the negative labels that numpy would index from the end.
- A non-empty counter is a precondition of `Compile` and `Display`, and `Repr` requires a cached matrix or a non-empty counter, rather than an error result: the source fails inside `max` of an empty list, and no caller handles that failure.
- `ConfusionMatrixOf` requires a non-empty zip for the same reason.
- `error_buckets` returns a `defaultdict(list)`. It is modelled as a map plus `Lookup`, which reads a missing key as the empty list. Adding a key by merely reading it is not modelled.
