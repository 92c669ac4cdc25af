# numpy sort benchmark — a Dafny model

`numpy_sort_bench.py` times `numpy.sort` with three algorithms
(`quicksort`, `mergesort`, `heapsort`) on arrays of four shapes (`sorted`,
`reversed`, `random`, `median-killer`). The lengths run from 2 up to
`10^max_pow`. Results go into a pandas data frame indexed by
`(host, sort, type, length)`, with the columns `time`, `sigma` and
`t0..t{repeats-1}`. This project models the deterministic core of that
script:

- **Lengths** (`lengths.dfy`): the length array. The even numbers
  `2..10` come first, then for each exponent the block
  `2..10 × 10^(p+1)`. It is built block by block as the fill loop does, and
  it has a closed form `LengthAt(i)`.
- **Shapes** (`shapes.dfy`): the generator dictionary applied to
  `arange(n)`.
  - Python's two-step slices `x[a:b:2]` are modelled with their clamping.
  - `numpy.stack(...).T.ravel()` is modelled as an interleave that fails
    with numpy's `ValueError` on rows of unequal length.
  - `random` returns what `numpy.random.shuffle` returns, which is `None`.
  - Also here: numpy's Fisher–Yates shuffle, with the random draws as a
    parameter, and a repaired generator table.
- **Table** (`table.dfy`): the row keys in index order (the product
  `host × sort × type × length`) and in loop order
  (`length × sort × type`), and the column names.
- **Sweep** (`sweep.dfy`): the benchmark loop as a fold over the loop-order
  keys, writing one row per cell into an immutable
  `map<Key, Option<Row>>`; `None` is a row of NaNs.
  - The two exceptions a cell write can raise are modelled as `Failure`:
    `min` of an empty list, and a trial vector that does not match the
    trial columns.
  - A keyboard interrupt ends the loop after some number of whole cells.
  - The timing harness is a parameter: each visited cell receives a
    `Measurement` (trial times and their standard deviation).
- `seqs.dfy` and `wrappers.dfy` hold shared sequence facts and the
  `Option`/`Result` types.

The median killer is modelled as line 62 actually computes it, not as its
intent:

- the low run is `x[0:n//2:2]`, the high run `x[n//2::2]`, and the odd
  positions `x[1::2]` follow;
- for `0..7` this gives `0, 4, 2, 6, 1, 3, 5, 7` (`Shapes.KillerOfEight`);
- a description that interleaves the halves completely
  (`0, 4, 1, 5, 2, 6, 3, 7`) does not match the code, and the model follows
  the code.

## Model

| member | source | states |
|---|---|---|
| Seqs.Min | numpy_sort_bench.py:137 | the minimum of a non-empty list of times is one of them and no larger than any of them |
| Lengths.ArrayLengths | numpy_sort_bench.py:74-85 | the array has `5 + 9(max_pow - 1)` entries, and entry `i`, filled block by block, equals the closed form `LengthAt(i)` |
| Lengths.LengthsLayout | numpy_sort_bench.py:79-85 | the array is `2, 4, 6, 8, 10`, then block `p` at offset `5 + 9p` holds `(k+2)·10^(p+1)`, and it ends with `9·10^(max_pow-1), 10^max_pow` as documented |
| Lengths.LengthsIncreasing | numpy_sort_bench.py:83-85 | the lengths strictly increase, so none is benchmarked twice |
| Lengths.LengthsEven | numpy_sort_bench.py:45-46 | every length is a positive even number, which the median killer is said to need |
| Lengths.LengthsTwoModFour | numpy_sort_bench.py:83-85 | a length is `2 mod 4` exactly at the even indices below 13; those lengths are 2, 6, 10, 30, 50, 70 and 90, and all seven occur once `max_pow >= 2` |
| Lengths.ToInt64 | numpy_sort_bench.py:74 | the value a `numpy.int_` store keeps: it lies in the signed 64-bit range, differs from the input by a multiple of `2^64`, and is the input itself when the input is in range |
| Lengths.LengthsFitInt64 | numpy_sort_bench.py:74-85 | for `max_pow <= 18` every length is stored exactly; from 19 on the last length exceeds the int64 range, and at 19 it is stored as `-8446744073709551616` |
| Shapes.Canonical | numpy_sort_bench.py:132 | `arange(n)` has `n` elements and element `i` is `i` |
| Shapes.EveryOtherAt | numpy_sort_bench.py:62 | element `i` of `s[::2]` is `s[2i]` |
| Shapes.Slice2At | numpy_sort_bench.py:62 | element `i` of an in-range `x[start:stop:2]` is `x[start + 2i]`, and that position lies below `stop` |
| Shapes.WeaveAt | numpy_sort_bench.py:62 | in the interleave of two rows, `a[i]` lands at `2i` and `b[i]` at `2i + 1` |
| Shapes.WeavePermutes | numpy_sort_bench.py:62 | the interleave holds exactly the elements of the two rows |
| Shapes.Reverse | numpy_sort_bench.py:59 | `x[::-1]` has the same length and position `i` holds `x[n-1-i]` |
| Shapes.ReverseInvolution | numpy_sort_bench.py:59 | reversing twice gives the input back |
| Shapes.ReversePermutes | numpy_sort_bench.py:59 | the reversal is a permutation of its input |
| Shapes.KillerCounts | numpy_sort_bench.py:62 | the runs `x[0:n//2:2]`, `x[n//2::2]` and `x[1::2]` have `(n/2+1)/2`, `(n-n/2+1)/2` and `n/2` elements; the first two differ exactly when `n % 4 == 1`; the interleave-then-odds output has `n + (n/2) % 2` elements for even `n` and `n` for `n % 4 == 3` |
| Shapes.KillerLayoutAll | numpy_sort_bench.py:62 | every output position `j` of interleave-then-odds reads input position `KillerSource(n, j)` |
| Shapes.KillerSequence | numpy_sort_bench.py:62 | the killer raises exactly when `n % 4 == 1`; otherwise it has the stated length and output `j` is input `KillerSource(n, j)` |
| Shapes.Generate | numpy_sort_bench.py:57-63 | `random` returns `None` for every input; only the killer raises, and only at `n % 4 == 1`; `sorted` is the input itself; `reversed` is the input backwards |
| Shapes.KillerPermutes | numpy_sort_bench.py:62 | for `n % 4 == 0` the killer returns a permutation of its input |
| Shapes.KillerOverlong | numpy_sort_bench.py:62 | for `n % 4 == 2` the killer returns `n + 1` elements with the last input element twice, so it is not a permutation |
| Shapes.KillerMissesElement | numpy_sort_bench.py:62 | for `n % 4 == 3` the killer on `arange(n)` returns `n` elements but never `n/2 + 1` |
| Shapes.KillerOfSix | numpy_sort_bench.py:62 | on `arange(6)` the killer yields `0, 3, 2, 5, 1, 3, 5` |
| Shapes.KillerOfEight | numpy_sort_bench.py:62 | on `arange(8)` the killer yields `0, 4, 2, 6, 1, 3, 5, 7` |
| Shapes.GeneratePermutation | numpy_sort_bench.py:57-71 | a generator returns a permutation of `arange(n)` exactly for `sorted`, `reversed`, and `median-killer` with `n % 4 == 0`, against the docstring's promise for all of them |
| Shapes.KillerSequencePermuting | numpy_sort_bench.py:62 | the killer with its split point rounded up to even returns a permutation of its input for every `n` |
| Shapes.KillerCorrectionAgrees | numpy_sort_bench.py:62 | where the killer as written works (`n % 4 == 0`), the repaired killer returns the same array |
| Shapes.Swap | numpy_sort_bench.py:60 | a swap exchanges the two positions and leaves every other one alone |
| Shapes.SwapPermutes | numpy_sort_bench.py:60 | a swap is a permutation |
| Shapes.ShuffleDown | numpy_sort_bench.py:60 | the shuffle keeps the length and never touches positions at or above the shuffled prefix |
| Shapes.ShufflePermutes | numpy_sort_bench.py:60 | the shuffle is a permutation, whatever the random draws |
| Shapes.GenerateFixed | numpy_sort_bench.py:57-71 | the repaired generator table returns a permutation of its input for every shape and length, and agrees with the table as written wherever that one returns a permutation |
| Table.BenchConfig | numpy_sort_bench.py:111-112 | the script's settings give 3 sorts, 4 types and `5 + 9(max_pow - 1)` lengths, none repeated |
| Table.IndexKeysFacts | numpy_sort_bench.py:111-112 | the product index has `|sorts|·|types|·|lengths|` keys, a key is in it exactly when each part comes from its factor, and without repeated factors no key repeats |
| Table.LoopKeysFacts | numpy_sort_bench.py:124-127 | the nested loops visit `|lengths|·|sorts|·|types|` keys, exactly the keys of the product, none twice |
| Table.LoopCoversIndex | numpy_sort_bench.py:111-127 | the loop visits exactly the rows of the index, each once |
| Table.DecimalString | numpy_sort_bench.py:114 | the decimal rendering is non-empty, all digits, a single digit exactly below 10, and ends in the last digit |
| Table.DecimalStringInjective | numpy_sort_bench.py:114 | distinct repeat numbers render differently |
| Table.Columns | numpy_sort_bench.py:114-117 | the columns are `time`, `sigma`, then `t0..t{repeats-1}` in order |
| Table.ColumnsDistinct | numpy_sort_bench.py:114-117 | no two column names coincide |
| Table.CellInputs | numpy_sort_bench.py:124-133 | no cell of the sweep makes the killer raise; a cell sorts a permutation of `arange(n)` exactly for `sorted`, `reversed`, and `median-killer` away from the seven `2 mod 4` lengths |
| Sweep.EmptyFrameFacts | numpy_sort_bench.py:111-117 | the fresh frame has one all-NaN row per key of the product, `|sorts|·|types|·|lengths|` in all |
| Sweep.WriteCell | numpy_sort_bench.py:137-143 | a cell write fails exactly when the times are empty (`min` raises, reported first) or do not match the trial columns; on success it fills that row alone, with the times, `sigma` and their minimum |
| Sweep.Fold | numpy_sort_bench.py:123-145 | a run succeeds exactly when every measurement fits; it adds only the visited keys, leaves other rows alone, and gives each visited key its own measurement |
| Sweep.FoldAppend | numpy_sort_bench.py:124-143 | folding one more cell is one more cell write on the folded frame |
| Sweep.SweepStep | numpy_sort_bench.py:124-143 | a sweep one cell longer is the shorter sweep followed by a write to the next key in loop order |
| Sweep.SweepPrefix | numpy_sort_bench.py:123-146 | a sweep interrupted after `k` cells keeps every index row; the filled rows are exactly the first `k` keys in loop order, each with its own measurement; all others are still NaN |
| Sweep.SweepOutcome | numpy_sort_bench.py:130-137 | with `repeats` trials per cell, a sweep fails exactly when `repeats == 0` and some cell is reached, and then it fails at the first cell on `min` |
| Sweep.FullSweepFills | numpy_sort_bench.py:123-143 | an uninterrupted sweep leaves no NaN row |
| Sweep.SmallRunScenario | numpy_sort_bench.py:111-143 | with `max_pow = 2`, one sort, one type and one repeat, the loop visits 14 cells and fills all 14 rows |
| Sweep.ScriptTable | numpy_sort_bench.py:111-117 | the script's own settings give 924 rows and 7 distinct columns |

## Left out

- Timing: `timeit.repeat` and the sort it runs (lines 93-94 and 130-136)
  produce the trial times, which the model takes as inputs. The three
  algorithms are labels only.
- `numpy.std` (line 138): `sigma` arrives with the measurement, since
  floating-point statistics are out of scope.
- The random number generator and its seed (lines 60 and 131): the shuffle
  takes its draws as a parameter.
- The dtype loop (lines 88 and 125): it has a single entry, `float`, and
  does not appear in the row key, so it is dropped. The element type is a
  type parameter.
- The host name and output file name (lines 15 and 22-23): the host is a
  parameter.
- Writing the CSV (line 151) and plotting (lines 162-164): I/O.
- The progress prints (lines 128-129, 144 and 146).
- Reading earlier results back and skipping cells already measured: the
  script does not do this (its TODOs at lines 27 and 109), so there is
  nothing to model.
- A keyboard interrupt between lines 141 and 143 can leave a row with
  trial times but a NaN `time`. The model interrupts only between whole
  cells.
- `max_pow < 1`: the requested size `5 + 9(max_pow - 1)` is then at most
  `-4`, so `numpy.zeros` raises `ValueError` (negative dimensions).
  `ArrayLengths` requires `max_pow >= 1`, which the documentation at line
  38 also demands.
- Lengths.ArrayLengths: the lengths are unbounded naturals, while the
  script stores them in a `numpy.int_` (int64) array. The two agree only
  for `max_pow <= 18` (`Lengths.LengthsFitInt64`). At `max_pow = 19` the
  last product wraps to a negative number, and from 20 on `10**(p + 1)`
  itself leaves the int64 range. So `LengthsIncreasing`, `LengthsEven`
  and `LengthsTwoModFour` describe the intended lengths there, not the
  stored ones.
- An exception from a generator inside `timeit`'s setup would end the
  script, because only `KeyboardInterrupt` is caught. `StackMismatch`
  models that exception, and `Table.CellInputs` shows that the
  benchmark's own lengths never raise it.
- Sweep.SmallRunScenario: states the row count and that every row is
  filled, not the row contents; those are stated for every sweep by
  `Sweep.SweepPrefix`.

## Findings

| source | as written | input that shows it | evidently intended | confidence | as-written member | corrected member |
|---|---|---|---|---|---|---|
| numpy_sort_bench.py:62 | the high run starts at `n//2`, which is odd when `n % 4 == 2`, so it takes odd positions that `x[1::2]` takes again | `arange(6)` gives `0, 3, 2, 5, 1, 3, 5`: seven elements, `3` and `5` twice, `4` missing; the lengths 2, 6, 10, 30, 50, 70 and 90 of the sweep are all hit | a permutation of the input (docstring, lines 68-69) | high; not executed | Shapes.KillerOverlong | Shapes.KillerSequencePermuting |
| numpy_sort_bench.py:60 | `numpy.random.shuffle` shuffles in place and returns `None`, so the generator returns `None` and the `random` cells time `numpy.sort(None)` | any length, e.g. `n = 2`: the setup binds `x` to `None` | the shuffled array (docstring, lines 68-69) | high; not executed | Shapes.Generate | Shapes.GenerateFixed |
