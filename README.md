# Benchmark ratio aggregator, modelled in Dafny

`tasks/2/mymaps/data/ratio.py` compares three map implementations (list, tree,
map) benchmarked on three operations (add, lookup, remove). For one operation it
reads the timing of each structure per input size from `list.dat`, `tree.dat` and
`map.dat`, divides them pairwise (tree/list, list/map, tree/map) and writes
`combined_<operation>_ratios.dat`: a header line, then one line per size found in
any of the three files, in ascending order, with 0 wherever a value or a ratio is
missing.

This project models that script on values:

- `sorted.dfy`, module `SortedSet`: the ascending order `sorted(...)` gives a set
  of sizes, with its uniqueness.
- `ratio.dfy`, module `Ratio`:
  - operation dispatch (`Op`, `ParseOp`, `Column`);
  - loading (`Record`, `Measurement`, `Collect`, `Load`). A file is a sequence
    of rows that are already split into fields. A `Sample` row has an integer
    size followed by its numeric fields. A `Text` row is any row whose size field
    is not a number, such as the header line;
  - the ratio datasets (`Ratios`, with `Quotient` as the reference policy);
  - the header (`Upper`, `Capitalize`, `HeaderRow`) and the report writer
    (`WriteCombined`, which sorts the union of the sizes and hands it to
    `BuildRows`, a loop that appends one row at a time);
  - reading a report back (`ReportFile`, `ReportRoundTrip`);
  - one operation end to end (`CombineOperation`).

Errors are values of `Error`. Each stands for one exception the script raises
while reading the three files or building the header. Two exceptions have no
`Error` value because their causes are not modelled: a missing file, and a
timing field that `float(...)` rejects (see "## Left out").

- `EmptyFile`: there is no header line for `next(reader)`.
- `MalformedRow`: a data row's size is not an integer, or the row has no fields
  at all, so `rows[0]` does not exist (a blank line).
- `UnknownOperation`: the operation name chose no column (`NameError`).
- `ShortRow`: a data row has no field at the chosen column.
- `EmptyOperationName`: `operation[0]` is applied to `""`.

The first row that cannot be read decides the error. Within a row, the size is
converted before the column is looked up.

Two behaviours of the code worth knowing, both modelled as written:

- A missing value or ratio is written as the integer `0`, not `0.0`. Both
  `calculate_ratios` and `dict.get(size, 0)` use the literal `0`, and it prints
  as `0`. `Number = Int | Float` keeps the two apart. See `ExampleZeroDivisor`.
- An unrecognised operation name does not always fail. The column is only looked
  up while reading a data row, so a file holding only its header loads as an
  empty dictionary. See `UnknownOperationYieldsNoData`.

Timings are Dafny `real`s, so a quotient is exact.

## Model

| member | source | states |
|---|---|---|
| SortedSet.SortedSizes | tasks/2/mymaps/data/ratio.py:28 | `sorted(sizes)` has exactly as many entries as the set has elements |
| SortedSet.SortedSizesSorted | tasks/2/mymaps/data/ratio.py:28 | `sorted(sizes)` holds exactly the elements of the set, in strictly ascending order, so none is missing or repeated |
| SortedSet.SortedSizesUnique | tasks/2/mymaps/data/ratio.py:28 | any strictly ascending sequence holding exactly the sizes equals `SortedSizes`, so the row order depends on the key set alone |
| Ratio.ParseOp | tasks/2/mymaps/data/ratio.py:4-9 | a recognised name is the name of the operation returned; a name that is none of the three selects no operation |
| Ratio.Column | tasks/2/mymaps/data/ratio.py:4-9 | the chosen column is one of the three timing fields 1..3, never the size field 0 |
| Ratio.Dispatch | tasks/2/mymaps/data/ratio.py:4-9 | a name is recognised if and only if it is `add`, `lookup` or `remove`; they select columns 1, 2 and 3; distinct operations read distinct columns |
| Ratio.Measurement | tasks/2/mymaps/data/ratio.py:14 | a row yields a value exactly when it is a data row, the operation is known and the row reaches the column; the value is that field; a non-numeric or missing size fails as a malformed row, an unknown operation fails before the row length is looked at, and a known operation whose column the row does not reach fails as a short row |
| Ratio.Collect | tasks/2/mymaps/data/ratio.py:14 | the dictionary comprehension over the data rows: no rows give the empty dictionary, and a failure carries the error of one of the rows |
| Ratio.CollectSucceeds | tasks/2/mymaps/data/ratio.py:14 | building the dictionary succeeds if and only if every data row can be read |
| Ratio.CollectFirstError | tasks/2/mymaps/data/ratio.py:14 | when it fails, the error is that of the first row that cannot be read |
| Ratio.CollectKeys | tasks/2/mymaps/data/ratio.py:14 | the keys of the built dictionary are exactly the sizes of the rows |
| Ratio.CollectLastWins | tasks/2/mymaps/data/ratio.py:14 | for a size that repeats, the value of its last row is kept |
| Ratio.Load | tasks/2/mymaps/data/ratio.py:3-14 | a file without a first row fails with `EmptyFile`; any other failure carries the error of one of the rows after the first |
| Ratio.HeaderSkipped | tasks/2/mymaps/data/ratio.py:13 | the first row is never read: replacing it changes nothing in the result |
| Ratio.LoadKeys | tasks/2/mymaps/data/ratio.py:11-14 | a successful load had a first row, and its keys are exactly the sizes of the rows after it |
| Ratio.LoadSucceeds | tasks/2/mymaps/data/ratio.py:11-14 | a load succeeds if and only if the file has a first row and every later row can be read for the operation |
| Ratio.UnknownOperationYieldsNoData | tasks/2/mymaps/data/ratio.py:4-14 | with an unrecognised operation a load never yields data: it fails with `UnknownOperation` when the first data row is numeric, and a header-only file gives the empty dictionary |
| Ratio.Quotient | tasks/2/mymaps/data/ratio.py:17 | the reference division: a zero divisor gives 0, otherwise the quotient times the divisor is the dividend |
| Ratio.Ratios | tasks/2/mymaps/data/ratio.py:16-18 | the ratio dataset has exactly the numerator's sizes; where the denominator has the size with a non-zero value it holds the true quotient; where the size is missing or zero it holds integer 0 and nothing fails |
| Ratio.SampleAt | tasks/2/mymaps/data/ratio.py:31-33 | a present timing is copied unchanged as a float; a missing one is integer 0 |
| Ratio.RatioAt | tasks/2/mymaps/data/ratio.py:34-36 | a present ratio is copied unchanged; a missing one is integer 0 |
| Ratio.RatioIsQuotient | tasks/2/mymaps/data/ratio.py:17 | the written ratio at any size equals `Quotient` of the written numerator and denominator values, so a missing size and a zero value are the same case |
| Ratio.Upper | tasks/2/mymaps/data/ratio.py:21 | a lower-case ASCII letter becomes the upper-case letter at the same alphabet position; every other character is unchanged |
| Ratio.Capitalize | tasks/2/mymaps/data/ratio.py:21 | fails exactly on the empty name; otherwise keeps the length, upper-cases the first character and leaves the rest unchanged |
| Ratio.DerivedRatios | tasks/2/mymaps/data/ratio.py:45-47 | the three ratio datasets are tree over list, list over map and tree over map: each has its numerator's sizes, and at each of them its value is `Quotient` of the numerator's timing and the denominator's timing (0 where the denominator lacks the size) |
| Ratio.Sizes | tasks/2/mymaps/data/ratio.py:27 | a size is in the union exactly when at least one of the three datasets has it |
| Ratio.RowFor | tasks/2/mymaps/data/ratio.py:29-37 | the row for a size starts with that size, copies each of the three timings and each of the three ratios present at that size, and holds integer 0 for each one that is missing |
| Ratio.HeaderRow | tasks/2/mymaps/data/ratio.py:24-25 | the header has 7 fields: `Size`, then list, tree and map labels carrying the capitalised operation, then the three fixed ratio labels; it fails exactly on the empty name |
| Ratio.BuildRows | tasks/2/mymaps/data/ratio.py:28-37 | the loop emits one row per size of the given order, in that order (its size column equals the order), each row holding its own size's values and ratios |
| Ratio.WriteCombined | tasks/2/mymaps/data/ratio.py:20-37 | fails exactly on the empty operation name; otherwise the size column is `sorted` of the union of the three key sets, so there is one row per size in the union (row count equals the union's size, none missing, none repeated), strictly ascending, and each row holds its own size's values and ratios with 0 for missing ones |
| Ratio.DerivedRowMatchesValues | tasks/2/mymaps/data/ratio.py:30-36 | in every row written from derived ratios, each ratio is the `Quotient` of the two values written beside it, including where a value was missing |
| Ratio.RowRecord | tasks/2/mymaps/data/ratio.py:29-37 | a written row, read back as a data row, has its size and six fields; the list, tree and map values sit in the fields read for `add`, `lookup` and `remove`, followed by the three ratios |
| Ratio.ReportFile | tasks/2/mymaps/data/ratio.py:24-37 | the written file has one line more than the report has rows: the header line first, then each row's record in order |
| Ratio.CollectAscending | tasks/2/mymaps/data/ratio.py:14 | when every row is a data row reaching the column and the sizes strictly ascend, the comprehension succeeds and keeps each row's own field at its size |
| Ratio.ReloadedValue | tasks/2/mymaps/data/ratio.py:14 | loading a written report (ascending sizes) as a timing file succeeds for each operation, and at each row's size it yields the list, tree or map column of that row |
| Ratio.RecomputedRatio | tasks/2/mymaps/data/ratio.py:17 | dividing two reloaded columns at a size both hold gives `Quotient` of their values |
| Ratio.RowRoundTrip | tasks/2/mymaps/data/ratio.py:14-18 | for one row of a written report, reloading the value columns and recomputing the ratios gives back that row's three ratios |
| Ratio.ReportRoundTrip | tasks/2/mymaps/data/ratio.py:27-37 | for a whole report written from derived ratios, reloading the value columns and recomputing the ratios gives back every ratio column |
| Ratio.ExampleZeroDivisor | tasks/2/mymaps/data/ratio.py:14-36 | list 1.0, tree 2.0, map 0.0 at size 10 load as one-entry dictionaries, and the row is `10, 1.0, 2.0, 0.0, 2.0, 0, 0` |
| Ratio.ExampleTreeOnly | tasks/2/mymaps/data/ratio.py:27-36 | a size only the tree dataset has is in the union, and its row is `20, 0, 5.0, 0, 0, 0, 0` |
| Ratio.CombineOperation | tasks/2/mymaps/data/ratio.py:38-51 | loads list, tree, map in that order; the first failing load is the result; when all three load, an empty operation name fails with `EmptyOperationName` and any other name gives the report of `WriteCombined` over the loaded data and the derived tree/list, list/map and tree/map ratios: its header is `HeaderRow` of the name, its rows are the union's sizes in strictly ascending order with each size's own values and ratios, every row's ratios agree with its values, and the report's ratios round-trip |

## Left out

- A missing or unreadable input file (`FileNotFoundError` and the like). Files are given as values, so opening cannot fail.
- File opening, reading and writing, and the `csv` reader and writer: delimiter handling, quoting, and the empty fields that repeated spaces produce. Rows are given already split into fields.
- The `int(...)` and `float(...)` text conversions. A row's size and values are given as numbers. A row whose size is not a number is `Text`. A non-numeric timing field is not modelled.
- Floating-point behaviour: rounding, infinities, NaN and `-0.0`. Timings and ratios are exact reals.
- Formatting numbers as text. `Number` records only whether a cell is an integer or a float, because those two print differently.
- The iteration order of the loaded dictionaries. Dafny maps have no order, and the report sorts its sizes anyway.
- A write that fails partway through, and overwriting an existing output file. The report is returned as a value.
- The module-level calls for `add`, `lookup` and `remove`, and the fixed file names (tasks/2/mymaps/data/ratio.py:53-55). `CombineOperation` models one call, with the three files as parameters.
- Ratio.Upper: maps only ASCII `a`..`z`. Python's `str.upper` also maps other Unicode letters, some of them to several characters.
- `tasks/7/mandelbrot/images/convert_ppm_to_png.py` is not part of this model. It lists a directory and converts images through an imaging library.
