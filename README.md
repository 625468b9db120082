# DataMatrix: the dataset container of a GPU gradient-boosting trainer

This project models `arboretum::io::DataMatrix` (`src/io/io.h`), the
in-memory container the trainer fills with feature columns and labels.
The container:

- keeps, for each feature column, a *sort index*: the permutation of row
  numbers that lists the column's values in ascending order. It also keeps
  the column's values read in that order (`sorted_data`);
- keeps one prediction (`y_hat`), label (`y`) and gradient (`grad`) per row;
- has a two-state life cycle. It is built uninitialised. `Init` sets every
  prediction to one value, stores the loss-gradient function and makes the
  container ready. `UpdateGrad` recomputes every gradient as
  `func(y[i], y_hat[i])`, and only works on a ready container.

Files:

- `column_sort.dfy`, module `ColumnSort`. The sort index as a pure function
  of one column (`SortedIndex`). It is a stable insertion sort. It is proved
  to return a permutation of the rows under which the values ascend, with
  ties in row order. It is also proved to be the *only* such permutation,
  and that its gathered values are sorted and are the column's own values
  as a multiset.
- `data_matrix.dfy`, module `IO`. The class `DataMatrix`. Its fields are
  the header's fields. Its constructor, `Init`, `UpdateGrad` and
  `BuildColumnIndex` change them in place, and their postconditions
  describe the whole new state. `Valid()` is the dimension invariant: every
  column buffer has `rows` entries, there are `columns` columns, the three
  row buffers are distinct arrays of length `rows`, a gradient function
  is stored exactly when the container is initialised, and on an
  initialised container every column holds its sort index and sorted values
  (`ColumnIndexed`).

Modelling choices:

- The Dafny fields `sortedData`, `yHat`, `gradFunc` and `initialized` are
  the header's `sorted_data`, `y_hat`, `_gradFunc` and `_init`. The other
  fields keep their names.
- Feature values, labels, predictions and gradients are `real`. The
  gradient function is any total `(real, real) -> real`. Before the first
  `Init` it is `None`: the C++ `std::function` is still empty at that point.
- `index`, `data` and `sorted_data` are `seq<seq<..>>` fields that are
  reassigned one column at a time. `y`, `y_hat` and `grad` are fixed-size
  arrays. The trainer and the loader may write their elements directly.
- The header does not say how ties are ordered. The model uses a stable
  order: rows with equal values keep their original order. This is a
  modelling choice, and it is what makes the index unique
  (`SortedIndexUnique`).
- The header declares `UpdateGrad` as `void`, and calling it uninitialised
  is a misuse. The model returns an `Outcome` instead. The result is
  `Fail(NotInitialized)` and `grad` is left unchanged when the container is
  not initialised; otherwise the result is `Pass`.
- `SortedIndex` is declared `private` (src/io/io.h:28, 31), so only one of
  the three public members can call it. The constructor runs before the
  loader fills `data`, so the model takes `Init` as the caller: `Init`
  builds the index and the sorted values of every column before it sets the
  predictions. The per-column step is `BuildColumnIndex(c)`, which calls
  `SortedIndex` on column `c` and fills `sorted_data[c]` with a per-row loop.
- With `rows == 0` the header declares no special case. The model's `Init`
  then still stores the function and sets the flag, and `UpdateGrad` before
  `Init` fails with `NotInitialized` for every dimension, zero included,
  since the only guard the header implies is `_init` (src/io/io.h:30).
- The header does not say what the method bodies do. The constructor
  sizes every column of `index`, `data` and `sorted_data` to `rows`
  entries, and every row buffer too. All values start at zero, as a
  value-initialised `resize` would leave them.

## Model

| member | source | states |
|---|---|---|
| `ColumnSort.SortedIndex` | src/io/io.h:31 | The index of a column is a permutation of its rows: every entry is in range, none repeats, none is missing. Reading the column through it gives ascending values, and equal values keep their row order. |
| `ColumnSort.SortedIndexUnique` | src/io/io.h:31 | Every permutation that is ascending and stable on a column equals `SortedIndex` of that column. So any correct stable sort yields this index. |
| `ColumnSort.SortedValues` | src/io/io.h:16-18 | The values read through the sort index have one entry per row, are sorted, and hold the same values as the column, each as often as it occurs. |
| `ColumnSort.SortedIndexExample` | src/io/io.h:31 | The column 3, 1, 2, 1 has index 1, 3, 2, 0 (the tie between rows 1 and 3 keeps row order) and sorted values 1, 1, 2, 3. |
| `IO.DataMatrix.constructor` | src/io/io.h:16-30 | `rows` and `columns` equal the arguments. There are `columns` entries of `index`, `data` and `sorted_data`, each of length `rows`. `y`, `y_hat` and `grad` have `rows` zero entries in fresh arrays. The container is not initialised. |
| `IO.DataMatrix.Init` | src/io/io.h:16-31 | Afterwards every column holds `SortedIndex` of its values (a permutation of the rows) and its values in that order (sorted). Every `y_hat[i]` equals the initial value, the stored function is `func`, and the container is initialised, even if it was initialised before. `data`, `y` and `grad` keep their contents. |
| `IO.DataMatrix.UpdateGrad` | src/io/io.h:26-30 | On an initialised container the result is `Pass` and every `grad[i]` equals `func(y[i], y_hat[i])` for the stored `func`. Otherwise the result is `Fail(NotInitialized)` and `grad` is unchanged. Only `grad` may change: `y`, `y_hat`, the column buffers, the dimensions and the flag stay put. |
| `IO.DataMatrix.BuildColumnIndex` | src/io/io.h:16-18 | `index[c]` becomes `SortedIndex(data[c])`: a permutation of the rows that is ascending and stable. `sorted_data[c][k] == data[c][index[c][k]]` holds for every row, so `sorted_data[c]` is sorted and a rearrangement of `data[c]`. Every other column and every row buffer is unchanged. |
| `IO.UpdateGradTwice` | src/io/io.h:26 | Two `UpdateGrad` calls with no change in between give identical gradients, one per row (idempotence). |
| `IO.GradientExample` | src/io/io.h:25-26 | With labels 1 and 0, `Init(0.5, prediction - label)` and then `UpdateGrad` give `Pass` and gradients -0.5 and 0.5. |
| `IO.UninitializedExample` | src/io/io.h:26-30 | `UpdateGrad` on a freshly constructed container, of any dimensions, fails with `NotInitialized`. |
| `IO.SortExample` | src/io/io.h:16-18 | A one-column container holding 3, 1, 2, 1 gets index 1, 3, 2, 0 and sorted values 1, 1, 2, 3 from `BuildColumnIndex`. |

## Left out

- The CUDA pinned-memory allocators and `thrust` host vectors (src/io/io.h:6-8, 16-18, 22). They only decide where memory is placed for host-to-device copies. The buffers are plain sequences and arrays here.
- Single- and double-precision arithmetic. Values are `real`, so rounding is not modelled. Nor is the narrowing of the `double(double, double)` argument of `Init` to the stored `float(float, float)` function.
- NaN and missing-value sentinels in a column. The header gives them no order. The keys here are totally ordered reals.
- The header does not fix the sort algorithm or any parallel, per-column execution. The model uses one sequential stable insertion sort. `SortedIndexUnique` shows that any stable sort gives the same result.
- Loading `data` and `y` from files, and every concrete loss function. These belong to other parts of the trainer, which are not part of this model.
- IO.DataMatrix.constructor: takes `nat` dimensions. The C++ constructor takes `int`, and a negative value converted to `size_t` is not modelled.
- Length mismatches between buffers, which would be a dimension error, cannot arise in the model. `Valid()` keeps every buffer at its fixed size, so no dimension check is modelled.
- IO.DataMatrix.BuildColumnIndex: `SortedIndex` is private in the source and the member that calls it is not shown; the model assumes it is `Init`. The model also exposes the per-column step as a public method, which the source does not have. It requires `c < columns`: an out-of-range column is undefined behaviour in the source, so no error path is modelled for it.
