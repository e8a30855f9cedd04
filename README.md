# Wine-quality preprocessing, modelled in Dafny

This project models the preprocessing core of a wine-quality pipeline,
`src/preprocess.py`. The core has four steps:

- **Labelling** (`create_label`). A binary `good` column is derived from the
  integer `quality` score. It is 1 when the score is at least 6 and 0
  otherwise.
- **Feature selection** (the list comprehension in `main`). The feature
  columns are every column except `quality`, `color` and `good`, in table
  order.
- **Stratified split** (`stratified_split`). The table is shuffled and
  renumbered. Then, for each label value in order of first appearance, the
  first `floor(test_frac * n)` of its `n` rows go to test and the rest go to
  train. The per-label blocks are laid end to end.
- **Standardization** (`standardize_features`). Each feature is centred on
  its training mean and divided by its training standard deviation. A
  deviation of 0 is replaced by 1.

Modules:

- `Tables` (tables.dfy) holds the shared data model:
  - cells (`Int`, `Real`, `Text`), rows as maps from column name to cell,
    and tables as an ordered column list plus rows;
  - row selection through an index list, which is the `loc` lookup;
  - label filtering, which is the boolean mask `df[df[col] == v]`;
  - permutations of row positions, with the lemmas that selecting through a
    permutation keeps every row.
- `Labeling` (labeling.dfy) holds `create_label`.
- `Features` (features.dfy) holds the feature-column filter.
- `Split` (split.dfy) holds `stratified_split`:
  - it is an imperative `method` with the source's loop over label values
    and its two index accumulators;
  - it is proved against the specification functions `TestRows` and
    `TrainRows`;
  - the block-level reference definitions `TestBlocks` and `TrainBlocks`
    are tied to those functions by lemmas;
  - lemmas give the partition, per-label-count, prefix/suffix and
    block-order properties.
- `Standardize` (standardize.dfy) holds `standardize_features`. It works on
  feature blocks given column by column, and the standard deviations are an
  input.

The seeded shuffle is an input. `perm` lists, for each position of the
shuffled table, the input row placed there, and it is required to be a
permutation of the row positions. Every operation is a function of its
inputs, or a method whose results are equal to such a function. So the same
table, fraction and permutation always give the same split, and the same
seed gives the same permutation.

The code validates nothing, and the model follows the code:

- No error is raised for a test fraction outside the range. The model
  requires `0 <= test_frac <= 1`.
- No dedicated error is raised for a missing `quality` or label column, an
  empty feature list, or mismatched train and test schemas. The first two
  are preconditions here (`HasQuality`, `Labelled`). An empty feature list
  simply gives empty blocks. The schemas of the two blocks agree by
  construction of the column-major arguments.
- A fraction of exactly 1 is accepted and sends every row to test, in the
  code and in the model.

## Model

| member | source | states |
|---|---|---|
| Labeling.CreateLabel | src/preprocess.py:27-34 | same number of rows; the column list gains exactly one `good` at the end, or is unchanged when `good` is already a column; in every row every other cell is unchanged; `good` is 1 iff quality >= 6 and 0 iff quality < 6 |
| Labeling.GoodFlag | src/preprocess.py:33 | the flag is the integer 0 or 1, and it is 1 exactly when the quality is at least 6 |
| Labeling.CreateLabelWellFormed | src/preprocess.py:32-33 | a table whose rows all have exactly its columns keeps that property after labelling |
| Labeling.CreateLabelIdempotent | src/preprocess.py:32-33 | labelling a labelled table changes nothing |
| Labeling.GoodFlagExamples | src/preprocess.py:33 | quality 5 and 5.9 give 0; quality 6 and 10 give 1 |
| Features.FeatureColumns | src/preprocess.py:91-93 | a column is a feature iff it is a column of the table and is not quality, color or good; never more features than columns |
| Features.FeatureColumnsAppend | src/preprocess.py:93 | the filter works name by name and keeps the relative order of the kept names |
| Features.FeatureColumnsSingle | src/preprocess.py:93 | a single name is kept exactly when it is not excluded |
| Features.FeatureColumnsDistinct | src/preprocess.py:92-93 | distinct column names give distinct feature names |
| Features.FeatureColumnsIdempotent | src/preprocess.py:93 | filtering the feature list again changes nothing |
| Features.FeaturesOfLabelledTable | src/preprocess.py:88-93 | the `good` column added by labelling never becomes a feature: the labelled table has the raw table's features |
| Split.Shuffle | src/preprocess.py:43 | the shuffled table has as many rows as the input, each row as often as in the input |
| Split.ShuffleLabelled | src/preprocess.py:43 | shuffling keeps the label column readable in every row |
| Split.Unique | src/preprocess.py:48 | the label values have no duplicates, and they are exactly the values occurring in the column |
| Split.UniqueOrder | src/preprocess.py:48 | the values seen in a prefix of the column are listed first, so values come in order of first appearance |
| Split.GroupIdx | src/preprocess.py:49-54 | the group's positions (`subset.index`) are positions of the table whose rows carry label `v` |
| Split.GroupIdxCount | src/preprocess.py:49 | a position is in the group of `v` exactly once when its row is labelled `v`, and otherwise not at all |
| Split.GroupSelect | src/preprocess.py:49-54 | the group's positions select exactly the rows labelled `v`, in table order |
| Split.TestCount | src/preprocess.py:50-51 | the test count is the floor of frac * n: at most n, at most frac * n, and more than frac * n - 1 |
| Split.TestIdx | src/preprocess.py:46-56 | the test positions collected over the visited labels are positions of the table; their content is pinned down by Split.TestBlocksMatch and Split.SplitIndexCount |
| Split.TrainIdx | src/preprocess.py:46-56 | the train positions collected over the visited labels are positions of the table; their content is pinned down by Split.TrainBlocksMatch and Split.SplitIndexCount |
| Split.TestRows | src/preprocess.py:41-60 | the test result as a function of the rows, label column, fraction and shuffle (no contract of its own; its properties are Split.SplitPartition, Split.SplitPerLabel and Split.SplitBlockOrder) |
| Split.TrainRows | src/preprocess.py:41-59 | the train result as a function of the same inputs (no contract of its own; same partner lemmas as Split.TestRows) |
| Split.StratifiedSplit | src/preprocess.py:36-61 | keeps the columns; the results equal the specification functions; train and test together are the input rows as a multiset; per label value with c rows, test has floor(frac * c) and train has c - floor(frac * c) |
| Split.TestBlocksMatch | src/preprocess.py:53-60 | the test index list selects the per-label test blocks laid end to end in label order |
| Split.TrainBlocksMatch | src/preprocess.py:54-59 | the train index list selects the per-label train blocks laid end to end in label order |
| Split.BlockStep | src/preprocess.py:48-56 | one more label adds, among the rows labelled `v`, that label's block when it is `v` and nothing otherwise |
| Split.BlocksPerLabel | src/preprocess.py:48-56 | within each label group, test holds the group's first floor(frac * n) rows in shuffled order and train the rest; labels not visited add nothing |
| Split.IdxStep | src/preprocess.py:53-56 | one more label adds its whole group, split between the two index lists |
| Split.SplitIndexCount | src/preprocess.py:48-56 | a position is in exactly one index list when its label is visited and in neither otherwise |
| Split.IndexPartition | src/preprocess.py:46-56 | the train and test positions together are a permutation of all positions |
| Split.SplitPartition | src/preprocess.py:46-61 | train and test positions are disjoint and cover every row; the train and test rows together are the input rows as a multiset |
| Split.AbsentLabel | src/preprocess.py:49 | a value no row carries has an empty group |
| Split.SplitPerLabel | src/preprocess.py:43-60 | per label value, the group is as large as in the input; its test rows are the first floor(frac * c) rows of its group in shuffled order, and its train rows are the rest |
| Split.SplitCounts | src/preprocess.py:50-56 | per label value with c input rows, test holds floor(frac * c) of them and train c - floor(frac * c) |
| Split.SplitBlockOrder | src/preprocess.py:48-60 | test and train are the per-label blocks laid end to end, labels in order of first appearance in the shuffled table |
| Split.TenRowScenario | src/preprocess.py:36-61 | 10 rows with 6 labelled 0 and 4 labelled 1 at fraction 0.2: test has one row labelled 0 and none labelled 1, and train has 9 rows |
| Tables.Select | src/preprocess.py:59-60 | the `loc` lookup followed by renumbering: one row per listed position; Tables.SelectPermutation and Tables.SelectAppend give its properties |
| Tables.PermutationHalves | src/preprocess.py:59-60 | when two index lists together are a permutation, no position is in both and every position is in one |
| Tables.SelectPermutation | src/preprocess.py:43-60 | selecting rows through a permutation of their positions keeps every row, each as often as before |
| Tables.RowsWithPermutation | src/preprocess.py:43-49 | rearranging rows does not change how many rows carry a label |
| Tables.RowsWithAppend | src/preprocess.py:49 | the label mask distributes over concatenation |
| Tables.RowsWithTwo | src/preprocess.py:49 | rows with two different labels are different rows |
| Standardize.Scale | src/preprocess.py:71 | the divisor is never 0: a deviation of 0 gives exactly 1, and any other deviation is kept |
| Standardize.Mean | src/preprocess.py:70 | the mean times the number of values is the column's sum |
| Standardize.StandardizeColumn | src/preprocess.py:74-75 | one value per input value; Standardize.RoundTrip shows the transform is undone by the inverse with the same parameters |
| Standardize.StandardizeFeatures | src/preprocess.py:63-77 | the means are the training means; the divisors are 1 for a zero deviation and the deviation otherwise; the shapes are kept; each standardized training column sums to 0; both blocks are recovered exactly from the results and parameters |
| Standardize.RoundTrip | src/preprocess.py:74-75 | standardizing a column loses nothing: undoing the transform with the same parameters gives the column back |
| Standardize.CenteredSum | src/preprocess.py:70-74 | a training column standardized with its own mean sums to 0 |
| Standardize.ConstantColumn | src/preprocess.py:70-74 | a constant training column has the constant as its mean, its deviation 0 is replaced by 1, and it standardizes to all zeros |
| Standardize.NoLeakage | src/preprocess.py:66-74 | the test block has no influence on the means, the divisors or the standardized training block |

## Left out

- Reading and writing files is not modelled: `load_combined_df`, `save_to_csv`, printing, and the I/O steps of `main`. src/load_and_inspect.py is not part of this model.
- The pseudo-random generator is not modelled. The shuffle it produces from the seed is an input permutation.
- Split.TestCount: the model computes floor(frac * n) on exact reals. The source multiplies floats, which can floor one lower (for example 0.29 * 100 is 28.999... in binary floating point).
- Split.StratifiedSplit: fractions outside [0, 1] are a precondition. The source accepts them silently. With a fraction above 1, slicing clamps the count, and every row goes to test. With a negative fraction, `n_test` is some -m: test then gets all but the last m rows of the group, and train gets the last m (the whole group when m is at least its size).
- Split.StratifiedSplit: label equality is structural equality of cells. pandas compares an integer and a float label numerically. A row whose label is NaN matches no group, so it ends up in neither output. Missing values are not modelled, and the partition property holds only for tables without missing labels.
- Labeling.CreateLabel: the quality column must be present and numeric in every row, which is a precondition. In pandas a missing column raises `KeyError`, and NaN compares as not good.
- Standardize.StandardizeFeatures: the sample standard deviation is an input, because it needs a square root over the reals. Only its zero-to-one substitution and its use as the divisor are modelled. pandas gives NaN for an empty or one-row training column. The model requires a non-empty training column instead and does not model NaN.
- Standardize.StandardizeFeatures: the blocks are given column by column as reals. The feature names are the result of Features.FeatureColumns. Float rounding of the mean and of the division is not modelled.
