# Custom transformer stages, modelled in Dafny

This project models the feature stages in `src/Custom_Transformer.py`. They
run in the data pipeline of an anime-metadata project. Every stage learns a
small discrete state in `fit` and applies it in `transform`. The stages are:

- `_ensure_list`, the cell normaliser shared by the list-column stages. A
  list cell is kept. A string is evaluated as a literal. Anything else becomes
  the empty list.
- `MultiListModeImputer`. It learns the most frequent label of each list
  column, with ties going to the first label met. It fills each empty cell
  with the singleton of that label.
- `FrequencyGrouper`. It learns the labels that occur at least
  `min_freq.get(col, 10)` times. Every other label is rewritten to `"Other"`.
- `MultiLabelBinarizerDF`. It learns the sorted vocabulary of each list
  column. It replaces the column by one 0/1 column `<col>__<label>` per
  vocabulary label.
- `CyclicalMonthEncoder.fit`: the names `<col>_sin` and `<col>_cos`.
- `create_list_counts`, which makes `<col>_Count` columns.
- `create_interactions`, which makes `<a>_x_<b>` columns.
- `FeatureEngineering`. Its `fit` learns quantile bin edges. Its `transform`
  buckets values with `pd.cut(..., labels=False, include_lowest=True)` and
  maps each bin index to a fixed label list by position.

A frame is a `Tables.Table`. It holds a row count, the ordered column names
and a map from name to column. A cell is a `Values.Value`: a list of labels,
a missing marker, a string, an integer or some other object. A label
(`Values.Item`) is a string or Python's `None`. `ast.literal_eval` is a
`Parser` parameter: a partial function from a string to a list of labels.

`fit` and `transform` are pure functions over immutable values. A raised
`KeyError` or `IndexError`, and the `TypeError` of sorting mixed `None` and
strings, are preconditions.

Modules:
- `Values`: cells, `_ensure_list` and flattening.
- `Tables`: frames, drop and concat.
- `Collation`: Python's string order and `sorted(set(...))`.
- `ModeImputer`, `FrequencyGrouper`, `Binarizer`, `CyclicalMonth` and
  `FeatureEngineering`: one module per stage.

Some behaviours of the code are easy to miss, and the model keeps them:

- `MultiLabelBinarizerDF` does not normalise its cells. The model requires
  every configured cell to be a list already.
- When no mode was learned, the imputer fills empty cells with `[None]`
  rather than leaving them empty.
- `create_list_counts` does not normalise either. A list that is still
  serialised as a string, such as `"['Action']"`, counts 0.
- `create_list_counts` and `create_interactions` collect their columns in a
  dict. A list column named twice gives one count column. Two pairs with the
  same name, such as `('a_x', 'b')` and `('a', 'x_b')`, give one column. It
  sits at the first pair's position and holds the last pair's product.

## Model

| member | source | states |
|---|---|---|
| Tables.DedupFirstOccurrenceOrder | src/Custom_Transformer.py:212-215 | The deduplicated keys appear in the order of their first occurrences, which is a dict's insertion order. |
| Tables.FromDict | src/Custom_Transformer.py:212-215 | Building a frame from a dict filled key by key: the columns are the keys in order of first assignment, and each key holds its last assigned column. |
| Tables.FromDictDistinct | src/Custom_Transformer.py:220-223 | With distinct keys, the dict's frame is the frame built from the names and columns in order. |
| Tables.BuildAppend | src/Custom_Transformer.py:314 | Building from two disjoint name lists is building each and concatenating them side by side. |
| Values.EnsureList | src/Custom_Transformer.py:25-35 | A list cell is returned unchanged. A parsable string gives its parse. Every other cell, including an unparsable string, gives the empty list. The function is total, so normalisation never fails. |
| Values.AllItemsEmpty | src/Custom_Transformer.py:39-44 | The flattened labels of a column are empty exactly when every cell normalises to the empty list. |
| Values.AllItemsMember | src/Custom_Transformer.py:39-42 | A label occurs in the flattened column exactly when it occurs in some normalised cell. |
| ModeImputer.ModeOf | src/Custom_Transformer.py:44-47 | There is no mode exactly when there are no labels. Otherwise the result has maximal count, and no label of equal count occurs earlier. |
| ModeImputer.FirstModeUnique | src/Custom_Transformer.py:47 | At most one label satisfies the first-most-common property, so `most_common(1)` with ties to first insertion is well defined. |
| ModeImputer.ModeOfCharacterization | src/Custom_Transformer.py:47 | The learned mode is `m` if and only if `m` has maximal count and is met first among the labels of that count. |
| ModeImputer.Fit | src/Custom_Transformer.py:37-49 | Every configured column gets a mode. It is absent exactly when every cell of the column normalises to the empty list. Otherwise it is the first most common label of the flattened column. `fit` stores `None` in both cases when that label is `None` itself. The model keeps the two apart: no mode, or the mode `None`. Both fill empty cells with `[None]`. |
| ModeImputer.ImputeCell | src/Custom_Transformer.py:55-56 | A cell with labels keeps exactly those labels. A cell without labels becomes exactly `[mode]`, or `[None]` when no mode was learned. Every result is a list of length at least 1. |
| ModeImputer.Transform | src/Custom_Transformer.py:51-57 | Configured cells are imputed. Other columns, the column order and the row count are unchanged. Every configured cell afterwards is a non-empty list. |
| ModeImputer.TransformIdempotent | src/Custom_Transformer.py:51-57 | Transforming a transformed frame changes nothing. |
| ModeImputer.ImputedCounts | src/Custom_Transformer.py:55-56 | Imputing a column changes no label count except that of the fill value, which can only grow. |
| ModeImputer.ModeSurvivesGain | src/Custom_Transformer.py:47 | Adding occurrences of the first most common label keeps it first most common. |
| ModeImputer.RefitKeepsMode | src/Custom_Transformer.py:37-57 | Fitting again on the transformed training frame learns the same mode for every column that had one. |
| FrequencyGrouper.Tally | src/Custom_Transformer.py:102 | The counter's keys are exactly the labels of the list. Each key maps to its number of occurrences. |
| FrequencyGrouper.FrequentSet | src/Custom_Transformer.py:102-105 | A label is kept exactly when it occurs and its count reaches the threshold. |
| FrequencyGrouper.ThresholdMonotone | src/Custom_Transformer.py:93-105 | Raising the threshold can only shrink the frequent set. |
| FrequencyGrouper.Fit | src/Custom_Transformer.py:91-107 | Each configured column's frequent set is exactly the labels whose count in the flattened column is at least the column's `min_freq`, or 10 when none is configured. |
| FrequencyGrouper.GroupCell | src/Custom_Transformer.py:115-120 | The normalised cell keeps its length and order. Position i holds the original label when it is frequent and `"Other"` otherwise. Duplicates are kept, and every label in the result is frequent or `"Other"`. |
| FrequencyGrouper.GroupColumnIdempotent | src/Custom_Transformer.py:115-120 | Grouping a grouped column changes nothing. |
| FrequencyGrouper.Transform | src/Custom_Transformer.py:109-122 | Configured cells are grouped. Other columns, the column order and the row count are unchanged. |
| FrequencyGrouper.TransformIdempotent | src/Custom_Transformer.py:109-122 | Transforming twice equals transforming once. |
| Collation.SortDistinct | src/Custom_Transformer.py:142-143 | `sorted(set(xs))` is strictly increasing in Python's string order and holds exactly the elements of `xs`. |
| Collation.SortedUnique | src/Custom_Transformer.py:142-143 | Two strictly increasing sequences with the same elements are equal, so the vocabulary is uniquely determined. |
| Binarizer.Labels | src/Custom_Transformer.py:143 | A label is collected exactly when some list cell of the column holds it. |
| Binarizer.Fit | src/Custom_Transformer.py:139-150 | Each column's vocabulary is strictly increasing and holds exactly the labels seen in the column. The output features are reset, then list `<col>__<label>` column by column in vocabulary order. |
| Binarizer.VocabularyIsSortedLabelSet | src/Custom_Transformer.py:142-148 | Every strictly increasing sequence of exactly the seen labels equals the learned vocabulary. |
| Binarizer.IndicatorColumn | src/Custom_Transformer.py:158 | A row is 1 if and only if the vocabulary label is in the cell, and 0 if and only if it is not. Duplicates make no difference. |
| Binarizer.UnseenLabelsIgnored | src/Custom_Transformer.py:158 | Two columns that agree on which vocabulary labels each cell holds give equal indicator columns. Labels outside the vocabulary have no effect. |
| Binarizer.Encode | src/Custom_Transformer.py:156-165 | The encoded frame's columns are exactly the learned feature names. The column `<col>__<label>` is the indicator of that label. |
| Binarizer.Transform | src/Custom_Transformer.py:152-169 | Configured columns are dropped, other columns come first unchanged and in order, and then the learned feature columns follow. The new names depend only on the learned vocabulary. |
| Binarizer.FeatureNamesOutMatchTransform | src/Custom_Transformer.py:171-172 | The names `get_feature_names_out` returns after `fit` are exactly the columns `transform` appends. |
| CyclicalMonth.GeneratedFeatures | src/Custom_Transformer.py:179-185 | There are two names per configured column, in column order: `<col>_sin` at position 2i and `<col>_cos` at position 2i+1. |
| CyclicalMonth.GeneratedFromColumns | src/Custom_Transformer.py:182-184 | Every generated name is the sine or cosine name of a configured column. |
| CyclicalMonth.GeneratedAppend | src/Custom_Transformer.py:182-184 | The names for a concatenation of column lists are the concatenation of their names. |
| FeatureEngineering.ListCount | src/Custom_Transformer.py:222 | A list cell counts its length, duplicates included. Every other cell counts 0. |
| FeatureEngineering.ListCountVersusNormalised | src/Custom_Transformer.py:222 | For every cell except a string, the count is the number of labels `_ensure_list` finds. A string counts 0, even when it parses to a non-empty list. |
| FeatureEngineering.CountsAfterImputation | src/Custom_Transformer.py:222 | After the mode imputer, every configured cell counts at least one label. |
| FeatureEngineering.ListCounts | src/Custom_Transformer.py:218-223 | The column names are the `<col>_Count` names in order of first occurrence. Every list column's count name is a column holding the row-wise count of that list column. |
| FeatureEngineering.ListCountsDistinctColumns | src/Custom_Transformer.py:218-223 | Distinct list columns give exactly one count column each, in their order. |
| FeatureEngineering.ListCountsRepeatedColumn | src/Custom_Transformer.py:220-223 | A list column named twice gives a single count column. |
| FeatureEngineering.Product | src/Custom_Transformer.py:214 | The product is a number exactly when both operands are, and then it is their product. Otherwise it is missing. |
| FeatureEngineering.ProductColumnSymmetric | src/Custom_Transformer.py:214 | The product of columns a and b equals that of b and a. |
| FeatureEngineering.Winner | src/Custom_Transformer.py:212-215 | The pair whose product ends up under a pair's name is the last pair with that name. |
| FeatureEngineering.InteractionNamesCanClash | src/Custom_Transformer.py:214 | Two different pairs can produce the same `<a>_x_<b>` name. |
| FeatureEngineering.Interactions | src/Custom_Transformer.py:208-215 | The column names are the `<a>_x_<b>` names in order of first occurrence. Every pair's name is a column holding the row-wise product of the last pair with that name. |
| FeatureEngineering.InteractionsDistinct | src/Custom_Transformer.py:212-215 | With no shared names, the interaction frame is the pairs' products under their names, in order. |
| FeatureEngineering.InteractionsAppend | src/Custom_Transformer.py:208-215 | When no names are shared, the interactions of `p + q` are those of `p` followed by those of `q`. |
| FeatureEngineering.Unique | src/Custom_Transformer.py:260-265 | `np.unique` gives a strictly increasing sequence with exactly the input's values, and no longer than the input. |
| FeatureEngineering.UniqueBounds | src/Custom_Transformer.py:260-272 | The first and last edges are the least and greatest quantiles. |
| FeatureEngineering.Cut | src/Custom_Transformer.py:286-291 | A value gets bin i if and only if `e[i] < v <= e[i+1]`, or `i = 0` and `v = e[0]`. It gets a bin exactly when it is present and lies in `[e[0], e[last]]`. A missing value gets none. |
| FeatureEngineering.BinLabel | src/Custom_Transformer.py:293-295 | A value is missing exactly when it has no bin. Otherwise it is the label at the bin's position. With fewer bins only the first labels are used. |
| FeatureEngineering.Fit | src/Custom_Transformer.py:256-274 | Each bucketing's edges are strictly increasing, non-empty, and hold exactly the quantile values. There are at most `q + 1` of them, one per quantile. |
| FeatureEngineering.BinBelowEdges | src/Custom_Transformer.py:286-291 | A bin index is always below the number of edges less one. |
| FeatureEngineering.FitLabelled | src/Custom_Transformer.py:256-308 | With `q` at most the number of labels, every value of a numeric column that gets a bin gets one with a label, so `labels[int(x)]` cannot raise `IndexError`. |
| FeatureEngineering.DefaultLabelled | src/Custom_Transformer.py:233-235 | With the default `duration_q=4` and `episodes_q=4`, both bucketings only produce labelled bins. |
| FeatureEngineering.CutEnds | src/Custom_Transformer.py:286-291 | With at least two edges, the lowest edge falls in the first bin (closed by `include_lowest`) and the highest in the last. |
| FeatureEngineering.LeastQuantileFirstBin | src/Custom_Transformer.py:256-291 | With edges that hold exactly the training quantiles, the least quantile falls in bin 0. |
| FeatureEngineering.GreatestQuantileLastBin | src/Custom_Transformer.py:256-291 | With edges that hold exactly the training quantiles, the greatest quantile falls in the last bin. |
| FeatureEngineering.OutsideQuantilesNoBin | src/Custom_Transformer.py:256-291 | A value below every training quantile or above every one gets no bin. |
| FeatureEngineering.Categories | src/Custom_Transformer.py:293-311 | The `DurationCat` and `EpisodesCat` columns, in that order, are the labelled bins of the duration and episodes columns. |
| FeatureEngineering.Added | src/Custom_Transformer.py:279-314 | The new frame holds the count, interaction, `DurationCat` and `EpisodesCat` columns, in that order. Each count name holds its count column, each pair's name holds the product of the last pair with that name, and the categories hold the labelled bins. |
| FeatureEngineering.Transform | src/Custom_Transformer.py:276-316 | Every input column is kept unchanged and in order. The new columns are appended after them. Each count name holds its count column, each pair's name holds the product of the last pair with that name, and the two categories hold the labelled bins. |

## Left out

- `setup.py` only creates directories and files and prints. It is I/O with
  nothing to state.
- `CyclicalMonthEncoder.transform` is not modelled. It computes
  floating-point sine and cosine after filling with the median. Only the
  names from `fit` are modelled.
- `np.quantile` (linear interpolation on floats) is not modelled. The
  quantile values are an input to `FeatureEngineering.Fit`. Numbers are
  integers throughout; float rounding and NaN arithmetic are not modelled,
  apart from NaN as the missing marker.
- `ast.literal_eval` is the `Parser` parameter. A string that evaluates to
  something other than a list is not modelled: `extend` or `len` would treat
  it differently.
- pandas, numpy and sklearn machinery is not modelled: estimator base
  classes, frame indexing, dtypes, copying and the unused imports. The
  Dataframe index is not modelled either, since every frame keeps its input's
  rows.
- Binarizer.Fit and Binarizer.Transform: a configured cell that is not a
  list is excluded by a precondition. A `NaN` cell raises in sklearn, and a
  string would be iterated character by character. Both are unwanted
  behaviours, not modelled. Mixing `None` with strings in one column raises `TypeError` when
  sorting, which is also excluded by a precondition.
- FeatureEngineering.Transform: generated names that clash with a column
  of the frame, or with each other across `df_list`, `df_inter` and the two
  categories, are excluded by a precondition. `pd.concat` keeps both columns
  of such a clash. Clashes inside `create_list_counts` or
  `create_interactions` are modelled (the dict keeps one column).
- Binarizer.Transform: feature names that clash with each other or with a
  kept column are excluded by a precondition for the same `pd.concat`
  reason.
- FeatureEngineering.Product: numbers are unbounded integers. On `int64`
  columns `df[a] * df[b]` wraps around on overflow, and on float columns it
  rounds. Neither is modelled.
- A configured column missing from the frame (`KeyError`) is a precondition.
  So is a bin index without a label (`IndexError` when there are more than
  four bins). The second is only required of values that actually fall in
  such a bin. `FeatureEngineering.FitLabelled` shows it always holds when
  `q` is at most four, which includes the defaults.
- Array-valued cells other than Python lists are not modelled. For them
  `pd.isna` returns an array. An array of two or more elements has no truth
  value, so `_ensure_list` raises. A one-element array normalises to the
  empty list, as `Opaque` does. `Opaque` stands for the other scalar
  objects, which normalise to the empty list.
- `get_feature_names_out` of the imputer and the grouper returns the
  configured columns as they are. There is nothing to model.
- `year_col` and `degree` of `FeatureEngineering` are stored but never used.
- Persistence of `modes_`, `frequent_items_` and `encoders` entries across
  repeated `fit` calls on one object with changed columns is not modelled. `fit` returns
  fresh learned state.
