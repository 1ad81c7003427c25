# Temporal splitting and caching of the AML transaction graph

This project models the data-loading core of the Multi-GNN anti-money-laundering
pipeline (`get_processed_path` and `get_data` in `data_loading.py`).

The transaction table becomes one directed graph, with one edge per transaction. Its
timestamps are shifted so that the earliest one is 0, and the edges are binned into
days of 86,400 seconds. The model then:

- chooses the cut `(i, j)` that splits the days into train `[0, i)`, validation
  `[i, j)` and test `[j, n_days)`, as close to 60/20/20 of the transactions as
  possible;
- builds the training graph (train edges), the validation graph (train edges
  followed by validation edges) and the test graph (every edge).

Each run caches six artifacts next to the input file: the three graphs and the three
index tensors.

- A later run that finds all six files loads them instead of recomputing.
- A run that finds any of them missing recomputes all six, saves them, and returns
  what it reads back.
- With reverse message passing, the three graphs are converted to the heterogeneous
  form before they are returned.

Modules, one per file:

- `Failures` (`failures.dfy`): the ways a call can fail, and `Result`.
- `Sequences` (`sequences.dfy`): sums, concatenation of lists, `range`, and indexing
  a tensor by an index tensor.
- `ProcessedPaths` (`paths.dfy`): POSIX `dirname`, base name, `join`,
  `str.split(...)[0]`, and the loop that fills the `file_path` dictionary.
- `Edges` (`edges.dfy`): the edge table and graph records, timestamp normalisation,
  `max_n_id`, and the loaded graph.
- `DayBins` (`daybins.dfy`): `n_days`, `torch.where` on a time window, the day loop,
  and the facts about day buckets.
- `SplitSearch` (`splitsearch.dfy`): the score, the `itertools.combinations`
  enumeration, the loop filling `split_scores`, Python's first-wins `min`, and
  optimality.
- `Materialize` (`materialize.dfy`): the day lists of the three splits, the nested
  loop filling `split_inds`, `torch.cat`, and slicing a graph by an index tensor.
- `Pipeline` (`pipeline.dfy`): the whole cache-miss computation. `PlanSplits` is the
  function that specifies it, and the method `ComputeSplits` performs it step by step.
  The module also holds the properties of the result, stated in terms of the input
  rows.
- `Cache` (`cache.dfy`): the file store (a class whose `files` map the saves update),
  the hit/miss decision, the save-then-reload sequence, and `get_data` itself.

Behaviour of the code that the model makes explicit:

- **Candidate cuts.** The code enumerates `itertools.combinations(range(n_days), 2)`,
  so `i < j` always holds and the `j >= i` test never fails. The validation and test
  periods therefore always hold at least one day.
- **Validation indices.** The validation graph is sliced by the concatenation
  `tr_inds ++ val_inds`, in that order. The saved `val_inds` holds only the
  validation days.
- **Empty periods.** The score divides only by the transaction total (at least 1) and
  the constant targets, so an empty period simply scores its relative error of 1.
  Such cuts are not excluded from the search.
- **Empty training period.** A cut with `i = 0` makes `torch.cat` of an empty list
  fail. This is modelled as the `EmptyConcatenation` failure. In particular, a table
  spanning exactly two days always fails, because its only cut is `(0, 1)`
  (`TwoDaysFail`).

## Model

| member | source | states |
|---|---|---|
| ProcessedPaths.TailStart | data_loading.py:17 | the base name starts just past the last `/`, and contains no `/` |
| ProcessedPaths.RStripSep | data_loading.py:15 | `dirname` drops exactly the trailing run of separators, keeping a prefix that does not end in `/` |
| ProcessedPaths.Dirname | data_loading.py:15 | `dirname` is a prefix of the path ending at or before the last `/`; only separators lie between it and the base name; it is empty, all separators, or does not end in `/`; it is empty exactly when the path has no `/`; a head made only of separators is kept whole |
| ProcessedPaths.Basename | data_loading.py:17 | `split(p)[1]` is the separator-free suffix of the path, preceded by a `/` unless it is the whole path |
| ProcessedPaths.Join | data_loading.py:24 | `join(a, b)` ends with `b`; an absolute `b` is the whole result; otherwise what precedes `b` is `a` followed by one `/`, exactly when `a` is non-empty and does not end in `/`, and `a` alone otherwise |
| ProcessedPaths.SplitHead | data_loading.py:17 | `split("formatted")[0]` is a prefix of the base name with no earlier occurrence of the marker, and is either the whole name or followed by the marker |
| ProcessedPaths.FolderName | data_loading.py:17 | the stem is a prefix of the base name and contains no `/` |
| ProcessedPaths.GetProcessedPath | data_loading.py:11-25 | the loop produces exactly the six keys train, val, test, train_inds, val_inds, test_inds, each mapped to `join(dirname(data), stem + name + ".pt")` |
| ProcessedPaths.FolderNameIsStem | data_loading.py:17 | the stem has no separator and is the part of the base name before the first "formatted" (all of it when the marker is absent) |
| ProcessedPaths.BasenameOfJoin | data_loading.py:24 | joining a directory with a separator-free name yields a path whose base name is that name |
| ProcessedPaths.ProcessedPathFileName | data_loading.py:23-24 | the file name of each artifact path is the stem, then the artifact name, then ".pt" |
| ProcessedPaths.DirnameOfJoin | data_loading.py:15-24 | joining a directory of the form `dirname` returns with a separator-free name, then taking `dirname`, gives that directory back |
| ProcessedPaths.ProcessedPathDirectory | data_loading.py:15-24 | each artifact path lies in the directory of the input path: its `dirname` is the input's `dirname` |
| ProcessedPaths.JoinInjective | data_loading.py:24 | with one directory, different relative names give different joined paths |
| ProcessedPaths.ProcessedPathsDistinct | data_loading.py:19-24 | the six artifact paths of one input are pairwise distinct |
| Edges.MinOf | data_loading.py:68 | the minimum is an element and no element is smaller |
| Edges.MaxOf | data_loading.py:105 | the maximum is an element and no element is larger |
| Edges.MaxEndpoint | data_loading.py:70 | the largest id bounds every `from_id` and `to_id` and is one of them |
| Edges.Earliest | data_loading.py:67-68 | the earliest timestamp of the table bounds every row's timestamp from below and is attained |
| Edges.Normalized | data_loading.py:67-68 | each shifted timestamp is the row's timestamp minus the earliest; 0 occurs; none is negative; pairwise differences are kept |
| Edges.EdgeTable | data_loading.py:71-76 | the graph has one edge per row in row order (endpoints, the four edge features, timestamp, label), and `max_n_id` nodes of feature 1 |
| Edges.LoadEdges | data_loading.py:62-101 | an empty table fails (the maximum of no ids raises) and only an empty table does. Otherwise the graph is well formed, with one edge per row. `max_n_id` is one more than an endpoint id and exceeds every id. All node features are 1, and timestamps are shifted to start at 0 |
| DayBins.NDays | data_loading.py:105 | `n_days` is at least 1, exceeds the day of every timestamp, and equals the day of some timestamp plus one |
| DayBins.Where | data_loading.py:117 | the window query returns exactly the indices whose timestamp lies in `[l, r)`, in ascending order |
| DayBins.DayOf | data_loading.py:115-117 | a non-negative timestamp lies in window `d` exactly when `d` is its floor-divided day |
| DayBins.BinDays | data_loading.py:112-122 | the day loop yields one bucket per day, the window query for that day, and `daily_trans` holding each bucket's length |
| DayBins.DailyPartition | data_loading.py:112-122 | each edge lies in exactly the bucket of its day; each bucket is ascending; together the buckets hold `0..n-1` once each; the counts sum to the number of edges |
| DayBins.DailyIndicesInRange | data_loading.py:117 | every index in every bucket names an edge |
| DayBins.BucketRangeBound | data_loading.py:114-121 | an edge in buckets `lo..hi-1` has its timestamp in `[lo*86400, hi*86400)` |
| DayBins.BucketRangeMember | data_loading.py:114-121 | an edge whose timestamp is in `[lo*86400, hi*86400)` lies in buckets `lo..hi-1` |
| DayBins.BucketRangeIff | data_loading.py:114-121 | the two directions together: edge `k` is in buckets `lo..hi-1` if and only if its timestamp is in that window |
| DayBins.BeforeEnd | data_loading.py:105 | every timestamp falls before the end of day `n_days - 1` |
| SplitSearch.RelativeError | data_loading.py:135-137 | the relative error is non-negative, and zero exactly when the part has the target share |
| SplitSearch.SplitTotals | data_loading.py:131-134 | the three range totals add up to all transactions |
| SplitSearch.Score | data_loading.py:131-139 | the score is the largest of the three relative errors: at least each of them and equal to one of them, hence non-negative |
| SplitSearch.ScoreZeroIff | data_loading.py:124-139 | a cut scores 0 exactly when its ranges hold 3/5, 1/5 and 1/5 of the transactions |
| SplitSearch.Combinations | data_loading.py:129 | every enumerated pair has `i < j < n` |
| SplitSearch.CombinationsExactly | data_loading.py:127-129 | the enumerated pairs are exactly those with `i < j < n`, in strictly increasing lexicographic order, and there are none when `n < 2` |
| SplitSearch.ScoreSplits | data_loading.py:128-142 | the loop stores one scored entry per candidate pair, in enumeration order, each with that pair's score |
| SplitSearch.ArgMin | data_loading.py:144 | `min(..., key=...)` picks an entry of least score, and every earlier entry scores strictly more (first wins) |
| SplitSearch.BestSplit | data_loading.py:129-144 | it fails exactly when there are fewer than two days (no candidates), and otherwise returns a cut with `i < j < n_days` |
| SplitSearch.CombinationIndex | data_loading.py:129 | every pair `a < b < n` is enumerated at some position |
| SplitSearch.CombinationsOrdered | data_loading.py:129 | a later position holds a lexicographically later pair |
| SplitSearch.BestSplitBeats | data_loading.py:144 | the chosen cut scores no more than any candidate, and strictly less than any candidate that precedes it |
| SplitSearch.BestSplitOptimal | data_loading.py:129-144 | the chosen cut minimises the score over all `0 <= a < b < n_days`; ties go to the lexicographically first |
| SplitSearch.TwoDaysCutAtZero | data_loading.py:129-144 | with two days the chosen cut is `(0, 1)` |
| SplitSearch.UniformTenDaysExact | data_loading.py:124-139 | ten days of 100 transactions: the cut `(6, 8)` scores 0 |
| SplitSearch.UniformTenDaysZeroOnlyAt | data_loading.py:124-139 | on ten uniform days no other cut scores 0 |
| SplitSearch.UniformTenDays | data_loading.py:124-144 | ten days of 100 transactions are cut at `(6, 8)` |
| Sequences.Range | data_loading.py:147-149 | `range(lo, hi)` has `hi - lo` elements, the `k`-th being `lo + k` |
| Sequences.Gather | data_loading.py:183-184 | indexing by an index tensor gives one element per index, the `k`-th being the element at `e[k]` |
| Sequences.FlattenMembership | data_loading.py:161-163 | an index is in a concatenation exactly when it is in one of the parts |
| Sequences.GatherRange | data_loading.py:146-159 | indexing by a contiguous range is the slice with those bounds |
| Materialize.SplitDays | data_loading.py:146-150 | the three day lists are `[0, i)`, `[i, j)` and `[j, n)`; together, in order, they are `0..n-1` |
| Materialize.CollectSplitDays | data_loading.py:154-159 | the nested loop gives each split the daily index tensors of its days, in day order |
| Materialize.Cat | data_loading.py:161-163 | `torch.cat` of no tensors fails, and of no other list does. Otherwise it is the parts one after another, in order; its length is the total of the part lengths, and it holds exactly the parts' indices |
| Materialize.CatInRange | data_loading.py:161-163 | concatenating parts whose indices name edges gives indices that name edges |
| Materialize.SliceGraph | data_loading.py:181-189 | the sliced graph is well formed and keeps `x`; its `k`-th edge (endpoints, attributes, timestamp, label) is edge `e[k]` of the full graph |
| Materialize.SliceConcat | data_loading.py:200-203 | slicing by `tr_inds ++ val_inds` gives the train slice's edges followed by the validation slice's |
| Materialize.SliceAll | data_loading.py:220-221 | slicing by every edge index in order gives back the full graph, as the test graph is built |
| Pipeline.ChooseCut | data_loading.py:124-144 | choosing the cut fails exactly when the table spans a single day; otherwise `0 <= i < j < n_days` |
| Pipeline.SplitIndices | data_loading.py:154-159 | every index held by `split_inds` names an edge |
| Pipeline.SplitIndicesAreDayRanges | data_loading.py:146-159 | `split_inds` holds the buckets of days `[0, i)`, `[i, j)` and `[j, n_days)` |
| Pipeline.CutIndices | data_loading.py:161-163 | the three index tensors are the concatenated buckets of the three periods; the step fails exactly when `i = 0` |
| Pipeline.PlanSplits | data_loading.py:62-233 | the cache-miss computation fails only on an empty table, a single-day table or an empty training list, and fails on the empty table exactly when the table is empty |
| Pipeline.FindCut | data_loading.py:112-144 | the day loop, the score loop and the `min` compute the chosen cut, and return the day buckets for reuse |
| Pipeline.GatherCut | data_loading.py:146-163 | from the day buckets already computed, the split lists, the `split_inds` loops and the three concatenations compute the index tensors |
| Pipeline.ComputeSplits | data_loading.py:62-233 | the step-by-step cache-miss computation returns exactly `PlanSplits` of the table: the same six objects or the same failure |
| Pipeline.PlanShape | data_loading.py:181-221 | what a successful split holds. The train graph is the slice by `tr_inds`. The validation graph is the slice by `tr_inds ++ val_inds`, whose edges are the train edges followed by the validation edges. The test graph is the whole graph. Each graph goes through the feature step |
| Pipeline.PeriodsPartition | data_loading.py:146-163 | the buckets of the three periods together hold every edge index exactly once |
| Pipeline.PlanPartition | data_loading.py:146-163 | `tr_inds ++ val_inds ++ te_inds` is a permutation of all edge indices |
| Pipeline.PeriodsByTime | data_loading.py:114-163 | an edge is in the first, middle or last period exactly when its timestamp is below `i` days, in `[i, j)` days, or from `j` days on |
| Pipeline.PlanByTime | data_loading.py:114-163 | the same for the returned index tensors and the chosen cut |
| Pipeline.PeriodsNonEmpty | data_loading.py:146-163 | with a training day and a test day, the first period holds the edge of timestamp 0 and the last period holds an edge of the last day; so neither is empty |
| Pipeline.PlanNonEmpty | data_loading.py:161-163 | in every successful split, `tr_inds` holds the edge of timestamp 0 and `te_inds` an edge of the last day, so neither is empty |
| Pipeline.WithinLastDay | data_loading.py:105 | an edge of day `n_days - 1` is less than a day later than every edge |
| Pipeline.EmptyTableFails | data_loading.py:70 | the computation fails on the maximum of no ids exactly when the table is empty |
| Pipeline.SingleDaySpan | data_loading.py:67-68 | the shifted timestamps span one day exactly when all timestamps are less than 86,400 s apart |
| Pipeline.OneDayFails | data_loading.py:144 | `min` of the empty score dictionary fails exactly when every two transactions are less than a day apart |
| Pipeline.EmptyTrainFails | data_loading.py:161 | with two or more days, the concatenation failure happens exactly when the chosen cut has `i = 0` |
| Pipeline.TwoDaysFail | data_loading.py:129-161 | a table spanning exactly two days always fails with the concatenation failure |
| Pipeline.SplitsPartition | data_loading.py:146-163 | the three returned index tensors together hold every row index exactly once |
| Pipeline.SplitsByTime | data_loading.py:112-163 | with `t` a row's time since the earliest row, the row is a train, validation or test row exactly when `t` is below `i` days, in `[i, j)` days, or from `j` days on |
| Pipeline.SplitsChronological | data_loading.py:146-163 | every train transaction is strictly earlier than every validation transaction, which is strictly earlier than every test transaction |
| Pipeline.SplitsNonEmpty | data_loading.py:161-163 | in a successful call, an earliest transaction is a training transaction, and the test set holds a transaction less than a day later than every transaction; so neither tensor is empty |
| Pipeline.RowOfShiftedTime | data_loading.py:67-68 | the row of shifted timestamp 0 has the earliest timestamp, and a row of the last day is less than a day later than every row |
| Cache.ArtifactStore.Exists | data_loading.py:36-37 | `os.path.exists` holds exactly for the stored paths |
| Cache.ArtifactStore.Load | data_loading.py:39-44 | `torch.load` returns what is stored at the path |
| Cache.ArtifactStore.Save | data_loading.py:195-196 | `torch.save` stores the object at its path and changes no other path |
| Cache.AllExist | data_loading.py:36-37 | the six `os.path.exists` tests together hold exactly when every artifact path is stored |
| Cache.PathsOf | data_loading.py:11-25 | the dictionary for an input path names all six artifacts, with pairwise distinct paths |
| Cache.Convert | data_loading.py:46-56 | without reverse message passing a loaded object is returned as is; with it, a graph becomes its heterogeneous form and anything else fails |
| Cache.ArtifactPathsApart | data_loading.py:19-24 | the six paths of a valid dictionary are pairwise distinct |
| Cache.SavedArtifacts | data_loading.py:195-233 | after the six saves each artifact path holds what was saved to it, even though some are saved before others |
| Cache.SavedOnlyArtifacts | data_loading.py:195-233 | the saves leave all six files present, add only the six artifact paths, and keep every other file |
| Cache.ReloadReturnsSaved | data_loading.py:238-260 | reading back what was just saved returns the computed split, converted when asked to |
| Cache.LoadAll | data_loading.py:39-58 | the six loads and the optional conversion return the read-back of the stored files |
| Cache.SaveAll | data_loading.py:195-233 | the six saves, in the source's order, leave the store as specified |
| Cache.SaveAndReload | data_loading.py:195-260 | after saving and reloading, the store holds the six saved artifacts and the call returns the computed split |
| Cache.GetDataSpec | data_loading.py:36-260 | a hit or a failed computation writes nothing; a failed computation on a miss returns its failure; a successful one on a miss fills the cache and returns the computed split; files other than the six are always kept |
| Cache.GetDataAt | data_loading.py:36-260 | with the artifact paths known, the call is a hit (load and return) when all six exist. Otherwise it computes the split and stops on its failure, or saves, reloads and returns. This is `GetDataSpec` of the files before the call |
| Cache.GetData | data_loading.py:28-260 | `get_data` derives the artifact paths from the input path and then behaves as `GetDataSpec` |
| Cache.HitIgnoresTable | data_loading.py:36-58 | on a hit nothing is written, and the result does not depend on the table |
| Cache.HitConversion | data_loading.py:46-58 | on a hit, without conversion the six stored objects are returned; with it, the call fails exactly when a graph file holds no graph, and otherwise returns the heterogeneous form of each stored graph together with the three stored index files |
| Cache.MissFailureWritesNothing | data_loading.py:60-163 | on a miss a failing computation stops before any file is written |
| Cache.MissReturnsComputed | data_loading.py:195-260 | on a miss a successful computation is saved to the six paths, other files are kept, and the computed split is returned |
| Cache.SecondCallHits | data_loading.py:36-58 | after a successful call the cache is filled, and a second call hits it and returns the same result whatever the table then holds |

## Left out

- Reading the CSV (`pd.read_csv`) is not modelled; the table is the parameter `rows`.
- The file system is a map from path to artifact held by `ArtifactStore`. Serialisation and file contents beyond "a graph" or "an index tensor" are not modelled.
- Logging is left out, together with the statistics computed only for it: `daily_irs`, `weighted_daily_irs`, the illicit ratios and the sample percentages. Nothing reads them.
- Timestamps are exact integers. The source holds them as a float32 tensor, which rounds large values. `n_days` is modelled as an exact floor division, not as float division followed by `int`.
- Edge attributes are kept as records of the four columns; their conversion to a float32 matrix is not modelled.
- Split scores are exact reals. The source uses float64, so exact ties in the model may break differently under rounding.
- `add_ports` (a method of the graph class) and `z_norm` (a function of `data_util`, applied to the node features and to the edge features) are not part of this model. Together they are the parameter `featurize`, applied to each of the three graphs before it is saved, and their results are not interpreted.
- Account ids are taken to be non-negative, as the formatted transaction table provides them (`fromId` and `toId` are `nat`). The source accepts any integer id; a largest id below -1 would make `np.ones(max_n_id)` raise, and that failure is not modelled.
- `create_hetero_obj` is not part of this model. `Hetero(g)` stands for the heterogeneous object built from graph `g`. On a hit, an artifact that is not a graph fails with `NotAGraph`, standing for the attribute error the source would raise.
- The node table's `NodeID` column is not modelled; `x` is the column of ones.
- The `del` statements have no effect on results and are not modelled.
- The unused `data_config` argument and the other fields of `args` are not modelled. `args.data` is the parameter `data` and `args.reverse_mp` is `reverseMp`.
- The `else: continue` branch of the score loop is not modelled: combinations never produce `j < i`.
- The validation and test concatenations cannot fail (each period holds at least one day), so `ComputeSplits` has no error branch for them. `CutIndices` keeps all three checks, and its contract shows that only the training one can fail.
- Concurrent runs that race on the same cache directory are not modelled, nor are files changing between the existence checks and the loads.
- `main.py` and `data_loading_aml.py` are not part of this model.
