# svm_toolkit in Dafny

A verified model of the bookkeeping that svm_toolkit (a JRuby wrapper around
libsvm) does around SVM training:

- **Datasets.** A `Problem` holds a two-dimensional array of feature nodes
  and an array of labels. It is built from arrays, rescaled column by column
  in place, and merged with another problem.
- **Training parameters.** `Parameter` has the constructor defaults, the
  check on `nu`, the `cost`/`C` alias, and the list and names of kernels.
- **Trained models.** The helpers around a `Model`: evaluation over a
  dataset, support-vector indices, `w_squared`, and the sizing of
  `predict_values` and `predict_probability`.
- **Sequential search.** `Svm.cross_validation_search` trains one RBF C-SVC
  per (gamma, cost) of a grid, keeps the best model and builds a results
  table.
- **Collected search.** `GridSearch#search` dispatches the same grid to
  workers. Its `SvmCollector` receives the evaluated models in whatever order
  the workers finish. It keeps the running best and signals completion on the
  count-th result.
- **Design-of-experiments search.** The helpers of the DOE search:
  - the 13-point pattern, and the pattern around a centre;
  - the initial resolution and its shrinking by the square root of two;
  - the fold split with `each_slice`, and the leave-others-out fold score;
  - skipping pairs that already have a result;
  - choosing the best pair through `Hash#invert`;
  - the DOE `SvmCollector`, which counts announced jobs and emits per-pair
    means.

Modules:

- `Errors`: `Option`, `Result` and the Ruby exceptions the code raises.
- `Parameters`: the `Parameter` class and the `Settings` value it holds.
- `Problems`: the `Node` and `Problem` classes over `array2` and `array`.
- `Models`: the `Model` value and its helpers.
- `Grids`: `Array#product` and the default grid.
- `Ranking`: the running best under an abstract `better_than?`.
- `CrossValidation`: the sequential search.
- `GridSearch`: the collector class and the dispatched search.
- `DoeSearch`: the DOE helpers.
- `DoeCollection`: the DOE collector class and its event runs.

What the model represents:

- libsvm's `svm_train`, `svm_predict`, `svm_predict_values` and
  `svm_predict_probability` are function parameters.
- An evaluator class is a record of functions: its initial state,
  `add_result`, `better_than?` (with `nil` as `None`) and `value`.
- The actors' message passing is replaced by an explicit sequence of
  arrivals, or of `one_more`/`collect` calls.
- Floating-point values are exact `real`s.

## Model

| member | source | states |
|---|---|---|
| Parameters.Configure | lib/svm_toolkit/parameter.rb:77-95 | Construction succeeds exactly when the (defaulted) nu lies in (0, 1]; otherwise it fails with an ArgumentError |
| Parameters.ConfigureAsWritten | lib/svm_toolkit/parameter.rb:92-94 | As written, the nu check fails exactly for nu outside (0, 1], and the error is NoMethodError for the method `ArgumentError` |
| Parameters.DefaultSettings | lib/svm_toolkit/parameter.rb:79-90 | With no keys given, every field takes its documented default (C_SVC, LINEAR, 1.0, 0.0, 1, 0.0, 0.001, 0, 0.5, 0.1, 1, 0), and the `:cost` key is what sets C |
| Parameters.ConfigureRoundTrip | lib/svm_toolkit/parameter.rb:79-90 | Naming every field of a setting with a valid nu constructs exactly that setting, so each given key is kept |
| Parameters.NuCheckRaisesWrongError | lib/svm_toolkit/parameter.rb:92-94 | For nu = 0 the code as written raises NoMethodError, where the intended constructor raises ArgumentError |
| Parameters.RbfSettings | lib/svm_toolkit/svm.rb:76-81 | The settings the searches pass are always accepted and carry exactly C_SVC, RBF, that cost and that gamma |
| Parameters.Kernels | lib/svm_toolkit/parameter.rb:108-110 | Four distinct kernels, and PRECOMPUTED is not among them |
| Parameters.KernelNameKnownIff | lib/svm_toolkit/parameter.rb:113-125 | A kernel gets a name other than "Unknown" exactly when it is one of the listed kernels, and the listed kernels have pairwise different names |
| Parameters.Parameter.Assign | lib/svm_toolkit/parameter.rb:77-90 | The fields hold exactly the given setting |
| Parameters.Parameter.New | lib/svm_toolkit/parameter.rb:77-95 | Succeeds exactly when Configure does, with a fresh object holding Configure's setting, and fails with Configure's error otherwise |
| Parameters.Parameter.Cost | lib/svm_toolkit/parameter.rb:98-100 | `cost` reads the field C |
| Parameters.Parameter.SetCost | lib/svm_toolkit/parameter.rb:103-105 | `cost=` changes C and nothing else, so `cost` read afterwards gives the new value |
| Problems.Node.constructor | lib/svm_toolkit/node.rb:33-37 | A node holds the given index and value |
| Problems.SeqMinMax | lib/svm_toolkit/problem.rb:282-291 | The column minimum and maximum are entries of the column, and they bound every entry |
| Problems.ScaledRange | lib/svm_toolkit/problem.rb:294 | The linear map sends the old minimum to min_value and the old maximum to max_value, and it keeps order and range in between |
| Problems.Problem.Row | lib/svm_toolkit/problem.rb:29-34 | The row handed to libsvm is the instance's nodes, one per feature, in column order |
| Problems.Problem.Size | lib/svm_toolkit/problem.rb:228-230 | The size is the number of labels and of node rows |
| Problems.Problem.FromArray | lib/svm_toolkit/problem.rb:15-42 | Raises each of the three ArgumentErrors, in order, exactly for unequal counts, no instances and ragged instances. Otherwise it returns a fresh problem of size \|labels\| whose node (i, j) is a fresh node with index j and value instances[i][j], and whose labels are the given labels |
| Problems.Problem.ColumnRange | lib/svm_toolkit/problem.rb:282-291 | The loop finds the minimum and the maximum of the column |
| Problems.Problem.ScaleColumn | lib/svm_toolkit/problem.rb:293-295 | Every node of the column gets the linear image of its old value. Every other value and every index is unchanged |
| Problems.Problem.RescaleColumn | lib/svm_toolkit/problem.rb:280-296 | The column is mapped linearly from its own old range to [min_value, max_value]. Other columns and all indices are unchanged |
| Problems.Problem.Rescale | lib/svm_toolkit/problem.rb:235-240 | Every column is rescaled by its own old range. The size and the indices never change, and an empty problem is left as it is |
| Problems.Problem.Merge | lib/svm_toolkit/problem.rb:244-275 | Raises when either problem is empty (the `x[0]` lookup) or the feature counts differ, and succeeds otherwise. The result has size size + other.size, labels y followed by other's labels, and node (i, j) the very node object at (i, j) of self or at (i - size, j) of other |
| Problems.Problem.MergedNodes | lib/svm_toolkit/problem.rb:256-264 | The node array of the merge: self's rows, then other's, sharing the node objects |
| Problems.Problem.MergedLabels | lib/svm_toolkit/problem.rb:266-272 | The label array of the merge: self's labels followed by other's |
| Problems.MergedDistinct | lib/svm_toolkit/problem.rb:244-275 | Merging two problems that share no node gives a problem whose cells are pairwise distinct nodes |
| Problems.SelfMergeShares | lib/svm_toolkit/problem.rb:259-261 | Merging a problem with itself puts the same node object in two cells |
| Problems.RescaledColumn | lib/svm_toolkit/problem.rb:280-296 | After rescaling, the column's minimum is min_value and its maximum max_value, and the order of the values is kept |
| Models.SearchModelReadsBack | lib/svm_toolkit/model.rb:71-93 | When svm_train keeps the parameter it was given in the model (KeepsSettings), a model trained with the search settings at (cost, gamma) reports C_SVC, RBF, that cost, that gamma and degree 1 through the accessors |
| Models.UnwrapRoundTrip | lib/svm_toolkit/model.rb:162-166 | Returning a one-element array as its element loses nothing: the array is recovered |
| Models.WSquared | lib/svm_toolkit/model.rb:49-55 | A single number exactly when w_2 has one element, and the value stands for w_2 in every case |
| Models.SupportVectorIndices | lib/svm_toolkit/model.rb:59-68 | Empty when the model has no indices, otherwise an in-order copy of equal length |
| Models.DecisionCountIsPairs | lib/svm_toolkit/model.rb:160 | n(n-1)/2 slots are one per unordered pair of classes |
| Models.SingleBoundaryIff | lib/svm_toolkit/model.rb:160-163 | There is exactly one slot exactly for two-class models |
| Models.PredictValues | lib/svm_toolkit/model.rb:159-167 | One value per decision boundary, each libsvm's for that slot, returned as a single number exactly for a two-class model |
| Models.PredictProbability | lib/svm_toolkit/model.rb:147-150 | libsvm's label together with one probability slot per class, each filled by libsvm |
| Models.FeedAppend | lib/svm_toolkit/model.rb:37-43 | Feeding results in two runs is feeding them all in one |
| Models.FeedLogs | lib/svm_toolkit/model.rb:37-43 | An evaluator that logs its calls sees every (label, prediction) pair, once each, in order |
| Models.EvaluateDataset | lib/svm_toolkit/model.rb:33-45 | A new evaluator receives add_result(y[i], prediction for row i) for every instance in index order, and that evaluator is returned |
| Models.Outcomes | lib/svm_toolkit/model.rb:37-39 | One (label, prediction) pair per instance, in order |
| Grids.Row | lib/svm_toolkit/svm.rb:75 | The inner loop's pairs: (x, b) for every b, in order |
| Grids.ProductSize | lib/svm_toolkit/grid_search.rb:18 | The grid has \|gammas\| × \|costs\| pairs |
| Grids.ProductIndex | lib/svm_toolkit/grid_search.rb:20-22 | Pair i·\|costs\| + j is (gammas[i], costs[j]): gammas outermost, costs innermost |
| Grids.ProductMembers | lib/svm_toolkit/doe_search.rb:99 | A pair is in the product exactly when each part is in its list |
| Grids.DefaultValuesArePowers | lib/svm_toolkit/svm.rb:64-65 | The default costs and gammas are exactly 2^-2 … 2^3, in increasing order |
| Ranking.RaceFrom | lib/svm_toolkit/svm.rb:83-86 | The running best is its starting value or one of the compared entries |
| Ranking.Race | lib/svm_toolkit/svm.rb:70-71 | From nil, the model and the result are both set or both nil, and when set they are an entry that was compared |
| Ranking.RaceSnoc | lib/svm_toolkit/grid_search.rb:71-74 | One more result is one more better_than? comparison against the current lowest error |
| Ranking.RaceFromAppend | lib/svm_toolkit/svm.rb:73-91 | Comparing two runs of entries is comparing the first, then the second from where the first left off |
| Ranking.RaceStarted | lib/svm_toolkit/svm.rb:70-93 | Under an ordering better_than?, the best stays nil exactly when nothing was compared |
| Ranking.RaceMaximal | lib/svm_toolkit/svm.rb:83-86 | Under an ordering better_than?, no compared result is better than the final lowest error |
| Ranking.NumericOrders | lib/svm_toolkit/svm.rb:83 | Higher-is-better and lower-is-better scores are orderings, and an equal later score never takes over |
| CrossValidation.Trials | lib/svm_toolkit/svm.rb:73-82 | One trial per pair, in order |
| CrossValidation.RowValues | lib/svm_toolkit/svm.rb:74-90 | One result value per cost, in cost order |
| CrossValidation.SearchParameter | lib/svm_toolkit/svm.rb:76-81 | The Parameter built for a trial holds exactly the C-SVC, RBF setting of that cost and gamma |
| CrossValidation.TrainAndEvaluate | lib/svm_toolkit/svm.rb:76-82 | Training and evaluation give the model for the setting and its evaluation on the cross-validation set |
| CrossValidation.RunTrial | lib/svm_toolkit/svm.rb:76-82 | One iteration trains at (cost, gamma) and evaluates that model |
| CrossValidation.SearchRow | lib/svm_toolkit/svm.rb:74-90 | The inner loop compares every cost's trial in order, and builds that gamma's row |
| CrossValidation.SearchStep | lib/svm_toolkit/svm.rb:75-89 | One pass of the inner loop takes the running best one trial further and adds that trial's value to the row |
| CrossValidation.TrialsRowSnoc | lib/svm_toolkit/svm.rb:75-89 | One more cost is one more trial, one more value and one more comparison |
| CrossValidation.TrialsAppend | lib/svm_toolkit/svm.rb:73-91 | The trials of consecutive rows are the rows' trials in sequence |
| CrossValidation.GridSnoc | lib/svm_toolkit/svm.rb:73-91 | One more gamma continues the running best over that gamma's row |
| CrossValidation.CrossValidationSearch | lib/svm_toolkit/svm.rb:63-94 | The best model is the running best over the grid's trials, gammas outermost. The results table it builds, and does not return, has one row per gamma, each with the value of every cost in order |
| CrossValidation.SearchOutcome | lib/svm_toolkit/svm.rb:70-93 | The best model is nil exactly when the grid is empty, and no trial of the grid is better than the returned lowest error |
| CrossValidation.TrainedSettings | lib/svm_toolkit/svm.rb:76-81 | Every model is trained on the training set as a C-SVC with an RBF kernel at its own cost and gamma, and, when svm_train keeps its settings, reports that cost and gamma back |
| GridSearch.Records | lib/svm_toolkit/grid_search.rb:75 | One {cost, gamma, result} record per arrival, in arrival order |
| GridSearch.Collector.constructor | lib/svm_toolkit/grid_search.rb:63-66 | Expects the given count, with no records and nil as best |
| GridSearch.Collector.Collect | lib/svm_toolkit/grid_search.rb:70-79 | Appends exactly one record, keeps the running best over all arrivals, and returns finished_collecting's payload exactly when the count is reached |
| GridSearch.RunCollector | lib/svm_toolkit/grid_search.rb:67-79 | Over any sequence of arrivals, `collecting` holds exactly while fewer than count have arrived. It signals once, on the count-th arrival, with the best of those arrivals and their records, never before or after, and never at all for count 0 |
| GridSearch.JobSettings | lib/svm_toolkit/grid_search.rb:23-28 | One RBF C-SVC setting per (gamma, cost) pair, in order |
| GridSearch.DispatchRow | lib/svm_toolkit/grid_search.rb:22-29 | One job per cost at a gamma, in cost order |
| GridSearch.Dispatch | lib/svm_toolkit/grid_search.rb:20-30 | Exactly one train job per (gamma, cost), gammas outermost and costs innermost |
| GridSearch.Deliveries | lib/svm_toolkit/grid_search.rb:47-54 | The k-th delivered result is the training and evaluation of the k-th finishing job |
| GridSearch.PermutationIndices | lib/svm_toolkit/grid_search.rb:18-30 | When every job reports once, every job is delivered |
| GridSearch.Search | lib/svm_toolkit/grid_search.rb:11-34 | With a collector expecting \|gammas\|·\|costs\| results, the search finishes exactly when the grid is not empty, with the running best over the arrivals and every record |
| GridSearch.Work | lib/svm_toolkit/grid_search.rb:47-54 | Each finished job is evaluated on the cross-validation set and collected, and the collector answers on the last one |
| GridSearch.Delivered | lib/svm_toolkit/grid_search.rb:20-30 | Every grid pair's trial is delivered by some worker |
| GridSearch.SearchOutcomeAnyOrder | lib/svm_toolkit/grid_search.rb:70-79 | Whatever the finishing order, no trial of the grid is better than the reported lowest error, and every grid pair has its record; when svm_train keeps its settings, that record carries the pair's own cost and gamma and its trial's result |
| DoeSearch.PatternPoints | lib/svm_toolkit/doe_search.rb:86-99 | The pattern is the nine (cost, gamma) grid points in cost-major order, then the four half-step points |
| DoeSearch.PatternShape | lib/svm_toolkit/doe_search.rb:69-100 | Thirteen points, the centre at index 4, every point within the bounds |
| DoeSearch.PatternDistinct | lib/svm_toolkit/doe_search.rb:69-100 | With the centre strictly inside the bounds, the thirteen points are pairwise different |
| DoeSearch.ForCenterShape | lib/svm_toolkit/doe_search.rb:60-67 | The pattern around a centre uses bounds centre ± resolution and the centre explicitly. It equals the default-centre pattern of those bounds, has the given pair at index 4, and ends with the four quarter-resolution points |
| DoeSearch.ForCenterDistinct | lib/svm_toolkit/doe_search.rb:60-67 | With a positive resolution the points around a centre are pairwise different |
| DoeSearch.InitialResolution | lib/svm_toolkit/doe_search.rb:32 | Each entry is non-negative, and zero exactly when both of its bounds are zero |
| DoeSearch.DefaultResolution | lib/svm_toolkit/doe_search.rb:17-32 | With the default bounds the search starts at resolution (10, 12) |
| DoeSearch.ShrinkResolution | lib/svm_toolkit/doe_search.rb:54 | Every entry of the array is divided in place by the square root of two |
| DoeSearch.ShrinkDecreases | lib/svm_toolkit/doe_search.rb:54 | A positive resolution stays positive and strictly decreases |
| DoeSearch.ShrunkIsDivision | lib/svm_toolkit/doe_search.rb:35-56 | n iterations divide the resolution by the n-th power of the square root of two |
| DoeSearch.RootTwoPowerGrows | lib/svm_toolkit/doe_search.rb:54 | The powers grow at least linearly (Bernoulli's inequality) |
| DoeSearch.ResolutionVanishes | lib/svm_toolkit/doe_search.rb:35-56 | The resolution falls below any positive bound after enough iterations |
| DoeSearch.SliceShape | lib/svm_toolkit/doe_search.rb:24 | each_slice's slices join back to the input; every slice but the last is full; the last is non-empty and at most full |
| DoeSearch.SplitErrors | lib/svm_toolkit/doe_search.rb:24 | The split raises ZeroDivisionError exactly for 0 folds, and ArgumentError "invalid slice size" exactly for a negative fold count or more folds than vectors |
| DoeSearch.FoldShape | lib/svm_toolkit/doe_search.rb:24 | Every kept fold has n / k vectors, the folds are a prefix of the vectors, and the dropped tail is non-empty and at most one fold long |
| DoeSearch.ExactSplitDropsAFold | lib/svm_toolkit/doe_search.rb:24 | When k divides the number of vectors, discarding the last slice leaves k − 1 folds |
| DoeSearch.OtherFoldsSplice | lib/svm_toolkit/doe_search.rb:46 | The evaluation folds are all folds except the training one, in order |
| DoeSearch.MeanBetween | lib/svm_toolkit/doe_search.rb:118-120 | The mean of the scores fails exactly for no scores, and otherwise lies between their bounds |
| DoeSearch.FoldResultSpec | lib/svm_toolkit/doe_search.rb:117-120 | A model trained on one fold and scored on the others fails exactly when there is only one fold, and otherwise scores within its scores' bounds |
| DoeSearch.Keys | lib/svm_toolkit/doe_search.rb:39 | The keys of the results hash, in insertion order |
| DoeSearch.UntestedMembers | lib/svm_toolkit/doe_search.rb:38-39 | A pair is trained in a round exactly when it is in the pattern and has no result yet |
| DoeSearch.DispatchFolds | lib/svm_toolkit/doe_search.rb:40-47 | One train job per fold of a pair, in fold order |
| DoeSearch.DispatchRound | lib/svm_toolkit/doe_search.rb:38-48 | The round's jobs are every untested pattern pair with every fold, pair by pair |
| DoeSearch.RoundJobs | lib/svm_toolkit/doe_search.rb:38-48 | A round dispatches \|untested\| × folds jobs, and a job is dispatched exactly for an untested pair and an existing fold |
| DoeSearch.Values | lib/svm_toolkit/doe_search.rb:53 | The values of the results hash, in insertion order |
| DoeSearch.MaxValue | lib/svm_toolkit/doe_search.rb:53 | Array#max is one of the values and no value is larger |
| DoeSearch.InvertLookupSpec | lib/svm_toolkit/doe_search.rb:53 | Looking up a value in the inverted hash finds a key exactly when the value occurs, and the key found is the last one holding it |
| DoeSearch.BestPairSpec | lib/svm_toolkit/doe_search.rb:53 | The best pair exists exactly when there are results. It holds a maximal value, and every later pair's value is strictly smaller |
| DoeCollection.FirstSeenSpec | lib/svm_toolkit/doe_search.rb:134-142 | The auto-expanding hash has a key exactly for each key that received a result, each once |
| DoeCollection.LogSnoc | lib/svm_toolkit/doe_search.rb:142 | One more result extends only its own key's list, creating the key at the end when new |
| DoeCollection.FileStep | lib/svm_toolkit/doe_search.rb:142 | Appending a result to its key's list keeps the hash filing exactly the results received |
| DoeCollection.HashMeans | lib/svm_toolkit/doe_search.rb:144-145 | The means taken over the hash are the means of the results received, key by key |
| DoeCollection.MeansOfSpec | lib/svm_toolkit/doe_search.rb:144-146 | The emitted means have one entry per distinct key received, and each mean lies within its results' bounds |
| DoeCollection.RoundMeansKeys | lib/svm_toolkit/doe_search.rb:38-50 | Whatever order a round's jobs arrive in, and when svm_train keeps its settings, the means emitted have a key exactly for each pattern pair without a result yet, since each result is filed under its model's own cost and gamma |
| DoeCollection.ResultsBetween | lib/svm_toolkit/doe_search.rb:142 | The results filed under a key are among the results received |
| DoeCollection.DoeCollector.constructor | lib/svm_toolkit/doe_search.rb:132-136 | No jobs announced, no results received, an empty hash |
| DoeCollection.DoeCollector.OneMore | lib/svm_toolkit/doe_search.rb:137-139 | One more job to wait for, and no result changes |
| DoeCollection.DoeCollector.OneMoreAsWritten | lib/svm_toolkit/doe_search.rb:137-139 | As written, `count += 1` reads an unassigned local `count`, so the call raises NoMethodError for `+` on nil |
| DoeCollection.DoeCollector.Collect | lib/svm_toolkit/doe_search.rb:140-148 | Files the result under its (cost, gamma), counts it, and emits the per-key means of everything received exactly when the received count equals a positive announced count |
| DoeCollection.RunEvents | lib/svm_toolkit/doe_search.rb:137-147 | Over any sequence of one_more and collect calls, the collector emits exactly at the collect calls after which deliveries equal a positive number of announcements |
| DoeCollection.Announcements | lib/svm_toolkit/doe_search.rb:114 | n announcements are n one_more calls |
| DoeCollection.OrderlyRound | lib/svm_toolkit/doe_search.rb:137-147 | When all n jobs are announced before any result arrives, the collector emits once, on the last result |
| DoeCollection.InterleavedRoundFiresEarly | lib/svm_toolkit/doe_search.rb:113-143 | When announcements and results alternate, the collector emits after the first result already, before the round is over |
| DoeCollection.OneMoreFinding | lib/svm_toolkit/doe_search.rb:137-148 | With one job, the code as written raises in one_more and never emits. The intended collector emits the one result as its own mean |
| DoeCollection.SingleResult | lib/svm_toolkit/doe_search.rb:144-146 | A single result is emitted as its own key's mean |

## Left out

- Concurrency. The Celluloid actor registry, worker pools, `train!`, `wait` and `signal` are left out. The collectors are sequential classes fed an explicit sequence of calls, and the finishing order of the workers is a parameter (`order`, or an event sequence).
- libsvm. `svm_train`, `svm_predict`, `svm_predict_values` and `svm_predict_probability` are foreign calls, so they are function parameters. The Java model's own fields are reduced to those the toolkit reads.
- Evaluators. The `Evaluator::*` classes are not part of this model. An evaluator is a record of functions, with `OverallAccuracy` as no particular one. The DOE scores are `real`s, because the fold mean and `max` need arithmetic on them.
- `evaluate_dataset`'s `print_results` option and every `puts` are output only.
- `train_whole` is read by both searches and never used, so the model has no such parameter.
- The file readers (`from_file`, `from_file_svmlight`, `from_file_csv`, `from_file_arff`) are left out. They do file I/O and string parsing, and so is the densification that follows each of them.
- Model persistence (`save`, `serialize`, `load`, `load_from_string`) is stream I/O.
- Floating point. Every value is an exact `real`. `Math.sqrt(2)` is the constant `RootTwo`, and the rescaling divides exactly.
- `Search#search`, the DOE driver as a whole, cannot run as written:
  - `params` is undefined;
  - `search *args` splats a hash;
  - `SvmCollector.new` lacks its argument;
  - `results.merge` does not update `results`;
  - `model` is undefined at the return;
  - `build_doe_matrix`, which gives the first round's pairs, is defined nowhere;
  - the stray `}` at the end of the `train!` call (line 46) is a syntax error, and so, probably, is `<< result: result` in the collector (line 142), so the file does not load at all.

  Every DOE member, the collector as written included, therefore models one method read on its own. The steps are modelled one by one: split, skip, dispatch, fold score, resolution, best pair and collector. The loop that chains them across iterations is not, and neither is the conversion of each fold into a `Problem` through `from_array`.
- Problems.Problem.RescaleColumn: requires the column's minimum and maximum to differ. The source divides by zero there, which gives NaN in floating point, and NaN has no counterpart among reals.
- Problems.Problem.Rescale: requires every column of a non-empty problem to be non-constant, for the same reason.
- Problems.Problem.ScaleColumn: requires the nodes of the problem to be pairwise distinct. In a problem merged with itself, a node is shared, so the in-place update would rescale it twice. That aliasing is shown by SelfMergeShares, not modelled through rescale.
- DoeCollection.DoeCollector.Collect: files the bare result under its key, where the source appends the hash `{result: result}`. The source then could not sum the list; the intended mean needs the numbers.
- DoeCollection.DoeCollector.Collect: the emitted means go back to the caller, where the source sends them to the search actor.
- GridSearch.Search: the order in which workers finish is a parameter that lists every job once. The model does not say which orders the actor system can produce.
- KeepsSettings: that svm_train stores the parameter it was given in the model it returns is libsvm's behaviour, not the toolkit's, so the lemmas that need it (SearchModelReadsBack, TrainedSettings, SearchOutcomeAnyOrder, RoundMeansKeys) take it as a hypothesis.
- Problems.Problem.Merge: an empty operand is reported as IndexError(0). The source only reads `x[0]`; which exception JRuby raises there (an index error on the empty Java array, or NoMethodError when `x` is nil) is not fixed by the code.
- CrossValidation.Setup: evaluation of a model is a function of the model that Evaluates ties to evaluate_dataset on the cross-validation set, so every evaluation in a search uses the same set and evaluator.

## Findings

| source | as written | input that shows it | evidently intended | confidence | as-written member | corrected member |
|---|---|---|---|---|---|---|
| lib/svm_toolkit/parameter.rb:92-94 | `raise ArgumentError "..."` calls a method named `ArgumentError`, so an invalid nu raises NoMethodError | `Parameter.new(nu: 0.0)` | raise ArgumentError with the message | not executed | Parameters.ConfigureAsWritten, Parameters.NuCheckRaisesWrongError | Parameters.Configure |
| lib/svm_toolkit/doe_search.rb:137-139 | `count += 1` assigns a new local variable `count` (nil before the addition), so `one_more` raises NoMethodError and the field never grows; `collect` then never emits | one `one_more` followed by one `collect` | add one to the collector's `count` | not executed | DoeCollection.DoeCollector.OneMoreAsWritten, DoeCollection.OneMoreFinding | DoeCollection.DoeCollector.OneMore |
