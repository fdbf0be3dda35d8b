# MET predictor: offline pipeline, modelled in Dafny

This project models the offline Python pipeline of the MET predictor. The pipeline has four parts:

- **Labelling** (`WisdmProcessor`): it labels WISDM accelerometer rows with a MET intensity class.
- **Windowing and training data** (`Windowing`, `TrainModel`): it cuts labelled rows into half-overlapping sliding windows and turns each window into a 16-slot feature vector with its label.
- **Feature vector** (`FeatureExtractor`): it computes the 16 statistics of one window.
- **Comprehensive report** (`ComprehensiveReport`): it builds a 10-column feature table for three window sizes, counts phone-shake triggers, and picks the best (window size, model) combination.

Two further modules support these:

- `Stats` holds the numpy and pandas statistics the pipeline uses: mean, min/max, the two standard-deviation conventions, RMS, and `np.percentile` with its default linear interpolation.
- `PyStr` holds the three Python string methods of the fallback line parser.

`Wrappers` holds `Option` and `Result`.

## Modelling choices

- Numbers are `real`. Floating point, NaN propagation and `sqrt` are not modelled.
- Every square root is the parameter `root: real -> real`. The facts that need a non-negative root require `Stats.RootNonNegative(root)`.
- A MET value is a real or `NaN`. `NaN` is what `Series.map` gives for an activity missing from the table. Every `<` against NaN is false, so NaN reaches the final `else` of the ladder.
- Standing (1.2 MET) is labelled class 0, Sedentary, by the ladder. The comment beside its table entry says class 1, Light. The model follows the code: `WisdmProcessor.ActivityClasses` proves Standing is class 0.
- `np.percentile` is the default 'linear' method. The 25th and 75th percentiles are written as the fractions 1/4 and 3/4.
- The window size must be at least 2. Sizes 0 and 1 make the step `window_size // 2` zero, and Python's `range` then raises. A negative size gives a negative step, so `range` is empty and no windows come out. The model takes `w: nat` with `w >= 2`; every caller passes 25, 50 or 100.
- `df.groupby(['user', 'activity'])` is an input: the sequence of groups in the order pandas yields them.
- The three normal draws of each synthetic row come from a parameter `noise: nat -> Reading`.
- `extract_features` returns a `Failure` where numpy raises: on axes of unequal length (`x**2 + y**2 + z**2` cannot broadcast) and on an empty window (`np.min` of an empty array raises ValueError).
- The `results` dictionary of the report holds only the two entries the selection reads: accuracy and inference time.

## Model

| member | source | states |
|---|---|---|
| WisdmProcessor.MetOf | src/data_processing/wisdm_processor.py:98 | an activity gets NaN exactly when it is missing from the activity table |
| WisdmProcessor.GetMetClass | src/data_processing/wisdm_processor.py:165-174 | the ladder always returns a class in 0..3 |
| WisdmProcessor.MetClassBands | src/data_processing/wisdm_processor.py:167-174 | each class holds exactly its half-open band: below 1.5, [1.5, 3.0), [3.0, 6.0), and 6.0 or more |
| WisdmProcessor.MetClassMonotone | src/data_processing/wisdm_processor.py:165-174 | a larger MET value never gets a smaller class |
| WisdmProcessor.MissingActivityIsVigorous | src/data_processing/wisdm_processor.py:98-99 | an activity missing from the table fails all three tests and is labelled 3 |
| WisdmProcessor.ActivityClasses | src/data_processing/wisdm_processor.py:24-33 | the class of each of the eight table activities; Standing is 0, not the 1 its comment gives |
| WisdmProcessor.ActivityClass | src/data_processing/wisdm_processor.py:98-99 | the class of an activity's rows lies in 0..3 |
| WisdmProcessor.Labelled | src/data_processing/wisdm_processor.py:148-154 | a row keeps its user, activity, timestamp and readings, and its class comes from its activity |
| WisdmProcessor.Fields | src/data_processing/wisdm_processor.py:84 | `line.strip().rstrip(';').split(',')` yields at least one field, no field holds a comma, and the fields joined by commas give back the stripped line |
| PyStr.StripLeft | src/data_processing/wisdm_processor.py:84 | the result is a suffix of the input; every character dropped is in the drop set; its first character is not |
| PyStr.StripRight | src/data_processing/wisdm_processor.py:84 | the result is a prefix of the input; every character dropped is in the drop set; its last character is not |
| PyStr.Strip | src/data_processing/wisdm_processor.py:84 | a non-empty result neither starts nor ends with whitespace |
| PyStr.StripIsInfix | src/data_processing/wisdm_processor.py:84 | stripping both ends leaves a contiguous slice, with only dropped characters before and after it |
| PyStr.StripRemovesWhitespace | src/data_processing/wisdm_processor.py:84 | `strip()` leaves a slice of the line with only whitespace around it |
| PyStr.StripTrailing | src/data_processing/wisdm_processor.py:84 | `rstrip(';')` removes exactly the trailing run of ';' |
| PyStr.Split | src/data_processing/wisdm_processor.py:84 | `split(',')` always yields at least one field |
| PyStr.SplitCount | src/data_processing/wisdm_processor.py:84 | there is one more field than there are separators |
| PyStr.SplitFieldsAreSeparatorFree | src/data_processing/wisdm_processor.py:84 | no field contains the separator |
| PyStr.SplitJoinsBack | src/data_processing/wisdm_processor.py:84 | joining the fields with the separator gives the string back |
| PyStr.SplitJoin | src/data_processing/wisdm_processor.py:84 | splitting a join of separator-free fields gives the fields back |
| PyStr.SplitWithoutSeparator | src/data_processing/wisdm_processor.py:84 | a string without the separator splits into itself alone |
| PyStr.SplitAround | src/data_processing/wisdm_processor.py:84 | splitting `a + sep + b`, with no separator in `a`, gives `a` followed by the fields of `b` |
| WisdmProcessor.ParseLine | src/data_processing/wisdm_processor.py:84-86 | a line yields a record exactly when it has at least six fields, and the record is its first six fields |
| WisdmProcessor.ParsedRecords | src/data_processing/wisdm_processor.py:82-86 | one record per line that yields one, each of exactly six fields |
| WisdmProcessor.ParseFallback | src/data_processing/wisdm_processor.py:82-86 | the loop collects the records of the lines in order, and every record has six fields |
| WisdmProcessor.ParsedRecordsStep | src/data_processing/wisdm_processor.py:83-86 | one more line appends its record if it yields one, and nothing otherwise |
| WisdmProcessor.ParsedRecordsOrigin | src/data_processing/wisdm_processor.py:82-88 | records correspond one-to-one, in increasing line order, to the lines with at least six fields; each is that line's first six fields |
| WisdmProcessor.CollectAtIndices | src/data_processing/wisdm_processor.py:82-86 | each collected element is the value of the parser on the line at its collected index |
| WisdmProcessor.CollectedIndicesIncreasing | src/data_processing/wisdm_processor.py:82-86 | the collected line indices are strictly increasing and within the input |
| WisdmProcessor.CollectedIndicesExactly | src/data_processing/wisdm_processor.py:82-86 | a line index is collected exactly when the parser yields a record there |
| WisdmProcessor.SyntheticIndex | src/data_processing/wisdm_processor.py:119-121 | the row of (activity a, user u, session s) sits at a*1000 + (u-1)*100 + s, and that index gives back a, u and s |
| WisdmProcessor.SyntheticRowAt | src/data_processing/wisdm_processor.py:119-148 | the row at index k has a user in 1..10, a timestamp in 0..99, an activity of the seven-name list that the table knows, its class from that activity, and the k-th random reading |
| WisdmProcessor.CreateSyntheticData | src/data_processing/wisdm_processor.py:116-150 | the triple loop emits exactly 7000 rows, and row k is the row of activity k div 1000, user (k div 100) mod 10 + 1, session k mod 100 |
| WisdmProcessor.SyntheticShape | src/data_processing/wisdm_processor.py:116-150 | every row has a user in 1..10 and a timestamp in 0..99; its activity is one of the seven names, never Running, and its label comes from the table |
| WisdmProcessor.SyntheticClasses | src/data_processing/wisdm_processor.py:153-154 | synthetic rows carry classes 0..3 only, and each of the four classes occurs |
| Windowing.Step | scripts/train_model.py:29 | the step `window_size // 2` is positive and at most half the window |
| Windowing.WindowsFromStep | scripts/comprehensive_report.py:38-39 | after the window at one start, the windows of the later starts remain |
| Windowing.Windows | scripts/train_model.py:29-30 | the windows `iloc[i:i+window_size]` at the starts of `range(0, len - window_size + 1, window_size // 2)`, each of exactly window_size rows |
| Windowing.StartsFromArithmetic | scripts/train_model.py:29 | the starts from i are i, i+k, i+2k, …; each leaves room for a whole window; their number is (n-w-i) div k + 1 when the first fits |
| Windowing.WindowStartsArithmetic | scripts/train_model.py:29 | window starts are 0, k, 2k, … with k = w div 2, each at most n - w; there are (n-w) div k + 1 of them, or none when n < w |
| Windowing.WindowsFromAreSlices | scripts/train_model.py:29-30 | the windows from a start are exactly the slices of length w at the starts, and all of them lie in bounds |
| Windowing.WindowsAreSlices | scripts/train_model.py:29-32 | window j is the slice [j*k, j*k + w) and has exactly w rows, so the length check on line 32 never fails |
| Windowing.ShortGroupHasNoWindows | scripts/train_model.py:29 | a group shorter than the window contributes no window |
| Windowing.WindowsFromHaveSize | scripts/train_model.py:29-32 | every window has exactly w rows |
| Windowing.WindowCount | scripts/train_model.py:29 | a group has (len - w) div k + 1 windows when len ≥ w, and none otherwise |
| Windowing.WindowsStayInGroup | scripts/comprehensive_report.py:38-39 | every row of every window is a row of the group |
| TrainModel.FirstIndex | scripts/train_model.py:22 | the position of the first occurrence of a value |
| TrainModel.Unique | scripts/train_model.py:22-25 | `unique()` keeps every value of the column, and each only once |
| TrainModel.UniqueFirstAppearance | scripts/train_model.py:22-25 | `unique()` lists the values in the order of their first appearance |
| TrainModel.UsersOf | scripts/train_model.py:22 | the `user` column has one entry per row, row by row |
| TrainModel.ActivitiesOf | scripts/train_model.py:25 | the `activity` column has one entry per row, row by row |
| TrainModel.Where | scripts/train_model.py:23-26 | the masks `df[df['user'] == user]` and `user_data[user_data['activity'] == activity]` give at most as many rows as the frame, each a frame row whose column holds the value |
| TrainModel.WhereSpec | scripts/train_model.py:23-26 | a mask keeps exactly the rows whose column holds the value, in frame order and with their multiplicity: row k is the frame row at the k-th of the increasing positions that match |
| TrainModel.TrainingWindows | scripts/train_model.py:22-32 | the windows the three loops cut, user by user, activity by activity, start by start; each has exactly window_size rows |
| TrainModel.Axes | scripts/train_model.py:33-37 | the three axis lists have one entry per row of the window, entry k being row k's `x`, `y` and `z` |
| TrainModel.Labels | scripts/train_model.py:41 | there is one label per window |
| TrainModel.VectorsBy | scripts/train_model.py:39-40 | there is one feature vector per window |
| TrainModel.WindowVectorExtracts | scripts/train_model.py:39 | the vector of each non-empty window is the extractor's vector of its axes |
| TrainModel.LabelsAndVectorsInLockstep | scripts/train_model.py:39-41 | entry k of both lists belongs to window k: its feature vector, and the `met_class` of its first row |
| TrainModel.ExtractWindow | scripts/train_model.py:33-39 | the extractor always succeeds on a window's axes and returns that window's vector |
| TrainModel.AppendGroupWindows | scripts/train_model.py:29-41 | the window loop over one group appends the vectors and labels of all its windows, each of exactly w rows |
| TrainModel.AppendUserWindows | scripts/train_model.py:25-41 | the activity loop of one user appends the vectors and labels of that user's windows, activity by activity |
| TrainModel.CollectFeatures | scripts/train_model.py:19-43 | the nested loops return the vectors and labels of every window, user by user, then activity by activity |
| TrainModel.CreateFeaturesFromDataframe | scripts/train_model.py:17-43 | the function returns the extractor's vectors and the first-row labels of all training windows, in loop order; the window size defaults to 50 |
| TrainModel.WindowsOfGroup | scripts/train_model.py:26-30 | every window of a single-(user, activity) group has w frame rows of that user and activity |
| TrainModel.ActivityWindowsAreGroupWindows | scripts/train_model.py:25-30 | every window of one user has w frame rows of one user and one activity |
| TrainModel.UserWindowsAreGroupWindows | scripts/train_model.py:22-30 | the same holds across users |
| TrainModel.TrainingWindowsAreGroupWindows | scripts/train_model.py:22-32 | every training window is w rows of the frame sharing the user and activity of its first row |
| TrainModel.FeaturesAndLabelsInLockstep | scripts/train_model.py:39-43 | features and labels have equal length; entry k of each belongs to training window k, the label being its first row's class |
| Stats.Magnitude | scripts/comprehensive_report.py:31-33 | with a non-negative root, the magnitude is non-negative |
| Stats.Mean | src/feature_extraction/feature_extractor.py:33-35 | `np.mean`: n copies of the mean add up to the sum |
| Stats.Min | src/feature_extraction/feature_extractor.py:43 | `np.min` is an element of the array and no element is smaller |
| Stats.Max | src/feature_extraction/feature_extractor.py:43 | `np.max` is an element of the array and no element is larger |
| Stats.MeanBetween | src/feature_extraction/feature_extractor.py:33-35 | a mean lies within any bounds that hold for all elements |
| Stats.MeanWithinRange | src/feature_extraction/feature_extractor.py:33-35 | a mean lies within [min, max] |
| Stats.MeanNonNegative | src/feature_extraction/feature_extractor.py:47-49 | the mean of non-negative values is non-negative |
| Stats.MeanOfConstant | src/feature_extraction/feature_extractor.py:53 | the mean of a constant array is that constant |
| Stats.PopulationVariance | src/feature_extraction/feature_extractor.py:38-40 | the variance under `np.std` (ddof = 0) is never negative |
| Stats.SampleVariance | scripts/comprehensive_report.py:46 | the variance under pandas `std()` (ddof = 1) is never negative |
| Stats.MeanSquare | src/feature_extraction/feature_extractor.py:47-49 | the mean of squares under each RMS is never negative |
| Stats.Sort | src/feature_extraction/feature_extractor.py:58-61 | sorting before the percentile keeps the length |
| Stats.SortSpec | src/feature_extraction/feature_extractor.py:58-61 | the sort is ascending and a permutation of its input |
| Stats.SortEnds | src/feature_extraction/feature_extractor.py:58-61 | the sorted array starts with the minimum and ends with the maximum |
| Stats.VirtualIndex | src/feature_extraction/feature_extractor.py:58-61 | the virtual index q·(n−1), scaled, never passes the last element |
| Stats.Fraction | src/feature_extraction/feature_extractor.py:58-61 | the interpolation weight lies in [0, 1) |
| Stats.InterpolateBetween | src/feature_extraction/feature_extractor.py:58-61 | an interpolated value lies between the element at the floor of the index and the next one, or equals the last element |
| Stats.InterpolateMonotone | src/feature_extraction/feature_extractor.py:58-61 | on a sorted array, interpolation is monotone in the virtual index |
| Stats.InterpolateEnds | src/feature_extraction/feature_extractor.py:58-61 | the 0th and 100th percentile positions give the first and last element |
| Stats.InterpolateWithinEnds | src/feature_extraction/feature_extractor.py:58-61 | every interpolated value lies between the first and last element |
| Stats.Percentile | src/feature_extraction/feature_extractor.py:58-61 | `np.percentile` with linear interpolation lies within [min, max] |
| Stats.QuartilesOrdered | src/feature_extraction/feature_extractor.py:43-61 | min ≤ p25 ≤ p75 ≤ max |
| FeatureExtractor.Magnitudes | src/feature_extraction/feature_extractor.py:28 | element i of the magnitude array is the root of x²+y²+z² at i |
| FeatureExtractor.MagnitudesNonNegative | src/feature_extraction/feature_extractor.py:28 | with a non-negative root, every magnitude is non-negative |
| FeatureExtractor.Sign | src/feature_extraction/feature_extractor.py:54 | `np.sign` is 1, 0 or −1 according to the sign of its argument |
| FeatureExtractor.Signs | src/feature_extraction/feature_extractor.py:54 | there is one sign per sample |
| FeatureExtractor.SignChanges | src/feature_extraction/feature_extractor.py:54 | the count of differing adjacent pairs is at most n−1, and 0 for n ≤ 1 |
| FeatureExtractor.NoSignChanges | src/feature_extraction/feature_extractor.py:54 | the count is 0 exactly when all adjacent signs are equal |
| FeatureExtractor.ZeroCrossings | src/feature_extraction/feature_extractor.py:53-55 | the x-axis zero-crossing count lies in [0, n−1] and is 0 for a constant axis |
| FeatureExtractor.FeatureNames | src/feature_extraction/feature_extractor.py:65-74 | there are 16 names, and name i is the name of the statistic in slot i of the layout |
| FeatureExtractor.FeatureNamesDistinct | src/feature_extraction/feature_extractor.py:67-74 | no two feature names are equal |
| FeatureExtractor.Summarize | src/feature_extraction/feature_extractor.py:28-61 | the sixteen statistics of a window: min_magnitude ≤ magnitude_p25 ≤ magnitude_p75 ≤ max_magnitude, and the zero-crossing count lies in [0, n−1], 0 for a constant x axis |
| FeatureExtractor.VectorFollowsNames | src/feature_extraction/feature_extractor.py:30-74 | the vector has as many slots as there are names, and slot i holds the statistic named at position i |
| FeatureExtractor.FeatureVector | src/feature_extraction/feature_extractor.py:30-74 | the returned list has one slot per name of `get_feature_names`, slot i holding the statistic named at i |
| FeatureExtractor.METFeatureExtractor.constructor | src/feature_extraction/feature_extractor.py:9-11 | the object stores the window size and the sampling rate, defaulting to 50 and 20 |
| FeatureExtractor.METFeatureExtractor.ExtractFeatures | src/feature_extraction/feature_extractor.py:13-63 | the extends and the append build the layout's 16-slot vector of the window; the stored configuration plays no part; malformed axes give a Failure |
| FeatureExtractor.MeansWithinRange | src/feature_extraction/feature_extractor.py:33-35 | each of the four means lies within its array's [min, max] |
| FeatureExtractor.DeviationSlotsNonNegative | src/feature_extraction/feature_extractor.py:38-40 | with a non-negative root, the four standard deviations are non-negative |
| FeatureExtractor.RmsSlotsNonNegative | src/feature_extraction/feature_extractor.py:42-50 | with a non-negative root, min_magnitude and the three RMS values are non-negative |
| ComprehensiveReport.MagnitudeColumn | scripts/comprehensive_report.py:76 | the `magnitude` column has one value per row, value k being the root of x²+y²+z² of row k |
| ComprehensiveReport.SeriesStd | scripts/comprehensive_report.py:46 | pandas `std()` is never negative under a non-negative root |
| ComprehensiveReport.WindowRow | scripts/comprehensive_report.py:41-55 | the dict of a window copies `user`, `activity` and `met_class` from its first row; `mag_range` is `mag_max` less the window's least magnitude, so ≥ 0, `mag_mean` ≤ `mag_max`, and `mag_max` is the largest magnitude of the window |
| ComprehensiveReport.RowsBy | scripts/comprehensive_report.py:37-56 | there is one feature row per window |
| ComprehensiveReport.WindowRows | scripts/comprehensive_report.py:37-56 | there is one feature row per window of the group |
| ComprehensiveReport.WindowsAreLongEnough | scripts/comprehensive_report.py:38-39 | every window has at least two rows, so each pandas `std()` is defined |
| ComprehensiveReport.ExtractFeaturesForWindow | scripts/comprehensive_report.py:35-58 | the loop returns the feature row of every window of the group, in start order; the window size defaults to 50 |
| ComprehensiveReport.ExtractRow | scripts/comprehensive_report.py:41-55 | the dict built for a window is its feature row: `user`, `activity` and `met_class` of its first row, `mag_range` is `mag_max` less the window's least magnitude, so ≥ 0, `mag_mean` ≤ `mag_max`, and `mag_max` the largest magnitude of the window |
| ComprehensiveReport.FeatureRowsCopyFirstRow | scripts/comprehensive_report.py:42-44 | row k copies `user`, `activity` and `met_class` from the first row of window k |
| ComprehensiveReport.RowsByInOrder | scripts/comprehensive_report.py:37-56 | entry k of the rows is the row of window k |
| ComprehensiveReport.DatasetRowsStep | scripts/comprehensive_report.py:91-94 | one more group appends its rows when it has at least w rows, and nothing otherwise |
| ComprehensiveReport.DatasetRows | scripts/comprehensive_report.py:89-94 | the data set of one window size has one row per window of all groups |
| ComprehensiveReport.BuildFeatureDataset | scripts/comprehensive_report.py:90-94 | the group loop returns the rows of the groups with at least w rows, group by group |
| ComprehensiveReport.LengthGuardIsRedundant | scripts/comprehensive_report.py:91-94 | dropping the `len(group) >= window_size` guard gives the same rows, since a short group has no windows |
| ComprehensiveReport.ModelInputs | scripts/comprehensive_report.py:120 | `feature_df[feature_cols]` yields the 10 statistics in `feature_cols` order |
| ComprehensiveReport.FeatureColsAreStatisticKeys | scripts/comprehensive_report.py:101-102 | `feature_cols` is the 10 statistic keys of a feature row, in the row's key order |
| ComprehensiveReport.BuildFeatureDatasets | scripts/comprehensive_report.py:85-97 | the datasets map has exactly the keys 25, 50 and 100, each mapped to its dataset |
| ComprehensiveReport.CountAbove | scripts/comprehensive_report.py:376-381 | a trigger count is at most the number of values |
| ComprehensiveReport.CountAboveZero | scripts/comprehensive_report.py:376-381 | the count is 0 exactly when no value exceeds the threshold |
| ComprehensiveReport.CountAboveAll | scripts/comprehensive_report.py:376-381 | the count equals the number of values exactly when all of them exceed the threshold |
| ComprehensiveReport.MagMeanColumn | scripts/comprehensive_report.py:378 | the `mag_mean` column, window by window |
| ComprehensiveReport.InstantTriggers | scripts/comprehensive_report.py:375-380 | instant triggers number at most the samples, and are 0 exactly when no magnitude exceeds 1.05 |
| ComprehensiveReport.SustainedTriggers | scripts/comprehensive_report.py:377-381 | sustained triggers number at most the windows, and are 0 exactly when no `mag_mean` exceeds 1.05 |
| ComprehensiveReport.SustainedNeedsInstant | scripts/comprehensive_report.py:376-378 | a window whose mean magnitude exceeds 1.05 has a sample above 1.05 |
| ComprehensiveReport.ReductionShown | scripts/comprehensive_report.py:393-394 | the figure shows a factor exactly when sustained > 0, and the factor times sustained is instant |
| ComprehensiveReport.ReductionInSummary | scripts/comprehensive_report.py:458 | the summary's factor lies in [0, instant] and equals instant when there is no sustained trigger |
| ComprehensiveReport.ReductionsAgree | scripts/comprehensive_report.py:393-394 | when the figure shows a factor, it equals the summary's |
| ComprehensiveReport.MakeCombo | scripts/comprehensive_report.py:166-173 | an entry copies the pair, its accuracy and its inference time, and its stability is window size / 25 |
| ComprehensiveReport.Combinations | scripts/comprehensive_report.py:163-173 | the 15 entries, each a (window size, model) pair of the results with that pair's accuracy |
| ComprehensiveReport.BuildCombinations | scripts/comprehensive_report.py:163-173 | the nested loops list the 15 pairs, window size major and then model in dictionary order |
| ComprehensiveReport.InsertDescending | scripts/comprehensive_report.py:175-177 | inserting into the descending list adds one entry |
| ComprehensiveReport.SortDescending | scripts/comprehensive_report.py:175-177 | the sort keeps the length |
| ComprehensiveReport.InsertDescendingPermutes | scripts/comprehensive_report.py:175-177 | insertion adds exactly the new entry to the multiset |
| ComprehensiveReport.InsertDescendingUpperBound | scripts/comprehensive_report.py:175-177 | insertion keeps every entry at or below a common upper key |
| ComprehensiveReport.InsertDescendingSorted | scripts/comprehensive_report.py:175-177 | insertion keeps the list descending by (accuracy, stability_score) |
| ComprehensiveReport.SortDescendingSpec | scripts/comprehensive_report.py:175-177 | the sorted list is descending by (accuracy, stability_score) and a permutation of its input |
| ComprehensiveReport.FirstMaxIndex | scripts/comprehensive_report.py:175-179 | the first entry whose key no other entry exceeds; every earlier entry has a strictly smaller key |
| ComprehensiveReport.SortDescendingHead | scripts/comprehensive_report.py:175-179 | the stable sort puts at the head the first entry with the greatest key |
| ComprehensiveReport.SelectBestCombination | scripts/comprehensive_report.py:163-182 | the chosen entry is the first of the 15 with the greatest (accuracy, stability_score), and `best_result` is its result |
| ComprehensiveReport.BestIsMostAccurate | scripts/comprehensive_report.py:163-179 | no pair is more accurate than the chosen one; at equal accuracy no pair has a larger window |

## Left out

- File and network I/O are not modelled: the download, the `os.walk` search, the CSV reads and writes, the `makedirs` calls and `print`. The lines of the fallback file are an input.
- `pd.to_numeric(errors='coerce')` and `dropna` are not modelled. They need float parsing and NaN, and the model starts from rows that are already clean.
- The column names given to `pd.DataFrame` at lines 88 and 150 of the processor are not modelled. Records and rows are positional.
- All scikit-learn work is left out, being a library the model cannot see: training, prediction, scaling, cross-validation and `met_predictor.py`, plus the model loop of the report (lines 105-160). `results` is an input.
- Plotting, the report text, `trigger_rates` and `OLD_generate_clean_figure.py` are left out; they only draw numbers.
- Wall-clock timing is not modelled. Inference time is a field of the given results.
- The synthetic generator's random draws are the `noise` parameter. Their distributions are not modelled.
- WisdmProcessor.CreateSyntheticData does not model the per-activity spread of the draws at lines 123-146.
- ComprehensiveReport.BuildFeatureDataset takes the groups of `groupby(['user', 'activity'])` as an input. It does not model that pandas sorts them by key.
- FeatureExtractor.METFeatureExtractor.ExtractFeatures does not model numpy's broadcasting of a length-1 axis against longer ones, where numpy returns a vector instead of raising; every other mismatch of lengths raises in numpy, as the `Failure` here does.
- ComprehensiveReport.WindowRow: the pandas statistics of a one-row window (a NaN `std()`) are not modelled. Every window of the report has at least 25 rows.
- `sqrt` is the `root` parameter and is otherwise unspecified. Results that need its sign assume only that it is non-negative on non-negative input.
- Window sizes below 2 are excluded by a precondition. Sizes 0 and 1 make `range` raise on a zero step; a negative size gives an empty `range` and no windows, and in the report the guard `len(group) >= window_size` then admits every group, each giving no rows. Every caller passes 25, 50 or 100.
