/**
 * The computational parts of scripts/comprehensive_report.py: the per-window
 * feature rows of `extract_features_for_window` and the data set built from
 * them, the ten `feature_cols`, the phone-shake trigger counts, and the choice
 * of the best (window size, model) combination.
 */
module ComprehensiveReport {
  import opened Wrappers
  import Stats
  import Windowing
  import FeatureExtractor
  import TrainModel
  import WisdmProcessor

  type Row = WisdmProcessor.Row

  // ---------------------------------------------------------------------------
  // Feature rows: `extract_features_for_window`.

  /** The dictionary built for one window, key by key. */
  datatype FeatureRow = FeatureRow(
    user: int, activity: string, metClass: int,
    magMean: real, magStd: real, magMax: real, magRange: real,
    xMean: real, xStd: real, yMean: real, yStd: real, zMean: real, zStd: real)

  /** The `magnitude` column of a window: `calculate_magnitude(x, y, z)` row by row. */
  function MagnitudeColumn(window: seq<Row>, root: real -> real): (m: seq<real>)
    ensures |m| == |window|
    ensures forall k :: 0 <= k < |window| ==> m[k] == Stats.Magnitude(window[k].x, window[k].y, window[k].z, root)
  {
    FeatureExtractor.Magnitudes(TrainModel.Axes(window), root)
  }

  /** pandas `Series.std()`: the root of the sample variance (ddof = 1), never negative under a non-negative root. */
  function SeriesStd(s: seq<real>, root: real -> real): (d: real)
    requires |s| >= 2
    ensures Stats.RootNonNegative(root) ==> 0.0 <= d
  {
    root(Stats.SampleVariance(s))
  }

  /**
   * The row of one window: the identifying columns of its first row, then
   * the pandas statistics of its magnitude and axis columns. The range of the
   * magnitude is its maximum less its minimum, so never negative, and the
   * maximum is the largest magnitude of the window, at least the mean.
   */
  function WindowRow(window: seq<Row>, root: real -> real): (r: FeatureRow)
    requires |window| >= 2
    ensures r.user == window[0].user && r.activity == window[0].activity && r.metClass == window[0].metClass
    ensures 0.0 <= r.magRange && r.magMean <= r.magMax
    ensures r.magRange == r.magMax - Stats.Min(MagnitudeColumn(window, root))
    ensures r.magMax in MagnitudeColumn(window, root)
    ensures forall k :: 0 <= k < |window| ==> MagnitudeColumn(window, root)[k] <= r.magMax
  {
    var a := TrainModel.Axes(window);
    var m := MagnitudeColumn(window, root);
    Stats.MeanWithinRange(m);
    FeatureRow(
      window[0].user, window[0].activity, window[0].metClass,
      Stats.Mean(m), SeriesStd(m, root), Stats.Max(m), Stats.Max(m) - Stats.Min(m),
      Stats.Mean(a.x), SeriesStd(a.x, root), Stats.Mean(a.y), SeriesStd(a.y, root),
      Stats.Mean(a.z), SeriesStd(a.z, root))
  }

  /** `extract_features_for_window`'s row function, for windows of at least two rows. */
  function RowOf(root: real -> real): seq<Row> --> FeatureRow
  {
    window requires |window| >= 2 => WindowRow(window, root)
  }

  ghost predicate AppliesTo(f: seq<Row> --> FeatureRow, ws: seq<seq<Row>>)
  {
    forall k :: 0 <= k < |ws| ==> f.requires(ws[k])
  }

  /** f applied to each window of a run, in order. */
  function RowsBy(ws: seq<seq<Row>>, f: seq<Row> --> FeatureRow): (rows: seq<FeatureRow>)
    requires AppliesTo(f, ws)
    ensures |rows| == |ws|
  {
    if ws == [] then [] else RowsBy(ws[..|ws| - 1], f) + [f(ws[|ws| - 1])]
  }

  /** The rows of a run of windows, in order. */
  function WindowRows(ws: seq<seq<Row>>, root: real -> real): (rows: seq<FeatureRow>)
    requires WindowsLongEnough(ws)
    ensures |rows| == |ws|
  {
    RowsBy(ws, RowOf(root))
  }

  lemma RowsBySnoc(ws: seq<seq<Row>>, window: seq<Row>, f: seq<Row> --> FeatureRow, after: seq<seq<Row>>)
    requires AppliesTo(f, ws) && f.requires(window) && after == ws + [window]
    ensures AppliesTo(f, after)
    ensures RowsBy(after, f) == RowsBy(ws, f) + [f(window)]
  {
    assert after[..|ws|] == ws;
  }

  /** Every window of a group has w >= 2 rows. */
  lemma WindowsAreLongEnough(g: seq<Row>, w: nat)
    requires w >= 2
    ensures forall k :: 0 <= k < |Windowing.Windows(g, w)| ==> |Windowing.Windows(g, w)[k]| >= 2
  {
    Windowing.WindowsAreSlices(g, w);
  }

  /**
   * `extract_features_for_window`: one row per window of the group, in start
   * order. Each window is a slice of w rows (Windowing.WindowsAreSlices), so
   * the pandas statistics are over w >= 2 values.
   */
  method ExtractFeaturesForWindow(group: seq<Row>, root: real -> real, w: nat := 50) returns (features: seq<FeatureRow>)
    requires w >= 2
    ensures WindowsLongEnough(Windowing.Windows(group, w))
    ensures features == WindowRows(Windowing.Windows(group, w), root)
  {
    features := [];
    ghost var done: seq<seq<Row>> := [];
    var i: nat := 0;
    while i < |group| - w + 1
      invariant done + Windowing.WindowsFrom(group, i, w) == Windowing.WindowsFrom(group, 0, w)
      invariant WindowsLongEnough(done)
      invariant features == WindowRows(done, root)
      decreases |group| - i
    {
      ghost var start, before := i, done;
      var window := group[i..i + w];
      var featureRow := ExtractRow(window, root);
      features := features + [featureRow];
      done := done + [window];
      RowsBySnoc(before, window, RowOf(root), done);
      LongEnoughSnoc(before, window, done);
      i := i + w / 2;
      Windowing.WindowsFromStep(group, start, i, w, before, done);
    }
    assert done == Windowing.Windows(group, w);
  }

  /**
   * The dictionary of one window: its identifying columns come from the
   * first row, its magnitude range is its maximum less its minimum, never
   * negative, and its maximum is the largest magnitude of the window, at
   * least the mean.
   */
  method ExtractRow(window: seq<Row>, root: real -> real) returns (row: FeatureRow)
    requires |window| >= 2
    ensures row == RowOf(root)(window)
    ensures row.user == window[0].user && row.activity == window[0].activity
    ensures row.metClass == window[0].metClass
    ensures 0.0 <= row.magRange && row.magMean <= row.magMax
    ensures row.magRange == row.magMax - Stats.Min(MagnitudeColumn(window, root))
    ensures row.magMax in MagnitudeColumn(window, root)
    ensures forall k :: 0 <= k < |window| ==> MagnitudeColumn(window, root)[k] <= row.magMax
  {
    row := WindowRow(window, root);
  }

  ghost predicate WindowsLongEnough(ws: seq<seq<Row>>)
  {
    forall k :: 0 <= k < |ws| ==> |ws[k]| >= 2
  }

  lemma LongEnoughSnoc(ws: seq<seq<Row>>, window: seq<Row>, after: seq<seq<Row>>)
    requires WindowsLongEnough(ws) && |window| >= 2 && after == ws + [window]
    ensures WindowsLongEnough(after)
  {
  }

  /**
   * Row k of a run of windows copies `user`, `activity` and `met_class`
   * from the first row of window k.
   */
  lemma FeatureRowsCopyFirstRow(ws: seq<seq<Row>>, root: real -> real)
    requires WindowsLongEnough(ws)
    ensures forall k :: 0 <= k < |ws| ==>
      WindowRows(ws, root)[k].user == ws[k][0].user &&
      WindowRows(ws, root)[k].activity == ws[k][0].activity &&
      WindowRows(ws, root)[k].metClass == ws[k][0].metClass
  {
    RowsByInOrder(ws, RowOf(root));
  }

  /** Entry k of the rows is f of window k. */
  lemma {:induction false} RowsByInOrder(ws: seq<seq<Row>>, f: seq<Row> --> FeatureRow)
    requires AppliesTo(f, ws)
    ensures forall k :: 0 <= k < |ws| ==> RowsBy(ws, f)[k] == f(ws[k])
  {
    if ws != [] {
      var init := ws[..|ws| - 1];
      RowsByInOrder(init, f);
      forall k | 0 <= k < |init| ensures RowsBy(ws, f)[k] == f(ws[k]) {
        assert ws[k] == init[k];
      }
    }
  }

  // ---------------------------------------------------------------------------
  // The data set of one window size: the `groupby(['user', 'activity'])` loop.

  /**
   * The rows of the groups with at least w rows, group by group: one row for
   * each window of each group.
   */
  function DatasetRows(groups: seq<seq<Row>>, w: nat, root: real -> real): (rows: seq<FeatureRow>)
    requires w >= 2
    ensures |rows| == |AllWindows(groups, w)|
  {
    if groups == [] then []
    else
      var g := groups[|groups| - 1];
      DatasetRows(groups[..|groups| - 1], w, root) +
      (if |g| >= w then (WindowsAreLongEnough(g, w); WindowRows(Windowing.Windows(g, w), root))
       else (Windowing.ShortGroupHasNoWindows(g, w); []))
  }

  lemma DatasetRowsStep(groups: seq<seq<Row>>, n: nat, w: nat, root: real -> real)
    requires w >= 2 && n < |groups|
    ensures WindowsLongEnough(Windowing.Windows(groups[n], w))
    ensures DatasetRows(groups[..n + 1], w, root) == DatasetRows(groups[..n], w, root) +
      (if |groups[n]| >= w then WindowRows(Windowing.Windows(groups[n], w), root) else [])
  {
    WindowsAreLongEnough(groups[n], w);
    assert groups[..n + 1][..n] == groups[..n];
  }

  /**
   * The `for (user, activity), group in df.groupby(...)` loop for one
   * window size: the features of every (user, activity) group long enough for one window. The groups are given in the order
   * `groupby` yields them.
   */
  method BuildFeatureDataset(groups: seq<seq<Row>>, w: nat, root: real -> real) returns (allFeatures: seq<FeatureRow>)
    requires w >= 2
    ensures allFeatures == DatasetRows(groups, w, root)
  {
    allFeatures := [];
    for n := 0 to |groups|
      invariant allFeatures == DatasetRows(groups[..n], w, root)
    {
      var group := groups[n];
      DatasetRowsStep(groups, n, w, root);
      if |group| >= w {
        var features := ExtractFeaturesForWindow(group, root, w);
        allFeatures := allFeatures + features;
      }
    }
    assert groups[..|groups|] == groups;
  }

  /** Every window of every group, group by group. */
  function AllWindows(groups: seq<seq<Row>>, w: nat): seq<seq<Row>>
    requires w >= 2
  {
    if groups == [] then []
    else AllWindows(groups[..|groups| - 1], w) + Windowing.Windows(groups[|groups| - 1], w)
  }

  lemma RowsByAppend(ws0: seq<seq<Row>>, ws1: seq<seq<Row>>, f: seq<Row> --> FeatureRow, ws: seq<seq<Row>>)
    requires AppliesTo(f, ws0) && AppliesTo(f, ws1) && ws == ws0 + ws1
    ensures AppliesTo(f, ws)
    ensures RowsBy(ws, f) == RowsBy(ws0, f) + RowsBy(ws1, f)
    decreases |ws1|
  {
    if ws1 != [] {
      var init := ws1[..|ws1| - 1];
      assert ws[..|ws| - 1] == ws0 + init;
      RowsByAppend(ws0, init, f, ws0 + init);
    } else {
      assert ws == ws0;
    }
  }

  /** Every window of every group has at least two rows. */
  lemma {:induction false} AllWindowsLongEnough(groups: seq<seq<Row>>, w: nat)
    requires w >= 2
    ensures WindowsLongEnough(AllWindows(groups, w))
  {
    if groups != [] {
      var init, g := groups[..|groups| - 1], groups[|groups| - 1];
      AllWindowsLongEnough(init, w);
      WindowsAreLongEnough(g, w);
      var ws0, ws1 := AllWindows(init, w), Windowing.Windows(g, w);
      assert forall k :: 0 <= k < |ws1| ==> (ws0 + ws1)[|ws0| + k] == ws1[k];
    }
  }

  /**
   * The guard `len(group) >= window_size` changes nothing: a group shorter
   * than the window has no window anyway, so the data set is the rows of all
   * windows of all groups.
   */
  lemma {:induction false} LengthGuardIsRedundant(groups: seq<seq<Row>>, w: nat, root: real -> real)
    requires w >= 2
    ensures WindowsLongEnough(AllWindows(groups, w))
    ensures DatasetRows(groups, w, root) == WindowRows(AllWindows(groups, w), root)
  {
    AllWindowsLongEnough(groups, w);
    if groups != [] {
      var init, g := groups[..|groups| - 1], groups[|groups| - 1];
      LengthGuardIsRedundant(init, w, root);
      WindowsAreLongEnough(g, w);
      var ws0, ws1 := AllWindows(init, w), Windowing.Windows(g, w);
      var tail := if |g| >= w then WindowRows(ws1, root) else [];
      assert DatasetRows(groups, w, root) == DatasetRows(init, w, root) + tail;
      if |g| < w {
        Windowing.ShortGroupHasNoWindows(g, w);
        assert AllWindows(groups, w) == ws0;
      }
      RowsByAppend(ws0, ws1, RowOf(root), AllWindows(groups, w));
    }
  }

  // ---------------------------------------------------------------------------
  // The ten model inputs: `feature_cols`.

  /** The statistic keys of a feature row. */
  datatype Stat = MagMean | MagStd | MagMax | MagRange | XMean | XStd | YMean | YStd | ZMean | ZStd

  function Key(s: Stat): string
  {
    match s
    case MagMean => "mag_mean"
    case MagStd => "mag_std"
    case MagMax => "mag_max"
    case MagRange => "mag_range"
    case XMean => "x_mean"
    case XStd => "x_std"
    case YMean => "y_mean"
    case YStd => "y_std"
    case ZMean => "z_mean"
    case ZStd => "z_std"
  }

  function StatValue(s: Stat, r: FeatureRow): real
  {
    match s
    case MagMean => r.magMean
    case MagStd => r.magStd
    case MagMax => r.magMax
    case MagRange => r.magRange
    case XMean => r.xMean
    case XStd => r.xStd
    case YMean => r.yMean
    case YStd => r.yStd
    case ZMean => r.zMean
    case ZStd => r.zStd
  }

  /** The statistic keys in the order the dictionary literal lists them. */
  const StatKeys: seq<Stat> := [MagMean, MagStd, MagMax, MagRange, XMean, XStd, YMean, YStd, ZMean, ZStd]

  /** Every key of a feature row, in insertion order. */
  const RowKeys: seq<string> := ["user", "activity", "met_class",
    "mag_mean", "mag_std", "mag_max", "mag_range", "x_mean", "x_std", "y_mean", "y_std", "z_mean", "z_std"]

  /** `feature_cols`. */
  const FeatureCols: seq<string> := ["mag_mean", "mag_std", "mag_max", "mag_range",
    "x_mean", "x_std", "y_mean", "y_std", "z_mean", "z_std"]

  /** One row of `feature_df[feature_cols]`. */
  function ModelInputs(r: FeatureRow): (v: seq<real>)
    ensures |v| == |FeatureCols| == |StatKeys| == 10
    ensures forall i :: 0 <= i < 10 ==> v[i] == StatValue(StatKeys[i], r)
  {
    [r.magMean, r.magStd, r.magMax, r.magRange, r.xMean, r.xStd, r.yMean, r.yStd, r.zMean, r.zStd]
  }

  /**
   * The ten columns are the statistic keys of a row in the row's own order:
   * everything after `user`, `activity` and `met_class`, and column i names
   * the statistic in slot i of the model inputs.
   */
  lemma FeatureColsAreStatisticKeys()
    ensures |FeatureCols| == 10 && FeatureCols == RowKeys[3..]
    ensures forall i :: 0 <= i < 10 ==> FeatureCols[i] == Key(StatKeys[i])
  {
    assert RowKeys[3..] == FeatureCols;
  }

  // ---------------------------------------------------------------------------
  // One data set per window size: the `for window_size in [25, 50, 100]` loop.

  /** `window_sizes`. */
  const WindowSizes: seq<nat> := [25, 50, 100]

  /** `feature_datasets`: the feature rows of every window size, keyed by that size. */
  method BuildFeatureDatasets(groups: seq<seq<Row>>, root: real -> real) returns (datasets: map<nat, seq<FeatureRow>>)
    ensures forall w :: w in datasets <==> w in WindowSizes
    ensures forall w :: w in datasets ==> w >= 2 && datasets[w] == DatasetRows(groups, w, root)
  {
    datasets := map[];
    for n := 0 to |WindowSizes|
      invariant forall w :: w in datasets <==> w in WindowSizes[..n]
      invariant forall w :: w in datasets ==> w >= 2 && datasets[w] == DatasetRows(groups, w, root)
    {
      var windowSize := WindowSizes[n];
      var featureDf := BuildFeatureDataset(groups, windowSize, root);
      datasets := datasets[windowSize := featureDf];
      assert WindowSizes[..n + 1] == WindowSizes[..n] + [windowSize];
    }
    assert WindowSizes[..|WindowSizes|] == WindowSizes;
  }

  // ---------------------------------------------------------------------------
  // Phone-shake triggers: the `threshold = 1.05` analysis and its summary line.

  /** `threshold`, in g. */
  const Threshold: real := 1.05

  /** `(series > t).sum()`: how many values exceed t. */
  function CountAbove(s: seq<real>, t: real): (c: nat)
    ensures c <= |s|
  {
    if s == [] then 0 else CountAbove(s[..|s| - 1], t) + (if s[|s| - 1] > t then 1 else 0)
  }

  /** No value is counted exactly when none exceeds t. */
  lemma {:induction false} CountAboveZero(s: seq<real>, t: real)
    ensures CountAbove(s, t) == 0 <==> forall i :: 0 <= i < |s| ==> s[i] <= t
  {
    if s != [] {
      var init := s[..|s| - 1];
      CountAboveZero(init, t);
      assert forall i :: 0 <= i < |init| ==> init[i] == s[i];
    }
  }

  /** Every value is counted exactly when all exceed t. */
  lemma {:induction false} CountAboveAll(s: seq<real>, t: real)
    ensures CountAbove(s, t) == |s| <==> forall i :: 0 <= i < |s| ==> s[i] > t
  {
    if s != [] {
      var init := s[..|s| - 1];
      CountAboveAll(init, t);
      assert forall i :: 0 <= i < |init| ==> init[i] == s[i];
    }
  }

  /**
   * `instant_triggers`: raw samples whose magnitude exceeds the threshold.
   * There are at most as many as samples, and none exactly when no magnitude
   * exceeds the threshold.
   */
  function InstantTriggers(df: seq<Row>, root: real -> real): (t: nat)
    ensures t <= |df|
    ensures t == 0 <==> forall k :: 0 <= k < |df| ==> MagnitudeColumn(df, root)[k] <= Threshold
  {
    CountAboveZero(MagnitudeColumn(df, root), Threshold);
    CountAbove(MagnitudeColumn(df, root), Threshold)
  }

  /** The `mag_mean` column of a feature data set. */
  function MagMeanColumn(rows: seq<FeatureRow>): (c: seq<real>)
    ensures |c| == |rows| && forall k :: 0 <= k < |rows| ==> c[k] == rows[k].magMean
  {
    seq(|rows|, k requires 0 <= k < |rows| => rows[k].magMean)
  }

  /**
   * `sustained_triggers`: windows whose mean magnitude exceeds the threshold.
   * There are at most as many as windows, and none exactly when no window's
   * mean magnitude exceeds the threshold.
   */
  function SustainedTriggers(rows: seq<FeatureRow>): (t: nat)
    ensures t <= |rows|
    ensures t == 0 <==> forall k :: 0 <= k < |rows| ==> rows[k].magMean <= Threshold
  {
    CountAboveZero(MagMeanColumn(rows), Threshold);
    CountAbove(MagMeanColumn(rows), Threshold)
  }

  /**
   * A window can only trigger on its mean when one of its own samples
   * triggers: the mean never exceeds the largest magnitude.
   */
  lemma SustainedNeedsInstant(window: seq<Row>, root: real -> real)
    requires |window| >= 2
    ensures WindowRow(window, root).magMean > Threshold ==> CountAbove(MagnitudeColumn(window, root), Threshold) > 0
  {
    CountAboveZero(MagnitudeColumn(window, root), Threshold);
  }

  /** The reduction factor drawn on the figure, `instant_triggers / sustained_triggers`: only when some window triggers. */
  function ReductionShown(instant: nat, sustained: nat): (r: Option<real>)
    ensures r.Some? <==> sustained > 0
    ensures r.Some? ==> r.value * (sustained as real) == instant as real
  {
    if sustained > 0 then Some((instant as real) / (sustained as real)) else None
  }

  /** The reduction factor in the summary text, `instant_triggers / max(sustained_triggers, 1)`: the divisor is at least 1. */
  function ReductionInSummary(instant: nat, sustained: nat): (r: real)
    ensures 0.0 <= r <= instant as real
    ensures sustained == 0 ==> r == instant as real
  {
    (instant as real) / (if sustained > 1 then sustained else 1) as real
  }

  /** The figure and the summary agree whenever the figure shows a factor. */
  lemma ReductionsAgree(instant: nat, sustained: nat)
    ensures ReductionShown(instant, sustained).Some? ==>
      ReductionShown(instant, sustained).value == ReductionInSummary(instant, sustained)
  {
  }

  // ---------------------------------------------------------------------------
  // Choosing the best combination: `best_combinations` and its sort.

  /** The two entries of a model's result that the choice reads. */
  datatype ModelResult = ModelResult(accuracy: real, inferenceTimeMs: real)

  /** One entry of `best_combinations`. */
  datatype Combo = Combo(windowSize: nat, modelName: string, accuracy: real, inferenceTime: real, stabilityScore: real)

  /** The keys of `models`, in insertion order. */
  const ModelNames: seq<string> := ["Logistic Regression", "Random Forest", "SVM", "Gradient Boosting", "Neural Network"]

  /** `results[window_size][model_name]` is defined for every pair tried. */
  ghost predicate Complete(results: map<nat, map<string, ModelResult>>)
  {
    forall i, j :: 0 <= i < |WindowSizes| && 0 <= j < |ModelNames| ==>
      WindowSizes[i] in results && ModelNames[j] in results[WindowSizes[i]]
  }

  function MakeCombo(results: map<nat, map<string, ModelResult>>, w: nat, name: string): (c: Combo)
    requires w in results && name in results[w]
    ensures c.windowSize == w && c.modelName == name && c.accuracy == results[w][name].accuracy
    ensures c.inferenceTime == results[w][name].inferenceTimeMs
    ensures c.stabilityScore * 25.0 == w as real
  {
    var r := results[w][name];
    Combo(w, name, r.accuracy, r.inferenceTimeMs, (w as real) / 25.0)
  }

  /**
   * `best_combinations` before sorting: size by size and, within a size,
   * model by model, so entry k pairs size k div 5 with model k mod 5.
   */
  function Combinations(results: map<nat, map<string, ModelResult>>): (cs: seq<Combo>)
    requires Complete(results)
    ensures |cs| == |WindowSizes| * |ModelNames| == 15
    ensures forall k :: 0 <= k < |cs| ==>
      cs[k].windowSize in results && cs[k].modelName in results[cs[k].windowSize] &&
      cs[k].accuracy == results[cs[k].windowSize][cs[k].modelName].accuracy
  {
    seq(15, k requires 0 <= k < 15 => MakeCombo(results, WindowSizes[k / 5], ModelNames[k % 5]))
  }

  /**
   * The `best_combinations` loop: for each window size, for each model in
   * insertion order, one combination with its accuracy, inference time and stability score.
   */
  method BuildCombinations(results: map<nat, map<string, ModelResult>>) returns (bestCombinations: seq<Combo>)
    requires Complete(results)
    ensures bestCombinations == Combinations(results)
  {
    bestCombinations := [];
    for a := 0 to |WindowSizes|
      invariant |bestCombinations| == 5 * a
      invariant forall k :: 0 <= k < |bestCombinations| ==> bestCombinations[k] == Combinations(results)[k]
    {
      var windowSize := WindowSizes[a];
      for b := 0 to |ModelNames|
        invariant |bestCombinations| == 5 * a + b
        invariant forall k :: 0 <= k < |bestCombinations| ==> bestCombinations[k] == Combinations(results)[k]
      {
        var modelName := ModelNames[b];
        var result := results[windowSize][modelName];
        assert (5 * a + b) / 5 == a && (5 * a + b) % 5 == b;
        bestCombinations := bestCombinations + [Combo(windowSize, modelName, result.accuracy, result.inferenceTimeMs, (windowSize as real) / 25.0)];
      }
    }
  }

  /** The sort key (accuracy, stability_score) of a is below that of b, tuples compared lexicographically. */
  predicate KeyLess(a: Combo, b: Combo)
  {
    a.accuracy < b.accuracy || (a.accuracy == b.accuracy && a.stabilityScore < b.stabilityScore)
  }

  ghost predicate SortedDescending(cs: seq<Combo>)
  {
    forall i, j :: 0 <= i < j < |cs| ==> !KeyLess(cs[i], cs[j])
  }

  /** One step of a stable descending insertion: c goes before the first element whose key is below its own. */
  function InsertDescending(c: Combo, cs: seq<Combo>): (r: seq<Combo>)
    ensures |r| == |cs| + 1
  {
    if cs == [] then [c]
    else if KeyLess(cs[0], c) then [c] + cs
    else [cs[0]] + InsertDescending(c, cs[1..])
  }

  /**
   * `sorted(..., key=(accuracy, stability_score), reverse=True)`: Python's
   * sort is stable, so combinations with equal keys keep their order; each
   * combination goes after the earlier ones whose key is not below its own.
   */
  function SortDescending(cs: seq<Combo>): (r: seq<Combo>)
    ensures |r| == |cs|
  {
    if cs == [] then [] else InsertDescending(cs[|cs| - 1], SortDescending(cs[..|cs| - 1]))
  }

  lemma {:induction false} InsertDescendingPermutes(c: Combo, cs: seq<Combo>)
    ensures multiset(InsertDescending(c, cs)) == multiset(cs) + multiset{c}
  {
    if cs != [] && !KeyLess(cs[0], c) {
      InsertDescendingPermutes(c, cs[1..]);
      assert cs == [cs[0]] + cs[1..];
    }
  }

  /** A key that no element's key exceeds, c's included, bounds every key after insertion. */
  lemma {:induction false} InsertDescendingUpperBound(c: Combo, cs: seq<Combo>, top: Combo)
    requires !KeyLess(top, c) && forall k :: 0 <= k < |cs| ==> !KeyLess(top, cs[k])
    ensures forall k :: 0 <= k < |InsertDescending(c, cs)| ==> !KeyLess(top, InsertDescending(c, cs)[k])
  {
    if cs != [] && !KeyLess(cs[0], c) {
      InsertDescendingUpperBound(c, cs[1..], top);
      var r, t := InsertDescending(c, cs), InsertDescending(c, cs[1..]);
      assert forall k :: 1 <= k < |r| ==> r[k] == t[k - 1];
    }
  }

  lemma {:induction false} InsertDescendingSorted(c: Combo, cs: seq<Combo>)
    requires SortedDescending(cs)
    ensures SortedDescending(InsertDescending(c, cs))
  {
    if cs != [] && !KeyLess(cs[0], c) {
      var tail := cs[1..];
      InsertDescendingSorted(c, tail);
      InsertDescendingUpperBound(c, tail, cs[0]);
      var r, t := InsertDescending(c, cs), InsertDescending(c, tail);
      forall i, j | 0 <= i < j < |r| ensures !KeyLess(r[i], r[j]) {
        assert r[j] == t[j - 1];
        if i > 0 {
          assert r[i] == t[i - 1];
        }
      }
    }
  }

  /** The sort orders the keys from high to low and is a permutation of its input. */
  lemma {:induction false} SortDescendingSpec(cs: seq<Combo>)
    ensures SortedDescending(SortDescending(cs))
    ensures multiset(SortDescending(cs)) == multiset(cs)
  {
    if cs != [] {
      var init := cs[..|cs| - 1];
      SortDescendingSpec(init);
      InsertDescendingSorted(cs[|cs| - 1], SortDescending(init));
      InsertDescendingPermutes(cs[|cs| - 1], SortDescending(init));
      assert cs == init + [cs[|cs| - 1]];
    }
  }

  /**
   * The position of the first combination with the greatest key: no key
   * exceeds it and every earlier key is below it.
   */
  function FirstMaxIndex(cs: seq<Combo>): (i: nat)
    requires |cs| > 0
    ensures i < |cs|
    ensures forall j :: 0 <= j < |cs| ==> !KeyLess(cs[i], cs[j])
    ensures forall j :: 0 <= j < i ==> KeyLess(cs[j], cs[i])
  {
    if |cs| == 1 then 0
    else
      var init := cs[..|cs| - 1];
      assert forall j :: 0 <= j < |init| ==> init[j] == cs[j];
      var i := FirstMaxIndex(init);
      if KeyLess(cs[i], cs[|cs| - 1]) then |cs| - 1 else i
  }

  /** The head of the stable descending sort is the first combination with the greatest key. */
  lemma {:induction false} SortDescendingHead(cs: seq<Combo>)
    requires |cs| > 0
    ensures SortDescending(cs)[0] == cs[FirstMaxIndex(cs)]
  {
    if |cs| > 1 {
      var init := cs[..|cs| - 1];
      SortDescendingHead(init);
      assert init[FirstMaxIndex(init)] == cs[FirstMaxIndex(init)];
    }
  }

  /**
   * `best_combinations` and `sorted(..., reverse=True)[0]`: build the
   * combinations, sort them, take the first, and look its result up again.
   */
  method SelectBestCombination(results: map<nat, map<string, ModelResult>>) returns (best: Combo, bestResult: ModelResult)
    requires Complete(results)
    ensures |Combinations(results)| == 15
    ensures best == Combinations(results)[FirstMaxIndex(Combinations(results))]
    ensures best.windowSize in results && best.modelName in results[best.windowSize]
    ensures bestResult == results[best.windowSize][best.modelName]
  {
    var bestCombinations := BuildCombinations(results);
    bestCombinations := SortDescending(bestCombinations);
    SortDescendingHead(Combinations(results));
    var bestCombo := bestCombinations[0];
    best := bestCombo;
    var bestWindow := bestCombo.windowSize;
    var bestModelName := bestCombo.modelName;
    bestResult := results[bestWindow][bestModelName];
  }

  /**
   * The chosen pair has the highest accuracy of all fifteen, and among the
   * pairs as accurate as it, the largest window; its result is the chosen
   * combination's own.
   */
  lemma BestIsMostAccurate(results: map<nat, map<string, ModelResult>>, best: Combo)
    requires Complete(results)
    requires |Combinations(results)| > 0 && best == Combinations(results)[FirstMaxIndex(Combinations(results))]
    ensures best.windowSize in WindowSizes && best.modelName in ModelNames
    ensures best.windowSize in results && best.modelName in results[best.windowSize]
    ensures best.accuracy == results[best.windowSize][best.modelName].accuracy
    ensures forall i, j :: 0 <= i < |WindowSizes| && 0 <= j < |ModelNames| ==>
      results[WindowSizes[i]][ModelNames[j]].accuracy <= best.accuracy &&
      (results[WindowSizes[i]][ModelNames[j]].accuracy == best.accuracy ==> WindowSizes[i] <= best.windowSize)
  {
    var cs := Combinations(results);
    var t := FirstMaxIndex(cs);
    assert best == MakeCombo(results, WindowSizes[t / 5], ModelNames[t % 5]);
    forall i, j | 0 <= i < |WindowSizes| && 0 <= j < |ModelNames|
      ensures results[WindowSizes[i]][ModelNames[j]].accuracy <= best.accuracy &&
        (results[WindowSizes[i]][ModelNames[j]].accuracy == best.accuracy ==> WindowSizes[i] <= best.windowSize)
    {
      var k := 5 * i + j;
      assert k / 5 == i && k % 5 == j;
      assert cs[k] == MakeCombo(results, WindowSizes[i], ModelNames[j]);
      assert !KeyLess(best, cs[k]);
    }
  }
}
