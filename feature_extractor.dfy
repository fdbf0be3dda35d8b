/**
 * The 16-slot feature vector of `METFeatureExtractor.extract_features`
 * (src/feature_extraction/feature_extractor.py) and its name list.
 * The square root is the parameter `root`.
 */
module FeatureExtractor {
  import opened Wrappers
  import Stats

  /** The `accel_data` dictionary: the three axis lists of one window. */
  datatype AccelData = AccelData(x: seq<real>, y: seq<real>, z: seq<real>)

  /** Why numpy refuses a window. */
  datatype ExtractError =
    | RaggedAxes   // the axes have different lengths: `x**2 + y**2 + z**2` cannot broadcast
    | EmptyWindow  // zero samples: `np.min` of an empty array raises

  /** The windows numpy accepts: three axes of one common, non-zero length. */
  predicate WellFormed(a: AccelData)
  {
    |a.x| > 0 && |a.y| == |a.x| && |a.z| == |a.x|
  }

  /** `np.sqrt(x**2 + y**2 + z**2)`, element by element. */
  function Magnitudes(a: AccelData, root: real -> real): (m: seq<real>)
    requires |a.y| == |a.x| && |a.z| == |a.x|
    ensures |m| == |a.x|
    ensures forall i :: 0 <= i < |m| ==> m[i] == Stats.Magnitude(a.x[i], a.y[i], a.z[i], root)
  {
    seq(|a.x|, i requires 0 <= i < |a.x| => Stats.Magnitude(a.x[i], a.y[i], a.z[i], root))
  }

  /** Under a non-negative root every magnitude is non-negative. */
  lemma MagnitudesNonNegative(a: AccelData, root: real -> real)
    requires |a.y| == |a.x| && |a.z| == |a.x|
    requires Stats.RootNonNegative(root)
    ensures forall i :: 0 <= i < |Magnitudes(a, root)| ==> 0.0 <= Magnitudes(a, root)[i]
  {
    var m := Magnitudes(a, root);
    forall i | 0 <= i < |m| ensures 0.0 <= m[i] {
      assert m[i] == Stats.Magnitude(a.x[i], a.y[i], a.z[i], root);
    }
  }

  // ---------------------------------------------------------------------------
  // Zero crossings: `np.sum(np.diff(np.sign(x - mean_x)) != 0)`.

  /** `np.sign`: 1, -1 or 0. */
  function Sign(v: real): (s: int)
    ensures -1 <= s <= 1
    ensures (s == 1 <==> v > 0.0) && (s == -1 <==> v < 0.0)
  {
    if v > 0.0 then 1 else if v < 0.0 then -1 else 0
  }

  /** The signs of the deviations of x from c. */
  function Signs(x: seq<real>, c: real): (s: seq<int>)
    ensures |s| == |x|
  {
    seq(|x|, i requires 0 <= i < |x| => Sign(x[i] - c))
  }

  /** The number of adjacent pairs of s that differ (the non-zero entries of `np.diff`). */
  function SignChanges(s: seq<int>): (c: nat)
    ensures |s| > 0 ==> c <= |s| - 1
    ensures |s| <= 1 ==> c == 0
  {
    if |s| < 2 then 0 else (if s[0] != s[1] then 1 else 0) + SignChanges(s[1..])
  }

  /** No pair differs exactly when all adjacent entries are equal. */
  lemma {:induction false} NoSignChanges(s: seq<int>)
    ensures SignChanges(s) == 0 <==> forall k :: 0 <= k < |s| - 1 ==> s[k] == s[k + 1]
  {
    if |s| >= 2 {
      NoSignChanges(s[1..]);
      if SignChanges(s) == 0 {
        forall k | 0 <= k < |s| - 1 ensures s[k] == s[k + 1] {
          if k > 0 {
            assert s[1..][k - 1] == s[k] && s[1..][k] == s[k + 1];
          }
        }
      } else if s[0] == s[1] {
        var k :| 0 <= k < |s[1..]| - 1 && s[1..][k] != s[1..][k + 1];
        assert s[k + 1] != s[k + 2];
      }
    }
  }

  /**
   * The zero-crossing count of x: sign changes of x minus its mean. There are
   * between 0 and n-1 of them, and none when every sample is the same.
   */
  function ZeroCrossings(x: seq<real>): (c: nat)
    requires |x| > 0
    ensures c <= |x| - 1
    ensures (forall i :: 0 <= i < |x| ==> x[i] == x[0]) ==> c == 0
  {
    ConstantAxisHasNoSignChanges(x);
    SignChanges(Signs(x, Stats.Mean(x)))
  }

  /** A constant axis equals its mean everywhere, so all its signs are 0 and none changes. */
  lemma ConstantAxisHasNoSignChanges(x: seq<real>)
    requires |x| > 0
    ensures (forall i :: 0 <= i < |x| ==> x[i] == x[0]) ==> SignChanges(Signs(x, Stats.Mean(x))) == 0
  {
    if forall i :: 0 <= i < |x| ==> x[i] == x[0] {
      Stats.MeanOfConstant(x, x[0]);
      var s := Signs(x, Stats.Mean(x));
      forall k | 0 <= k < |s| ensures s[k] == 0 {
        assert x[k] - Stats.Mean(x) == 0.0;
      }
      NoSignChanges(s);
    }
  }

  // ---------------------------------------------------------------------------
  // The layout.

  /** The statistics of the vector, one per slot. */
  datatype Feature =
    | MeanX | MeanY | MeanZ | MeanMagnitude
    | StdX | StdY | StdZ | StdMagnitude
    | MinMagnitude | MaxMagnitude
    | RmsX | RmsY | RmsZ
    | ZeroCrossingsX
    | MagnitudeP25 | MagnitudeP75

  /** The order in which `extract_features` appends the statistics. */
  const Layout: seq<Feature> := [
    MeanX, MeanY, MeanZ, MeanMagnitude,
    StdX, StdY, StdZ, StdMagnitude,
    MinMagnitude, MaxMagnitude,
    RmsX, RmsY, RmsZ,
    ZeroCrossingsX,
    MagnitudeP25, MagnitudeP75]

  /** The column name of each statistic. */
  function Name(f: Feature): string
  {
    match f
    case MeanX => "mean_x"
    case MeanY => "mean_y"
    case MeanZ => "mean_z"
    case MeanMagnitude => "mean_magnitude"
    case StdX => "std_x"
    case StdY => "std_y"
    case StdZ => "std_z"
    case StdMagnitude => "std_magnitude"
    case MinMagnitude => "min_magnitude"
    case MaxMagnitude => "max_magnitude"
    case RmsX => "rms_x"
    case RmsY => "rms_y"
    case RmsZ => "rms_z"
    case ZeroCrossingsX => "zero_crossings_x"
    case MagnitudeP25 => "magnitude_p25"
    case MagnitudeP75 => "magnitude_p75"
  }

  /** `get_feature_names`: sixteen names, position i naming the statistic in slot i. */
  function FeatureNames(): (names: seq<string>)
    ensures |names| == |Layout| == 16
    ensures forall i :: 0 <= i < 16 ==> names[i] == Name(Layout[i])
  {
    ["mean_x", "mean_y", "mean_z", "mean_magnitude",
     "std_x", "std_y", "std_z", "std_magnitude",
     "min_magnitude", "max_magnitude",
     "rms_x", "rms_y", "rms_z",
     "zero_crossings_x",
     "magnitude_p25", "magnitude_p75"]
  }

  /** No two slots share a name, so the names key the vector. */
  lemma FeatureNamesDistinct()
    ensures forall i, j :: 0 <= i < j < |FeatureNames()| ==> FeatureNames()[i] != FeatureNames()[j]
  {
  }

  /** The sixteen statistics of one window, by name. The lemmas at the end are about its fields. */
  datatype Summary = Summary(
    meanX: real, meanY: real, meanZ: real, meanMagnitude: real,
    stdX: real, stdY: real, stdZ: real, stdMagnitude: real,
    minMagnitude: real, maxMagnitude: real,
    rmsX: real, rmsY: real, rmsZ: real,
    zeroCrossingsX: real,
    magnitudeP25: real, magnitudeP75: real)

  /** The statistic f of a summary. */
  function Field(f: Feature, s: Summary): real
  {
    match f
    case MeanX => s.meanX
    case MeanY => s.meanY
    case MeanZ => s.meanZ
    case MeanMagnitude => s.meanMagnitude
    case StdX => s.stdX
    case StdY => s.stdY
    case StdZ => s.stdZ
    case StdMagnitude => s.stdMagnitude
    case MinMagnitude => s.minMagnitude
    case MaxMagnitude => s.maxMagnitude
    case RmsX => s.rmsX
    case RmsY => s.rmsY
    case RmsZ => s.rmsZ
    case ZeroCrossingsX => s.zeroCrossingsX
    case MagnitudeP25 => s.magnitudeP25
    case MagnitudeP75 => s.magnitudeP75
  }

  /**
   * Each statistic as numpy computes it (np.std is the population deviation).
   * The magnitude order statistics are ordered, min <= p25 <= p75 <= max, and
   * the zero-crossing count lies in [0, n-1], being 0 for a constant x axis.
   */
  function Summarize(a: AccelData, root: real -> real): (s: Summary)
    requires WellFormed(a)
    ensures s.minMagnitude <= s.magnitudeP25 <= s.magnitudeP75 <= s.maxMagnitude
    ensures 0.0 <= s.zeroCrossingsX <= (|a.x| - 1) as real
    ensures (forall i :: 0 <= i < |a.x| ==> a.x[i] == a.x[0]) ==> s.zeroCrossingsX == 0.0
  {
    var m := Magnitudes(a, root);
    Stats.QuartilesOrdered(m);
    Summary(
      Stats.Mean(a.x), Stats.Mean(a.y), Stats.Mean(a.z), Stats.Mean(m),
      root(Stats.PopulationVariance(a.x)), root(Stats.PopulationVariance(a.y)),
      root(Stats.PopulationVariance(a.z)), root(Stats.PopulationVariance(m)),
      Stats.Min(m), Stats.Max(m),
      root(Stats.MeanSquare(a.x)), root(Stats.MeanSquare(a.y)), root(Stats.MeanSquare(a.z)),
      ZeroCrossings(a.x) as real,
      Stats.Percentile(m, 1, 4), Stats.Percentile(m, 3, 4))
  }

  /** The list of a summary in the order of the extends of `extract_features`. */
  function Vector(s: Summary): seq<real>
  {
    [s.meanX, s.meanY, s.meanZ, s.meanMagnitude,
     s.stdX, s.stdY, s.stdZ, s.stdMagnitude,
     s.minMagnitude, s.maxMagnitude,
     s.rmsX, s.rmsY, s.rmsZ,
     s.zeroCrossingsX,
     s.magnitudeP25, s.magnitudeP75]
  }

  /** The vector has one slot per name, and slot i is the statistic `get_feature_names` names at i. */
  lemma VectorFollowsNames(s: Summary)
    ensures |Vector(s)| == |FeatureNames()| == |Layout|
    ensures forall i :: 0 <= i < |Layout| ==> Vector(s)[i] == Field(Layout[i], s) && FeatureNames()[i] == Name(Layout[i])
  {
  }

  /** The six extends, in their order, spell out the vector of a summary. */
  lemma ExtendsGiveVector(s: Summary, features: seq<real>)
    requires features == [] + [s.meanX, s.meanY, s.meanZ, s.meanMagnitude]
      + [s.stdX, s.stdY, s.stdZ, s.stdMagnitude]
      + [s.minMagnitude, s.maxMagnitude]
      + [s.rmsX, s.rmsY, s.rmsZ]
      + [s.zeroCrossingsX]
      + [s.magnitudeP25, s.magnitudeP75]
    ensures features == Vector(s)
  {
  }

  /**
   * The vector `extract_features` returns for a window numpy accepts: one slot
   * per name of `get_feature_names`, slot i holding the statistic named at i.
   */
  function FeatureVector(a: AccelData, root: real -> real): (v: seq<real>)
    requires WellFormed(a)
    ensures |v| == |FeatureNames()| == |Layout|
    ensures forall i :: 0 <= i < |Layout| ==> v[i] == Field(Layout[i], Summarize(a, root))
  {
    VectorFollowsNames(Summarize(a, root));
    Vector(Summarize(a, root))
  }

  /** The stored configuration of `METFeatureExtractor`. */
  class METFeatureExtractor {
    var windowSize: int
    var samplingRate: int

    constructor(windowSize: int := 50, samplingRate: int := 20)
      ensures this.windowSize == windowSize && this.samplingRate == samplingRate
    {
      this.windowSize := windowSize;
      this.samplingRate := samplingRate;
    }

    /**
     * `extract_features`: the list built by the extends and the append. Its
     * result is a function of the window alone; the stored configuration
     * plays no part in it.
     */
    method ExtractFeatures(a: AccelData, root: real -> real) returns (r: Result<seq<real>, ExtractError>)
      ensures r.Success? <==> WellFormed(a)
      ensures r.Success? ==> r.value == FeatureVector(a, root)
      ensures r.Failure? ==> (r.error == EmptyWindow <==> |a.y| == |a.x| && |a.z| == |a.x|)
    {
      if !(|a.y| == |a.x| && |a.z| == |a.x|) {
        return Failure(RaggedAxes);
      }
      if |a.x| == 0 {
        return Failure(EmptyWindow);
      }
      var x, y, z := a.x, a.y, a.z;
      var magnitude := Magnitudes(a, root);
      var features: seq<real> := [];
      features := features + [Stats.Mean(x), Stats.Mean(y), Stats.Mean(z), Stats.Mean(magnitude)];
      features := features + [root(Stats.PopulationVariance(x)), root(Stats.PopulationVariance(y)),
                              root(Stats.PopulationVariance(z)), root(Stats.PopulationVariance(magnitude))];
      features := features + [Stats.Min(magnitude), Stats.Max(magnitude)];
      features := features + [root(Stats.MeanSquare(x)), root(Stats.MeanSquare(y)), root(Stats.MeanSquare(z))];
      var meanX := Stats.Mean(x);
      var zeroCrossings := SignChanges(Signs(x, meanX));
      features := features + [zeroCrossings as real];
      features := features + [Stats.Percentile(magnitude, 1, 4), Stats.Percentile(magnitude, 3, 4)];
      ExtendsGiveVector(Summarize(a, root), features);
      return Success(features);
    }
  }

  // ---------------------------------------------------------------------------
  // Facts about the slots.

  /** Each mean lies between the minimum and maximum of its array. */
  lemma MeansWithinRange(a: AccelData, root: real -> real)
    requires WellFormed(a)
    ensures var s := Summarize(a, root);
      Stats.Min(a.x) <= s.meanX <= Stats.Max(a.x) && Stats.Min(a.y) <= s.meanY <= Stats.Max(a.y) &&
      Stats.Min(a.z) <= s.meanZ <= Stats.Max(a.z) && s.minMagnitude <= s.meanMagnitude <= s.maxMagnitude
  {
    var m := Magnitudes(a, root);
    Stats.MeanWithinRange(a.x);
    Stats.MeanWithinRange(a.y);
    Stats.MeanWithinRange(a.z);
    Stats.MeanWithinRange(m);
  }

  /** With a non-negative root, the four standard deviations are non-negative. */
  lemma DeviationSlotsNonNegative(a: AccelData, root: real -> real)
    requires WellFormed(a)
    requires Stats.RootNonNegative(root)
    ensures var s := Summarize(a, root);
      0.0 <= s.stdX && 0.0 <= s.stdY && 0.0 <= s.stdZ && 0.0 <= s.stdMagnitude
  {
    assert 0.0 <= Stats.PopulationVariance(a.x) && 0.0 <= Stats.PopulationVariance(a.y);
    assert 0.0 <= Stats.PopulationVariance(a.z) && 0.0 <= Stats.PopulationVariance(Magnitudes(a, root));
  }

  /** With a non-negative root, the smallest magnitude and the three RMS values are non-negative. */
  lemma RmsSlotsNonNegative(a: AccelData, root: real -> real)
    requires WellFormed(a)
    requires Stats.RootNonNegative(root)
    ensures var s := Summarize(a, root);
      0.0 <= s.minMagnitude && 0.0 <= s.rmsX && 0.0 <= s.rmsY && 0.0 <= s.rmsZ
  {
    var m := Magnitudes(a, root);
    MagnitudesNonNegative(a, root);
    assert 0.0 <= Stats.MeanSquare(a.x) && 0.0 <= Stats.MeanSquare(a.y) && 0.0 <= Stats.MeanSquare(a.z);
  }
}
