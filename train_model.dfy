/**
 * `create_features_from_dataframe` of scripts/train_model.py: the data frame
 * is split by user and then by activity (each in first-appearance order),
 * each group is cut into half-overlapping windows, and every window yields
 * one feature vector and the label of its first row.
 */
module TrainModel {
  import opened Wrappers
  import Windowing
  import FeatureExtractor
  import WisdmProcessor

  type Row = WisdmProcessor.Row

  // ---------------------------------------------------------------------------
  // `Series.unique()` and the boolean-mask filters.

  /**
   * `Series.unique()`: the distinct values of s in the order of their first
   * appearance. Every value of s is kept, and each only once.
   */
  function Unique<T(==,!new)>(s: seq<T>): (u: seq<T>)
    ensures forall x :: x in u <==> x in s
    ensures forall i, j :: 0 <= i < j < |u| ==> u[i] != u[j]
  {
    if s == [] then []
    else
      var init := s[..|s| - 1];
      assert s == init + [s[|s| - 1]];
      var u := Unique(init);
      if s[|s| - 1] in u then u else u + [s[|s| - 1]]
  }

  /** The position of the first occurrence of x in s. */
  function FirstIndex<T(==,!new)>(s: seq<T>, x: T): (i: nat)
    requires x in s
    ensures i < |s| && s[i] == x
    ensures forall k :: 0 <= k < i ==> s[k] != x
  {
    if s[0] == x then 0 else 1 + FirstIndex(s[1..], x)
  }

  /** `unique()` lists the values in the order in which they first occur. */
  lemma {:induction false} UniqueFirstAppearance<T(!new)>(s: seq<T>)
    ensures forall i, j :: 0 <= i < j < |Unique(s)| ==>
      Unique(s)[i] in s && Unique(s)[j] in s &&
      FirstIndex(s, Unique(s)[i]) < FirstIndex(s, Unique(s)[j])
  {
    if s != [] {
      var init, last := s[..|s| - 1], s[|s| - 1];
      assert s == init + [last];
      UniqueFirstAppearance(init);
      var u, u0 := Unique(s), Unique(init);
      forall x | x in init ensures FirstIndex(s, x) == FirstIndex(init, x) {
        var a, b := FirstIndex(s, x), FirstIndex(init, x);
        assert s[b] == x;
      }
      forall i, j | 0 <= i < j < |u|
        ensures u[i] in s && u[j] in s && FirstIndex(s, u[i]) < FirstIndex(s, u[j])
      {
        assert u[i] == u0[i] && u[i] in init;
        if j < |u0| {
          assert u[j] == u0[j] && u[j] in init;
        } else {
          assert u[j] == last && last !in init;
          assert FirstIndex(s, u[j]) == |s| - 1;
        }
      }
    } else {
      assert Unique(s) == [];
    }
  }

  /** The `user` column. */
  function UsersOf(df: seq<Row>): (us: seq<int>)
    ensures |us| == |df| && forall k :: 0 <= k < |df| ==> us[k] == df[k].user
  {
    seq(|df|, k requires 0 <= k < |df| => df[k].user)
  }

  /** The `activity` column. */
  function ActivitiesOf(df: seq<Row>): (acts: seq<string>)
    ensures |acts| == |df| && forall k :: 0 <= k < |df| ==> acts[k] == df[k].activity
  {
    seq(|df|, k requires 0 <= k < |df| => df[k].activity)
  }

  /**
   * `df[df[column] == value]`: the boolean mask of pandas, which keeps the
   * rows of the frame whose column holds the value.
   */
  function Where<K(==)>(df: seq<Row>, column: Row -> K, value: K): (r: seq<Row>)
    ensures |r| <= |df|
    ensures forall k :: 0 <= k < |r| ==> r[k] in df && column(r[k]) == value
  {
    if df == [] then []
    else
      var last := df[|df| - 1];
      Where(df[..|df| - 1], column, value) + (if column(last) == value then [last] else [])
  }

  /** The row itself when its column holds the value, None otherwise. */
  function Matches<K(==)>(column: Row -> K, value: K): Row -> Option<Row>
  {
    (row: Row) => if column(row) == value then Some(row) else None
  }

  lemma {:induction false} WhereCollects<K>(df: seq<Row>, column: Row -> K, value: K)
    ensures Where(df, column, value) == WisdmProcessor.Collect(df, Matches(column, value))
  {
    if df != [] {
      WhereCollects(df[..|df| - 1], column, value);
    }
  }

  /**
   * The mask keeps exactly the rows whose column holds the value, in frame
   * order and with their multiplicity: row k of the result is the frame row
   * at the k-th of the strictly increasing positions whose row matches.
   */
  lemma {:induction false} WhereSpec<K>(df: seq<Row>, column: Row -> K, value: K)
    ensures forall row :: row in Where(df, column, value) <==> row in df && column(row) == value
    ensures var idx := WisdmProcessor.CollectedIndices(df, Matches(column, value));
      |Where(df, column, value)| == |idx| &&
      (forall k :: 0 <= k < |idx| ==> idx[k] < |df| && Where(df, column, value)[k] == df[idx[k]]) &&
      (forall k, l :: 0 <= k < l < |idx| ==> idx[k] < idx[l]) &&
      (forall i :: 0 <= i < |df| ==> (i in idx <==> column(df[i]) == value))
  {
    if df != [] {
      var init := df[..|df| - 1];
      assert df == init + [df[|df| - 1]];
      WhereSpec(init, column, value);
    }
    WhereCollects(df, column, value);
    WisdmProcessor.CollectAtIndices(df, Matches(column, value));
    WisdmProcessor.CollectedIndicesIncreasing(df, Matches(column, value));
    WisdmProcessor.CollectedIndicesExactly(df, Matches(column, value));
  }

  /** The `user` column of a row. */
  function UserOf(row: Row): int
  {
    row.user
  }

  /** The `activity` column of a row. */
  function ActivityOf(row: Row): string
  {
    row.activity
  }

  /** `df[df['user'] == user]`. */
  function WithUser(df: seq<Row>, user: int): seq<Row>
  {
    Where(df, UserOf, user)
  }

  /** `user_data[user_data['activity'] == activity]`. */
  function WithActivity(df: seq<Row>, activity: string): seq<Row>
  {
    Where(df, ActivityOf, activity)
  }

  // ---------------------------------------------------------------------------
  // The windows in the order the three loops visit them.

  /** The windows of one user's rows, activity by activity. */
  function ActivityWindows(userRows: seq<Row>, activities: seq<string>, w: nat): (ws: seq<seq<Row>>)
    requires w >= 2
    ensures AllOfSize(ws, w)
  {
    if activities == [] then []
    else
      ActivityWindows(userRows, activities[..|activities| - 1], w) +
      Windowing.Windows(WithActivity(userRows, activities[|activities| - 1]), w)
  }

  /** The windows of one user. */
  function WindowsOfUser(df: seq<Row>, user: int, w: nat): (ws: seq<seq<Row>>)
    requires w >= 2
    ensures AllOfSize(ws, w)
  {
    var userRows := WithUser(df, user);
    ActivityWindows(userRows, Unique(ActivitiesOf(userRows)), w)
  }

  /** The windows of the given users, user by user. */
  function UserWindows(df: seq<Row>, users: seq<int>, w: nat): (ws: seq<seq<Row>>)
    requires w >= 2
    ensures AllOfSize(ws, w)
  {
    if users == [] then []
    else UserWindows(df, users[..|users| - 1], w) + WindowsOfUser(df, users[|users| - 1], w)
  }

  /**
   * Every window the function cuts from the frame, in the order it appends
   * them; each has exactly w rows.
   */
  function TrainingWindows(df: seq<Row>, w: nat): (ws: seq<seq<Row>>)
    requires w >= 2
    ensures AllOfSize(ws, w)
  {
    UserWindows(df, Unique(UsersOf(df)), w)
  }

  /** `{'x': window['x'].values.tolist(), ...}`. */
  function Axes(window: seq<Row>): (a: FeatureExtractor.AccelData)
    ensures |a.x| == |a.y| == |a.z| == |window|
    ensures forall k :: 0 <= k < |window| ==> a.x[k] == window[k].x && a.y[k] == window[k].y && a.z[k] == window[k].z
  {
    FeatureExtractor.AccelData(
      seq(|window|, k requires 0 <= k < |window| => window[k].x),
      seq(|window|, k requires 0 <= k < |window| => window[k].y),
      seq(|window|, k requires 0 <= k < |window| => window[k].z))
  }

  /** Every window has exactly w rows. */
  predicate AllOfSize(ws: seq<seq<Row>>, w: nat)
  {
    forall k :: 0 <= k < |ws| ==> |ws[k]| == w
  }

  /** The label of each window: the `met_class` of its first row. */
  function Labels(ws: seq<seq<Row>>): (labels: seq<int>)
    requires forall k :: 0 <= k < |ws| ==> |ws[k]| > 0
    ensures |labels| == |ws|
  {
    if ws == [] then [] else Labels(ws[..|ws| - 1]) + [ws[|ws| - 1][0].metClass]
  }

  /** The vector `vec` gives each window, in window order. */
  function VectorsBy(ws: seq<seq<Row>>, vec: seq<Row> -> seq<real>): (vs: seq<seq<real>>)
    ensures |vs| == |ws|
  {
    if ws == [] then [] else VectorsBy(ws[..|ws| - 1], vec) + [vec(ws[|ws| - 1])]
  }

  /** The feature vector `extract_features` returns for a window (no window is empty). */
  function WindowVector(root: real -> real): seq<Row> -> seq<real>
  {
    window => if |window| > 0 then FeatureExtractor.FeatureVector(Axes(window), root) else []
  }

  /**
   * vec agrees with the extractor on every non-empty window. The trigger keeps
   * the extractor's definition out of sight until a window's axes are built.
   */
  ghost predicate Extracts(vec: seq<Row> -> seq<real>, root: real -> real)
  {
    forall window {:trigger Axes(window)} :: |window| > 0 ==>
      vec(window) == FeatureExtractor.FeatureVector(Axes(window), root)
  }

  lemma WindowVectorExtracts(root: real -> real)
    ensures Extracts(WindowVector(root), root)
  {
  }

  /**
   * Entries k of the two lists both belong to window k: its feature vector
   * and the `met_class` of its first row.
   */
  lemma {:induction false} LabelsAndVectorsInLockstep(ws: seq<seq<Row>>, vec: seq<Row> -> seq<real>)
    requires forall k :: 0 <= k < |ws| ==> |ws[k]| > 0
    ensures |VectorsBy(ws, vec)| == |Labels(ws)| == |ws|
    ensures forall k :: 0 <= k < |ws| ==>
      Labels(ws)[k] == ws[k][0].metClass && VectorsBy(ws, vec)[k] == vec(ws[k])
  {
    if ws != [] {
      var init := ws[..|ws| - 1];
      LabelsAndVectorsInLockstep(init, vec);
      forall k | 0 <= k < |init|
        ensures Labels(ws)[k] == ws[k][0].metClass && VectorsBy(ws, vec)[k] == vec(ws[k])
      {
        assert ws[k] == init[k];
      }
    }
  }

  /** The labels and vectors of two runs of windows, one after the other. */
  lemma {:induction false} LabelsAndVectorsAppend(ws0: seq<seq<Row>>, ws1: seq<seq<Row>>,
                                                  vec: seq<Row> -> seq<real>, ws: seq<seq<Row>>)
    requires forall k :: 0 <= k < |ws0| ==> |ws0[k]| > 0
    requires forall k :: 0 <= k < |ws1| ==> |ws1[k]| > 0
    requires ws == ws0 + ws1
    ensures forall k :: 0 <= k < |ws| ==> |ws[k]| > 0
    ensures Labels(ws) == Labels(ws0) + Labels(ws1)
    ensures VectorsBy(ws, vec) == VectorsBy(ws0, vec) + VectorsBy(ws1, vec)
    decreases |ws1|
  {
    if ws1 != [] {
      var init := ws1[..|ws1| - 1];
      assert ws[..|ws| - 1] == ws0 + init;
      LabelsAndVectorsAppend(ws0, init, vec, ws0 + init);
    } else {
      assert ws == ws0;
    }
  }

  /** Appending one window appends its label and its vector, after any earlier lists. */
  lemma LabelsAndVectorsSnoc(ws: seq<seq<Row>>, window: seq<Row>, vec: seq<Row> -> seq<real>, after: seq<seq<Row>>,
                             features0: seq<seq<real>>, labels0: seq<int>)
    requires forall k :: 0 <= k < |ws| ==> |ws[k]| > 0
    requires |window| > 0 && after == ws + [window]
    ensures forall k :: 0 <= k < |after| ==> |after[k]| > 0
    ensures labels0 + Labels(after) == (labels0 + Labels(ws)) + [window[0].metClass]
    ensures features0 + VectorsBy(after, vec) == (features0 + VectorsBy(ws, vec)) + [vec(window)]
  {
    assert after[..|ws|] == ws;
  }

  lemma AllOfSizeSnoc(ws: seq<seq<Row>>, window: seq<Row>, w: nat, after: seq<seq<Row>>)
    requires AllOfSize(ws, w) && |window| == w && after == ws + [window]
    ensures AllOfSize(after, w)
  {
  }

  /**
   * `accel_data` and `extractor.extract_features(accel_data)`: the axes of
   * a window handed to the extractor; the result is the window's feature
   * vector.
   */
  method ExtractWindow(extractor: FeatureExtractor.METFeatureExtractor, window: seq<Row>,
                       root: real -> real, ghost vec: seq<Row> -> seq<real>)
    returns (featureVector: seq<real>)
    requires |window| > 0 && Extracts(vec, root)
    ensures featureVector == vec(window)
  {
    var accelData := Axes(window);
    var r := extractor.ExtractFeatures(accelData, root);
    featureVector := r.value;
  }

  /**
   * The innermost `for i in range(...)` loop over one (user, activity)
   * group: it appends the vector and the label of every window of the group.
   */
  method AppendGroupWindows(activityData: seq<Row>, extractor: FeatureExtractor.METFeatureExtractor,
                            w: nat, root: real -> real, ghost vec: seq<Row> -> seq<real>,
                            features0: seq<seq<real>>, labels0: seq<int>)
    returns (features: seq<seq<real>>, labels: seq<int>)
    requires w >= 2 && Extracts(vec, root)
    ensures AllOfSize(Windowing.Windows(activityData, w), w)
    ensures features == features0 + VectorsBy(Windowing.Windows(activityData, w), vec)
    ensures labels == labels0 + Labels(Windowing.Windows(activityData, w))
  {
    features, labels := features0, labels0;
    ghost var done: seq<seq<Row>> := [];
    var i: nat := 0;
    while i < |activityData| - w + 1
      invariant done + Windowing.WindowsFrom(activityData, i, w) == Windowing.WindowsFrom(activityData, 0, w)
      invariant AllOfSize(done, w)
      invariant features == features0 + VectorsBy(done, vec) && labels == labels0 + Labels(done)
      decreases |activityData| - i
    {
      ghost var start, before := i, done;
      var window := activityData[i..i + w];
      if |window| == w {
        var featureVector := ExtractWindow(extractor, window, root, vec);
        features := features + [featureVector];
        labels := labels + [window[0].metClass];
        done := done + [window];
        AllOfSizeSnoc(before, window, w, done);
        LabelsAndVectorsSnoc(before, window, vec, done, features0, labels0);
      } else {
        // a slice taken while i + w <= |activityData| always has w rows
        assert false;
      }
      i := i + w / 2;
      Windowing.WindowsFromStep(activityData, start, i, w, before, done);
    }
    assert done == Windowing.Windows(activityData, w);
  }

  lemma AllOfSizeAppend(ws0: seq<seq<Row>>, ws1: seq<seq<Row>>, w: nat, ws: seq<seq<Row>>)
    requires AllOfSize(ws0, w) && AllOfSize(ws1, w) && ws == ws0 + ws1
    ensures AllOfSize(ws, w)
  {
  }

  /** After the group of activity v, the windows of the first v + 1 activities are done. */
  lemma ActivityWindowsStep(userRows: seq<Row>, activities: seq<string>, v: nat, w: nat,
                            before: seq<seq<Row>>, previous: seq<seq<Row>>, after: seq<seq<Row>>)
    requires w >= 2 && v < |activities|
    requires previous == before + ActivityWindows(userRows, activities[..v], w)
    requires after == previous + Windowing.Windows(WithActivity(userRows, activities[v]), w)
    ensures after == before + ActivityWindows(userRows, activities[..v + 1], w)
  {
    assert activities[..v + 1][..v] == activities[..v];
  }

  /** After the windows of user u, the windows of the first u + 1 users are done. */
  lemma UserWindowsStep(df: seq<Row>, users: seq<int>, u: nat, w: nat, previous: seq<seq<Row>>, after: seq<seq<Row>>)
    requires w >= 2 && u < |users|
    requires previous == UserWindows(df, users[..u], w)
    requires after == previous + WindowsOfUser(df, users[u], w)
    ensures after == UserWindows(df, users[..u + 1], w)
  {
    assert users[..u + 1][..u] == users[..u];
  }

  /**
   * The middle `for activity in user_data['activity'].unique()` loop over
   * the activities of one user: it appends the vector and the label of every
   * window of the user.
   */
  method AppendUserWindows(df: seq<Row>, user: int, extractor: FeatureExtractor.METFeatureExtractor,
                           w: nat, root: real -> real, ghost vec: seq<Row> -> seq<real>,
                           features0: seq<seq<real>>, labels0: seq<int>)
    returns (features: seq<seq<real>>, labels: seq<int>)
    requires w >= 2 && Extracts(vec, root)
    ensures AllOfSize(WindowsOfUser(df, user, w), w)
    ensures features == features0 + VectorsBy(WindowsOfUser(df, user, w), vec)
    ensures labels == labels0 + Labels(WindowsOfUser(df, user, w))
  {
    features, labels := features0, labels0;
    ghost var ws: seq<seq<Row>> := [];
    var userData := WithUser(df, user);
    var activities := Unique(ActivitiesOf(userData));
    for v := 0 to |activities|
      invariant ws == ActivityWindows(userData, activities[..v], w)
      invariant AllOfSize(ws, w)
      invariant features == features0 + VectorsBy(ws, vec) && labels == labels0 + Labels(ws)
    {
      var activity := activities[v];
      var activityData := WithActivity(userData, activity);
      ghost var group := Windowing.Windows(activityData, w);
      ghost var previous := ws;
      features, labels := AppendGroupWindows(activityData, extractor, w, root, vec, features, labels);
      ws := ws + group;
      AllOfSizeAppend(previous, group, w, ws);
      LabelsAndVectorsAppend(previous, group, vec, ws);
      Windowing.AppendAssociates(features0, VectorsBy(previous, vec), VectorsBy(group, vec));
      Windowing.AppendAssociates(labels0, Labels(previous), Labels(group));
      ActivityWindowsStep(userData, activities, v, w, [], previous, ws);
    }
    assert activities[..|activities|] == activities;
  }

  /**
   * The loops of `create_features_from_dataframe`, with the extractor's
   * vector function named by vec.
   */
  method CollectFeatures(df: seq<Row>, extractor: FeatureExtractor.METFeatureExtractor,
                         w: nat, root: real -> real, ghost vec: seq<Row> -> seq<real>)
    returns (features: seq<seq<real>>, labels: seq<int>)
    requires w >= 2 && Extracts(vec, root)
    ensures AllOfSize(TrainingWindows(df, w), w)
    ensures features == VectorsBy(TrainingWindows(df, w), vec)
    ensures labels == Labels(TrainingWindows(df, w))
  {
    features, labels := [], [];
    ghost var ws: seq<seq<Row>> := [];
    var users := Unique(UsersOf(df));
    for u := 0 to |users|
      invariant ws == UserWindows(df, users[..u], w)
      invariant AllOfSize(ws, w) && features == VectorsBy(ws, vec) && labels == Labels(ws)
    {
      var user := users[u];
      ghost var previous := ws;
      ghost var userWindows := WindowsOfUser(df, user, w);
      features, labels := AppendUserWindows(df, user, extractor, w, root, vec, features, labels);
      ws := ws + userWindows;
      AllOfSizeAppend(previous, userWindows, w, ws);
      LabelsAndVectorsAppend(previous, userWindows, vec, ws);
      UserWindowsStep(df, users, u, w, previous, ws);
    }
    assert users[..|users|] == users;
  }

  /**
   * `create_features_from_dataframe`: the feature vectors and labels of every
   * window, user by user, activity by activity, window by window.
   */
  method CreateFeaturesFromDataframe(df: seq<Row>, extractor: FeatureExtractor.METFeatureExtractor,
                                     root: real -> real, w: nat := 50)
    returns (features: seq<seq<real>>, labels: seq<int>)
    requires w >= 2
    ensures AllOfSize(TrainingWindows(df, w), w)
    ensures features == VectorsBy(TrainingWindows(df, w), WindowVector(root))
    ensures labels == Labels(TrainingWindows(df, w))
  {
    WindowVectorExtracts(root);
    features, labels := CollectFeatures(df, extractor, w, root, WindowVector(root));
  }

  // ---------------------------------------------------------------------------
  // What the windows and the two lists are.

  /** A window of w rows of the frame, all of the user and the activity of its first row. */
  ghost predicate GroupWindow(df: seq<Row>, window: seq<Row>, w: nat)
  {
    |window| == w && w > 0 &&
    forall m :: 0 <= m < |window| ==>
      window[m] in df && window[m].user == window[0].user && window[m].activity == window[0].activity
  }

  ghost predicate GroupWindows(df: seq<Row>, ws: seq<seq<Row>>, w: nat)
  {
    forall k :: 0 <= k < |ws| ==> GroupWindow(df, ws[k], w)
  }

  lemma GroupWindowsAppend(df: seq<Row>, ws0: seq<seq<Row>>, ws1: seq<seq<Row>>, w: nat)
    requires GroupWindows(df, ws0, w) && GroupWindows(df, ws1, w)
    ensures GroupWindows(df, ws0 + ws1, w)
  {
    var ws := ws0 + ws1;
    forall k | 0 <= k < |ws| ensures GroupWindow(df, ws[k], w) {
      if k < |ws0| {
        assert ws[k] == ws0[k];
      } else {
        assert ws[k] == ws1[k - |ws0|];
      }
    }
  }

  /** The windows of rows that all belong to one user and one activity. */
  lemma WindowsOfGroup(df: seq<Row>, g: seq<Row>, w: nat, user: int, activity: string)
    requires w >= 2
    requires forall row :: row in g ==> row in df && row.user == user && row.activity == activity
    ensures GroupWindows(df, Windowing.Windows(g, w), w)
  {
    Windowing.WindowsAreSlices(g, w);
    Windowing.WindowsStayInGroup(g, w);
  }

  lemma {:induction false} ActivityWindowsAreGroupWindows(df: seq<Row>, userRows: seq<Row>, activities: seq<string>,
                                                         w: nat, user: int)
    requires w >= 2
    requires forall row :: row in userRows ==> row in df && row.user == user
    ensures GroupWindows(df, ActivityWindows(userRows, activities, w), w)
  {
    if activities != [] {
      var init, activity := activities[..|activities| - 1], activities[|activities| - 1];
      ActivityWindowsAreGroupWindows(df, userRows, init, w, user);
      var g := WithActivity(userRows, activity);
      WhereSpec(userRows, ActivityOf, activity);
      WindowsOfGroup(df, g, w, user, activity);
      GroupWindowsAppend(df, ActivityWindows(userRows, init, w), Windowing.Windows(g, w), w);
    }
  }

  lemma {:induction false} UserWindowsAreGroupWindows(df: seq<Row>, users: seq<int>, w: nat)
    requires w >= 2
    ensures GroupWindows(df, UserWindows(df, users, w), w)
  {
    if users != [] {
      var init, user := users[..|users| - 1], users[|users| - 1];
      UserWindowsAreGroupWindows(df, init, w);
      var userRows := WithUser(df, user);
      WhereSpec(df, UserOf, user);
      ActivityWindowsAreGroupWindows(df, userRows, Unique(ActivitiesOf(userRows)), w, user);
      GroupWindowsAppend(df, UserWindows(df, init, w), WindowsOfUser(df, user, w), w);
    }
  }

  /**
   * Every window the function cuts has exactly w rows of the frame, all of
   * one user and one activity: the groups are never mixed.
   */
  lemma TrainingWindowsAreGroupWindows(df: seq<Row>, w: nat)
    requires w >= 2
    ensures forall k :: 0 <= k < |TrainingWindows(df, w)| ==> GroupWindow(df, TrainingWindows(df, w)[k], w)
  {
    UserWindowsAreGroupWindows(df, Unique(UsersOf(df)), w);
  }

  /**
   * The two returned lists have one entry per window; entry k of `features`
   * is the extractor's vector of window k and entry k of `labels` is the
   * `met_class` of the window's first row.
   */
  lemma FeaturesAndLabelsInLockstep(df: seq<Row>, w: nat, root: real -> real)
    requires w >= 2
    ensures var ws := TrainingWindows(df, w);
      AllOfSize(ws, w) &&
      |VectorsBy(ws, WindowVector(root))| == |Labels(ws)| == |ws| &&
      forall k :: 0 <= k < |ws| ==>
        Labels(ws)[k] == ws[k][0].metClass &&
        VectorsBy(ws, WindowVector(root))[k] == FeatureExtractor.FeatureVector(Axes(ws[k]), root)
  {
    var ws := TrainingWindows(df, w);
    TrainingWindowsAreGroupWindows(df, w);
    LabelsAndVectorsInLockstep(ws, WindowVector(root));
  }
}
