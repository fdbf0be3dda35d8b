/**
 * MET labelling of the WISDM accelerometer data: the activity -> MET table,
 * the four-band MET ladder, the tolerant line parser used when the CSV
 * reader fails, and the row layout of the synthetic data set.
 */
module WisdmProcessor {

  import opened Wrappers
  import PyStr

  /**
   * A MET value as the `met_value` column holds it: a number, or NaN for
   * an activity that `Series.map` does not find in the table.
   */
  datatype Met = Value(v: real) | NaN

  /** IEEE `<`: a comparison with NaN is false. */
  predicate LessThan(m: Met, bound: real)
  {
    m.Value? && m.v < bound
  }

  /** Class ids, ordered by intensity. */
  const Sedentary: nat := 0
  const Light: nat := 1
  const Moderate: nat := 2
  const Vigorous: nat := 3

  /** The activity -> MET table (Compendium of Physical Activities). */
  const ActivityMet: map<string, real> := map[
    "Walking" := 3.0, "Jogging" := 7.0, "Running" := 8.0, "Upstairs" := 4.0,
    "Downstairs" := 3.5, "Sitting" := 1.0, "Standing" := 1.2, "SlowWalk" := 2.5]

  /** `df['activity'].map(activity_met_mapping)` for one row. */
  function MetOf(activity: string): (m: Met)
    ensures m.NaN? <==> activity !in ActivityMet
  {
    if activity in ActivityMet then Value(ActivityMet[activity]) else NaN
  }

  /** `get_met_class`: the if/elif ladder on the MET value. */
  function GetMetClass(m: Met): (c: nat)
    ensures c <= Vigorous
  {
    if LessThan(m, 1.5) then Sedentary
    else if LessThan(m, 3.0) then Light
    else if LessThan(m, 6.0) then Moderate
    else Vigorous
  }

  /** The class a row of the given activity is labelled with. */
  function ActivityClass(activity: string): (c: nat)
    ensures c <= Vigorous
  {
    GetMetClass(MetOf(activity))
  }

  /**
   * The bands are half-open with inclusive lower bounds:
   * below 1.5, [1.5, 3.0), [3.0, 6.0), and 6.0 or more.
   */
  lemma MetClassBands(v: real)
    ensures GetMetClass(Value(v)) == Sedentary <==> v < 1.5
    ensures GetMetClass(Value(v)) == Light <==> 1.5 <= v < 3.0
    ensures GetMetClass(Value(v)) == Moderate <==> 3.0 <= v < 6.0
    ensures GetMetClass(Value(v)) == Vigorous <==> 6.0 <= v
  {
  }

  /** A higher MET value never gets a lower class. */
  lemma MetClassMonotone(u: real, v: real)
    requires u <= v
    ensures GetMetClass(Value(u)) <= GetMetClass(Value(v))
  {
  }

  /**
   * NaN fails all three tests, so the final else makes the ladder total:
   * an activity missing from the table is labelled vigorous.
   */
  lemma MissingActivityIsVigorous(activity: string)
    requires activity !in ActivityMet
    ensures ActivityClass(activity) == Vigorous
  {
  }

  /**
   * The class of each activity in the table. Standing (1.2 MET) falls below
   * 1.5 and is labelled sedentary, although the comment beside its table
   * entry calls it light.
   */
  lemma ActivityClasses()
    ensures ActivityClass("Sitting") == Sedentary && ActivityClass("Standing") == Sedentary
    ensures ActivityClass("SlowWalk") == Light
    ensures ActivityClass("Walking") == Moderate && ActivityClass("Upstairs") == Moderate
    ensures ActivityClass("Downstairs") == Moderate
    ensures ActivityClass("Jogging") == Vigorous && ActivityClass("Running") == Vigorous
  {
  }

  // ---------------------------------------------------------------------------
  // Labelled rows.

  /** One accelerometer reading of the three axes. */
  datatype Reading = Reading(x: real, y: real, z: real)

  /** A row of the processed data frame (the `met_value` column is folded into `metClass`). */
  datatype Row = Row(user: int, activity: string, timestamp: int, x: real, y: real, z: real, metClass: int)

  /** A row with its `met_class` column filled in from its activity. */
  function Labelled(user: int, activity: string, timestamp: int, r: Reading): (row: Row)
    ensures row.metClass == ActivityClass(activity) && 0 <= row.metClass <= Vigorous
    ensures row.user == user && row.activity == activity && row.timestamp == timestamp
    ensures row.x == r.x && row.y == r.y && row.z == r.z
  {
    Row(user, activity, timestamp, r.x, r.y, r.z, ActivityClass(activity))
  }

  // ---------------------------------------------------------------------------
  // The fallback parser: `line.strip().rstrip(';').split(',')`, kept when it
  // has at least six fields, truncated to the first six.

  /**
   * The fields of a line: none contains a comma, and joined with commas they
   * give back the line without its surrounding whitespace and trailing ';'.
   */
  function Fields(line: string): (f: seq<string>)
    ensures |f| > 0
    ensures forall k :: 0 <= k < |f| ==> ',' !in f[k]
    ensures PyStr.Join(f, ',') == PyStr.StripTrailing(PyStr.Strip(line), ';')
  {
    var cleaned := PyStr.StripTrailing(PyStr.Strip(line), ';');
    PyStr.SplitFieldsAreSeparatorFree(cleaned, ',');
    PyStr.SplitJoinsBack(cleaned, ',');
    PyStr.Split(cleaned, ',')
  }

  /** A line is kept when its split has at least six fields. */
  predicate Kept(line: string)
  {
    |Fields(line)| >= 6
  }

  /** The record a line contributes, if any. */
  function ParseLine(line: string): (r: Option<seq<string>>)
    ensures r.Some? <==> Kept(line)
    ensures r.Some? ==> |r.value| == 6 && r.value == Fields(line)[..6]
  {
    if Kept(line) then Some(Fields(line)[..6]) else None
  }

  /** The values f yields on xs, in order, skipping the elements it maps to None. */
  function Collect<A, B>(xs: seq<A>, f: A -> Option<B>): seq<B>
  {
    if xs == [] then []
    else
      var last := f(xs[|xs| - 1]);
      Collect(xs[..|xs| - 1], f) + (if last.Some? then [last.value] else [])
  }

  /** The indices of the elements on which f yields a value, in increasing order. */
  function CollectedIndices<A, B>(xs: seq<A>, f: A -> Option<B>): seq<nat>
  {
    if xs == [] then []
    else CollectedIndices(xs[..|xs| - 1], f) + (if f(xs[|xs| - 1]).Some? then [|xs| - 1] else [])
  }

  /** The records of the lines, in line order: one per kept line, each of six fields. */
  function ParsedRecords(lines: seq<string>): (records: seq<seq<string>>)
    ensures |records| == |CollectedIndices(lines, ParseLine)|
    ensures forall k :: 0 <= k < |records| ==> |records[k]| == 6
  {
    CollectAtIndices(lines, ParseLine);
    Collect(lines, ParseLine)
  }

  /** The indices of the lines that yield a record. */
  function KeptLines(lines: seq<string>): seq<nat>
  {
    CollectedIndices(lines, ParseLine)
  }

  /** The fallback parser's `for line in f` loop over the lines read from the file. */
  method ParseFallback(lines: seq<string>) returns (data: seq<seq<string>>)
    ensures data == ParsedRecords(lines)
    ensures forall k :: 0 <= k < |data| ==> |data[k]| == 6
  {
    data := [];
    for n := 0 to |lines|
      invariant data == ParsedRecords(lines[..n])
      invariant forall k :: 0 <= k < |data| ==> |data[k]| == 6
    {
      var parts := Fields(lines[n]);
      ParsedRecordsStep(lines, n);
      if |parts| >= 6 {
        data := data + [parts[..6]];
      }
    }
    assert lines[..|lines|] == lines;
  }

  /** One more line adds its record, if it yields one. */
  lemma ParsedRecordsStep(lines: seq<string>, n: nat)
    requires n < |lines|
    ensures ParsedRecords(lines[..n + 1]) ==
      ParsedRecords(lines[..n]) + (if Kept(lines[n]) then [Fields(lines[n])[..6]] else [])
  {
    assert lines[..n + 1][..n] == lines[..n];
  }

  /** Element k of Collect is f's value on the k-th collected index. */
  lemma {:induction false} CollectAtIndices<A, B>(xs: seq<A>, f: A -> Option<B>)
    ensures |Collect(xs, f)| == |CollectedIndices(xs, f)|
    ensures forall k :: 0 <= k < |CollectedIndices(xs, f)| ==>
      CollectedIndices(xs, f)[k] < |xs| && f(xs[CollectedIndices(xs, f)[k]]).Some? &&
      Collect(xs, f)[k] == f(xs[CollectedIndices(xs, f)[k]]).value
  {
    if xs != [] {
      var n := |xs| - 1;
      var init := xs[..n];
      CollectAtIndices(init, f);
      var idx, out := CollectedIndices(xs, f), Collect(xs, f);
      var idx0, out0 := CollectedIndices(init, f), Collect(init, f);
      forall k | 0 <= k < |idx|
        ensures idx[k] < |xs| && f(xs[idx[k]]).Some? && out[k] == f(xs[idx[k]]).value
      {
        if k < |idx0| {
          assert idx[k] == idx0[k] && out[k] == out0[k];
          assert xs[idx0[k]] == init[idx0[k]];
        }
      }
    }
  }

  /** The collected indices are strictly increasing and below |xs|. */
  lemma {:induction false} CollectedIndicesIncreasing<A, B>(xs: seq<A>, f: A -> Option<B>)
    ensures forall k :: 0 <= k < |CollectedIndices(xs, f)| ==> CollectedIndices(xs, f)[k] < |xs|
    ensures forall k, l :: 0 <= k < l < |CollectedIndices(xs, f)| ==>
      CollectedIndices(xs, f)[k] < CollectedIndices(xs, f)[l]
  {
    if xs != [] {
      CollectedIndicesIncreasing(xs[..|xs| - 1], f);
    }
  }

  /** An index is collected exactly when f yields a value there. */
  lemma {:induction false} CollectedIndicesExactly<A, B>(xs: seq<A>, f: A -> Option<B>)
    ensures forall i :: 0 <= i < |xs| ==> (i in CollectedIndices(xs, f) <==> f(xs[i]).Some?)
  {
    if xs != [] {
      var n := |xs| - 1;
      var init := xs[..n];
      CollectedIndicesExactly(init, f);
      CollectedIndicesIncreasing(init, f);
      forall i | 0 <= i < |xs| ensures i in CollectedIndices(xs, f) <==> f(xs[i]).Some? {
        if i < n {
          assert xs[i] == init[i];
        } else {
          assert n !in CollectedIndices(init, f);
        }
      }
    }
  }

  /**
   * The records are exactly the first six fields of the lines that have at
   * least six, in file-line order: a line is dropped only when it is short,
   * and no record is invented.
   */
  lemma ParsedRecordsOrigin(lines: seq<string>)
    ensures |ParsedRecords(lines)| == |KeptLines(lines)|
    ensures forall k :: 0 <= k < |KeptLines(lines)| ==>
      KeptLines(lines)[k] < |lines| && |Fields(lines[KeptLines(lines)[k]])| >= 6 &&
      ParsedRecords(lines)[k] == Fields(lines[KeptLines(lines)[k]])[..6]
    ensures forall k, l :: 0 <= k < l < |KeptLines(lines)| ==> KeptLines(lines)[k] < KeptLines(lines)[l]
    ensures forall i :: 0 <= i < |lines| ==> (i in KeptLines(lines) <==> |Fields(lines[i])| >= 6)
  {
    CollectAtIndices(lines, ParseLine);
    CollectedIndicesIncreasing(lines, ParseLine);
    CollectedIndicesExactly(lines, ParseLine);
  }

  // ---------------------------------------------------------------------------
  // The synthetic data set: 7 activities x 10 users x 100 sessions.

  const SyntheticActivities: seq<string> :=
    ["Sitting", "Standing", "SlowWalk", "Walking", "Jogging", "Upstairs", "Downstairs"]
  const Users: nat := 10
  const Sessions: nat := 100
  const SyntheticRowCount: nat := 7 * 10 * 100

  /**
   * Row k of the synthetic data: activity k div 1000, user (k div 100) mod 10 + 1,
   * timestamp k mod 100; its reading is the k-th draw of the random source.
   */
  function SyntheticRowAt(k: nat, noise: nat -> Reading): (row: Row)
    requires k < SyntheticRowCount
    ensures 1 <= row.user <= Users && 0 <= row.timestamp < Sessions
    ensures row.activity in SyntheticActivities && row.activity in ActivityMet
    ensures row.metClass == ActivityClass(row.activity) <= Vigorous
    ensures row.x == noise(k).x && row.y == noise(k).y && row.z == noise(k).z
  {
    Labelled((k / 100) % 10 + 1, SyntheticActivities[k / 1000], k % 100, noise(k))
  }

  /** Where the loops put the row of (activity index a, user, session). */
  function SyntheticIndexOf(a: nat, user: nat, session: nat): nat
    requires 1 <= user
  {
    a * 1000 + (user - 1) * 100 + session
  }

  lemma SyntheticIndex(a: nat, user: nat, session: nat)
    requires a < 7 && 1 <= user <= 10 && session < 100
    ensures var k := SyntheticIndexOf(a, user, session);
      k < SyntheticRowCount && k / 1000 == a && (k / 100) % 10 + 1 == user && k % 100 == session
  {
    var k := SyntheticIndexOf(a, user, session);
    assert k / 100 == a * 10 + (user - 1);
  }

  /**
   * `create_synthetic_data` without its random values: the triple loop over
   * activity, then user, then session; noise(k) stands for the three normal
   * draws of row k.
   */
  method CreateSyntheticData(noise: nat -> Reading) returns (rows: seq<Row>)
    ensures |rows| == SyntheticRowCount
    ensures forall k :: 0 <= k < |rows| ==> rows[k] == SyntheticRowAt(k, noise)
  {
    rows := [];
    for a := 0 to |SyntheticActivities|
      invariant |rows| == a * 1000
      invariant forall k :: 0 <= k < |rows| ==> rows[k] == SyntheticRowAt(k, noise)
    {
      var activity := SyntheticActivities[a];
      for user := 1 to Users + 1
        invariant |rows| == a * 1000 + (user - 1) * 100
        invariant forall k :: 0 <= k < |rows| ==> rows[k] == SyntheticRowAt(k, noise)
      {
        for session := 0 to Sessions
          invariant |rows| == a * 1000 + (user - 1) * 100 + session
          invariant forall k :: 0 <= k < |rows| ==> rows[k] == SyntheticRowAt(k, noise)
        {
          SyntheticIndex(a, user, session);
          assert |rows| == SyntheticIndexOf(a, user, session);
          rows := rows + [Labelled(user, activity, session, noise(|rows|))];
        }
      }
    }
  }

  /**
   * Every synthetic row has a user in 1..10, a timestamp equal to a session
   * number 0..99 and an activity from the seven-name list (so never
   * "Running"), labelled from the table; the row for (activity a, user u,
   * session s) sits at index a*1000 + (u-1)*100 + s.
   */
  lemma SyntheticShape(noise: nat -> Reading)
    ensures forall k :: 0 <= k < SyntheticRowCount ==>
      var row := SyntheticRowAt(k, noise);
      1 <= row.user <= Users && 0 <= row.timestamp < Sessions &&
      row.activity in SyntheticActivities && row.activity != "Running" &&
      row.activity in ActivityMet && row.metClass == ActivityClass(row.activity)
    ensures forall a, u, s :: 0 <= a < 7 && 1 <= u <= 10 && 0 <= s < 100 ==>
      SyntheticIndexOf(a, u, s) < SyntheticRowCount &&
      var row := SyntheticRowAt(SyntheticIndexOf(a, u, s), noise);
      row.activity == SyntheticActivities[a] && row.user == u && row.timestamp == s
  {
    forall a, u, s | 0 <= a < 7 && 1 <= u <= 10 && 0 <= s < 100
      ensures SyntheticIndexOf(a, u, s) < SyntheticRowCount &&
        var row := SyntheticRowAt(SyntheticIndexOf(a, u, s), noise);
        row.activity == SyntheticActivities[a] && row.user == u && row.timestamp == s
    {
      SyntheticIndex(a, u, s);
    }
  }

  /** Rows are labelled only with classes 0..3, and every class occurs. */
  lemma SyntheticClasses(noise: nat -> Reading)
    ensures forall k :: 0 <= k < SyntheticRowCount ==> SyntheticRowAt(k, noise).metClass <= Vigorous
    ensures SyntheticRowAt(0, noise).metClass == Sedentary
    ensures SyntheticRowAt(2000, noise).metClass == Light
    ensures SyntheticRowAt(3000, noise).metClass == Moderate
    ensures SyntheticRowAt(4000, noise).metClass == Vigorous
  {
    ActivityClasses();
  }
}
