/**
 * The sliding-window idiom shared by the training script and the report
 * script: `for i in range(0, len(g) - window_size + 1, window_size // 2)`
 * followed by the positional slice `g.iloc[i:i+window_size]`.
 * The window size is at least 2, so the step `window_size // 2` is positive
 * (a step of 0 makes Python's `range` raise ValueError).
 */
module Windowing {

  import Stats

  /** The half-window step, window_size // 2. */
  function Step(w: nat): (k: nat)
    requires w >= 2
    ensures 1 <= k && 2 * k <= w
  {
    w / 2
  }

  /** The elements of range(i, n - w + 1, Step(w)): starts from i while start + w <= n. */
  function StartsFrom(i: nat, n: nat, w: nat): seq<nat>
    requires w >= 2
    decreases n - i
  {
    if i + w <= n then [i] + StartsFrom(i + Step(w), n, w) else []
  }

  /** The window starts of a group of n rows. */
  function WindowStarts(n: nat, w: nat): seq<nat>
    requires w >= 2
  {
    StartsFrom(0, n, w)
  }

  /** The windows g[i..i+w] for the starts from i on. */
  function WindowsFrom<T>(g: seq<T>, i: nat, w: nat): seq<seq<T>>
    requires w >= 2
    decreases |g| - i
  {
    if i + w <= |g| then [g[i..i + w]] + WindowsFrom(g, i + Step(w), w) else []
  }

  /**
   * One turn of the loop over the starts: when the windows before start i
   * are done, then after the window at i the windows before the next start
   * are done.
   */
  lemma WindowsFromStep<T>(g: seq<T>, i: nat, next: nat, w: nat, before: seq<seq<T>>, after: seq<seq<T>>)
    requires w >= 2 && i + w <= |g| && next == i + w / 2
    requires before + WindowsFrom(g, i, w) == WindowsFrom(g, 0, w)
    requires after == before + [g[i..i + w]]
    ensures after + WindowsFrom(g, next, w) == WindowsFrom(g, 0, w)
  {
    var rest := WindowsFrom(g, next, w);
    assert WindowsFrom(g, i, w) == [g[i..i + w]] + rest;
    AppendAssociates(before, [g[i..i + w]], rest);
  }

  lemma AppendAssociates<T>(a: seq<T>, b: seq<T>, c: seq<T>)
    ensures (a + b) + c == a + (b + c)
  {
  }

  /** Every window of a group, in start order; each has exactly w elements. */
  function Windows<T>(g: seq<T>, w: nat): (ws: seq<seq<T>>)
    requires w >= 2
    ensures forall k :: 0 <= k < |ws| ==> |ws[k]| == w
  {
    WindowsFromHaveSize(g, 0, w);
    WindowsFrom(g, 0, w)
  }

  lemma DivOfSmall(x: nat, k: nat)
    requires 0 <= x < k
    ensures x / k == 0
  {
  }

  lemma DivSubStep(x: nat, k: nat)
    requires 0 < k <= x
    ensures (x - k) / k == x / k - 1
  {
    var q, r := x / k, x % k;
    assert x == q * k + r;
    assert x - k == (q - 1) * k + r;
    var q', r' := (x - k) / k, (x - k) % k;
    assert x - k == q' * k + r';
    assert (q' - (q - 1)) * k == r - r';
    Stats.MulLessCancel(q' - (q - 1), 1, k);
    Stats.MulLessCancel(-1, q' - (q - 1), k);
  }

  /**
   * The starts from i on are i, i + k, i + 2k, ... with k = Step(w); each
   * leaves room for a whole window, and there are (n - w - i) div k + 1 of
   * them when the first window fits, none otherwise.
   */
  lemma {:induction false} StartsFromArithmetic(i: nat, n: nat, w: nat)
    requires w >= 2
    ensures |StartsFrom(i, n, w)| == if i + w <= n then (n - w - i) / Step(w) + 1 else 0
    ensures forall j :: 0 <= j < |StartsFrom(i, n, w)| ==>
      StartsFrom(i, n, w)[j] == i + j * Step(w) && StartsFrom(i, n, w)[j] + w <= n
    decreases n - i
  {
    var k := Step(w);
    if i + w <= n {
      StartsFromArithmetic(i + k, n, w);
      var rest := StartsFrom(i + k, n, w);
      if i + k + w <= n {
        DivSubStep(n - w - i, k);
      } else {
        DivOfSmall(n - w - i, k);
      }
      forall j | 0 <= j < |StartsFrom(i, n, w)|
        ensures StartsFrom(i, n, w)[j] == i + j * Step(w)
      {
        if j > 0 {
          assert StartsFrom(i, n, w)[j] == rest[j - 1];
          assert (j - 1) * k + k == j * k;
        }
      }
    }
  }

  /**
   * Window starts of a group of n rows are the multiples 0, k, 2k, ... of
   * k = w div 2, every one at most n - w; a group shorter than w has none,
   * and otherwise there are (n - w) div k + 1.
   */
  lemma WindowStartsArithmetic(n: nat, w: nat)
    requires w >= 2
    ensures |WindowStarts(n, w)| == if w <= n then (n - w) / Step(w) + 1 else 0
    ensures forall j :: 0 <= j < |WindowStarts(n, w)| ==>
      WindowStarts(n, w)[j] == j * Step(w) && WindowStarts(n, w)[j] <= n - w
  {
    StartsFromArithmetic(0, n, w);
  }

  /** The windows are exactly the slices of length w at the window starts. */
  lemma {:induction false} WindowsFromAreSlices<T>(g: seq<T>, i: nat, w: nat)
    requires w >= 2
    ensures |WindowsFrom(g, i, w)| == |StartsFrom(i, |g|, w)|
    ensures forall j :: 0 <= j < |WindowsFrom(g, i, w)| ==>
      StartsFrom(i, |g|, w)[j] + w <= |g| &&
      WindowsFrom(g, i, w)[j] == g[StartsFrom(i, |g|, w)[j]..StartsFrom(i, |g|, w)[j] + w]
    decreases |g| - i
  {
    if i + w <= |g| {
      WindowsFromAreSlices(g, i + Step(w), w);
      StartsFromArithmetic(i, |g|, w);
    }
  }

  /**
   * Window j of a group is the slice g[j*k .. j*k + w], k = w div 2; each one
   * has exactly w rows, so the length check that follows the slice in the
   * training script always passes.
   */
  lemma WindowsAreSlices<T>(g: seq<T>, w: nat)
    requires w >= 2
    ensures |Windows(g, w)| == |WindowStarts(|g|, w)|
    ensures forall j :: 0 <= j < |Windows(g, w)| ==>
      j * Step(w) + w <= |g| &&
      Windows(g, w)[j] == g[j * Step(w)..j * Step(w) + w] &&
      |Windows(g, w)[j]| == w
  {
    WindowsFromAreSlices(g, 0, w);
    WindowStartsArithmetic(|g|, w);
    var starts, ws := WindowStarts(|g|, w), Windows(g, w);
    forall j | 0 <= j < |ws|
      ensures j * Step(w) + w <= |g| && ws[j] == g[j * Step(w)..j * Step(w) + w] && |ws[j]| == w
    {
      assert starts[j] == j * Step(w) && starts[j] + w <= |g|;
      assert ws[j] == g[starts[j]..starts[j] + w];
    }
  }

  /** A group with fewer than w rows contributes no window. */
  lemma ShortGroupHasNoWindows<T>(g: seq<T>, w: nat)
    requires w >= 2 && |g| < w
    ensures Windows(g, w) == []
  {
  }

  /** Every window from i on has exactly w elements. */
  lemma {:induction false} WindowsFromHaveSize<T>(g: seq<T>, i: nat, w: nat)
    requires w >= 2
    ensures forall win :: win in WindowsFrom(g, i, w) ==> |win| == w
    decreases |g| - i
  {
    if i + w <= |g| {
      WindowsFromHaveSize(g, i + Step(w), w);
    }
  }

  /**
   * The number of windows of a group: none when it is shorter than w, and
   * (n - w) div k + 1 otherwise, k = w div 2.
   */
  lemma WindowCount<T>(g: seq<T>, w: nat)
    requires w >= 2
    ensures |Windows(g, w)| == if |g| >= w then (|g| - w) / Step(w) + 1 else 0
  {
    WindowsFromAreSlices(g, 0, w);
    WindowStartsArithmetic(|g|, w);
  }

  /** Every element of a window is an element of its group. */
  lemma WindowsStayInGroup<T>(g: seq<T>, w: nat)
    requires w >= 2
    ensures forall j, m :: 0 <= j < |Windows(g, w)| && 0 <= m < |Windows(g, w)[j]| ==> Windows(g, w)[j][m] in g
  {
    WindowsAreSlices(g, w);
    forall j, m | 0 <= j < |Windows(g, w)| && 0 <= m < |Windows(g, w)[j]|
      ensures Windows(g, w)[j][m] in g
    {
      var start := j * Step(w);
      assert Windows(g, w)[j][m] == g[start + m];
    }
  }
}
