/**
 * What the window loop of `extract_features_with_windowing` guarantees: the
 * window starts march from t0 in steps of the window width, the emitted
 * windows are the non-empty ones, in ascending order and pairwise disjoint,
 * every event below t1 lands in exactly one of them, and an event sitting on
 * t1 at an exact window boundary lands in none; the whole pipeline fails
 * exactly on an empty or single-instant stream (no rows to concatenate) and
 * on a non-positive width (a cursor that never moves).
 */
module WindowingProperties {
  import opened Wrappers
  import opened Sorting
  import opened FeatureExtract
  import opened Windowing

  /** The i-th start lies i widths past `lo`. */
  ghost predicate OnGrid(starts: seq<real>, lo: real, w: real)
  {
    forall i :: 0 <= i < |starts| ==> starts[i] == lo + (i as real) * w
  }

  /** Any two starts, in order, lie at least one width apart. */
  ghost predicate Spread(starts: seq<real>, w: real)
  {
    forall i, j :: 0 <= i < j < |starts| ==> starts[i] + w <= starts[j]
  }

  /** Each window holds exactly the stream rows of [start, start + w). */
  ghost predicate ExactWindows(s: seq<LabeledEvent>, segs: seq<Segment>, w: real)
  {
    forall j :: 0 <= j < |segs| ==> segs[j].events == Window(s, segs[j].start, segs[j].start + w)
  }

  /** Each window starts at one of `starts`. */
  ghost predicate StartsAmong(segs: seq<Segment>, starts: seq<real>)
  {
    forall j :: 0 <= j < |segs| ==> segs[j].start in starts
  }

  /** Window starts ascend, at least one width apart. */
  ghost predicate Ascending(segs: seq<Segment>, w: real)
  {
    forall i, j :: 0 <= i < j < |segs| ==> segs[i].start + w <= segs[j].start
  }

  /** Every start whose window is non-empty starts one of the windows. */
  ghost predicate KeepsNonEmpty(s: seq<LabeledEvent>, segs: seq<Segment>, starts: seq<real>, w: real)
  {
    forall i :: 0 <= i < |starts| && Window(s, starts[i], starts[i] + w) != [] ==>
      exists j :: 0 <= j < |segs| && segs[j].start == starts[i]
  }

  /** No row lies in two windows. */
  ghost predicate Disjoint(segs: seq<Segment>)
  {
    forall i, j, r :: 0 <= i < j < |segs| && r in segs[i].events ==> r !in segs[j].events
  }

  /** Every stream row stamped in [t0, t1) lies in some window. */
  ghost predicate Covers(s: seq<LabeledEvent>, segs: seq<Segment>, t0: real, t1: real)
  {
    forall r :: r in s && t0 <= Time(r) < t1 ==> exists j :: 0 <= j < |segs| && r in segs[j].events
  }

  // ---------------------------------------------------------------------------
  // Window starts

  /** The window starts are lo, lo + w, lo + 2w, ... */
  lemma StartsArithmetic(lo: real, t1: real, w: real)
    requires w > 0.0
    ensures OnGrid(WindowStarts(lo, t1, w), lo, w)
  {
    WindowStartsFacts(lo, t1, w);
    GridFromSteps(WindowStarts(lo, t1, w), lo, w);
  }

  /** A sequence that starts at `lo` and grows by `w` at each step is on the grid of `lo` and `w`. */
  lemma {:induction false} GridFromSteps(r: seq<real>, lo: real, w: real)
    requires |r| > 0 ==> r[0] == lo
    requires forall i :: 0 <= i < |r| - 1 ==> r[i + 1] == r[i] + w
    ensures OnGrid(r, lo, w)
  {
    if |r| > 1 {
      var n := |r| - 1;
      GridFromSteps(r[..n], lo, w);
      assert r[n - 1] == r[..n][n - 1];
      OneMoreWidth(n, w);
    }
  }

  /** Window starts are at least one width apart, so they strictly ascend. */
  lemma {:induction false} StartsSpread(lo: real, t1: real, w: real)
    requires w > 0.0
    ensures Spread(WindowStarts(lo, t1, w), w)
    decreases |WindowStarts(lo, t1, w)|
  {
    if lo < t1 {
      StartsSpread(lo + w, t1, w);
      WindowStartsFacts(lo + w, t1, w);
      var r := WindowStarts(lo, t1, w);
      var rest := WindowStarts(lo + w, t1, w);
      assert r == [lo] + rest;
      forall i, j | 0 <= i < j < |r| ensures r[i] + w <= r[j] {
        if i == 0 {
          assert r[j] == rest[j - 1] && rest[0] == lo + w;
          assert j - 1 == 0 || rest[0] + w <= rest[j - 1];
        } else {
          assert r[i] == rest[i - 1] && r[j] == rest[j - 1];
        }
      }
    }
  }

  /** Every instant in [lo, t1) falls into the window of some start; `i` is its index. */
  lemma {:induction false} StartsCover(lo: real, t1: real, w: real, x: real) returns (i: nat)
    requires w > 0.0 && lo <= x < t1
    ensures i < |WindowStarts(lo, t1, w)|
    ensures WindowStarts(lo, t1, w)[i] <= x < WindowStarts(lo, t1, w)[i] + w
    decreases |WindowStarts(lo, t1, w)|
  {
    var r := WindowStarts(lo, t1, w);
    var rest := WindowStarts(lo + w, t1, w);
    assert r == [lo] + rest;
    if x >= lo + w {
      var k := StartsCover(lo + w, t1, w, x);
      i := k + 1;
      assert r[i] == rest[k];
    } else {
      i := 0;
    }
  }

  // ---------------------------------------------------------------------------
  // Emitted windows

  /** The windows kept from the first `k` starts hold exactly the rows of their intervals. */
  lemma {:induction false} UpToExact(s: seq<LabeledEvent>, starts: seq<real>, k: nat, w: real)
    requires k <= |starts|
    ensures ExactWindows(s, SegmentsUpTo(s, starts, k, w), w)
  {
    if k > 0 {
      UpToExact(s, starts, k - 1, w);
      var before := SegmentsUpTo(s, starts, k - 1, w);
      var lo := starts[k - 1];
      var win := Window(s, lo, lo + w);
      if win != [] {
        assert SegmentsUpTo(s, starts, k, w) == before + [Segment(lo, win)];
      }
    }
  }

  /** The windows kept from the first `k` starts each start at one of them. */
  lemma {:induction false} UpToStarts(s: seq<LabeledEvent>, starts: seq<real>, k: nat, w: real)
    requires k <= |starts|
    ensures StartsAmong(SegmentsUpTo(s, starts, k, w), starts[..k])
  {
    if k > 0 {
      UpToStarts(s, starts, k - 1, w);
      assert starts[..k] == starts[..k - 1] + [starts[k - 1]];
    }
  }

  /** The windows kept from spread starts ascend at least one width apart. */
  lemma {:induction false} UpToAscending(s: seq<LabeledEvent>, starts: seq<real>, k: nat, w: real)
    requires k <= |starts| && Spread(starts, w)
    ensures Ascending(SegmentsUpTo(s, starts, k, w), w)
  {
    if k > 0 {
      UpToAscending(s, starts, k - 1, w);
      UpToStarts(s, starts, k - 1, w);
      var before := SegmentsUpTo(s, starts, k - 1, w);
      var lo := starts[k - 1];
      forall j | 0 <= j < |before| ensures before[j].start + w <= lo {
        var p :| 0 <= p < k - 1 && starts[..k - 1][p] == before[j].start;
      }
    }
  }

  /** Every one of the first `k` starts whose window is non-empty starts a kept window. */
  lemma {:induction false} UpToKeeps(s: seq<LabeledEvent>, starts: seq<real>, k: nat, w: real)
    requires k <= |starts|
    ensures KeepsNonEmpty(s, SegmentsUpTo(s, starts, k, w), starts[..k], w)
  {
    if k > 0 {
      UpToKeeps(s, starts, k - 1, w);
      var before := SegmentsUpTo(s, starts, k - 1, w);
      var lo := starts[k - 1];
      var win := Window(s, lo, lo + w);
      var segs := SegmentsUpTo(s, starts, k, w);
      forall i | 0 <= i < k && Window(s, starts[..k][i], starts[..k][i] + w) != []
        ensures exists j :: 0 <= j < |segs| && segs[j].start == starts[..k][i]
      {
        if i < k - 1 {
          assert starts[..k][i] == starts[..k - 1][i];
          var j :| 0 <= j < |before| && before[j].start == starts[..k - 1][i];
          assert segs[j] == before[j];
        } else {
          assert segs == before + [Segment(lo, win)];
          assert segs[|before|].start == lo;
        }
      }
    }
  }

  /**
   * The windows of the loop from t0 to t1: each is non-empty and holds
   * exactly the rows of [start, start + w); each starts at one of the
   * cursor positions t0, t0 + w, ... below t1; the starts ascend at least
   * one width apart; every cursor position whose window is non-empty gives
   * a window; no row lies in two windows; and every row stamped in [t0, t1)
   * lies in one.
   */
  lemma SegmentsShape(s: seq<LabeledEvent>, t0: real, t1: real, w: real)
    requires w > 0.0
    ensures ExactWindows(s, Segments(s, t0, t1, w), w)
    ensures StartsAmong(Segments(s, t0, t1, w), WindowStarts(t0, t1, w))
    ensures Ascending(Segments(s, t0, t1, w), w)
    ensures KeepsNonEmpty(s, Segments(s, t0, t1, w), WindowStarts(t0, t1, w), w)
    ensures Disjoint(Segments(s, t0, t1, w))
    ensures Covers(s, Segments(s, t0, t1, w), t0, t1)
  {
    var starts := WindowStarts(t0, t1, w);
    var segs := Segments(s, t0, t1, w);
    StartsSpread(t0, t1, w);
    UpToExact(s, starts, |starts|, w);
    UpToStarts(s, starts, |starts|, w);
    UpToAscending(s, starts, |starts|, w);
    UpToKeeps(s, starts, |starts|, w);
    assert starts[..|starts|] == starts;
    DisjointFromAscending(s, segs, w);
    CoversFromKeeps(s, segs, t0, t1, w);
  }

  /** Windows of the same width that ascend one width apart share no row. */
  lemma DisjointFromAscending(s: seq<LabeledEvent>, segs: seq<Segment>, w: real)
    requires ExactWindows(s, segs, w) && Ascending(segs, w)
    ensures Disjoint(segs)
  {
    forall i, j, r | 0 <= i < j < |segs| && r in segs[i].events ensures r !in segs[j].events {
      WindowMembers(s, segs[i].start, segs[i].start + w);
      WindowMembers(s, segs[j].start, segs[j].start + w);
    }
  }

  /** When every non-empty window of the cursor positions is kept, every row in [t0, t1) is in one. */
  lemma CoversFromKeeps(s: seq<LabeledEvent>, segs: seq<Segment>, t0: real, t1: real, w: real)
    requires w > 0.0
    requires ExactWindows(s, segs, w) && KeepsNonEmpty(s, segs, WindowStarts(t0, t1, w), w)
    ensures Covers(s, segs, t0, t1)
  {
    var starts := WindowStarts(t0, t1, w);
    forall r | r in s && t0 <= Time(r) < t1 ensures exists j :: 0 <= j < |segs| && r in segs[j].events {
      var p := StartsCover(t0, t1, w, Time(r));
      WindowMembers(s, starts[p], starts[p] + w);
      var j :| 0 <= j < |segs| && segs[j].start == starts[p];
    }
  }

  /** The cursor positions are t0, t0 + w, ..., all in [t0, t1). */
  lemma StartsInRange(t0: real, t1: real, w: real)
    requires w > 0.0
    ensures OnGrid(WindowStarts(t0, t1, w), t0, w)
    ensures forall x :: x in WindowStarts(t0, t1, w) ==> t0 <= x < t1
  {
    StartsArithmetic(t0, t1, w);
    StartsSpread(t0, t1, w);
    WindowStartsFacts(t0, t1, w);
    var starts := WindowStarts(t0, t1, w);
    forall x | x in starts ensures t0 <= x < t1 {
      var p :| 0 <= p < |starts| && starts[p] == x;
      assert p == 0 || starts[0] + w <= starts[p];
    }
  }

  /**
   * When t1 lies n whole widths past t0 the cursor visits exactly n
   * positions, and the last window ends exactly at t1.
   */
  lemma {:induction false} GridSteps(t0: real, t1: real, w: real, n: nat)
    requires w > 0.0 && n >= 1 && t1 == t0 + (n as real) * w
    ensures |WindowStarts(t0, t1, w)| == n
    ensures WindowStarts(t0, t1, w)[n - 1] + w == t1
    decreases n
  {
    OneMoreWidth(n, w);
    assert t0 < t1 by {
      assert ((n - 1) as real) * w >= 0.0;
    }
    var rest := WindowStarts(t0 + w, t1, w);
    assert WindowStarts(t0, t1, w) == [t0] + rest;
    if n > 1 {
      GridSteps(t0 + w, t1, w, n - 1);
    }
  }

  /**
   * The loop stops as soon as the cursor reaches t1, so when t1 lies a whole
   * number of widths past t0 a row stamped exactly t1 is in no window.
   */
  lemma BoundaryRowDropped(s: seq<LabeledEvent>, t0: real, t1: real, w: real, n: nat, r: LabeledEvent)
    requires w > 0.0 && t1 == t0 + (n as real) * w && Time(r) == t1
    ensures forall j :: 0 <= j < |Segments(s, t0, t1, w)| ==> r !in Segments(s, t0, t1, w)[j].events
  {
    var starts := WindowStarts(t0, t1, w);
    if n == 0 {
      assert starts == [];
    } else {
      GridSteps(t0, t1, w, n);
      StartsSpread(t0, t1, w);
      UpToExact(s, starts, |starts|, w);
      UpToStarts(s, starts, |starts|, w);
      assert starts[..|starts|] == starts;
      EndsByLastWindow(s, Segments(s, t0, t1, w), starts, w, r);
    }
  }

  /** Windows starting at spread starts all end by the end of the last one, so they miss a row stamped there. */
  lemma EndsByLastWindow(s: seq<LabeledEvent>, segs: seq<Segment>, starts: seq<real>, w: real,
                         r: LabeledEvent)
    requires |starts| > 0 && Time(r) == starts[|starts| - 1] + w
    requires ExactWindows(s, segs, w) && StartsAmong(segs, starts) && Spread(starts, w)
    ensures forall j :: 0 <= j < |segs| ==> r !in segs[j].events
  {
    forall j | 0 <= j < |segs| ensures r !in segs[j].events {
      var p :| 0 <= p < |starts| && starts[p] == segs[j].start;
      assert p == |starts| - 1 || starts[p] + w <= starts[|starts| - 1];
      WindowMembers(s, segs[j].start, segs[j].start + w);
    }
  }

  lemma OneMoreWidth(i: int, w: real)
    ensures w + ((i - 1) as real) * w == (i as real) * w
  {
  }

  // ---------------------------------------------------------------------------
  // The whole pipeline

  /** Every row of the stream carries the same timestamp. */
  ghost predicate SameInstant(stream: seq<LabeledEvent>)
  {
    forall i, j :: 0 <= i < |stream| && 0 <= j < |stream| ==> Time(stream[i]) == Time(stream[j])
  }

  /** The smallest and largest timestamps of a reordering coincide exactly when all timestamps do. */
  lemma SpanIsZeroIffSameInstant(stream: seq<LabeledEvent>, s: seq<LabeledEvent>)
    requires |s| > 0 && multiset(s) == multiset(stream)
    ensures MinOf(Times(s)) == MaxOf(Times(s)) <==> SameInstant(stream)
  {
    var t0, t1 := MinOf(Times(s)), MaxOf(Times(s));
    assert forall r :: r in s <==> r in stream by {
      assert forall r :: r in s <==> r in multiset(s);
      assert forall r :: r in stream <==> r in multiset(stream);
    }
    if t0 == t1 {
      forall i, j | 0 <= i < |stream| && 0 <= j < |stream| ensures Time(stream[i]) == Time(stream[j]) {
        InSpan(s, stream[i]);
        InSpan(s, stream[j]);
      }
    }
    if SameInstant(stream) {
      var a :| 0 <= a < |s| && Times(s)[a] == t0;
      var b :| 0 <= b < |s| && Times(s)[b] == t1;
      assert s[a] in stream && s[b] in stream;
      var i :| 0 <= i < |stream| && stream[i] == s[a];
      var j :| 0 <= j < |stream| && stream[j] == s[b];
    }
  }

  /** A row of a non-empty stream lies between its smallest and largest timestamps. */
  lemma InSpan(s: seq<LabeledEvent>, r: LabeledEvent)
    requires r in s
    ensures MinOf(Times(s)) <= Time(r) <= MaxOf(Times(s))
  {
    var a :| 0 <= a < |s| && s[a] == r;
    assert Times(s)[a] == Time(r);
  }

  /** The window at t0 holds the earliest row, so a stream with t0 < t1 yields at least one window. */
  lemma FirstWindowKept(s: seq<LabeledEvent>, t0: real, t1: real, w: real)
    requires w > 0.0 && t0 < t1
    requires exists r :: r in s && Time(r) == t0
    ensures |Segments(s, t0, t1, w)| > 0
  {
    var r :| r in s && Time(r) == t0;
    var starts := WindowStarts(t0, t1, w);
    WindowStartsFacts(t0, t1, w);
    assert Window(s, starts[0], starts[0] + w) != [] by {
      WindowMembers(s, t0, t0 + w);
      assert r in Window(s, starts[0], starts[0] + w);
    }
    assert KeepsNonEmpty(s, Segments(s, t0, t1, w), starts, w) by {
      UpToKeeps(s, starts, |starts|, w);
      assert starts[..|starts|] == starts;
    }
  }

  /**
   * How `extract_features_with_windowing` ends: the empty concatenation
   * error exactly when the stream is empty or all its timestamps are equal,
   * a loop that never ends exactly when the timestamps differ and the width
   * is not positive, and rows otherwise.
   */
  lemma WindowedOutcome(stream: seq<LabeledEvent>, hasLabels: bool, w: real,
                        extract: seq<Event> --> FeatureVector)
    requires ExtractsBatches(extract)
    ensures Windowed(stream, hasLabels, w, extract) == Err(NoObjectsToConcatenate)
            <==> stream == [] || SameInstant(stream)
    ensures Windowed(stream, hasLabels, w, extract) == Err(NeverTerminates)
            <==> stream != [] && !SameInstant(stream) && w <= 0.0
    ensures Windowed(stream, hasLabels, w, extract).Ok?
            <==> stream != [] && !SameInstant(stream) && w > 0.0
  {
    SortedOutcome(stream, SortBy(stream, Time), hasLabels, w, extract);
  }

  /** The outcome, for any reordering `s` of the stream. */
  lemma SortedOutcome(stream: seq<LabeledEvent>, s: seq<LabeledEvent>, hasLabels: bool, w: real,
                      extract: seq<Event> --> FeatureVector)
    requires ExtractsBatches(extract) && multiset(s) == multiset(stream)
    ensures WindowedSorted(s, hasLabels, w, extract) == Err(NoObjectsToConcatenate)
            <==> stream == [] || SameInstant(stream)
    ensures WindowedSorted(s, hasLabels, w, extract) == Err(NeverTerminates)
            <==> stream != [] && !SameInstant(stream) && w <= 0.0
    ensures WindowedSorted(s, hasLabels, w, extract).Ok?
            <==> stream != [] && !SameInstant(stream) && w > 0.0
  {
    assert |s| == |stream| by {
      assert |multiset(s)| == |multiset(stream)|;
    }
    if stream != [] {
      var t0, t1 := MinOf(Times(s)), MaxOf(Times(s));
      SpanIsZeroIffSameInstant(stream, s);
      InSpan(s, s[0]);
      if t0 < t1 && w > 0.0 {
        var a :| 0 <= a < |s| && Times(s)[a] == t0;
        assert s[a] in s && Time(s[a]) == t0;
        FirstWindowKept(s, t0, t1, w);
      }
    }
  }

  /**
   * `rows` are the rows of the non-empty windows of `s` at `starts`: each
   * row sits at one of the starts, its window is non-empty and the row holds
   * the extractor's features of that window, its majority label when the
   * stream is labelled, and its start; the rows ascend at least one width
   * apart; and every start with a non-empty window has a row.
   */
  ghost predicate RowsOfWindows(rows: seq<WindowRow>, s: seq<LabeledEvent>, starts: seq<real>, w: real,
                                hasLabels: bool, extract: seq<Event> --> FeatureVector)
    requires ExtractsBatches(extract)
  {
    RowsMatchWindows(rows, s, starts, w, hasLabels, extract)
    && RowsAscend(rows, w)
    && RowsForNonEmpty(rows, s, starts, w)
  }

  ghost predicate RowsMatchWindows(rows: seq<WindowRow>, s: seq<LabeledEvent>, starts: seq<real>, w: real,
                                   hasLabels: bool, extract: seq<Event> --> FeatureVector)
    requires ExtractsBatches(extract)
  {
    forall j :: 0 <= j < |rows| ==> RowMatchesWindow(rows[j], s, starts, w, hasLabels, extract)
  }

  /**
   * `row` sits at one of `starts`, its window is non-empty, and it holds the
   * extractor's features and, when labelled, the majority label of that window.
   */
  ghost predicate RowMatchesWindow(row: WindowRow, s: seq<LabeledEvent>, starts: seq<real>, w: real,
                                   hasLabels: bool, extract: seq<Event> --> FeatureVector)
    requires ExtractsBatches(extract)
  {
    var win := Window(s, row.startTime, row.startTime + w);
    && row.startTime in starts
    && win != []
    && row.features == extract(Events(win))
    && row.isIllegal == (if hasLabels then Some(Mode(Labels(win))) else None)
  }

  ghost predicate RowsAscend(rows: seq<WindowRow>, w: real)
  {
    forall i, j :: 0 <= i < j < |rows| ==> rows[i].startTime + w <= rows[j].startTime
  }

  ghost predicate RowsForNonEmpty(rows: seq<WindowRow>, s: seq<LabeledEvent>, starts: seq<real>, w: real)
  {
    forall i :: 0 <= i < |starts| && Window(s, starts[i], starts[i] + w) != [] ==>
      exists j :: 0 <= j < |rows| && rows[j].startTime == starts[i]
  }

  /** The rows of the windows kept by the loop describe those windows. */
  lemma RowsDescribeWindows(s: seq<LabeledEvent>, t0: real, t1: real, w: real, hasLabels: bool,
                            extract: seq<Event> --> FeatureVector)
    requires w > 0.0 && ExtractsBatches(extract)
    ensures RowsOfWindows(RowsOf(Segments(s, t0, t1, w), hasLabels, extract), s, WindowStarts(t0, t1, w),
                          w, hasLabels, extract)
  {
    SegmentsShape(s, t0, t1, w);
    RowsFromSegments(s, Segments(s, t0, t1, w), WindowStarts(t0, t1, w), w, hasLabels, extract);
  }

  /** Rows made from exact, ascending windows that keep every non-empty start describe those windows. */
  lemma RowsFromSegments(s: seq<LabeledEvent>, segs: seq<Segment>, starts: seq<real>, w: real,
                         hasLabels: bool, extract: seq<Event> --> FeatureVector)
    requires ExtractsBatches(extract)
    requires ExactWindows(s, segs, w) && StartsAmong(segs, starts) && Ascending(segs, w)
    requires KeepsNonEmpty(s, segs, starts, w)
    ensures RowsOfWindows(RowsOf(segs, hasLabels, extract), s, starts, w, hasLabels, extract)
  {
    RowsMatch(s, segs, starts, w, hasLabels, extract);
    RowsKeep(s, segs, starts, w, hasLabels, extract);
  }

  lemma RowsMatch(s: seq<LabeledEvent>, segs: seq<Segment>, starts: seq<real>, w: real,
                  hasLabels: bool, extract: seq<Event> --> FeatureVector)
    requires ExtractsBatches(extract)
    requires ExactWindows(s, segs, w) && StartsAmong(segs, starts)
    ensures RowsMatchWindows(RowsOf(segs, hasLabels, extract), s, starts, w, hasLabels, extract)
  {
    var rows := RowsOf(segs, hasLabels, extract);
    forall j | 0 <= j < |rows| ensures RowMatchesWindow(rows[j], s, starts, w, hasLabels, extract) {
      assert rows[j] == MakeRow(segs[j], hasLabels, extract);
      RowOfSegment(s, segs[j], starts, w, hasLabels, extract);
    }
  }

  lemma RowsKeep(s: seq<LabeledEvent>, segs: seq<Segment>, starts: seq<real>, w: real,
                 hasLabels: bool, extract: seq<Event> --> FeatureVector)
    requires ExtractsBatches(extract)
    requires Ascending(segs, w) && KeepsNonEmpty(s, segs, starts, w)
    ensures RowsAscend(RowsOf(segs, hasLabels, extract), w)
    ensures RowsForNonEmpty(RowsOf(segs, hasLabels, extract), s, starts, w)
  {
    var rows := RowsOf(segs, hasLabels, extract);
    assert forall j :: 0 <= j < |rows| ==> rows[j].startTime == segs[j].start;
    forall i | 0 <= i < |starts| && Window(s, starts[i], starts[i] + w) != []
      ensures exists j :: 0 <= j < |rows| && rows[j].startTime == starts[i]
    {
      var j :| 0 <= j < |segs| && segs[j].start == starts[i];
      assert rows[j].startTime == starts[i];
    }
  }

  /** The row of an exact window starting at one of `starts` matches that window. */
  lemma RowOfSegment(s: seq<LabeledEvent>, seg: Segment, starts: seq<real>, w: real, hasLabels: bool,
                     extract: seq<Event> --> FeatureVector)
    requires ExtractsBatches(extract)
    requires seg.events == Window(s, seg.start, seg.start + w) && seg.start in starts
    ensures RowMatchesWindow(MakeRow(seg, hasLabels, extract), s, starts, w, hasLabels, extract)
  {
    assert |seg.events| > 0;
  }

  /**
   * When `extract_features_with_windowing` returns rows, they are the rows of
   * the non-empty windows at t0, t0 + w, ... below t1 of the sorted stream,
   * where t0 and t1 are its smallest and largest timestamps.
   */
  lemma WindowedRows(stream: seq<LabeledEvent>, hasLabels: bool, w: real,
                     extract: seq<Event> --> FeatureVector)
    requires ExtractsBatches(extract) && Windowed(stream, hasLabels, w, extract).Ok?
    ensures var s := SortBy(stream, Time);
      && |s| > 0 && w > 0.0
      && RowsOfWindows(Windowed(stream, hasLabels, w, extract).value, s,
                       WindowStarts(MinOf(Times(s)), MaxOf(Times(s)), w), w, hasLabels, extract)
  {
    var s := SortBy(stream, Time);
    SortedRows(s, hasLabels, w, extract);
  }

  lemma SortedRows(s: seq<LabeledEvent>, hasLabels: bool, w: real, extract: seq<Event> --> FeatureVector)
    requires ExtractsBatches(extract) && WindowedSorted(s, hasLabels, w, extract).Ok?
    ensures |s| > 0 && w > 0.0
    ensures RowsOfWindows(WindowedSorted(s, hasLabels, w, extract).value, s,
                          WindowStarts(MinOf(Times(s)), MaxOf(Times(s)), w), w, hasLabels, extract)
  {
    RowsDescribeWindows(s, MinOf(Times(s)), MaxOf(Times(s)), w, hasLabels, extract);
  }
}
