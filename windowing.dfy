/**
 * The windowing segmenter of feature_extract.py
 * (`extract_features_with_windowing`): a stream sorted by record timestamp is
 * cut into half-open windows [t0 + k*w, t0 + (k+1)*w) starting at the smallest
 * timestamp t0, while the window start is below the largest timestamp t1;
 * every non-empty window is run through the extractor and tagged with its
 * start time and, when the table has an `is_illegal` column, its most
 * frequent label.
 */
module Windowing {
  import opened Wrappers
  import opened Sorting
  import opened FeatureExtract

  /** A row of the stream table: the event and its `is_illegal` value. */
  datatype LabeledEvent = LabeledEvent(event: Event, isIllegal: int)

  /** One output row: the 23 features, the optional majority label and the window start. */
  datatype WindowRow = WindowRow(features: FeatureVector, isIllegal: Option<int>, startTime: real)

  /**
   * `NoObjectsToConcatenate`: `pd.concat` of an empty list raises;
   * `NeverTerminates`: a non-positive window width never moves the cursor past t1.
   */
  datatype WindowError = NoObjectsToConcatenate | NeverTerminates

  function Time(r: LabeledEvent): real { r.event.recordTimestamp }

  function Times(s: seq<LabeledEvent>): seq<real>
  {
    seq(|s|, i requires 0 <= i < |s| => Time(s[i]))
  }

  function Events(s: seq<LabeledEvent>): seq<Event>
  {
    seq(|s|, i requires 0 <= i < |s| => s[i].event)
  }

  function Labels(s: seq<LabeledEvent>): seq<int>
  {
    seq(|s|, i requires 0 <= i < |s| => s[i].isIllegal)
  }

  /** The rows with `lo <= timestamp < hi`, in stream order. */
  function Window(s: seq<LabeledEvent>, lo: real, hi: real): seq<LabeledEvent>
  {
    WindowOf(s, |s|, lo, hi)
  }

  /** The rows among the first `n` of `s` with `lo <= timestamp < hi`, in stream order. */
  function WindowOf(s: seq<LabeledEvent>, n: nat, lo: real, hi: real): seq<LabeledEvent>
    requires n <= |s|
  {
    if n == 0 then []
    else WindowOf(s, n - 1, lo, hi) + (if lo <= Time(s[n - 1]) < hi then [s[n - 1]] else [])
  }

  lemma {:induction false} WindowOfMembers(s: seq<LabeledEvent>, n: nat, lo: real, hi: real)
    requires n <= |s|
    ensures |WindowOf(s, n, lo, hi)| <= n
    ensures forall r :: r in WindowOf(s, n, lo, hi) <==> r in s[..n] && lo <= Time(r) < hi
  {
    if n > 0 {
      WindowOfMembers(s, n - 1, lo, hi);
      assert s[..n] == s[..n - 1] + [s[n - 1]];
    }
  }

  /** A window holds exactly the rows of the stream whose timestamp lies in [lo, hi). */
  lemma WindowMembers(s: seq<LabeledEvent>, lo: real, hi: real)
    ensures |Window(s, lo, hi)| <= |s|
    ensures forall r :: r in Window(s, lo, hi) <==> r in s && lo <= Time(r) < hi
  {
    WindowOfMembers(s, |s|, lo, hi);
    assert s[..|s|] == s;
  }

  // ---------------------------------------------------------------------------
  // Majority label

  /** How often `v` occurs in `xs`. */
  function Occurrences(xs: seq<int>, v: int): nat
  {
    if xs == [] then 0 else (if xs[0] == v then 1 else 0) + Occurrences(xs[1..], v)
  }

  lemma {:induction false} OccurrencesPositive(xs: seq<int>, v: int)
    ensures Occurrences(xs, v) > 0 <==> v in xs
  {
    if xs != [] {
      OccurrencesPositive(xs[1..], v);
    }
  }

  /** The candidate with the most occurrences in `xs`, the smallest one among ties. */
  function ModeAmong(cands: seq<int>, xs: seq<int>): (m: int)
    requires |cands| > 0
    ensures m in cands
    ensures forall c :: c in cands ==>
              Occurrences(xs, c) < Occurrences(xs, m)
              || (Occurrences(xs, c) == Occurrences(xs, m) && m <= c)
  {
    if |cands| == 1 then cands[0]
    else
      var rest := ModeAmong(cands[1..], xs);
      assert forall c :: c in cands ==> c == cands[0] || c in cands[1..];
      if Occurrences(xs, cands[0]) > Occurrences(xs, rest)
         || (Occurrences(xs, cands[0]) == Occurrences(xs, rest) && cands[0] <= rest)
      then cands[0] else rest
  }

  /**
   * `Series.mode()[0]`: a most frequent value; pandas returns tied modes in
   * sorted order, so among ties it is the smallest.
   */
  function Mode(xs: seq<int>): (m: int)
    requires |xs| > 0
    ensures m in xs
    ensures forall v :: Occurrences(xs, v) <= Occurrences(xs, m)
    ensures forall v :: Occurrences(xs, v) == Occurrences(xs, m) ==> m <= v
  {
    var m := ModeAmong(xs, xs);
    OccurrencesPositive(xs, m);
    forall v ensures Occurrences(xs, v) <= Occurrences(xs, m)
      && (Occurrences(xs, v) == Occurrences(xs, m) ==> m <= v)
    {
      OccurrencesPositive(xs, v);
    }
    m
  }

  // ---------------------------------------------------------------------------
  // Windows

  /** Window steps left before a cursor at `lo` reaches t1 (the termination measure). */
  function Steps(lo: real, t1: real, w: real): int
    requires w > 0.0
  {
    ((t1 - lo) / w).Floor
  }

  /** While the cursor is below t1 the measure is non-negative, and one step lowers it by one. */
  lemma StepsDecrease(lo: real, t1: real, w: real)
    requires w > 0.0 && lo < t1
    ensures Steps(lo, t1, w) >= 0
    ensures Steps(lo + w, t1, w) == Steps(lo, t1, w) - 1
  {
    var q := (t1 - lo) / w;
    DivisionStep(t1 - lo, w, q);
  }

  lemma DivisionStep(a: real, w: real, q: real)
    requires w > 0.0 && q == a / w
    ensures (a - w) / w == q - 1.0
  {
    calc {
      (a - w) / w;
      a / w - w / w;
      q - 1.0;
    }
  }

  /** The window starts the cursor visits from `lo`: lo, lo + w, lo + 2w, ... while below t1. */
  function WindowStarts(lo: real, t1: real, w: real): seq<real>
    requires w > 0.0
    decreases Steps(lo, t1, w)
  {
    if lo >= t1 then []
    else
      StepsDecrease(lo, t1, w);
      [lo] + WindowStarts(lo + w, t1, w)
  }

  /**
   * The cursor visits `lo` first, each start is one width after the one
   * before, every start is below t1, and one width past the last is not.
   */
  lemma {:induction false} WindowStartsFacts(lo: real, t1: real, w: real)
    requires w > 0.0
    ensures var r := WindowStarts(lo, t1, w);
      (r == [] <==> lo >= t1)
      && (r != [] ==> r[0] == lo && r[|r| - 1] + w >= t1)
      && (forall i :: 0 <= i < |r| ==> r[i] < t1)
      && (forall i :: 0 <= i < |r| - 1 ==> r[i + 1] == r[i] + w)
    decreases Steps(lo, t1, w)
  {
    if lo < t1 {
      StepsDecrease(lo, t1, w);
      WindowStartsFacts(lo + w, t1, w);
      var r := WindowStarts(lo, t1, w);
      var rest := WindowStarts(lo + w, t1, w);
      assert r == [lo] + rest;
      assert forall i :: 0 < i < |r| ==> r[i] == rest[i - 1];
    }
  }

  /** A non-empty run of stream rows. */
  type Batch = s: seq<LabeledEvent> | |s| > 0
    witness [LabeledEvent(Event(0.0, 0.0, 0.0, 0.0, MOVE, NO_BUTTON), 0)]

  /** A non-empty window: its start and the stream rows inside it. */
  datatype Segment = Segment(start: real, events: Batch)

  /** The non-empty windows among the first `k` of those starting at `starts`, each `w` wide, in order. */
  function SegmentsUpTo(s: seq<LabeledEvent>, starts: seq<real>, k: nat, w: real): seq<Segment>
    requires k <= |starts|
  {
    if k == 0 then []
    else
      var lo := starts[k - 1];
      var win := Window(s, lo, lo + w);
      SegmentsUpTo(s, starts, k - 1, w) + (if win == [] then [] else [Segment(lo, win)])
  }

  /** The non-empty windows of sorted stream `s` from the one at `lo` on. */
  function Segments(s: seq<LabeledEvent>, lo: real, t1: real, w: real): seq<Segment>
    requires w > 0.0
  {
    var starts := WindowStarts(lo, t1, w);
    SegmentsUpTo(s, starts, |starts|, w)
  }

  /** The output row of one non-empty window. */
  function MakeRow(seg: Segment, hasLabels: bool, extract: seq<Event> --> FeatureVector): WindowRow
    requires ExtractsBatches(extract)
  {
    WindowRow(extract(Events(seg.events)),
              if hasLabels then Some(Mode(Labels(seg.events))) else None,
              seg.start)
  }

  /** The output rows of a sequence of non-empty windows, in order. */
  function RowsOf(segs: seq<Segment>, hasLabels: bool, extract: seq<Event> --> FeatureVector)
    : seq<WindowRow>
    requires ExtractsBatches(extract)
  {
    seq(|segs|, i requires 0 <= i < |segs| => MakeRow(segs[i], hasLabels, extract))
  }

  /** One more segment adds its row. */
  lemma RowsOfSnoc(segs: seq<Segment>, seg: Segment, hasLabels: bool,
                   extract: seq<Event> --> FeatureVector)
    requires ExtractsBatches(extract)
    ensures RowsOf(segs + [seg], hasLabels, extract)
            == RowsOf(segs, hasLabels, extract) + [MakeRow(seg, hasLabels, extract)]
  {
  }

  /**
   * The result of windowing a stream with extractor `extract`: the rows of
   * every non-empty window, or the error the source raises (an empty
   * concatenation) or the loop it never leaves.
   */
  function Windowed(stream: seq<LabeledEvent>, hasLabels: bool, w: real,
                    extract: seq<Event> --> FeatureVector): Result<seq<WindowRow>, WindowError>
    requires ExtractsBatches(extract)
  {
    WindowedSorted(SortBy(stream, Time), hasLabels, w, extract)
  }

  /** The same pipeline after the sort, on a stream already in timestamp order. */
  function WindowedSorted(s: seq<LabeledEvent>, hasLabels: bool, w: real,
                    extract: seq<Event> --> FeatureVector): Result<seq<WindowRow>, WindowError>
    requires ExtractsBatches(extract)
  {
    if s == [] then Err(NoObjectsToConcatenate)
    else
      var t0, t1 := MinOf(Times(s)), MaxOf(Times(s));
      if t0 < t1 && w <= 0.0 then Err(NeverTerminates)
      else
        var rows := if t0 < t1 then RowsOf(Segments(s, t0, t1, w), hasLabels, extract) else [];
        if rows == [] then Err(NoObjectsToConcatenate) else Ok(rows)
  }

  /**
   * The row of one non-empty window: its features, its majority label when
   * the stream is labelled, and its start.
   */
  method WindowFeatures(windowData: Batch, hasLabels: bool, currentStart: real,
                        extract: seq<Event> --> FeatureVector)
    returns (row: WindowRow)
    requires ExtractsBatches(extract)
    ensures row == MakeRow(Segment(currentStart, windowData), hasLabels, extract)
  {
    var features := extract(Events(windowData));
    var majorityLabel := if hasLabels then Some(Mode(Labels(windowData))) else None;
    row := WindowRow(features, majorityLabel, currentStart);
  }

  /**
   * The window loop of `extract_features_with_windowing`: advance the cursor
   * from t0 while it is below t1, appending the row of every non-empty window.
   */
  method WindowLoop(s: seq<LabeledEvent>, hasLabels: bool, startTime: real, endTime: real,
                    windowSize: real, extract: seq<Event> --> FeatureVector)
    returns (featuresList: seq<WindowRow>)
    requires windowSize > 0.0 && ExtractsBatches(extract)
    ensures featuresList == RowsOf(Segments(s, startTime, endTime, windowSize), hasLabels, extract)
  {
    ghost var starts := WindowStarts(startTime, endTime, windowSize);
    WindowStartsFacts(startTime, endTime, windowSize);
    featuresList := [];
    var currentStart := startTime;
    ghost var k := 0;
    while currentStart < endTime
      invariant 0 <= k <= |starts|
      invariant k < |starts| ==> currentStart == starts[k]
      invariant k == |starts| ==> currentStart >= endTime
      invariant featuresList == RowsOf(SegmentsUpTo(s, starts, k, windowSize), hasLabels, extract)
      decreases |starts| - k
    {
      var currentEnd := currentStart + windowSize;
      var windowData := Window(s, currentStart, currentEnd);
      if |windowData| > 0 {
        RowsOfSnoc(SegmentsUpTo(s, starts, k, windowSize), Segment(currentStart, windowData),
                   hasLabels, extract);
        var row := WindowFeatures(windowData, hasLabels, currentStart, extract);
        featuresList := featuresList + [row];
      }
      currentStart := currentEnd;
      k := k + 1;
    }
  }

  /**
   * `extract_features_with_windowing`: sort the stream, take its smallest and
   * largest timestamps, run the window loop and concatenate its rows.
   */
  method ExtractWithWindowing(stream: seq<LabeledEvent>, hasLabels: bool, windowSize: real,
                              extract: seq<Event> --> FeatureVector)
    returns (r: Result<seq<WindowRow>, WindowError>)
    requires ExtractsBatches(extract)
    ensures r == Windowed(stream, hasLabels, windowSize, extract)
  {
    var s := SortBy(stream, Time);
    r := ExtractSorted(s, hasLabels, windowSize, extract);
  }

  /** The steps of `extract_features_with_windowing` that follow the sort. */
  method ExtractSorted(s: seq<LabeledEvent>, hasLabels: bool, windowSize: real,
                              extract: seq<Event> --> FeatureVector)
    returns (r: Result<seq<WindowRow>, WindowError>)
    requires ExtractsBatches(extract)
    ensures r == WindowedSorted(s, hasLabels, windowSize, extract)
  {
    if |s| == 0 {
      return Err(NoObjectsToConcatenate);
    }
    var startTime := MinOf(Times(s));
    var endTime := MaxOf(Times(s));
    if startTime < endTime && windowSize <= 0.0 {
      return Err(NeverTerminates);
    }
    var featuresList: seq<WindowRow> := [];
    if startTime < endTime {
      featuresList := WindowLoop(s, hasLabels, startTime, endTime, windowSize, extract);
    }
    if featuresList == [] {
      return Err(NoObjectsToConcatenate);
    }
    return Ok(featuresList);
  }
}
