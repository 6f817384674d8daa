/**
 * The per-batch feature extractor of feature_extract.py
 * (`extract_features_with_labels`): a batch of pointer events is sorted by its
 * record timestamp, per-event time gaps, distances, speeds and accelerations
 * are derived, and 23 named numbers are computed from them.
 *
 * Timestamps and coordinates are exact reals. The square root used for the
 * Euclidean distance is the parameter `root`; the properties that need it
 * assume only `IsRoot(root)`: the root of 0 is 0 and roots are non-negative.
 * The not-a-number and infinity cases of the source are the explicit zero
 * guards they are turned into by `fillna(0)` and `replace([inf, -inf], 0)`.
 */
module FeatureExtract {
  import opened Sorting

  /** One row of the event table. `clientTimestamp` is carried but never used. */
  datatype Event = Event(
    recordTimestamp: real,
    clientTimestamp: real,
    x: real,
    y: real,
    state: string,
    button: string)

  /** The 23 numbers emitted for one batch, in the order the source builds them. */
  datatype FeatureVector = FeatureVector(
    avgSpeed: real,
    maxSpeed: real,
    avgAcceleration: real,
    stateCountMove: nat,
    stateCountPressed: nat,
    stateCountReleased: nat,
    stateCountDrag: nat,
    buttonCountNoButton: nat,
    buttonCountLeft: nat,
    buttonCountRight: nat,
    transitionMovePressed: nat,
    transitionPressedReleased: nat,
    transitionDragReleased: nat,
    avgDurationMove: real,
    avgDurationPressed: real,
    avgDurationReleased: real,
    avgDurationDrag: real,
    dragDistance: real,
    dragAvgSpeed: real,
    idleTime: real,
    actionsPerSecond: real,
    avgX: real,
    avgY: real)

  const MOVE: string := "Move"
  const PRESSED: string := "Pressed"
  const RELEASED: string := "Released"
  const DRAG: string := "Drag"
  const NO_BUTTON: string := "NoButton"
  const LEFT: string := "Left"
  const RIGHT: string := "Right"

  /** Separator of the `state_transition` column: previous state, "->", current state. */
  const ARROW: string := "->"

  /** Only time gaps strictly above this many seconds count as idle time. */
  const IDLE_GAP: real := 1.0

  /** The column names of the emitted row, in order. */
  const FeatureNames: seq<string> := [
    "avg_speed", "max_speed", "avg_acceleration",
    "state_count_Move", "state_count_Pressed", "state_count_Released", "state_count_Drag",
    "button_count_NoButton", "button_count_Left", "button_count_Right",
    "state_transition_Move->Pressed", "state_transition_Pressed->Released",
    "state_transition_Drag->Released",
    "avg_duration_Move", "avg_duration_Pressed", "avg_duration_Released", "avg_duration_Drag",
    "drag_distance", "drag_avg_speed",
    "idle_time", "actions_per_second", "avg_x", "avg_y"]

  /** What the model assumes of the square root. */
  ghost predicate IsRoot(root: real -> real)
  {
    root(0.0) == 0.0 && forall v :: 0.0 <= v ==> 0.0 <= root(v)
  }

  function Timestamp(e: Event): real { e.recordTimestamp }
  function X(e: Event): real { e.x }
  function Y(e: Event): real { e.y }

  /** The batch is ordered by record timestamp. */
  ghost predicate Sorted(s: seq<Event>)
  {
    SortedBy(s, Timestamp)
  }

  function Square(v: real): real { v * v }

  // ---------------------------------------------------------------------------
  // Aggregates over a column

  /** Sum of a column (the empty sum is 0). */
  function Sum(xs: seq<real>): real
  {
    if xs == [] then 0.0 else Sum(xs[..|xs| - 1]) + xs[|xs| - 1]
  }

  /** Sum of the entries of `xs` whose flag in `keep` is set. */
  function SumWhere(xs: seq<real>, keep: seq<bool>): real
    requires |keep| == |xs|
  {
    if xs == [] then 0.0
    else SumWhere(xs[..|xs| - 1], keep[..|xs| - 1]) + (if keep[|xs| - 1] then xs[|xs| - 1] else 0.0)
  }

  /** Sum of the entries of `xs` strictly greater than `bound`. */
  function SumAbove(xs: seq<real>, bound: real): real
  {
    if xs == [] then 0.0
    else SumAbove(xs[..|xs| - 1], bound) + (if xs[|xs| - 1] > bound then xs[|xs| - 1] else 0.0)
  }

  /** Largest entry of a non-empty column. */
  function MaxOf(xs: seq<real>): (m: real)
    requires |xs| > 0
    ensures m in xs
    ensures forall i :: 0 <= i < |xs| ==> xs[i] <= m
  {
    if |xs| == 1 then xs[0]
    else
      var rest := MaxOf(xs[1..]);
      assert forall i :: 1 <= i < |xs| ==> xs[i] == xs[1..][i - 1];
      if xs[0] >= rest then xs[0] else rest
  }

  /** Smallest entry of a non-empty column. */
  function MinOf(xs: seq<real>): (m: real)
    requires |xs| > 0
    ensures m in xs
    ensures forall i :: 0 <= i < |xs| ==> m <= xs[i]
  {
    if |xs| == 1 then xs[0]
    else
      var rest := MinOf(xs[1..]);
      assert forall i :: 1 <= i < |xs| ==> xs[i] == xs[1..][i - 1];
      if xs[0] <= rest then xs[0] else rest
  }

  /** Sum of `f` over the rows of a batch. */
  function SumOf(s: seq<Event>, f: Event -> real): real
  {
    if s == [] then 0.0 else f(s[0]) + SumOf(s[1..], f)
  }

  /** Number of rows satisfying `p`. */
  function CountIf(s: seq<Event>, p: Event -> bool): nat
  {
    if s == [] then 0 else (if p(s[0]) then 1 else 0) + CountIf(s[1..], p)
  }

  /** Number of rows whose `state` is exactly `st` (`value_counts().get(st, 0)`). */
  function CountState(s: seq<Event>, st: string): nat
  {
    CountIf(s, (e: Event) => e.state == st)
  }

  /** Number of rows whose `button` is exactly `b`. */
  function CountButton(s: seq<Event>, b: string): nat
  {
    CountIf(s, (e: Event) => e.button == b)
  }

  /**
   * Number of positions i >= 1 whose `state_transition` string
   * `s[i-1].state + "->" + s[i].state` is exactly `lit`. The first row's shifted
   * state is missing, so it contributes no transition.
   */
  function TransitionCount(s: seq<Event>, lit: string): nat
  {
    if |s| < 2 then 0
    else (if s[0].state + ARROW + s[1].state == lit then 1 else 0) + TransitionCount(s[1..], lit)
  }

  // ---------------------------------------------------------------------------
  // Derived per-event columns

  /** `time_diff`: gap to the previous row, 0 for the first row. */
  function TimeDiff(s: seq<Event>, i: nat): real
    requires i < |s|
  {
    if i == 0 then 0.0 else s[i].recordTimestamp - s[i - 1].recordTimestamp
  }

  /** `distance`: Euclidean step from the previous row; the first row takes the root of 0. */
  function Distance(s: seq<Event>, i: nat, root: real -> real): real
    requires i < |s|
  {
    root(if i == 0 then 0.0 else Square(s[i].x - s[i - 1].x) + Square(s[i].y - s[i - 1].y))
  }

  /** `speed`: distance over time gap; a zero gap (infinite or not-a-number quotient) gives 0. */
  function Speed(s: seq<Event>, i: nat, root: real -> real): real
    requires i < |s|
  {
    var td := TimeDiff(s, i);
    if td == 0.0 then 0.0 else Distance(s, i, root) / td
  }

  /** `acceleration`: change of speed from the previous row, 0 for the first row. */
  function Acceleration(s: seq<Event>, i: nat, root: real -> real): real
    requires i < |s|
  {
    if i == 0 then 0.0 else Speed(s, i, root) - Speed(s, i - 1, root)
  }

  function TimeDiffs(s: seq<Event>): seq<real>
  {
    seq(|s|, i requires 0 <= i < |s| => TimeDiff(s, i))
  }

  function Distances(s: seq<Event>, root: real -> real): seq<real>
  {
    seq(|s|, i requires 0 <= i < |s| => Distance(s, i, root))
  }

  function Speeds(s: seq<Event>, root: real -> real): seq<real>
  {
    seq(|s|, i requires 0 <= i < |s| => Speed(s, i, root))
  }

  function Accelerations(s: seq<Event>, root: real -> real): seq<real>
  {
    seq(|s|, i requires 0 <= i < |s| => Acceleration(s, i, root))
  }

  function Timestamps(s: seq<Event>): seq<real>
  {
    seq(|s|, i requires 0 <= i < |s| => s[i].recordTimestamp)
  }

  /** Row mask: the row's current state is `st`. */
  function StateMask(s: seq<Event>, st: string): seq<bool>
  {
    seq(|s|, i requires 0 <= i < |s| => s[i].state == st)
  }

  // ---------------------------------------------------------------------------
  // Features

  /** `avg_speed`: mean speed of the batch. */
  function AvgSpeed(s: seq<Event>, root: real -> real): real
    requires |s| > 0
  {
    Sum(Speeds(s, root)) / |s| as real
  }

  /** `max_speed`: largest speed of the batch. */
  function MaxSpeed(s: seq<Event>, root: real -> real): real
    requires |s| > 0
  {
    MaxOf(Speeds(s, root))
  }

  /** `avg_acceleration`: mean acceleration of the batch. */
  function AvgAcceleration(s: seq<Event>, root: real -> real): real
    requires |s| > 0
  {
    Sum(Accelerations(s, root)) / |s| as real
  }

  /** `avg_duration_<st>`: `groupby('state')['time_diff'].mean().get(st, 0)`. */
  function AvgDuration(s: seq<Event>, st: string): real
  {
    var n := CountState(s, st);
    if n == 0 then 0.0 else SumWhere(TimeDiffs(s), StateMask(s, st)) / n as real
  }

  /** `drag_distance`: total distance over the Drag rows. */
  function DragDistance(s: seq<Event>, root: real -> real): real
  {
    SumWhere(Distances(s, root), StateMask(s, DRAG))
  }

  /** `drag_avg_speed`: mean speed over the Drag rows, 0 when there are none. */
  function DragAvgSpeed(s: seq<Event>, root: real -> real): real
  {
    var n := CountState(s, DRAG);
    if n == 0 then 0.0 else SumWhere(Speeds(s, root), StateMask(s, DRAG)) / n as real
  }

  /** `idle_time`: total of the time gaps strictly above one second. */
  function IdleTime(s: seq<Event>): real
  {
    SumAbove(TimeDiffs(s), IDLE_GAP)
  }

  /** Largest minus smallest record timestamp (`time_range`). */
  function TimeSpan(s: seq<Event>): real
    requires |s| > 0
  {
    MaxOf(Timestamps(s)) - MinOf(Timestamps(s))
  }

  /** `count / span if span > 0 else 0`: a positive rate exactly when the span is positive. */
  function Rate(count: nat, span: real): (r: real)
    ensures span > 0.0 ==> r * span == count as real
    ensures span <= 0.0 ==> r == 0.0
    ensures r >= 0.0 && (r > 0.0 <==> span > 0.0 && count > 0)
  {
    if span > 0.0 then count as real / span else 0.0
  }

  /** `actions_per_second`: `len(df) / time_range if time_range > 0 else 0`. */
  function ActionsPerSecond(s: seq<Event>): real
    requires |s| > 0
  {
    Rate(|s|, TimeSpan(s))
  }

  /** `avg_x`: mean x coordinate. */
  function AvgX(s: seq<Event>): real
    requires |s| > 0
  {
    SumOf(s, X) / |s| as real
  }

  /** `avg_y`: mean y coordinate. */
  function AvgY(s: seq<Event>): real
    requires |s| > 0
  {
    SumOf(s, Y) / |s| as real
  }

  /** The 23 features of a batch already sorted by record timestamp. */
  function FeaturesOfSorted(s: seq<Event>, root: real -> real): FeatureVector
    requires |s| > 0
  {
    FeatureVector(
      avgSpeed := AvgSpeed(s, root),
      maxSpeed := MaxSpeed(s, root),
      avgAcceleration := AvgAcceleration(s, root),
      stateCountMove := CountState(s, MOVE),
      stateCountPressed := CountState(s, PRESSED),
      stateCountReleased := CountState(s, RELEASED),
      stateCountDrag := CountState(s, DRAG),
      buttonCountNoButton := CountButton(s, NO_BUTTON),
      buttonCountLeft := CountButton(s, LEFT),
      buttonCountRight := CountButton(s, RIGHT),
      transitionMovePressed := TransitionCount(s, MOVE + ARROW + PRESSED),
      transitionPressedReleased := TransitionCount(s, PRESSED + ARROW + RELEASED),
      transitionDragReleased := TransitionCount(s, DRAG + ARROW + RELEASED),
      avgDurationMove := AvgDuration(s, MOVE),
      avgDurationPressed := AvgDuration(s, PRESSED),
      avgDurationReleased := AvgDuration(s, RELEASED),
      avgDurationDrag := AvgDuration(s, DRAG),
      dragDistance := DragDistance(s, root),
      dragAvgSpeed := DragAvgSpeed(s, root),
      idleTime := IdleTime(s),
      actionsPerSecond := ActionsPerSecond(s),
      avgX := AvgX(s),
      avgY := AvgY(s))
  }

  /**
   * The single-row table built from the features (`pd.DataFrame([features])`):
   * the same 23 column names, in the same order, whatever the values.
   */
  function Row(f: FeatureVector): (row: seq<(string, real)>)
    ensures |row| == |FeatureNames|
    ensures forall i :: 0 <= i < |row| ==> row[i].0 == FeatureNames[i]
  {
    [("avg_speed", f.avgSpeed), ("max_speed", f.maxSpeed), ("avg_acceleration", f.avgAcceleration),
     ("state_count_Move", f.stateCountMove as real),
     ("state_count_Pressed", f.stateCountPressed as real),
     ("state_count_Released", f.stateCountReleased as real),
     ("state_count_Drag", f.stateCountDrag as real),
     ("button_count_NoButton", f.buttonCountNoButton as real),
     ("button_count_Left", f.buttonCountLeft as real),
     ("button_count_Right", f.buttonCountRight as real),
     ("state_transition_Move->Pressed", f.transitionMovePressed as real),
     ("state_transition_Pressed->Released", f.transitionPressedReleased as real),
     ("state_transition_Drag->Released", f.transitionDragReleased as real),
     ("avg_duration_Move", f.avgDurationMove), ("avg_duration_Pressed", f.avgDurationPressed),
     ("avg_duration_Released", f.avgDurationReleased), ("avg_duration_Drag", f.avgDurationDrag),
     ("drag_distance", f.dragDistance), ("drag_avg_speed", f.dragAvgSpeed),
     ("idle_time", f.idleTime), ("actions_per_second", f.actionsPerSecond),
     ("avg_x", f.avgX), ("avg_y", f.avgY)]
  }

  // ---------------------------------------------------------------------------
  // The extractor

  /**
   * `extract_features_with_labels`: sort the batch by record timestamp, then
   * compute the features of the sorted batch. The counts and mean position do
   * not depend on the order in which the rows arrive.
   */
  function Extract(events: seq<Event>, root: real -> real): (f: FeatureVector)
    requires |events| > 0
    ensures f.stateCountMove == CountState(events, MOVE)
    ensures f.stateCountPressed == CountState(events, PRESSED)
    ensures f.stateCountReleased == CountState(events, RELEASED)
    ensures f.stateCountDrag == CountState(events, DRAG)
    ensures f.buttonCountNoButton == CountButton(events, NO_BUTTON)
    ensures f.buttonCountLeft == CountButton(events, LEFT)
    ensures f.buttonCountRight == CountButton(events, RIGHT)
    ensures f.avgX == AvgX(events) && f.avgY == AvgY(events)
  {
    var s := SortBy(events, Timestamp);
    CountIfSort(events, (e: Event) => e.state == MOVE);
    CountIfSort(events, (e: Event) => e.state == PRESSED);
    CountIfSort(events, (e: Event) => e.state == RELEASED);
    CountIfSort(events, (e: Event) => e.state == DRAG);
    CountIfSort(events, (e: Event) => e.button == NO_BUTTON);
    CountIfSort(events, (e: Event) => e.button == LEFT);
    CountIfSort(events, (e: Event) => e.button == RIGHT);
    SumOfSort(events, X);
    SumOfSort(events, Y);
    FeaturesOfSorted(s, root)
  }

  /** A per-batch feature extractor, defined on every non-empty batch. */
  ghost predicate ExtractsBatches(extract: seq<Event> --> FeatureVector)
  {
    forall ev: seq<Event> :: |ev| > 0 ==> extract.requires(ev)
  }

  /** `extract_features_with_labels` as a value, the form its callers pass it in. */
  function FeatureExtractor(root: real -> real): (extract: seq<Event> --> FeatureVector)
    ensures ExtractsBatches(extract)
    ensures forall ev: seq<Event> :: |ev| > 0 ==> extract(ev) == Extract(ev, root)
  {
    (ev: seq<Event>) requires |ev| > 0 => Extract(ev, root)
  }

  lemma {:induction false} CountIfInsert(x: Event, s: seq<Event>, p: Event -> bool)
    requires Sorted(s)
    ensures CountIf(Insert(x, s, Timestamp), p) == CountIf([x] + s, p)
  {
    if s != [] && x.recordTimestamp > s[0].recordTimestamp {
      CountIfInsert(x, s[1..], p);
      assert ([x] + s)[1..] == s;
      assert ([x] + s[1..])[1..] == s[1..];
      assert ([s[0]] + Insert(x, s[1..], Timestamp))[1..] == Insert(x, s[1..], Timestamp);
    } else if s != [] {
      assert ([x] + s)[1..] == s;
    }
  }

  /** Counting rows does not depend on their order: sorting keeps every count. */
  lemma {:induction false} CountIfSort(s: seq<Event>, p: Event -> bool)
    ensures CountIf(SortBy(s, Timestamp), p) == CountIf(s, p)
  {
    if s != [] {
      CountIfSort(s[1..], p);
      CountIfInsert(s[0], SortBy(s[1..], Timestamp), p);
      assert ([s[0]] + SortBy(s[1..], Timestamp))[1..] == SortBy(s[1..], Timestamp);
    }
  }

  lemma {:induction false} SumOfInsert(x: Event, s: seq<Event>, f: Event -> real)
    requires Sorted(s)
    ensures SumOf(Insert(x, s, Timestamp), f) == SumOf([x] + s, f)
  {
    if s != [] && x.recordTimestamp > s[0].recordTimestamp {
      SumOfInsert(x, s[1..], f);
      assert ([x] + s)[1..] == s;
      assert ([x] + s[1..])[1..] == s[1..];
      assert ([s[0]] + Insert(x, s[1..], Timestamp))[1..] == Insert(x, s[1..], Timestamp);
    } else if s != [] {
      assert ([x] + s)[1..] == s;
    }
  }

  /** Summing a per-row quantity does not depend on row order. */
  lemma {:induction false} SumOfSort(s: seq<Event>, f: Event -> real)
    ensures SumOf(SortBy(s, Timestamp), f) == SumOf(s, f)
  {
    if s != [] {
      SumOfSort(s[1..], f);
      SumOfInsert(s[0], SortBy(s[1..], Timestamp), f);
      assert ([s[0]] + SortBy(s[1..], Timestamp))[1..] == SortBy(s[1..], Timestamp);
    }
  }
}
