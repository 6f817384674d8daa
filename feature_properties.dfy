/**
 * Properties of the feature extractor: what each feature means for a batch
 * sorted by record timestamp, its zero guards and its bounds.
 */
module FeatureProperties {
  import opened Sorting
  import opened FeatureExtract

  const StateLiterals: set<string> := {MOVE, PRESSED, RELEASED, DRAG}
  const ButtonLiterals: set<string> := {NO_BUTTON, LEFT, RIGHT}

  // ---------------------------------------------------------------------------
  // Schema

  /** Every call emits the same 23 column names, and no two of them coincide. */
  lemma SchemaIsFixed(f: FeatureVector, g: FeatureVector)
    ensures |FeatureNames| == 23
    ensures forall i, j :: 0 <= i < j < |FeatureNames| ==> FeatureNames[i] != FeatureNames[j]
    ensures |Row(f)| == |Row(g)| == 23
    ensures forall i :: 0 <= i < 23 ==> Row(f)[i].0 == Row(g)[i].0 == FeatureNames[i]
  {
  }

  // ---------------------------------------------------------------------------
  // Derived per-event columns

  /**
   * After sorting every time gap is non-negative; the first row has gap,
   * distance, speed and acceleration 0; a zero gap always gives speed 0.
   */
  lemma DerivedColumns(s: seq<Event>, root: real -> real)
    requires |s| > 0
    requires IsRoot(root)
    ensures TimeDiff(s, 0) == 0.0 && Distance(s, 0, root) == 0.0
    ensures Speed(s, 0, root) == 0.0 && Acceleration(s, 0, root) == 0.0
    ensures forall i :: 0 <= i < |s| && TimeDiff(s, i) == 0.0 ==> Speed(s, i, root) == 0.0
    ensures Sorted(s) ==> forall i :: 0 <= i < |s| ==> TimeDiff(s, i) >= 0.0
    ensures forall i :: 0 <= i < |s| ==> Distance(s, i, root) >= 0.0
    ensures Sorted(s) ==> forall i :: 0 <= i < |s| ==> Speed(s, i, root) >= 0.0
  {
    forall i | 0 <= i < |s| ensures Distance(s, i, root) >= 0.0 {
      if i > 0 {
        var dx, dy := s[i].x - s[i - 1].x, s[i].y - s[i - 1].y;
        assert Square(dx) >= 0.0 && Square(dy) >= 0.0;
      }
    }
    if Sorted(s) {
      forall i | 0 <= i < |s| ensures Speed(s, i, root) >= 0.0 {
        if i > 0 {
          var dx, dy := s[i].x - s[i - 1].x, s[i].y - s[i - 1].y;
          assert Square(dx) >= 0.0 && Square(dy) >= 0.0;
          assert Distance(s, i, root) >= 0.0;
        }
      }
    }
  }

  // ---------------------------------------------------------------------------
  // Categorical counts

  /**
   * The four state counts are independent lookups: together they never exceed
   * the batch size, and they reach it exactly when every row has one of the
   * four literal states.
   */
  lemma {:induction false} StateCountsBound(s: seq<Event>)
    ensures CountState(s, MOVE) + CountState(s, PRESSED) + CountState(s, RELEASED)
            + CountState(s, DRAG) <= |s|
    ensures CountState(s, MOVE) + CountState(s, PRESSED) + CountState(s, RELEASED)
            + CountState(s, DRAG) == |s|
            <==> forall i :: 0 <= i < |s| ==> s[i].state in StateLiterals
  {
    if s != [] {
      StateCountsBound(s[1..]);
      assert forall i :: 1 <= i < |s| ==> s[i] == s[1..][i - 1];
    }
  }

  /** The same for the three button counts. */
  lemma {:induction false} ButtonCountsBound(s: seq<Event>)
    ensures CountButton(s, NO_BUTTON) + CountButton(s, LEFT) + CountButton(s, RIGHT) <= |s|
    ensures CountButton(s, NO_BUTTON) + CountButton(s, LEFT) + CountButton(s, RIGHT) == |s|
            <==> forall i :: 0 <= i < |s| ==> s[i].button in ButtonLiterals
  {
    if s != [] {
      ButtonCountsBound(s[1..]);
      assert forall i :: 1 <= i < |s| ==> s[i] == s[1..][i - 1];
    }
  }

  /** A count is 0 exactly when no row has that state. */
  lemma {:induction false} CountStateZero(s: seq<Event>, st: string)
    ensures CountState(s, st) == 0 <==> forall i :: 0 <= i < |s| ==> s[i].state != st
  {
    if s != [] {
      CountStateZero(s[1..], st);
      assert forall i :: 1 <= i < |s| ==> s[i] == s[1..][i - 1];
    }
  }

  // ---------------------------------------------------------------------------
  // Transitions

  /** Number of positions i >= 1 with previous state `p` and current state `q`. */
  function PairCount(s: seq<Event>, p: string, q: string): nat
  {
    if |s| < 2 then 0
    else (if s[0].state == p && s[1].state == q then 1 else 0) + PairCount(s[1..], p, q)
  }

  /** Joining two dash-free states with "->" can be undone: the split is unique. */
  lemma ArrowSplit(a: string, b: string, p: string, q: string)
    requires '-' !in p && '-' !in q
    requires a + ARROW + b == p + ARROW + q
    ensures a == p && b == q
  {
    var u := p + ARROW + q;
    assert u[|a|] == '-';
    assert forall k :: 0 <= k < |p| ==> u[k] == p[k] && p[k] in p;
    assert u[|p| + 1] == '>';
    assert forall k :: |p| + 2 <= k < |u| ==> u[k] == q[k - |p| - 2] && q[k - |p| - 2] in q;
    assert |a| == |p|;
    assert a == u[..|a|] == p;
    assert b == u[|a| + 2..] == q;
  }

  /**
   * Counting the literal "p->q" in the transition column counts exactly the
   * consecutive pairs with state p followed by state q.
   */
  lemma {:induction false} TransitionCountIsPairCount(s: seq<Event>, p: string, q: string)
    requires '-' !in p && '-' !in q
    ensures TransitionCount(s, p + ARROW + q) == PairCount(s, p, q)
  {
    if |s| >= 2 {
      TransitionCountIsPairCount(s[1..], p, q);
      if s[0].state + ARROW + s[1].state == p + ARROW + q {
        ArrowSplit(s[0].state, s[1].state, p, q);
      }
    }
  }

  /** The three tracked transitions never sum to more than the n - 1 consecutive pairs. */
  lemma {:induction false} TransitionsBound(s: seq<Event>)
    requires |s| > 0
    ensures TransitionCount(s, MOVE + ARROW + PRESSED) + TransitionCount(s, PRESSED + ARROW + RELEASED)
            + TransitionCount(s, DRAG + ARROW + RELEASED) <= |s| - 1
  {
    if |s| >= 2 {
      TransitionsBound(s[1..]);
    }
  }

  // ---------------------------------------------------------------------------
  // Sums over columns

  lemma {:induction false} SumNonNegative(xs: seq<real>)
    requires forall i :: 0 <= i < |xs| ==> xs[i] >= 0.0
    ensures Sum(xs) >= 0.0
  {
    if xs != [] {
      SumNonNegative(xs[..|xs| - 1]);
    }
  }

  lemma {:induction false} SumWhereNonNegative(xs: seq<real>, keep: seq<bool>)
    requires |keep| == |xs|
    requires forall i :: 0 <= i < |xs| ==> xs[i] >= 0.0
    ensures SumWhere(xs, keep) >= 0.0
  {
    if xs != [] {
      SumWhereNonNegative(xs[..|xs| - 1], keep[..|xs| - 1]);
    }
  }

  lemma {:induction false} SumWhereNone(xs: seq<real>, keep: seq<bool>)
    requires |keep| == |xs|
    requires forall i :: 0 <= i < |keep| ==> !keep[i]
    ensures SumWhere(xs, keep) == 0.0
  {
    if xs != [] {
      SumWhereNone(xs[..|xs| - 1], keep[..|xs| - 1]);
    }
  }

  /** On non-negative entries, the sum above a bound lies between 0 and the full sum. */
  lemma {:induction false} SumAboveBetween(xs: seq<real>, bound: real)
    requires forall i :: 0 <= i < |xs| ==> xs[i] >= 0.0
    ensures 0.0 <= SumAbove(xs, bound) <= Sum(xs)
  {
    if xs != [] {
      SumAboveBetween(xs[..|xs| - 1], bound);
    }
  }

  /** The time gaps of the first k rows add up to the time those rows span. */
  lemma {:induction false} TimeDiffsTelescope(s: seq<Event>, k: nat)
    requires 1 <= k <= |s|
    ensures Sum(TimeDiffs(s)[..k]) == s[k - 1].recordTimestamp - s[0].recordTimestamp
  {
    if k > 1 {
      TimeDiffsTelescope(s, k - 1);
      assert TimeDiffs(s)[..k][..k - 1] == TimeDiffs(s)[..k - 1];
    }
  }

  /** The accelerations of the first k rows add up to the speed of the k-th row. */
  lemma {:induction false} AccelerationsTelescope(s: seq<Event>, root: real -> real, k: nat)
    requires 1 <= k <= |s|
    ensures Sum(Accelerations(s, root)[..k]) == Speed(s, k - 1, root)
  {
    if k > 1 {
      AccelerationsTelescope(s, root, k - 1);
      assert Accelerations(s, root)[..k][..k - 1] == Accelerations(s, root)[..k - 1];
    }
  }

  lemma DivNonNegative(a: real, b: real)
    requires a >= 0.0 && b > 0.0
    ensures a / b >= 0.0
  {
  }

  lemma SortedEnds(s: seq<Event>)
    requires |s| > 0 && Sorted(s)
    ensures MaxOf(Timestamps(s)) == s[|s| - 1].recordTimestamp
    ensures MinOf(Timestamps(s)) == s[0].recordTimestamp
  {
    var ts := Timestamps(s);
    SortedTimestamps(s);
    MonotoneEnds(ts);
    assert ts[|s| - 1] == s[|s| - 1].recordTimestamp && ts[0] == s[0].recordTimestamp;
  }

  /** The timestamp column of a sorted batch is non-decreasing. */
  lemma SortedTimestamps(s: seq<Event>)
    requires Sorted(s)
    ensures forall i, j :: 0 <= i < j < |s| ==> Timestamps(s)[i] <= Timestamps(s)[j]
  {
    forall i, j | 0 <= i < j < |s| ensures Timestamps(s)[i] <= Timestamps(s)[j] {
      assert Timestamp(s[i]) <= Timestamp(s[j]);
    }
  }

  /** In a non-decreasing column the largest entry is the last and the smallest the first. */
  lemma MonotoneEnds(xs: seq<real>)
    requires |xs| > 0 && forall i, j :: 0 <= i < j < |xs| ==> xs[i] <= xs[j]
    ensures MaxOf(xs) == xs[|xs| - 1] && MinOf(xs) == xs[0]
  {
    var j :| 0 <= j < |xs| && xs[j] == MaxOf(xs);
    var h :| 0 <= h < |xs| && xs[h] == MinOf(xs);
  }

  // ---------------------------------------------------------------------------
  // Features of a sorted batch

  /**
   * The kinematic features: speeds are non-negative, so are their mean and
   * maximum, and the mean acceleration telescopes to the last row's speed
   * divided by the batch size.
   */
  lemma Kinematics(s: seq<Event>, root: real -> real)
    requires |s| > 0 && Sorted(s) && IsRoot(root)
    ensures AvgSpeed(s, root) >= 0.0
    ensures MaxSpeed(s, root) >= 0.0
    ensures AvgAcceleration(s, root) == Speed(s, |s| - 1, root) / |s| as real
  {
    var n := |s| as real;
    var speeds := Speeds(s, root);
    assert forall i :: 0 <= i < |s| ==> speeds[i] >= 0.0 by {
      DerivedColumns(s, root);
    }
    SumNonNegative(speeds);
    DivNonNegative(Sum(speeds), n);
    assert speeds[0] == 0.0;
    assert speeds[0] <= MaxSpeed(s, root);
    AccelerationsTelescope(s, root, |s|);
    assert Accelerations(s, root)[..|s|] == Accelerations(s, root);
  }

  /**
   * `avg_duration_S` is 0 when S never occurs; otherwise it is the mean of the
   * time gaps of the S rows (the first row's gap 0 included), so it is
   * non-negative on a sorted batch.
   */
  lemma AvgDurationFacts(s: seq<Event>, st: string)
    ensures (forall i :: 0 <= i < |s| ==> s[i].state != st) ==> AvgDuration(s, st) == 0.0
    ensures Sorted(s) ==> AvgDuration(s, st) >= 0.0
    ensures CountState(s, st) > 0 ==>
              AvgDuration(s, st) * CountState(s, st) as real == SumWhere(TimeDiffs(s), StateMask(s, st))
  {
    CountStateZero(s, st);
    if Sorted(s) && |s| > 0 {
      DerivedColumns(s, x => 0.0);
      SumWhereNonNegative(TimeDiffs(s), StateMask(s, st));
    }
  }

  /**
   * The Drag features: the distance is a sum of non-negative steps; with no
   * Drag rows both the distance and the mean speed are 0.
   */
  lemma DragFacts(s: seq<Event>, root: real -> real)
    requires IsRoot(root)
    ensures DragDistance(s, root) >= 0.0
    ensures Sorted(s) ==> DragAvgSpeed(s, root) >= 0.0
    ensures CountState(s, DRAG) == 0 ==> DragAvgSpeed(s, root) == 0.0 && DragDistance(s, root) == 0.0
  {
    if |s| > 0 {
      DerivedColumns(s, root);
      SumWhereNonNegative(Distances(s, root), StateMask(s, DRAG));
      if Sorted(s) {
        SumWhereNonNegative(Speeds(s, root), StateMask(s, DRAG));
      }
    }
    CountStateZero(s, DRAG);
    if CountState(s, DRAG) == 0 {
      SumWhereNone(Distances(s, root), StateMask(s, DRAG));
    }
  }

  /** Idle time sums only gaps above one second: it is between 0 and the batch's time span. */
  lemma IdleTimeBounds(s: seq<Event>)
    requires |s| > 0 && Sorted(s)
    ensures 0.0 <= IdleTime(s) <= TimeSpan(s)
  {
    DerivedColumns(s, x => 0.0);
    SumAboveBetween(TimeDiffs(s), IDLE_GAP);
    TimeDiffsTelescope(s, |s|);
    assert TimeDiffs(s)[..|s|] == TimeDiffs(s);
    SortedEnds(s);
  }

  /**
   * `actions_per_second` is the batch size over the time span when the span
   * is positive and 0 otherwise; on a sorted batch it is positive exactly when
   * the last row is later than the first.
   */
  lemma ActionsPerSecondFacts(s: seq<Event>)
    requires |s| > 0
    ensures ActionsPerSecond(s) >= 0.0
    ensures TimeSpan(s) <= 0.0 ==> ActionsPerSecond(s) == 0.0
    ensures Sorted(s) ==> (ActionsPerSecond(s) > 0.0 <==> s[|s| - 1].recordTimestamp > s[0].recordTimestamp)
  {
    if Sorted(s) {
      SortedEnds(s);
    }
  }

  // ---------------------------------------------------------------------------
  // Worked batches

  /**
   * When no two different rows share a record timestamp, the sort has one
   * result, so the whole feature vector is the same for every arrival order
   * of the batch.
   */
  lemma ExtractOrderFree(a: seq<Event>, b: seq<Event>, root: real -> real)
    requires |a| > 0 && multiset(a) == multiset(b) && KeysDistinct(a, Timestamp)
    ensures |b| > 0 && Extract(a, root) == Extract(b, root)
  {
    assert |multiset(a)| == |a| && |multiset(b)| == |b|;
    SortByUnique(a, b, Timestamp);
  }

  /** A single-row batch: every differential feature is 0 and so is the action rate. */
  lemma SingleEvent(e: Event, root: real -> real)
    requires IsRoot(root)
    ensures AvgSpeed([e], root) == 0.0 && MaxSpeed([e], root) == 0.0
    ensures AvgAcceleration([e], root) == 0.0
    ensures IdleTime([e]) == 0.0 && ActionsPerSecond([e]) == 0.0
    ensures AvgX([e]) == e.x && AvgY([e]) == e.y
  {
    var s := [e];
    assert Speeds(s, root) == [0.0];
    assert Sum([0.0]) == 0.0;
    assert Accelerations(s, root) == [0.0];
    assert TimeDiffs(s) == [0.0];
    assert SumAbove([0.0], IDLE_GAP) == 0.0;
    assert Timestamps(s) == [e.recordTimestamp];
    assert s[1..] == [];
    assert SumOf(s, X) == e.x && SumOf(s, Y) == e.y;
  }

  /**
   * Three rows (t=0 at (0,0) Move, t=0.5 at (3,4) Move, t=1 at (3,4) Pressed):
   * distances 0, 5, 0, speeds 0, 10, 0, so the largest speed is 10.
   */
  lemma ScenarioKinematics(root: real -> real)
    requires IsRoot(root) && root(25.0) == 5.0
    ensures Distances(ScenarioBatch(), root) == [0.0, 5.0, 0.0]
    ensures Speeds(ScenarioBatch(), root) == [0.0, 10.0, 0.0]
    ensures MaxSpeed(ScenarioBatch(), root) == 10.0
  {
    var s := ScenarioBatch();
    var d1 := Square(s[1].x - s[0].x) + Square(s[1].y - s[0].y);
    assert d1 == 25.0;
    assert Distance(s, 1, root) == root(d1);
    var d2 := Square(s[2].x - s[1].x) + Square(s[2].y - s[1].y);
    assert d2 == 0.0;
    assert Distance(s, 2, root) == root(d2);
    assert Distance(s, 2, root) == 0.0;
    assert TimeDiff(s, 1) == 0.5 && TimeDiff(s, 2) == 0.5;
    assert Speed(s, 1, root) == 10.0;
    assert Speed(s, 2, root) == 0.0;
    assert Speeds(s, root) == [0.0, 10.0, 0.0];
    assert MaxOf([10.0, 0.0]) == 10.0 by {
      assert [10.0, 0.0][1..] == [0.0];
    }
    assert [0.0, 10.0, 0.0][1..] == [10.0, 0.0];
  }

  /**
   * The same three rows: two Move rows, one Pressed row, one Move->Pressed
   * transition, and mean position (2, 8/3).
   */
  lemma ScenarioCounts()
    ensures CountState(ScenarioBatch(), MOVE) == 2 && CountState(ScenarioBatch(), PRESSED) == 1
    ensures TransitionCount(ScenarioBatch(), MOVE + ARROW + PRESSED) == 1
    ensures AvgX(ScenarioBatch()) == 2.0 && AvgY(ScenarioBatch()) == 8.0 / 3.0
  {
    var s := ScenarioBatch();
    assert s[1..] == [s[1], s[2]] && s[1..][1..] == [s[2]] && [s[2]][1..] == [];
    assert SumOf(s, X) == 6.0;
    assert SumOf(s, Y) == 8.0;
    TransitionCountIsPairCount(s, MOVE, PRESSED);
  }

  /** The three-row batch of the two scenario lemmas, already in timestamp order. */
  function ScenarioBatch(): (s: seq<Event>)
    ensures |s| == 3
  {
    [Event(0.0, 0.0, 0.0, 0.0, MOVE, NO_BUTTON),
     Event(0.5, 0.0, 3.0, 4.0, MOVE, NO_BUTTON),
     Event(1.0, 0.0, 3.0, 4.0, PRESSED, NO_BUTTON)]
  }
}
