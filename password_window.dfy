/**
 * The password window of main.py (`PasswordWindow`): it records pointer
 * motion as labelled samples in a rolling buffer of at most 100, skipping
 * motion over the control frame, and gates a login attempt on the number of
 * samples, then the password, then the anomaly score of the samples'
 * features.
 *
 * The clock (`time.time()`), the control frame's screen box and the pointer
 * event are parameters of each motion; the trained model is its scoring
 * function `scorer`, an oracle from the 23 features to a score. Window
 * drawing and message boxes are not modelled.
 */
module PasswordCapture {
  import opened Wrappers
  import opened FeatureExtract

  /** `deque(maxlen=100)`. */
  const MaxSamples: nat := 100
  /** Fewer samples than this are rejected before anything else is checked. */
  const MinSamples: nat := 10
  /** The modifier masks `event.state` is compared with. */
  const LeftMask: int := 256
  const RightMask: int := 512
  /** An attempt passes when the mean score is above this. */
  const ScoreThreshold: real := -0.5
  const CorrectPassword: string := "haslo"
  /** Time gaps above this many seconds label a moved sample Released. */
  const ReleaseGap: real := 1.0

  /** The trained model, as the score it gives a feature row. */
  type Scorer = FeatureVector -> real

  type Point = (int, int)

  /** The control frame in screen coordinates: its root corner and its size. */
  datatype Box = Box(x1: int, y1: int, width: int, height: int)

  /** A `<Motion>` event: window position, screen position and modifier mask. */
  datatype Motion = Motion(x: int, y: int, xRoot: int, yRoot: int, mask: int)

  /** The screen point lies in the box, edges included. */
  predicate Inside(b: Box, sx: int, sy: int)
  {
    b.x1 <= sx <= b.x1 + b.width && b.y1 <= sy <= b.y1 + b.height
  }

  /**
   * The squared Euclidean distance; the source compares the distance itself
   * with 0, which holds exactly when this does.
   */
  function SquaredDistance(a: Point, b: Point): (d: int)
    ensures d >= 0
    ensures d == 0 <==> a == b
  {
    var dx, dy := a.0 - b.0, a.1 - b.1;
    assert dx * dx >= 0 && dy * dy >= 0;
    assert dx != 0 ==> dx * dx > 0;
    assert dy != 0 ==> dy * dy > 0;
    dx * dx + dy * dy
  }

  datatype Label = Label(state: string, button: string)

  /**
   * The labels of a sample from its displacement, time gap and modifier
   * mask: a held left or right button (mask exactly 256 or 512) is Pressed
   * with that button; otherwise no button, Pressed when the pointer did not
   * move, Released when it moved after a gap above one second, Move else.
   */
  function Classify(distance2: int, timeDiff: real, mask: int): (l: Label)
    ensures l.button == LEFT <==> mask == LeftMask
    ensures l.button == RIGHT <==> mask == RightMask
    ensures l.button == NO_BUTTON <==> mask != LeftMask && mask != RightMask
    ensures l.state == PRESSED <==> mask == LeftMask || mask == RightMask || distance2 == 0
    ensures l.state == RELEASED <==>
              mask != LeftMask && mask != RightMask && distance2 != 0 && timeDiff > ReleaseGap
    ensures l.state == MOVE <==>
              mask != LeftMask && mask != RightMask && distance2 != 0 && timeDiff <= ReleaseGap
  {
    var state := if distance2 == 0 then PRESSED else if timeDiff > ReleaseGap then RELEASED else MOVE;
    if mask == LeftMask then Label(PRESSED, LEFT)
    else if mask == RightMask then Label(PRESSED, RIGHT)
    else Label(state, NO_BUTTON)
  }

  // ---------------------------------------------------------------------------
  // The rolling buffer

  /** `deque.append` on a deque bounded by MaxSamples: when full, the oldest sample goes. */
  function Push(buf: seq<Event>, e: Event): (r: seq<Event>)
    requires |buf| <= MaxSamples
    ensures |r| == if |buf| < MaxSamples then |buf| + 1 else MaxSamples
    ensures r[|r| - 1] == e
    ensures forall i :: 0 <= i < |r| - 1 ==> r[i] == buf[|buf| + 1 - |r| + i]
  {
    if |buf| < MaxSamples then buf + [e] else buf[1..] + [e]
  }

  /** The newest MaxSamples of a history. */
  function Newest(xs: seq<Event>): seq<Event>
  {
    if |xs| <= MaxSamples then xs else xs[|xs| - MaxSamples..]
  }

  /** Appending every sample of `xs`, in order, to `buf`. */
  function PushAll(buf: seq<Event>, xs: seq<Event>): (r: seq<Event>)
    requires |buf| <= MaxSamples
    ensures |r| <= MaxSamples
  {
    if xs == [] then buf else Push(PushAll(buf, xs[..|xs| - 1]), xs[|xs| - 1])
  }

  /** One more sample keeps the buffer the newest MaxSamples of the history. */
  lemma NewestStep(xs: seq<Event>, x: Event)
    ensures |Newest(xs)| <= MaxSamples
    ensures Newest(xs + [x]) == Push(Newest(xs), x)
  {
    var ys := xs + [x];
    if |xs| >= MaxSamples {
      assert Newest(xs)[1..] + [x] == ys[|ys| - MaxSamples..];
    }
  }

  /**
   * However many samples are appended to an empty buffer, it holds exactly
   * the newest MaxSamples of them, oldest first.
   */
  lemma {:induction false} PushAllKeepsNewest(xs: seq<Event>)
    ensures PushAll([], xs) == Newest(xs)
  {
    if xs != [] {
      var init, last := xs[..|xs| - 1], xs[|xs| - 1];
      assert xs == init + [last];
      PushAllKeepsNewest(init);
      NewestStep(init, last);
    }
  }

  // ---------------------------------------------------------------------------
  // One motion event

  /** The capture state: the buffer, the previous position and time, and the first capture time. */
  datatype Capture = Capture(
    samples: seq<Event>,
    lastPosition: Option<Point>,
    lastTime: Option<real>,
    startTime: Option<real>)

  /** The buffer is bounded, and a previous position is kept exactly when a previous time is. */
  ghost predicate Consistent(c: Capture)
  {
    |c.samples| <= MaxSamples && (c.lastPosition.None? <==> c.lastTime.None?)
  }

  /** `if self.last_position and self.last_time`: a time of 0.0 is false in Python. */
  predicate HasPrevious(c: Capture)
  {
    c.lastPosition.Some? && c.lastTime.Some? && c.lastTime.value != 0.0
  }

  /** The sample recorded for motion `m` at time `now`, with capture start `start`. */
  function SampleOf(c: Capture, m: Motion, now: real, start: real): (e: Event)
    requires HasPrevious(c)
    ensures e.recordTimestamp == now - start && e.clientTimestamp == now
    ensures e.x == m.x as real && e.y == m.y as real
    ensures Label(e.state, e.button)
            == Classify(SquaredDistance((m.x, m.y), c.lastPosition.value), now - c.lastTime.value, m.mask)
  {
    var l := Classify(SquaredDistance((m.x, m.y), c.lastPosition.value), now - c.lastTime.value, m.mask);
    Event(now - start, now, m.x as real, m.y as real, l.state, l.button)
  }

  /**
   * `on_mouse_move`: over the control frame the previous position and time
   * are forgotten and nothing else changes; elsewhere the capture start is
   * fixed on first use, a sample is appended when there is a previous
   * position and time, and the current position and time become the
   * previous ones.
   */
  function MoveStep(c: Capture, m: Motion, now: real, frame: Box): (d: Capture)
    requires |c.samples| <= MaxSamples
    ensures Consistent(d)
    ensures Inside(frame, m.xRoot, m.yRoot) ==> d == c.(lastPosition := None, lastTime := None)
    ensures !Inside(frame, m.xRoot, m.yRoot) ==>
              && d.lastPosition == Some((m.x, m.y)) && d.lastTime == Some(now)
              && d.startTime == Some(if c.startTime.Some? then c.startTime.value else now)
    ensures d.samples != c.samples ==> !Inside(frame, m.xRoot, m.yRoot) && HasPrevious(c)
    ensures !Inside(frame, m.xRoot, m.yRoot) && HasPrevious(c) ==>
              d.samples == Push(c.samples, SampleOf(c, m, now, d.startTime.value))
  {
    if Inside(frame, m.xRoot, m.yRoot) then c.(lastPosition := None, lastTime := None)
    else
      var start := if c.startTime.Some? then c.startTime.value else now;
      var samples := if HasPrevious(c) then Push(c.samples, SampleOf(c, m, now, start)) else c.samples;
      Capture(samples, Some((m.x, m.y)), Some(now), Some(start))
  }

  /** A run of motion events: event, clock reading and control frame box. */
  datatype Tick = Tick(motion: Motion, now: real, frame: Box)

  function Replay(c: Capture, ticks: seq<Tick>): (d: Capture)
    requires |c.samples| <= MaxSamples
    ensures |d.samples| <= MaxSamples
  {
    if ticks == [] then c
    else
      var t := ticks[|ticks| - 1];
      MoveStep(Replay(c, ticks[..|ticks| - 1]), t.motion, t.now, t.frame)
  }

  /**
   * From any consistent state, any run of motion keeps the buffer within
   * MaxSamples and the previous position and time set or reset together.
   */
  lemma {:induction false} ReplayConsistent(c: Capture, ticks: seq<Tick>)
    requires Consistent(c)
    ensures Consistent(Replay(c, ticks))
  {
    if ticks != [] {
      ReplayConsistent(c, ticks[..|ticks| - 1]);
    }
  }

  /** A motion with no previous position only primes the previous position and time. */
  lemma FirstMotionOnlyPrimes(c: Capture, m: Motion, now: real, frame: Box)
    requires |c.samples| <= MaxSamples && c.lastPosition.None?
    ensures MoveStep(c, m, now, frame).samples == c.samples
  {
  }

  // ---------------------------------------------------------------------------
  // Authentication

  datatype AuthOutcome =
    | TooFewSamples      // "Please move your mouse more"
    | WrongPassword      // "Incorrect password"
    | Accepted           // "Authentication successful!"
    | UnusualMovement    // "Unusual mouse movement detected"

  /**
   * `authenticate`'s verdict: the sample count first, then the password, then
   * the score of the samples' features against the threshold.
   */
  function Verdict(samples: seq<Event>, entered: string, scorer: Scorer,
                   extract: seq<Event> --> FeatureVector): AuthOutcome
    requires ExtractsBatches(extract)
  {
    if |samples| < MinSamples then TooFewSamples
    else if entered != CorrectPassword then WrongPassword
    else if scorer(extract(samples)) > ScoreThreshold then Accepted
    else UnusualMovement
  }

  /**
   * The gates are applied in order: with too few samples neither the password
   * nor the model is consulted; with a wrong password the model is not
   * consulted; and an attempt is accepted exactly when there are enough
   * samples, the password is right and the score is above the threshold.
   */
  lemma GateOrder(samples: seq<Event>, entered: string, other: string, scorer: Scorer, scorer2: Scorer,
                  extract: seq<Event> --> FeatureVector)
    requires ExtractsBatches(extract)
    ensures |samples| < MinSamples ==>
              Verdict(samples, entered, scorer, extract) == Verdict(samples, other, scorer2, extract) == TooFewSamples
    ensures |samples| >= MinSamples && entered != CorrectPassword ==>
              Verdict(samples, entered, scorer, extract) == Verdict(samples, entered, scorer2, extract) == WrongPassword
    ensures Verdict(samples, entered, scorer, extract) == Accepted <==>
              |samples| >= MinSamples && entered == CorrectPassword && scorer(extract(samples)) > ScoreThreshold
  {
  }

  /** `PasswordWindow`: the capture state of one login attempt for one user. */
  class PasswordWindow {
    const username: string
    const scorer: Scorer
    var mouseData: seq<Event>
    var lastPosition: Option<Point>
    var lastTime: Option<real>
    var startTime: Option<real>
    /** `self.parent.destroy()` ran: the application closed after a successful login. */
    var closed: bool

    ghost predicate Valid()
      reads this
    {
      Consistent(State())
    }

    function State(): Capture
      reads this
    {
      Capture(mouseData, lastPosition, lastTime, startTime)
    }

    constructor (username: string, scorer: Scorer)
      ensures Valid()
      ensures this.username == username && this.scorer == scorer
      ensures State() == Capture([], None, None, None) && !closed
    {
      this.username := username;
      this.scorer := scorer;
      mouseData := [];
      lastPosition := None;
      lastTime := None;
      startTime := None;
      closed := false;
    }

    /** The labelling steps of `on_mouse_move`, from the squared displacement, time gap and mask. */
    static method LabelMotion(distance2: int, timeDiff: real, mask: int) returns (state: string, button: string)
      ensures Label(state, button) == Classify(distance2, timeDiff, mask)
    {
      button := NO_BUTTON;
      state := MOVE;
      if distance2 == 0 {
        state := PRESSED;
      } else if timeDiff > ReleaseGap {
        state := RELEASED;
      }
      if mask == LeftMask {
        button := LEFT;
        state := PRESSED;
      } else if mask == RightMask {
        button := RIGHT;
        state := PRESSED;
      }
    }

    /** `on_mouse_move` with clock reading `now` and the control frame at `frame`. */
    method OnMouseMove(m: Motion, now: real, frame: Box)
      requires Valid()
      modifies this`mouseData, this`lastPosition, this`lastTime, this`startTime
      ensures Valid()
      ensures State() == MoveStep(old(State()), m, now, frame)
    {
      var currentPos := (m.x, m.y);
      if Inside(frame, m.xRoot, m.yRoot) {
        lastPosition := None;
        lastTime := None;
      } else {
        if startTime.None? {
          startTime := Some(now);
        }
        var recordTimestamp := now - startTime.value;
        var clientTimestamp := now;
        if lastPosition.Some? && lastTime.Some? && lastTime.value != 0.0 {
          var timeDiff := now - lastTime.value;
          var distance2 := SquaredDistance(currentPos, lastPosition.value);
          var state, button := LabelMotion(distance2, timeDiff, m.mask);
          mouseData := Push(mouseData, Event(recordTimestamp, clientTimestamp, m.x as real, m.y as real,
                                             state, button));
        }
        lastPosition := Some(currentPos);
        lastTime := Some(now);
      }
    }

    /**
     * `authenticate` with the text of the password entry and the feature
     * extractor it applies (`FeatureExtractor`): the verdict of the
     * gates; an unusual movement empties the buffer, a success closes the
     * application, and the other outcomes change nothing.
     */
    method Authenticate(entered: string, extract: seq<Event> --> FeatureVector) returns (outcome: AuthOutcome)
      requires Valid() && ExtractsBatches(extract)
      modifies this`mouseData, this`closed
      ensures Valid()
      ensures outcome == Verdict(old(mouseData), entered, scorer, extract)
      ensures mouseData == (if outcome == UnusualMovement then [] else old(mouseData))
      ensures closed == (old(closed) || outcome == Accepted)
    {
      if |mouseData| < MinSamples {
        return TooFewSamples;
      }
      if entered != CorrectPassword {
        return WrongPassword;
      }
      var features := extract(mouseData);
      var score := scorer(features);
      if score > ScoreThreshold {
        closed := true;
        return Accepted;
      }
      mouseData := [];
      return UnusualMovement;
    }
  }
}
