// Curious wandering while nobody talks to the robot: one decision per pass
// of the exploration loop, the motor commands each decision sends, the run
// over a sequence of passes, and the bounded history of camera frames used
// to judge whether a view is new. Sensor readings, the clock and the random
// draws are inputs.

module Exploration {
  import opened Wrappers
  import opened Actions

  const SafeDistance: real := 30.0
  const DangerDistance: real := 15.0
  const ExploreSpeed: nat := 20
  const BackupSpeed: nat := 20
  const MaxExploreDuration: real := 3600.0
  const MaxHistory: nat := 5

  /** The ultrasonic sensor is unreliable below this many centimetres. */
  const MinReliable: real := 2.0
  /** The distance assumed when the reading is missing or unreliable. */
  const AssumedClear: real := 100.0

  // ---------------------------------------------------------------------
  // Sensors
  // ---------------------------------------------------------------------

  /** The distance in cm used for decisions; `None` is a read that raised. */
  function Distance(reading: Option<real>): (d: real)
    ensures reading.Some? && reading.value >= MinReliable ==> d == reading.value
    ensures reading.None? || reading.value < MinReliable ==> d == AssumedClear
    ensures d >= MinReliable
  {
    match reading
    case None => AssumedClear
    case Some(v) => if v < MinReliable then AssumedClear else v
  }

  // ---------------------------------------------------------------------
  // One pass of the loop
  // ---------------------------------------------------------------------

  /** What `explore` returns. */
  datatype Outcome = Timeout | WakeWord | TableMode

  /** What the loop observes in one pass. */
  datatype Tick = Tick(
    elapsed: real,         // seconds since exploration started
    wakeWord: bool,        // the wake-word check fired
    cliff: bool,           // the edge check fired (a failed check reads as no edge)
    reading: Option<real>, // the ultrasonic reading, `None` when the read raised
    draw: nat,             // the random draw behind a turn's magnitude
    negative: bool,        // the random choice of turning left
    thoughtDue: bool)      // the interval between thoughts has passed

  datatype Decision =
    | Finish(outcome: Outcome)
    | BackUp(angle: int)
    | TurnSlightly(angle: int)
    | Cruise(look: bool)

  function Abs(x: int): nat {
    if x < 0 then -x else x
  }

  /** `randint(lo, hi) * choice([-1, 1])`, with the draw and the choice as inputs. */
  function RandomAngle(lo: nat, hi: nat, draw: nat, negative: bool): (a: int)
    requires lo <= hi
    ensures lo <= Abs(a) <= hi
    ensures lo > 0 ==> (a < 0 <==> negative)
  {
    var magnitude := lo + draw % (hi - lo + 1);
    if negative then -magnitude else magnitude
  }

  /** Every angle of either sign within the range is some draw's outcome. */
  lemma RandomAngleCovers(lo: nat, hi: nat, a: int)
    requires lo <= Abs(a) <= hi
    ensures RandomAngle(lo, hi, Abs(a) - lo, a < 0) == a
  {
    assert (Abs(a) - lo) % (hi - lo + 1) == Abs(a) - lo;
  }

  /**
   * The checks of one pass, in the order the loop makes them: the time
   * limit, the wake word, the table edge, and only then the distance zones.
   */
  function Decide(t: Tick, maxDuration: real): (d: Decision)
    ensures d == Finish(Timeout) <==> t.elapsed >= maxDuration
    ensures d == Finish(WakeWord) <==> t.elapsed < maxDuration && t.wakeWord
    ensures d == Finish(TableMode) <==> t.elapsed < maxDuration && !t.wakeWord && t.cliff
    ensures d.BackUp? <==> !d.Finish? && Distance(t.reading) < DangerDistance
    ensures d.TurnSlightly? <==> !d.Finish? && DangerDistance <= Distance(t.reading) < SafeDistance
    ensures d.Cruise? <==> !d.Finish? && Distance(t.reading) >= SafeDistance
    ensures d.BackUp? ==> 30 <= Abs(d.angle) <= 60
    ensures d.TurnSlightly? ==> 10 <= Abs(d.angle) <= 25
  {
    if t.elapsed >= maxDuration then Finish(Timeout)
    else if t.wakeWord then Finish(WakeWord)
    else if t.cliff then Finish(TableMode)
    else
      var distance := Distance(t.reading);
      if distance < DangerDistance then BackUp(RandomAngle(30, 60, t.draw, t.negative))
      else if distance < SafeDistance then TurnSlightly(RandomAngle(10, 25, t.draw, t.negative))
      else Cruise(t.thoughtDue)
  }

  /** The commands a decision sends; a finished run ends with the final stop. */
  function Effects(d: Decision): seq<Command> {
    match d
    case Finish(Timeout) => [Stop]
    case Finish(WakeWord) => [Stop, Stop]
    case Finish(TableMode) => [Stop, Backward(BackupSpeed), Stop, Stop]
    case BackUp(angle) => [Stop, Backward(BackupSpeed), Steer(angle), Backward(BackupSpeed), Steer(0), Stop]
    case TurnSlightly(angle) => [Steer(angle), Forward(ExploreSpeed), Steer(0)]
    case Cruise(look) =>
      [Steer(0), Forward(ExploreSpeed)] + if look then [Stop, Pan(-45), Pan(45), Pan(0)] else []
  }

  /** Some command of the pass drives the car forward. */
  predicate DrivesForward(cs: seq<Command>) {
    exists i :: 0 <= i < |cs| && cs[i].Forward?
  }

  /**
   * The car drives forward in a pass only when exploration goes on and the
   * way ahead is at least the danger distance clear; closer than that it
   * only backs away.
   */
  lemma ForwardNeedsRoom(t: Tick, maxDuration: real)
    ensures DrivesForward(Effects(Decide(t, maxDuration))) ==>
      !Decide(t, maxDuration).Finish? && Distance(t.reading) >= DangerDistance
    ensures !Decide(t, maxDuration).Finish? && Distance(t.reading) >= DangerDistance ==>
      DrivesForward(Effects(Decide(t, maxDuration)))
  {
    var d := Decide(t, maxDuration);
    var cs := Effects(d);
    if d.TurnSlightly? || d.Cruise? {
      assert cs[1].Forward?;
    }
  }

  // ---------------------------------------------------------------------
  // The exploration run
  // ---------------------------------------------------------------------

  /** The result of a run: `None` while it has not finished yet, and everything sent. */
  datatype Explored = Explored(outcome: Option<Outcome>, trace: seq<Command>)

  predicate Finishes(t: Tick, maxDuration: real) {
    Decide(t, maxDuration).Finish?
  }

  /** The loop over the observed passes; it returns at the first pass that finishes. */
  function Explore(ticks: seq<Tick>, maxDuration: real): (r: Explored)
    ensures r.outcome.Some? ==> r.trace != [] && r.trace[|r.trace| - 1] == Stop
    decreases |ticks|
  {
    if ticks == [] then Explored(None, [])
    else
      var d := Decide(ticks[0], maxDuration);
      if d.Finish? then Explored(Some(d.outcome), Effects(d))
      else
        var rest := Explore(ticks[1..], maxDuration);
        Explored(rest.outcome, Effects(d) + rest.trace)
  }

  /**
   * A run finishes exactly when some pass finishes, and its outcome is the
   * one of the first such pass.
   */
  lemma {:induction false} ExploreEndsAtFirstFinish(ticks: seq<Tick>, maxDuration: real)
    ensures Explore(ticks, maxDuration).outcome.Some? <==>
      exists i :: 0 <= i < |ticks| && Finishes(ticks[i], maxDuration)
    ensures Explore(ticks, maxDuration).outcome.Some? ==>
      exists i :: 0 <= i < |ticks| && Decide(ticks[i], maxDuration) == Finish(Explore(ticks, maxDuration).outcome.value)
        && forall j :: 0 <= j < i ==> !Finishes(ticks[j], maxDuration)
    decreases |ticks|
  {
    if ticks != [] {
      var tail := ticks[1..];
      ExploreEndsAtFirstFinish(tail, maxDuration);
      if !Finishes(ticks[0], maxDuration) {
        assert forall i :: 1 <= i < |ticks| ==> ticks[i] == tail[i - 1];
        var r := Explore(ticks, maxDuration);
        if r.outcome.Some? {
          var k :| 0 <= k < |tail| && Decide(tail[k], maxDuration) == Finish(r.outcome.value)
            && forall j :: 0 <= j < k ==> !Finishes(tail[j], maxDuration);
          assert Decide(ticks[k + 1], maxDuration) == Finish(r.outcome.value);
        } else {
          assert forall i :: 1 <= i < |ticks| ==> !Finishes(ticks[i], maxDuration);
        }
      } else {
        assert Decide(ticks[0], maxDuration) == Finish(Explore(ticks, maxDuration).outcome.value);
      }
    }
  }

  // ---------------------------------------------------------------------
  // Novelty of a camera frame
  // ---------------------------------------------------------------------

  /** The most recent frames of a stream, as many as the history holds. */
  function Latest<H>(frames: seq<H>): (r: seq<H>)
    ensures |r| <= MaxHistory
  {
    if |frames| > MaxHistory then frames[|frames| - MaxHistory..] else frames
  }

  /** Append a frame's histogram and drop the oldest beyond `MaxHistory`. */
  function PushFrame<H>(history: seq<H>, h: H): (r: seq<H>)
    ensures |history| <= MaxHistory ==> r == Latest(history + [h])
    ensures r != [] && r[|r| - 1] == h
  {
    var appended := history + [h];
    if |appended| > MaxHistory then appended[1..] else appended
  }

  /** The history after a stream of frames, pushed one by one. */
  function PushFrames<H>(history: seq<H>, frames: seq<H>): seq<H>
    decreases |frames|
  {
    if frames == [] then history else PushFrames(PushFrame(history, frames[0]), frames[1..])
  }

  /**
   * Whatever the stream, a history that starts within its bound holds the
   * most recent frames, as many as fit, oldest first.
   */
  lemma {:induction false} PushFramesKeepsLatest<H>(history: seq<H>, frames: seq<H>)
    requires |history| <= MaxHistory
    ensures PushFrames(history, frames) == Latest(history + frames)
    decreases |frames|
  {
    if frames == [] {
      assert history + frames == history;
    } else {
      var s := history + [frames[0]];
      var t := frames[1..];
      PushFramesKeepsLatest(Latest(s), t);
      LatestAbsorbs(s, t);
      assert s + t == history + frames by {
        assert [frames[0]] + t == frames;
      }
    }
  }

  /** Trimming a stream early to its latest frames does not change its latest frames later. */
  lemma LatestAbsorbs<H>(s: seq<H>, t: seq<H>)
    ensures Latest(Latest(s) + t) == Latest(s + t)
  {
    var n := Latest(s);
    if |s| > MaxHistory {
      SuffixOfSuffix(s, n, t, |Latest(n + t)|);
    }
  }

  /** A suffix of `s + t` where `n` is a suffix of `s` and the cut lies inside `n + t`. */
  lemma SuffixOfSuffix<H>(s: seq<H>, n: seq<H>, t: seq<H>, k: nat)
    requires |n| <= |s| && n == s[|s| - |n|..]
    requires k <= |n| + |t|
    ensures (n + t)[|n| + |t| - k..] == (s + t)[|s| + |t| - k..]
  {
    var a := (n + t)[|n| + |t| - k..];
    var b := (s + t)[|s| + |t| - k..];
    assert |a| == |b|;
    forall i | 0 <= i < |a| ensures a[i] == b[i] {
      if |n| + |t| - k + i < |n| {
        assert a[i] == n[|n| + |t| - k + i] == s[|s| - |n| + |n| + |t| - k + i];
      }
    }
  }

  function Sum(xs: seq<real>): real
    decreases |xs|
  {
    if xs == [] then 0.0 else xs[0] + Sum(xs[1..])
  }

  lemma {:induction false} SumAtMost(xs: seq<real>, bound: real)
    requires forall i :: 0 <= i < |xs| ==> xs[i] <= bound
    ensures Sum(xs) <= |xs| as real * bound
    decreases |xs|
  {
    if xs != [] {
      SumAtMost(xs[1..], bound);
    }
  }

  /**
   * The novelty of a frame and the history after it. `similarity` is the
   * histogram correlation of two frames, an input here.
   */
  function Novelty<H(==)>(history: seq<H>, frame: Option<H>, similarity: (H, H) -> real): (r: (real, seq<H>))
    ensures frame.None? ==> r == (0.0, history)
    ensures frame.Some? && history == [] ==> r == (1.0, [frame.value])
    ensures frame.Some? ==> r.1 == PushFrame(history, frame.value)
    ensures r.0 <= 1.0
  {
    match frame
    case None => (0.0, history)
    case Some(h) =>
      if history == [] then (1.0, [h])
      else
        var average := Sum(Similarities(history, h, similarity)) / |history| as real;
        (1.0 - (if average > 0.0 then average else 0.0), PushFrame(history, h))
  }

  function Similarities<H>(history: seq<H>, h: H, similarity: (H, H) -> real): (r: seq<real>)
    ensures |r| == |history|
    ensures forall i :: 0 <= i < |history| ==> r[i] == similarity(h, history[i])
  {
    seq(|history|, i requires 0 <= i < |history| => similarity(h, history[i]))
  }

  /** With correlations at most 1, as histogram correlations are, the novelty is at least 0. */
  lemma NoveltyInRange<H>(history: seq<H>, h: H, similarity: (H, H) -> real)
    requires forall i :: 0 <= i < |history| ==> similarity(h, history[i]) <= 1.0
    ensures 0.0 <= Novelty(history, Some(h), similarity).0 <= 1.0
  {
    if history != [] {
      SumAtMost(Similarities(history, h, similarity), 1.0);
    }
  }
}
