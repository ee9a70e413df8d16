// The decisions of the phone-app driving program: line following from the
// grayscale sensor, obstacle avoidance from the ultrasonic distance, the
// driving joystick and the camera joystick. Each step yields the commands
// it sends to the motor and servo controller.

module AppControl {
  import opened Wrappers
  import opened Actions

  const AvoidObstaclesSpeed: nat := 40
  const SafeDistance: real := 40.0
  const DangerDistance: real := 20.0
  const LineTrackSpeed: nat := 10
  const LineTrackAngleOffset: int := 20

  // ---------------------------------------------------------------------
  // Obstacle avoidance
  // ---------------------------------------------------------------------

  /** One avoidance step on the raw distance reading (which is not sanitised here). */
  function AvoidObstacles(distance: real): (cs: seq<Command>)
    ensures |cs| == 2
    ensures cs[1].Forward? <==> distance >= DangerDistance
    ensures cs[1].Backward? <==> distance < DangerDistance
    ensures cs[1] == Forward(AvoidObstaclesSpeed) || cs[1] == Backward(AvoidObstaclesSpeed)
    ensures cs[0] == Steer(0) <==> distance >= SafeDistance
    ensures cs[0] == Steer(30) <==> DangerDistance <= distance < SafeDistance
    ensures cs[0] == Steer(-30) <==> distance < DangerDistance
  {
    if distance >= SafeDistance then [Steer(0), Forward(AvoidObstaclesSpeed)]
    else if distance >= DangerDistance then [Steer(30), Forward(AvoidObstaclesSpeed)]
    else [Steer(-30), Backward(AvoidObstaclesSpeed)]
  }

  /**
   * The car never heads straight on while something is nearer than the safe
   * distance, and never drives forward at all nearer than the danger distance.
   */
  lemma AvoidanceKeepsClear(distance: real)
    ensures distance < SafeDistance ==> AvoidObstacles(distance)[0] != Steer(0)
    ensures distance < DangerDistance ==> !DrivesAhead(AvoidObstacles(distance))
    ensures distance >= DangerDistance ==> DrivesAhead(AvoidObstacles(distance))
  {
  }

  predicate DrivesAhead(cs: seq<Command>) {
    exists i :: 0 <= i < |cs| && cs[i].Forward?
  }

  // ---------------------------------------------------------------------
  // Line following
  // ---------------------------------------------------------------------

  /** The three grayscale line flags, in the order the controller reports them. */
  datatype LineStatus = LineStatus(first: int, middle: int, last: int)

  datatype LineState = OnStop | OnForward | OnLeft | OnRight

  /**
   * `get_status`: which way the line lies. `None` is the fall-through of the
   * source for flags that match no branch (any flag other than 0 and 1).
   */
  function GetStatus(s: LineStatus): (r: Option<LineState>)
    ensures r == Some(OnStop) <==> s == LineStatus(0, 0, 0)
    ensures r == Some(OnForward) <==> s != LineStatus(0, 0, 0) && s.middle == 1
    ensures r == Some(OnRight) <==> s != LineStatus(0, 0, 0) && s.middle != 1 && s.first == 1
    ensures r == Some(OnLeft) <==> s != LineStatus(0, 0, 0) && s.middle != 1 && s.first != 1 && s.last == 1
  {
    if s == LineStatus(0, 0, 0) then Some(OnStop)
    else if s.middle == 1 then Some(OnForward)
    else if s.first == 1 then Some(OnRight)
    else if s.last == 1 then Some(OnLeft)
    else None
  }

  predicate IsBit(x: int) {
    x == 0 || x == 1
  }

  /**
   * On 0/1 flags every status is classified, it is `stop` only when no flag
   * is set, and a set middle flag always means straight on.
   */
  lemma GetStatusOnFlags(s: LineStatus)
    requires IsBit(s.first) && IsBit(s.middle) && IsBit(s.last)
    ensures GetStatus(s).Some?
    ensures GetStatus(s) == Some(OnStop) <==> s.first == 0 && s.middle == 0 && s.last == 0
    ensures s.middle == 1 ==> GetStatus(s) == Some(OnForward)
  {
  }

  /** The state after a line-following step: the remembered direction and the commands sent. */
  datatype LineTracked = LineTracked(last: Option<LineState>, commands: seq<Command>)

  /** One line-following step; `last` is the remembered direction. */
  function LineTrack(last: Option<LineState>, s: LineStatus): (r: LineTracked)
    ensures GetStatus(s) == Some(OnStop) ==> r.last == last
    ensures GetStatus(s) != Some(OnStop) ==> r.last == GetStatus(s)
    ensures r.commands == [] <==> GetStatus(s) == Some(OnStop) || GetStatus(s).None?
    ensures r.commands != [] ==> |r.commands| == 2 && r.commands[1] == Forward(LineTrackSpeed)
    ensures GetStatus(s) == Some(OnForward) ==> r.commands[0] == Steer(0)
    ensures GetStatus(s) == Some(OnLeft) ==> r.commands[0] == Steer(LineTrackAngleOffset)
    ensures GetStatus(s) == Some(OnRight) ==> r.commands[0] == Steer(-LineTrackAngleOffset)
  {
    var state := GetStatus(s);
    var remembered := if state != Some(OnStop) then state else last;
    var commands :=
      match state
      case Some(OnForward) => [Steer(0), Forward(LineTrackSpeed)]
      case Some(OnLeft) => [Steer(LineTrackAngleOffset), Forward(LineTrackSpeed)]
      case Some(OnRight) => [Steer(-LineTrackAngleOffset), Forward(LineTrackSpeed)]
      case _ => [];
    LineTracked(remembered, commands)
  }

  /** The remembered direction after following a stream of readings. */
  function LineTrackAll(last: Option<LineState>, readings: seq<LineStatus>): Option<LineState>
    decreases |readings|
  {
    if readings == [] then last else LineTrackAll(LineTrack(last, readings[0]).last, readings[1..])
  }

  /**
   * The direction a stream of readings last showed: the status of its latest
   * reading that was not `stop`, or `last` when every reading was `stop`.
   */
  function LastMove(last: Option<LineState>, readings: seq<LineStatus>): Option<LineState>
    decreases |readings|
  {
    if readings == [] then last
    else
      var latest := GetStatus(readings[|readings| - 1]);
      if latest != Some(OnStop) then latest else LastMove(last, readings[..|readings| - 1])
  }

  /** Line following remembers the direction the readings last showed. */
  lemma {:induction false} LineTrackRemembersLastMove(last: Option<LineState>, readings: seq<LineStatus>)
    ensures LineTrackAll(last, readings) == LastMove(last, readings)
    decreases |readings|
  {
    if readings != [] {
      var init := readings[..|readings| - 1];
      var x := readings[|readings| - 1];
      assert init + [x] == readings;
      LineTrackAllSnoc(last, init, x);
      LineTrackRemembersLastMove(last, init);
    }
  }

  lemma {:induction false} LineTrackAllSnoc(last: Option<LineState>, readings: seq<LineStatus>, x: LineStatus)
    ensures LineTrackAll(last, readings + [x]) == LineTrack(LineTrackAll(last, readings), x).last
    decreases |readings|
  {
    if readings == [] {
      assert readings + [x] == [x];
    } else {
      assert (readings + [x])[1..] == readings[1..] + [x];
      LineTrackAllSnoc(LineTrack(last, readings[0]).last, readings[1..], x);
    }
  }

  // ---------------------------------------------------------------------
  // Joysticks
  // ---------------------------------------------------------------------

  /** The driving joystick: `steer` is its x axis already mapped to a steering angle. */
  datatype Driven = Driven(speed: int, commands: seq<Command>)

  function Drive(steer: int, speed: int): (r: Driven)
    ensures r.speed == speed && |r.commands| == 2 && r.commands[0] == Steer(steer)
    ensures speed > 0 <==> r.commands[1].Forward?
    ensures speed < 0 <==> r.commands[1].Backward?
    ensures speed == 0 <==> r.commands[1] == Stop
    ensures r.commands[1].Forward? ==> r.commands[1].speed == speed
    ensures r.commands[1].Backward? ==> r.commands[1].speed == -speed
  {
    if speed > 0 then Driven(speed, [Steer(steer), Forward(speed)])
    else if speed < 0 then Driven(speed, [Steer(steer), Backward(-speed)])
    else Driven(speed, [Steer(steer), Stop])
  }

  const PanLimit: int := 90
  const TiltDown: int := -35
  const TiltUp: int := 65

  function Max(a: int, b: int): int {
    if a >= b then a else b
  }

  function Min(a: int, b: int): int {
    if a <= b then a else b
  }

  /** The camera joystick of the driving program: `min(hi, max(lo, x))` per axis. */
  function CameraAim(x: int, y: int): (r: (int, int))
    ensures -PanLimit <= r.0 <= PanLimit && TiltDown <= r.1 <= TiltUp
    ensures -PanLimit <= x <= PanLimit ==> r.0 == x
    ensures TiltDown <= y <= TiltUp ==> r.1 == y
    ensures x < -PanLimit ==> r.0 == -PanLimit
    ensures x > PanLimit ==> r.0 == PanLimit
    ensures y < TiltDown ==> r.1 == TiltDown
    ensures y > TiltUp ==> r.1 == TiltUp
  {
    (Min(PanLimit, Max(-PanLimit, x)), Min(TiltUp, Max(TiltDown, y)))
  }

  /** The camera joystick handled by the voice assistant: `max(lo, min(hi, x))` per axis. */
  function AssistantCameraAim(x: int, y: int): (r: (int, int)) {
    (Max(-PanLimit, Min(PanLimit, x)), Max(TiltDown, Min(TiltUp, y)))
  }

  /** Both programs aim the camera the same way. */
  lemma CameraAimsAgree(x: int, y: int)
    ensures AssistantCameraAim(x, y) == CameraAim(x, y)
  {
  }

  /** Aiming at an aim already within the limits leaves it there. */
  lemma CameraAimIdempotent(x: int, y: int)
    ensures CameraAim(CameraAim(x, y).0, CameraAim(x, y).1) == CameraAim(x, y)
  {
  }
}
