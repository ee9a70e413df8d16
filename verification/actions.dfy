// The robot's action library: named body and head movements, the registry
// that maps names to them, and the dispatcher with its table-mode gate.
// Actuator effects are recorded as a trace of commands; the pauses
// between commands are not modelled.

module Actions {
  import opened Wrappers
  import opened Text

  /** One call into the motor and servo controller. */
  datatype Command =
    | Steer(angle: int)
    | Forward(speed: nat)
    | Backward(speed: nat)
    | Stop
    | Pan(angle: int)
    | Tilt(angle: int)

  datatype Action =
    | MoveForward | MoveBackward | TurnLeft | TurnRight | StopMoving | RockBackForth | Dance
    | LookUp | LookDown | LookLeft | LookRight | LookAround | LookAtPerson | Nod | ShakeHead | TiltHead

  /** Body movements: blocked in table mode. */
  const BodyActions: map<string, Action> := map[
    "move_forward" := MoveForward,
    "move_backward" := MoveBackward,
    "turn_left" := TurnLeft,
    "turn_right" := TurnRight,
    "stop" := StopMoving,
    "rock_back_forth" := RockBackForth,
    "dance" := Dance
  ]

  /** Head movements: always allowed. */
  const HeadActions: map<string, Action> := map[
    "look_up" := LookUp,
    "look_down" := LookDown,
    "look_left" := LookLeft,
    "look_right" := LookRight,
    "look_around" := LookAround,
    "look_at_person" := LookAtPerson,
    "nod" := Nod,
    "shake_head" := ShakeHead,
    "tilt_head" := TiltHead
  ]

  /** Both registries merged, head entries last. */
  function AllActions(): (m: map<string, Action>)
    ensures m.Keys == BodyActions.Keys + HeadActions.Keys
  {
    BodyActions + HeadActions
  }

  predicate IsHeadAction(a: Action) {
    a in {LookUp, LookDown, LookLeft, LookRight, LookAround, LookAtPerson, Nod, ShakeHead, TiltHead}
  }

  /** The two registries share no name. */
  lemma RegistriesDisjoint()
    ensures BodyActions.Keys !! HeadActions.Keys
  {
  }

  /** Each registry holds only its own kind of movement. */
  lemma RegistryKinds()
    ensures forall n :: n in HeadActions ==> IsHeadAction(HeadActions[n])
    ensures forall n :: n in BodyActions ==> !IsHeadAction(BodyActions[n])
  {
  }

  // ---------------------------------------------------------------------
  // Effects
  // ---------------------------------------------------------------------

  function Repeat(n: nat, cs: seq<Command>): (r: seq<Command>)
    ensures |r| == n * |cs|
  {
    if n == 0 then [] else cs + Repeat(n - 1, cs)
  }

  /** The camera sweep of `look_around`, which `dance` ends with too. */
  const Sweep: seq<Command> := [Pan(-60), Pan(0), Pan(60), Pan(0)]

  /** The commands an action sends, in order. */
  function Effects(a: Action): seq<Command> {
    match a
    case MoveForward => [Steer(0), Forward(30), Stop]
    case MoveBackward => [Steer(0), Backward(30), Stop]
    case TurnLeft => [Steer(-30), Forward(30), Stop, Steer(0)]
    case TurnRight => [Steer(30), Forward(30), Stop, Steer(0)]
    case StopMoving => [Stop]
    case RockBackForth => Repeat(4, [Forward(40), Backward(40)]) + [Stop]
    case Dance =>
      Repeat(3, [Steer(-20), Forward(30), Steer(20), Backward(30)]) + [Steer(0), Stop] + Sweep
    case LookUp => [Tilt(30)]
    case LookDown => [Tilt(-30)]
    case LookLeft => [Pan(-45)]
    case LookRight => [Pan(45)]
    case LookAround => Sweep
    case LookAtPerson => [Pan(0), Tilt(0)]
    case Nod => Repeat(3, [Tilt(-15), Tilt(10)]) + [Tilt(0)]
    case ShakeHead => Repeat(3, [Pan(-25), Pan(25)]) + [Pan(0)]
    case TiltHead => [Pan(20), Tilt(-10)]
  }

  predicate IsHeadCommand(c: Command) {
    c.Pan? || c.Tilt?
  }

  predicate HeadOnly(cs: seq<Command>) {
    forall i :: 0 <= i < |cs| ==> IsHeadCommand(cs[i])
  }

  lemma HeadOnlyAppend(a: seq<Command>, b: seq<Command>)
    requires HeadOnly(a) && HeadOnly(b)
    ensures HeadOnly(a + b)
  {
    assert forall i :: 0 <= i < |a + b| ==> (a + b)[i] == if i < |a| then a[i] else b[i - |a|];
  }

  lemma {:induction false} RepeatHeadOnly(n: nat, cs: seq<Command>)
    requires HeadOnly(cs)
    ensures HeadOnly(Repeat(n, cs))
  {
    if n > 0 {
      RepeatHeadOnly(n - 1, cs);
      HeadOnlyAppend(cs, Repeat(n - 1, cs));
    }
  }

  /** A head action only moves the camera: no steering, driving or stopping. */
  lemma HeadActionMovesHeadOnly(a: Action)
    requires IsHeadAction(a)
    ensures HeadOnly(Effects(a))
  {
    match a
    case Nod =>
      RepeatHeadOnly(3, [Tilt(-15), Tilt(10)]);
      HeadOnlyAppend(Repeat(3, [Tilt(-15), Tilt(10)]), [Tilt(0)]);
    case ShakeHead =>
      RepeatHeadOnly(3, [Pan(-25), Pan(25)]);
      HeadOnlyAppend(Repeat(3, [Pan(-25), Pan(25)]), [Pan(0)]);
    case _ =>
  }

  // ---------------------------------------------------------------------
  // Dispatch
  // ---------------------------------------------------------------------

  /** The outcome of one dispatch: whether it ran to completion, and what it sent. */
  datatype Executed = Executed(ok: bool, trace: seq<Command>)

  /** Names are looked up lower-cased and stripped. */
  function Canonical(name: string): string {
    Strip(LowerStr(name))
  }

  /** Lower-casing and stripping a canonical name changes nothing. */
  lemma CanonicalIdempotent(name: string)
    ensures Canonical(Canonical(name)) == Canonical(name)
  {
    var c := Canonical(name);
    LowerIdempotent(name);
    StripLower(LowerStr(name));
    LowerOfLower(c);
    StripStripped(c);
  }

  /**
   * Run the named action. `fault` is the position of the command at which
   * the controller raises, if it does; the commands before it have been sent.
   */
  function ExecuteAction(name: string, tableMode: bool, fault: Option<nat>): (r: Executed)
    ensures tableMode && Canonical(name) in BodyActions ==> r == Executed(false, [])
    ensures Canonical(name) !in AllActions() ==> r == Executed(false, [])
    ensures r.ok <==>
      && Canonical(name) in AllActions()
      && !(tableMode && Canonical(name) in BodyActions)
      && (fault.None? || fault.value >= |Effects(AllActions()[Canonical(name)])|)
    ensures Canonical(name) in AllActions() && !(tableMode && Canonical(name) in BodyActions) ==>
      r.trace <= Effects(AllActions()[Canonical(name)])
    ensures r.ok ==> r.trace == Effects(AllActions()[Canonical(name)])
    ensures (&& Canonical(name) in AllActions()
             && !(tableMode && Canonical(name) in BodyActions)
             && fault.Some? && fault.value < |Effects(AllActions()[Canonical(name)])|) ==>
      r.trace == Effects(AllActions()[Canonical(name)])[..fault.value]
  {
    var n := Canonical(name);
    if tableMode && n in BodyActions then Executed(false, [])
    else if n in AllActions() then
      var e := Effects(AllActions()[n]);
      match fault
      case Some(k) => if k < |e| then Executed(false, e[..k]) else Executed(true, e)
      case None => Executed(true, e)
    else Executed(false, [])
  }

  /** Case and surrounding whitespace in a name do not change what runs. */
  lemma DispatchIgnoresCaseAndPadding(name: string, tableMode: bool, fault: Option<nat>)
    ensures ExecuteAction(name, tableMode, fault) == ExecuteAction(Canonical(name), tableMode, fault)
  {
    CanonicalIdempotent(name);
  }

  /** A head action behaves the same whatever the table mode. */
  lemma HeadActionIgnoresTableMode(name: string, fault: Option<nat>)
    requires Canonical(name) in HeadActions
    ensures ExecuteAction(name, true, fault) == ExecuteAction(name, false, fault)
  {
    RegistriesDisjoint();
  }

  /** In table mode nothing but the camera moves. */
  lemma TableModeMovesHeadOnly(name: string, fault: Option<nat>)
    ensures HeadOnly(ExecuteAction(name, true, fault).trace)
  {
    var n := Canonical(name);
    if n in HeadActions {
      RegistriesDisjoint();
      RegistryKinds();
      var a := HeadActions[n];
      assert AllActions()[n] == a;
      HeadActionMovesHeadOnly(a);
      HeadOnlyPrefix(ExecuteAction(name, true, fault).trace, Effects(a));
    }
  }

  lemma HeadOnlyPrefix(a: seq<Command>, b: seq<Command>)
    requires a <= b && HeadOnly(b)
    ensures HeadOnly(a)
  {
    assert forall i :: 0 <= i < |a| ==> a[i] == b[i];
  }

  /**
   * Run every name in order with the same table mode; `faults[i]` is the
   * fault of the i-th. The result is everything sent to the controller.
   */
  function ExecuteActions(names: seq<string>, tableMode: bool, faults: seq<Option<nat>>): (trace: seq<Command>)
    requires |faults| == |names|
    decreases |names|
  {
    if names == [] then []
    else ExecuteAction(names[0], tableMode, faults[0]).trace + ExecuteActions(names[1..], tableMode, faults[1..])
  }

  /** What each action of the list sends when run on its own. */
  function Traces(names: seq<string>, tableMode: bool, faults: seq<Option<nat>>): (ts: seq<seq<Command>>)
    requires |faults| == |names|
    ensures |ts| == |names|
    ensures forall i :: 0 <= i < |names| ==> ts[i] == ExecuteAction(names[i], tableMode, faults[i]).trace
  {
    seq(|names|, i requires 0 <= i < |names| => ExecuteAction(names[i], tableMode, faults[i]).trace)
  }

  /**
   * The list runs in order and a failing action does not stop the ones after
   * it: the combined trace is each action's own trace, one after the other.
   */
  lemma {:induction false} ExecuteActionsInOrder(names: seq<string>, tableMode: bool, faults: seq<Option<nat>>)
    requires |faults| == |names|
    ensures ExecuteActions(names, tableMode, faults) == Concat(Traces(names, tableMode, faults))
    decreases |names|
  {
    if names != [] {
      var ts := Traces(names, tableMode, faults);
      var tail := Traces(names[1..], tableMode, faults[1..]);
      ExecuteActionsInOrder(names[1..], tableMode, faults[1..]);
      assert tail == ts[1..] by {
        forall i | 0 <= i < |tail| ensures tail[i] == ts[1..][i] {
          assert names[1..][i] == names[i + 1] && faults[1..][i] == faults[i + 1];
        }
      }
    }
  }

  /** A list of actions run in table mode only moves the camera. */
  lemma {:induction false} TableModeListMovesHeadOnly(names: seq<string>, faults: seq<Option<nat>>)
    requires |faults| == |names|
    ensures HeadOnly(ExecuteActions(names, true, faults))
    decreases |names|
  {
    if names != [] {
      TableModeMovesHeadOnly(names[0], faults[0]);
      TableModeListMovesHeadOnly(names[1..], faults[1..]);
      HeadOnlyAppend(ExecuteAction(names[0], true, faults[0]).trace, ExecuteActions(names[1..], true, faults[1..]));
    }
  }
}
