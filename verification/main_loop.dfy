// The voice assistant's main loop as a state machine over the events the
// microphone, the wake-word engine, the speech services and the language
// model deliver: the consecutive-failure circuit breaker, follow-up and
// interrupt handling, the mode switches and the dispatch of the actions a
// reply asks for.

module MainLoop {
  import opened Wrappers
  import opened Text
  import opened Speech
  import opened Actions
  import Dialogue
  import Exploration

  const MaxConsecutiveFailures: nat := 5

  /** Seconds without a conversation before the car explores on its own. */
  const ConversationTimeout: real := 999999.0

  /** Follow-up listening is switched off in the program as shipped. */
  const EnableFollowUp: bool := false

  /** Phrases, matched in the lower-cased text, that say the car is back on the floor. */
  const TableExitPhrases: seq<string> := ["på golvet", "du är nere", "inte på bordet"]

  datatype Mode = Listening | Conversation | Exploring | TableMode

  /** Where the current iteration is: waiting for a trigger, recording, or waiting for the reply. */
  datatype Phase = Idle | Recording | Thinking

  /** Whether a wake-word engine is present, and whether follow-up listening is on. */
  datatype Config = Config(wakeEngine: bool, followUpEnabled: bool)

  datatype Loop = Loop(
    failures: nat,
    followUp: bool,
    skipWake: bool,
    mode: Mode,
    phase: Phase,
    running: bool)

  const Start: Loop := Loop(0, false, false, Listening, Idle, true)

  datatype Event =
      /** The conversation has been idle `idleFor` seconds; exploring would end with `outcome`. */
    | Explored(idleFor: real, outcome: Exploration.Outcome)
      /** The button was pressed or the wake word was heard. */
    | Woken
      /** No wake word within the short poll. */
    | WakeTimeout
      /** ENTER was pressed, when there is no wake-word engine. */
    | PushToTalk
    | FollowUpHeard
    | FollowUpSilent
      /** The previous answer was interrupted: record again without waiting. */
    | Resumed
      /** Recording produced no file. */
    | CaptureFailed
      /**
       * The recording was transcribed; `None` is a failed transcription.
       * `systemActions` are the action names of the language model's reply
       * to the system message sent when an exit phrase takes the car off
       * the table (none when that request fails); other turns ignore them.
       */
    | Transcribed(text: Option<string>, systemActions: seq<string>)
      /** The language model's spoken answer and the actions it asked for. */
    | Replied(answer: string, actions: seq<string>)
      /** Anything raised an exception within the iteration. */
    | Crashed

  /** One `execute_action` call the loop makes. */
  datatype Dispatch = Dispatch(name: string, tableMode: bool)

  /** The next state, the `execute_action` calls made, and whether the step ends with `reset_car_safe`. */
  datatype Stepped = Stepped(loop: Loop, dispatched: seq<Dispatch>, reset: bool)

  /** What `reset_car_safe` sends: stop, wheels straight, camera centred and tilted up 20 degrees. */
  const ResetCommands: seq<Command> := [Stop, Steer(0), Pan(0), Tilt(20)]

  /** Whether the event can happen in this state; any other event leaves the loop alone. */
  predicate Enabled(cfg: Config, s: Loop, e: Event) {
    && s.running
    && match e
       case Explored(_, _) => s.phase == Idle && !s.skipWake
       case Woken => s.phase == Idle && !s.skipWake && cfg.wakeEngine && !s.followUp
       case WakeTimeout => s.phase == Idle && !s.skipWake && cfg.wakeEngine && !s.followUp
       case PushToTalk => s.phase == Idle && !s.skipWake && !cfg.wakeEngine
       case FollowUpHeard => s.phase == Idle && !s.skipWake && cfg.wakeEngine && s.followUp
       case FollowUpSilent => s.phase == Idle && !s.skipWake && cfg.wakeEngine && s.followUp
       case Resumed => s.phase == Idle && s.skipWake
       case CaptureFailed => s.phase == Recording
       case Transcribed(_, _) => s.phase == Recording
       case Replied(_, _) => s.phase == Thinking
       case Crashed => true
  }

  /** A counted failure: the iteration ends, and the loop stops at the limit. */
  function Failed(s: Loop): Loop {
    var f := s.failures + 1;
    s.(failures := f, followUp := false, phase := Idle, running := f < MaxConsecutiveFailures)
  }

  /** The mode once valid speech is heard: table mode is left only on an exit phrase. */
  function ModeAfterSpeech(mode: Mode, text: string): Mode {
    if mode == TableMode && !ContainsAny(LowerStr(text), TableExitPhrases) then TableMode
    else Conversation
  }

  /** The registered names of a reply's action list, in order, each with the table-mode flag. */
  function Dispatches(names: seq<string>, tableMode: bool): (ds: seq<Dispatch>)
    ensures |ds| <= |names|
    ensures forall i :: 0 <= i < |ds| ==> ds[i].tableMode == tableMode
    decreases |names|
  {
    if names == [] then []
    else
      (if names[0] in AllActions() then [Dispatch(names[0], tableMode)] else [])
      + Dispatches(names[1..], tableMode)
  }

  function Names(ds: seq<Dispatch>): (ns: seq<string>)
    ensures |ns| == |ds| && forall i :: 0 <= i < |ds| ==> ns[i] == ds[i].name
  {
    seq(|ds|, i requires 0 <= i < |ds| => ds[i].name)
  }

  /** A valid transcription: the reply is awaited in the mode the speech leaves the loop in. */
  function OnSpeech(s: Loop, text: string, asWritten: bool): Loop {
    var mode := if asWritten then Conversation else ModeAfterSpeech(s.mode, text);
    s.(mode := mode, phase := Thinking)
  }

  /** A transcription the filter rejects: silently back to waiting in follow-up mode, a failure otherwise. */
  function OnRejected(s: Loop): Loop {
    if s.followUp then s.(followUp := false, phase := Idle) else Failed(s)
  }

  /** Valid speech, heard in table mode, that holds an exit phrase. */
  predicate LeavesTable(s: Loop, text: Option<string>) {
    s.mode == TableMode && IsValidSpeech(text) == Valid && ContainsAny(LowerStr(text.value), TableExitPhrases)
  }

  /**
   * Leaving table mode first switches to listening and then runs the
   * actions of the reply to the system message, so they run ungated.
   */
  function ExitDispatches(s: Loop, text: Option<string>, systemActions: seq<string>): seq<Dispatch> {
    if LeavesTable(s, text) then Dispatches(systemActions, false) else []
  }

  /** A transcription: valid speech goes on to the reply, anything else is rejected. */
  function OnTranscript(s: Loop, text: Option<string>, asWritten: bool): Loop {
    if IsValidSpeech(text) == Valid then OnSpeech(s, text.value, asWritten) else OnRejected(s)
  }

  /** The exploration check at the top of an idle iteration. */
  function OnIdle(s: Loop, idleFor: real, outcome: Exploration.Outcome): Loop {
    if idleFor > ConversationTimeout && s.mode != TableMode then
      if outcome.WakeWord? then s.(mode := Listening, skipWake := true)
      else if outcome.TableMode? then s.(mode := TableMode)
      else s.(mode := Exploring)
    else s
  }

  /** The reply: an interrupted one records again, any other resets the counter and runs its actions. */
  function OnReply(cfg: Config, s: Loop, answer: string, actions: seq<string>): Stepped {
    if answer == Dialogue.InterruptedAnswer then Stepped(s.(skipWake := true, phase := Idle), [], false)
    else
      var next := s.(failures := 0, phase := Idle, followUp := cfg.wakeEngine && cfg.followUpEnabled);
      Stepped(next, Dispatches(actions, s.mode == TableMode), true)
  }

  /**
   * One event. `asWritten` selects the mode update of the program as
   * shipped, which leaves table mode on any valid speech.
   */
  function StepWith(cfg: Config, s: Loop, e: Event, asWritten: bool): Stepped {
    if !Enabled(cfg, s, e) then Stepped(s, [], false)
    else
      match e
      case Explored(idleFor, outcome) => Stepped(OnIdle(s, idleFor, outcome), [], false)
      case Woken => Stepped(s.(failures := 0, phase := Recording), [], false)
      case WakeTimeout => Stepped(s, [], false)
      case PushToTalk => Stepped(s.(phase := Recording), [], false)
      case FollowUpHeard => Stepped(s.(phase := Recording), [], false)
      case FollowUpSilent => Stepped(s.(followUp := false), [], false)
      case Resumed => Stepped(s.(skipWake := false, phase := Recording), [], false)
      case CaptureFailed => Stepped(Failed(s), [], false)
      case Transcribed(text, systemActions) =>
        Stepped(OnTranscript(s, text, asWritten), ExitDispatches(s, text, systemActions), false)
      case Replied(answer, actions) => OnReply(cfg, s, answer, actions)
      case Crashed => Stepped(Failed(s), [], true)
  }

  function StepAsWritten(cfg: Config, s: Loop, e: Event): Stepped {
    StepWith(cfg, s, e, true)
  }

  function Step(cfg: Config, s: Loop, e: Event): Stepped {
    StepWith(cfg, s, e, false)
  }

  function Run(cfg: Config, s: Loop, events: seq<Event>): Loop
    decreases |events|
  {
    if events == [] then s else Run(cfg, Step(cfg, s, events[0]).loop, events[1..])
  }

  // ---------------------------------------------------------------------
  // The failure counter
  // ---------------------------------------------------------------------

  /** The counter stays within the limit, the loop runs exactly while it is below it, and follow-up needs the engine and the switch. */
  predicate Inv(cfg: Config, s: Loop) {
    && s.failures <= MaxConsecutiveFailures
    && (s.running <==> s.failures < MaxConsecutiveFailures)
    && (s.followUp ==> cfg.wakeEngine && cfg.followUpEnabled)
  }

  /** A failed capture, an exception, or invalid speech outside follow-up mode. */
  predicate CountsFailure(s: Loop, e: Event) {
    || e.CaptureFailed?
    || e.Crashed?
    || (e.Transcribed? && IsValidSpeech(e.text) != Valid && !s.followUp)
  }

  /** A wake word or button press, or a reply that was not interrupted. */
  predicate ResetsFailures(e: Event) {
    e.Woken? || (e.Replied? && e.answer != Dialogue.InterruptedAnswer)
  }

  lemma StartInv(cfg: Config)
    ensures Inv(cfg, Start) && Start.running
  {
  }

  /** Every step keeps the invariant. */
  lemma StepKeepsInv(cfg: Config, s: Loop, e: Event, asWritten: bool)
    requires Inv(cfg, s)
    ensures Inv(cfg, StepWith(cfg, s, e, asWritten).loop)
  {
  }

  /**
   * The counter goes up by one on exactly the counted failures, drops to
   * zero on a reset, and is otherwise unchanged: in particular on invalid
   * speech in follow-up mode and on an interrupted answer.
   */
  lemma FailureCounter(cfg: Config, s: Loop, e: Event, asWritten: bool)
    requires Enabled(cfg, s, e)
    ensures StepWith(cfg, s, e, asWritten).loop.failures == s.failures + 1 <==> CountsFailure(s, e)
    ensures ResetsFailures(e) ==> StepWith(cfg, s, e, asWritten).loop.failures == 0
    ensures !CountsFailure(s, e) && !ResetsFailures(e) ==> StepWith(cfg, s, e, asWritten).loop.failures == s.failures
  {
  }

  /**
   * A running loop stops exactly when a counted failure brings the counter
   * to the limit; a stopped loop ignores every event.
   */
  lemma StopsAtLimit(cfg: Config, s: Loop, e: Event, asWritten: bool)
    requires Inv(cfg, s)
    ensures s.running && !StepWith(cfg, s, e, asWritten).loop.running <==>
      Enabled(cfg, s, e) && CountsFailure(s, e) && s.failures + 1 == MaxConsecutiveFailures
    ensures !s.running ==> StepWith(cfg, s, e, asWritten) == Stepped(s, [], false)
  {
  }

  /**
   * Actions are dispatched only for a reply that was not interrupted, or
   * for the reply to the system message when an exit phrase takes the car
   * off the table; the latter run ungated.
   */
  lemma OnlyRepliesDispatch(cfg: Config, s: Loop, e: Event, asWritten: bool)
    ensures StepWith(cfg, s, e, asWritten).dispatched != [] ==>
      && Enabled(cfg, s, e)
      && ((e.Replied? && e.answer != Dialogue.InterruptedAnswer) || (e.Transcribed? && LeavesTable(s, e.text)))
    ensures Enabled(cfg, s, e) && e.Transcribed? && LeavesTable(s, e.text) ==>
      StepWith(cfg, s, e, asWritten).dispatched == Dispatches(e.systemActions, false)
  {
  }

  /**
   * `reset_car_safe` runs exactly after a reply that was not interrupted
   * and after an exception; no other step sends its commands.
   */
  lemma ResetsAfterAnswerOrCrash(cfg: Config, s: Loop, e: Event, asWritten: bool)
    ensures StepWith(cfg, s, e, asWritten).reset <==>
      Enabled(cfg, s, e) && (e.Crashed? || (e.Replied? && e.answer != Dialogue.InterruptedAnswer))
  {
  }

  /**
   * An interrupted answer keeps the counter and dispatches nothing; the
   * next iteration records straight away, without a wake word.
   */
  lemma InterruptRecordsAgain(cfg: Config, s: Loop, actions: seq<string>)
    requires s.running && s.phase == Thinking
    ensures Step(cfg, s, Replied(Dialogue.InterruptedAnswer, actions)).dispatched == []
    ensures Step(cfg, s, Replied(Dialogue.InterruptedAnswer, actions)).loop.failures == s.failures
    ensures Step(cfg, Step(cfg, s, Replied(Dialogue.InterruptedAnswer, actions)).loop, Resumed).loop.phase == Recording
    ensures !Enabled(cfg, Step(cfg, s, Replied(Dialogue.InterruptedAnswer, actions)).loop, Woken)
  {
  }

  // ---------------------------------------------------------------------
  // Runs of events
  // ---------------------------------------------------------------------

  lemma {:induction false} RunAppend(cfg: Config, s: Loop, a: seq<Event>, b: seq<Event>)
    ensures Run(cfg, s, a + b) == Run(cfg, Run(cfg, s, a), b)
    decreases |a|
  {
    if a != [] {
      assert (a + b)[0] == a[0] && (a + b)[1..] == a[1..] + b;
      RunAppend(cfg, Step(cfg, s, a[0]).loop, a[1..], b);
    } else {
      assert a + b == b;
    }
  }

  lemma {:induction false} RunKeepsInv(cfg: Config, s: Loop, events: seq<Event>)
    requires Inv(cfg, s)
    ensures Inv(cfg, Run(cfg, s, events))
    decreases |events|
  {
    if events != [] {
      StepKeepsInv(cfg, s, events[0], false);
      RunKeepsInv(cfg, Step(cfg, s, events[0]).loop, events[1..]);
    }
  }

  /** Once stopped, the loop stays stopped whatever follows. */
  lemma {:induction false} StoppedStays(cfg: Config, s: Loop, events: seq<Event>)
    requires !s.running
    ensures Run(cfg, s, events) == s
    decreases |events|
  {
    if events != [] {
      StoppedStays(cfg, s, events[1..]);
    }
  }

  /** With follow-up listening switched off, as shipped, follow-up mode never starts. */
  lemma {:induction false} FollowUpNeverStarts(cfg: Config, s: Loop, events: seq<Event>)
    requires cfg.followUpEnabled == EnableFollowUp && !s.followUp
    ensures !Run(cfg, s, events).followUp
    decreases |events|
  {
    if events != [] {
      FollowUpNeverStarts(cfg, Step(cfg, s, events[0]).loop, events[1..]);
    }
  }

  function Rounds(n: nat, round: seq<Event>): (es: seq<Event>)
    ensures |es| == n * |round|
  {
    if n == 0 then [] else round + Rounds(n - 1, round)
  }

  function MinNat(a: nat, b: nat): nat {
    if a <= b then a else b
  }

  /** `n` exceptions in a row stop the loop exactly when they reach the limit. */
  lemma {:induction false} CrashesStop(cfg: Config, s: Loop, n: nat)
    requires Inv(cfg, s) && s.running
    ensures Run(cfg, s, Rounds(n, [Crashed])).failures == MinNat(s.failures + n, MaxConsecutiveFailures)
    ensures Run(cfg, s, Rounds(n, [Crashed])).running <==> s.failures + n < MaxConsecutiveFailures
    decreases n
  {
    if n > 0 {
      var t := Step(cfg, s, Crashed).loop;
      RunAppend(cfg, s, [Crashed], Rounds(n - 1, [Crashed]));
      assert Run(cfg, s, [Crashed]) == t;
      if t.running {
        CrashesStop(cfg, t, n - 1);
      } else {
        StoppedStays(cfg, t, Rounds(n - 1, [Crashed]));
      }
    }
  }

  /**
   * Without a wake-word engine nothing resets the counter before an answer:
   * `n` push-to-talk rounds whose recordings fail stop the loop exactly when
   * they reach the limit.
   */
  lemma {:induction false} PushToTalkFailuresStop(cfg: Config, s: Loop, n: nat)
    requires Inv(cfg, s) && s.running && !cfg.wakeEngine && s.phase == Idle && !s.skipWake
    ensures Run(cfg, s, Rounds(n, [PushToTalk, CaptureFailed])).failures == MinNat(s.failures + n, MaxConsecutiveFailures)
    ensures Run(cfg, s, Rounds(n, [PushToTalk, CaptureFailed])).running <==> s.failures + n < MaxConsecutiveFailures
    decreases n
  {
    if n > 0 {
      var round := [PushToTalk, CaptureFailed];
      var t := Step(cfg, Step(cfg, s, PushToTalk).loop, CaptureFailed).loop;
      RunAppend(cfg, s, round, Rounds(n - 1, round));
      assert Run(cfg, s, round) == t by {
        assert round[1..] == [CaptureFailed];
      }
      if t.running {
        PushToTalkFailuresStop(cfg, t, n - 1);
      } else {
        StoppedStays(cfg, t, Rounds(n - 1, round));
      }
    }
  }

  /**
   * With a wake-word engine every trigger resets the counter, so failed
   * recordings after a wake word never stop the loop.
   */
  lemma {:induction false} WakeFailuresNeverStop(cfg: Config, s: Loop, n: nat)
    requires Inv(cfg, s) && s.running && cfg.wakeEngine && s.phase == Idle && !s.skipWake && !s.followUp
    requires n > 0
    ensures Run(cfg, s, Rounds(n, [Woken, CaptureFailed])).running
    ensures Run(cfg, s, Rounds(n, [Woken, CaptureFailed])).failures == 1
    decreases n
  {
    var round := [Woken, CaptureFailed];
    var t := Step(cfg, Step(cfg, s, Woken).loop, CaptureFailed).loop;
    RunAppend(cfg, s, round, Rounds(n - 1, round));
    assert Run(cfg, s, round) == t by {
      assert round[1..] == [CaptureFailed];
    }
    if n > 1 {
      WakeFailuresNeverStop(cfg, t, n - 1);
    }
  }

  // ---------------------------------------------------------------------
  // Dispatch
  // ---------------------------------------------------------------------

  /** Exactly the registered names of the reply are dispatched. */
  lemma {:induction false} DispatchesRegistered(names: seq<string>, tableMode: bool)
    ensures forall n :: n in Names(Dispatches(names, tableMode)) <==> n in names && n in AllActions()
    decreases |names|
  {
    if names != [] {
      var head := if names[0] in AllActions() then [Dispatch(names[0], tableMode)] else [];
      var tail := Dispatches(names[1..], tableMode);
      DispatchesRegistered(names[1..], tableMode);
      assert Names(head + tail) == Names(head) + Names(tail);
      assert names == [names[0]] + names[1..];
    }
  }

  /**
   * A reply's actions run with the table-mode flag of the mode the loop is
   * in when the reply arrives.
   */
  lemma ReplyDispatch(cfg: Config, s: Loop, answer: string, actions: seq<string>)
    requires s.running && s.phase == Thinking && answer != Dialogue.InterruptedAnswer
    ensures Step(cfg, s, Replied(answer, actions)).dispatched == Dispatches(actions, s.mode == TableMode)
    ensures Step(cfg, s, Replied(answer, actions)).loop.failures == 0
    ensures Step(cfg, s, Replied(answer, actions)).loop.followUp <==> cfg.wakeEngine && cfg.followUpEnabled
  {
  }

  // ---------------------------------------------------------------------
  // Table mode
  // ---------------------------------------------------------------------

  lemma TranscriptStep(cfg: Config, s: Loop, t: Option<string>, sys: seq<string>, asWritten: bool)
    requires s.running && s.phase == Recording
    ensures StepWith(cfg, s, Transcribed(t, sys), asWritten) ==
      Stepped(OnTranscript(s, t, asWritten), ExitDispatches(s, t, sys), false)
  {
  }

  /** Valid speech while recording moves on to the reply, with the mode the speech leaves. */
  lemma SpeechStep(cfg: Config, s: Loop, text: string, sys: seq<string>, asWritten: bool)
    requires s.running && s.phase == Recording && IsValidSpeech(Some(text)) == Valid
    ensures StepWith(cfg, s, Transcribed(Some(text), sys), asWritten) ==
      Stepped(OnSpeech(s, text, asWritten), ExitDispatches(s, Some(text), sys), false)
  {
    TranscriptStep(cfg, s, Some(text), sys, asWritten);
  }

  /**
   * An exit phrase on the table, in the shipped loop and the corrected one
   * alike: the reply to the system message runs its actions ungated, and
   * the loop goes on to the reply in conversation mode.
   */
  lemma ExitPhraseRunsSystemActions(cfg: Config, s: Loop, text: string, sys: seq<string>, asWritten: bool)
    requires s.running && s.phase == Recording && s.mode == TableMode
    requires IsValidSpeech(Some(text)) == Valid && ContainsAny(LowerStr(text), TableExitPhrases)
    ensures StepWith(cfg, s, Transcribed(Some(text), sys), asWritten).dispatched == Dispatches(sys, false)
    ensures StepWith(cfg, s, Transcribed(Some(text), sys), asWritten).loop.mode == Conversation
    ensures StepWith(cfg, s, Transcribed(Some(text), sys), asWritten).loop.phase == Thinking
  {
    SpeechStep(cfg, s, text, sys, asWritten);
  }

  lemma ReplyStep(cfg: Config, s: Loop, answer: string, actions: seq<string>, asWritten: bool)
    requires s.running && s.phase == Thinking
    ensures StepWith(cfg, s, Replied(answer, actions), asWritten) == OnReply(cfg, s, answer, actions)
  {
  }

  /**
   * As shipped, valid speech always switches to conversation mode before the
   * reply, so the reply's actions never run with the table-mode gate.
   */
  lemma AsWrittenGateNeverCloses(cfg: Config, s: Loop, text: string, sys: seq<string>, answer: string, actions: seq<string>)
    requires s.running && s.phase == Recording
    requires IsValidSpeech(Some(text)) == Valid && answer != Dialogue.InterruptedAnswer
    ensures StepAsWritten(cfg, s, Transcribed(Some(text), sys)).loop.mode == Conversation
    ensures StepAsWritten(cfg, StepAsWritten(cfg, s, Transcribed(Some(text), sys)).loop, Replied(answer, actions)).dispatched
      == Dispatches(actions, false)
  {
    SpeechStep(cfg, s, text, sys, true);
    var t := OnSpeech(s, text, true);
    ReplyStep(cfg, t, answer, actions, true);
  }

  /** Valid speech leaves table mode exactly when it holds an exit phrase. */
  lemma TableModeNeedsExitPhrase(cfg: Config, s: Loop, text: string, sys: seq<string>)
    requires s.running && s.phase == Recording && IsValidSpeech(Some(text)) == Valid
    ensures Step(cfg, s, Transcribed(Some(text), sys)).loop.phase == Thinking
    ensures Step(cfg, s, Transcribed(Some(text), sys)).loop.mode == TableMode <==>
      s.mode == TableMode && !ContainsAny(LowerStr(text), TableExitPhrases)
  {
    SpeechStep(cfg, s, text, sys, false);
  }

  /**
   * On the table, speech without an exit phrase keeps table mode, so every
   * action the reply asks for runs with the gate.
   */
  lemma TableModeKeepsGate(cfg: Config, s: Loop, text: string, sys: seq<string>, answer: string, actions: seq<string>)
    requires s.running && s.phase == Recording && s.mode == TableMode
    requires IsValidSpeech(Some(text)) == Valid && !ContainsAny(LowerStr(text), TableExitPhrases)
    requires answer != Dialogue.InterruptedAnswer
    ensures Step(cfg, s, Transcribed(Some(text), sys)).dispatched == []
    ensures Step(cfg, Step(cfg, s, Transcribed(Some(text), sys)).loop, Replied(answer, actions)).dispatched
      == Dispatches(actions, true)
    ensures Step(cfg, Step(cfg, s, Transcribed(Some(text), sys)).loop, Replied(answer, actions)).reset
  {
    var first := Step(cfg, s, Transcribed(Some(text), sys));
    assert !LeavesTable(s, Some(text));
    assert first == Stepped(OnSpeech(s, text, false), [], false) by {
      SpeechStep(cfg, s, text, sys, false);
    }
    ReplyStep(cfg, first.loop, answer, actions, false);
  }

  /** No command drives the wheels. */
  predicate NoDrive(cs: seq<Command>) {
    forall i :: 0 <= i < |cs| ==> !cs[i].Forward? && !cs[i].Backward?
  }

  lemma HeadOnlyResetNoDrive(cs: seq<Command>)
    requires HeadOnly(cs)
    ensures NoDrive(cs + ResetCommands)
  {
    assert forall i :: 0 <= i < |cs + ResetCommands| ==>
      (cs + ResetCommands)[i] == if i < |cs| then cs[i] else ResetCommands[i - |cs|];
  }

  /**
   * ... and so, whatever the reply asks for and wherever it fails, every
   * dispatched action moves only the camera, and the turn, closed by
   * `reset_car_safe`, never drives the wheels.
   */
  lemma TableModeOnlyMovesHead(
    cfg: Config, s: Loop, text: string, sys: seq<string>, answer: string, actions: seq<string>,
    faults: seq<Option<nat>>)
    requires s.running && s.phase == Recording && s.mode == TableMode
    requires IsValidSpeech(Some(text)) == Valid && !ContainsAny(LowerStr(text), TableExitPhrases)
    requires answer != Dialogue.InterruptedAnswer
    requires |faults| == |Dispatches(actions, true)|
    ensures Step(cfg, s, Transcribed(Some(text), sys)).dispatched == []
    ensures Step(cfg, Step(cfg, s, Transcribed(Some(text), sys)).loop, Replied(answer, actions)).dispatched
      == Dispatches(actions, true)
    ensures Step(cfg, Step(cfg, s, Transcribed(Some(text), sys)).loop, Replied(answer, actions)).reset
    ensures HeadOnly(ExecuteActions(Names(Dispatches(actions, true)), true, faults))
    ensures NoDrive(ExecuteActions(Names(Dispatches(actions, true)), true, faults) + ResetCommands)
  {
    TableModeKeepsGate(cfg, s, text, sys, answer, actions);
    TableModeListMovesHeadOnly(Names(Dispatches(actions, true)), faults);
    HeadOnlyResetNoDrive(ExecuteActions(Names(Dispatches(actions, true)), true, faults));
  }

  /** `move_forward` is a registered body movement whose name is already canonical. */
  lemma MoveForwardRegistered()
    ensures Canonical("move_forward") == "move_forward"
    ensures "move_forward" in BodyActions && "move_forward" in AllActions()
    ensures AllActions()["move_forward"] == MoveForward
  {
    MoveForwardCanonical();
    MoveForwardEntry();
  }

  lemma MoveForwardCanonical()
    ensures Canonical("move_forward") == "move_forward"
  {
    var n := "move_forward";
    assert IsLower(n) && IsStripped(n);
    LowerOfLower(n);
    StripStripped(n);
  }

  lemma MoveForwardEntry()
    ensures "move_forward" in BodyActions && "move_forward" in AllActions()
    ensures AllActions()["move_forward"] == MoveForward
  {
    RegistriesDisjoint();
  }

  /** A registered name on its own is dispatched once. */
  lemma SingleDispatch(name: string, tableMode: bool)
    requires name in AllActions()
    ensures Dispatches([name], tableMode) == [Dispatch(name, tableMode)]
  {
    assert [name][1..] == [];
  }

  lemma SingleAction(name: string, tableMode: bool, fault: Option<nat>)
    ensures ExecuteActions([name], tableMode, [fault]) == ExecuteAction(name, tableMode, fault).trace
  {
    assert [name][1..] == [] && [fault][1..] == [];
  }

  /** An action run alone without the gate and without a fault sends all its effects ... */
  lemma UngatedActionSendsEffects(name: string)
    requires Canonical(name) in AllActions()
    ensures ExecuteAction(name, false, None) == Executed(true, Effects(AllActions()[Canonical(name)]))
    ensures ExecuteActions([name], false, [None]) == Effects(AllActions()[Canonical(name)])
  {
    SingleAction(name, false, None);
  }

  /** ... while a body action run alone with the gate sends nothing. */
  lemma GatedBodyActionSendsNothing(name: string, fault: Option<nat>)
    requires Canonical(name) in BodyActions
    ensures ExecuteAction(name, true, fault) == Executed(false, [])
    ensures ExecuteActions([name], true, [fault]) + ResetCommands == ResetCommands
  {
    SingleAction(name, true, fault);
  }

  /** A name that runs `MoveForward`, on its own and followed by the reset, drives the wheels. */
  lemma ForwardDrives(name: string)
    requires Canonical(name) in AllActions() && AllActions()[Canonical(name)] == MoveForward
    ensures ExecuteAction(name, false, None) == Executed(true, [Steer(0), Forward(30), Stop])
    ensures ExecuteActions([name], false, [None]) + ResetCommands == [Steer(0), Forward(30), Stop] + ResetCommands
    ensures !NoDrive(ExecuteActions([name], false, [None]) + ResetCommands)
  {
    UngatedActionSendsEffects(name);
    assert (ExecuteActions([name], false, [None]) + ResetCommands)[1].Forward?;
  }

  /**
   * The shipped loop on the table: valid speech without an exit phrase, and
   * a reply asking to drive forward, drives the car forward before
   * `reset_car_safe` stops it.
   */
  lemma AsWrittenTableModeDrives(cfg: Config, s: Loop, text: string, sys: seq<string>, answer: string)
    requires s.running && s.phase == Recording && s.mode == TableMode
    requires IsValidSpeech(Some(text)) == Valid && !ContainsAny(LowerStr(text), TableExitPhrases)
    requires answer != Dialogue.InterruptedAnswer
    ensures StepAsWritten(cfg, StepAsWritten(cfg, s, Transcribed(Some(text), sys)).loop, Replied(answer, ["move_forward"])).dispatched
      == [Dispatch("move_forward", false)]
    ensures ExecuteAction("move_forward", false, None) == Executed(true, [Steer(0), Forward(30), Stop])
    ensures ExecuteActions(["move_forward"], false, [None]) + ResetCommands ==
      [Steer(0), Forward(30), Stop] + ResetCommands
    ensures !NoDrive(ExecuteActions(["move_forward"], false, [None]) + ResetCommands)
  {
    AsWrittenGateNeverCloses(cfg, s, text, sys, answer, ["move_forward"]);
    MoveForwardRegistered();
    SingleDispatch("move_forward", false);
    ForwardDrives("move_forward");
  }

  /**
   * The same turn with table mode kept: the drive is refused and sends
   * nothing, so the turn sends only what `reset_car_safe` sends.
   */
  lemma TableModeRefusesDriving(cfg: Config, s: Loop, text: string, sys: seq<string>, answer: string)
    requires s.running && s.phase == Recording && s.mode == TableMode
    requires IsValidSpeech(Some(text)) == Valid && !ContainsAny(LowerStr(text), TableExitPhrases)
    requires answer != Dialogue.InterruptedAnswer
    ensures Step(cfg, Step(cfg, s, Transcribed(Some(text), sys)).loop, Replied(answer, ["move_forward"])).dispatched
      == [Dispatch("move_forward", true)]
    ensures ExecuteAction("move_forward", true, None) == Executed(false, [])
    ensures Step(cfg, Step(cfg, s, Transcribed(Some(text), sys)).loop, Replied(answer, ["move_forward"])).reset
    ensures ExecuteActions(["move_forward"], true, [None]) + ResetCommands == ResetCommands
  {
    TableModeKeepsGate(cfg, s, text, sys, answer, ["move_forward"]);
    MoveForwardRegistered();
    SingleDispatch("move_forward", true);
    GatedBodyActionSendsNothing("move_forward", None);
  }
}
