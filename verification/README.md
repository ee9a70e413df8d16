# picar-brain core, modelled in Dafny

picar-brain is the voice assistant of a PiCar-X robot car. This project models its core:

- The utterance filter that rejects noise transcriptions.
- The voice-activity recording loop and the follow-up listener.
- The streaming chat turn: sentence-by-sentence speech, retries, the interrupt, history pruning.
- The parser for the language model's structured reply: the `ACTIONS:` line, the message and the `MEMORY` line.
- The entity memory store and the memory block of the system prompt.
- The action library with its table-mode gate.
- The autonomous exploration loop.
- The decisions of the phone-app driving program.
- The main conversation loop: failure counter, follow-up mode, interrupts, table mode.

Every operation is a pure function from its inputs to its result. The microphone, the detector's verdicts, the clock, the speech recogniser, the language model's token stream, random draws and the motor controller all become parameters. Actuator calls become traces of `Command` values.

Modules:

- `Wrappers`: `Option`.
- `Text`: Python's `strip`, `split`, `join`, `lower`, `upper` and `capitalize` on strings.
- `Speech`: `is_valid_speech`.
- `Entities`: entity detection and MEMORY-line matching, shared by the memory store and the reply parser.
- `MemoryStore`: `memory.py`.
- `Response`: `parse_response`.
- `Dialogue`: `chat_with_gpt`.
- `Actions`: `actions.py`.
- `Exploration`: `exploration.py`.
- `AppControl`: `app_control.py`.
- `Capture`: `record_audio_with_vad` and `listen_for_follow_up`.
- `MainLoop`: `main` in `voice_assistant.py`, as a state machine over events.

## Model

| member | source | states |
|---|---|---|
| Speech.IsValidSpeech | voice_assistant.py:1758-1780 | A missing or empty transcription is rejected as empty. A text whose stripped, lower-cased form is one of the lower-cased noise transcriptions is rejected as noise. A text with fewer than two whitespace-separated words is rejected as too short, and the verdict carries the word count. Anything else is valid. A text of only whitespace is noise, never valid. |
| Speech.NoiseIgnoresCase | voice_assistant.py:1769 | The noise comparison is case-blind: an upper-cased text is noise exactly when the text is. |
| Entities.DetectEntityClassifies | memory.py:46-66 | Every text gets exactly one of Leon, self, environment or general, by the first rule that applies: a leading "leon", then a leading "jag ", then an environment keyword. Environment and general texts are kept whole. |
| Entities.DetectEntityOnStripped | voice_assistant.py:1277-1294 | On a stripped non-empty text, the observation left after removing the Leon or "jag " prefix is non-empty and stripped. |
| Entities.LeonObservation | memory.py:51-55 | The Leon rule removes the first of "leon's ", "leons ", "leon " in any letter case. Something is always left. A text that starts with "leon" but with none of these prefixes is kept whole. |
| Entities.SelfObservation | memory.py:58-59 | The self rule removes a "jag " prefix in any letter case, and something is always left. |
| Entities.NormalizeTag | memory.py:83-95 | "leon" in any case maps to Leon, an environment alias to environment, and a self alias to self. Any other tag is lower-cased and capitalised. A non-empty tag never maps to an empty name. |
| Entities.CapitalizedLowerIsNotCanonical | memory.py:93-94 | A free-form tag other than "leon" can never collide with the names Leon, environment or self. |
| Entities.ParseMemoryLine | memory.py:68-104 | Only a line starting with MEMORY in any case yields a memory. An explicit `MEMORY[tag]: text` gives the normalised tag and the stripped text. Otherwise the text after the first colon is auto-detected. Every memory returned has a non-empty entity and a non-empty stripped observation. |
| Entities.ParseTaggedLine | memory.py:76-96 | Rendering `MEMORY[tag]: obs` and parsing it back gives the tag's normalised entity and exactly the observation. |
| MemoryStore.Cap | memory.py:124-129 | A list longer than 20 keeps exactly its newest 20 entries, in order. A shorter list is kept whole. |
| MemoryStore.AddObservation | memory.py:106-131 | An observation that strips to nothing leaves the store unchanged. Otherwise only the entity's list changes: it is created if missing, the stripped observation is appended, and the list is capped. |
| MemoryStore.AppendCapped | memory.py:119-129 | After an addition the new observation is the newest entry, preceded by the newest of the earlier ones. A full list stays at 20. |
| MemoryStore.AddObservationKeepsWellFormed | memory.py:106-131 | Adding preserves the store invariant: every list has at most 20 entries, all non-empty and stripped. |
| MemoryStore.SectionsFrom | memory.py:146-175 | Sections follow the priority order Leon, self, environment, general, with ranks strictly increasing. Each section shows a non-empty prefix of its entity's newest five observations. In total at most 15 bullets are shown. |
| MemoryStore.SectionsShowFirstBullets | memory.py:160-175 | The bullets of all sections, in order, are exactly the first 15 (after `total`, the first `15 - total`) of the priority entities' newest-five lists laid end to end. |
| MemoryStore.PromptShowsFirstFifteen | memory.py:146-175 | For a whole store, the prompt's bullets are the first 15 of the recent observations of Leon, self, environment and general, concatenated in that order. |
| MemoryStore.SectionsRankPresent | memory.py:153-174 | A priority entity gets a section exactly when it has observations and fewer than 15 bullets precede it. |
| MemoryStore.SectionsRankContents | memory.py:160-168 | Each section shows the first of its entity's newest five observations, as many as fit under 15 after the bullets of the ranks before it. |
| MemoryStore.FormatEmptyIff | memory.py:134-177 | The memory block is empty exactly when none of the four priority entities has an observation. |
| MemoryStore.FormatDependsOnlyOnView | memory.py:147-161 | Two stores that agree on the five newest observations of the priority entities render the same memory block. Older observations and other entities never reach the prompt. |
| MemoryStore.FullStoreOmitsGeneral | memory.py:167-174 | With five observations each for Leon, self and environment, the cap of 15 is reached after three sections, and general memories are not shown. |
| Response.LastNonBlank | voice_assistant.py:1236-1240 | The result is the last line that is not blank. Every line after it is blank, and no result means every line is blank. |
| Response.MemoryLineIndex | voice_assistant.py:1236-1262 | The memory line is the last non-blank line, and only when it starts with MEMORY in any case. |
| Response.ProcessedLines | voice_assistant.py:1264 | The lines before the memory line are kept. A memory line at index 0 removes nothing, because the index is tested for truth. |
| Response.ActionList | voice_assistant.py:1266-1272 | Every name an `ACTIONS:` line yields is non-empty, stripped and lower case. |
| Response.ActionLineRoundTrip | voice_assistant.py:1266-1272 | Writing clean action names into an `ACTIONS:` line and parsing it back gives exactly those names, in order. |
| Response.ParseResponse | voice_assistant.py:1222-1275 | The action names are clean. The message is stripped. A memory is returned only when a memory line exists, and it has a non-empty entity and a non-empty stripped observation. |
| Response.PlainReply | voice_assistant.py:1230-1275 | A reply with no leading `ACTIONS:` line and no final MEMORY line is entirely message, with no actions and no memory. |
| Response.ParseReplyRoundTrip | voice_assistant.py:1222-1275 | A reply written as `ACTIONS:` line, message and `MEMORY[tag]: obs` line parses back to the same actions, the same message and the memory under its normalised entity. |
| Response.MemoryOnlyReply | voice_assistant.py:1264 | A reply that is only a memory line stores the memory, yet that line also becomes the message. |
| Dialogue.Prune | voice_assistant.py:1397-1401 | The pruned history has min(n, 21) messages: the first message of the history followed by its newest ones, which leaves a history of at most 21 unchanged. |
| Dialogue.PruneIdempotent | voice_assistant.py:1397-1401 | Pruning a pruned history changes nothing. |
| Dialogue.Flush | voice_assistant.py:1355-1370 | The sentences cut from the token stream, followed by the leftover, are exactly the buffer followed by the tokens. Every cut piece ends a sentence, and the leftover does not. Where the cuts fall is stated by Dialogue.FlushCutsAtFirstEnd and Dialogue.FlushKeepsUnended. |
| Dialogue.FlushCutsAtFirstEnd | voice_assistant.py:1358-1369 | For any token stream and a buffer that does not end a sentence: if token i is the first non-empty token after which the buffer ends a sentence, the first sentence cut is exactly the buffer plus tokens 0..i, and the rest is cut from the remaining tokens starting with an empty buffer. |
| Dialogue.FlushKeepsUnended | voice_assistant.py:1358-1369 | If no non-empty token makes the buffer end a sentence, nothing is cut and the leftover is the buffer plus all the tokens. |
| Dialogue.SpokenUtterances | voice_assistant.py:1359-1366 | Everything spoken from complete sentences is non-blank and is never an `ACTIONS:` or MEMORY line. |
| Dialogue.Remainder | voice_assistant.py:1372-1379 | The text left at the end of the stream is spoken, as one stripped utterance, exactly when it is not blank and not a protocol line. |
| Dialogue.ChatGaveUp | voice_assistant.py:1405-1414 | When every attempt raises, the turn answers with the apology and no actions. It takes the user message back out of the history and stores nothing. |
| Dialogue.ChatInterrupted | voice_assistant.py:1364-1369 | An interrupted turn returns "interrupted" with no actions. It keeps the user message in the history and stores no memory. |
| Dialogue.ChatAnsweredFirst | voice_assistant.py:1304-1408 | An answer comes from the first attempt that did not raise. |
| Dialogue.ChatAnswered | voice_assistant.py:1382-1403 | An answered turn returns the parse of the answering reply. The user message and the full reply join the history once, the history is pruned, and the reply's memory is stored. |
| Dialogue.ChatSpeaks | voice_assistant.py:1355-1379 | A turn speaks only proper utterances. Unless it was interrupted, none of them was the interrupted one. |
| Dialogue.ChatHistoryBounded | voice_assistant.py:1397-1401 | After an answered turn the history holds at most 21 messages, and every turn keeps the first message. |
| Actions.RegistriesDisjoint | actions.py:144-168 | No name is both a body action and a head action. |
| Actions.HeadActionMovesHeadOnly | actions.py:80-133 | A head action sends only camera pan and tilt commands. |
| Actions.ExecuteAction | actions.py:170-193 | In table mode a body action is refused and sends nothing. An unknown name is refused. A run reports success exactly when the name is registered, not blocked, and the controller did not raise. A successful run sent all of the action's effects. A controller fault at command `k` leaves exactly the first `k` effects sent. |
| Actions.DispatchIgnoresCaseAndPadding | actions.py:175 | Letter case and surrounding whitespace in a name do not change what runs. |
| Actions.HeadActionIgnoresTableMode | actions.py:177-179 | A head action behaves the same in and out of table mode. |
| Actions.TableModeMovesHeadOnly | actions.py:170-193 | In table mode any name, however it fails, moves nothing but the camera. |
| Actions.ExecuteActionsInOrder | actions.py:195-198 | A list runs in order, and a failing action does not stop later ones: the trace is the actions' own traces concatenated. |
| Actions.TableModeListMovesHeadOnly | actions.py:195-198 | A list run in table mode moves nothing but the camera. |
| Exploration.Distance | exploration.py:39-49 | A failed or below-2 cm reading counts as 100 cm. Any other reading is used as is. |
| Exploration.RandomAngleCovers | exploration.py:186-199 | Every angle of either sign whose size lies in the drawn range is the outcome of some draw. |
| Exploration.Decide | exploration.py:247-298 | The checks run in order: time limit, wake word, table edge, then the distance zones. Under 15 cm the car backs up with a 30-60 degree turn. Under 30 cm it turns 10-25 degrees. Otherwise it cruises. |
| Exploration.ForwardNeedsRoom | exploration.py:285-298 | The car drives forward in a pass exactly when exploration goes on and the way ahead is at least 15 cm clear. |
| Exploration.Explore | exploration.py:323-326 | A finished run always ends with a stop command. |
| Exploration.ExploreEndsAtFirstFinish | exploration.py:247-267 | A run finishes exactly when some pass finishes, and with the outcome of the first such pass. |
| Exploration.PushFramesKeepsLatest | exploration.py:117-119 | Whatever frames arrive, the history holds the latest five, oldest first. |
| Exploration.Novelty | exploration.py:88-121 | A missing frame has novelty 0 and leaves the history alone. A first frame has novelty 1 and starts the history. Any other frame is pushed onto the history, which keeps the newest five, and novelty is at most 1. |
| Exploration.NoveltyInRange | exploration.py:88-121 | With histogram correlations at most 1, novelty lies between 0 and 1. |
| AppControl.AvoidObstacles | app_control.py:51-63 | The car goes straight ahead only at 40 cm or more. From 20 to 40 cm it steers 30 degrees and goes forward. Under 20 cm it steers -30 degrees and backs up. |
| AppControl.AvoidanceKeepsClear | app_control.py:51-63 | The car never drives forward nearer than 20 cm, and never heads straight on nearer than 40 cm. |
| AppControl.GetStatusOnFlags | app_control.py:65-74 | On 0/1 flags every reading is classified. The state is stop only when no flag is set, and a set middle flag always means straight on. |
| AppControl.LineTrack | app_control.py:78-92 | A left line steers +20 degrees, a right line -20 and a forward line 0, each at speed 10. A stop reading sends nothing and keeps the remembered direction. |
| AppControl.LineTrackRemembersLastMove | app_control.py:76-83 | After any stream of readings, the remembered direction is the status of the latest reading that was not stop. |
| AppControl.Drive | app_control.py:147-157 | A positive joystick speed drives forward at that speed, a negative one backward at its magnitude, and zero stops. |
| AppControl.CameraAim | app_control.py:160-164 | Pan is clamped to [-90, 90] and tilt to [-35, 65]. An aim inside the limits is kept. |
| AppControl.CameraAimsAgree | voice_assistant.py:643-644 | The voice assistant's camera clamp (min inside max) aims exactly as the driving program's (max inside min). |
| Capture.FramesCover | voice_assistant.py:1620-1623 | Cutting the buffer into 480-sample frames loses and reorders nothing, and leaves less than a frame over. |
| Capture.FramesCount | voice_assistant.py:1563-1565 | The number of frames times 480, plus the leftover, is the buffer length. |
| Capture.Rechunk | voice_assistant.py:1615-1623 | One read yields the whole frames of buffer plus new samples. Their concatenation followed by the new buffer is the old buffer plus the read. |
| Capture.RecordEndsByLimit | voice_assistant.py:1606-1612 | No recording runs past 8 s. |
| Capture.RecordStopsAtLimitPass | voice_assistant.py:1606-1641 | The first pass at or past 8 s reads nothing and settles the result: the audio is what the earlier passes recorded, and the stop is the time limit unless silence ended the loop first. On the time limit every earlier pass's read is kept. |
| Capture.RecordReadsBeforeLimitPass | voice_assistant.py:1606-1641 | The audio kept is the reads of some prefix of the passes before the first pass at the limit. |
| Capture.NoEarlySilenceStop | voice_assistant.py:1637-1641 | Silence never ends a recording within its first half second. |
| Capture.SpeechKeepsRecording | voice_assistant.py:1631-1641 | While every pass hears speech, silence never ends the recording. |
| Capture.SilentRecordingLength | voice_assistant.py:1637-1641 | A recording in which nobody spoke is cut for silence only once 1.5 s have passed. |
| Capture.RecordKeepsReads | voice_assistant.py:1606-1641 | The kept audio is the reads of a prefix of the passes, in order. |
| Capture.RecordWithRetries | voice_assistant.py:1571-1673 | A capture succeeds exactly when one of the first three attempts reached 0.3 s of audio, and the audio kept is that of the first such attempt: every earlier attempt was too short. |
| Capture.RetriesKeepFirst | voice_assistant.py:1648-1673 | If attempt i, one of the first three, is the first to reach 0.3 s of audio, the capture returns exactly its audio. |
| Capture.ScanFindsRun | voice_assistant.py:2034-2053 | From a counter below six, the scan fires exactly when the already-counted frames followed by the new verdicts hold six speech frames in a row. |
| Capture.RunAfterBreak | voice_assistant.py:2051-2053 | A run of speech frames cannot cross a non-speech frame. |
| Capture.ListenScansWindow | voice_assistant.py:2016-2053 | Carrying the counter across reads makes the listener a single scan of all verdicts within the window. |
| Capture.FollowUpHeardIffRun | voice_assistant.py:1975-2062 | A follow-up is heard exactly when the frames completed within the 3 s window hold six speech frames in a row. |
| MainLoop.StepKeepsInv | voice_assistant.py:2112-2386 | Every event keeps the invariants. The failure counter stays at most 5. The loop runs exactly while the counter is below 5. Follow-up mode needs both a wake-word engine and the follow-up switch. |
| MainLoop.FailureCounter | voice_assistant.py:2245-2386 | The counter rises by one exactly on a failed recording, an exception, or invalid speech outside follow-up mode. A wake word, a button press or an answered reply resets it. Anything else, including an interrupted answer, leaves it. |
| MainLoop.StopsAtLimit | voice_assistant.py:2266-2386 | A running loop stops exactly when a counted failure brings the counter to 5. A stopped loop ignores every event. |
| MainLoop.OnlyRepliesDispatch | voice_assistant.py:2320-2353 | Actions are dispatched only in two cases. The first is a reply that was not interrupted. The second is valid speech on the table that holds an exit phrase: `exit_table_mode` (lines 573-578) sets the mode to listening first, so `speak_system_event` (lines 651-666) runs the system reply's registered actions without the gate. |
| MainLoop.ExitPhraseRunsSystemActions | voice_assistant.py:2320-2327 | An exit phrase on the table, in the shipped loop and the corrected one alike, dispatches the registered actions of the reply to the system message without the gate (lines 573-578, 651-666). The loop then awaits the reply in conversation mode. |
| MainLoop.ResetsAfterAnswerOrCrash | voice_assistant.py:2354-2380 | `reset_car_safe` (lines 1814-1838: stop, steer 0, pan 0, tilt 20) runs exactly after a reply that was not interrupted and after an exception. No other step sends its commands. |
| MainLoop.InterruptRecordsAgain | voice_assistant.py:2335-2339 | An interrupted answer keeps the counter and dispatches nothing. The next iteration records without waiting for a wake word. |
| MainLoop.RunKeepsInv | voice_assistant.py:2112-2386 | The invariants hold after any sequence of events. |
| MainLoop.StoppedStays | voice_assistant.py:2281-2284 | Once stopped, the loop stays stopped. |
| MainLoop.FollowUpNeverStarts | voice_assistant.py:168 | With follow-up listening switched off, as shipped, follow-up mode never starts. |
| MainLoop.CrashesStop | voice_assistant.py:2375-2386 | n exceptions in a row leave the counter at min(f + n, 5), and the loop stops exactly when f + n reaches 5. |
| MainLoop.PushToTalkFailuresStop | voice_assistant.py:2258-2284 | Without a wake-word engine, n push-to-talk rounds with failed recordings stop the loop exactly when they reach the limit. |
| MainLoop.WakeFailuresNeverStop | voice_assistant.py:2247-2284 | With a wake-word engine, each wake word resets the counter, so failed recordings after wake words never stop the loop. |
| MainLoop.DispatchesRegistered | voice_assistant.py:2349-2353 | Exactly the reply's registered action names are dispatched. |
| MainLoop.ReplyDispatch | voice_assistant.py:2342-2368 | An answered reply dispatches its registered actions with the table-mode flag of the current mode, and resets the counter. Follow-up mode starts exactly when the engine and the switch are both present. |
| MainLoop.TableModeNeedsExitPhrase | voice_assistant.py:2320-2323 | In the corrected loop (`Step`), valid speech keeps table mode unless the lower-cased text holds one of the three exit phrases. |
| MainLoop.TableModeOnlyMovesHead | voice_assistant.py:2320-2356 | In the corrected loop (`Step`), a turn on the table without an exit phrase dispatches nothing on the transcription and every reply action with the gate, then resets the car. Whatever the reply asks and however the actions fail, every dispatched action moves only the camera. With `reset_car_safe`'s stop, steer, pan and tilt appended, the turn sends no forward or backward command. |
| MainLoop.AsWrittenGateNeverCloses | voice_assistant.py:2326-2352 | As shipped, valid speech always switches to conversation mode, so a reply's actions never run with the table-mode gate. |
| MainLoop.AsWrittenTableModeDrives | voice_assistant.py:2320-2356 | As shipped, on the table, a reply asking for move_forward drives the car forward at speed 30. The turn sends steer 0, forward 30 and stop, then `reset_car_safe`'s commands, and so holds a forward command. |
| MainLoop.TableModeRefusesDriving | voice_assistant.py:2320-2356 | With table mode kept, the same turn refuses move_forward. The turn sends only `reset_car_safe`'s stop, steer 0, pan 0 and tilt 20. |

## Left out

- Audio devices, the network, the speech recogniser, the language model, the TTS engine, LEDs and sounds. They are inputs (verdicts, token streams, transcriptions), or they have no effect on the modelled state.
- Time and sleeps. Each recording or listening pass carries its time as an input, and the pauses between motor commands are not represented.
- The WAV file written after recording (voice_assistant.py:1654-1686) and its size check. Only the in-memory audio is modelled.
- Loading and saving `memory.json`. Every memory operation maps one store value to the next; a missing or unreadable file is the empty store.
- Image capture, histograms and the correlation itself. Novelty takes the correlation as a function parameter.
- The scene description and the thought callback of exploration, which are foreign calls.
- The app-mode branch at the top of the main loop (voice_assistant.py:2124-2151). It hands control to the phone app and is not part of the conversation loop.
- The joystick x-axis mapping (`utils.mapping`). `AppControl.Drive` takes the mapped steering angle as input.
- The `app_control` and `manual_control` outcomes at voice_assistant.py:2207-2212 and 2218-2222. `explore` never returns either: manual-control detection is commented out.
- The call at voice_assistant.py:2194-2199 passes a `check_app_input_callback` keyword that `explore` does not accept. The model takes the exploration outcome as an event input instead.
- Exploration inside the same main-loop iteration. `CONVERSATION_TIMEOUT` is 999999 s, which makes exploration unreachable in practice. The model keeps the check as written.
- Exceptions at arbitrary points inside an iteration. They are one `Crashed` event, which counts a failure and leaves follow-up mode.
- KeyboardInterrupt and shutdown, which end the program. The `reset_car_safe` calls at startup (voice_assistant.py:2109) and shutdown (2403) are outside the loop and are not modelled.
- The system message's reply in `speak_system_event` (voice_assistant.py:651-681). Only its action names are modelled, as an input of the transcription event. The request itself, the memory it may store and the speech are left out. Its exceptions are caught inside the function (lines 679-681), so they never count as a failure; a failed request is modelled as an empty action list.
- The `reset_car_safe` commands are one fixed list. The function swallows each hardware error separately, and those errors are not modelled.
- Speech.IsValidSpeech: no lemma evaluates it on a concrete Swedish sentence. Its contract characterises all inputs instead.
- Text.Lower and Text.Upper: case mapping covers code points below U+0100. Other characters, and the Latin-1 letters whose upper case leaves Latin-1 or expands, are left unchanged.
- Entities.IsWordChar: the regex class `\w` is modelled for code points below U+0100. Higher code points count as non-word characters.
- Exploration.Explore: whether a thought is due is an input to each pass. The pause-and-look it triggers is modelled. The random thought interval, the frame capture and the thought callback are left out because they depend on the clock, the camera and foreign code.

## Findings

| source | as written | input that shows it | evidently intended | confidence | as-written member | corrected member |
|---|---|---|---|---|---|---|
| voice_assistant.py:2326-2352 | After every valid utterance `current_mode` is set to "conversation". This happens after the table-mode exit check and before the reply's actions run. So the gate `table_mode=(current_mode == "table_mode")` is always false. | Table mode (set after exploration detects a table edge), valid speech without an exit phrase, and a reply asking for `move_forward`. The defect is latent as shipped: the `explore(...)` call at voice_assistant.py:2194-2199 passes a `check_app_input_callback` keyword that exploration.py:220-224 does not accept, the resulting TypeError is caught at voice_assistant.py:2375-2376 as a counted failure, and `CONVERSATION_TIMEOUT` is 999999 s (line 452), so table mode (line 2215) is never entered. The drive on the table happens once that call is fixed. | Table mode lasts until an exit phrase is heard. Body actions are refused on the table and only the head moves. | not executed | MainLoop.AsWrittenTableModeDrives | MainLoop.TableModeRefusesDriving |
