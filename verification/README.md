# Diablo 4 Macro: a verified model of the macro compiler, engine and hotkey runner

The program (`source/macro.py`) is a keyboard and mouse macro tool. It has three parts.

- **MacroParser** reads a configuration file into macro records. In the text format, `[name]` headers open macros. `key = value` lines set options or switch between the `start_actions`, `actions` and `finish_actions` sections. Every other line holds action keywords with their arguments. Chinese words and English synonyms are translated to canonical words first. The XML format has a small key script of its own.
- **MacroEngine** plays a macro's actions as keyboard and mouse calls. It tracks the keys it holds down. A run can be interrupted by a stop request, by the trigger key being let go in hold mode, or by the game window losing focus.
- **MacroRunner** maps trigger hotkeys to macros. It decides whether a trigger starts a macro, interrupts the running one, or waits in a bounded queue. It holds a macro's additional keys while the trigger is down. It also handles the pause, reload, exit and double-Esc emergency-stop keys.

Each part is modelled in the source's own form.

- The parsing functions are Dafny functions.
- The parsing loops (`parse_text_format`, `_parse_action_line`, `_insert_default_delays`, `_parse_xml_syntax`) are methods. Each is proved equal to a specification function.
- The engine and the runner are classes whose methods update fields in place. Each method is proved against a specification function (`Engine.Execute`, `Runner.Decide`, `Runner.HotkeyTable`, ...), or its postcondition gives the new values of the fields it changes. Lemmas prove what the source promises about those functions.

Modelling choices:

- **Durations.** Action durations are whole microseconds. `Config` constants that are times are converted: runner timestamps are whole milliseconds and are passed in as parameters.
- **Calls into the input library.** Each call to `keyboard` or `mouse` is appended to the engine's `events` log (`Engine.Event`). In the model every call succeeds. For the keyboard this matches the source: its handlers swallow every exception. The mouse handlers catch nothing (see "Left out").
- **Oracles.** Whatever the engine learns from other threads and from the desktop comes from `Engine.Env`, a set of oracles indexed by the engine's check counter: a `stop_macro` call from another thread, the trigger key still being held, the target window being in front. A check is each place where the source reads `stop_flag` again: before each action, each pass, each tap of a press and each slice of a delay.
- **Worker threads.** A worker thread started by `start_macro` is recorded in `currentWorker` and played by `Runner.MacroRunner.RunWorker`.
- **Behaviour kept as written.**
  - A configured `repeat` count is parsed but never reaches the engine: every action is played with count 1.
  - Only the last macro of a text file gets its default delays inserted.
  - A macro taken from the queue does not update `last_macro_trigger_time`.
  - A `hold` with a negative duration presses its key and never releases it, because `time.sleep` raises after the press and the exception is swallowed.

## Model

| member | source | states |
|---|---|---|
| `Language.Translate` | source/macro.py:618-624 | a word found in neither table comes back unchanged |
| `Language.TranslateIdempotent` | source/macro.py:618-624 | translating a translated word changes nothing more |
| `Language.ChineseWordsAreCanonicalised` | source/macro.py:90-127 | every Chinese key is non-ASCII and maps to an ASCII word that is not itself a synonym to be translated again |
| `Language.EnglishWordsAreNotChinese` | source/macro.py:81-127 | an ASCII word is never a Chinese key; a synonym maps to an ASCII word that is no synonym |
| `Values.ParseKey` | source/macro.py:395-397 | `parse_key` returns a key without surrounding whitespace and without upper-case letters |
| `Values.ParseKeyIdempotent` | source/macro.py:395-397 | parsing a parsed key gives it back |
| `Values.ParseKeyCode` | source/macro.py:399-401 | a code that maps to a key maps to a single lower-case letter |
| `Values.ScanCodeTable` | source/macro.py:354-358 | exactly the eight table codes map to a key, each to a distinct one-letter key |
| `Values.ParseDelay` | source/macro.py:377-393 | only text holding a minus sign gives a negative delay |
| `Values.ParseDelayMilliseconds` | source/macro.py:378-393 | `<n>ms` is n milliseconds |
| `Values.ParseDelaySeconds` | source/macro.py:378-393 | `<n>s` and `<n>秒` are n seconds |
| `Values.ParseDelayDecimalSeconds` | source/macro.py:385-387 | `<w>.<f>s` with up to six fraction digits is read to the microsecond: `0.0015s` is 1500 µs, `0.0005s` is 500 µs |
| `Values.ParseDelayBare` | source/macro.py:378-393 | a bare number is milliseconds |
| `Values.ParseDelayFallback` | source/macro.py:378-393 | text holding no digit gives the 0.1 s fallback |
| `ActionLine.MouseAction` | source/macro.py:132-145 | a mouse word is a button's name followed by `click` or `doubleclick`, and gives that click or double click |
| `ActionLine.MouseWords` | source/macro.py:132-145 | every button has both a click word and a double-click word |
| `ActionLine.SeparatedKeys` | source/macro.py:650-656 | every additional key is a non-empty word without blanks |
| `ActionLine.ParsePress` | source/macro.py:668-683 | with arguments, one press per key in order, each key translated and normalised; nothing when there is no key |
| `ActionLine.ParseHold` | source/macro.py:685-691 | a hold exactly when there are a key and a duration, with the parsed key and delay |
| `ActionLine.ParseDelayAction` | source/macro.py:693-698 | a delay exactly when there is an argument, with its parsed duration |
| `ActionLine.ParseKeyDown` | source/macro.py:700-705 | a keydown exactly when there is an argument, with the parsed key |
| `ActionLine.ParseKeyUp` | source/macro.py:707-712 | a keyup exactly when there is an argument, with the parsed key |
| `ActionLine.ParseSegment` | source/macro.py:846-869 | only a segment headed by an action keyword yields actions, and then at least one |
| `ActionLine.MouseSegmentIgnoresArguments` | source/macro.py:132-145 | a mouse keyword yields its single click or double click whatever follows it |
| `ActionLine.ParseActionLine` | source/macro.py:829-876 | the loop returns the actions of the line's keyword segments, in order |
| `ActionLine.NextKeyword` | source/macro.py:850-854 | finds the first keyword after a position, or reports that none follows |
| `ActionLine.SegmentsCoverTokens` | source/macro.py:843-874 | every segment starts with a keyword and holds no other; together they are the tokens from the first keyword on |
| `ActionLine.LeadingArgumentsUnique` | source/macro.py:843-874 | the tokens skipped before the first keyword are exactly the non-keywords in front |
| `ActionLine.CommentIgnored` | source/macro.py:832 | text after `#` has no effect on a line |
| `ActionLine.LeadingTokensIgnored` | source/macro.py:843-874 | tokens before the first action keyword are skipped |
| `ActionLine.ArgumentsUpToNextKeyword` | source/macro.py:848-860 | a keyword's arguments are exactly the tokens up to the next keyword |
| `ActionLine.PressExpands` | source/macro.py:668-683 | `press k1 k2 ...` gives one press per key, in order |
| `ActionLine.PressCommaSeparated` | source/macro.py:672-675 | keys separated by a comma give the same presses as keys separated by a blank |
| `TextFormat.HandleConfig` | source/macro.py:626-666 | no option handler touches the name or the action lists |
| `TextFormat.ApplyConfigLine` | source/macro.py:806-827 | a line without `=` leaves the macro as it is; no line changes its name or actions |
| `TextFormat.ParseTextFormat` | source/macro.py:715-778 | the loop returns the macros the line-by-line reading defines |
| `TextFormat.NoMacroNoEffect` | source/macro.py:744-745 | with no open macro, lines other than headers change nothing |
| `TextFormat.LinesBeforeFirstHeaderIgnored` | source/macro.py:721-745 | lines before the first header do not affect the result |
| `TextFormat.MacrosInHeaderOrder` | source/macro.py:729-776 | one macro per header, named by it, in header order |
| `TextFormat.ConfigLineResetsSection` | source/macro.py:762-765 | by definition: an option line that names no section applies the option and puts later actions back into `actions` |
| `TextFormat.ActionLineExtendsSection` | source/macro.py:766-771 | an action line appends its actions to the current section only |
| `TextFormat.OnlyLastMacroDelayed` | source/macro.py:729-776 | by definition: macros emitted at a header keep their actions as read; only the last gets default delays |
| `TextFormat.HeaderEmitsMacroAsRead` | source/macro.py:729-731 | by definition: a header emits the open macro unchanged |
| `DefaultDelays.InsertIntoList` | source/macro.py:792-802 | the loop over one action list builds the list with inserted delays |
| `DefaultDelays.InsertDefaultDelays` | source/macro.py:780-804 | a falsy default delay leaves the macro unchanged; otherwise all three lists get delays and nothing else changes |
| `DefaultDelays.OriginalsOfTagged` | source/macro.py:792-802 | removing the inserted delays gives back the original list |
| `DefaultDelays.AddedOnlyBetweenNonDelays` | source/macro.py:796-802 | each inserted delay has the default length and an original non-delay action on both sides: none at an end, none next to a delay |
| `DefaultDelays.NoNeighbouringNonDelays` | source/macro.py:792-802 | no two neighbouring actions of the result are both non-delays |
| `DefaultDelays.AlreadySpacedUnchanged` | source/macro.py:792-802 | a list already spaced by delays is left unchanged |
| `DefaultDelays.ExplicitAndInsertedDelaysCoincide` | source/macro.py:796-802 | an explicit delay of the default length gives the same result as an inserted one |
| `XmlSyntax.XmlRepeatMode` | source/macro.py:129 | `1` means loop, `2` hold, anything else once |
| `XmlSyntax.ParseXmlSyntax` | source/macro.py:901-927 | the loop returns the script's actions, or fails where `int()` would raise |
| `XmlSyntax.ScriptFailsIffSomeLineFails` | source/macro.py:912-919 | a script fails exactly when one of its lines has an argument that is not an integer |
| `XmlSyntax.ScriptConcatenates` | source/macro.py:905-925 | the actions of a script are those of its first lines followed by those of the rest |
| `XmlSyntax.ShortLineSkipped` | source/macro.py:907-908 | a line of fewer than two words adds nothing |
| `XmlSyntax.UnknownScanCodeSkipped` | source/macro.py:912-916 | a scan code outside the table adds nothing and does not fail |
| `XmlSyntax.DelayLine` | source/macro.py:918-919 | `Delay n` waits n milliseconds |
| `Engine.MacroEngine.constructor` | source/macro.py:360-364 | a new engine is idle, holds no key and has made no call |
| `Engine.MacroEngine.HandlePress` | source/macro.py:403-413 | before each of the `count` taps the stop flag is read again; a stop seen there ends the press; otherwise the key is tapped and the press interval slept |
| `Engine.MacroEngine.HandleHold` | source/macro.py:415-424 | press, sleep, release; with a negative duration only the press |
| `Engine.MacroEngine.HandleDelay` | source/macro.py:426-436 | the sleep is cut into slices of at most 50 ms; before each the stop flag is read again, and a stop seen there ends the delay |
| `Engine.MacroEngine.HandleClick` | source/macro.py:438-441 | one click of the button |
| `Engine.MacroEngine.HandleDoubleClick` | source/macro.py:443-446 | one double click of the button |
| `Engine.MacroEngine.HandleKeyDown` | source/macro.py:448-457 | the key is pressed and tracked once; the tracked keys stay free of duplicates |
| `Engine.MacroEngine.HandleKeyUp` | source/macro.py:459-468 | the key is released and no longer tracked; no duplicates |
| `Engine.MacroEngine.ResetKeys` | source/macro.py:470-490 | every tracked key is released in order, then the modifiers when forced; no key stays tracked |
| `Engine.MacroEngine.ReleaseEach` | source/macro.py:476-480 | each key is released in turn |
| `Engine.MacroEngine.PressEach` | source/macro.py:524-530 | each key is pressed in turn |
| `Engine.MacroEngine.ExecuteAction` | source/macro.py:492-501 | nothing once the stop flag is up; otherwise the action's handler with count 1; the tracked keys stay free of duplicates |
| `Engine.MacroEngine.PrepareRun` | source/macro.py:514-530 | the stop flag goes down; with `reset_keys` a forced reset, then the additional keys pressed again |
| `Engine.MacroEngine.StopMacro` | source/macro.py:582-585 | the flag goes up and every tracked key is released |
| `Engine.MacroEngine.Poll` | source/macro.py:544-545 | a stop requested since the last check takes effect at this check |
| `Engine.MacroEngine.PerformEach` | source/macro.py:534-538 | the start or finish loop plays actions until the stop flag is up |
| `Engine.MacroEngine.RunActions` | source/macro.py:540-558 | one pass: stop, key release or window loss ends it early; window loss forces a reset |
| `Engine.MacroEngine.RepeatActions` | source/macro.py:563-571 | passes repeat until a stop, a release or an aborted pass, within the fuel |
| `Engine.MacroEngine.ExecuteMacro` | source/macro.py:503-580 | the whole run: reset, start actions, body by mode, finish actions unless stopped; `running` is false after a run that ends |
| `Engine.RemoveTakesOut` | source/macro.py:466-467 | removing a tracked key leaves exactly the other keys, without duplicates |
| `Engine.TrackedKeepsNoDuplicates` | source/macro.py:448-468 | keydown and keyup keep the tracked keys free of duplicates |
| `Engine.KeyDownAndUp` | source/macro.py:448-468 | after keydown the key is tracked, after keyup it is not, and no other key changes |
| `Engine.KeyDownTwiceTracksOnce` | source/macro.py:453-455 | a second keydown of a held key changes nothing in the tracked list |
| `Engine.DelaySlicesAddUp` | source/macro.py:426-436 | the slices add up to the whole delay, each at most 50 ms, and there are as many as the delay needs, rounded up |
| `Engine.TapRunUninterrupted` | source/macro.py:403-413 | a press that no check stops taps the key `count` times, one check per tap |
| `Engine.TapRunInterrupted` | source/macro.py:403-413 | a stop seen at the k-th check of a press leaves exactly k taps made, then releases the tracked keys |
| `Engine.DelayUninterrupted` | source/macro.py:426-436 | a delay that no check stops sleeps all its slices, one check per slice |
| `Engine.DelayInterrupted` | source/macro.py:426-436 | a stop seen at the k-th check of a delay leaves exactly the first k slices slept, then releases the tracked keys: a stop waits at most one slice of 50 ms |
| `Engine.PerformWithoutStop` | source/macro.py:492-501 | an action that no check stops makes exactly its calls and updates the tracked keys |
| `Engine.NegativeHoldLeavesKeyDown` | source/macro.py:415-424 | a negative hold presses the key, does not track it, and a later reset does not release it |
| `Engine.RunListWithoutStop` | source/macro.py:534-538 | without a stop request, the start and finish loops play every action |
| `Engine.RunListKeepsStop` | source/macro.py:534-538 | a raised stop flag stays up through those loops |
| `Engine.PassQuiet` | source/macro.py:540-558 | an undisturbed pass plays every action and completes |
| `Engine.PassWithoutStop` | source/macro.py:540-558 | without a stop request, a pass ends with the flag down however it ends |
| `Engine.RepeatWithoutStop` | source/macro.py:563-571 | without a stop request, the repeat loop ends with the flag down |
| `Engine.RepeatQuiet` | source/macro.py:563-571 | an undisturbed repeat loop makes every pass its fuel allows and never ends by itself |
| `Engine.RepeatPassesBounded` | source/macro.py:563-571 | the repeat loop begins at most as many passes as it has fuel |
| `Engine.PassesOfRun` | source/macro.py:561-571 | `once` mode makes exactly one pass and ends; other modes at most `fuel` passes |
| `Engine.FinishRunsWithoutStop` | source/macro.py:573-578 | without a stop, the finish actions run, even after a release or a window loss |
| `Engine.OnceRunUndisturbed` | source/macro.py:503-580 | an undisturbed `once` run plays the start, main and finish actions once each, in that order |
| `Engine.ExecuteOnce` | source/macro.py:561-578 | by definition: a `once` run is its one pass, then the finish actions unless the flag is up |
| `Engine.RepeatingRunUndisturbed` | source/macro.py:561-578 | an undisturbed loop or hold run never ends by itself and never reaches its finish actions |
| `Engine.RepeatCountIgnored` | source/macro.py:534-578 | by definition: the configured repeat count has no effect on a run |
| `Engine.ResetKeepsNoDuplicates` | source/macro.py:470-481 | by definition: a reset leaves no tracked key |
| `Engine.ExecuteKeepsNoDuplicates` | source/macro.py:503-580 | a whole run keeps the tracked keys free of duplicates |
| `Runner.HotkeyBound` | source/macro.py:1004-1018 | a hotkey is in the map exactly when some macro with a non-empty trigger has it, lower-cased |
| `Runner.HotkeyLastWins` | source/macro.py:1004-1018 | a hotkey is bound to the last macro in the list that has it |
| `Runner.PutFinds` | source/macro.py:1216 | recording a macro's additional keys replaces its entry and leaves the others |
| `Runner.PutKeepsUnique` | source/macro.py:1216 | each macro keeps a single entry of additional keys |
| `Runner.DeleteForgets` | source/macro.py:1252 | deleting a macro's entry removes it and leaves the others |
| `Runner.ShouldBuffer` | source/macro.py:1116-1134 | a hold macro is never buffered |
| `Runner.Decide` | source/macro.py:1087-1108 | a trigger is ignored exactly when paused; it is queued only when the queue has room |
| `Runner.HoldMacroNeverBuffered` | source/macro.py:1120-1123 | by definition: unless paused, a hold macro always starts |
| `Runner.QueuedOnlyOnRapidRepeat` | source/macro.py:1093-1100 | a trigger waits or is dropped exactly when the engine runs, the macro is not a hold macro and it started less than 200 ms ago |
| `Runner.RepeatAfterStart` | source/macro.py:1126-1134 | a repeat while the engine runs is queued exactly when it comes within 200 ms of the macro's last start |
| `Runner.NeverStartedCountsFromZero` | source/macro.py:1126 | by definition: a macro never started counts as started at time 0 |
| `Runner.InterruptReleases` | source/macro.py:1181-1186 | by definition: stopping the running macro raises its flag and releases every tracked key |
| `Runner.WorkerEnv` | source/macro.py:1143-1150 | outside hold mode the key-state check always answers that the key is held |
| `Runner.MacroRunner.constructor` | source/macro.py:946-989 | a new runner is unpaused, with an empty queue, nothing held and the hotkey map of the loaded macros |
| `Runner.MacroRunner.LoadConfig` | source/macro.py:991-1002 | an empty load keeps the previous hotkey map; otherwise the map is rebuilt |
| `Runner.MacroRunner.BuildHotkeyMap` | source/macro.py:1004-1018 | the loop builds the hotkey map: last macro wins |
| `Runner.MacroRunner.StopCurrentMacro` | source/macro.py:1181-1186 | a running macro is stopped; an idle engine is left alone |
| `Runner.MacroRunner.ClearInputBuffer` | source/macro.py:1175-1179 | the queue is emptied |
| `Runner.MacroRunner.StartMacro` | source/macro.py:1087-1108 | no-op when paused; a hold macro is never queued; a full queue drops the trigger, so the queue never exceeds 3; the start time is recorded only on an actual start |
| `Runner.MacroRunner.ProcessNextInQueue` | source/macro.py:1160-1173 | the oldest queued macro gets a worker; trigger times are untouched |
| `Runner.MacroRunner.RunWorker` | source/macro.py:1136-1158 | the macro runs in its own mode with its additional keys, then the next queued macro gets a worker |
| `Runner.MacroRunner.ForceReleaseAllKeys` | source/macro.py:1188-1201 | forced reset, every additional key released, and nothing left held |
| `Runner.MacroRunner.OnTriggerPress` | source/macro.py:1203-1223 | the trigger is recorded as held, the hold macro is named, the additional keys are pressed and recorded, then the macro is started |
| `Runner.MacroRunner.HoldTrigger` | source/macro.py:1209-1221 | the held set, the hold macro and the additional keys are updated before the start |
| `Runner.MacroRunner.ReleaseAdditionalKeys` | source/macro.py:1242-1252 | a macro's additional keys are released and its entry removed, and nothing happens without an entry |
| `Runner.MacroRunner.OnTriggerRelease` | source/macro.py:1225-1240 | the trigger is no longer held, the hold macro is forgotten if it is this one, its keys are released, and a running hold macro is stopped |
| `Runner.MacroRunner.EmergencyStop` | source/macro.py:1254-1282 | a second Esc within 500 ms empties the queue, the tracked keys, the additional keys and the held triggers, clears the hold macro and resets the timer to 0; any other Esc only records its time |
| `Runner.MacroRunner.TogglePause` | source/macro.py:1066-1076 | pausing stops the macro, empties the queue and releases everything; resuming changes nothing else |
| `Runner.MacroRunner.ReloadConfig` | source/macro.py:1078-1085 | stops, empties the queue, releases everything, then loads the new macros |
| `Runner.MacroRunner.Stop` | source/macro.py:1297-1303 | stops, releases everything and exits |
| `Runner.MacroRunner.HandlePauseKey` | source/macro.py:1045-1050 | a press more than 100 ms after the last accepted one toggles pause, with every effect of `TogglePause`; any other press changes nothing |
| `Runner.MacroRunner.HandleReloadKey` | source/macro.py:1052-1057 | the same debounce, then a reload with every effect of `ReloadConfig` |
| `Runner.MacroRunner.HandleExitKey` | source/macro.py:1059-1064 | the same debounce, then the exit with every effect of `Stop` |

## Left out

- Threads and locks are not modelled. Each callback and each worker run is one atomic step.
  - `join(timeout)` in `_stop_current_macro` is left out.
  - Races between a stopping worker and the callback that stopped it are left out. One example: a stopped worker draining the queue before the pause callback clears it.
- Time, sleeping and `float()` are not modelled.
  - Timestamps are integer milliseconds passed in as arguments.
  - Sleeps are logged as events.
  - `parse_delay` reads decimals to whole microseconds. Exponents, `inf`, `nan` and underscores are not read.
- `Values.ParseDelay`: digits below a microsecond are dropped, where `float()` keeps them. A millisecond or bare value keeps three fraction digits and a seconds value six. So a positive delay under 1 µs reads as 0 here, where Python's value is truthy; as a `default_delay`, no delays are then inserted.
- A stop request is delivered only when the engine checks it: before an action, a pass, a tap of a press, or a slice of a delay. A `stop_macro` that lands in the middle of a slice or a tap is seen at the next check.
- Text handling covers only ASCII.
  - Lower-casing and `isdigit` cover only ASCII letters and digits.
  - `int()` does not accept underscores or non-ASCII digits.
- Calls into `keyboard` and `mouse` always succeed. The exception paths of the keyboard handlers are not modelled, except the negative `hold`.
- An exception from `mouse.click` or `mouse.double_click` is not modelled. `_handle_click` and `_handle_doubleclick` have no `try`, and `execute_macro` has no `finally`. Such an exception would end the worker thread with `running` still true and the tracked keys still down.
- `WindowMonitor` (which uses `win32gui`) is the `windowActive` oracle.
- These are not part of this model:
  - `load_file` (file I/O) and `parse_xml_format` (`ET.fromstring`). Only the repeat-mode table and `_parse_xml_syntax` are modelled. The XML record's `description` field is not kept.
  - `setup_hotkeys`, `keyboard.unhook_all`, `start`, `main`, the Logger, and the messages and colours.
  - `sys.exit` in `stop`, which becomes the `exited` flag.
  - Which callback a hotkey is bound to (`_on_trigger_press` for hold macros and macros with additional keys, `start_macro` otherwise). Both callbacks are modelled.
- `Engine.MacroEngine.ExecuteMacro`: a `loop` or `hold` run is bounded by a `fuel` count of passes. When the fuel runs out, the run stops there with `running` still true and no finish actions. The source would go on looping.
- `Runner.MacroRunner.RunWorker`: the key-state check of a hold macro is the `keyHeld` oracle rather than a lookup in `heldTriggerKeys`. The release callback runs on another thread while the worker loops.
