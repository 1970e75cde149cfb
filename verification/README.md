# Click Guardian in Dafny

Click Guardian is a Windows tool that swallows the extra button presses a worn mouse switch
produces (bounces and accidental double-clicks). A low-level mouse hook sees every button and move
message; a message it suppresses never reaches the application under the cursor. This project
models, and proves properties of:

- the debounce engine `windowsHook` (internal/hooks/hook_windows.go): the four-rule button-down
  filter, the spurious button-up filter, drag detection, the adaptive delay that learns from short
  ("low pressure") clicks, the blocked-click counter, and Start/Stop;
- the older single-file filter (mouse_hook_windows.go) and the older single-window application
  that drives it (main.go): the delay field, the Start/Stop buttons and the bounded log display;
- the hook used on other platforms (internal/hooks/hook_unsupported.go);
- the configuration defaults, the delay checks and the repair of a loaded configuration
  (internal/config/config.go), with the `strconv.Atoi`, `strconv.Itoa` and `strings.TrimSpace`
  behaviour the delay inputs depend on;
- the logger's bounded queue and bounded history (internal/logger/logger.go);
- the command line of the GUI program (cmd/click-guardian/main.go) and the version strings
  (internal/version/version.go).

Times are integers counting nanoseconds, like Go's `time.Duration`. Go's zero `time.Time` (an
unset timestamp) is `None`. Each per-button Go map of the engine is a `PerButton` pair
indexed by the button. Every map except `lastUpTime` is keyed by the button-down message, and
`lastUpTime` is keyed by the button-up message; the up case maps each up code one-to-one onto
its button, so indexing by the button is a renaming. Every read of a missing key gives the zero
value. Log messages are tagged records (`LogLines.LogLine`) rather than formatted strings. A Go
channel is the class `Channels.Channel`, a bounded FIFO that can be closed.

The engine is modelled twice. First there is a value-level specification: `Hooks.ClickState`
and the step functions `DownStep`, `UpStep`, `MoveStep`, `AdaptiveStep` and `Classify`, which
carry the promised properties. Then there is the class `Hooks.WindowsHook`, whose fields are the
Go struct's fields. Each of its methods is proved to change those fields, and the log channel,
exactly as the step functions say. Lemmas about runs of hook calls (`Run`) prove invariants over
whole event sequences.

Some functions are helpers with no contract of their own; they are specified through the
members that use them: `Hooks.DelayOf` (the effective delay of a button in a state, via
`EffectiveDelay`), `Hooks.PressStep` (through `DownStep`), `Hooks.ReleaseStep` (through `UpStep`),
`Hooks.Recorded` and `Hooks.Analysed` (through `AdaptiveStep`), `Hooks.Run` (through the run
lemmas), `Channels.Offered` (through `Delivered` and `Channel.Offer`), `LegacyHook.IsRepeat`
(through `FilterDown`), `LegacyHook.Suppressions` (through `Train`), `GoStrings.IsSpace`, the
white-space set of Go's `unicode.IsSpace` (through `TrimSpace`), and `CommandLine.Dispatch`
(through `Launch` and the dispatch lemmas).

Files: `common.dfy` (Option, Result), `mouse.dfy` (messages, buttons, verdicts, time helpers),
`channels.dfy`, `log_lines.dfy`, `hook_windows.dfy`, `mouse_hook_legacy.dfy`,
`hook_unsupported.dfy`, `strings.dfy`, `config.dfy`, `logger.dfy`, `legacy_app.dfy`, `cli.dfy`,
`version.dfy`.

## Model

| member | source | states |
|---|---|---|
| Mouse.EventOf | internal/hooks/hook_windows.go:79-192 | each of the five handled message codes decodes to its own event, in both directions; every other code is Unhandled |
| Channels.Delivered | internal/hooks/hook_windows.go:63-69 | offering messages one at a time to a bounded buffer keeps the leading ones that fit, in order, behind what was queued, and drops the rest; a closed channel receives nothing; the buffer never exceeds its capacity |
| Channels.Fitting | internal/hooks/hook_windows.go:63-69 | the number of messages that fit is all of them or exactly enough to fill the buffer |
| Channels.DeliveredConcat | internal/hooks/hook_windows.go:63-69 | sending two batches one after the other leaves the same buffer as sending their concatenation |
| Channels.Channel.constructor | internal/logger/logger.go:31 | a new buffered channel is open, empty and has the requested capacity |
| Channels.Channel.Offer | internal/hooks/hook_windows.go:63-69 | a non-blocking send appends the message when there is room on an open channel and otherwise leaves the buffer unchanged, reporting which case happened |
| Channels.Channel.Receive | internal/logger/logger.go:47-49 | a receive takes the oldest queued message, or reports that none is queued |
| Channels.Channel.Close | internal/logger/logger.go:56 | after closing, the channel is closed |
| Hooks.EffectiveDelay | internal/hooks/hook_windows.go:325-331 | a button's delay is its adaptive delay when that is set to a positive value, and the base delay otherwise |
| Hooks.ReducedDelay | internal/hooks/hook_windows.go:295-298 | the reduced delay is half the base but never below 20 ms; for a base under 20 ms it is larger than the base, and from 40 ms up it is at most the base |
| Hooks.DownStep | internal/hooks/hook_windows.go:80-131 | a down within the effective delay of the button's previous down is suppressed; every down moves that button's last-down time to now; a down is suppressed exactly when one of the three blocking rules applies; each suppression adds exactly one to the blocked count and logs the rule's line with the interval that rule measured (since the previous down, the press or the last complete click), the effective delay and the new total, the interval always below the delay; only an accepted press marks the button pressed at now and not dragging; a down on a button that is neither pressed, nor the last click's button, nor within the delay of its last down, is passed on; delay, adaptive state, up times and the last complete click are untouched |
| Hooks.Remembered | internal/hooks/hook_windows.go:271-274 | the click history gains `now` as its newest entry and never grows past ten; below ten nothing is dropped |
| Hooks.AdaptiveStep | internal/hooks/hook_windows.go:264-323 | the click is remembered for its button only; a hold under 30 ms bumps that button's short-click count by one; once five clicks are remembered the adaptive delay becomes the reduced delay if any short click was ever counted and the base otherwise; only the clicked button's delay can change; the log is the short-click line with the new count (for a short hold) followed by the delay-change line (only when the delay changed), which reports a reduction when a short click was ever counted and a reset to the base otherwise |
| Hooks.UpStep | internal/hooks/hook_windows.go:133-180 | an up is suppressed exactly when its button is not pressed or it follows the button's previous up within the effective delay, and then nothing changes and the line logged carries the interval since the previous up (below the delay when the button is pressed); an accepted up records the up time, the complete click and its button, releases the button, clears the drag flag and runs the adaptive update once with the hold duration, logging the adaptive lines before the release line; the blocked count never changes |
| Hooks.MoveStep | internal/hooks/hook_windows.go:182-191 | a move is passed on; it marks a button dragging exactly when it is pressed or already dragging, logs a drag only for a pressed button not yet dragging, and changes nothing else |
| Hooks.Classify | internal/hooks/hook_windows.go:72-195 | a negative code or an unhandled message is passed on with no change; only button messages are ever suppressed; the blocked count rises by one exactly for a suppressed down; the base delay never changes |
| Hooks.Restarted | internal/hooks/hook_windows.go:197-214 | after Start every per-button map reads as empty, so no button is pressed or dragging and no time is set; the base delay is the new one and is every button's effective delay; the blocked count and the last complete click carry over |
| Hooks.OrderedLater | internal/hooks/hook_windows.go:86-130 | timestamps consistent with one event time stay consistent with any later time |
| Hooks.StepKeepsInvariants | internal/hooks/hook_windows.go:72-195 | every hook call keeps the timestamps ordered and keeps each history at most ten long with the adaptive delay unset, the base or the reduced one |
| Hooks.HeldBounceUnreachable | internal/hooks/hook_windows.go:86-113 | with ordered timestamps the "bounce while held" rule can never be the one that decides a down: the first rule already catches every case it would |
| Hooks.OrderedRunNeverHeldBounce | internal/hooks/hook_windows.go:72-195 | along any run of calls with non-decreasing times from an ordered, healthy state, the "bounce while held" rule never fires and the state stays healthy |
| Hooks.AfterStart | internal/hooks/hook_windows.go:197-214 | after Start, for any run of calls in time order, the "bounce while held" rule never fires and each button's effective delay is the base or the reduced delay |
| Hooks.RunKeepsDelay | internal/hooks/hook_windows.go:72-195 | no sequence of hook calls changes the base delay |
| Hooks.MoveLogsOncePerPress | internal/hooks/hook_windows.go:182-191 | two consecutive moves: the second changes nothing and logs nothing |
| Hooks.DraggingStep | internal/hooks/hook_windows.go:80-191 | a call other than an accepted down or up of a dragging button leaves it pressed and dragging and logs no drag of it |
| Hooks.DragLoggedOncePerPress | internal/hooks/hook_windows.go:127-191 | once a pressed button's drag is logged, whatever calls follow (blocked downs and ups, calls on the other button, moves), no drag of it is logged again until an accepted down or up of that button ends the press: a drag is logged at most once per press |
| Hooks.EffectiveDelayBelowFloor | internal/hooks/hook_windows.go:326-331 | the effective delay has no 20 ms floor: a 5 ms base is used as it is |
| Hooks.OneShortClickKeepsDelayReduced | internal/hooks/hook_windows.go:284-309 | once a button has had one short click, every later analysis sets its delay to the reduced one, however long the later holds are |
| Hooks.RestartKeepsRapidClickWindow | internal/hooks/hook_windows.go:115-125 | since Start keeps the last complete click, a down right after a restart on that click's button and within the new delay of it is suppressed by the rapid-click rule |
| Hooks.ScenarioRapidSecondPress | internal/hooks/hook_windows.go:86-131 | with a 50 ms delay, a press, a release, a second press 20 ms after the first (suppressed, count 1, logged with the 20 ms interval and the 50 ms delay) and a press 60 ms after that suppressed one (passed) |
| Hooks.ShortClickStep | internal/hooks/hook_windows.go:133-179 | one 10 ms click 100 ms after the previous one is accepted, counted as short and remembered, and it reduces the delay to 25 ms exactly when it is the fifth |
| Hooks.ScenarioFiveShortClicks | internal/hooks/hook_windows.go:264-309 | five 10 ms clicks in a row with a 50 ms delay: each logs a short click, and only the fifth also logs the delay reduced to 25 ms, which then applies to the button |
| Hooks.WindowsHook.constructor | internal/hooks/hook_windows.go:57-59 | a new hook has every field at its zero value, is not running and has no channel |
| Hooks.WindowsHook.SendLog | internal/hooks/hook_windows.go:63-69 | the line is offered to the log channel without waiting, and no field of the engine changes |
| Hooks.WindowsHook.Block | internal/hooks/hook_windows.go:93-96 | a blocking rule adds one to the count, logs the line of that rule with the measured interval, the effective delay and the new total, and suppresses |
| Hooks.WindowsHook.Accept | internal/hooks/hook_windows.go:127-131 | an accepted press marks the button pressed at now and not dragging, logs the press and passes the message on |
| Hooks.WindowsHook.OnButtonDown | internal/hooks/hook_windows.go:80-131 | the fields, the verdict and the log channel end up as DownStep says |
| Hooks.WindowsHook.CheckPress | internal/hooks/hook_windows.go:98-131 | the three later rules of a down update the fields and the log as the specification of a down that passed the first rule says |
| Hooks.WindowsHook.RecordClick | internal/hooks/hook_windows.go:264-281 | the click time is remembered (at most ten kept) and a short hold is counted and logged |
| Hooks.WindowsHook.AnalysePattern | internal/hooks/hook_windows.go:283-322 | with five remembered clicks the adaptive delay moves to the reduced or the base delay, written and logged only on a change |
| Hooks.WindowsHook.DetectFaultyHardware | internal/hooks/hook_windows.go:264-323 | only the adaptive fields change, and they and the log end up as AdaptiveStep says |
| Hooks.WindowsHook.OnButtonUp | internal/hooks/hook_windows.go:133-180 | the fields, the verdict and the log channel end up as UpStep says |
| Hooks.WindowsHook.CompleteClick | internal/hooks/hook_windows.go:155-180 | once the up is recorded, a pressed button's click completes and the message is passed on |
| Hooks.WindowsHook.FinishClick | internal/hooks/hook_windows.go:158-179 | the complete click and its button are recorded, the button released and no longer dragging, the adaptive update runs with the hold, and the release line chosen from the drag flag and hold follows the adaptive lines in the log |
| Hooks.WindowsHook.OnMove | internal/hooks/hook_windows.go:182-191 | the drag flags and the log end up as MoveStep says |
| Hooks.WindowsHook.MouseProc | internal/hooks/hook_windows.go:72-195 | one callback leaves the fields, the verdict and the log channel as Classify says, never closes the channel, and never changes whether the hook is running |
| Hooks.WindowsHook.ClearButtons | internal/hooks/hook_windows.go:205-213 | every per-button map is replaced by an empty one |
| Hooks.WindowsHook.Start | internal/hooks/hook_windows.go:197-232 | a running hook refuses with an error and nothing changes; otherwise it is running with the new delay and channel, and its state is the restarted one |
| Hooks.WindowsHook.HookInstallSucceeded | internal/hooks/hook_windows.go:216-223 | a successful installation keeps the handle and logs that the hook is installed |
| Hooks.WindowsHook.Stop | internal/hooks/hook_windows.go:234-249 | afterwards the hook is stopped with no handle and no error; the "removed" line is logged exactly when a running hook had its handle; the channel is never closed, and a stopped hook's channel is untouched, so a second Stop does nothing |
| Hooks.WindowsHook.GetBlockedCount | internal/hooks/hook_windows.go:251-253 | returns the current blocked count |
| Hooks.WindowsHook.ResetBlockedCount | internal/hooks/hook_windows.go:255-257 | the count becomes zero and nothing else changes |
| Hooks.WindowsHook.IsSupported | internal/hooks/hook_windows.go:259-261 | the engine reports itself supported |
| LegacyHook.FilterDown | mouse_hook_windows.go:41-55 | a down is suppressed exactly when it is on the last allowed click's button within the delay of it; a suppressed down only raises the count by one and logs the interval since the last allowed click (below the delay) and the total, so the window stays anchored at the last allowed click; an allowed down becomes the last click and leaves the count alone |
| LegacyHook.Filter | mouse_hook_windows.go:36-59 | a negative code, an up, a move or any other message passes with no change and no log; the count rises by one exactly on a suppression; at most one line is logged |
| LegacyHook.OtherButtonPasses | mouse_hook_windows.go:48-55 | after an allowed down on one button, a down on the other button at any time is allowed |
| LegacyHook.Train | mouse_hook_windows.go:41-55 | a train of downs yields one verdict per down; the count rises by exactly the number of suppressed downs; a train with every down suppressed changes nothing but the count; once any down is allowed, the last click is on the train's button |
| LegacyHook.TrainAnchoredAtLastClick | mouse_hook_windows.go:48-54 | every down of a bounce train within the delay of the last allowed click on that button is suppressed, and the train changes nothing but the count, which rises by its length |
| LegacyHook.Filterer.constructor | mouse_hook_windows.go:18-25 | the package variables start at zero: no last click, no count, no channel, no hook |
| LegacyHook.Filterer.SendLog | mouse_hook_windows.go:27-33 | the line is offered without waiting; on a full channel the queue is unchanged |
| LegacyHook.Filterer.MouseProc | mouse_hook_windows.go:36-59 | the last click, the count, the verdict and the log end up as Filter says, and the channel is never closed |
| LegacyHook.Filterer.StartHook | mouse_hook_windows.go:61-63 | the delay and the channel are set; the last click and the count are kept |
| LegacyHook.Filterer.InstallFinished | mouse_hook_windows.go:64-70 | after installation the handle is set exactly on success, and the installed or failed line is sent |
| LegacyHook.Filterer.StopHook | mouse_hook_windows.go:79-85 | afterwards no hook is installed; the "removed" line is sent exactly when one was, and otherwise the channel is untouched |
| LegacyHook.Filterer.GetBlockedCount | mouse_hook_windows.go:87-89 | returns the current count |
| LegacyHook.Filterer.ResetBlockedCount | mouse_hook_windows.go:91-93 | the count becomes zero and the last click is kept |
| UnsupportedHook.Start | internal/hooks/hook_unsupported.go:16-19 | always returns an error and offers the single "only supported on Windows" line to the channel, which it leaves open or closed as it was |
| UnsupportedHook.Stop | internal/hooks/hook_unsupported.go:21-23 | always succeeds |
| UnsupportedHook.GetBlockedCount | internal/hooks/hook_unsupported.go:25-27 | always reports zero blocked clicks |
| UnsupportedHook.IsSupported | internal/hooks/hook_unsupported.go:33-35 | always reports the platform unsupported |
| GoStrings.DigitValue | internal/config/config.go:47 | a decimal digit has a value below ten |
| GoStrings.DigitChar | internal/config/config.go:47 | the digit written for a value below ten reads back as that value |
| GoStrings.NatDigits | internal/config/config.go:47 | the decimal form of a natural number is a non-empty digit string with no leading zero |
| GoStrings.NatDigitsValue | internal/config/config.go:47 | the digits of n read back as n |
| GoStrings.Itoa | internal/config/config.go:47 | the decimal form of an integer is never empty |
| GoStrings.Atoi | internal/config/config.go:47-50 | a successful parse lies in the 64-bit range; the empty text is refused; a result without a leading '-' is not negative |
| GoStrings.AtoiItoa | internal/config/config.go:47-50 | every 64-bit integer survives being written in decimal and parsed back |
| GoStrings.AtoiRejectsNonDigit | internal/config/config.go:47-50 | a text with a non-digit anywhere other than a leading sign is refused |
| GoStrings.TrimSpace | main.go:55 | the trimmed text is empty exactly when the input is all white space; otherwise it starts and ends with a non-space character; text without white space at its ends is unchanged |
| GoStrings.TrimSpaceIdempotent | main.go:55 | trimming twice is trimming once |
| GoStrings.AllSpaceJoin | main.go:55 | two all-space texts joined are all space |
| GoStrings.TrimSpaceIsSlice | main.go:55 | the trimmed text is a slice of the input with only white space outside it |
| GoStrings.SliceBehindSpace | main.go:55 | a slice bounded by white space in the tail after a leading space is bounded by white space in the whole text |
| GoStrings.SliceBeforeSpace | main.go:55 | a slice bounded by white space in the text before a trailing space is bounded by white space in the whole text |
| GoStrings.TrimSpacePadded | main.go:55 | white space added around a text with non-space ends is exactly what trimming removes |
| AppConfig.DefaultConfig | internal/config/config.go:22-31 | the defaults are a 50 ms delay, log level "info", 100 log lines, a 500 by 450 window and minimising to the tray, and they pass the delay check |
| AppConfig.ValidateDelay | internal/config/config.go:34-39 | a configuration is refused exactly when its delay lies outside 1..500 ms |
| AppConfig.ParseDelay | internal/config/config.go:42-57 | the empty text gives the default 50; a non-integer is a format error; an integer outside 1..500 is a range error; every success lies in 1..500 and is the integer written |
| AppConfig.ParseDelayRoundTrip | internal/config/config.go:42-57 | every delay in 1..500 written in decimal parses back to itself |
| AppConfig.ParsedDelayValidates | internal/config/config.go:34-57 | a successfully parsed delay passes the delay check |
| AppConfig.Sanitized | internal/config/config.go:95-110 | after repair the delay lies in 5..500, the limits and sizes are positive and the log level is non-empty; valid fields and the tray flag are kept, and every replaced field holds its default |
| AppConfig.DefaultsSurviveLoading | internal/config/config.go:22-31 | the defaults come through the repair unchanged |
| AppConfig.SanitizedValidates | internal/config/config.go:34-39 | a repaired configuration always passes the delay check |
| AppConfig.SanitizedIdempotent | internal/config/config.go:95-110 | repairing twice is repairing once |
| AppConfig.LoadConfig | internal/config/config.go:75-113 | a failed read or decode gives the defaults; otherwise the field-by-field repair gives the repaired record |
| Logging.AppendBounded | internal/logger/logger.go:82-87 | the new entry is the last one; the history stays within its bound; only the single oldest entry can be dropped, keeping the order; under the bound nothing is dropped |
| Logging.Newest | internal/logger/logger.go:82-87 | the newest lines number the bound, or all of them when there are fewer |
| Logging.HistoryKeepsNewest | internal/logger/logger.go:78-87 | from an empty history, after any sequence of entries the history is exactly the newest `max` of them in arrival order |
| Logging.AppendAllNewest | internal/logger/logger.go:78-87 | appending entries to the newest lines of what was seen gives the newest lines of everything seen |
| Logging.NewestStep | internal/logger/logger.go:82-87 | one bounded append to the newest lines of what was seen gives the newest lines after that entry |
| Logging.Logger.constructor | internal/logger/logger.go:25-37 | a non-positive bound becomes 100; the queue holds 100 lines; history and queue start empty |
| Logging.Logger.GetChannel | internal/logger/logger.go:40-42 | returns the logger's own queue |
| Logging.Logger.Stop | internal/logger/logger.go:54-58 | the queue is closed after Stop, and a repeated Stop changes nothing |
| Logging.Logger.Clear | internal/logger/logger.go:61-62 | the history becomes empty |
| Logging.Logger.Log | internal/logger/logger.go:69-76 | the line is queued at the tail when there is room; on a full queue it is dropped and the queue is unchanged |
| Logging.Logger.AddLogEntry | internal/logger/logger.go:78-87 | the history becomes the bounded append of the line |
| Logging.Logger.ProcessNext | internal/logger/logger.go:45-51 | the oldest queued line, if any, leaves the queue and is appended to the bounded history |
| LegacyApp.DelayFromInput | main.go:55-65 | a blank field means 50 ms; any accepted delay lies in 1..5000; otherwise the trimmed text is accepted exactly when it parses to an integer in 1..5000, and then that integer is the delay |
| LegacyApp.AtoiOfDefault | main.go:57-61 | a helper for the blank-field path of the Start button: the default text "50" parses to 50 |
| LegacyApp.DelayFromInputRoundTrip | main.go:55-65 | any delay in 1..5000 typed in decimal with white space around it is read back |
| LegacyApp.Window.constructor | main.go:20-25 | the field shows "50", nothing runs, and the two greeting lines are queued |
| LegacyApp.Window.StartPressed | main.go:50-74 | while running nothing happens; a blank field is reset to "50"; a refused delay queues the error line and the window stays stopped; an accepted one marks it running, queues the start line and starts the filter with that many milliseconds |
| LegacyApp.Window.StopPressed | main.go:76-88 | when not running nothing happens; otherwise the window is stopped, the stop line is queued, and the filter is removed, adding its own line if a hook was installed |
| LegacyApp.Window.ConsumeLog | main.go:95-106 | the oldest queued line, if any, is moved to the displayed history, which keeps only its newest 100 lines |
| CommandLine.FirstExit | cmd/click-guardian/main.go:16-29 | finds the first version or help flag: none before it, and none at all when it finds none |
| CommandLine.ModeFor | cmd/click-guardian/main.go:31-40 | the tray mode exactly when asked for; protection mode exactly when asked for without the tray; normal mode otherwise |
| CommandLine.Launch | cmd/click-guardian/main.go:16-40 | skipping the program name and ignoring unknown arguments, the loop chooses what the first version or help flag asks for, or else the mode the mode flags choose |
| CommandLine.FirstExitAt | cmd/click-guardian/main.go:22-27 | an exit flag with none before it is the first one |
| CommandLine.NoExit | cmd/click-guardian/main.go:16-29 | without exit flags there is no first one |
| CommandLine.ExitIgnoresTheRest | cmd/click-guardian/main.go:22-27 | arguments after the first exit flag never change what the program does |
| CommandLine.ModeIgnoresOrder | cmd/click-guardian/main.go:16-21 | without an exit flag, repeating or reordering the flags does not change the mode |
| CommandLine.MinimizedWins | cmd/click-guardian/main.go:32-34 | the tray flag selects the tray mode whether or not the protection flag is present |
| VersionInfo.Min | internal/version/version.go:71-76 | the result is at most both arguments and equal to one of them |
| VersionInfo.GetVersionString | internal/version/version.go:49-54 | a development build is labelled as one; a release version is shown unchanged |
| VersionInfo.ShortCommit | internal/version/version.go:63 | the commit shown is the prefix of the hash of length min(length, 8), the whole hash when it is short, so the slice is never out of range |
| VersionInfo.GetFullVersionString | internal/version/version.go:57-68 | the line starts with the name, the version and the build time and ends with a closing parenthesis |

## Left out

- The Win32 calls made through cgo (`SetWindowsHookExW`, `CallNextHookEx`, `UnhookWindowsHookEx`) and the `GetMessage` loop are foreign calls. The hook's answer is the `Verdict` PassOn (hand the message on) or Suppress (return 1), and a set handle is the flag `hookInstalled`.
- The installer goroutines of both hooks run after Start has returned. The success path of the engine's installer is `WindowsHook.HookInstallSucceeded`. Its failure path (log the failure, clear `isRunning`) is concurrent with the callers and is not modelled. The single-file filter's installer is `Filterer.InstallFinished`, both outcomes.
- `LowLevelMouseProc` with `globalHook == nil` dereferences nil. Only the non-nil path is modelled: `WindowsHook.MouseProc` requires a running hook, and `globalHook` itself is not modelled.
- `time.Now()` is a parameter `now`. `detectFaultyHardware` reads the clock a second time for the remembered click time; the model uses the event time, as the two readings differ by nanoseconds.
- The ratio test `float64(shortClicks)/5.0 > 0.6` is the integer test `shortClicks > 3`, which agrees with it for the integers 0..5 the loop can produce.
- Log text is not modelled: no millisecond formatting, emoji or time stamps. Each message is a tagged record carrying the values it prints: a blocked down of the engine carries the button, the measured interval, the effective delay and the blocked total; a spurious up carries the button and the interval since the previous up; a blocked down of the single-file filter carries the button, the interval since the last allowed click and the total. Durations are kept in nanoseconds. The logger's queue and history hold plain strings, and the time stamp that `addLogEntry` prefixes is left out.
- Blocking sends (`logChannel <- msg` in Start, Stop, the installers and the single-window application) are modelled like the non-blocking ones, as an offer that leaves a full channel unchanged. A sequential model cannot wait for the receiver.
- Sends on a nil channel are modelled as doing nothing; the engine never sends on one while it is running. A send on a closed channel panics in Go; here it leaves the buffer unchanged, and `Logger.Log` requires the queue to be open.
- 64-bit overflow of times and durations is not modelled: times are unbounded integers, and `Time.Sub` saturation appears only for the unset time (`MaxDuration`).
- `Hooks.PerButton`: the maps are only ever read and written with the two button-down codes, except `lastUpTime`, which uses the two button-up codes; the model indexes all of them by the button, so no other key is modelled.
- `UnsupportedHook.ResetBlockedCount` does nothing in the source and has no Dafny member.
- `Logger.Start` starts a goroutine that drains the queue until it is closed. It is modelled one turn at a time by `Logger.ProcessNext`, and in the single-window application by `Window.ConsumeLog`.
- `fyne.Do`, `ParseMarkdown`, scrolling and every widget call are left out. This includes the single-window application's Clear button, which only rewrites the display (its history is kept), and the status label and button texts.
- The single-window application's `close(logChannel)` after the window closes is not modelled.
- `GetConfigPath`, `Save`, the file read and the JSON decoding in `LoadConfig` are I/O. `AppConfig.LoadConfig` takes the decoded record, or `None` when any of these failed.
- internal/hooks/hook.go is only the interface both hooks implement; each implementation is modelled as its own module.
- The help text printed by `showHelp` and the printing of the version line are output. `CommandLine.Launch` returns the action chosen instead.
- `VersionInfo.ShortCommit`: commit strings are treated as ASCII. Go's `len` and slice count bytes, so for a non-ASCII commit Go cuts at byte 8 (possibly inside a character) while the model keeps 8 characters.
- `VersionInfo.GetFullVersionString` states only the fixed prefix and the closing parenthesis, not the position of every field. The build variables and `runtime` values are parameters.
- internal/gui/app.go and the other user-interface, platform and asset files are not part of this model.
- Behaviour of the code a reader might not expect:
  - the base delay has no 20 ms floor (`Hooks.EffectiveDelayBelowFloor`);
  - the reduced delay is larger than a base under 20 ms (`Hooks.ReducedDelay`);
  - Start keeps the blocked count and the last complete click (`Hooks.RestartKeepsRapidClickWindow`);
  - the short-click counter tested by the analysis is cumulative, so one short click keeps the delay reduced (`Hooks.OneShortClickKeepsDelayReduced`);
  - the inner `if buttonPressed` of the button-up case (internal/hooks/hook_windows.go:158) always holds, because the guard above it has already returned otherwise.
