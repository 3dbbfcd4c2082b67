# Pomodoro timer for children: a Dafny model

The application is a single-page pomodoro timer for school children. A list
of homework tasks sits beside a countdown clock with three phases: 25 minutes
of focus, a 5-minute short break and a 15-minute long break. A "companion"
panel shows short texts fetched from a text-generation service. The one
component with real logic is `App`. It holds the timer state (`mode`,
`timeLeft`, `totalTime`, `isActive`), the task registry (`tasks`,
`activeTaskId`) and the companion state (`message`, `emotion`, `isLoading`),
and its handlers move this state between phases and tasks.

The model has six modules. Each of the five source files gives one, except
App.tsx, which gives two (`AppState` and `App`).

- `Types` (`types.ts`): the modes and their lengths, the `Task` record and the
  companion's state.
- `TimerDisplay` (`components/TimerDisplay.tsx`): the `mm:ss` clock text, built
  as JavaScript builds it (`toString` then `padStart(2, '0')`). It is proved
  to read back as the same number of seconds, and to be `dd:dd` for every
  timer value. Also the per-mode label and colours.
- `TaskListPanel` (`components/TaskListPanel.tsx`): the add form as a class
  (`TaskForm`) whose submit trims the text, refuses a blank one and clears
  the field. Also the row rules: a completed row cannot be selected, the
  tomato badge, and the "in progress" badge.
- `Advisor` (`services/geminiService.ts`): the text the service hands back for
  a reply, which is never empty.
- `AppState`: the whole component state as one value, one function per
  handler, the invariant every handler keeps, and the lemmas stating what
  each handler promises.
- `App`: the component as a class `Session` whose fields are the state hooks
  and whose methods assign them one by one. Each method is proved to reach
  exactly the state the matching `AppState` function gives. The handler
  methods are also proved to keep the invariant. Five helper methods
  (`SetTimerMode`, `TriggerFocusAI`, `TriggerBreakAI`, `HandleTimerComplete`,
  `RunEffect`) run inside a handler, where the invariant can be broken for a
  moment (completion starts at `timeLeft == 0`), so they state only their
  resulting state.

The invariant (`AppState.Inv`) says:

- task ids are distinct and non-empty;
- the active id, when set, names a task of the list that is not completed;
- `totalTime` is the length of the current mode;
- `0 < timeLeft <= totalTime`;
- a running focus phase always has an active task;
- the companion's message is never empty.

A second of the clock (`Tick`) is the interval's decrement followed at once by
the effect that sees the new value. So when the count reaches zero, the
completion branch runs in the same step. This is why `timeLeft` is never 0
between steps, which is stronger than `0 <= timeLeft <= totalTime`.

Each companion request has two steps. The synchronous half sets
`isLoading`/`emotion` and records an outstanding request in `pending`. The
awaited half (`Settle`) later writes the service's text. Requests may settle
in any order, and the last one to settle decides the message.

## Model

| member | source | states |
|---|---|---|
| Types.Duration | types.ts:20-22 | every phase lasts a positive whole number of minutes, at most the focus length |
| Types.DurationValues | types.ts:20-22 | focus lasts 1500 s, the short break 300 s, the long break 900 s |
| Types.DurationInjective | types.ts:1-5 | the three modes have three different lengths, so the length identifies the mode (both directions) |
| TimerDisplay.DigitChar | components/TimerDisplay.tsx:31 | a digit below ten is written as a decimal digit character |
| TimerDisplay.DigitValue | components/TimerDisplay.tsx:31 | a digit character denotes a value below ten |
| TimerDisplay.DigitRoundTrip | components/TimerDisplay.tsx:31 | reading back a written digit gives the digit |
| TimerDisplay.Digits | components/TimerDisplay.tsx:31 | `n.toString()` is a non-empty string of digits without a leading zero, one digit exactly below 10 and at most two exactly below 100 |
| TimerDisplay.ValueOfDigits | components/TimerDisplay.tsx:31 | the decimal text of `n` reads back as `n` |
| TimerDisplay.PadStart | components/TimerDisplay.tsx:31 | `padStart`: the result is as long as the width or the string, whichever is larger, is pad characters in front and the original string at the end |
| TimerDisplay.ValueOfPadded | components/TimerDisplay.tsx:31 | padding digits with zeros keeps them digits and keeps their value |
| TimerDisplay.MinSec | components/TimerDisplay.tsx:29-30 | whole minutes and leftover seconds: the seconds are below 60 and minutes * 60 + seconds gives back the input |
| TimerDisplay.FieldOfSmall | components/TimerDisplay.tsx:31 | a padded field of a value below 100 is its tens digit followed by its units digit |
| TimerDisplay.FieldValue | components/TimerDisplay.tsx:31 | every padded field has at least two digits and denotes its number |
| TimerDisplay.FormatTime | components/TimerDisplay.tsx:28-32 | `formatTime`: padded minutes, ':', padded seconds; its promises are stated by ParseFormatTime, FormatTimeInjective, FormatTimeShape and FormatTimeOfDuration |
| TimerDisplay.Field | components/TimerDisplay.tsx:31 | `n.toString().padStart(2, '0')`; its promises are stated by FieldOfSmall and FieldValue |
| TimerDisplay.ParseFormatTime | components/TimerDisplay.tsx:28-32 | round trip: reading the clock text back gives the same number of seconds, for every input |
| TimerDisplay.FormatTimeInjective | components/TimerDisplay.tsx:28-32 | different second counts are shown as different texts |
| TimerDisplay.FormatTimeShape | components/TimerDisplay.tsx:28-32 | below 100 minutes the text is exactly five characters: two minute digits, ':' at index 2, two second digits |
| TimerDisplay.StartTextDigits | types.ts:20-22 | the start texts are the digits of each phase's whole minutes followed by `:00` |
| TimerDisplay.FormatTimeOfDuration | components/TimerDisplay.tsx:28-32 | a fresh phase shows "25:00", "05:00" or "15:00" |
| TimerDisplay.Label | components/TimerDisplay.tsx:50-56 | `getLabel`, total over the modes; ModeDisplayDistinct states it is non-empty and different per mode |
| TimerDisplay.Color | components/TimerDisplay.tsx:34-40 | `getColor`, total over the modes; ModeDisplayDistinct states it is non-empty and different per mode |
| TimerDisplay.BgColor | components/TimerDisplay.tsx:42-48 | `getBgColor`, total over the modes; ModeDisplayDistinct states it is non-empty and different per mode |
| TimerDisplay.ModeDisplayDistinct | components/TimerDisplay.tsx:34-56 | label, colour and background are defined and non-empty for every mode, and each is different for different modes (both directions) |
| TaskListPanel.IsSpace | components/TaskListPanel.tsx:26 | the characters `trim` removes (ECMAScript WhiteSpace and LineTerminator); used by the Trim and SubmittedTitle contracts |
| TaskListPanel.LeadingSpace | components/TaskListPanel.tsx:26 | the white space `trim` removes at the front: all white space, followed by a non-space character or the end |
| TaskListPanel.TrailingSpace | components/TaskListPanel.tsx:26 | the white space `trim` removes at the back: all white space, preceded by a non-space character or the start |
| TaskListPanel.Trim | components/TaskListPanel.tsx:26-27 | `trim()` keeps a contiguous middle part; everything cut off is white space; the result neither starts nor ends with white space; it is empty exactly when the input is blank |
| TaskListPanel.TrimIdempotent | components/TaskListPanel.tsx:27 | trimming a trimmed title changes nothing |
| TaskListPanel.SubmittedTitle | components/TaskListPanel.tsx:26-27 | a blank entry (empty or white space only) is refused, and only a blank one is; an accepted title is the non-empty trimmed text, with no white space at either end |
| TaskListPanel.TaskForm.constructor | components/TaskListPanel.tsx:22 | the text field starts empty |
| TaskListPanel.TaskForm.Change | components/TaskListPanel.tsx:43 | the field holds what was typed |
| TaskListPanel.TaskForm.Submit | components/TaskListPanel.tsx:24-30 | submit hands on the trimmed title of a non-blank entry and clears the field; a blank entry hands on nothing and keeps the field |
| TaskListPanel.CanSelect | components/TaskListPanel.tsx:86 | the row-click guard; ClickCompletedIgnored and ClickTaskInv state that a completed task cannot become active through it |
| TaskListPanel.ShowsInProgress | components/TaskListPanel.tsx:110 | the "in progress" badge condition; InProgressExclusive states that at most one row shows it, and one does exactly when a task is active |
| TaskListPanel.TomatoCount | components/TaskListPanel.tsx:92 | the number of tomato icons is `min(sessions, 5)`: never more than 5 or than the sessions |
| TaskListPanel.Overflow | components/TaskListPanel.tsx:95 | the `+n` counter appears exactly when there are more than 5 sessions, and is then positive |
| TaskListPanel.BadgeAccountsForSessions | components/TaskListPanel.tsx:92-95 | icons plus counter always equal the number of sessions |
| Advisor.TextOr | services/geminiService.ts:20-23 | the service text is the reply's text when present and non-empty, the fallback when it is missing or empty, the error text when the call throws; it is never empty |
| Advisor.Encouragement | services/geminiService.ts:8-25 | the encouragement text is never empty |
| Advisor.BreakContent | services/geminiService.ts:30-45 | the break text is never empty |
| AppState.AddSession | App.tsx:72-75 | the list keeps its length; the task with the given id gains one session; every other task is unchanged |
| AppState.ToggleCompleted | App.tsx:164-166 | the list keeps its length; the task with the given id flips `completed`; every other task is unchanged |
| AppState.RemoveId | App.tsx:179 | the filter keeps exactly the tasks with another id, never grows the list, and changes nothing when no task has the id |
| AppState.Find | App.tsx:154 | `find` returns the first task of the list with the id, and returns nothing exactly when no task has it |
| AppState.TaskName | App.tsx:154 | the name sent with an encouragement request is never empty; it is the given title when there is one, and the default name when no task has the id |
| AppState.FindRow | App.tsx:154 | with distinct ids, the search for the id of row `k` finds row `k` |
| AppState.TaskNameOfRow | App.tsx:154 | without a title of its own, the request is named after the row with the id, or "作业" when that row's title is empty |
| AppState.RemoveIdRemovesOne | App.tsx:179 | with distinct ids, deleting the id of row `k` removes exactly that row and keeps the others in order |
| AppState.RemoveIdKeepsUnique | App.tsx:179 | deleting keeps the ids distinct |
| AppState.Init | App.tsx:10-22 | the state on mount; InitInv states it satisfies the invariant |
| AppState.SetTimerMode | App.tsx:91-108 | `setTimerMode`; stated by SetTimerModeEffect and SetTimerModeInv |
| AppState.Reset | App.tsx:215-218 | `onReset`; stated by ResetIdempotent and ResetInv |
| AppState.RequestFocus | App.tsx:111-112 | the synchronous half of `triggerFocusAI`; stated by RequestInv and, through selection, by SelectTaskEffect |
| AppState.RequestBreak | App.tsx:121-122 | the synchronous half of `triggerBreakAI`; stated by RequestInv and, through completion, by FocusCompletes |
| AppState.Settle | App.tsx:113-128 | the awaited half of both requests; stated by SettleEffect and SettleInv |
| AppState.HandleTimerComplete | App.tsx:69-89 | `handleTimerComplete`; stated by FocusCompletes, BreakCompletes and HandleTimerCompleteInv |
| AppState.Effect | App.tsx:55-64 | the timer effect's body; stated, with Tick, by TickCountsDown, TickWhilePaused, FocusCompletes and BreakCompletes |
| AppState.Tick | App.tsx:55-64 | one second: the interval's decrement then the effect; stated by TickCountsDown, TickWhilePaused, FocusCompletes, BreakCompletes and TickInv |
| AppState.SelectTask | App.tsx:146-161 | `selectTask`; stated by SelectTaskEffect and SelectTaskInv |
| AppState.ClickTask | components/TaskListPanel.tsx:86 | a row click; stated by ClickCompletedIgnored, ClickSendsTitle and ClickTaskInv |
| AppState.AddTask | App.tsx:132-144 | `addTask`; stated by AddTaskEffect and AddTaskInv |
| AppState.ToggleTaskComplete | App.tsx:163-176 | `toggleTaskComplete`; stated by ToggleTaskCompleteEffect and ToggleTaskCompleteInv |
| AppState.DeleteTask | App.tsx:178-184 | `deleteTask`; stated by DeleteTaskEffect, DeleteAbsentTask and DeleteTaskInv |
| AppState.TogglePlay | App.tsx:208-214 | `onToggle`; stated by TogglePlayEffect and TogglePlayInv |
| AppState.InitInv | App.tsx:10-22 | the state on mount satisfies the invariant |
| AppState.SetTimerModeInv | App.tsx:91-108 | switching mode keeps the invariant |
| AppState.ResetInv | App.tsx:215-218 | reset keeps the invariant |
| AppState.RequestInv | App.tsx:111-112 | issuing a companion request keeps the invariant |
| AppState.SettleInv | App.tsx:113-118 | a settled request keeps the invariant (the message stays non-empty) |
| AppState.AddSessionKeepsRegistry | App.tsx:72-75 | counting a session keeps ids and completion flags, so the active task is still listed and open |
| AppState.HandleTimerCompleteInv | App.tsx:69-89 | completion from the last second of a valid state gives a valid state |
| AppState.TickInv | App.tsx:55-64 | every second of the clock keeps the invariant, including the one that completes a phase |
| AppState.SelectTaskInv | App.tsx:146-161 | selecting an open task of the list keeps the invariant |
| AppState.ClickTaskInv | components/TaskListPanel.tsx:86 | a click on any row keeps the invariant |
| AppState.AddTaskInv | App.tsx:132-144 | adding a task with a new non-empty id keeps the invariant |
| AppState.ToggleTaskCompleteInv | App.tsx:163-176 | completing or reopening a task keeps the invariant, so the active task is never a completed one |
| AppState.DeleteTaskInv | App.tsx:178-184 | deleting a task keeps the invariant |
| AppState.TogglePlayInv | App.tsx:208-214 | play/pause keeps the invariant, so focus never runs without an active task |
| AppState.ActiveRow | App.tsx:11 | a set active id is the id of exactly one row, and that row is open |
| AppState.CompletedNeverActive | App.tsx:167-169 | a completed task is never the active one |
| AppState.InProgressExclusive | components/TaskListPanel.tsx:110 | at most one row shows "in progress", and one does exactly when a task is active |
| AppState.SetTimerModeEffect | App.tsx:91-108 | `setTimerMode(m)`: mode `m`, paused, `timeLeft == totalTime ==` the length of `m`; tasks and companion untouched |
| AppState.ResetIdempotent | App.tsx:215-218 | reset is `setTimerMode(mode)`, and two resets in a row are one reset |
| AppState.TickCountsDown | App.tsx:55-58 | a running clock with more than one second left loses exactly one second and nothing else changes |
| AppState.TickWhilePaused | App.tsx:55-66 | a paused clock does not move |
| AppState.FocusCompletes | App.tsx:59-79 | the last second of focus: the tone plays once, only the active task gains a session, a break text is requested, and a paused short break of 300 s follows |
| AppState.BreakCompletes | App.tsx:80-88 | the last second of a break: the fixed "break over" message (happy, not loading) and a paused focus phase of 1500 s; tasks untouched |
| AppState.TicksCountDown | App.tsx:55-58 | before its last second, `k` seconds of a running phase only take `k` seconds off the clock |
| AppState.RunBeforeLastSecond | App.tsx:55-58 | before its last second, a running phase has counted no session and is still running |
| AppState.RunToLastSecond | App.tsx:55-64 | a running phase reaches its end on the tick of its last second |
| AppState.TicksSplit | App.tsx:56-58 | ticking `a` then `b` seconds is ticking `a + b` seconds |
| AppState.FocusRunCountsOneSession | App.tsx:59-79 | a focus phase left to run ends after exactly `timeLeft` seconds, paused in a 300 s short break, with one more session on the active task and none on the others |
| AppState.AddTaskEffect | App.tsx:132-144 | exactly one open task with no sessions is appended after the earlier ones; the first task of an empty list becomes active through selection; otherwise nothing else changes |
| AppState.SelectTaskEffect | App.tsx:146-161 | during running focus only a warning is counted; otherwise the task becomes active, focus is reset and paused, and the companion loads (thinking) an encouragement for the title |
| AppState.ClickCompletedIgnored | components/TaskListPanel.tsx:86 | clicking a completed row changes nothing, so it cannot become active through the list |
| AppState.ClickSendsTitle | App.tsx:146-161 | clicking an open row while no focus phase runs makes that task active and requests an encouragement named after its title, or "作业" for an empty title |
| AppState.TogglePlayEffect | App.tsx:208-214 | play is refused in focus mode without an active task (the clock is unchanged and the "select a task first" hint shows); otherwise it only flips `isActive` |
| AppState.ToggleTaskCompleteEffect | App.tsx:163-176 | only the matching task flips; if it was active, the reference clears, the clock pauses and the companion celebrates; otherwise only the list changes |
| AppState.DeleteTaskEffect | App.tsx:178-184 | exactly the matching task goes and the others keep their order; if it was active, the reference clears and the clock pauses; the companion is untouched |
| AppState.DeleteAbsentTask | App.tsx:178-184 | deleting an id no task has changes nothing |
| AppState.SettleEffect | App.tsx:113-128 | a settled request leaves the companion idle with a non-empty text, happy after an encouragement and celebrating after a break text; the message is exactly the service's text for the reply; nothing else but `pending` changes |
| App.Session.constructor | App.tsx:10-22 | the state on mount, which satisfies the invariant |
| App.Session.SetTimerMode | App.tsx:91-108 | the fields become `AppState.SetTimerMode` of the old state |
| App.Session.Reset | App.tsx:215-218 | the fields become `AppState.Reset` of the old state; the invariant is kept |
| App.Session.TogglePlay | App.tsx:208-214 | the fields become `AppState.TogglePlay` of the old state; the invariant is kept |
| App.Session.TriggerFocusAI | App.tsx:111-112 | the companion loads (thinking) and an encouragement request is outstanding |
| App.Session.TriggerBreakAI | App.tsx:121-122 | the companion loads (celebrating) and a break-text request is outstanding |
| App.Session.Settle | App.tsx:113-128 | the fields become `AppState.Settle` of the old state; the invariant is kept |
| App.Session.HandleTimerComplete | App.tsx:69-89 | the fields become `AppState.HandleTimerComplete` of the old state |
| App.Session.RunEffect | App.tsx:55-64 | the fields become `AppState.Effect` of the old state |
| App.Session.Tick | App.tsx:55-64 | the fields become `AppState.Tick` of the old state; the invariant is kept |
| App.Session.SelectTask | App.tsx:146-161 | the fields become `AppState.SelectTask` of the old state; the invariant is kept |
| App.Session.ClickTask | components/TaskListPanel.tsx:86 | the fields become `AppState.ClickTask` of the old state; the invariant is kept |
| App.Session.AddTask | App.tsx:132-144 | the fields become `AppState.AddTask` of the old state; the invariant is kept |
| App.Session.ToggleTaskComplete | App.tsx:163-176 | the fields become `AppState.ToggleTaskComplete` of the old state; the invariant is kept |
| App.Session.DeleteTask | App.tsx:178-184 | the fields become `AppState.DeleteTask` of the old state; the invariant is kept |
| App.Session.SubmitForm | components/TaskListPanel.tsx:24-30 | a non-blank entry adds a task under its trimmed title and clears the field; a blank one changes nothing |

## Left out

- The tone (`playBeep`, App.tsx:27-49) uses the Web Audio API and floating-point ramps. The model counts the tones played (`beeps`).
- `window.setInterval` / `clearInterval` and the re-arming of the effect are not modelled. A second of the clock is the explicit `Tick`: the interval's decrement followed by the effect that sees the new value.
- The network call to the text-generation service is a parameter (`Advisor.Reply`). Interleaving of the two halves of a request with other handlers is reduced to "any outstanding request may settle at any time". Logging to the console is left out.
- The `alert` shown when a task switch is refused is counted (`alerts`). Nothing else about it is modelled.
- components/Companion.tsx only renders the companion state. It is not part of this model.
- The progress ring of components/TimerDisplay.tsx:23-26 uses floating-point `Math.PI` and ratios, so it is left out. All JSX and class strings other than the label and colours are left out too.
- App.Session.AddTask: assumes the new id (`Date.now().toString()`, App.tsx:134) is non-empty and differs from every existing id. The source does not guarantee this for two adds within one millisecond.
- App.Session.SelectTask: requires the id to name an open task of the list. Its two callers guarantee this: the row click skips completed rows, and `addTask` passes the task it has just added. The function `AppState.SelectTask` accepts any id.
- App.Session.Tick: the decrement and the effect run as one step. React renders between them, but no handler can run there in the model.
- TimerDisplay.Digits: gives plain decimal digits for every natural number. JavaScript switches to exponent notation from 10^21 on, far above any timer value.
- TaskListPanel.Trim: works on Unicode code points. JavaScript strings are UTF-16 units; the white-space set is the same.
- The submit button's `disabled` state (components/TaskListPanel.tsx:50) follows the same blank test as submit. It is not modelled separately.
