# Pomodoro timer: a Dafny model of its core

This project models the logic behind a browser Pomodoro timer. The timer alternates focus and break sessions. The model covers:

- **The timer state machine of the `useTimer` hook** (module `Timer`).
  - State: mode, cycle, running flag, deadline, paused and total time.
  - Transitions: play, pause, skip, reset, add-time, the auto-switch on completion, and the idle recompute.
  - The TypeScript `App` inlines the same handlers.
- **The countdown-beep dedup of the hook** (module `TimerCues`): at most one tick per displayed second in the last five, and one completion cue per deadline.
- **The TypeScript `App` page** (module `AppShell`).
  - It wires those handlers to its own sound engine.
  - The `scheduledEndRef` / `beepedForRef` guard plays the completion chime, with a catch-up check on visibility or focus and a beep-mark timeout.
  - After an auto-switch, the next chime is re-armed 2.4 s later.
- **The sound engine** (modules `SoundEngine` and `Chime`).
  - The lazily created context, the mute rule and the no-context guard of `blip`.
  - The seven-note completion chime.
  - The cue list that `scheduleCompleteIn` places on the audio timeline: up to five countdown ticks, then the chime.
- **The older single-file page `App.jsx`** (module `LegacyApp`).
  - Whole-second pause with a duration lock.
  - The lock-aware idle recompute.
  - The capped list of minute dots.
- **The helpers.**
  - `fmt` (module `ClockFormat`).
  - `onlyDigits`, `normalizeMinutes`, `parseInt(…) || fallback` and the blur handlers (module `DurationInput`).
  - Integer spelling and reading (module `Decimal`).
- **The task list** (module `TaskList`): add, toggle, clear, the stored-list fallback and the pinned flag.

Modelling conventions:

- **Time.** Every time is an integer number of milliseconds, so the 0.5 s resume guard is 500 ms. Wall-clock and audio-clock readings are parameters of the events. Gains are hundredths.
- **The deadline.** It is an `Option<int>`. An epoch-millisecond deadline is never 0, so JavaScript's truthiness test on `endAt` is presence.
- **Handlers and effects.** Each React handler and each effect is one atomic, pure transition. In the two page models every event is followed by the effects that React runs after the render.
- **Duration fields.** They hold only the digit strings that `onlyDigits` produces (`DigitString`), and `parseInt` is read as the exact value of the digits (see `DurationInput.MinutesOf` under "## Left out" for where JavaScript differs).

## Model

| member | source | states |
|---|---|---|
| Decimal.NatToString | src/components/AnimatedTime.tsx:5-6 | `toString()` of a non-negative integer is a digit string without a leading zero, one character long exactly when the number is below 10 |
| Decimal.ValueOfNatToString | src/hooks/useTimer.ts:9-13 | reading back the spelling `String(n)` gives `n` |
| Decimal.NatToStringOfValue | src/hooks/useTimer.ts:25-26 | every digit string without a leading zero is the spelling of the number it denotes |
| ClockFormat.Fmt | src/components/AnimatedTime.tsx:3-8 | the result is a digit-only minutes field, the only colon, and exactly two digits of seconds below 60; minutes times 60 plus seconds equals the floored, non-negative input |
| ClockFormat.FmtWhole | src/App.tsx:12-17 | the same rendering for a whole number of seconds, as in the TypeScript `App`'s own copy of `fmt` |
| ClockFormat.WholeSeconds | src/components/AnimatedTime.tsx:4 | negative inputs count as 0; otherwise the result is the floor of the input |
| ClockFormat.PadStart2 | src/components/AnimatedTime.tsx:5-6 | `padStart(2, "0")` keeps the digits and the value and makes the length at least 2 |
| ClockFormat.FmtMinutesField | src/components/AnimatedTime.tsx:5 | the minutes field is zero-padded to two digits under 10 minutes and is otherwise the full spelling, never truncated |
| ClockFormat.FmtNegative | src/App.jsx:13-18 | any negative input renders as `00:00` |
| ClockFormat.FmtDistinguishesSeconds | src/components/AnimatedTime.tsx:4-7 | two inputs render alike exactly when they floor to the same whole second: fractions are floored away and every whole second has its own reading |
| ClockFormat.FmtTenHours | src/components/AnimatedTime.tsx:5-7 | 36000 s renders as `600:00`: a three-digit minutes field |
| DurationInput.Clamp | src/hooks/useTimer.ts:12 | the result lies in `[lo, hi]`, equals the input inside it, and equals the nearer bound outside it |
| DurationInput.OnlyDigits | src/hooks/useTimer.ts:8 | the result is all digits, never longer than the input, and a digit-only input is unchanged |
| DurationInput.OnlyDigitsKeepsDigits | src/App.tsx:20 | every digit is kept as often as it occurs in the input |
| DurationInput.OnlyDigitsAppend | src/hooks/useTimer.ts:8 | filtering distributes over concatenation, so the digits keep their order |
| DurationInput.NormalizeMinutes | src/hooks/useTimer.ts:9-13 | a field too long for a finite `Number` gives the fallback; anything else gives its value clamped to [1, 600], spelled without leading zeros |
| DurationInput.NormalizeOnBlur | src/hooks/useTimer.ts:214-215 | on blur, a blank field becomes the default and anything else is normalised; the result always lies in [1, 600] |
| DurationInput.NormalizeOnBlurIdempotent | src/App.tsx:902-903 | a second blur leaves a normalised field unchanged |
| DurationInput.MinutesOf | src/hooks/useTimer.ts:25-26 | `parseInt(text)`, or the fallback when that is falsy, is the fallback for an empty or zero field and the field's value otherwise |
| DurationInput.DurationsOf | src/App.tsx:488-489 | both minute counts the timer reads are at least 1 |
| DurationInput.BlurThenRead | src/hooks/useTimer.ts:214 | after a blur, the minutes the timer reads equal the normalised field, within [1, 600] |
| DurationInput.LoadMinutesText | src/hooks/useTimer.ts:17-24 | a stored text is normalised, a missing or empty one gives the default; the result lies in [1, 600] |
| DurationInput.LegacyBlur | src/App.jsx:280 | the older blur: a blank field becomes the default text, and anything else is clamped to [1, 600] |
| DurationInput.BlurVariantsAgree | src/App.jsx:290 | the two blur handlers agree on every field a finite `Number` can hold; on longer fields the newer one falls back and the older one gives 600 |
| Timer.Init | src/hooks/useTimer.ts:32-40 | the first state is focus, cycle 1, stopped, with the full focus duration as total and remainder |
| Timer.Remaining | src/hooks/useTimer.ts:84-87 | the deadline minus now while it is ahead, 0 once it has passed, the stored remainder with no deadline; never negative on a valid state |
| Timer.RemainingCountsDown | src/hooks/useTimer.ts:84-87 | while running, the remainder falls one-for-one with the clock until the deadline and then stays 0, never increasing |
| Timer.Clamp01 | src/hooks/useTimer.ts:7 | the result lies in [0, 1], equals the input inside it, and equals the nearer bound outside it |
| Timer.FracRemaining | src/hooks/useTimer.ts:88 | the fraction lies in [0, 1], is 0 when the total is 0, and otherwise is remainder divided by total |
| Timer.AutoSwitch | src/hooks/useTimer.ts:118-135 | with nothing left on a running deadline: flip the mode, add a cycle exactly when leaving a break, load the next duration into both times, keep running toward `now` plus that duration; otherwise nothing changes; validity is kept |
| Timer.AutoSwitchOncePerDeadline | src/hooks/useTimer.ts:119-128 | once switched, polling again at any instant before the new deadline changes nothing |
| Timer.TwoCompletionsOneCycle | src/hooks/useTimer.ts:124 | two completions in a row come back to the starting mode with exactly one more cycle |
| Timer.ResumeMs | src/hooks/useTimer.ts:149-155 | play resumes from a future deadline's remainder or the stored one; below 500 ms it substitutes `pausedSec`, else `totalSec`, else 60 s; on a valid state the result is positive |
| Timer.Play | src/hooks/useTimer.ts:147-160 | play runs toward `now` plus the resume remainder, strictly after `now`; mode, cycle and both stored times are unchanged |
| Timer.Pause | src/hooks/useTimer.ts:161-167 | pause stores the non-negative remainder, drops the deadline and keeps the remaining time |
| Timer.PlayPause | src/hooks/useTimer.ts:144-168 | the running flag flips, mode, cycle and total are kept, validity is kept, and the remainder is unchanged whenever at least 0.5 s was left |
| Timer.PauseThenPlay | src/hooks/useTimer.ts:144-168 | pausing and playing at the same instant restores the state whenever at least 500 ms was left |
| Timer.PlayKeepsShortRemainder | src/hooks/useTimer.ts:155 | a stored remainder between 0 and 500 ms is resumed as it is, not replaced by the full time |
| Timer.PlayAfterZeroUsesTotal | src/App.tsx:694 | a zero remainder resumes from the session's total time |
| Timer.Skip | src/hooks/useTimer.ts:170-182 | skip flips the mode, keeps the cycle, stops, drops the deadline, and loads the new mode's duration into both times |
| Timer.Reset | src/hooks/useTimer.ts:184-195 | reset keeps mode and cycle, stops, drops the deadline, and reloads the current mode's duration |
| Timer.SkipTwiceIsReset | src/hooks/useTimer.ts:170-195 | two skips restore the mode and equal a reset, apart from the idle effect's key |
| Timer.ResetIdempotent | src/App.tsx:739-753 | a second reset changes nothing |
| Timer.AddTime | src/hooks/useTimer.ts:197-209 | a non-positive amount changes nothing; otherwise the total grows by the amount, and so does the deadline when running or the stored remainder when stopped |
| Timer.AddTimeExtendsRemaining | src/App.tsx:755-773 | added time shows up one-for-one in the remainder unless the running deadline has already passed |
| Timer.Settle | src/hooks/useTimer.ts:106-115 | while stopped, a new mode-and-durations key reloads the mode's duration into both times; a running timer or an unchanged key is left alone |
| Timer.SettleAfterSkip | src/App.tsx:624-635 | after a skip, the idle effect only records its key |
| Timer.SettleAfterReset | src/hooks/useTimer.ts:193 | after a reset, the idle effect changes nothing |
| Timer.EditWhilePausedReloads | src/hooks/useTimer.ts:105-115 | editing a duration while paused discards the paused remainder: the full new duration is loaded |
| TimerCues.CeilSeconds | src/hooks/useTimer.ts:93 | the displayed seconds are the least whole number of seconds at or above the remainder |
| TimerCues.BeepEffect | src/hooks/useTimer.ts:91-103 | a tick plays exactly when in the last five displayed seconds and not the second ticked last; the completion cue plays exactly when nothing is left and the deadline has no cue yet, and it announces the next mode; the refs record both |
| TimerCues.BeepEffectIdempotent | src/hooks/useTimer.ts:94-101 | re-running the effect with nothing changed plays nothing |
| TimerCues.RunBeeps | src/hooks/useTimer.ts:91-103 | over any sequence of instants, every cue played is a tick for 1 to 5 seconds left or the completion cue for the current deadline announcing the next mode |
| TimerCues.CeilSecondsMonotone | src/hooks/useTimer.ts:93-94 | later instants never show more seconds left |
| TimerCues.RunBeepsAtMostOnce | src/hooks/useTimer.ts:92-102 | between ref resets, with the clock moving forward, ticks come with strictly decreasing seconds in 1..5 and at most one completion cue plays |
| TimerCues.RunBeepsOrdered | src/hooks/useTimer.ts:94-96 | the same, for any refs whose last second is not below the first displayed one, and no cue for a deadline already marked |
| TimerCues.Step | src/hooks/useTimer.ts:91-135 | every event keeps the timer valid, only ticks play cues, and a completing tick resets the refs |
| TimerCues.CompletionCueOnce | src/hooks/useTimer.ts:98-102 | a completing tick plays the cue for the old deadline, announcing the new mode, and a second tick at the same instant plays nothing |
| Chime.Base | src/audio/SoundEngine.ts:127-128 | the base frequencies are 660, 825, 990 and 1320 Hz, strictly increasing |
| Chime.FocusToBreakShape | src/audio/SoundEngine.ts:129 | the rising-falling order is 660, 825, 990, 1320, 990, 825, 660, that is note i is `base[3 - abs(3 - i)]` |
| Chime.BreakToFocusShape | src/audio/SoundEngine.ts:130 | the falling-rising order is 1320, 990, 825, 660, 825, 990, 1320, that is note i is `base[abs(3 - i)]` |
| Chime.ChimesArePalindromes | src/App.tsx:332-333 | both orders read the same backwards |
| Chime.ChimeExtremes | src/App.tsx:330-334 | one order peaks at 2a in the middle note, the other dips to a there |
| Chime.CompleteNotes | src/audio/SoundEngine.ts:131-144 | the chime has seven notes; note i has the selected order's frequency, peak i and a delay of i times 180 ms |
| Chime.Freqs | src/audio/SoundEngine.ts:128-131 | seven frequencies; before focus the chime starts and ends on 2a and dips to a in the middle, before a break it starts and ends on a and peaks at 2a |
| Chime.CompleteNotesTiming | src/audio/SoundEngine.ts:132-142 | the first note has no delay, delays strictly increase, and peaks never increase |
| Chime.ChimeDirections | src/audio/SoundEngine.ts:131 | next mode focus selects the falling-rising order; break, the default, selects the rising-falling order |
| SoundEngine.NewEngine | src/audio/SoundEngine.ts:6-11 | a fresh engine has no context and nothing scheduled, and is well formed |
| SoundEngine.Ensure | src/audio/SoundEngine.ts:13-22 | an existing context is kept; otherwise one is created with its master gain set by the mute rule, or construction fails when the host has no audio |
| SoundEngine.Unlock | src/audio/SoundEngine.ts:24-32 | unlock fails exactly when ensure does; afterwards the engine is unlocked exactly when it was already or the resume succeeded |
| SoundEngine.SetMuted | src/audio/SoundEngine.ts:34-39 | the flag is always recorded; with a master node its gain becomes 0 when muted and the volume otherwise; without one the gain is untouched |
| SoundEngine.MutedIffSilent | src/App.tsx:187-192 | with a master node, the gain is 0 exactly when muted |
| SoundEngine.Blip | src/audio/SoundEngine.ts:41-82 | blip fails exactly when ensure does; it plays nothing without a context and master node, and otherwise exactly one sound now |
| SoundEngine.BlipSoundsOnceEnsured | src/App.tsx:206-207 | on a well-formed engine whose host has audio, every blip sounds |
| SoundEngine.PlayComplete | src/audio/SoundEngine.ts:126-145 | the completion chime is seven sounds with the note frequencies and peaks, 180 ms apart from now; a host without audio plays nothing and raises no error; scheduled cues are untouched |
| SoundEngine.CancelScheduled | src/App.tsx:286-295 | the scheduled list is empty afterwards, nothing else changes, and an empty list is left alone |
| SoundEngine.CountdownTicks | src/App.tsx:305-329 | the loop over the last five seconds yields at most that many ticks; where they fall is stated by `TicksPlaced`, `TicksPresent` and `TicksSorted` |
| SoundEngine.TicksPlaced | src/App.tsx:306-308 | every countdown cue is a tick strictly after now, a whole number of seconds from 1 to 5 before the deadline |
| SoundEngine.TicksPresent | src/App.tsx:305-329 | no tick still in the future is dropped |
| SoundEngine.TicksSorted | src/App.tsx:306-307 | the ticks come out in increasing time order |
| SoundEngine.ChimeCues | src/App.tsx:330-357 | the seven chime cues sit at the deadline plus i times 180 ms, with note i's frequency and peak |
| SoundEngine.Deadline | src/App.tsx:304 | the deadline is never before now |
| SoundEngine.CompletionCues | src/App.tsx:304-357 | between 7 and 12 cues in increasing time order; ticks lie strictly after now and at least a second before the deadline, and notes lie at or after it; every future tick is present |
| SoundEngine.CompletionHasSevenNotes | src/App.tsx:336-357 | whatever the delay, exactly seven chime notes are scheduled |
| SoundEngine.FarDeadlineGetsFiveTicks | src/App.tsx:306-309 | a deadline more than five seconds away gets all five ticks |
| SoundEngine.NearDeadlineGetsNoTicks | src/App.tsx:307-308 | a deadline at most one second away gets no tick |
| SoundEngine.AllTicksKept | src/App.tsx:306-328 | when even the earliest tick is in the future, every tick is kept |
| SoundEngine.ScheduleCompleteIn | src/App.tsx:299-304 | scheduling fails exactly when ensure does; without a context and master node it changes nothing; otherwise the scheduled list is exactly the new deadline's cues and the next mode is recorded |
| SoundEngine.Arm | src/App.tsx:300-303 | after ensure: a no-op without a context and master node, otherwise the earlier cues are replaced by the new ones |
| SoundEngine.ArmSupersedes | src/App.tsx:302 | the cues after re-arming do not depend on what was scheduled before |
| AppShell.Start | src/App.tsx:480-508 | the page starts with the invariant holding, nothing scheduled, and the chime guard clear |
| AppShell.EnsureHost | src/App.tsx:166-176 | on a host with Web Audio, ensure yields a context and master node and keeps the scheduled cues |
| AppShell.OnTick | src/App.tsx:637-671 | a tick that does not complete changes nothing; a completing one keeps the timer running and appends exactly one re-arm to the queue; the invariant is kept |
| AppShell.OnResume | src/App.tsx:598-615 | the catch-up check never touches the timer, the queued re-arms or the scheduled cues, and keeps the invariant |
| AppShell.OnMarkFired | src/App.tsx:579-584 | a pending beep-mark timeout marks the recorded deadline delivered (the guard becomes that deadline) and is then spent; with no recorded deadline it marks nothing; a cleared timeout changes nothing; the timer, engine and queue are untouched |
| AppShell.MarkedIsNotRechimed | src/App.tsx:579-607 | once the timeout has marked a deadline, neither the catch-up check nor the auto-switch fallback chimes it again, at any instant |
| AppShell.OnDeferredFires | src/App.tsx:661-664 | a queued re-arm leaves the timer and the chime guard alone and removes itself from the head of the queue; with nothing queued, nothing changes |
| AppShell.Silence | src/App.tsx:713-716 | no cue stays scheduled, and the guard and the pending mark are cleared |
| AppShell.OnPlayPause | src/App.tsx:682-719 | the timer takes its play/pause transition; the queued re-arms are untouched; a pause leaves nothing scheduled; the invariant is kept |
| AppShell.OnAddTime | src/App.tsx:755-773 | the timer takes its add-time transition, the queue is untouched, a stopped timer's cues stay as they were, and the invariant is kept |
| AppShell.OnSkip | src/App.tsx:721-737 | the timer takes its skip transition and the invariant is kept |
| AppShell.OnReset | src/App.tsx:739-753 | the timer takes its reset transition and the invariant is kept |
| AppShell.OnEdit | src/App.tsx:901-917 | typing in or leaving a duration field changes only that field: typing keeps exactly the typed digits, leaving puts the minutes in [1, 600] and gives a blank field its default (30 or 5); every other event leaves the page alone |
| AppShell.Handle | src/App.tsx:598-773 | only the auto-switch and the catch-up check play a chime, and at most one per event |
| AppShell.Settled | src/App.tsx:624-635 | the idle effect touches only the timer's stored times and keeps the invariant |
| AppShell.TypedFocusReachesTimer | src/App.tsx:624-635 | typing a new focus duration into a stopped focus session reloads the timer: the remainder becomes the typed minutes, under the page as written and the corrected one alike |
| AppShell.StepAsWritten | src/App.tsx:637-773 | the page as written keeps the invariant; only a completion queues a re-arm and only a firing re-arm leaves the queue, so no control clears it |
| AppShell.Step | src/App.tsx:713-716 | the corrected step: pause, skip, reset and a positive add-time also drop the queued re-arms; every other event is taken as written; the invariant is kept and a stopped timer stays silent, with nothing scheduled and nothing queued |
| AppShell.StepQuiet | src/App.tsx:732-735 | under the corrected step, which drops the queue on every control, no event arms cues for a stopped timer |
| AppShell.TickQueuesRearm | src/App.tsx:659-664 | an auto-switch keeps running and queues exactly one more re-arm: `max(0, nt - 2.4 s)` toward the mode after next |
| AppShell.PauseKeepsQueue | src/App.tsx:707-717 | as written, pause stops the timer but leaves the queued re-arms |
| AppShell.QueuedRearmArms | src/App.tsx:661-663 | a queued re-arm that fires schedules the cues of the arm at the head of the queue, at least seven, whatever the timer is doing and with the guard unmoved |
| AppShell.StaleArmAsWritten | src/App.tsx:660-664 | tick to completion, pause, then the re-arm fires: the timer is stopped yet at least seven cues are scheduled |
| AppShell.StaleArmCorrected | src/App.tsx:713-716 | the same three events under the corrected step leave nothing scheduled |
| AppShell.EmptyQueueFiresNothing | src/App.tsx:661-664 | with nothing queued, a running page is left exactly as it was, as written and corrected |
| AppShell.AddTimeStaleArmAsWritten | src/App.tsx:660-664 | tick to completion, add time while running, then the re-arm fires: the guard holds the extended deadline, but the cues on the timeline are those of the pre-add remainder and do not depend on the added seconds |
| AppShell.AddTimeStaleArmCorrected | src/App.tsx:764-768 | the same three events under the corrected step leave the add-time's cues for the extended deadline in place |
| AppShell.AddTimeThenFire | src/App.tsx:759-768 | under the corrected step, a positive add-time arms the extended deadline and a later firing of the queue changes nothing |
| AppShell.CatchUpWhenDue | src/App.tsx:599-608 | the catch-up chime plays exactly when running past a recorded deadline not marked delivered; it is for that deadline and marks it |
| AppShell.CatchUpOnce | src/App.tsx:604-607 | after a catch-up chime, a second check at any later instant plays nothing |
| AppShell.FallbackWhenUnmarked | src/App.tsx:651-658 | the auto-switch plays the fallback chime exactly when it completes a deadline not marked delivered; the chime is for the old deadline; the guard moves on |
| AppShell.StopsSilence | src/App.tsx:747-750 | under the corrected step, pause, skip and reset leave no cue scheduled, no re-arm queued, and the guard clear |
| AppShell.PlayArms | src/App.tsx:700-705 | play schedules exactly the cues for the resumed remainder toward the next mode and records the new deadline, unmarked |
| AppShell.AddTimeRearms | src/App.tsx:759-768 | adding time while running, as written and corrected, moves the guard's deadline with the timer's and re-arms for `max(0, newEnd - now)` toward the next mode, unmarked |
| AppShell.TickFresh | src/App.tsx:652-657 | the fallback chime is for a deadline not chimed before, and the new deadline lies after every chimed one |
| AppShell.ResumeFresh | src/App.tsx:604-607 | the catch-up chime is for a deadline not chimed before |
| AppShell.PlayPauseFresh | src/App.tsx:703-704 | play moves the recorded deadline past every chimed one; pause clears it |
| AppShell.StepChimesFresh | src/App.tsx:651-658 | one step, as written or corrected, plays at most one chime, for a deadline not chimed before |
| AppShell.Run | src/App.tsx:568-571 | a run of events through the corrected step keeps the invariant and plays at most one chime per event |
| AppShell.RunAsWritten | src/App.tsx:568-571 | a run of events through the page as written keeps the invariant and plays at most one chime per event |
| AppShell.RunChimesFresh | src/App.tsx:569-571 | along a corrected run with a non-decreasing clock, the page's chimes are for distinct deadlines, none already chimed |
| AppShell.RunAsWrittenChimesFresh | src/App.tsx:569-571 | the same for the page as written |
| AppShell.ChimeOncePerDeadline | src/App.tsx:568-571 | along any run with a non-decreasing clock, the page as written, and equally the corrected page, plays its own completion chime at most once per deadline |
| LegacyApp.Start | src/App.jsx:125-139 | the page starts valid, in break mode, stopped, cycle 1, with five minutes |
| LegacyApp.RemainingMs | src/App.jsx:147-150 | the remainder is the deadline minus the rendered instant, floored at 0, or the stored whole seconds when stopped |
| LegacyApp.Fraction | src/App.jsx:236 | the fraction lies in [0, 1], is 0 without a total, and otherwise is remainder divided by total |
| LegacyApp.Idle | src/App.jsx:153-159 | stopped and unlocked, the total becomes the mode's full duration; running or locked, nothing changes |
| LegacyApp.AppendCapped | src/App.jsx:169 | the list grows by one up to 140 entries, keeps the newest entries of the appended list, and ends with the new dot |
| LegacyApp.Dots | src/App.jsx:162-171 | while running with a total, entering a new whole minute appends one capped dot; otherwise nothing changes |
| LegacyApp.Frame | src/App.jsx:142-144 | the animation frame changes only the rendered instant, to the frame's clock while running toward a deadline; a stopped page is untouched |
| LegacyApp.AutoSwitch | src/App.jsx:174-188 | on completion: flip the mode, add a cycle exactly when leaving a break, unlock, load the next duration, clear the dots, run toward `clock` plus the duration |
| LegacyApp.TogglePlayPause | src/App.jsx:191-204 | play unlocks and runs toward `clock` plus the shown remainder; pause stores the remainder floored to whole seconds and locks it |
| LegacyApp.Skip | src/App.jsx:206-216 | skip flips the mode, keeps the cycle, stops, unlocks, clears the dots and loads the new mode's duration |
| LegacyApp.Handle | src/App.jsx:276-291 | the handlers: a frame moves only the rendered instant, typing keeps only the typed digits and touches only its field, a blur of a non-blank field leaves it in [1, 600] and touches only that field, play/pause flips running, skip moves to the next mode stopped, and no handler breaks a valid page's shape |
| LegacyApp.Effects | src/App.jsx:152-188 | the idle recompute, the minute dots and the auto-switch, in page order, turn any shaped page into a valid one and never touch the duration fields |
| LegacyApp.EffectsSettle | src/App.jsx:152-188 | running the three effects again at the same instant changes nothing, which is what lets the model run them once after every event |
| LegacyApp.Step | src/App.jsx:142-216 | one event and the effects after it keep the page valid: at most 140 dots, a deadline exactly while running, and a stopped, unlocked page showing its mode's full duration |
| LegacyApp.PausePlayDropsSubSecond | src/App.jsx:198-201 | pause then play resumes from the remainder floored to whole seconds, losing less than a second |
| LegacyApp.LockedPauseSurvivesEdits | src/App.jsx:154 | while stopped and locked, editing either duration leaves the stored time alone |
| LegacyApp.UnlockedIdleFollowsEdits | src/App.jsx:153-158 | while stopped and unlocked, the stored time follows the edited duration |
| LegacyApp.FrameCompletes | src/App.jsx:176-186 | a frame past the deadline switches the mode, counts a cycle only when leaving a break, clears the dots and runs on |
| LegacyApp.SkipTwiceRestoresMode | src/App.jsx:207-215 | two skips restore the mode and cycle, stopped and unlocked with the mode's full duration and no dots |
| TaskList.Trim | src/TaskList.tsx:34 | `trim()` returns the slice left after dropping white space at both ends, and it neither starts nor ends with white space |
| TaskList.TrimBlank | src/TaskList.tsx:35 | the trimmed text is empty exactly when the input is all white space |
| TaskList.TrimIdempotent | src/TaskList.tsx:34-35 | trimming twice is trimming once |
| TaskList.AddTask | src/TaskList.tsx:33-38 | blank input changes nothing; otherwise exactly one unfinished task with the trimmed text is appended, earlier tasks are kept, and the input is cleared |
| TaskList.AddedTextIsTrimmed | src/TaskList.tsx:34-36 | an added task's text is never blank and has no white space at either end |
| TaskList.AddTaskKeepsIdsUnique | src/TaskList.tsx:36 | adding under a fresh id keeps the ids distinct |
| TaskList.Toggle | src/TaskList.tsx:84-90 | same length, order, ids and texts; `done` flips exactly on the tasks with the given id |
| TaskList.ToggleTwice | src/TaskList.tsx:87 | toggling the same id twice restores the list |
| TaskList.ToggleUnknownId | src/TaskList.tsx:86-88 | an id no task carries leaves the list unchanged |
| TaskList.ToggleChangesOne | src/TaskList.tsx:85-89 | with distinct ids, a toggle changes exactly the one task |
| TaskList.ClearAll | src/TaskList.tsx:40 | `clearAll` yields the empty list |
| TaskList.LoadTasks | src/TaskList.tsx:14-21 | a missing, empty or unparseable stored list loads as empty; otherwise the parsed list |
| TaskList.EncodePinned | src/TaskList.tsx:30 | the flag is stored as the single character "1" or "0" |
| TaskList.LoadPinned | src/TaskList.tsx:23 | a missing value reads as not pinned |
| TaskList.PinnedRoundTrip | src/TaskList.tsx:23-30 | a stored flag reads back as written, and only "1" reads as pinned |

## Left out

- The Web Audio graph is not modelled: oscillators, gain and filter nodes, envelope ramps, `chord`, and the start, pause, skip and click sounds. Cues and sounds are abstract (time, frequency, peak) records.
- `AudioContext.resume` is a boolean parameter of `Unlock`, and its asynchrony is not modelled.
- The TypeScript `App` page assumes a host with Web Audio (`AppShell.EnsureHost`). Only the engine-level functions model the missing-context error.
- The animation frame, `setInterval`, `setTimeout` and the visibility and focus listeners are not modelled as timers. They become explicit events: tick, resume, mark-fired, deferred re-arm fires.
- React's batching, effect re-runs and stale closures are not modelled.
- `localStorage`, `JSON.stringify`, `JSON.parse` and `crypto.randomUUID` are outside the model. Stored values, parse results and fresh ids are parameters.
- `LoadTasks` does not check that a parsed value is an array of tasks.
- `document.title`, fullscreen, keyboard shortcuts, the idle cursor, the task list's visibility and its pin button are DOM effects and are not modelled.
- Drag reordering of tasks (`onReorder`) is not modelled, because the animation library decides the new order.
- The timer's `justCompleted` and `timeBump` flags only drive animation and are not modelled.
- `Number()` and `parseInt` are modelled only on digit strings.
- DurationInput.MinutesOf: reads a field as the exact value of its digits. Between blurs a field can hold any digit string, since `max={600}` does not limit typing. For such a field, `parseInt` rounds a value above 2^53 to a double. At or above `NumberOverflow` (309 or more digits) it gives `Infinity`, which is truthy, so the fallback does not apply and the clock renders "Infinity:NaN". Neither the rounding nor `Infinity` is modelled, because the model's durations are integers.
- `NormalizeMinutes` stands in for `Number` overflow with a single threshold, 2^1024 - 2^970. Rounding of large finite values to doubles is not modelled: such values always clamp to 600.
- A minute dot's angle is kept as the elapsed share of the session rather than as radians.
- The dot id is kept as its timestamp and list position.
- In both page models the effects run after every event, in their order on the page. This matches React because each effect is guarded so that it changes nothing when re-run with the same inputs.
- The mute button (src/App.tsx:542-545 and 862-863) is not an event of `AppShell`: it only toggles a flag passed to `setMuted`, whose gain rule `SoundEngine.SetMuted` and `SoundEngine.MutedIffSilent` state at engine level.
- AppShell.ChimeOncePerDeadline: counts only the chimes the page plays itself, the auto-switch fallback and the catch-up. The chime scheduled on the audio timeline by `scheduleCompleteIn` is not included in the count.
- Decorative and presentational code is not modelled: the background blobs, the dial geometry, icons, themes, the settings dialog, the dot and focus fields, and the tilt button.

## Notes on the code

- **Play guard.** Below 0.5 s, `playPause` substitutes `pausedSec || totalSec || 60` as the remainder. A stored remainder between 0 and 0.5 s is therefore kept as it is (`Timer.PlayKeepsShortRemainder`). Only zero falls back to the total (`Timer.PlayAfterZeroUsesTotal`). The model follows the code.
- **Repeated completion.** A completion is not re-applied because the auto-switch installs a new deadline at least a minute away (`Timer.AutoSwitchOncePerDeadline`). No separate flag is involved.
- **Which page ships.** `main.jsx` imports `./App` without an extension, so either page may ship. Both are modelled.

## Findings

| source | as written | input that shows it | evidently intended | confidence | as-written member | corrected member |
|---|---|---|---|---|---|---|
| src/App.tsx:660-664 | After an auto-switch, a `setTimeout` queues `scheduleCompleteIn` 2.4 s later. Pause, skip and reset (App.tsx:713-716, 732-735, 747-750) cancel the scheduled cues but never clear that timeout. | A session completes, and the user pauses within 2.4 s. The queued call then schedules five ticks and the chime on a stopped timer. | Stopping the timer also drops the pending re-arm, so a stopped timer has nothing on the audio timeline. | not executed | AppShell.StaleArmAsWritten | AppShell.StaleArmCorrected |
| src/App.tsx:755-773 | `addTime` cancels the scheduled cues and re-arms them for the extended deadline, but it also leaves the 2.4 s timeout from App.tsx:661-664 pending. | A session completes, and within 2.4 s the user adds 60 s while the timer runs. The queued call then cancels the add-time's cues and schedules ticks and the chime for the remainder known before the add-time, about 60 s early. | An add-time also drops the pending re-arm, so the cues on the timeline stay those of the extended deadline. | not executed | AppShell.AddTimeStaleArmAsWritten | AppShell.AddTimeStaleArmCorrected |
