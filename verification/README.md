# Pomodoro countdown — a Dafny model

The page (app.js) alternates a 25-minute focus phase with a 5-minute break
phase. One mutable record holds the current phase, the seconds left, whether
the countdown runs and the id of the one-second interval that drives it.
Clicks start, pause and reset the countdown or pick a phase. Every second the
interval callback takes one second off. When time runs out the page switches
to the other phase at its full duration and keeps running. The clock shows
the seconds left as `MM:SS`.

The model has four modules:

- `Wrappers` (wrappers.dfy): the `Option` type; `None` stands for `null`.
- `Clock` (clock.dfy): `formatTime` as functions. It covers
  `Number.prototype.toString` on non-negative integers (`DecimalString`) and
  `String.prototype.padStart` (`PadStart`). `ParseTime` reads a clock text
  back and serves as the inverse that `formatTime` is checked against.
- `Countdown` (countdown.dfy): the state machine as pure transitions on a
  `Snapshot`. A snapshot holds the record's four fields plus the browser's
  interval registry: the set of live interval ids and the id the next
  `setInterval` returns. It also holds the invariants, an `Event` type for
  clicks and interval firings, and the lemmas.
- `Controller` (controller.dfy): the record as a class `Timer` whose methods
  update its fields in place. The browser's interval registry is a class
  `IntervalRegistry` with `SetInterval` and `ClearInterval`. Each `Timer`
  method is proved to move the state exactly as the matching `Countdown`
  transition does. All of them keep the invariant (`Valid()`), with one
  exception: `SetSession` with `reset` false keeps only the interval
  bookkeeping, since the countdown may exceed the new phase's duration.
  app.js never makes that call (both callers, app.js:148 and app.js:169,
  use the default reset). `HandleSessionComplete` runs from the tick
  after the countdown has reached zero. It therefore asks only for the
  interval bookkeeping beforehand, and establishes the full invariant
  afterwards.

The invariants are:

- the timer runs exactly when it holds an interval id;
- that interval is the only live one, so there is never a second tick;
- its id is positive and already issued;
- the countdown stays between 1 and the current phase's full duration.

They hold in the initial record and after every sequence of clicks and
interval firings.

`stopTimer` tests `state.intervalId` for JavaScript truthiness, so an id of 0
would not be cleared. The model keeps that test (`Countdown.Truthy`).
Browsers only issue positive interval ids, and the invariant records this.
So under the invariant, stopping always clears the interval.

## Model

| member | source | states |
|---|---|---|
| `Clock.FormatTime` | app.js:26-34 | `formatTime`; its meaning is stated by `FormatTimeShape`, `FormatTimeDigits` and `ParseFormatTime` |
| `Clock.Join` | app.js:27-33 | the template `${minutes}:${seconds}` over the two padded numerals; stated by `JoinShape` |
| `Clock.JoinShape` | app.js:33 | the joined text has the minutes text before a colon third from the end and exactly two second digits after it, denoting the two numbers |
| `Clock.DecimalString` | app.js:27-32 | `toString` of a non-negative integer: a non-empty digit string that denotes the number, one digit exactly below 10, at most two below 100, no leading zero |
| `Clock.PadStart` | app.js:28-32 | `padStart(2, "0")`: length is the larger of width and input length; the input is the suffix; everything before it is the fill character |
| `Clock.PadStartValue` | app.js:28-32 | zero-padding keeps the string all digits and does not change the number it denotes |
| `Clock.FormatTimeShape` | app.js:26-34 | for every number of seconds the text is `<minutes>:<SS>`: a colon third from the end, the part before it denotes ⌊s/60⌋, the two digits after it denote s mod 60 |
| `Clock.ParseFormatTime` | app.js:26-34 | round trip: reading the clock text back gives the seconds it was made from |
| `Clock.FormatTimeDigits` | app.js:26-34 | below 6000 s the text is exactly 5 characters: tens and units of ⌊s/60⌋, `':'`, tens and units of s mod 60 |
| `Clock.FormatTimeExamples` | app.js:26-34 | 125 s reads "02:05" and 0 s reads "00:00" |
| `Countdown.Duration` | app.js:1-4 | `DURATIONS`: 25 × 60 s for focus, 5 × 60 s for break; used by `CountdownInv`, `SetSessionResult`, `ResetResult`, `TickOutcome` |
| `Countdown.Initial` | app.js:11-16 | the record as the page loads, with no live interval; `ReachableInv` states that it satisfies both invariants |
| `Countdown.Stop` | app.js:58-65 | `stopTimer`; stated by `StopClears`, `StopIdempotent`, `StopKeepsHandleInv` |
| `Countdown.Start` | app.js:67-81 | `startTimer`; stated by `StartIdempotent`, `StartInstallsOneInterval`, `StartKeepsHandleInv` |
| `Countdown.SetSession` | app.js:83-91 | `setSession`; stated by `SetSessionResult` |
| `Countdown.ResetSession` | app.js:93-97 | `resetSession`; stated by `ResetResult` |
| `Countdown.HandleSessionComplete` | app.js:145-150 | `handleSessionComplete`; its outcome is stated by `TickOutcome` |
| `Countdown.Tick` | app.js:72-79 | the interval callback body; stated by `TickOutcome`, `TicksCountDown`, `PhaseEndsAfterRemainingTicks` |
| `Countdown.Toggle` | app.js:152-158 | `toggleTimer`; stated by `ToggleFlips` |
| `Countdown.SelectClick` | app.js:164-170 | the selector click handler with its equality guard; stated by `SelectCurrentIsNoOp` and `SetSessionResult` |
| `Countdown.Step` | app.js:160-171 | one click or one firing of a live interval; stated by `StepKeepsInv` |
| `Countdown.Run` | app.js:160-171 | a sequence of such events applied in order; stated by `RunKeepsInv`, `ReachableInv` |
| `Countdown.NextSession` | app.js:99-101 | the next phase is always the other phase |
| `Countdown.NextSessionInvolutive` | app.js:99-101 | taking the next phase twice returns the original phase |
| `Countdown.AtMostOneInterval` | app.js:58-81 | under the invariant at most one interval is live, and one is live exactly while the timer runs |
| `Countdown.StartIdempotent` | app.js:67-70 | starting a running timer changes nothing; starting twice equals starting once |
| `Countdown.StartInstallsOneInterval` | app.js:71-72 | starting a stopped timer marks it running with exactly one new live interval whose id was not live before; phase and countdown unchanged |
| `Countdown.StopClears` | app.js:58-65 | after stopping: not running, no interval id, no live interval, phase and countdown unchanged, and a second stop changes nothing |
| `Countdown.StopIdempotent` | app.js:58-65 | stopping twice equals stopping once, in every state |
| `Countdown.ToggleFlips` | app.js:152-158 | toggling flips whether the timer runs and keeps phase and countdown |
| `Countdown.SetSessionResult` | app.js:83-91 | after `setSession(t, reset)` the timer is stopped on phase t; the countdown is t's duration when reset, otherwise unchanged |
| `Countdown.ResetResult` | app.js:93-97 | reset keeps the phase, restores its full duration, leaves the timer stopped |
| `Countdown.SelectCurrentIsNoOp` | app.js:164-170 | a selector click on the current phase leaves the whole state unchanged |
| `Countdown.TickOutcome` | app.js:72-79 | a tick with time left only takes one second off; otherwise the next phase runs at full duration on exactly one new interval, and the old interval is no longer live |
| `Countdown.StopKeepsHandleInv` | app.js:58-65 | stopping keeps the interval bookkeeping invariant |
| `Countdown.StartKeepsHandleInv` | app.js:67-81 | starting keeps the interval bookkeeping invariant |
| `Countdown.StepKeepsInv` | app.js:145-170 | every click and every firing of a live interval keeps both invariants |
| `Countdown.RunKeepsInv` | app.js:160-171 | both invariants survive any sequence of events |
| `Countdown.ReachableInv` | app.js:11-16 | both invariants hold in every state reachable from the initial record (focus, 1500 s, stopped, no interval) |
| `Countdown.TicksCountDown` | app.js:72-79 | while time is left, k ticks take exactly k seconds off and change nothing else |
| `Countdown.PhaseEndsAfterRemainingTicks` | app.js:72-79 | a running phase with n seconds left keeps its phase for n-1 ticks; the n-th tick starts the next phase, running at full duration |
| `Controller.IntervalRegistry.SetInterval` | app.js:72 | `setInterval` registers one live interval under a never-used id |
| `Controller.IntervalRegistry.ClearInterval` | app.js:60 | `clearInterval` removes the id from the live intervals |
| `Controller.Timer.constructor` | app.js:11-16 | the initial record: focus, 1500 s, stopped, no interval, no live interval; the invariant holds |
| `Controller.Timer.StopTimer` | app.js:58-65 | new state is `Countdown.Stop` of the old; not running; phase and countdown kept; from a valid state the id is null and no interval is live |
| `Controller.Timer.StartTimer` | app.js:67-81 | new state is `Countdown.Start` of the old; no change when already running; otherwise exactly one new interval; invariant kept |
| `Controller.Timer.SetSession` | app.js:83-91 | new state is `Countdown.SetSession` of the old: stopped on the target phase, countdown reset unless `reset` is false; the full invariant is kept with the default reset, the interval bookkeeping in every case |
| `Controller.Timer.ResetSession` | app.js:93-97 | stopped, phase kept, countdown back to the phase's duration; invariant kept |
| `Controller.Timer.HandleSessionComplete` | app.js:145-150 | next phase, at its full duration, running; the invariant holds afterwards whenever the interval bookkeeping held before |
| `Controller.Timer.Tick` | app.js:72-79 | new state is `Countdown.Tick` of the old: one second off, or at zero the next phase running at full duration; invariant kept |
| `Controller.Timer.ToggleTimer` | app.js:152-158 | new state is `Countdown.Toggle` of the old; running flips; phase and countdown kept; invariant kept |
| `Controller.Timer.SelectSession` | app.js:164-170 | a click on the current phase changes nothing; otherwise `setSession(target)`; invariant kept |

## Left out

- `updateUI`, `updateSessionButtons`, `updateDocumentTitle` (app.js:36-56): they only write display text, CSS classes and the page title, and never change the record.
- `playChime` (app.js:103-130): Web Audio calls with floating-point frequencies and envelopes, inside a try/catch. In the model, completion does nothing audible.
- `notifyCompletion` (app.js:132-143): the browser Notification API and its permission request are external I/O. In the model, completion treats them as a no-op.
- The one-second period of `setInterval` (app.js:72-79): wall-clock time is not modelled. An interval firing is an explicit `Tick` call or an `IntervalFires` event, allowed only while that interval is live.
- The DOM lookups, listener wiring and first render (app.js:18-22, app.js:160-161, app.js:173): browser plumbing. A toggle or reset click is a direct call to `ToggleTimer` or `ResetSession`.
- The `sessionNames` labels (app.js:6-9): display strings only.
- `formatTime` on negative or fractional inputs: the countdown never holds such values, so the model takes a `nat`.
- JavaScript numbers are doubles. The model uses unbounded integers, which agree with doubles over the countdown's range.
