/**
 * The countdown state machine of app.js as pure transitions on a snapshot.
 *
 * A `Snapshot` holds the four fields of the page's `state` record together
 * with the part of the browser the record talks to: the set of interval ids
 * that are still live (set with `setInterval`, not yet cleared) and the id
 * the next `setInterval` call will hand out. Browser interval ids are
 * positive integers, never reused, so `nextId` starts at 1 and only grows.
 * The methods of `Controller.Timer` are proved to change their state
 * exactly as these functions say; the lemmas below state what app.js
 * promises about them.
 */
module Countdown {
  import opened Wrappers

  datatype Session = Focus | Break

  /** `DURATIONS`: 25 minutes of focus, 5 minutes of break. */
  function Duration(s: Session): nat
  {
    match s
    case Focus => 25 * 60
    case Break => 5 * 60
  }

  /** `nextSession()`: the phase that follows `current`. */
  function NextSession(current: Session): (r: Session)
    ensures r != current
  {
    if current == Focus then Break else Focus
  }

  datatype Snapshot = Snapshot(
    session: Session,
    remainingSeconds: int,
    isRunning: bool,
    intervalId: Option<nat>,
    live: set<nat>,    // ids of the intervals the browser will still fire
    nextId: nat        // the id the next setInterval returns
  )

  /** The record as the page loads: focus, 25 minutes, stopped, no interval. */
  function Initial(): Snapshot
  {
    Snapshot(Focus, Duration(Focus), false, None, {}, 1)
  }

  /** JavaScript truthiness of `state.intervalId`: `null` and 0 are false. */
  predicate Truthy(id: Option<nat>) {
    id.Some? && id.value != 0
  }

  /** `stopTimer()`: clear the interval if the id is truthy, then mark stopped. */
  function Stop(st: Snapshot): Snapshot
  {
    var cleared :=
      if Truthy(st.intervalId)
      then st.(live := st.live - {st.intervalId.value}, intervalId := None)
      else st;
    cleared.(isRunning := false)
  }

  /** `startTimer()`: nothing when running; otherwise mark running and set one interval. */
  function Start(st: Snapshot): Snapshot
  {
    if st.isRunning then st
    else st.(isRunning := true, intervalId := Some(st.nextId),
             live := st.live + {st.nextId}, nextId := st.nextId + 1)
  }

  /** `setSession(target, { reset })`: stop, switch phase, and unless `reset` is false restart the countdown. */
  function SetSession(st: Snapshot, target: Session, reset: bool): Snapshot
  {
    var stopped := Stop(st);
    stopped.(session := target,
             remainingSeconds := if reset then Duration(target) else stopped.remainingSeconds)
  }

  /** `resetSession()`: stop and restart the current phase's countdown. */
  function ResetSession(st: Snapshot): Snapshot
  {
    var stopped := Stop(st);
    stopped.(remainingSeconds := Duration(stopped.session))
  }

  /** `handleSessionComplete()`: switch to the next phase, reset, and start again. */
  function HandleSessionComplete(st: Snapshot): Snapshot
  {
    Start(SetSession(st, NextSession(st.session), true))
  }

  /** The body of the interval callback: count down one second, complete at zero. */
  function Tick(st: Snapshot): Snapshot
  {
    var counted := st.(remainingSeconds := st.remainingSeconds - 1);
    if counted.remainingSeconds <= 0 then HandleSessionComplete(counted) else counted
  }

  /** `toggleTimer()`: stop when running, start otherwise. */
  function Toggle(st: Snapshot): Snapshot
  {
    if st.isRunning then Stop(st) else Start(st)
  }

  /** A click on a phase selector: ignored for the current phase, else `setSession(target)`. */
  function SelectClick(st: Snapshot, target: Session): Snapshot
  {
    if target == st.session then st else SetSession(st, target, true)
  }

  /** What can happen to the page: the three kinds of click and an interval firing. */
  datatype Event = ToggleClick | ResetClick | SessionClick(target: Session) | IntervalFires(id: nat)

  /** One event. An interval fires only while it is live, and each live interval runs the tick body. */
  function Step(st: Snapshot, e: Event): Snapshot
  {
    match e
    case ToggleClick => Toggle(st)
    case ResetClick => ResetSession(st)
    case SessionClick(target) => SelectClick(st, target)
    case IntervalFires(id) => if id in st.live then Tick(st) else st
  }

  /** The events applied in order. */
  function Run(st: Snapshot, events: seq<Event>): Snapshot
    decreases |events|
  {
    if events == [] then st else Run(Step(st, events[0]), events[1..])
  }

  /**
   * The interval bookkeeping: the timer is running exactly when it holds an
   * interval id, that interval is the only live one, and its id is a
   * positive id the browser has already issued.
   */
  predicate HandleInv(st: Snapshot) {
    && (st.isRunning <==> st.intervalId.Some?)
    && st.live == (if st.intervalId.Some? then {st.intervalId.value} else {})
    && (st.intervalId.Some? ==> 1 <= st.intervalId.value < st.nextId)
    && 1 <= st.nextId
  }

  /** The countdown stays between one second and the current phase's full duration. */
  predicate CountdownInv(st: Snapshot) {
    1 <= st.remainingSeconds <= Duration(st.session)
  }

  predicate Inv(st: Snapshot) {
    HandleInv(st) && CountdownInv(st)
  }

  /** Applying `nextSession` twice gives back the phase one started from. */
  lemma NextSessionInvolutive(s: Session)
    ensures NextSession(NextSession(s)) == s
  {
  }

  /** At most one interval is ever live, so the countdown never runs at double speed. */
  lemma AtMostOneInterval(st: Snapshot)
    requires HandleInv(st)
    ensures |st.live| <= 1
    ensures st.live != {} <==> st.isRunning
  {
  }

  /** Starting a running timer changes nothing; starting twice is starting once. */
  lemma StartIdempotent(st: Snapshot)
    ensures st.isRunning ==> Start(st) == st
    ensures Start(Start(st)) == Start(st)
  {
  }

  /**
   * Starting a stopped timer marks it running and installs exactly one new
   * interval, whose id no live interval had; the phase and the countdown
   * are untouched.
   */
  lemma StartInstallsOneInterval(st: Snapshot)
    requires HandleInv(st) && !st.isRunning
    ensures var r := Start(st);
      && r.isRunning && r.intervalId == Some(st.nextId)
      && st.nextId !in st.live && r.live == {st.nextId}
      && r.session == st.session && r.remainingSeconds == st.remainingSeconds
  {
  }

  /**
   * After stopping, the timer is not running and holds no interval, no
   * interval is live, and phase and countdown are untouched; stopping a
   * second time changes nothing.
   */
  lemma StopClears(st: Snapshot)
    requires HandleInv(st)
    ensures var r := Stop(st);
      && !r.isRunning && r.intervalId == None && r.live == {}
      && r.session == st.session && r.remainingSeconds == st.remainingSeconds
      && Stop(r) == r
  {
  }

  /** Stopping is idempotent in every state, whatever the interval id holds. */
  lemma StopIdempotent(st: Snapshot)
    ensures Stop(Stop(st)) == Stop(st)
  {
  }

  /** Toggling flips whether the timer runs and keeps phase and countdown. */
  lemma ToggleFlips(st: Snapshot)
    ensures var r := Toggle(st);
      && r.isRunning == !st.isRunning
      && r.session == st.session && r.remainingSeconds == st.remainingSeconds
  {
  }

  /**
   * Setting a phase leaves the timer stopped on that phase, with the
   * countdown at the phase's full duration, or untouched when `reset` is false.
   */
  lemma SetSessionResult(st: Snapshot, target: Session, reset: bool)
    ensures var r := SetSession(st, target, reset);
      && !r.isRunning && r.session == target
      && r.remainingSeconds == (if reset then Duration(target) else st.remainingSeconds)
  {
  }

  /** Resetting keeps the phase, restores its full duration and leaves the timer stopped. */
  lemma ResetResult(st: Snapshot)
    ensures var r := ResetSession(st);
      && !r.isRunning && r.session == st.session
      && r.remainingSeconds == Duration(st.session)
  {
  }

  /** Clicking the selector of the phase already shown changes nothing. */
  lemma SelectCurrentIsNoOp(st: Snapshot)
    ensures SelectClick(st, st.session) == st
  {
  }

  /**
   * A tick counts down one second. If time is left, nothing else changes.
   * Otherwise the next phase starts afresh: its full duration, running, on
   * exactly one new interval in place of the old one.
   */
  lemma TickOutcome(st: Snapshot)
    requires HandleInv(st) && st.isRunning
    ensures var r := Tick(st);
      if st.remainingSeconds - 1 > 0 then
        r == st.(remainingSeconds := st.remainingSeconds - 1)
      else
        && r.session == NextSession(st.session)
        && r.remainingSeconds == Duration(r.session)
        && r.isRunning && r.intervalId == Some(st.nextId)
        && r.live == {st.nextId} && st.intervalId.value !in r.live
  {
  }

  lemma StopKeepsHandleInv(st: Snapshot)
    requires HandleInv(st)
    ensures HandleInv(Stop(st))
  {
  }

  lemma StartKeepsHandleInv(st: Snapshot)
    requires HandleInv(st)
    ensures HandleInv(Start(st))
  {
  }

  /** Every operation keeps both invariants (`setSession` with its default reset). */
  lemma StepKeepsInv(st: Snapshot, e: Event)
    requires Inv(st)
    ensures Inv(Step(st, e))
  {
  }

  /** Both invariants hold in every state the page can reach from its initial record. */
  lemma {:induction false} RunKeepsInv(st: Snapshot, events: seq<Event>)
    requires Inv(st)
    ensures Inv(Run(st, events))
    decreases |events|
  {
    if events != [] {
      StepKeepsInv(st, events[0]);
      RunKeepsInv(Step(st, events[0]), events[1..]);
    }
  }

  lemma ReachableInv(events: seq<Event>)
    ensures Inv(Run(Initial(), events))
  {
    RunKeepsInv(Initial(), events);
  }

  /** `k` consecutive ticks with no clicks in between. */
  function Ticks(st: Snapshot, k: nat): Snapshot
    decreases k
  {
    if k == 0 then st else Tick(Ticks(st, k - 1))
  }

  /** While time is left, each tick takes exactly one second off and changes nothing else. */
  lemma {:induction false} TicksCountDown(st: Snapshot, k: nat)
    requires k < st.remainingSeconds
    ensures Ticks(st, k) == st.(remainingSeconds := st.remainingSeconds - k)
    decreases k
  {
    if k > 0 {
      TicksCountDown(st, k - 1);
    }
  }

  /**
   * A running phase with `n` seconds left turns into the next phase after
   * exactly `n` ticks, and that phase is running with its full duration.
   */
  lemma PhaseEndsAfterRemainingTicks(st: Snapshot)
    requires Inv(st) && st.isRunning
    ensures forall k :: 0 <= k < st.remainingSeconds ==> Ticks(st, k).session == st.session
    ensures var r := Ticks(st, st.remainingSeconds);
      && r.session == NextSession(st.session) && r.isRunning
      && r.remainingSeconds == Duration(r.session) && Inv(r)
  {
    forall k | 0 <= k < st.remainingSeconds
      ensures Ticks(st, k).session == st.session
    {
      TicksCountDown(st, k);
    }
    var last := st.(remainingSeconds := 1);
    TicksCountDown(st, st.remainingSeconds - 1);
    assert Ticks(st, st.remainingSeconds) == Tick(last);
    TickOutcome(last);
    StepKeepsInv(last, IntervalFires(st.intervalId.value));
  }
}
