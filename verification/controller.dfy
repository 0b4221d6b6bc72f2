/**
 * The page's timer controller as imperative code: the `state` record of
 * app.js as an object whose fields the operations update in place, and the
 * browser's interval registry as a second object that `setInterval` and
 * `clearInterval` change. Each `Timer` method is proved to move the pair
 * exactly as the matching transition of `Countdown` does. Every one keeps the
 * invariant, except `SetSession` with `reset` false, which app.js never
 * calls; that one keeps the interval bookkeeping only.
 */
module Controller {
  import opened Wrappers
  import opened Countdown

  /** The browser's table of live intervals, reduced to the ids it has issued and not cleared. */
  class IntervalRegistry {
    var live: set<nat>
    var nextId: nat

    constructor ()
      ensures live == {} && nextId == 1
    {
      live := {};
      nextId := 1;
    }

    /** `setInterval(callback, 1000)`: register a new interval under a never-used id. */
    method SetInterval() returns (id: nat)
      modifies this
      ensures id == old(nextId) && nextId == old(nextId) + 1
      ensures live == old(live) + {id}
    {
      id := nextId;
      live := live + {id};
      nextId := nextId + 1;
    }

    /** `clearInterval(id)`: the interval fires no more. */
    method ClearInterval(id: nat)
      modifies this
      ensures live == old(live) - {id} && nextId == old(nextId)
    {
      live := live - {id};
    }
  }

  class Timer {
    var session: Session
    var remainingSeconds: int
    var isRunning: bool
    var intervalId: Option<nat>
    const intervals: IntervalRegistry

    /** The record together with the browser's intervals, as one value. */
    function State(): Countdown.Snapshot
      reads this, intervals
    {
      Countdown.Snapshot(session, remainingSeconds, isRunning, intervalId,
                         intervals.live, intervals.nextId)
    }

    ghost predicate Valid()
      reads this, intervals
    {
      Inv(State())
    }

    /** The record as the page loads. */
    constructor ()
      ensures State() == Initial() && Valid() && fresh(intervals)
    {
      session := Focus;
      remainingSeconds := Duration(Focus);
      isRunning := false;
      intervalId := None;
      intervals := new IntervalRegistry();
    }

    method StopTimer()
      modifies this, intervals
      ensures State() == Stop(old(State()))
      ensures !isRunning && session == old(session) && remainingSeconds == old(remainingSeconds)
      ensures old(Valid()) ==> Valid() && intervalId == None && intervals.live == {}
    {
      if Truthy(intervalId) {
        intervals.ClearInterval(intervalId.value);
        intervalId := None;
      }
      isRunning := false;
      if old(Valid()) {
        StopClears(old(State()));
      }
    }

    method StartTimer()
      modifies this, intervals
      ensures State() == Start(old(State()))
      ensures isRunning && session == old(session) && remainingSeconds == old(remainingSeconds)
      ensures old(isRunning) ==> State() == old(State())
      ensures old(Valid()) ==> Valid()
      ensures old(Valid()) && !old(isRunning) ==>
        intervalId == Some(old(intervals.nextId)) && intervals.live == {old(intervals.nextId)}
    {
      if isRunning {
        return;
      }
      isRunning := true;
      var id := intervals.SetInterval();
      intervalId := Some(id);
      if old(Valid()) {
        StartInstallsOneInterval(old(State()));
      }
    }

    /** `setSession(target, opt)`; `reset` stands for `opt.reset !== false`. */
    method SetSession(target: Session, reset: bool := true)
      modifies this, intervals
      ensures State() == Countdown.SetSession(old(State()), target, reset)
      ensures !isRunning && session == target
      ensures remainingSeconds == if reset then Duration(target) else old(remainingSeconds)
      ensures old(Valid()) && reset ==> Valid()
      ensures old(HandleInv(State())) ==> HandleInv(State())
    {
      var shouldReset := reset;
      StopTimer();
      session := target;
      if shouldReset {
        remainingSeconds := Duration(target);
      }
    }

    method ResetSession()
      modifies this, intervals
      ensures State() == Countdown.ResetSession(old(State()))
      ensures !isRunning && session == old(session) && remainingSeconds == Duration(session)
      ensures old(Valid()) ==> Valid()
    {
      StopTimer();
      remainingSeconds := Duration(session);
    }

    /** Completion: the chime and the desktop notification are left out; the phase advances and resumes. */
    method HandleSessionComplete()
      modifies this, intervals
      ensures State() == Countdown.HandleSessionComplete(old(State()))
      ensures session == NextSession(old(session)) && remainingSeconds == Duration(session) && isRunning
      ensures old(HandleInv(State())) ==> Valid()
    {
      var upcoming := NextSession(session);
      SetSession(upcoming);
      StartTimer();
    }

    /** The callback `setInterval` runs every second; it only runs while the timer is running. */
    method Tick()
      requires isRunning
      modifies this, intervals
      ensures State() == Countdown.Tick(old(State()))
      ensures old(remainingSeconds) - 1 > 0 ==>
        State() == old(State()).(remainingSeconds := old(remainingSeconds) - 1)
      ensures old(remainingSeconds) - 1 <= 0 ==>
        session == NextSession(old(session)) && remainingSeconds == Duration(session) && isRunning
      ensures old(Valid()) ==> Valid()
    {
      remainingSeconds := remainingSeconds - 1;
      if remainingSeconds <= 0 {
        HandleSessionComplete();
        return;
      }
      if old(Valid()) {
        StepKeepsInv(old(State()), IntervalFires(old(intervalId).value));
      }
    }

    method ToggleTimer()
      modifies this, intervals
      ensures State() == Toggle(old(State()))
      ensures isRunning == !old(isRunning)
      ensures session == old(session) && remainingSeconds == old(remainingSeconds)
      ensures old(Valid()) ==> Valid()
    {
      if isRunning {
        StopTimer();
      } else {
        StartTimer();
      }
    }

    /** The click handler of a phase selector button. */
    method SelectSession(target: Session)
      modifies this, intervals
      ensures State() == SelectClick(old(State()), target)
      ensures target == old(session) ==> State() == old(State())
      ensures old(Valid()) ==> Valid()
    {
      if target == session {
        return;
      }
      SetSession(target);
    }
  }
}
