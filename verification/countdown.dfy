/**
 * `Timer` (timer.py): a one-second countdown driven by Tkinter's `after`.
 * The scheduled `_tick` job becomes the flag `tickPending`; a tick can fire
 * only while that flag is set. Each transition returns the new timer and
 * the callbacks it invoked, in order, so that the order and number of
 * `update_callback` and `end_callback` calls can be stated. Both callbacks
 * are optional; `Callbacks` records which of them were supplied.
 */
module Countdown {

  /** A callback invocation: `update_callback(n)` or `end_callback()`. */
  datatype Callback = Update(remaining: int) | End

  /** Which of the two optional callbacks were supplied to the constructor. */
  datatype Callbacks = Callbacks(update: bool, end: bool)

  datatype Timer = Timer(
    duration: int,
    timeLeft: int,
    running: bool,
    tickPending: bool,
    callbacks: Callbacks)

  /** The timer after a transition, with the callbacks invoked during it. */
  datatype Step = Step(timer: Timer, calls: seq<Callback>)

  /** Holds in every reachable state: the remaining time never exceeds the
      duration and is non-negative unless the duration itself is negative
      (then nothing ever decrements it), and a tick is scheduled exactly
      while the timer runs. */
  predicate Inv(t: Timer) {
    && t.timeLeft <= t.duration
    && (0 <= t.timeLeft || t.timeLeft == t.duration)
    && t.running == t.tickPending
  }

  /** `Timer.__init__`: full time left, not running, nothing scheduled. */
  function NewTimer(duration: int, callbacks: Callbacks): (t: Timer)
    ensures Inv(t)
    ensures t.duration == duration && t.timeLeft == duration
    ensures !t.running && !t.tickPending
  {
    Timer(duration, duration, false, false, callbacks)
  }

  /** `update_callback(n)` if one was supplied. */
  function UpdateCall(cb: Callbacks, n: int): seq<Callback> {
    if cb.update then [Update(n)] else []
  }

  /** `end_callback()` if one was supplied. */
  function EndCall(cb: Callbacks): seq<Callback> {
    if cb.end then [End] else []
  }

  /** The body of `_tick`: with time left, count down one second, report the
      new remaining time and schedule the next tick; otherwise stop, report
      the end and schedule nothing. */
  function TickBody(t: Timer): (s: Step)
    ensures s.timer.duration == t.duration && s.timer.callbacks == t.callbacks
    ensures t.timeLeft > 0 ==> s.timer.running == t.running
    ensures t.timeLeft > 0 ==> s.timer.timeLeft == t.timeLeft - 1 && s.timer.tickPending
                               && s.calls == UpdateCall(t.callbacks, s.timer.timeLeft)
    ensures t.timeLeft <= 0 ==> !s.timer.running && s.timer.tickPending == t.tickPending
                                && s.timer.timeLeft == t.timeLeft && s.calls == EndCall(t.callbacks)
  {
    if t.timeLeft > 0 then
      var t' := t.(timeLeft := t.timeLeft - 1, tickPending := true);
      Step(t', UpdateCall(t.callbacks, t'.timeLeft))
    else
      Step(t.(running := false), EndCall(t.callbacks))
  }

  /** `start`: a no-op while running; otherwise mark the timer running,
      restore the full duration and run the first tick at once. */
  function Start(t: Timer): (s: Step)
    ensures s.timer.duration == t.duration && s.timer.callbacks == t.callbacks
    ensures t.running ==> s == Step(t, [])
    ensures !t.running && t.duration > 0 ==>
              s.timer.running && s.timer.tickPending && s.timer.timeLeft == t.duration - 1
              && s.calls == UpdateCall(t.callbacks, t.duration - 1)
    ensures !t.running && t.duration <= 0 ==> !s.timer.running && s.calls == EndCall(t.callbacks)
    ensures !t.running && t.duration <= 0 ==> s.timer.timeLeft == t.duration && s.timer.tickPending == t.tickPending
    ensures Inv(t) ==> Inv(s.timer)
  {
    if t.running then Step(t, [])
    else TickBody(t.(running := true, timeLeft := t.duration))
  }

  /** The scheduled `_tick` job fires: the job is consumed, then the tick body
      runs. Only enabled while a tick is scheduled. */
  function Tick(t: Timer): (s: Step)
    requires t.tickPending
    ensures s.timer.duration == t.duration && s.timer.callbacks == t.callbacks
    ensures t.timeLeft > 0 ==> s.timer.running == t.running
    ensures t.timeLeft > 0 ==> s.timer.timeLeft == t.timeLeft - 1 && s.timer.tickPending
                               && s.calls == UpdateCall(t.callbacks, t.timeLeft - 1)
    ensures t.timeLeft <= 0 ==> !s.timer.running && !s.timer.tickPending && s.calls == EndCall(t.callbacks)
    ensures t.timeLeft <= 0 ==> s.timer.timeLeft == t.timeLeft
    ensures Inv(t) ==> Inv(s.timer)
  {
    TickBody(t.(tickPending := false))
  }

  /** `stop`: cancel the scheduled tick, if any, and stop; the remaining time
      is kept and no callback runs. */
  function Stop(t: Timer): (t': Timer)
    ensures !t'.running && !t'.tickPending
    ensures t'.timeLeft == t.timeLeft && t'.duration == t.duration
    ensures t'.callbacks == t.callbacks
    ensures Inv(t) ==> Inv(t')
  {
    t.(tickPending := false, running := false)
  }

  /** `reset`: stop, then restore the full duration. */
  function Reset(t: Timer): (t': Timer)
    ensures !t'.running && !t'.tickPending && t'.timeLeft == t.duration
    ensures t'.duration == t.duration
    ensures t'.callbacks == t.callbacks
    ensures Inv(t')
  {
    Stop(t).(timeLeft := t.duration)
  }

  /** `is_running`: whether the countdown is in progress, which in every
      reachable state means a tick is scheduled. */
  function IsRunning(t: Timer): (r: bool)
    ensures Inv(t) ==> (r <==> t.tickPending)
  {
    t.running
  }

  /** In every state reachable from a new timer, `is_running` reports
      whether a tick is scheduled. */
  lemma IsRunningMeansTickScheduled(duration: int, callbacks: Callbacks, events: seq<Event>)
    ensures var t := Run(NewTimer(duration, callbacks), events).timer;
            IsRunning(t) <==> t.tickPending
  {
    ReachableInv(duration, callbacks, events);
  }

  /** With a non-negative duration the invariant bounds the remaining time
      to the interval the display shows. A convenience projection of two
      conjuncts of `Inv`. */
  lemma TimeLeftInRange(t: Timer)
    requires Inv(t) && t.duration >= 0
    ensures 0 <= t.timeLeft <= t.duration
  {
  }

  function Max0(n: int): nat {
    if n > 0 then n else 0
  }

  /** Let scheduled ticks fire, without other interference, until none is
      left; the callbacks of all of them, in order. */
  function Drain(t: Timer): Step
    decreases if t.tickPending then Max0(t.timeLeft) + 1 else 0
  {
    if !t.tickPending then Step(t, [])
    else
      var s := Tick(t);
      var rest := Drain(s.timer);
      Step(rest.timer, s.calls + rest.calls)
  }

  /** An independent statement of the updates a run delivers from `n` seconds
      left: n-1, n-2, ..., 0. */
  function Updates(n: nat): (us: seq<Callback>)
    ensures |us| == n
  {
    seq(n, i requires 0 <= i < n => Update(n - 1 - i))
  }

  /** The callbacks of a full run from `n` seconds left, given which
      callbacks were supplied. */
  function FullRun(cb: Callbacks, n: nat): seq<Callback> {
    (if cb.update then Updates(n) else []) + EndCall(cb)
  }

  lemma UpdatesCons(n: nat)
    ensures Updates(n + 1) == [Update(n)] + Updates(n)
  {
    assert forall i :: 0 <= i < n ==> Updates(n + 1)[i + 1] == Updates(n)[i];
  }

  /** One more second on the clock puts one more update in front. */
  lemma FullRunCons(cb: Callbacks, n: nat)
    ensures UpdateCall(cb, n) + FullRun(cb, n) == FullRun(cb, n + 1)
  {
    UpdatesCons(n);
    if cb.update {
      assert [Update(n)] + ((Updates(n)) + EndCall(cb)) == ([Update(n)] + Updates(n)) + EndCall(cb);
    }
  }

  /** From a running state with `n` seconds left, the remaining ticks deliver
      exactly the countdown n-1, ..., 0 followed by the end, and leave the
      timer stopped at 0 with nothing scheduled. */
  lemma {:induction false} DrainCountsDown(t: Timer)
    requires t.running && t.tickPending && t.timeLeft >= 0
    ensures Drain(t).calls == FullRun(t.callbacks, t.timeLeft)
    ensures Drain(t).timer == t.(timeLeft := 0, running := false, tickPending := false)
    decreases t.timeLeft
  {
    var s := Tick(t);
    if t.timeLeft > 0 {
      assert s.timer == t.(timeLeft := t.timeLeft - 1);
      DrainCountsDown(s.timer);
      FullRunCons(t.callbacks, t.timeLeft - 1);
    } else {
      assert Drain(s.timer).calls == [];
    }
  }

  /** `start` on a stopped timer with time to count runs the first tick: the
      update for d-1 is delivered and the next tick is scheduled. A
      convenience restatement of `Start`'s contract as one state equation,
      used by `StartRunsFullCountdown`. */
  lemma StartFirstTick(t: Timer)
    requires !t.running && t.duration > 0
    ensures Start(t) == Step(t.(running := true, tickPending := true, timeLeft := t.duration - 1),
                             UpdateCall(t.callbacks, t.duration - 1))
  {
  }

  /** A full run: `start` on a stopped timer with duration d >= 0, then every
      scheduled tick, delivers `Update(d-1), ..., Update(0)` and then `End`,
      and ends stopped at 0 with nothing scheduled. The value 0 is delivered
      to the update callback, and the end callback runs on the tick after it. */
  lemma {:induction false} StartRunsFullCountdown(t: Timer)
    requires Inv(t) && !t.running && t.duration >= 0
    ensures var s := Start(t); var r := Drain(s.timer);
            && s.calls + r.calls == FullRun(t.callbacks, t.duration)
            && !r.timer.running && !r.timer.tickPending && r.timer.timeLeft == 0
  {
    if t.duration > 0 {
      StartFirstTick(t);
      var t' := Start(t).timer;
      DrainCountsDown(t');
      FullRunCons(t.callbacks, t.duration - 1);
    } else {
      assert Drain(Start(t).timer).calls == [];
    }
  }

  /** Number of `End` calls in a callback trace. */
  function CountEnds(calls: seq<Callback>): nat {
    if calls == [] then 0 else (if calls[0] == End then 1 else 0) + CountEnds(calls[1..])
  }

  lemma {:induction false} CountEndsAppend(a: seq<Callback>, b: seq<Callback>)
    ensures CountEnds(a + b) == CountEnds(a) + CountEnds(b)
    decreases |a|
  {
    if a == [] {
      assert a + b == b;
    } else {
      assert (a + b)[1..] == a[1..] + b;
      CountEndsAppend(a[1..], b);
    }
  }

  lemma {:induction false} CountEndsUpdates(n: nat)
    ensures CountEnds(Updates(n)) == 0
  {
    if n > 0 {
      UpdatesCons(n - 1);
      CountEndsUpdates(n - 1);
      CountEndsAppend([Update(n - 1)], Updates(n - 1));
    }
  }

  /** In a full run with an end callback installed, `End` is delivered exactly
      once, as the last callback. */
  lemma EndDeliveredOnce(t: Timer)
    requires Inv(t) && !t.running && t.duration >= 0 && t.callbacks.end
    ensures var s := Start(t); var r := Drain(s.timer);
            CountEnds(s.calls + r.calls) == 1 && (s.calls + r.calls)[|s.calls + r.calls| - 1] == End
  {
    StartRunsFullCountdown(t);
    var us := if t.callbacks.update then Updates(t.duration) else [];
    CountEndsUpdates(t.duration);
    CountEndsAppend(us, [End]);
    assert CountEnds([End]) == 1;
  }

  /** What can happen to the timer from outside: the user interface calls
      `start`, `stop` or `reset`, or Tkinter fires the scheduled tick. */
  datatype Event = StartEvent | StopEvent | ResetEvent | TickEvent

  /** One event. A tick event with nothing scheduled is a moment at which no
      job runs, so nothing happens. */
  function Apply(t: Timer, e: Event): (s: Step)
    ensures Inv(t) ==> Inv(s.timer)
  {
    match e
    case StartEvent => Start(t)
    case StopEvent => Step(Stop(t), [])
    case ResetEvent => Step(Reset(t), [])
    case TickEvent => if t.tickPending then Tick(t) else Step(t, [])
  }

  /** A sequence of events applied in order, with all callbacks invoked. */
  function Run(t: Timer, events: seq<Event>): (s: Step)
    ensures Inv(t) ==> Inv(s.timer)
    decreases |events|
  {
    if events == [] then Step(t, [])
    else
      var first := Apply(t, events[0]);
      var rest := Run(first.timer, events[1..]);
      Step(rest.timer, first.calls + rest.calls)
  }

  function CountStarts(events: seq<Event>): nat {
    if events == [] then 0
    else (if events[0] == StartEvent then 1 else 0) + CountStarts(events[1..])
  }

  function Running(t: Timer): nat {
    if t.running then 1 else 0
  }

  /** Whatever the interleaving of starts, stops, resets and ticks, the end
      callback runs at most once per `start`: each `End` consumes the running
      state that only `start` creates. */
  lemma {:induction false} EndsBoundedByStarts(t: Timer, events: seq<Event>)
    requires Inv(t)
    ensures CountEnds(Run(t, events).calls) + Running(Run(t, events).timer)
            <= CountStarts(events) + Running(t)
    decreases |events|
  {
    if events != [] {
      var first := Apply(t, events[0]);
      var rest := Run(first.timer, events[1..]);
      EndsBoundedByStarts(first.timer, events[1..]);
      CountEndsAppend(first.calls, rest.calls);
      assert CountEnds(first.calls) + Running(first.timer)
             <= (if events[0] == StartEvent then 1 else 0) + Running(t) by {
        assert CountEnds([]) == 0;
        assert CountEnds([End]) == 1;
        assert forall n :: CountEnds([Update(n)]) == 0;
      }
    }
  }

  /** After `stop` or `reset` no stale tick can fire: any number of tick
      events invokes no callback and leaves the timer as it is. */
  lemma {:induction false} NoCallbackAfterStop(t: Timer, n: nat)
    ensures Run(Stop(t), seq(n, _ => TickEvent)) == Step(Stop(t), [])
    ensures Run(Reset(t), seq(n, _ => TickEvent)) == Step(Reset(t), [])
  {
    if n > 0 {
      NoCallbackAfterStop(t, n - 1);
      assert seq(n, _ => TickEvent)[1..] == seq(n - 1, _ => TickEvent);
    }
  }

  /** Stopping mid-run and starting again yields a fresh full countdown from
      the whole duration, whatever had been delivered before. */
  lemma RestartAfterStop(t: Timer)
    requires Inv(t) && t.duration >= 0
    ensures var s := Start(Stop(t)); var r := Drain(s.timer);
            s.calls + r.calls == FullRun(t.callbacks, t.duration)
  {
    StartRunsFullCountdown(Stop(t));
  }

  /** The invariant holds in every state reachable from a new timer, whatever
      the events. */
  lemma ReachableInv(duration: int, callbacks: Callbacks, events: seq<Event>)
    ensures Inv(Run(NewTimer(duration, callbacks), events).timer)
  {
  }
}
