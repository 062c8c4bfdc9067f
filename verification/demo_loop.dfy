/** The main loop of the demo with its I/O abstracted: each iteration
    drains one batch of input events, then advances the animation clock by
    the time the iteration took. Rendering is not modelled. */
module DemoLoop {
  import opened Geometry
  import opened Sprite
  import opened Timing
  import opened Input

  /** Everything main() keeps between iterations that the logic reads. */
  datatype Demo = Demo(running: bool, dst: Rect, clock: Clock)

  /** What the host supplies to one iteration: the queued events and the
      elapsed ticks. */
  datatype Frame = Frame(events: seq<Event>, dt: nat)

  /** The state on entry to the loop. */
  function Init(): (d: Demo)
    ensures d.running
    ensures d.dst == Rect(32, 31, 256, 252)
    ensures d.clock.src == Rect(0, 0, 128, 126) && d.clock.acc == 0
  {
    Demo(true, InitialDst(), InitialClock())
  }

  /** The invariant every state of the loop keeps: the source rectangle is a
      whole frame of the sheet, the accumulator is below the threshold, and
      the destination has the initial size and height. */
  predicate Good(d: Demo) {
    && OnGrid(d.clock.src)
    && d.clock.acc < StepInterval
    && d.dst.y == InitialDst().y && d.dst.w == InitialDst().w && d.dst.h == InitialDst().h
  }

  /** One iteration of `while (running)`: events first, then the clock. The
      clock advances even in the iteration that clears `running`. */
  function Iterate(d: Demo, f: Frame): (r: Demo)
    ensures r.running == (d.running && !AnyStops(f.events))
    ensures r.dst.x == d.dst.x + Nudge * (Count(f.events, JoyButtonDown(PrimaryJoystick, ButtonRight))
                                         - Count(f.events, JoyButtonDown(PrimaryJoystick, ButtonLeft)))
    ensures r.dst.y == d.dst.y && r.dst.w == d.dst.w && r.dst.h == d.dst.h
    ensures r.clock == Advance(d.clock, f.dt)
  {
    var scene := HandleEvents(Scene(d.running, d.dst), f.events);
    HandleEventsEffect(Scene(d.running, d.dst), f.events);
    Demo(scene.running, scene.dst, Advance(d.clock, f.dt))
  }

  /** One iteration preserves the invariant. */
  lemma IterateKeepsGood(d: Demo, f: Frame)
    requires Good(d)
    ensures Good(Iterate(d, f))
  {
    StepOnGrid(d.clock.src);
  }

  /** The loop fed with frames: it runs while `running` holds and frames
      remain. */
  function Run(d: Demo, frames: seq<Frame>): (r: Demo)
    // the loop never restarts, never resizes or lifts the sprite, and after
    // at least one iteration leaves the accumulator below the threshold
    ensures r.running ==> d.running
    ensures r.dst.y == d.dst.y && r.dst.w == d.dst.w && r.dst.h == d.dst.h
    ensures r.clock.src.w == d.clock.src.w && r.clock.src.h == d.clock.src.h
    ensures |frames| > 0 && d.running ==> r.clock.acc < StepInterval
    decreases |frames|
  {
    if |frames| == 0 || !d.running then d else Run(Iterate(d, frames[0]), frames[1..])
  }

  /** Running the loop from a state satisfying the invariant keeps it. */
  lemma {:induction false} RunKeepsGood(d: Demo, frames: seq<Frame>)
    requires Good(d)
    ensures Good(Run(d, frames))
    decreases |frames|
  {
    if |frames| > 0 && d.running {
      IterateKeepsGood(d, frames[0]);
      RunKeepsGood(Iterate(d, frames[0]), frames[1..]);
    }
  }

  /** Every state the loop reaches from its initial state satisfies the
      invariant, whatever events and timings the host supplies. */
  lemma ReachableGood(frames: seq<Frame>)
    ensures Good(Run(Init(), frames))
  {
    RunKeepsGood(Init(), frames);
  }

  /** Once `running` is cleared the loop is over: no later frame changes the
      state. */
  lemma StoppedStaysPut(d: Demo, frames: seq<Frame>)
    requires !d.running
    ensures Run(d, frames) == d
  {
  }

  /** The loop is still running after a run exactly when it was running
      before and no batch of events it handled held a quit or Start. */
  lemma {:induction false} RunStopsExactly(d: Demo, frames: seq<Frame>)
    ensures Run(d, frames).running ==
      (d.running && forall i :: 0 <= i < |frames| ==> !AnyStops(frames[i].events))
    decreases |frames|
  {
    if |frames| > 0 && d.running {
      var tl := frames[1..];
      RunStopsExactly(Iterate(d, frames[0]), tl);
      assert forall i :: 0 <= i < |tl| ==> tl[i] == frames[i + 1];
      if !AnyStops(frames[0].events) && !(forall i :: 0 <= i < |frames| ==> !AnyStops(frames[i].events)) {
        var i :| 0 <= i < |frames| && AnyStops(frames[i].events);
        assert AnyStops(tl[i - 1].events);
      }
    }
  }

  /** A quiet session (no events) whose iterations each take at least the
      step interval advances the source rectangle by one frame per
      iteration, whatever the accumulator held, and leaves the sprite where
      it was. */
  lemma {:induction false} QuietRun(d: Demo, frames: seq<Frame>)
    requires d.running
    requires forall i :: 0 <= i < |frames| ==> frames[i].events == [] && frames[i].dt >= StepInterval
    ensures Run(d, frames).running
    ensures Run(d, frames).dst == d.dst
    ensures Run(d, frames).clock.src == Steps(d.clock.src, |frames|)
    ensures |frames| > 0 ==> Run(d, frames).clock.acc == 0
    decreases |frames|
  {
    if |frames| > 0 {
      var d1 := Iterate(d, frames[0]);
      assert HandleEvents(Scene(d.running, d.dst), []) == Scene(d.running, d.dst);
      assert d1 == Demo(true, d.dst, Clock(Step(d.clock.src), 0));
      var tl := frames[1..];
      assert forall i :: 0 <= i < |tl| ==> tl[i] == frames[i + 1];
      QuietRun(d1, tl);
      StepsShift(d.clock.src, |tl|);
    }
  }

  /** Whether the elapsed times fit the timer: its first reading is 0 and
      `current_time` starts at 0, so the first iteration's elapsed time is
      always 0. */
  predicate TimerStartsAtZero(frames: seq<Frame>) {
    |frames| > 0 ==> frames[0].dt == 0
  }

  /** The first iteration of the demo never steps the animation, whatever
      its events: it sees no elapsed time. */
  lemma FirstIterationNeverSteps(events: seq<Event>)
    ensures Iterate(Init(), Frame(events, 0)).clock == InitialClock()
  {
  }

  /** The run that starts the demo: the first iteration sees no elapsed
      time and may carry any events that do not stop the loop; each of the
      n iterations after it has no events and lasts at least 0.1 s. The
      source rectangle ends at column n mod 4 of row (n div 4) mod 2. */
  lemma QuietRunFromInit(frames: seq<Frame>)
    requires TimerStartsAtZero(frames)
    requires |frames| > 0 ==> !AnyStops(frames[0].events)
    requires forall i :: 1 <= i < |frames| ==> frames[i].events == [] && frames[i].dt >= StepInterval
    ensures |frames| == 0 ==> Run(Init(), frames).clock.src == Rect(0, 0, 128, 126)
    ensures |frames| > 0 ==> Run(Init(), frames).clock.src.x == ((|frames| - 1) % 4) * 128
    ensures |frames| > 0 ==> Run(Init(), frames).clock.src.y == (((|frames| - 1) / 4) % 2) * 126
  {
    if |frames| > 0 {
      var d1 := Iterate(Init(), frames[0]);
      FirstIterationNeverSteps(frames[0].events);
      assert d1.running && d1.clock == InitialClock();
      var tl := frames[1..];
      assert forall i :: 0 <= i < |tl| ==> tl[i] == frames[i + 1];
      QuietRun(d1, tl);
      StepsFromStart(|tl|);
    }
  }
}
