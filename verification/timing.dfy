/** The fixed-interval animation clock: elapsed time accumulates until it
    reaches the step interval, then exactly one frame step happens and the
    accumulator is reset to zero. Time is counted in integer ticks. */
module Timing {
  import opened Geometry
  import opened Sprite

  /** Ticks per step: one tick is a millisecond, so this is the 0.1 s
      threshold of the main loop. */
  const StepInterval: nat := 100

  /** The source rectangle and the time accumulated since the last step. */
  datatype Clock = Clock(src: Rect, acc: nat)

  /** The animation as main() starts it: frame 0, nothing accumulated. */
  function InitialClock(): (c: Clock)
    ensures c.src == FrameRect(0) && c.acc == 0
  {
    Clock(InitialSrc(), 0)
  }

  /** One loop iteration's worth of elapsed time dt. */
  function Advance(c: Clock, dt: nat): (r: Clock)
    // at most one step, taken exactly when the threshold is reached
    ensures c.acc + dt >= StepInterval ==> r.src == Step(c.src) && r.acc == 0
    ensures c.acc + dt < StepInterval ==> r.src == c.src && r.acc == c.acc + dt
    ensures r.src != c.src <==> c.acc + dt >= StepInterval
    ensures r.acc < StepInterval
  {
    var acc := c.acc + dt;
    if acc >= StepInterval then Clock(Step(c.src), 0) else Clock(c.src, acc)
  }

  /** Successive loop iterations with elapsed times dts. */
  function AdvanceAll(c: Clock, dts: seq<nat>): (r: Clock)
    // the frame size never changes, and after at least one iteration the
    // accumulator is below the threshold whatever it held before
    ensures r.src.w == c.src.w && r.src.h == c.src.h
    ensures |dts| > 0 ==> r.acc < StepInterval
    decreases |dts|
  {
    if |dts| == 0 then c else AdvanceAll(Advance(c, dts[0]), dts[1..])
  }

  /** Splitting an interval that does not reach the threshold in its first
      part is the same as advancing by the whole interval at once. */
  lemma AdvanceSplit(c: Clock, d1: nat, d2: nat)
    requires c.acc + d1 < StepInterval
    ensures Advance(Advance(c, d1), d2) == Advance(c, d1 + d2)
  {
  }

  /** Surplus time is discarded rather than carried: two iterations of 150
      ticks step twice, not three times. */
  lemma SurplusDiscarded()
    ensures AdvanceAll(InitialClock(), [150, 150]) == Clock(Steps(InitialSrc(), 2), 0)
  {
    var c1 := Advance(InitialClock(), 150);
    assert c1 == Clock(Steps(InitialSrc(), 1), 0);
    var c2 := Advance(c1, 150);
    assert c2 == Clock(Steps(InitialSrc(), 2), 0);
    assert AdvanceAll(c2, []) == c2;
    assert [150, 150][1..] == [150];
  }

  /** Counting model of the clock: the number of steps taken over dts, and
      the time left in the accumulator afterwards. */
  function Crossings(acc: nat, dts: seq<nat>): nat
    decreases |dts|
  {
    if |dts| == 0 then 0
    else if acc + dts[0] >= StepInterval then 1 + Crossings(0, dts[1..])
    else Crossings(acc + dts[0], dts[1..])
  }

  function Leftover(acc: nat, dts: seq<nat>): nat
    decreases |dts|
  {
    if |dts| == 0 then acc
    else if acc + dts[0] >= StepInterval then Leftover(0, dts[1..])
    else Leftover(acc + dts[0], dts[1..])
  }

  /** Advancing over dts performs exactly one step per threshold crossing
      and nothing else. */
  lemma {:induction false} AdvanceAllSteps(c: Clock, dts: seq<nat>)
    ensures AdvanceAll(c, dts) == Clock(Steps(c.src, Crossings(c.acc, dts)), Leftover(c.acc, dts))
    decreases |dts|
  {
    if |dts| > 0 {
      var c1 := Advance(c, dts[0]);
      AdvanceAllSteps(c1, dts[1..]);
      if c.acc + dts[0] >= StepInterval {
        StepsShift(c.src, Crossings(0, dts[1..]));
      }
    }
  }

  /** n steps after one step equal n + 1 steps. */
  lemma {:induction false} StepsShift(src: Rect, n: nat)
    ensures Steps(Step(src), n) == Steps(src, n + 1)
  {
    if n > 0 {
      StepsShift(src, n - 1);
    }
  }

  /** When every iteration takes at least the step interval, each one steps
      exactly once: the animation runs one frame per iteration. */
  lemma {:induction false} SlowIterationsStepOnce(acc: nat, dts: seq<nat>)
    requires forall i :: 0 <= i < |dts| ==> dts[i] >= StepInterval
    ensures Crossings(acc, dts) == |dts|
    decreases |dts|
  {
    if |dts| > 0 {
      SlowIterationsStepOnce(0, dts[1..]);
    }
  }

  /** The accumulator never reaches the threshold between iterations. */
  lemma {:induction false} LeftoverBelowInterval(acc: nat, dts: seq<nat>)
    requires acc < StepInterval
    ensures Leftover(acc, dts) < StepInterval
    decreases |dts|
  {
    if |dts| > 0 {
      if acc + dts[0] >= StepInterval {
        LeftoverBelowInterval(0, dts[1..]);
      } else {
        LeftoverBelowInterval(acc + dts[0], dts[1..]);
      }
    }
  }
}
