# SDL2-PSP sample: sprite animation and input, modelled in Dafny

The sample is a PSP demo that draws a running cheetah over a forest
background. The cheetah comes from a 512 x 252 sprite sheet cut into a grid of
4 columns by 2 rows. Each frame is `TZ_H` = 128 by `TZ_V` = 126 pixels. The
part of `main` with logic in it has three pieces, and this project models each
one as pure functions over immutable datatypes:

- **Initial placement.** `cheetah_src` starts as frame (0, 0). `cheetah_dst` is
  twice the frame size and is centred in a logical window of `WW` x `WH` =
  320 x 315. C integer division gives dst = (32, 31, 256, 252).
- **Frame stepper.** Time accumulates. Once it reaches 0.1 s, the source
  rectangle moves one column right. If x goes strictly past the last column,
  x wraps to 0 and the row toggles. The accumulator is then reset to zero.
- **Event switch.** `SDL_QUIT`, or Start (button 11) on joystick 0, clears
  `running`. Buttons 7 and 9 on joystick 0 move the destination 5 pixels
  left or right, with no clamping.

Modules:

- `Geometry` (`geometry.dfy`): `Rect`, the sheet constants, C truncating
  division, and the centring of the destination.
- `Sprite` (`sprite.dfy`): `Step`. It also gives a reference frame numbering
  `FrameRect(k)` and the lemmas linking the two: grid invariant, closed form
  after n steps, and 8-step cycle closure.
- `Timing` (`timing.dfy`): the accumulator `Clock` in integer ticks
  (1 tick = 1 ms, threshold 100 ticks).
- `Input` (`input.dfy`): `Event`, `HandleEvent`, and the effect of a whole
  drained event queue.
- `DemoLoop` (`demo_loop.dfy`): one iteration of `while (running)` (events,
  then the clock), the loop over a sequence of host-supplied frames, and the
  invariant every reachable state keeps.

The host's I/O is turned into parameters. Each loop iteration receives a
`Frame`: the sequence of events polled in that iteration and the elapsed time
in ticks.

## Model

| member | source | states |
|---|---|---|
| Geometry.CDiv | src/main.c:132-133 | C `int` division truncates toward zero: the remainder has the dividend's sign and is smaller than the divisor |
| Geometry.TimesTwoAndAHalf | src/main.c:122 | `int ww = WW, wh = WH` with the macros at lines 23-24 expanded: `n * 2.5` converted to `int` is the largest integer not above 2.5 n, for non-negative n |
| Geometry.Centre | src/main.c:132-133 | the rectangle keeps its size, and its left and right margins inside the outer extent differ by at most one pixel (two when a size or the outer extent is negative); the same holds vertically |
| Geometry.InitialDst | src/main.c:122-133 | with `ww = WW` and `wh = WH` expanded from the macros at lines 21-24, the assignments at lines 130-133 give the destination (32, 31, 256, 252), twice the frame size |
| Geometry.InitialSrc | src/main.c:135-138 | the initial source rectangle is (0, 0, 128, 126) |
| Sprite.Step | src/main.c:165-174 | width and height are unchanged; x never exceeds 384; the column either advances by 128 or wraps to 0; the row changes exactly when the column wraps, and then it becomes 0 or 126 |
| Sprite.FrameRect | src/main.c:165-174 | every frame of the reference numbering lies on the 4 x 2 grid |
| Sprite.FrameIndex | src/main.c:165-174 | every grid rectangle is frame k of the reference numbering for exactly one k below 8 |
| Sprite.OnGridIffFrame | src/main.c:165-174 | a rectangle is on the grid (x in {0, 128, 256, 384}, y in {0, 126}, frame size) if and only if it is one of frames 0 to 7 |
| Sprite.StepFrame | src/main.c:165-174 | stepping frame k gives frame k + 1 for every k, so the strict `>` wraps after column 3 and toggles the row |
| Sprite.StepOnGrid | src/main.c:165-174 | a step keeps the grid invariant and advances the frame number by one modulo 8 |
| Sprite.StepsFromFrame | src/main.c:165-174 | n steps from frame k reach frame k + n |
| Sprite.StepsFromStart | src/main.c:135-138 | after n steps from the initial rectangle, x = (n mod 4) * 128, y = ((n div 4) mod 2) * 126, and the size is 128 x 126 |
| Sprite.WrapBoundary | src/main.c:167-173 | three steps give (384, 0); the fourth gives (0, 126), so the row has toggled exactly once |
| Sprite.StepsKeepSize | src/main.c:165-174 | no number of steps changes the source rectangle's width or height |
| Sprite.StepsOnGrid | src/main.c:165-174 | every rectangle reached from a grid rectangle is on the grid |
| Sprite.CycleClosure | src/main.c:165-174 | eight steps return every grid rectangle to itself |
| Sprite.FramesDistinct | src/main.c:165-174 | the eight frames of one lap are pairwise distinct, so no shorter cycle exists |
| Timing.InitialClock | src/main.c:120 | the animation starts at frame 0 with an empty accumulator |
| Timing.Advance | src/main.c:163-177 | exactly one step happens, and the accumulator is reset to 0, when accumulated time reaches the threshold; otherwise the rectangle is unchanged and time accumulates; the accumulator always ends below the threshold |
| Timing.AdvanceAll | src/main.c:160-177 | over any sequence of iterations the frame size never changes, and after at least one iteration the accumulator is below the threshold whatever it held before |
| Timing.AdvanceSplit | src/main.c:163-164 | two intervals whose first part does not reach the threshold act like one interval of their total length |
| Timing.SurplusDiscarded | src/main.c:176 | two iterations of 150 ms each step twice, not three times, because the surplus past the threshold is dropped |
| Timing.AdvanceAllSteps | src/main.c:163-177 | over a sequence of iterations the rectangle takes exactly one step per threshold crossing and nothing else |
| Timing.StepsShift | src/main.c:165-174 | n steps after one step equal n + 1 steps |
| Timing.SlowIterationsStepOnce | src/main.c:163-177 | when every iteration lasts at least the threshold, the number of steps equals the number of iterations |
| Timing.LeftoverBelowInterval | src/main.c:163-177 | between iterations the accumulator stays below the threshold |
| Input.HandleEvent | src/main.c:142-157 | only the destination's x can move, by −5 for button 7 and +5 for button 9 of joystick 0, with no clamping; `running` is cleared by a quit or button 11 of joystick 0 and is never set |
| Input.HandleEvents | src/main.c:141-158 | draining a queue never sets `running` again and never changes the destination's y, w or h |
| Input.IgnoredEvents | src/main.c:142-157 | any other button, any other joystick and any other event type leave the whole scene unchanged |
| Input.LeftRightInverse | src/main.c:149-152 | left then right, or right then left, restores the scene |
| Input.HandleEventsEffect | src/main.c:141-158 | after a drained queue, x has moved 5 pixels per right press minus 5 per left press; y, w and h are unchanged; the loop keeps running exactly when it was running and no event in the queue stops it |
| Input.EventsAfterQuitStillApply | src/main.c:141-158 | a quit does not stop the current queue from draining: a right press queued after it still moves the sprite |
| DemoLoop.Init | src/main.c:120-138 | the loop starts running, with dst (32, 31, 256, 252), src (0, 0, 128, 126) and an empty accumulator |
| DemoLoop.Iterate | src/main.c:140-177 | one iteration clears `running` exactly when an event of its batch stops the loop; it moves x by the net number of presses and leaves the rest of dst alone; it advances the clock even in the iteration that stops the loop |
| DemoLoop.IterateKeepsGood | src/main.c:140-177 | one iteration keeps the loop invariant: src on the grid, accumulator below the threshold, dst's y, w and h as initialised |
| DemoLoop.Run | src/main.c:140-183 | the loop never sets `running` again; it never changes dst's y, w or h or the source frame size; after at least one iteration the accumulator is below the threshold |
| DemoLoop.RunStopsExactly | src/main.c:140-158 | after a run the loop is still running exactly when it was running before and no handled batch held a quit or Start on joystick 0 |
| DemoLoop.RunKeepsGood | src/main.c:140-183 | any run of the loop keeps the invariant |
| DemoLoop.ReachableGood | src/main.c:120-183 | every state reachable from the initial state satisfies the invariant |
| DemoLoop.StoppedStaysPut | src/main.c:140 | once `running` is cleared, no further iteration happens |
| DemoLoop.QuietRun | src/main.c:140-177 | from any running state, whatever its accumulator holds, iterations with no events that each last at least 0.1 s keep the loop running and dst in place; src takes one step per iteration, and the accumulator ends at 0 |
| DemoLoop.FirstIterationNeverSteps | src/main.c:76-80 | the first iteration sees no elapsed time, because the timer's first reading and `current_time` are both 0, so the animation stays at frame 0 |
| DemoLoop.QuietRunFromInit | src/main.c:120-177 | from the start of the demo, a first iteration with no elapsed time and any events that do not stop the loop, followed by n iterations with no events of at least 0.1 s each, shows column n mod 4 of row (n div 4) mod 2 |

## Left out

- SDL initialisation, window, renderer and joystick setup, and teardown (src/main.c:88-113, 185-191) are left out. They are calls into SDL, and SDL is not part of this model.
- `SDL_LoadImageMem` (src/main.c:47-63) is left out. It wraps stb_image decoding and SDL surface and texture creation, which are foreign code. Its failure path prints and continues with a null image, and that path is left out too.
- `SDL_MakeColor`, `SDL_ClearScreen`, `SDL_DrawImage` and the render calls (src/main.c:37-45, 65-70, 179-182) are left out, because they only have rendering side effects.
- `SDL_GetTime` and the float arithmetic of `delta_time` and `accumulator` (src/main.c:72-85, 160-164) are left out. Time is integer ticks (milliseconds) supplied by the host per iteration, and the float comparison with 0.1 becomes `acc >= 100`. Float rounding is not modelled.
- The timer's first reading is not derived from a clock. `SDL_GetTime` returns 0 on its first call (src/main.c:76-80) and `current_time` starts at 0 (src/main.c:120), so the program's first iteration always has zero elapsed time. The host-supplied elapsed times are free in the model, and `TimerStartsAtZero` states this constraint for the lemmas that need it.
- `SDL_PollEvent` is left out. Each iteration receives the sequence of events it would poll, and axis-motion and every other SDL event type become `Other`.
- Input.HandleEvent: `cheetah_dst.x` is a 32-bit C `int`, and overflowing it is undefined behaviour. The model uses unbounded integers, which agree with the source until about 429 million presses in one direction.
- Geometry.TimesTwoAndAHalf: the `double` product `n * 2.5` is modelled as exact. This holds for the frame sizes used here; for very large n, rounding of the `double` is not modelled.
