/** The event switch of the main loop: quitting, and nudging the sprite's
    destination rectangle left or right with the joystick buttons. */
module Input {
  import opened Geometry

  /** The only joystick main() reacts to. */
  const PrimaryJoystick: int := 0
  /** Button numbers of the PSP pad as SDL reports them. */
  const ButtonLeft: int := 7
  const ButtonRight: int := 9
  const ButtonStart: int := 11
  /** Pixels the sprite moves per press. */
  const Nudge: int := 5

  /** The events the loop distinguishes; every other SDL event is `Other`. */
  datatype Event =
    | Quit
    | JoyButtonDown(which: int, button: int)
    | Other

  /** The part of main()'s state the events touch. */
  datatype Scene = Scene(running: bool, dst: Rect)

  /** Horizontal displacement an event causes. */
  function Shift(e: Event): int {
    if e == JoyButtonDown(PrimaryJoystick, ButtonLeft) then -Nudge
    else if e == JoyButtonDown(PrimaryJoystick, ButtonRight) then Nudge
    else 0
  }

  /** Whether an event ends the loop. */
  predicate Stops(e: Event) {
    e == Quit || e == JoyButtonDown(PrimaryJoystick, ButtonStart)
  }

  /** One pass of the switch statement. */
  function HandleEvent(s: Scene, e: Event): (r: Scene)
    // only x of the destination can move, by the event's shift, unclamped
    ensures r.dst == s.dst.(x := s.dst.x + Shift(e))
    // running is cleared by a quit or Start, and never set
    ensures r.running == (s.running && !Stops(e))
    // no event both moves the sprite and stops the loop
    ensures Shift(e) != 0 ==> !Stops(e)
  {
    match e
    case Quit => s.(running := false)
    case JoyButtonDown(which, button) =>
      if which == PrimaryJoystick then
        if button == ButtonLeft then s.(dst := s.dst.(x := s.dst.x - Nudge))
        else if button == ButtonRight then s.(dst := s.dst.(x := s.dst.x + Nudge))
        else if button == ButtonStart then s.(running := false)
        else s
      else s
    case Other => s
  }

  /** Events other than Quit and buttons 7, 9 and 11 of joystick 0 leave the
      whole scene unchanged. */
  lemma IgnoredEvents(s: Scene, e: Event)
    requires e != Quit
    requires e.JoyButtonDown? ==>
      e.which != PrimaryJoystick || e.button !in {ButtonLeft, ButtonRight, ButtonStart}
    ensures HandleEvent(s, e) == s
  {
  }

  /** Pressing left then right (or right then left) restores the scene. */
  lemma LeftRightInverse(s: Scene)
    ensures HandleEvent(HandleEvent(s, JoyButtonDown(PrimaryJoystick, ButtonLeft)),
                        JoyButtonDown(PrimaryJoystick, ButtonRight)) == s
    ensures HandleEvent(HandleEvent(s, JoyButtonDown(PrimaryJoystick, ButtonRight)),
                        JoyButtonDown(PrimaryJoystick, ButtonLeft)) == s
  {
  }

  /** One drained event queue, handled in order. */
  function HandleEvents(s: Scene, es: seq<Event>): (r: Scene)
    // a drained queue never restarts the loop and moves the sprite only
    // horizontally
    ensures r.running ==> s.running
    ensures r.dst.y == s.dst.y && r.dst.w == s.dst.w && r.dst.h == s.dst.h
    decreases |es|
  {
    if |es| == 0 then s else HandleEvents(HandleEvent(s, es[0]), es[1..])
  }

  /** Number of occurrences of e in es. */
  function Count(es: seq<Event>, e: Event): nat
    decreases |es|
  {
    if |es| == 0 then 0 else (if es[0] == e then 1 else 0) + Count(es[1..], e)
  }

  /** Whether some event of es stops the loop. */
  predicate AnyStops(es: seq<Event>) {
    exists i :: 0 <= i < |es| && Stops(es[i])
  }

  /** After a batch of events, x has moved by five pixels per right press
      minus five per left press, y, w and h are unchanged, and the loop is
      still running exactly when it was and no event of the batch stops it. */
  lemma {:induction false} HandleEventsEffect(s: Scene, es: seq<Event>)
    ensures HandleEvents(s, es).dst.x ==
      s.dst.x + Nudge * (Count(es, JoyButtonDown(PrimaryJoystick, ButtonRight))
                         - Count(es, JoyButtonDown(PrimaryJoystick, ButtonLeft)))
    ensures HandleEvents(s, es).dst == s.dst.(x := HandleEvents(s, es).dst.x)
    ensures HandleEvents(s, es).running == (s.running && !AnyStops(es))
    decreases |es|
  {
    if |es| > 0 {
      HandleEventsEffect(HandleEvent(s, es[0]), es[1..]);
      var tl := es[1..];
      assert forall i :: 0 <= i < |tl| ==> tl[i] == es[i + 1];
      if AnyStops(es) && !Stops(es[0]) {
        var i :| 0 <= i < |es| && Stops(es[i]);
        assert Stops(tl[i - 1]);
      }
    }
  }

  /** A quit does not end the current batch: events queued after it are
      still handled, so the sprite can move after the quit request. */
  lemma EventsAfterQuitStillApply(s: Scene)
    ensures HandleEvents(s, [Quit, JoyButtonDown(PrimaryJoystick, ButtonRight)]) ==
      Scene(false, s.dst.(x := s.dst.x + Nudge))
  {
    var s1 := HandleEvent(s, Quit);
    var s2 := HandleEvent(s1, JoyButtonDown(PrimaryJoystick, ButtonRight));
    assert [Quit, JoyButtonDown(PrimaryJoystick, ButtonRight)][1..] ==
      [JoyButtonDown(PrimaryJoystick, ButtonRight)];
    assert HandleEvents(s1, [JoyButtonDown(PrimaryJoystick, ButtonRight)]) == HandleEvents(s2, []);
  }
}
