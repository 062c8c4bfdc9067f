/** The sprite-sheet frame stepper: the source rectangle walks the four
    columns of the sheet and toggles between its two rows. */
module Sprite {
  import opened Geometry

  /** x of the rightmost column (TZ_H * 3); the step wraps only once x has
      gone strictly past it. */
  const LastColumnX: int := FrameW * 3

  /** Number of distinct frames the stepper visits. */
  const CycleLength: nat := 8

  /** One animation step of the source rectangle. */
  function Step(src: Rect): (r: Rect)
    ensures r.w == src.w && r.h == src.h
    ensures r.x <= LastColumnX
    // the column either advances by one frame or wraps to zero ...
    ensures r.x == src.x + FrameW || r.x == 0
    // ... and the row changes exactly when the column does not advance
    ensures r.y == src.y <==> r.x == src.x + FrameW
    ensures r.y != src.y ==> r.y == 0 || r.y == FrameH
  {
    var x := src.x + FrameW;
    if x > LastColumnX then
      src.(x := 0, y := if src.y == 0 then FrameH else 0)
    else
      src.(x := x)
  }

  /** The source rectangle selects one whole frame of the 4 x 2 grid. */
  predicate OnGrid(r: Rect) {
    && r.w == FrameW && r.h == FrameH
    && 0 <= r.x <= LastColumnX && r.x % FrameW == 0
    && (r.y == 0 || r.y == FrameH)
  }

  /** Reference definition: the rectangle of frame number k, counting frames
      left to right along the top row, then along the bottom row, and
      starting again. */
  function FrameRect(k: nat): (r: Rect)
    ensures OnGrid(r)
  {
    Rect((k % Columns) * FrameW, ((k / Columns) % Rows) * FrameH, FrameW, FrameH)
  }

  /** Frame number (0 to 7) of a rectangle on the grid. */
  function FrameIndex(r: Rect): (k: nat)
    requires OnGrid(r)
    ensures k < CycleLength
    ensures FrameRect(k) == r
  {
    r.x / FrameW + (if r.y == 0 then 0 else Columns)
  }

  /** The grid rectangles are exactly the frames 0 to 7. */
  lemma OnGridIffFrame(r: Rect)
    ensures OnGrid(r) <==> exists k: nat :: k < CycleLength && FrameRect(k) == r
  {
    if OnGrid(r) {
      var k := FrameIndex(r);
      assert k < CycleLength && FrameRect(k) == r;
    }
  }

  /** Stepping frame k gives frame k + 1: the step walks the reference
      numbering, wrapping after column 3 and toggling the row. */
  lemma StepFrame(k: nat)
    ensures Step(FrameRect(k)) == FrameRect(k + 1)
  {
    var c := k % Columns;
    var q := k / Columns;
    assert k == Columns * q + c;
    if c == Columns - 1 {
      assert k + 1 == Columns * (q + 1);
      assert (k + 1) % Columns == 0 && (k + 1) / Columns == q + 1;
    } else {
      assert k + 1 == Columns * q + (c + 1);
      assert (k + 1) % Columns == c + 1 && (k + 1) / Columns == q;
    }
  }

  /** Stepping preserves the grid invariant and advances the frame number by
      one, modulo the cycle length. */
  lemma StepOnGrid(r: Rect)
    requires OnGrid(r)
    ensures OnGrid(Step(r))
    ensures FrameIndex(Step(r)) == (FrameIndex(r) + 1) % CycleLength
  {
    var k := FrameIndex(r);
    StepFrame(k);
    if k == CycleLength - 1 {
      assert FrameRect(k + 1) == FrameRect(0);
    }
    assert FrameRect((k + 1) % CycleLength) == Step(r);
  }

  /** The source rectangle after n steps. */
  function Steps(src: Rect, n: nat): Rect
  {
    if n == 0 then src else Step(Steps(src, n - 1))
  }

  /** Closed form from any frame: n steps from frame k reach frame k + n. */
  lemma {:induction false} StepsFromFrame(k: nat, n: nat)
    ensures Steps(FrameRect(k), n) == FrameRect(k + n)
  {
    if n > 0 {
      StepsFromFrame(k, n - 1);
      StepFrame(k + n - 1);
    }
  }

  /** From the initial source rectangle, n steps give column n mod 4 and row
      (n div 4) mod 2. */
  lemma StepsFromStart(n: nat)
    ensures Steps(InitialSrc(), n).x == (n % 4) * 128
    ensures Steps(InitialSrc(), n).y == ((n / 4) % 2) * 126
    ensures Steps(InitialSrc(), n).w == 128 && Steps(InitialSrc(), n).h == 126
  {
    assert InitialSrc() == FrameRect(0);
    StepsFromFrame(0, n);
  }

  /** The boundary of the strict comparison: three steps reach the last
      column of the top row, the fourth wraps to the bottom row. */
  lemma WrapBoundary()
    ensures Steps(InitialSrc(), 3) == Rect(384, 0, 128, 126)
    ensures Steps(InitialSrc(), 4) == Rect(0, 126, 128, 126)
  {
    StepsFromStart(3);
    StepsFromStart(4);
  }

  /** Steps never change the size of the source rectangle. */
  lemma {:induction false} StepsKeepSize(src: Rect, n: nat)
    ensures Steps(src, n).w == src.w && Steps(src, n).h == src.h
  {
    if n > 0 {
      StepsKeepSize(src, n - 1);
    }
  }

  /** Every rectangle reached from a grid rectangle is on the grid. */
  lemma {:induction false} StepsOnGrid(src: Rect, n: nat)
    requires OnGrid(src)
    ensures OnGrid(Steps(src, n))
  {
    if n > 0 {
      StepsOnGrid(src, n - 1);
      StepOnGrid(Steps(src, n - 1));
    }
  }

  /** Cycle closure: eight steps return any grid rectangle to itself. */
  lemma CycleClosure(src: Rect)
    requires OnGrid(src)
    ensures Steps(src, CycleLength) == src
  {
    var k := FrameIndex(src);
    StepsFromFrame(k, CycleLength);
    var c := k % Columns;
    var q := k / Columns;
    assert k == Columns * q + c;
    assert k + CycleLength == Columns * (q + 2) + c;
    assert (k + CycleLength) % Columns == c;
    assert (k + CycleLength) / Columns == q + 2;
  }

  /** No shorter cycle: the eight frames of one lap are pairwise distinct. */
  lemma FramesDistinct(i: nat, j: nat)
    requires i < j < CycleLength
    ensures FrameRect(i) != FrameRect(j)
  {
    assert FrameIndex(FrameRect(i)) == i;
    assert FrameIndex(FrameRect(j)) == j;
  }
}
