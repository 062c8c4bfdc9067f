/** Integer rectangles, the sprite-sheet constants of the demo, and the
    placement of the cheetah sprite in the centre of the logical window. */
module Geometry {

  /** An SDL_Rect: origin (x, y) and size (w, h), all C `int`s. */
  datatype Rect = Rect(x: int, y: int, w: int, h: int)

  /** The cheetah sheet is 512 pixels wide and 252 high, cut into a grid of
      four columns and two rows. */
  const SheetWidth: int := 512
  const SheetHeight: int := 252
  const Columns: int := 4
  const Rows: int := 2

  /** TZ_H and TZ_V: the size of one frame of the sheet (128 by 126). */
  const FrameW: int := SheetWidth / Columns
  const FrameH: int := SheetHeight / Rows

  /** Division of C `int`s, which truncates toward zero (Dafny's `/` is
      Euclidean and differs for negative dividends). */
  function CDiv(a: int, b: int): (q: int)
    requires b > 0
    ensures 0 <= a ==> 0 <= a - q * b < b
    ensures a < 0 ==> -b < a - q * b <= 0
  {
    if a >= 0 then a / b else -((-a) / b)
  }

  /** A C `double` of the form `n * 2.5` converted to `int`: the product is
      exact (n * 5 / 2 is a multiple of 0.5), and the conversion truncates. */
  function TimesTwoAndAHalf(n: int): (r: int)
    ensures 0 <= n ==> 2 * r <= 5 * n < 2 * r + 2
  {
    CDiv(5 * n, 2)
  }

  /** WW and WH: the logical window is two and a half frames each way. */
  const WindowW: int := TimesTwoAndAHalf(FrameW)
  const WindowH: int := TimesTwoAndAHalf(FrameH)

  /** A rectangle of size w by h whose origin is `outer / 2 - size / 2` in
      each axis, computed with C division. */
  function Centre(outerW: int, outerH: int, w: int, h: int): (r: Rect)
    ensures r.w == w && r.h == h
    // the left and right margins differ by at most one pixel for sizes
    // that are not negative, by at most two otherwise
    ensures 0 <= outerW && 0 <= w ==> -1 <= (outerW - r.x - r.w) - r.x <= 1
    ensures 0 <= outerH && 0 <= h ==> -1 <= (outerH - r.y - r.h) - r.y <= 1
    ensures -2 <= (outerW - r.x - r.w) - r.x <= 2
    ensures -2 <= (outerH - r.y - r.h) - r.y <= 2
  {
    Rect(CDiv(outerW, 2) - CDiv(w, 2), CDiv(outerH, 2) - CDiv(h, 2), w, h)
  }

  /** cheetah_dst as main() sets it up: twice the frame size, centred in the
      WW by WH window. */
  function InitialDst(): (r: Rect)
    ensures r == Rect(32, 31, 256, 252)
    ensures r.w == 2 * FrameW && r.h == 2 * FrameH
  {
    Centre(WindowW, WindowH, FrameW * 2, FrameH * 2)
  }

  /** cheetah_src as main() sets it up: the top-left frame of the sheet. */
  function InitialSrc(): (r: Rect)
    ensures r == Rect(0, 0, 128, 126)
  {
    Rect(0, 0, FrameW, FrameH)
  }
}
