/** The pixel buffer of a session: its initial contents and the colour a
    pixel takes after a list of line segments is painted over it. How a line
    is turned into pixels belongs to the imaging library; here it is a
    parameter `plot` giving the points a segment covers. */
module Canvas {
  import opened Geometry
  import opened Render

  /** The pixels the imaging library paints for one segment, as (x, y) points. */
  type Plot = Segment -> seq<Point>

  /** The button chrome (five framed buttons and their labels) is drawn by
      the imaging library above the drawing area; below it the canvas is white. */
  function Template(chrome: (int, int) -> Pixel, row: int, col: int): (p: Pixel)
    ensures row >= DrawingTop ==> p == White
  {
    if row < DrawingTop then chrome(row, col) else White
  }

  /** Segment `s` covers the pixel at row `row`, column `col`. */
  predicate Covers(plot: Plot, s: Segment, row: int, col: int) {
    Point(col, row) in plot(s)
  }

  /** The colour of the pixel at (row, col), first `before`, after the
      segments are painted in order: the ink of the last segment covering it,
      or `before` when none does. */
  function PixelAfter(before: Pixel, segs: seq<Segment>, plot: Plot, row: int, col: int): (p: Pixel)
    ensures (forall n :: 0 <= n < |segs| ==> !Covers(plot, segs[n], row, col)) ==> p == before
    ensures (exists n :: 0 <= n < |segs| && Covers(plot, segs[n], row, col)) ==>
      exists n :: 0 <= n < |segs| && Covers(plot, segs[n], row, col) && p == segs[n].color &&
        forall m :: n < m < |segs| ==> !Covers(plot, segs[m], row, col)
  {
    if segs == [] then before
    else
      var last := segs[|segs| - 1];
      if Covers(plot, last, row, col) then last.color
      else PixelAfter(before, segs[..|segs| - 1], plot, row, col)
  }

  /** Painting `a` and then `b` is painting `a + b`. */
  lemma {:induction false} PixelAfterConcat(before: Pixel, a: seq<Segment>, b: seq<Segment>, plot: Plot, row: int, col: int)
    ensures PixelAfter(PixelAfter(before, a, plot, row, col), b, plot, row, col) == PixelAfter(before, a + b, plot, row, col)
  {
    if b == [] {
      assert a + b == a;
    } else {
      assert (a + b)[..|a + b| - 1] == a + b[..|b| - 1];
      PixelAfterConcat(before, a, b[..|b| - 1], plot, row, col);
    }
  }
}
