/** The drawing state of one connected client, changed in place frame by
    frame: four colour tracks with their current-stroke indices, the active
    colour and the persistent pixel buffer. */
module Session {
  import opened Geometry
  import opened Strokes
  import opened Gestures
  import opened Drawing
  import opened Render
  import opened Canvas

  class SessionState {
    var bpoints: Track
    var gpoints: Track
    var rpoints: Track
    var ypoints: Track
    var blueIndex: int
    var greenIndex: int
    var redIndex: int
    var yellowIndex: int
    var colorIndex: int
    /** Rows by columns; pixel (x, y) is `paintWindow[y, x]`. */
    var paintWindow: array2<Pixel>

    /** The tracks in colour order, as the redraw visits them. */
    function Points(): seq<Track>
      reads this
    {
      [bpoints, gpoints, rpoints, ypoints]
    }

    /** The drawing state as a value. */
    function Model(): Drawing
      reads this
    {
      Drawing(Points(), colorIndex)
    }

    /** Every index names the last stroke of its track, so the current stroke
        always exists; the canvas has its fixed size. */
    ghost predicate Valid()
      reads this
    {
      WellFormed(Model()) &&
      blueIndex == |bpoints| - 1 && greenIndex == |gpoints| - 1 &&
      redIndex == |rpoints| - 1 && yellowIndex == |ypoints| - 1 &&
      paintWindow.Length0 == Height && paintWindow.Length1 == Width
    }

    /** A fresh session; `chrome` is the button row as the imaging library draws it. */
    constructor (chrome: (int, int) -> Pixel)
      ensures Valid() && Model() == Initial()
      ensures blueIndex == 0 && greenIndex == 0 && redIndex == 0 && yellowIndex == 0
      ensures fresh(paintWindow)
      ensures forall r, c :: 0 <= r < Height && 0 <= c < Width ==> paintWindow[r, c] == Template(chrome, r, c)
    {
      var t := [EmptyStroke(InitialStrokeCapacity)];
      bpoints, gpoints, rpoints, ypoints := t, t, t, t;
      blueIndex, greenIndex, redIndex, yellowIndex := 0, 0, 0, 0;
      colorIndex := 0;
      paintWindow := new Pixel[Height, Width]((r, c) => Template(chrome, r, c));
    }

    /** Pen up: a new empty stroke on every track, every index advanced. */
    method StartNewStrokes()
      requires Valid()
      modifies this
      ensures Valid() && paintWindow == old(paintWindow)
      ensures Model() == old(Model()).(tracks := StartStrokes(old(Points())))
    {
      bpoints := bpoints + [EmptyStroke(StrokeCapacity)];
      blueIndex := blueIndex + 1;
      gpoints := gpoints + [EmptyStroke(StrokeCapacity)];
      greenIndex := greenIndex + 1;
      rpoints := rpoints + [EmptyStroke(StrokeCapacity)];
      redIndex := redIndex + 1;
      ypoints := ypoints + [EmptyStroke(StrokeCapacity)];
      yellowIndex := yellowIndex + 1;
      assert Points() == StartStrokes(old(Points()));
    }

    /** The CLEAR button: every track back to one empty stroke at index 0,
        and the drawing area painted white. */
    method Clear()
      requires Valid()
      modifies this, paintWindow
      ensures Valid() && paintWindow == old(paintWindow)
      ensures Model() == old(Model()).(tracks := Cleared())
      ensures blueIndex == 0 && greenIndex == 0 && redIndex == 0 && yellowIndex == 0
      ensures forall r, c :: 0 <= r < Height && 0 <= c < Width ==>
        paintWindow[r, c] == if r >= DrawingTop then White else old(paintWindow[r, c])
    {
      var t := [EmptyStroke(StrokeCapacity)];
      bpoints, gpoints, rpoints, ypoints := t, t, t, t;
      blueIndex, greenIndex, redIndex, yellowIndex := 0, 0, 0, 0;
      assert StrokeOk(t, 0);
      ClearDrawingArea();
    }

    /** Paints every row from `DrawingTop` down white; the button rows keep
        their pixels. */
    method ClearDrawingArea()
      requires paintWindow.Length0 == Height && paintWindow.Length1 == Width
      modifies paintWindow
      ensures forall r, c :: 0 <= r < Height && 0 <= c < Width ==>
        paintWindow[r, c] == if r >= DrawingTop then White else old(paintWindow[r, c])
    {
      for r := DrawingTop to Height
        invariant forall r', c :: 0 <= r' < Height && 0 <= c < Width ==>
          paintWindow[r', c] == if DrawingTop <= r' < r then White else old(paintWindow[r', c])
      {
        for c := 0 to Width
          invariant forall r', c' :: 0 <= r' < Height && 0 <= c' < Width ==>
            paintWindow[r', c'] ==
              if DrawingTop <= r' < r || (r' == r && c' < c) then White else old(paintWindow[r', c'])
        {
          paintWindow[r, c] := White;
        }
      }
    }

    /** Pen down: the point goes to the front of the current stroke of the
        active colour, found through that colour's index. */
    method AppendToActive(p: Point)
      requires Valid()
      modifies this
      ensures Valid() && paintWindow == old(paintWindow)
      ensures Model() == old(Model()).(tracks := DrawInto(old(Points()), old(colorIndex), p))
    {
      ghost var before := Points();
      assert TrackOk(before[colorIndex]);
      assert StrokeOk(before[colorIndex], Current(before[colorIndex]));
      if colorIndex == 0 {
        bpoints := bpoints[blueIndex := AppendLeft(bpoints[blueIndex], p)];
      } else if colorIndex == 1 {
        gpoints := gpoints[greenIndex := AppendLeft(gpoints[greenIndex], p)];
      } else if colorIndex == 2 {
        rpoints := rpoints[redIndex := AppendLeft(rpoints[redIndex], p)];
      } else if colorIndex == 3 {
        ypoints := ypoints[yellowIndex := AppendLeft(ypoints[yellowIndex], p)];
      }
      assert Points() == DrawInto(before, colorIndex, p);
    }

    /** The state change of one frame whose detector returned `hand`.
        `handled` is false when the landmark list is too short to read the
        fingertips, which abandons the frame before any change. */
    method ApplyLandmarks(hand: Option<seq<Point>>) returns (handled: bool)
      requires Valid()
      modifies this, paintWindow
      ensures Valid() && paintWindow == old(paintWindow)
      ensures Model() == Step(old(Model()), hand)
      ensures handled <==> Classify(hand) != Malformed
      ensures forall r, c :: 0 <= r < Height && 0 <= c < Width ==>
        paintWindow[r, c] ==
          if r >= DrawingTop && Classify(hand).Button? && ResolveButton(Classify(hand).x) == ClearAll
          then White else old(paintWindow[r, c])
    {
      handled := true;
      match hand
      case None =>
        StartNewStrokes();
      case Some(landmarks) =>
        if !HasTips(landmarks) {
          return false;
        }
        var center, thumb := landmarks[IndexTip], landmarks[ThumbTip];
        if thumb.y - center.y < LiftThreshold {
          StartNewStrokes();
        } else if center.y <= ButtonRowBottom {
          if InZone(center.x, ClearZone) {
            Clear();
          } else if InZone(center.x, ColorZones[0]) {
            colorIndex := 0;
          } else if InZone(center.x, ColorZones[1]) {
            colorIndex := 1;
          } else if InZone(center.x, ColorZones[2]) {
            colorIndex := 2;
          } else if InZone(center.x, ColorZones[3]) {
            colorIndex := 3;
          }
        } else {
          AppendToActive(center);
        }
    }

    /** Paints one segment: every in-bounds pixel the imaging library plots for it. */
    method PaintSegment(s: Segment, pixels: seq<Point>)
      requires paintWindow.Length0 == Height && paintWindow.Length1 == Width
      modifies paintWindow
      ensures forall r, c :: 0 <= r < Height && 0 <= c < Width ==>
        paintWindow[r, c] == if Point(c, r) in pixels then s.color else old(paintWindow[r, c])
    {
      for n := 0 to |pixels|
        invariant forall r, c :: 0 <= r < Height && 0 <= c < Width ==>
          paintWindow[r, c] == if Point(c, r) in pixels[..n] then s.color else old(paintWindow[r, c])
      {
        var q := pixels[n];
        assert pixels[..n + 1] == pixels[..n] + [q];
        if 0 <= q.y < Height && 0 <= q.x < Width {
          paintWindow[q.y, q.x] := s.color;
        }
      }
      assert pixels[..|pixels|] == pixels;
    }

    /** Redraws every stroke: for each colour, each stroke and each pair of
        neighbouring points, one segment in the colour's ink. */
    method Redraw(plot: Plot) returns (drawn: seq<Segment>)
      requires Valid()
      modifies paintWindow
      ensures drawn == Segments(Points())
      ensures forall r, c :: 0 <= r < Height && 0 <= c < Width ==>
        paintWindow[r, c] == PixelAfter(old(paintWindow[r, c]), drawn, plot, r, c)
    {
      var points := Points();
      drawn := [];
      for i := 0 to |points|
        invariant drawn == Segments(points[..i])
        invariant forall r, c :: 0 <= r < Height && 0 <= c < Width ==>
          paintWindow[r, c] == PixelAfter(old(paintWindow[r, c]), drawn, plot, r, c)
      {
        assert points[..i + 1][..i] == points[..i];
        var segs := RedrawTrack(points[i], Colors[i], plot);
        forall r, c | 0 <= r < Height && 0 <= c < Width {
          PixelAfterConcat(old(paintWindow[r, c]), drawn, segs, plot, r, c);
        }
        drawn := drawn + segs;
      }
      assert points[..|points|] == points;
    }

    /** The strokes of one track, oldest first. */
    method RedrawTrack(track: Track, color: Pixel, plot: Plot) returns (drawn: seq<Segment>)
      requires paintWindow.Length0 == Height && paintWindow.Length1 == Width
      modifies paintWindow
      ensures drawn == TrackSegments(track, color)
      ensures forall r, c :: 0 <= r < Height && 0 <= c < Width ==>
        paintWindow[r, c] == PixelAfter(old(paintWindow[r, c]), drawn, plot, r, c)
    {
      drawn := [];
      for j := 0 to |track|
        invariant drawn == TrackSegments(track[..j], color)
        invariant forall r, c :: 0 <= r < Height && 0 <= c < Width ==>
          paintWindow[r, c] == PixelAfter(old(paintWindow[r, c]), drawn, plot, r, c)
      {
        assert track[..j + 1][..j] == track[..j];
        var segs := RedrawStroke(track[j].points, color, plot);
        forall r, c | 0 <= r < Height && 0 <= c < Width {
          PixelAfterConcat(old(paintWindow[r, c]), drawn, segs, plot, r, c);
        }
        drawn := drawn + segs;
      }
      assert track[..|track|] == track;
    }

    /** One stroke: a segment from each point to the next, k = 1 .. |pts|-1. */
    method RedrawStroke(pts: seq<Point>, color: Pixel, plot: Plot) returns (drawn: seq<Segment>)
      requires paintWindow.Length0 == Height && paintWindow.Length1 == Width
      modifies paintWindow
      ensures drawn == StrokeSegments(pts, color)
      ensures forall r, c :: 0 <= r < Height && 0 <= c < Width ==>
        paintWindow[r, c] == PixelAfter(old(paintWindow[r, c]), drawn, plot, r, c)
    {
      drawn := [];
      var k := 1;
      while k < |pts|
        invariant 1 <= k && (|pts| == 0 || k <= |pts|)
        invariant drawn == StrokeSegments(pts[..Min(k, |pts|)], color)
        invariant forall r, c :: 0 <= r < Height && 0 <= c < Width ==>
          paintWindow[r, c] == PixelAfter(old(paintWindow[r, c]), drawn, plot, r, c)
      {
        var s := Segment(pts[k - 1], pts[k], color);
        assert pts[..k + 1][..k] == pts[..k];
        PaintSegment(s, plot(s));
        drawn := drawn + [s];
        k := k + 1;
      }
      assert pts[..Min(k, |pts|)] == pts;
    }
  }
}
