/** The line segments the redraw draws: within each stroke, one segment per
    pair of neighbouring points, in the colour of the stroke's track. */
module Render {
  import opened Geometry
  import opened Strokes

  /** A line from `a` to `b` in ink `color`. */
  datatype Segment = Segment(a: Point, b: Point, color: Pixel)

  /** The segments of one stroke in visiting order: (pts[k-1], pts[k]) for
      k = 1 .. |pts|-1. */
  function StrokeSegments(pts: seq<Point>, color: Pixel): (r: seq<Segment>)
    ensures |r| == if |pts| < 2 then 0 else |pts| - 1
    ensures forall k :: 1 <= k < |pts| ==> r[k - 1] == Segment(pts[k - 1], pts[k], color)
  {
    if |pts| < 2 then []
    else StrokeSegments(pts[..|pts| - 1], color) + [Segment(pts[|pts| - 2], pts[|pts| - 1], color)]
  }

  /** The segments of a track: its strokes one after the other, oldest
      first. Every pair of neighbouring points of every stroke is among them. */
  function TrackSegments(strokes: seq<Stroke>, color: Pixel): (r: seq<Segment>)
    ensures forall j, k :: 0 <= j < |strokes| && 1 <= k < |strokes[j].points| ==>
      Segment(strokes[j].points[k - 1], strokes[j].points[k], color) in r
  {
    if strokes == [] then []
    else
      var init, last := strokes[..|strokes| - 1], strokes[|strokes| - 1];
      var r := TrackSegments(init, color) + StrokeSegments(last.points, color);
      assert forall j :: 0 <= j < |init| ==> init[j] == strokes[j];
      assert forall k :: 1 <= k < |last.points| ==>
        Segment(last.points[k - 1], last.points[k], color) in r;
      r
  }

  /** The segments of all tracks, track i in `Colors[i]`. Every pair of
      neighbouring points of every stroke of track i is drawn in `Colors[i]`. */
  function Segments(tracks: seq<seq<Stroke>>): (r: seq<Segment>)
    requires |tracks| <= |Colors|
    ensures forall i, j, k :: 0 <= i < |tracks| && 0 <= j < |tracks[i]| && 1 <= k < |tracks[i][j].points| ==>
      Segment(tracks[i][j].points[k - 1], tracks[i][j].points[k], Colors[i]) in r
  {
    if tracks == [] then []
    else
      var init, n := tracks[..|tracks| - 1], |tracks| - 1;
      var r := Segments(init) + TrackSegments(tracks[n], Colors[n]);
      assert forall i :: 0 <= i < |init| ==> init[i] == tracks[i];
      r
  }

  /** Two consecutive points of stroke j of the track. */
  predicate IsStrokePair(strokes: seq<Stroke>, color: Pixel, s: Segment) {
    exists j, k :: 0 <= j < |strokes| && 1 <= k < |strokes[j].points| &&
      s == Segment(strokes[j].points[k - 1], strokes[j].points[k], color)
  }

  /** The segments of a track are split stroke by stroke, in stroke order. */
  lemma {:induction false} TrackSegmentsAppend(a: seq<Stroke>, b: seq<Stroke>, color: Pixel)
    ensures TrackSegments(a + b, color) == TrackSegments(a, color) + TrackSegments(b, color)
  {
    if b == [] {
      assert a + b == a;
    } else {
      var init := b[..|b| - 1];
      assert (a + b)[..|a + b| - 1] == a + init;
      TrackSegmentsAppend(a, init, color);
    }
  }

  /** Every segment drawn for a track joins two neighbouring points of one
      stroke; none joins the end of one stroke to the start of the next. */
  lemma {:induction false} TrackSegmentsWithinStrokes(strokes: seq<Stroke>, color: Pixel)
    ensures forall s :: s in TrackSegments(strokes, color) ==> IsStrokePair(strokes, color, s)
  {
    if strokes != [] {
      var init, last := strokes[..|strokes| - 1], strokes[|strokes| - 1];
      var j := |strokes| - 1;
      TrackSegmentsWithinStrokes(init, color);
      forall s | s in TrackSegments(strokes, color) ensures IsStrokePair(strokes, color, s) {
        if s in TrackSegments(init, color) {
          var j', k :| 0 <= j' < |init| && 1 <= k < |init[j'].points| &&
            s == Segment(init[j'].points[k - 1], init[j'].points[k], color);
          assert strokes[j'] == init[j'];
        } else {
          var segs := StrokeSegments(last.points, color);
          assert s in segs;
          var n :| 0 <= n < |segs| && segs[n] == s;
          assert s == Segment(strokes[j].points[n], strokes[j].points[n + 1], color);
        }
      }
    }
  }

  /** A stroke of fewer than two points adds no segment. */
  lemma ShortStrokeDrawsNothing(strokes: seq<Stroke>, color: Pixel, s: Stroke)
    requires |s.points| < 2
    ensures TrackSegments(strokes + [s], color) == TrackSegments(strokes, color)
  {
    assert (strokes + [s])[..|strokes|] == strokes;
  }

  /** Every segment of the redraw lies within one stroke of one track and is
      drawn in that track's ink. */
  lemma {:induction false} SegmentsWithinStrokes(tracks: seq<seq<Stroke>>)
    requires |tracks| <= |Colors|
    ensures forall s :: s in Segments(tracks) ==>
      exists i :: 0 <= i < |tracks| && IsStrokePair(tracks[i], Colors[i], s)
  {
    if tracks != [] {
      var init, n := tracks[..|tracks| - 1], |tracks| - 1;
      SegmentsWithinStrokes(init);
      TrackSegmentsWithinStrokes(tracks[n], Colors[n]);
      forall s | s in Segments(tracks)
        ensures exists i :: 0 <= i < |tracks| && IsStrokePair(tracks[i], Colors[i], s)
      {
        if s in Segments(init) {
          var i :| 0 <= i < |init| && IsStrokePair(init[i], Colors[i], s);
          assert tracks[i] == init[i];
        } else {
          assert IsStrokePair(tracks[n], Colors[n], s);
        }
      }
    }
  }
}
