/** The drawing state of one session as a value, and what one frame does to
    it. The session class changes its fields in place; this module is the
    specification it is proved against. */
module Drawing {
  import opened Geometry
  import opened Strokes
  import opened Gestures
  import opened Render

  /** A colour track: the strokes of one ink colour, oldest first. The stroke
      receiving new points, the current one, is always the last. */
  type Track = seq<Stroke>

  /** The four colour tracks (blue, green, red, yellow) and the active colour. */
  datatype Drawing = Drawing(tracks: seq<Track>, colorIndex: int)

  /** A stroke of a track is bounded; it holds 512 points, except that the
      first stroke may be the 1024-point one a session starts with. */
  predicate StrokeOk(t: Track, j: nat)
    requires j < |t|
  {
    Bounded(t[j]) && (t[j].maxlen == StrokeCapacity || (j == 0 && t[j].maxlen == InitialStrokeCapacity))
  }

  /** A track has a current stroke and all its strokes are well formed. */
  predicate TrackOk(t: Track) {
    |t| >= 1 && forall j :: 0 <= j < |t| ==> StrokeOk(t, j)
  }

  predicate WellFormed(d: Drawing) {
    |d.tracks| == TrackCount && 0 <= d.colorIndex < TrackCount &&
    forall i :: 0 <= i < |d.tracks| ==> TrackOk(d.tracks[i])
  }

  /** Index of the current stroke of a track. */
  function Current(t: Track): (k: nat)
    requires |t| >= 1
    ensures k < |t|
  {
    |t| - 1
  }

  /** A fresh session: every track one empty 1024-point stroke, blue active. */
  function Initial(): (d: Drawing)
    ensures WellFormed(d) && d.colorIndex == 0
    ensures forall i :: 0 <= i < |d.tracks| ==> d.tracks[i] == [EmptyStroke(InitialStrokeCapacity)]
  {
    var t := [EmptyStroke(InitialStrokeCapacity)];
    Drawing([t, t, t, t], 0)
  }

  /** Every track after a clear: one empty 512-point stroke. */
  function Cleared(): (r: seq<Track>)
    ensures |r| == TrackCount
    ensures forall i :: 0 <= i < |r| ==>
      TrackOk(r[i]) && |r[i]| == 1 && r[i][0].points == [] && r[i][0].maxlen == StrokeCapacity
  {
    var t := [EmptyStroke(StrokeCapacity)];
    assert StrokeOk(t, 0);
    [t, t, t, t]
  }

  /** A well-formed track stays well formed when a 512-point stroke is appended. */
  lemma AppendEmptyOk(t: Track)
    requires TrackOk(t)
    ensures TrackOk(t + [EmptyStroke(StrokeCapacity)])
  {
    var u := t + [EmptyStroke(StrokeCapacity)];
    forall j | 0 <= j < |u| ensures StrokeOk(u, j) {
      if j < |t| {
        assert StrokeOk(t, j);
      }
    }
  }

  /** Pen up: every track gains one empty 512-point stroke at its end, which
      becomes its current stroke; its earlier strokes are kept. */
  function StartStrokes(tracks: seq<Track>): (r: seq<Track>)
    ensures |r| == |tracks|
    ensures forall i :: 0 <= i < |tracks| ==>
      |r[i]| == |tracks[i]| + 1 && r[i][..|tracks[i]|] == tracks[i] &&
      r[i][Current(r[i])] == EmptyStroke(StrokeCapacity)
    ensures forall i :: 0 <= i < |tracks| && TrackOk(tracks[i]) ==> TrackOk(r[i])
  {
    assert forall i :: 0 <= i < |tracks| && TrackOk(tracks[i]) ==>
      TrackOk(tracks[i] + [EmptyStroke(StrokeCapacity)]) by {
      forall i | 0 <= i < |tracks| && TrackOk(tracks[i])
        ensures TrackOk(tracks[i] + [EmptyStroke(StrokeCapacity)])
      {
        AppendEmptyOk(tracks[i]);
      }
    }
    seq(|tracks|, i requires 0 <= i < |tracks| => tracks[i] + [EmptyStroke(StrokeCapacity)])
  }

  /** Pen down: the point goes to the front of the current stroke of track
      `c`; the other tracks and the earlier strokes of track `c` are kept. */
  function DrawInto(tracks: seq<Track>, c: nat, p: Point): (r: seq<Track>)
    requires c < |tracks| && TrackOk(tracks[c])
    ensures |r| == |tracks| && TrackOk(r[c]) && |r[c]| == |tracks[c]|
    ensures forall i :: 0 <= i < |tracks| && i != c ==> r[i] == tracks[i]
    ensures var k := Current(tracks[c]);
      Bounded(tracks[c][k]) && r[c][..k] == tracks[c][..k] && r[c][k] == AppendLeft(tracks[c][k], p)
  {
    var t := tracks[c];
    assert StrokeOk(t, Current(t));
    var u := t[Current(t) := AppendLeft(t[Current(t)], p)];
    assert forall j :: 0 <= j < |u| ==> StrokeOk(u, j) by {
      forall j | 0 <= j < |u| ensures StrokeOk(u, j) {
        assert StrokeOk(t, j);
      }
    }
    tracks[c := u]
  }

  /** The effect of one action. It keeps the state well formed; only a
      colour button changes the active colour, and an unreadable landmark
      list changes nothing. */
  function Apply(d: Drawing, a: Action): (r: Drawing)
    requires WellFormed(d)
    ensures WellFormed(r)
    ensures r.colorIndex != d.colorIndex ==> a.Button? && ResolveButton(a.x).Select?
    ensures a == Malformed ==> r == d
  {
    match a
    case NoHand => d.(tracks := StartStrokes(d.tracks))
    case Malformed => d
    case Lift => d.(tracks := StartStrokes(d.tracks))
    case Button(x) =>
      (match ResolveButton(x)
       case ClearAll => d.(tracks := Cleared())
       case Select(c) => d.(colorIndex := c)
       case NoEffect => d)
    case Draw(p) =>
      var r := d.(tracks := DrawInto(d.tracks, d.colorIndex, p));
      assert forall i :: 0 <= i < |r.tracks| && i != d.colorIndex ==> r.tracks[i] == d.tracks[i];
      r
  }

  /** The effect of one frame whose detector returned `hand`. Every frame
      keeps the state well formed, so the current stroke always exists; only
      a press in the button row can change the active colour. */
  function Step(d: Drawing, hand: Option<seq<Point>>): (r: Drawing)
    requires WellFormed(d)
    ensures WellFormed(r)
    ensures r.colorIndex != d.colorIndex ==> Classify(hand).Button?
  {
    Apply(d, Classify(hand))
  }

  /** No hand, or a pinch: each of the four tracks gains one empty 512-point
      stroke, which becomes its current one, whichever colour is active; the
      earlier strokes and the active colour stay as they were. */
  lemma PenUp(d: Drawing, hand: Option<seq<Point>>)
    requires WellFormed(d)
    requires Classify(hand) == NoHand || Classify(hand) == Lift
    ensures Step(d, hand).colorIndex == d.colorIndex
    ensures |Step(d, hand).tracks| == TrackCount
    ensures forall i :: 0 <= i < TrackCount ==>
      |Step(d, hand).tracks[i]| == |d.tracks[i]| + 1 &&
      Step(d, hand).tracks[i][..|d.tracks[i]|] == d.tracks[i] &&
      Step(d, hand).tracks[i][Current(Step(d, hand).tracks[i])] == EmptyStroke(StrokeCapacity)
  {
  }

  /** A pinch lifts the pen even inside the button row: it never clears or
      selects a colour. */
  lemma PinchBeatsButtons(d: Drawing, lm: seq<Point>)
    requires WellFormed(d) && HasTips(lm) && Pinched(lm) && lm[IndexTip].y <= ButtonRowBottom
    ensures Step(d, Some(lm)) == d.(tracks := StartStrokes(d.tracks))
    ensures Step(d, Some(lm)).colorIndex == d.colorIndex
  {
  }

  /** Drawing changes only the current stroke of the active track: the point
      goes in front; when the stroke is full its oldest point is dropped and
      its length stays at the capacity. The other three tracks, the earlier
      strokes and the active colour are untouched. */
  lemma DrawTouchesActiveOnly(d: Drawing, hand: Option<seq<Point>>)
    requires WellFormed(d) && Classify(hand).Draw?
    ensures var r, c, p := Step(d, hand), d.colorIndex, Classify(hand).p;
      var t, k := d.tracks[c], Current(d.tracks[c]);
      r.colorIndex == c && |r.tracks| == TrackCount &&
      (forall i :: 0 <= i < TrackCount && i != c ==> r.tracks[i] == d.tracks[i]) &&
      |r.tracks[c]| == |t| && r.tracks[c][..k] == t[..k] &&
      r.tracks[c][k].maxlen == t[k].maxlen && t[k].maxlen > 0 &&
      r.tracks[c][k].points[0] == p &&
      (|t[k].points| < t[k].maxlen ==> r.tracks[c][k].points == [p] + t[k].points) &&
      (|t[k].points| == t[k].maxlen ==>
         |r.tracks[c][k].points| == t[k].maxlen &&
         r.tracks[c][k].points == [p] + t[k].points[..t[k].maxlen - 1])
  {
    var c := d.colorIndex;
    var t := d.tracks[c];
    assert StrokeOk(t, Current(t));
  }

  /** The CLEAR button leaves every track one empty 512-point stroke and keeps
      the active colour. */
  lemma ClearResets(d: Drawing, lm: seq<Point>)
    requires WellFormed(d) && Classify(Some(lm)).Button? && InZone(lm[IndexTip].x, ClearZone)
    ensures var r := Step(d, Some(lm));
      r.colorIndex == d.colorIndex && |r.tracks| == TrackCount &&
      forall i :: 0 <= i < TrackCount ==> r.tracks[i] == [EmptyStroke(StrokeCapacity)] && Current(r.tracks[i]) == 0
  {
  }

  /** A colour button sets the active colour and leaves the strokes alone. */
  lemma SelectSetsColor(d: Drawing, lm: seq<Point>, c: nat)
    requires WellFormed(d) && Classify(Some(lm)).Button?
    requires c < |ColorZones| && InZone(lm[IndexTip].x, ColorZones[c])
    ensures Step(d, Some(lm)) == d.(colorIndex := c)
  {
    SelectsOwnColor(lm[IndexTip].x, c);
  }

  /** A press in the button row outside all five buttons, or a landmark list
      too short to read, changes nothing. */
  lemma NoOpFrames(d: Drawing, hand: Option<seq<Point>>)
    requires WellFormed(d)
    requires Classify(hand) == Malformed || (Classify(hand).Button? && ResolveButton(Classify(hand).x) == NoEffect)
    ensures Step(d, hand) == d
  {
  }

  /** Lifting the pen adds only empty strokes, so the redraw draws exactly
      what it drew before. */
  lemma {:induction false} PenUpDrawsNothingNew(tracks: seq<Track>)
    requires |tracks| <= |Colors|
    ensures Segments(StartStrokes(tracks)) == Segments(tracks)
  {
    if tracks != [] {
      var n := |tracks| - 1;
      assert StartStrokes(tracks)[..n] == StartStrokes(tracks[..n]);
      PenUpDrawsNothingNew(tracks[..n]);
      ShortStrokeDrawsNothing(tracks[n], Colors[n], EmptyStroke(StrokeCapacity));
    }
  }

  /** After a clear there is nothing to redraw. */
  lemma ClearedDrawsNothing()
    ensures Segments(Cleared()) == []
  {
    var t := [EmptyStroke(StrokeCapacity)];
    forall c: Pixel ensures TrackSegments(t, c) == [] {
      assert t[..0] == [];
    }
    var one, two, three := [t], [t, t], [t, t, t];
    assert one[..0] == [] && two[..1] == one && three[..2] == two && Cleared()[..3] == three;
    assert Segments(one) == [];
    assert Segments(two) == [];
    assert Segments(three) == [];
  }

  /** The state after a run of frames. */
  function Run(d: Drawing, hands: seq<Option<seq<Point>>>): (r: Drawing)
    requires WellFormed(d)
    ensures WellFormed(r)
  {
    if hands == [] then d
    else
      Step(Run(d, hands[..|hands| - 1]), hands[|hands| - 1])
  }

  /** The tracks keep every stroke: there is no limit on the number of strokes,
      so a run of frames without a hand lengthens every track by one stroke per frame. */
  lemma {:induction false} NoStrokeEviction(d: Drawing, hands: seq<Option<seq<Point>>>)
    requires WellFormed(d)
    requires forall n :: 0 <= n < |hands| ==> hands[n] == None
    ensures forall i :: 0 <= i < TrackCount ==>
      |Run(d, hands).tracks[i]| == |d.tracks[i]| + |hands| &&
      Run(d, hands).tracks[i][..|d.tracks[i]|] == d.tracks[i]
  {
    if hands != [] {
      var init := hands[..|hands| - 1];
      NoStrokeEviction(d, init);
      var prev := Run(d, init);
      PenUp(prev, hands[|hands| - 1]);
      forall i | 0 <= i < TrackCount
        ensures Run(d, hands).tracks[i][..|d.tracks[i]|] == d.tracks[i]
      {
        assert Run(d, hands).tracks[i][..|prev.tracks[i]|] == prev.tracks[i];
        assert prev.tracks[i][..|d.tracks[i]|] == d.tracks[i];
      }
    }
  }

  /** Every frame of the run draws. */
  predicate AllDraw(hands: seq<Option<seq<Point>>>) {
    forall n :: 0 <= n < |hands| ==> Classify(hands[n]).Draw?
  }

  /** The fingertips of a run of drawing frames, in order. */
  function Tips(hands: seq<Option<seq<Point>>>): (ps: seq<Point>)
    requires AllDraw(hands)
    ensures |ps| == |hands| && forall n :: 0 <= n < |hands| ==> ps[n] == Classify(hands[n]).p
  {
    seq(|hands|, n requires 0 <= n < |hands| => Classify(hands[n]).p)
  }

  /** A run of drawing frames feeds its fingertips, in order, into the
      current stroke of the active colour. The earlier strokes of that track,
      the other three tracks and the active colour are untouched. */
  lemma {:induction false} DrawRunFeeds(d: Drawing, hands: seq<Option<seq<Point>>>)
    requires WellFormed(d) && AllDraw(hands)
    ensures var r, c := Run(d, hands), d.colorIndex;
      var t, k := d.tracks[c], Current(d.tracks[c]);
      r.colorIndex == c && |r.tracks[c]| == |t| && r.tracks[c][..k] == t[..k] &&
      Bounded(t[k]) && r.tracks[c][k] == Feed(t[k], Tips(hands)) &&
      forall i :: 0 <= i < TrackCount && i != c ==> r.tracks[i] == d.tracks[i]
  {
    var c := d.colorIndex;
    var t, k := d.tracks[c], Current(d.tracks[c]);
    assert StrokeOk(t, k);
    if hands != [] {
      var init := hands[..|hands| - 1];
      assert AllDraw(init) by {
        forall n | 0 <= n < |init| ensures Classify(init[n]).Draw? {
          assert init[n] == hands[n];
        }
      }
      DrawRunFeeds(d, init);
      var prev := Run(d, init);
      var p := Classify(hands[|hands| - 1]).p;
      assert Tips(hands)[..|hands| - 1] == Tips(init);
      assert Run(d, hands) == prev.(tracks := DrawInto(prev.tracks, c, p));
      assert prev.tracks[c][..k] == t[..k];
    }
  }

  /** Within capacity, a run of drawing frames into an empty current stroke
      leaves exactly the drawn fingertips there, newest first. */
  lemma DrawRunNewestFirst(d: Drawing, hands: seq<Option<seq<Point>>>)
    requires WellFormed(d) && AllDraw(hands)
    requires d.tracks[d.colorIndex][Current(d.tracks[d.colorIndex])].points == []
    requires |hands| <= d.tracks[d.colorIndex][Current(d.tracks[d.colorIndex])].maxlen
    ensures var t := Run(d, hands).tracks[d.colorIndex];
      t[Current(t)].points == Reversed(Tips(hands))
  {
    var c := d.colorIndex;
    var s := d.tracks[c][Current(d.tracks[c])];
    DrawRunFeeds(d, hands);
    assert s == EmptyStroke(s.maxlen);
    DrawsWithinCapacity(Tips(hands), s.maxlen);
  }

  /** A hand at `finger` with the thumb tip at `thumb`; the other landmarks are
      placeholders. */
  function Hand(finger: Point, thumb: Point): (lm: seq<Point>)
    ensures HasTips(lm) && lm[IndexTip] == finger && lm[ThumbTip] == thumb
  {
    var o := Point(0, 0);
    [o, o, o, o, thumb, o, o, o, finger]
  }

  /** From a fresh session with blue active: draw at (100,200), lift, draw at
      (100,230). Blue then holds two strokes of one point each. */
  lemma DrawLiftDrawScenario()
    ensures var d := Run(Initial(), [Some(Hand(Point(100, 200), Point(100, 300))),
                                     Some(Hand(Point(100, 200), Point(100, 200))),
                                     Some(Hand(Point(100, 230), Point(100, 330)))]);
      |d.tracks[0]| == 2 &&
      d.tracks[0][0].points == [Point(100, 200)] &&
      d.tracks[0][1].points == [Point(100, 230)] &&
      Current(d.tracks[0]) == 1
  {
    var h1, h2, h3 := Some(Hand(Point(100, 200), Point(100, 300))),
                      Some(Hand(Point(100, 200), Point(100, 200))),
                      Some(Hand(Point(100, 230), Point(100, 330)));
    var d0 := Initial();
    assert [h1, h2, h3][..2] == [h1, h2];
    assert [h1, h2][..1] == [h1];
    assert [h1][..0] == [];
    assert Run(d0, [h1]) == Step(d0, h1);
    assert Classify(h1) == Draw(Point(100, 200));
    var d1 := Step(d0, h1);
    assert d1.tracks[0] == [Stroke([Point(100, 200)], InitialStrokeCapacity)];
    assert Classify(h2) == Lift;
    var d2 := Step(d1, h2);
    assert Run(d0, [h1, h2]) == d2;
    assert d2.tracks[0] == [Stroke([Point(100, 200)], InitialStrokeCapacity), EmptyStroke(StrokeCapacity)];
    assert Classify(h3) == Draw(Point(100, 230));
    var d3 := Step(d2, h3);
    assert d3.tracks[0][1] == AppendLeft(EmptyStroke(StrokeCapacity), Point(100, 230));
  }
}
