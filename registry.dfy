/** The map from connection id to drawing session, and the per-frame driver:
    look the session up, apply the frame, redraw, and hand back the
    segments drawn (the encoded canvas goes to the client). */
module Registry {
  import opened Geometry
  import opened Gestures
  import opened Drawing
  import opened Render
  import opened Canvas
  import opened Session

  /** A connection id. */
  type Sid = string

  /** An incoming frame after image decoding: either the decoder failed, or
      the hand detector ran and returned a landmark list or nothing. */
  datatype Frame = Undecodable | Decoded(hand: Option<seq<Point>>)

  /** What one frame produced: no session, no output (the frame was
      abandoned), or a redrawn canvas built from these segments. */
  datatype FrameOutcome = SessionNotFound | Dropped | Emitted(segments: seq<Segment>)

  /** The name a canvas is saved under: `canvas_<sid>_<timestamp>.png`. */
  function SaveFileName(sid: Sid, timestamp: string): (name: string)
    ensures |name| == |sid| + |timestamp| + 12
    ensures name[..7] == "canvas_" && name[|name| - 4..] == ".png"
    ensures name[7..7 + |sid|] == sid && name[7 + |sid|] == '_'
    ensures name[8 + |sid|..|name| - 4] == timestamp
  {
    "canvas_" + sid + "_" + timestamp + ".png"
  }

  class SessionRegistry {
    var userStates: map<Sid, SessionState>

    /** Every session is valid, and no two ids share a session or a canvas. */
    ghost predicate Valid()
      reads this, userStates.Values
    {
      (forall sid :: sid in userStates ==> userStates[sid].Valid()) &&
      (forall a, b :: a in userStates && b in userStates && a != b ==>
         userStates[a] != userStates[b] && userStates[a].paintWindow != userStates[b].paintWindow)
    }

    /** The objects a frame for `sid` may change. */
    function Footprint(sid: Sid): set<object>
      reads this, userStates.Values
    {
      if sid in userStates then {userStates[sid], userStates[sid].paintWindow} else {}
    }

    constructor ()
      ensures Valid() && userStates == map[]
    {
      userStates := map[];
    }

    /** A client connects: the id gets a fresh session, replacing any earlier one. */
    method Connect(sid: Sid, chrome: (int, int) -> Pixel)
      requires Valid()
      modifies this
      ensures Valid()
      ensures sid in userStates && fresh(userStates[sid]) && fresh(userStates[sid].paintWindow)
      ensures userStates[sid].Model() == Initial()
      ensures forall r, c :: 0 <= r < Height && 0 <= c < Width ==>
        userStates[sid].paintWindow[r, c] == Template(chrome, r, c)
      ensures userStates - {sid} == old(userStates) - {sid}
    {
      var state := new SessionState(chrome);
      userStates := userStates[sid := state];
    }

    /** A client disconnects: its entry goes if it is there; otherwise nothing happens. */
    method Disconnect(sid: Sid)
      requires Valid()
      modifies this
      ensures Valid()
      ensures userStates == old(userStates) - {sid}
    {
      if sid in userStates {
        userStates := userStates - {sid};
      }
    }

    /** One frame for `sid`. An unknown id, an undecodable image or an
        unreadable landmark list changes nothing. Otherwise the frame's action
        is applied, every stroke is redrawn onto the canvas (cleared first
        when the frame pressed CLEAR), and the segments drawn are returned.
        No other session changes. */
    method ProcessFrame(sid: Sid, frame: Frame, plot: Plot) returns (out: FrameOutcome)
      requires Valid()
      modifies Footprint(sid)
      ensures Valid() && userStates == old(userStates)
      ensures sid !in userStates ==> out == SessionNotFound
      ensures sid in userStates ==>
        var st := userStates[sid];
        st.paintWindow == old(st.paintWindow) &&
        if frame.Undecodable? || Classify(frame.hand) == Malformed then
          out == Dropped && st.Model() == old(st.Model()) &&
          forall r, c :: 0 <= r < Height && 0 <= c < Width ==> st.paintWindow[r, c] == old(st.paintWindow[r, c])
        else
          var cleared := Classify(frame.hand).Button? && ResolveButton(Classify(frame.hand).x) == ClearAll;
          st.Model() == Step(old(st.Model()), frame.hand) &&
          out == Emitted(Segments(st.Points())) &&
          forall r, c :: 0 <= r < Height && 0 <= c < Width ==>
            st.paintWindow[r, c] ==
              PixelAfter(if cleared && r >= DrawingTop then White else old(st.paintWindow[r, c]),
                         out.segments, plot, r, c)
      ensures forall s :: s in userStates && s != sid ==>
        userStates[s].Model() == old(userStates[s].Model()) &&
        forall r, c :: 0 <= r < Height && 0 <= c < Width ==>
          userStates[s].paintWindow[r, c] == old(userStates[s].paintWindow[r, c])
    {
      if sid !in userStates {
        return SessionNotFound;
      }
      var state := userStates[sid];
      match frame
      case Undecodable =>
        return Dropped;
      case Decoded(hand) =>
        var handled := state.ApplyLandmarks(hand);
        if !handled {
          return Dropped;
        }
        var segments := state.Redraw(plot);
        return Emitted(segments);
    }

    /** The name the canvas of `sid` is saved under, built from the id and
        the timestamp; an unknown id yields no name. Saving changes no state. */
    method Save(sid: Sid, timestamp: string) returns (name: Option<string>)
      ensures sid in userStates <==> name.Some?
      ensures name.Some? ==> name.value == SaveFileName(sid, timestamp)
    {
      if sid in userStates {
        return Some(SaveFileName(sid, timestamp));
      }
      return None;
    }
  }

  /** A press on CLEAR at (50, 10): the session is left with four empty
      tracks, the drawing area of its canvas is white and the button rows are
      as they were. */
  method ClearFrame(registry: SessionRegistry, sid: Sid, plot: Plot)
    requires registry.Valid() && sid in registry.userStates
    modifies registry.Footprint(sid)
    ensures registry.Valid() && registry.userStates == old(registry.userStates)
    ensures var st := registry.userStates[sid];
      st.colorIndex == old(st.colorIndex) &&
      (forall i :: 0 <= i < TrackCount ==> st.Points()[i] == [Strokes.EmptyStroke(StrokeCapacity)]) &&
      forall r, c :: 0 <= r < Height && 0 <= c < Width ==>
        st.paintWindow[r, c] == if r >= DrawingTop then White else old(st.paintWindow[r, c])
  {
    var hand := Hand(Point(50, 10), Point(50, 100));
    assert Classify(Some(hand)) == Button(50);
    ClearedDrawsNothing();
    var out := registry.ProcessFrame(sid, Decoded(Some(hand)), plot);
  }
}
