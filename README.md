# AirCanva drawing back end: per-session gesture state machine

AirCanva lets remote clients draw with hand gestures. Each connected client
(identified by its connection id, `sid`) owns a drawing session: four colour
tracks (blue, green, red, yellow) of strokes, a current-stroke index per
track, the active colour `colorIndex`, and a persistent 471×636 pixel buffer
`paintWindow` whose top rows carry five buttons (CLEAR, BLUE, GREEN, RED,
YELLOW). Every frame the hand detector yields the landmarks of one hand, or
none. The frame is classified from the thumb tip (landmark 4) and the index
fingertip (landmark 8):

- no hand: every track starts a new stroke;
- pinch (`thumb.y - finger.y < 30`): likewise;
- button row (`finger.y <= 65`): CLEAR, or the choice of one of the four colours, by x;
- otherwise: the fingertip goes to the front of the current stroke of the active colour.

A stroke is a bounded double-ended queue. When it is full, its oldest point
is dropped. The redraw then paints one line per pair of neighbouring points
within each stroke, and the canvas is sent back to the client. Sessions live
in a map from `sid`: created on connect, removed on disconnect, looked up for
each frame and for saving.

Modules, one per component of `backend.py`:

- `Geometry` (geometry.dfy): points, pixels, the canvas size, thresholds, capacities and inks.
- `Strokes` (strokes.dfy): the bounded stroke and its front insertion.
- `Gestures` (gestures.dfy): classification of a frame and the button zones.
- `Drawing` (drawing.dfy): the session state as a value, and what one frame does to it. This is the specification the class is proved against.
- `Render` (render.dfy): the list of line segments the redraw draws.
- `Canvas` (canvas.dfy): the initial canvas, and the colour of a pixel after segments are painted.
- `Session` (session.dfy): class `SessionState`, whose fields are changed in place by methods with loops.
- `Registry` (registry.dfy): class `SessionRegistry`, holding the `sid` map, the per-frame driver and the save file name.

The model follows the code on these points:

- The list of strokes per colour is a plain list. It has no limit and never drops a stroke (`Drawing.NoStrokeEviction`).
- Only the first stroke of a fresh session holds 1024 points. Every later stroke holds 512, including the strokes created by CLEAR.
- A landmark list shorter than nine entries makes the fingertip lookup fail. The catch-all handler then swallows the error before any state changes and before anything is sent. The model carries this as the action `Malformed`.

## Model

| member | source | states |
|---|---|---|
| `Strokes.AppendLeft` | backend.py:120-126 | the point becomes the newest; the surviving old points follow in order; when the stroke is full its oldest point is dropped and the length stays at the capacity; the capacity is never exceeded |
| `Strokes.Feed` | backend.py:118-126 | after a run of draws a stroke never holds more than its capacity: its length is the old length plus the draws, cut at the capacity |
| `Strokes.FeedKeepsNewest` | backend.py:120-126 | after a run of draws the stroke holds the newest points, newest first (the draws in reverse, then the older points), cut at the capacity |
| `Strokes.DrawsWithinCapacity` | backend.py:120-126 | within capacity, a fresh stroke holds exactly the drawn points, the k-th newest at position k |
| `Gestures.Classify` | backend.py:78-118 | branch priority: no hand; else an unreadable landmark list; else pinch (lift); else fingertip y <= 65 (button row, carrying x); else draw (carrying the fingertip). Each case holds exactly when its condition does |
| `Gestures.ResolveButton` | backend.py:99-117 | CLEAR exactly when x is in [40,140]; a colour only when x is in that colour's button; no effect exactly when x is in no button |
| `Gestures.ZonesDisjoint` | backend.py:100-117 | no x lies in two colour buttons, nor in CLEAR and a colour button |
| `Gestures.SelectsOwnColor` | backend.py:110-117 | an x inside button c of [160,255], [275,370], [390,485], [505,600] selects colour c |
| `Gestures.GapsDoNothing` | backend.py:99-117 | x in [141,159], [256,274], [371,389], [486,504] has no effect |
| `Drawing.Initial` | backend.py:29-38 | a fresh session has four tracks, each one empty 1024-point stroke, and colour 0; it satisfies the state invariant |
| `Drawing.Cleared` | backend.py:101-108 | the tracks after CLEAR: four well-formed tracks, each a single empty 512-point stroke |
| `Drawing.StartStrokes` | backend.py:91-98 | pen up (also lines 128-135): every track gains one empty 512-point stroke at its end, which becomes current; its earlier strokes are kept; well-formed tracks stay well formed |
| `Drawing.DrawInto` | backend.py:119-126 | pen down into track c: the current stroke becomes `AppendLeft` of it; the earlier strokes of c and all other tracks are kept; the track stays well formed |
| `Drawing.Apply` | backend.py:90-135 | the effect of one action keeps the state well formed; only a colour button changes the active colour; an unreadable landmark list changes nothing |
| `Drawing.Step` | backend.py:78-135 | one frame is `Apply` of its classification: every frame keeps four non-empty tracks of bounded 512-point strokes (the first may be 1024) and an active colour in 0..3, so the current stroke always exists; only a button-row press can change the colour |
| `Drawing.PenUp` | backend.py:90-98 | no hand (also lines 127-135) or a pinch: every track gains one empty 512-point stroke, which becomes current; earlier strokes and the active colour are unchanged, whichever colour is active |
| `Drawing.PinchBeatsButtons` | backend.py:90-99 | a pinch inside the button row lifts the pen and never clears or selects |
| `Drawing.DrawTouchesActiveOnly` | backend.py:118-126 | drawing changes only the current stroke of the active colour; the point goes in front; when the stroke is full the oldest point is dropped and the length stays at the capacity; the other tracks, the earlier strokes and the colour are unchanged |
| `Drawing.ClearResets` | backend.py:100-108 | CLEAR leaves every track one empty 512-point stroke with current index 0 and keeps the active colour |
| `Drawing.SelectSetsColor` | backend.py:110-117 | a colour button sets the active colour to that colour and leaves every stroke unchanged |
| `Drawing.NoOpFrames` | backend.py:86-117 | an unreadable landmark list, or a button-row press outside all buttons, changes nothing |
| `Drawing.NoStrokeEviction` | backend.py:127-135 | a run of n frames without a hand lengthens every track by n strokes and keeps all earlier strokes: no stroke is ever evicted |
| `Drawing.PenUpDrawsNothingNew` | backend.py:138-144 | after a pen lift the redraw draws exactly the segments it drew before |
| `Drawing.ClearedDrawsNothing` | backend.py:101-109 | after CLEAR the redraw draws no segment |
| `Drawing.DrawRunFeeds` | backend.py:118-126 | a run of drawing frames leaves the active colour's current stroke equal to `Strokes.Feed` of its fingertips in order; earlier strokes, the other tracks and the colour are unchanged |
| `Drawing.DrawRunNewestFirst` | backend.py:118-126 | within capacity, a run of drawing frames into an empty current stroke leaves exactly the fingertips there, newest first |
| `Drawing.DrawLiftDrawScenario` | backend.py:90-126 | from a fresh session: draw at (100,200), lift, draw at (100,230). Blue then has two strokes of one point each, and the current index is 1 |
| `Render.StrokeSegments` | backend.py:141-144 | a stroke of n points yields n-1 segments (none below two points), segment k-1 joining point k-1 to point k |
| `Render.TrackSegments` | backend.py:140-144 | the segments of one track, stroke after stroke in stored order; every pair of neighbouring points of every stroke is among them |
| `Render.Segments` | backend.py:138-144 | the segments of the four tracks in colour order; every pair of neighbouring points of every stroke of track i is drawn in ink colors[i] |
| `Render.TrackSegmentsAppend` | backend.py:140-144 | the segments of a track are those of its strokes, stroke after stroke in stored order |
| `Render.TrackSegmentsWithinStrokes` | backend.py:140-144 | every segment of a track joins two neighbouring points of one stroke, so no segment joins the end of one stroke to the start of the next |
| `Render.ShortStrokeDrawsNothing` | backend.py:141 | a stroke of fewer than two points adds no segment |
| `Render.SegmentsWithinStrokes` | backend.py:138-144 | every segment of the redraw lies within one stroke of some track i and has ink colors[i] |
| `Canvas.Template` | backend.py:39-51 | the canvas starts white below the button rows; the rows above hold the button chrome |
| `Canvas.PixelAfter` | backend.py:144 | after painting a list of segments, a pixel has the ink of the last segment covering it, or its earlier colour when none does |
| `Canvas.PixelAfterConcat` | backend.py:139-144 | painting one list of segments and then another equals painting the two lists joined |
| `Session.SessionState.constructor` | backend.py:26-52 | a fresh session: the initial drawing, all four indices 0, active colour 0, and a new canvas equal to the template |
| `Session.SessionState.StartNewStrokes` | backend.py:91-98 | appends an empty 512-point stroke to each track and increments each index; the invariant "index = stroke count - 1" is kept |
| `Session.SessionState.Clear` | backend.py:100-109 | every track becomes one empty stroke, every index 0; canvas rows >= 67 white, rows 0-66 and the colour unchanged |
| `Session.SessionState.ClearDrawingArea` | backend.py:109 | in place: rows 67..470 of every column become white; rows 0-66 keep their pixels |
| `Session.SessionState.AppendToActive` | backend.py:119-126 | inserts the point at the front of the stroke named by the active colour's index; the new state is the specified draw step |
| `Session.SessionState.ApplyLandmarks` | backend.py:78-135 | the new state is `Drawing.Step` of the old one; handled exactly when the landmark list is readable; the canvas changes only by CLEAR's whitening of rows >= 67; the invariant is kept |
| `Session.SessionState.PaintSegment` | backend.py:144 | every in-bounds pixel plotted for the segment takes its ink; all other pixels are unchanged |
| `Session.SessionState.Redraw` | backend.py:138-144 | the segments drawn are exactly `Render.Segments` of the four tracks in colour order, and every pixel ends as `Canvas.PixelAfter` of its earlier colour |
| `Session.SessionState.RedrawTrack` | backend.py:140-144 | the segments drawn for one track are `Render.TrackSegments`, with the same canvas effect |
| `Session.SessionState.RedrawStroke` | backend.py:141-144 | the segments drawn for one stroke are `Render.StrokeSegments`, with the same canvas effect |
| `Registry.SaveFileName` | backend.py:192-193 | the name is `canvas_`, the id, `_`, the timestamp and `.png`, each at its stated position |
| `Registry.SessionRegistry.constructor` | backend.py:20 | the registry starts empty |
| `Registry.SessionRegistry.Connect` | backend.py:154-159 | the id maps to a fresh session in the initial state (replacing any earlier entry); every other entry is unchanged |
| `Registry.SessionRegistry.Disconnect` | backend.py:176-182 | the entry is removed if present, and nothing else changes, so a second disconnect does nothing |
| `Registry.SessionRegistry.ProcessFrame` | backend.py:54-150 | an unknown id changes nothing. An undecodable image or unreadable landmarks change nothing and emit nothing. Otherwise the session takes one `Drawing.Step`, the output is the redraw's segments, and the canvas is the earlier one (CLEAR first whitens rows >= 67) painted with them. Other sessions are unchanged |
| `Registry.SessionRegistry.Save` | backend.py:186-200 | a known id yields `canvas_<sid>_<timestamp>.png`; an unknown id yields no name; `Save` changes no state |
| `Registry.ClearFrame` | backend.py:99-109 | a press at (50,10) leaves four empty tracks. The drawing area turns white after the redraw, and the button rows and the colour keep their values |

## Left out

- Hand detection (MediaPipe), base64 and JPEG decoding, JPEG encoding and the emit to the client are library or transport calls. The input is modelled as `Registry.Frame`: either an undecodable image, or an optional list of integer landmarks.
- The float-to-pixel scaling of landmarks (`int(lm.x * 640)`) is floating point. Coordinates are taken as given.
- Only one hand is modelled: the detector is limited to one hand, so the loop over detected hands runs at most once.
- How OpenCV rasterises a line (thickness 2) is a parameter `Canvas.Plot`, giving the pixels a segment covers. The initial rectangles and labels are a parameter `chrome` of the constructor.
- The `None` test in the redraw loop never fires, since only points are stored. It is not modelled.
- The catch-all exception handler is modelled only for the short landmark list. Failures inside library calls are left out.
- The order of the two landmark lookups (8 before 4) is not modelled: both fail on exactly the lists shorter than nine entries, so the outcome is the same.
- The 'image' key check of the frame event is transport, and is not part of this model. A frame without an image is dropped before it reaches the session.
- Connect emits the initial canvas, and reports an initialisation failure to the client. Both are transport and are left out.
- Save: the directory creation, the file write and the wall clock are I/O. The timestamp is a parameter, and the write-failure status is not modelled.
- Logging, eventlet monkey-patching, server start-up and the concurrency of Socket.IO handlers are left out. The registry is a sequential map.
- The detector object created on each frame is a library object, and is not part of this model.
- app.js, the browser client, has no drawing logic and is not part of this model.
