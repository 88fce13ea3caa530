/** Shared vocabulary of the drawing back end: points, pixels, the canvas
    geometry and the gesture thresholds. */
module Geometry {

  datatype Option<+T> = None | Some(value: T)

  /** An integer pixel coordinate, x to the right, y downwards. */
  datatype Point = Point(x: int, y: int)

  type Byte = b: int | 0 <= b < 256

  /** One pixel of the canvas, channels in OpenCV's BGR order. */
  datatype Pixel = Pixel(b: Byte, g: Byte, r: Byte)

  const White: Pixel := Pixel(255, 255, 255)

  /** The canvas is 471 rows by 636 columns. */
  const Height: nat := 471
  const Width: nat := 636

  /** Rows from here down are the drawing area; rows above hold the buttons. */
  const DrawingTop: nat := 67

  /** A pinch: the thumb tip less than this far below the index fingertip. */
  const LiftThreshold: int := 30

  /** A fingertip at or above this row is in the button row. */
  const ButtonRowBottom: int := 65

  /** Landmark numbers of the thumb tip and the index fingertip. */
  const ThumbTip: nat := 4
  const IndexTip: nat := 8

  /** Point capacity of the first stroke of a fresh session, and of every other stroke. */
  const InitialStrokeCapacity: nat := 1024
  const StrokeCapacity: nat := 512

  /** Ink of the blue, green, red and yellow tracks, in that order. */
  const Colors: seq<Pixel> := [Pixel(255, 0, 0), Pixel(0, 255, 0), Pixel(0, 0, 255), Pixel(0, 255, 255)]

  /** Number of colour tracks. */
  const TrackCount: nat := 4
}
