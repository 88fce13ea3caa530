/** Classification of one frame's hand landmarks into the action the frame
    performs, and resolution of a press in the button row. */
module Gestures {
  import opened Geometry

  /** What a frame does. `Malformed` is a hand whose landmark list is too
      short to hold the index fingertip: the lookup fails and the frame is
      abandoned before anything changes. */
  datatype Action = NoHand | Malformed | Lift | Button(x: int) | Draw(p: Point)

  /** The landmark list holds the thumb tip and the index fingertip. */
  predicate HasTips(lm: seq<Point>) {
    |lm| > IndexTip && |lm| > ThumbTip
  }

  /** The pinch that lifts the pen: thumb tip less than 30 pixels below the fingertip. */
  predicate Pinched(lm: seq<Point>)
    requires HasTips(lm)
  {
    lm[ThumbTip].y - lm[IndexTip].y < LiftThreshold
  }

  /** The action of a frame whose detector returned `hand`. The lift test
      comes first, then the button row, then drawing. */
  function Classify(hand: Option<seq<Point>>): (a: Action)
    ensures a == NoHand <==> hand == None
    ensures a == Malformed <==> hand.Some? && !HasTips(hand.value)
    ensures a == Lift <==> hand.Some? && HasTips(hand.value) && Pinched(hand.value)
    ensures a.Button? <==>
      hand.Some? && HasTips(hand.value) && !Pinched(hand.value) && hand.value[IndexTip].y <= ButtonRowBottom
    ensures a.Draw? <==>
      hand.Some? && HasTips(hand.value) && !Pinched(hand.value) && hand.value[IndexTip].y > ButtonRowBottom
    ensures a.Button? ==> a.x == hand.value[IndexTip].x
    ensures a.Draw? ==> a.p == hand.value[IndexTip]
  {
    match hand
    case None => NoHand
    case Some(lm) =>
      if !HasTips(lm) then Malformed
      else
        var center, thumb := lm[IndexTip], lm[ThumbTip];
        if thumb.y - center.y < LiftThreshold then Lift
        else if center.y <= ButtonRowBottom then Button(center.x)
        else Draw(center)
  }

  /** What a press in the button row does. */
  datatype ButtonEffect = ClearAll | Select(color: nat) | NoEffect

  /** Horizontal extent, both ends included, of the CLEAR button. */
  const ClearZone: (int, int) := (40, 140)

  /** Horizontal extents of the BLUE, GREEN, RED and YELLOW buttons. */
  const ColorZones: seq<(int, int)> := [(160, 255), (275, 370), (390, 485), (505, 600)]

  predicate InZone(x: int, zone: (int, int)) {
    zone.0 <= x <= zone.1
  }

  /** The zones are tested in order, the first match wins, no match does nothing. */
  function ResolveButton(x: int): (e: ButtonEffect)
    ensures e == ClearAll <==> InZone(x, ClearZone)
    ensures e.Select? ==> e.color < |ColorZones| && InZone(x, ColorZones[e.color])
    ensures e == NoEffect <==>
      !InZone(x, ClearZone) && forall c :: 0 <= c < |ColorZones| ==> !InZone(x, ColorZones[c])
  {
    if InZone(x, ClearZone) then ClearAll
    else if InZone(x, ColorZones[0]) then Select(0)
    else if InZone(x, ColorZones[1]) then Select(1)
    else if InZone(x, ColorZones[2]) then Select(2)
    else if InZone(x, ColorZones[3]) then Select(3)
    else NoEffect
  }

  /** No two buttons overlap, so each x selects at most one of them. */
  lemma ZonesDisjoint(x: int, c: nat, d: nat)
    requires c < |ColorZones| && d < |ColorZones|
    ensures InZone(x, ColorZones[c]) && InZone(x, ColorZones[d]) ==> c == d
    ensures !(InZone(x, ClearZone) && InZone(x, ColorZones[c]))
  {
  }

  /** A colour button always selects its own colour. */
  lemma SelectsOwnColor(x: int, c: nat)
    requires c < |ColorZones| && InZone(x, ColorZones[c])
    ensures ResolveButton(x) == Select(c)
  {
    if ResolveButton(x).Select? {
      ZonesDisjoint(x, c, ResolveButton(x).color);
    }
  }

  /** The gaps between buttons do nothing. */
  lemma GapsDoNothing(x: int)
    requires 141 <= x <= 159 || 256 <= x <= 274 || 371 <= x <= 389 || 486 <= x <= 504
    ensures ResolveButton(x) == NoEffect
  {
  }
}
