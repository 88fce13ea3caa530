/** A stroke is one continuous pen-down trace: a bounded double-ended queue of
    points with the newest point at the front. When the queue is full,
    inserting at the front drops the point at the back, the oldest one. */
module Strokes {
  import opened Geometry

  /** `points[0]` is the newest point; `maxlen` is the queue's capacity. */
  datatype Stroke = Stroke(points: seq<Point>, maxlen: nat)

  /** A bounded queue never holds more than its capacity. */
  predicate Bounded(s: Stroke) {
    |s.points| <= s.maxlen
  }

  /** An empty stroke with the given capacity. */
  function EmptyStroke(maxlen: nat): Stroke {
    Stroke([], maxlen)
  }

  function Min(a: int, b: int): int {
    if a <= b then a else b
  }

  /** The first (newest) `n` elements of `xs`, or all of them when there are fewer. */
  function Newest(xs: seq<Point>, n: nat): (r: seq<Point>)
    ensures |r| == Min(|xs|, n) && r == xs[..|r|]
  {
    xs[..Min(|xs|, n)]
  }

  /** Inserting at the front of a bounded queue. */
  function AppendLeft(s: Stroke, p: Point): (r: Stroke)
    requires Bounded(s)
    ensures Bounded(r) && r.maxlen == s.maxlen
    ensures |r.points| == Min(|s.points| + 1, s.maxlen)
    ensures s.maxlen > 0 ==> r.points[0] == p && r.points[1..] == s.points[..|r.points| - 1]
    ensures r.points == Newest([p] + s.points, s.maxlen)
  {
    if |s.points| < s.maxlen then Stroke([p] + s.points, s.maxlen)
    else if s.maxlen == 0 then s
    else Stroke([p] + s.points[..|s.points| - 1], s.maxlen)
  }

  /** `ps` in reverse order: the last element first. */
  function Reversed(ps: seq<Point>): (r: seq<Point>)
    ensures |r| == |ps|
  {
    if ps == [] then [] else [ps[|ps| - 1]] + Reversed(ps[..|ps| - 1])
  }

  lemma {:induction false} ReversedAt(ps: seq<Point>, k: nat)
    requires k < |ps|
    ensures Reversed(ps)[k] == ps[|ps| - 1 - k]
  {
    if k > 0 {
      ReversedAt(ps[..|ps| - 1], k - 1);
    }
  }

  /** The stroke after inserting each point of `ps` at the front, in order. */
  function Feed(s: Stroke, ps: seq<Point>): (r: Stroke)
    requires Bounded(s)
    ensures Bounded(r) && r.maxlen == s.maxlen
    ensures |r.points| == Min(|s.points| + |ps|, s.maxlen)
  {
    if ps == [] then s else AppendLeft(Feed(s, ps[..|ps| - 1]), ps[|ps| - 1])
  }

  lemma NewestOfFront(p: Point, xs: seq<Point>, n: nat)
    ensures Newest([p] + Newest(xs, n), n) == Newest([p] + xs, n)
  {
    if |xs| > n && n > 0 {
      assert ([p] + xs[..n])[..n] == [p] + xs[..n - 1];
      assert ([p] + xs)[..n] == [p] + xs[..n - 1];
    }
  }

  /** Feeding points into a stroke keeps the newest ones, newest first:
      the fed points in reverse, then the points already there, cut at the capacity. */
  lemma {:induction false} FeedKeepsNewest(s: Stroke, ps: seq<Point>)
    requires Bounded(s)
    ensures Feed(s, ps).points == Newest(Reversed(ps) + s.points, s.maxlen)
  {
    if ps == [] {
      assert Reversed(ps) + s.points == s.points;
    } else {
      var init, p := ps[..|ps| - 1], ps[|ps| - 1];
      FeedKeepsNewest(s, init);
      NewestOfFront(p, Reversed(init) + s.points, s.maxlen);
      assert [p] + (Reversed(init) + s.points) == Reversed(ps) + s.points;
    }
  }

  /** Within capacity, a fresh stroke holds exactly the points drawn, newest first. */
  lemma {:induction false} DrawsWithinCapacity(ps: seq<Point>, maxlen: nat)
    requires |ps| <= maxlen
    ensures Feed(EmptyStroke(maxlen), ps).points == Reversed(ps)
    ensures forall k :: 0 <= k < |ps| ==> Feed(EmptyStroke(maxlen), ps).points[k] == ps[|ps| - 1 - k]
  {
    FeedKeepsNewest(EmptyStroke(maxlen), ps);
    assert Reversed(ps) + [] == Reversed(ps);
    forall k | 0 <= k < |ps| ensures Reversed(ps)[k] == ps[|ps| - 1 - k] {
      ReversedAt(ps, k);
    }
  }
}
