/**
 * Geometry and chain helpers of the snake: distances, random placement,
 * the follow-the-leader movement of the body and the self-collision test.
 *
 * Coordinates are mathematical reals. The platform square root is not
 * definable here, so it is a parameter `root` that every caller must
 * supply with `IsSqrt(root)`; distances are otherwise compared as squares.
 */
module GameUtils {
  import opened Types
  import opened Constants

  /** `root` returns the non-negative square root of every non-negative real. */
  ghost predicate IsSqrt(root: real -> real) {
    forall v: real :: 0.0 <= v ==> 0.0 <= root(v) && root(v) * root(v) == v
  }

  /** The squared Euclidean distance between two points. */
  function DistSq(p: Point, q: Point): (d: real)
    ensures 0.0 <= d
  {
    var dx, dy := p.x - q.x, p.y - q.y;
    SquareNonNegative(dx);
    SquareNonNegative(dy);
    dx * dx + dy * dy
  }

  lemma SquareNonNegative(a: real)
    ensures 0.0 <= a * a
    ensures a != 0.0 ==> 0.0 < a * a
  {
    if a < 0.0 {
      assert a * a == (-a) * (-a);
    }
  }

  /** The distance between two points, as the square root of `DistSq`. */
  function Distance(root: real -> real, p: Point, q: Point): (d: real)
    requires IsSqrt(root)
    ensures 0.0 <= d && d * d == DistSq(p, q)
  {
    root(DistSq(p, q))
  }

  /** For non-negative reals, order is the order of the squares. */
  lemma SquareMonotone(a: real, b: real)
    requires 0.0 <= a && 0.0 <= b
    ensures a < b <==> a * a < b * b
  {
    if a < b {
      assert 0.0 <= a * (b - a);
      assert 0.0 < b * (b - a);
    } else {
      assert 0.0 <= b * (a - b);
      assert 0.0 <= a * (a - b);
    }
  }

  /**
   * Comparing a distance with a non-negative bound is the same as comparing
   * the squared distance with the squared bound, so every distance test of
   * the game can be stated without the square root.
   */
  lemma DistanceComparison(root: real -> real, p: Point, q: Point, bound: real)
    requires IsSqrt(root) && 0.0 <= bound
    ensures Distance(root, p, q) < bound <==> DistSq(p, q) < bound * bound
    ensures Distance(root, p, q) > bound <==> DistSq(p, q) > bound * bound
  {
    var d := Distance(root, p, q);
    SquareMonotone(d, bound);
    SquareMonotone(bound, d);
  }

  /**
   * A point inside the rectangle inset by `padding`, for the random factors
   * `rx` and `ry` (each a draw in [0, 1)).
   */
  function RandomPosition(width: real, height: real, padding: real, rx: real, ry: real): (p: Point)
    requires 0.0 <= rx < 1.0 && 0.0 <= ry < 1.0
    ensures 2.0 * padding <= width ==> padding <= p.x <= width - padding
    ensures 2.0 * padding < width ==> p.x < width - padding
    ensures 2.0 * padding <= height ==> padding <= p.y <= height - padding
    ensures 2.0 * padding < height ==> p.y < height - padding
  {
    Point(Inset(padding, width - padding * 2.0, rx), Inset(padding, height - padding * 2.0, ry))
  }

  /** One coordinate of a random position: `lo` plus the fraction `r` of `span`. */
  function Inset(lo: real, span: real, r: real): (v: real)
    requires 0.0 <= r < 1.0
    ensures 0.0 <= span ==> lo <= v <= lo + span
    ensures 0.0 < span ==> v < lo + span
  {
    ScaledBelow(r, span);
    lo + r * span
  }

  lemma ScaledBelow(r: real, span: real)
    requires 0.0 <= r < 1.0
    ensures 0.0 <= span ==> 0.0 <= r * span <= span
    ensures 0.0 < span ==> r * span < span
  {
  }

  /** Every point of the inset rectangle is produced by some pair of draws. */
  lemma RandomPositionReaches(width: real, height: real, padding: real, target: Point)
    returns (rx: real, ry: real)
    requires 2.0 * padding < width && 2.0 * padding < height
    requires padding <= target.x < width - padding
    requires padding <= target.y < height - padding
    ensures 0.0 <= rx < 1.0 && 0.0 <= ry < 1.0
    ensures RandomPosition(width, height, padding, rx, ry) == target
  {
    var spanX, spanY := width - padding * 2.0, height - padding * 2.0;
    rx := (target.x - padding) / spanX;
    ry := (target.y - padding) / spanY;
    assert rx * spanX == target.x - padding;
    assert ry * spanY == target.y - padding;
    FractionBelowOne(target.x - padding, spanX);
    FractionBelowOne(target.y - padding, spanY);
  }

  lemma FractionBelowOne(part: real, whole: real)
    requires 0.0 <= part < whole
    ensures 0.0 <= part / whole < 1.0
  {
    var q := part / whole;
    assert q * whole == part;
  }

  /** The new head: the old head advanced by `direction * speed`. */
  function MoveHead(head: Point, direction: Point, speed: real): Point {
    Point(head.x + direction.x * speed, head.y + direction.y * speed)
  }

  /** `r` lies on the ray that starts at `prev` and passes through `curr`. */
  ghost predicate OnRay(prev: Point, curr: Point, r: Point) {
    (r.x - prev.x) * (curr.y - prev.y) == (r.y - prev.y) * (curr.x - prev.x) &&
    0.0 < (r.x - prev.x) * (curr.x - prev.x) + (r.y - prev.y) * (curr.y - prev.y)
  }

  /**
   * The pull of a stretched segment: the point at exactly SEGMENT_DISTANCE
   * from `prev` in the direction of `curr`. The angle computed with atan2 and
   * turned back into (cos, sin) is the unit vector (dx, dy) / |(dx, dy)|.
   */
  function Pull(root: real -> real, prev: Point, curr: Point): (r: Point)
    requires IsSqrt(root) && DistSq(prev, curr) > SEGMENT_DISTANCE * SEGMENT_DISTANCE
    ensures DistSq(prev, r) == SEGMENT_DISTANCE * SEGMENT_DISTANCE
    ensures OnRay(prev, curr, r)
  {
    var len := Distance(root, prev, curr);
    assert 0.0 < len;
    var k := SEGMENT_DISTANCE / len;
    PulledDistSq(prev, curr, k, len);
    Point(prev.x + k * (curr.x - prev.x), prev.y + k * (curr.y - prev.y))
  }

  lemma PulledDistSq(p: Point, c: Point, k: real, len: real)
    requires 0.0 < len && len * len == DistSq(p, c) && k == SEGMENT_DISTANCE / len
    ensures DistSq(p, Point(p.x + k * (c.x - p.x), p.y + k * (c.y - p.y))) == SEGMENT_DISTANCE * SEGMENT_DISTANCE
    ensures 0.0 < k
  {
    var dx, dy := c.x - p.x, c.y - p.y;
    var r := Point(p.x + k * dx, p.y + k * dy);
    assert k * len == SEGMENT_DISTANCE;
    calc {
      DistSq(p, r);
      (k * dx) * (k * dx) + (k * dy) * (k * dy);
      (k * k) * (dx * dx + dy * dy);
      (k * k) * (len * len);
      (k * len) * (k * len);
      SEGMENT_DISTANCE * SEGMENT_DISTANCE;
    }
    assert r == Point(p.x + k * (c.x - p.x), p.y + k * (c.y - p.y));
  }

  /**
   * One step of the body walk: a segment farther than SEGMENT_DISTANCE from
   * its (already moved) predecessor is pulled; any other segment stays put.
   */
  function Link(root: real -> real, prev: Point, curr: Point): (r: Point)
    requires IsSqrt(root)
    ensures DistSq(prev, r) <= SEGMENT_DISTANCE * SEGMENT_DISTANCE
    ensures DistSq(prev, curr) <= SEGMENT_DISTANCE * SEGMENT_DISTANCE ==> r == curr
    ensures DistSq(prev, curr) > SEGMENT_DISTANCE * SEGMENT_DISTANCE ==>
              DistSq(prev, r) == SEGMENT_DISTANCE * SEGMENT_DISTANCE && OnRay(prev, curr, r)
  {
    if DistSq(prev, curr) > SEGMENT_DISTANCE * SEGMENT_DISTANCE then Pull(root, prev, curr) else curr
  }

  /** The first `n` segments after the move, computed head first. */
  function ResolvedPrefix(root: real -> real, snake: seq<Point>, direction: Point, speed: real, n: nat): (r: seq<Point>)
    requires IsSqrt(root) && 1 <= n <= |snake|
    ensures |r| == n
    decreases n
  {
    if n == 1 then [MoveHead(snake[0], direction, speed)]
    else
      var done := ResolvedPrefix(root, snake, direction, speed, n - 1);
      done + [Link(root, done[n - 2], snake[n - 1])]
  }

  /**
   * The chain a move should produce: the head advanced by `direction * speed`,
   * and each later segment linked to its already-updated predecessor.
   */
  ghost predicate IsFollowChain(root: real -> real, snake: seq<Point>, direction: Point, speed: real, r: seq<Point>)
    requires IsSqrt(root)
  {
    |r| == |snake| && 0 < |r| &&
    r[0] == MoveHead(snake[0], direction, speed) &&
    forall i :: 1 <= i < |r| ==> r[i] == Link(root, r[i - 1], snake[i])
  }

  lemma {:induction false} ResolvedPrefixLinks(root: real -> real, snake: seq<Point>, direction: Point, speed: real, n: nat)
    requires IsSqrt(root) && 1 <= n <= |snake|
    ensures ResolvedPrefix(root, snake, direction, speed, n)[0] == MoveHead(snake[0], direction, speed)
    ensures forall i :: 1 <= i < n ==>
              ResolvedPrefix(root, snake, direction, speed, n)[i]
                == Link(root, ResolvedPrefix(root, snake, direction, speed, n)[i - 1], snake[i])
    decreases n
  {
    if n > 1 {
      ResolvedPrefixLinks(root, snake, direction, speed, n - 1);
      var done := ResolvedPrefix(root, snake, direction, speed, n - 1);
      var r := ResolvedPrefix(root, snake, direction, speed, n);
      assert r == done + [Link(root, done[n - 2], snake[n - 1])];
      forall i | 1 <= i < n
        ensures r[i] == Link(root, r[i - 1], snake[i])
      {
        if i < n - 1 {
          assert r[i] == done[i] && r[i - 1] == done[i - 1];
        }
      }
    }
  }

  /** resolveSnakeMovement: the snake after one frame of movement. */
  function Resolve(root: real -> real, snake: seq<Point>, direction: Point, speed: real): (r: seq<Point>)
    requires IsSqrt(root) && 0 < |snake|
    ensures IsFollowChain(root, snake, direction, speed, r)
  {
    ResolvedPrefixLinks(root, snake, direction, speed, |snake|);
    ResolvedPrefix(root, snake, direction, speed, |snake|)
  }

  /** The walk is deterministic: `Resolve` is the only chain a move may produce. */
  lemma {:induction false} FollowChainUnique(root: real -> real, snake: seq<Point>, direction: Point, speed: real, r: seq<Point>)
    requires IsSqrt(root) && IsFollowChain(root, snake, direction, speed, r)
    ensures r == Resolve(root, snake, direction, speed)
  {
    var s := Resolve(root, snake, direction, speed);
    forall k | 0 <= k < |r|
      ensures r[k] == s[k]
    {
      SameUpTo(root, snake, direction, speed, r, s, k);
    }
  }

  lemma {:induction false} SameUpTo(root: real -> real, snake: seq<Point>, direction: Point, speed: real, r: seq<Point>, s: seq<Point>, k: nat)
    requires IsSqrt(root)
    requires IsFollowChain(root, snake, direction, speed, r) && IsFollowChain(root, snake, direction, speed, s)
    requires k < |r|
    ensures r[k] == s[k]
    decreases k
  {
    if k > 0 {
      SameUpTo(root, snake, direction, speed, r, s, k - 1);
    }
  }

  /**
   * After a move no two consecutive segments are farther apart than
   * SEGMENT_DISTANCE; a segment that was within reach of its moved
   * predecessor keeps its old position, and a pulled one sits at exactly
   * SEGMENT_DISTANCE on the ray towards its old position.
   */
  lemma ResolveLinks(root: real -> real, snake: seq<Point>, direction: Point, speed: real, i: nat)
    requires IsSqrt(root) && 1 <= i < |snake|
    ensures var r := Resolve(root, snake, direction, speed);
      DistSq(r[i - 1], r[i]) <= SEGMENT_DISTANCE * SEGMENT_DISTANCE &&
      (DistSq(r[i - 1], snake[i]) <= SEGMENT_DISTANCE * SEGMENT_DISTANCE ==> r[i] == snake[i]) &&
      (DistSq(r[i - 1], snake[i]) > SEGMENT_DISTANCE * SEGMENT_DISTANCE ==>
         DistSq(r[i - 1], r[i]) == SEGMENT_DISTANCE * SEGMENT_DISTANCE && OnRay(r[i - 1], snake[i], r[i]))
  {
    var r := Resolve(root, snake, direction, speed);
    assert r[i] == Link(root, r[i - 1], snake[i]);
  }

  /**
   * The loop of resolveSnakeMovement: a copy of the snake whose head is
   * moved and whose body segments are then pulled one after the other.
   */
  method ResolveSnakeMovement(root: real -> real, snake: seq<Point>, direction: Point, speed: real)
    returns (moved: seq<Point>)
    requires IsSqrt(root) && 0 < |snake|
    ensures moved == Resolve(root, snake, direction, speed)
  {
    moved := snake;
    moved := moved[0 := MoveHead(snake[0], direction, speed)];
    var i := 1;
    while i < |moved|
      invariant 1 <= i <= |snake| && |moved| == |snake|
      invariant moved == ResolvedPrefix(root, snake, direction, speed, i) + snake[i..]
    {
      var prev, curr := moved[i - 1], moved[i];
      if DistSq(prev, curr) > SEGMENT_DISTANCE * SEGMENT_DISTANCE {
        moved := moved[i := Pull(root, prev, curr)];
      }
      i := i + 1;
    }
  }

  /** The default number of segments next to the head that never collide. */
  const GRACE_PERIOD: nat := 10

  /**
   * The head is strictly closer than SEGMENT_DISTANCE / 2 to some segment at
   * index `gracePeriod` or later.
   */
  predicate SelfCollides(snake: seq<Point>, gracePeriod: nat) {
    gracePeriod < |snake| &&
    exists i :: gracePeriod <= i < |snake| &&
      DistSq(snake[0], snake[i]) < (SEGMENT_DISTANCE / 2.0) * (SEGMENT_DISTANCE / 2.0)
  }

  /** checkSelfCollision: a scan from `gracePeriod` that stops at the first hit. */
  method CheckSelfCollision(snake: seq<Point>, gracePeriod: nat) returns (hit: bool)
    ensures hit == SelfCollides(snake, gracePeriod)
    ensures |snake| <= gracePeriod ==> !hit
  {
    if |snake| <= gracePeriod {
      return false;
    }
    var head := snake[0];
    var i := gracePeriod;
    while i < |snake|
      invariant gracePeriod <= i <= |snake|
      invariant forall j :: gracePeriod <= j < i ==>
                  DistSq(head, snake[j]) >= (SEGMENT_DISTANCE / 2.0) * (SEGMENT_DISTANCE / 2.0)
    {
      if DistSq(head, snake[i]) < (SEGMENT_DISTANCE / 2.0) * (SEGMENT_DISTANCE / 2.0) {
        return true;
      }
      i := i + 1;
    }
    return false;
  }

  /**
   * Segments 1 .. gracePeriod - 1 never take part: two snakes with the same
   * head and the same segments from `gracePeriod` on collide alike.
   */
  lemma NeckIgnored(a: seq<Point>, b: seq<Point>, gracePeriod: nat)
    requires |a| == |b| && 0 < |a| && a[0] == b[0]
    requires forall i :: gracePeriod <= i < |a| ==> a[i] == b[i]
    ensures SelfCollides(a, gracePeriod) == SelfCollides(b, gracePeriod)
  {
  }
}
