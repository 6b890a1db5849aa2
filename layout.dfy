/**
 * Fixed geometry of the restaurant floor: the 960x540 logical field, the
 * kitchen and counter footprints that reject table placement, the queue
 * slots at the door, where a customer stands at a table, and the distance
 * order used to pick the customer nearest to the counter.
 */
module Layout {

  /** A position on the logical field, in whole pixels. */
  datatype Point = Point(x: int, y: int)

  /** The logical resolution. */
  const Width: int := 960
  const Height: int := 540

  /** An axis-aligned rectangle given, as the scene draws it, by centre and size. */
  datatype Rect = Rect(cx: int, cy: int, w: nat, h: nat)

  const Kitchen: Rect := Rect(120, 120, 200, 120)
  const Counter: Rect := Rect(350, 170, 160, 46)

  /** Closed containment: the edges belong to the rectangle. */
  predicate Contains(r: Rect, p: Point)
  {
    2 * r.cx - r.w <= 2 * p.x <= 2 * r.cx + r.w &&
    2 * r.cy - r.h <= 2 * p.y <= 2 * r.cy + r.h
  }

  /**
   * Containment as the engine tests it on a bounds record given by its
   * top-left corner and size: an empty rectangle holds nothing, and the
   * edges belong to the rectangle.
   */
  predicate BoundsContain(left: int, top: int, width: int, height: int, p: Point)
  {
    width > 0 && height > 0 &&
    left <= p.x <= left + width && top <= p.y <= top + height
  }

  /**
   * A rectangle drawn by its centre reports bounds whose corner is half its
   * size away from the centre; for the even sizes of the kitchen and the
   * counter, testing those bounds is testing `Contains`.
   */
  lemma ContainsMatchesBounds(r: Rect, p: Point)
    requires 0 < r.w && 0 < r.h && r.w % 2 == 0 && r.h % 2 == 0
    ensures Contains(r, p) <==> BoundsContain(r.cx - r.w / 2, r.cy - r.h / 2, r.w, r.h, p)
  {
    assert r.w == 2 * (r.w / 2) && r.h == 2 * (r.h / 2);
  }

  /** Inside the margins the build handler keeps away from the edges. */
  predicate WithinMargins(p: Point)
  {
    80 <= p.x <= Width - 80 && 80 <= p.y <= Height - 60
  }

  /** A rectangle lies wholly on the field, edges included. */
  predicate RectOnField(r: Rect)
  {
    0 <= 2 * r.cx - r.w && 2 * r.cx + r.w <= 2 * Width &&
    0 <= 2 * r.cy - r.h && 2 * r.cy + r.h <= 2 * Height
  }

  /** A circle of radius `radius` around `c` lies wholly on the field. */
  predicate DiscOnField(c: Point, radius: nat)
  {
    radius <= c.x <= Width - radius && radius <= c.y <= Height - radius
  }

  /** A table accepted by the margins lies wholly on the field: its top and both seat circles. */
  lemma MarginsKeepTableOnField(p: Point)
    requires WithinMargins(p)
    ensures RectOnField(TableTop(p))
    ensures forall k :: 0 <= k < Capacity ==> DiscOnField(SeatCentre(p, k), SeatRadius)
  {
  }

  /** A ground click at `p` may place a table (build mode aside). */
  predicate Placeable(p: Point)
  {
    !Contains(Kitchen, p) && !Contains(Counter, p) && WithinMargins(p)
  }

  /** The door anchor and the vertical spacing of the queue. */
  const DoorX: int := Width - 80
  const DoorY: int := Height - 80
  const QueueStep: int := 28

  /** Where the customer at queue index `i` stands. */
  function QueueSlot(i: nat): Point
  {
    Point(DoorX, DoorY - QueueStep * i)
  }

  /** A later place in the queue stands in the same column, at least one step further up. */
  lemma QueueSlotsApart(i: nat, j: nat)
    requires i < j
    ensures QueueSlot(j).x == QueueSlot(i).x && QueueSlot(j).y + QueueStep <= QueueSlot(i).y
  {
  }

  /** Every table has two seats. */
  const Capacity: nat := 2

  /** The top of the table placed at `t`: 64x36, drawn around `t`. */
  function TableTop(t: Point): Rect
  {
    Rect(t.x, t.y, 64, 36)
  }

  /** The radius of a seat circle. */
  const SeatRadius: nat := 12

  /** Centre of seat `k` of the table placed at `t`: 30 px left or right, 28 px below. */
  function SeatCentre(t: Point, k: nat): Point
    requires k < Capacity
  {
    if k == 0 then Point(t.x - 30, t.y + 28) else Point(t.x + 30, t.y + 28)
  }

  /** End point of the walk to seat `k`: 10 px above the seat's centre. */
  function StandPoint(t: Point, k: nat): Point
    requires k < Capacity
  {
    var c := SeatCentre(t, k);
    Point(c.x, c.y - 10)
  }

  /** Squared distance to the counter's centre; it orders points as the Euclidean distance does. */
  function CounterDistance(p: Point): int
  {
    (p.x - Counter.cx) * (p.x - Counter.cx) + (p.y - Counter.cy) * (p.y - Counter.cy)
  }

  /** Squaring keeps the order of non-negative numbers. */
  lemma SquareMonotone(a: real, b: real)
    requires 0.0 <= a && 0.0 <= b
    ensures a <= b <==> a * a <= b * b
  {
    var d, e := b - a, b + a;
    assert b * b - a * a == d * e;
    if a <= b {
      assert 0.0 <= d && 0.0 <= e;
      assert d * e >= 0.0 * e;
    } else {
      assert d < 0.0 && 0.0 < e;
      assert d * e < 0.0 * e;
    }
  }

  /**
   * Squared distances order points as their distances do: for any
   * non-negative `dp` and `dq` whose squares are the squared distances of
   * `p` and `q`, `p` is at most as far as `q` exactly when `dp <= dq`.
   */
  lemma SquaredDistanceOrder(p: Point, q: Point, dp: real, dq: real)
    requires 0.0 <= dp && 0.0 <= dq
    requires dp * dp == CounterDistance(p) as real && dq * dq == CounterDistance(q) as real
    ensures dp <= dq <==> CounterDistance(p) <= CounterDistance(q)
  {
    SquareMonotone(dp, dq);
  }

  /**
   * Index of the first element of `ps` at minimal distance to the counter:
   * the head of a stable sort of `ps` by that distance.
   */
  function NearestIndex(ps: seq<Point>): (k: nat)
    requires |ps| > 0
    ensures k < |ps|
    ensures forall j :: 0 <= j < |ps| ==> CounterDistance(ps[k]) <= CounterDistance(ps[j])
    ensures forall j :: 0 <= j < k ==> CounterDistance(ps[j]) > CounterDistance(ps[k])
  {
    if |ps| == 1 then 0
    else
      var k := NearestIndex(ps[1..]);
      if CounterDistance(ps[0]) <= CounterDistance(ps[1 + k]) then 0 else 1 + k
  }
}
