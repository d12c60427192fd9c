/**
  The `Point` value type: a candidate `(x, y)` with its cached fitness, and the
  ordering on it that `std::sort` uses.
*/
module Points {

  /** The objective being maximised. Both the global `function` and the `func`
      argument of the loop stand for this one parameter. */
  type Objective = (real, real) -> real

  datatype Point = Point(x: real, y: real, fit: real)

  /** The cached fitness agrees with the coordinates. */
  predicate Evaluated(f: Objective, p: Point) {
    p.fit == f(p.x, p.y)
  }

  predicate AllEvaluated(f: Objective, s: seq<Point>) {
    forall i :: 0 <= i < |s| ==> Evaluated(f, s[i])
  }

  /** `Point(x1, y1)`: stores the coordinates and evaluates the objective on them. */
  function MakePoint(f: Objective, x1: real, y1: real): (p: Point)
    ensures p.x == x1 && p.y == y1
    ensures Evaluated(f, p)
  {
    Point(x1, y1, f(x1, y1))
  }

  /** `target = point`: the target takes the source's coordinates and recomputes
      its fitness, whatever the source's cached fitness was. Nothing of the old
      target survives, so the target is not a parameter. */
  function Assign(f: Objective, point: Point): (p: Point)
    ensures p.x == point.x && p.y == point.y
    ensures Evaluated(f, p)
    ensures p == point <==> Evaluated(f, point)
  {
    MakePoint(f, point.x, point.y)
  }

  /** The round-trip form of the last ensures of `Assign`, which is
      `MakePoint` on the source's coordinates: rebuilding a point from its own
      coordinates gives the point back exactly when its cached fitness was
      current. */
  lemma ReconstructFromCoordinates(f: Objective, p: Point)
    ensures MakePoint(f, p.x, p.y) == p <==> Evaluated(f, p)
  {
  }

  /** `operator<`: compares the cached fitness only. A point is never below
      itself, and a point that is not below another is at least as fit. */
  predicate Less(p: Point, q: Point): (b: bool)
    ensures b ==> p != q
    ensures !b ==> q.fit <= p.fit
  {
    p.fit < q.fit
  }

  /** Points with the same fitness are interchangeable for the ordering,
      whatever their coordinates. */
  lemma LessIgnoresCoordinates(p: Point, q: Point, p': Point, q': Point)
    requires p.fit == p'.fit && q.fit == q'.fit
    ensures Less(p, q) <==> Less(p', q')
  {
  }

  /** `operator<` is a strict weak ordering, as `std::sort` demands of it:
      irreflexive, transitive, and with transitive incomparability, which is
      equality of fitness. */
  lemma LessIsStrictWeakOrder(p: Point, q: Point, r: Point)
    ensures !Less(p, p)
    ensures Less(p, q) ==> !Less(q, p)
    ensures Less(p, q) && Less(q, r) ==> Less(p, r)
    ensures (!Less(p, q) && !Less(q, p)) <==> p.fit == q.fit
    ensures (!Less(p, q) && !Less(q, p)) && (!Less(q, r) && !Less(r, q)) ==> !Less(p, r) && !Less(r, p)
  {
  }
}
