/**
  `random`, `random_point` and `fill_population`. The random engine is not
  modelled: every draw of `std::uniform_real_distribution` is an input, given as
  the fraction `u` in [0, 1) of the interval at which the draw lands.
*/
module Sampling {
  import opened Results
  import opened Points

  /** One canonical draw of the engine. */
  type UnitDraw = u: real | 0.0 <= u < 1.0

  /** The share `u` of a positive width `w`. */
  function Scaled(w: real, u: UnitDraw): (r: real)
    requires w > 0.0
    ensures 0.0 <= r < w
  {
    assert w * (1.0 - u) > 0.0;
    w * u
  }

  /** The value a uniform draw lands on in the half-open interval [a, b). */
  function Uniform(a: real, b: real, u: UnitDraw): (r: real)
    requires a < b
    ensures a <= r < b
  {
    a + Scaled(b - a, u)
  }

  /** `random(a, b)`: rejects an empty interval, otherwise a value in [a, b). */
  function Random(a: real, b: real, u: UnitDraw): (r: Result<real>)
    ensures r.Failure? <==> a >= b
    ensures r.Failure? ==> r.error == InvalidArgument
    ensures r.Success? ==> a <= r.value < b && r.value == Uniform(a, b, u)
  {
    if a >= b then Failure(InvalidArgument) else Success(Uniform(a, b, u))
  }

  /** The two draws of one `random_point` call, for x and for y. */
  datatype SampleDraw = SampleDraw(xDraw: UnitDraw, yDraw: UnitDraw)

  /** `random_point(x1, x2, y1, y2)`: a point of the rectangle [x1, x2) x [y1, y2),
      or the error of whichever `random` call rejects its interval. */
  function RandomPoint(f: Objective, x1: real, x2: real, y1: real, y2: real, d: SampleDraw): (r: Result<Point>)
    ensures r.Failure? <==> (x1 >= x2 || y1 >= y2)
    ensures r.Failure? ==> r.error == InvalidArgument
    ensures r.Success? ==> Evaluated(f, r.value)
    ensures r.Success? ==> x1 <= r.value.x < x2 && y1 <= r.value.y < y2
  {
    var rx := Random(x1, x2, d.xDraw);
    var ry := Random(y1, y2, d.yDraw);
    if rx.Failure? then Failure(rx.error)
    else if ry.Failure? then Failure(ry.error)
    else Success(MakePoint(f, rx.value, ry.value))
  }

  /** `number_of_points` */
  const NumberOfPoints: nat := 4

  /** `fill_population`: four sampled points, one `push_back` at a time; the
      first call of `random` on an empty interval aborts the whole build. */
  method FillPopulation(f: Objective, x1: real, x2: real, y1: real, y2: real, draws: seq<SampleDraw>)
    returns (r: Result<seq<Point>>)
    requires |draws| == NumberOfPoints
    ensures r.Failure? <==> (x1 >= x2 || y1 >= y2)
    ensures r.Failure? ==> r.error == InvalidArgument
    ensures r.Success? ==> |r.value| == NumberOfPoints
    ensures r.Success? ==> forall i :: 0 <= i < NumberOfPoints ==>
              RandomPoint(f, x1, x2, y1, y2, draws[i]) == Success(r.value[i])
    ensures r.Success? ==> AllEvaluated(f, r.value)
    ensures r.Success? ==> forall i :: 0 <= i < NumberOfPoints ==>
              x1 <= r.value[i].x < x2 && y1 <= r.value[i].y < y2
  {
    var result: seq<Point> := [];
    for i := 0 to NumberOfPoints
      invariant |result| == i
      invariant i > 0 ==> x1 < x2 && y1 < y2
      invariant forall k :: 0 <= k < i ==> RandomPoint(f, x1, x2, y1, y2, draws[k]) == Success(result[k])
    {
      var p := RandomPoint(f, x1, x2, y1, y2, draws[i]);
      if p.Failure? {
        return Failure(p.error);
      }
      result := result + [p.value];
    }
    return Success(result);
  }
}
