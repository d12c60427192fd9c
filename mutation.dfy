/**
  Mutation: each point of the pool, one after the other, draws a chance; when
  the chance is below the mutation probability the point gets a new x, then a
  new y computed from that new x, then a recomputed fitness.
*/
module Mutation {
  import opened Points
  import opened Sampling

  /** `probability` */
  const Probability: real := 0.3
  /** `left_mutation_number`, `right_mutation_number`: the range of the scale factors. */
  const LeftMutationNumber: real := -100.0
  const RightMutationNumber: real := 100.0

  /** `fmod(a, 2)`: a minus the multiple of 2 obtained by rounding a / 2 toward
      zero, written as repeated subtraction of 2 toward zero. The result keeps
      the sign of a and is smaller than 2 in magnitude. */
  function FmodTwo(a: real): (r: real)
    ensures -2.0 < r < 2.0
    ensures a >= 0.0 ==> r >= 0.0
    ensures a <= 0.0 ==> r <= 0.0
    ensures -2.0 < a < 2.0 ==> r == a
    decreases if a >= 0.0 then a.Floor else (-a).Floor
  {
    if a >= 2.0 then FmodTwo(a - 2.0)
    else if a <= -2.0 then FmodTwo(a + 2.0)
    else a
  }

  /** The quotient a / 2 rounded toward zero, as C's `fmod` defines it. */
  function TruncatedHalf(a: real): int
  {
    if a >= 0.0 then (a / 2.0).Floor else -((-a / 2.0).Floor)
  }

  /** The repeated subtraction agrees with C's definition of `fmod(a, 2)`:
      a - 2 * n, with n the quotient a / 2 rounded toward zero. */
  lemma {:induction false} FmodTwoIsTruncatedRemainder(a: real)
    ensures FmodTwo(a) == a - 2.0 * TruncatedHalf(a) as real
    decreases if a >= 0.0 then a.Floor else (-a).Floor
  {
    if a >= 2.0 {
      FmodTwoIsTruncatedRemainder(a - 2.0);
      assert TruncatedHalf(a - 2.0) == TruncatedHalf(a) - 1;
    } else if a <= -2.0 {
      FmodTwoIsTruncatedRemainder(a + 2.0);
      assert TruncatedHalf(a + 2.0) == TruncatedHalf(a) + 1;
    } else {
      assert TruncatedHalf(a) == 0;
    }
  }

  /** The three draws one point of the pool may consume: the chance, then the
      scale factors for x and y (taken only when the point mutates). */
  datatype MutationDraw = MutationDraw(chance: UnitDraw, xScale: UnitDraw, yScale: UnitDraw)

  /** `random(0, 1) < probability`. The draw over [0, 1) is the unit draw
      itself, so a point mutates exactly when its chance is below the probability. */
  predicate Fires(d: MutationDraw): (b: bool)
    ensures b <==> d.chance < Probability
  {
    Uniform(0.0, 1.0, d.chance) < Probability
  }

  /** `fmod(v * random(left_mutation_number, right_mutation_number), 2)`: one
      coordinate's new value, from the value it is computed from and a scale draw. */
  function Perturb(v: real, u: UnitDraw): (r: real)
    ensures -2.0 < r < 2.0
  {
    FmodTwo(v * Uniform(LeftMutationNumber, RightMutationNumber, u))
  }

  /** What mutation makes of one point. A coordinate changes only when the
      point mutates, and a current fitness stays current. */
  function Mutated(f: Objective, p: Point, d: MutationDraw): (q: Point)
    ensures q.x != p.x || q.y != p.y ==> Fires(d)
    ensures Evaluated(f, p) ==> Evaluated(f, q)
  {
    if Fires(d) then
      var x := Perturb(p.x, d.xScale);
      var y := Perturb(x, d.yScale);
      Point(x, y, f(x, y))
    else
      p
  }

  /** What mutation makes of a whole pool, point by point: the pool keeps its
      length, and a point moves only when its own draw fires. */
  function MutatedPool(f: Objective, pool: seq<Point>, draws: seq<MutationDraw>): (r: seq<Point>)
    requires |draws| == |pool|
    ensures |r| == |pool|
    ensures forall i :: 0 <= i < |pool| && (r[i].x != pool[i].x || r[i].y != pool[i].y) ==> Fires(draws[i])
  {
    seq(|pool|, i requires 0 <= i < |pool| => Mutated(f, pool[i], draws[i]))
  }

  /** A point whose chance is not below the probability is left exactly as it was. */
  lemma UnfiredPointUnchanged(f: Objective, p: Point, d: MutationDraw)
    requires !Fires(d)
    ensures Mutated(f, p, d) == p
  {
  }

  /** A mutated point has coordinates in (-2, 2), a y that is derived from its
      new x (not from its old y), and a current fitness. */
  lemma FiredPointReevaluated(f: Objective, p: Point, d: MutationDraw)
    requires Fires(d)
    ensures var q := Mutated(f, p, d);
            && -2.0 < q.x < 2.0 && -2.0 < q.y < 2.0
            && q.x == Perturb(p.x, d.xScale)
            && q.y == Perturb(q.x, d.yScale)
            && Evaluated(f, q)
  {
  }

  /** Because the new y is computed from the new x, a point whose new x is 0
      gets y == 0 whatever its old y and its y scale. */
  lemma NewYFollowsNewX(f: Objective, p: Point, d: MutationDraw)
    requires Fires(d)
    requires Mutated(f, p, d).x == 0.0
    ensures Mutated(f, p, d).y == 0.0
  {
  }

  /** Mutation keeps the pool's length and every point's fitness current; the
      points whose draws do not fire stay where they were, unchanged. */
  lemma MutatedPoolShape(f: Objective, pool: seq<Point>, draws: seq<MutationDraw>)
    requires |draws| == |pool|
    ensures |MutatedPool(f, pool, draws)| == |pool|
    ensures forall i :: 0 <= i < |pool| && !Fires(draws[i]) ==> MutatedPool(f, pool, draws)[i] == pool[i]
    ensures AllEvaluated(f, pool) ==> AllEvaluated(f, MutatedPool(f, pool, draws))
  {
  }

  /** The mutation loop, which changes the pool's points in place. */
  method Mutate(f: Objective, pool: array<Point>, draws: seq<MutationDraw>)
    requires |draws| == pool.Length
    modifies pool
    ensures pool[..] == MutatedPool(f, old(pool[..]), draws)
  {
    for i := 0 to pool.Length
      invariant forall k :: 0 <= k < i ==> pool[k] == Mutated(f, old(pool[k]), draws[k])
      invariant forall k :: i <= k < pool.Length ==> pool[k] == old(pool[k])
    {
      var bufProb := Uniform(0.0, 1.0, draws[i].chance);
      if bufProb < Probability {
        pool[i] := pool[i].(x := Perturb(pool[i].x, draws[i].xScale));
        pool[i] := pool[i].(y := Perturb(pool[i].x, draws[i].yScale));
        pool[i] := pool[i].(fit := f(pool[i].x, pool[i].y));
      }
    }
  }
}
