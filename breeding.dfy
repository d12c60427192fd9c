/**
  Crossover: every ordered pair (j, k) of distinct parents yields the child
  (parents[j].x, parents[k].y). The children go into a 12-slot buffer in the
  order the nested loops visit the pairs, then all of them are appended to the
  population.
*/
module Breeding {
  import opened Points

  /** The size of the population between generations. */
  const ParentCount: nat := 4
  /** `number_children`: one child per ordered pair of distinct parents. */
  const ChildCount: nat := 12
  /** Parents followed by children. */
  const PoolSize: nat := 16

  /** The ordered pair (j, k) whose child lands in `slot`: the nested loops
      visit j in order, then k in order, skipping k == j. */
  function ParentPair(slot: nat): (jk: (nat, nat))
    requires slot < ChildCount
    ensures jk.0 < ParentCount && jk.1 < ParentCount && jk.0 != jk.1
  {
    var j := slot / 3;
    var m := slot % 3;
    (j, if m < j then m else m + 1)
  }

  /** The slot that the pair (j, k) is written to: the value of `count` when
      the loops reach it. */
  function SlotOf(j: nat, k: nat): (slot: nat)
    requires j < ParentCount && k < ParentCount && j != k
    ensures slot < ChildCount
    ensures ParentPair(slot) == (j, k)
  {
    3 * j + (if k < j then k else k - 1)
  }

  /** Every slot belongs to exactly one pair: SlotOf and ParentPair are
      inverse bijections between the 12 slots and the 12 pairs. */
  lemma SlotOfParentPair(slot: nat)
    requires slot < ChildCount
    ensures SlotOf(ParentPair(slot).0, ParentPair(slot).1) == slot
  {
  }

  /** The slots follow the lexicographic order of the pairs: first by j, then by k. */
  lemma ParentPairsAscending(s1: nat, s2: nat)
    requires s1 < s2 < ChildCount
    ensures var (j1, k1) := ParentPair(s1);
            var (j2, k2) := ParentPair(s2);
            j1 < j2 || (j1 == j2 && k1 < k2)
  {
  }

  /** The children the crossover loops leave in the buffer, slot by slot:
      twelve points, each with a current fitness. */
  function Children(f: Objective, parents: seq<Point>): (cs: seq<Point>)
    requires |parents| == ParentCount
    ensures |cs| == ChildCount
    ensures AllEvaluated(f, cs)
  {
    seq(ChildCount, slot requires 0 <= slot < ChildCount =>
      MakePoint(f, parents[ParentPair(slot).0].x, parents[ParentPair(slot).1].y))
  }

  /** The pool after crossover: the parents, in their order, then the children.
      It holds sixteen points and starts with the parents unchanged. */
  function OffspringPool(f: Objective, parents: seq<Point>): (pool: seq<Point>)
    requires |parents| == ParentCount
    ensures |pool| == PoolSize
    ensures pool[..ParentCount] == parents
  {
    parents + Children(f, parents)
  }

  /** Each child combines the x of one parent with the y of a different parent,
      and its fitness is current. */
  lemma ChildrenAreRecombinations(f: Objective, parents: seq<Point>, slot: nat)
    requires |parents| == ParentCount && slot < ChildCount
    ensures |Children(f, parents)| == ChildCount
    ensures exists j, k :: 0 <= j < ParentCount && 0 <= k < ParentCount && j != k &&
              Children(f, parents)[slot] == MakePoint(f, parents[j].x, parents[k].y)
    ensures Evaluated(f, Children(f, parents)[slot])
  {
    var (j, k) := ParentPair(slot);
    assert Children(f, parents)[slot] == MakePoint(f, parents[j].x, parents[k].y);
  }

  /** Every ordered pair of distinct parents has its child, at slot SlotOf(j, k). */
  lemma ChildrenCoverAllPairs(f: Objective, parents: seq<Point>, j: nat, k: nat)
    requires |parents| == ParentCount
    requires j < ParentCount && k < ParentCount && j != k
    ensures Children(f, parents)[SlotOf(j, k)] == MakePoint(f, parents[j].x, parents[k].y)
  {
  }

  /** The pool has 16 points, starts with the parents unchanged and in order,
      and every point of it has a current fitness when the parents do. */
  lemma OffspringPoolShape(f: Objective, parents: seq<Point>)
    requires |parents| == ParentCount
    ensures |OffspringPool(f, parents)| == PoolSize
    ensures OffspringPool(f, parents)[..ParentCount] == parents
    ensures forall slot :: 0 <= slot < ChildCount ==>
              OffspringPool(f, parents)[ParentCount + slot] == Children(f, parents)[slot]
    ensures AllEvaluated(f, parents) ==> AllEvaluated(f, OffspringPool(f, parents))
  {
  }

  /** The crossover step: the nested loops write the 12 children into the
      buffer through `count`, then each child is appended to the population. */
  method Crossover(f: Objective, population: seq<Point>, children: array<Point>) returns (pool: seq<Point>)
    requires |population| == ParentCount && children.Length == ChildCount
    modifies children
    ensures children[..] == Children(f, population)
    ensures pool == OffspringPool(f, population)
  {
    var count := 0;
    for j := 0 to ParentCount
      invariant count == 3 * j
      invariant forall c :: 0 <= c < count ==> children[c] == Children(f, population)[c]
    {
      for k := 0 to ParentCount
        invariant count == 3 * j + (if k <= j then k else k - 1)
        invariant forall c :: 0 <= c < count ==> children[c] == Children(f, population)[c]
      {
        if j == k {
          continue;
        }
        assert count == SlotOf(j, k);
        children[count] := MakePoint(f, population[j].x, population[k].y);
        count := count + 1;
      }
    }
    assert children[..] == Children(f, population);
    pool := population;
    for c := 0 to ChildCount
      invariant pool == population + children[..c]
    {
      pool := pool + [children[c]];
    }
    assert children[..ChildCount] == children[..];
  }
}
