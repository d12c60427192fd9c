/**
  Selection: the pool is sorted ascending by fitness with `operator<`, then the
  points at indices 15, 14, 13 and 12 are assigned, in that order, to a new
  population of four.
*/
module Selection {
  import opened Points
  import opened Breeding

  /** The size of the new population. */
  const SurvivorCount: nat := 4

  /** Ascending by fitness; the order among equal fitness is left open. */
  ghost predicate SortedByFitness(s: seq<Point>) {
    forall i, j :: 0 <= i < j < |s| ==> s[i].fit <= s[j].fit
  }

  /** Descending by fitness. */
  ghost predicate FittestFirst(s: seq<Point>) {
    forall i, j :: 0 <= i < j < |s| ==> s[i].fit >= s[j].fit
  }

  /** `chosen` is four points of `pool`, fittest first, and no point left out of
      it is fitter than the least fit point kept. Which of several points of
      equal fitness are kept is left open. */
  ghost predicate KeepsFittest(pool: seq<Point>, chosen: seq<Point>) {
    && |chosen| == SurvivorCount
    && multiset(chosen) <= multiset(pool)
    && FittestFirst(chosen)
    && forall q :: q in multiset(pool) - multiset(chosen) ==> q.fit <= chosen[SurvivorCount - 1].fit
  }

  /** `std::sort(population.begin(), population.end())`: rearranges the pool
      into ascending order of `operator<`. Written as an insertion sort; only
      the sorted order and the permutation are promised, as `std::sort` is not
      stable. */
  method SortByFitness(a: array<Point>)
    modifies a
    ensures SortedByFitness(a[..])
    ensures multiset(a[..]) == old(multiset(a[..]))
  {
    if a.Length == 0 {
      return;
    }
    for i := 1 to a.Length
      invariant forall p, q :: 0 <= p < q < i ==> a[p].fit <= a[q].fit
      invariant multiset(a[..]) == old(multiset(a[..]))
    {
      var j := i;
      while j > 0 && Less(a[j], a[j - 1])
        invariant 0 <= j <= i
        invariant forall p, q :: 0 <= p < q <= i && q != j ==> a[p].fit <= a[q].fit
        invariant multiset(a[..]) == old(multiset(a[..]))
      {
        a[j - 1], a[j] := a[j], a[j - 1];
        j := j - 1;
      }
    }
  }

  /** The copy into `new_population`: `count` runs from 15 down to 12 and each
      point is assigned with `Point::operator=`. */
  method Select(f: Objective, pool: array<Point>) returns (newPopulation: seq<Point>)
    requires pool.Length == PoolSize
    ensures |newPopulation| == SurvivorCount
    ensures forall i :: 0 <= i < SurvivorCount ==> newPopulation[i] == Assign(f, pool[PoolSize - 1 - i])
  {
    var buffer := new Point[SurvivorCount](_ => Point(0.0, 0.0, 0.0));
    var count := PoolSize - 1;
    for i := 0 to SurvivorCount
      invariant count == PoolSize - 1 - i
      invariant forall k :: 0 <= k < i ==> buffer[k] == Assign(f, pool[PoolSize - 1 - k])
    {
      buffer[i] := Assign(f, pool[count]);
      count := count - 1;
    }
    newPopulation := buffer[..];
  }

  /** Rearranging points keeps every fitness current. */
  lemma PermutationKeepsEvaluated(f: Objective, s: seq<Point>, t: seq<Point>)
    requires multiset(s) == multiset(t) && AllEvaluated(f, s)
    ensures AllEvaluated(f, t)
  {
    forall i | 0 <= i < |t|
      ensures Evaluated(f, t[i])
    {
      assert t[i] in multiset(s);
    }
  }

  /** Listing four points backwards keeps the same points. */
  lemma ReversedFourSameMultiset(s: seq<Point>)
    requires |s| == 4
    ensures multiset([s[3], s[2], s[1], s[0]]) == multiset(s)
  {
    assert s == [s[0]] + [s[1]] + [s[2]] + [s[3]];
    assert [s[3], s[2], s[1], s[0]] == [s[3]] + [s[2]] + [s[1]] + [s[0]];
  }

  /** Assigning points whose fitness is current copies them unchanged. */
  lemma AssignedLastFour(f: Objective, sorted: seq<Point>, chosen: seq<Point>)
    requires |sorted| == PoolSize && AllEvaluated(f, sorted)
    requires |chosen| == SurvivorCount
    requires forall i :: 0 <= i < SurvivorCount ==> chosen[i] == Assign(f, sorted[PoolSize - 1 - i])
    ensures chosen == [sorted[15], sorted[14], sorted[13], sorted[12]]
  {
    forall i | 0 <= i < SurvivorCount
      ensures chosen[i] == sorted[PoolSize - 1 - i]
    {
      assert Evaluated(f, sorted[PoolSize - 1 - i]);
    }
  }

  /** The last four, last first, are the pool minus its first twelve. */
  lemma LastFourSplit(sorted: seq<Point>, chosen: seq<Point>)
    requires |sorted| == PoolSize
    requires chosen == [sorted[15], sorted[14], sorted[13], sorted[12]]
    ensures multiset(chosen) <= multiset(sorted)
    ensures multiset(sorted) - multiset(chosen) == multiset(sorted[..PoolSize - SurvivorCount])
  {
    var low, high := sorted[..PoolSize - SurvivorCount], sorted[PoolSize - SurvivorCount..];
    ReversedFourSameMultiset(high);
    assert sorted == low + high;
  }

  /** The last four of a sorted pool, last first, are fittest first. */
  lemma LastFourFittestFirst(sorted: seq<Point>, chosen: seq<Point>)
    requires |sorted| == PoolSize && SortedByFitness(sorted)
    requires chosen == [sorted[15], sorted[14], sorted[13], sorted[12]]
    ensures FittestFirst(chosen)
  {
  }

  /** In a sorted pool, nothing among the first twelve is fitter than index 12. */
  lemma DiscardedNoFitter(sorted: seq<Point>, chosen: seq<Point>)
    requires |sorted| == PoolSize && SortedByFitness(sorted)
    requires |chosen| == SurvivorCount && chosen[SurvivorCount - 1] == sorted[PoolSize - SurvivorCount]
    requires multiset(sorted) - multiset(chosen) == multiset(sorted[..PoolSize - SurvivorCount])
    ensures forall q :: q in multiset(sorted) - multiset(chosen) ==> q.fit <= chosen[SurvivorCount - 1].fit
  {
  }

  /** Taking the last four of a sorted pool of sixteen, last first, keeps the
      fittest four, fittest first: every selected fitness is at least every
      discarded fitness. Assignment changes nothing, as every fitness is current. */
  lemma TopOfSortedKeepsFittest(f: Objective, sorted: seq<Point>, chosen: seq<Point>)
    requires |sorted| == PoolSize && SortedByFitness(sorted) && AllEvaluated(f, sorted)
    requires |chosen| == SurvivorCount
    requires forall i :: 0 <= i < SurvivorCount ==> chosen[i] == Assign(f, sorted[PoolSize - 1 - i])
    ensures KeepsFittest(sorted, chosen)
    ensures AllEvaluated(f, chosen)
  {
    AssignedLastFour(f, sorted, chosen);
    LastFourSplit(sorted, chosen);
    LastFourFittestFirst(sorted, chosen);
    DiscardedNoFitter(sorted, chosen);
  }

  /** The fittest point kept is at least as fit as every point of the pool. */
  lemma FirstIsFittest(pool: seq<Point>, chosen: seq<Point>, q: Point)
    requires KeepsFittest(pool, chosen)
    requires q in pool
    ensures q.fit <= chosen[0].fit
  {
  }
}
