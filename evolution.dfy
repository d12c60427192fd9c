/**
  The generational loop of `genetic_algorithm`: build a population, then for
  each generation breed a pool of sixteen, mutate it, sort it, keep the four
  fittest and report them.
*/
module Evolution {
  import opened Results
  import opened Points
  import opened Sampling
  import opened Breeding
  import opened Mutation
  import opened Selection

  /** `number_generation` */
  const NumberGeneration: nat := 1000

  /** The pool a generation sorts: the crossover pool after mutation. */
  function Bred(f: Objective, population: seq<Point>, draws: seq<MutationDraw>): (pool: seq<Point>)
    requires |population| == ParentCount && |draws| == PoolSize
  {
    MutatedPool(f, OffspringPool(f, population), draws)
  }

  /** One pass of the generation loop's body. The children buffer is the one
      allocated before the loop and reused by every generation. */
  method Generation(f: Objective, population: seq<Point>, children: array<Point>, draws: seq<MutationDraw>)
    returns (next: seq<Point>)
    requires |population| == ParentCount && AllEvaluated(f, population)
    requires children.Length == ChildCount && |draws| == PoolSize
    modifies children
    ensures children[..] == Children(f, population)
    ensures KeepsFittest(Bred(f, population, draws), next)
    ensures AllEvaluated(f, next)
  {
    var pool := Crossover(f, population, children);
    OffspringPoolShape(f, population);
    var buffer := new Point[PoolSize](i requires 0 <= i < PoolSize => pool[i]);
    assert buffer[..] == pool;
    Mutate(f, buffer, draws);
    MutatedPoolShape(f, pool, draws);
    ghost var mutated := buffer[..];
    SortByFitness(buffer);
    PermutationKeepsEvaluated(f, mutated, buffer[..]);
    next := Select(f, buffer);
    TopOfSortedKeepsFittest(f, buffer[..], next);
  }

  /** With no mutation firing, a generation keeps the best parent or something
      at least as fit, and every survivor is a parent or one of the twelve
      recombinations of the parents. */
  lemma QuietGenerationKeepsBest(f: Objective, population: seq<Point>, draws: seq<MutationDraw>, next: seq<Point>)
    requires |population| == ParentCount && |draws| == PoolSize
    requires forall i :: 0 <= i < PoolSize ==> !Fires(draws[i])
    requires KeepsFittest(Bred(f, population, draws), next)
    ensures forall i :: 0 <= i < ParentCount ==> population[i].fit <= next[0].fit
    ensures forall i :: 0 <= i < SurvivorCount ==> next[i] in OffspringPool(f, population)
  {
    var pool := OffspringPool(f, population);
    OffspringPoolShape(f, population);
    MutatedPoolShape(f, pool, draws);
    assert Bred(f, population, draws) == pool;
    forall i | 0 <= i < ParentCount
      ensures population[i].fit <= next[0].fit
    {
      assert pool[i] == population[i];
      FirstIsFittest(pool, next, population[i]);
    }
    forall i | 0 <= i < SurvivorCount
      ensures next[i] in pool
    {
      assert next[i] in multiset(next);
    }
  }

  /** `history` is the start of a run driven by `mutations`: every population
      in it has four points with current fitness, and each one after the first
      keeps the fittest four of the pool bred from the one before, using the
      draws of its generation. */
  ghost predicate IsRun(f: Objective, history: seq<seq<Point>>, mutations: seq<seq<MutationDraw>>)
    decreases |history|
  {
    && |history| >= 1
    && |history[|history| - 1]| == ParentCount
    && AllEvaluated(f, history[|history| - 1])
    && (|history| >= 2 ==>
          && |history| - 2 < |mutations|
          && |mutations[|history| - 2]| == PoolSize
          && IsRun(f, history[..|history| - 1], mutations)
          && KeepsFittest(Bred(f, history[|history| - 2], mutations[|history| - 2]), history[|history| - 1]))
  }

  /** A generation that keeps the fittest of the pool bred from the last
      population extends a run by one population. */
  lemma RunExtends(f: Objective, history: seq<seq<Point>>, mutations: seq<seq<MutationDraw>>, next: seq<Point>)
    requires IsRun(f, history, mutations)
    requires |history| - 1 < |mutations| && |mutations[|history| - 1]| == PoolSize
    requires |next| == ParentCount && AllEvaluated(f, next)
    requires KeepsFittest(Bred(f, history[|history| - 1], mutations[|history| - 1]), next)
    ensures IsRun(f, history + [next], mutations)
  {
    assert (history + [next])[..|history|] == history;
  }

  /** Every population of a run has four points, each with current fitness. */
  lemma {:induction false} RunPopulations(f: Objective, history: seq<seq<Point>>, mutations: seq<seq<MutationDraw>>, g: nat)
    requires IsRun(f, history, mutations) && g < |history|
    ensures |history[g]| == ParentCount && AllEvaluated(f, history[g])
    decreases |history|
  {
    if g < |history| - 1 {
      RunPopulations(f, history[..|history| - 1], mutations, g);
    }
  }

  /** In a run, generation g + 1 keeps the fittest four of the pool bred from
      generation g with the draws of generation g. */
  lemma {:induction false} RunSteps(f: Objective, history: seq<seq<Point>>, mutations: seq<seq<MutationDraw>>, g: nat)
    requires IsRun(f, history, mutations) && g + 1 < |history|
    ensures g < |mutations| && |mutations[g]| == PoolSize && |history[g]| == ParentCount
    ensures KeepsFittest(Bred(f, history[g], mutations[g]), history[g + 1])
    decreases |history|
  {
    if g + 2 < |history| {
      RunSteps(f, history[..|history| - 1], mutations, g);
    } else {
      RunPopulations(f, history, mutations, g);
    }
  }

  /** `genetic_algorithm`: the whole run. The result lists the initial
      population followed by the population reported after each generation;
      a rejected rectangle aborts the run before any generation. */
  method GeneticAlgorithm(f: Objective, x1: real, x2: real, y1: real, y2: real,
                          samples: seq<SampleDraw>, mutations: seq<seq<MutationDraw>>)
    returns (r: Result<seq<seq<Point>>>)
    requires |samples| == NumberOfPoints
    requires |mutations| == NumberGeneration
    requires forall g :: 0 <= g < NumberGeneration ==> |mutations[g]| == PoolSize
    ensures r.Failure? <==> (x1 >= x2 || y1 >= y2)
    ensures r.Failure? ==> r.error == InvalidArgument
    ensures r.Success? ==> |r.value| == NumberGeneration + 1 && IsRun(f, r.value, mutations)
    ensures r.Success? ==> |r.value[0]| == NumberOfPoints && forall i :: 0 <= i < NumberOfPoints ==>
              RandomPoint(f, x1, x2, y1, y2, samples[i]) == Success(r.value[0][i])
  {
    var initial := FillPopulation(f, x1, x2, y1, y2, samples);
    if initial.Failure? {
      return Failure(initial.error);
    }
    var population := initial.value;
    var children := new Point[ChildCount](_ => Point(0.0, 0.0, 0.0));
    var history := [population];
    for g := 0 to NumberGeneration
      invariant |history| == g + 1
      invariant history[0] == initial.value
      invariant history[g] == population
      invariant IsRun(f, history, mutations)
    {
      var next := Generation(f, population, children, mutations[g]);
      RunExtends(f, history, mutations, next);
      history := history + [next];
      population := next;
    }
    return Success(history);
  }
}
