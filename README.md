# Genetic algorithm over points (x, y), modelled in Dafny

This project models the generational loop of the small genetic algorithm in
`genetic_algorithm.hpp`. Candidates are `Point`s: a coordinate pair with a cached
fitness. The loop starts with four points sampled from a rectangle. Each of its
1000 generations then does the following:

- **Crossover.** Every ordered pair of distinct parents `(j, k)` gives the child
  `(parents[j].x, parents[k].y)`. The 12 children are written into a reused
  12-slot buffer, then appended to the population, making a pool of 16.
- **Mutation.** Each point of the pool mutates with probability 0.3. A mutated
  point gets `x := fmod(x * r1, 2)`, then `y := fmod(x * r2, 2)` computed from
  the *new* x, then a recomputed fitness.
- **Selection.** The pool is sorted ascending by fitness with `std::sort`. The
  points at indices 15, 14, 13 and 12 are then copied, in that order, into the
  next population of four.

The model is split into one module per component:

| file | module | what it holds |
|---|---|---|
| results.dfy | `Results` | the `InvalidArgument` error and a `Result` type |
| points.dfy | `Points` | `Point`, its constructor, copy-assignment and `operator<` |
| sampling.dfy | `Sampling` | `random`, `random_point`, `fill_population` |
| breeding.dfy | `Breeding` | crossover |
| mutation.dfy | `Mutation` | `fmod(·, 2)` and the mutation loop |
| selection.dfy | `Selection` | the sort and the copy into the new population |
| evolution.dfy | `Evolution` | one generation and the whole run |

How the model sees the program:

- **The objective is a parameter.** `f: (real, real) -> real` stands for both the
  global `function` and the `func` argument.
- **A point's fitness is current** when `fit == f(x, y)` (`Points.Evaluated`).
  Construction, assignment, crossover and mutation all establish this, and every
  later step keeps it.
- **Random draws are inputs.** Each draw is a `UnitDraw`, the fraction in [0, 1)
  of the interval where `std::uniform_real_distribution` lands. So
  `random(a, b)` is `a + (b - a) * u`, or `InvalidArgument` when `a >= b`.
- **Specifications.** Crossover and mutation have a function that says what
  they produce, and the loop or in-place method is proved equal to it:
  - `Breeding.Children` gives the closed form of the crossover buffer. Slot `c`
    holds the child of the pair `ParentPair(c)`.
  - `Mutation.Mutated` and `Mutation.MutatedPool` say what mutation does to one
    point and to the whole pool.

  The sort, the selection and the run are specified by predicates instead, and
  each method is proved to establish its predicate:
  - `Selection.SortedByFitness`, with a multiset permutation, for the sort.
  - `Selection.KeepsFittest(pool, chosen)` for the selection: `chosen` is four
    points of `pool`, fittest first, and no discarded point is fitter than the
    last point kept. Ties are left open.
  - `Evolution.Bred` is the pool a generation sorts: the mutated offspring
    pool of the population. `Evolution.Generation`'s ensures states
    `KeepsFittest` of that pool.
  - `Evolution.IsRun` for the run: each population keeps the fittest of the
    pool bred from the population before it.
- **`fmod(a, 2)` is written out** as repeated subtraction of 2 toward zero
  (`Mutation.FmodTwo`). A lemma proves it equal to C's definition
  `a - 2 * trunc(a / 2)`.
- **Containers:**
  - The population vector is a `seq` that crossover appends to.
  - The `children` buffer is an `array` allocated once and reused by every
    generation.
  - For the in-place mutation and `std::sort`, the pool is held in a 16-slot
    `array`.
  - `new_population` is a 4-slot `array`.

Facts about the code that the model keeps:

- The constants are fixed in the code: 4 points, mutation probability 0.3,
  scale range [-100, 100), modulus 2, 12 children and 1000 generations.
- Selection sorts the 16-point pool ascending with the unstable `std::sort`,
  then copies indices 15, 14, 13 and 12 into the new population. So the result
  is fittest first, and points of equal fitness come in no guaranteed order.

## Model

| member | source | states |
|---|---|---|
| Points.MakePoint | genetic_algorithm.hpp:24-28 | `Point(x1, y1)` stores `x1` and `y1`, and its fitness is `f(x1, y1)` |
| Points.Assign | genetic_algorithm.hpp:30-35 | assignment copies the coordinates and recomputes the fitness, so the result is always current. It equals its source exactly when the source's fitness was already current |
| Points.ReconstructFromCoordinates | genetic_algorithm.hpp:24-28 | the round-trip form of `Assign`'s last ensures: rebuilding a point from its own coordinates gives the same point if and only if its fitness is current |
| Points.Less | genetic_algorithm.hpp:37-39 | `operator<` never puts a point below itself, and a point that is not below another is at least as fit |
| Points.LessIgnoresCoordinates | genetic_algorithm.hpp:37-39 | `operator<` depends on fitness alone: points with equal fitness compare the same whatever their coordinates |
| Points.LessIsStrictWeakOrder | genetic_algorithm.hpp:37-39 | `operator<` is irreflexive, asymmetric and transitive. Incomparability is equality of fitness and is transitive. This is the ordering `std::sort` requires |
| Sampling.Uniform | genetic_algorithm.hpp:44-47 | a draw lands in the half-open interval [a, b) |
| Sampling.Random | genetic_algorithm.hpp:42-48 | `random(a, b)` fails with the invalid-argument error exactly when `a >= b`, and otherwise returns a value in [a, b) |
| Sampling.RandomPoint | genetic_algorithm.hpp:50-52 | `random_point` fails exactly when either interval is empty. Otherwise it returns a point inside the rectangle with current fitness |
| Sampling.FillPopulation | genetic_algorithm.hpp:54-61 | fails exactly when the rectangle is empty. Otherwise it returns exactly 4 points, point i sampled from draw i, each inside the rectangle and with current fitness |
| Breeding.ParentPair | genetic_algorithm.hpp:80-86 | the pair a slot belongs to is two distinct parent indices below 4 |
| Breeding.SlotOf | genetic_algorithm.hpp:79-86 | the value of `count` when the loops reach `(j, k)`, with `j != k`, is below 12 and is mapped back to `(j, k)` |
| Breeding.Children | genetic_algorithm.hpp:80-86 | the crossover buffer holds 12 children, each with a current fitness; slot c holds the child of the pair `ParentPair(c)` |
| Breeding.OffspringPool | genetic_algorithm.hpp:87-89 | appending the children gives a pool of 16 points that starts with the parents unchanged and in order |
| Breeding.SlotOfParentPair | genetic_algorithm.hpp:79-86 | `SlotOf` inverts `ParentPair`. With the ensures of `SlotOf`, this makes slots and ordered pairs of distinct parents a bijection, so every pair is written exactly once |
| Breeding.ParentPairsAscending | genetic_algorithm.hpp:80-82 | later slots hold later pairs in lexicographic order: by `j` first, then by `k` |
| Breeding.ChildrenAreRecombinations | genetic_algorithm.hpp:83 | every child is `(parents[j].x, parents[k].y)` for some `j != k`, with current fitness |
| Breeding.ChildrenCoverAllPairs | genetic_algorithm.hpp:80-85 | for every `j != k` the child `(parents[j].x, parents[k].y)` sits in slot `SlotOf(j, k)` |
| Breeding.OffspringPoolShape | genetic_algorithm.hpp:87-89 | the pool has 16 points. The first 4 are the parents, unchanged and in order; slot c of the children follows at index 4 + c. Every point is current when the parents are |
| Breeding.Crossover | genetic_algorithm.hpp:79-89 | the nested loops leave exactly `Children(f, population)` in the buffer, and the pool is the population followed by those children |
| Mutation.FmodTwo | genetic_algorithm.hpp:94-95 | `fmod(a, 2)` lies in (-2, 2), keeps the sign of `a`, and is `a` itself when \|a\| < 2 |
| Mutation.FmodTwoIsTruncatedRemainder | genetic_algorithm.hpp:94-95 | the repeated subtraction equals `a - 2 * n`, where `n` is `a / 2` rounded toward zero (C's definition of `fmod`) |
| Mutation.Perturb | genetic_algorithm.hpp:94-95 | a mutated coordinate lies in (-2, 2) |
| Mutation.Fires | genetic_algorithm.hpp:92-93 | `random(0, 1) < probability` holds exactly when the point's chance draw is below 0.3 |
| Mutation.Mutated | genetic_algorithm.hpp:92-97 | one point's coordinates change only when its draw fires, and a current fitness stays current |
| Mutation.MutatedPool | genetic_algorithm.hpp:91-98 | mutating the pool keeps its length, and a point moves only when its own draw fires |
| Mutation.UnfiredPointUnchanged | genetic_algorithm.hpp:92-93 | a point whose draw is not below the probability is left completely unchanged |
| Mutation.FiredPointReevaluated | genetic_algorithm.hpp:93-97 | a mutated point gets `x` from its old x and `y` from its *new* x, both in (-2, 2), and a current fitness |
| Mutation.NewYFollowsNewX | genetic_algorithm.hpp:94-95 | because y is computed from the new x, a mutated point whose new x is 0 gets y = 0, whatever its old y |
| Mutation.MutatedPoolShape | genetic_algorithm.hpp:91-98 | mutation keeps the pool's length, leaves every unfired point in place, and keeps every fitness current |
| Mutation.Mutate | genetic_algorithm.hpp:91-98 | the in-place loop turns the array into `MutatedPool` of its old contents |
| Selection.SortByFitness | genetic_algorithm.hpp:99 | the array ends sorted ascending by fitness and is a permutation of what it held |
| Selection.Select | genetic_algorithm.hpp:100-105 | the new population has 4 points, and point i is the assignment of pool index 15 - i |
| Selection.PermutationKeepsEvaluated | genetic_algorithm.hpp:99 | sorting keeps every fitness current |
| Selection.TopOfSortedKeepsFittest | genetic_algorithm.hpp:99-105 | taking indices 15..12 of a sorted pool keeps the fittest four, fittest first. Every selected fitness is at least every discarded fitness, and the selected points are points of the pool |
| Selection.FirstIsFittest | genetic_algorithm.hpp:99-105 | the first survivor is at least as fit as every point of the pool |
| Evolution.Generation | genetic_algorithm.hpp:79-105 | one generation: the buffer holds the children, and the next population keeps the fittest four of the bred pool, all with current fitness |
| Evolution.QuietGenerationKeepsBest | genetic_algorithm.hpp:79-105 | when no mutation fires, the best survivor is at least as fit as every parent, and every survivor is a parent or one of the 12 recombinations |
| Evolution.RunPopulations | genetic_algorithm.hpp:100-108 | every population of a run has exactly 4 points with current fitness, so indices 0..3 of the next crossover and `count = 15` are in range |
| Evolution.RunSteps | genetic_algorithm.hpp:78-109 | in a run, population g + 1 keeps the fittest four of the pool bred from population g with the draws of generation g |
| Evolution.GeneticAlgorithm | genetic_algorithm.hpp:69-110 | fails exactly when the rectangle is empty. Otherwise it returns the initial population followed by the 1000 reported populations, which together form a run |

## Left out

- Console output (`print_results` and the "Generation #" header) is not modelled. `GeneticAlgorithm` instead returns every reported population.
- The random engine is not modelled. Re-seeding `std::mt19937_64` from `std::random_device` on every call is replaced by draws passed in as inputs.
- Floating point is not modelled. Coordinates and fitness are exact reals, so rounding, overflow and NaN are not captured. In particular, the rounding that can make a `uniform_real_distribution` draw equal its upper bound is not captured.
- The objective `sin²(x) / (1 + x² + y²)` is not modelled. It is the abstract parameter `f`.
- The loop's `func` argument (used when mutating) and the global `function` (used by construction and assignment) are assumed to be the same objective. `std::sort` also moves points through `Point::operator=`, because no move assignment is declared, so sorting recomputes, with `function`, the fitness of each point it moves; which points it moves is unspecified. Under the same-objective assumption this changes nothing, because every fitness is already current (`Points.Assign`).
- C++ leaves unspecified the order in which `random_point` evaluates its two `random` calls. The model gives x the first draw of a pair. Both calls raise the same error, so failure behaves the same either way.
- Mutation takes three draws for every point. The source consumes the two scale draws only for a point that mutates; in the model, the unused draws play no part.
- `std::sort`'s own algorithm is not modelled. The model sorts by insertion, and only the sorted order and the permutation are promised, because `std::sort` fixes no order among equal fitness.
- Default-constructed points: `std::vector<Point> children(number_children)` and `new_population(4)` value-initialize their elements, so the source's buffers start as points (0, 0, 0). The model's arrays start filled with `Point(0.0, 0.0, 0.0)`. Every slot is written before it is read.
- Growth of the population vector is not modelled in place. It is a sequence that gets appended to, and it is copied into an array for the in-place mutation and sort.
- Selection: `population = new_population` is kept as a plain replacement. The per-element copy-assignments it performs change nothing, because every fitness is current (`Points.Assign`).
