# NSGA-II smart-home scheduler, modelled in Dafny

NSGA-II-SmartHome schedules household appliances over one day. A schedule
(an `Individual`) holds one start hour per appliance. The optimiser evaluates
each schedule on two objectives, both minimised:

- **cost**: the energy bought at the hourly tariff, plus a 10000 penalty when some hour draws more than 9 kW;
- **discomfort**: 0.5 per running hour before 06:00, plus the circular distance from the preferred start hour, plus 1000 when some hour draws more than 9 kW, plus 50 when the dryer starts before the washer ends.

`NSGAIIEngine` evolves a population of schedules with the NSGA-II
algorithm. One generation does the following:

1. It breeds a child population by binary tournament, single-point crossover and per-gene mutation.
2. It evaluates the children.
3. It sorts parents and children together into fronts by Pareto dominance.
4. It keeps the best `PopulationSize` of them: whole fronts in rank order, and from the first front that does not fit, the members with the largest crowding distance.

The project models the engine
(`Algorithm/NSGAIIEngine.cs`) and the domain types it works on
(`Core/Models.cs`), one Dafny module per concern:

| module | file | models |
|---|---|---|
| `Models` | models.dfy | `Appliance`, `TariffSchedule`, `Scenario`, `Individual` (classes where the source mutates: `TariffSchedule`, `Individual`) |
| `Randomness` | randomness.dfy | the engine's `System.Random`, as an oracle of raw draws and a position |
| `Dominance` | dominance.dfy | `Dominates` and the order-theoretic facts the sort relies on |
| `Sorting` | sorting.dfy | the stable LINQ orderings `OrderBy` / `OrderByDescending` |
| `Fitness` | fitness.dfy | `EvaluateIndividual`, `EvaluatePopulation`, with the objectives as pure functions |
| `FitnessProperties` | fitness_properties.dfy | lemmas about the objectives |
| `Ranking` | ranking.dfy | `NonDominatedSort` (the domination counts, then peeling fronts) |
| `Crowding` | crowding.dfy | `CalculateCrowdingDistance` and its local `AssignDistance` |
| `Variation` | variation.dfy | `BinaryTournament`, `SinglePointCrossover`, `Mutate`, `CreateOffspring` |
| `Replacement` | replacement.dfy | the replacement loop inside `Run` |
| `Engine` | engine.dfy | `NSGAIIParameters`, `GenerationSnapshot`, the engine's constructor, `InitializePopulation`, `Run`, `ReportProgress` |

Code that mutates objects stays imperative:

- Individuals are objects with mutable `cost`, `discomfort`, `rank` and `crowdingDistance` fields, and an `array<int>` genome.
- Each imperative method is proved against a pure specification function:
  - `NonDominatedSort` ranks members in place.
  - `CalculateCrowdingDistance` and `Mutate` write fields and arrays in place. Their results are `CrowdingDistances(objectives)` and `Mutation(genes, …)`.
  - `EvaluateIndividual` stores `Round3(Cost(...))` and `Round3(Discomfort(...))`.
  - The replacement loop builds exactly `Survivors(fronts, …)`.
- Lemmas about those functions state what NSGA-II promises. Examples:
  - Ranks follow dominance.
  - Extremes get +infinity.
  - Whole fronts are kept in rank order.
  - The cut keeps the most crowded members.

Two behaviours of the code are worth knowing:

- **Which appliance counts as the washer.** The sequencing rule keeps the *last* appliance whose name contains "washer". In the default scenario of `UI/MainForm.cs` that appliance is "Dishwasher", not "Washer". So the dryer is checked against the dishwasher (`DefaultScenarioSequencesDryerAfterDishwasher`).
- **Discomfort at the preferred night hour.** With one appliance preferring 03:00 and a flat tariff, the best discomfort is 0.5, not 0. The night-hour penalty applies at 03:00 (`SingleApplianceFlatTariff`). The model follows the code.

## Model

| member | source | states |
|---|---|---|
| Models.TruncatedRemainder | NSGA-II-SmartHome/Core/Models.cs:41 | C#'s `%`: the remainder has the dividend's sign and lies strictly between -b and b |
| Models.TruncatedDivision | NSGA-II-SmartHome/Core/Models.cs:41 | C#'s `/` and `%` together: truncated quotient × divisor + remainder gives back the dividend, and the multiple lies between 0 and the dividend, on the dividend's side |
| Models.HourIndex | NSGA-II-SmartHome/Core/Models.cs:41 | `(hour % 24 + 24) % 24` with C#'s `%` is always a valid slot 0..23, namely hour mod 24, negative hours included |
| Models.HourIndexPeriodic | NSGA-II-SmartHome/Core/Models.cs:39-43 | the slot lookup repeats every 24 hours, in both directions |
| Models.TariffSchedule.constructor | NSGA-II-SmartHome/Core/Models.cs:27-35 | on 24 rates the schedule holds a fresh array equal to them |
| Models.TariffSchedule.RateForHour | NSGA-II-SmartHome/Core/Models.cs:39-43 | the rate returned is the one stored for hour mod 24 |
| Models.NewTariffSchedule | NSGA-II-SmartHome/Core/Models.cs:27-37 | construction fails exactly when the rate count is not 24; otherwise `Rates` equals the rates given, in a fresh array |
| Models.TariffScheduleKeepsItsCopy | NSGA-II-SmartHome/Core/Models.cs:34-37 | writing to the caller's array after construction leaves the schedule's rates as they were |
| Models.Individual.constructor | NSGA-II-SmartHome/Core/Models.cs:66-69 | a new individual has `geneCount` genes, all 0, and zero cost, discomfort, rank and crowding |
| Models.Individual.Clone | NSGA-II-SmartHome/Core/Models.cs:71-83 | the clone is a fresh object with a fresh genome array, equal in genes and all four derived fields |
| Models.CloneThenEdit | NSGA-II-SmartHome/Core/Models.cs:71-83 | the copy is deep: editing a gene of the clone leaves the original's genome and objectives unchanged |
| Randomness.Random.Next | NSGA-II-SmartHome/Algorithm/NSGAIIEngine.cs:301-302 | `Next(n)` consumes one draw and returns a value in [0, n), or 0 when n is 0 |
| Randomness.Random.NextInRange | NSGA-II-SmartHome/Algorithm/NSGAIIEngine.cs:314 | `Next(min, max)` consumes one draw and returns a value in [min, max), or min when the two are equal |
| Randomness.Random.NextDouble | NSGA-II-SmartHome/Algorithm/NSGAIIEngine.cs:281 | `NextDouble()` consumes one draw and returns a value in [0, 1) |
| Randomness.Between | NSGA-II-SmartHome/Algorithm/NSGAIIEngine.cs:94 | any raw draw maps into [min, max), or to min on an empty range |
| Randomness.UnitDouble | NSGA-II-SmartHome/Algorithm/NSGAIIEngine.cs:325 | any raw draw maps into [0, 1) |
| Dominance.DominanceIrreflexive | NSGA-II-SmartHome/Algorithm/NSGAIIEngine.cs:229-232 | no schedule dominates itself |
| Dominance.DominanceAsymmetric | NSGA-II-SmartHome/Algorithm/NSGAIIEngine.cs:229-232 | of two schedules at most one dominates the other |
| Dominance.EqualObjectivesIncomparable | NSGA-II-SmartHome/Algorithm/NSGAIIEngine.cs:229-232 | schedules with equal cost and discomfort do not dominate each other |
| Dominance.DominanceTransitive | NSGA-II-SmartHome/Algorithm/NSGAIIEngine.cs:229-232 | dominance is transitive |
| Dominance.LeastTotal | NSGA-II-SmartHome/Algorithm/NSGAIIEngine.cs:229-232 | every non-empty set of members has one of least cost + discomfort |
| Dominance.NoDominanceCycle | NSGA-II-SmartHome/Algorithm/NSGAIIEngine.cs:202-224 | a non-empty set cannot have every member dominated from within it, so the peeling loop always finds a next front |
| Sorting.Insert | NSGA-II-SmartHome/Algorithm/NSGAIIEngine.cs:248 | inserting a position keeps the list sorted and adds exactly that position |
| Sorting.SortIndices | NSGA-II-SmartHome/Algorithm/NSGAIIEngine.cs:248 | the result is a permutation of its input with keys in order |
| Sorting.InsertKeepsTies | NSGA-II-SmartHome/Algorithm/NSGAIIEngine.cs:248 | inserting a position smaller than all placed ones keeps equal keys in input order |
| Sorting.SortIndicesKeepsTies | NSGA-II-SmartHome/Algorithm/NSGAIIEngine.cs:248 | the insertion sort is stable: from ascending positions, equal keys come out in input order |
| Sorting.Order | NSGA-II-SmartHome/Algorithm/NSGAIIEngine.cs:72 | `OrderBy`/`OrderByDescending` lists every position exactly once, keys in order, and equal keys in list order (LINQ's stable sort) |
| Fitness.ActiveHour | NSGA-II-SmartHome/Algorithm/NSGAIIEngine.cs:131 | `(start + h) % 24` for a non-negative start is a clock hour 0..23 |
| Fitness.CircularDistanceOnClock | NSGA-II-SmartHome/Algorithm/NSGAIIEngine.cs:142-144 | for clock hours the preference penalty lies in [0, 12], is symmetric, and is 0 exactly at the preferred hour |
| Fitness.LastIndexContaining | NSGA-II-SmartHome/Algorithm/NSGAIIEngine.cs:117-125 | washerIndex/dryerIndex is -1 or a matching appliance, and no later appliance matches |
| Fitness.Round3 | NSGA-II-SmartHome/Algorithm/NSGAIIEngine.cs:163-164 | `Math.Round(x, 3)` lands on a multiple of 0.001 at most 0.0005 from x, and a value exactly halfway goes to the even multiple (MidpointRounding.ToEven) |
| Fitness.AccumulateRun | NSGA-II-SmartHome/Algorithm/NSGAIIEngine.cs:129-140 | the inner loop adds the run's cost and night penalty, and adds the power to exactly the hours it covers |
| Fitness.EvaluateIndividual | NSGA-II-SmartHome/Algorithm/NSGAIIEngine.cs:111-165 | the stored cost and discomfort are the rounded objectives of the genome: run cost, night and preference penalties, overload and sequencing penalties |
| Fitness.EvaluatePopulation | NSGA-II-SmartHome/Algorithm/NSGAIIEngine.cs:103-109 | afterwards every member stores the objectives of its own genome |
| FitnessProperties.Round3Monotone | NSGA-II-SmartHome/Algorithm/NSGAIIEngine.cs:163-164 | rounding preserves order |
| FitnessProperties.Round3Idempotent | NSGA-II-SmartHome/Algorithm/NSGAIIEngine.cs:163-164 | rounding a rounded value changes nothing |
| FitnessProperties.RunLoadBelowStep | NSGA-II-SmartHome/Algorithm/NSGAIIEngine.cs:129-134 | one more running hour adds the power to the load below hour n exactly when its clock hour is below n |
| FitnessProperties.RunLoadOverDay | NSGA-II-SmartHome/Algorithm/NSGAIIEngine.cs:129-134 | over the day a run of d hours adds power × d to hourlyLoad, wrap-around included |
| FitnessProperties.ZeroRunLoadBelow | NSGA-II-SmartHome/Algorithm/NSGAIIEngine.cs:129-134 | a run of no hours adds no load |
| FitnessProperties.LoadBelowStep | NSGA-II-SmartHome/Algorithm/NSGAIIEngine.cs:120-140 | each appliance adds its run's load to the profile |
| FitnessProperties.ZeroLoadBelow | NSGA-II-SmartHome/Algorithm/NSGAIIEngine.cs:115 | the profile starts at zero |
| FitnessProperties.LoadConservation | NSGA-II-SmartHome/Algorithm/NSGAIIEngine.cs:115-140 | the load profile sums to the total energy of the appliances |
| FitnessProperties.LoadBelowCapacity | NSGA-II-SmartHome/Algorithm/NSGAIIEngine.cs:147 | without overload, the load in the first n hours is at most 9 kW × n |
| FitnessProperties.EnergyAboveCapacityIsPenalised | NSGA-II-SmartHome/Algorithm/NSGAIIEngine.cs:147-151 | more than 9 kW × 24 h of total energy always triggers the +10000 cost and +1000 discomfort penalties |
| FitnessProperties.RunCostNonNegative | NSGA-II-SmartHome/Algorithm/NSGAIIEngine.cs:129-133 | non-negative power and rates give a non-negative run cost |
| FitnessProperties.BaseCostNonNegative | NSGA-II-SmartHome/Algorithm/NSGAIIEngine.cs:120-145 | summed over the appliances the energy cost stays non-negative |
| FitnessProperties.CostNonNegative | NSGA-II-SmartHome/Algorithm/NSGAIIEngine.cs:111-151 | with non-negative powers and rates the cost objective is non-negative |
| FitnessProperties.RunNightDiscomfortBounds | NSGA-II-SmartHome/Algorithm/NSGAIIEngine.cs:136-139 | the night penalty of a d-hour run lies between 0 and 0.5 × d |
| FitnessProperties.BaseDiscomfortNonNegative | NSGA-II-SmartHome/Algorithm/NSGAIIEngine.cs:120-145 | summed over the appliances the night and preference penalties stay non-negative |
| FitnessProperties.DiscomfortNonNegative | NSGA-II-SmartHome/Algorithm/NSGAIIEngine.cs:111-161 | for start hours on the clock the discomfort objective is non-negative |
| FitnessProperties.DefaultWasherIsDishwasher | NSGA-II-SmartHome/Algorithm/NSGAIIEngine.cs:124 | in the default appliance list the last name containing "washer" is "Dishwasher" (index 3) |
| FitnessProperties.DefaultDryerIsDryer | NSGA-II-SmartHome/Algorithm/NSGAIIEngine.cs:125 | in the default appliance list the only name containing "dryer" is "Dryer" (index 1) |
| FitnessProperties.DefaultScenarioSequencesDryerAfterDishwasher | NSGA-II-SmartHome/Algorithm/NSGAIIEngine.cs:153-161 | in the default scenario the +50 penalty applies exactly when the dryer starts before the dishwasher's start + 2 |
| FitnessProperties.SingleApplianceFlatTariff | NSGA-II-SmartHome/Algorithm/NSGAIIEngine.cs:111-165 | one 1 kW, 1 h appliance preferring 03:00 under a flat 1.0 tariff costs 1.0 at every hour; its discomfort is night penalty + circular distance, at least 0.5, with 0.5 reached only at 03:00 |
| Ranking.ObjectivesOf | NSGA-II-SmartHome/Algorithm/NSGAIIEngine.cs:229-232 | the objectives a front is compared on, one per member |
| Ranking.CountDominance | NSGA-II-SmartHome/Algorithm/NSGAIIEngine.cs:173-198 | the first pass records, for each p, whom p dominates and how many dominate p, and ranks the undominated 1 |
| Ranking.PeelFronts | NSGA-II-SmartHome/Algorithm/NSGAIIEngine.cs:200-224 | the peeling loop ranks every member and lists each front: rank 1 exactly for the undominated, a dominator always ranked lower, each later member dominated by one of the front before |
| Ranking.NonDominatedSort | NSGA-II-SmartHome/Algorithm/NSGAIIEngine.cs:167-227 | the fronts partition the population, front k holds exactly the rank-(k+1) members, dominators have lower ranks, rank 1 = undominated; an empty population gives one empty front |
| Ranking.FrontsPartition | NSGA-II-SmartHome/Algorithm/NSGAIIEngine.cs:200-224 | every member is in exactly one front, the one of its rank, with no repeats |
| Ranking.RanksFollowDominance | NSGA-II-SmartHome/Algorithm/NSGAIIEngine.cs:183-213 | whoever dominates a member has a strictly lower rank |
| Ranking.FirstRankUndominated | NSGA-II-SmartHome/Algorithm/NSGAIIEngine.cs:193-197 | rank 1 is given exactly to the members nobody dominates |
| Ranking.FrontsHaveParents | NSGA-II-SmartHome/Algorithm/NSGAIIEngine.cs:205-214 | every member of front k > 0 is dominated by some member of front k - 1 |
| Ranking.LayeringUnique | NSGA-II-SmartHome/Algorithm/NSGAIIEngine.cs:193-214 | two complete layerings of the same objectives give every member the same level, so the front numbers the sort hands out are the only ones possible |
| Crowding.AxisOrder | NSGA-II-SmartHome/Algorithm/NSGAIIEngine.cs:248 | `OrderBy(selector)` lists each position of the front once, objective values ascending, equal values in front order |
| Crowding.CalculateCrowdingDistance | NSGA-II-SmartHome/Algorithm/NSGAIIEngine.cs:234-268 | every member's stored distance is CrowdingDistances of the front's objectives, whatever was stored before |
| Crowding.AssignDistance | NSGA-II-SmartHome/Algorithm/NSGAIIEngine.cs:246-264 | one selector's pass stores exactly AxisPass of the distances before it |
| Crowding.InfiniteExactlyAtExtremes | NSGA-II-SmartHome/Algorithm/NSGAIIEngine.cs:246-267 | a member gets +infinity if and only if it comes first or last in the cost or the discomfort ordering |
| Crowding.ExtremeAtEnds | NSGA-II-SmartHome/Algorithm/NSGAIIEngine.cs:248-250 | a member is first or last on an objective exactly when it sits at one end of that objective's ordering |
| Crowding.CrowdingBounds | NSGA-II-SmartHome/Algorithm/NSGAIIEngine.cs:243-263 | distances are never negative, and a finite one is at most 2 (at most 1 per objective) |
| Crowding.SmallFrontsInfinite | NSGA-II-SmartHome/Algorithm/NSGAIIEngine.cs:249-250 | in a front of one or two members every distance is +infinity |
| Crowding.DegenerateFrontStaysZero | NSGA-II-SmartHome/Algorithm/NSGAIIEngine.cs:254-257 | when both objectives span less than 1e-9, interior members keep distance 0 |
| Crowding.UniqueMinimumInfinite | NSGA-II-SmartHome/Algorithm/NSGAIIEngine.cs:248-249 | the unique best member on an objective gets +infinity |
| Crowding.UniqueMaximumInfinite | NSGA-II-SmartHome/Algorithm/NSGAIIEngine.cs:248-250 | the unique worst member on an objective gets +infinity |
| Variation.Winner | NSGA-II-SmartHome/Algorithm/NSGAIIEngine.cs:304-309 | the winner is one of the two, of the lower rank; on equal ranks it is at least as crowded, and an exact tie goes to the first |
| Variation.BinaryTournament | NSGA-II-SmartHome/Algorithm/NSGAIIEngine.cs:299-310 | two draws pick two members (possibly the same) and the result is the winner of their contest, a member of the population |
| Variation.Crossed | NSGA-II-SmartHome/Algorithm/NSGAIIEngine.cs:315-318 | a crossed genome has its own genes before the point and the partner's from it on |
| Variation.CrossoverInvolution | NSGA-II-SmartHome/Algorithm/NSGAIIEngine.cs:315-318 | crossing the two children again at the same point restores both parents |
| Variation.CrossoverConservesGenes | NSGA-II-SmartHome/Algorithm/NSGAIIEngine.cs:315-318 | at each position the two children hold the parents' two genes, so on-the-clock genomes stay on the clock |
| Variation.SinglePointCrossover | NSGA-II-SmartHome/Algorithm/NSGAIIEngine.cs:312-319 | both arrays are swapped from a point drawn in [1, length), the rest is untouched, one draw is consumed |
| Variation.GeneMutation | NSGA-II-SmartHome/Algorithm/NSGAIIEngine.cs:325-328 | a gene is redrawn in [0, 24) exactly when its NextDouble falls below the rate (two draws), and is kept otherwise (one draw) |
| Variation.Mutation | NSGA-II-SmartHome/Algorithm/NSGAIIEngine.cs:321-330 | mutation keeps the genome length and consumes between one and two draws per gene |
| Variation.MutationKeepsOrRedraws | NSGA-II-SmartHome/Algorithm/NSGAIIEngine.cs:323-329 | every gene is kept or becomes a clock hour; on-the-clock genomes stay on the clock |
| Variation.MutationAtZeroRate | NSGA-II-SmartHome/Algorithm/NSGAIIEngine.cs:325 | at rate 0 the genome is unchanged and one draw per gene is consumed |
| Variation.MutationAtFullRate | NSGA-II-SmartHome/Algorithm/NSGAIIEngine.cs:325-327 | at rate 1 every gene is redrawn on the clock, two draws per gene |
| Variation.Mutate | NSGA-II-SmartHome/Algorithm/NSGAIIEngine.cs:321-330 | the genome and the generator end where Mutation says |
| Variation.Crossover | NSGA-II-SmartHome/Algorithm/NSGAIIEngine.cs:281-284 | the crossover step keeps both lengths and consumes one draw, or two when it crosses |
| Variation.MutatedPair | NSGA-II-SmartHome/Algorithm/NSGAIIEngine.cs:285-286 | mutating both children keeps their lengths and consumes one to two draws per gene |
| Variation.Offspring | NSGA-II-SmartHome/Algorithm/NSGAIIEngine.cs:281-286 | a round's variation keeps both genome lengths and consumes between 1 + 2G and 2 + 4G draws for G genes |
| Variation.OffspringOnClock | NSGA-II-SmartHome/Algorithm/NSGAIIEngine.cs:281-286 | crossing and mutating genomes of clock hours gives genomes of clock hours |
| Variation.OffspringAtZeroRates | NSGA-II-SmartHome/Algorithm/NSGAIIEngine.cs:281-286 | with both rates at 0 or below the two genomes come out unchanged, after one draw plus one per gene |
| Variation.EntrantAt | NSGA-II-SmartHome/Algorithm/NSGAIIEngine.cs:299-310 | the tournament view of member i holds its rank, crowding distance and genome |
| Variation.EntrantsUniform | NSGA-II-SmartHome/Algorithm/NSGAIIEngine.cs:275-279 | when every member has G genes, so does every genome the tournaments can pick |
| Variation.Champion | NSGA-II-SmartHome/Algorithm/NSGAIIEngine.cs:299-310 | a tournament's champion genome is the genome of some member |
| Variation.ChampionIsWinner | NSGA-II-SmartHome/Algorithm/NSGAIIEngine.cs:299-310 | the champion genome is the genome of Winner of the two drawn members |
| Variation.Round | NSGA-II-SmartHome/Algorithm/NSGAIIEngine.cs:275-287 | one round gives two genomes of G genes and moves the generator forward |
| Variation.RoundAtZeroRates | NSGA-II-SmartHome/Algorithm/NSGAIIEngine.cs:275-287 | with both rates at 0 or below a round's children are its two champions' genomes, 5 + 2G draws later |
| Variation.ClonesAtZeroRates | NSGA-II-SmartHome/Algorithm/NSGAIIEngine.cs:275-287 | with both rates at 0 or below a round's children are exactly the genomes of the two tournament winners |
| Variation.Rounds | NSGA-II-SmartHome/Algorithm/NSGAIIEngine.cs:273-296 | k rounds give 2k genomes and never move the generator back |
| Variation.RoundOf | NSGA-II-SmartHome/Algorithm/NSGAIIEngine.cs:273-296 | round k gives two genomes of G genes, the generator past where it started |
| Variation.Batch | NSGA-II-SmartHome/Algorithm/NSGAIIEngine.cs:273-296 | the genomes of k rounds number 2k |
| Variation.RoundsStep | NSGA-II-SmartHome/Algorithm/NSGAIIEngine.cs:273-296 | one more round appends the two children of a `Round` taken where the earlier rounds stopped |
| Variation.RoundsHoldRound | NSGA-II-SmartHome/Algorithm/NSGAIIEngine.cs:273-296 | children 2k and 2k + 1 of a batch are the first and second child of its round k, in the order the loop adds them |
| Variation.BreedRound | NSGA-II-SmartHome/Algorithm/NSGAIIEngine.cs:275-287 | a round of `Breed` extends the batch by its two children and leaves every earlier child's genome as it was |
| Variation.Vary | NSGA-II-SmartHome/Algorithm/NSGAIIEngine.cs:281-286 | crossing then mutating the two clones stores exactly `Offspring` of their genomes |
| Variation.SelectParents | NSGA-II-SmartHome/Algorithm/NSGAIIEngine.cs:275-279 | two tournaments (four draws) and two clones whose genomes are the winners' genomes in fresh arrays |
| Variation.Recombine | NSGA-II-SmartHome/Algorithm/NSGAIIEngine.cs:281-284 | the children are crossed exactly when the NextDouble falls below the crossover rate |
| Variation.Breed | NSGA-II-SmartHome/Algorithm/NSGAIIEngine.cs:275-287 | one round yields two distinct fresh children with fresh genomes, on the clock when the parents are; their genomes and the generator's new position are exactly `Round` of the population's ranks, distances and genomes before the round |
| Variation.CreateOffspring | NSGA-II-SmartHome/Algorithm/NSGAIIEngine.cs:270-297 | exactly `size` distinct, fresh children, on the clock when the parents are; child i's genome is entry i of `Batch` over (size + 1) / 2 rounds, and the generator ends where the batch does, so an odd size drops the last round's second child after it was bred and mutated |
| Replacement.FittingFronts | NSGA-II-SmartHome/Algorithm/NSGAIIEngine.cs:63-69 | the fronts taken whole are the longest prefix that fits in PopulationSize; the next front would overflow |
| Replacement.Truncation | NSGA-II-SmartHome/Algorithm/NSGAIIEngine.cs:72-74 | `remaining` distinct positions of the front are kept |
| Replacement.TruncationKeepsMostCrowded | NSGA-II-SmartHome/Algorithm/NSGAIIEngine.cs:72-74 | no dropped position is more crowded than a kept one |
| Replacement.Survivors | NSGA-II-SmartHome/Algorithm/NSGAIIEngine.cs:62-79 | the next population never exceeds PopulationSize, and reaches it whenever some front was cut |
| Replacement.SurvivorsSize | NSGA-II-SmartHome/Algorithm/NSGAIIEngine.cs:62-79 | the next population has min(PopulationSize, parents + children) members |
| Replacement.SurvivorsMembers | NSGA-II-SmartHome/Algorithm/NSGAIIEngine.cs:63-76 | every member of a whole front is kept, and every survivor comes from a whole front or the cut front |
| Replacement.SurvivorsDistinct | NSGA-II-SmartHome/Algorithm/NSGAIIEngine.cs:62-79 | disjoint fronts without repeats give survivors without repeats |
| Replacement.ConcatPartitionSize | NSGA-II-SmartHome/Algorithm/NSGAIIEngine.cs:59-60 | fronts that partition the combined population hold exactly as many members as it |
| Replacement.SurvivorsKeepMostCrowded | NSGA-II-SmartHome/Algorithm/NSGAIIEngine.cs:70-75 | in the cut front no dropped member is more crowded than a kept one |
| Replacement.SelectSurvivors | NSGA-II-SmartHome/Algorithm/NSGAIIEngine.cs:62-79 | the loop builds exactly Survivors of the fronts, and every front it reached holds its crowding distances |
| Replacement.TakeMostCrowded | NSGA-II-SmartHome/Algorithm/NSGAIIEngine.cs:70-75 | the cut branch appends the most crowded members of the front that does not fit |
| Replacement.CrowdNext | NSGA-II-SmartHome/Algorithm/NSGAIIEngine.cs:65 | crowding one more front keeps the distances already stored on the earlier fronts |
| Replacement.CrowdFront | NSGA-II-SmartHome/Algorithm/NSGAIIEngine.cs:65 | the front's stored distances are CrowdingDistances of its objectives |
| Replacement.Truncate | NSGA-II-SmartHome/Algorithm/NSGAIIEngine.cs:72-74 | `OrderByDescending(CrowdingDistance).Take(remaining)` yields the members at the positions Truncation keeps |
| Engine.NSGAIIEngine.constructor | NSGA-II-SmartHome/Algorithm/NSGAIIEngine.cs:22-28 | missing parameters become the record's defaults (50, 100, 0.9, 0.05); the generator is new and unconsumed |
| Engine.NSGAIIEngine.RandomIndividual | NSGA-II-SmartHome/Algorithm/NSGAIIEngine.cs:91-97 | a fresh individual with one `Next(0, 24)` gene per appliance, in draw order; cost, discomfort, rank and crowding keep their zero defaults |
| Engine.NSGAIIEngine.InitializePopulation | NSGA-II-SmartHome/Algorithm/NSGAIIEngine.cs:86-101 | fails exactly for a negative PopulationSize; otherwise PopulationSize fresh, distinct individuals of rank 0 and crowding 0, whose gene g of member i is the (i·G + g)-th draw mapped to [0, 24) |
| Engine.NSGAIIEngine.ReportProgress | NSGA-II-SmartHome/Algorithm/NSGAIIEngine.cs:332-345 | without a sink nothing changes; with one, every rank is rewritten to its front number (ranks follow dominance, rank 1 is the undominated, and every other rank r has a dominator of rank r - 1), crowding changes only on the first front, and the snapshot carries the generation, the population, and as Pareto front exactly its undominated members, with their crowding distances |
| Engine.FrontsGiveLayers | NSGA-II-SmartHome/Algorithm/NSGAIIEngine.cs:195-213 | fronts numbered by rank, each later member dominated from the front before, make every rank at least 1 with a dominator one rank better |
| Engine.RanksAreFrontNumbers | NSGA-II-SmartHome/Algorithm/NSGAIIEngine.cs:195-213 | ranks that follow dominance and come in layers equal, member by member, the levels of any complete layering plus one |
| Engine.NSGAIIEngine.Generation | NSGA-II-SmartHome/Algorithm/NSGAIIEngine.cs:56-79 | a new evaluated population of the same size and no repeats, drawn from parents + children; no dominator and no lower-ranked member is dropped for a kept one, and within a rank no dropped member is more crowded; the ranks of parents + children follow dominance and are their front numbers |
| Engine.NSGAIIEngine.EvaluatedOffspring | NSGA-II-SmartHome/Algorithm/NSGAIIEngine.cs:56-57 | PopulationSize distinct fresh children, each storing the objectives of its genome; the parents stay evaluated |
| Engine.NSGAIIEngine.NextGeneration | NSGA-II-SmartHome/Algorithm/NSGAIIEngine.cs:56-80 | one loop body: the next evaluated population, no parent dropped that dominates a survivor, and a snapshot of it exactly when a sink is given, whose front is exactly its undominated members |
| Engine.NSGAIIEngine.Run | NSGA-II-SmartHome/Algorithm/NSGAIIEngine.cs:33-84 | a negative PopulationSize fails; cancellation stops at the first cancelled generation; otherwise Generations rounds give an evaluated population of PopulationSize new individuals; with a sink, snapshots 0..n in order, each front exactly the undominated members of its population, and the last one is the result |
| Engine.NSGAIIEngine.Start | NSGA-II-SmartHome/Algorithm/NSGAIIEngine.cs:36-46 | the initial population (failing exactly on a negative size), evaluated, and with a sink the snapshot of generation 0 |
| Engine.NSGAIIEngine.Populate | NSGA-II-SmartHome/Algorithm/NSGAIIEngine.cs:38-39 | the initial population fails exactly on a negative size; otherwise PopulationSize distinct fresh individuals, each storing the objectives of its genome |
| Engine.NSGAIIEngine.Advance | NSGA-II-SmartHome/Algorithm/NSGAIIEngine.cs:56-80 | one generation and its snapshot appended to the reports, numbered after the earlier ones |
| Engine.NSGAIIEngine.Evolve | NSGA-II-SmartHome/Algorithm/NSGAIIEngine.cs:43-83 | the generation loop: the first cancelled generation stops it, otherwise Generations rounds; every snapshot is numbered and its front is exactly the undominated members |
| Engine.Replace | NSGA-II-SmartHome/Algorithm/NSGAIIEngine.cs:59-79 | the survivors number min(size, combined), have no repeats, come from the combined population, and keep elitism by dominance, by rank and by crowding; the ranks of the combined population follow dominance and are its front numbers |
| Engine.Select | NSGA-II-SmartHome/Algorithm/NSGAIIEngine.cs:62-79 | from ranked fronts: whole fronts first, the cut front by crowding |
| Engine.Sort | NSGA-II-SmartHome/Algorithm/NSGAIIEngine.cs:60 | the fronts layer the combined population by rank, ranks follow dominance, and every rank above 1 has a dominator one rank lower, so ranks are the front numbers |
| Engine.DominanceElitism | NSGA-II-SmartHome/Algorithm/NSGAIIEngine.cs:59-79 | a member that dominates a survivor survives too |
| Engine.LayersDisjoint | NSGA-II-SmartHome/Algorithm/NSGAIIEngine.cs:60 | no member is listed in two fronts |
| Engine.SurvivorsFromCombined | NSGA-II-SmartHome/Algorithm/NSGAIIEngine.cs:59-79 | every survivor is a parent or a child |
| Engine.RankElitism | NSGA-II-SmartHome/Algorithm/NSGAIIEngine.cs:63-76 | a member of lower rank than some survivor survives too |
| Engine.CrowdingCut | NSGA-II-SmartHome/Algorithm/NSGAIIEngine.cs:70-75 | among members of equal rank no dropped one is more crowded than a kept one |

## Left out

- Pause and Resume (NSGAIIEngine.cs:30-31) are not modelled; nor are the pause wait and `Thread.Sleep(50)` in `Run`. They only delay a generation, and threads are outside the model.
- The `CancellationToken` becomes the function `cancelled`, asked once at the start of each generation. A cancellation that arrives during the pause wait counts for that same generation.
- `IProgress<GenerationSnapshot>` becomes the returned list of snapshots. Asynchronous delivery to the UI thread is not modelled. Snapshots share the individuals, as in the code.
- `System.Random` becomes an oracle that gives one raw value per call; each call maps its value into the range the real call promises. The generator's own algorithm, how many internal outputs one call consumes, and the distribution of the values are not modelled.
- Fitness.UpperAscii: folds ASCII letters only. `OrdinalIgnoreCase` also folds some non-ASCII letters, such as 'ſ' to 'S', so a name like "Waſher" would match "washer" in C# but not in the model.
- C# `int` is 32-bit, but the model's integers are unbounded. So overflow in `start + h` or `start - PreferredStartHour`, and the throw of `Math.Abs(int.MinValue)`, are not modelled. The engine's genes lie in 0..23, and the scenario editor bounds durations to 1..24 and preferred hours to 0..23, so neither can occur there.
- Doubles are modelled as reals, plus +infinity for crowding distances. Floating-point error, NaN and overflow are not modelled. `Round3` rounds the exact real, where the code rounds a binary double.
- Appliance, Scenario and NSGAIIParameters become plain datatypes with no behaviour. `Program.cs` and the UI are not part of this model; only the default appliance list is used, in one lemma.
- Ranking.NonDominatedSort: the order of members inside a front is not stated. The code keeps population order in the first front and promotion order in later ones, and that order breaks ties in the crowding sort and in the truncation.
- Ranking.NonDominatedSort: requires a population without repeated objects. Every caller passes one, but the model does not say what the code does with a repeated object.
- Crowding.CalculateCrowdingDistance: requires a front without repeated objects, for the same reason.
- Fitness.EvaluateIndividual: requires a gene for each appliance and no negative start hour. A negative start hour makes the code index `hourlyLoad` out of range. The engine only produces genes in 0..23.
- Variation.BinaryTournament: requires a non-empty population. On an empty one the code throws, and the engine never holds one there.
- Variation.SinglePointCrossover: requires at least one gene. With none, `Next(1, 0)` throws.
- Engine.NSGAIIEngine.Run: requires at least one appliance, because with none a drawn crossover throws (see above). The throw is not modelled.
- Engine.NSGAIIEngine.Run: requires the tariff to hold 24 rates. The TariffSchedule constructor guarantees this for every schedule it builds.
- Engine.NSGAIIEngine.ReportProgress: always finds a first front, so the code's `fronts.Count > 0` guard never fails. The model keeps the check but never takes the other branch.
- Variation.Breed: its on-the-clock promise is stated about the parents' genomes before the round. The clones are compared with the winners' genomes at selection time.
