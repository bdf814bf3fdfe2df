/**
 * NSGAIIEngine: the generational loop that ties the operators together.
 * A run draws a random population, evaluates it, and then, generation by
 * generation, breeds as many children as the population holds, evaluates
 * them, sorts parents and children into non-dominated fronts and keeps the
 * best PopulationSize of them (whole fronts in rank order, the front that
 * does not fit cut by crowding distance).
 */
module Engine {
  import opened Models
  import opened Randomness
  import opened Dominance
  import Variation
  import Fitness
  import Ranking
  import Crowding
  import Replacement

  /** NSGAIIParameters; doubles are modelled as reals. */
  datatype Parameters = Parameters(populationSize: int, generations: int, crossoverRate: real, mutationRate: real)

  /** The record's default values. */
  const DefaultParameters: Parameters := Parameters(50, 100, 0.9, 0.05)

  /** A nullable argument. */
  datatype Option<T> = None | Some(value: T)

  /** GenerationSnapshot: what the progress sink receives after each generation. */
  datatype Snapshot = Snapshot(generation: int, paretoFront: seq<Individual>, population: seq<Individual>)

  /**
   * How Run ends: with the last population, with the OperationCanceledException
   * raised at the start of a generation, or with the ArgumentOutOfRangeException
   * that a negative PopulationSize raises when it is used as a list capacity.
   */
  datatype Outcome = Completed(population: seq<Individual>) | Cancelled(generation: nat) | CapacityOutOfRange

  /** Every member holds one on-the-clock start hour per appliance and stores the objectives of its genome. */
  ghost predicate Assessed(scenario: Scenario, population: seq<Individual>)
    reads (set x | x in population)`cost, (set x | x in population)`discomfort
    reads (set x | x in population :: x.startTimes), scenario.tariffs.rates
  {
    forall x :: x in population ==>
      x.startTimes.Length == |scenario.appliances| && Variation.OnClock(x.startTimes[..]) && Fitness.Evaluated(scenario, x)
  }

  /** Members of the combined population that no member of it dominates. */
  ghost predicate Undominated(population: seq<Individual>, x: Individual)
    reads x`cost, x`discomfort, (set y | y in population)`cost, (set y | y in population)`discomfort
  {
    forall y :: y in population ==> !Dominates(y.ObjectiveValues(), x.ObjectiveValues())
  }

  /** The snapshot's Pareto front is exactly the undominated members of its population. */
  ghost predicate FrontIsUndominated(s: Snapshot)
    reads (set x | x in s.population)`cost, (set x | x in s.population)`discomfort
  {
    (forall x :: x in s.paretoFront ==> x in s.population && Undominated(s.population, x)) &&
    (forall x :: x in s.population && Undominated(s.population, x) ==> x in s.paretoFront)
  }

  /** Every snapshot in `reports` has the undominated members of its population as its front. */
  ghost predicate FrontsAreUndominated(reports: seq<Snapshot>)
    reads (set g, x | 0 <= g < |reports| && x in reports[g].population :: x)`cost
    reads (set g, x | 0 <= g < |reports| && x in reports[g].population :: x)`discomfort
  {
    forall g :: 0 <= g < |reports| ==> FrontIsUndominated(reports[g])
  }

  class NSGAIIEngine {
    const scenario: Scenario
    const parameters: Parameters
    /** The engine's generator, as an oracle of one raw value per call. */
    const rng: Random

    /** Missing parameters fall back to the defaults. */
    constructor (scenario: Scenario, parameters: Option<Parameters>, draws: nat -> int)
      ensures this.scenario == scenario
      ensures parameters.Some? ==> this.parameters == parameters.value
      ensures parameters.None? ==> this.parameters == DefaultParameters
      ensures fresh(rng) && rng.draws == draws && rng.position == 0
    {
      this.scenario := scenario;
      this.parameters := if parameters.Some? then parameters.value else DefaultParameters;
      rng := new Random(draws);
    }

    /** One individual whose genes are drawn in order with Next(0, 24). */
    method RandomIndividual() returns (x: Individual)
      modifies rng
      ensures fresh(x) && fresh(x.startTimes) && x.startTimes.Length == |scenario.appliances|
      ensures rng.position == old(rng.position) + |scenario.appliances|
      ensures forall g :: 0 <= g < x.startTimes.Length ==>
        x.startTimes[g] == Between(0, HoursPerDay, rng.draws(old(rng.position) + g))
      ensures Variation.OnClock(x.startTimes[..])
      ensures x.cost == 0.0 && x.discomfort == 0.0 && x.rank == 0 && x.crowdingDistance == Finite(0.0)
    {
      x := new Individual(|scenario.appliances|);
      for gene := 0 to x.startTimes.Length
        invariant rng.position == old(rng.position) + gene
        invariant x.cost == 0.0 && x.discomfort == 0.0 && x.rank == 0 && x.crowdingDistance == Finite(0.0)
        invariant forall g :: 0 <= g < gene ==>
          x.startTimes[g] == Between(0, HoursPerDay, rng.draws(old(rng.position) + g))
      {
        x.startTimes[gene] := rng.NextInRange(0, HoursPerDay);
      }
    }

    /**
     * PopulationSize fresh individuals, the genes of individual i drawn after
     * those of individuals 0 .. i-1; a negative size is rejected as a capacity.
     */
    method InitializePopulation() returns (r: Result<seq<Individual>>)
      modifies rng
      ensures r.Failure? <==> parameters.populationSize < 0
      ensures r.Failure? ==> rng.position == old(rng.position)
      ensures r.Success? ==> |r.value| == parameters.populationSize && Distinct(r.value)
      ensures r.Success? ==> forall x :: x in r.value ==>
        fresh(x) && fresh(x.startTimes) && x.startTimes.Length == |scenario.appliances| && Variation.OnClock(x.startTimes[..])
      ensures r.Success? ==> rng.position == old(rng.position) + parameters.populationSize * |scenario.appliances|
      ensures r.Success? ==> forall i, g :: 0 <= i < |r.value| && 0 <= g < |scenario.appliances| ==>
        r.value[i].startTimes[g] == Between(0, HoursPerDay, rng.draws(old(rng.position) + i * |scenario.appliances| + g))
      ensures r.Success? ==> forall x :: x in r.value ==> x.rank == 0 && x.crowdingDistance == Finite(0.0)
    {
      if parameters.populationSize < 0 {
        return Failure("capacity must not be negative");
      }
      var geneCount := |scenario.appliances|;
      var individuals: seq<Individual> := [];
      for i := 0 to parameters.populationSize
        invariant |individuals| == i && Distinct(individuals)
        invariant forall x :: x in individuals ==>
          fresh(x) && fresh(x.startTimes) && x.startTimes.Length == geneCount && Variation.OnClock(x.startTimes[..])
        invariant rng.position == old(rng.position) + i * geneCount
        invariant forall j, g :: 0 <= j < i && 0 <= g < geneCount ==>
          individuals[j].startTimes[g] == Between(0, HoursPerDay, rng.draws(old(rng.position) + j * geneCount + g))
        invariant forall x :: x in individuals ==> x.rank == 0 && x.crowdingDistance == Finite(0.0)
      {
        var individual := RandomIndividual();
        assert (i + 1) * geneCount == i * geneCount + geneCount;
        individuals := individuals + [individual];
      }
      r := Success(individuals);
    }

    /**
     * When a sink is given: sorts the population (overwriting every rank),
     * computes the crowding of the first front and reports that front.
     */
    method ReportProgress(progress: bool, population: seq<Individual>, generation: int) returns (report: Option<Snapshot>)
      requires Distinct(population)
      modifies (set x | x in population)`rank, (set x | x in population)`crowdingDistance
      ensures report.Some? <==> progress
      ensures !progress ==> forall x :: x in population ==> x.rank == old(x.rank) && x.crowdingDistance == old(x.crowdingDistance)
      ensures report.Some? ==> report.value.generation == generation && report.value.population == population
      ensures report.Some? ==> Distinct(report.value.paretoFront)
      ensures report.Some? ==> forall x :: x in report.value.paretoFront <==> x in population && Undominated(population, x)
      ensures progress ==> RankedByDominance(population) && RanksAreLayers(population)
      ensures progress ==> forall x :: x in population && !Undominated(population, x) ==>
        x.crowdingDistance == old(x.crowdingDistance)
      ensures report.Some? ==> forall j :: 0 <= j < |report.value.paretoFront| ==>
        report.value.paretoFront[j].crowdingDistance
          == Crowding.CrowdingDistances(Ranking.ObjectivesOf(report.value.paretoFront))[j]
    {
      if !progress {
        return None;
      }
      var fronts := Ranking.NonDominatedSort(population);
      if |fronts| > 0 {
        var front := fronts[0];
        forall x | x in population
          ensures x in front <==> Undominated(population, x)
        {
          var k :| 0 <= k < |fronts| && x in fronts[k];
        }
        Crowding.CalculateCrowdingDistance(front);
        FrontsGiveLayers(population, fronts);
        report := Some(Snapshot(generation, front, population));
      }
    }

    /**
     * One generation of Run: offspring, their evaluation, and the replacement
     * of the population by the best of parents and children together.
     */
    method Generation(population: seq<Individual>) returns (next: seq<Individual>, offspring: seq<Individual>)
      requires scenario.tariffs.rates.Length == HoursPerDay && |scenario.appliances| >= 1
      requires |population| == parameters.populationSize && Distinct(population) && Assessed(scenario, population)
      modifies rng, (set x | x in population)`rank, (set x | x in population)`crowdingDistance
      ensures |offspring| == |population| && forall c :: c in offspring ==> fresh(c)
      ensures |next| == |population| && Distinct(next) && Assessed(scenario, next)
      ensures forall x :: x in next ==> x in population + offspring
      ensures forall x, y :: x in population + offspring && y in next && Dominates(x.ObjectiveValues(), y.ObjectiveValues()) ==>
        x in next
      ensures forall x, y :: x in population + offspring && y in next && x.rank < y.rank ==> x in next
      ensures forall x, y :: x in next && y in population + offspring && y !in next && x.rank == y.rank ==>
        !x.crowdingDistance.Below(y.crowdingDistance)
      ensures RankedByDominance(population + offspring) && RanksAreLayers(population + offspring)
    {
      offspring := EvaluatedOffspring(population);
      var combined := population + offspring;
      assert Assessed(scenario, combined);
      DistinctJoin(population, offspring);
      next := Replace(combined, parameters.populationSize);
    }

    /**
     * The offspring of `population`, evaluated; the parents keep their genomes
     * and objectives. Which genomes the children carry is stated by
     * Variation.CreateOffspring (the batch of breeding rounds) and is not
     * repeated here.
     */
    method EvaluatedOffspring(population: seq<Individual>) returns (offspring: seq<Individual>)
      requires scenario.tariffs.rates.Length == HoursPerDay && |scenario.appliances| >= 1
      requires |population| == parameters.populationSize && Assessed(scenario, population)
      modifies rng
      ensures |offspring| == |population| && Distinct(offspring) && Assessed(scenario, offspring)
      ensures forall c :: c in offspring ==> fresh(c)
      ensures Assessed(scenario, population)
    {
      offspring := Variation.CreateOffspring(population, parameters.populationSize, parameters.crossoverRate,
                                             parameters.mutationRate, |scenario.appliances|, rng);
      forall c | c in offspring
        ensures Fitness.Evaluable(scenario.appliances, c.startTimes[..])
      {
        assert forall g :: 0 <= g < |scenario.appliances| ==> c.startTimes[..][g] >= 0;
      }
      Fitness.EvaluatePopulation(scenario, offspring);
    }

    /** One pass of Run's loop body after the cancellation check: a generation, then its report. */
    method NextGeneration(population: seq<Individual>, progress: bool, generation: int)
        returns (next: seq<Individual>, report: Option<Snapshot>)
      requires scenario.tariffs.rates.Length == HoursPerDay && |scenario.appliances| >= 1
      requires |population| == parameters.populationSize && Distinct(population) && Assessed(scenario, population)
      modifies rng, (set x | x in population)`rank, (set x | x in population)`crowdingDistance
      ensures |next| == |population| && Distinct(next) && Assessed(scenario, next)
      ensures forall x :: x in next ==> x in population || fresh(x)
      ensures report.Some? <==> progress
      ensures report.Some? ==> report.value.generation == generation && report.value.population == next
      ensures report.Some? ==> FrontIsUndominated(report.value)
      ensures forall x, y :: x in population && y in next && Dominates(x.ObjectiveValues(), y.ObjectiveValues()) ==>
        x in next
    {
      var offspring;
      next, offspring := Generation(population);
      report := ReportProgress(progress, next, generation);
    }

    /**
     * The optimisation: an evaluated random population, then Generations
     * rounds of Generation, each preceded by the cancellation check. With a
     * progress sink, a snapshot follows the initial population and every
     * generation.
     */
    method Run(progress: bool, cancelled: nat -> bool) returns (outcome: Outcome, reports: seq<Snapshot>)
      requires scenario.tariffs.rates.Length == HoursPerDay && |scenario.appliances| >= 1
      modifies rng
      ensures outcome.CapacityOutOfRange? <==> parameters.populationSize < 0
      ensures outcome.Cancelled? ==> outcome.generation < parameters.generations && cancelled(outcome.generation)
      ensures outcome.Cancelled? ==> forall g :: 0 <= g < outcome.generation ==> !cancelled(g)
      ensures outcome.Completed? ==> forall g :: 0 <= g < parameters.generations ==> !cancelled(g)
      ensures outcome.Completed? ==> |outcome.population| == parameters.populationSize && Distinct(outcome.population)
      ensures outcome.Completed? ==> Assessed(scenario, outcome.population) && forall x :: x in outcome.population ==> fresh(x)
      ensures !progress || outcome.CapacityOutOfRange? ==> reports == []
      ensures (forall g :: 0 <= g < |reports| ==> reports[g].generation == g) && FrontsAreUndominated(reports)
      ensures progress && outcome.Cancelled? ==> |reports| == outcome.generation + 1
      ensures progress && outcome.Completed? ==>
        |reports| == (if parameters.generations > 0 then parameters.generations else 0) + 1
        && reports[|reports| - 1].population == outcome.population
    {
      var initial;
      initial, reports := Start(progress);
      if initial.Failure? {
        return CapacityOutOfRange, [];
      }
      outcome, reports := Evolve(initial.value, progress, cancelled, reports);
    }

    /** Run before its loop: the evaluated random population and, with a progress sink, its report. */
    method Start(progress: bool) returns (initial: Result<seq<Individual>>, reports: seq<Snapshot>)
      requires scenario.tariffs.rates.Length == HoursPerDay && |scenario.appliances| >= 1
      modifies rng
      ensures initial.Failure? <==> parameters.populationSize < 0
      ensures initial.Success? ==> |initial.value| == parameters.populationSize && Distinct(initial.value)
      ensures initial.Success? ==> Assessed(scenario, initial.value) && forall x :: x in initial.value ==> fresh(x)
      ensures !progress || initial.Failure? ==> reports == []
      ensures progress && initial.Success? ==> |reports| == 1 && reports[0].population == initial.value
      ensures (forall g :: 0 <= g < |reports| ==> reports[g].generation == g) && FrontsAreUndominated(reports)
    {
      reports := [];
      initial := Populate();
      if initial.Failure? {
        return;
      }
      var report := ReportProgress(progress, initial.value, 0);
      if report.Some? {
        reports := [report.value];
      }
    }

    /** The start of Run: a random population, evaluated. */
    method Populate() returns (r: Result<seq<Individual>>)
      requires scenario.tariffs.rates.Length == HoursPerDay
      modifies rng
      ensures r.Failure? <==> parameters.populationSize < 0
      ensures r.Success? ==> |r.value| == parameters.populationSize && Distinct(r.value)
      ensures r.Success? ==> Assessed(scenario, r.value) && forall x :: x in r.value ==> fresh(x)
    {
      r := InitializePopulation();
      if r.Failure? {
        return;
      }
      forall x | x in r.value
        ensures Fitness.Evaluable(scenario.appliances, x.startTimes[..])
      {
        assert forall g :: 0 <= g < |scenario.appliances| ==> x.startTimes[..][g] >= 0;
      }
      Fitness.EvaluatePopulation(scenario, r.value);
    }

    /** One pass of Evolve's loop: the next generation, its report appended when there is a progress sink. */
    method Advance(population: seq<Individual>, progress: bool, generation: nat, reports: seq<Snapshot>)
        returns (next: seq<Individual>, extended: seq<Snapshot>)
      requires scenario.tariffs.rates.Length == HoursPerDay && |scenario.appliances| >= 1
      requires |population| == parameters.populationSize && Distinct(population) && Assessed(scenario, population)
      requires (forall g :: 0 <= g < |reports| ==> reports[g].generation == g) && FrontsAreUndominated(reports)
      requires progress ==> |reports| == generation + 1
      modifies rng, (set x | x in population)`rank, (set x | x in population)`crowdingDistance
      ensures |next| == |population| && Distinct(next) && Assessed(scenario, next)
      ensures forall x :: x in next ==> x in population || fresh(x)
      ensures !progress ==> extended == reports
      ensures progress ==> |extended| == generation + 2 && extended[generation + 1].population == next
      ensures (forall g :: 0 <= g < |extended| ==> extended[g].generation == g) && FrontsAreUndominated(extended)
    {
      var report;
      next, report := NextGeneration(population, progress, generation + 1);
      extended := reports;
      if report.Some? {
        extended := reports + [report.value];
      }
    }

    /** Run's generation loop, from the evaluated initial population and its report. */
    method Evolve(initial: seq<Individual>, progress: bool, cancelled: nat -> bool, initialReports: seq<Snapshot>)
        returns (outcome: Outcome, reports: seq<Snapshot>)
      requires scenario.tariffs.rates.Length == HoursPerDay && |scenario.appliances| >= 1
      requires |initial| == parameters.populationSize && Distinct(initial) && Assessed(scenario, initial)
      requires !progress ==> initialReports == []
      requires progress ==> |initialReports| == 1 && initialReports[0].population == initial
      requires (forall g :: 0 <= g < |initialReports| ==> initialReports[g].generation == g)
        && FrontsAreUndominated(initialReports)
      modifies rng, (set x | x in initial)`rank, (set x | x in initial)`crowdingDistance
      ensures !outcome.CapacityOutOfRange?
      ensures outcome.Cancelled? ==> outcome.generation < parameters.generations && cancelled(outcome.generation)
      ensures outcome.Cancelled? ==> forall g :: 0 <= g < outcome.generation ==> !cancelled(g)
      ensures outcome.Completed? ==> forall g :: 0 <= g < parameters.generations ==> !cancelled(g)
      ensures outcome.Completed? ==> |outcome.population| == parameters.populationSize && Distinct(outcome.population)
      ensures outcome.Completed? ==> Assessed(scenario, outcome.population)
      ensures outcome.Completed? ==> forall x :: x in outcome.population ==> x in initial || fresh(x)
      ensures !progress ==> reports == []
      ensures (forall g :: 0 <= g < |reports| ==> reports[g].generation == g) && FrontsAreUndominated(reports)
      ensures progress && outcome.Cancelled? ==> |reports| == outcome.generation + 1
      ensures progress && outcome.Completed? ==>
        |reports| == (if parameters.generations > 0 then parameters.generations else 0) + 1
        && reports[|reports| - 1].population == outcome.population
    {
      reports := initialReports;
      var population := initial;
      var generation := 0;
      while generation < parameters.generations
        invariant 0 <= generation && (generation == 0 || generation <= parameters.generations)
        invariant |population| == parameters.populationSize && Distinct(population) && Assessed(scenario, population)
        invariant forall x :: x in population ==> x in initial || fresh(x)
        invariant forall g :: 0 <= g < generation ==> !cancelled(g)
        invariant !progress ==> reports == []
        invariant progress ==> |reports| == generation + 1 && reports[generation].population == population
        invariant (forall g :: 0 <= g < |reports| ==> reports[g].generation == g) && FrontsAreUndominated(reports)
        decreases parameters.generations - generation
      {
        if cancelled(generation) {
          return Cancelled(generation), reports;
        }
        population, reports := Advance(population, progress, generation, reports);
        generation := generation + 1;
      }
      outcome := Completed(population);
    }
  }

  /**
   * The replacement step of Run: the combined population is sorted into
   * fronts, and the next population takes whole fronts in rank order until
   * one does not fit, whose most crowded members fill the rest.
   */
  method Replace(combined: seq<Individual>, size: nat) returns (next: seq<Individual>)
    requires Distinct(combined)
    modifies (set x | x in combined)`rank, (set x | x in combined)`crowdingDistance
    ensures |next| == if |combined| <= size then |combined| else size
    ensures Distinct(next) && forall x :: x in next ==> x in combined
    ensures forall x, y :: x in combined && y in next && x.rank < y.rank ==> x in next
    ensures forall x, y :: x in combined && y in next && Dominates(x.ObjectiveValues(), y.ObjectiveValues()) ==> x in next
    ensures forall x, y :: x in next && y in combined && y !in next && x.rank == y.rank ==>
      !x.crowdingDistance.Below(y.crowdingDistance)
    ensures RankedByDominance(combined) && RanksAreLayers(combined)
  {
    var fronts := Sort(combined);
    next := Select(combined, fronts, size);
    assert RankedByDominance(combined) && RanksAreLayers(combined);
    DominanceElitism(combined, next);
  }

  /**
   * The selection half of the replacement: whole fronts first, then the most
   * crowded of the front that does not fit. The crowding distances it leaves
   * on each front it reaches are those of Replacement.SelectSurvivors.
   */
  method Select(combined: seq<Individual>, fronts: seq<seq<Individual>>, size: nat) returns (next: seq<Individual>)
    requires Distinct(combined) && Layered(combined, fronts)
    modifies (set x | x in combined)`crowdingDistance
    ensures |next| == if |combined| <= size then |combined| else size
    ensures Distinct(next) && forall x :: x in next ==> x in combined
    ensures forall x, y :: x in combined && y in next && x.rank < y.rank ==> x in next
    ensures forall x, y :: x in next && y in combined && y !in next && x.rank == y.rank ==>
      !x.crowdingDistance.Below(y.crowdingDistance)
  {
    LayersDisjoint(combined, fronts);
    next := Replacement.SelectSurvivors(combined, fronts, size);
    ghost var w := Replacement.FittingFronts(fronts, size);
    ghost var d := if w < |fronts| then Replacement.DistancesOf(fronts[w]) else [];
    assert |next| == if |combined| <= size then |combined| else size by {
      Replacement.SurvivorsSize(fronts, d, size);
      Replacement.ConcatPartitionSize(combined, fronts);
    }
    assert Distinct(next) by {
      Replacement.SurvivorsDistinct(fronts, d, size);
    }
    assert forall x :: x in next ==> x in combined by {
      SurvivorsFromCombined(combined, fronts, d, size);
    }
    assert forall x, y :: x in combined && y in next && x.rank < y.rank ==> x in next by {
      RankElitism(combined, fronts, d, size);
    }
    CrowdingCut(combined, fronts, size, next);
  }

  /** NonDominatedSort on the combined population, its result stated as Layered. */
  method Sort(combined: seq<Individual>) returns (fronts: seq<seq<Individual>>)
    requires Distinct(combined)
    modifies (set x | x in combined)`rank
    ensures Layered(combined, fronts) && RankedByDominance(combined) && RanksAreLayers(combined)
  {
    fronts := Ranking.NonDominatedSort(combined);
    FrontsGiveLayers(combined, fronts);
  }

  /** The ranks NonDominatedSort gives: a dominating member ranks better, and rank 1 is exactly the undominated members. */
  ghost predicate RankedByDominance(combined: seq<Individual>)
    reads (set x | x in combined)`rank, (set x | x in combined)`cost, (set x | x in combined)`discomfort
  {
    (forall x, y :: x in combined && y in combined && Dominates(x.ObjectiveValues(), y.ObjectiveValues()) ==>
      x.rank < y.rank)
    && (forall x :: x in combined ==> (x.rank == 1 <==> Undominated(combined, x)))
  }

  /**
   * The ranks are the front numbers: every rank is at least 1, and a member
   * of rank r > 1 is dominated by a member of rank r - 1. With
   * RankedByDominance this fixes every rank (RanksAreFrontNumbers).
   */
  ghost predicate RanksAreLayers(population: seq<Individual>)
    reads (set x | x in population)`rank, (set x | x in population)`cost, (set x | x in population)`discomfort
  {
    (forall x :: x in population ==> x.rank >= 1)
    && forall x {:trigger LayerParent(population, x)} :: x in population && x.rank != 1 ==> LayerParent(population, x)
  }

  /** Fronts numbered by rank, each member after the first front dominated from the front before, give layered ranks. */
  lemma FrontsGiveLayers(population: seq<Individual>, fronts: seq<seq<Individual>>)
    requires forall k, x {:trigger x in fronts[k]} :: 0 <= k < |fronts| && x in fronts[k] ==> x in population && x.rank == k + 1
    requires forall x :: x in population ==> exists k :: 0 <= k < |fronts| && x in fronts[k]
    requires forall k, x {:trigger x in fronts[k]} :: 1 <= k < |fronts| && x in fronts[k] ==> Ranking.DominatedByMemberOf(fronts[k - 1], x)
    ensures RanksAreLayers(population)
  {
    forall x | x in population
      ensures x.rank >= 1
    {
      var k :| 0 <= k < |fronts| && x in fronts[k];
    }
    forall x | x in population && x.rank != 1
      ensures LayerParent(population, x)
    {
      var k :| 0 <= k < |fronts| && x in fronts[k];
      assert k >= 1;
      assert Ranking.DominatedByMemberOf(fronts[k - 1], x);
      var y :| y in fronts[k - 1] && Dominates(y.ObjectiveValues(), x.ObjectiveValues());
      assert y in population && y.rank == x.rank - 1;
    }
  }

  /** Some member one rank better dominates x. */
  ghost predicate LayerParent(population: seq<Individual>, x: Individual)
    reads x`rank, x`cost, x`discomfort
    reads (set y | y in population)`rank, (set y | y in population)`cost, (set y | y in population)`discomfort
  {
    exists y :: y in population && y.rank == x.rank - 1 && Dominates(y.ObjectiveValues(), x.ObjectiveValues())
  }

  /** The members' ranks, as levels counted from 0. */
  ghost function Levels(population: seq<Individual>): (level: seq<int>)
    reads (set x | x in population)`rank
    ensures |level| == |population| && forall q :: 0 <= q < |population| ==> level[q] == population[q].rank - 1
  {
    if population == [] then []
    else Levels(population[..|population| - 1]) + [population[|population| - 1].rank - 1]
  }

  /** An upper bound of a list of levels. */
  function Highest(level: seq<int>): (top: int)
    ensures forall q :: 0 <= q < |level| ==> level[q] <= top
  {
    if level == [] then 0
    else var rest := Highest(level[..|level| - 1]); if level[|level| - 1] > rest then level[|level| - 1] else rest
  }

  /**
   * Ranks that follow dominance and come in layers are the front numbers:
   * they equal, member by member, the levels of any complete layering of
   * the population's objectives, which NonDominatedSort computes.
   */
  lemma RanksAreFrontNumbers(population: seq<Individual>, level: seq<int>, top: int)
    requires RankedByDominance(population) && RanksAreLayers(population)
    requires Ranking.Layering(Ranking.ObjectivesOf(population), level, top)
    requires forall q :: 0 <= q < |level| ==> level[q] >= 0
    ensures forall q :: 0 <= q < |population| ==> population[q].rank == level[q] + 1
  {
    LevelsLayered(population);
    var ranks := Levels(population);
    Ranking.LayeringUnique(Ranking.ObjectivesOf(population), ranks, Highest(ranks), level, top);
  }

  /** The members' levels form a complete layering of their objectives. */
  lemma LevelsLayered(population: seq<Individual>)
    requires RankedByDominance(population) && RanksAreLayers(population)
    ensures var ranks := Levels(population);
      Ranking.Layering(Ranking.ObjectivesOf(population), ranks, Highest(ranks))
      && forall q :: 0 <= q < |ranks| ==> ranks[q] >= 0
  {
    LevelsPlaced(population);
    FirstLevelUndominated(population);
    LevelsFollowDominance(population);
    LevelsHaveParents(population);
    LayeringFromParts(Ranking.ObjectivesOf(population), Levels(population));
  }

  /** Placed levels that satisfy the layering's three rules form a layering, up to their highest level. */
  lemma LayeringFromParts(objs: seq<Objectives>, level: seq<int>)
    requires |level| == |objs| && forall q :: 0 <= q < |level| ==> level[q] >= 0
    requires forall q :: 0 <= q < |objs| ==> (level[q] == 0 <==> Ranking.Undominated(objs, q))
    requires forall q, p {:trigger Dominates(objs[p], objs[q])} :: 0 <= q < |objs| && 0 <= p < |objs| && level[q] >= 0 && Dominates(objs[p], objs[q]) ==>
      0 <= level[p] < level[q]
    requires forall q {:trigger Ranking.HasParent(objs, level, q)} :: 0 <= q < |objs| && level[q] >= 1 ==> Ranking.HasParent(objs, level, q)
    ensures Ranking.Layering(objs, level, Highest(level))
  {
  }

  /** Every rank is at least 1, so every level is placed. */
  lemma LevelsPlaced(population: seq<Individual>)
    requires RanksAreLayers(population)
    ensures forall q :: 0 <= q < |population| ==> Levels(population)[q] >= 0
  {
    forall q | 0 <= q < |population|
      ensures Levels(population)[q] >= 0
    {
      assert population[q] in population;
    }
  }

  /** Level 0 holds exactly the undominated members. */
  lemma FirstLevelUndominated(population: seq<Individual>)
    requires RankedByDominance(population) && RanksAreLayers(population)
    ensures var objs := Ranking.ObjectivesOf(population);
      forall q :: 0 <= q < |objs| ==> (Levels(population)[q] == 0 <==> Ranking.Undominated(objs, q))
  {
    var objs := Ranking.ObjectivesOf(population);
    forall q | 0 <= q < |objs|
      ensures Levels(population)[q] == 0 <==> Ranking.Undominated(objs, q)
    {
      var x := population[q];
      assert x in population;
      if x.rank == 1 {
        forall p | 0 <= p < |objs|
          ensures !Dominates(objs[p], objs[q])
        {
          assert population[p] in population;
        }
      } else {
        assert LayerParent(population, x);
        var y :| y in population && y.rank == x.rank - 1 && Dominates(y.ObjectiveValues(), x.ObjectiveValues());
        var p :| 0 <= p < |population| && population[p] == y;
        assert Dominates(objs[p], objs[q]);
      }
    }
  }

  /** A dominator sits on a strictly lower level. */
  lemma LevelsFollowDominance(population: seq<Individual>)
    requires RankedByDominance(population) && RanksAreLayers(population)
    ensures var objs := Ranking.ObjectivesOf(population); var ranks := Levels(population);
      forall q, p {:trigger Dominates(objs[p], objs[q])} :: 0 <= q < |objs| && 0 <= p < |objs| && ranks[q] >= 0 && Dominates(objs[p], objs[q]) ==>
        0 <= ranks[p] < ranks[q]
  {
    var objs := Ranking.ObjectivesOf(population);
    var ranks := Levels(population);
    forall q, p | 0 <= q < |objs| && 0 <= p < |objs| && ranks[q] >= 0 && Dominates(objs[p], objs[q])
      ensures 0 <= ranks[p] < ranks[q]
    {
      assert population[p] in population && population[q] in population;
      assert population[p].rank < population[q].rank;
    }
  }

  /** Each member above level 0 has a dominator one level up. */
  lemma LevelsHaveParents(population: seq<Individual>)
    requires RanksAreLayers(population)
    ensures var objs := Ranking.ObjectivesOf(population); var ranks := Levels(population);
      forall q {:trigger Ranking.HasParent(objs, ranks, q)} :: 0 <= q < |objs| && ranks[q] >= 1 ==> Ranking.HasParent(objs, ranks, q)
  {
    var objs := Ranking.ObjectivesOf(population);
    var ranks := Levels(population);
    forall q | 0 <= q < |objs| && ranks[q] >= 1
      ensures Ranking.HasParent(objs, ranks, q)
    {
      var x := population[q];
      assert x in population;
      assert LayerParent(population, x);
      var y :| y in population && y.rank == x.rank - 1 && Dominates(y.ObjectiveValues(), x.ObjectiveValues());
      var p :| 0 <= p < |population| && population[p] == y;
      assert Dominates(objs[p], objs[q]) && ranks[p] == ranks[q] - 1;
    }
  }

  /** When better rank means survival, a member that dominates a survivor survives. */
  lemma DominanceElitism(combined: seq<Individual>, next: seq<Individual>)
    requires forall x :: x in next ==> x in combined
    requires RankedByDominance(combined)
    requires forall x, y :: x in combined && y in next && x.rank < y.rank ==> x in next
    ensures forall x, y :: x in combined && y in next && Dominates(x.ObjectiveValues(), y.ObjectiveValues()) ==> x in next
  {
    forall x, y | x in combined && y in next && Dominates(x.ObjectiveValues(), y.ObjectiveValues())
      ensures x in next
    {
      assert y in combined;
    }
  }

  /** Fronts as the non-dominated sorting of `combined` leaves them: duplicate-free, covering, ranked by position. */
  ghost predicate Layered(combined: seq<Individual>, fronts: seq<seq<Individual>>)
    reads (set x | x in combined)`rank
  {
    (forall k :: 0 <= k < |fronts| ==> Distinct(fronts[k]))
    && (forall k, x :: 0 <= k < |fronts| && x in fronts[k] ==> x in combined && x.rank == k + 1)
    && (forall x :: x in combined ==> exists k :: 0 <= k < |fronts| && x in fronts[k])
  }

  /** Ranked fronts do not share members. */
  lemma LayersDisjoint(combined: seq<Individual>, fronts: seq<seq<Individual>>)
    requires Layered(combined, fronts)
    ensures forall k, l, x :: 0 <= k < l < |fronts| && x in fronts[k] ==> x !in fronts[l]
  {
    forall k, l, x | 0 <= k < l < |fronts| && x in fronts[k]
      ensures x !in fronts[l]
    {
      assert x.rank == k + 1;
    }
  }

  /** Survivors come from the combined population. */
  lemma SurvivorsFromCombined(combined: seq<Individual>, fronts: seq<seq<Individual>>, distances: seq<ExtReal>, size: nat)
    requires Layered(combined, fronts)
    requires Replacement.FittingFronts(fronts, size) < |fronts| ==>
      |distances| == |fronts[Replacement.FittingFronts(fronts, size)]|
    ensures forall x :: x in Replacement.Survivors(fronts, distances, size) ==> x in combined
  {
    Replacement.SurvivorsMembers(fronts, distances, size);
  }

  /** A member of the combined population ranked better than some survivor survives too. */
  lemma RankElitism(combined: seq<Individual>, fronts: seq<seq<Individual>>, distances: seq<ExtReal>, size: nat)
    requires Layered(combined, fronts)
    requires Replacement.FittingFronts(fronts, size) < |fronts| ==>
      |distances| == |fronts[Replacement.FittingFronts(fronts, size)]|
    ensures forall x, y :: x in combined && y in Replacement.Survivors(fronts, distances, size) && x.rank < y.rank ==>
      x in Replacement.Survivors(fronts, distances, size)
  {
    var w := Replacement.FittingFronts(fronts, size);
    Replacement.SurvivorsMembers(fronts, distances, size);
    forall x, y | x in combined && y in Replacement.Survivors(fronts, distances, size) && x.rank < y.rank
      ensures x in Replacement.Survivors(fronts, distances, size)
    {
      var kx :| 0 <= kx < |fronts| && x in fronts[kx];
      var ky :| 0 <= ky <= w && ky < |fronts| && y in fronts[ky];
    }
  }

  /** Two members of the same rank, one kept and one dropped: the kept one is at least as crowded. */
  lemma CrowdingCut(combined: seq<Individual>, fronts: seq<seq<Individual>>, size: nat, next: seq<Individual>)
    requires Layered(combined, fronts)
    requires var w := Replacement.FittingFronts(fronts, size);
      next == Replacement.Survivors(fronts, if w < |fronts| then Replacement.DistancesOf(fronts[w]) else [], size)
    ensures forall x, y :: x in next && y in combined && y !in next && x.rank == y.rank ==>
      !x.crowdingDistance.Below(y.crowdingDistance)
  {
    var w := Replacement.FittingFronts(fronts, size);
    var d := if w < |fronts| then Replacement.DistancesOf(fronts[w]) else [];
    LayersDisjoint(combined, fronts);
    Replacement.SurvivorsMembers(fronts, d, size);
    forall x, y | x in next && y in combined && y !in next && x.rank == y.rank
      ensures !x.crowdingDistance.Below(y.crowdingDistance)
    {
      var kx :| 0 <= kx <= w && kx < |fronts| && x in fronts[kx];
      var ky :| 0 <= ky < |fronts| && y in fronts[ky];
      assert kx == ky == w;
      var i :| 0 <= i < |fronts[w]| && fronts[w][i] == x;
      var j :| 0 <= j < |fronts[w]| && fronts[w][j] == y;
      Replacement.SurvivorsKeepMostCrowded(fronts, d, size, i, j);
    }
  }
}
