/**
 * The genetic operators of NSGAIIEngine: binary tournament selection,
 * single-point crossover, per-gene mutation and the offspring loop that
 * combines them. They draw from the engine's random generator, passed here
 * as `rng`, and take the rates from the engine's parameters.
 */
module Variation {
  import opened Models
  import opened Randomness

  /** Every gene is an hour of the day, the range Next(0, 24) draws from. */
  predicate OnClock(genome: seq<int>) {
    forall k :: 0 <= k < |genome| ==> 0 <= genome[k] < HoursPerDay
  }

  // ----- selection -----

  /**
   * The contest between the two drawn candidates: the lower rank wins; on
   * equal ranks the larger crowding distance wins, and a wins a tie.
   */
  function Winner(a: Individual, b: Individual): (w: Individual)
    reads a`rank, a`crowdingDistance, b`rank, b`crowdingDistance
    ensures w == a || w == b
    ensures w.rank <= a.rank && w.rank <= b.rank
    ensures a.rank == b.rank ==> !w.crowdingDistance.Below(a.crowdingDistance) && !w.crowdingDistance.Below(b.crowdingDistance)
    ensures a.rank == b.rank && a.crowdingDistance == b.crowdingDistance ==> w == a
  {
    if Prevails(a.rank, a.crowdingDistance, b.rank, b.crowdingDistance) then a else b
  }

  /**
   * Whether the first candidate wins the contest: its rank is lower, or the
   * ranks are equal and its crowding distance is at least the other's.
   */
  predicate Prevails(rank: int, crowdingDistance: ExtReal, otherRank: int, otherCrowdingDistance: ExtReal) {
    if rank != otherRank then rank < otherRank
    else !crowdingDistance.Below(otherCrowdingDistance)
  }

  /** Draws two members (possibly the same one) and returns the winner of their contest. */
  method BinaryTournament(population: seq<Individual>, rng: Random) returns (w: Individual)
    requires |population| > 0
    modifies rng
    ensures rng.position == old(rng.position) + 2
    ensures w in population
    ensures w == Winner(population[rng.draws(old(rng.position)) % |population|],
                        population[rng.draws(old(rng.position) + 1) % |population|])
  {
    var i := rng.Next(|population|);
    var j := rng.Next(|population|);
    var a := population[i];
    var b := population[j];
    if a.rank != b.rank {
      return if a.rank < b.rank then a else b;
    }
    return if !a.crowdingDistance.Below(b.crowdingDistance) then a else b;
  }

  // ----- crossover -----

  /** The first child's genome after crossing at `point`: its own genes before the point, the other's from it on. */
  function Crossed(own: seq<int>, other: seq<int>, point: nat): (r: seq<int>)
    requires point <= |own| == |other|
    ensures |r| == |own|
    ensures forall k :: 0 <= k < |r| ==> r[k] == if k < point then own[k] else other[k]
  {
    own[..point] + other[point..]
  }

  /** Crossing the two children again at the same point gives back the parents. */
  lemma CrossoverInvolution(g1: seq<int>, g2: seq<int>, point: nat)
    requires point <= |g1| == |g2|
    ensures Crossed(Crossed(g1, g2, point), Crossed(g2, g1, point), point) == g1
    ensures Crossed(Crossed(g2, g1, point), Crossed(g1, g2, point), point) == g2
  {
    var c1 := Crossed(g1, g2, point);
    var c2 := Crossed(g2, g1, point);
    assert Crossed(c1, c2, point) == g1 by {
      forall k | 0 <= k < |g1|
        ensures Crossed(c1, c2, point)[k] == g1[k]
      {
      }
    }
    assert Crossed(c2, c1, point) == g2 by {
      forall k | 0 <= k < |g2|
        ensures Crossed(c2, c1, point)[k] == g2[k]
      {
      }
    }
  }

  /** At every position the two children hold the two parents' genes, so hours stay hours. */
  lemma CrossoverConservesGenes(g1: seq<int>, g2: seq<int>, point: nat)
    requires point <= |g1| == |g2|
    ensures forall k :: 0 <= k < |g1| ==>
      multiset{Crossed(g1, g2, point)[k], Crossed(g2, g1, point)[k]} == multiset{g1[k], g2[k]}
    ensures OnClock(g1) && OnClock(g2) ==> OnClock(Crossed(g1, g2, point)) && OnClock(Crossed(g2, g1, point))
  {
    var c1, c2 := Crossed(g1, g2, point), Crossed(g2, g1, point);
    forall k | 0 <= k < |g1|
      ensures multiset{c1[k], c2[k]} == multiset{g1[k], g2[k]}
    {
      if k < point {
        assert c1[k] == g1[k] && c2[k] == g2[k];
      } else {
        assert c1[k] == g2[k] && c2[k] == g1[k];
        assert multiset{g2[k], g1[k]} == multiset{g1[k], g2[k]};
      }
    }
  }

  /**
   * Draws a point in [1, length) (1 when the genome has one gene) and
   * swaps the two genomes from that point on; the prefixes stay put.
   */
  method SinglePointCrossover(child1: Individual, child2: Individual, rng: Random)
    requires child1.startTimes != child2.startTimes
    requires child1.startTimes.Length == child2.startTimes.Length >= 1
    modifies child1.startTimes, child2.startTimes, rng
    ensures rng.position == old(rng.position) + 1
    ensures var point := Between(1, child1.startTimes.Length, rng.draws(old(rng.position)));
      child1.startTimes[..] == Crossed(old(child1.startTimes[..]), old(child2.startTimes[..]), point)
      && child2.startTimes[..] == Crossed(old(child2.startTimes[..]), old(child1.startTimes[..]), point)
    ensures OnClock(old(child1.startTimes[..])) && OnClock(old(child2.startTimes[..])) ==>
      OnClock(child1.startTimes[..]) && OnClock(child2.startTimes[..])
  {
    var g1, g2 := child1.startTimes, child2.startTimes;
    ghost var s1, s2 := g1[..], g2[..];
    var point := rng.NextInRange(1, g1.Length);
    for i := point to g1.Length
      modifies g1, g2
      invariant forall k :: 0 <= k < g1.Length ==> g1[k] == if point <= k < i then s2[k] else s1[k]
      invariant forall k :: 0 <= k < g2.Length ==> g2[k] == if point <= k < i then s1[k] else s2[k]
    {
      g1[i], g2[i] := g2[i], g1[i];
    }
    assert g1[..] == Crossed(s1, s2, point);
    assert g2[..] == Crossed(s2, s1, point);
    CrossoverConservesGenes(s1, s2, point);
  }

  // ----- mutation -----

  /** A genome together with the generator position after producing it. */
  datatype Mutated = Mutated(genes: seq<int>, position: nat)

  /**
   * What Mutate makes of `genes` when the generator stands at `position`:
   * gene by gene, one NextDouble, and when it falls below `rate` a fresh
   * Next(0, 24) for the gene.
   */
  function Mutation(genes: seq<int>, rate: real, draws: nat -> int, position: nat): (m: Mutated)
    ensures |m.genes| == |genes|
    ensures position + |genes| <= m.position <= position + 2 * |genes|
  {
    if genes == [] then Mutated([], position)
    else
      var prefix := Mutation(genes[..|genes| - 1], rate, draws, position);
      var last := GeneMutation(genes[|genes| - 1], rate, draws, prefix.position);
      Mutated(prefix.genes + [last.0], last.1)
  }

  /**
   * What Mutate makes of one gene with the generator at `position`: a
   * NextDouble, and when it is below `rate` a fresh Next(0, 24) replaces the
   * gene. The second component is the generator position afterwards.
   */
  function GeneMutation(gene: int, rate: real, draws: nat -> int, position: nat): (r: (int, nat))
    ensures r.1 == position + 1 || r.1 == position + 2
    ensures r.0 == gene || 0 <= r.0 < HoursPerDay
    ensures r.1 == position + 1 <==> UnitDouble(draws(position)) >= rate
    ensures r.1 == position + 1 ==> r.0 == gene
  {
    if UnitDouble(draws(position)) < rate then (Between(0, HoursPerDay, draws(position + 1)), position + 2)
    else (gene, position + 1)
  }

  /** Each gene is either kept or redrawn as an hour, so a genome of hours stays one. */
  lemma {:induction false} MutationKeepsOrRedraws(genes: seq<int>, rate: real, draws: nat -> int, position: nat)
    ensures var m := Mutation(genes, rate, draws, position).genes;
      forall k :: 0 <= k < |genes| ==> m[k] == genes[k] || 0 <= m[k] < HoursPerDay
    ensures OnClock(genes) ==> OnClock(Mutation(genes, rate, draws, position).genes)
  {
    if genes != [] {
      MutationKeepsOrRedraws(genes[..|genes| - 1], rate, draws, position);
    }
  }

  /** With a rate of 0 or less no gene changes (NextDouble is never negative), and one draw is used per gene. */
  lemma {:induction false} MutationAtZeroRate(genes: seq<int>, rate: real, draws: nat -> int, position: nat)
    requires rate <= 0.0
    ensures Mutation(genes, rate, draws, position) == Mutated(genes, position + |genes|)
  {
    if genes != [] {
      MutationAtZeroRate(genes[..|genes| - 1], rate, draws, position);
      assert genes[..|genes| - 1] + [genes[|genes| - 1]] == genes;
    }
  }

  /** With a rate of 1 or more every gene is redrawn (NextDouble is below 1), using two draws per gene. */
  lemma {:induction false} MutationAtFullRate(genes: seq<int>, rate: real, draws: nat -> int, position: nat)
    requires rate >= 1.0
    ensures OnClock(Mutation(genes, rate, draws, position).genes)
    ensures Mutation(genes, rate, draws, position).position == position + 2 * |genes|
  {
    if genes != [] {
      MutationAtFullRate(genes[..|genes| - 1], rate, draws, position);
      MutationKeepsOrRedraws(genes, rate, draws, position);
    }
  }

  /** Redraws each gene of `individual` with probability `rate`, in gene order. */
  method Mutate(individual: Individual, rate: real, rng: Random)
    modifies individual.startTimes, rng
    ensures individual.startTimes[..] == Mutation(old(individual.startTimes[..]), rate, rng.draws, old(rng.position)).genes
    ensures rng.position == Mutation(old(individual.startTimes[..]), rate, rng.draws, old(rng.position)).position
    ensures OnClock(old(individual.startTimes[..])) ==> OnClock(individual.startTimes[..])
  {
    var genome := individual.startTimes;
    ghost var original := genome[..];
    ghost var start := rng.position;
    for i := 0 to genome.Length
      invariant genome[..i] == Mutation(original[..i], rate, rng.draws, start).genes
      invariant rng.position == Mutation(original[..i], rate, rng.draws, start).position
      invariant genome[i..] == original[i..]
    {
      ghost var before := genome[..];
      MutationStep(original, rate, rng.draws, start, i);
      MutateGene(genome, i, rate, rng);
      assert genome[..i + 1] == before[..i] + [genome[i]];
    }
    assert genome[..] == genome[..genome.Length] && original == original[..genome.Length];
    MutationKeepsOrRedraws(original, rate, rng.draws, start);
  }

  /** The loop body of Mutate for gene i. */
  method MutateGene(genome: array<int>, i: nat, rate: real, rng: Random)
    requires i < genome.Length
    modifies genome, rng
    ensures var r := GeneMutation(old(genome[i]), rate, rng.draws, old(rng.position));
      genome[..] == old(genome[..])[i := r.0] && rng.position == r.1
  {
    var d := rng.NextDouble();
    if d < rate {
      genome[i] := rng.NextInRange(0, HoursPerDay);
    }
  }

  /** The mutation step of a round: the first child is mutated, then the second, from one generator. */
  method MutatePair(child1: Individual, child2: Individual, rate: real, rng: Random, ghost onClock: bool)
    requires child1.startTimes != child2.startTimes
    requires onClock ==> OnClock(child1.startTimes[..]) && OnClock(child2.startTimes[..])
    modifies child1.startTimes, child2.startTimes, rng
    ensures var first := Mutation(old(child1.startTimes[..]), rate, rng.draws, old(rng.position));
      var second := Mutation(old(child2.startTimes[..]), rate, rng.draws, first.position);
      child1.startTimes[..] == first.genes && child2.startTimes[..] == second.genes && rng.position == second.position
    ensures onClock ==> OnClock(child1.startTimes[..]) && OnClock(child2.startTimes[..])
  {
    ghost var original2 := child2.startTimes[..];
    Mutate(child1, rate, rng);
    ghost var mutated1 := child1.startTimes[..];
    assert child2.startTimes[..] == original2;
    Mutate(child2, rate, rng);
    assert child1.startTimes[..] == mutated1;
  }

  /** Mutating one more gene: the prefix's result followed by what the next draws make of gene i. */
  lemma MutationStep(genes: seq<int>, rate: real, draws: nat -> int, position: nat, i: nat)
    requires i < |genes|
    ensures var prefix := Mutation(genes[..i], rate, draws, position);
      var last := GeneMutation(genes[i], rate, draws, prefix.position);
      Mutation(genes[..i + 1], rate, draws, position) == Mutated(prefix.genes + [last.0], last.1)
  {
    assert genes[..i + 1][..i] == genes[..i];
  }

  // ----- offspring -----

  /** The two children of one round and the generator position after it. */
  datatype Brood = Brood(first: seq<int>, second: seq<int>, position: nat)

  /**
   * The crossover step of a round on genomes `a` and `b` with the generator
   * at `position`: a NextDouble below `crossoverRate` crosses them at a
   * point drawn next; otherwise they pass unchanged.
   */
  function Crossover(a: seq<int>, b: seq<int>, crossoverRate: real, draws: nat -> int, position: nat): (r: Brood)
    requires |a| == |b| >= 1
    ensures |r.first| == |a| && |r.second| == |b|
    ensures r.position == position + 1 || r.position == position + 2
  {
    if UnitDouble(draws(position)) < crossoverRate then
      var point := Between(1, |a|, draws(position + 1));
      Brood(Crossed(a, b, point), Crossed(b, a, point), position + 2)
    else Brood(a, b, position + 1)
  }

  /** The mutation step of a round: the first child is mutated, then the second, from the position `c` ends at. */
  function MutatedPair(c: Brood, mutationRate: real, draws: nat -> int): (r: Brood)
    ensures |r.first| == |c.first| && |r.second| == |c.second|
    ensures c.position + |c.first| + |c.second| <= r.position <= c.position + 2 * (|c.first| + |c.second|)
  {
    var m1 := Mutation(c.first, mutationRate, draws, c.position);
    var m2 := Mutation(c.second, mutationRate, draws, m1.position);
    Brood(m1.genes, m2.genes, m2.position)
  }

  /** What one round makes of the two tournament winners' genomes `a` and `b` with the generator at `position`. */
  function Offspring(a: seq<int>, b: seq<int>, crossoverRate: real, mutationRate: real,
                     draws: nat -> int, position: nat): (r: Brood)
    requires |a| == |b| >= 1
    ensures |r.first| == |a| && |r.second| == |b|
    ensures position + 1 + 2 * |a| <= r.position <= position + 2 + 4 * |a|
  {
    MutatedPair(Crossover(a, b, crossoverRate, draws, position), mutationRate, draws)
  }

  /** A round keeps genomes of hours genomes of hours: crossover swaps hours, mutation draws hours. */
  lemma OffspringOnClock(a: seq<int>, b: seq<int>, crossoverRate: real, mutationRate: real, draws: nat -> int, position: nat)
    requires |a| == |b| >= 1 && OnClock(a) && OnClock(b)
    ensures var r := Offspring(a, b, crossoverRate, mutationRate, draws, position);
      OnClock(r.first) && OnClock(r.second)
  {
    var c := Crossover(a, b, crossoverRate, draws, position);
    CrossoverConservesGenes(a, b, Between(1, |a|, draws(position + 1)));
    assert OnClock(c.first) && OnClock(c.second);
    MutationKeepsOrRedraws(c.first, mutationRate, draws, c.position);
    MutationKeepsOrRedraws(c.second, mutationRate, draws, Mutation(c.first, mutationRate, draws, c.position).position);
  }

  /** A member as a tournament sees it: its rank, its crowding distance and its genome. */
  datatype Entrant = Entrant(rank: int, crowdingDistance: ExtReal, genome: seq<int>)

  /** The population as values, member by member. */
  ghost function Entrants(population: seq<Individual>): (pool: seq<Entrant>)
    reads (set x | x in population)`rank, (set x | x in population)`crowdingDistance
    reads set x | x in population :: x.startTimes
    ensures |pool| == |population|
  {
    if population == [] then []
    else
      var last := population[|population| - 1];
      Entrants(population[..|population| - 1]) + [Entrant(last.rank, last.crowdingDistance, last.startTimes[..])]
  }

  /** Entry i of the pool holds member i's rank, crowding distance and genome. */
  lemma {:induction false} EntrantAt(population: seq<Individual>, i: nat)
    requires i < |population|
    ensures Entrants(population)[i]
      == Entrant(population[i].rank, population[i].crowdingDistance, population[i].startTimes[..])
  {
    if i < |population| - 1 {
      EntrantAt(population[..|population| - 1], i);
    }
  }

  /** The pool of a population whose genomes all have `geneCount` genes is uniform. */
  lemma EntrantsUniform(population: seq<Individual>, geneCount: nat)
    requires forall x :: x in population ==> x.startTimes.Length == geneCount
    ensures Uniform(Entrants(population), geneCount)
  {
    forall k | 0 <= k < |population|
      ensures |Entrants(population)[k].genome| == geneCount
    {
      EntrantAt(population, k);
    }
  }

  /** Every genome in the pool has `geneCount` genes. */
  predicate Uniform(pool: seq<Entrant>, geneCount: nat) {
    forall k :: 0 <= k < |pool| ==> |pool[k].genome| == geneCount
  }

  /** The genome of the winner of the tournament whose two draws start at `position`. */
  function Champion(pool: seq<Entrant>, draws: nat -> int, position: nat): (g: seq<int>)
    requires |pool| > 0
    ensures exists k :: 0 <= k < |pool| && g == pool[k].genome
  {
    var a, b := pool[draws(position) % |pool|], pool[draws(position + 1) % |pool|];
    if Prevails(a.rank, a.crowdingDistance, b.rank, b.crowdingDistance) then a.genome else b.genome
  }

  /** On the population's own values, the champion's genome is the genome of Winner's choice. */
  lemma ChampionIsWinner(population: seq<Individual>, draws: nat -> int, position: nat)
    requires |population| > 0
    ensures var n := |population|;
      Champion(Entrants(population), draws, position)
      == Winner(population[draws(position) % n], population[draws(position + 1) % n]).startTimes[..]
  {
    EntrantAt(population, draws(position) % |population|);
    EntrantAt(population, draws(position + 1) % |population|);
  }

  /** What one round of the offspring loop produces from `pool` with the generator at `position`. */
  function Round(pool: seq<Entrant>, geneCount: nat, crossoverRate: real, mutationRate: real,
                 draws: nat -> int, position: nat): (r: Brood)
    requires |pool| > 0 && geneCount >= 1 && Uniform(pool, geneCount)
    ensures |r.first| == |r.second| == geneCount
    ensures r.position > position
  {
    var a := Champion(pool, draws, position);
    var b := Champion(pool, draws, position + 2);
    Offspring(a, b, crossoverRate, mutationRate, draws, position + 4)
  }

  /** The children of `rounds` rounds in order, first then second child of each, and the generator position after them. */
  datatype Litter = Litter(genomes: seq<seq<int>>, position: nat)

  /** What the first `rounds` rounds of a batch produce from `pool`, the generator starting at `position`. */
  function Rounds(pool: seq<Entrant>, geneCount: nat, crossoverRate: real, mutationRate: real,
                  draws: nat -> int, position: nat, rounds: nat): (r: Litter)
    requires rounds > 0 ==> |pool| > 0 && geneCount >= 1 && Uniform(pool, geneCount)
    ensures |r.genomes| == 2 * rounds
    ensures r.position >= position
    decreases rounds, 0
  {
    if rounds == 0 then Litter([], position)
    else
      var b := RoundOf(pool, geneCount, crossoverRate, mutationRate, draws, position, rounds - 1);
      Litter(Rounds(pool, geneCount, crossoverRate, mutationRate, draws, position, rounds - 1).genomes
             + [b.first, b.second], b.position)
  }

  /** Round `k` of a batch, counting from 0: a `Round` from where the rounds before it leave the generator. */
  function RoundOf(pool: seq<Entrant>, geneCount: nat, crossoverRate: real, mutationRate: real,
                   draws: nat -> int, position: nat, k: nat): (r: Brood)
    requires |pool| > 0 && geneCount >= 1 && Uniform(pool, geneCount)
    ensures |r.first| == |r.second| == geneCount
    ensures r.position > position
    decreases k, 1
  {
    Round(pool, geneCount, crossoverRate, mutationRate, draws,
          Rounds(pool, geneCount, crossoverRate, mutationRate, draws, position, k).position)
  }

  /**
   * The rounds breeding has done after `rounds` passes of the offspring loop.
   * This is `Rounds` behind a non-recursive call, so that a proof about the
   * loop unfolds it only as far as `RoundOf`.
   */
  function Batch(pool: seq<Entrant>, geneCount: nat, crossoverRate: real, mutationRate: real,
                 draws: nat -> int, position: nat, rounds: nat): (r: Litter)
    requires rounds > 0 ==> |pool| > 0 && geneCount >= 1 && Uniform(pool, geneCount)
    ensures |r.genomes| == 2 * rounds
  {
    Rounds(pool, geneCount, crossoverRate, mutationRate, draws, position, rounds)
  }

  /** One more round appends the two children of a `Round` taken where the earlier rounds stopped. */
  lemma RoundsStep(pool: seq<Entrant>, geneCount: nat, crossoverRate: real, mutationRate: real,
                   draws: nat -> int, position: nat, k: nat)
    requires |pool| > 0 && geneCount >= 1 && Uniform(pool, geneCount)
    ensures var before := Rounds(pool, geneCount, crossoverRate, mutationRate, draws, position, k);
      var b := Round(pool, geneCount, crossoverRate, mutationRate, draws, before.position);
      Rounds(pool, geneCount, crossoverRate, mutationRate, draws, position, k + 1)
        == Litter(before.genomes + [b.first, b.second], b.position)
  {
  }

  /** Children `2k` and `2k + 1` of a batch are the first and second child of its round `k`. */
  lemma RoundsHoldRound(pool: seq<Entrant>, geneCount: nat, crossoverRate: real, mutationRate: real,
                        draws: nat -> int, position: nat, rounds: nat, k: nat)
    requires |pool| > 0 && geneCount >= 1 && Uniform(pool, geneCount)
    requires k < rounds
    ensures var batch := Rounds(pool, geneCount, crossoverRate, mutationRate, draws, position, rounds);
      var b := RoundOf(pool, geneCount, crossoverRate, mutationRate, draws, position, k);
      batch.genomes[2 * k] == b.first && batch.genomes[2 * k + 1] == b.second
  {
    var step: nat -> Brood := (p: nat) => Round(pool, geneCount, crossoverRate, mutationRate, draws, p);
    RoundsChain(pool, geneCount, crossoverRate, mutationRate, draws, position, step, rounds);
    RoundsChain(pool, geneCount, crossoverRate, mutationRate, draws, position, step, k);
    ChainHoldsStep(step, position, rounds, k);
  }

  /** `rounds` steps of `step` from `position`, each appending its two children. */
  ghost function Chain(step: nat -> Brood, position: nat, rounds: nat): (r: Litter)
    ensures |r.genomes| == 2 * rounds
  {
    if rounds == 0 then Litter([], position)
    else
      var before := Chain(step, position, rounds - 1);
      var b := step(before.position);
      Litter(before.genomes + [b.first, b.second], b.position)
  }

  /** Children `2k` and `2k + 1` of a chain are those of its step `k`. */
  lemma {:induction false} ChainHoldsStep(step: nat -> Brood, position: nat, rounds: nat, k: nat)
    requires k < rounds
    ensures var b := step(Chain(step, position, k).position);
      Chain(step, position, rounds).genomes[2 * k] == b.first && Chain(step, position, rounds).genomes[2 * k + 1] == b.second
  {
    if k < rounds - 1 {
      ChainHoldsStep(step, position, rounds - 1, k);
    }
  }

  /** The rounds of a batch are the chain of `Round` steps. */
  lemma {:induction false} RoundsChain(pool: seq<Entrant>, geneCount: nat, crossoverRate: real, mutationRate: real,
                                       draws: nat -> int, position: nat, step: nat -> Brood, rounds: nat)
    requires |pool| > 0 && geneCount >= 1 && Uniform(pool, geneCount)
    requires forall p :: step(p) == Round(pool, geneCount, crossoverRate, mutationRate, draws, p)
    ensures Rounds(pool, geneCount, crossoverRate, mutationRate, draws, position, rounds) == Chain(step, position, rounds)
  {
    if rounds > 0 {
      RoundsChain(pool, geneCount, crossoverRate, mutationRate, draws, position, step, rounds - 1);
      ChainUnfold(step, position, rounds);
      RoundsUnfold(pool, geneCount, crossoverRate, mutationRate, draws, position, rounds);
    }
  }

  /** RoundsStep counted from the later round, so that the induction in RoundsChain needs no arithmetic on the count. */
  lemma RoundsUnfold(pool: seq<Entrant>, geneCount: nat, crossoverRate: real, mutationRate: real,
                     draws: nat -> int, position: nat, rounds: nat)
    requires |pool| > 0 && geneCount >= 1 && Uniform(pool, geneCount)
    requires rounds > 0
    ensures var before := Rounds(pool, geneCount, crossoverRate, mutationRate, draws, position, rounds - 1);
      var b := Round(pool, geneCount, crossoverRate, mutationRate, draws, before.position);
      Rounds(pool, geneCount, crossoverRate, mutationRate, draws, position, rounds)
        == Litter(before.genomes + [b.first, b.second], b.position)
  {
  }

  /** One unfolding of Chain. */
  lemma ChainUnfold(step: nat -> Brood, position: nat, rounds: nat)
    requires rounds > 0
    ensures var before := Chain(step, position, rounds - 1);
      var b := step(before.position);
      Chain(step, position, rounds) == Litter(before.genomes + [b.first, b.second], b.position)
  {
  }

  /** With both rates at 0 or below, neither crossover nor mutation changes a gene; the generator moves one draw, then one per gene. */
  lemma OffspringAtZeroRates(a: seq<int>, b: seq<int>, crossoverRate: real, mutationRate: real,
                             draws: nat -> int, position: nat)
    requires |a| == |b| >= 1
    requires crossoverRate <= 0.0 && mutationRate <= 0.0
    ensures Offspring(a, b, crossoverRate, mutationRate, draws, position) == Brood(a, b, position + 1 + 2 * |a|)
  {
    assert Crossover(a, b, crossoverRate, draws, position) == Brood(a, b, position + 1);
    MutationAtZeroRate(a, mutationRate, draws, position + 1);
    MutationAtZeroRate(b, mutationRate, draws, position + 1 + |a|);
  }

  /** With both rates at 0 or below, a round's children are its two champions' genomes, unchanged. */
  lemma RoundAtZeroRates(pool: seq<Entrant>, geneCount: nat, crossoverRate: real, mutationRate: real,
                         draws: nat -> int, position: nat)
    requires |pool| > 0 && geneCount >= 1 && Uniform(pool, geneCount)
    requires crossoverRate <= 0.0 && mutationRate <= 0.0
    ensures Round(pool, geneCount, crossoverRate, mutationRate, draws, position)
      == Brood(Champion(pool, draws, position), Champion(pool, draws, position + 2), position + 5 + 2 * geneCount)
  {
    OffspringAtZeroRates(Champion(pool, draws, position), Champion(pool, draws, position + 2),
                         crossoverRate, mutationRate, draws, position + 4);
  }

  /**
   * With both rates at 0 or below, a round's children are exactly the genomes of its two
   * tournament winners; `pool` is the population's values as the tournaments see them.
   */
  lemma ClonesAtZeroRates(population: seq<Individual>, pool: seq<Entrant>, geneCount: nat, crossoverRate: real, mutationRate: real,
                          draws: nat -> int, position: nat)
    requires |population| > 0 && geneCount >= 1 && pool == Entrants(population) && Uniform(pool, geneCount)
    requires crossoverRate <= 0.0 && mutationRate <= 0.0
    ensures var n := |population|;
      Round(pool, geneCount, crossoverRate, mutationRate, draws, position)
      == Brood(Winner(population[draws(position) % n], population[draws(position + 1) % n]).startTimes[..],
               Winner(population[draws(position + 2) % n], population[draws(position + 3) % n]).startTimes[..],
               position + 5 + 2 * geneCount)
  {
    ChampionIsWinner(population, draws, position);
    ChampionIsWinner(population, draws, position + 2);
    RoundAtZeroRates(pool, geneCount, crossoverRate, mutationRate, draws, position);
  }



  /**
   * Fills a list of `size` children: each round picks two parents by
   * tournament, clones them, crosses the clones with probability
   * `crossoverRate`, mutates both, and keeps the second only while there is room.
   */
  method CreateOffspring(population: seq<Individual>, size: nat, crossoverRate: real, mutationRate: real,
                         geneCount: nat, rng: Random) returns (offspring: seq<Individual>)
    requires size > 0 ==> |population| > 0 && geneCount >= 1
    requires forall x :: x in population ==> x.startTimes.Length == geneCount
    modifies rng
    ensures |offspring| == size && Distinct(offspring)
    ensures forall c :: c in offspring ==> fresh(c) && fresh(c.startTimes) && c.startTimes.Length == geneCount
    ensures (forall x :: x in population ==> OnClock(old(x.startTimes[..]))) ==>
      forall c :: c in offspring ==> OnClock(c.startTimes[..])
    ensures Uniform(old(Entrants(population)), geneCount)
    ensures var batch := Batch(old(Entrants(population)), geneCount, crossoverRate, mutationRate, rng.draws,
                               old(rng.position), (size + 1) / 2);
      rng.position == batch.position && forall i :: 0 <= i < size ==> offspring[i].startTimes[..] == batch.genomes[i]
  {
    ghost var onClock := forall x :: x in population ==> OnClock(x.startTimes[..]);
    ghost var pool := Entrants(population);
    EntrantsUniform(population, geneCount);
    ghost var start := rng.position;
    ghost var rounds := 0;
    offspring := [];
    while |offspring| < size
      invariant |offspring| <= size && Distinct(offspring)
      invariant |offspring| == 2 * rounds || |offspring| + 1 == 2 * rounds == size + 1
      invariant Entrants(population) == pool && Uniform(pool, geneCount)
      invariant var batch := Batch(pool, geneCount, crossoverRate, mutationRate, rng.draws, start, rounds);
        rng.position == batch.position && forall i :: 0 <= i < |offspring| ==> offspring[i].startTimes[..] == batch.genomes[i]
      invariant forall c :: c in offspring ==> fresh(c) && fresh(c.startTimes) && c.startTimes.Length == geneCount
      invariant forall x :: x in population ==> x.startTimes[..] == old(x.startTimes[..])
      invariant onClock ==> forall c :: c in offspring ==> OnClock(c.startTimes[..])
      decreases size - |offspring|
    {
      var child1, child2 := BreedRound(population, crossoverRate, mutationRate, geneCount, rng, start, rounds, offspring);
      offspring := offspring + [child1];
      if |offspring| < size {
        offspring := offspring + [child2];
      }
      rounds := rounds + 1;
    }
    assert rounds == (size + 1) / 2;
  }

  /** A round of `Breed` seen as round `k` of a batch that began with the generator at `start`. */
  method BreedRound(population: seq<Individual>, crossoverRate: real, mutationRate: real, geneCount: nat, rng: Random,
                    ghost start: nat, ghost k: nat, ghost others: seq<Individual>) returns (child1: Individual, child2: Individual)
    requires |population| > 0 && geneCount >= 1
    requires forall x :: x in population ==> x.startTimes.Length == geneCount
    requires Uniform(Entrants(population), geneCount)
    requires rng.position == Batch(Entrants(population), geneCount, crossoverRate, mutationRate, rng.draws, start, k).position
    modifies rng
    ensures fresh(child1) && fresh(child2) && fresh(child1.startTimes) && fresh(child2.startTimes)
    ensures child1 != child2
    ensures child1.startTimes.Length == geneCount && child2.startTimes.Length == geneCount
    ensures (forall x :: x in population ==> OnClock(old(x.startTimes[..]))) ==>
      OnClock(child1.startTimes[..]) && OnClock(child2.startTimes[..])
    ensures Batch(old(Entrants(population)), geneCount, crossoverRate, mutationRate, rng.draws, start, k + 1)
      == Litter(Batch(old(Entrants(population)), geneCount, crossoverRate, mutationRate, rng.draws, start, k).genomes
                + [child1.startTimes[..], child2.startTimes[..]], rng.position)
    ensures forall i :: 0 <= i < |others| ==> others[i].startTimes[..] == old(others[i].startTimes[..])
    ensures child1 !in others && child2 !in others
  {
    RoundsStep(Entrants(population), geneCount, crossoverRate, mutationRate, rng.draws, start, k);
    child1, child2 := Breed(population, crossoverRate, mutationRate, geneCount, rng);
  }

  /**
   * One round of the offspring loop: two tournament winners are cloned, the
   * clones are crossed when a NextDouble falls below `crossoverRate`, and
   * both are mutated. The children are new objects with new genomes.
   */
  method Breed(population: seq<Individual>, crossoverRate: real, mutationRate: real, geneCount: nat, rng: Random)
      returns (child1: Individual, child2: Individual)
    requires |population| > 0 && geneCount >= 1
    requires forall x :: x in population ==> x.startTimes.Length == geneCount
    modifies rng
    ensures fresh(child1) && fresh(child2) && fresh(child1.startTimes) && fresh(child2.startTimes)
    ensures child1 != child2
    ensures child1.startTimes.Length == geneCount && child2.startTimes.Length == geneCount
    ensures (forall x :: x in population ==> OnClock(old(x.startTimes[..]))) ==>
      OnClock(child1.startTimes[..]) && OnClock(child2.startTimes[..])
    ensures Uniform(old(Entrants(population)), geneCount) && Brood(child1.startTimes[..], child2.startTimes[..], rng.position)
      == Round(old(Entrants(population)), geneCount, crossoverRate, mutationRate, rng.draws, old(rng.position))
  {
    ghost var onClock := forall x :: x in population ==> OnClock(x.startTimes[..]);
    EntrantsUniform(population, geneCount);
    child1, child2 := SelectParents(population, geneCount, rng);
    Vary(child1, child2, crossoverRate, mutationRate, rng, child1.startTimes[..], child2.startTimes[..], rng.position, onClock);
  }

  /** The crossover and mutation steps of a round, on the two clones. */
  method Vary(child1: Individual, child2: Individual, crossoverRate: real, mutationRate: real, rng: Random,
              ghost a: seq<int>, ghost b: seq<int>, ghost start: nat, ghost onClock: bool)
    requires child1.startTimes[..] == a && child2.startTimes[..] == b && rng.position == start
    requires child1.startTimes != child2.startTimes
    requires onClock ==> OnClock(child1.startTimes[..]) && OnClock(child2.startTimes[..])
    requires child1.startTimes.Length == child2.startTimes.Length >= 1
    modifies child1.startTimes, child2.startTimes, rng
    ensures Brood(child1.startTimes[..], child2.startTimes[..], rng.position)
      == Offspring(a, b, crossoverRate, mutationRate, rng.draws, start)
    ensures onClock ==> OnClock(child1.startTimes[..]) && OnClock(child2.startTimes[..])
  {
    Recombine(child1, child2, crossoverRate, rng, onClock);
    ghost var crossed := Brood(child1.startTimes[..], child2.startTimes[..], rng.position);
    assert crossed == Crossover(a, b, crossoverRate, rng.draws, start);
    MutatePair(child1, child2, mutationRate, rng, onClock);
    assert Brood(child1.startTimes[..], child2.startTimes[..], rng.position) == MutatedPair(crossed, mutationRate, rng.draws);
  }

  /**
   * The selection step of a round: two tournaments, and a clone of each
   * winner; the clones' genomes are the winners' genomes in fresh arrays.
   */
  method SelectParents(population: seq<Individual>, geneCount: nat, rng: Random) returns (child1: Individual, child2: Individual)
    requires |population| > 0
    requires forall x :: x in population ==> x.startTimes.Length == geneCount
    modifies rng
    ensures rng.position == old(rng.position) + 4
    ensures fresh(child1) && fresh(child2) && fresh(child1.startTimes) && fresh(child2.startTimes)
    ensures child1 != child2 && child1.startTimes != child2.startTimes
    ensures child1.startTimes.Length == geneCount && child2.startTimes.Length == geneCount
    ensures var n, p := |population|, old(rng.position);
      child1.startTimes[..] == old(Winner(population[rng.draws(p) % n], population[rng.draws(p + 1) % n]).startTimes[..])
      && child2.startTimes[..] == old(Winner(population[rng.draws(p + 2) % n], population[rng.draws(p + 3) % n]).startTimes[..])
    ensures child1.startTimes[..] == Champion(old(Entrants(population)), rng.draws, old(rng.position))
      && child2.startTimes[..] == Champion(old(Entrants(population)), rng.draws, old(rng.position) + 2)
    ensures (forall x :: x in population ==> OnClock(x.startTimes[..])) ==>
      OnClock(child1.startTimes[..]) && OnClock(child2.startTimes[..])
  {
    ChampionIsWinner(population, rng.draws, rng.position);
    ChampionIsWinner(population, rng.draws, rng.position + 2);
    var parentA := BinaryTournament(population, rng);
    var parentB := BinaryTournament(population, rng);
    child1 := parentA.Clone();
    child2 := parentB.Clone();
  }

  /** The crossover step of a round: one NextDouble, and a crossover when it falls below `crossoverRate`. */
  method Recombine(child1: Individual, child2: Individual, crossoverRate: real, rng: Random, ghost onClock: bool)
    requires child1.startTimes != child2.startTimes
    requires onClock ==> OnClock(child1.startTimes[..]) && OnClock(child2.startTimes[..])
    requires child1.startTimes.Length == child2.startTimes.Length >= 1
    modifies child1.startTimes, child2.startTimes, rng
    ensures var point := Between(1, child1.startTimes.Length, rng.draws(old(rng.position) + 1));
      if UnitDouble(rng.draws(old(rng.position))) < crossoverRate then
        rng.position == old(rng.position) + 2
        && child1.startTimes[..] == Crossed(old(child1.startTimes[..]), old(child2.startTimes[..]), point)
        && child2.startTimes[..] == Crossed(old(child2.startTimes[..]), old(child1.startTimes[..]), point)
      else
        rng.position == old(rng.position) + 1
        && child1.startTimes[..] == old(child1.startTimes[..]) && child2.startTimes[..] == old(child2.startTimes[..])
    ensures onClock ==> OnClock(child1.startTimes[..]) && OnClock(child2.startTimes[..])
  {
    var draw := rng.NextDouble();
    if draw < crossoverRate {
      SinglePointCrossover(child1, child2, rng);
    }
  }
}
