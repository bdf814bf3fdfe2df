/**
 * Fitness evaluation (NSGAIIEngine.EvaluateIndividual): the cost and
 * discomfort of a genome under a scenario. The functions below state the
 * two objectives over values; the method computes them with the source's
 * accumulator loops and 24-slot load array and is proved to agree.
 */
module Fitness {
  import opened Models

  const OverloadThresholdKw: real := 9.0
  const OverloadCostPenalty: real := 10000.0
  const OverloadDiscomfortPenalty: real := 1000.0
  const SequencingDiscomfortPenalty: real := 50.0
  const NightPenaltyPerHour: real := 0.5
  /** Running hours in [0, NightEndHour) count as night operation. */
  const NightEndHour: int := 6
  const WasherPattern: string := "Washer"
  const DryerPattern: string := "Dryer"

  function Abs(x: int): nat {
    if x < 0 then -x else x
  }

  function Min(a: int, b: int): int {
    if a <= b then a else b
  }

  /** How often the loop `for h < DurationHours` runs: never for a negative duration. */
  function RunHours(a: Appliance): nat {
    if a.durationHours < 0 then 0 else a.durationHours
  }

  /** The clock hour of the h-th running hour, `(start + h) % 24`. */
  function ActiveHour(start: int, h: int): (hour: int)
    requires start >= 0 && h >= 0
    ensures 0 <= hour < HoursPerDay
    ensures hour == (start + h) % HoursPerDay
  {
    TruncatedRemainder(start + h, HoursPerDay)
  }

  predicate IsNightHour(hour: int) {
    0 <= hour < NightEndHour
  }

  /** Distance between two clock hours going the shorter way round: min(|s - p|, 24 - |s - p|). */
  function CircularDistance(start: int, preferred: int): int {
    var diff := Abs(start - preferred);
    Min(diff, HoursPerDay - diff)
  }

  /** On the clock the preference penalty lies in [0, 12], is symmetric, and vanishes only at the preferred hour. */
  lemma CircularDistanceOnClock(start: int, preferred: int)
    requires 0 <= start < HoursPerDay && 0 <= preferred < HoursPerDay
    ensures 0 <= CircularDistance(start, preferred) <= HoursPerDay / 2
    ensures CircularDistance(start, preferred) == 0 <==> start == preferred
    ensures CircularDistance(start, preferred) == CircularDistance(preferred, start)
  {
  }

  /** The genome supplies a non-negative start hour for every appliance. */
  predicate Evaluable(apps: seq<Appliance>, genome: seq<int>) {
    |apps| <= |genome| && forall i :: 0 <= i < |apps| ==> genome[i] >= 0
  }

  /** Cost of the first d running hours of one appliance. */
  function RunCost(power: real, rates: seq<real>, start: int, d: nat): real
    requires |rates| == HoursPerDay && start >= 0
  {
    if d == 0 then 0.0 else RunCost(power, rates, start, d - 1) + power * rates[ActiveHour(start, d - 1)]
  }

  /** Night penalty of the first d running hours of one appliance. */
  function RunNightDiscomfort(start: int, d: nat): real
    requires start >= 0
  {
    if d == 0 then 0.0
    else RunNightDiscomfort(start, d - 1) + (if IsNightHour(ActiveHour(start, d - 1)) then NightPenaltyPerHour else 0.0)
  }

  /** Power that the first d running hours of one appliance put on hour `slot`. */
  function RunLoad(power: real, start: int, d: nat, slot: int): real
    requires start >= 0
  {
    if d == 0 then 0.0 else RunLoad(power, start, d - 1, slot) + (if ActiveHour(start, d - 1) == slot then power else 0.0)
  }

  /** Energy cost of the first k appliances. */
  function BaseCost(apps: seq<Appliance>, rates: seq<real>, genome: seq<int>, k: nat): real
    requires Evaluable(apps, genome) && k <= |apps| && |rates| == HoursPerDay
  {
    if k == 0 then 0.0
    else BaseCost(apps, rates, genome, k - 1) + RunCost(apps[k - 1].powerKw, rates, genome[k - 1], RunHours(apps[k - 1]))
  }

  /** Night and preference penalties of the first k appliances. */
  function BaseDiscomfort(apps: seq<Appliance>, genome: seq<int>, k: nat): real
    requires Evaluable(apps, genome) && k <= |apps|
  {
    if k == 0 then 0.0
    else
      BaseDiscomfort(apps, genome, k - 1)
      + RunNightDiscomfort(genome[k - 1], RunHours(apps[k - 1]))
      + CircularDistance(genome[k - 1], apps[k - 1].preferredStartHour) as real
  }

  /** Total power the first k appliances draw during hour `slot` (the hourlyLoad profile). */
  function Load(apps: seq<Appliance>, genome: seq<int>, k: nat, slot: int): real
    requires Evaluable(apps, genome) && k <= |apps|
  {
    if k == 0 then 0.0
    else Load(apps, genome, k - 1, slot) + RunLoad(apps[k - 1].powerKw, genome[k - 1], RunHours(apps[k - 1]), slot)
  }

  /** Some hour of the day carries more than the 9.0 kW capacity. */
  predicate Overloaded(apps: seq<Appliance>, genome: seq<int>)
    requires Evaluable(apps, genome)
  {
    exists slot :: 0 <= slot < HoursPerDay && Load(apps, genome, |apps|, slot) > OverloadThresholdKw
  }

  /** `c` and `d` are equal once ASCII letters are upper-cased. */
  predicate SameIgnoringCase(c: char, d: char) {
    UpperAscii(c) == UpperAscii(d)
  }

  function UpperAscii(c: char): char {
    if 'a' <= c <= 'z' then (c as int - 32) as char else c
  }

  /** `part` occurs in `s` at offset i, ignoring case. */
  predicate MatchesAt(s: string, part: string, i: int) {
    0 <= i <= |s| - |part| && forall k :: 0 <= k < |part| ==> SameIgnoringCase(s[i + k], part[k])
  }

  /** `s.Contains(part, StringComparison.OrdinalIgnoreCase)`, case folding restricted to ASCII letters. */
  predicate ContainsIgnoringCase(s: string, part: string) {
    exists i :: 0 <= i <= |s| - |part| && MatchesAt(s, part, i)
  }

  /** Index of the last of the first k appliances whose name contains `part`, or -1 (the loop's last assignment wins). */
  function LastIndexContaining(apps: seq<Appliance>, part: string, k: nat): (i: int)
    requires k <= |apps|
    ensures -1 <= i < k
    ensures i >= 0 ==> ContainsIgnoringCase(apps[i].name, part)
    ensures forall j :: i < j < k ==> !ContainsIgnoringCase(apps[j].name, part)
  {
    if k == 0 then -1
    else if ContainsIgnoringCase(apps[k - 1].name, part) then k - 1
    else LastIndexContaining(apps, part, k - 1)
  }

  /** The sequencing rule: the dryer starts before washer start + duration; no wrap-around. */
  predicate DryerStartsBeforeWasherEnds(apps: seq<Appliance>, genome: seq<int>)
    requires Evaluable(apps, genome)
  {
    var w := LastIndexContaining(apps, WasherPattern, |apps|);
    var d := LastIndexContaining(apps, DryerPattern, |apps|);
    w != -1 && d != -1 && genome[d] < genome[w] + apps[w].durationHours
  }

  /** The cost objective (before rounding). */
  function Cost(apps: seq<Appliance>, rates: seq<real>, genome: seq<int>): real
    requires Evaluable(apps, genome) && |rates| == HoursPerDay
  {
    BaseCost(apps, rates, genome, |apps|) + (if Overloaded(apps, genome) then OverloadCostPenalty else 0.0)
  }

  /** The discomfort objective (before rounding). */
  function Discomfort(apps: seq<Appliance>, genome: seq<int>): real
    requires Evaluable(apps, genome)
  {
    BaseDiscomfort(apps, genome, |apps|)
    + (if Overloaded(apps, genome) then OverloadDiscomfortPenalty else 0.0)
    + (if DryerStartsBeforeWasherEnds(apps, genome) then SequencingDiscomfortPenalty else 0.0)
  }

  /**
   * `Math.Round(x, 3)`: the nearest multiple of 0.001, a tie going to the
   * even multiple (MidpointRounding.ToEven, the default).
   */
  function Round3(x: real): (r: real)
    ensures (r * 1000.0).Floor as real == r * 1000.0
    ensures x - 0.0005 <= r <= x + 0.0005
    ensures (x * 1000.0).Floor as real + 0.5 == x * 1000.0 ==> (r * 1000.0).Floor % 2 == 0
  {
    var scaled := x * 1000.0;
    var n := scaled.Floor;
    var fraction := scaled - n as real;
    var m := if fraction > 0.5 then n + 1 else if fraction < 0.5 then n else if n % 2 == 0 then n else n + 1;
    m as real / 1000.0
  }

  /** The individual's stored objectives are those of its genome, rounded to 3 decimals. */
  ghost predicate Evaluated(scenario: Scenario, x: Individual)
    reads x`cost, x`discomfort, x.startTimes, scenario.tariffs.rates
  {
    scenario.tariffs.rates.Length == HoursPerDay
    && Evaluable(scenario.appliances, x.startTimes[..])
    && x.cost == Round3(Cost(scenario.appliances, scenario.tariffs.rates[..], x.startTimes[..]))
    && x.discomfort == Round3(Discomfort(scenario.appliances, x.startTimes[..]))
  }

  /** Computes cost and discomfort of `individual` and stores them on it. */
  method EvaluateIndividual(scenario: Scenario, individual: Individual)
    requires scenario.tariffs.rates.Length == HoursPerDay
    requires Evaluable(scenario.appliances, individual.startTimes[..])
    modifies individual`cost, individual`discomfort
    ensures Evaluated(scenario, individual)
  {
    var apps := scenario.appliances;
    ghost var rates := scenario.tariffs.rates[..];
    ghost var genome := individual.startTimes[..];
    var cost := 0.0;
    var discomfort := 0.0;
    var hourlyLoad := new real[HoursPerDay](_ => 0.0);
    var washerIndex := -1;
    var dryerIndex := -1;
    for i := 0 to |apps|
      invariant cost == BaseCost(apps, rates, genome, i)
      invariant discomfort == BaseDiscomfort(apps, genome, i)
      invariant forall slot :: 0 <= slot < HoursPerDay ==> hourlyLoad[slot] == Load(apps, genome, i, slot)
      invariant washerIndex == LastIndexContaining(apps, WasherPattern, i)
      invariant dryerIndex == LastIndexContaining(apps, DryerPattern, i)
    {
      var appliance := apps[i];
      if ContainsIgnoringCase(appliance.name, WasherPattern) {
        washerIndex := i;
      }
      if ContainsIgnoringCase(appliance.name, DryerPattern) {
        dryerIndex := i;
      }
      var start := individual.startTimes[i];
      cost, discomfort := AccumulateRun(scenario.tariffs, appliance, start, hourlyLoad, cost, discomfort);
      var diff := Abs(start - appliance.preferredStartHour);
      var circularDiff := Min(diff, HoursPerDay - diff);
      discomfort := discomfort + circularDiff as real;
    }
    if exists slot :: 0 <= slot < HoursPerDay && hourlyLoad[slot] > OverloadThresholdKw {
      cost := cost + OverloadCostPenalty;
      discomfort := discomfort + OverloadDiscomfortPenalty;
    }
    if washerIndex != -1 && dryerIndex != -1 {
      var washerEnd := individual.startTimes[washerIndex] + apps[washerIndex].durationHours;
      if individual.startTimes[dryerIndex] < washerEnd {
        discomfort := discomfort + SequencingDiscomfortPenalty;
      }
    }
    individual.cost := Round3(cost);
    individual.discomfort := Round3(discomfort);
  }

  /**
   * The inner loop of EvaluateIndividual for one appliance: adds its energy
   * cost and night penalty to the accumulators and its power to the hours it runs.
   */
  method AccumulateRun(tariffs: TariffSchedule, appliance: Appliance, start: int, hourlyLoad: array<real>,
                       cost0: real, discomfort0: real) returns (cost: real, discomfort: real)
    requires tariffs.rates.Length == HoursPerDay == hourlyLoad.Length && start >= 0
    requires hourlyLoad != tariffs.rates
    modifies hourlyLoad
    ensures cost == cost0 + RunCost(appliance.powerKw, tariffs.rates[..], start, RunHours(appliance))
    ensures discomfort == discomfort0 + RunNightDiscomfort(start, RunHours(appliance))
    ensures forall slot :: 0 <= slot < HoursPerDay ==>
      hourlyLoad[slot] == old(hourlyLoad[slot]) + RunLoad(appliance.powerKw, start, RunHours(appliance), slot)
  {
    cost, discomfort := cost0, discomfort0;
    var h := 0;
    while h < appliance.durationHours
      invariant 0 <= h <= RunHours(appliance)
      invariant cost == cost0 + RunCost(appliance.powerKw, tariffs.rates[..], start, h)
      invariant discomfort == discomfort0 + RunNightDiscomfort(start, h)
      invariant forall slot :: 0 <= slot < HoursPerDay ==>
        hourlyLoad[slot] == old(hourlyLoad[slot]) + RunLoad(appliance.powerKw, start, h, slot)
    {
      var hour := TruncatedRemainder(start + h, HoursPerDay);
      cost := cost + appliance.powerKw * tariffs.RateForHour(hour);
      hourlyLoad[hour] := hourlyLoad[hour] + appliance.powerKw;
      if hour >= 0 && hour < NightEndHour {
        discomfort := discomfort + NightPenaltyPerHour;
      }
      h := h + 1;
    }
  }

  /** Evaluates every member of `population` in turn. */
  method EvaluatePopulation(scenario: Scenario, population: seq<Individual>)
    requires scenario.tariffs.rates.Length == HoursPerDay
    requires forall x :: x in population ==> Evaluable(scenario.appliances, x.startTimes[..])
    modifies (set x | x in population)`cost, (set x | x in population)`discomfort
    ensures forall x :: x in population ==> Evaluated(scenario, x)
  {
    for i := 0 to |population|
      invariant forall j :: 0 <= j < i ==> Evaluated(scenario, population[j])
    {
      EvaluateIndividual(scenario, population[i]);
    }
  }
}
