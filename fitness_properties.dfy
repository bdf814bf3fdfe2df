/**
 * What the two objectives promise: rounding keeps their order, the
 * load profile accounts for every running hour exactly once, a schedule
 * whose energy exceeds a day's capacity is always penalised, the
 * objectives are non-negative on sensible inputs, and the sequencing rule
 * of the default scenario compares the dryer with the dishwasher.
 */
module FitnessProperties {
  import opened Models
  import opened Fitness

  /** Rounding never reverses the order of two objective values. */
  lemma Round3Monotone(x: real, y: real)
    requires x <= y
    ensures Round3(x) <= Round3(y)
  {
    var nx, ny := (x * 1000.0).Floor, (y * 1000.0).Floor;
    assert nx <= ny;
    if nx == ny {
      assert x * 1000.0 - nx as real <= y * 1000.0 - ny as real;
    }
  }

  /** A value already rounded to 3 decimals is left alone. */
  lemma Round3Idempotent(x: real)
    ensures Round3(Round3(x)) == Round3(x)
  {
    var scaled := x * 1000.0;
    var n := scaled.Floor;
    var fraction := scaled - n as real;
    var m := if fraction > 0.5 then n + 1 else if fraction < 0.5 then n else if n % 2 == 0 then n else n + 1;
    assert Round3(x) == m as real / 1000.0;
    assert Round3(x) * 1000.0 == m as real;
    assert (m as real).Floor == m;
  }

  // ----- The load profile -----

  /** Load that one appliance run puts on the slots below n. */
  function RunLoadBelow(power: real, start: int, d: nat, n: nat): real
    requires start >= 0
  {
    if n == 0 then 0.0 else RunLoadBelow(power, start, d, n - 1) + RunLoad(power, start, d, n - 1)
  }

  /** Load that the first k appliances put on the slots below n. */
  function LoadBelow(apps: seq<Appliance>, genome: seq<int>, k: nat, n: nat): real
    requires Evaluable(apps, genome) && k <= |apps|
  {
    if n == 0 then 0.0 else LoadBelow(apps, genome, k, n - 1) + Load(apps, genome, k, n - 1)
  }

  /** Energy the first k appliances draw over their whole runs (kWh). */
  function Energy(apps: seq<Appliance>, k: nat): real
    requires k <= |apps|
  {
    if k == 0 then 0.0 else Energy(apps, k - 1) + apps[k - 1].powerKw * RunHours(apps[k - 1]) as real
  }

  /** One more running hour adds its power to exactly the slot it runs in. */
  lemma {:induction false} RunLoadBelowStep(power: real, start: int, d: nat, n: nat)
    requires start >= 0 && d > 0
    ensures RunLoadBelow(power, start, d, n)
         == RunLoadBelow(power, start, d - 1, n) + (if ActiveHour(start, d - 1) < n then power else 0.0)
  {
    if n > 0 {
      RunLoadBelowStep(power, start, d, n - 1);
    }
  }

  /** Over the whole day, one appliance's run contributes power times its running hours. */
  lemma {:induction false} RunLoadOverDay(power: real, start: int, d: nat)
    requires start >= 0
    ensures RunLoadBelow(power, start, d, HoursPerDay) == power * d as real
  {
    if d == 0 {
      ZeroRunLoadBelow(power, start, HoursPerDay);
    } else {
      RunLoadBelowStep(power, start, d, HoursPerDay);
      RunLoadOverDay(power, start, d - 1);
    }
  }

  lemma {:induction false} ZeroRunLoadBelow(power: real, start: int, n: nat)
    requires start >= 0
    ensures RunLoadBelow(power, start, 0, n) == 0.0
  {
    if n > 0 {
      ZeroRunLoadBelow(power, start, n - 1);
    }
  }

  /** The profile of k appliances is that of k-1 plus the k-th appliance's run. */
  lemma {:induction false} LoadBelowStep(apps: seq<Appliance>, genome: seq<int>, k: nat, n: nat)
    requires Evaluable(apps, genome) && 0 < k <= |apps|
    ensures LoadBelow(apps, genome, k, n)
         == LoadBelow(apps, genome, k - 1, n) + RunLoadBelow(apps[k - 1].powerKw, genome[k - 1], RunHours(apps[k - 1]), n)
  {
    if n > 0 {
      LoadBelowStep(apps, genome, k, n - 1);
    }
  }

  lemma {:induction false} ZeroLoadBelow(apps: seq<Appliance>, genome: seq<int>, n: nat)
    requires Evaluable(apps, genome)
    ensures LoadBelow(apps, genome, 0, n) == 0.0
  {
    if n > 0 {
      ZeroLoadBelow(apps, genome, n - 1);
    }
  }

  /**
   * The hourly load profile conserves energy: summed over the 24 slots it is
   * the total of power times duration, so every running hour (wrapped past
   * midnight or not) lands in exactly one slot.
   */
  lemma {:induction false} LoadConservation(apps: seq<Appliance>, genome: seq<int>, k: nat)
    requires Evaluable(apps, genome) && k <= |apps|
    ensures LoadBelow(apps, genome, k, HoursPerDay) == Energy(apps, k)
  {
    if k == 0 {
      ZeroLoadBelow(apps, genome, HoursPerDay);
    } else {
      LoadBelowStep(apps, genome, k, HoursPerDay);
      RunLoadOverDay(apps[k - 1].powerKw, genome[k - 1], RunHours(apps[k - 1]));
      LoadConservation(apps, genome, k - 1);
    }
  }

  /** If no slot exceeds the capacity, the slots below n carry at most n times the capacity. */
  lemma {:induction false} LoadBelowCapacity(apps: seq<Appliance>, genome: seq<int>, n: nat)
    requires Evaluable(apps, genome) && n <= HoursPerDay
    requires !Overloaded(apps, genome)
    ensures LoadBelow(apps, genome, |apps|, n) <= OverloadThresholdKw * n as real
  {
    if n > 0 {
      LoadBelowCapacity(apps, genome, n - 1);
      assert Load(apps, genome, |apps|, n - 1) <= OverloadThresholdKw;
    }
  }

  /**
   * A schedule whose appliances need more energy than 24 hours at 9 kW is
   * overloaded whatever the start hours, so it always pays both penalties.
   */
  lemma EnergyAboveCapacityIsPenalised(apps: seq<Appliance>, rates: seq<real>, genome: seq<int>)
    requires Evaluable(apps, genome) && |rates| == HoursPerDay
    requires Energy(apps, |apps|) > OverloadThresholdKw * HoursPerDay as real
    ensures Overloaded(apps, genome)
    ensures Cost(apps, rates, genome) == BaseCost(apps, rates, genome, |apps|) + OverloadCostPenalty
    ensures Discomfort(apps, genome) >= BaseDiscomfort(apps, genome, |apps|) + OverloadDiscomfortPenalty
  {
    LoadConservation(apps, genome, |apps|);
    if !Overloaded(apps, genome) {
      LoadBelowCapacity(apps, genome, HoursPerDay);
      assert false;
    }
  }

  // ----- Signs of the objectives -----

  predicate NonNegativeInputs(apps: seq<Appliance>, rates: seq<real>) {
    (forall i :: 0 <= i < |apps| ==> apps[i].powerKw >= 0.0)
    && (forall h :: 0 <= h < |rates| ==> rates[h] >= 0.0)
  }

  lemma {:induction false} RunCostNonNegative(power: real, rates: seq<real>, start: int, d: nat)
    requires |rates| == HoursPerDay && start >= 0 && power >= 0.0
    requires forall h :: 0 <= h < |rates| ==> rates[h] >= 0.0
    ensures RunCost(power, rates, start, d) >= 0.0
  {
    if d > 0 {
      RunCostNonNegative(power, rates, start, d - 1);
      var rate := rates[ActiveHour(start, d - 1)];
      assert power * rate >= 0.0;
    }
  }

  lemma {:induction false} BaseCostNonNegative(apps: seq<Appliance>, rates: seq<real>, genome: seq<int>, k: nat)
    requires Evaluable(apps, genome) && k <= |apps| && |rates| == HoursPerDay
    requires NonNegativeInputs(apps, rates)
    ensures BaseCost(apps, rates, genome, k) >= 0.0
  {
    if k > 0 {
      BaseCostNonNegative(apps, rates, genome, k - 1);
      RunCostNonNegative(apps[k - 1].powerKw, rates, genome[k - 1], RunHours(apps[k - 1]));
    }
  }

  /** With non-negative powers and rates the cost objective is non-negative. */
  lemma CostNonNegative(apps: seq<Appliance>, rates: seq<real>, genome: seq<int>)
    requires Evaluable(apps, genome) && |rates| == HoursPerDay
    requires NonNegativeInputs(apps, rates)
    ensures Cost(apps, rates, genome) >= 0.0
  {
    BaseCostNonNegative(apps, rates, genome, |apps|);
  }

  lemma {:induction false} RunNightDiscomfortBounds(start: int, d: nat)
    requires start >= 0
    ensures 0.0 <= RunNightDiscomfort(start, d) <= NightPenaltyPerHour * d as real
  {
    if d > 0 {
      RunNightDiscomfortBounds(start, d - 1);
    }
  }

  /** Start hours and preferred hours on the clock. */
  predicate OnClock(apps: seq<Appliance>, genome: seq<int>)
    requires |apps| <= |genome|
  {
    forall i :: 0 <= i < |apps| ==> 0 <= genome[i] < HoursPerDay && 0 <= apps[i].preferredStartHour < HoursPerDay
  }

  lemma {:induction false} BaseDiscomfortNonNegative(apps: seq<Appliance>, genome: seq<int>, k: nat)
    requires Evaluable(apps, genome) && OnClock(apps, genome) && k <= |apps|
    ensures BaseDiscomfort(apps, genome, k) >= 0.0
  {
    if k > 0 {
      BaseDiscomfortNonNegative(apps, genome, k - 1);
      RunNightDiscomfortBounds(genome[k - 1], RunHours(apps[k - 1]));
      CircularDistanceOnClock(genome[k - 1], apps[k - 1].preferredStartHour);
    }
  }

  /** With all hours on the clock the discomfort objective is non-negative. */
  lemma DiscomfortNonNegative(apps: seq<Appliance>, genome: seq<int>)
    requires Evaluable(apps, genome) && OnClock(apps, genome)
    ensures Discomfort(apps, genome) >= 0.0
  {
    BaseDiscomfortNonNegative(apps, genome, |apps|);
  }

  // ----- Worked scenarios -----

  /** The appliance list of the application's default scenario (UI/MainForm.cs). */
  function DefaultAppliances(): seq<Appliance> {
    [ Appliance("Washer", 2, 1.2, 18), Appliance("Dryer", 1, 1.0, 18),
      Appliance("EV Charger", 4, 7.0, 18), Appliance("Dishwasher", 2, 1.4, 20),
      Appliance("Boiler", 3, 2.0, 7) ]
  }

  /**
   * In the default scenario the last name containing "washer" is
   * "Dishwasher", so the sequencing rule compares the dryer (index 1) with
   * the dishwasher (index 3), not with the washer (index 0).
   */
  lemma DefaultScenarioSequencesDryerAfterDishwasher(genome: seq<int>)
    requires Evaluable(DefaultAppliances(), genome)
    ensures LastIndexContaining(DefaultAppliances(), WasherPattern, 5) == 3
    ensures LastIndexContaining(DefaultAppliances(), DryerPattern, 5) == 1
    ensures DryerStartsBeforeWasherEnds(DefaultAppliances(), genome) <==> genome[1] < genome[3] + 2
  {
    DefaultWasherIsDishwasher();
    DefaultDryerIsDryer();
  }

  /** "Dishwasher" (index 3) is the last default name containing "washer"; "Boiler" does not. */
  lemma DefaultWasherIsDishwasher()
    ensures LastIndexContaining(DefaultAppliances(), WasherPattern, 5) == 3
  {
    var apps := DefaultAppliances();
    assert MatchesAt(apps[3].name, WasherPattern, 4);
    assert !MatchesAt(apps[4].name, WasherPattern, 0) by {
      assert !SameIgnoringCase(apps[4].name[0], WasherPattern[0]);
    }
  }

  /** "Dryer" (index 1) is the only default name containing "dryer". */
  lemma DefaultDryerIsDryer()
    ensures LastIndexContaining(DefaultAppliances(), DryerPattern, 5) == 1
  {
    var apps := DefaultAppliances();
    assert MatchesAt(apps[1].name, DryerPattern, 0);
    forall i | 0 <= i <= 1
      ensures !MatchesAt(apps[4].name, DryerPattern, i)
    {
      assert !SameIgnoringCase(apps[4].name[i], DryerPattern[0]);
    }
    forall i | 0 <= i <= 5
      ensures !MatchesAt(apps[3].name, DryerPattern, i)
    {
      assert !SameIgnoringCase(apps[3].name[i], DryerPattern[0]) || !SameIgnoringCase(apps[3].name[i + 1], DryerPattern[1]);
    }
    forall i | 0 <= i <= 5
      ensures !MatchesAt(apps[2].name, DryerPattern, i)
    {
      assert !SameIgnoringCase(apps[2].name[i], DryerPattern[0]);
    }
  }

  /**
   * A single one-hour, 1 kW appliance preferring hour 3 under a flat tariff
   * of 1.0: the cost is 1.0 at every start hour, and the discomfort is the
   * circular distance to hour 3 plus 0.5 when the start is a night hour, so
   * it is 0.5 (not 0) at the preferred hour 3.
   */
  lemma SingleApplianceFlatTariff(rates: seq<real>, start: int)
    requires |rates| == HoursPerDay && forall h :: 0 <= h < HoursPerDay ==> rates[h] == 1.0
    requires 0 <= start < HoursPerDay
    ensures Cost([Appliance("Heater", 1, 1.0, 3)], rates, [start]) == 1.0
    ensures Discomfort([Appliance("Heater", 1, 1.0, 3)], [start])
         == (if start < NightEndHour then NightPenaltyPerHour else 0.0) + CircularDistance(start, 3) as real
    ensures Discomfort([Appliance("Heater", 1, 1.0, 3)], [start]) >= 0.5
    ensures Discomfort([Appliance("Heater", 1, 1.0, 3)], [start]) == 0.5 <==> start == 3
  {
    var apps := [Appliance("Heater", 1, 1.0, 3)];
    var genome := [start];
    assert RunHours(apps[0]) == 1;
    forall slot | 0 <= slot < HoursPerDay
      ensures Load(apps, genome, 1, slot) <= 1.0
    {
      assert RunLoad(1.0, start, 0, slot) == 0.0;
      assert Load(apps, genome, 0, slot) == 0.0;
    }
    assert RunCost(1.0, rates, start, 0) == 0.0;
    assert RunCost(1.0, rates, start, 1) == 1.0;
    assert RunNightDiscomfort(start, 0) == 0.0;
    assert BaseCost(apps, rates, genome, 0) == 0.0;
    assert BaseDiscomfort(apps, genome, 0) == 0.0;
    assert !Overloaded(apps, genome);
    assert LastIndexContaining(apps, DryerPattern, 1) == -1 by {
      forall i | 0 <= i <= 1
        ensures !MatchesAt(apps[0].name, DryerPattern, i)
      {
        assert !SameIgnoringCase(apps[0].name[i], DryerPattern[0]);
      }
    }
  }
}
