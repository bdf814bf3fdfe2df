/**
 * Domain types of the smart-home scheduler (NSGA-II-SmartHome/Core/Models.cs):
 * appliances, the 24-slot tariff, the scenario they form, and the mutable
 * candidate schedule (Individual) that the optimiser evolves.
 */
module Models {

  /** Outcome of a constructor that throws ArgumentException on bad input. */
  datatype Result<T> = Success(value: T) | Failure(message: string)

  /** Number of hourly slots in the tariff and in a load profile. */
  const HoursPerDay: int := 24

  /** A double that is finite or +infinity, the only infinity a crowding distance takes. */
  datatype ExtReal = Finite(value: real) | PositiveInfinity {

    /** Strict `<` on doubles restricted to finite values and +infinity. */
    predicate Below(other: ExtReal) {
      Finite? && (other.PositiveInfinity? || value < other.value)
    }

    /** `+` on doubles: +infinity absorbs every finite addend. */
    function Plus(other: ExtReal): ExtReal {
      if Finite? && other.Finite? then Finite(value + other.value) else PositiveInfinity
    }

    /** Not below zero: the crowding distances the optimiser computes stay here. */
    predicate NonNegative() {
      PositiveInfinity? || value >= 0.0
    }
  }

  /** The two objectives of a candidate, both minimised. */
  datatype Objectives = Objectives(cost: real, discomfort: real)

  /** Immutable description of one appliance. */
  datatype Appliance = Appliance(name: string, durationHours: int, powerKw: real, preferredStartHour: int)

  /** Immutable problem: an ordered appliance list and one tariff schedule. */
  datatype Scenario = Scenario(appliances: seq<Appliance>, tariffs: TariffSchedule)

  /** No element occurs twice. */
  predicate Distinct<T(==)>(s: seq<T>) {
    forall i, j :: 0 <= i < j < |s| ==> s[i] != s[j]
  }

  /** Two lists without repeats and without a common element join into one without repeats. */
  lemma DistinctJoin<T>(a: seq<T>, b: seq<T>)
    requires Distinct(a) && Distinct(b) && forall x :: x in b ==> x !in a
    ensures Distinct(a + b)
  {
    forall i, j | 0 <= i < j < |a + b|
      ensures (a + b)[i] != (a + b)[j]
    {
      if i < |a| <= j {
        assert (a + b)[j] in b;
      }
    }
  }

  /** Integer division as C# computes it: the quotient is truncated toward zero. */
  function TruncatedQuotient(a: int, b: int): int
    requires b > 0
  {
    if a >= 0 then a / b else -((-a) / b)
  }

  /**
   * Integer remainder as C# computes it, `a - (a / b) * b` with the
   * truncated quotient: it takes the sign of the dividend.
   */
  function TruncatedRemainder(a: int, b: int): (r: int)
    requires b > 0
    ensures -b < r < b
    ensures a >= 0 ==> r >= 0
    ensures a <= 0 ==> r <= 0
  {
    if a >= 0 then a % b else -((-a) % b)
  }

  /** Dafny's `/` and `%` on a natural dividend: the multiple of the divisor stays between 0 and the dividend. */
  lemma NaturalDivision(n: nat, b: int)
    requires b > 0
    ensures n == (n / b) * b + n % b
    ensures 0 <= (n / b) * b <= n
  {
    var q := n / b;
    assert q >= 0 && 0 <= n % b;
    assert q * b >= 0 by {
      if q > 0 {
        assert q * b == (q - 1) * b + b;
      }
    }
  }

  /**
   * C#'s `/` and `%` together: the quotient is truncated toward zero and
   * quotient times divisor plus remainder gives back the dividend.
   */
  lemma TruncatedDivision(a: int, b: int)
    requires b > 0
    ensures a == TruncatedQuotient(a, b) * b + TruncatedRemainder(a, b)
    ensures a >= 0 ==> 0 <= TruncatedQuotient(a, b) * b <= a
    ensures a <= 0 ==> a <= TruncatedQuotient(a, b) * b <= 0
  {
    if a >= 0 {
      NaturalDivision(a, b);
    } else {
      NaturalDivision(-a, b);
      assert TruncatedQuotient(a, b) * b == -(((-a) / b) * b);
    }
  }


  /**
   * The slot that TariffSchedule.RateForHour reads for `hour`:
   * (hour % 24 + 24) % 24 with C#'s truncating %. It is the mathematical
   * residue of `hour` modulo 24 (Dafny's % on int), for every int.
   */
  function HourIndex(hour: int): (slot: int)
    ensures 0 <= slot < HoursPerDay
    ensures slot == hour % HoursPerDay
  {
    TruncatedRemainder(TruncatedRemainder(hour, HoursPerDay) + HoursPerDay, HoursPerDay)
  }

  /** The slot lookup repeats every 24 hours, for negative hours and negative k too. */
  lemma HourIndexPeriodic(hour: int, k: int)
    ensures HourIndex(hour + HoursPerDay * k) == HourIndex(hour)
  {
  }

  /** Hourly electricity rates; the array is a private copy made at construction. */
  class TariffSchedule {
    const rates: array<real>

    /** The successful path of the constructor: copies the caller's rates (ToArray). */
    constructor (hourlyRates: array<real>)
      requires hourlyRates.Length == HoursPerDay
      ensures fresh(rates) && rates.Length == HoursPerDay
      ensures rates[..] == hourlyRates[..]
    {
      var copy := new real[hourlyRates.Length];
      for i := 0 to hourlyRates.Length
        invariant copy[..i] == hourlyRates[..i]
      {
        copy[i] := hourlyRates[i];
      }
      rates := copy;
    }

    /** The read-only view `Rates`. */
    function Rates(): seq<real>
      reads rates
    {
      rates[..]
    }

    /** The rate of the hour `hour`, taken cyclically. */
    function RateForHour(hour: int): (rate: real)
      requires rates.Length == HoursPerDay
      reads rates
      ensures rate == rates[hour % HoursPerDay]
    {
      rates[HourIndex(hour)]
    }
  }

  /**
   * `new TariffSchedule(hourlyRates)`: throws ArgumentException unless exactly
   * 24 rates are given, and otherwise keeps a fresh copy of them.
   */
  method NewTariffSchedule(hourlyRates: array<real>) returns (r: Result<TariffSchedule>)
    ensures r.Success? <==> hourlyRates.Length == HoursPerDay
    ensures r.Success? ==> fresh(r.value.rates) && r.value.rates.Length == HoursPerDay
    ensures r.Success? ==> r.value.Rates() == hourlyRates[..]
  {
    if hourlyRates.Length != HoursPerDay {
      return Failure("Tariff schedule must cover 24 hours.");
    }
    var schedule := new TariffSchedule(hourlyRates);
    return Success(schedule);
  }

  /** Writing to the caller's array after construction leaves the schedule's rates as they were. */
  method TariffScheduleKeepsItsCopy(hourlyRates: array<real>, hour: int, rate: real) returns (schedule: TariffSchedule)
    requires 0 <= hour < hourlyRates.Length == HoursPerDay
    modifies hourlyRates
    ensures hourlyRates[hour] == rate
    ensures schedule.Rates() == old(hourlyRates[..])
  {
    schedule := new TariffSchedule(hourlyRates);
    hourlyRates[hour] := rate;
  }

  /** A candidate schedule: one start hour per appliance plus the values the optimiser derives. */
  class Individual {
    const startTimes: array<int>
    var cost: real
    var discomfort: real
    var rank: int
    var crowdingDistance: ExtReal

    /** `new Individual(geneCount)`: an all-zero genome; the other fields keep C#'s defaults. */
    constructor (geneCount: nat)
      ensures fresh(startTimes) && startTimes.Length == geneCount
      ensures forall i :: 0 <= i < geneCount ==> startTimes[i] == 0
      ensures cost == 0.0 && discomfort == 0.0 && rank == 0 && crowdingDistance == Finite(0.0)
    {
      startTimes := new int[geneCount](_ => 0);
      cost, discomfort, rank, crowdingDistance := 0.0, 0.0, 0, Finite(0.0);
    }

    /** The two objectives; reads only them, so rank and crowding updates leave it alone. */
    function ObjectiveValues(): Objectives
      reads this`cost, this`discomfort
    {
      Objectives(cost, discomfort)
    }

    /** A deep copy: the four derived fields, and the genome copied into a fresh array. */
    method Clone() returns (clone: Individual)
      ensures fresh(clone) && fresh(clone.startTimes)
      ensures clone.startTimes[..] == startTimes[..]
      ensures clone.cost == cost && clone.discomfort == discomfort
      ensures clone.rank == rank && clone.crowdingDistance == crowdingDistance
    {
      clone := new Individual(startTimes.Length);
      clone.cost := cost;
      clone.discomfort := discomfort;
      clone.rank := rank;
      clone.crowdingDistance := crowdingDistance;
      for i := 0 to startTimes.Length
        invariant clone.startTimes[..i] == startTimes[..i]
        invariant clone.cost == cost && clone.discomfort == discomfort
        invariant clone.rank == rank && clone.crowdingDistance == crowdingDistance
      {
        clone.startTimes[i] := startTimes[i];
      }
    }
  }

  /**
   * Cloning and then writing a gene of the clone leaves the original
   * untouched: this method modifies nothing that existed before the call.
   */
  method CloneThenEdit(original: Individual, gene: int, value: int) returns (clone: Individual)
    requires 0 <= gene < original.startTimes.Length
    ensures clone != original && clone.startTimes != original.startTimes
    ensures clone.startTimes[..] == original.startTimes[..][gene := value]
    ensures clone.ObjectiveValues() == original.ObjectiveValues()
  {
    clone := original.Clone();
    clone.startTimes[gene] := value;
  }
}
