/**
 * The engine's System.Random, replaced by an explicit oracle: `draws` gives
 * one raw value per call and `position` counts the calls made so far. Each
 * call maps its raw value into the range the corresponding System.Random
 * call promises. How the generator itself consumes internal outputs, and the
 * distribution of the values, are not modelled.
 */
module Randomness {

  /** 2^53: NextDouble returns a multiple of 2^-53 in [0, 1). */
  const DoubleResolution: int := 0x20_0000_0000_0000

  class Random {
    const draws: nat -> int
    var position: nat

    constructor (draws: nat -> int)
      ensures this.draws == draws && position == 0
    {
      this.draws := draws;
      position := 0;
    }

    /** The raw draw that the next call consumes. */
    function Upcoming(): int
      reads this
    {
      draws(position)
    }

    /** `Next(maxValue)`: a value in [0, maxValue), or 0 when maxValue is 0. */
    method Next(maxValue: int) returns (r: int)
      requires maxValue >= 0
      modifies this
      ensures position == old(position) + 1
      ensures maxValue == 0 ==> r == 0
      ensures maxValue > 0 ==> 0 <= r < maxValue && r == old(Upcoming()) % maxValue
    {
      r := if maxValue == 0 then 0 else draws(position) % maxValue;
      position := position + 1;
    }

    /** `Next(minValue, maxValue)`: a value in [minValue, maxValue), or minValue when the two are equal. */
    method NextInRange(minValue: int, maxValue: int) returns (r: int)
      requires minValue <= maxValue
      modifies this
      ensures position == old(position) + 1
      ensures r == Between(minValue, maxValue, old(Upcoming()))
      ensures minValue <= r && (r < maxValue || r == minValue == maxValue)
    {
      r := Between(minValue, maxValue, draws(position));
      position := position + 1;
    }

    /** `NextDouble()`: a value in [0, 1). */
    method NextDouble() returns (d: real)
      modifies this
      ensures position == old(position) + 1
      ensures d == UnitDouble(old(Upcoming())) && 0.0 <= d < 1.0
    {
      d := UnitDouble(draws(position));
      position := position + 1;
    }
  }

  /** How a raw draw becomes the result of `NextDouble()`. */
  function UnitDouble(raw: int): (d: real)
    ensures 0.0 <= d < 1.0
  {
    (raw % DoubleResolution) as real / DoubleResolution as real
  }

  /** How a raw draw becomes the result of `Next(minValue, maxValue)`. */
  function Between(minValue: int, maxValue: int, raw: int): (r: int)
    requires minValue <= maxValue
    ensures minValue <= r && (r < maxValue || r == minValue == maxValue)
  {
    if minValue == maxValue then minValue else minValue + raw % (maxValue - minValue)
  }
}
