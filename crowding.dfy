/**
 * Crowding distance (NSGAIIEngine.CalculateCrowdingDistance): every member
 * of a front is reset to 0, then each objective in turn orders the front
 * ascending, gives the first and last member +infinity and, unless the
 * objective's range is below 1e-9, adds to every interior member the gap
 * between its two neighbours divided by the range.
 */
module Crowding {
  import opened Models
  import opened Sorting
  import Ranking

  /** A range narrower than this (1e-9) is degenerate: that objective adds nothing. */
  const Epsilon: real := 0.000000001

  /** The two selectors the distance is computed over, cost first. */
  datatype Axis = Cost | Discomfort

  function Key(o: Objectives, axis: Axis): real {
    match axis
    case Cost => o.cost
    case Discomfort => o.discomfort
  }

  /** The sort keys of a front on one axis. */
  function Keys(objs: seq<Objectives>, axis: Axis): (keys: seq<ExtReal>)
    ensures |keys| == |objs| && forall i :: 0 <= i < |objs| ==> keys[i] == Finite(Key(objs[i], axis))
  {
    seq(|objs|, i requires 0 <= i < |objs| => Finite(Key(objs[i], axis)))
  }

  /** `front.OrderBy(selector)`: positions of the front by ascending key, ties in front order. */
  function AxisOrder(objs: seq<Objectives>, axis: Axis): (order: seq<nat>)
    ensures |order| == |objs| && Distinct(order) && InBounds(order, |objs|)
    ensures forall i :: 0 <= i < |objs| ==> i in order
    ensures forall p, q {:trigger Key(objs[order[p]], axis), Key(objs[order[q]], axis)} :: 0 <= p < q < |objs| ==>
      Key(objs[order[p]], axis) <= Key(objs[order[q]], axis)
    ensures TiesInInputOrder(order, Keys(objs, axis))
  {
    var keys := Keys(objs, axis);
    var order := Order(keys, false);
    assert forall p, q :: 0 <= p < q < |objs| ==> !Precedes(keys[order[q]], keys[order[p]], false);
    order
  }

  function AbsReal(x: real): real {
    if x < 0.0 then -x else x
  }

  /** max - min: the key of the last member of the ordering minus that of the first. */
  function Spread(objs: seq<Objectives>, axis: Axis): real
    requires |objs| > 0
  {
    var order := AxisOrder(objs, axis);
    Key(objs[order[|objs| - 1]], axis) - Key(objs[order[0]], axis)
  }

  /** `Math.Abs(max - min) < 1e-9`. */
  predicate Degenerate(objs: seq<Objectives>, axis: Axis)
    requires |objs| > 0
  {
    AbsReal(Spread(objs, axis)) < Epsilon
  }

  /** What the member at sorted position p gains: its neighbours' key gap over the range. */
  function Contribution(objs: seq<Objectives>, axis: Axis, p: nat): real
    requires 0 < p < |objs| - 1 && !Degenerate(objs, axis)
  {
    var order := AxisOrder(objs, axis);
    (Key(objs[order[p + 1]], axis) - Key(objs[order[p - 1]], axis)) / Spread(objs, axis)
  }

  /** The distance of the member at sorted position p after one pass over `axis`, starting from `dist`. */
  function PassValue(dist: seq<ExtReal>, objs: seq<Objectives>, axis: Axis, p: nat): ExtReal
    requires |dist| == |objs| && p < |objs|
  {
    var order := AxisOrder(objs, axis);
    if p == 0 || p == |objs| - 1 then PositiveInfinity
    else if Degenerate(objs, axis) then dist[order[p]]
    else dist[order[p]].Plus(Finite(Contribution(objs, axis, p)))
  }

  /** One AssignDistance pass, member by member (member j sits at its position in the ordering). */
  function AxisPass(dist: seq<ExtReal>, objs: seq<Objectives>, axis: Axis): (r: seq<ExtReal>)
    requires |dist| == |objs|
    ensures |r| == |objs|
  {
    var order := AxisOrder(objs, axis);
    seq(|objs|, j requires 0 <= j < |objs| => PassValue(dist, objs, axis, PositionOf(order, j)))
  }

  /** n copies of 0, the value every member is reset to. */
  function Zeros(n: nat): (r: seq<ExtReal>)
    ensures |r| == n && forall j :: 0 <= j < n ==> r[j] == Finite(0.0)
  {
    seq(n, _ => Finite(0.0))
  }

  /** The crowding distances of a front with objectives `objs`: reset, then the cost pass, then the discomfort pass. */
  function CrowdingDistances(objs: seq<Objectives>): (r: seq<ExtReal>)
    ensures |r| == |objs|
  {
    AxisPass(AxisPass(Zeros(|objs|), objs, Cost), objs, Discomfort)
  }

  /** Member j comes first or last in the ordering on `axis`. */
  predicate Extreme(objs: seq<Objectives>, axis: Axis, j: nat)
    requires |objs| > 0
  {
    var order := AxisOrder(objs, axis);
    j == order[0] || j == order[|objs| - 1]
  }

  // ----- the imperative computation -----

  /** Each member's crowding field holds the matching entry of `dist`. */
  ghost predicate DistancesAre(front: seq<Individual>, dist: seq<ExtReal>)
    reads (set x | x in front)`crowdingDistance
  {
    |dist| == |front|
    && forall j {:trigger front[j].crowdingDistance} :: 0 <= j < |front| ==> front[j].crowdingDistance == dist[j]
  }

  /** Stores v as the crowding distance of x, the member at position j. */
  method SetDistance(front: seq<Individual>, ghost dist: seq<ExtReal>, x: Individual, ghost j: nat, v: ExtReal)
    requires Distinct(front) && j < |front| && front[j] == x
    requires DistancesAre(front, dist)
    modifies x`crowdingDistance
    ensures x.crowdingDistance == v
    ensures DistancesAre(front, dist[j := v])
  {
    x.crowdingDistance := v;
  }

  /**
   * Stores in every member of `front` its crowding distance: a front whose
   * objectives are `objs` ends with CrowdingDistances(objs), whatever the
   * distances were before. An empty front is left alone.
   */
  method CalculateCrowdingDistance(front: seq<Individual>)
    requires Distinct(front)
    modifies (set x | x in front)`crowdingDistance
    ensures forall j :: 0 <= j < |front| ==> front[j].crowdingDistance == CrowdingDistances(Ranking.ObjectivesOf(front))[j]
  {
    if |front| == 0 {
      return;
    }
    var objs := Ranking.ObjectivesOf(front);
    for i := 0 to |front|
      invariant forall j {:trigger front[j].crowdingDistance} :: 0 <= j < i ==> front[j].crowdingDistance == Finite(0.0)
    {
      front[i].crowdingDistance := Finite(0.0);
    }
    ghost var dist := Zeros(|front|);
    dist := AssignDistance(front, objs, Cost, dist);
    dist := AssignDistance(front, objs, Discomfort, dist);
    assert objs == Ranking.ObjectivesOf(front);
  }

  /**
   * The local function AssignDistance for one selector: +infinity to the
   * first and last member of the ordering, then, unless the range is
   * degenerate, the normalised neighbour gap added to every interior member.
   */
  method AssignDistance(front: seq<Individual>, objs: seq<Objectives>, axis: Axis, ghost dist0: seq<ExtReal>)
      returns (ghost dist: seq<ExtReal>)
    requires Distinct(front) && |front| == |objs| > 0
    requires forall j :: 0 <= j < |front| ==> front[j].ObjectiveValues() == objs[j]
    requires DistancesAre(front, dist0)
    modifies (set x | x in front)`crowdingDistance
    ensures dist == AxisPass(dist0, objs, axis) && DistancesAre(front, dist)
    ensures forall j :: 0 <= j < |front| ==> front[j].ObjectiveValues() == objs[j]
  {
    var n := |front|;
    var order := AxisOrder(objs, axis);
    dist := SetEnds(front, objs, axis, order, dist0);
    var min := Key(objs[order[0]], axis);
    var max := Key(objs[order[n - 1]], axis);
    if AbsReal(max - min) < Epsilon {
      DegeneratePass(dist0, dist, objs, axis);
      return;
    }
    var i := 1;
    while i < n - 1
      invariant 1 <= i && (n >= 2 ==> i <= n - 1)
      invariant PassedUpTo(dist0, dist, objs, axis, i) && DistancesAre(front, dist)
      invariant forall j :: 0 <= j < |front| ==> front[j].ObjectiveValues() == objs[j]
    {
      dist := AddGap(front, objs, axis, order, i, front[order[i]], min, max, dist0, dist);
      i := i + 1;
    }
    PassFinished(dist0, dist, objs, axis, i);
  }

  /** `ordered.First()` and `ordered.Last()` get +infinity. */
  method SetEnds(front: seq<Individual>, objs: seq<Objectives>, axis: Axis, order: seq<nat>, ghost dist0: seq<ExtReal>)
      returns (ghost dist: seq<ExtReal>)
    requires Distinct(front) && |front| == |objs| > 0 && order == AxisOrder(objs, axis)
    requires forall j :: 0 <= j < |front| ==> front[j].ObjectiveValues() == objs[j]
    requires DistancesAre(front, dist0)
    modifies (set x | x in front)`crowdingDistance
    ensures PassedUpTo(dist0, dist, objs, axis, 1) && DistancesAre(front, dist)
    ensures forall j :: 0 <= j < |front| ==> front[j].ObjectiveValues() == objs[j]
  {
    var n := |front|;
    dist := dist0;
    SetDistance(front, dist, front[order[0]], order[0], PositiveInfinity);
    dist := dist[order[0] := PositiveInfinity];
    SetDistance(front, dist, front[order[n - 1]], order[n - 1], PositiveInfinity);
    dist := dist[order[n - 1] := PositiveInfinity];
    EndsSet(dist0, dist, objs, axis);
  }

  /** One turn of the interior loop: `ordered[i].CrowdingDistance += distance`. */
  method AddGap(front: seq<Individual>, objs: seq<Objectives>, axis: Axis, order: seq<nat>, i: nat, x: Individual,
                min: real, max: real, ghost dist0: seq<ExtReal>, ghost dist: seq<ExtReal>)
      returns (ghost next: seq<ExtReal>)
    requires Distinct(front) && |front| == |objs| == |dist0| && 0 < i < |objs| - 1 && order == AxisOrder(objs, axis)
    requires front[order[i]] == x
    requires min == Key(objs[order[0]], axis) && max == Key(objs[order[|objs| - 1]], axis)
    requires !(AbsReal(max - min) < Epsilon)
    requires PassedUpTo(dist0, dist, objs, axis, i) && DistancesAre(front, dist)
    requires forall j :: 0 <= j < |front| ==> front[j].ObjectiveValues() == objs[j]
    modifies x`crowdingDistance
    ensures PassedUpTo(dist0, next, objs, axis, i + 1) && DistancesAre(front, next)
    ensures forall j :: 0 <= j < |front| ==> front[j].ObjectiveValues() == objs[j]
  {
    var distance := (Key(objs[order[i + 1]], axis) - Key(objs[order[i - 1]], axis)) / (max - min);
    assert x.crowdingDistance == dist[order[i]];
    var v := x.crowdingDistance.Plus(Finite(distance));
    PassStep(dist0, dist, objs, axis, order, i, distance, v);
    SetDistance(front, dist, x, order[i], v);
    next := dist[order[i] := v];
  }

  /**
   * The state of a pass that has dealt with both ends and the interior
   * positions below i: those hold their pass value, the rest their old value.
   */
  ghost predicate PassedUpTo(dist0: seq<ExtReal>, dist: seq<ExtReal>, objs: seq<Objectives>, axis: Axis, i: nat)
    requires |dist0| == |objs|
  {
    var order := AxisOrder(objs, axis);
    |dist| == |objs|
    && forall p :: 0 <= p < |objs| ==>
      dist[order[p]] == if p < i || p == |objs| - 1 then PassValue(dist0, objs, axis, p) else dist0[order[p]]
  }

  /** Right after the two ends are set, the pass has dealt with position 0 and the last position. */
  lemma EndsSet(dist0: seq<ExtReal>, dist: seq<ExtReal>, objs: seq<Objectives>, axis: Axis)
    requires |dist0| == |objs| > 0
    requires dist == dist0[AxisOrder(objs, axis)[0] := PositiveInfinity][AxisOrder(objs, axis)[|objs| - 1] := PositiveInfinity]
    ensures PassedUpTo(dist0, dist, objs, axis, 1)
  {
    var order := AxisOrder(objs, axis);
    forall p | 0 <= p < |objs|
      ensures dist[order[p]] == if p < 1 || p == |objs| - 1 then PassValue(dist0, objs, axis, p) else dist0[order[p]]
    {
      if p != 0 && p != |objs| - 1 {
        assert order[p] != order[0] && order[p] != order[|objs| - 1];
      }
    }
  }

  /** With a degenerate range, setting the two ends completes the pass. */
  lemma DegeneratePass(dist0: seq<ExtReal>, dist: seq<ExtReal>, objs: seq<Objectives>, axis: Axis)
    requires |dist0| == |objs| > 0 && PassedUpTo(dist0, dist, objs, axis, 1)
    requires AbsReal(Key(objs[AxisOrder(objs, axis)[|objs| - 1]], axis) - Key(objs[AxisOrder(objs, axis)[0]], axis)) < Epsilon
    ensures dist == AxisPass(dist0, objs, axis)
  {
    var order := AxisOrder(objs, axis);
    assert Degenerate(objs, axis);
    forall p | 0 <= p < |objs|
      ensures dist[order[p]] == PassValue(dist0, objs, axis, p)
    {
    }
    PassComplete(dist0, dist, objs, axis);
  }

  /** Adding the normalised gap at interior position i moves the pass on to i + 1. */
  lemma PassStep(dist0: seq<ExtReal>, dist: seq<ExtReal>, objs: seq<Objectives>, axis: Axis, order: seq<nat>, i: nat,
                 distance: real, v: ExtReal)
    requires |dist0| == |objs| && 0 < i < |objs| - 1 && PassedUpTo(dist0, dist, objs, axis, i)
    requires order == AxisOrder(objs, axis)
    requires !(AbsReal(Key(objs[order[|objs| - 1]], axis) - Key(objs[order[0]], axis)) < Epsilon)
    requires distance == (Key(objs[order[i + 1]], axis) - Key(objs[order[i - 1]], axis))
      / (Key(objs[order[|objs| - 1]], axis) - Key(objs[order[0]], axis))
    requires v == dist[order[i]].Plus(Finite(distance))
    ensures PassedUpTo(dist0, dist[order[i] := v], objs, axis, i + 1)
  {
    assert !Degenerate(objs, axis);
    assert v == PassValue(dist0, objs, axis, i);
    var next := dist[order[i] := v];
    forall p | 0 <= p < |objs|
      ensures next[order[p]] == if p < i + 1 || p == |objs| - 1 then PassValue(dist0, objs, axis, p) else dist0[order[p]]
    {
      if p != i {
        assert order[p] != order[i];
      }
    }
  }

  /** Once the interior positions are exhausted the pass is complete. */
  lemma PassFinished(dist0: seq<ExtReal>, dist: seq<ExtReal>, objs: seq<Objectives>, axis: Axis, i: nat)
    requires |dist0| == |objs| > 0 && i >= |objs| - 1 && PassedUpTo(dist0, dist, objs, axis, i)
    ensures dist == AxisPass(dist0, objs, axis)
  {
    PassComplete(dist0, dist, objs, axis);
  }

  /** A pass that has dealt with every position is the pass. */
  lemma PassComplete(dist0: seq<ExtReal>, dist: seq<ExtReal>, objs: seq<Objectives>, axis: Axis)
    requires |dist0| == |objs| == |dist| > 0
    requires forall p :: 0 <= p < |objs| ==> dist[AxisOrder(objs, axis)[p]] == PassValue(dist0, objs, axis, p)
    ensures dist == AxisPass(dist0, objs, axis)
  {
    var order := AxisOrder(objs, axis);
    forall j | 0 <= j < |objs|
      ensures dist[j] == AxisPass(dist0, objs, axis)[j]
    {
      var p := PositionOf(order, j);
      assert dist[order[p]] == PassValue(dist0, objs, axis, p);
    }
  }

  // ----- properties of the distances -----

  /** The ordering ascends: an earlier position never has the larger key. */
  lemma KeysAscend(objs: seq<Objectives>, axis: Axis, p: nat, q: nat)
    requires p <= q < |objs|
    ensures Key(objs[AxisOrder(objs, axis)[p]], axis) <= Key(objs[AxisOrder(objs, axis)[q]], axis)
  {
  }

  /** Outside a degenerate range, each interior member gains between 0 and 1 on that axis. */
  lemma ContributionBounds(objs: seq<Objectives>, axis: Axis, p: nat)
    requires 0 < p < |objs| - 1 && !Degenerate(objs, axis)
    ensures 0.0 <= Contribution(objs, axis, p) <= 1.0
  {
    var n := |objs|;
    var order := AxisOrder(objs, axis);
    KeysAscend(objs, axis, 0, p - 1);
    KeysAscend(objs, axis, p - 1, p + 1);
    KeysAscend(objs, axis, p + 1, n - 1);
    var gap := Key(objs[order[p + 1]], axis) - Key(objs[order[p - 1]], axis);
    var spread := Spread(objs, axis);
    assert 0.0 <= gap <= spread && spread >= Epsilon;
    RatioInUnit(gap, spread);
  }

  /** A part of a positive whole is between 0 and 1 of it. */
  lemma RatioInUnit(part: real, whole: real)
    requires 0.0 <= part <= whole && whole > 0.0
    ensures 0.0 <= part / whole <= 1.0
  {
    assert part / whole * whole == part;
  }

  /** A member that is first or last on an axis is at +infinity after that pass, and stays there. */
  lemma {:induction false} PassInfinity(dist: seq<ExtReal>, objs: seq<Objectives>, axis: Axis, j: nat)
    requires |dist| == |objs| && j < |objs|
    ensures AxisPass(dist, objs, axis)[j] == PositiveInfinity <==> Extreme(objs, axis, j) || dist[j] == PositiveInfinity
  {
    var p := PositionOf(AxisOrder(objs, axis), j);
    var v := PassValue(dist, objs, axis, p);
    assert AxisPass(dist, objs, axis)[j] == v;
    ExtremeAtEnds(objs, axis, j);
    PassValueInfinite(dist, objs, axis, p);
  }

  /** The ends of the ordering get +infinity; anyone else keeps +infinity only if they had it already. */
  lemma PassValueInfinite(dist: seq<ExtReal>, objs: seq<Objectives>, axis: Axis, p: nat)
    requires |dist| == |objs| && p < |objs|
    ensures PassValue(dist, objs, axis, p) == PositiveInfinity
      <==> p == 0 || p == |objs| - 1 || dist[AxisOrder(objs, axis)[p]] == PositiveInfinity
  {
  }

  /** A member is extreme on an axis exactly when its sorted position is the first or the last. */
  lemma ExtremeAtEnds(objs: seq<Objectives>, axis: Axis, j: nat)
    requires j < |objs|
    ensures var p := PositionOf(AxisOrder(objs, axis), j);
      Extreme(objs, axis, j) <==> p == 0 || p == |objs| - 1
  {
    var order := AxisOrder(objs, axis);
    var p := PositionOf(order, j);
    assert Extreme(objs, axis, j) <==> j == order[0] || j == order[|objs| - 1];
    if 0 < p < |objs| - 1 {
      assert j != order[0] && j != order[|objs| - 1] by {
        assert Distinct(order) && order[p] == j;
      }
    }
  }

  /** Exactly the members first or last on some axis get +infinity. */
  lemma InfiniteExactlyAtExtremes(objs: seq<Objectives>, j: nat)
    requires j < |objs|
    ensures CrowdingDistances(objs)[j] == PositiveInfinity <==> Extreme(objs, Cost, j) || Extreme(objs, Discomfort, j)
  {
    var zeros := Zeros(|objs|);
    PassInfinity(zeros, objs, Cost, j);
    PassInfinity(AxisPass(zeros, objs, Cost), objs, Discomfort, j);
  }

  /** One pass keeps distances non-negative and adds at most 1 to a finite one. */
  lemma {:induction false} PassBounds(dist: seq<ExtReal>, objs: seq<Objectives>, axis: Axis, bound: real, j: nat)
    requires |dist| == |objs| && j < |objs|
    requires dist[j].NonNegative() && (dist[j].Finite? ==> dist[j].value <= bound)
    ensures AxisPass(dist, objs, axis)[j].NonNegative()
    ensures AxisPass(dist, objs, axis)[j].Finite? ==> AxisPass(dist, objs, axis)[j].value <= bound + 1.0
  {
    var p := PositionOf(AxisOrder(objs, axis), j);
    var v := PassValue(dist, objs, axis, p);
    assert AxisPass(dist, objs, axis)[j] == v;
    assert v.NonNegative() && (v.Finite? ==> v.value <= bound + 1.0) by {
      assert AxisOrder(objs, axis)[p] == j;
      if 0 < p < |objs| - 1 && !Degenerate(objs, axis) {
        ContributionBounds(objs, axis, p);
      }
    }
  }

  /** Crowding distances are never negative, and a finite one is at most 2 (one per objective). */
  lemma CrowdingBounds(objs: seq<Objectives>, j: nat)
    requires j < |objs|
    ensures CrowdingDistances(objs)[j].NonNegative()
    ensures CrowdingDistances(objs)[j].Finite? ==> CrowdingDistances(objs)[j].value <= 2.0
  {
    var zeros := Zeros(|objs|);
    PassBounds(zeros, objs, Cost, 0.0, j);
    PassBounds(AxisPass(zeros, objs, Cost), objs, Discomfort, 1.0, j);
  }

  /** In a front of one or two members every member gets +infinity; a lone member's front is [+infinity]. */
  lemma SmallFrontsInfinite(objs: seq<Objectives>)
    requires 0 < |objs| <= 2
    ensures forall j :: 0 <= j < |objs| ==> CrowdingDistances(objs)[j] == PositiveInfinity
    ensures |objs| == 1 ==> CrowdingDistances(objs) == [PositiveInfinity]
  {
    forall j | 0 <= j < |objs|
      ensures CrowdingDistances(objs)[j] == PositiveInfinity
    {
      var order := AxisOrder(objs, Cost);
      var p := PositionOf(order, j);
      assert Extreme(objs, Cost, j);
      InfiniteExactlyAtExtremes(objs, j);
    }
  }

  /** A degenerate axis leaves every member it does not put at an end as it was. */
  lemma {:induction false} DegeneratePassKeeps(dist: seq<ExtReal>, objs: seq<Objectives>, axis: Axis, j: nat)
    requires |dist| == |objs| && j < |objs|
    requires Degenerate(objs, axis) && !Extreme(objs, axis, j)
    ensures AxisPass(dist, objs, axis)[j] == dist[j]
  {
    var order := AxisOrder(objs, axis);
    var p := PositionOf(order, j);
    assert AxisPass(dist, objs, axis)[j] == PassValue(dist, objs, axis, p);
    assert p != 0 && p != |objs| - 1;
  }

  /** When both ranges are degenerate the interior members keep the reset value 0. */
  lemma DegenerateFrontStaysZero(objs: seq<Objectives>, j: nat)
    requires j < |objs|
    requires Degenerate(objs, Cost) && Degenerate(objs, Discomfort)
    requires !Extreme(objs, Cost, j) && !Extreme(objs, Discomfort, j)
    ensures CrowdingDistances(objs)[j] == Finite(0.0)
  {
    var zeros := Zeros(|objs|);
    DegeneratePassKeeps(zeros, objs, Cost, j);
    DegeneratePassKeeps(AxisPass(zeros, objs, Cost), objs, Discomfort, j);
  }

  /** A member with a strictly smaller key than all others comes first in the ordering, so it gets +infinity. */
  lemma UniqueMinimumInfinite(objs: seq<Objectives>, axis: Axis, j: nat)
    requires j < |objs|
    requires forall k :: 0 <= k < |objs| && k != j ==> Key(objs[j], axis) < Key(objs[k], axis)
    ensures CrowdingDistances(objs)[j] == PositiveInfinity
  {
    var order := AxisOrder(objs, axis);
    var p := PositionOf(order, j);
    KeysAscend(objs, axis, 0, p);
    assert order[0] == j;
    InfiniteExactlyAtExtremes(objs, j);
  }

  /** Likewise a member with a strictly larger key than all others comes last. */
  lemma UniqueMaximumInfinite(objs: seq<Objectives>, axis: Axis, j: nat)
    requires j < |objs|
    requires forall k :: 0 <= k < |objs| && k != j ==> Key(objs[k], axis) < Key(objs[j], axis)
    ensures CrowdingDistances(objs)[j] == PositiveInfinity
  {
    var order := AxisOrder(objs, axis);
    var p := PositionOf(order, j);
    KeysAscend(objs, axis, p, |objs| - 1);
    assert order[|objs| - 1] == j;
    InfiniteExactlyAtExtremes(objs, j);
  }
}
