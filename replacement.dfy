/**
 * Environmental selection of NSGAIIEngine.Run: the next population is built
 * from the ranked fronts of parents and offspring, taking whole fronts in
 * rank order while they fit and filling the rest from the first front that
 * does not fit, most crowded first.
 */
module Replacement {
  import opened Models
  import opened Sorting
  import Ranking
  import Crowding

  /** The fronts one after another, as AddRange appends them. */
  function Concat<T>(fronts: seq<seq<T>>): (all: seq<T>)
    decreases |fronts|
  {
    if fronts == [] then [] else Concat(fronts[..|fronts| - 1]) + fronts[|fronts| - 1]
  }

  /** Appending one more front. */
  lemma ConcatStep<T>(fronts: seq<seq<T>>, k: nat)
    requires k < |fronts|
    ensures Concat(fronts[..k + 1]) == Concat(fronts[..k]) + fronts[k]
  {
    assert fronts[..k + 1][..k] == fronts[..k];
  }

  /** Taking more fronts never takes fewer members. */
  lemma {:induction false} ConcatGrows<T>(fronts: seq<seq<T>>, i: nat, j: nat)
    requires i <= j <= |fronts|
    ensures |Concat(fronts[..i])| <= |Concat(fronts[..j])|
    decreases j - i
  {
    if i < j {
      ConcatStep(fronts, i);
      ConcatGrows(fronts, i + 1, j);
    }
  }

  /** A member of the concatenation comes from some front, and every front's members are in it. */
  lemma {:induction false} ConcatMembers<T>(fronts: seq<seq<T>>)
    ensures forall x :: x in Concat(fronts) <==> exists k :: 0 <= k < |fronts| && x in fronts[k]
    decreases |fronts|
  {
    if fronts != [] {
      var init := fronts[..|fronts| - 1];
      ConcatMembers(init);
      assert forall k :: 0 <= k < |init| ==> init[k] == fronts[k];
    }
  }

  /** Fronts that are each duplicate-free and pairwise disjoint concatenate without duplicates. */
  lemma {:induction false} ConcatDistinct<T>(fronts: seq<seq<T>>)
    requires forall k :: 0 <= k < |fronts| ==> Distinct(fronts[k])
    requires forall k, l, x :: 0 <= k < l < |fronts| && x in fronts[k] ==> x !in fronts[l]
    ensures Distinct(Concat(fronts))
    decreases |fronts|
  {
    if fronts != [] {
      var init := fronts[..|fronts| - 1];
      var last := fronts[|fronts| - 1];
      ConcatDistinct(init);
      ConcatMembers(init);
      var all := Concat(init) + last;
      forall i, j | 0 <= i < j < |all|
        ensures all[i] != all[j]
      {
        if j >= |Concat(init)| && i < |Concat(init)| {
          assert all[i] in Concat(init);
          assert all[j] == last[j - |Concat(init)|];
        }
      }
    }
  }

  /**
   * How many leading fronts are taken whole: the fronts before the first
   * one that would push the population past `size`.
   */
  function FittingFronts<T>(fronts: seq<seq<T>>, size: nat): (w: nat)
    ensures w <= |fronts| && |Concat(fronts[..w])| <= size
    ensures w < |fronts| ==> size < |Concat(fronts[..w])| + |fronts[w]|
    decreases |fronts|
  {
    if fronts == [] then 0
    else
      var init := fronts[..|fronts| - 1];
      var w := FittingFronts(init, size);
      assert init[..w] == fronts[..w];
      if w == |init| && |Concat(fronts)| <= size then
        assert fronts[..|fronts|] == fronts;
        |fronts|
      else
        ConcatStep(fronts, |init|);
        assert fronts[..|init|] == init;
        w
  }

  /** The two facts FittingFronts ensures determine it: no other count has them both. */
  lemma FittingFrontsUnique<T>(fronts: seq<seq<T>>, size: nat, k: nat)
    requires k <= |fronts| && |Concat(fronts[..k])| <= size
    requires k < |fronts| ==> size < |Concat(fronts[..k])| + |fronts[k]|
    ensures FittingFronts(fronts, size) == k
  {
    var w := FittingFronts(fronts, size);
    if w < k {
      ConcatStep(fronts, w);
      ConcatGrows(fronts, w + 1, k);
    } else if w > k {
      ConcatStep(fronts, k);
      ConcatGrows(fronts, k + 1, w);
    }
  }

  /**
   * The positions kept from the front that does not fit: the first
   * `remaining` of the front ordered by descending crowding distance.
   */
  function Truncation(distances: seq<ExtReal>, remaining: nat): (kept: seq<nat>)
    requires remaining <= |distances|
    ensures |kept| == remaining && Distinct(kept) && InBounds(kept, |distances|)
  {
    Order(distances, true)[..remaining]
  }

  /** No member the truncation drops is more crowded than a member it keeps. */
  lemma TruncationKeepsMostCrowded(distances: seq<ExtReal>, remaining: nat, i: nat, j: nat)
    requires remaining <= |distances| && j < |distances|
    requires i in Truncation(distances, remaining) && j !in Truncation(distances, remaining)
    ensures !distances[i].Below(distances[j])
  {
    var order := Order(distances, true);
    var p := PositionOf(order, i);
    var q := PositionOf(order, j);
    var r := PositionOf(order[..remaining], i);
    assert order[r] == i;
    assert forall t :: 0 <= t < remaining ==> order[..remaining][t] == order[t];
  }

  /** The crowding distances stored on the members of `front`. */
  function DistancesOf(front: seq<Individual>): (distances: seq<ExtReal>)
    reads (set x | x in front)`crowdingDistance
    ensures |distances| == |front|
    ensures forall j :: 0 <= j < |front| ==> distances[j] == front[j].crowdingDistance
  {
    if front == [] then [] else DistancesOf(front[..|front| - 1]) + [front[|front| - 1].crowdingDistance]
  }

  /** The survivors the replacement step chooses from fronts whose crowding distances are `distances`. */
  function Survivors(fronts: seq<seq<Individual>>, distances: seq<ExtReal>, size: nat): (next: seq<Individual>)
    requires FittingFronts(fronts, size) < |fronts| ==> |distances| == |fronts[FittingFronts(fronts, size)]|
    ensures |next| <= size
    ensures FittingFronts(fronts, size) < |fronts| ==> |next| == size
  {
    var w := FittingFronts(fronts, size);
    if w == |fronts| then Concat(fronts)
    else
      assert fronts[..|fronts|] == fronts;
      var kept := Truncation(distances, size - |Concat(fronts[..w])|);
      Concat(fronts[..w]) + Ranking.Members(fronts[w], kept)
  }

  /** When the whole fronts fit, the survivors are all of them. */
  lemma SurvivorsWhole(fronts: seq<seq<Individual>>, distances: seq<ExtReal>, size: nat)
    requires FittingFronts(fronts, size) == |fronts|
    ensures Survivors(fronts, distances, size) == Concat(fronts)
  {
  }

  /** When front k is the first that does not fit, the survivors are the fronts before it and the most crowded of it. */
  lemma SurvivorsCut(fronts: seq<seq<Individual>>, distances: seq<ExtReal>, size: nat, k: nat)
    requires FittingFronts(fronts, size) == k < |fronts| && |distances| == |fronts[k]|
    ensures size - |Concat(fronts[..k])| <= |fronts[k]|
    ensures Survivors(fronts, distances, size) ==
      Concat(fronts[..k]) + Ranking.Members(fronts[k], Truncation(distances, size - |Concat(fronts[..k])|))
  {
  }

  /** The next population has `size` members, or all of them when parents and offspring are fewer. */
  lemma SurvivorsSize(fronts: seq<seq<Individual>>, distances: seq<ExtReal>, size: nat)
    requires FittingFronts(fronts, size) < |fronts| ==> |distances| == |fronts[FittingFronts(fronts, size)]|
    ensures |Survivors(fronts, distances, size)| == if |Concat(fronts)| <= size then |Concat(fronts)| else size
  {
    var w := FittingFronts(fronts, size);
    assert fronts[..|fronts|] == fronts;
    if w < |fronts| {
      ConcatStep(fronts, w);
      ConcatGrows(fronts, w + 1, |fronts|);
    }
  }

  /**
   * The fronts before the cut survive whole, and every survivor comes from
   * one of them or from the cut front: a front is never skipped for a later one.
   */
  lemma SurvivorsMembers(fronts: seq<seq<Individual>>, distances: seq<ExtReal>, size: nat)
    requires FittingFronts(fronts, size) < |fronts| ==> |distances| == |fronts[FittingFronts(fronts, size)]|
    ensures forall k, x :: 0 <= k < FittingFronts(fronts, size) && x in fronts[k] ==> x in Survivors(fronts, distances, size)
    ensures forall x :: x in Survivors(fronts, distances, size) ==>
      exists k :: 0 <= k <= FittingFronts(fronts, size) && k < |fronts| && x in fronts[k]
  {
    var w := FittingFronts(fronts, size);
    if w < |fronts| {
      var positions := Truncation(distances, size - |Concat(fronts[..w])|);
      SurvivorsCut(fronts, distances, size, w);
      assert Survivors(fronts, distances, size) == Parts(fronts, w, positions);
      PartsMembers(fronts, w, positions);
    } else {
      SurvivorsWhole(fronts, distances, size);
      assert fronts[..w] == fronts;
      assert Survivors(fronts, distances, size) == Parts(fronts, w, []);
      PartsMembers(fronts, w, []);
    }
  }

  /** Duplicate-free, pairwise disjoint fronts give a duplicate-free next population. */
  lemma SurvivorsDistinct(fronts: seq<seq<Individual>>, distances: seq<ExtReal>, size: nat)
    requires FittingFronts(fronts, size) < |fronts| ==> |distances| == |fronts[FittingFronts(fronts, size)]|
    requires forall k :: 0 <= k < |fronts| ==> Distinct(fronts[k])
    requires forall k, l, x :: 0 <= k < l < |fronts| && x in fronts[k] ==> x !in fronts[l]
    ensures Distinct(Survivors(fronts, distances, size))
  {
    var w := FittingFronts(fronts, size);
    if w < |fronts| {
      SurvivorsCut(fronts, distances, size, w);
      PartsDistinct(fronts, w, Truncation(distances, size - |Concat(fronts[..w])|));
    } else {
      SurvivorsWhole(fronts, distances, size);
      assert fronts[..w] == fronts;
      assert Parts(fronts, w, []) == Concat(fronts);
      PartsDistinct(fronts, w, []);
    }
  }

  /** The members of the first w fronts followed by the members of front w at `positions`. */
  function Parts(fronts: seq<seq<Individual>>, w: nat, positions: seq<nat>): seq<Individual>
    requires w <= |fronts| && (w == |fronts| ==> positions == []) && (w < |fronts| ==> InBounds(positions, |fronts[w]|))
  {
    Concat(fronts[..w]) + if w < |fronts| then Ranking.Members(fronts[w], positions) else []
  }

  /** Where the members of Parts come from. */
  lemma PartsMembers(fronts: seq<seq<Individual>>, w: nat, positions: seq<nat>)
    requires w <= |fronts| && (w == |fronts| ==> positions == []) && (w < |fronts| ==> InBounds(positions, |fronts[w]|))
    ensures forall k, x :: 0 <= k < w && x in fronts[k] ==> x in Parts(fronts, w, positions)
    ensures forall x :: x in Parts(fronts, w, positions) ==> exists k :: 0 <= k <= w && k < |fronts| && x in fronts[k]
  {
    var whole := fronts[..w];
    ConcatMembers(whole);
    assert forall k :: 0 <= k < w ==> whole[k] == fronts[k];
    forall k, x | 0 <= k < w && x in fronts[k]
      ensures x in Parts(fronts, w, positions)
    {
      assert x in whole[k];
    }
    forall x | x in Parts(fronts, w, positions)
      ensures exists k :: 0 <= k <= w && k < |fronts| && x in fronts[k]
    {
      if x in Concat(whole) {
        ConcatWitness(fronts, w, x);
      } else {
        var kept := Ranking.Members(fronts[w], positions);
        var t :| 0 <= t < |kept| && kept[t] == x;
        assert x in fronts[w];
      }
    }
  }

  /** A member of the first w fronts' concatenation belongs to one of those fronts. */
  lemma ConcatWitness(fronts: seq<seq<Individual>>, w: nat, x: Individual)
    requires w <= |fronts|
    requires x in Concat(fronts[..w])
    ensures exists k :: 0 <= k < w && x in fronts[k]
  {
    var whole := fronts[..w];
    ConcatMembers(whole);
    var k :| 0 <= k < |whole| && x in whole[k];
    assert x in fronts[k];
  }

  /** The elements of a sequence number at most its length, and exactly its length when it has no duplicates. */
  lemma {:induction false} ElementCount<T>(s: seq<T>)
    ensures |(set x | x in s)| <= |s|
    ensures Distinct(s) ==> |(set x | x in s)| == |s|
  {
    if |s| > 0 {
      var init := s[..|s| - 1];
      ElementCount(init);
      assert (set x | x in s) == (set x | x in init) + {s[|s| - 1]};
      if Distinct(s) {
        assert Distinct(init) by {
          forall i, j | 0 <= i < j < |init|
            ensures init[i] != init[j]
          {
            assert init[i] == s[i] && init[j] == s[j];
          }
        }
        assert s[|s| - 1] !in init;
      }
    }
  }

  /** Duplicate-free, disjoint fronts that cover a duplicate-free population hold exactly its members. */
  lemma ConcatPartitionSize(population: seq<Individual>, fronts: seq<seq<Individual>>)
    requires Distinct(population)
    requires forall k :: 0 <= k < |fronts| ==> Distinct(fronts[k])
    requires forall k, l, x :: 0 <= k < l < |fronts| && x in fronts[k] ==> x !in fronts[l]
    requires forall k, x :: 0 <= k < |fronts| && x in fronts[k] ==> x in population
    requires forall x :: x in population ==> exists k :: 0 <= k < |fronts| && x in fronts[k]
    ensures |Concat(fronts)| == |population|
  {
    ConcatDistinct(fronts);
    ConcatMembers(fronts);
    ElementCount(population);
    ElementCount(Concat(fronts));
    var members := set x | x in population;
    var concatenated := set x | x in Concat(fronts);
    forall x | x in members
      ensures x in concatenated
    {
      assert x in population;
      var k :| 0 <= k < |fronts| && x in fronts[k];
    }
    forall x | x in concatenated
      ensures x in members
    {
      assert fronts[..|fronts|] == fronts;
      ConcatWitness(fronts, |fronts|, x);
    }
    assert members == concatenated;
  }

  /** Parts has no duplicates when the fronts are duplicate-free and disjoint and the positions distinct. */
  lemma PartsDistinct(fronts: seq<seq<Individual>>, w: nat, positions: seq<nat>)
    requires w <= |fronts| && (w == |fronts| ==> positions == []) && (w < |fronts| ==> InBounds(positions, |fronts[w]|))
    requires Distinct(positions)
    requires forall k :: 0 <= k < |fronts| ==> Distinct(fronts[k])
    requires forall k, l, x :: 0 <= k < l < |fronts| && x in fronts[k] ==> x !in fronts[l]
    ensures Distinct(Parts(fronts, w, positions))
  {
    var whole := fronts[..w];
    assert forall k :: 0 <= k < w ==> whole[k] == fronts[k];
    ConcatDistinct(whole);
    if w < |fronts| {
      ConcatMembers(whole);
      var kept := Ranking.Members(fronts[w], positions);
      var all := Concat(whole) + kept;
      assert forall t :: 0 <= t < |kept| ==> kept[t] in fronts[w];
      forall i, j | 0 <= i < j < |all|
        ensures all[i] != all[j]
      {
        var n := |Concat(whole)|;
        if i >= n {
          assert positions[i - n] != positions[j - n];
        } else if j >= n {
          assert all[i] == Concat(whole)[i];
          ConcatWitness(fronts, w, all[i]);
          assert all[j] in fronts[w];
        }
      }
    }
  }

  /** Of the cut front, every survivor is at least as crowded as every member left out. */
  lemma SurvivorsKeepMostCrowded(fronts: seq<seq<Individual>>, distances: seq<ExtReal>, size: nat, i: nat, j: nat)
    requires FittingFronts(fronts, size) < |fronts| && |distances| == |fronts[FittingFronts(fronts, size)]|
    requires forall k :: 0 <= k < |fronts| ==> Distinct(fronts[k])
    requires forall k, l, x :: 0 <= k < l < |fronts| && x in fronts[k] ==> x !in fronts[l]
    requires i < |distances| && j < |distances|
    requires fronts[FittingFronts(fronts, size)][i] in Survivors(fronts, distances, size)
    requires fronts[FittingFronts(fronts, size)][j] !in Survivors(fronts, distances, size)
    ensures !distances[i].Below(distances[j])
  {
    var w := FittingFronts(fronts, size);
    var front := fronts[w];
    var whole := fronts[..w];
    var remaining := size - |Concat(whole)|;
    var positions := Truncation(distances, remaining);
    var kept := Ranking.Members(front, positions);
    assert fronts[..|fronts|] == fronts;
    assert Survivors(fronts, distances, size) == Concat(whole) + kept;
    assert forall t :: 0 <= t < |positions| ==> front[positions[t]] in Survivors(fronts, distances, size);
    assert j !in positions;
    ConcatMembers(whole);
    assert forall k :: 0 <= k < w ==> whole[k] == fronts[k];
    assert front[i] in front;
    assert front[i] !in Concat(whole);
    var t :| 0 <= t < |kept| && kept[t] == front[i];
    assert positions[t] == i;
    TruncationKeepsMostCrowded(distances, remaining, i, j);
  }

  /**
   * The replacement loop of Run: computes each front's crowding distance in
   * rank order, appends whole fronts while they fit, and from the first that
   * does not fit appends the most crowded members that still fit, then stops.
   */
  method SelectSurvivors(combined: seq<Individual>, fronts: seq<seq<Individual>>, size: nat) returns (next: seq<Individual>)
    requires forall k, x :: 0 <= k < |fronts| && x in fronts[k] ==> x in combined
    requires forall k :: 0 <= k < |fronts| ==> Distinct(fronts[k])
    requires forall k, l, x :: 0 <= k < l < |fronts| && x in fronts[k] ==> x !in fronts[l]
    modifies (set x | x in combined)`crowdingDistance
    ensures var w := FittingFronts(fronts, size);
      next == Survivors(fronts, if w < |fronts| then DistancesOf(fronts[w]) else [], size)
    ensures forall k, j :: 0 <= k <= FittingFronts(fronts, size) && k < |fronts| && 0 <= j < |fronts[k]| ==>
      fronts[k][j].crowdingDistance == Crowding.CrowdingDistances(Ranking.ObjectivesOf(fronts[k]))[j]
  {
    ghost var objectives: seq<seq<Objectives>> := [];
    ghost var distances: seq<seq<ExtReal>> := [];
    next := [];
    var k := 0;
    while k < |fronts|
      invariant k <= |fronts| && next == Concat(fronts[..k]) && |next| <= size
      invariant Recorded(fronts, objectives, distances)
      invariant |objectives| == k
      invariant forall k', j :: 0 <= k' < k && 0 <= j < |fronts[k']| ==> fronts[k'][j].crowdingDistance == distances[k'][j]
    {
      objectives, distances := CrowdNext(fronts, k, objectives, distances);
      if |next| + |fronts[k]| <= size {
        ConcatStep(fronts, k);
        next := next + fronts[k];
        k := k + 1;
      } else {
        next := TakeMostCrowded(fronts, size, k, next, objectives, distances);
        return;
      }
    }
    FittingFrontsUnique(fronts, size, k);
    SurvivorsWhole(fronts, [], size);
    assert fronts[..k] == fronts;
    CrowdingRecorded(fronts, objectives, distances);
  }

  /** The last step of the replacement loop: front k does not fit, so its most crowded members fill the population. */
  method TakeMostCrowded(fronts: seq<seq<Individual>>, size: nat, k: nat, taken: seq<Individual>,
                         ghost objectives: seq<seq<Objectives>>, ghost distances: seq<seq<ExtReal>>)
      returns (next: seq<Individual>)
    requires k < |fronts| && taken == Concat(fronts[..k]) && |taken| <= size < |taken| + |fronts[k]|
    requires Recorded(fronts, objectives, distances) && |objectives| == k + 1
    requires forall k', j :: 0 <= k' <= k && 0 <= j < |fronts[k']| ==> fronts[k'][j].crowdingDistance == distances[k'][j]
    ensures var w := FittingFronts(fronts, size);
      next == Survivors(fronts, if w < |fronts| then DistancesOf(fronts[w]) else [], size)
    ensures forall k, j :: 0 <= k <= FittingFronts(fronts, size) && k < |fronts| && 0 <= j < |fronts[k]| ==>
      fronts[k][j].crowdingDistance == Crowding.CrowdingDistances(Ranking.ObjectivesOf(fronts[k]))[j]
  {
    FittingFrontsUnique(fronts, size, k);
    var kept := Truncate(fronts[k], distances[k], size - |taken|);
    next := taken + kept;
    assert next == Survivors(fronts, DistancesOf(fronts[k]), size) by {
      assert DistancesOf(fronts[k]) == distances[k];
      SurvivorsCut(fronts, distances[k], size, k);
    }
    CrowdingRecorded(fronts, objectives, distances);
  }

  /**
   * `objectives` and `distances` record, for each of the first fronts, the
   * objectives of its members and the crowding distances those give.
   */
  ghost predicate Recorded(fronts: seq<seq<Individual>>, objectives: seq<seq<Objectives>>, distances: seq<seq<ExtReal>>)
    reads set k, j | 0 <= k < |fronts| && 0 <= j < |fronts[k]| :: fronts[k][j]
  {
    |objectives| == |distances| <= |fronts|
    && (forall k' :: 0 <= k' < |objectives| ==> |objectives[k']| == |distances[k']| == |fronts[k']|)
    && (forall k', j :: 0 <= k' < |objectives| && 0 <= j < |fronts[k']| ==>
          objectives[k'][j] == Objectives(fronts[k'][j].cost, fronts[k'][j].discomfort))
    && (forall k', j {:trigger Crowding.CrowdingDistances(objectives[k'])[j]} :: 0 <= k' < |objectives| && 0 <= j < |fronts[k']| ==>
          distances[k'][j] == Crowding.CrowdingDistances(objectives[k'])[j])
  }

  /** One front's CalculateCrowdingDistance inside the replacement loop; earlier fronts keep their distances. */
  method CrowdNext(fronts: seq<seq<Individual>>, k: nat, ghost objectives: seq<seq<Objectives>>, ghost distances: seq<seq<ExtReal>>)
      returns (ghost objectives': seq<seq<Objectives>>, ghost distances': seq<seq<ExtReal>>)
    requires Recorded(fronts, objectives, distances) && |objectives| == k < |fronts|
    requires Distinct(fronts[k])
    requires forall k, l, x :: 0 <= k < l < |fronts| && x in fronts[k] ==> x !in fronts[l]
    requires forall k', j :: 0 <= k' < |objectives| && 0 <= j < |fronts[k']| ==> fronts[k'][j].crowdingDistance == distances[k'][j]
    modifies (set x | x in fronts[k])`crowdingDistance
    ensures Recorded(fronts, objectives', distances') && |objectives'| == k + 1
    ensures forall k', j :: 0 <= k' < |objectives'| && 0 <= j < |fronts[k']| ==> fronts[k'][j].crowdingDistance == distances'[k'][j]
  {
    Untouched(fronts, k);
    ghost var objs, dist := CrowdFront(fronts[k]);
    objectives', distances' := objectives + [objs], distances + [dist];
  }

  /** The members of the fronts before front k are not members of front k. */
  lemma Untouched(fronts: seq<seq<Individual>>, k: nat)
    requires k < |fronts|
    requires forall k, l, x :: 0 <= k < l < |fronts| && x in fronts[k] ==> x !in fronts[l]
    ensures forall k', j :: 0 <= k' < k && 0 <= j < |fronts[k']| ==> fronts[k'][j] !in fronts[k]
  {
    forall k', j | 0 <= k' < k && 0 <= j < |fronts[k']|
      ensures fronts[k'][j] !in fronts[k]
    {
      assert fronts[k'][j] in fronts[k'];
    }
  }

  /** The recorded objectives and distances of the first n fronts are the ones stored on their members. */
  lemma CrowdingRecorded(fronts: seq<seq<Individual>>, objectives: seq<seq<Objectives>>, distances: seq<seq<ExtReal>>)
    requires Recorded(fronts, objectives, distances)
    requires forall k', j :: 0 <= k' < |objectives| && 0 <= j < |fronts[k']| ==> fronts[k'][j].crowdingDistance == distances[k'][j]
    ensures forall k, j :: 0 <= k < |objectives| && 0 <= j < |fronts[k]| ==>
      fronts[k][j].crowdingDistance == Crowding.CrowdingDistances(Ranking.ObjectivesOf(fronts[k]))[j]
  {
    forall k | 0 <= k < |objectives|
      ensures Ranking.ObjectivesOf(fronts[k]) == objectives[k]
    {
      var o := Ranking.ObjectivesOf(fronts[k]);
      assert |o| == |objectives[k]|;
      assert forall j :: 0 <= j < |o| ==> o[j] == objectives[k][j];
    }
  }

  /** CalculateCrowdingDistance on one front, reporting the objectives it read and the distances it stored. */
  method CrowdFront(front: seq<Individual>) returns (ghost objectives: seq<Objectives>, ghost distances: seq<ExtReal>)
    requires Distinct(front)
    modifies (set x | x in front)`crowdingDistance
    ensures |objectives| == |distances| == |front|
    ensures forall j :: 0 <= j < |front| ==>
      objectives[j] == Objectives(front[j].cost, front[j].discomfort) && front[j].crowdingDistance == distances[j]
    ensures forall j {:trigger Crowding.CrowdingDistances(objectives)[j]} :: 0 <= j < |front| ==>
      distances[j] == Crowding.CrowdingDistances(objectives)[j]
  {
    Crowding.CalculateCrowdingDistance(front);
    objectives := Ranking.ObjectivesOf(front);
    distances := Crowding.CrowdingDistances(objectives);
  }

  /** `OrderByDescending(CrowdingDistance).Take(remaining)` on one front whose stored distances are `distances`. */
  method Truncate(front: seq<Individual>, ghost distances: seq<ExtReal>, remaining: nat) returns (kept: seq<Individual>)
    requires remaining <= |front| == |distances|
    requires forall j :: 0 <= j < |front| ==> front[j].crowdingDistance == distances[j]
    ensures kept == Ranking.Members(front, Truncation(distances, remaining))
  {
    var ordered := Order(DistancesOf(front), true);
    assert DistancesOf(front) == distances;
    kept := Ranking.Members(front, ordered[..remaining]);
  }
}
