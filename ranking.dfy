/**
 * Fast non-dominated sorting (NSGAIIEngine.NonDominatedSort). Phase one
 * counts, for every individual, how many others dominate it and lists
 * those it dominates; phase two peels off fronts, releasing each member's
 * dominated list and promoting those whose count reaches zero. The
 * dictionaries keyed by individual become arrays indexed by position in
 * the population; the returned fronts hold the individuals themselves.
 */
module Ranking {
  import opened Models
  import opened Dominance

  /** The objective vectors of a population, position by position. */
  function ObjectivesOf(population: seq<Individual>): (objs: seq<Objectives>)
    reads (set x | x in population)`cost, (set x | x in population)`discomfort
    ensures |objs| == |population|
    ensures forall i :: 0 <= i < |population| ==> objs[i] == population[i].ObjectiveValues()
  {
    if population == [] then []
    else ObjectivesOf(population[..|population| - 1]) + [population[|population| - 1].ObjectiveValues()]
  }

  /**
   * How many of the positions below k dominate member q without having been
   * released: the domination count of q once `released` have been processed.
   */
  ghost function Outstanding(objs: seq<Objectives>, q: nat, released: set<nat>, k: nat): nat
    requires q < |objs| && k <= |objs|
  {
    if k == 0 then 0
    else Outstanding(objs, q, released, k - 1) + (if Dominates(objs[k - 1], objs[q]) && k - 1 !in released then 1 else 0)
  }

  /** The list `dominatedSets[p]` once the inner loop has seen positions below j. */
  ghost function DominatedBelow(objs: seq<Objectives>, p: nat, j: nat): (r: seq<nat>)
    requires p < |objs| && j <= |objs|
    ensures Distinct(r)
    ensures forall t :: 0 <= t < |r| ==> r[t] < j
    ensures forall q: nat :: q in r <==> q < j && Dominates(objs[p], objs[q])
  {
    if j == 0 then []
    else
      var r := DominatedBelow(objs, p, j - 1);
      if Dominates(objs[p], objs[j - 1]) then r + [j - 1] else r
  }

  /** Releasing an unreleased p lowers the outstanding count of q by one exactly when p dominates q. */
  lemma {:induction false} OutstandingRelease(objs: seq<Objectives>, q: nat, released: set<nat>, p: nat, k: nat)
    requires q < |objs| && k <= |objs| && p !in released
    ensures Outstanding(objs, q, released + {p}, k)
         == Outstanding(objs, q, released, k) - (if p < k && Dominates(objs[p], objs[q]) then 1 else 0)
  {
    if k > 0 {
      OutstandingRelease(objs, q, released, p, k - 1);
    }
  }

  /** The outstanding count is zero exactly when every dominator below k has been released. */
  lemma {:induction false} OutstandingZero(objs: seq<Objectives>, q: nat, released: set<nat>, k: nat)
    requires q < |objs| && k <= |objs|
    ensures Outstanding(objs, q, released, k) == 0
        <==> forall d :: 0 <= d < k && Dominates(objs[d], objs[q]) ==> d in released
  {
    if k > 0 {
      OutstandingZero(objs, q, released, k - 1);
    }
  }

  /** No member of the population dominates member q. */
  ghost predicate Undominated(objs: seq<Objectives>, q: nat)
    requires q < |objs|
  {
    forall p :: 0 <= p < |objs| ==> !Dominates(objs[p], objs[q])
  }

  /** Some member one level up dominates q: the member whose release promoted it. */
  ghost predicate HasParent(objs: seq<Objectives>, level: seq<int>, q: nat)
    requires q < |objs| == |level|
  {
    exists p :: 0 <= p < |objs| && Dominates(objs[p], objs[q]) && level[p] == level[q] - 1
  }

  /**
   * What the levels (front index, or -1 for not yet placed) satisfy at every
   * stage of the peeling when levels up to `top` have been handed out: the
   * first level holds exactly the non-dominated, dominators sit on strictly
   * lower levels, and each later member has a dominator one level up.
   */
  ghost predicate Layering(objs: seq<Objectives>, level: seq<int>, top: int)
  {
    |level| == |objs|
    && (forall q :: 0 <= q < |objs| ==> -1 <= level[q] <= top)
    && (forall q {:trigger Undominated(objs, q)} :: 0 <= q < |objs| ==> (level[q] == 0 <==> Undominated(objs, q)))
    && (forall q, p {:trigger Dominates(objs[p], objs[q])} :: 0 <= q < |objs| && 0 <= p < |objs| && level[q] >= 0 && Dominates(objs[p], objs[q]) ==> 0 <= level[p] < level[q])
    && (forall q {:trigger HasParent(objs, level, q)} :: 0 <= q < |objs| && level[q] >= 1 ==> HasParent(objs, level, q))
  }

  /** The domination counts: each is the number of dominators not yet released, and is zero exactly for the placed. */
  ghost predicate Counted(objs: seq<Objectives>, count: seq<int>, level: seq<int>, released: set<nat>)
    requires |level| == |objs|
  {
    |count| == |objs|
    && (forall q :: 0 <= q < |objs| ==> count[q] == Outstanding(objs, q, released, |objs|))
    && (forall q :: 0 <= q < |objs| ==> (level[q] >= 0 <==> count[q] == 0))
  }

  /** The released members are the placed ones below level `current`, plus some of level `current`. */
  ghost predicate ReleasedUpTo(level: seq<int>, released: set<nat>, current: int) {
    (forall q :: q in released ==> q < |level| && 0 <= level[q] <= current)
    && (forall q :: 0 <= q < |level| && 0 <= level[q] < current ==> q in released)
  }

  /** The index fronts list each placed member once, in the front its level names. */
  ghost predicate Listed(level: seq<int>, fronts: seq<seq<nat>>) {
    (forall k, t :: 0 <= k < |fronts| && 0 <= t < |fronts[k]| ==> fronts[k][t] < |level| && level[fronts[k][t]] == k)
    && (forall k :: 0 <= k < |fronts| ==> Distinct(fronts[k]))
    && (forall q :: 0 <= q < |level| && level[q] >= 0 ==> level[q] < |fronts| && q in fronts[level[q]])
  }

  /** Each placed member's rank field is its level plus one. */
  ghost predicate RanksMatch(population: seq<Individual>, level: seq<int>)
    reads (set x | x in population)`rank
  {
    |level| == |population|
    && forall q {:trigger population[q].rank} :: 0 <= q < |population| && level[q] >= 0 ==> population[q].rank == level[q] + 1
  }

  /** Levels once handed out never change. */
  ghost predicate Extends(level: seq<int>, level0: seq<int>) {
    |level| == |level0| && forall q :: 0 <= q < |level0| && level0[q] >= 0 ==> level[q] == level0[q]
  }

  /**
   * The inner loop of phase one for member p: counts the members that
   * dominate p and lists, in population order, the members p dominates.
   */
  method CountDominators(population: seq<Individual>, ghost objs: seq<Objectives>, p: nat)
      returns (count: int, dominated: seq<nat>)
    requires Distinct(population) && |objs| == |population| && p < |population|
    requires forall i :: 0 <= i < |population| ==> population[i].ObjectiveValues() == objs[i]
    ensures count == Outstanding(objs, p, {}, |objs|) && dominated == DominatedBelow(objs, p, |objs|)
  {
    count := 0;
    dominated := [];
    for q := 0 to |population|
      invariant dominated == DominatedBelow(objs, p, q)
      invariant count == Outstanding(objs, p, {}, q)
    {
      if population[p] != population[q] {
        if Dominates(population[p].ObjectiveValues(), population[q].ObjectiveValues()) {
          dominated := dominated + [q];
          DominanceAsymmetric(objs[p], objs[q]);
        } else if Dominates(population[q].ObjectiveValues(), population[p].ObjectiveValues()) {
          count := count + 1;
        }
      } else {
        DominanceIrreflexive(objs[p]);
      }
    }
  }

  /**
   * Phase one: the domination count and dominated list of every member;
   * members nobody dominates get rank 1 and form the first front.
   */
  method CountDominance(population: seq<Individual>, ghost objs: seq<Objectives>)
      returns (count: seq<int>, dominated: seq<seq<nat>>, first: seq<nat>, ghost level: seq<int>)
    requires Distinct(population) && |objs| == |population|
    requires forall i :: 0 <= i < |population| ==> population[i].ObjectiveValues() == objs[i]
    modifies (set x | x in population)`rank
    ensures |dominated| == |population|
    ensures forall p :: 0 <= p < |population| ==> dominated[p] == DominatedBelow(objs, p, |population|)
    ensures Peeled(objs, count, level, {}, [first], 0) && RanksMatch(population, level)
  {
    var n := |population|;
    count := [];
    dominated := [];
    first := [];
    level := seq(n, _ => -1);
    for p := 0 to n
      invariant |count| == |dominated| == p && |level| == n
      invariant forall q :: 0 <= q < p ==> count[q] == Outstanding(objs, q, {}, n) && dominated[q] == DominatedBelow(objs, q, n)
      invariant forall q :: 0 <= q < n ==> level[q] == (if q < p && count[q] == 0 then 0 else -1)
      invariant Listed(level, [first]) && RanksMatch(population, level)
    {
      var c, d := CountDominators(population, objs, p);
      count := count + [c];
      dominated := dominated + [d];
      if c == 0 {
        ListAppend(level, [first], p, 0);
        assert [first][0 := first + [p]] == [first + [p]];
        AssignRank(population, level, population[p], p, 0);
        first := first + [p];
        level := level[p := 0];
      }
    }
    FirstLayer(objs, count, level);
  }

  /** After phase one the members with count zero, the non-dominated, form level 0 and everyone else is unplaced. */
  lemma FirstLayer(objs: seq<Objectives>, count: seq<int>, level: seq<int>)
    requires |count| == |level| == |objs|
    requires forall q :: 0 <= q < |objs| ==> count[q] == Outstanding(objs, q, {}, |objs|)
    requires forall q :: 0 <= q < |objs| ==> level[q] == (if count[q] == 0 then 0 else -1)
    ensures Layering(objs, level, 0)
    ensures Counted(objs, count, level, {})
  {
    forall q {:trigger level[q]} | 0 <= q < |objs|
      ensures level[q] == 0 <==> Undominated(objs, q)
    {
      OutstandingZero(objs, q, {}, |objs|);
    }
    assert forall q, p {:trigger Dominates(objs[p], objs[q])} ::
      0 <= q < |objs| && 0 <= p < |objs| && level[q] >= 0 ==> !Dominates(objs[p], objs[q]);
  }

  /** Placing q one level above its last released dominator p keeps the layering. */
  lemma Promote(objs: seq<Objectives>, level: seq<int>, released: set<nat>, p: nat, q: nat, current: nat)
    requires Layering(objs, level, current + 1) && ReleasedUpTo(level, released, current)
    requires p < |objs| && q < |objs| && level[p] == current && level[q] == -1 && Dominates(objs[p], objs[q])
    requires forall d :: 0 <= d < |objs| && Dominates(objs[d], objs[q]) ==> d in released || d == p
    ensures Layering(objs, level[q := current + 1], current + 1)
    ensures ReleasedUpTo(level[q := current + 1], released, current)
  {
    var promoted := level[q := current + 1];
    forall r {:trigger Undominated(objs, r)} | 0 <= r < |objs|
      ensures promoted[r] == 0 <==> Undominated(objs, r)
    {
      if r == q {
        assert !Undominated(objs, q) by {
          assert Dominates(objs[p], objs[q]);
        }
      }
    }
    forall r, d {:trigger Dominates(objs[d], objs[r])} | 0 <= r < |objs| && 0 <= d < |objs| && promoted[r] >= 0 && Dominates(objs[d], objs[r])
      ensures 0 <= promoted[d] < promoted[r]
    {
      if r != q {
        assert level[d] >= 0;
      } else {
        assert d in released || d == p;
      }
    }
    forall r {:trigger HasParent(objs, promoted, r)} | 0 <= r < |objs| && promoted[r] >= 1
      ensures HasParent(objs, promoted, r)
    {
      if r == q {
        assert Dominates(objs[p], objs[q]) && promoted[p] == promoted[q] - 1;
      } else {
        assert HasParent(objs, level, r);
        var parent :| 0 <= parent < |objs| && Dominates(objs[parent], objs[r]) && level[parent] == level[r] - 1;
        assert promoted[parent] == promoted[r] - 1;
      }
    }
  }

  /** Appending a newly placed q to front k keeps the listing. */
  lemma ListAppend(level: seq<int>, layers: seq<seq<nat>>, q: nat, k: nat)
    requires Listed(level, layers) && k < |layers|
    requires q < |level| && level[q] == -1
    ensures Listed(level[q := k], layers[k := layers[k] + [q]])
  {
    var placed := level[q := k];
    var grown := layers[k := layers[k] + [q]];
    forall i, t | 0 <= i < |grown| && 0 <= t < |grown[i]|
      ensures grown[i][t] < |placed| && placed[grown[i][t]] == i
    {
      if i != k || t < |layers[k]| {
        assert grown[i][t] == layers[i][t];
      }
    }
    forall r | 0 <= r < |placed| && placed[r] >= 0
      ensures placed[r] < |grown| && r in grown[placed[r]]
    {
      if r != q {
        assert r in layers[level[r]];
      } else {
        assert grown[k][|layers[k]|] == q;
      }
    }
  }

  /** The counts while p's dominated list is being released: those already visited no longer count p. */
  ghost predicate PartlyReleased(objs: seq<Objectives>, count: seq<int>, released: set<nat>, p: nat, visited: seq<nat>) {
    |count| == |objs|
    && forall q :: 0 <= q < |objs| ==>
      count[q] == Outstanding(objs, q, if q in visited then released + {p} else released, |objs|)
  }

  /**
   * The state between two rounds of phase two, when the fronts before
   * `current` have been released and `fronts` (ending with front `current`)
   * lists everyone placed so far.
   */
  ghost predicate Peeled(objs: seq<Objectives>, count: seq<int>, level: seq<int>, released: set<nat>,
                         fronts: seq<seq<nat>>, current: nat)
  {
    |level| == |objs| && |fronts| == current + 1
    && Layering(objs, level, current)
    && Counted(objs, count, level, released)
    && (forall q :: q in released <==> 0 <= q < |objs| && 0 <= level[q] < current)
    && Listed(level, fronts)
  }

  /** The state while the members of front `current` are released one by one, promoting into `next`. */
  ghost predicate Peeling(objs: seq<Objectives>, count: seq<int>, level: seq<int>, released: set<nat>,
                          fronts: seq<seq<nat>>, next: seq<nat>, current: nat)
  {
    |level| == |objs| && |fronts| == current + 1
    && Layering(objs, level, current + 1)
    && Counted(objs, count, level, released)
    && ReleasedUpTo(level, released, current)
    && Listed(level, fronts + [next])
  }

  /** The state while the dominated list of p, a member of front `current`, is being walked. */
  ghost predicate Releasing(objs: seq<Objectives>, count: seq<int>, level: seq<int>, released: set<nat>, p: nat,
                            visited: seq<nat>, fronts: seq<seq<nat>>, next: seq<nat>, current: nat)
  {
    |level| == |objs| && |fronts| == current + 1
    && p < |objs| && level[p] == current && p !in released
    && Layering(objs, level, current + 1)
    && PartlyReleased(objs, count, released, p, visited)
    && (forall q :: 0 <= q < |objs| ==> (level[q] >= 0 <==> count[q] == 0))
    && ReleasedUpTo(level, released, current)
    && Listed(level, fronts + [next])
  }

  /** Opening the next front: nothing promoted yet. */
  lemma BeginFront(objs: seq<Objectives>, count: seq<int>, level: seq<int>, released: set<nat>, fronts: seq<seq<nat>>, current: nat)
    requires Peeled(objs, count, level, released, fronts, current)
    ensures Peeling(objs, count, level, released, fronts, [], current)
  {
    StartLayer(level, fronts, current);
  }

  /** The t-th member of front `current` is on that level and has not been released yet. */
  lemma NextToRelease(objs: seq<Objectives>, count: seq<int>, level: seq<int>, released: set<nat>, fronts: seq<seq<nat>>,
                      next: seq<nat>, current: nat, level0: seq<int>, released0: set<nat>, t: nat)
    requires Peeling(objs, count, level, released, fronts, next, current)
    requires |level0| == |objs| && (forall q :: q in released0 <==> 0 <= q < |objs| && 0 <= level0[q] < current)
    requires Extends(level, level0)
    requires t < |fronts[current]|
    requires forall q :: q in released <==> q in released0 || q in fronts[current][..t]
    ensures fronts[current][t] < |objs| && level[fronts[current][t]] == current && fronts[current][t] !in released
  {
    var front := fronts[current];
    var p := front[t];
    assert (fronts + [next])[current] == front;
    assert p < |level| && level[p] == current;
    assert level0[p] >= 0 ==> level0[p] == current;
    assert Distinct(front);
    assert forall i :: 0 <= i < t ==> front[i] != p;
  }

  /** Membership in a prefix grows by one element. */
  lemma PrefixGrows(s: seq<nat>, t: nat)
    requires t < |s|
    ensures forall x :: x in s[..t + 1] <==> x in s[..t] || x == s[t]
  {
    assert s[..t + 1] == s[..t] + [s[t]];
  }

  /** Once the whole front is released the next round can begin at `current + 1`. */
  lemma EndFront(objs: seq<Objectives>, count: seq<int>, level: seq<int>, released: set<nat>, fronts: seq<seq<nat>>,
                 next: seq<nat>, current: nat, level0: seq<int>, released0: set<nat>)
    requires Peeling(objs, count, level, released, fronts, next, current)
    requires |level0| == |objs| && (forall q :: q in released0 <==> 0 <= q < |objs| && 0 <= level0[q] < current)
    requires Extends(level, level0)
    requires forall q :: q in released <==> q in released0 || q in fronts[current][..|fronts[current]|]
    ensures Peeled(objs, count, level, released, fronts + [next], current + 1)
  {
    var front := fronts[current];
    assert front[..|front|] == front;
    assert (fronts + [next])[current] == front;
    forall q | 0 <= q < |objs| && 0 <= level[q] == current
      ensures q in released
    {
      assert q in (fronts + [next])[level[q]];
    }
    forall q | q in released
      ensures 0 <= q < |objs| && 0 <= level[q] < current + 1
    {
      if q in released0 {
        assert level0[q] >= 0;
      } else {
        var i :| 0 <= i < |front| && front[i] == q;
      }
    }
  }

  /** Starting on the dominated list of p. */
  lemma BeginRelease(objs: seq<Objectives>, count: seq<int>, level: seq<int>, released: set<nat>, p: nat,
                     dominatedByP: seq<nat>, fronts: seq<seq<nat>>, next: seq<nat>, current: nat)
    requires Peeling(objs, count, level, released, fronts, next, current)
    requires p < |objs| && level[p] == current && p !in released
    ensures Releasing(objs, count, level, released, p, dominatedByP[..0], fronts, next, current)
  {
  }

  /**
   * A step of the walk that brings the count of the next dominated q down to
   * zero: p was its last unreleased dominator, so q is promoted to front
   * `current + 1`.
   */
  lemma PromoteStep(objs: seq<Objectives>, count: seq<int>, level: seq<int>, released: set<nat>, p: nat,
                    dominatedByP: seq<nat>, j: nat, fronts: seq<seq<nat>>, next: seq<nat>, current: nat)
    requires p < |objs| && dominatedByP == DominatedBelow(objs, p, |objs|) && j < |dominatedByP|
    requires Releasing(objs, count, level, released, p, dominatedByP[..j], fronts, next, current)
    requires count[dominatedByP[j]] == 1
    ensures level[dominatedByP[j]] == -1
    ensures Releasing(objs, count[dominatedByP[j] := 0], level[dominatedByP[j] := current + 1], released, p,
                      dominatedByP[..j + 1], fronts, next + [dominatedByP[j]], current)
  {
    var q := dominatedByP[j];
    CountStep(objs, count, released, p, dominatedByP, j);
    var lowered := count[q := 0];
    assert lowered == count[q := count[q] - 1];
    assert level[q] == -1;
    assert q in dominatedByP[..j + 1];
    assert Outstanding(objs, q, released + {p}, |objs|) == 0;
    OutstandingZero(objs, q, released + {p}, |objs|);
    Promote(objs, level, released, p, q, current);
    ListAppend(level, fronts + [next], q, current + 1);
    assert (fronts + [next])[current + 1 := next + [q]] == fronts + [next + [q]];
    var promoted := level[q := current + 1];
    forall r | 0 <= r < |objs|
      ensures promoted[r] >= 0 <==> lowered[r] == 0
    {
    }
  }

  /** A step of the walk that leaves the count of the next dominated q positive: q stays unplaced. */
  lemma KeepStep(objs: seq<Objectives>, count: seq<int>, level: seq<int>, released: set<nat>, p: nat,
                 dominatedByP: seq<nat>, j: nat, fronts: seq<seq<nat>>, next: seq<nat>, current: nat)
    requires p < |objs| && dominatedByP == DominatedBelow(objs, p, |objs|) && j < |dominatedByP|
    requires Releasing(objs, count, level, released, p, dominatedByP[..j], fronts, next, current)
    requires count[dominatedByP[j]] != 1
    ensures Releasing(objs, count[dominatedByP[j] := count[dominatedByP[j]] - 1], level, released, p,
                      dominatedByP[..j + 1], fronts, next, current)
  {
    CountStep(objs, count, released, p, dominatedByP, j);
  }

  /** After the whole dominated list of p, p counts as released for everyone. */
  lemma EndRelease(objs: seq<Objectives>, count: seq<int>, level: seq<int>, released: set<nat>, p: nat,
                   dominatedByP: seq<nat>, fronts: seq<seq<nat>>, next: seq<nat>, current: nat)
    requires p < |objs| && dominatedByP == DominatedBelow(objs, p, |objs|)
    requires Releasing(objs, count, level, released, p, dominatedByP[..|dominatedByP|], fronts, next, current)
    ensures Peeling(objs, count, level, released + {p}, fronts, next, current)
  {
    assert dominatedByP[..|dominatedByP|] == dominatedByP;
    ReleasedAll(objs, count, released, p, dominatedByP);
  }

  /** Decrementing the count of the next member of p's dominated list releases p for it. */
  lemma CountStep(objs: seq<Objectives>, count: seq<int>, released: set<nat>, p: nat, dominatedByP: seq<nat>, j: nat)
    requires p < |objs| && p !in released && dominatedByP == DominatedBelow(objs, p, |objs|) && j < |dominatedByP|
    requires PartlyReleased(objs, count, released, p, dominatedByP[..j])
    ensures count[dominatedByP[j]] >= 1
    ensures PartlyReleased(objs, count[dominatedByP[j] := count[dominatedByP[j]] - 1], released, p, dominatedByP[..j + 1])
  {
    var q := dominatedByP[j];
    assert dominatedByP[..j + 1] == dominatedByP[..j] + [q];
    assert q !in dominatedByP[..j];
    OutstandingRelease(objs, q, released, p, |objs|);
  }

  /** After releasing all of p's dominated list, the counts of everyone else are unaffected by p. */
  lemma ReleasedAll(objs: seq<Objectives>, count: seq<int>, released: set<nat>, p: nat, dominatedByP: seq<nat>)
    requires p < |objs| == |count| && dominatedByP == DominatedBelow(objs, p, |objs|)
    requires PartlyReleased(objs, count, released, p, dominatedByP)
    requires p !in released
    ensures forall q :: 0 <= q < |objs| ==> count[q] == Outstanding(objs, q, released + {p}, |objs|)
  {
    forall q | 0 <= q < |objs| && q !in dominatedByP
      ensures Outstanding(objs, q, released + {p}, |objs|) == Outstanding(objs, q, released, |objs|)
    {
      OutstandingRelease(objs, q, released, p, |objs|);
    }
  }

  /**
   * The innermost loop of phase two: releases member p (of front `current`),
   * decrementing the count of everyone it dominates and promoting to front
   * `current + 1` those whose count reaches zero.
   */
  method ReleaseDominated(population: seq<Individual>, ghost objs: seq<Objectives>, count0: seq<int>, dominated: seq<seq<nat>>,
                          p: nat, current: nat, ghost fronts: seq<seq<nat>>, next0: seq<nat>,
                          ghost level0: seq<int>, ghost released: set<nat>)
      returns (count: seq<int>, next: seq<nat>, ghost level: seq<int>)
    requires Distinct(population) && |dominated| == |population| == |objs|
    requires p < |population| && dominated[p] == DominatedBelow(objs, p, |population|)
    requires Peeling(objs, count0, level0, released, fronts, next0, current)
    requires level0[p] == current && p !in released
    requires RanksMatch(population, level0)
    modifies (set x | x in population)`rank
    ensures Peeling(objs, count, level, released + {p}, fronts, next, current)
    ensures Extends(level, level0) && RanksMatch(population, level)
  {
    var dominatedByP := dominated[p];
    count := count0;
    next := next0;
    level := level0;
    BeginRelease(objs, count, level, released, p, dominatedByP, fronts, next, current);
    for j := 0 to |dominatedByP|
      invariant Releasing(objs, count, level, released, p, dominatedByP[..j], fronts, next, current)
      invariant Extends(level, level0) && RanksMatch(population, level)
    {
      var q := dominatedByP[j];
      if count[q] == 1 {
        PromoteStep(objs, count, level, released, p, dominatedByP, j, fronts, next, current);
      } else {
        KeepStep(objs, count, level, released, p, dominatedByP, j, fronts, next, current);
      }
      count := count[q := count[q] - 1];
      if count[q] == 0 {
        AssignRank(population, level, population[q], q, current + 1);
        next := next + [q];
        level := level[q := current + 1];
      }
    }
    EndRelease(objs, count, level, released, p, dominatedByP, fronts, next, current);
  }

  /** Records the rank of a member just placed on level k (ranks count from 1). */
  method AssignRank(population: seq<Individual>, ghost level: seq<int>, x: Individual, ghost q: nat, k: nat)
    requires Distinct(population) && q < |population| && population[q] == x
    requires RanksMatch(population, level)
    modifies x`rank
    ensures x.rank == k + 1
    ensures RanksMatch(population, level[q := k])
  {
    x.rank := k + 1;
  }

  /**
   * One round of phase two: releases every member of front `current` in
   * order and returns the members promoted to the next front.
   */
  method ReleaseFront(population: seq<Individual>, ghost objs: seq<Objectives>, count0: seq<int>, dominated: seq<seq<nat>>,
                      current: nat, fronts: seq<seq<nat>>, ghost level0: seq<int>, ghost released0: set<nat>)
      returns (count: seq<int>, next: seq<nat>, ghost level: seq<int>, ghost released: set<nat>)
    requires Distinct(population) && |dominated| == |population| == |objs|
    requires forall r :: 0 <= r < |population| ==> dominated[r] == DominatedBelow(objs, r, |population|)
    requires Peeled(objs, count0, level0, released0, fronts, current)
    requires RanksMatch(population, level0)
    modifies (set x | x in population)`rank
    ensures Peeled(objs, count, level, released, fronts + [next], current + 1)
    ensures Extends(level, level0) && RanksMatch(population, level)
  {
    var front := fronts[current];
    count := count0;
    next := [];
    level := level0;
    released := released0;
    BeginFront(objs, count, level, released, fronts, current);
    for t := 0 to |front|
      invariant Peeling(objs, count, level, released, fronts, next, current)
      invariant forall q :: q in released <==> q in released0 || q in front[..t]
      invariant Extends(level, level0) && RanksMatch(population, level)
    {
      NextToRelease(objs, count, level, released, fronts, next, current, level0, released0, t);
      var p := front[t];
      count, next, level := ReleaseDominated(population, objs, count, dominated, p, current, fronts, next, level, released);
      released := released + {p};
      PrefixGrows(front, t);
    }
    EndFront(objs, count, level, released, fronts, next, current, level0, released0);
  }

  /** Opening an empty next front keeps the listing. */
  lemma StartLayer(level: seq<int>, fronts: seq<seq<nat>>, current: nat)
    requires Listed(level, fronts) && |fronts| == current + 1
    ensures Listed(level, fronts + [[]])
  {
    forall q | 0 <= q < |level| && level[q] >= 0
      ensures q in (fronts + [[]])[level[q]]
    {
      assert (fronts + [[]])[level[q]] == fronts[level[q]];
    }
  }

  /** Dropping an empty last front keeps the listing. */
  lemma DropEmptyLayer(level: seq<int>, fronts: seq<seq<nat>>)
    requires Listed(level, fronts + [[]])
    ensures Listed(level, fronts)
  {
    forall k | 0 <= k < |fronts|
      ensures fronts[k] == (fronts + [[]])[k]
    {
    }
    forall q | 0 <= q < |level| && level[q] >= 0
      ensures level[q] < |fronts| && q in fronts[level[q]]
    {
      assert (fronts + [[]])[level[q]] != [];
    }
  }

  /** The individuals at the listed positions, in list order. */
  function Members(population: seq<Individual>, front: seq<nat>): (members: seq<Individual>)
    requires forall t :: 0 <= t < |front| ==> front[t] < |population|
    ensures |members| == |front| && forall t :: 0 <= t < |front| ==> members[t] == population[front[t]]
  {
    seq(|front|, t requires 0 <= t < |front| => population[front[t]])
  }

  /** Some member of `front` dominates x. */
  ghost predicate DominatedByMemberOf(front: seq<Individual>, x: Individual)
    reads x, set y | y in front
  {
    exists y :: y in front && Dominates(y.ObjectiveValues(), x.ObjectiveValues())
  }

  /**
   * Splits the population into Pareto fronts and stores each member's rank
   * (front number, from 1). Every member lands in exactly one front, front k
   * holds the members of rank k + 1, a member dominated by another has a
   * larger rank, the first front is exactly the non-dominated members, and
   * each later member is dominated by someone in the front before. An empty
   * population yields one empty front. The order inside a front (population
   * order for the first, order of promotion for the later ones) is what the
   * body builds but is not part of this contract.
   */
  method NonDominatedSort(population: seq<Individual>) returns (fronts: seq<seq<Individual>>)
    requires Distinct(population)
    modifies (set x | x in population)`rank
    ensures |fronts| >= 1
    ensures |population| == 0 ==> fronts == [[]]
    ensures |population| > 0 ==> forall k :: 0 <= k < |fronts| ==> |fronts[k]| > 0
    ensures forall k :: 0 <= k < |fronts| ==> Distinct(fronts[k])
    ensures forall k, x {:trigger x in fronts[k]} :: 0 <= k < |fronts| && x in fronts[k] ==> x in population && x.rank == k + 1
    ensures forall x :: x in population ==> exists k :: 0 <= k < |fronts| && x in fronts[k]
    ensures forall x, y :: x in population && y in population && Dominates(x.ObjectiveValues(), y.ObjectiveValues()) ==>
      x.rank < y.rank
    ensures forall x :: x in population ==>
      (x.rank == 1 <==> forall y :: y in population ==> !Dominates(y.ObjectiveValues(), x.ObjectiveValues()))
    ensures forall k, x {:trigger x in fronts[k]} :: 1 <= k < |fronts| && x in fronts[k] ==> DominatedByMemberOf(fronts[k - 1], x)
  {
    ghost var objs := ObjectivesOf(population);
    var count, dominated, first, level := CountDominance(population, objs);
    var indexFronts;
    indexFronts, level := PeelFronts(population, objs, count, dominated, first, level);
    fronts := BuildFronts(population, objs, level, indexFronts);
  }

  /** The fronts as lists of individuals: front k holds the members at the positions index front k lists. */
  method BuildFronts(population: seq<Individual>, ghost objs: seq<Objectives>, ghost level: seq<int>, indexFronts: seq<seq<nat>>)
      returns (fronts: seq<seq<Individual>>)
    requires Distinct(population) && |objs| == |population|
    requires forall i :: 0 <= i < |population| ==> population[i].ObjectiveValues() == objs[i]
    requires |indexFronts| >= 1
    requires |population| == 0 ==> indexFronts == [[]]
    requires |population| > 0 ==> forall k :: 0 <= k < |indexFronts| ==> |indexFronts[k]| > 0
    requires Layering(objs, level, |indexFronts|) && Listed(level, indexFronts) && RanksMatch(population, level)
    requires forall q :: 0 <= q < |objs| ==> 0 <= level[q] < |indexFronts|
    ensures |fronts| >= 1
    ensures |population| == 0 ==> fronts == [[]]
    ensures |population| > 0 ==> forall k :: 0 <= k < |fronts| ==> |fronts[k]| > 0
    ensures forall k :: 0 <= k < |fronts| ==> Distinct(fronts[k])
    ensures forall k, x {:trigger x in fronts[k]} :: 0 <= k < |fronts| && x in fronts[k] ==> x in population && x.rank == k + 1
    ensures forall x :: x in population ==> exists k :: 0 <= k < |fronts| && x in fronts[k]
    ensures forall x, y :: x in population && y in population && Dominates(x.ObjectiveValues(), y.ObjectiveValues()) ==>
      x.rank < y.rank
    ensures forall x :: x in population ==>
      (x.rank == 1 <==> forall y :: y in population ==> !Dominates(y.ObjectiveValues(), x.ObjectiveValues()))
    ensures forall k, x {:trigger x in fronts[k]} :: 1 <= k < |fronts| && x in fronts[k] ==> DominatedByMemberOf(fronts[k - 1], x)
  {
    fronts := seq(|indexFronts|, k requires 0 <= k < |indexFronts| => Members(population, indexFronts[k]));
    FrontShapes(population, indexFronts, fronts);
    FrontsPartition(population, objs, level, indexFronts, fronts);
    RanksFollowDominance(population, objs, level, |indexFronts|);
    FirstRankUndominated(population, objs, level, |indexFronts|);
    FrontsHaveParents(population, objs, level, indexFronts, fronts);
  }

  /**
   * Phase two: starting from the first front, releases front after front
   * until one comes out empty. Every member ends up on a level below the
   * number of fronts, and the fronts list exactly the members of each level.
   */
  method PeelFronts(population: seq<Individual>, ghost objs: seq<Objectives>, count0: seq<int>, dominated: seq<seq<nat>>,
                    first: seq<nat>, ghost level0: seq<int>)
      returns (indexFronts: seq<seq<nat>>, ghost level: seq<int>)
    requires Distinct(population) && |dominated| == |population| == |objs|
    requires forall r :: 0 <= r < |population| ==> dominated[r] == DominatedBelow(objs, r, |population|)
    requires Peeled(objs, count0, level0, {}, [first], 0) && RanksMatch(population, level0)
    modifies (set x | x in population)`rank
    ensures |indexFronts| >= 1
    ensures |population| == 0 ==> indexFronts == [[]]
    ensures |population| > 0 ==> forall k :: 0 <= k < |indexFronts| ==> |indexFronts[k]| > 0
    ensures Layering(objs, level, |indexFronts|) && Listed(level, indexFronts) && RanksMatch(population, level)
    ensures forall q :: 0 <= q < |objs| ==> 0 <= level[q] < |indexFronts|
  {
    ghost var n := |population|;
    var count := count0;
    level := level0;
    indexFronts := [first];
    var current := 0;
    ghost var released: set<nat> := {};
    ghost var peeled := indexFronts;
    while current < |indexFronts| && |indexFronts[current]| > 0
      invariant 1 <= |indexFronts| && current <= |indexFronts| <= current + 1 && indexFronts[0] == first
      invariant current > 0 ==> |first| > 0
      invariant forall k :: 1 <= k < |indexFronts| ==> |indexFronts[k]| > 0
      invariant |indexFronts| == current + 1 ==> peeled == indexFronts
      invariant |indexFronts| == current ==> peeled == indexFronts + [[]]
      invariant Peeled(objs, count, level, released, peeled, current)
      invariant RanksMatch(population, level)
      decreases set q | 0 <= q < n && level[q] == -1, |indexFronts| - current
    {
      ghost var before := level;
      var next;
      count, next, level, released := ReleaseFront(population, objs, count, dominated, current, indexFronts, level, released);
      peeled := indexFronts + [next];
      if |next| > 0 {
        NewlyPlaced(objs, before, level, indexFronts, next, current);
        indexFronts := indexFronts + [next];
      } else {
        NothingPlaced(objs, before, level, indexFronts, current);
      }
      current := current + 1;
    }
    Concluded(objs, count, level, released, first, indexFronts, peeled, current);
  }

  /**
   * Where the peeling stops: at the empty front after the last one, or at
   * an empty first front, which happens only for an empty population.
   */
  lemma Concluded(objs: seq<Objectives>, count: seq<int>, level: seq<int>, released: set<nat>, first: seq<nat>,
                  indexFronts: seq<seq<nat>>, peeled: seq<seq<nat>>, current: nat)
    requires 1 <= |indexFronts| && current <= |indexFronts| <= current + 1 && indexFronts[0] == first
    requires current > 0 ==> |first| > 0
    requires forall k :: 1 <= k < |indexFronts| ==> |indexFronts[k]| > 0
    requires |indexFronts| == current + 1 ==> peeled == indexFronts
    requires |indexFronts| == current ==> peeled == indexFronts + [[]]
    requires Peeled(objs, count, level, released, peeled, current)
    requires !(current < |indexFronts| && |indexFronts[current]| > 0)
    ensures |objs| == 0 ==> indexFronts == [[]]
    ensures |objs| > 0 ==> forall k :: 0 <= k < |indexFronts| ==> |indexFronts[k]| > 0
    ensures Layering(objs, level, |indexFronts|) && Listed(level, indexFronts)
    ensures forall q :: 0 <= q < |objs| ==> 0 <= level[q] < |indexFronts|
  {
    Finished(objs, count, level, released, peeled, current);
    if |indexFronts| == current {
      DropEmptyLayer(level, indexFronts);
      assert indexFronts[0][0] < |objs|;
    } else {
      assert current == 0 && |objs| == 0;
      assert indexFronts == [first] && first == [];
    }
  }

  /** The fronts list, built from the index fronts, keeps their shape. */
  lemma FrontShapes(population: seq<Individual>, indexFronts: seq<seq<nat>>, fronts: seq<seq<Individual>>)
    requires |indexFronts| >= 1
    requires |population| == 0 ==> indexFronts == [[]]
    requires |population| > 0 ==> forall k :: 0 <= k < |indexFronts| ==> |indexFronts[k]| > 0
    requires forall k, t :: 0 <= k < |indexFronts| && 0 <= t < |indexFronts[k]| ==> indexFronts[k][t] < |population|
    requires |fronts| == |indexFronts|
    requires forall k :: 0 <= k < |fronts| ==> fronts[k] == Members(population, indexFronts[k])
    ensures |population| == 0 ==> fronts == [[]]
    ensures |population| > 0 ==> forall k :: 0 <= k < |fronts| ==> |fronts[k]| > 0
  {
    if |population| == 0 {
      assert fronts[0] == Members(population, []) == [];
    }
  }

  /** A round that promotes someone strictly shrinks the set of unplaced members. */
  lemma NewlyPlaced(objs: seq<Objectives>, level0: seq<int>, level: seq<int>, fronts: seq<seq<nat>>, next: seq<nat>, current: nat)
    requires |level0| == |objs| && Layering(objs, level0, current) && Extends(level, level0)
    requires Listed(level, fronts + [next]) && |fronts| == current + 1 && |next| > 0
    ensures (set q | 0 <= q < |objs| && level[q] == -1) < (set q | 0 <= q < |objs| && level0[q] == -1)
  {
    var unplaced0 := set q | 0 <= q < |objs| && level0[q] == -1;
    var unplaced := set q | 0 <= q < |objs| && level[q] == -1;
    assert (fronts + [next])[current + 1] == next;
    var placed := next[0];
    assert placed < |level| && level[placed] == current + 1;
    assert level0[placed] == -1;
    assert placed in unplaced0 && placed !in unplaced;
    assert unplaced <= unplaced0;
  }

  /** A round that promotes nobody leaves the set of unplaced members as it was. */
  lemma NothingPlaced(objs: seq<Objectives>, level0: seq<int>, level: seq<int>, fronts: seq<seq<nat>>, current: nat)
    requires |level0| == |objs| && Layering(objs, level0, current) && Extends(level, level0)
    requires Layering(objs, level, current + 1) && Listed(level, fronts + [[]]) && |fronts| == current + 1
    ensures (set q | 0 <= q < |objs| && level[q] == -1) <= (set q | 0 <= q < |objs| && level0[q] == -1)
  {
  }

  /**
   * When the peeling stops at an empty front everyone has been placed, on
   * a level below it.
   */
  lemma Finished(objs: seq<Objectives>, count: seq<int>, level: seq<int>, released: set<nat>, fronts: seq<seq<nat>>, current: nat)
    requires Peeled(objs, count, level, released, fronts, current) && fronts[current] == []
    ensures forall q :: 0 <= q < |objs| ==> 0 <= level[q] < current
    ensures |objs| > 0 ==> current > 0
  {
    forall q | 0 <= q < |objs| && level[q] >= 0
      ensures q in released
    {
      assert q in fronts[level[q]];
    }
    AllPlaced(objs, count, level, released);
    if |objs| > 0 {
      assert 0 <= level[0] < current;
    }
  }

  /**
   * Once everyone is placed, the fronts of individuals partition the
   * population: each member sits in the front its rank names, once.
   */
  lemma FrontsPartition(population: seq<Individual>, objs: seq<Objectives>, level: seq<int>, indexFronts: seq<seq<nat>>,
                        fronts: seq<seq<Individual>>)
    requires Distinct(population) && |objs| == |population| == |level|
    requires Listed(level, indexFronts) && RanksMatch(population, level)
    requires forall q :: 0 <= q < |objs| ==> 0 <= level[q] < |indexFronts|
    requires |fronts| == |indexFronts|
    requires forall k :: 0 <= k < |fronts| ==> fronts[k] == Members(population, indexFronts[k])
    ensures forall k :: 0 <= k < |fronts| ==> Distinct(fronts[k])
    ensures forall k, x {:trigger x in fronts[k]} :: 0 <= k < |fronts| && x in fronts[k] ==> x in population && x.rank == k + 1
    ensures forall x :: x in population ==> exists k :: 0 <= k < |fronts| && x in fronts[k]
  {
    forall k | 0 <= k < |fronts|
      ensures Distinct(fronts[k])
    {
      assert Distinct(indexFronts[k]);
    }
    forall k, x | 0 <= k < |fronts| && x in fronts[k]
      ensures x in population && x.rank == k + 1
    {
      var t :| 0 <= t < |fronts[k]| && fronts[k][t] == x;
      var i := indexFronts[k][t];
      assert population[i] == x && level[i] == k;
    }
    forall x | x in population
      ensures exists k :: 0 <= k < |fronts| && x in fronts[k]
    {
      var i :| 0 <= i < |population| && population[i] == x;
      var t :| 0 <= t < |indexFronts[level[i]]| && indexFronts[level[i]][t] == i;
      assert fronts[level[i]][t] == x;
    }
  }

  /** A member that dominates another has the smaller rank. */
  lemma RanksFollowDominance(population: seq<Individual>, objs: seq<Objectives>, level: seq<int>, top: nat)
    requires |objs| == |population|
    requires forall i :: 0 <= i < |population| ==> population[i].ObjectiveValues() == objs[i]
    requires Layering(objs, level, top) && RanksMatch(population, level)
    requires forall q :: 0 <= q < |objs| ==> 0 <= level[q]
    ensures forall x, y :: x in population && y in population && Dominates(x.ObjectiveValues(), y.ObjectiveValues()) ==>
      x.rank < y.rank
  {
    forall x, y | x in population && y in population && Dominates(x.ObjectiveValues(), y.ObjectiveValues())
      ensures x.rank < y.rank
    {
      var i :| 0 <= i < |population| && population[i] == x;
      var j :| 0 <= j < |population| && population[j] == y;
      assert Dominates(objs[i], objs[j]);
    }
  }

  /** Rank 1 is exactly the members nobody dominates. */
  lemma FirstRankUndominated(population: seq<Individual>, objs: seq<Objectives>, level: seq<int>, top: nat)
    requires |objs| == |population|
    requires forall i :: 0 <= i < |population| ==> population[i].ObjectiveValues() == objs[i]
    requires Layering(objs, level, top) && RanksMatch(population, level)
    requires forall q :: 0 <= q < |objs| ==> 0 <= level[q]
    ensures forall x :: x in population ==>
      (x.rank == 1 <==> forall y :: y in population ==> !Dominates(y.ObjectiveValues(), x.ObjectiveValues()))
  {
    forall x | x in population
      ensures x.rank == 1 <==> forall y :: y in population ==> !Dominates(y.ObjectiveValues(), x.ObjectiveValues())
    {
      var i :| 0 <= i < |population| && population[i] == x;
      if x.rank == 1 {
        assert Undominated(objs, i);
        forall y | y in population
          ensures !Dominates(y.ObjectiveValues(), x.ObjectiveValues())
        {
          var j :| 0 <= j < |population| && population[j] == y;
        }
      } else {
        assert !Undominated(objs, i);
        var j :| 0 <= j < |objs| && Dominates(objs[j], objs[i]);
        assert population[j] in population;
      }
    }
  }

  /** Every member of a later front is dominated by some member of the front before it. */
  lemma FrontsHaveParents(population: seq<Individual>, objs: seq<Objectives>, level: seq<int>, indexFronts: seq<seq<nat>>,
                          fronts: seq<seq<Individual>>)
    requires |objs| == |population|
    requires forall i :: 0 <= i < |population| ==> population[i].ObjectiveValues() == objs[i]
    requires Layering(objs, level, |indexFronts|) && Listed(level, indexFronts)
    requires forall q :: 0 <= q < |objs| ==> 0 <= level[q] < |indexFronts|
    requires |fronts| == |indexFronts|
    requires forall k :: 0 <= k < |fronts| ==> fronts[k] == Members(population, indexFronts[k])
    ensures forall k, x {:trigger x in fronts[k]} :: 1 <= k < |fronts| && x in fronts[k] ==> DominatedByMemberOf(fronts[k - 1], x)
  {
    forall k, x | 1 <= k < |fronts| && x in fronts[k]
      ensures DominatedByMemberOf(fronts[k - 1], x)
    {
      var t :| 0 <= t < |fronts[k]| && fronts[k][t] == x;
      ParentInFront(population, objs, level, indexFronts, k, t);
    }
  }

  /** The member at position t of front k has a dominator in front k - 1. */
  lemma ParentInFront(population: seq<Individual>, objs: seq<Objectives>, level: seq<int>, indexFronts: seq<seq<nat>>,
                      k: nat, t: nat)
    requires |objs| == |population|
    requires forall i :: 0 <= i < |population| ==> population[i].ObjectiveValues() == objs[i]
    requires Layering(objs, level, |indexFronts|) && Listed(level, indexFronts)
    requires 1 <= k < |indexFronts| && t < |indexFronts[k]|
    ensures DominatedByMemberOf(Members(population, indexFronts[k - 1]), population[indexFronts[k][t]])
  {
    var i := indexFronts[k][t];
    assert level[i] == k;
    assert HasParent(objs, level, i);
    var j :| 0 <= j < |objs| && Dominates(objs[j], objs[i]) && level[j] == level[i] - 1;
    assert j in indexFronts[k - 1];
    var u :| 0 <= u < |indexFronts[k - 1]| && indexFronts[k - 1][u] == j;
    assert Members(population, indexFronts[k - 1])[u] == population[j];
  }

  /** When the peeling stops every member has been placed: a set of unplaced members would contain a dominance cycle. */
  lemma AllPlaced(objs: seq<Objectives>, count: seq<int>, level: seq<int>, released: set<nat>)
    requires |level| == |objs| && Counted(objs, count, level, released)
    requires forall q :: 0 <= q < |objs| && level[q] >= 0 ==> q in released
    ensures forall q :: 0 <= q < |objs| ==> level[q] >= 0
  {
    var unplaced := set q | 0 <= q < |objs| && level[q] < 0;
    forall u | u in unplaced
      ensures DominatedWithin(objs, unplaced, u)
    {
      OutstandingZero(objs, u, released, |objs|);
      var p :| 0 <= p < |objs| && Dominates(objs[p], objs[u]) && p !in released;
      assert p in unplaced;
    }
    NoDominanceCycle(objs, unplaced);
    forall q | 0 <= q < |objs|
      ensures level[q] >= 0
    {
      assert q !in unplaced;
    }
  }

  /**
   * The layering is unique: two complete layerings of the same objectives
   * (every member placed) hand out the same level to every member, so the
   * ranks the sort stores are the front numbers and nothing else.
   */
  lemma LayeringUnique(objs: seq<Objectives>, level1: seq<int>, top1: int, level2: seq<int>, top2: int)
    requires Layering(objs, level1, top1) && Layering(objs, level2, top2)
    requires forall q :: 0 <= q < |objs| ==> level1[q] >= 0 && level2[q] >= 0
    ensures level1 == level2
  {
    var n: nat := if top1 >= 0 then top1 else 0;
    LayeringsAgreeUpTo(objs, level1, top1, level2, top2, n);
  }

  /** Two complete layerings agree on every member that one of them places at level n or below. */
  lemma {:induction false} LayeringsAgreeUpTo(objs: seq<Objectives>, level1: seq<int>, top1: int, level2: seq<int>, top2: int, n: nat)
    requires Layering(objs, level1, top1) && Layering(objs, level2, top2)
    requires forall q :: 0 <= q < |objs| ==> level1[q] >= 0 && level2[q] >= 0
    ensures forall q :: 0 <= q < |objs| && (level1[q] <= n || level2[q] <= n) ==> level1[q] == level2[q]
  {
    if n > 0 {
      LayeringsAgreeUpTo(objs, level1, top1, level2, top2, n - 1);
    }
    forall q | 0 <= q < |objs| && (level1[q] <= n || level2[q] <= n)
      ensures level1[q] == level2[q]
    {
      if level1[q] <= n {
        LevelSettled(objs, level1, top1, level2, top2, n, q);
      } else {
        LevelSettled(objs, level2, top2, level1, top1, n, q);
      }
    }
  }

  /** If two complete layerings agree below level n, a member at level at most n in the first has the same level in the second. */
  lemma LevelSettled(objs: seq<Objectives>, level1: seq<int>, top1: int, level2: seq<int>, top2: int, n: nat, q: nat)
    requires Layering(objs, level1, top1) && Layering(objs, level2, top2)
    requires forall r :: 0 <= r < |objs| ==> level1[r] >= 0 && level2[r] >= 0
    requires forall r :: 0 <= r < |objs| && (level1[r] < n || level2[r] < n) ==> level1[r] == level2[r]
    requires q < |objs| && level1[q] <= n
    ensures level1[q] == level2[q]
  {
    if level1[q] == 0 {
      assert Undominated(objs, q);
    } else {
      assert HasParent(objs, level1, q);
      var p :| 0 <= p < |objs| && Dominates(objs[p], objs[q]) && level1[p] == level1[q] - 1;
      assert level2[p] == level1[p];
      assert level2[q] >= level1[q] >= 1;
      assert HasParent(objs, level2, q);
      var p2 :| 0 <= p2 < |objs| && Dominates(objs[p2], objs[q]) && level2[p2] == level2[q] - 1;
      assert level1[p2] < level1[q];
      assert level2[p2] == level1[p2];
    }
  }
}
