/**
 * Pareto dominance between objective vectors (NSGAIIEngine.Dominates): a
 * dominates b when it is no worse in both objectives and strictly better in
 * at least one. Both objectives are minimised.
 */
module Dominance {
  import opened Models

  predicate Dominates(a: Objectives, b: Objectives) {
    a.cost <= b.cost && a.discomfort <= b.discomfort && (a.cost < b.cost || a.discomfort < b.discomfort)
  }

  /** No objective vector dominates itself. */
  lemma DominanceIrreflexive(a: Objectives)
    ensures !Dominates(a, a)
  {
  }

  /** Dominance never holds in both directions. */
  lemma DominanceAsymmetric(a: Objectives, b: Objectives)
    ensures Dominates(a, b) ==> !Dominates(b, a)
  {
  }

  /** Two candidates with equal cost and equal discomfort never dominate each other. */
  lemma EqualObjectivesIncomparable(a: Objectives, b: Objectives)
    requires a.cost == b.cost && a.discomfort == b.discomfort
    ensures !Dominates(a, b) && !Dominates(b, a)
  {
  }

  /** Dominance is transitive, so it is a strict partial order. */
  lemma DominanceTransitive(a: Objectives, b: Objectives, c: Objectives)
    ensures Dominates(a, b) && Dominates(b, c) ==> Dominates(a, c)
  {
  }

  /** Sum of the two objectives; dominance strictly decreases it. */
  function Total(a: Objectives): real {
    a.cost + a.discomfort
  }

  /** An element of a nonempty index set whose objective sum is least. */
  lemma {:induction false} LeastTotal(objs: seq<Objectives>, s: set<nat>) returns (m: nat)
    requires s != {}
    requires forall i :: i in s ==> i < |objs|
    ensures m in s
    ensures forall i :: i in s ==> Total(objs[m]) <= Total(objs[i])
  {
    var x :| x in s;
    if s == {x} {
      m := x;
    } else {
      var rest := LeastTotal(objs, s - {x});
      m := if Total(objs[x]) <= Total(objs[rest]) then x else rest;
    }
  }

  /**
   * In a finite population there is no set in which every member is
   * dominated by another member: such a set is empty. (This is why the
   * front-peeling loop of the non-dominated sort reaches everyone.)
   */
  lemma {:induction false} NoDominanceCycle(objs: seq<Objectives>, s: set<nat>)
    requires forall i :: i in s ==> i < |objs|
    requires forall i :: i in s ==> DominatedWithin(objs, s, i)
    ensures s == {}
  {
    if s != {} {
      var m := LeastTotal(objs, s);
      assert false;
    }
  }

  /** Some member of `s` dominates member `i`. */
  ghost predicate DominatedWithin(objs: seq<Objectives>, s: set<nat>, i: nat)
    requires i < |objs|
  {
    exists j :: j in s && j < |objs| && Dominates(objs[j], objs[i])
  }
}
