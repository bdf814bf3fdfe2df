/**
 * The two LINQ orderings the engine uses, OrderBy (crowding distance, by one
 * objective) and OrderByDescending (truncation, by crowding distance), as a
 * stable insertion sort of positions by their keys. Both LINQ calls return a
 * new list and leave their source alone, so they are functions here.
 */
module Sorting {
  import opened Models

  /** True when key a has to be placed strictly before key b: a < b ascending, a > b descending. */
  predicate Precedes(a: ExtReal, b: ExtReal, descending: bool) {
    if descending then b.Below(a) else a.Below(b)
  }

  /** Every position in `s` indexes a sequence of length n. */
  predicate InBounds(s: seq<nat>, n: nat) {
    forall i :: 0 <= i < |s| ==> s[i] < n
  }

  /** No element has to be placed before an element that precedes it in `s`. */
  predicate Ordered(s: seq<nat>, key: seq<ExtReal>, descending: bool)
    requires InBounds(s, |key|)
  {
    forall i, j :: 0 <= i < j < |s| ==> !Precedes(key[s[j]], key[s[i]], descending)
  }

  /** Positions a and b carry the same key. */
  predicate Tied(key: seq<ExtReal>, a: nat, b: nat) {
    a < |key| && b < |key| && key[a] == key[b]
  }

  /** Positions whose keys are equal keep their input order: the smaller position comes first. */
  predicate TiesInInputOrder(s: seq<nat>, key: seq<ExtReal>) {
    forall i, j {:trigger Tied(key, s[i], s[j])} :: 0 <= i < j < |s| && Tied(key, s[i], s[j]) ==> s[i] < s[j]
  }

  /** Strictly ascending positions, as LINQ reads its source list. */
  predicate Increasing(s: seq<nat>) {
    forall i, j :: 0 <= i < j < |s| ==> s[i] < s[j]
  }

  /** The positions 0, 1, ..., n-1 in order (the order of the list LINQ reads). */
  function Range(n: nat): (r: seq<nat>)
    ensures |r| == n && forall i :: 0 <= i < n ==> r[i] == i
  {
    if n == 0 then [] else Range(n - 1) + [n - 1]
  }

  /**
   * Inserts x before the first element that x need not follow. Since x came
   * before every element of s in the input, ties keep input order (stability).
   */
  function Insert(x: nat, s: seq<nat>, key: seq<ExtReal>, descending: bool): (r: seq<nat>)
    requires x < |key| && InBounds(s, |key|)
    requires Ordered(s, key, descending)
    ensures InBounds(r, |key|) && multiset(r) == multiset(s) + multiset{x}
    ensures forall e :: e in r <==> e == x || e in s
    ensures Ordered(r, key, descending)
  {
    if s == [] then [x]
    else if Precedes(key[s[0]], key[x], descending) then
      assert s == [s[0]] + s[1..];
      var rest := Insert(x, s[1..], key, descending);
      FollowersOfHead(x, s, rest, key, descending);
      [s[0]] + rest
    else [x] + s
  }

  /** After the head s[0] come only x, which it precedes, and the rest of s, which it may precede. */
  lemma FollowersOfHead(x: nat, s: seq<nat>, rest: seq<nat>, key: seq<ExtReal>, descending: bool)
    requires x < |key| && InBounds(s, |key|) && InBounds(rest, |key|) && s != []
    requires Ordered(s, key, descending) && Ordered(rest, key, descending)
    requires Precedes(key[s[0]], key[x], descending)
    requires forall e :: e in rest <==> e == x || e in s[1..]
    ensures Ordered([s[0]] + rest, key, descending)
  {
    forall j | 0 <= j < |rest|
      ensures !Precedes(key[rest[j]], key[s[0]], descending)
    {
      assert rest[j] in rest;
      if rest[j] != x {
        var k :| 0 <= k < |s[1..]| && s[1..][k] == rest[j];
        assert s[k + 1] == rest[j];
      }
    }
  }

  /** The stable sort: `s` reordered so that keys ascend (or descend), ties in input order. */
  function SortIndices(s: seq<nat>, key: seq<ExtReal>, descending: bool): (r: seq<nat>)
    requires InBounds(s, |key|)
    ensures InBounds(r, |key|) && multiset(r) == multiset(s)
    ensures Ordered(r, key, descending)
  {
    if s == [] then []
    else
      assert s == [s[0]] + s[1..];
      Insert(s[0], SortIndices(s[1..], key, descending), key, descending)
  }

  /** Dropping the head keeps both orders and the bound on the elements. */
  lemma TailKeepsTies(x: nat, s: seq<nat>, key: seq<ExtReal>, descending: bool)
    requires s != [] && InBounds(s, |key|) && Ordered(s, key, descending) && TiesInInputOrder(s, key)
    requires forall e :: e in s ==> x < e
    ensures InBounds(s[1..], |key|) && Ordered(s[1..], key, descending) && TiesInInputOrder(s[1..], key)
    ensures forall e :: e in s[1..] ==> x < e
  {
    forall e | e in s[1..]
      ensures x < e
    {
      var k :| 0 <= k < |s[1..]| && s[1..][k] == e;
      assert s[k + 1] == e && s[k + 1] in s;
    }
    forall i, j | 0 <= i < j < |s[1..]|
      ensures !Precedes(key[s[1..][j]], key[s[1..][i]], descending)
      ensures Tied(key, s[1..][i], s[1..][j]) ==> s[1..][i] < s[1..][j]
    {
      assert s[1..][i] == s[i + 1] && s[1..][j] == s[j + 1];
    }
  }

  /**
   * Inserting a position smaller than every position already placed keeps
   * equal keys in input order: x is placed before every element whose key
   * it need not follow, so it precedes all elements with its own key.
   */
  lemma {:induction false} InsertKeepsTies(x: nat, s: seq<nat>, key: seq<ExtReal>, descending: bool)
    requires x < |key| && InBounds(s, |key|) && Ordered(s, key, descending)
    requires forall e :: e in s ==> x < e
    requires TiesInInputOrder(s, key)
    ensures TiesInInputOrder(Insert(x, s, key, descending), key)
  {
    if s == [] {
    } else if Precedes(key[s[0]], key[x], descending) {
      TailKeepsTies(x, s, key, descending);
      InsertKeepsTies(x, s[1..], key, descending);
      var rest := Insert(x, s[1..], key, descending);
      assert Insert(x, s, key, descending) == [s[0]] + rest;
      HeadBeforeInserted(x, s, rest, key, descending);
    } else {
      var r := [x] + s;
      assert Insert(x, s, key, descending) == r;
      forall i, j | 0 <= i < j < |r| && Tied(key, r[i], r[j])
        ensures r[i] < r[j]
      {
        if i == 0 {
          assert r[j] in s;
        } else {
          assert r[i] == s[i - 1] && r[j] == s[j - 1];
        }
      }
    }
  }

  /** When s[0] precedes x it stays the head; no element tied with it comes before it. */
  lemma HeadBeforeInserted(x: nat, s: seq<nat>, rest: seq<nat>, key: seq<ExtReal>, descending: bool)
    requires x < |key| && s != [] && InBounds(s, |key|) && InBounds(rest, |key|)
    requires TiesInInputOrder(s, key) && Precedes(key[s[0]], key[x], descending)
    requires TiesInInputOrder(rest, key)
    requires forall e :: e in rest ==> e == x || e in s[1..]
    ensures InBounds([s[0]] + rest, |key|) && TiesInInputOrder([s[0]] + rest, key)
  {
    var r := [s[0]] + rest;
    forall i, j | 0 <= i < j < |r| && Tied(key, r[i], r[j])
      ensures r[i] < r[j]
    {
      if i == 0 {
        assert rest[j - 1] in rest;
        if rest[j - 1] != x {
          var k :| 0 <= k < |s[1..]| && s[1..][k] == rest[j - 1];
          assert s[k + 1] == rest[j - 1];
        }
      } else {
        assert r[i] == rest[i - 1] && r[j] == rest[j - 1];
      }
    }
  }

  /** The insertion sort is stable: from ascending positions, equal keys come out in input order. */
  lemma {:induction false} SortIndicesKeepsTies(s: seq<nat>, key: seq<ExtReal>, descending: bool)
    requires InBounds(s, |key|) && Increasing(s)
    ensures TiesInInputOrder(SortIndices(s, key, descending), key)
  {
    if s != [] {
      assert s == [s[0]] + s[1..];
      SortIndicesKeepsTies(s[1..], key, descending);
      var sorted := SortIndices(s[1..], key, descending);
      forall e | e in sorted
        ensures s[0] < e
      {
        assert e in multiset(sorted);
        assert e in multiset(s[1..]);
        var k :| 0 <= k < |s[1..]| && s[1..][k] == e;
        assert s[k + 1] == e;
      }
      InsertKeepsTies(s[0], sorted, key, descending);
    }
  }

  /** The sorted order of all positions of a list of n keys; equal keys keep list order (LINQ's stability). */
  function Order(key: seq<ExtReal>, descending: bool): (order: seq<nat>)
    ensures |order| == |key| && Distinct(order) && InBounds(order, |key|)
    ensures forall i :: 0 <= i < |key| ==> i in order
    ensures Ordered(order, key, descending)
    ensures TiesInInputOrder(order, key)
  {
    var order := SortIndices(Range(|key|), key, descending);
    PermutationOfRange(order, |key|);
    SortIndicesKeepsTies(Range(|key|), key, descending);
    order
  }

  /** Each of 0..n-1 occurs exactly once in Range(n). */
  lemma {:induction false} RangeCounts(n: nat)
    ensures forall i: nat :: multiset(Range(n))[i] == if i < n then 1 else 0
  {
    if n > 0 {
      RangeCounts(n - 1);
      assert Range(n) == Range(n - 1) + [n - 1];
      forall i: nat
        ensures multiset(Range(n))[i] == if i < n then 1 else 0
      {
        assert multiset(Range(n))[i] == multiset(Range(n - 1))[i] + multiset([n - 1])[i];
      }
    } else {
      forall i: nat
        ensures multiset(Range(n))[i] == 0
      {
        assert multiset(Range(n)) == multiset{};
      }
    }
  }

  /** A sequence with no element counted twice has no repeated element. */
  lemma CountsAtMostOneMeansDistinct(s: seq<nat>)
    requires forall x :: multiset(s)[x] <= 1
    ensures Distinct(s)
  {
    forall i, j | 0 <= i < j < |s|
      ensures s[i] != s[j]
    {
      assert s == s[..j] + s[j..];
      assert s[i] in s[..j] && s[j] in s[j..];
      assert multiset(s)[s[j]] == multiset(s[..j])[s[j]] + multiset(s[j..])[s[j]];
    }
  }

  /** A reordering of Range(n) is a permutation of 0..n-1. */
  lemma PermutationOfRange(order: seq<nat>, n: nat)
    requires multiset(order) == multiset(Range(n))
    ensures |order| == n && Distinct(order) && InBounds(order, n)
    ensures forall i :: 0 <= i < n ==> i in order
  {
    RangeCounts(n);
    assert |order| == |multiset(order)| == |multiset(Range(n))| == n;
    CountsAtMostOneMeansDistinct(order);
    forall k | 0 <= k < |order|
      ensures order[k] < n
    {
      assert order[k] in multiset(order);
    }
    forall i | 0 <= i < n
      ensures i in order
    {
      assert multiset(order)[i] == 1;
    }
  }

  /** Where element i sits in `order`. */
  function PositionOf(order: seq<nat>, i: nat): (p: nat)
    requires i in order
    ensures p < |order| && order[p] == i
  {
    if order[0] == i then 0 else 1 + PositionOf(order[1..], i)
  }
}
