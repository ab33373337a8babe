/** Vocabulary shared by the load-balancer modules: server addresses, the optional
    result Python spells `None`, the iteration order of a Python set, and sums. */
module Common {

  /** A backend is identified by its address, e.g. "http://localhost:5001". */
  type Server = string

  datatype Option<T> = None | Some(value: T)

  /** No element of `xs` occurs twice. */
  predicate Distinct<T(==)>(xs: seq<T>)
  {
    forall i, j :: 0 <= i < j < |xs| ==> xs[i] != xs[j]
  }

  /** `order` is the order in which Python happens to iterate the set `s`:
      every member exactly once. Every place where the source writes
      `for x in some_set` or `list(some_set)` takes such an order as a parameter. */
  predicate Enumerates(order: seq<Server>, s: set<Server>)
  {
    Distinct(order) && (forall x :: x in order ==> x in s) && (forall x :: x in s ==> x in order)
  }

  /** Appending a new element keeps a sequence free of repetitions. */
  lemma DistinctSnoc<T>(xs: seq<T>, x: T)
    requires Distinct(xs) && x !in xs
    ensures Distinct(xs + [x])
  {
    var ys := xs + [x];
    forall i, j | 0 <= i < j < |ys|
      ensures ys[i] != ys[j]
    {
      assert ys[i] == xs[i];
    }
  }

  /** The parts of a sequence without repetitions that ends in `x`. */
  lemma DistinctSnocParts<T>(xs: seq<T>, x: T)
    requires Distinct(xs + [x])
    ensures Distinct(xs) && x !in xs
  {
    var ys := xs + [x];
    assert forall i :: 0 <= i < |xs| ==> xs[i] == ys[i];
    assert forall i :: 0 <= i < |xs| ==> ys[i] != ys[|xs|];
  }

  /** Putting a new element in front keeps a sequence free of repetitions. */
  lemma DistinctCons<T>(x: T, xs: seq<T>)
    requires Distinct(xs) && x !in xs
    ensures Distinct([x] + xs)
  {
    var ys := [x] + xs;
    forall i, j | 0 <= i < j < |ys|
      ensures ys[i] != ys[j]
    {
      assert ys[j] == xs[j - 1];
    }
  }

  /** The parts of a sequence without repetitions that starts with `x`. */
  lemma DistinctConsParts<T>(x: T, xs: seq<T>)
    requires Distinct([x] + xs)
    ensures Distinct(xs) && x !in xs
  {
    var ys := [x] + xs;
    assert forall i :: 0 <= i < |xs| ==> xs[i] == ys[i + 1];
    forall i | 0 <= i < |xs|
      ensures x != xs[i]
    {
      assert ys[0] != ys[i + 1];
    }
  }

  /** A set is empty exactly when its enumeration is. */
  lemma EnumeratesEmpty(order: seq<Server>, s: set<Server>)
    requires Enumerates(order, s)
    ensures order == [] <==> s == {}
  {
    if order != [] {
      assert order[0] in s;
    }
  }

  /** A sequence without repetitions whose elements all equal `x` has at most one element. */
  lemma DistinctConstant<T>(xs: seq<T>, x: T)
    requires Distinct(xs) && forall t :: t in xs ==> t == x
    ensures |xs| <= 1
  {
    assert |xs| >= 2 ==> xs[0] != xs[1];
    forall i | 0 <= i < |xs|
      ensures xs[i] == x
    {
      assert xs[i] in xs;
    }
  }

  /** A sequence holding two different values has at least two elements. */
  lemma TwoMembers<T>(xs: seq<T>, x: T, y: T)
    requires x in xs && y in xs && x != y
    ensures |xs| >= 2
  {
    var i :| 0 <= i < |xs| && xs[i] == x;
    var j :| 0 <= j < |xs| && xs[j] == y;
    assert i != j;
  }

  function Sum(xs: seq<int>): int
  {
    if xs == [] then 0 else Sum(xs[..|xs| - 1]) + xs[|xs| - 1]
  }

  function SumReal(xs: seq<real>): real
  {
    if xs == [] then 0.0 else SumReal(xs[..|xs| - 1]) + xs[|xs| - 1]
  }

  /** The smallest element of a non-empty sequence (Python's `min`). */
  function MinOf(xs: seq<int>): (m: int)
    requires xs != []
    ensures m in xs
    ensures forall i :: 0 <= i < |xs| ==> m <= xs[i]
  {
    if |xs| == 1 then xs[0]
    else
      var m' := MinOf(xs[..|xs| - 1]);
      assert forall i :: 0 <= i < |xs| - 1 ==> xs[..|xs| - 1][i] == xs[i];
      if xs[|xs| - 1] < m' then xs[|xs| - 1] else m'
  }

  lemma ModBelow(x: int, n: int)
    requires 0 <= x < n
    ensures x % n == x
  {
  }

  /** Advancing a cursor by one modulo n wraps to 0 exactly at the end. */
  lemma ModNext(i: int, n: int)
    requires 0 <= i < n
    ensures (i + 1) % n == if i + 1 == n then 0 else i + 1
  {
  }

  /** In a sequence without repetitions every element occurs exactly once. */
  lemma {:induction false} DistinctOccursOnce<T>(xs: seq<T>, x: T)
    requires Distinct(xs) && x in xs
    ensures multiset(xs)[x] == 1
  {
    var n := |xs|;
    assert xs == xs[..n - 1] + [xs[n - 1]];
    assert Distinct(xs[..n - 1]);
    if xs[n - 1] == x {
      assert x !in xs[..n - 1];
    } else {
      DistinctOccursOnce(xs[..n - 1], x);
    }
  }
}
