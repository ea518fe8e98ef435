/** The least set that holds some start elements and is closed under a relation. */
module Closure {

  ghost predicate Closed<T(!new)>(start: set<T>, edge: (T, T) -> bool, s: set<T>) {
    start <= s && forall x, y {:trigger edge(x, y)} :: x in s && edge(x, y) ==> y in s
  }

  /** n edges lead from a start element to y. */
  ghost predicate ReachedIn<T(!new)>(start: set<T>, edge: (T, T) -> bool, y: T, n: nat)
    decreases n
  {
    if n == 0 then y in start else exists x :: edge(x, y) && ReachedIn(start, edge, x, n - 1)
  }

  ghost predicate Reached<T(!new)>(start: set<T>, edge: (T, T) -> bool, y: T) {
    exists n: nat :: ReachedIn(start, edge, y, n)
  }

  lemma ReachedStart<T(!new)>(start: set<T>, edge: (T, T) -> bool, y: T)
    requires y in start
    ensures Reached(start, edge, y)
  {
    assert ReachedIn(start, edge, y, 0);
  }

  lemma ReachedStep<T(!new)>(start: set<T>, edge: (T, T) -> bool, x: T, y: T)
    requires Reached(start, edge, x) && edge(x, y)
    ensures Reached(start, edge, y)
  {
    var n: nat :| ReachedIn(start, edge, x, n);
    assert ReachedIn(start, edge, y, n + 1);
  }

  lemma {:induction false} ReachedStaysInside<T(!new)>(start: set<T>, edge: (T, T) -> bool, s: set<T>, y: T, n: nat)
    requires Closed(start, edge, s) && ReachedIn(start, edge, y, n)
    ensures y in s
    decreases n
  {
    if n == 0 {
    } else {
      var x :| edge(x, y) && ReachedIn(start, edge, x, n - 1);
      ReachedStaysInside(start, edge, s, x, n - 1);
    }
  }

  /** A closed set of reached elements is the set of all reached elements and lies inside every closed set. */
  lemma ClosedReachedIsLeast<T(!new)>(start: set<T>, edge: (T, T) -> bool, s: set<T>)
    requires Closed(start, edge, s) && forall y :: y in s ==> Reached(start, edge, y)
    ensures forall y :: y in s <==> Reached(start, edge, y)
    ensures forall other :: Closed(start, edge, other) ==> s <= other
  {
    forall y | Reached(start, edge, y)
      ensures y in s
    {
      var n: nat :| ReachedIn(start, edge, y, n);
      ReachedStaysInside(start, edge, s, y, n);
    }
    forall other, y | Closed(start, edge, other) && y in s
      ensures y in other
    {
      var n: nat :| ReachedIn(start, edge, y, n);
      ReachedStaysInside(start, edge, other, y, n);
    }
  }
}
