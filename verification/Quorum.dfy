/** Strict majorities, as the source counts them, meet. */
module Quorum {

  /** `quorumSize` of leader_election.cpp, read as a property of the set of nodes counted. */
  predicate IsQuorum<T>(members: set<T>, q: set<T>) {
    q <= members && |q| >= |members| / 2 + 1
  }

  lemma {:induction false} SubsetSize<T>(a: set<T>, b: set<T>)
    requires a <= b
    ensures |a| <= |b|
  {
    if a != {} {
      var x :| x in a;
      SubsetSize(a - {x}, b - {x});
    }
  }

  /** Any two strict majorities of the same members share one. */
  lemma QuorumsMeet<T>(members: set<T>, a: set<T>, b: set<T>) returns (x: T)
    requires IsQuorum(members, a) && IsQuorum(members, b)
    ensures x in a && x in b
  {
    SubsetSize(a + b, members);
    assert |a + b| == |a| + |b| - |a * b|;
    x :| x in a * b;
  }

  predicate Distinct<T(==)>(items: seq<T>) {
    forall i, j :: 0 <= i < j < |items| ==> items[i] != items[j]
  }

  function Elements<T(==)>(items: seq<T>): set<T> {
    set x | x in items
  }

  /** A list without repetition has as many elements as positions. */
  lemma {:induction false} DistinctSize<T>(items: seq<T>)
    requires Distinct(items)
    ensures |Elements(items)| == |items|
  {
    if items != [] {
      var front, last := items[..|items| - 1], items[|items| - 1];
      DistinctSize(front);
      assert Elements(items) == Elements(front) + {last} by {
        assert items == front + [last];
      }
    }
  }
}
