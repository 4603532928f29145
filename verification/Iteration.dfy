/** Iteration over a set or a map's keys in an order nobody may rely on. */
module Iteration {

  ghost predicate Distinct<T>(q: seq<T>) {
    forall i, j :: 0 <= i < j < |q| ==> q[i] != q[j]
  }

  method Enumerate<T(==)>(s: set<T>) returns (q: seq<T>)
    ensures Distinct(q)
    ensures forall x :: x in q <==> x in s
  {
    q := [];
    var todo := s;
    while todo != {}
      invariant todo <= s
      invariant Distinct(q)
      invariant forall x :: x in q <==> x in s && x !in todo
      decreases |todo|
    {
      var x :| x in todo;
      q, todo := q + [x], todo - {x};
    }
  }
}
