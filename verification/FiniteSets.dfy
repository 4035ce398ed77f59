/** Cardinalities and extreme elements of finite sets. */
module FiniteSets {
  lemma {:induction false} SubsetSize<T>(a: set<T>, b: set<T>)
    requires a <= b
    ensures |a| <= |b|
    decreases |a|
  {
    if a != {} {
      var x :| x in a;
      SubsetSize(a - {x}, b - {x});
    }
  }

  lemma DifferenceSize<T>(a: set<T>, b: set<T>)
    requires b <= a
    ensures |b| + |a - b| == |a|
  {
    assert a == b + (a - b);
  }

  /** `x` is in the set and comes first in the order, ties included. */
  ghost predicate First<T(!new)>(s: set<T>, le: (T, T) -> bool, x: T) {
    x in s && forall y :: y in s ==> le(x, y)
  }

  /** A nonempty set ordered by a total preorder has a first element, so `LIMIT 1` finds it. */
  lemma {:induction false} FirstExists<T(!new)>(s: set<T>, le: (T, T) -> bool)
    requires s != {}
    requires forall x, y :: x in s && y in s ==> le(x, y) || le(y, x)
    requires forall x, y, z :: x in s && y in s && z in s && le(x, y) && le(y, z) ==> le(x, z)
    ensures exists x :: First(s, le, x)
    decreases |s|
  {
    var x :| x in s;
    var rest := s - {x};
    if rest == {} {
      assert s == {x} && First(s, le, x);
    } else {
      FirstExists(rest, le);
      var y :| First(rest, le, y);
      var best := if le(x, y) then x else y;
      assert forall z :: z in s ==> z == x || z in rest;
      assert First(s, le, best);
    }
  }
}
