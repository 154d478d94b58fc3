/** Finite sets of numbers: intervals and least elements. */
module Numbers {

  /** The numbers from `a` to `b`, both included. */
  ghost function Interval(a: int, b: int): (s: set<int>)
    ensures forall n :: n in s <==> a <= n <= b
    ensures |s| == if a <= b then b - a + 1 else 0
    decreases b - a
  {
    if a > b then {} else Interval(a, b - 1) + {b}
  }

  lemma UnionAssociative(x: set<int>, y: set<int>, z: set<int>)
    ensures x + (y + z) == x + y + z && {} + z == z && z + {} == z
  {}

  lemma UnionSwap(x: set<int>, y: set<int>, z: set<int>)
    ensures y + (x + z) == (x + y) + z
  {}

  /** An interval cut in two. */
  lemma IntervalCut(a: int, n: int, b: int)
    requires a <= n + 1 && n <= b
    ensures Interval(a, b) == Interval(a, n) + Interval(n + 1, b)
  {
    hide Interval;
  }

  /** The least element of a set that has one. */
  ghost function Least(s: set<int>): (m: int)
    requires s != {}
    ensures m in s && forall x :: x in s ==> m <= x
  {
    LeastExists(s);
    var m :| m in s && forall x :: x in s ==> m <= x;
    m
  }

  lemma {:induction false} LeastExists(s: set<int>)
    requires s != {}
    ensures exists m :: m in s && forall x :: x in s ==> m <= x
    decreases |s|
  {
    if forall y: int :: y !in s {
      assert false;
    }
    var y :| y in s;
    var rest := s - {y};
    assert forall x :: x in s ==> x == y || x in rest;
    if rest != {} {
      LeastExists(rest);
      var m :| m in rest && forall x :: x in rest ==> m <= x;
      var l := if y < m then y else m;
      assert l in s && forall x :: x in s ==> l <= x;
    }
  }
}
