/** Sets of lost numbers as runs: a map from the first number of each run to its last. */
module LossRuns {
  import opened Numbers

  type Runs = map<int, int>

  /** Runs do not overlap; neighbours may touch. */
  ghost predicate Ordered(runs: Runs) {
    && (forall x :: x in runs ==> x <= runs[x])
    && (forall x, y :: x in runs && y in runs && x < y ==> runs[x] < y)
  }

  /** The numbers in the runs. */
  ghost function Elems(runs: Runs): set<int> {
    set x, n | x in runs && n in Interval(x, runs[x]) :: n
  }

  lemma RunInside(runs: Runs, x: int, n: int)
    requires x in runs && x <= n <= runs[x]
    ensures n in Elems(runs)
  {
    assert n in Interval(x, runs[x]);
  }

  ghost function RunOf(runs: Runs, n: int): (x: int)
    requires n in Elems(runs)
    ensures x in runs && x <= n <= runs[x]
  {
    var x :| x in runs && n in Interval(x, runs[x]);
    x
  }

  lemma WithoutOrdered(runs: Runs, a: int)
    requires Ordered(runs)
    ensures Ordered(runs - {a})
  {}

  /** A run that overlaps no other can be taken apart from the rest. */
  lemma ElemsSplit(runs: Runs, a: int)
    requires Ordered(runs) && a in runs
    ensures Elems(runs) == Interval(a, runs[a]) + Elems(runs - {a})
    ensures Interval(a, runs[a]) !! Elems(runs - {a})
    ensures |Elems(runs)| == runs[a] - a + 1 + |Elems(runs - {a})|
  {
    hide Interval, Elems, Ordered;
    RunsApart(runs, a);
    forall n ensures n in Elems(runs) <==> n in Interval(a, runs[a]) + Elems(runs - {a}) {
      InSplit(runs, a, n);
    }
  }

  lemma RunsApart(runs: Runs, a: int)
    requires Ordered(runs) && a in runs
    ensures a <= runs[a] && Interval(a, runs[a]) !! Elems(runs - {a})
  {
    hide Interval, Elems;
    forall n | n in Elems(runs - {a}) ensures n !in Interval(a, runs[a]) {
      var x := RunOf(runs - {a}, n);
    }
  }

  lemma InSplit(runs: Runs, a: int, n: int)
    requires a in runs
    ensures n in Elems(runs) <==> a <= n <= runs[a] || n in Elems(runs - {a})
  {
    hide Interval, Elems;
    if n in Elems(runs) {
      var x := RunOf(runs, n);
      if x != a {
        RunInside(runs - {a}, x, n);
      }
    }
    if a <= n <= runs[a] {
      RunInside(runs, a, n);
    }
    if n in Elems(runs - {a}) {
      RunInside(runs, RunOf(runs - {a}, n), n);
    }
  }

  /** A run that overlaps no other can be added. */
  lemma ElemsJoin(rest: Runs, a: int, b: int)
    requires Ordered(rest) && a !in rest && a <= b
    requires forall x :: x in rest && x < a ==> rest[x] < a
    requires forall x :: x in rest && x > a ==> x > b
    ensures Ordered(rest[a := b])
    ensures Elems(rest[a := b]) == Interval(a, b) + Elems(rest)
    ensures |Elems(rest[a := b])| == b - a + 1 + |Elems(rest)|
  {
    hide Interval, Elems;
    var runs := rest[a := b];
    assert runs - {a} == rest;
    assert Ordered(runs);
    ElemsSplit(runs, a);
  }

  /** Changing the end of a run leaves the other runs alone. */
  lemma RestOfUpdate(runs: Runs, a: int, b: int)
    ensures runs[a := b] - {a} == runs - {a}
  {}

  lemma ElemsEmpty()
    ensures Elems(map[]) == {}
  {}

  /** The first run starts with the least element. */
  lemma LeastElem(runs: Runs, base: int)
    requires Ordered(runs) && base in runs && forall x :: x in runs ==> base <= x
    ensures base in Elems(runs) && Least(Elems(runs)) == base && |Elems(runs)| > 0
  {
    hide Interval;
    RunInside(runs, base, base);
    hide Elems;
    var m := RunOf(runs, Least(Elems(runs)));
    assert Elems(runs) != {};
  }

  // --- Neighbours -----------------------------------------------------------

  /** The run after the one at `n` is the one at `m`. */
  ghost predicate NextRun(runs: Runs, n: int, m: int) {
    m in runs && n < m && forall x :: x in runs ==> x <= n || m <= x
  }

  ghost predicate LastRun(runs: Runs, n: int) {
    forall x :: x in runs ==> x <= n
  }

  lemma NextUnique(runs: Runs, n: int, k: int, m: int)
    requires NextRun(runs, n, m) && NextRun(runs, k, m) && n in runs && k in runs
    ensures n == k
  {}

  lemma NextOne(runs: Runs, n: int, m: int, k: int)
    requires NextRun(runs, n, m) && n in runs
    ensures NextRun(runs, n, k) ==> k == m
    ensures !LastRun(runs, n)
  {}

  /** Another run is taken away. */
  lemma NextDrop(runs: Runs, n: int, m: int, b: int)
    ensures NextRun(runs, n, m) && b != m ==> NextRun(runs - {b}, n, m)
    ensures LastRun(runs, n) ==> LastRun(runs - {b}, n)
  {}

  /** The run between two is taken away. */
  lemma NextSkip(runs: Runs, n: int, b: int, m: int)
    requires NextRun(runs, n, b)
    ensures NextRun(runs, b, m) ==> NextRun(runs - {b}, n, m)
    ensures LastRun(runs, b) ==> LastRun(runs - {b}, n)
  {}

  /** A run is added elsewhere. */
  lemma NextAdd(runs: Runs, n: int, m: int, a: int, b: int)
    ensures NextRun(runs, n, m) && (a <= n || m <= a) ==> NextRun(runs[a := b], n, m)
    ensures LastRun(runs, n) && a <= n ==> LastRun(runs[a := b], n)
  {}

  /** Where a run ends does not matter to its neighbours. */
  lemma NextSame(runs: Runs, n: int, m: int, a: int, b: int)
    requires a in runs
    ensures NextRun(runs[a := b], n, m) <==> NextRun(runs, n, m)
    ensures LastRun(runs[a := b], n) <==> LastRun(runs, n)
  {
    assert forall x :: x in runs[a := b] <==> x in runs;
  }

  /** Inside a run no other starts, and the next starts beyond it. */
  lemma InsideRun(runs: Runs, n: int, x: int, m: int)
    requires Ordered(runs) && n in runs && n < x <= runs[n]
    ensures x !in runs && (NextRun(runs, n, m) ==> runs[n] < m)
  {}

  // --- Coalescing -----------------------------------------------------------

  /** While a run is being extended it may overlap those after it, and `length` counts the
      overlapped numbers more than once. */
  ghost predicate Pending(runs: Runs, a: int, length: int) {
    && a in runs && a <= runs[a]
    && Ordered(runs - {a})
    && (forall x :: x in runs && x < a ==> runs[x] < a)
    && length == runs[a] - a + 1 + |Elems(runs - {a})|
  }

  /** The set that coalescing is to make. */
  ghost function Merged(runs: Runs, a: int): set<int>
    requires a in runs
  {
    Interval(a, runs[a]) + Elems(runs - {a})
  }

  lemma ExtendPending(runs: Runs, a: int, b: int)
    requires Ordered(runs) && a in runs && runs[a] <= b
    ensures Pending(runs[a := b], a, |Elems(runs)| + b - runs[a])
    ensures Merged(runs[a := b], a) == Elems(runs) + Interval(a, b)
  {
    hide Interval, Elems;
    ElemsSplit(runs, a);
    RestOfUpdate(runs, a, b);
  }

  lemma NewPending(runs: Runs, a: int, b: int)
    requires Ordered(runs) && a !in runs && a <= b
    requires forall x :: x in runs && x < a ==> runs[x] < a
    ensures Pending(runs[a := b], a, |Elems(runs)| + b - a + 1)
    ensures Merged(runs[a := b], a) == Elems(runs) + Interval(a, b)
  {
    hide Interval, Elems;
    assert runs[a := b] - {a} == runs;
  }

  /** What the overlap with the next run, `m`, takes off the length. */
  function Overlap(h: int, m: int, k: int): int {
    if k <= h then k - m + 1 else if m <= h then h - m + 1 else 0
  }

  lemma MergeNext(runs: Runs, a: int, m: int, length: int)
    requires Pending(runs, a, length) && m in runs && a < m <= runs[a] + 1
    requires forall x :: x in runs ==> x <= a || m <= x
    ensures var h := if runs[m] > runs[a] then runs[m] else runs[a];
            var merged := runs[a := h] - {m};
            && Pending(merged, a, length - Overlap(runs[a], m, runs[m]))
            && Merged(merged, a) == Merged(runs, a)
  {
    hide Interval, Elems, Ordered;
    var h := if runs[m] > runs[a] then runs[m] else runs[a];
    MergedRest(runs, a, h, m, runs[a := h] - {m});
    NextApart(runs - {a}, m);
    IntervalJoin(a, runs[a], m, runs[m]);
    UnionAssociative(Interval(a, runs[a]), Interval(m, runs[m]), Elems((runs - {a}) - {m}));
  }

  /** A run taken apart from the rest, which stays ordered. */
  lemma NextApart(rest: Runs, m: int)
    requires Ordered(rest) && m in rest
    ensures m <= rest[m] && Ordered(rest - {m}) && Elems(rest) == Interval(m, rest[m]) + Elems(rest - {m})
    ensures |Elems(rest)| == rest[m] - m + 1 + |Elems(rest - {m})|
  {
    hide Interval, Elems;
    WithoutOrdered(rest, m);
    ElemsSplit(rest, m);
  }

  /** The runs once `m` is absorbed by `a`, which reaches to `h`. */
  lemma MergedRest(runs: Runs, a: int, h: int, m: int, merged: Runs)
    requires a in runs && a < m && merged == runs[a := h] - {m}
    ensures a in merged && merged[a] == h && merged - {a} == (runs - {a}) - {m}
    ensures forall x :: x in merged && x != a ==> x in runs && merged[x] == runs[x]
  {}

  lemma IntervalJoin(a: int, b: int, m: int, n: int)
    requires a < m <= b + 1 && m <= n
    ensures Interval(a, if n > b then n else b) == Interval(a, b) + Interval(m, n)
  {
    hide Interval;
  }

  /** Once the extended run reaches no further than the next one, the runs are apart. */
  lemma MergeDone(runs: Runs, a: int, length: int)
    requires Pending(runs, a, length)
    requires forall x :: x in runs && x > a ==> x > runs[a]
    ensures Ordered(runs) && Elems(runs) == Merged(runs, a) && length == |Elems(runs)|
  {
    hide Interval, Elems;
    var rest := runs - {a};
    assert rest[a := runs[a]] == runs;
    ElemsJoin(rest, a, runs[a]);
  }

  /** A run that starts inside or right after another adds what it adds beyond it. */
  lemma CoverJoin(runs: Runs, n: int, a: int, b: int)
    requires n in runs && n <= a <= runs[n] + 1
    ensures Elems(runs) + Interval(n, b) == Elems(runs) + Interval(a, b)
  {
    hide Interval, Elems;
    forall x | n <= x < a ensures x in Elems(runs) {
      RunInside(runs, n, x);
    }
  }

  /** A run inside another adds nothing. */
  lemma CoverInside(runs: Runs, n: int, a: int, b: int)
    requires n in runs && n <= a && b <= runs[n]
    ensures Elems(runs) + Interval(a, b) == Elems(runs)
  {
    hide Interval, Elems;
    forall x | a <= x <= b ensures x in Elems(runs) {
      RunInside(runs, n, x);
    }
  }

  /** The lost numbers after `n`. */
  ghost function Above(s: set<int>, n: int): set<int> {
    set x | x in s && x > n
  }

  /** A run that ends at or before `n` has nothing above it. */
  lemma DropBelow(runs: Runs, a: int, n: int)
    requires Ordered(runs) && a in runs && runs[a] <= n
    ensures Ordered(runs - {a}) && Above(Elems(runs - {a}), n) == Above(Elems(runs), n)
    ensures |Elems(runs)| == runs[a] - a + 1 + |Elems(runs - {a})|
  {
    hide Interval, Elems;
    ElemsSplit(runs, a);
    WithoutOrdered(runs, a);
  }

  /** Runs that all start above `n` are all above it; runs that all end by `n` are not. */
  lemma AllAbove(runs: Runs, n: int)
    requires Ordered(runs)
    ensures (forall x :: x in runs ==> x > n) ==> Above(Elems(runs), n) == Elems(runs)
    ensures (forall x :: x in runs ==> runs[x] <= n) ==> Above(Elems(runs), n) == {}
  {
    hide Interval, Elems;
    forall y | y in Elems(runs) ensures exists x :: x in runs && x <= y <= runs[x] {
      var x := RunOf(runs, y);
    }
  }

  /** A run cut short leaves room for a run in the rest of it. */
  lemma ShortRun(runs: Runs, a: int, n: int, short: Runs)
    requires Ordered(runs) && a in runs && a <= n < runs[a] && short == runs[a := n]
    ensures n + 1 !in runs && Ordered(short) && Elems(short) == Interval(a, n) + Elems(runs - {a})
    ensures forall x :: x in short && x < n + 1 ==> short[x] < n + 1
    ensures forall x :: x in short && x > n + 1 ==> x > runs[a]
  {
    hide Interval, Elems;
    WithoutOrdered(runs, a);
    ElemsJoin(runs - {a}, a, n);
    assert (runs - {a})[a := n] == short;
  }

  /** Cutting a run in two keeps its numbers. */
  lemma SplitRun(runs: Runs, a: int, n: int)
    requires Ordered(runs) && a in runs && a <= n < runs[a]
    ensures n + 1 !in runs
    ensures var cut := runs[a := n][n + 1 := runs[a]];
            Ordered(cut) && Elems(cut) == Elems(runs)
  {
    hide Interval, Elems, Ordered;
    var short := runs[a := n];
    ShortRun(runs, a, n, short);
    ElemsJoin(short, n + 1, runs[a]);
    ElemsSplit(runs, a);
    IntervalCut(a, n, runs[a]);
    UnionSwap(Interval(a, n), Interval(n + 1, runs[a]), Elems(runs - {a}));
  }

  /** Taking the first number off a run. */
  lemma TrimFirst(runs: Runs, a: int)
    requires Ordered(runs) && a in runs && a < runs[a]
    ensures a + 1 !in runs
    ensures var trimmed := (runs - {a})[a + 1 := runs[a]];
            Ordered(trimmed) && Elems(trimmed) == Elems(runs) - {a} && |Elems(trimmed)| == |Elems(runs)| - 1
  {
    hide Interval, Elems;
    var rest := runs - {a};
    ElemsSplit(runs, a);
    WithoutOrdered(runs, a);
    ElemsJoin(rest, a + 1, runs[a]);
    assert Interval(a, runs[a]) == {a} + Interval(a + 1, runs[a]);
  }

  /** Removing a run of one number. */
  lemma DropSingle(runs: Runs, a: int)
    requires Ordered(runs) && a in runs && runs[a] == a
    ensures Ordered(runs - {a}) && Elems(runs - {a}) == Elems(runs) - {a} && |Elems(runs - {a})| == |Elems(runs)| - 1
  {
    hide Interval, Elems;
    ElemsSplit(runs, a);
    WithoutOrdered(runs, a);
    assert Interval(a, a) == {a};
  }

  /** Taking the last number off a run. */
  lemma TrimLast(runs: Runs, a: int)
    requires Ordered(runs) && a in runs && a < runs[a]
    ensures var trimmed := runs[a := runs[a] - 1];
            Ordered(trimmed) && Elems(trimmed) == Elems(runs) - {runs[a]} && |Elems(trimmed)| == |Elems(runs)| - 1
  {
    hide Interval, Elems;
    ElemsSplit(runs, a);
    WithoutOrdered(runs, a);
    ElemsJoin(runs - {a}, a, runs[a] - 1);
    assert (runs - {a})[a := runs[a] - 1] == runs[a := runs[a] - 1];
    assert Interval(a, runs[a]) == Interval(a, runs[a] - 1) + {runs[a]};
  }

  /** Taking a number out of the middle of a run. */
  lemma Punch(runs: Runs, a: int, n: int)
    requires Ordered(runs) && a in runs && a < n < runs[a]
    ensures n + 1 !in runs
    ensures var punched := runs[a := n - 1][n + 1 := runs[a]];
            Ordered(punched) && Elems(punched) == Elems(runs) - {n} && |Elems(punched)| == |Elems(runs)| - 1
  {
    hide Interval, Elems;
    SplitRun(runs, a, n);
    var cut := runs[a := n][n + 1 := runs[a]];
    TrimLast(cut, a);
    assert cut[a := n - 1] == runs[a := n - 1][n + 1 := runs[a]];
  }

  /** A number between the runs is in none of them. */
  lemma Between(runs: Runs, a: int, n: int)
    requires a in runs && runs[a] < n && forall x :: x in runs ==> x > n || (x <= a && runs[x] <= runs[a])
    ensures n !in Elems(runs)
  {
    hide Interval, Elems;
    if n in Elems(runs) {
      var x := RunOf(runs, n);
    }
  }

  /** Runs that all miss an interval have no number in it. */
  lemma Misses(runs: Runs, a: int, b: int)
    requires forall x :: x in runs ==> runs[x] < a || b < x
    ensures forall n :: n in Elems(runs) ==> n < a || b < n
  {
    hide Interval, Elems;
    forall n | n in Elems(runs) ensures n < a || b < n {
      var x := RunOf(runs, n);
    }
  }

  /** Up to a run that ends by `n`, all runs do. */
  lemma BeforeIsBelow(runs: Runs, lo: int, n: int)
    requires Ordered(runs) && lo in runs && runs[lo] <= n
    ensures forall x :: x in runs && x <= lo ==> runs[x] <= n
  {}
}
