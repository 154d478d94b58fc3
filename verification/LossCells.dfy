/** A sorted list of runs kept in the cells of circular arrays. The run that starts with
    number n sits n - base cells after the head, where `base` is the first lost number:
    a cell's place tells its number, so no two runs collide while all lost numbers lie
    within one turn of the arrays. */
module LossCells {
  import opened SequenceNumbers
  import opened LossRuns

  /** The contents of the arrays with the runs they are to represent. A cell without a
      run holds -1 twice; a run of one number has no second entry; -1 ends the links. */
  datatype Chain = Chain(d1: seq<int>, d2: seq<int>, next: seq<int>, head: int, base: int, runs: Runs) {

    function Size(): nat {
      |d1|
    }

    /** The number whose cell is `p`. */
    function NumAt(p: int): int {
      base + if p >= head then p - head else p - head + Size()
    }

    /** The cell of number `n`. */
    function CellOf(n: int): int {
      if head + (n - base) < Size() then head + (n - base) else head + (n - base) - Size()
    }

    /** Link `q` leads from run `n` to the next run. */
    ghost predicate LinkOk(n: int, q: int) {
      if q == -1 then LastRun(runs, n) else 0 <= q < Size() && NextRun(runs, n, NumAt(q))
    }

    ghost predicate CellOk(p: int)
      requires 0 <= p < |d1| == |d2| == |next|
    {
      var n := NumAt(p);
      if n in runs then
        d1[p] == Num(n) && d2[p] == (if runs[n] == n then -1 else Num(runs[n])) && LinkOk(n, next[p])
      else
        d1[p] == -1 && d2[p] == -1
    }

    ghost predicate Bounded() {
      && |d1| == |d2| == |next| && 0 <= head < Size() <= THRESHOLD
      && base in runs
      && (forall n :: n in runs ==> base <= n <= runs[n] < base + Size())
    }

    ghost predicate Layout() {
      Bounded() && forall p :: 0 <= p < Size() ==> CellOk(p)
    }
  }

  lemma NumOfCell(l: Chain, p: int)
    requires 0 <= l.head < l.Size() && 0 <= p < l.Size()
    ensures l.base <= l.NumAt(p) < l.base + l.Size() && l.CellOf(l.NumAt(p)) == p
  {}

  /** Different cells are those of different numbers. */
  lemma CellsApart(l: Chain, p: int, q: int)
    requires 0 <= l.head < l.Size() && 0 <= p < l.Size() && 0 <= q < l.Size() && p != q
    ensures l.NumAt(p) != l.NumAt(q)
  {}

  /** Arrays with the same head stand for the same numbers. */
  lemma SameNums(l: Chain, l2: Chain)
    requires l2.head == l.head && l2.base == l.base && l2.Size() == l.Size()
    ensures forall p :: l2.NumAt(p) == l.NumAt(p)
  {}

  /** The head cell is the cell of the first run; all runs lie within one turn of it. */
  lemma HeadInside(l: Chain)
    requires l.Layout()
    ensures 0 <= l.head < l.Size() && l.base in l.runs && l.NumAt(l.head) == l.base
    ensures forall x :: x in l.runs ==> l.base <= x <= l.runs[x] < l.base + l.Size()
  {}

  // --- The changes the list operations make to cells ------------------------

  /** The cell contents for a run from `a` to `b`. */
  function Second(a: int, b: int): int {
    if b == a then -1 else Num(b)
  }

  /** A single run in otherwise empty arrays. */
  function First(l: Chain, a: int, b: int): Chain
    requires 0 < l.Size() == |l.d2| == |l.next|
  {
    Chain(l.d1[0 := Num(a)], l.d2[0 := Second(a, b)], l.next[0 := -1], 0, a, map[a := b])
  }

  /** A new run before the head. */
  function Before(l: Chain, a: int, b: int, loc: int): Chain
    requires 0 <= loc < l.Size() == |l.d2| == |l.next|
  {
    Chain(l.d1[loc := Num(a)], l.d2[loc := Second(a, b)], l.next[loc := l.head], loc, a, l.runs[a := b])
  }

  /** A new run after the run at cell `i`. */
  function After(l: Chain, a: int, b: int, loc: int, i: int): Chain
    requires 0 <= loc < l.Size() == |l.d2| == |l.next| && 0 <= i < l.Size()
  {
    l.(d1 := l.d1[loc := Num(a)], d2 := l.d2[loc := Second(a, b)],
       next := l.next[loc := l.next[i]][i := loc], runs := l.runs[a := b])
  }

  /** The run at cell `p` given another end. */
  function Resized(l: Chain, p: int, b: int): Chain
    requires 0 <= p < l.Size() == |l.d2|
  {
    l.(d2 := l.d2[p := Second(l.NumAt(p), b)], runs := l.runs[l.NumAt(p) := b])
  }

  /** The run after the one at cell `p`, at cell `q`, unlinked. */
  function Unlinked(l: Chain, p: int, q: int): Chain
    requires 0 <= p < l.Size() == |l.d2| == |l.next| && 0 <= q < l.Size()
  {
    l.(d1 := l.d1[q := -1], d2 := l.d2[q := -1], next := l.next[p := l.next[q]], runs := l.runs - {l.NumAt(q)})
  }

  /** The head run dropped, the next run becoming the head. */
  function Dropped(l: Chain): Chain
    requires 0 <= l.head < l.Size() == |l.d2| == |l.next|
  {
    Chain(l.d1[l.head := -1], l.d2[l.head := -1], l.next, l.next[l.head], l.NumAt(l.next[l.head]), l.runs - {l.base})
  }

  /** The first number taken off the head run, which moves to the next cell, `loc`. */
  function Shifted(l: Chain, loc: int): Chain
    requires 0 <= l.head < l.Size() == |l.d2| == |l.next| && 0 <= loc < l.Size() && l.base in l.runs
  {
    Chain(l.d1[loc := Num(l.base + 1)][l.head := -1], l.d2[loc := Second(l.base + 1, l.runs[l.base])][l.head := -1],
          l.next[loc := l.next[l.head]], loc, l.base + 1, (l.runs - {l.base})[l.base + 1 := l.runs[l.base]])
  }

  // --- Each change keeps the layout -----------------------------------------

  lemma FirstKeeps(l: Chain, a: int, b: int)
    requires |l.d1| == |l.d2| == |l.next| && 0 < l.Size() <= THRESHOLD
    requires forall p :: 0 <= p < l.Size() ==> l.d1[p] == -1 && l.d2[p] == -1
    requires a <= b < a + l.Size()
    ensures First(l, a, b).Layout()
  {
    hide Num;
  }

  lemma BeforeCell(l: Chain, a: int, b: int, loc: int, p: int)
    requires l.Layout() && a < l.base && a <= b < a + l.Size()
    requires forall n :: n in l.runs ==> l.runs[n] < a + l.Size()
    requires 0 <= loc < l.Size() && l.NumAt(loc) == a + l.Size() && 0 <= p < l.Size()
    ensures Before(l, a, b, loc).CellOk(p)
  {
    hide Num;
    assert l.CellOk(p);
  }

  lemma BeforeKeeps(l: Chain, a: int, b: int, loc: int)
    requires l.Layout() && a < l.base && a <= b < a + l.Size()
    requires forall n :: n in l.runs ==> l.runs[n] < a + l.Size()
    requires 0 <= loc < l.Size() && l.NumAt(loc) == a + l.Size()
    ensures Before(l, a, b, loc).Layout()
  {
    hide Num, Chain.CellOk, Second;
    forall p | 0 <= p < l.Size() ensures Before(l, a, b, loc).CellOk(p) {
      BeforeCell(l, a, b, loc, p);
    }
  }

  lemma AfterEnds(l: Chain, a: int, b: int, loc: int, i: int)
    requires l.Layout() && a <= b < l.base + l.Size()
    requires 0 <= loc < l.Size() && l.NumAt(loc) == a && a !in l.runs
    requires 0 <= i < l.Size() && l.NumAt(i) in l.runs && l.NumAt(i) < a
    requires l.next[i] == -1 || a < l.NumAt(l.next[i])
    ensures After(l, a, b, loc, i).CellOk(loc) && After(l, a, b, loc, i).CellOk(i)
  {
    hide Num;
    assert l.CellOk(i);
  }

  lemma AfterOther(l: Chain, a: int, b: int, loc: int, i: int, p: int)
    requires l.Layout() && a <= b < l.base + l.Size()
    requires 0 <= loc < l.Size() && l.NumAt(loc) == a && a !in l.runs
    requires 0 <= i < l.Size() && l.NumAt(i) in l.runs && l.NumAt(i) < a
    requires l.next[i] == -1 || a < l.NumAt(l.next[i])
    requires 0 <= p < l.Size() && p != i && p != loc
    ensures After(l, a, b, loc, i).CellOk(p)
  {
    hide Num, Second, Chain.NumAt, NextRun, LastRun;
    assert l.CellOk(i) && l.CellOk(p);
    SameNums(l, After(l, a, b, loc, i));
    CellsApart(l, p, loc);
    CellsApart(l, p, i);
    if l.NumAt(p) in l.runs {
      OtherLink(l.runs, l.NumAt(i), l.NumAt(l.next[i]), a, b, l.NumAt(p), l.NumAt(l.next[p]));
    }
  }

  /** A run that is not next to a new one keeps its successor. */
  lemma OtherLink(runs: Runs, n: int, x: int, a: int, b: int, k: int, m: int)
    requires n in runs && n < a && a !in runs && k in runs && k != n
    requires LastRun(runs, n) || (NextRun(runs, n, x) && a < x)
    ensures NextRun(runs, k, m) ==> NextRun(runs[a := b], k, m)
    ensures LastRun(runs, k) ==> LastRun(runs[a := b], k)
  {}

  lemma AfterKeeps(l: Chain, a: int, b: int, loc: int, i: int)
    requires l.Layout() && a <= b < l.base + l.Size()
    requires 0 <= loc < l.Size() && l.NumAt(loc) == a && a !in l.runs
    requires 0 <= i < l.Size() && l.NumAt(i) in l.runs && l.NumAt(i) < a
    requires l.next[i] == -1 || a < l.NumAt(l.next[i])
    ensures After(l, a, b, loc, i).Layout()
  {
    hide Num, Chain.CellOk, Second;
    forall p | 0 <= p < l.Size() ensures After(l, a, b, loc, i).CellOk(p) {
      AfterEnds(l, a, b, loc, i);
      if p != i && p != loc {
        AfterOther(l, a, b, loc, i, p);
      }
    }
  }

  lemma ResizedKeeps(l: Chain, p: int, b: int)
    requires l.Layout() && 0 <= p < l.Size() && l.NumAt(p) in l.runs
    requires l.NumAt(p) <= b < l.base + l.Size()
    ensures Resized(l, p, b).Layout()
  {
    hide Num;
    forall q | 0 <= q < l.Size() ensures Resized(l, p, b).CellOk(q) {
      assert l.CellOk(q);
    }
  }

  lemma LinkLeads(l: Chain, p: int)
    requires l.Layout() && 0 <= p < l.Size() && l.NumAt(p) in l.runs
    ensures l.LinkOk(l.NumAt(p), l.next[p]) && l.d1[p] == Num(l.NumAt(p)) &&
            l.d2[p] == Second(l.NumAt(p), l.runs[l.NumAt(p)])
    ensures l.next[p] != -1 ==> 0 <= l.next[p] < l.Size() && l.NumAt(l.next[p]) in l.runs && l.next[p] != p
  {
    hide Num;
    assert l.CellOk(p);
  }

  lemma UnlinkedCell(l: Chain, p: int, q: int, r: int)
    requires l.Layout() && 0 <= p < l.Size() && l.NumAt(p) in l.runs && q == l.next[p] != -1
    requires 0 <= q < l.Size() && l.NumAt(q) in l.runs && p != q
    requires 0 <= r < l.Size()
    ensures Unlinked(l, p, q).CellOk(r)
  {
    hide Num, Chain.NumAt, NextRun, LastRun;
    assert l.CellOk(p) && l.CellOk(q) && l.CellOk(r);
    SameNums(l, Unlinked(l, p, q));
    var n, b, k := l.NumAt(p), l.NumAt(q), l.NumAt(r);
    CellsApart(l, p, q);
    if r == p {
      NextSkip(l.runs, n, b, l.NumAt(l.next[q]));
    } else if r != q {
      CellsApart(l, r, q);
      CellsApart(l, r, p);
      NextDrop(l.runs, k, l.NumAt(l.next[r]), b);
      if k in l.runs && NextRun(l.runs, k, b) {
        NextUnique(l.runs, n, k, b);
      }
    }
  }

  lemma UnlinkedKeeps(l: Chain, p: int, q: int)
    requires l.Layout() && 0 <= p < l.Size() && l.NumAt(p) in l.runs && q == l.next[p] != -1
    ensures 0 <= q < l.Size() && Unlinked(l, p, q).Layout()
  {
    hide Num, Chain.CellOk, Second;
    LinkLeads(l, p);
    forall r | 0 <= r < l.Size() ensures Unlinked(l, p, q).CellOk(r) {
      UnlinkedCell(l, p, q, r);
    }
  }

  lemma DroppedKeeps(l: Chain)
    requires l.Layout() && l.next[l.head] != -1
    ensures Dropped(l).Layout()
  {
    hide Num;
    var h := l.head;
    assert l.CellOk(h);
    forall p | 0 <= p < l.Size() ensures Dropped(l).CellOk(p) {
      assert l.CellOk(p);
    }
  }

  /** Dropping the only run leaves the arrays empty. */
  lemma LastDropped(l: Chain)
    requires l.Layout() && l.next[l.head] == -1
    ensures l.runs == map[l.base := l.runs[l.base]]
    ensures forall p :: 0 <= p < l.Size() && p != l.head ==> l.d1[p] == -1 && l.d2[p] == -1
  {
    hide Num;
    assert l.CellOk(l.head);
    assert forall m :: m in l.runs ==> m == l.base;
    forall p | 0 <= p < l.Size() && p != l.head ensures l.d1[p] == -1 && l.d2[p] == -1 {
      assert l.CellOk(p);
    }
  }

  lemma ShiftedCell(l: Chain, loc: int, p: int)
    requires l.Layout() && l.runs[l.base] > l.base && l.base + 1 !in l.runs
    requires 0 <= loc < l.Size() && l.NumAt(loc) == l.base + 1
    requires 0 <= p < l.Size()
    ensures Shifted(l, loc).CellOk(p)
  {
    hide Num, Chain.NumAt, NextRun, LastRun;
    assert l.CellOk(l.head) && l.CellOk(p);
    ShiftedNum(l, loc, p);
    ShiftedNum(l, loc, l.next[l.head]);
    ShiftedNum(l, loc, l.next[p]);
    BaseNext(l.runs, l.base, l.NumAt(l.next[l.head]));
    if p == loc {
      MovedNext(l.runs, l.base, l.base, l.NumAt(l.next[l.head]));
    } else if p != l.head && l.NumAt(p) in l.runs {
      BaseNext(l.runs, l.NumAt(p), l.NumAt(l.next[p]));
      MovedNext(l.runs, l.base, l.NumAt(p), l.NumAt(l.next[p]));
    }
  }

  lemma BaseNext(runs: Runs, n: int, m: int)
    ensures NextRun(runs, n, m) ==> n < m && m in runs
  {}

  /** With the head moved on by one, cells stand for the same numbers, but for the old head. */
  lemma ShiftedNum(l: Chain, loc: int, p: int)
    requires 0 <= l.head < l.Size() == |l.d2| == |l.next| && 0 <= loc < l.Size() && l.base in l.runs
    requires l.NumAt(loc) == l.base + 1
    ensures l.NumAt(l.head) == l.base && (p == l.head ==> Shifted(l, loc).NumAt(p) == l.base + l.Size())
    ensures 0 <= p < l.Size() && p != l.head ==> Shifted(l, loc).NumAt(p) == l.NumAt(p) > l.base
    ensures 0 <= p < l.Size() && p != l.head && p != loc ==> l.NumAt(p) > l.base + 1
  {
    hide Num, Second;
  }

  /** The first run begins one number later. */
  lemma MovedNext(runs: Runs, base: int, n: int, m: int)
    requires base in runs && base + 1 !in runs && (n == base || n > base + 1) && forall x :: x in runs ==> base <= x
    ensures var moved := (runs - {base})[base + 1 := runs[base]];
            var k := if n == base then n + 1 else n;
            (NextRun(runs, n, m) ==> NextRun(moved, k, m)) && (LastRun(runs, n) ==> LastRun(moved, k))
  {}

  lemma ShiftedKeeps(l: Chain, loc: int)
    requires l.Layout() && l.runs[l.base] > l.base && l.base + 1 !in l.runs
    requires 0 <= loc < l.Size() && l.NumAt(loc) == l.base + 1
    ensures Shifted(l, loc).Layout()
  {
    hide Num, Chain.CellOk, Second;
    forall p | 0 <= p < l.Size() ensures Shifted(l, loc).CellOk(p) {
      ShiftedCell(l, loc, p);
    }
  }
}
