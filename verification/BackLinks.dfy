/** Backward links of a chain of cells, as the receiver's loss list keeps them. */
module BackLinks {
  import opened SequenceNumbers
  import opened LossCells
  import opened LossRuns

  /** A chain with the cell before each run but the first, and the last run's cell. */
  datatype Double = Double(c: Chain, prior: seq<int>, tail: int) {

    ghost predicate BackOk(p: int)
      requires 0 <= p < |prior|
    {
      c.NumAt(p) in c.runs && c.NumAt(p) > c.base ==>
        && 0 <= prior[p] < c.Size()
        && c.NumAt(prior[p]) in c.runs && NextRun(c.runs, c.NumAt(prior[p]), c.NumAt(p))
    }

    ghost predicate TailOk() {
      0 <= tail < c.Size() && c.NumAt(tail) in c.runs && LastRun(c.runs, c.NumAt(tail))
    }

    ghost predicate Linked() {
      && c.Layout() && |prior| == c.Size() && TailOk()
      && (forall p :: 0 <= p < |prior| ==> BackOk(p))
    }
  }

  /** The cell before a run links forward to it. */
  lemma PriorLinks(d: Double, p: int)
    requires d.Linked() && 0 <= p < d.c.Size() && d.c.NumAt(p) in d.c.runs && d.c.NumAt(p) > d.c.base
    ensures 0 <= d.prior[p] < d.c.Size() && d.c.NumAt(d.prior[p]) in d.c.runs && d.c.next[d.prior[p]] == p != d.prior[p]
    ensures d.c.NumAt(d.prior[p]) < d.c.NumAt(p) && NextRun(d.c.runs, d.c.NumAt(d.prior[p]), d.c.NumAt(p))
  {
    hide Num, Chain.CellOk;
    assert d.BackOk(p);
    var q := d.prior[p];
    LinkLeads(d.c, q);
    NumOfCell(d.c, p);
    if d.c.next[q] != -1 {
      NumOfCell(d.c, d.c.next[q]);
    }
  }

  /** A run is the last one exactly when it links to nothing. */
  lemma TailLinks(d: Double, p: int)
    requires d.Linked() && 0 <= p < d.c.Size() && d.c.NumAt(p) in d.c.runs
    ensures d.c.next[p] == -1 <==> p == d.tail
  {
    hide Num, Chain.CellOk;
    LinkLeads(d.c, p);
    NumOfCell(d.c, p);
    NumOfCell(d.c, d.tail);
  }

  lemma FirstLinked(c: Chain, prior: seq<int>)
    requires c.Layout() && |prior| == c.Size() && c.runs.Keys == {c.base}
    ensures Double(c, prior, c.head).Linked()
  {
    hide Num, Chain.CellOk;
  }

  /** Resizing runs changes no link. */
  lemma ResizedLinked(d: Double, p: int, b: int)
    requires d.Linked() && 0 <= p < d.c.Size() && d.c.NumAt(p) in d.c.runs
    requires d.c.NumAt(p) <= b < d.c.base + d.c.Size()
    ensures d.(c := Resized(d.c, p, b)).Linked()
  {
    hide Num, Chain.CellOk, Chain.NumAt, NextRun, LastRun, Second;
    ResizedKeeps(d.c, p, b);
    SameNums(d.c, Resized(d.c, p, b));
    NextSame(d.c.runs, d.c.NumAt(d.tail), 0, d.c.NumAt(p), b);
    forall q | 0 <= q < |d.prior| ensures d.(c := Resized(d.c, p, b)).BackOk(q) {
      assert d.BackOk(q);
      NextSame(d.c.runs, d.c.NumAt(d.prior[q]), d.c.NumAt(q), d.c.NumAt(p), b);
    }
  }

  /** The backward links after a run at `loc` is put behind the one at `i`. */
  function BackAfter(d: Double, loc: int, i: int): seq<int>
    requires 0 <= loc < |d.prior| && 0 <= i < |d.c.next| && -1 <= d.c.next[i] < |d.prior|
  {
    var q := d.c.next[i];
    if q == -1 then d.prior[loc := i] else d.prior[loc := i][q := loc]
  }

  function AfterDouble(d: Double, a: int, b: int, loc: int, i: int): Double
    requires 0 <= loc < |d.prior| == d.c.Size() == |d.c.d2| == |d.c.next| && 0 <= i < |d.c.next| &&
             -1 <= d.c.next[i] < |d.prior|
  {
    Double(After(d.c, a, b, loc, i), BackAfter(d, loc, i), if d.c.next[i] == -1 then loc else d.tail)
  }

  /** A backward link not next to the place of `a` stays right when `a` is added. */
  lemma BackKept(d: Double, a: int, i: int, p: int)
    requires d.c.Bounded() && |d.prior| == d.c.Size() && 0 <= i < d.c.Size() && d.c.NumAt(i) in d.c.runs &&
             d.c.NumAt(i) < a
    requires -1 <= d.c.next[i] < d.c.Size() && d.c.LinkOk(d.c.NumAt(i), d.c.next[i])
    requires d.c.next[i] == -1 || a < d.c.NumAt(d.c.next[i])
    requires 0 <= p < d.c.Size() && p != d.c.next[i] && d.BackOk(p)
    requires d.c.NumAt(p) in d.c.runs && d.c.NumAt(p) > d.c.base && a !in d.c.runs
    ensures a <= d.c.NumAt(d.prior[p]) || d.c.NumAt(p) <= a
  {
    hide Num;
    var q := d.c.next[i];
    if d.c.NumAt(p) > a {
      assert q != -1;
      NumOfCell(d.c, p);
      NumOfCell(d.c, q);
      assert d.c.NumAt(p) > d.c.NumAt(q);
    }
  }

  lemma AfterBackNew(d: Double, a: int, b: int, loc: int, i: int)
    requires d.c.Bounded() && |d.prior| == d.c.Size() && 0 <= i < d.c.Size() && d.c.NumAt(i) in d.c.runs &&
             d.c.NumAt(i) < a
    requires -1 <= d.c.next[i] < d.c.Size() && d.c.LinkOk(d.c.NumAt(i), d.c.next[i])
    requires 0 <= loc < d.c.Size() && d.c.NumAt(loc) == a && a !in d.c.runs
    requires d.c.next[i] == -1 || a < d.c.NumAt(d.c.next[i])
    ensures AfterDouble(d, a, b, loc, i).BackOk(loc)
  {
    hide Num, Second;
  }

  lemma AfterBackNext(d: Double, a: int, b: int, loc: int, i: int)
    requires d.c.Bounded() && |d.prior| == d.c.Size() && 0 <= i < d.c.Size() && d.c.NumAt(i) in d.c.runs &&
             d.c.NumAt(i) < a
    requires -1 <= d.c.next[i] < d.c.Size() && d.c.LinkOk(d.c.NumAt(i), d.c.next[i])
    requires 0 <= loc < d.c.Size() && d.c.NumAt(loc) == a && a !in d.c.runs
    requires d.c.next[i] == -1 || a < d.c.NumAt(d.c.next[i])
    requires d.c.next[i] != -1
    ensures AfterDouble(d, a, b, loc, i).BackOk(d.c.next[i])
  {
    hide Num, Second;
  }

  lemma AfterBackOther(d: Double, a: int, b: int, loc: int, i: int, p: int)
    requires d.c.Bounded() && |d.prior| == d.c.Size() && 0 <= i < d.c.Size() && d.c.NumAt(i) in d.c.runs &&
             d.c.NumAt(i) < a
    requires -1 <= d.c.next[i] < d.c.Size() && d.c.LinkOk(d.c.NumAt(i), d.c.next[i])
    requires 0 <= loc < d.c.Size() && d.c.NumAt(loc) == a && a !in d.c.runs
    requires d.c.next[i] == -1 || a < d.c.NumAt(d.c.next[i])
    requires 0 <= p < d.c.Size() && d.BackOk(p) && p != loc && p != d.c.next[i]
    ensures AfterDouble(d, a, b, loc, i).BackOk(p)
  {
    hide Num, Second, Chain.LinkOk, Chain.NumAt, NextRun;
    SameNums(d.c, After(d.c, a, b, loc, i));
    CellsApart(d.c, p, loc);
    if d.c.NumAt(p) in d.c.runs && d.c.NumAt(p) > d.c.base {
      BackKept(d, a, i, p);
      NextAdd(d.c.runs, d.c.NumAt(d.prior[p]), d.c.NumAt(p), a, b);
    }
  }

  lemma AfterLinked(d: Double, a: int, b: int, loc: int, i: int)
    requires d.Linked() && a <= b < d.c.base + d.c.Size()
    requires 0 <= loc < d.c.Size() && d.c.NumAt(loc) == a && a !in d.c.runs
    requires 0 <= i < d.c.Size() && d.c.NumAt(i) in d.c.runs && d.c.NumAt(i) < a
    requires d.c.next[i] == -1 || a < d.c.NumAt(d.c.next[i])
    ensures -1 <= d.c.next[i] < d.c.Size() && AfterDouble(d, a, b, loc, i).Linked()
  {
    hide Num, Chain.CellOk, Double.BackOk;
    AfterKeeps(d.c, a, b, loc, i);
    LinkLeads(d.c, i);
    forall p | 0 <= p < |d.prior| ensures AfterDouble(d, a, b, loc, i).BackOk(p) {
      assert d.BackOk(p);
      if p == loc {
        AfterBackNew(d, a, b, loc, i);
      } else if p == d.c.next[i] {
        AfterBackNext(d, a, b, loc, i);
      } else {
        AfterBackOther(d, a, b, loc, i, p);
      }
    }
    hide Chain.Layout, Second;
    assert AfterDouble(d, a, b, loc, i).TailOk();
  }

  /** The run at `q` unlinked from behind the one at `prior[q]`. */
  function UnlinkedDouble(d: Double, q: int): Double
    requires 0 <= q < |d.prior| == d.c.Size() == |d.c.d2| == |d.c.next|
    requires 0 <= d.prior[q] < d.c.Size() && -1 <= d.c.next[q] < |d.prior|
  {
    var p, r := d.prior[q], d.c.next[q];
    Double(Unlinked(d.c, p, q), if r == -1 then d.prior else d.prior[r := p], if r == -1 then p else d.tail)
  }

  lemma UnlinkedBack(d: Double, q: int, p: int)
    requires d.Linked() && 0 <= q < d.c.Size() && d.c.NumAt(q) in d.c.runs && d.c.NumAt(q) > d.c.base
    requires -1 <= d.c.next[q] < d.c.Size() && d.c.LinkOk(d.c.NumAt(q), d.c.next[q])
    requires 0 <= p < d.c.Size() && 0 <= d.prior[q] < d.c.Size()
    ensures UnlinkedDouble(d, q).BackOk(p)
  {
    hide Num, Chain.CellOk, Chain.NumAt, NextRun, LastRun;
    assert d.BackOk(p) && d.BackOk(q);
    var n, b, k := d.c.NumAt(d.prior[q]), d.c.NumAt(q), d.c.NumAt(p);
    SameNums(d.c, Unlinked(d.c, d.prior[q], q));
    BaseNext(d.c.runs, n, b);
    if p != q {
      CellsApart(d.c, p, q);
    }
    if p != q && k in d.c.runs && k > d.c.base {
      if p == d.c.next[q] {
        NextSkip(d.c.runs, n, b, k);
      } else {
        BackElse(d, q, p);
      }
    }
  }

  /** A run not behind the one unlinked keeps its backward link. */
  lemma BackElse(d: Double, q: int, p: int)
    requires d.c.Bounded() && |d.prior| == d.c.Size() && 0 <= q < d.c.Size() && 0 <= p < d.c.Size() && p != q
    requires d.c.NumAt(q) in d.c.runs && -1 <= d.c.next[q] < d.c.Size() && d.c.LinkOk(d.c.NumAt(q), d.c.next[q])
    requires d.c.NumAt(p) in d.c.runs && d.c.NumAt(p) > d.c.base && d.BackOk(p) && p != d.c.next[q]
    ensures d.prior[p] != q && d.c.NumAt(d.prior[p]) != d.c.NumAt(q)
    ensures NextRun(d.c.runs - {d.c.NumAt(q)}, d.c.NumAt(d.prior[p]), d.c.NumAt(p))
  {
    hide Num, Chain.NumAt, NextRun, LastRun;
    var b, k := d.c.NumAt(q), d.c.NumAt(p);
    NextOne(d.c.runs, d.c.NumAt(d.prior[p]), k, d.c.NumAt(d.c.next[q]));
    if d.c.next[q] != -1 {
      CellsApart(d.c, p, d.c.next[q]);
    }
    CellsApart(d.c, p, q);
    if d.prior[p] != q {
      CellsApart(d.c, d.prior[p], q);
    }
    NextDrop(d.c.runs, d.c.NumAt(d.prior[p]), k, b);
  }

  lemma UnlinkedLinked(d: Double, q: int)
    requires d.Linked() && 0 <= q < d.c.Size() && d.c.NumAt(q) in d.c.runs && d.c.NumAt(q) > d.c.base
    ensures -1 <= d.c.next[q] < d.c.Size() && 0 <= d.prior[q] < d.c.Size() && UnlinkedDouble(d, q).Linked()
  {
    hide Num, Chain.CellOk, Chain.NumAt, Double.BackOk, NextRun, LastRun;
    PriorLinks(d, q);
    LinkLeads(d.c, q);
    UnlinkedKeeps(d.c, d.prior[q], q);
    forall p | 0 <= p < |d.prior| ensures UnlinkedDouble(d, q).BackOk(p) {
      UnlinkedBack(d, q, p);
    }
    UnlinkedTail(d, q);
  }

  lemma UnlinkedTail(d: Double, q: int)
    requires d.c.Bounded() && |d.prior| == d.c.Size() && d.TailOk()
    requires 0 <= q < d.c.Size() && d.c.NumAt(q) in d.c.runs
    requires -1 <= d.c.next[q] < d.c.Size() && d.c.LinkOk(d.c.NumAt(q), d.c.next[q])
    requires 0 <= d.prior[q] < d.c.Size() && d.c.NumAt(d.prior[q]) in d.c.runs
    requires NextRun(d.c.runs, d.c.NumAt(d.prior[q]), d.c.NumAt(q))
    ensures UnlinkedDouble(d, q).TailOk()
  {
    hide Num, Chain.NumAt, NextRun, LastRun;
    var n, b, t := d.c.NumAt(d.prior[q]), d.c.NumAt(q), d.c.NumAt(d.tail);
    SameNums(d.c, Unlinked(d.c, d.prior[q], q));
    BaseNext(d.c.runs, n, b);
    NextSkip(d.c.runs, n, b, t);
    NextDrop(d.c.runs, t, 0, b);
    if d.tail == q {
      NextNotLast(d.c.runs, b, d.c.NumAt(d.c.next[q]));
    } else {
      CellsApart(d.c, d.tail, q);
    }
  }

  lemma NextNotLast(runs: Runs, n: int, m: int)
    requires LastRun(runs, n)
    ensures !NextRun(runs, n, m)
  {}

  lemma DroppedBack(d: Double, p: int, prior: seq<int>)
    requires d.Linked() && 0 <= p < d.c.Size()
    requires 0 <= d.c.next[d.c.head] < d.c.Size() && d.c.LinkOk(d.c.base, d.c.next[d.c.head]) &&
             d.c.NumAt(d.c.next[d.c.head]) > d.c.base
    requires prior == d.prior || prior == d.prior[d.c.next[d.c.head] := -1]
    ensures Double(Dropped(d.c), prior, d.tail).BackOk(p)
  {
    hide Num, Chain.CellOk;
    assert d.BackOk(p);
    NumOfCell(d.c, p);
    NumOfCell(d.c, d.c.next[d.c.head]);
    hide Chain.Layout;
  }

  /** The head run dropped: the others keep their backward links. */
  lemma DroppedLinked(d: Double, prior: seq<int>)
    requires d.Linked() && 0 <= d.c.next[d.c.head] < d.c.Size()
    requires prior == d.prior || prior == d.prior[d.c.next[d.c.head] := -1]
    ensures Double(Dropped(d.c), prior, d.tail).Linked()
  {
    hide Num, Chain.CellOk;
    DroppedKeeps(d.c);
    LinkLeads(d.c, d.c.head);
    var d2 := Double(Dropped(d.c), prior, d.tail);
    NumOfCell(d.c, d.tail);
    NumOfCell(d.c, d.c.next[d.c.head]);
    forall p | 0 <= p < |prior| ensures d2.BackOk(p) {
      DroppedBack(d, p, prior);
    }
  }

  /** The head run, its first number gone, moved to cell `loc`. */
  function ShiftedDouble(d: Double, loc: int): Double
    requires 0 <= d.c.head < |d.prior| == d.c.Size() == |d.c.d2| == |d.c.next| && 0 <= loc < d.c.Size() &&
             d.c.base in d.c.runs
    requires -1 <= d.c.next[d.c.head] < |d.prior|
  {
    var r := d.c.next[d.c.head];
    var moved := d.prior[loc := d.prior[d.c.head]];
    Double(Shifted(d.c, loc), if d.tail == d.c.head || r == -1 then moved else moved[r := loc],
        if d.tail == d.c.head then loc else d.tail)
  }

  lemma ShiftedBack(d: Double, loc: int, p: int)
    requires d.Linked() && d.c.runs[d.c.base] > d.c.base && d.c.base + 1 !in d.c.runs
    requires 0 <= loc < d.c.Size() && d.c.NumAt(loc) == d.c.base + 1 && 0 <= p < d.c.Size()
    requires -1 <= d.c.next[d.c.head] < d.c.Size() && d.c.LinkOk(d.c.base, d.c.next[d.c.head])
    requires d.tail == d.c.head <==> d.c.next[d.c.head] == -1
    ensures ShiftedDouble(d, loc).BackOk(p)
  {
    hide Num, Chain.CellOk, Chain.NumAt, NextRun, LastRun;
    assert d.BackOk(p);
    var h := d.c.head;
    ShiftedNum(d.c, loc, p);
    ShiftedNum(d.c, loc, loc);
    ShiftedNum(d.c, loc, d.prior[p]);
    if p != h && p != loc && d.c.NumAt(p) in d.c.runs {
      if d.c.next[h] == p {
        MovedNext(d.c.runs, d.c.base, d.c.base, d.c.NumAt(p));
      } else {
        BackElse(d, h, p);
        MovedNext(d.c.runs, d.c.base, d.c.NumAt(d.prior[p]), d.c.NumAt(p));
      }
    }
  }

  lemma ShiftedLinked(d: Double, loc: int)
    requires d.Linked() && d.c.runs[d.c.base] > d.c.base && d.c.base + 1 !in d.c.runs
    requires 0 <= loc < d.c.Size() && d.c.NumAt(loc) == d.c.base + 1
    ensures -1 <= d.c.next[d.c.head] < d.c.Size() && ShiftedDouble(d, loc).Linked()
  {
    hide Num, Chain.CellOk, Double.BackOk;
    LinkLeads(d.c, d.c.head);
    TailLinks(d, d.c.head);
    ShiftedKeeps(d.c, loc);
    NumOfCell(d.c, d.tail);
    forall p | 0 <= p < |d.prior| ensures ShiftedDouble(d, loc).BackOk(p) {
      ShiftedBack(d, loc, p);
    }
    hide Chain.Layout, Second;
    assert ShiftedDouble(d, loc).TailOk();
  }
}
