/** The receiver's loss list: runs of lost numbers in circular arrays, linked both ways. */
module RcvLossLists {
  import opened Bytes
  import opened Numbers
  import opened SequenceNumbers
  import opened LossRuns
  import opened LossCells
  import opened BackLinks
  import opened Modular
  import opened SendSide
  import opened LossReports

  class RcvLossList {
    const size: int
    const data1: array<int>
    const data2: array<int>
    const next: array<int>
    const prior: array<int>
    var head: int
    var tail: int
    var length: int
    ghost var base: int
    ghost var runs: Runs

    ghost predicate Separate() {
      && data1 != data2 && data1 != next && data2 != next && prior != data1 && prior != data2 && prior != next
      && data1.Length == data2.Length == next.Length == prior.Length == size
      && 0 < size <= THRESHOLD
    }

    ghost function List(): Double
      reads this, data1, data2, next, prior
    {
      Double(Chain(data1[..], data2[..], next[..], head, base, runs), prior[..], tail)
    }

    ghost predicate Blank()
      reads this, data1, data2
    {
      && runs == map[] && head == -1 && length == 0
      && (forall p :: 0 <= p < data1.Length ==> data1[p] == -1)
      && (forall p :: 0 <= p < data2.Length ==> data2[p] == -1)
    }

    ghost predicate Valid()
      reads this, data1, data2, next, prior
    {
      Separate() &&
      if runs == map[] then Blank()
      else List().Linked() && Ordered(runs) && length == |Elems(runs)|
    }

    /** The lost numbers. */
    ghost function Lost(): set<int>
      reads this
    {
      Elems(runs)
    }

    constructor (size: int)
      requires 0 < size <= THRESHOLD
      ensures Valid() && Lost() == {} && this.size == size
      ensures fresh(data1) && fresh(data2) && fresh(next) && fresh(prior)
    {
      this.size := size;
      data1, data2, next, prior := new int[size], new int[size], new int[size], new int[size];
      head, tail, length := -1, -1, 0;
      base, runs := 0, map[];
      new;
      for i := 0 to size
        modifies data1, data2
        invariant forall p :: 0 <= p < i ==> data1[p] == -1
        invariant forall p :: 0 <= p < i ==> data2[p] == -1
      {
        data1[i] := -1;
        data2[i] := -1;
      }
    }

    lemma NoneLost()
      requires Valid()
      ensures length == |Lost()| && (length == 0 <==> runs == map[])
    {
      ElemsEmpty();
      if runs != map[] {
        LeastElem(runs, base);
      }
    }

    method GetLossLength() returns (n: int)
      requires Valid()
      ensures n == |Lost()|
    {
      NoneLost();
      n := length;
    }

    /** The least lost number, or -1. */
    method GetFirstLostSeq() returns (seqno: int)
      requires Valid()
      ensures Lost() == {} ==> seqno == -1
      ensures Lost() != {} ==> seqno == Num(Least(Lost()))
    {
      hide Num, Elems, Chain.CellOk, Double.BackOk, Least;
      NoneLost();
      ElemsEmpty();
      if length == 0 {
        return -1;
      }
      LeastElem(runs, base);
      LinkLeads(List().c, head);
      seqno := data1[head];
    }

    lemma RunsAreLost()
      requires Valid()
      ensures forall x :: x in runs ==> x in Lost() && runs[x] in Lost()
    {
      hide Elems;
      forall x | x in runs ensures x in Lost() && runs[x] in Lost() {
        RunInside(runs, x, x);
        RunInside(runs, x, runs[x]);
      }
    }

    // --- Insertion ----------------------------------------------------------

    /** `insert` into an empty list. */
    method InsertFirst(seqno1: SeqNum, seqno2: SeqNum, ghost a: int, ghost b: int)
      requires Separate() && Blank() && seqno1 == Num(a) && seqno2 == Num(b) && a <= b < a + size
      modifies this, data1, data2, next, prior
      ensures Valid() && Lost() == Interval(a, b)
    {
      hide SeqCmp, SeqLen, SeqOff, IncSeq, DecSeq, Chain.NumAt, Num, Chain.CellOk, Interval, Elems, Double.BackOk;
      ghost var l := List().c;
      FirstKeeps(l, a, b);
      EqAgrees(a, b);
      LenAgrees(a, b);
      head := 0;
      tail := 0;
      data1[head] := seqno1;
      if seqno2 != seqno1 {
        data2[head] := seqno2;
      }
      next[head] := -1;
      prior[head] := -1;
      length := length + SeqLen(seqno1, seqno2);
      base, runs := a, map[a := b];
      assert List().c == First(l, a, b);
      FirstLinked(List().c, prior[..]);
      ElemsEmpty();
      assert map[][a := b] == runs;
      ElemsJoin(map[], a, b);
    }

    /** The writes that link a new last run at cell `loc`. */
    method LinkLast(loc: int, seqno1: int, seqno2: int)
      requires Separate() && 0 <= loc < size && 0 <= tail < size && loc != tail
      modifies this`tail, data1, data2, next, prior
      ensures data1[..] == old(data1[..])[loc := seqno1] && tail == loc
      ensures data2[..] == old(if seqno2 != seqno1 then data2[..][loc := seqno2] else data2[..])
      ensures next[..] == old(next[..])[loc := -1][old(tail) := loc] && prior[..] == old(prior[..])[loc := old(tail)]
    {
      data1[loc] := seqno1;
      if seqno2 != seqno1 {
        data2[loc] := seqno2;
      }
      next[tail] := loc;
      prior[loc] := tail;
      next[loc] := -1;
      tail := loc;
    }

    /** The cells of a run written after the last. */
    method AppendTo(seqno1: SeqNum, seqno2: SeqNum, loc: int, ghost a: int, ghost b: int)
      requires Separate() && 0 <= loc < size && 0 <= tail < size && loc != tail && seqno1 == Num(a) && seqno2 == Num(b)
      modifies this`tail, this`runs, data1, data2, next, prior
      ensures List() == Appended(old(List()), a, b, loc)
    {
      hide Num;
      LinkLast(loc, seqno1, seqno2);
      runs := runs[a := b];
    }

    /** A run written after the last. */
    method Append(seqno1: SeqNum, seqno2: SeqNum, loc: int, ghost a: int, ghost b: int)
      requires Valid() && runs != map[] && seqno1 == Num(a) && seqno2 == Num(b) && base <= a <= b < base + size
      requires 0 <= loc < size && List().c.NumAt(loc) == a && forall x :: x in runs ==> x < a && runs[x] < a
      modifies this`length, this`tail, this`runs, data1, data2, next, prior
      ensures Valid() && Lost() == old(Lost()) + Interval(a, b)
    {
      hide SeqLen, Num, Chain.NumAt, Interval, Elems, Ordered, Double.Linked, AfterDouble;
      ghost var l := List();
      AppendFacts(l, a, b, loc);
      ElemsJoin(runs, a, b);
      AppendTo(seqno1, seqno2, loc, a, b);
      length := length + SeqLen(seqno1, seqno2);
      assert a in runs;
    }

    /** The last run, which ends right before `a`, extended to `b`. */
    method ExtendLast(seqno1: SeqNum, seqno2: SeqNum, ghost a: int, ghost b: int)
      requires Valid() && runs != map[] && seqno1 == Num(a) && seqno2 == Num(b) && base <= a <= b < base + size
      requires List().TailOk() && runs[List().c.NumAt(tail)] + 1 == a > List().c.NumAt(tail) + 1
      modifies this`length, this`runs, data2
      ensures Valid() && Lost() == old(Lost()) + Interval(a, b)
    {
      hide Num, Chain.CellOk, Chain.LinkOk, Interval, Elems, Ordered, Double.BackOk, Chain.Layout;
      ghost var l, t := List(), List().c.NumAt(tail);
      LenAgrees(a, b);
      ExtendPending(runs, t, b);
      CoverJoin(runs, t, a, b);
      MergeDone(runs[t := b], t, length + b - runs[t]);
      HeadInside(l.c);
      ResizedLinked(l, tail, b);
      data2[tail] := seqno2;
      length := length + SeqLen(seqno1, seqno2);
      runs := runs[t := b];
      assert List() == l.(c := Resized(l.c, tail, b));
    }

    /** The numbers from `a` to `b`, all after those lost so far, become lost. */
    method Insert(seqno1: SeqNum, seqno2: SeqNum, ghost a: int, ghost b: int)
      requires Valid() && seqno1 == Num(a) && seqno2 == Num(b) && a <= b < a + size
      requires forall x :: x in Lost() ==> x < a && b < x + size
      modifies this, data1, data2, next, prior
      ensures Valid() && Lost() == old(Lost()) + Interval(a, b)
    {
      hide Num, Chain.CellOk, Chain.LinkOk, Interval, Elems, Ordered, Double.BackOk, Ahead;
      NoneLost();
      if length == 0 {
        ElemsEmpty();
        InsertFirst(seqno1, seqno2, a, b);
        return;
      }
      RunsAreLost();
      ghost var l, t := List(), List().c.NumAt(tail);
      HeadInside(l.c);
      LinkLeads(l.c, head);
      LinkLeads(l.c, tail);
      OffAgrees(base, a);
      IncAgrees(runs[t], Num(runs[t]));
      EqAgrees(runs[t] + 1, a);
      var offset := SeqOff(data1[head], seqno1);
      var loc := Ahead(head, offset, size);
      if data2[tail] != -1 && IncSeq(data2[tail]) == seqno1 {
        ExtendLast(seqno1, seqno2, a, b);
      } else {
        Append(seqno1, seqno2, loc, a, b);
      }
    }

    // --- Removal ------------------------------------------------------------

    /** The run of one number at the head is unlinked. */
    method UnlinkHead()
      requires Valid() && runs != map[] && runs[base] == base
      modifies this, data1, prior
      ensures Valid() && Lost() == old(Lost()) - {old(base)}
    {
      hide SeqCmp, SeqLen, SeqOff, IncSeq, DecSeq, Chain.NumAt, Num, Chain.CellOk, Chain.LinkOk, Double.BackOk, Elems,
           Ordered;
      ghost var l, loc := List(), head;
      HeadInside(l.c);
      LinkLeads(l.c, head);
      DropSingle(runs, base);
      ElemsEmpty();
      if next[head] == -1 {
        LastDropped(l.c);
      } else {
        DroppedLinked(l, l.prior[l.c.next[l.c.head] := -1]);
      }
      var h := head;
      head := next[head];
      if head != -1 {
        prior[head] := -1;
      }
      data1[h] := -1;
      length := length - 1;
      base, runs := l.c.NumAt(l.c.next[l.c.head]), runs - {base};
      if head != -1 {
        assert List() == Double(Dropped(l.c), l.prior[l.c.next[l.c.head] := -1], l.tail);
      }
    }

    /** The run of one number at cell `loc`, not the head, is unlinked. */
    method UnlinkMiddle(loc: int, ghost n: int)
      requires Valid() && runs != map[] && 0 <= loc < size && List().c.NumAt(loc) == n && n in runs && n > base &&
               runs[n] == n
      modifies this`tail, this`length, this`runs, data1, next, prior
      ensures Valid() && Lost() == old(Lost()) - {n}
    {
      hide SeqCmp, SeqLen, SeqOff, IncSeq, DecSeq, Chain.NumAt, Num, Chain.CellOk, Chain.LinkOk, Double.BackOk,
           Chain.Layout, Elems, Ordered;
      ghost var l := List();
      LinkLeads(l.c, loc);
      DropSingle(runs, n);
      UnlinkedLinked(l, loc);
      next[prior[loc]] := next[loc];
      if next[loc] != -1 {
        prior[next[loc]] := prior[loc];
      } else {
        tail := prior[loc];
      }
      data1[loc] := -1;
      length := length - 1;
      runs := runs - {n};
      assert List() == UnlinkedDouble(l, loc);
    }

    /** The writes that move a run from cell `loc` to cell `i`, to start at `start`. */
    method MoveCell(loc: int, i: int, start: int, longer: bool)
      requires Separate() && 0 <= loc < size && 0 <= i < size && loc != i
      modifies data1, data2, next, prior
      ensures data1[..] == old(data1[..])[i := start][loc := -1]
      ensures data2[..] == old(if longer then data2[..][i := data2[loc]][loc := -1] else data2[..][loc := -1])
      ensures next[..] == old(next[..])[i := old(next[loc])] && prior[..] == old(prior[..])[i := old(prior[loc])]
    {
      data1[i] := start;
      if longer {
        data2[i] := data2[loc];
      }
      data1[loc] := -1;
      data2[loc] := -1;
      next[i] := next[loc];
      prior[i] := prior[loc];
    }

    /** The backward link to the run moved from cell `loc` to cell `i`. */
    method RelinkNext(loc: int, i: int)
      requires Separate() && 0 <= i < size && -1 <= next[i] < size && (next[i] == -1 <==> tail == loc)
      modifies this`tail, prior
      ensures tail == if old(tail) == loc then i else old(tail)
      ensures prior[..] == old(if next[i] == -1 then prior[..] else prior[..][next[i] := i])
    {
      if tail == loc {
        tail := i;
      } else {
        prior[next[i]] := i;
      }
    }

    /** All writes that move the first run from cell `loc` to cell `i`. */
    method MoveHead(loc: int, i: int, start: int, longer: bool)
      requires Separate() && 0 <= loc < size && 0 <= i < size && loc != i
      requires -1 <= next[loc] < size && (next[loc] == -1 <==> tail == loc)
      modifies this`tail, data1, data2, next, prior
      ensures tail == if old(tail) == loc then i else old(tail)
      ensures data1[..] == old(data1[..])[i := start][loc := -1]
      ensures data2[..] == old(if longer then data2[..][i := data2[loc]][loc := -1] else data2[..][loc := -1])
      ensures next[..] == old(next[..])[i := old(next[loc])]
      ensures prior[..] ==
              old(var moved := prior[..][i := prior[loc]]; if next[loc] == -1 then moved else moved[next[loc] := i])
    {
      MoveCell(loc, i, start, longer);
      RelinkNext(loc, i);
    }

    /** The head moves to cell `i`, its first number gone. */
    method ShiftTo(i: int, start: int, longer: bool)
      requires Separate() && 0 <= head < size && 0 <= i < size && head != i && base in runs
      requires -1 <= next[head] < size && (next[head] == -1 <==> tail == head)
      requires start == Num(base + 1) && (longer <==> runs[base] > base + 1)
      modifies this`head, this`tail, this`base, this`runs, data1, data2, next, prior
      ensures List() == MovedHead(old(List()), i)
    {
      hide Num;
      ghost var b := runs[base];
      MoveHead(head, i, start, longer);
      head := i;
      base, runs := base + 1, (runs - {base})[base + 1 := b];
    }

    /** The first run loses its first number and moves to the next cell. */
    method ShiftHead()
      requires Valid() && runs != map[] && runs[base] > base
      modifies this`head, this`tail, this`length, this`base, this`runs, data1, data2, next, prior
      ensures Valid() && Lost() == old(Lost()) - {old(base)}
    {
      hide SeqCmp, IncSeq, Chain.NumAt, Num, Chain.CellOk, Chain.LinkOk, Double.BackOk, Elems, Ordered, Succ,
           Double.Linked, ShiftedDouble, Shifted;
      LinkedHead(List());
      ghost var l := List();
      TrimFirst(runs, base);
      var i := Succ(head, size);
      ShiftFacts(l, head, i, base);
      ShiftedLinked(l, i);
      ShiftedCells(l, i);
      var start := IncSeq(data1[head]);
      ShiftTo(i, start, SeqCmp(data2[head], start) > 0);
      length := length - 1;
      assert base in runs;
    }

    /** All writes that move a run that is not the first from cell `loc` to cell `i`. */
    method MoveRun(loc: int, i: int, start: int, longer: bool)
      requires Separate() && 0 <= loc < size && 0 <= i < size && loc != i
      requires 0 <= prior[loc] < size && -1 <= next[loc] < size && (next[loc] == -1 <==> tail == loc)
      requires prior[loc] != i && prior[loc] != loc && next[loc] != i && next[loc] != prior[loc]
      modifies this`tail, data1, data2, next, prior
      ensures tail == if old(tail) == loc then i else old(tail)
      ensures data1[..] == old(data1[..])[i := start][loc := -1]
      ensures data2[..] == old(if longer then data2[..][i := data2[loc]][loc := -1] else data2[..][loc := -1])
      ensures next[..] == old(next[..])[i := old(next[loc])][old(prior[loc]) := i]
      ensures prior[..] ==
              old(var moved := prior[..][i := prior[loc]]; if next[loc] == -1 then moved else moved[next[loc] := i])
    {
      MoveCell(loc, i, start, longer);
      next[prior[i]] := i;
      RelinkNext(loc, i);
    }

    /** A run that is not the first loses its first number and moves to the next cell. */
    method ShiftMiddle(loc: int, ghost n: int)
      requires Valid() && runs != map[] && 0 <= loc < size && List().c.NumAt(loc) == n && n in runs && n > base &&
               runs[n] > n
      modifies this`tail, this`length, this`runs, data1, data2, next, prior
      ensures Valid() && Lost() == old(Lost()) - {n}
    {
      hide SeqCmp, IncSeq, Chain.NumAt, Num, Chain.CellOk, Chain.LinkOk, Double.BackOk, Elems, Ordered, Succ,
           Double.Linked, AfterDouble, UnlinkedDouble, Unlinked, After, BackAfter;
      ghost var l, b := List(), runs[n];
      TrimFirst(runs, n);
      var i := Succ(loc, size);
      ShiftFacts(l, loc, i, n);
      MovedLinked(l, loc, i, n);
      MovedCells(l, loc, i, n);
      var start := IncSeq(data1[loc]);
      MoveRun(loc, i, start, SeqCmp(data2[loc], start) > 0);
      length := length - 1;
      runs := (runs - {n})[n + 1 := b];
      assert n + 1 in runs;
      assert List() == Moved(l, loc, i, n);
    }

    /** The run at cell `i` loses its last number. */
    method TrimEnd(seqno: SeqNum, i: int, ghost n: int)
      requires Valid() && runs != map[] && 0 <= i < size && List().c.NumAt(i) in runs && seqno == Num(n)
      requires List().c.NumAt(i) < n == runs[List().c.NumAt(i)]
      modifies this`length, this`runs, data2
      ensures Valid() && Lost() == old(Lost()) - {n}
    {
      hide SeqCmp, SeqLen, SeqOff, IncSeq, DecSeq, Chain.NumAt, Num, Chain.CellOk, Chain.LinkOk, Double.BackOk, Elems,
           Ordered, Near;
      ghost var l, lo := List(), List().c.NumAt(i);
      HeadInside(l.c);
      LinkLeads(l.c, i);
      IncAgrees(lo, Num(lo));
      EqAgrees(n, lo + 1);
      DecAgrees(n);
      TrimLast(runs, lo);
      ResizedLinked(l, i, n - 1);
      hide Chain.Layout;
      if seqno == IncSeq(data1[i]) {
        data2[i] := -1;
      } else {
        data2[i] := DecSeq(seqno);
      }
      length := length - 1;
      runs := runs[lo := n - 1];
      assert List() == l.(c := Resized(l.c, i, n - 1));
    }

    /** The writes that split the run at cell `i` around a number, the rest going to `loc`. */
    method SplitCell(i: int, loc: int, last: int, start: int, longer: bool)
      requires Separate() && 0 <= i < size && 0 <= loc < size && i != loc
      modifies data1, data2, next, prior
      ensures data1[..] == old(data1[..])[loc := start]
      ensures data2[..] == old(if longer then data2[..][loc := data2[i]] else data2[..])[i := last]
      ensures next[..] == old(next[..])[loc := old(next[i])][i := loc] && prior[..] == old(prior[..])[loc := i]
    {
      data1[loc] := start;
      if longer {
        data2[loc] := data2[i];
      }
      data2[i] := last;
      next[loc] := next[i];
      next[i] := loc;
      prior[loc] := i;
    }

    /** The cells of the run at cell `i` split around `n`. */
    method SplitTo(i: int, loc: int, last: int, start: int, longer: bool, ghost n: int, ghost hi: int)
      requires Separate() && 0 <= i < size && 0 <= loc < size && i != loc && start == Num(n + 1) &&
               (longer <==> hi > n + 1)
      requires 0 <= head && List().c.NumAt(i) < n && last == Second(List().c.NumAt(i), n - 1)
      requires -1 <= next[i] < size && next[i] != loc && (next[i] == -1 <==> tail == i)
      requires data2[i] == Num(hi) && data2[loc] == -1 && n < hi
      modifies this`tail, this`runs, data1, data2, next, prior
      ensures List() == AfterDouble(Shortened(old(List()), i, n - 1), n + 1, hi, loc, i)
    {
      hide Num, Chain.NumAt;
      ghost var l, lo := List(), List().c.NumAt(i);
      SplitCell(i, loc, last, start, longer);
      RelinkNext(i, loc);
      runs := runs[lo := n - 1][n + 1 := hi];
      SplitCells(l, i, loc, n, hi);
    }

    /** The run at cell `i` is split around `n`; the part behind it starts at cell `loc`. */
    method SplitInside(seqno: SeqNum, i: int, loc: int, ghost n: int)
      requires Valid() && runs != map[] && 0 <= i < size && 0 <= loc < size && List().c.NumAt(i) in runs &&
               seqno == Num(n)
      requires List().c.NumAt(i) < n < runs[List().c.NumAt(i)] && List().c.NumAt(loc) == n + 1
      modifies this`tail, this`length, this`runs, data1, data2, next, prior
      ensures Valid() && Lost() == old(Lost()) - {n}
    {
      hide Num, SeqCmp, IncSeq, DecSeq, Chain.NumAt, Elems, Ordered, Double.Linked, AfterDouble, Shortened;
      ghost var l, lo, hi := List(), List().c.NumAt(i), runs[List().c.NumAt(i)];
      LinkedHead(l);
      Punch(runs, lo, n);
      SplitFacts(l, i, loc, n);
      var start := IncSeq(seqno);
      SplitTo(i, loc, if seqno == IncSeq(data1[i]) then -1 else DecSeq(seqno), start, SeqCmp(data2[i], start) > 0,
              n, hi);
      length := length - 1;
      SplitRuns(l, i, loc, n);
    }

    /** From the free cell of `n` backwards to the last run before it. */
    method FindBack(loc: int, ghost n: int) returns (i: int)
      requires Valid() && runs != map[] && 0 <= loc < size && List().c.NumAt(loc) == n && n !in runs
      ensures 0 <= i < size && List().c.NumAt(i) in runs && List().c.NumAt(i) < n
      ensures forall x :: x in runs ==> x <= List().c.NumAt(i) || n < x
    {
      ghost var l := List().c;
      hide Num, Chain.NumAt, Chain.Layout, Chain.CellOk, Elems, Ordered, Double.BackOk, Pred;
      LinkedHead(List());
      BackOne(l, loc);
      i := Pred(loc, size);
      while data1[i] == -1
        invariant 0 <= i < size && l.base <= l.NumAt(i) < n
        invariant forall x :: x in runs ==> x <= l.NumAt(i) || n < x
        decreases l.NumAt(i) - l.base
      {
        BackOne(l, i);
        i := Pred(i, size);
      }
      BackOne(l, i);
    }

    /** Removal of a number that starts a run, the one at cell `loc`. */
    method RemoveStart(loc: int, ghost n: int)
      requires Valid() && runs != map[] && 0 <= loc < size && List().c.NumAt(loc) == n && n in runs
      modifies this, data1, data2, next, prior
      ensures Valid() && Lost() == old(Lost()) - {n}
    {
      hide Num, Chain.CellOk, Chain.LinkOk, Double.BackOk, Elems, Ordered;
      HeadInside(List().c);
      LinkLeads(List().c, loc);
      NumOfCell(List().c, loc);
      if data2[loc] == -1 {
        if head == loc {
          UnlinkHead();
        } else {
          UnlinkMiddle(loc, n);
        }
      } else if head == loc {
        ShiftHead();
      } else {
        ShiftMiddle(loc, n);
      }
    }

    /** Removal of a number inside the run at cell `i`. */
    method RemoveFrom(seqno: SeqNum, i: int, loc: int, ghost n: int)
      requires Valid() && runs != map[] && 0 <= i < size && 0 <= loc < size && List().c.NumAt(loc) == n && n !in runs
      requires seqno == Num(n) && List().c.NumAt(i) in runs && List().c.NumAt(i) < n <= runs[List().c.NumAt(i)]
      requires seqno == data2[i] <==> n == runs[List().c.NumAt(i)]
      modifies this, data1, data2, next, prior
      ensures Valid() && Lost() == old(Lost()) - {n}
    {
      hide Num, Chain.CellOk, Chain.LinkOk, Double.BackOk, Elems, Ordered, Near, Succ;
      HeadInside(List().c);
      if seqno == data2[i] {
        TrimEnd(seqno, i, n);
      } else {
        SplitInside(seqno, i, Succ(loc, size), n);
      }
    }

    /** Removal of a number that starts no run. */
    method RemoveInside(seqno: SeqNum, loc: int, ghost n: int) returns (found: bool)
      requires Valid() && runs != map[] && 0 <= loc < size && List().c.NumAt(loc) == n && n !in runs && seqno == Num(n)
      modifies this, data1, data2, next, prior
      ensures Valid() && Lost() == old(Lost()) - {n} && (found <==> n in old(Lost()))
    {
      hide Num, SeqCmp, Chain.CellOk, Chain.LinkOk, Double.BackOk, Elems, Ordered;
      var i := FindBack(loc, n);
      ghost var lo := List().c.NumAt(i);
      NearCells(List().c, loc, i);
      CmpAgrees(n, runs[lo]);
      EqAgrees(n, runs[lo]);
      if data2[i] == -1 || SeqCmp(seqno, data2[i]) > 0 {
        BeforeEnds(runs, lo);
        Between(runs, lo, n);
        return false;
      }
      RunInside(runs, lo, n);
      found := true;
      RemoveFrom(seqno, i, loc, n);
    }

    /** The number `n` is no longer lost; the result tells whether it was. */
    method Remove(seqno: SeqNum, ghost n: int) returns (found: bool)
      requires Valid() && seqno == Num(n) && forall x :: x in Lost() ==> x - THRESHOLD < n < x + size
      modifies this, data1, data2, next, prior
      ensures Valid() && Lost() == old(Lost()) - {n} && (found <==> n in old(Lost()))
    {
      hide Num, Chain.LinkOk, Double.BackOk, Elems, Ahead, Ordered;
      NoneLost();
      ElemsEmpty();
      if length == 0 {
        return false;
      }
      RunsAreLost();
      ghost var l := List().c;
      HeadInside(l);
      LinkLeads(l, head);
      OffAgrees(base, n);
      LeastElem(runs, base);
      var offset := SeqOff(data1[head], seqno);
      if offset < 0 {
        return false;
      }
      var loc := Ahead(head, offset, size);
      assert l.CellOk(loc) && l.NumAt(loc) == n;
      if seqno == data1[loc] {
        RemoveStart(loc, n);
        found := true;
      } else {
        found := RemoveInside(seqno, loc, n);
      }
    }

    /** Whether the run at cell `p` meets the interval. */
    method Meets(p: int, seqno1: SeqNum, seqno2: SeqNum, ghost a: int, ghost b: int) returns (r: bool)
      requires Separate() && List().c.Layout() && 0 <= p < size && List().c.NumAt(p) in runs
      requires seqno1 == Num(a) && seqno2 == Num(b) && a <= b
      requires var n := List().c.NumAt(p); Near(n, a) && Near(n, b) && Near(runs[n], a)
      ensures r <==> List().c.NumAt(p) <= b && a <= runs[List().c.NumAt(p)]
    {
      hide Num, Chain.CellOk, Chain.LinkOk, Near;
      ghost var n := List().c.NumAt(p);
      LinkLeads(List().c, p);
      HeadInside(List().c);
      CmpAgrees(n, a);
      CmpAgrees(n, b);
      CmpAgrees(runs[n], a);
      r := SeqCmp(data1[p], seqno1) == 0
           || (SeqCmp(data1[p], seqno1) > 0 && SeqCmp(data1[p], seqno2) <= 0)
           || (SeqCmp(data1[p], seqno1) < 0 && data2[p] != -1 && SeqCmp(data2[p], seqno1) >= 0);
    }

    /** Whether any number from `a` to `b` is lost. */
    method Find(seqno1: SeqNum, seqno2: SeqNum, ghost a: int, ghost b: int) returns (found: bool)
      requires Valid() && seqno1 == Num(a) && seqno2 == Num(b) && a <= b
      requires forall x :: x in Lost() ==> Near(x, a) && Near(x, b)
      ensures found <==> exists n :: n in Lost() && a <= n <= b
    {
      hide Num, Chain.CellOk, Chain.Layout, Double.BackOk, Elems, Near, Ordered;
      NoneLost();
      ElemsEmpty();
      if length == 0 {
        return false;
      }
      RunsAreLost();
      ghost var l := List().c;
      HeadInside(l);
      var p := head;
      ghost var seen := base;
      while p != -1
        invariant p == -1 ==> forall x :: x in runs ==> x < seen
        invariant p != -1 ==> 0 <= p < size && l.NumAt(p) in runs && seen <= l.NumAt(p)
        invariant forall x :: x in runs && x < seen ==> runs[x] < a || b < x
        invariant p != -1 ==> forall x :: x in runs ==> x < seen || l.NumAt(p) <= x
        decreases base + size - seen, p != -1
      {
        ghost var n := l.NumAt(p);
        LinkLeads(l, p);
        var meets := Meets(p, seqno1, seqno2, a, b);
        if meets {
          ghost var m := if n < a then a else n;
          RunInside(runs, n, m);
          assert m in Lost() && a <= m <= b;
          return true;
        }
        p := next[p];
        seen := n + 1;
      }
      Misses(runs, a, b);
      found := false;
    }

    // --- Loss reports -------------------------------------------------------

    /** The words of the run at cell `i` are written at `len`. */
    method WriteRun(words: array<int32>, len: nat, i: int, ghost n: int) returns (len2: nat)
      requires Valid() && runs != map[] && 0 <= i < size && List().c.NumAt(i) == n && n in runs
      requires len + 1 < words.Length
      modifies words
      ensures len < len2 <= len + 2 && words[..len2] == old(words[..len]) + Words(Range(n, runs[n]))
    {
      hide Num, Chain.CellOk, Double.BackOk, Elems;
      LinkLeads(List().c, i);
      HeadInside(List().c);
      EqAgrees(n, runs[n]);
      len2 := len;
      words[len2] := data1[i];
      if data2[i] != -1 {
        words[len2] := Flagged(data1[i]);
        len2 := len2 + 1;
        words[len2] := data2[i];
      }
      len2 := len2 + 1;
    }

    /** How far `GetLossArray` has come: the next run to report is at cell `i`. */
    ghost predicate Reporting(i: int, ranges: seq<Range>, bound: int)
      reads this, data1, data2, next, prior
    {
      && Valid() && Reported(runs, ranges, bound)
      && if i == -1 then forall x :: x in runs ==> runs[x] < bound
         else runs != map[] && 0 <= i < size && List().c.NumAt(i) == bound && bound in runs
    }

    lemma ReportStart()
      requires Valid()
      ensures Reporting(head, [], base)
    {
      hide Num, Chain.CellOk, Double.BackOk, Elems, Reported;
      ReportEnds(runs, [], base);
      if runs != map[] {
        HeadInside(List().c);
      }
    }

    /** The bound after the run at `bound` is reported. */
    ghost function NextBound(i: int, bound: int): int
      requires Valid() && runs != map[] && 0 <= i < size && bound in runs
      reads this, data1, data2, next, prior
    {
      if next[i] == -1 then runs[bound] + 1 else List().c.NumAt(next[i])
    }

    lemma ReportStep(i: int, ranges: seq<Range>, bound: int)
      requires Reporting(i, ranges, bound) && i != -1
      ensures 0 <= i < next.Length && -1 <= next[i] < size
      ensures Reporting(next[i], ranges + [Range(bound, runs[bound])], NextBound(i, bound))
      ensures Encode(ranges + [Range(bound, runs[bound])]) == Encode(ranges) + Words(Range(bound, runs[bound]))
      ensures bound < NextBound(i, bound) <= base + size
    {
      hide Num, Chain.CellOk, Double.BackOk, Elems, Reported, Words, Encode;
      LinkLeads(List().c, i);
      HeadInside(List().c);
      ReportNext(runs, ranges, bound, NextBound(i, bound));
    }

    /** What the report says so far. */
    lemma ReportSays(i: int, ranges: seq<Range>, bound: int)
      requires Reporting(i, ranges, bound)
      ensures Valid() && Named(ranges) == Below(Lost(), bound)
      ensures i == -1 || |Encode(ranges)| >= |Lost()| ==> Named(ranges) == Lost()
      ensures i != -1 ==> runs != map[] && 0 <= i < size && List().c.NumAt(i) == bound && bound in runs
      ensures bound <= base + size || i == -1
      ensures ranges == [] ==> Named(ranges) == {}
      ensures forall k :: 0 <= k < |ranges| ==>
                ranges[k].first <= ranges[k].last && Interval(ranges[k].first, ranges[k].last) <= Lost()
    {
      hide Num, Chain.CellOk, Double.BackOk, Interval, Encode, Elems;
      ReportEnds(runs, ranges, bound);
      if i != -1 {
        HeadInside(List().c);
      }
      forall k | 0 <= k < |ranges|
        ensures ranges[k].first <= ranges[k].last && Interval(ranges[k].first, ranges[k].last) <= Lost()
      {
        forall x | ranges[k].first <= x <= ranges[k].last ensures x in Lost() {
          RunInside(runs, ranges[k].first, x);
        }
      }
    }

    /** The lost numbers are written as a loss report, as long as there is room for a run of
        two words. */
    method GetLossArray(words: array<int32>, limit: int) returns (len: nat, ghost ranges: seq<Range>, ghost bound: int)
      requires Valid() && limit <= words.Length
      modifies words
      ensures len <= Max(limit, 0) && words[..len] == Encode(ranges) && Named(ranges) == Below(Lost(), bound)
      ensures forall i :: 0 <= i < |ranges| ==>
                ranges[i].first <= ranges[i].last && Interval(ranges[i].first, ranges[i].last) <= Lost()
      ensures limit > |Lost()| ==> Named(ranges) == Lost()
      ensures len >= limit - 1 || Named(ranges) == Lost()
      ensures limit >= 2 && Lost() != {} ==> ranges != []
    {
      hide Num, Valid, Reporting, Reported, Words, Encode, Elems, Below, Named, Interval, Lost;
      len, ranges, bound := 0, [], base;
      ReportStart();
      var i := head;
      assert Encode([]) == [] by { NoWords(); }
      while len < limit - 1 && i != -1
        invariant Reporting(i, ranges, bound) && len <= Max(limit, 0) && words[..len] == Encode(ranges)
        invariant ranges == [] ==> len == 0
        decreases base + size - bound
      {
        ReportSays(i, ranges, bound);
        ReportStep(i, ranges, bound);
        len := WriteRun(words, len, i, bound);
        ranges, bound := ranges + [Range(bound, runs[bound])], NextBound(i, bound);
        i := next[i];
      }
      ReportSays(i, ranges, bound);
    }
  }

  /** What the cells of a number and of a run before it show. */
  lemma NearCells(c: Chain, loc: int, i: int)
    requires c.Layout() && 0 <= loc < c.Size() && 0 <= i < c.Size() && c.NumAt(i) in c.runs
    ensures var n, hi := c.NumAt(loc), c.runs[c.NumAt(i)];
            Near(n, hi) && c.d2[i] == Second(c.NumAt(i), hi) && c.NumAt(i) <= hi
  {
    hide Num, Chain.CellOk;
    LinkLeads(c, i);
  }

  /** One cell back is one number back, and a cell shows whether a run starts there. */
  lemma BackOne(c: Chain, i: int)
    requires c.Layout() && 0 <= i < c.Size()
    ensures c.d1[i] == -1 <==> c.NumAt(i) !in c.runs
    ensures c.NumAt(i) >= c.base && (c.NumAt(i) !in c.runs ==> c.NumAt(i) > c.base)
    ensures c.NumAt(i) > c.base ==> c.NumAt(Pred(i, c.Size())) == c.NumAt(i) - 1
  {
    hide Num, Chain.LinkOk, Pred;
    assert c.CellOk(i);
    NumOfCell(c, i);
  }

  /** Earlier runs end earlier. */
  lemma BeforeEnds(runs: Runs, lo: int)
    requires Ordered(runs) && lo in runs
    ensures forall x :: x in runs && x <= lo ==> runs[x] <= runs[lo]
  {}

  lemma LinkedHead(l: Double)
    requires l.Linked()
    ensures 0 <= l.c.head < l.c.Size() && l.c.base in l.c.runs && l.c.NumAt(l.c.head) == l.c.base
  {}

  /** What a shift finds in the cells it works on. */
  lemma ShiftFacts(l: Double, loc: int, i: int, n: int)
    requires l.Linked() && 0 <= loc < l.c.Size() && i == Succ(loc, l.c.Size())
    requires l.c.NumAt(loc) == n && n in l.c.runs && l.c.runs[n] > n && n + 1 !in l.c.runs
    ensures 0 <= i < l.c.Size() && i != loc && l.c.NumAt(i) == n + 1
    ensures l.c.d1[i] == -1 && l.c.d2[i] == -1 && l.c.d1[loc] == Num(n) && l.c.d2[loc] == Num(l.c.runs[n])
    ensures IncSeq(Num(n)) == Num(n + 1) && n + 1 <= l.c.runs[n] < l.c.base + l.c.Size()
    ensures SeqCmp(Num(l.c.runs[n]), Num(n + 1)) > 0 <==> l.c.runs[n] > n + 1
    ensures -1 <= l.c.next[loc] < l.c.Size() && (l.c.next[loc] == -1 <==> l.tail == loc)
  {
    hide Num, Chain.LinkOk, Near, Succ, Double.BackOk;
    LinkLeads(l.c, loc);
    TailLinks(l, loc);
    assert l.c.CellOk(i);
    IncAgrees(n, Num(n));
    CmpAgrees(l.c.runs[n], n + 1);
  }

  /** A run moved on to the next cell, its first number gone: cell by cell. */
  function Moved(l: Double, loc: int, i: int, n: int): Double
    requires 0 <= loc < |l.prior| == l.c.Size() == |l.c.d2| == |l.c.next| && 0 <= i < l.c.Size() && n in l.c.runs
    requires -1 <= l.c.next[loc] < |l.prior|
  {
    var r, p, b := l.c.next[loc], l.prior[loc], l.c.runs[n];
    Double(
      Chain(l.c.d1[i := Num(n + 1)][loc := -1],
            if b > n + 1 then l.c.d2[i := l.c.d2[loc]][loc := -1] else l.c.d2[loc := -1],
            if 0 <= p < |l.c.next| then l.c.next[i := r][p := i] else l.c.next,
            l.c.head, l.c.base, (l.c.runs - {n})[n + 1 := b]),
      if r == -1 then l.prior[i := p] else l.prior[i := p][r := i],
      if l.tail == loc then i else l.tail)
  }

  /** The same for the head, which has no run before it. */
  function MovedHead(l: Double, i: int): Double
    requires 0 <= l.c.head < |l.prior| == l.c.Size() == |l.c.d2| == |l.c.next| && 0 <= i < l.c.Size()
    requires l.c.base in l.c.runs && -1 <= l.c.next[l.c.head] < |l.prior|
  {
    var h, r, b := l.c.head, l.c.next[l.c.head], l.c.runs[l.c.base];
    Double(
      Chain(l.c.d1[i := Num(l.c.base + 1)][h := -1],
            if b > l.c.base + 1 then l.c.d2[i := l.c.d2[h]][h := -1] else l.c.d2[h := -1],
            l.c.next[i := r], i, l.c.base + 1, (l.c.runs - {l.c.base})[l.c.base + 1 := b]),
      if r == -1 then l.prior[i := l.prior[h]] else l.prior[i := l.prior[h]][r := i],
      if l.tail == h then i else l.tail)
  }

  lemma MovedCells(l: Double, loc: int, i: int, n: int)
    requires 0 <= loc < |l.prior| == l.c.Size() == |l.c.d2| == |l.c.next| && 0 <= i < l.c.Size() && i != loc
    requires n in l.c.runs && l.c.runs[n] > n && l.c.NumAt(loc) == n && l.c.d2[i] == -1 &&
             l.c.d2[loc] == Num(l.c.runs[n])
    requires var r, p := l.c.next[loc], l.prior[loc];
             -1 <= r < |l.prior| && 0 <= p < l.c.Size() && p != loc && p != i && r != p && r != i &&
             (r == -1 <==> l.tail == loc)
    ensures AfterDouble(UnlinkedDouble(l, loc), n + 1, l.c.runs[n], i, l.prior[loc]) == Moved(l, loc, i, n)
  {
    hide Num, Chain.NumAt;
    var r, p, b := l.c.next[loc], l.prior[loc], l.c.runs[n];
    var u := UnlinkedDouble(l, loc);
    var a := AfterDouble(u, n + 1, b, i, p);
    assert a.c.d1 == l.c.d1[i := Num(n + 1)][loc := -1];
    assert a.c.d2 == if b > n + 1 then l.c.d2[i := l.c.d2[loc]][loc := -1] else l.c.d2[loc := -1];
    assert a.c.next == l.c.next[i := r][p := i];
    assert a.prior == if r == -1 then l.prior[i := p] else l.prior[i := p][r := i];
  }

  lemma ShiftedCells(l: Double, i: int)
    requires 0 <= l.c.head < |l.prior| == l.c.Size() == |l.c.d2| == |l.c.next| && 0 <= i < l.c.Size() && i != l.c.head
    requires l.c.base in l.c.runs && l.c.runs[l.c.base] > l.c.base
    requires l.c.d2[i] == -1 && l.c.d2[l.c.head] == Num(l.c.runs[l.c.base])
    requires -1 <= l.c.next[l.c.head] < |l.prior| && (l.c.next[l.c.head] == -1 <==> l.tail == l.c.head)
    ensures ShiftedDouble(l, i) == MovedHead(l, i)
  {
    hide Num;
    assert ShiftedDouble(l, i).c.d2 == MovedHead(l, i).c.d2;
  }

  /** The run at cell `i` given another end. */
  function Shortened(l: Double, i: int, b: int): (d: Double)
    requires 0 <= i < l.c.Size() == |l.c.d2|
    ensures |d.prior| == |l.prior| && d.c.Size() == l.c.Size() == |d.c.d2| && d.c.next == l.c.next
  {
    l.(c := Resized(l.c, i, b))
  }

  /** The cells of a run split around a number. */
  lemma SplitCells(l: Double, i: int, loc: int, n: int, hi: int)
    requires 0 <= i < l.c.Size() == |l.c.d2| == |l.c.next| == |l.prior| && 0 <= loc < l.c.Size() && i != loc
    requires -1 <= l.c.next[i] < l.c.Size() && l.c.next[i] != loc && l.c.d2[loc] == -1 && n < hi
    requires l.c.d2[i] == Num(hi)
    ensures var last := Second(l.c.NumAt(i), n - 1);
            AfterDouble(Shortened(l, i, n - 1), n + 1, hi, loc, i).c.d2 ==
            (if hi > n + 1 then l.c.d2[loc := l.c.d2[i]] else l.c.d2)[i := last]
  {
    hide Num, Chain.NumAt;
  }

  lemma SplitRuns(l: Double, i: int, loc: int, n: int)
    requires 0 <= i < l.c.Size() == |l.c.d2| == |l.c.next| == |l.prior| && 0 <= loc < l.c.Size() &&
             -1 <= l.c.next[i] < l.c.Size()
    requires l.c.NumAt(i) in l.c.runs
    ensures var lo, hi := l.c.NumAt(i), l.c.runs[l.c.NumAt(i)];
            var s := AfterDouble(Shortened(l, i, n - 1), n + 1, hi, loc, i);
            s.c.runs == l.c.runs[lo := n - 1][n + 1 := hi] && n + 1 in s.c.runs
  {
    hide Num, Chain.NumAt, Second;
  }

  /** What `SplitInside` finds in the cells it works on. */
  lemma SplitFacts(l: Double, i: int, loc: int, n: int)
    requires l.Linked() && Ordered(l.c.runs) && 0 <= i < l.c.Size() && 0 <= loc < l.c.Size()
    requires l.c.NumAt(i) in l.c.runs && l.c.NumAt(i) < n < l.c.runs[l.c.NumAt(i)] && l.c.NumAt(loc) == n + 1
    ensures var lo, hi := l.c.NumAt(i), l.c.runs[l.c.NumAt(i)];
            && i != loc && -1 <= l.c.next[i] < l.c.Size() && l.c.next[i] != loc && (l.c.next[i] == -1 <==> l.tail == i)
            && AfterDouble(Shortened(l, i, n - 1), n + 1, hi, loc, i).Linked()
            && l.c.d1[loc] == -1 && l.c.d2[loc] == -1 && l.c.d1[i] == Num(lo) && l.c.d2[i] == Num(hi)
            && IncSeq(Num(n)) == Num(n + 1) && DecSeq(Num(n)) == Num(n - 1)
            && (SeqCmp(Num(hi), Num(n + 1)) > 0 <==> hi > n + 1)
            && (Num(n) == IncSeq(Num(lo)) <==> n - 1 == lo)
  {
    hide Num, Near, Elems, Double.BackOk, Chain.LinkOk;
    var lo, hi := l.c.NumAt(i), l.c.runs[l.c.NumAt(i)];
    SplitLinked(l, i, loc, n);
    TailLinks(l, i);
    assert l.c.CellOk(i) && l.c.CellOk(loc);
    IncAgrees(n, Num(n));
    IncAgrees(lo, Num(lo));
    DecAgrees(n);
    CmpAgrees(hi, n + 1);
    EqAgrees(n, lo + 1);
  }

  lemma SplitLinked(l: Double, i: int, loc: int, n: int)
    requires l.Linked() && Ordered(l.c.runs) && 0 <= i < l.c.Size() && 0 <= loc < l.c.Size()
    requires l.c.NumAt(i) in l.c.runs && l.c.NumAt(i) < n < l.c.runs[l.c.NumAt(i)] && l.c.NumAt(loc) == n + 1
    ensures -1 <= l.c.next[i] < l.c.Size() && l.c.next[i] != loc
    ensures AfterDouble(l.(c := Resized(l.c, i, n - 1)), n + 1, l.c.runs[l.c.NumAt(i)], loc, i).Linked()
  {
    hide Num, Elems, Ordered, Double.BackOk, Chain.CellOk, Chain.NumAt, Second, NextRun, LastRun, AfterDouble;
    var lo, hi := l.c.NumAt(i), l.c.runs[l.c.NumAt(i)];
    LinkLeads(l.c, i);
    InsideRun(l.c.runs, lo, n + 1, l.c.NumAt(l.c.next[i]));
    SameNums(l.c, Resized(l.c, i, n - 1));
    ResizedLinked(l, i, n - 1);
    AfterLinked(l.(c := Resized(l.c, i, n - 1)), n + 1, hi, loc, i);
  }

  lemma MovedLinked(l: Double, loc: int, i: int, n: int)
    requires l.Linked() && 0 <= loc < l.c.Size() && 0 <= i < l.c.Size()
    requires l.c.NumAt(loc) == n && n in l.c.runs && l.c.base < n < l.c.runs[n] && n + 1 !in l.c.runs &&
             l.c.NumAt(i) == n + 1
    ensures 0 <= l.prior[loc] < l.c.Size() && l.prior[loc] != loc && l.prior[loc] != i
    ensures -1 <= l.c.next[loc] < l.c.Size() && l.c.next[loc] != l.prior[loc] && l.c.next[loc] != i
    ensures AfterDouble(UnlinkedDouble(l, loc), n + 1, l.c.runs[n], i, l.prior[loc]).Linked()
  {
    hide Num, Chain.CellOk, Chain.NumAt, Chain.LinkOk, Double.BackOk, Double.TailOk, Double.Linked;
    UnlinkedSame(l, loc);
    LinkAbove(l, loc);
    CellsApart(l.c, loc, i);
    var u, p := UnlinkedDouble(l, loc), l.prior[loc];
    AfterLinked(u, n + 1, l.c.runs[n], i, p);
  }

  /** What unlinking a run leaves as it was. */
  lemma UnlinkedSame(l: Double, loc: int)
    requires l.Linked() && 0 <= loc < l.c.Size() && l.c.NumAt(loc) in l.c.runs && l.c.NumAt(loc) > l.c.base
    ensures |l.prior| == l.c.Size() == |l.c.d2| == |l.c.next| && 0 <= l.c.head < l.c.Size()
    ensures 0 <= l.prior[loc] < l.c.Size() && -1 <= l.c.next[loc] < l.c.Size()
    ensures l.prior[loc] != loc && l.c.NumAt(l.prior[loc]) in l.c.runs && l.c.NumAt(l.prior[loc]) < l.c.NumAt(loc)
    ensures l.c.next[loc] != l.prior[loc] && (forall m :: m in l.c.runs ==> m <= l.c.runs[m] < l.c.base + l.c.Size())
    ensures var u := UnlinkedDouble(l, loc);
            && u.Linked() && u.c.Size() == l.c.Size() && u.c.base == l.c.base
            && u.c.next[l.prior[loc]] == l.c.next[loc] && forall p :: u.c.NumAt(p) == l.c.NumAt(p)
  {
    hide Num, Chain.CellOk, Double.BackOk, Double.TailOk, Chain.LinkOk;
    PriorLinks(l, loc);
    LinkLeads(l.c, loc);
    NextAbove(l.c, loc);
    UnlinkedLinked(l, loc);
  }

  lemma NextAbove(c: Chain, p: int)
    requires c.Layout() && 0 <= p < c.Size() && c.NumAt(p) in c.runs
    ensures c.next[p] != -1 ==> 0 <= c.next[p] < c.Size() && c.NumAt(c.next[p]) > c.NumAt(p)
  {
    hide Num, Chain.CellOk;
    LinkLeads(c, p);
  }

  /** A link leads above the run, and past the number after its start. */
  lemma LinkAbove(l: Double, loc: int)
    requires l.Linked() && 0 <= loc < l.c.Size() && l.c.NumAt(loc) in l.c.runs && l.c.NumAt(loc) + 1 !in l.c.runs
    ensures l.c.next[loc] != -1 ==> 0 <= l.c.next[loc] < l.c.Size() && l.c.NumAt(l.c.next[loc]) > l.c.NumAt(loc) + 1
  {
    hide Num, Chain.CellOk, Double.BackOk;
    LinkLeads(l.c, loc);
  }

  /** The cells with a new last run written to them. */
  function Appended(l: Double, a: int, b: int, loc: int): Double
    requires 0 <= loc < |l.prior| == l.c.Size() == |l.c.d2| == |l.c.next| && 0 <= l.tail < |l.prior|
  {
    Double(
      Chain(l.c.d1[loc := Num(a)], if Num(b) != Num(a) then l.c.d2[loc := Num(b)] else l.c.d2,
            l.c.next[loc := -1][l.tail := loc], l.c.head, l.c.base, l.c.runs[a := b]),
      l.prior[loc := l.tail], loc)
  }

  lemma AppendedCells(l: Double, a: int, b: int, loc: int)
    requires 0 <= loc < |l.prior| == l.c.Size() == |l.c.d2| == |l.c.next| && 0 <= l.tail < |l.prior|
    requires l.c.d2[loc] == -1 && l.c.next[l.tail] == -1 && (Num(a) == Num(b) <==> a == b)
    ensures AfterDouble(l, a, b, loc, l.tail) == Appended(l, a, b, loc)
  {
    hide Num;
    assert l.c.d2[loc := -1] == l.c.d2;
  }

  /** What `Append` finds in the cells it works on. */
  lemma AppendFacts(l: Double, a: int, b: int, loc: int)
    requires l.Linked() && a <= b < l.c.base + l.c.Size() && 0 <= loc < l.c.Size() && l.c.NumAt(loc) == a
    requires l.c.base <= a && forall x :: x in l.c.runs ==> x < a
    ensures l.c.d1[loc] == -1 && l.c.d2[loc] == -1 && 0 <= l.tail < l.c.Size() && l.tail != loc &&
            l.c.next[l.tail] == -1
    ensures AfterDouble(l, a, b, loc, l.tail).Linked() && AfterDouble(l, a, b, loc, l.tail) == Appended(l, a, b, loc)
    ensures !FullCircle(Num(a), Num(b)) && SeqLen(Num(a), Num(b)) == b - a + 1
  {
    hide Num, SeqLen;
    TailLinks(l, l.tail);
    assert l.c.CellOk(loc);
    hide Chain.CellOk, Double.BackOk;
    AfterLinked(l, a, b, loc, l.tail);
    EqAgrees(a, b);
    LenAgrees(a, b);
    AppendedCells(l, a, b, loc);
  }
}
