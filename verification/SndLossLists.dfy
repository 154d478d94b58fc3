/** The sender's loss list: runs of lost numbers in circular arrays. */
module SndLossLists {
  import opened Numbers
  import opened SequenceNumbers
  import opened LossRuns
  import opened LossCells
  import opened Modular

  class SndLossList {
    const size: int
    const data1: array<int>
    const data2: array<int>
    const next: array<int>
    var head: int
    var length: int
    var lastInsertPos: int
    ghost var base: int
    ghost var runs: Runs

    ghost predicate Separate() {
      && data1 != data2 && data1 != next && data2 != next
      && data1.Length == data2.Length == next.Length == size
      && 0 < size <= THRESHOLD
    }

    /** The arrays as a chain of cells. */
    ghost function List(): Chain
      reads this, data1, data2, next
    {
      Chain(data1[..], data2[..], next[..], head, base, runs)
    }

    ghost predicate Blank()
      reads this, data1, data2
    {
      && runs == map[] && head == -1 && length == 0 && lastInsertPos == -1
      && (forall p :: 0 <= p < data1.Length ==> data1[p] == -1)
      && (forall p :: 0 <= p < data2.Length ==> data2[p] == -1)
    }

    /** The insertion hint is no cell or the cell of a run. */
    ghost predicate HintOk()
      reads this, data1, data2, next
    {
      lastInsertPos == -1 || (0 <= lastInsertPos < size && List().NumAt(lastInsertPos) in runs)
    }

    ghost predicate Valid()
      reads this, data1, data2, next
    {
      Separate() &&
      if runs == map[] then Blank()
      else List().Layout() && Ordered(runs) && length == |Elems(runs)| && HintOk()
    }

    /** The lost numbers. */
    ghost function Lost(): set<int>
      reads this
    {
      Elems(runs)
    }

    constructor (size: int)
      requires 0 < size <= THRESHOLD
      ensures Valid() && Lost() == {} && this.size == size
      ensures fresh(data1) && fresh(data2) && fresh(next)
    {
      this.size := size;
      data1, data2, next := new int[size], new int[size], new int[size];
      head, length, lastInsertPos := -1, 0, -1;
      base, runs := 0, map[];
      new;
      for i := 0 to size
        modifies data1, data2
        invariant forall p :: 0 <= p < i ==> data1[p] == -1
        invariant forall p :: 0 <= p < i ==> data2[p] == -1
      {
        data1[i] := -1;
        data2[i] := -1;
      }
    }

    /** The length is zero exactly when nothing is lost. */
    lemma NoneLost()
      requires Valid()
      ensures length == |Lost()| && (length == 0 <==> runs == map[])
    {
      ElemsEmpty();
      if runs != map[] {
        LeastElem(runs, base);
      }
    }

    /** Whether `seqno` starts a run, looked up in its cell; far numbers have no cell. */
    method StartsRun(loc: int, seqno: SeqNum, ghost a: int) returns (r: bool)
      requires Valid() && runs != map[] && 0 <= loc < size && seqno == Num(a) && NearRuns(a) && base <= a
      requires a < base + size ==> a == List().NumAt(loc)
      ensures r <==> a in runs
    {
      hide Num, Chain.LinkOk, Near, Elems, Ordered, HintOk;
      assert List().CellOk(loc);
      if List().NumAt(loc) in runs {
        Compare(List().NumAt(loc), a);
      }
      r := seqno == data1[loc];
    }

    /** The lost numbers and `a` to `b` together span less than one turn. */
    ghost predicate Fits(a: int, b: int)
      reads this
    {
      a <= b < a + size && forall x :: x in Lost() ==> b < x + size && x < a + size
    }

    /** `n` is close enough to every lost number to be compared with it. */
    ghost predicate NearLost(n: int)
      reads this
    {
      forall x :: x in Lost() ==> x - THRESHOLD < n < x + THRESHOLD
    }

    lemma RunsAreLost()
      requires Valid()
      ensures forall x :: x in runs ==> x in Lost() && runs[x] in Lost()
    {
      hide Elems;
      forall x | x in runs ensures x in Lost() && runs[x] in Lost() {
        RunInside(runs, x, x);
        RunInside(runs, x, runs[x]);
      }
    }

    /** `a` is close enough to every run to be compared with it. */
    ghost predicate NearRuns(a: int)
      reads this
    {
      forall x :: x in runs ==> x - THRESHOLD < a < x + THRESHOLD && runs[x] - THRESHOLD < a < runs[x] + THRESHOLD
    }

    /** From a run before `seqno` along the links to the last such run. */
    method Walk(start: int, seqno: SeqNum, ghost a: int) returns (i: int)
      requires Valid() && runs != map[] && seqno == Num(a) && NearRuns(a) && a !in runs
      requires 0 <= start < size && List().NumAt(start) in runs && List().NumAt(start) < a
      ensures 0 <= i < size && List().NumAt(i) in runs && List().NumAt(i) < a
      ensures forall x :: x in runs ==> x <= List().NumAt(i) || a < x
      ensures next[i] == -1 || (0 <= next[i] < size && a < List().NumAt(next[i]))
    {
      ghost var l := List();
      hide Num, Chain.CellOk, Near, Elems, Ordered, HintOk;
      i := start;
      LinkLeads(l, i);
      while next[i] != -1
        invariant 0 <= i < size && l.NumAt(i) in runs && l.NumAt(i) < a
        invariant l.LinkOk(l.NumAt(i), next[i])
        decreases a - l.NumAt(i)
      {
        LinkLeads(l, next[i]);
        Compare(l.NumAt(next[i]), a);
        if SeqCmp(data1[next[i]], seqno) >= 0 {
          break;
        }
        i := next[i];
      }
    }

    /** The last run before `seqno1`, looked for from the hint if that is before it. */
    method FindPrior(seqno1: SeqNum, ghost a: int) returns (i: int)
      requires Valid() && runs != map[] && seqno1 == Num(a) && base < a && NearRuns(a) && a !in runs
      ensures 0 <= i < size && List().NumAt(i) in runs && List().NumAt(i) < a
      ensures forall x :: x in runs ==> x <= List().NumAt(i) || a < x
      ensures next[i] == -1 || (0 <= next[i] < size && a < List().NumAt(next[i]))
    {
      ghost var l := List();
      hide Num, Chain.CellOk, Near, Elems, Ordered;
      i := head;
      if lastInsertPos != -1 {
        LinkLeads(l, lastInsertPos);
        Compare(l.NumAt(lastInsertPos), a);
        if SeqCmp(data1[lastInsertPos], seqno1) < 0 {
          i := lastInsertPos;
        }
      }
      i := Walk(i, seqno1, a);
    }

    /** The run at cell `loc` has been extended or is new; those after it may overlap it. */
    ghost predicate Extending(loc: int)
      reads this, data1, data2, next
    {
      && Separate() && List().Layout()
      && 0 <= loc < size && lastInsertPos == loc
      && Pending(runs, List().NumAt(loc), length)
    }

    /** The next run is absorbed by the one at cell `loc`: the end and the length. */
    method Absorb(loc: int, i: int, ghost n: int, ghost m: int)
      requires Extending(loc) && i == next[loc] != -1 && data2[loc] != -1
      requires 0 <= i < size && n == List().NumAt(loc) && m == List().NumAt(i)
      requires n in runs && m in runs && n < m <= runs[n] + 1
      modifies data2, this`length
      ensures List() == Resized(old(List()), loc, if runs[m] > runs[n] then runs[m] else runs[n]).(runs := runs)
      ensures length == old(length) - Overlap(runs[n], m, runs[m])
    {
      ghost var l := List();
      hide SeqCmp, SeqLen, SeqOff, IncSeq, DecSeq, Chain.NumAt, Num, Chain.CellOk, Chain.LinkOk, Near, Elems, Pending;
      LinkLeads(l, loc);
      LinkLeads(l, i);
      Compare(runs[m], runs[n]);
      Compare(runs[n], m);
      Compare(m, runs[n] + 1);
      IncAgrees(runs[n], data2[loc]);
      LenAgrees(m, runs[m]);
      if data2[i] != -1 {
        if SeqCmp(data2[i], data2[loc]) > 0 {
          if SeqCmp(data2[loc], data1[i]) >= 0 {
            LenAgrees(m, runs[n]);
            length := length - SeqLen(data1[i], data2[loc]);
          }
          data2[loc] := data2[i];
        } else {
          length := length - SeqLen(data1[i], data2[i]);
        }
      } else {
        if data1[i] == IncSeq(data2[loc]) {
          data2[loc] := data1[i];
        } else {
          length := length - 1;
        }
      }
    }

    /** The writes that unlink cell `i`, the next of cell `loc`. */
    method Unlink(loc: int, i: int)
      requires Separate() && 0 <= loc < size && 0 <= i < size
      modifies data1, data2, next
      ensures data1[..] == old(data1[..])[i := -1] && data2[..] == old(data2[..])[i := -1]
      ensures next[..] == old(next[..])[loc := old(next[i])]
    {
      data1[i] := -1;
      data2[i] := -1;
      next[loc] := next[i];
    }

    /** The next run is absorbed and unlinked. */
    method AbsorbNext(loc: int, ghost n: int, ghost m: int)
      requires Extending(loc) && next[loc] != -1 && data2[loc] != -1
      requires n == List().NumAt(loc) && 0 <= next[loc] < size && m == List().NumAt(next[loc])
      requires n in runs && m in runs && n < m <= runs[n] + 1 && forall x :: x in runs ==> x <= n || m <= x
      modifies data1, data2, next, this`length, this`runs
      ensures Extending(loc) && List().NumAt(loc) == n && runs.Keys == old(runs.Keys) - {m}
      ensures Merged(runs, n) == old(Merged(runs, n))
    {
      hide Num, Chain.CellOk, Chain.LinkOk, Chain.Layout, Chain.NumAt, Elems, Interval, Pending, Merged, Overlap,
           Second;
      ghost var l, h := List(), if runs[m] > runs[n] then runs[m] else runs[n];
      var i := next[loc];
      HeadInside(l);
      CellsApart(l, loc, i);
      ResizedKeeps(l, loc, h);
      MergeNext(runs, n, m, length);
      Absorb(loc, i, n, m);
      ghost var l1 := Resized(l, loc, h);
      SameNums(l, l1);
      UnlinkedKeeps(l1, loc, i);
      SameNums(l1, Unlinked(l1, loc, i));
      Unlink(loc, i);
      runs := runs[n := h] - {m};
      assert List() == Unlinked(l1, loc, i);
    }

    /** The runs after the one at cell `loc` are absorbed as far as it reaches. */
    method Coalesce(loc: int)
      requires Extending(loc)
      modifies data1, data2, next, this`length, this`runs
      ensures Valid() && Lost() == old(Merged(runs, List().NumAt(loc)))
    {
      hide SeqCmp, SeqLen, SeqOff, IncSeq, DecSeq, Num, Chain.CellOk, Elems, Interval, Ordered, Merged;
      ghost var n, goal := List().NumAt(loc), Merged(runs, List().NumAt(loc));
      LinkLeads(List(), loc);
      while next[loc] != -1 && data2[loc] != -1
        invariant Extending(loc) && List().NumAt(loc) == n && n in runs && Merged(runs, n) == goal
        invariant List().LinkOk(n, next[loc]) && data2[loc] == Second(n, runs[n])
        decreases runs.Keys
      {
        ghost var l := List();
        var i := next[loc];
        ghost var m := l.NumAt(i);
        LinkLeads(l, i);
        IncAgrees(runs[n], data2[loc]);
        Compare(m, runs[n] + 1);
        if SeqCmp(data1[i], IncSeq(data2[loc])) > 0 {
          break;
        }
        AbsorbNext(loc, n, m);
        LinkLeads(List(), loc);
      }
      MergeDone(runs, n, length);
    }

    /** The writes of a first run. */
    method WriteFirst(seqno1: int, seqno2: int)
      requires Separate()
      modifies this`head, this`lastInsertPos, data1, data2, next
      ensures head == lastInsertPos == 0 && data1[..] == old(data1[..])[0 := seqno1] &&
              next[..] == old(next[..])[0 := -1]
      ensures data2[..] == old(if seqno2 != seqno1 then data2[..][0 := seqno2] else data2[..])
    {
      head := 0;
      data1[head] := seqno1;
      if seqno2 != seqno1 {
        data2[head] := seqno2;
      }
      next[head] := -1;
      lastInsertPos := head;
    }

    /** `insert` into an empty list. */
    method InsertFirst(seqno1: SeqNum, seqno2: SeqNum, ghost a: int, ghost b: int)
      requires Separate() && Blank() && seqno1 == Num(a) && seqno2 == Num(b) && a <= b < a + size
      modifies this, data1, data2, next
      ensures Valid() && Lost() == Interval(a, b) && length == b - a + 1
    {
      hide Num, SeqLen, Chain.Layout, Interval, Elems;
      ghost var l := List();
      FirstFacts(l, a, b);
      WriteFirst(seqno1, seqno2);
      length := length + SeqLen(seqno1, seqno2);
      base, runs := a, map[a := b];
      assert a in runs && List() == First(l, a, b);
    }

    /** The writes that put a new run at cell `loc` before the head. */
    method LinkFront(loc: int, seqno1: int, seqno2: int)
      requires Separate() && 0 <= loc < size
      modifies this`head, data1, data2, next
      ensures head == loc && data1[..] == old(data1[..])[loc := seqno1]
      ensures data2[..] == old(if seqno2 != seqno1 then data2[..][loc := seqno2] else data2[..])
      ensures next[..] == old(next[..])[loc := old(head)]
    {
      data1[loc] := seqno1;
      if seqno2 != seqno1 {
        data2[loc] := seqno2;
      }
      next[loc] := head;
      head := loc;
    }

    /** A run written before the head. */
    method PutBefore(seqno1: SeqNum, seqno2: SeqNum, loc: int, ghost a: int, ghost b: int)
      requires Valid() && runs != map[] && seqno1 == Num(a) && seqno2 == Num(b) && a < base
      requires a <= b < a + size && forall x :: x in runs ==> runs[x] < a + size
      requires 0 <= loc < size && List().NumAt(loc) == a + size
      modifies this, data1, data2, next
      ensures Extending(loc) && List().NumAt(loc) == a && a in runs && Merged(runs, a) == old(Lost()) + Interval(a, b)
    {
      hide Num, SeqLen, Chain.LinkOk, Chain.CellOk, Chain.Layout, Chain.NumAt, Interval, Elems, Merged, Pending;
      ghost var l := List();
      FrontFacts(l, a, b, loc);
      NewPending(runs, a, b);
      LinkFront(loc, seqno1, seqno2);
      lastInsertPos := loc;
      length := length + SeqLen(seqno1, seqno2);
      base, runs := a, runs[a := b];
      assert List() == Before(l, a, b, loc);
    }

    /** The writes that link a new run at cell `loc` behind the one at cell `i`. */
    method LinkBehind(loc: int, i: int, seqno1: int, seqno2: int)
      requires Separate() && 0 <= loc < size && 0 <= i < size
      modifies data1, data2, next
      ensures data1[..] == old(data1[..])[loc := seqno1]
      ensures data2[..] == old(if seqno2 != seqno1 then data2[..][loc := seqno2] else data2[..])
      ensures next[..] == old(next[..])[loc := old(next[i])][i := loc]
    {
      data1[loc] := seqno1;
      if seqno2 != seqno1 {
        data2[loc] := seqno2;
      }
      next[loc] := next[i];
      next[i] := loc;
    }

    /** A run written after the run at cell `i`. */
    method PutAfter(seqno1: SeqNum, seqno2: SeqNum, loc: int, i: int, ghost a: int, ghost b: int)
      requires Valid() && runs != map[] && seqno1 == Num(a) && seqno2 == Num(b) && base < a <= b < base + size &&
               a !in runs
      requires 0 <= loc < size && List().NumAt(loc) == a
      requires 0 <= i < size && List().NumAt(i) in runs && List().NumAt(i) < a && runs[List().NumAt(i)] < a
      requires next[i] == -1 || (0 <= next[i] < size && a < List().NumAt(next[i]))
      requires forall x :: x in runs ==> x <= List().NumAt(i) || a < x
      modifies this, data1, data2, next
      ensures Extending(loc) && List().NumAt(loc) == a && a in runs && Merged(runs, a) == old(Lost()) + Interval(a, b)
    {
      hide Num, SeqLen, Chain.LinkOk, Chain.CellOk, Chain.Layout, Chain.NumAt, Interval, Elems, Merged, Pending;
      ghost var l := List();
      PutFacts(l, a, b, loc, i);
      NewPending(runs, a, b);
      lastInsertPos := loc;
      LinkBehind(loc, i, seqno1, seqno2);
      length := length + SeqLen(seqno1, seqno2);
      runs := runs[a := b];
      assert List() == After(l, a, b, loc, i);
    }

    /** A longer run written over the one at cell `loc`. */
    method Grow(seqno2: SeqNum, loc: int, ghost n: int, ghost b: int)
      requires Valid() && runs != map[] && 0 <= loc < size && n == List().NumAt(loc) && n in runs
      requires seqno2 == Num(b) && runs[n] < b < base + size && lastInsertPos == loc
      modifies data2, this`length, this`runs
      ensures Extending(loc) && List().NumAt(loc) == n && n in runs && Merged(runs, n) == old(Lost()) + Interval(n, b)
    {
      hide Num, Chain.LinkOk, Chain.CellOk, Interval, Elems, Merged, Pending;
      ghost var l := List();
      ResizedKeeps(l, loc, b);
      ExtendPending(runs, n, b);
      LinkLeads(l, loc);
      LenAgrees(runs[n], b);
      length := length + SeqLen(if data2[loc] == -1 then data1[loc] else data2[loc], seqno2) - 1;
      data2[loc] := seqno2;
      runs := runs[n := b];
      assert List() == Resized(l, loc, b);
    }

    /** `insert` at a number that starts a run, the one at cell `loc`. */
    method InsertOnto(seqno1: SeqNum, seqno2: SeqNum, loc: int, ghost a: int, ghost b: int) returns (grown: bool)
      requires Valid() && runs != map[] && 0 <= loc < size && a == List().NumAt(loc) && a in runs
      requires seqno1 == Num(a) && seqno2 == Num(b) && a <= b < base + size
      modifies data2, this`length, this`runs, this`lastInsertPos
      ensures if grown then
                Extending(loc) && List().NumAt(loc) == a && a in runs && Merged(runs, a) == old(Lost()) + Interval(a, b)
              else
                Valid() && Lost() == old(Lost()) == old(Lost()) + Interval(a, b) && length == old(length)
    {
      hide Num, Chain.CellOk, Chain.LinkOk, Interval, Elems, Merged, Pending, Near;
      lastInsertPos := loc;
      LinkLeads(List(), loc);
      Compare(a, b);
      Compare(b, runs[a]);
      if data2[loc] == -1 {
        if seqno2 != seqno1 {
          Grow(seqno2, loc, a, b);
          return true;
        }
      } else if SeqCmp(seqno2, data2[loc]) > 0 {
        Grow(seqno2, loc, a, b);
        return true;
      }
      CoverInside(runs, a, a, b);
      return false;
    }

    /** `insert` at a number that starts no run. */
    method InsertBetween(seqno1: SeqNum, seqno2: SeqNum, loc: int, ghost a: int, ghost b: int)
      returns (grown: bool, at: int)
      requires Valid() && runs != map[] && 0 <= loc < size && a == List().NumAt(loc) && a !in runs
      requires seqno1 == Num(a) && seqno2 == Num(b) && base < a <= b < base + size
      modifies this, data1, data2, next
      ensures if grown then
                && Extending(at) && List().NumAt(at) in runs
                && Merged(runs, List().NumAt(at)) == old(Lost()) + Interval(a, b)
              else
                Valid() && Lost() == old(Lost()) == old(Lost()) + Interval(a, b) && length == old(length)
    {
      hide Num, Chain.CellOk, Chain.LinkOk, Interval, Elems, Merged, Pending, Near;
      var i := FindPrior(seqno1, a);
      ghost var n := List().NumAt(i);
      LinkLeads(List(), i);
      Compare(runs[n], a);
      Compare(runs[n], b);
      if data2[i] == -1 || SeqCmp(data2[i], seqno1) < 0 {
        PutAfter(seqno1, seqno2, loc, i, a, b);
        return true, loc;
      }
      lastInsertPos := i;
      if SeqCmp(data2[i], seqno2) < 0 {
        CoverJoin(runs, n, a, b);
        Grow(seqno2, i, n, b);
        return true, i;
      }
      CoverInside(runs, n, a, b);
      return false, i;
    }

    /** `insert` into a list with runs. */
    method InsertMore(seqno1: SeqNum, seqno2: SeqNum, ghost a: int, ghost b: int)
      requires Valid() && runs != map[] && seqno1 == Num(a) && seqno2 == Num(b) && Fits(a, b)
      modifies this, data1, data2, next
      ensures Valid() && Lost() == old(Lost()) + Interval(a, b)
    {
      hide SeqCmp, SeqLen, SeqOff, IncSeq, DecSeq, Num, Chain.CellOk, Chain.LinkOk, Interval, Elems, Merged, Pending,
           Near, Extending, Ordered, HintOk, Place;
      ghost var l := List();
      RunsAreLost();
      assert b < base + size && runs[base] < a + size;
      LinkLeads(l, head);
      Compare(base, a);
      var offset := SeqOff(data1[head], seqno1);
      var loc := Place(head, offset, size);
      var grown := true;
      if offset < 0 {
        PutBefore(seqno1, seqno2, loc, a, b);
      } else {
        var starts := StartsRun(loc, seqno1, a);
        if starts {
          grown := InsertOnto(seqno1, seqno2, loc, a, b);
        } else {
          grown, loc := InsertBetween(seqno1, seqno2, loc, a, b);
        }
      }
      if grown {
        Coalesce(loc);
      }
    }

    /** The numbers from `a` to `b` become lost; the result counts those that were not. */
    method Insert(seqno1: SeqNum, seqno2: SeqNum, ghost a: int, ghost b: int) returns (added: int)
      requires Valid() && seqno1 == Num(a) && seqno2 == Num(b) && Fits(a, b)
      modifies this, data1, data2, next
      ensures Valid() && Lost() == old(Lost()) + Interval(a, b)
      ensures added == |Lost() - old(Lost())|
    {
      hide Num, Chain.Layout, Interval, Elems, Ordered, HintOk;
      ghost var was := Lost();
      NoneLost();
      if length == 0 {
        ElemsEmpty();
        InsertFirst(seqno1, seqno2, a, b);
        added := length;
      } else {
        var origlen := length;
        InsertMore(seqno1, seqno2, a, b);
        added := length - origlen;
      }
      NoneLost();
      Gained(was, Lost());
    }

    // --- Removal ------------------------------------------------------------

    /** The arrays as a chain that starts at cell `h`. */
    ghost function From(h: int): Chain
      reads this, data1, data2, next
    {
      Chain(data1[..], data2[..], next[..], h, base, runs)
    }

    /** Every cell is free. */
    ghost predicate Free()
      reads data1, data2
    {
      && (forall p :: 0 <= p < data1.Length ==> data1[p] == -1)
      && (forall p :: 0 <= p < data2.Length ==> data2[p] == -1)
    }

    /** The first run of the chain from cell `h` is erased. */
    method EraseCell(h: int) returns (h2: int)
      requires Separate() && From(h).Layout()
      modifies data1, data2, this`base, this`runs
      ensures h2 == next[h] && runs == old(runs) - {old(base)}
      ensures if h2 == -1 then runs == map[] && Free() else From(h2).Layout()
      ensures h2 != -1 ==> forall p :: 0 <= p < size && old(From(h).NumAt(p)) in runs ==>
              From(h2).NumAt(p) == old(From(h).NumAt(p))
    {
      hide Num, Chain.LinkOk, Chain.CellOk;
      ghost var l := From(h);
      h2 := next[h];
      if h2 == -1 {
        LastDropped(l);
      } else {
        DroppedKeeps(l);
        LinkLeads(l, h);
      }
      data1[h] := -1;
      data2[h] := -1;
      base, runs := l.NumAt(h2), runs - {base};
      if h2 != -1 {
        assert From(h2) == Dropped(l);
      }
    }

    /** The writes that move a run from cell `h` to cell `loc`, to start at `start`. */
    method MoveCell(h: int, loc: int, start: int, longer: bool)
      requires Separate() && 0 <= h < size && 0 <= loc < size && h != loc
      modifies data1, data2, next
      ensures data1[..] == old(data1[..])[loc := start][h := -1]
      ensures data2[..] == old(if longer then data2[..][loc := data2[h]][h := -1] else data2[..][h := -1])
      ensures next[..] == old(next[..])[loc := old(next[h])]
    {
      data1[loc] := start;
      if longer {
        data2[loc] := data2[h];
      }
      data1[h] := -1;
      data2[h] := -1;
      next[loc] := next[h];
    }

    /** The first run loses its first number and moves to the next cell. */
    method ShiftHead()
      requires Valid() && runs != map[] && runs[base] > base
      modifies this`head, this`base, this`runs, data1, data2, next
      ensures List().Layout() && base == old(base) + 1
      ensures runs == (old(runs) - {old(base)})[base := old(runs)[old(base)]]
      ensures forall p :: 0 <= p < size && old(List().NumAt(p)) > old(base) ==> List().NumAt(p) == old(List().NumAt(p))
    {
      hide SeqCmp, SeqLen, SeqOff, IncSeq, DecSeq, Num, Elems, HintOk, Ordered, Chain.Layout, Succ;
      HeadInside(List());
      ghost var l, b := List(), runs[base];
      TrimFirst(runs, base);
      var loc := Succ(head, size);
      ShiftFacts(l, loc);
      var start := IncSeq(data1[head]);
      MoveCell(head, loc, start, SeqCmp(data2[head], start) > 0);
      head := loc;
      base, runs := base + 1, (runs - {base})[base + 1 := b];
      assert List() == Shifted(l, loc);
    }

    /** The hint is forgotten if it leads to the head. */
    method ForgetHint()
      requires Valid() && runs != map[]
      modifies this`lastInsertPos
      ensures Valid() && (lastInsertPos == -1 || List().NumAt(lastInsertPos) in runs - {base})
    {
      hide Num, Chain.LinkOk, Chain.CellOk, Elems, Near, Ordered;
      HeadInside(List());
      if lastInsertPos != -1 {
        NumOfCell(List(), lastInsertPos);
      }
      if lastInsertPos == head {
        lastInsertPos := -1;
      }
    }

    /** The head, a run of one number, is erased. */
    method DropHead()
      requires Valid() && runs != map[] && runs[base] == base && 0 <= head < size
      requires lastInsertPos == -1 || List().NumAt(lastInsertPos) in runs - {base}
      modifies this`head, this`base, this`runs, this`length, data1, data2
      ensures Valid() && Lost() == old(Lost()) - {old(base)}
    {
      hide Num, Chain.LinkOk, Chain.CellOk, Chain.NumAt, Elems, Ordered;
      ElemsEmpty();
      DropSingle(runs, base);
      head := EraseCell(head);
      length := length - 1;
    }

    /** The head loses its first number. */
    method TrimHead()
      requires Valid() && runs != map[] && runs[base] > base
      requires lastInsertPos == -1 || List().NumAt(lastInsertPos) in runs - {base}
      modifies this`head, this`base, this`runs, this`length, data1, data2, next
      ensures Valid() && Lost() == old(Lost()) - {old(base)}
    {
      hide Num, Chain.LinkOk, Chain.CellOk, Chain.NumAt, Elems, Ordered;
      HeadInside(List());
      TrimFirst(runs, base);
      ShiftHead();
      length := length - 1;
    }

    /** The first lost number is removed; the run hint is forgotten if it led there. */
    method DropFirst()
      requires Valid() && runs != map[]
      modifies this, data1, data2, next
      ensures Valid() && Lost() == old(Lost()) - {old(base)}
    {
      hide Num, Chain.LinkOk, Chain.CellOk, Chain.NumAt, Elems, Ordered;
      ForgetHint();
      HeadInside(List());
      LinkLeads(List(), head);
      if data2[head] == -1 {
        DropHead();
      } else {
        TrimHead();
      }
    }

    method GetLossLength() returns (n: int)
      requires Valid()
      ensures n == |Lost()|
    {
      NoneLost();
      n := length;
    }

    /** The least lost number, which is removed; -1 when nothing is lost. */
    method GetLostSeq() returns (seqno: int)
      requires Valid()
      modifies this, data1, data2, next
      ensures Valid()
      ensures old(Lost()) == {} ==> seqno == -1 && Lost() == {}
      ensures old(Lost()) != {} ==> seqno == Num(Least(old(Lost()))) && Lost() == old(Lost()) - {Least(old(Lost()))}
    {
      hide Num, Chain.LinkOk, Chain.CellOk, Elems, Least, Ordered, HintOk;
      NoneLost();
      ElemsEmpty();
      if length == 0 {
        return -1;
      }
      LeastElem(runs, base);
      LinkLeads(List(), head);
      seqno := data1[head];
      DropFirst();
    }

    /** The writes that cut the run at cell `i` after number `seqno`, the rest going to `loc`. */
    method CutCell(i: int, loc: int, seqno: int, start: int, longer: bool, single: bool)
      requires Separate() && 0 <= i < size && 0 <= loc < size && i != loc
      modifies data1, data2, next
      ensures data1[..] == old(data1[..])[loc := start]
      ensures data2[..] ==
              old(if longer then data2[..][loc := data2[i]] else data2[..])[i := if single then -1 else seqno]
      ensures next[..] == old(next[..])[loc := old(next[i])][i := loc]
    {
      data1[loc] := start;
      if longer {
        data2[loc] := data2[i];
      }
      next[loc] := next[i];
      next[i] := loc;
      data2[i] := if single then -1 else seqno;
    }

    /** The run at cell `i` is cut after number `n`; the rest starts at cell `loc`. */
    method CutRun(i: int, loc: int, seqno: SeqNum, ghost n: int)
      requires Valid() && runs != map[] && 0 <= i < size && 0 <= loc < size && seqno == Num(n)
      requires List().NumAt(i) in runs && List().NumAt(i) <= n < runs[List().NumAt(i)] && List().NumAt(loc) == n + 1
      modifies data1, data2, next, this`runs
      ensures Valid() && runs == old(runs[List().NumAt(i) := n][n + 1 := runs[List().NumAt(i)]]) &&
              Lost() == old(Lost())
      ensures List().NumAt(loc) == n + 1
    {
      hide SeqCmp, SeqLen, SeqOff, IncSeq, DecSeq, Num, Chain.Layout, Elems, Ordered, Interval;
      ghost var l := List();
      ghost var lo, hi := l.NumAt(i), runs[l.NumAt(i)];
      SplitRun(runs, lo, n);
      CutFacts(l, i, loc, n);
      var start := IncSeq(seqno);
      CutCell(i, loc, seqno, start, SeqCmp(data2[i], start) > 0, data1[i] == seqno);
      runs := runs[lo := n][n + 1 := hi];
      assert List() == After(Resized(l, i, n), n + 1, hi, loc, i);
    }

    /** One run that ends by `n` is erased and no longer counted. */
    method DropRun(h: int, ghost n: int) returns (h2: int)
      requires Separate() && From(h).Layout() && Ordered(runs) && length == |Elems(runs)| && runs[base] <= n
      requires lastInsertPos == -1 || (0 <= lastInsertPos < size && From(h).NumAt(lastInsertPos) in runs)
      modifies data1, data2, this`base, this`runs, this`length, this`lastInsertPos
      ensures runs == old(runs) - {old(base)} && Ordered(runs) && length == |Elems(runs)|
      ensures Above(Elems(runs), n) == old(Above(Elems(runs), n))
      ensures if h2 == -1 then runs == map[] && Free() && lastInsertPos == -1
              else From(h2).Layout() &&
                   (lastInsertPos == -1 || (0 <= lastInsertPos < size && From(h2).NumAt(lastInsertPos) in runs))
      ensures h2 != -1 ==> forall p :: 0 <= p < size && old(From(h).NumAt(p)) in runs ==>
              From(h2).NumAt(p) == old(From(h).NumAt(p))
    {
      hide Num, Chain.CellOk, Chain.LinkOk, Elems, Ordered, Above, Near;
      ghost var l := From(h);
      LinkLeads(l, h);
      DropBelow(runs, base, n);
      LenAgrees(base, runs[base]);
      if data2[h] != -1 {
        length := length - SeqLen(data1[h], data2[h]);
      } else {
        length := length - 1;
      }
      if lastInsertPos != -1 {
        NumOfCell(l, lastInsertPos);
      }
      if lastInsertPos == h {
        lastInsertPos := -1;
      }
      assert lastInsertPos == -1 || l.NumAt(lastInsertPos) in l.runs - {base};
      h2 := EraseCell(h);
    }

    /** Every run before the one at cell `target` is erased; all of them when that is -1. */
    method DropUpTo(target: int, ghost n: int)
      requires Valid() && runs != map[] && base <= n
      requires if target == -1 then forall x :: x in runs ==> runs[x] <= n
               else 0 <= target < size && List().NumAt(target) in runs && List().NumAt(target) > n &&
                    forall x :: x in runs && x < List().NumAt(target) ==> runs[x] <= n
      modifies this, data1, data2, next
      ensures Valid() && Lost() == Above(old(Lost()), n)
    {
      hide SeqCmp, SeqLen, SeqOff, IncSeq, DecSeq, Num, Chain.CellOk, Chain.LinkOk, Chain.Layout, Elems, Ordered, Above;
      ghost var goal, t := Above(Lost(), n), if target == -1 then -1 else List().NumAt(target);
      HeadInside(List());
      var h := head;
      head := target;
      while h != head
        invariant head == target
        invariant h == -1 ==> runs == map[] && Free() && lastInsertPos == -1 && target == -1
        invariant h != -1 ==> From(h).Layout()
        invariant h != -1 ==> lastInsertPos == -1 || (0 <= lastInsertPos < size && From(h).NumAt(lastInsertPos) in runs)
        invariant Ordered(runs) && length == |Elems(runs)| && Above(Elems(runs), n) == goal
        invariant if target == -1 then forall x :: x in runs ==> runs[x] <= n
                  else h != -1 && From(h).NumAt(target) == t && t in runs && t > n && forall x :: x in runs && x < t ==>
                      runs[x] <= n
        decreases runs.Keys
      {
        HeadInside(From(h));
        if target != -1 {
          NumOfCell(From(h), target);
        }
        h := DropRun(h, n);
        assert target != -1 ==> t in runs;
      }
      if h != -1 {
        HeadInside(From(h));
      }
      AllAbove(runs, n);
      ElemsEmpty();
    }

    /** The last run that starts at or before `n`, looked up in its cell or searched for. */
    method FindRun(seqno: SeqNum, loc: int, ghost n: int) returns (i: int)
      requires Valid() && runs != map[] && seqno == Num(n) && NearRuns(n) && base < n
      requires 0 <= loc < size && (n < base + size ==> List().NumAt(loc) == n)
      ensures 0 <= i < size && List().NumAt(i) in runs && List().NumAt(i) <= n
      ensures forall x :: x in runs ==> x <= List().NumAt(i) || n < x
      ensures next[i] == -1 || (0 <= next[i] < size && n < List().NumAt(next[i]) && List().NumAt(next[i]) in runs)
      ensures List().NumAt(i) == n ==> i == loc
    {
      hide Num, Chain.CellOk, Elems, HintOk, Near, Ordered;
      HeadInside(List());
      i := loc;
      var starts := StartsRun(loc, seqno, n);
      if !starts {
        i := Walk(head, seqno, n);
      }
      LinkLeads(List(), i);
    }

    /** The run behind the one at cell `i`, or what of that lies above `n`. */
    method CutFrom(seqno: SeqNum, i: int, loc: int, ghost n: int) returns (target: int)
      requires Valid() && runs != map[] && seqno == Num(n) && NearRuns(n) && base < n
      requires 0 <= loc < size && (n < base + size ==> List().NumAt(loc) == n)
      requires 0 <= i < size && List().NumAt(i) in runs && List().NumAt(i) <= n
      requires forall x :: x in runs ==> x <= List().NumAt(i) || n < x
      requires next[i] == -1 || (0 <= next[i] < size && n < List().NumAt(next[i]) && List().NumAt(next[i]) in runs)
      requires data2[i] == Second(List().NumAt(i), runs[List().NumAt(i)]) && List().LinkOk(List().NumAt(i), next[i])
      modifies data1, data2, next, this`runs
      ensures Valid() && runs != map[] && base == old(base) && Lost() == old(Lost())
      ensures if target == -1 then forall x :: x in runs ==> runs[x] <= n
              else 0 <= target < size && List().NumAt(target) in runs && List().NumAt(target) > n &&
                   forall x :: x in runs && x < List().NumAt(target) ==> runs[x] <= n
    {
      hide Num, SeqCmp, Chain.CellOk, Chain.Layout, Chain.NumAt, Elems, HintOk, Succ, Ordered;
      ghost var lo := List().NumAt(i);
      Compare(runs[lo], n);
      BeforeIsBelow(runs, lo, if runs[lo] <= n then n else runs[lo]);
      if data2[i] == -1 || SeqCmp(data2[i], seqno) <= 0 {
        target := next[i];
      } else {
        target := Succ(loc, size);
        CutInside(seqno, i, loc, target, n);
      }
    }

    /** The run at cell `i`, which reaches beyond `n`, is cut. */
    method CutInside(seqno: SeqNum, i: int, loc: int, target: int, ghost n: int)
      requires Valid() && runs != map[] && seqno == Num(n) && base < n
      requires 0 <= loc < size && (n < base + size ==> List().NumAt(loc) == n) && target == Succ(loc, size)
      requires 0 <= i < size && List().NumAt(i) in runs && List().NumAt(i) <= n < runs[List().NumAt(i)]
      requires forall x :: x in runs ==> x <= List().NumAt(i) || n < x
      modifies data1, data2, next, this`runs
      ensures Valid() && runs != map[] && Lost() == old(Lost())
      ensures 0 <= target < size && List().NumAt(target) in runs && List().NumAt(target) > n
      ensures forall x :: x in runs && x < List().NumAt(target) ==> runs[x] <= n
    {
      hide Num, Chain.CellOk, Chain.Layout, Elems, HintOk, Succ, Ordered;
      HeadInside(List());
      ghost var lo := List().NumAt(i);
      SplitRun(runs, lo, n);
      CutRun(i, target, seqno, n);
      BeforeIsBelow(runs, lo, n);
    }

    /** The new head when the numbers up to `n` are to go, cutting a run that `n` is inside. */
    method CutAt(seqno: SeqNum, loc: int, ghost n: int) returns (target: int)
      requires Valid() && runs != map[] && seqno == Num(n) && NearRuns(n) && base < n
      requires 0 <= loc < size && (n < base + size ==> List().NumAt(loc) == n)
      modifies data1, data2, next, this`runs
      ensures Valid() && runs != map[] && base == old(base) && Lost() == old(Lost())
      ensures if target == -1 then forall x :: x in runs ==> runs[x] <= n
              else 0 <= target < size && List().NumAt(target) in runs && List().NumAt(target) > n &&
                   forall x :: x in runs && x < List().NumAt(target) ==> runs[x] <= n
    {
      hide Num, Chain.CellOk, Chain.LinkOk, Chain.NumAt, Elems, HintOk, Ordered;
      var i := FindRun(seqno, loc, n);
      LinkLeads(List(), i);
      target := CutFrom(seqno, i, loc, n);
    }

    /** Everything lost up to `n` is dropped: it has been acknowledged. */
    method Remove(seqno: SeqNum, ghost n: int)
      requires Valid() && seqno == Num(n) && NearLost(n)
      modifies this, data1, data2, next
      ensures Valid() && Lost() == Above(old(Lost()), n)
    {
      hide Num, Chain.CellOk, Chain.LinkOk, Elems, HintOk, Near, Place;
      NoneLost();
      if length == 0 {
        ElemsEmpty();
        return;
      }
      ghost var l := List();
      RunsAreLost();
      LinkLeads(l, head);
      Compare(base, n);
      RunsAboveBase(runs, base);
      var offset := SeqOff(data1[head], seqno);
      if offset == 0 {
        DropFirst();
      } else if offset > 0 {
        var loc := Place(head, offset, size);
        var target := CutAt(seqno, loc, n);
        DropUpTo(target, n);
      }
    }
  }

  /** Above the first lost number lies all but itself; below it, nothing is dropped. */
  lemma RunsAboveBase(runs: Runs, base: int)
    requires Ordered(runs) && base in runs && forall x :: x in runs ==> base <= x
    ensures Above(Elems(runs), base) == Elems(runs) - {base}
    ensures forall n :: n < base ==> Above(Elems(runs), n) == Elems(runs)
  {
    hide Elems;
    forall y | y in Elems(runs) ensures y >= base {
      var x := RunOf(runs, y);
    }
  }

  /** What `InsertFirst` finds in the cells it works on. */
  lemma FirstFacts(l: Chain, a: int, b: int)
    requires |l.d1| == |l.d2| == |l.next| && 0 < l.Size() <= THRESHOLD
    requires forall p :: 0 <= p < l.Size() ==> l.d1[p] == -1 && l.d2[p] == -1
    requires a <= b < a + l.Size()
    ensures First(l, a, b).Layout() && First(l, a, b).NumAt(0) == a && l.d2[0] == -1
    ensures (Num(a) == Num(b) <==> a == b) && !FullCircle(Num(a), Num(b)) && SeqLen(Num(a), Num(b)) == b - a + 1
    ensures Ordered(map[a := b]) && Elems(map[a := b]) == Interval(a, b) && |Elems(map[a := b])| == b - a + 1
  {
    hide Num, SeqLen, SeqCmp, SeqOff, Chain.CellOk, Interval, Elems;
    FirstKeeps(l, a, b);
    Compare(a, b);
    LenAgrees(a, b);
    ElemsEmpty();
    ElemsJoin(map[], a, b);
    assert map[][a := b] == map[a := b];
  }

  /** What `PutBefore` finds in the cells it works on. */
  lemma FrontFacts(l: Chain, a: int, b: int, loc: int)
    requires l.Layout() && a < l.base && a <= b < a + l.Size()
    requires forall n :: n in l.runs ==> l.runs[n] < a + l.Size()
    requires 0 <= loc < l.Size() && l.NumAt(loc) == a + l.Size()
    ensures Before(l, a, b, loc).Layout() && Before(l, a, b, loc).NumAt(loc) == a
    ensures a !in l.runs && (forall x :: x in l.runs ==> a < x)
    ensures l.d2[loc] == -1 && (Num(a) == Num(b) <==> a == b)
    ensures !FullCircle(Num(a), Num(b)) && SeqLen(Num(a), Num(b)) == b - a + 1
  {
    hide Num, SeqLen, SeqCmp, SeqOff, Chain.LinkOk;
    BeforeKeeps(l, a, b, loc);
    Compare(a, b);
    LenAgrees(a, b);
    assert l.CellOk(loc);
  }

  /** What `PutAfter` finds in the cells it works on. */
  lemma PutFacts(l: Chain, a: int, b: int, loc: int, i: int)
    requires l.Layout() && l.base < a <= b < l.base + l.Size()
    requires 0 <= loc < l.Size() && l.NumAt(loc) == a && a !in l.runs
    requires 0 <= i < l.Size() && l.NumAt(i) in l.runs && l.NumAt(i) < a
    requires l.next[i] == -1 || (0 <= l.next[i] < l.Size() && a < l.NumAt(l.next[i]))
    ensures After(l, a, b, loc, i).Layout() && After(l, a, b, loc, i).NumAt(loc) == a
    ensures l.d2[loc] == -1 && (Num(a) == Num(b) <==> a == b)
    ensures !FullCircle(Num(a), Num(b)) && SeqLen(Num(a), Num(b)) == b - a + 1
  {
    hide Num, SeqLen, SeqCmp, SeqOff, Chain.LinkOk;
    AfterKeeps(l, a, b, loc, i);
    Compare(a, b);
    LenAgrees(a, b);
    assert l.CellOk(loc);
  }

  /** What `CutRun` finds in the cells it works on. */
  lemma CutFacts(l: Chain, i: int, loc: int, n: int)
    requires l.Layout() && Ordered(l.runs) && 0 <= i < l.Size() && 0 <= loc < l.Size()
    requires l.NumAt(i) in l.runs && l.NumAt(i) <= n < l.runs[l.NumAt(i)] && l.NumAt(loc) == n + 1
    ensures var lo, hi := l.NumAt(i), l.runs[l.NumAt(i)];
            && i != loc && After(Resized(l, i, n), n + 1, hi, loc, i).Layout()
            && l.d1[loc] == -1 && l.d2[loc] == -1 && l.d1[i] == Num(lo) && l.d2[i] == Num(hi)
            && IncSeq(Num(n)) == Num(n + 1)
            && (SeqCmp(Num(hi), Num(n + 1)) > 0 <==> hi > n + 1)
            && (Num(lo) == Num(n) <==> lo == n)
  {
    hide Num, SeqCmp, Near, Elems, Ordered, Chain.NumAt, Chain.LinkOk, NextRun, LastRun;
    var lo, hi := l.NumAt(i), l.runs[l.NumAt(i)];
    LinkLeads(l, i);
    FreeCell(l, loc, lo, n);
    HeadInside(l);
    ResizedKeeps(l, i, n);
    SameNums(l, Resized(l, i, n));
    IncAgrees(n, Num(n));
    Compare(hi, n + 1);
    Compare(lo, n);
    NextBeyond(l, i, n);
    AfterKeeps(Resized(l, i, n), n + 1, hi, loc, i);
  }

  /** The cell of a number inside a run is free. */
  lemma FreeCell(l: Chain, loc: int, lo: int, n: int)
    requires l.Layout() && Ordered(l.runs) && 0 <= loc < l.Size() && l.NumAt(loc) == n + 1
    requires lo in l.runs && lo <= n < l.runs[lo]
    ensures n + 1 !in l.runs && l.d1[loc] == -1 && l.d2[loc] == -1
  {
    hide Num, Chain.NumAt, Chain.LinkOk;
    InsideRun(l.runs, lo, n + 1, n);
    assert l.CellOk(loc);
  }

  lemma NextBeyond(l: Chain, i: int, n: int)
    requires l.Layout() && Ordered(l.runs) && 0 <= i < l.Size() && l.NumAt(i) in l.runs
    requires l.NumAt(i) <= n < l.runs[l.NumAt(i)]
    ensures l.next[i] != -1 ==> 0 <= l.next[i] < l.Size() && n + 1 < l.NumAt(l.next[i])
  {
    hide Num, Chain.NumAt, Chain.CellOk;
    LinkLeads(l, i);
    InsideRun(l.runs, l.NumAt(i), n + 1, l.NumAt(l.next[i]));
  }

  /** What `ShiftHead` finds in the cells it works on. */
  lemma ShiftFacts(l: Chain, loc: int)
    requires l.Layout() && l.runs[l.base] > l.base && l.base + 1 !in l.runs
    requires 0 <= l.head < l.Size() && loc == Succ(l.head, l.Size())
    ensures 0 <= l.head < l.Size() && 0 <= loc < l.Size() && loc != l.head && Shifted(l, loc).Layout()
    ensures l.d1[loc] == -1 && l.d2[loc] == -1
    ensures l.d1[l.head] == Num(l.base) && l.d2[l.head] == Num(l.runs[l.base])
    ensures IncSeq(Num(l.base)) == Num(l.base + 1)
    ensures SeqCmp(Num(l.runs[l.base]), Num(l.base + 1)) > 0 <==> l.runs[l.base] > l.base + 1
  {
    hide Num, Chain.LinkOk, Near, Succ;
    LinkLeads(l, l.head);
    assert l.CellOk(loc);
    ShiftedKeeps(l, loc);
    IncAgrees(l.base, Num(l.base));
    Compare(l.runs[l.base], l.base + 1);
  }

  lemma Gained(was: set<int>, now: set<int>)
    requires was <= now
    ensures |now - was| == |now| - |was|
  {
    assert now == was + (now - was);
  }

  lemma Compare(n: int, a: int)
    requires -THRESHOLD < a - n < THRESHOLD
    ensures SeqCmp(Num(n), Num(a)) < 0 <==> n < a
    ensures SeqCmp(Num(n), Num(a)) > 0 <==> n > a
    ensures SeqOff(Num(n), Num(a)) == a - n
    ensures Num(n) == Num(a) <==> n == a
  {
    CmpAgrees(n, a);
    OffAgrees(n, a);
    EqAgrees(n, a);
  }
}
