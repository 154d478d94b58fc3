/** The list of sockets with something to send: a heap of nodes that know their place. */
module SendLists {
  import opened Heaps

  /** A socket's node: when it is due, and its place on the heap or -1. */
  class SNode {
    var timeStamp: int
    var heapLoc: int

    constructor ()
      ensures heapLoc == -1
    {
      timeStamp, heapLoc := 0, -1;
    }
  }

  class SndUList {
    var heap: array<SNode?>
    var lastEntry: int
    ghost var nodes: set<SNode>

    /** The heap's array holds nodes of sockets, up to the last entry. */
    ghost predicate Shape()
      reads this, heap
    {
      heap.Length > 0 && -1 <= lastEntry < heap.Length &&
      forall i :: 0 <= i <= lastEntry ==> heap[i] != null && heap[i] in nodes
    }

    /** Every node on the heap knows its place, except that at `but`. */
    ghost predicate Located(but: int)
      requires Shape()
      reads this, heap, nodes`heapLoc
    {
      forall i :: 0 <= i <= lastEntry && i != but ==> heap[i].heapLoc == i
    }

    /** Every node with a place is there, except perhaps `but`. */
    ghost predicate Known(but: SNode?)
      requires Shape()
      reads this, heap, nodes`heapLoc
    {
      forall n :: n in nodes && n != but && n.heapLoc != -1 ==> 0 <= n.heapLoc <= lastEntry && heap[n.heapLoc] == n
    }

    /** The first `k` entries of the heap. */
    ghost function EntriesTo(k: nat): (h: seq<Entry<SNode?>>)
      requires Shape() && k <= lastEntry + 1
      reads this, heap, nodes`timeStamp
      ensures |h| == k
      ensures forall i :: 0 <= i < k ==> h[i] == Entry(heap[i], heap[i].timeStamp)
    {
      if k == 0 then [] else EntriesTo(k - 1) + [Entry(heap[k - 1], heap[k - 1].timeStamp)]
    }

    /** The heap's entries. */
    ghost function Entries(): (h: seq<Entry<SNode?>>)
      requires Shape()
      reads this, heap, nodes`timeStamp
      ensures |h| == lastEntry + 1
      ensures forall i :: 0 <= i < |h| ==> h[i] == Entry(heap[i], heap[i].timeStamp)
    {
      EntriesTo(lastEntry + 1)
    }

    /** The node is on the heap, where it says. */
    ghost predicate On(n: SNode)
      requires Shape()
      reads this, heap, n`heapLoc
    {
      0 <= n.heapLoc <= lastEntry && heap[n.heapLoc] == n
    }

    /** A node's place is exact: the heap holds it there, or it is on no heap. */
    ghost predicate Valid()
      reads this, heap, nodes`heapLoc
    {
      Shape() && Located(-1) && Known(null)
    }

    constructor ()
      ensures Valid() && Entries() == [] && nodes == {} && fresh(heap)
    {
      heap := new SNode?[4096](_ => null);
      lastEntry, nodes := -1, {};
    }

    /** A new socket's node is on no heap. */
    ghost method Adopt(n: SNode)
      requires Valid() && n.heapLoc == -1
      modifies this`nodes
      ensures Valid() && nodes == old(nodes) + {n} && Entries() == old(Entries())
    {
      nodes := nodes + {n};
    }

    // --- Insertion ----------------------------------------------------------

    /** Two nodes change places; the one that moves down to `q` is told. */
    method SwapUp(p: nat, q: nat)
      requires Shape() && p < q <= lastEntry && Located(q) && Known(heap[q]) && heap[q].heapLoc == -1
      modifies heap, nodes`heapLoc
      ensures Shape() && Located(p) && heap[p] == old(heap[q]) && Known(heap[p]) && heap[p].heapLoc == -1
      ensures Entries() == Swapped(old(Entries()), p, q)
    {
      var t := heap[p];
      heap[p] := heap[q];
      heap[q] := t;
      t.heapLoc := q;
    }

    /** The node at `q0`, whose place is not recorded yet, moves up; the others' places are
        kept exact. */
    method MoveUp(q0: nat) returns (q: nat)
      requires Shape() && q0 <= lastEntry && Located(q0) && Known(heap[q0]) && heap[q0].heapLoc == -1
      modifies heap, nodes`heapLoc
      ensures Shape() && q <= lastEntry && heap[q] == old(heap[q0]) && Located(q) && Known(heap[q]) &&
              heap[q].heapLoc == -1
      ensures Entries() == SiftUp(old(Entries()), q0)
    {
      hide SiftUp, Located, Known;
      q := q0;
      ghost var goal := SiftUp(Entries(), q0);
      var p := q;
      while p != 0
        invariant Shape() && p == q <= lastEntry && heap[q] == old(heap[q0]) && Located(q) && Known(heap[q]) &&
                  heap[q].heapLoc == -1
        invariant SiftUp(Entries(), q) == goal
        decreases p
      {
        UpStep(Entries(), q);
        p := (q - 1) / 2;
        if heap[p].timeStamp > heap[q].timeStamp {
          SwapUp(p, q);
          q := p;
        } else {
          return;
        }
      }
      UpStep(Entries(), q);
    }

    /** A node that is on no heap is put behind the last one. */
    method PutLast(ts: int, n: SNode)
      requires Valid() && n in nodes && n.heapLoc == -1 && lastEntry + 1 < heap.Length
      modifies this`lastEntry, heap, n`timeStamp
      ensures Shape() && lastEntry == old(lastEntry) + 1 && heap[lastEntry] == n && Located(lastEntry) &&
              Known(n) && n.heapLoc == -1
      ensures Entries() == old(Entries()) + [Entry(n, ts)]
    {
      lastEntry := lastEntry + 1;
      heap[lastEntry] := n;
      n.timeStamp := ts;
    }

    /** A node is put on the heap, unless it is there; there must be room. */
    method Insert_(ts: int, n: SNode)
      requires Valid() && n in nodes && (n.heapLoc == -1 ==> lastEntry + 1 < heap.Length)
      modifies this`lastEntry, heap, nodes`heapLoc, n`timeStamp
      ensures Valid() && On(n)
      ensures Entries() == if old(n.heapLoc) >= 0 then old(Entries()) else Added(old(Entries()), Entry(n, ts))
    {
      hide Known, Located, SiftUp;
      Absent(n);
      if n.heapLoc >= 0 {
        return;
      }
      PutLast(ts, n);
      var q := MoveUp(lastEntry);
      SetPlace(n, q);
    }

    lemma Absent(n: SNode)
      requires Valid() && n in nodes
      ensures -1 <= n.heapLoc <= lastEntry && (n.heapLoc >= 0 ==> On(n))
      ensures n.heapLoc >= 0 ==> Entries()[n.heapLoc] == DueAt(n, n.timeStamp)
      ensures forall i :: 0 <= i <= lastEntry ==> (heap[i] == n <==> n.heapLoc == i)
    {}

    method SetPlace(n: SNode, q: nat)
      requires Shape() && q <= lastEntry && heap[q] == n && Located(q) && Known(n) && n.heapLoc == -1
      modifies n`heapLoc
      ensures Valid() && On(n) && Entries() == old(Entries())
    {
      n.heapLoc := q;
    }

    /** A node is put on the heap, which grows when it is full. */
    method Insert(ts: int, n: SNode)
      requires Valid() && n in nodes
      modifies this`lastEntry, this`heap, heap, nodes`heapLoc, n`timeStamp
      ensures Valid() && On(n) && fresh({heap} - {old(heap)})
      ensures Entries() == if old(n.heapLoc) >= 0 then old(Entries()) else Added(old(Entries()), Entry(n, ts))
    {
      hide Known, Located, Added;
      if lastEntry == heap.Length - 1 {
        Grow();
      }
      Insert_(ts, n);
    }

    method Grow()
      requires Valid()
      modifies this`heap
      ensures Valid() && Entries() == old(Entries()) && heap.Length == 2 * old(heap.Length) && fresh(heap)
    {
      heap := Doubled();
    }

    method Doubled() returns (temp: array<SNode?>)
      ensures fresh(temp) && temp.Length == 2 * heap.Length
      ensures forall k :: 0 <= k < heap.Length ==> temp[k] == heap[k]
    {
      temp := new SNode?[heap.Length * 2](_ => null);
      for i := 0 to heap.Length
        modifies temp
        invariant forall k :: 0 <= k < i ==> temp[k] == heap[k]
      {
        temp[i] := heap[i];
      }
    }

    // --- Removal --------------------------------------------------------------

    /** Two nodes change places, and both are told. */
    method SwapDown(q: nat, p: nat, ghost gone: SNode)
      requires Shape() && q < p <= lastEntry && Located(-1) && Known(gone) && Without(gone)
      modifies heap, nodes`heapLoc
      ensures Shape() && Located(-1) && Known(gone) && Without(gone)
      ensures Entries() == Swapped(old(Entries()), q, p)
    {
      var t := heap[p];
      heap[p] := heap[q];
      heap[p].heapLoc := p;
      heap[q] := t;
      heap[q].heapLoc := q;
    }

    ghost predicate Without(gone: SNode)
      reads this, heap
    {
      forall i :: 0 <= i <= lastEntry && i < heap.Length ==> heap[i] != gone
    }

    /** The node at `q0` moves down. */
    method MoveDown(q0: nat, ghost gone: SNode)
      requires Shape() && q0 <= lastEntry && Located(-1) && Known(gone) && Without(gone)
      modifies heap, nodes`heapLoc
      ensures Shape() && Located(-1) && Known(gone) && Without(gone)
      ensures Entries() == SiftDown(old(Entries()), q0)
    {
      hide SiftDown, Swapped, Located, Known, SndUList.Without;
      var q := q0;
      ghost var goal := SiftDown(Entries(), q0);
      var p := q * 2 + 1;
      while p <= lastEntry
        invariant Shape() && 0 <= q <= lastEntry && p == 2 * q + 1 && Located(-1) && Known(gone) && Without(gone)
        invariant SiftDown(Entries(), q) == goal
        decreases lastEntry - q
      {
        DownStep(Entries(), q);
        if p + 1 <= lastEntry && heap[p].timeStamp > heap[p + 1].timeStamp {
          p := p + 1;
        }
        if heap[q].timeStamp > heap[p].timeStamp {
          SwapDown(q, p, gone);
          q := p;
          p := q * 2 + 1;
        } else {
          return;
        }
      }
      DownStep(Entries(), q);
    }

    /** The last node is moved to place `k`, where `n` was, and is not told. */
    method MoveLast(k: nat, ghost n: SNode, ghost m: SNode)
      requires Valid() && n in nodes && n.heapLoc == k && m == heap[lastEntry]
      modifies this`lastEntry, heap
      ensures Shape() && lastEntry == old(lastEntry) - 1 && k <= lastEntry + 1 && heap[k] == m && Located(k)
      ensures Without(n) && Settled(n, m) && (k == lastEntry + 1 <==> m == n)
      ensures Entries() == Replaced(old(Entries()), k)
    {
      heap[k] := heap[lastEntry];
      lastEntry := lastEntry - 1;
    }

    /** Every node with a place is there, except perhaps two. */
    ghost predicate Settled(n: SNode, m: SNode)
      requires Shape()
      reads this, heap, nodes`heapLoc
    {
      forall x :: x in nodes && x != n && x != m && x.heapLoc != -1 ==>
        0 <= x.heapLoc <= lastEntry && heap[x.heapLoc] == x
    }

    /** The last node takes the place of `n`. */
    method TakePlace(n: SNode) returns (k: nat)
      requires Valid() && n in nodes && n.heapLoc >= 0
      modifies this`lastEntry, heap, nodes`heapLoc
      ensures Shape() && lastEntry == old(lastEntry) - 1 && k == old(n.heapLoc) <= lastEntry + 1
      ensures Located(-1) && Known(n) && Without(n) && n.heapLoc == k
      ensures Entries() == Replaced(old(Entries()), k)
    {
      hide Replaced;
      k := n.heapLoc;
      MoveLast(k, n, heap[lastEntry]);
      heap[k].heapLoc := k;
    }

    /** A node is taken off the heap, if it is on it. */
    method Remove_(n: SNode)
      requires Valid() && n in nodes
      modifies this`lastEntry, heap, nodes`heapLoc
      ensures Valid() && n.heapLoc == -1
      ensures Entries() == if old(n.heapLoc) >= 0 then Heaps.Without(old(Entries()), old(n.heapLoc)) else old(Entries())
    {
      hide Known, Located, SiftDown;
      Absent(n);
      if n.heapLoc >= 0 {
        var k := TakePlace(n);
        if k <= lastEntry {
          MoveDown(k, n);
        }
        ClearPlace(n);
      }
    }

    method ClearPlace(n: SNode)
      requires Shape() && Located(-1) && Known(n) && Without(n)
      modifies n`heapLoc
      ensures Valid() && n.heapLoc == -1 && Entries() == old(Entries())
    {
      n.heapLoc := -1;
    }

    // --- Scheduling -----------------------------------------------------------

    method Remove(n: SNode)
      requires Valid() && n in nodes
      modifies this`lastEntry, heap, nodes`heapLoc
      ensures Valid() && n.heapLoc == -1
      ensures Entries() == if old(n.heapLoc) >= 0 then Heaps.Without(old(Entries()), old(n.heapLoc)) else old(Entries())
    {
      Remove_(n);
    }

    /** The node at the root becomes due at time 1. */
    method Hurry(n: SNode)
      requires Valid() && n in nodes && n.heapLoc == 0
      modifies n`timeStamp
      ensures Valid() && On(n) && Entries() == old(Entries())[0 := DueAt(n, 1)]
    {
      hide Known, Located;
      Absent(n);
      n.timeStamp := 1;
    }

    /** A socket is to be served at once, if it is not on the heap or is to be rescheduled: its
        entry, if any, gives way to one that is due at time 1. The node is on the heap in any
        case. Unlike `Insert` this does not grow the array. */
    method Update(n: SNode, reschedule: bool)
      requires Valid() && n in nodes && (n.heapLoc == -1 ==> lastEntry + 1 < heap.Length)
      modifies this`lastEntry, heap, nodes`heapLoc, n`timeStamp
      ensures Valid() && On(n)
      ensures Entries() == Updated(old(Entries()), n, old(n.heapLoc), reschedule)
      ensures multiset(Entries()) ==
              if old(n.heapLoc) == -1 then multiset(old(Entries())) + multiset{DueAt(n, 1)}
              else if reschedule then
                multiset(old(Entries())) - multiset{DueAt(n, old(n.timeStamp))} + multiset{DueAt(n, 1)}
              else multiset(old(Entries()))
    {
      hide Known, Located, On, Added, Heaps.Without, Updated, DueAt;
      Absent(n);
      UpdatedSame(Entries(), n, n.heapLoc, n.timeStamp, reschedule);
      UpdatedIs(Entries(), n, n.heapLoc, reschedule);
      if n.heapLoc >= 0 {
        if !reschedule {
          return;
        }
        if n.heapLoc == 0 {
          Hurry(n);
          return;
        }
        Remove_(n);
      }
      Insert_(1, n);
    }

    /** The node due first is taken off the heap, when it is due. */
    method PopDue(now: int) returns (n: SNode?)
      requires Valid()
      modifies this`lastEntry, heap, nodes`heapLoc
      ensures Valid()
      ensures var h := old(Entries());
              if h != [] && h[0].time <= now then n == h[0].node && n.heapLoc == -1 && Entries() == Heaps.Without(h, 0)
              else n == null && Entries() == h
    {
      hide Known, Heaps.Without;
      if lastEntry == -1 || now < heap[0].timeStamp {
        return null;
      }
      n := heap[0];
      Remove_(n);
    }

    /** When the next node is due, or 0. */
    method GetNextProcTime() returns (t: int)
      requires Valid()
      ensures Entries() == [] ==> t == 0
      ensures Entries() != [] ==> t == Entries()[0].time
      ensures Entries() != [] && Ordered(Entries()) ==> forall i :: 0 <= i < |Entries()| ==> t <= Entries()[i].time
    {
      hide Known, Located, Ordered;
      if lastEntry == -1 {
        return 0;
      }
      t := heap[0].timeStamp;
      ghost var h := Entries();
      if Ordered(h) {
        forall i | 0 <= i < |h| ensures t <= h[i].time {
          RootLeast(h, i);
        }
      }
    }
  }

  lemma UpStep<T>(h: seq<Entry<T>>, q: nat)
    requires q < |h|
    ensures SiftUp(h, q) ==
            if q == 0 || h[Parent(q)].time <= h[q].time then h
            else SiftUp(Swapped(h, Parent(q), q), Parent(q))
  {}

  lemma DownStep<T>(h: seq<Entry<T>>, q: nat)
    requires q < |h|
    ensures 2 * q + 1 >= |h| ==> SiftDown(h, q) == h
    ensures 2 * q + 1 < |h| ==>
              var p := if 2 * q + 2 < |h| && h[2 * q + 1].time > h[2 * q + 2].time then 2 * q + 2 else 2 * q + 1;
              SiftDown(h, q) == if h[q].time <= h[p].time then h else SiftDown(Swapped(h, q, p), p)
  {}

  /** What `Update` does to the entries, `loc` being the node's place. */
  ghost function Updated(h: seq<Entry<SNode?>>, n: SNode, loc: int, reschedule: bool): seq<Entry<SNode?>>
    requires -1 <= loc < |h|
  {
    if loc == -1 then Added(h, Entry(n, 1))
    else if !reschedule then h
    else if loc == 0 then h[0 := Entry(n, 1)]
    else Added(Heaps.Without(h, loc), Entry(n, 1))
  }

  /** A node's entry. */
  function DueAt(n: SNode?, time: int): Entry<SNode?> {
    Entry(n, time)
  }

  lemma UpdatedIs(h: seq<Entry<SNode?>>, n: SNode, loc: int, reschedule: bool)
    requires -1 <= loc < |h|
    ensures loc == -1 ==> Updated(h, n, loc, reschedule) == Added(h, Entry(n, 1))
    ensures loc >= 0 && !reschedule ==> Updated(h, n, loc, reschedule) == h
    ensures loc == 0 && reschedule ==> Updated(h, n, loc, reschedule) == h[0 := DueAt(n, 1)]
    ensures loc > 0 && reschedule ==> Updated(h, n, loc, reschedule) == Added(Heaps.Without(h, loc), Entry(n, 1))
  {}

  /** An update gives the node one entry due at time 1, in place of what it had; no other entry
      comes or goes. */
  lemma UpdatedSame(h: seq<Entry<SNode?>>, n: SNode, loc: int, time: int, reschedule: bool)
    requires -1 <= loc < |h| && (loc >= 0 ==> h[loc] == DueAt(n, time))
    ensures multiset(Updated(h, n, loc, reschedule)) ==
            if loc == -1 then multiset(h) + multiset{DueAt(n, 1)}
            else if reschedule then multiset(h) - multiset{DueAt(n, time)} + multiset{DueAt(n, 1)}
            else multiset(h)
  {
    hide Added, Heaps.Without;
    if loc == -1 {
      AddedKeeps(h, Entry(n, 1));
    } else if reschedule && loc > 0 {
      WithoutSame(h, loc);
      AddedKeeps(Heaps.Without(h, loc), Entry(n, 1));
    }
  }

  /** An update of a node that is absent or the root is a move of a run that keeps the order;
      any other keeps it if taking the node out does. */
  lemma UpdatedMoves(h: seq<Entry<SNode?>>, n: SNode, loc: int, reschedule: bool)
    requires -1 <= loc < |h| && (loc >= 0 ==> h[loc].node == n)
    ensures loc == -1 ==> Updated(h, n, loc, reschedule) == Next(h, Put(Entry(n, 1)))
    ensures loc == 0 && reschedule ==> Updated(h, n, loc, reschedule) == Next(h, HurryRoot)
    ensures Ordered(h) && Positive(h) && (loc > 0 && reschedule ==> Ordered(Heaps.Without(h, loc))) ==>
              Ordered(Updated(h, n, loc, reschedule))
  {
    hide Ordered, Positive, Added, Heaps.Without;
    if Ordered(h) && Positive(h) {
      if loc == -1 {
        NextKeeps(h, Put(Entry(n, 1)));
      } else if reschedule && loc == 0 {
        NextKeeps(h, Move<SNode?>.HurryRoot);
      } else if reschedule && Ordered(Heaps.Without(h, loc)) {
        AddedKeeps(Heaps.Without(h, loc), Entry(n, 1));
      }
    }
  }
}
