/** The pool of packet units and the receive buffers that hold them. A unit is known by its
    number; the pool is made of chunks of equal size. */
module UnitPools {

  import opened Bytes

  /** A unit, by the chunk of the pool it is in and its place there. */
  datatype Unit = Unit(chunk: nat, index: nat)

  /** A place in a receive buffer. */
  datatype Cell = Cell(buffer: nat, index: nat)

  const FREE: int := 0

  /** The flags of the units, chunk by chunk. */
  type Flags = seq<seq<int>>

  predicate IsUnit(flags: Flags, u: Unit) {
    u.chunk < |flags| && u.index < |flags[u.chunk]|
  }

  function FlagOf(flags: Flags, u: Unit): int {
    if IsUnit(flags, u) then flags[u.chunk][u.index] else FREE
  }

  function SetFlag(flags: Flags, u: Unit, f: int): (g: Flags)
    requires IsUnit(flags, u)
    ensures |g| == |flags| && forall q :: 0 <= q < |g| ==> |g[q]| == |flags[q]|
  {
    flags[u.chunk := flags[u.chunk][u.index := f]]
  }

  lemma SetFlagOf(flags: Flags, u: Unit, f: int)
    requires IsUnit(flags, u)
    ensures forall v :: FlagOf(SetFlag(flags, u, f), v) == if v == u then f else FlagOf(flags, v)
  {}

  /** The units in use. */
  ghost function Busy(flags: Flags): (units: set<Unit>)
    ensures forall u :: u in units <==> FlagOf(flags, u) != FREE
  {
    var units := set q, i | 0 <= q < |flags| && 0 <= i < |flags[q]| && flags[q][i] != FREE :: Unit(q, i);
    assert forall u: Unit :: FlagOf(flags, u) != FREE ==> u == Unit(u.chunk, u.index);
    units
  }

  type Slots = map<nat, seq<Option<Unit>>>

  /** The unit a cell holds. */
  function Holds(slots: Slots, x: Cell): Option<Unit> {
    if x.buffer in slots && x.index < |slots[x.buffer]| then slots[x.buffer][x.index] else None
  }

  function Put(slots: Slots, x: Cell, u: Option<Unit>): Slots
    requires x.buffer in slots && x.index < |slots[x.buffer]|
  {
    slots[x.buffer := slots[x.buffer][x.index := u]]
  }

  lemma PutHolds(slots: Slots, x: Cell, u: Option<Unit>)
    requires x.buffer in slots && x.index < |slots[x.buffer]|
    ensures forall y :: Holds(Put(slots, x, u), y) == if y == x then u else Holds(slots, y)
  {}

  /** The cells that hold a unit. */
  ghost function Occupied(slots: Slots): (cells: set<Cell>)
    ensures forall x :: x in cells <==> Holds(slots, x).Some?
  {
    var cells := set b, c | b in slots && 0 <= c < |slots[b]| && slots[b][c].Some? :: Cell(b, c);
    assert forall x: Cell :: Holds(slots, x).Some? ==> x == Cell(x.buffer, x.index);
    cells
  }

  /** Every unit in use lies in one cell, `owner` of it, and every filled cell owns its unit. */
  ghost predicate Owned(flags: Flags, slots: Slots, owner: map<Unit, Cell>) {
    && owner.Keys == Busy(flags)
    && (forall u :: u in owner ==> Holds(slots, owner[u]) == Some(u))
    && (forall x :: Holds(slots, x).Some? ==> Holds(slots, x).value in owner && owner[Holds(slots, x).value] == x)
  }

  /** What the buffers can see of their units: the flag of the unit in each cell, and FREE
      in a cell without one. */
  ghost function Marks(slots: Slots, flags: Flags): (m: map<nat, seq<int>>)
    ensures m.Keys == slots.Keys && forall b :: b in slots ==> |m[b]| == |slots[b]|
    ensures forall b, c :: b in slots && 0 <= c < |slots[b]| ==>
              m[b][c] == if slots[b][c].Some? then FlagOf(flags, slots[b][c].value) else FREE
  {
    map b | b in slots ::
      seq(|slots[b]|, c requires 0 <= c < |slots[b]| =>
        if slots[b][c].Some? then FlagOf(flags, slots[b][c].value) else FREE)
  }

  /** Who holds which unit, and what the buffers can see of them. */
  datatype Holding = Holding(slots: Slots, marks: map<nat, seq<int>>)

  /** Buffer `b` alone has changed. */
  ghost predicate SameElse(now: Holding, was: Holding, b: nat) {
    && now.slots.Keys == was.slots.Keys && now.marks.Keys == was.marks.Keys
    && (forall x :: x in now.slots && x != b ==> now.slots[x] == was.slots[x])
    && (forall x :: x in now.marks && x != b ==> now.marks[x] == was.marks[x])
  }

  /** Buffer `b` alone has changed, and has taken no unit. */
  ghost predicate Yields(now: Holding, was: Holding, b: nat) {
    && SameElse(now, was, b)
    && (b in now.slots ==>
          && |now.slots[b]| == |was.slots[b]|
          && forall c :: 0 <= c < |now.slots[b]| && now.slots[b][c].Some? ==> now.slots[b][c] == was.slots[b][c])
  }

  lemma YieldsMore(now: Holding, mid: Holding, was: Holding, b: nat)
    requires Yields(mid, was, b) && Yields(now, mid, b)
    ensures Yields(now, was, b)
  {}

  /** A cell gives its unit back, or has it marked. */
  lemma YieldsCell(now: Holding, was: Holding, b: nat, c: nat, f: int)
    requires b in was.slots && b in was.marks && c < |was.slots[b]| && c < |was.marks[b]|
    requires now.slots == was.slots || now.slots == Put(was.slots, Cell(b, c), None)
    requires now.marks == was.marks[b := was.marks[b][c := f]]
    ensures Yields(now, was, b)
  {}

  lemma TakesCell(now: Holding, was: Holding, b: nat, c: nat, u: Option<Unit>)
    requires b in was.slots && b in was.marks && c < |was.slots[b]| && c < |was.marks[b]|
    requires now.slots == Put(was.slots, Cell(b, c), u) && now.marks == was.marks[b := was.marks[b][c := 1]]
    ensures SameElse(now, was, b)
  {}

  lemma YieldsNone(was: Holding, b: nat)
    ensures Yields(was, was, b)
  {}

  /** A change to the unit in one cell is seen in that cell alone. */
  lemma MarksPut(slots: Slots, flags: Flags, owner: map<Unit, Cell>, x: Cell, u: Option<Unit>, v: Unit, f: int)
    requires Owned(flags, slots, owner) && IsUnit(flags, v)
    requires x.buffer in slots && x.index < |slots[x.buffer]|
    requires if u.Some? then u == Some(v) && (Holds(slots, x) == u || FlagOf(flags, v) == FREE)
             else Holds(slots, x) == Some(v) && f == FREE
    ensures var was := Marks(slots, flags);
            Marks(Put(slots, x, u), SetFlag(flags, v, f)) == was[x.buffer := was[x.buffer][x.index := f]]
  {
    hide Marks, SetFlag, FlagOf, Holds, Owned, IsUnit;
    var was, now := Marks(slots, flags), Marks(Put(slots, x, u), SetFlag(flags, v, f));
    forall b, c | b in slots && 0 <= c < |slots[b]|
      ensures now[b][c] == if Cell(b, c) == x then f else was[b][c]
    {
      MarkPut(slots, flags, owner, x, u, v, f, Cell(b, c));
    }
    forall b | b in slots ensures now[b] == was[x.buffer := was[x.buffer][x.index := f]][b] {}
  }

  lemma MarkPut(slots: Slots, flags: Flags, owner: map<Unit, Cell>, x: Cell, u: Option<Unit>, v: Unit, f: int, y: Cell)
    requires Owned(flags, slots, owner) && IsUnit(flags, v)
    requires x.buffer in slots && x.index < |slots[x.buffer]| && y.buffer in slots && y.index < |slots[y.buffer]|
    requires if u.Some? then u == Some(v) && (Holds(slots, x) == u || FlagOf(flags, v) == FREE)
             else Holds(slots, x) == Some(v) && f == FREE
    ensures Marks(Put(slots, x, u), SetFlag(flags, v, f))[y.buffer][y.index] ==
            if y == x then f else Marks(slots, flags)[y.buffer][y.index]
  {
    SetFlagOf(flags, v, f);
    if y != x {
      ElsewhereNot(flags, slots, owner, x, v, y);
    }
    hide Marks, SetFlag, FlagOf, Owned, IsUnit;
  }

  lemma ElsewhereNot(flags: Flags, slots: Slots, owner: map<Unit, Cell>, x: Cell, v: Unit, y: Cell)
    requires Owned(flags, slots, owner) && y != x
    requires Holds(slots, x) == Some(v) || FlagOf(flags, v) == FREE
    ensures Holds(slots, y) != Some(v)
  {
    hide Holds, FlagOf;
  }

  /** Cells that hold nothing do not matter. */
  lemma SameSlots(flags: Flags, slots: Slots, other: Slots, owner: map<Unit, Cell>)
    requires forall x :: Holds(slots, x) == Holds(other, x)
    ensures Occupied(slots) == Occupied(other) && (Owned(flags, slots, owner) <==> Owned(flags, other, owner))
  {
    hide Holds;
    assert Occupied(slots) == Occupied(other);
  }

  lemma SameMarks(slots: Slots, more: Flags, flags: Flags)
    requires forall u :: FlagOf(more, u) == FlagOf(flags, u)
    ensures Marks(slots, more) == Marks(slots, flags)
  {
    hide Marks, FlagOf;
    forall b | b in slots ensures Marks(slots, more)[b] == Marks(slots, flags)[b] {}
  }

  /** Nor does a new chunk of free units. */
  lemma MoreUnits(flags: Flags, n: nat, slots: Slots, owner: map<Unit, Cell>)
    ensures var more := flags + [seq(n, _ => FREE)];
            && Busy(more) == Busy(flags) && (Owned(flags, slots, owner) <==> Owned(more, slots, owner))
            && Marks(slots, more) == Marks(slots, flags)
  {
    var more := flags + [seq(n, _ => FREE)];
    assert forall u :: FlagOf(more, u) == FlagOf(flags, u);
    hide FlagOf, Holds, Marks;
    assert Busy(more) == Busy(flags);
    SameMarks(slots, more, flags);
  }

  /** A free unit is put into an empty cell. */
  lemma TakeOwned(flags: Flags, slots: Slots, owner: map<Unit, Cell>, u: Unit, x: Cell)
    requires Owned(flags, slots, owner) && IsUnit(flags, u) && FlagOf(flags, u) == FREE
    requires x.buffer in slots && x.index < |slots[x.buffer]| && Holds(slots, x) == None
    ensures Owned(SetFlag(flags, u, 1), Put(slots, x, Some(u)), owner[u := x])
    ensures |Busy(SetFlag(flags, u, 1))| == |Busy(flags)| + 1 &&
            |Occupied(Put(slots, x, Some(u)))| == |Occupied(slots)| + 1
  {
    hide Holds, Put, FlagOf, SetFlag, Busy, Occupied, IsUnit;
    SetFlagOf(flags, u, 1);
    PutHolds(slots, x, Some(u));
    assert Busy(SetFlag(flags, u, 1)) == Busy(flags) + {u};
    assert Occupied(Put(slots, x, Some(u))) == Occupied(slots) + {x};
    assert owner[u := x].Keys == owner.Keys + {u};
  }

  /** A cell gives its unit back. */
  lemma FreeOwned(flags: Flags, slots: Slots, owner: map<Unit, Cell>, x: Cell)
    requires Owned(flags, slots, owner) && Holds(slots, x).Some?
    ensures var u := Holds(slots, x).value;
            && IsUnit(flags, u) && FlagOf(flags, u) != FREE && x.buffer in slots && x.index < |slots[x.buffer]|
            && Owned(SetFlag(flags, u, FREE), Put(slots, x, None), owner - {u})
            && |Busy(SetFlag(flags, u, FREE))| == |Busy(flags)| - 1
            && |Occupied(Put(slots, x, None))| == |Occupied(slots)| - 1
  {
    var u := Holds(slots, x).value;
    assert u in Busy(flags);
    hide Holds, Put, FlagOf, SetFlag, Busy, Occupied;
    SetFlagOf(flags, u, FREE);
    PutHolds(slots, x, None);
    assert Busy(SetFlag(flags, u, FREE)) == Busy(flags) - {u};
    assert Occupied(Put(slots, x, None)) == Occupied(slots) - {x};
  }

  /** The unit of a cell is marked, and stays where it is. */
  lemma MarkOwned(flags: Flags, slots: Slots, owner: map<Unit, Cell>, x: Cell)
    requires Owned(flags, slots, owner) && Holds(slots, x).Some?
    ensures var u := Holds(slots, x).value;
            && IsUnit(flags, u) && x.buffer in slots && x.index < |slots[x.buffer]|
            && Busy(SetFlag(flags, u, 2)) == Busy(flags) && Owned(SetFlag(flags, u, 2), slots, owner)
            && Marks(slots, SetFlag(flags, u, 2)) ==
               Marks(slots, flags)[x.buffer := Marks(slots, flags)[x.buffer][x.index := 2]]
  {
    var u := Holds(slots, x).value;
    assert u in Busy(flags);
    assert slots[x.buffer][x.index := Some(u)] == slots[x.buffer];
    assert Put(slots, x, Some(u)) == slots;
    MarksPut(slots, flags, owner, x, Some(u), u, 2);
    SetFlagOf(flags, u, 2);
    hide Holds, Put, FlagOf, SetFlag, IsUnit, Marks;
    assert Busy(SetFlag(flags, u, 2)) == Busy(flags);
  }

  lemma NewMarks(slots: Slots, flags: Flags, b: nat, size: nat)
    requires b !in slots
    ensures Marks(slots[b := seq(size, _ => None)], flags) == Marks(slots, flags)[b := seq(size, _ => FREE)]
  {
    hide Marks, FlagOf;
    var now, goal := Marks(slots[b := seq(size, _ => None)], flags), Marks(slots, flags)[b := seq(size, _ => FREE)];
    forall x | x in now ensures now[x] == goal[x] {}
  }

  /** No unit lies in two cells, and a free unit in none. */
  lemma OneCell(flags: Flags, slots: Slots, owner: map<Unit, Cell>, x: Cell, y: Cell)
    requires Owned(flags, slots, owner) && Holds(slots, x) == Holds(slots, y) && Holds(slots, x).Some?
    ensures x == y && IsUnit(flags, Holds(slots, x).value) && FlagOf(flags, Holds(slots, x).value) != FREE
  {
    assert Holds(slots, x).value in Busy(flags);
  }

  lemma NextEmptied(s: seq<Option<Unit>>, c: nat)
    requires c < |s|
    ensures var w := seq(c, _ => None) + s[c..];
            && |w| == |s| && w[c] == s[c] && seq(c + 1, _ => None) + s[c + 1..] == w[c := None]
            && (s[c] == None ==> w[c := None] == w)
    ensures s[..c + 1] == s[..c] + [s[c]]
  {}

  class UnitPool {
    const chunk: nat
    var flags: Flags
    var size: nat
    var count: int
    var currQueue: nat
    var avail: nat
    var slots: Slots
    ghost var owner: map<Unit, Cell>

    /** The pool is chunks of equal size, and the search stands at a unit of the current one. */
    ghost predicate Shape()
      reads this`flags, this`currQueue, this`avail
    {
      && chunk > 0 && |flags| > 0 && (forall q :: 0 <= q < |flags| ==> |flags[q]| == chunk)
      && currQueue < |flags| && avail < chunk
    }

    /** The count is exact, and so is who holds what. */
    ghost predicate Valid()
      reads this
    {
      Shape() && Owned(flags, slots, owner) && count == |Busy(flags)| == |Occupied(slots)| && size == |flags| * chunk
    }

    /** What the buffers can see of their units. */
    ghost function View(): (m: map<nat, seq<int>>)
      reads this`slots, this`flags
      ensures m.Keys == slots.Keys && forall b :: b in slots ==> |m[b]| == |slots[b]|
    {
      Marks(slots, flags)
    }

    ghost function Held(): Holding
      reads this`slots, this`flags
    {
      Holding(slots, View())
    }

    /** A cell holds a unit exactly when its mark shows. */
    lemma Marked(b: nat, c: nat)
      requires Valid() && b in slots && c < |slots[b]|
      ensures slots[b][c].Some? <==> View()[b][c] != FREE
    {
      if slots[b][c].Some? {
        OneCell(flags, slots, owner, Cell(b, c), Cell(b, c));
      }
    }

    constructor (size: nat)
      requires size > 0
      ensures Valid() && chunk == size && flags == [seq(size, _ => FREE)] && slots == map[]
    {
      chunk, flags, this.size, count, currQueue, avail := size, [seq(size, _ => FREE)], size, 0, 0, 0;
      slots, owner := map[], map[];
      new;
      assert Busy(flags) == {} && Occupied(slots) == {};
    }

    /** A buffer is created. */
    method NewBuffer(b: nat, size: nat)
      requires Valid() && b !in slots
      modifies this`slots
      ensures Valid() && slots == old(slots)[b := seq(size, _ => None)]
      ensures View() == old(View())[b := seq(size, _ => FREE)]
    {
      hide FlagOf, Owned, Occupied, Busy, Marks;
      NewMarks(slots, flags, b, size);
      ghost var was := slots;
      slots := slots[b := seq(size, _ => None)];
      assert forall x :: Holds(slots, x) == Holds(was, x);
      SameSlots(flags, slots, was, owner);
    }

    /** `addData` puts a unit into an empty cell. */
    method Take(b: nat, c: nat, u: Unit)
      requires Valid() && b in slots && c < |slots[b]| && slots[b][c] == None && IsUnit(flags, u) &&
               FlagOf(flags, u) == FREE
      modifies this`flags, this`count, this`slots, this`owner
      ensures Valid() && slots == Put(old(slots), Cell(b, c), Some(u)) && flags == SetFlag(old(flags), u, 1)
      ensures View() == old(View())[b := old(View())[b][c := 1]]
    {
      hide Owned, Busy, Occupied, Marks, SetFlag, FlagOf, IsUnit;
      MarksPut(slots, flags, owner, Cell(b, c), Some(u), u, 1);
      TakeOwned(flags, slots, owner, u, Cell(b, c));
      slots := slots[b := slots[b][c := Some(u)]];
      flags := SetFlag(flags, u, 1);
      count := count + 1;
      owner := owner[u := Cell(b, c)];
    }

    /** `readBuffer`, `readMsg` and `scanMsg` give the unit of a cell back. */
    method Free(b: nat, c: nat)
      requires Valid() && b in slots && c < |slots[b]| && slots[b][c].Some?
      modifies this`flags, this`count, this`slots, this`owner
      ensures Valid() && slots == Put(old(slots), Cell(b, c), None)
      ensures IsUnit(old(flags), old(slots)[b][c].value) && flags == SetFlag(old(flags), old(slots)[b][c].value, FREE)
      ensures View() == old(View())[b := old(View())[b][c := FREE]]
    {
      hide Owned, Busy, Occupied, Marks, SetFlag, FlagOf, IsUnit;
      FreeOwned(flags, slots, owner, Cell(b, c));
      MarksPut(slots, flags, owner, Cell(b, c), None, slots[b][c].value, FREE);
      var u := slots[b][c].value;
      slots := slots[b := slots[b][c := None]];
      flags := SetFlag(flags, u, FREE);
      count := count - 1;
      owner := owner - {u};
    }

    /** A message read before its turn keeps its units, marked. */
    method Mark(b: nat, c: nat)
      requires Valid() && b in slots && c < |slots[b]| && slots[b][c].Some?
      modifies this`flags
      ensures Valid() && IsUnit(old(flags), slots[b][c].value) && flags == SetFlag(old(flags), slots[b][c].value, 2)
      ensures View() == old(View())[b := old(View())[b][c := 2]]
    {
      hide Owned, Busy, Occupied, Marks, SetFlag;
      MarkOwned(flags, slots, owner, Cell(b, c));
      flags := SetFlag(flags, slots[b][c].value, 2);
    }

    /** How far the destruction of a buffer has come: the units of its first `c` cells, of
        those it held before, are free. */
    ghost predicate Emptied(b: nat, c: nat, was: Slots, before: Flags)
      reads this`slots, this`flags
    {
      && b in slots && b in was && c <= |was[b]| && slots == was[b := seq(c, _ => None) + was[b][c..]]
      && |flags| == |before| && (forall q :: 0 <= q < |flags| ==> |flags[q]| == |before[q]|)
      && forall u :: FlagOf(flags, u) == if Some(u) in was[b][..c] then FREE else FlagOf(before, u)
    }

    /** The next cell of a buffer that is destroyed. */
    method DestroyCell(b: nat, c: nat, ghost was: Slots, ghost before: Flags)
      requires Valid() && Emptied(b, c, was, before) && c < |was[b]|
      modifies this`flags, this`count, this`slots, this`owner
      ensures Valid() && Emptied(b, c + 1, was, before)
    {
      hide Valid, FlagOf, IsUnit, SetFlag;
      NextEmptied(was[b], c);
      if slots[b][c].Some? {
        ghost var u, f := slots[b][c].value, flags;
        Free(b, c);
        SetFlagOf(f, u, FREE);
      }
    }

    /** A buffer that is destroyed gives all its units back. */
    method DestroyBuffer(b: nat)
      requires Valid() && b in slots
      modifies this`flags, this`count, this`slots, this`owner
      ensures Valid() && slots == old(slots) - {b}
      ensures forall u :: FlagOf(flags, u) == if Some(u) in old(slots)[b] then FREE else FlagOf(old(flags), u)
    {
      hide Valid, Emptied, FlagOf;
      var n := |slots[b]|;
      EmptiedStart(b);
      for c := 0 to n
        invariant Valid() && Emptied(b, c, old(slots), old(flags))
      {
        DestroyCell(b, c, old(slots), old(flags));
      }
      Forget(b, old(slots), old(flags));
    }

    lemma EmptiedStart(b: nat)
      requires b in slots
      ensures Emptied(b, 0, slots, flags)
    {
      assert seq(0, _ => None) + slots[b][0..] == slots[b];
      assert slots[b := slots[b]] == slots;
    }

    method Forget(b: nat, ghost was: Slots, ghost before: Flags)
      requires Valid() && b in was && Emptied(b, |was[b]|, was, before)
      modifies this`slots
      ensures Valid() && slots == was - {b}
      ensures forall u :: FlagOf(flags, u) == if Some(u) in was[b] then FREE else FlagOf(before, u)
    {
      hide FlagOf, Owned, Occupied, Busy;
      assert was[b][..|was[b]|] == was[b];
      ghost var emptied := slots;
      slots := slots - {b};
      assert forall x :: Holds(slots, x) == Holds(emptied, x);
      SameSlots(flags, slots, emptied, owner);
    }

    // --- Growth and search --------------------------------------------------------

    /** The units in use are counted afresh. */
    method RealCount() returns (n: int)
      requires Shape()
      ensures n == |Busy(flags)|
    {
      n := 0;
      NoneBusy(flags);
      for q := 0 to |flags|
        invariant n == |BusyBefore(flags, q, 0)|
      {
        ChunkBusy(flags, q);
        for i := 0 to chunk
          invariant n == |BusyBefore(flags, q, i)|
        {
          NextBusy(flags, q, i);
          if flags[q][i] != FREE {
            n := n + 1;
          }
        }
        ChunkBusy(flags, q);
      }
      AllBusy(flags);
    }

    /** A chunk is added, unless the pool is less than nine tenths full. The recount changes
        nothing, since the count is exact. */
    method Increase() returns (r: int)
      requires Valid()
      modifies this`flags, this`size, this`count
      ensures Valid() && count == old(count) && View() == old(View())
      ensures if 10 * old(count) < 9 * old(size) then r == -1 && flags == old(flags)
              else r == 0 && flags == old(flags) + [seq(chunk, _ => FREE)]
    {
      hide Owned, Busy, Occupied, FlagOf, Marks;
      count := RealCount();
      if 10 * count < 9 * size {
        return -1;
      }
      MoreUnits(flags, chunk, slots, owner);
      flags := flags + [seq(chunk, _ => FREE)];
      size := size + chunk;
      r := 0;
    }

    /** The search within the current chunk: from the place it stands at up to the last unit
        but one, and then the first. */
    method SearchChunk() returns (found: bool)
      requires Shape()
      modifies this`avail
      ensures Shape()
      ensures found ==> flags[currQueue][avail] == FREE && LookedAt(avail, old(avail), chunk)
      ensures !found ==> forall i :: 0 <= i < chunk && LookedAt(i, old(avail), chunk) ==> flags[currQueue][i] != FREE
    {
      while avail != chunk - 1
        invariant old(avail) <= avail < chunk
        invariant forall i :: old(avail) <= i < avail ==> flags[currQueue][i] != FREE
      {
        if flags[currQueue][avail] == FREE {
          return true;
        }
        avail := avail + 1;
      }
      found := flags[currQueue][0] == FREE;
      if found {
        avail := 0;
      }
    }

    /** The search through all chunks, once round. */
    method Search() returns (found: bool)
      requires Shape()
      modifies this`currQueue, this`avail
      ensures Shape()
      ensures found ==>
                && flags[currQueue][avail] == FREE
                && Looked(Unit(currQueue, avail), old(currQueue), old(avail), chunk)
      ensures !found ==> forall q :: 0 <= q < |flags| ==> Done(flags, q, old(currQueue), old(avail), chunk)
    {
      var entrance, first := currQueue, true;
      ghost var n := |flags|;
      while first || currQueue != entrance
        invariant Shape() && (if first then currQueue == entrance && avail == old(avail) else avail == 0)
        invariant forall q :: 0 <= q < n && Visited(q, entrance, currQueue, first) ==>
                  Done(flags, q, entrance, old(avail), chunk)
        decreases if first then n + 1
                  else if currQueue > entrance then n - currQueue + entrance
                  else entrance - currQueue
      {
        found := SearchChunk();
        if found {
          return;
        }
        assert Done(flags, currQueue, entrance, old(avail), chunk);
        currQueue := if currQueue + 1 < |flags| then currQueue + 1 else 0;
        avail := 0;
        first := false;
      }
      found := false;
    }

    /** A unit for the next packet: one that is free, and so in no buffer; None only when the
        pool is full, or when each free unit is the last of its chunk, or lies before the place
        where the search starts in its chunk. */
    method GetNextAvailUnit() returns (u: Option<Unit>, ghost looked: Flags)
      requires Valid()
      modifies this`flags, this`size, this`count, this`currQueue, this`avail
      ensures Valid() && count == old(count) && View() == old(View())
      ensures looked == if 10 * old(count) > 9 * old(size) then old(flags) + [seq(chunk, _ => FREE)] else old(flags)
      ensures u.Some? ==>
                && flags == looked && count < |looked| * chunk
                && IsUnit(flags, u.value) && FlagOf(flags, u.value) == FREE
                && Looked(u.value, old(currQueue), old(avail), chunk) && forall x :: Holds(slots, x) != u
      ensures u.None? ==>
                || count >= |looked| * chunk
                || forall v :: IsUnit(looked, v) && FlagOf(looked, v) == FREE ==>
                     0 < v.index && (v.index == chunk - 1 || (v.chunk == old(currQueue) && v.index < old(avail)))
    {
      hide Owned, Busy, Occupied, FlagOf, Done, Looked, Marks;
      if count * 10 > size * 9 {
        var r := Increase();
      }
      looked := flags;
      if count >= size {
        return None, looked;
      }
      var found := Search();
      if found {
        u := Some(Unit(currQueue, avail));
        FreeNowhere(flags, slots, owner, Unit(currQueue, avail));
        return;
      }
      AllDone(flags, old(currQueue), old(avail), chunk);
      Missed(flags, old(currQueue), old(avail), chunk);
      var r := Increase();
      u := None;
    }
  }

  /** The places of a chunk that the search looks at when it starts at place `from`: never
      the last, unless it is the first too. */
  predicate LookedAt(i: nat, from: nat, chunk: nat) {
    i == 0 || (from <= i && i + 1 < chunk)
  }

  /** The units the search looks at when it starts at place `from` of chunk `entrance`. */
  predicate Looked(u: Unit, entrance: nat, from: nat, chunk: nat) {
    LookedAt(u.index, if u.chunk == entrance then from else 0, chunk)
  }

  ghost predicate Done(flags: Flags, q: nat, entrance: nat, from: nat, chunk: nat)
    requires q < |flags| && |flags[q]| == chunk
  {
    forall i :: 0 <= i < chunk && LookedAt(i, if q == entrance then from else 0, chunk) ==> flags[q][i] != FREE
  }

  /** The chunks passed between `entrance` and `now`, going round. */
  predicate Visited(q: nat, entrance: nat, now: nat, first: bool) {
    !first && if now > entrance then entrance <= q < now else q >= entrance || q < now
  }

  /** What the search does not look at. */
  lemma Missed(flags: Flags, entrance: nat, from: nat, chunk: nat)
    requires forall q :: 0 <= q < |flags| ==> |flags[q]| == chunk
    ensures forall v :: IsUnit(flags, v) && !Looked(v, entrance, from, chunk) ==>
              0 < v.index && (v.index == chunk - 1 || (v.chunk == entrance && v.index < from))
  {}

  lemma AllDone(flags: Flags, entrance: nat, from: nat, chunk: nat)
    requires forall q :: 0 <= q < |flags| ==> |flags[q]| == chunk && Done(flags, q, entrance, from, chunk)
    ensures forall v :: IsUnit(flags, v) && Looked(v, entrance, from, chunk) ==> FlagOf(flags, v) != FREE
  {
    forall v | IsUnit(flags, v) && Looked(v, entrance, from, chunk) ensures FlagOf(flags, v) != FREE {
      assert Done(flags, v.chunk, entrance, from, chunk);
    }
  }

  /** A free unit is in no cell. */
  lemma FreeNowhere(flags: Flags, slots: Slots, owner: map<Unit, Cell>, u: Unit)
    requires Owned(flags, slots, owner) && IsUnit(flags, u) && flags[u.chunk][u.index] == FREE
    ensures FlagOf(flags, u) == FREE && forall x :: Holds(slots, x) != Some(u)
  {
    hide Holds;
    assert u !in Busy(flags);
  }

  /** The units in use in chunks before `q`, and before place `i` of chunk `q`. */
  ghost function BusyBefore(flags: Flags, q: int, i: int): (units: set<Unit>)
    ensures forall u :: u in units <==> u in Busy(flags) && (u.chunk < q || (u.chunk == q && u.index < i))
  {
    set u | u in Busy(flags) && (u.chunk < q || (u.chunk == q && u.index < i))
  }

  lemma NoneBusy(flags: Flags)
    ensures BusyBefore(flags, 0, 0) == {}
  {}

  lemma AllBusy(flags: Flags)
    ensures BusyBefore(flags, |flags|, 0) == Busy(flags)
  {
    hide Busy;
    forall u | u in Busy(flags) ensures u.chunk < |flags| {
      assert FlagOf(flags, u) != FREE;
    }
  }

  lemma ChunkBusy(flags: Flags, q: nat)
    requires q < |flags|
    ensures BusyBefore(flags, q, |flags[q]|) == BusyBefore(flags, q + 1, 0)
  {
    hide Busy;
    forall u | u in Busy(flags) && u.chunk == q ensures u.index < |flags[q]| {
      assert FlagOf(flags, u) != FREE;
    }
  }

  lemma NextBusy(flags: Flags, q: nat, i: nat)
    requires q < |flags| && i < |flags[q]|
    ensures |BusyBefore(flags, q, i + 1)| == |BusyBefore(flags, q, i)| + if flags[q][i] != FREE then 1 else 0
  {
    hide Busy;
    assert flags[q][i] == FlagOf(flags, Unit(q, i));
    assert BusyBefore(flags, q, i + 1) == BusyBefore(flags, q, i) + if flags[q][i] != FREE then {Unit(q, i)} else {};
  }
}
