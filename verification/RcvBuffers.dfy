/** The receiver's buffer: a circular array of slots, standing for the packets that are
    received and not yet read, in order from the read position. */
module RcvBuffers {
  import opened Bytes
  import opened Modular
  import opened SlotArrays
  import opened SndBuffers
  import opened UnitPools

  /** The flags of the units in slots, FREE where there is none. */
  ghost function UnitFlags(v: seq<Slot>): (f: seq<int>)
    ensures |f| == |v| && forall p :: 0 <= p < |v| ==> f[p] == if v[p].Full? then v[p].flag else FREE
  {
    seq(|v|, p requires 0 <= p < |v| => if v[p].Full? then v[p].flag else FREE)
  }

  /** Every filled slot has its unit in cell table `marks`, with its flag; an empty slot has
      none. */
  ghost predicate Mirrors(v: seq<Slot>, marks: seq<int>) {
    marks == UnitFlags(v) && forall p :: 0 <= p < |v| && v[p].Full? ==> v[p].flag != FREE
  }

  lemma MirrorsWrite(v: seq<Slot>, marks: seq<int>, p: nat, x: Slot)
    requires Mirrors(v, marks) && p < |v| && (x.Full? ==> x.flag != FREE)
    ensures |marks| == |v| && Mirrors(v[p := x], marks[p := if x.Full? then x.flag else FREE])
  {}

  class RcvBuffer {
    const size: nat
    const slot: array<Slot>
    const pool: UnitPool
    const id: nat
    var startPos: int
    var lastAckPos: int
    var maxPos: int
    var notch: nat

    ghost predicate Shape()
      reads this`startPos, this`lastAckPos, this`maxPos
    {
      slot.Length == size && 0 <= startPos < size && 0 <= lastAckPos < size && 0 <= maxPos
    }

    /** The slots in order from the read position. */
    ghost function Slots(): (v: seq<Slot>)
      requires Shape()
      reads this`startPos, this`lastAckPos, this`maxPos, slot
      ensures |v| == size
    {
      Rotated(slot[..], startPos)
    }

    ghost predicate Arranged()
      reads this`startPos, this`lastAckPos, this`maxPos, slot
      ensures Arranged() ==> Shape()
    {
      Shape() && Spare(Slots(), GetRcvDataSize(), maxPos)
    }

    /** The units in the slots are those the pool says this buffer holds. */
    ghost predicate Pooled()
      reads slot, pool
    {
      pool.Valid() && id in pool.slots && Mirrors(slot[..], pool.View()[id])
    }

    ghost predicate Valid()
      reads this`startPos, this`lastAckPos, this`maxPos, slot, pool
      ensures Valid() ==> Shape()
    {
      Arranged() && Pooled()
    }

    /** A buffer for units of `pool`, which knows it as `id`. */
    constructor (pool: UnitPool, id: nat, size: nat)
      requires size > 0 && pool.Valid() && id !in pool.slots
      modifies pool`slots
      ensures Valid() && this.size == size && this.pool == pool && this.id == id && notch == 0 && maxPos == 0
      ensures GetRcvDataSize() == 0 && Slots() == seq(size, _ => Empty)
      ensures pool.slots == old(pool.slots)[id := seq(size, _ => None)]
      ensures pool.View() == old(pool.View())[id := seq(size, _ => FREE)]
      ensures fresh(slot)
    {
      hide UnitPool.Valid, UnitPool.View;
      this.size, this.pool, this.id := size, pool, id;
      slot := new Slot[size](_ => Empty);
      startPos, lastAckPos, maxPos, notch := 0, 0, 0, 0;
      new;
      pool.NewBuffer(id, size);
    }

    /** The cell `d` places after the read position. */
    function Cell(d: int): (p: int)
      requires Shape() && 0 <= d < size
      reads this`startPos, this`lastAckPos, this`maxPos, slot
      ensures 0 <= p < size && slot[p] == Slots()[d]
    {
      RotatedAt(slot[..], startPos, d);
      Around(startPos, d, size)
    }

    /** How many slots are acknowledged and unread. */
    function GetRcvDataSize(): (n: int)
      requires Shape()
      reads this`startPos, this`lastAckPos, this`maxPos
      ensures 0 <= n < size
    {
      if lastAckPos >= startPos then lastAckPos - startPos else size + lastAckPos - startPos
    }

    /** How many more packets may be stored: one slot stays empty. */
    function GetAvailBufSize(): (n: int)
      requires Shape()
      reads this`startPos, this`lastAckPos, this`maxPos
      ensures 0 <= n < size
    {
      size - GetRcvDataSize() - 1
    }

    /** A slot, `d` places after the read position, is given new contents. */
    method Write(p: int, s: Slot, ghost d: int)
      requires Arranged() && 0 <= d < size && p == Cell(d) && (d == size - 1 ==> s.Empty?)
      modifies slot
      ensures Arranged() && Slots() == old(Slots())[d := s] && slot[..] == old(slot[..])[p := s]
    {
      hide Rotated, Around;
      RotatedWrite(slot[..], startPos, d, s);
      slot[p] := s;
    }

    /** A slot holds a unit when the pool says so. */
    lemma UnitOf(p: nat)
      requires Pooled() && p < slot.Length
      ensures id in pool.slots && |pool.slots[id]| == slot.Length
      ensures slot[p].Full? <==> pool.slots[id][p].Some?
    {
      hide UnitPool.Valid, UnitPool.View;
      pool.Marked(id, p);
      assert slot[..][p] == slot[p];
    }

    /** A packet in a free unit is put into an empty slot. */
    method Fill(p: int, payload: Payload, header: Header, u: Unit, ghost d: int)
      requires Valid() && 0 <= d < size - 1 && p == Cell(d) && slot[p].Empty?
      requires IsUnit(pool.flags, u) && FlagOf(pool.flags, u) == FREE
      modifies slot, pool`flags, pool`count, pool`slots, pool`owner
      ensures Valid() && Slots() == old(Slots())[d := Full(payload, header, 1)]
      ensures pool.slots == Put(old(pool.slots), UnitPools.Cell(id, p), Some(u))
      ensures pool.flags == SetFlag(old(pool.flags), u, 1) && SameElse(pool.Held(), old(pool.Held()), id)
    {
      hide Slots, Arranged, Mirrors, UnitPool.Valid, UnitPool.View, IsUnit, FlagOf, Put, SetFlag, SameElse;
      UnitOf(p);
      MirrorsWrite(slot[..], pool.View()[id], p, Full(payload, header, 1));
      ghost var held := pool.Held();
      pool.Take(id, p, u);
      TakesCell(pool.Held(), held, id, p, Some(u));
      Write(p, Full(payload, header, 1), d);
    }

    /** The unit of a slot goes back to the pool. */
    method Clear(p: int, ghost d: int, ghost was: Holding)
      requires Valid() && 0 <= d < size && p == Cell(d) && slot[p].Full? && Yields(pool.Held(), was, id)
      modifies slot, pool`flags, pool`count, pool`slots, pool`owner
      ensures Valid() && Slots() == old(Slots())[d := Empty] && Yields(pool.Held(), was, id)
    {
      hide Slots, Arranged, Mirrors, UnitPool.Valid, UnitPool.View, IsUnit, FlagOf, SetFlag, Yields;
      UnitOf(p);
      MirrorsWrite(slot[..], pool.View()[id], p, Empty);
      ghost var held := pool.Held();
      pool.Free(id, p);
      YieldsCell(pool.Held(), held, id, p, FREE);
      YieldsMore(pool.Held(), held, was, id);
      Write(p, Empty, d);
    }

    /** The unit of a slot is marked as read. */
    method MarkRead(p: int, ghost d: int, ghost was: Holding)
      requires Valid() && 0 <= d < size - 1 && p == Cell(d) && slot[p].Full? && Yields(pool.Held(), was, id)
      modifies slot, pool`flags
      ensures Valid() && Slots() == old(Slots())[d := old(slot[p]).(flag := 2)] && Yields(pool.Held(), was, id)
    {
      hide Slots, Arranged, Mirrors, UnitPool.Valid, UnitPool.View, IsUnit, FlagOf, SetFlag, Yields;
      UnitOf(p);
      MirrorsWrite(slot[..], pool.View()[id], p, slot[p].(flag := 2));
      ghost var held := pool.Held();
      pool.Mark(id, p);
      YieldsCell(pool.Held(), held, id, p, 2);
      YieldsMore(pool.Held(), held, was, id);
      Write(p, slot[p].(flag := 2), d);
    }

    /** Whose units are in use: the pool counts exactly the units with a flag, which are as
        many as the filled slots of all its buffers; each slot of this one holds a unit of its
        own, flagged as the slot is, and no buffer holds a free unit. */
    lemma UnitsHeld(p: nat, q: nat, u: Unit)
      requires Valid() && p < size && q < size
      ensures pool.count == |Busy(pool.flags)| == |Occupied(pool.slots)|
      ensures id in pool.slots && |pool.slots[id]| == size && (slot[p].Full? <==> pool.slots[id][p].Some?)
      ensures slot[p].Full? ==>
                var v := pool.slots[id][p].value;
                && IsUnit(pool.flags, v) && FlagOf(pool.flags, v) == slot[p].flag != FREE
                && forall x :: Holds(pool.slots, x) == Some(v) ==> x == UnitPools.Cell(id, p)
      ensures slot[p].Full? && p != q ==> pool.slots[id][p] != pool.slots[id][q]
      ensures FlagOf(pool.flags, u) == FREE ==> forall x :: Holds(pool.slots, x) != Some(u)
    {
      hide Arranged, Busy, Occupied;
      UnitOf(p);
      assert slot[..][p] == slot[p] && slot[..][q] == slot[q];
      var cell := UnitPools.Cell(id, p);
      forall x | Holds(pool.slots, x) == Holds(pool.slots, cell) && slot[p].Full? ensures x == cell {
        OneCell(pool.flags, pool.slots, pool.owner, x, cell);
      }
      assert Holds(pool.slots, UnitPools.Cell(id, q)) == pool.slots[id][q];
    }

    /** What another buffer does with the pool leaves this one as it is. */
    twostate lemma Undisturbed(other: nat)
      requires old(Valid()) && unchanged(this, slot) && other != id
      requires pool.Valid() && SameElse(pool.Held(), old(pool.Held()), other)
      ensures Valid() && Slots() == old(Slots())
    {
      hide UnitPool.Valid, UnitPool.View, Rotated, Mirrors, Spare;
      assert slot[..] == old(slot[..]);
    }

    lemma AheadCell(offset: int)
      requires Shape() && 0 <= offset && GetRcvDataSize() + offset < size
      ensures Ahead(lastAckPos, offset, size) == Cell(GetRcvDataSize() + offset)
    {
      hide Ahead, Rotated;
    }

    /** A packet, in unit `u`, is put `offset` slots after the acknowledged ones, unless one
        is there. */
    method AddData(payload: Payload, header: Header, u: Unit, offset: int) returns (r: int)
      requires Valid() && 0 <= offset < GetAvailBufSize()
      requires IsUnit(pool.flags, u) && FlagOf(pool.flags, u) == FREE
      modifies this`maxPos, slot, pool`flags, pool`count, pool`slots, pool`owner
      ensures Valid() && maxPos == Max(old(maxPos), offset)
      ensures var d := GetRcvDataSize() + offset;
              if old(Slots())[d].Full? then r == -1 && Slots() == old(Slots()) && unchanged(pool)
              else
                && r == 0 && Slots() == old(Slots())[d := Full(payload, header, 1)]
                && pool.slots == Put(old(pool.slots), UnitPools.Cell(id, Cell(d)), Some(u))
                && pool.flags == SetFlag(old(pool.flags), u, 1)
      ensures SameElse(pool.Held(), old(pool.Held()), id)
    {
      hide Ahead, UnitPool.Valid, UnitPool.Held, IsUnit, FlagOf, Put, SetFlag, Pooled, Rotated;
      AheadCell(offset);
      var pos := Ahead(lastAckPos, offset, size);
      if offset > maxPos {
        maxPos := offset;
      }
      ghost var d := GetRcvDataSize() + offset;
      if slot[pos].Full? {
        return -1;
      }
      Fill(pos, payload, header, u, d);
      return 0;
    }

    /** `len` more slots are acknowledged. */
    method AckData(len: nat)
      requires Valid() && GetRcvDataSize() + len < size
      modifies this`lastAckPos, this`maxPos
      ensures Valid() && Slots() == old(Slots()) && GetRcvDataSize() == old(GetRcvDataSize()) + len
      ensures maxPos == Max(old(maxPos) - len, 0)
    {
      hide Ahead, Pooled, Rotated;
      lastAckPos := Ahead(lastAckPos, len, size);
      maxPos := maxPos - len;
      if maxPos < 0 {
        maxPos := 0;
      }
    }

    // --- Stream mode --------------------------------------------------------

    /** Everything acknowledged is there. */
    ghost predicate Loaded()
      requires Shape()
      reads this`startPos, this`lastAckPos, this`maxPos, slot
    {
      forall d :: 0 <= d < GetRcvDataSize() ==> Slots()[d].Full?
    }

    /** The acknowledged packets not yet read. */
    ghost function Unread(): (units: seq<Payload>)
      requires Shape() && Loaded()
      reads this`startPos, this`lastAckPos, this`maxPos, slot
    {
      Payloads(Slots(), GetRcvDataSize())
    }

    /** What one turn of the loop of `ReadBuffer` copies from cell `p` when `rs` bytes are
        still wanted, and whether that finishes the unit. */
    method CopyUnit(p: int, rs: int) returns (bytes: Payload, done: bool)
      requires 0 <= p < slot.Length && slot[p].Full? && rs > 0 && notch <= |slot[p].payload|
      ensures done <==> rs >= |slot[p].payload| - notch
      ensures bytes == if done then slot[p].payload[notch..] else slot[p].payload[notch..notch + rs]
    {
      var payload := slot[p].payload;
      var unitsize := |payload| - notch;
      if unitsize > rs {
        unitsize := rs;
      }
      bytes := payload[notch..notch + unitsize];
      done := rs > unitsize || rs == |payload| - notch;
    }

    /** The read position moves to cell `p`, `k` places on. */
    method TurnTo(p: int, ghost k: int)
      requires Valid() && 0 <= k <= GetRcvDataSize() && p == Cell(k) && (k > 0 ==> Slots()[k - 1].Empty?)
      modifies this`startPos
      ensures Valid() && GetRcvDataSize() == old(GetRcvDataSize()) - k
      ensures Slots() == Rotated(old(Slots()), k)
    {
      hide Pooled, Rotated, Spare;
      RotatedTwice(slot[..], startPos, k);
      SpareRotated(Slots(), GetRcvDataSize(), maxPos, k);
      startPos := p;
    }

    /** The first `k` of the slots are emptied and cell `p` is next. */
    ghost predicate At(slots: seq<Slot>, was: Holding, p: int, k: int)
      reads this`startPos, this`lastAckPos, this`maxPos, slot, pool
    {
      && Valid() && 0 <= k <= GetRcvDataSize() && |slots| == size && p == Cell(k) && Slots() == Emptied(slots, k)
      && Yields(pool.Held(), was, id)
    }

    /** The slot at cell `p` is emptied. */
    method EmptyNext(p: int, ghost k: int, ghost slots: seq<Slot>, ghost was: Holding) returns (p2: int)
      requires At(slots, was, p, k) && k < GetRcvDataSize() && slot[p].Full?
      modifies slot, pool`flags, pool`count, pool`slots, pool`owner
      ensures At(slots, was, p2, k + 1)
    {
      hide Emptied, Spare, Slots, Valid, Yields, UnitPool.Held;
      EmptiedNext(slots, k);
      Clear(p, k, was);
      p2 := if p + 1 == size then 0 else p + 1;
    }

    lemma AtCell(slots: seq<Slot>, was: Holding, p: int, k: int)
      requires At(slots, was, p, k)
      ensures Shape() && |slots| == size && 0 <= k <= GetRcvDataSize() && (p == lastAckPos <==> k == GetRcvDataSize())
      ensures 0 <= p < size && slot[p] == slots[k]
    {
      hide Pooled, Yields;
      EmptiedNext(slots, k);
    }

    /** The state of the loop of `ReadBuffer`: finishing it as specified gives `goal`. */
    ghost predicate Copying(slots: seq<Slot>, was: Holding, units: seq<Payload>, goal: Reading, data: Payload, p: int,
            rs: int, k: int)
      reads this, slot, pool
    {
      && At(slots, was, p, k) && |units| == GetRcvDataSize() && Halfway(units, notch, goal, data, rs, k)
      && (forall d :: 0 <= d < |units| ==> slots[d] != Empty && slots[d].payload == units[d])
    }

    /** One turn of the loop of `ReadBuffer`. */
    method CopyNext(data: Payload, p: int, rs: int, ghost k: nat, ghost slots: seq<Slot>, ghost was: Holding,
            ghost units: seq<Payload>, ghost goal: Reading)
      returns (data2: Payload, p2: int, rs2: int, ghost k2: nat)
      requires Copying(slots, was, units, goal, data, p, rs, k) && p != lastAckPos && rs > 0
      modifies this`notch, slot, pool`flags, pool`count, pool`slots, pool`owner
      ensures Copying(slots, was, units, goal, data2, p2, rs2, k2)
      ensures rs2 == 0 || (k2 == k + 1 && rs2 <= rs)
    {
      hide Consume, Halfway, At, Valid, Slots;
      AtCell(slots, was, p, k);
      HalfwayUnit(units, notch, goal, data, rs, k);
      var bytes, done := CopyUnit(p, rs);
      data2, rs2 := data + bytes, rs - |bytes|;
      if done {
        p2 := EmptyNext(p, k, slots, was);
        k2 := k + 1;
        notch := 0;
      } else {
        p2, k2 := p, k;
        notch := notch + rs;
      }
    }

    lemma CopyingDone(slots: seq<Slot>, was: Holding, units: seq<Payload>, goal: Reading, data: Payload, p: int,
            rs: int, k: int)
      requires Copying(slots, was, units, goal, data, p, rs, k)
      ensures 0 <= k <= |units| && rs >= 0 && (p == lastAckPos <==> k == |units|) && At(slots, was, p, k)
      ensures p == lastAckPos || rs == 0 ==> goal == Reading(data, k, notch)
    {
      hide Consume;
      AtCell(slots, was, p, k);
      if k == |units| || rs == 0 {
        HalfwayDone(units, notch, goal, data, rs, k);
      }
    }

    /** The loop of `ReadBuffer`. */
    method CopyOut(len: nat, ghost slots: seq<Slot>, ghost units: seq<Payload>)
      returns (data: Payload, p: int, ghost k: nat)
      requires Valid() && Loaded() && slots == Slots() && units == Unread() && Readable(units, notch)
      modifies this`notch, slot, pool`flags, pool`count, pool`slots, pool`owner
      ensures Reading(data, k, notch) == old(Consume(units, notch, len)) && At(slots, old(pool.Held()), p, k)
    {
      hide Consume, Copying, Valid, Loaded, Unread, Slots, UnitPool.Held;
      ghost var goal, was := Consume(units, notch, len), pool.Held();
      var rs := len;
      p, k, data := startPos, 0, [];
      CopyingStart(len);
      CopyingDone(slots, was, units, goal, data, p, rs, k);
      while p != lastAckPos && rs > 0
        invariant Copying(slots, was, units, goal, data, p, rs, k) && k <= |units|
        decreases rs, |units| - k
      {
        data, p, rs, k := CopyNext(data, p, rs, k, slots, was, units, goal);
        CopyingDone(slots, was, units, goal, data, p, rs, k);
      }
      CopyingDone(slots, was, units, goal, data, p, rs, k);
    }

    lemma CopyingStart(len: nat)
      requires Valid() && Loaded() && Readable(Unread(), notch)
      ensures Copying(Slots(), pool.Held(), Unread(), Consume(Unread(), notch, len), [], startPos, len, 0)
    {
      hide Consume, Halfway, Spare, Pooled, Yields;
      YieldsNone(pool.Held(), id);
      HalfwayStart(Unread(), notch, len);
      EmptiedNext(Slots(), 0);
    }

    /** Up to `len` bytes are copied out of the acknowledged packets, whose slots are emptied
        as they are finished. */
    method ReadBuffer(len: nat) returns (data: Payload)
      requires Valid() && Loaded() && Readable(Unread(), notch)
      modifies this`startPos, this`notch, slot, pool`flags, pool`count, pool`slots, pool`owner
      ensures Valid() && Yields(pool.Held(), old(pool.Held()), id)
      ensures var got := old(Consume(Unread(), notch, len));
              && data == got.bytes && notch == got.notch && GetRcvDataSize() == old(GetRcvDataSize()) - got.used
              && Slots() == old(Slots())[got.used..] + seq(got.used, _ => Empty)
    {
      hide Consume, Emptied, Payloads, Pooled, Yields;
      ghost var slots := Slots();
      var p: int;
      ghost var k: nat;
      data, p, k := CopyOut(len, slots, Unread());
      EmptiedNext(slots, k);
      TurnTo(p, k);
    }

    // --- Message mode -------------------------------------------------------

    /** Places count round the circle once. */
    lemma CellAck(d: int)
      requires Shape() && 0 <= d < size
      ensures Cell(d) == lastAckPos <==> d == GetRcvDataSize()
      ensures d + 1 < size ==> Cell(d + 1) == if Cell(d) + 1 == size then 0 else Cell(d) + 1
    {}

    /** Whether the message at the read position is unread as far as it is acknowledged. */
    method LookAhead() returns (good: bool)
      requires Valid()
      ensures good == WholeFrom(Slots(), 0, GetRcvDataSize())
    {
      hide Slots, Valid;
      good := true;
      var i := startPos;
      ghost var e, acked := 0, GetRcvDataSize();
      CellAck(0);
      while i != lastAckPos
        invariant 0 <= e <= acked && i == Cell(e) && good && (i == lastAckPos <==> e == acked)
        invariant WholeFrom(Slots(), 0, acked) == WholeFrom(Slots(), e, acked)
        decreases acked - e
      {
        if slot[i].Empty? || slot[i].flag != 1 {
          good := false;
          break;
        }
        if slot[i].header.last {
          break;
        }
        CellAck(e);
        i := if i + 1 == size then 0 else i + 1;
        e := e + 1;
        CellAck(e);
      }
    }

    /** The slot at the read position is emptied, if it is not, and passed. */
    method DropFirst(ghost was: Holding)
      requires Valid() && GetRcvDataSize() > 0 && Yields(pool.Held(), was, id)
      modifies this`startPos, slot, pool`flags, pool`count, pool`slots, pool`owner
      ensures Valid() && Slots() == Passed(old(Slots()), 1) && GetRcvDataSize() == old(GetRcvDataSize()) - 1
      ensures Yields(pool.Held(), was, id)
    {
      hide Slots, Valid, Yields, UnitPool.Held;
      PassedNext(Slots(), 0);
      CellAck(0);
      if slot[startPos].Full? {
        Clear(startPos, 0, was);
      }
      assert Slots() == old(Slots())[0 := Empty];
      TurnTo(if startPos + 1 == size then 0 else startPos + 1, 1);
    }

    /** The first part of `scanMsg`: acknowledged slots are dropped until one begins a message
        that may be read. */
    method SkipBad(ghost v: seq<Slot>, ghost acked: nat)
      requires Valid() && v == Slots() && acked == GetRcvDataSize()
      modifies this`startPos, slot, pool`flags, pool`count, pool`slots, pool`owner
      ensures Valid() && var k := BadFrom(v, 0, acked); Slots() == Passed(v, k) && GetRcvDataSize() == acked - k
      ensures Yields(pool.Held(), old(pool.Held()), id)
    {
      hide Slots, Valid, BadFrom, WholeFrom, Passed, Yields, UnitPool.Held;
      ghost var k := 0;
      YieldsNone(pool.Held(), id);
      PassedNext(v, 0);
      while startPos != lastAckPos
        invariant Valid() && 0 <= k <= acked < |v| == size && Slots() == Passed(v, k) && GetRcvDataSize() == acked - k
        invariant BadFrom(v, 0, acked) == k + BadFrom(v, k, acked) && Yields(pool.Held(), old(pool.Held()), id)
        decreases acked - k
      {
        BadNext(v, k, acked);
        PassedNext(v, k);
        assert Cell(0) == startPos;
        if slot[startPos].Full? && slot[startPos].flag == 1 && slot[startPos].header.first {
          var good := LookAhead();
          if good {
            break;
          }
        }
        DropFirst(old(pool.Held()));
        PassedAgain(v, k);
        k := k + 1;
      }
      BadNext(v, k, acked);
    }

    /** The state of the search for a message before slot `i` is looked at. */
    ghost predicate Scanning(i: int, p: int, q: int, early: bool)
      reads this`startPos, this`lastAckPos, this`maxPos, slot, pool
    {
      && Valid() && 0 <= i <= maxPos + GetRcvDataSize() + 1 <= size
      && q == (if i < size then Cell(i) else startPos) && (early <==> i >= GetRcvDataSize())
      && p == (if HeadAt(Slots(), i) == -1 then -1 else Cell(HeadAt(Slots(), i)))
      && NoneBefore(Slots(), i, GetRcvDataSize())
    }

    lemma ScanFacts(i: int, p: int, q: int, early: bool)
      requires Scanning(i, p, q, early)
      ensures Valid() && 0 <= i <= maxPos + GetRcvDataSize() + 1 <= size && 0 <= q < size && -1 <= p < size
      ensures i < size ==> slot[q] == Slots()[i] && q == Cell(i)
      ensures early <==> i >= GetRcvDataSize()
    {}

    /** One look of the search: does slot `i` end a message that may be returned? */
    method LookAt(p: int, q: int, early: bool, ghost i: int) returns (found: bool, p2: int)
      requires Valid() && Scanning(i, p, q, early) && i <= maxPos + GetRcvDataSize()
      ensures found <==> Eligible(Slots(), i, GetRcvDataSize())
      ensures found ==> p2 != -1
      ensures p2 == if HeadAt(Slots(), i + 1) == -1 then -1 else Cell(HeadAt(Slots(), i + 1))
    {
      hide Valid, Slots;
      found, p2 := false, p;
      if slot[q].Full? && slot[q].flag == 1 {
        if slot[q].header.first {
          p2 := q;
          found := slot[q].header.last;
        } else if slot[q].header.last {
          found := p2 != -1;
        }
      } else {
        p2 := -1;
      }
      if found {
        found := !early || !slot[q].header.inOrder;
      }
    }

    /** The search moves to the next slot. */
    method LookNext(p: int, q: int, early: bool, ghost i: int, ghost p0: int) returns (q2: int, early2: bool)
      requires Valid() && Scanning(i, p0, q, early) && i <= maxPos + GetRcvDataSize() &&
               !Eligible(Slots(), i, GetRcvDataSize())
      requires p == if HeadAt(Slots(), i + 1) == -1 then -1 else Cell(HeadAt(Slots(), i + 1))
      ensures Scanning(i + 1, p, q2, early2)
    {
      hide Valid, Slots, HeadAt, Eligible;
      CellAck(i);
      if i + 1 < size {
        CellAck(i + 1);
      }
      q2 := if q + 1 == size then 0 else q + 1;
      early2 := early || q2 == lastAckPos;
    }

    /** The second part of `scanMsg`: the first message that may be returned, slots `h` to
        `i`. Failing that, a message that fills the buffer, of which no slot is named. */
    method FindMessage() returns (found: bool, p: int, q: int, early: bool, ghost h: int, ghost i: int)
      requires Valid()
      ensures var n := maxPos + GetRcvDataSize();
              && 0 <= i <= n + 1 <= size && (early <==> i >= GetRcvDataSize())
              && NoneBefore(Slots(), i, GetRcvDataSize())
              && if i <= n then
                   found && Eligible(Slots(), i, GetRcvDataSize()) && h == HeadAt(Slots(), i + 1) && p == Cell(h) &&
                       q == Cell(i)
                 else (found ==> 0 <= q < size && Succ(q, size) == p) && (found <==> Filled(Slots(), n))
      ensures found ==> 0 <= q < size
      ensures found && Succ(q, size) != p ==>
                && 0 <= p < size && Fresh(slot[p]) && slot[p].header.first && Fresh(slot[q]) && slot[q].header.last
                && (early ==> !slot[q].header.inOrder)
    {
      hide Valid, Slots, HeadAt, Eligible, Succ, Scanning, FoundAt, Fresh, Filled;
      p, q, early, i, found, h := -1, startPos, startPos == lastAckPos, 0, false, -1;
      ScanStart();
      for k := 0 to maxPos + GetRcvDataSize() + 1
        invariant i == k && Valid() && Scanning(i, p, q, early)
      {
        found, p, q, early, h := LookStep(p, q, early, i);
        if found {
          FoundEnds(h, i, p, q, early);
          return;
        }
        i := i + 1;
      }
      ScanFacts(i, p, q, early);
      ScanPast(i, p, q, early);
      ScanFilled(p, q, early);
      found := p != -1 && Succ(q, size) == p;
    }

    /** At the end of the search the next cell is the head exactly when its message fills the
        buffer. */
    lemma ScanFilled(p: int, q: int, early: bool)
      requires Valid() && Scanning(maxPos + GetRcvDataSize() + 1, p, q, early)
      ensures p != -1 && Succ(q, size) == p <==> Filled(Slots(), maxPos + GetRcvDataSize())
    {
      hide Pooled, Slots, Rotated, Around, NoneBefore, Eligible, Succ;
      var n := maxPos + GetRcvDataSize();
      var h := HeadAt(Slots(), n + 1);
      assert n + 1 == size ==> h == -1;
      if h != -1 {
        AroundNext(startPos, h, n + 1, size);
      }
    }

    /** A message is found in slots `h` to `i`, and none before. */
    ghost predicate FoundAt(h: int, i: int, p: int, q: int, early: bool)
      reads this`startPos, this`lastAckPos, this`maxPos, slot, pool
    {
      && Valid() && 0 <= i <= maxPos + GetRcvDataSize() < size && (early <==> i >= GetRcvDataSize())
      && NoneBefore(Slots(), i, GetRcvDataSize()) && Eligible(Slots(), i, GetRcvDataSize())
      && h == HeadAt(Slots(), i + 1) && p == Cell(h) && q == Cell(i)
    }

    /** The cells of a message found begin and end it, unread. */
    lemma FoundEnds(h: int, i: int, p: int, q: int, early: bool)
      requires FoundAt(h, i, p, q, early)
      ensures Valid() && 0 <= h <= i <= maxPos + GetRcvDataSize() < size && (early <==> i >= GetRcvDataSize())
      ensures NoneBefore(Slots(), i, GetRcvDataSize()) && Eligible(Slots(), i, GetRcvDataSize())
      ensures h == HeadAt(Slots(), i + 1) && p == Cell(h) && q == Cell(i)
      ensures Fresh(slot[p]) && slot[p].header.first && Fresh(slot[q]) && slot[q].header.last
      ensures early ==> !slot[q].header.inOrder
    {
      hide Valid, Slots;
    }

    /** One turn of the search. */
    method LookStep(p: int, q: int, early: bool, ghost i: int)
      returns (found: bool, p2: int, q2: int, early2: bool, ghost h: int)
      requires Valid() && Scanning(i, p, q, early) && i <= maxPos + GetRcvDataSize()
      ensures if found then FoundAt(h, i, p2, q2, early2) else Scanning(i + 1, p2, q2, early2)
    {
      hide Valid, Slots, HeadAt, Eligible, Scanning;
      ScanFacts(i, p, q, early);
      ScanPast(i, p, q, early);
      found, p2 := LookAt(p, q, early, i);
      h := HeadAt(Slots(), i + 1);
      if found {
        q2, early2 := q, early;
      } else {
        q2, early2 := LookNext(p2, q, early, i, p);
      }
    }

    lemma ScanStart()
      requires Valid()
      ensures Scanning(0, -1, startPos, startPos == lastAckPos)
    {
      CellAck(0);
    }

    lemma ScanPast(i: int, p: int, q: int, early: bool)
      requires Scanning(i, p, q, early)
      ensures NoneBefore(Slots(), i, GetRcvDataSize())
    {}

    /** The state of the copying loop of `ReadMsg`, `k` slots into the message at slot `h`. */
    ghost predicate Handing(v: seq<Slot>, was: Holding, h: nat, end: nat, k: nat, early: bool, p: int, data: Payload,
            rs: int, len: nat)
      reads this`startPos, this`lastAckPos, this`maxPos, slot, pool
    {
      && Valid() && Yields(pool.Held(), was, id)
      && |v| == size && h + k <= end < size && p == Cell(h + k)
      && (forall d :: h <= d < end ==> v[d].Full?)
      && Slots() == Marked(v, h, k, early) && Copied(v, h, k, len, data) && rs == len - |data|
    }

    /** One turn of that loop. */
    method HandOver(ghost v: seq<Slot>, ghost was: Holding, ghost h: nat, ghost end: nat, ghost k: nat, early: bool,
            p: int, data: Payload, rs: int, ghost len: nat)
      returns (p2: int, data2: Payload, rs2: int)
      requires Handing(v, was, h, end, k, early, p, data, rs, len) && h + k < end
      modifies slot, pool`flags, pool`count, pool`slots, pool`owner
      ensures Handing(v, was, h, end, k + 1, early, p2, data2, rs2, len)
    {
      hide Valid, Slots, Marked, Copied, Yields, UnitPool.Held;
      MarkedNext(v, h, k, early);
      CopiedNext(v, h, k, len, data);
      CellAck(h + k);
      var s := slot[p];
      var unitsize := |s.payload|;
      if unitsize > rs {
        unitsize := rs;
      }
      data2, rs2 := data + s.payload[..unitsize], rs - unitsize;
      if early {
        MarkRead(p, h + k, was);
      } else {
        Clear(p, h + k, was);
      }
      p2 := if p + 1 == size then 0 else p + 1;
    }

    /** The copying loop of `ReadMsg`: slots `h` to `i` are handed over. */
    method HandAll(p0: int, q: int, early: bool, len: nat, ghost v: seq<Slot>, ghost h: nat, ghost i: nat)
      returns (data: Payload, p: int)
      requires Valid() && v == Slots() && h <= i < size - 1 && p0 == Cell(h) && q == Cell(i)
      requires forall d :: h <= d <= i ==> v[d].Full?
      modifies slot, pool`flags, pool`count, pool`slots, pool`owner
      ensures Valid() && p == Cell(i + 1) && Slots() == Marked(v, h, i + 1 - h, early)
      ensures Yields(pool.Held(), old(pool.Held()), id)
      ensures Copied(v, h, i + 1 - h, len, data)
    {
      hide Valid, Slots, Marked, Copied, Handing, Succ, Yields, UnitPool.Held;
      ghost var was, k := pool.Held(), 0;
      var rs := len;
      data, p := [], p0;
      HandStart(p0, early, v, h, i, len);
      CellAck(i);
      while p != Succ(q, size)
        invariant 0 <= k <= i + 1 - h && Handing(v, was, h, i + 1, k, early, p, data, rs, len)
        decreases i + 1 - h - k
      {
        HandFacts(v, was, h, i + 1, k, early, p, data, rs, len);
        p, data, rs := HandOver(v, was, h, i + 1, k, early, p, data, rs, len);
        k := k + 1;
      }
      HandFacts(v, was, h, i + 1, k, early, p, data, rs, len);
    }

    lemma HandStart(p: int, early: bool, v: seq<Slot>, h: nat, i: nat, len: nat)
      requires Valid() && v == Slots() && h <= i < size - 1 && p == Cell(h) && forall d :: h <= d <= i ==> v[d].Full?
      ensures Handing(v, pool.Held(), h, i + 1, 0, early, p, [], len, len)
    {
      hide Valid, Slots, Copied, Yields, UnitPool.Held;
      YieldsNone(pool.Held(), id);
      CopiedNone(v, h, len);
      MarkedNext(v, h, 0, early);
    }

    lemma HandFacts(v: seq<Slot>, was: Holding, h: nat, end: nat, k: nat, early: bool, p: int, data: Payload, rs: int,
            len: nat)
      requires Handing(v, was, h, end, k, early, p, data, rs, len)
      ensures Yields(pool.Held(), was, id)
      ensures Valid() && |v| == size && h + k <= end < size && p == Cell(h + k) && (p == Cell(end) <==> h + k == end)
      ensures forall d :: h <= d < end ==> v[d].Full?
      ensures Slots() == Marked(v, h, k, early)
      ensures Copied(v, h, k, len, data)
    {
      hide Slots, Marked, Copied, Pooled, Yields;
    }

    /** The cells of a message do not include the one after it. */
    lemma FoundCells(h: int, i: int)
      requires Valid() && 0 <= h <= i < size && Slots()[i].Full?
      ensures i < size - 1 && Cell(h) != Succ(Cell(i), size)
    {
      hide Slots, Pooled, Rotated, Around, Succ;
      AroundSucc(startPos, h, i, size);
    }

    /** The message found, slots `h` to `i`, is handed over. */
    method HandMsg(p0: int, q: int, early: bool, len: nat, ghost v: seq<Slot>, ghost h: nat, ghost i: nat)
      returns (data: Payload)
      requires Valid() && v == Slots() && h <= i < size - 1 && p0 == Cell(h) && q == Cell(i)
      requires (early <==> i >= GetRcvDataSize()) && (!early ==> h == 0) && forall d :: h <= d <= i ==> v[d].Full?
      modifies this`startPos, slot, pool`flags, pool`count, pool`slots, pool`owner
      ensures Valid() && Yields(pool.Held(), old(pool.Held()), id)
      ensures Handed(v, old(GetRcvDataSize()), h, i, Slots(), GetRcvDataSize())
      ensures Copied(v, h, i + 1 - h, len, data)
    {
      hide Valid, Slots, Marked, Copied, Passed, Yields, UnitPool.Held, Rotated;
      var p;
      data, p := HandAll(p0, q, early, len, v, h, i);
      if !early {
        MarkedPassed(v, i + 1);
        TurnTo(p, i + 1);
      }
    }

    /** `ReadMsg` once the bad slots are dropped. */
    method TakeMsg(len: nat, ghost v0: seq<Slot>, ghost acked0: nat) returns (data: Payload, ghost h: int, ghost i: int)
      requires Valid() && Chained(v0) && acked0 <= |v0|
      requires var k := BadFrom(v0, 0, acked0); Slots() == Passed(v0, k) && GetRcvDataSize() == acked0 - k
      modifies this`startPos, slot, pool`flags, pool`count, pool`slots, pool`owner
      ensures Valid() && Yields(pool.Held(), old(pool.Held()), id)
      ensures Taken(old(Slots()), old(GetRcvDataSize()), maxPos + old(GetRcvDataSize()),
                    len, data, h, i, Slots(), GetRcvDataSize())
    {
      hide Valid, Slots, BadFrom, HeadAt, Eligible, Succ, Passed, WholeFrom, Copied, Chained, NoneBefore, Yields,
           UnitPool.Held, Handed;
      YieldsNone(pool.Held(), id);
      ghost var v := Slots();
      var found, p, q, early;
      found, p, q, early, h, i := FindMessage();
      if !found {
        return [], h, i;
      }
      if i <= maxPos + GetRcvDataSize() {
        FoundWhere(v0, acked0, BadFrom(v0, 0, acked0), v, i);
        FoundCells(h, i);
      }
      // A message that fills the buffer is found, but its copying loop ends at once.
      if p == Succ(q, size) {
        return [], h, i;
      }
      data := HandMsg(p, q, early, len, v, h, i);
    }

    /** The message that may be returned first, and nothing of any other, is handed over:
        removed when it is all acknowledged, else marked as read. `h` and `i` are its first
        and last slot once bad slots are dropped. */
    method ReadMsg(len: nat) returns (data: Payload, ghost h: int, ghost i: int)
      requires Valid() && Chained(Slots())
      modifies this`startPos, slot, pool`flags, pool`count, pool`slots, pool`owner
      ensures Valid() && Yields(pool.Held(), old(pool.Held()), id)
      ensures Msg(old(Slots()), old(GetRcvDataSize()), maxPos, len, data, h, i, Slots(), GetRcvDataSize())
    {
      hide Valid, Slots, BadFrom, Passed, Taken, Chained, Yields, UnitPool.Held;
      YieldsNone(pool.Held(), id);
      ghost var v0, acked := Slots(), GetRcvDataSize();
      if startPos == lastAckPos && maxPos <= 0 {
        return [], -1, -1;
      }
      SkipBad(v0, acked);
      ghost var held := pool.Held();
      data, h, i := TakeMsg(len, v0, acked);
      YieldsMore(pool.Held(), held, old(pool.Held()), id);
    }

    /** Whether there is a message to read: the scan alone, which drops bad slots. */
    method GetRcvMsgNum() returns (n: int)
      requires Valid()
      modifies this`startPos, slot, pool`flags, pool`count, pool`slots, pool`owner
      ensures Valid() && Yields(pool.Held(), old(pool.Held()), id)
      ensures Scanned(old(Slots()), old(GetRcvDataSize()), maxPos, n, Slots(), GetRcvDataSize())
    {
      hide Valid, Slots, BadFrom, Passed, HeadAt, Eligible, Yields, UnitPool.Held, Filled;
      YieldsNone(pool.Held(), id);
      if startPos == lastAckPos && maxPos <= 0 {
        return 0;
      }
      SkipBad(Slots(), GetRcvDataSize());
      var found, p, q, early;
      ghost var h, i;
      found, p, q, early, h, i := FindMessage();
      n := if found then 1 else 0;
    }
  }
}
