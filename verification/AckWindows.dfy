/** The receiver's ACK history: a ring of ACKs sent, standing for a bounded queue that
    drops its oldest record when it is full. */
module AckWindows {
  import opened Modular
  import opened ReceiveSide

  /** An ACK's own number, the data number it acknowledges and when it was sent. */
  datatype Record = Record(no: int, ack: int, time: int)

  /** The ring as a value. */
  datatype Ring = Ring(nos: seq<int>, acks: seq<int>, times: seq<int>, head: int, tail: int) {

    ghost predicate Valid() {
      |nos| == |acks| == |times| && 0 <= head < |nos| && 0 <= tail < |nos|
    }

    ghost function Count(): int
      requires Valid()
    {
      if head >= tail then head - tail else |nos| + head - tail
    }

    ghost function Cell(k: int): (p: int)
      requires Valid() && 0 <= k < |nos|
      ensures 0 <= p < |nos|
    {
      if tail + k < |nos| then tail + k else tail + k - |nos|
    }

    ghost function At(p: int): Record
      requires Valid() && 0 <= p < |nos|
    {
      Record(nos[p], acks[p], times[p])
    }

    /** The records, oldest first. */
    ghost function Records(): (records: seq<Record>)
      requires Valid()
      ensures |records| == Count() < |nos|
      ensures forall k :: 0 <= k < |records| ==> records[k] == At(Cell(k))
    {
      seq(Count(), k requires 0 <= k < Count() => At(Cell(k)))
    }
  }

  ghost function Stored(r: Ring, rec: Record): Ring
    requires r.Valid()
  {
    Ring(r.nos[r.head := rec.no], r.acks[r.head := rec.ack], r.times[r.head := rec.time],
         Succ(r.head, |r.nos|), if Succ(r.head, |r.nos|) == r.tail then Succ(r.tail, |r.nos|) else r.tail)
  }

  lemma StoredRecords(r: Ring, rec: Record)
    requires r.Valid()
    ensures Stored(r, rec).Valid() && Stored(r, rec).Records() == Remember(r.Records(), rec, |r.nos|)
  {
    hide Succ;
    var r1, dropped := Stored(r, rec), if Succ(r.head, |r.nos|) == r.tail then 1 else 0;
    StoredCells(r, rec);
    hide Stored, Ring.Count, Ring.Cell, Ring.At;
    forall k | 0 <= k < r1.Count()
      ensures r1.Records()[k] == if k + dropped < r.Count() then r.Records()[k + dropped] else rec
    {}
  }

  /** Where the records are once one more is stored. */
  lemma StoredCells(r: Ring, rec: Record)
    requires r.Valid()
    ensures var r1, dropped := Stored(r, rec), if Succ(r.head, |r.nos|) == r.tail then 1 else 0;
            && r1.Valid() && |r1.nos| == |r.nos| && r1.Count() == r.Count() + 1 - dropped
            && (dropped == 1 <==> r.Count() + 1 == |r.nos|)
            && forall k :: 0 <= k < r1.Count() ==>
                 r1.At(r1.Cell(k)) == if k + dropped < r.Count() then r.At(r.Cell(k + dropped)) else rec
  {
    var r1, dropped := Stored(r, rec), if Succ(r.head, |r.nos|) == r.tail then 1 else 0;
    forall k | 0 <= k < r1.Count()
      ensures r1.At(r1.Cell(k)) == if k + dropped < r.Count() then r.At(r.Cell(k + dropped)) else rec
    {
      assert r1.Cell(k) == if k + dropped < r.Count() then r.Cell(k + dropped) else r.head;
      hide Succ;
    }
  }

  /** The cell of the first record numbered `no` starts the part that remains. */
  ghost function Taken(r: Ring, i: nat): Ring
    requires r.Valid() && i < r.Count()
  {
    if r.head >= r.tail && r.tail + i + 1 == r.head then
      r.(nos := r.nos[0 := -1], head := 0, tail := 0)
    else r.(tail := Succ(r.Cell(i), |r.nos|))
  }

  lemma TakenRecords(r: Ring, i: nat)
    requires r.Valid() && i < r.Count()
    ensures Taken(r, i).Valid() && Taken(r, i).Records() == r.Records()[i + 1..]
  {
    hide Succ;
    var r1 := Taken(r, i);
    assert r1.Count() == r.Count() - i - 1;
    forall k | 0 <= k < r1.Count() ensures r1.Records()[k] == r.Records()[i + 1 + k] {
      assert r1.Cell(k) == r.Cell(i + 1 + k);
    }
  }

  class AckWindow {
    const size: nat
    const ackSeqNo: array<int>
    const ack: array<int>
    const timeStamp: array<int>
    var head: int
    var tail: int

    ghost function Value(): Ring
      reads this, ackSeqNo, ack, timeStamp
    {
      Ring(ackSeqNo[..], ack[..], timeStamp[..], head, tail)
    }

    ghost predicate Valid()
      reads this, ackSeqNo, ack, timeStamp
    {
      ackSeqNo != ack && ackSeqNo != timeStamp && ack != timeStamp && ackSeqNo.Length == size && Value().Valid()
    }

    /** The records, oldest first. */
    ghost function Records(): seq<Record>
      requires Valid()
      reads this, ackSeqNo, ack, timeStamp
    {
      Value().Records()
    }

    constructor (size: nat)
      requires size > 0
      ensures Valid() && this.size == size && Records() == []
      ensures fresh(ackSeqNo) && fresh(ack) && fresh(timeStamp)
    {
      this.size := size;
      ackSeqNo, ack, timeStamp := new int[size], new int[size], new int[size];
      head, tail := 0, 0;
      new;
      ackSeqNo[0] := -1;
    }

    /** An ACK is remembered, and the oldest is forgotten when the ring is full. */
    method Store(no: int, dataAck: int, now: int)
      requires Valid()
      modifies this, ackSeqNo, ack, timeStamp
      ensures Valid() && Records() == Remember(old(Records()), Record(no, dataAck, now), size)
    {
      hide Remember;
      StoredRecords(Value(), Record(no, dataAck, now));
      ackSeqNo[head] := no;
      ack[head] := dataAck;
      timeStamp[head] := now;
      head := Succ(head, size);
      if head == tail {
        tail := Succ(tail, size);
      }
      assert Value() == Stored(old(Value()), Record(no, dataAck, now));
    }

    /** The record at place `i` is the first numbered `no`, or there is none at all. */
    ghost predicate Found(no: int, i: nat)
      requires Valid()
      reads this, ackSeqNo, ack, timeStamp
    {
      && i <= |Records()|
      && (forall j :: 0 <= j < i ==> Records()[j].no != no)
      && (i < |Records()| ==> Records()[i].no == no)
    }

    /** The search while the records do not wrap round the array. */
    method SearchStraight(no: int) returns (p: int, ghost i: nat)
      requires Valid() && head >= tail
      ensures Found(no, i) && if i == |Records()| then p == -1 else p == Value().Cell(i)
      ensures p == -1 || (0 <= p < size && ackSeqNo[p] == no)
    {
      i := 0;
      p := tail;
      while p < head
        invariant tail <= p <= head && i == p - tail
        invariant forall j :: 0 <= j < i ==> Records()[j].no != no
      {
        assert p == Value().Cell(i);
        if no == ackSeqNo[p] {
          return;
        }
        p, i := p + 1, i + 1;
      }
      p := -1;
    }

    /** The search when they do. */
    method SearchWrapped(no: int) returns (p: int, ghost i: nat)
      requires Valid() && head < tail
      ensures Found(no, i) && if i == |Records()| then p == -1 else p == Value().Cell(i)
      ensures p == -1 || (0 <= p < size && ackSeqNo[p] == no)
    {
      hide Ahead;
      i := 0;
      var j, n := tail, head + size;
      while j < n
        invariant tail <= j <= n && i == j - tail
        invariant forall j :: 0 <= j < i ==> Records()[j].no != no
      {
        p := Ahead(tail, j - tail, size);
        assert p == Value().Cell(i);
        if no == ackSeqNo[p] {
          return;
        }
        j, i := j + 1, i + 1;
      }
      p := -1;
    }

    /** The record at cell `p` is forgotten with all older ones. */
    method Forget(p: int, ghost i: nat)
      requires Valid() && i < |Records()| && p == Value().Cell(i)
      modifies this, ackSeqNo
      ensures Valid() && Records() == old(Records())[i + 1..]
    {
      TakenRecords(Value(), i);
      if head >= tail {
        if p + 1 == head {
          tail, head := 0, 0;
          ackSeqNo[0] := -1;
        } else {
          tail := Succ(p, size);
        }
      } else {
        // The source would reset the ring if p were the head cell; it never is.
        assert p != head;
        tail := Succ(p, size);
      }
      assert Value() == Taken(old(Value()), i);
    }

    /** The record numbered `no` is found and forgotten with all older ones. Returns the
        round trip time and the data number, or -1. */
    method Acknowledge(no: int, now: int) returns (rtt: int, dataAck: int, ghost i: nat)
      requires Valid()
      modifies this, ackSeqNo
      ensures Valid() && old(Found(no, i))
      ensures i == |old(Records())| ==> rtt == -1 && Records() == old(Records())
      ensures i < |old(Records())| ==>
                && rtt == now - old(Records()[i]).time && dataAck == old(Records()[i]).ack
                && Records() == old(Records())[i + 1..]
    {
      var p;
      if head >= tail {
        p, i := SearchStraight(no);
      } else {
        p, i := SearchWrapped(no);
      }
      if p == -1 {
        return -1, 0, i;
      }
      dataAck := ack[p];
      rtt := now - timeStamp[p];
      Forget(p, i);
    }
  }
}
