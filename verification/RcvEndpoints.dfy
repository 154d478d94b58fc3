/** The receiving end of a connection as the program keeps it: wrapping 32-bit numbers, the
    loss list, the slot buffer and the ACK history. Each method is proved to do to the
    unbounded receiver `r` what module ReceiveSide says. */
module RcvEndpoints {
  import opened Bytes
  import opened Numbers
  import opened SequenceNumbers
  import opened ReceiveSide
  import opened SendSide
  import opened LossReports
  import opened SndBuffers
  import opened RcvBuffers
  import opened SlotArrays
  import opened RcvLossLists
  import opened AckWindows
  import UnitPools

  /** The slots from the first unread number on hold what is stored. */
  ghost predicate SlotsShow(slots: seq<Slot>, stored: map<int, Payload>, start: int) {
    forall d :: 0 <= d < |slots| ==>
      (if start + d in stored then slots[d].Full? && slots[d].payload == stored[start + d] else slots[d].Empty?)
  }

  ghost predicate RecordsShow(records: seq<Record>, window: seq<AckRecord>) {
    |records| == |window| &&
    forall i :: 0 <= i < |window| ==> records[i].no == Num(window[i].no) && records[i].ack == Num(window[i].ack)
  }

  /** The remembered ACKs are the newest, in order, and bring nothing older than the last
      acknowledged ACK. */
  ghost predicate Consecutive(window: seq<AckRecord>, ackNo: int, lastAckAck: int) {
    && (forall i :: 0 <= i < |window| ==> window[i].no == ackNo - |window| + 1 + i && lastAckAck <= window[i].ack)
    && (forall i, j :: 0 <= i < j < |window| ==> window[i].ack <= window[j].ack)
  }

  lemma ShowSlots(slots: seq<Slot>, stored: map<int, Payload>, start: int, num: int, s: Slot)
    requires SlotsShow(slots, stored, start)
    ensures 0 <= num - start < |slots| ==>
              && (slots[num - start].Full? <==> num in stored)
              && (s.Full? ==> SlotsShow(slots[num - start := s], stored[num := s.payload], start))
  {}

  lemma StartInv(isn: int, bufSize: nat)
    requires 2 <= bufSize
    ensures ReceiverInv(InitReceiver(isn), isn, bufSize) && 2 <= ACK_WINDOW_SIZE
  {}

  /** An empty loss list and an empty ACK history. */
  method NewLists(flightFlag: nat) returns (l: RcvLossList, w: AckWindow)
    requires 2 <= flightFlag <= THRESHOLD
    ensures fresh({l, w, l.data1, l.data2, l.next, l.prior, w.ackSeqNo, w.ack, w.timeStamp})
    ensures l.Valid() && l.Lost() == {} && l.size == flightFlag
    ensures w.Valid() && w.size == ACK_WINDOW_SIZE && w.Records() == []
    ensures {l.data1, l.data2, l.next, l.prior} !! {w.ackSeqNo, w.ack, w.timeStamp}
  {
    hide RcvLossList.Valid, RcvLossList.Lost, AckWindow.Valid, AckWindow.Records;
    l := new RcvLossList(flightFlag);
    w := new AckWindow(ACK_WINDOW_SIZE);
  }

  class RcvEndpoint {
    const buffer: RcvBuffer
    const lossList: RcvLossList
    const ackWindow: AckWindow
    var lastAck: SeqNum
    var lastAckAck: SeqNum
    var currSeqNo: int32
    var ackSeqNo: SeqNum
    ghost const isn: int
    ghost var r: Receiver

    ghost predicate BufferShows(stored: map<int, Payload>, start: int, ack: int, notch: int)
      reads buffer, buffer.slot, buffer.pool
    {
      && buffer.Valid() && SlotsShow(buffer.Slots(), stored, start)
      && buffer.GetRcvDataSize() == ack - start && buffer.notch == notch
    }

    ghost predicate LossShows(loss: set<int>)
      reads lossList, lossList.data1, lossList.data2, lossList.next, lossList.prior
      ensures LossShows(loss) ==> 2 <= buffer.size <= THRESHOLD
    {
      lossList.Valid() && lossList.Lost() == loss && 2 <= buffer.size <= lossList.size <= THRESHOLD
    }

    ghost predicate WindowShows(window: seq<AckRecord>, ackNo: int, lastAckAck: int)
      reads ackWindow, ackWindow.ackSeqNo, ackWindow.ack, ackWindow.timeStamp
    {
      ackWindow.Valid() && ackWindow.size == ACK_WINDOW_SIZE && RecordsShow(ackWindow.Records(), window) &&
          Consecutive(window, ackNo, lastAckAck)
    }

    ghost predicate NumbersShow(r: Receiver)
      reads this`lastAck, this`lastAckAck, this`currSeqNo, this`ackSeqNo
    {
      && lastAck == Num(r.lastAck) && lastAckAck == Num(r.lastAckAck) && ackSeqNo == Num(r.ackNo)
      && IsCurrent(currSeqNo, r.curr) && (currSeqNo == -1 ==> r.curr == isn - 1)
    }

    ghost predicate Apart() {
      {lossList.data1, lossList.data2, lossList.next, lossList.prior} !!
      {ackWindow.ackSeqNo, ackWindow.ack, ackWindow.timeStamp}
    }

    ghost predicate Valid()
      reads this, buffer, buffer.slot, buffer.pool
      reads lossList, lossList.data1, lossList.data2, lossList.next, lossList.prior
      reads ackWindow, ackWindow.ackSeqNo, ackWindow.ack, ackWindow.timeStamp
    {
      && Apart() && ReceiverInv(r, isn, buffer.size)
      && BufferShows(r.slots, r.start, r.lastAck, r.notch) && LossShows(r.loss)
      && WindowShows(r.window, r.ackNo, r.lastAckAck) && NumbersShow(r)
    }

    /** A connection is set up (`connect`, `accept`). */
    constructor (pool: UnitPools.UnitPool, id: nat, isn: SeqNum, bufSize: nat, flightFlag: nat)
      requires 2 <= bufSize <= flightFlag <= THRESHOLD && pool.Valid() && id !in pool.slots
      modifies pool`slots
      ensures buffer.Shape() && buffer.Slots() == seq(bufSize, _ => Empty) && buffer.maxPos == 0
      ensures buffer.pool == pool && buffer.id == id && pool.slots == old(pool.slots)[id := seq(bufSize, _ => None)]
      ensures Valid() && r == InitReceiver(isn) && this.isn == isn && buffer.size == bufSize
      ensures fresh(buffer) && fresh(buffer.slot) && fresh(lossList) && fresh(ackWindow)
      ensures fresh(lossList.data1) && fresh(lossList.data2) && fresh(lossList.next) && fresh(lossList.prior)
      ensures fresh(ackWindow.ackSeqNo) && fresh(ackWindow.ack) && fresh(ackWindow.timeStamp)
    {
      hide *;
      StartInv(isn, bufSize);
      var list, window := NewLists(flightFlag);
      lossList, ackWindow := list, window;
      buffer := new RcvBuffer(pool, id, bufSize);
      lastAck, lastAckAck, currSeqNo, ackSeqNo := isn, isn, isn - 1, 0;
      this.isn, r := isn, InitReceiver(isn);
      new;
      StartShows();
    }

    lemma StartShows()
      requires r == InitReceiver(isn) && buffer.Valid() && buffer.notch == 0
      requires buffer.GetRcvDataSize() == 0 && buffer.Slots() == seq(buffer.size, _ => Empty)
      requires lossList.Valid() && lossList.Lost() == {} && 2 <= buffer.size <= lossList.size <= THRESHOLD
      requires ackWindow.Valid() && ackWindow.size == ACK_WINDOW_SIZE && ackWindow.Records() == []
      requires lastAck as int == lastAckAck as int == isn && currSeqNo as int == isn - 1 && ackSeqNo == 0
      requires {lossList.data1, lossList.data2, lossList.next, lossList.prior} !!
               {ackWindow.ackSeqNo, ackWindow.ack, ackWindow.timeStamp}
      ensures Valid()
    {
      hide RcvBuffer.Valid, RcvBuffer.Slots, RcvLossList.Valid, RcvLossList.Lost, AckWindow.Valid, AckWindow.Records;
      StartInv(isn, buffer.size);
    }

    // --- Data ---------------------------------------------------------------

    /** The first part of `processData`: the packet is put into its slot, or refused. */
    method StoreUnit(offset: int, payload: Payload, header: Header, u: UnitPools.Unit, ghost num: int)
      returns (ok: bool)
      requires BufferShows(r.slots, r.start, r.lastAck, r.notch) && offset == num - r.lastAck
      requires UnitPools.IsUnit(buffer.pool.flags, u) && UnitPools.FlagOf(buffer.pool.flags, u) == UnitPools.FREE
      modifies buffer`maxPos, buffer.slot
      modifies buffer.pool`flags, buffer.pool`count, buffer.pool`slots, buffer.pool`owner
      ensures ok <==> Classify(r, buffer.size, num) != Refused
      ensures BufferShows(if ok then r.slots[num := payload] else r.slots, r.start, r.lastAck, r.notch)
      ensures Placed(old(buffer.Slots()), r.lastAck - r.start, old(buffer.maxPos), offset, Full(payload, header, 1), ok,
                     buffer.Slots(), buffer.maxPos)
    {
      hide RcvBuffer.Valid, RcvBuffer.Slots, SlotsShow, UnitPools.IsUnit, UnitPools.FlagOf, UnitPools.SetFlag,
           UnitPools.Put, UnitPools.SameElse;
      ShowSlots(buffer.Slots(), r.slots, r.start, num, Full(payload, header, 1));
      if offset < 0 || offset >= buffer.GetAvailBufSize() {
        return false;
      }
      var stored := buffer.AddData(payload, header, u, offset);
      ok := stored == 0;
    }

    /** The numbers between the newest and this one become lost, and are reported. */
    method NoteLoss(first: SeqNum, last: SeqNum, ghost a: int, ghost b: int, ghost loss: set<int>)
      returns (nak: seq<int32>)
      requires LossShows(loss) && first == Num(a) && last == Num(b)
      requires a <= b < a + buffer.size && forall x :: x in loss ==> x < a && b < x + buffer.size
      modifies lossList, lossList.data1, lossList.data2, lossList.next, lossList.prior
      ensures LossShows(loss + Interval(a, b))
      ensures nak == Encode([Range(a, b)])
    {
      hide Num, Interval, RcvLossList.Valid, RcvLossList.Lost, Encode, Flagged;
      LossWords(a, b);
      lossList.Insert(first, last, a, b);
      nak := if first == last then [last] else [Flagged(first), last];
    }

    /** The second part: a gap before the packet is noted. */
    method NoteGap(seqno: SeqNum, ghost num: int) returns (nak: seq<int32>)
      requires LossShows(r.loss) && NumbersShow(r) && Holes(r) && seqno == Num(num)
      requires r.lastAck <= num < r.lastAck + buffer.size && Near(num, r.curr + 1)
      modifies lossList, lossList.data1, lossList.data2, lossList.next, lossList.prior
      ensures nak == if num > r.curr + 1 then Encode([Range(r.curr + 1, num - 1)]) else []
      ensures LossShows(WithGap(r, num))
    {
      hide *;
      nak := [];
      NextFacts(seqno, num);
      GapFacts(num);
      if SeqCmp(seqno, IncSeq(currSeqNo)) > 0 {
        nak := NoteLoss(IncSeq(currSeqNo), DecSeq(seqno), r.curr + 1, num - 1, r.loss);
      }
    }

    /** The wire numbers that bound a gap before `num`. */
    lemma NextFacts(seqno: SeqNum, num: int)
      requires NumbersShow(r) && seqno == Num(num) && Near(num, r.curr + 1)
      ensures currSeqNo >= -1 && IncSeq(currSeqNo) == Num(r.curr + 1) && DecSeq(seqno) == Num(num - 1)
      ensures SeqCmp(seqno, IncSeq(currSeqNo)) > 0 <==> num > r.curr + 1
    {
      hide Num, IncSeq, DecSeq, SeqCmp;
      IncAgrees(r.curr, currSeqNo);
      DecAgrees(num);
      CmpAgrees(num, r.curr + 1);
    }

    lemma GapFacts(num: int)
      requires Holes(r) && r.lastAck <= num < r.lastAck + buffer.size
      ensures WithGap(r, num) == r.loss + Interval(r.curr + 1, num - 1)
      ensures num <= r.curr + 1 ==> WithGap(r, num) == r.loss
      ensures num > r.curr + 1 ==> num - 1 < r.curr + 1 + buffer.size
      ensures forall x :: x in r.loss ==> x < r.curr + 1 && num - 1 < x + buffer.size
    {}

    /** The last part: the packet is counted as the newest or struck off the loss list. */
    method CountUnit(seqno: SeqNum, ghost num: int, ghost loss: set<int>)
      requires LossShows(loss) && NumbersShow(r) && seqno == Num(num) && Near(num, r.curr) && Near(num, r.curr + 1)
      requires Within(loss, num, buffer.size)
      requires isn <= num && (num > r.curr ==> num !in loss)
      modifies this`currSeqNo, lossList, lossList.data1, lossList.data2, lossList.next, lossList.prior
      ensures LossShows(loss - {num}) && NumbersShow(r.(curr := Max(r.curr, num)))
    {
      hide Num, RcvLossList.Valid, RcvLossList.Lost, SeqCmp;
      CmpCurrent(num, currSeqNo, r.curr);
      if SeqCmp(seqno, currSeqNo) > 0 {
        currSeqNo := seqno;
        assert loss - {num} == loss;
      } else {
        var found := lossList.Remove(seqno, num);
      }
    }

    /** What follows once the packet is in its slot. */
    method NoteUnit(seqno: SeqNum, ghost num: int) returns (nak: seq<int32>)
      requires LossShows(r.loss) && NumbersShow(r) && Holes(r) && seqno == Num(num)
      requires isn <= r.lastAck <= num < r.lastAck + buffer.size && Near(num, r.curr) && Near(num, r.curr + 1)
      modifies this`currSeqNo, lossList, lossList.data1, lossList.data2, lossList.next, lossList.prior
      ensures nak == if num > r.curr + 1 then Encode([Range(r.curr + 1, num - 1)]) else []
      ensures LossShows(WithGap(r, num) - {num}) && NumbersShow(r.(curr := Max(r.curr, num)))
    {
      hide *;
      GapWithin(r, num, buffer.size);
      nak := NoteGap(seqno, num);
      CountUnit(seqno, num, WithGap(r, num));
    }

    /** `processData`: a packet arrives. It is taken, and 0 returned, exactly when it is not
        acknowledged, not yet there and in front of the last slot; else -1 is returned. The
        numbers it leaps over are lost, and reported at once. */
    method ProcessData(seqno: SeqNum, payload: Payload, header: Header, u: UnitPools.Unit, ghost num: int)
      returns (res: int, nak: seq<int32>)
      requires Valid() && payload != [] && seqno == Num(num)
      requires Near(r.lastAck, num) && Near(num, r.curr) && Near(num, r.curr + 1)
      requires UnitPools.IsUnit(buffer.pool.flags, u) && UnitPools.FlagOf(buffer.pool.flags, u) == UnitPools.FREE
      modifies this`currSeqNo, this`r, buffer`maxPos, buffer.slot
      modifies buffer.pool`flags, buffer.pool`count, buffer.pool`slots, buffer.pool`owner
      modifies lossList, lossList.data1, lossList.data2, lossList.next, lossList.prior
      ensures Valid() && r == Store(old(r), buffer.size, num, payload)
      ensures res ==
              if old(r).lastAck <= num < old(r).start + buffer.size - 1 && num !in old(r).slots then 0 else -1
      ensures res == -1 ==> r == old(r)
      ensures res == 0 ==>
                r.slots == old(r).slots[num := payload] && Leaps(old(r), r, num)
      ensures Placed(old(buffer.Slots()), old(r).lastAck - old(r).start, old(buffer.maxPos), num - old(r).lastAck,
                     Full(payload, header, 1), res == 0, buffer.Slots(), buffer.maxPos)
      ensures nak == if res == 0 && num > old(r).curr + 1 then Encode([Range(old(r).curr + 1, num - 1)]) else []
    {
      hide *;
      Opened();
      ClassifyExact(r, buffer.size, num);
      StoreTakes(r, buffer.size, num, payload);
      OffAgrees(r.lastAck, num);
      StoreKeeps(r, isn, buffer.size, num, payload);
      StoreParts(r, isn, buffer.size, num, payload);
      var offset := SeqOff(lastAck, seqno);
      var ok := StoreUnit(offset, payload, header, u, num);
      if !ok {
        Closed();
        return -1, [];
      }
      nak := NoteUnit(seqno, num);
      r := Store(r, buffer.size, num, payload);
      Stored(old(r), num, payload);
      StoreNotes(old(r), buffer.size, num, payload);
      res := 0;
    }

    /** What is known of the parts of the receiver. */
    lemma Opened()
      requires Valid()
      ensures Apart() && ReceiverInv(r, isn, buffer.size) && 2 <= buffer.size <= THRESHOLD
      ensures BufferShows(r.slots, r.start, r.lastAck, r.notch) && LossShows(r.loss)
      ensures WindowShows(r.window, r.ackNo, r.lastAckAck) && NumbersShow(r) && lastAck == Num(r.lastAck)
      ensures {lossList.data1, lossList.data2, lossList.next, lossList.prior} !!
              {ackWindow.ackSeqNo, ackWindow.ack, ackWindow.timeStamp}
    {
      hide Num, BufferShows, LossShows, WindowShows, IsCurrent, ReceiverInv;
    }

    lemma Closed()
      requires Apart() && ReceiverInv(r, isn, buffer.size)
      requires BufferShows(r.slots, r.start, r.lastAck, r.notch) && LossShows(r.loss)
      requires WindowShows(r.window, r.ackNo, r.lastAckAck) && NumbersShow(r)
      ensures Valid()
    {
      hide Num, BufferShows, LossShows, WindowShows, NumbersShow, ReceiverInv;
    }

    lemma Stored(r0: Receiver, num: int, payload: Payload)
      requires Apart() && ReceiverInv(r, isn, buffer.size)
      requires r == r0.(slots := r0.slots[num := payload], curr := Max(r0.curr, num), loss := WithGap(r0, num) - {num})
      requires BufferShows(r0.slots[num := payload], r0.start, r0.lastAck, r0.notch)
      requires LossShows(WithGap(r0, num) - {num}) && WindowShows(r0.window, r0.ackNo, r0.lastAckAck)
      requires NumbersShow(r0.(curr := Max(r0.curr, num)))
      ensures Valid()
    {
      hide Num, BufferShows, LossShows, WindowShows, IsCurrent, ReceiverInv, WithGap;
    }

    // --- ACKs -----------------------------------------------------------------

    /** The number to acknowledge: the first that is missing. */
    method AckNumber() returns (ack: SeqNum)
      requires LossShows(r.loss) && NumbersShow(r)
      ensures ack == Num(FirstMissing(r))
    {
      hide Num, RcvLossList.Valid, RcvLossList.Lost, Least;
      IncAgrees(r.curr, currSeqNo);
      var n := lossList.GetLossLength();
      if n == 0 {
        ack := IncSeq(currSeqNo);
      } else {
        var seqno := lossList.GetFirstLostSeq();
        ack := seqno;
      }
    }

    /** The numbers compared lie within a threshold of each other. */
    ghost predicate Live()
      reads this`r
    {
      FirstMissing(r) < r.lastAckAck + THRESHOLD
    }

    /** A light ACK brings the number alone. */
    method SendLiteAck() returns (packet: Option<SeqNum>)
      requires Valid() && Live()
      ensures packet == if FirstMissing(r) == r.lastAckAck then None else Some(Num(FirstMissing(r)))
    {
      hide Num, Valid;
      MissingLast();
      var ack := AckNumber();
      EqAgrees(FirstMissing(r), r.lastAckAck);
      packet := if ack == lastAckAck then None else Some(ack);
    }

    /** The numbers a full ACK compares. */
    lemma MissingLast()
      requires Valid()
      ensures NumbersShow(r) && LossShows(r.loss) && r.lastAckAck <= r.lastAck <= FirstMissing(r) <= r.curr + 1
      ensures FirstMissing(r) - r.start < buffer.size
    {
      hide Num, BufferShows, LossShows, WindowShows;
    }

    /** The buffer counts the packets before `ack` as acknowledged. */
    method AckBuffer(acksize: int, ghost ack: int)
      requires BufferShows(r.slots, r.start, r.lastAck, r.notch) && acksize == ack - r.lastAck >= 0 &&
               ack - r.start < buffer.size
      modifies buffer`lastAckPos, buffer`maxPos
      ensures BufferShows(r.slots, r.start, ack, r.notch) && buffer.Slots() == old(buffer.Slots())
      ensures buffer.maxPos == Max(old(buffer.maxPos) - acksize, 0)
    {
      hide RcvBuffer.Valid, RcvBuffer.Slots, SlotsShow;
      buffer.AckData(acksize);
    }

    /** The number acknowledged moves up, when it has. Returns whether an ACK is due. */
    method MoveAck(ack: SeqNum, due: bool) returns (go: bool)
      requires Valid() && Live() && ack == Num(FirstMissing(r)) && FirstMissing(r) != r.lastAckAck
      modifies this`lastAck, buffer`lastAckPos, buffer`maxPos
      ensures go == AckDue(r, due)
      ensures var r1 := r.(lastAck := if go then FirstMissing(r) else r.lastAck);
              && BufferShows(r1.slots, r1.start, r1.lastAck, r1.notch) && NumbersShow(r1)
              && buffer.Slots() == old(buffer.Slots())
              && buffer.maxPos == Max(old(buffer.maxPos) - (r1.lastAck - r.lastAck), 0)
    {
      hide Num, Valid, SeqCmp, SeqOff, FirstMissing, BufferShows, LossShows, IsCurrent;
      MissingLast();
      AckShows();
      CmpAgrees(FirstMissing(r), r.lastAck);
      OffAgrees(r.lastAck, FirstMissing(r));
      if SeqCmp(ack, lastAck) > 0 {
        var acksize := SeqOff(lastAck, ack);
        lastAck := ack;
        AckBuffer(acksize, FirstMissing(r));
        go := true;
      } else {
        EqAgrees(FirstMissing(r), r.lastAck);
        go := ack == lastAck && due;
      }
    }

    lemma AckShows()
      requires Valid()
      ensures BufferShows(r.slots, r.start, r.lastAck, r.notch) && buffer.maxPos >= 0
    {
      hide LossShows, WindowShows, NumbersShow, ReceiverInv;
    }

    /** The ACK just sent is remembered under the next ACK number. */
    method RememberAck(now: int, ghost ack: int)
      requires WindowShows(r.window, r.ackNo, r.lastAckAck) && NumbersShow(r.(lastAck := ack))
      requires r.lastAckAck <= ack && forall i :: 0 <= i < |r.window| ==> r.window[i].ack <= ack
      modifies this`ackSeqNo, ackWindow, ackWindow.ackSeqNo, ackWindow.ack, ackWindow.timeStamp
      ensures NumbersShow(r.(lastAck := ack, ackNo := r.ackNo + 1))
      ensures WindowShows(Remember(r.window, AckRecord(r.ackNo + 1, ack), ACK_WINDOW_SIZE), r.ackNo + 1, r.lastAckAck)
    {
      hide Num, AckWindow.Valid, AckWindow.Records, RecordsShow, Consecutive, Remember, IncAck;
      IncAckAgrees(r.ackNo);
      RememberShows(ackWindow.Records(), r.window, r.ackNo, r.lastAckAck, ack, now);
      ackSeqNo := IncAck(ackSeqNo);
      ackWindow.Store(ackSeqNo, lastAck, now);
    }

    /** A full ACK: `due` says that the last one was sent long enough ago. Returns its
        number, the data number it acknowledges and the free slots it advertises. */
    method SendAck(due: bool, now: int) returns (packet: Option<(SeqNum, SeqNum, int)>)
      requires Valid() && Live()
      modifies this`lastAck, this`ackSeqNo, this`r, buffer`lastAckPos, buffer`maxPos
      modifies ackWindow, ackWindow.ackSeqNo, ackWindow.ack, ackWindow.timeStamp
      ensures Valid() && r == if AckDue(old(r), due) then Acknowledge(old(r)) else old(r)
      ensures var m := FirstMissing(old(r));
              if m > old(r).lastAck || (due && m > old(r).lastAckAck) then
                && r.lastAck == m && r.ackNo == old(r).ackNo + 1
                && packet == Some((Num(r.ackNo), Num(m), Max(buffer.size - 1 - (m - r.start), 2)))
              else r == old(r) && packet == None
      ensures buffer.Slots() == old(buffer.Slots())
      ensures buffer.maxPos == Max(old(buffer.maxPos) - (r.lastAck - old(r).lastAck), 0)
      ensures packet ==
              if AckDue(old(r), due) then Some((Num(r.ackNo), Num(r.lastAck), Max(Avail(r, buffer.size), 2))) else None
    {
      hide *;
      Opened();
      AckExact(r, isn, buffer.size, due);
      Room();
      MissingLast();
      AckShows();
      AcknowledgeParts(r, isn, buffer.size);
      NotDue(due);
      Compared();
      packet := None;
      var ack := AckNumber();
      if ack == lastAckAck {
        return;
      }
      var go := MoveAck(ack, due);
      if !go {
        Closed();
        return;
      }
      Shown(r.(lastAck := FirstMissing(r)));
      // The last test of the source, which always holds here.
      assert SeqCmp(lastAck, lastAckAck) > 0;
      RememberAck(now, FirstMissing(r));
      r := Acknowledge(r);
      AckSent(old(r));
      var free := FreeSlots();
      packet := Some((ackSeqNo, lastAck, if free < 2 then 2 else free));
    }

    lemma Room()
      ensures forall r1: Receiver :: Avail(r1, buffer.size) == buffer.size - 1 - (r1.lastAck - r1.start)
    {}

    lemma Compared()
      requires Live() && r.lastAckAck <= FirstMissing(r)
      ensures Num(FirstMissing(r)) == Num(r.lastAckAck) <==> FirstMissing(r) == r.lastAckAck
      ensures SeqCmp(Num(FirstMissing(r)), Num(r.lastAckAck)) > 0 <==> FirstMissing(r) > r.lastAckAck
    {
      hide Num, FirstMissing, SeqCmp;
      EqAgrees(FirstMissing(r), r.lastAckAck);
      CmpAgrees(FirstMissing(r), r.lastAckAck);
    }

    lemma Shown(r1: Receiver)
      requires NumbersShow(r1)
      ensures lastAck == Num(r1.lastAck) && lastAckAck == Num(r1.lastAckAck)
    {
      hide Num;
    }

    lemma NotDue(due: bool)
      requires NumbersShow(r) && buffer.maxPos >= 0
      ensures lastAckAck == Num(r.lastAckAck) && Max(buffer.maxPos - (r.lastAck - r.lastAck), 0) == buffer.maxPos
      ensures FirstMissing(r) == r.lastAckAck ==> !AckDue(r, due)
    {
      hide Num, FirstMissing;
    }

    lemma AckSent(r0: Receiver)
      requires Apart() && ReceiverInv(r, isn, buffer.size)
      requires r == Acknowledge(r0) && FirstMissing(r0) > r0.lastAckAck
      requires BufferShows(r0.slots, r0.start, FirstMissing(r0), r0.notch) && LossShows(r0.loss)
      requires WindowShows(Remember(r0.window, AckRecord(r0.ackNo + 1, FirstMissing(r0)), ACK_WINDOW_SIZE),
                           r0.ackNo + 1, r0.lastAckAck)
      requires NumbersShow(r0.(lastAck := FirstMissing(r0), ackNo := r0.ackNo + 1))
      ensures Valid() && BufferShows(r.slots, r.start, r.lastAck, r.notch)
      ensures ackSeqNo == Num(r.ackNo) && lastAck == Num(r.lastAck)
      ensures r.lastAck - r0.lastAck == FirstMissing(r0) - r0.lastAck
      ensures forall n :: Max(n, 2) == if n < 2 then 2 else n
    {
      hide Num, BufferShows, LossShows, WindowShows, IsCurrent, ReceiverInv, FirstMissing, Remember;
    }

    method FreeSlots() returns (n: int)
      requires BufferShows(r.slots, r.start, r.lastAck, r.notch)
      ensures n == Avail(r, buffer.size)
    {
      n := buffer.GetAvailBufSize();
    }

    /** The ACK numbered `n` is looked up and forgotten with all older ones. */
    method ForgetAck(no: SeqNum, now: int, ghost n: int) returns (rtt: int, ack: int)
      requires WindowShows(r.window, r.ackNo, r.lastAckAck) && |r.window| < ACK_WINDOW_SIZE && no == Num(n) &&
               Near(r.ackNo, n)
      modifies ackWindow, ackWindow.ackSeqNo
      ensures var i := IndexOf(r.window, n);
              if i == |r.window| then rtt == -1 && WindowShows(r.window, r.ackNo, r.lastAckAck)
              else ack == Num(r.window[i].ack) && WindowShows(r.window[i + 1..], r.ackNo, r.window[i].ack)
      ensures rtt > 0 <==> Recorded(old(ackWindow.Records()), no, now)
    {
      hide Num, AckWindow.Valid, AckWindow.Records, RecordsShow, Consecutive, AckWindow.Found, IndexOf;
      ghost var records, i := ackWindow.Records(), 0;
      assert forall j :: ackWindow.Found(no, j) ==> FirstAt(records, no, j) by { FoundFirst(no); }
      rtt, ack, i := ackWindow.Acknowledge(no, now);
      FirstIsIndex(records, r.window, r.ackNo, r.lastAckAck, no, n, i);
      OneRecorded(records, no, i, now);
    }

    lemma FoundFirst(no: SeqNum)
      requires ackWindow.Valid()
      ensures forall j :: ackWindow.Found(no, j) ==> FirstAt(ackWindow.Records(), no, j)
    {}

    lemma Ack2Facts()
      requires Valid()
      ensures WindowShows(r.window, r.ackNo, r.lastAckAck) && |r.window| < ACK_WINDOW_SIZE
      ensures forall i :: 0 <= i < |r.window| ==> r.lastAckAck <= r.window[i].ack <= r.lastAck
      ensures r.lastAck < r.lastAckAck + THRESHOLD ==>
                forall i :: 0 <= i < |r.window| ==> Near(r.window[i].ack, r.lastAckAck)
    {
      hide Num, BufferShows, LossShows, NumbersShow, AckWindow.Valid, AckWindow.Records, RecordsShow;
    }

    lemma WindowOlder(window: seq<AckRecord>, ackNo: int, newer: int, older: int)
      requires WindowShows(window, ackNo, newer) && older <= newer
      ensures WindowShows(window, ackNo, older)
    {
      hide Num, AckWindow.Valid, AckWindow.Records, RecordsShow;
    }

    /** The number that a confirmed ACK brought is the newest confirmed one. */
    method ConfirmAck(ack: SeqNum, ghost a: int)
      requires NumbersShow(r) && ack == Num(a) && Near(a, r.lastAckAck)
      modifies this`lastAckAck
      ensures NumbersShow(r.(lastAckAck := Max(r.lastAckAck, a)))
    {
      hide Num, SeqCmp, IsCurrent;
      CmpAgrees(a, r.lastAckAck);
      if SeqCmp(ack, lastAckAck) > 0 {
        lastAckAck := ack;
      }
    }

    /** An ACK of an ACK: what it confirms need not be sent again. A round trip is measured
        exactly when the ACK is in the history and was sent before `now`; then its number is
        confirmed. It is forgotten with all older ones. */
    method ProcessAck2(no: SeqNum, now: int, ghost n: int) returns (measured: bool)
      requires Valid() && no == Num(n) && Near(r.ackNo, n) && r.lastAck < r.lastAckAck + THRESHOLD
      modifies this`lastAckAck, this`r, ackWindow, ackWindow.ackSeqNo
      ensures Valid() && r == TakeAck2(old(r), n, measured)
      ensures measured <==> Recorded(old(ackWindow.Records()), no, now)
      ensures Confirms(old(r), r, n, measured)
    {
      hide *;
      Opened();
      Ack2Exact(r, isn, buffer.size, n, true);
      Ack2Exact(r, isn, buffer.size, n, false);
      Ack2Keeps(r, isn, buffer.size, n, true);
      Ack2Keeps(r, isn, buffer.size, n, false);
      Ack2Facts();
      ghost var i := IndexOf(r.window, n);
      var rtt, ack := ForgetAck(no, now, n);
      measured := rtt > 0;
      if measured {
        ConfirmAck(ack, r.window[i].ack);
      }
      r := TakeAck2(r, n, measured);
      Ack2Done(old(r), n, measured);
    }

    lemma Ack2Done(r0: Receiver, n: int, measured: bool)
      requires Apart() && ReceiverInv(r, isn, buffer.size) && r == TakeAck2(r0, n, measured)
      requires BufferShows(r0.slots, r0.start, r0.lastAck, r0.notch) && LossShows(r0.loss)
      requires var i := IndexOf(r0.window, n);
               if i == |r0.window| then WindowShows(r0.window, r0.ackNo, r0.lastAckAck) && NumbersShow(r0)
               else
                 && WindowShows(r0.window[i + 1..], r0.ackNo, r0.window[i].ack) && r0.lastAckAck <= r0.window[i].ack
                 && NumbersShow(if measured then r0.(lastAckAck := Max(r0.lastAckAck, r0.window[i].ack)) else r0)
      ensures Valid()
    {
      hide Num, BufferShows, LossShows, WindowShows, IsCurrent, ReceiverInv, IndexOf;
      var i := IndexOf(r0.window, n);
      if i < |r0.window| {
        WindowOlder(r0.window[i + 1..], r0.ackNo, r0.window[i].ack, r0.lastAckAck);
      }
    }

    // --- Loss reports and reading -----------------------------------------------

    /** The periodic loss report (`sendCtrl`, type 3). */
    method ReportLoss(words: array<int32>, limit: int) returns (len: nat, ghost ranges: seq<Range>)
      requires Valid() && limit <= words.Length
      modifies words
      ensures Valid() && len <= Max(limit, 0) && words[..len] == Encode(ranges)
      ensures forall i :: 0 <= i < |ranges| ==>
                ranges[i].first <= ranges[i].last && Interval(ranges[i].first, ranges[i].last) <= r.loss
      ensures limit > |r.loss| || len < limit - 1 ==> Named(ranges) == r.loss
      ensures limit >= 2 && r.loss != {} ==> ranges != []
    {
      hide Num, BufferShows, WindowShows, NumbersShow, ReceiverInv, RcvLossList.Valid, RcvLossList.Lost, Encode,
           Named, Interval, Below;
      ghost var bound: int;
      len, ranges, bound := lossList.GetLossArray(words, limit);
    }

    /** What the buffer holds is what the receiver has ready. */
    lemma Ready()
      requires Valid()
      ensures ReadyToRead(r) && buffer.Valid() && buffer.Loaded() && buffer.Unread() == Units(r) &&
              buffer.notch == r.notch
      ensures buffer.GetRcvDataSize() == r.lastAck - r.start && SlotsShow(buffer.Slots(), r.slots, r.start)
    {
      hide Num, LossShows, WindowShows, NumbersShow, RcvBuffer.Slots, RcvBuffer.Arranged, RcvBuffer.Pooled;
      InvReady(r, isn, buffer.size);
      hide ReceiverInv;
    }

    /** Bytes are read in order (`recv`). */
    method Recv(len: nat) returns (data: Payload)
      requires Valid()
      modifies this`r, buffer`startPos, buffer`notch, buffer.slot
      modifies buffer.pool`flags, buffer.pool`count, buffer.pool`slots, buffer.pool`owner
      ensures old(ReadyToRead(r))
      ensures Valid() && r == AfterRead(old(r), len) && data == ReadBytes(old(r), len)
    {
      hide Num, LossShows, WindowShows, IsCurrent, RcvBuffer.Valid, RcvBuffer.Slots, RcvBuffer.Loaded, RcvBuffer.Unread,
           ReceiverInv, SlotsShow, Consume, Units, ReadyToRead;
      Ready();
      ReadKeeps(r, isn, buffer.size, len);
      ghost var got := Consume(Units(r), r.notch, len);
      ReadShows(buffer.Slots(), r, isn, got.used, got.notch);
      data := buffer.ReadBuffer(len);
      r := AfterRead(r, len);
    }

    lemma Freed(r0: Receiver)
      requires Apart() && ReceiverInv(r, isn, buffer.size)
      requires r == r0.(slots := r.slots, start := r.start, notch := r.notch)
      requires buffer.Valid() && SlotsShow(buffer.Slots(), r.slots, r.start)
      requires buffer.GetRcvDataSize() == r.lastAck - r.start && buffer.notch == r.notch
      requires LossShows(r0.loss) && WindowShows(r0.window, r0.ackNo, r0.lastAckAck) && NumbersShow(r0)
      ensures Valid()
    {
      hide Num, LossShows, WindowShows, IsCurrent, ReceiverInv, SlotsShow, RcvBuffer.Valid, RcvBuffer.Slots;
    }

    /** A message is read (`recvmsg`). `h` and `i` are its first and last slot. */
    method RecvMsg(len: nat) returns (data: Payload, ghost h: int, ghost i: int)
      requires Valid() && r.notch == 0 && Chained(buffer.Slots())
      modifies this`r, buffer`startPos, buffer.slot
      modifies buffer.pool`flags, buffer.pool`count, buffer.pool`slots, buffer.pool`owner
      ensures Valid() && 0 <= r.start - old(r).start <= old(r).lastAck - old(r).start
      ensures r == FreeUnits(old(r), r.start - old(r).start, 0)
      ensures Msg(old(buffer.Slots()), old(r).lastAck - old(r).start, buffer.maxPos, len, data, h, i, buffer.Slots(),
                  r.lastAck - r.start)
    {
      hide *;
      Opened();
      Ready();
      ghost var v, acked := buffer.Slots(), buffer.GetRcvDataSize();
      FreeMsg(r, isn, buffer.size, 0);
      data, h, i := buffer.ReadMsg(len);
      ghost var used := acked - buffer.GetRcvDataSize();
      MsgShows(v, r, acked, buffer.maxPos, len, data, h, i, buffer.Slots(), buffer.GetRcvDataSize());
      FreeMsg(r, isn, buffer.size, used);
      r := FreeUnits(r, used, 0);
      Freed(old(r));
    }

    /** Whether there is a message to read (`getRcvMsgNum`, after each read): bad slots are
        dropped on the way. */
    method CountMsgs() returns (n: int)
      requires Valid() && r.notch == 0
      modifies this`r, buffer`startPos, buffer.slot
      modifies buffer.pool`flags, buffer.pool`count, buffer.pool`slots, buffer.pool`owner
      ensures Valid() && 0 <= r.start - old(r).start <= old(r).lastAck - old(r).start
      ensures r == FreeUnits(old(r), r.start - old(r).start, 0)
      ensures Scanned(old(buffer.Slots()), old(r).lastAck - old(r).start, buffer.maxPos, n, buffer.Slots(),
                      r.lastAck - r.start)
    {
      hide *;
      Opened();
      Ready();
      ghost var v, acked := buffer.Slots(), buffer.GetRcvDataSize();
      FreeMsg(r, isn, buffer.size, 0);
      n := buffer.GetRcvMsgNum();
      ghost var used := acked - buffer.GetRcvDataSize();
      ScanShows(v, r, acked, buffer.maxPos, n, buffer.Slots(), buffer.GetRcvDataSize());
      FreeMsg(r, isn, buffer.size, used);
      r := FreeUnits(r, used, 0);
      Freed(old(r));
    }

    /** A unit of the pool for the next packet, if there is one. */
    method NextUnit() returns (u: Option<UnitPools.Unit>)
      requires Valid()
      modifies buffer.pool`flags, buffer.pool`size, buffer.pool`count, buffer.pool`currQueue, buffer.pool`avail
      ensures Valid() && buffer.Slots() == old(buffer.Slots())
      ensures u.Some? ==>
                && UnitPools.IsUnit(buffer.pool.flags, u.value)
                && UnitPools.FlagOf(buffer.pool.flags, u.value) == UnitPools.FREE
    {
      hide RcvBuffer.Valid, RcvBuffer.Slots, SlotsShow, LossShows, WindowShows, NumbersShow, ReceiverInv,
           UnitPools.UnitPool.Valid, UnitPools.UnitPool.View, UnitPools.IsUnit, UnitPools.FlagOf;
      PoolThere();
      ghost var looked;
      u, looked := buffer.pool.GetNextAvailUnit();
      buffer.Undisturbed(buffer.id + 1);
    }

    lemma PoolThere()
      requires Valid()
      ensures buffer.pool.Valid()
    {
      hide SlotsShow, LossShows, WindowShows, NumbersShow, ReceiverInv, UnitPools.UnitPool.Valid,
           RcvBuffer.Arranged, Mirrors;
    }
  }

  /** What a read message takes from the front of the slots, and that the rest stays. */
  lemma MsgShows(v: seq<Slot>, r: Receiver, acked: nat, maxPos: int, len: nat, data: Payload, h: int, i: int,
          w: seq<Slot>, left: int)
    requires SlotsShow(v, r.slots, r.start) && Holes(r) && acked == r.lastAck - r.start <= |v|
    requires Msg(v, acked, maxPos, len, data, h, i, w, left) && Fits(r, |v|)
    ensures 0 <= left <= acked && SlotsShow(w, FreeUnits(r, acked - left, 0).slots, r.start + acked - left)
  {
    hide Holes, Fits, HeadAt, Eligible, NoneBefore, BadFrom, Copied, FreeUnits, SlotsShow, Passed, Marked;
    MsgTakes(v, acked, maxPos, len, data, h, i, w, left);
    PassedShows(v, r, acked - left);
    SameShows(Passed(v, acked - left), w, FreeUnits(r, acked - left, 0).slots, r.start + acked - left);
  }

  lemma ScanShows(v: seq<Slot>, r: Receiver, acked: nat, maxPos: int, count: int, w: seq<Slot>, left: int)
    requires SlotsShow(v, r.slots, r.start) && Holes(r) && acked == r.lastAck - r.start <= |v|
    requires Scanned(v, acked, maxPos, count, w, left) && Fits(r, |v|)
    ensures 0 <= left <= acked && SlotsShow(w, FreeUnits(r, acked - left, 0).slots, r.start + acked - left)
  {
    hide Holes, Fits, BadFrom, FreeUnits, SlotsShow, Passed, Counted;
    PassedMore(v, 0, 0);
    PassedShows(v, r, acked - left);
  }

  lemma PassedShows(v: seq<Slot>, r: Receiver, used: nat)
    requires SlotsShow(v, r.slots, r.start) && used <= |v| && Holes(r) && Fits(r, |v|)
    ensures SlotsShow(Passed(v, used), FreeUnits(r, used, 0).slots, r.start + used)
  {
    var w := Passed(v, used);
    forall d | 0 <= d < |w| && d < |v| - used ensures w[d] == v[used + d] {}
  }

  /** Only the flags of slots may differ. */
  ghost predicate SameLoad(v: seq<Slot>, w: seq<Slot>) {
    |v| == |w| && forall d :: 0 <= d < |v| ==>
      (v[d].Full? <==> w[d].Full?) && (v[d].Full? ==> v[d].payload == w[d].payload && v[d].header == w[d].header)
  }

  lemma SameShows(v: seq<Slot>, w: seq<Slot>, stored: map<int, Payload>, start: int)
    requires SlotsShow(v, stored, start) && SameLoad(v, w)
    ensures SlotsShow(w, stored, start)
  {}

  lemma MsgTakes(v: seq<Slot>, acked: nat, maxPos: int, len: nat, data: Payload, h: int, i: int, w: seq<Slot>,
          left: int)
    requires acked <= |v| && Msg(v, acked, maxPos, len, data, h, i, w, left)
    ensures 0 <= left <= acked && SameLoad(Passed(v, acked - left), w)
  {
    hide HeadAt, Eligible, NoneBefore, BadFrom, Copied, Passed, Marked;
    var k := if acked == 0 && maxPos <= 0 then 0 else BadFrom(v, 0, acked);
    PassedMore(v, k, 0);
    if 0 <= i < acked - k {
      PassedMore(v, k, i + 1);
    } else if k + left == acked {
      MarkedLoad(Passed(v, k), h, i);
    }
  }

  /** Marking changes flags alone. */
  lemma MarkedLoad(v: seq<Slot>, h: int, i: int)
    ensures SameLoad(v, v) && (0 <= h <= i ==> SameLoad(v, Marked(v, h, i + 1 - h, true)))
  {}

  lemma PassedMore(v: seq<Slot>, k: nat, j: nat)
    requires k + j <= |v|
    ensures Passed(Passed(v, k), j) == Passed(v, k + j) && Passed(v, 0) == v
  {}

  lemma ReadShows(slots: seq<Slot>, r: Receiver, isn: int, used: nat, notch: nat)
    requires SlotsShow(slots, r.slots, r.start) && ReceiverInv(r, isn, |slots|) && used <= |slots|
    ensures var r1 := FreeUnits(r, used, notch);
            SlotsShow(slots[used..] + seq(used, _ => Empty), r1.slots, r1.start)
  {
    var v, r1 := slots[used..] + seq(used, _ => Empty), FreeUnits(r, used, notch);
    forall d | 0 <= d < |v|
      ensures if r1.start + d in r1.slots then v[d].Full? && v[d].payload == r1.slots[r1.start + d] else v[d].Empty?
    {
      if d < |slots| - used {
        assert v[d] == slots[used + d];
      }
    }
  }

  /** A record with this number was made before `now`. */
  ghost predicate Recorded(records: seq<Record>, no: int, now: int) {
    exists i :: 0 <= i < |records| && records[i].no == no && records[i].time < now
  }

  lemma OneRecorded(records: seq<Record>, no: int, i: nat, now: int)
    requires FirstAt(records, no, i)
    requires forall j, k :: 0 <= j < k < |records| ==> records[j].no != no || records[k].no != no
    ensures Recorded(records, no, now) <==> i < |records| && records[i].time < now
  {
    if Recorded(records, no, now) {
      var k :| 0 <= k < |records| && records[k].no == no && records[k].time < now;
      assert k == i;
    }
  }

  /** `i` is the place of the first record with this number, or there is none. */
  ghost predicate FirstAt(records: seq<Record>, no: int, i: nat) {
    && i <= |records| && (i < |records| ==> records[i].no == no)
    && (forall j :: 0 <= j < i ==> records[j].no != no)
  }

  /** The wire numbers of remembered ACKs tell them apart. */
  lemma FirstIsIndex(records: seq<Record>, window: seq<AckRecord>, ackNo: int, lastAckAck: int, no: SeqNum, n: int,
          i: nat)
    requires RecordsShow(records, window) && Consecutive(window, ackNo, lastAckAck) && |window| < ACK_WINDOW_SIZE
    requires no == Num(n) && Near(ackNo, n) && FirstAt(records, no, i)
    ensures i == IndexOf(window, n) && |records| == |window|
    ensures forall j, k :: 0 <= j < k < |records| ==> records[j].no != no || records[k].no != no
    ensures i < |window| ==>
              && records[i].ack == Num(window[i].ack)
              && RecordsShow(records[i + 1..], window[i + 1..]) && Consecutive(window[i + 1..], ackNo, window[i].ack)
  {
    hide Num;
    forall j | 0 <= j < |window| ensures records[j].no == no <==> window[j].no == n {
      EqAgrees(window[j].no, n);
    }
  }

  lemma IncAckAgrees(n: int)
    ensures IncAck(Num(n)) == Num(n + 1)
  {
    NumDiff(n, n + 1);
  }

  lemma RememberShows(records: seq<Record>, window: seq<AckRecord>, ackNo: int, lastAckAck: int, ack: int, now: int)
    requires RecordsShow(records, window) && Consecutive(window, ackNo, lastAckAck) && lastAckAck <= ack
    requires forall i :: 0 <= i < |window| ==> window[i].ack <= ack
    ensures var w := Remember(window, AckRecord(ackNo + 1, ack), ACK_WINDOW_SIZE);
            && RecordsShow(Remember(records, Record(Num(ackNo + 1), Num(ack), now), ACK_WINDOW_SIZE), w)
            && Consecutive(w, ackNo + 1, lastAckAck)
  {
    hide Num;
  }

  /** What a full ACK comes to. */
  lemma AcknowledgeParts(r: Receiver, isn: int, bufSize: nat)
    requires ReceiverInv(r, isn, bufSize)
    ensures ReceiverInv(Acknowledge(r), isn, bufSize)
    ensures forall i :: 0 <= i < |r.window| ==> r.window[i].ack <= r.lastAck <= FirstMissing(r)
  {
    AcknowledgeKeeps(r, isn, bufSize);
    hide Least;
  }

  /** The loss list once the numbers between the newest and `num` are noted. */
  ghost function WithGap(r: Receiver, num: int): set<int> {
    r.loss + Interval(r.curr + 1, num - 1)
  }

  /** The numbers from which `num` can be told apart in a loss list. */
  ghost predicate Within(loss: set<int>, num: int, size: int) {
    forall x :: x in loss ==> x - THRESHOLD < num && num < x + size
  }

  /** What storing a packet comes to. */
  lemma StoreParts(r: Receiver, isn: int, bufSize: nat, num: int, payload: Payload)
    requires ReceiverInv(r, isn, bufSize)
    ensures var kind := Classify(r, bufSize, num);
            if kind == Refused then Store(r, bufSize, num, payload) == r
            else
              && Holes(r) && isn <= r.lastAck <= num < r.lastAck + bufSize && (kind == Beyond <==> num > r.curr + 1)
              && Store(r, bufSize, num, payload) ==
                 r.(slots := r.slots[num := payload], curr := Max(r.curr, num), loss := WithGap(r, num) - {num})
  {
    hide Interval, AcksKnown;
    assert num - 1 < r.curr + 1 ==> Interval(r.curr + 1, num - 1) == {};
    if num > r.curr {
      assert WithGap(r, num) - {num} == WithGap(r, num);
    }
    assert num == r.curr + 1 ==> r.loss + {} == r.loss;
    hide Holes, Fits;
  }

  /** All lost numbers are within reach of an accepted packet's. */
  lemma GapWithin(r: Receiver, num: int, bufSize: nat)
    requires Holes(r) && r.lastAck <= num < r.lastAck + bufSize <= r.lastAck + THRESHOLD && Near(num, r.curr)
    ensures Within(WithGap(r, num), num, bufSize) && (num > r.curr ==> num !in WithGap(r, num))
  {
    hide Interval;
  }

  /** An immediate report is written as any other. */
  lemma LossWords(a: int, b: int)
    requires a <= b < a + THRESHOLD
    ensures Encode([Range(a, b)]) == if Num(a) == Num(b) then [Num(b)] else [Flagged(Num(a)), Num(b)]
  {
    EqAgrees(a, b);
    hide Num;
    assert Encode([Range(a, b)]) == Words(Range(a, b));
  }
}
