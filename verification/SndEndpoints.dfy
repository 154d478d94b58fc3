/** The sending end of a connection as the program keeps it: wrapping 32-bit numbers, the
    loss list and the block buffer. Each method is proved to do to the unbounded sender
    `s` what module SendSide says. */
module SndEndpoints {
  import opened Bytes
  import opened Numbers
  import opened SequenceNumbers
  import opened SendSide
  import opened LossRuns
  import opened LossReports
  import opened SndBuffers
  import opened SndLossLists

  /** The blocks hold these payloads. */
  ghost predicate PacketsShow(q: seq<Packet>, blocks: seq<Payload>) {
    |q| == |blocks| && forall k :: 0 <= k < |q| ==> q[k].payload == blocks[k]
  }

  /** The queued packets are the last of all. */
  ghost predicate Tail(q: seq<Packet>, all: seq<Packet>) {
    |q| <= |all| && q == all[|all| - |q|..]
  }

  lemma TailMore(q: seq<Packet>, all: seq<Packet>, more: seq<Packet>)
    requires Tail(q, all)
    ensures Tail(q + more, all + more)
  {}

  lemma TailLess(q: seq<Packet>, all: seq<Packet>, k: nat)
    requires Tail(q, all) && k <= |q|
    ensures Tail(q[k..], all)
  {}

  /** The message word of packet `k` of all that were queued. */
  function HeaderAt(all: seq<Packet>, k: int): Header {
    if 0 <= k < |all| then all[k].header else Header(false, false, false, 0)
  }

  /** The packet at a place of the queue, by its place among all. */
  lemma TailAt(q: seq<Packet>, all: seq<Packet>, blocks: seq<Payload>, history: seq<Payload>, s: Sender, isn: int,
          k: nat)
    requires Tail(q, all) && PacketsShow(q, blocks) && PacketsShow(all, history) && Aligned(s, isn, history) &&
             blocks == s.blocks && k < |q|
    ensures q[k] == Packet(blocks[k], HeaderAt(all, s.lastDataAck + k - isn))
    ensures 0 <= s.lastDataAck + k - isn < |all|
  {}

  /** The numbers of a reported range can be compared with the sender's. */
  ghost predicate Legible(r: Range, isn: int, lastAck: int, curr: int) {
    && isn <= r.first && isn <= r.last && Near(r.first, r.last)
    && Near(r.first, lastAck) && Near(r.last, lastAck) && Near(r.last, curr) && Near(r.last, curr + 1)
  }

  lemma StartInv(isn: int, window: int)
    requires 2 <= window
    ensures SenderInv(InitSender(isn, window), isn, window, [])
  {}

  class SndEndpoint {
    const buffer: SndBuffer
    const lossList: SndLossList
    var lastAck: SeqNum
    var lastDataAck: SeqNum
    var currSeqNo: int32
    var flowWindowSize: int
    var broken: bool
    ghost const isn: int
    ghost const window: int
    ghost var history: seq<Payload>
    ghost var packets: seq<Packet>
    ghost var s: Sender

    ghost predicate BufferShows(blocks: seq<Payload>, cursor: int)
      reads this`packets, buffer, buffer.ring
      ensures BufferShows(blocks, cursor) ==> buffer.mss > 0
    {
      && buffer.Valid() && PacketsShow(buffer.Packets(), blocks) && buffer.Cursor() == cursor
      && Tail(buffer.Packets(), packets)
    }

    ghost predicate LossShows(loss: set<int>)
      reads lossList, lossList.data1, lossList.data2, lossList.next
      ensures LossShows(loss) ==> 0 < 2 * window <= THRESHOLD
    {
      lossList.Valid() && lossList.Lost() == loss && 0 < lossList.size == 2 * window <= THRESHOLD
    }

    ghost predicate NumbersShow(s: Sender)
      reads this`lastAck, this`lastDataAck, this`currSeqNo, this`flowWindowSize, this`broken
    {
      && lastAck == Num(s.lastAck) && lastDataAck == Num(s.lastDataAck)
      && IsCurrent(currSeqNo, s.curr) && (currSeqNo == -1 ==> s.curr == isn - 1)
      && flowWindowSize == s.flow && broken == s.broken
    }

    ghost predicate Valid()
      reads this, buffer, buffer.ring
      reads lossList, lossList.data1, lossList.data2, lossList.next
    {
      && SenderInv(s, isn, window, history) && PacketsShow(packets, history)
      && BufferShows(s.blocks, s.cursor) && LossShows(s.loss) && NumbersShow(s)
    }

    /** A connection is set up (`connect`): the loss list is twice the window, since light
        ACKs may leave old numbers in it. */
    constructor (isn: SeqNum, window: nat, mss: nat)
      requires mss > 0 && 2 <= window && 2 * window <= THRESHOLD
      ensures Valid() && s == InitSender(isn, window) && this.isn == isn && this.window == window && history == []
      ensures packets == [] && buffer.nextMsgNo == 1
      ensures buffer.mss == mss
      ensures fresh(buffer) && fresh(set b | b in buffer.ring) && fresh(lossList)
      ensures fresh(lossList.data1) && fresh(lossList.data2) && fresh(lossList.next)
    {
      hide SndBuffer.Valid, SndBuffer.Packets, SndBuffer.Cursor, SndLossList.Valid, SndLossList.Lost, SenderInv;
      StartInv(isn, window);
      buffer := new SndBuffer(32, mss);
      lossList := new SndLossList(window * 2);
      lastAck, lastDataAck, currSeqNo, flowWindowSize, broken := isn, isn, isn - 1, window, false;
      this.isn, this.window, history, packets, s := isn, window, [], [], InitSender(isn, window);
    }

    // --- Sending ------------------------------------------------------------

    /** What is known of the parts of the sender. */
    lemma Opened()
      requires Valid()
      ensures SenderInv(s, isn, window, history) && PacketsShow(packets, history) && buffer.mss > 0
      ensures BufferShows(s.blocks, s.cursor) && LossShows(s.loss) && NumbersShow(s)
      ensures lastAck == Num(s.lastAck) && lastDataAck == Num(s.lastDataAck) && currSeqNo >= -1
    {
      hide Num, BufferShows, LossShows, SenderInv, PacketsShow;
    }

    /** The bytes, cut into packets, join the queue. */
    method QueueData(data: Payload, order: bool)
      requires BufferShows(s.blocks, s.cursor)
      modifies this`packets, buffer, buffer.ring
      ensures BufferShows(s.blocks + Chunks(data, buffer.mss), s.cursor)
      ensures packets == old(packets) + Framed(Chunks(data, buffer.mss), order, old(buffer.nextMsgNo))
      ensures fresh(set b | b in buffer.ring && b !in old(buffer.ring))
    {
      hide SndBuffer.Valid, SndBuffer.Packets, SndBuffer.Cursor, Chunks, Framed, Tail;
      ghost var q, framed := buffer.Packets(), Framed(Chunks(data, buffer.mss), order, buffer.nextMsgNo);
      buffer.AddBuffer(data, order);
      TailMore(q, packets, framed);
      packets := packets + framed;
    }

    /** The user's bytes are queued (`send`). */
    method Send(data: Payload, order: bool)
      requires Valid()
      modifies this`s, this`history, this`packets, buffer, buffer.ring
      ensures Valid() && s == Enqueue(old(s), data, buffer.mss) && history == old(history) + Chunks(data, buffer.mss)
      ensures packets == old(packets) + Framed(Chunks(data, buffer.mss), order, old(buffer.nextMsgNo))
      ensures fresh(set b | b in buffer.ring && b !in old(buffer.ring))
    {
      hide *;
      Opened();
      EnqueueKeeps(s, isn, window, history, data, buffer.mss);
      QueueData(data, order);
      s := Enqueue(s, data, buffer.mss);
      history := history + Chunks(data, buffer.mss);
      Queued(old(s), old(packets), old(history), data, order, old(buffer.nextMsgNo));
    }

    lemma Queued(s0: Sender, packets0: seq<Packet>, history0: seq<Payload>, data: Payload, order: bool, no: nat)
      requires SenderInv(s, isn, window, history) && PacketsShow(packets0, history0) && buffer.mss > 0
      requires packets == packets0 + Framed(Chunks(data, buffer.mss), order, no)
      requires history == history0 + Chunks(data, buffer.mss) && s == Enqueue(s0, data, buffer.mss)
      requires BufferShows(s0.blocks + Chunks(data, buffer.mss), s0.cursor) && LossShows(s0.loss) && NumbersShow(s0)
      ensures Valid()
    {
      hide Num, BufferShows, LossShows, IsCurrent, SenderInv, Chunks;
    }

    /** The least lost number leaves the loss list. */
    method PickLost() returns (seqno: int)
      requires Valid() && s.phase.Idle?
      modifies this`s, lossList, lossList.data1, lossList.data2, lossList.next
      ensures Valid() && s == Pick(old(s))
      ensures if s.phase.Picked? then seqno == Num(s.phase.num) else seqno == -1
    {
      hide Num, BufferShows, SenderInv, SndLossList.Valid, SndLossList.Lost, Least, IsCurrent;
      PickKeeps(s, isn, window, history);
      seqno := lossList.GetLostSeq();
      s := Pick(s);
    }

    /** Where the sender's numbers lie: all within a threshold of each other. */
    lemma NumbersNear()
      requires Valid()
      ensures isn <= s.lastDataAck <= s.lastAck <= s.curr + 1 <= s.lastDataAck + 2 * window <= s.lastDataAck + THRESHOLD
      ensures forall x :: x in s.loss ==> s.lastDataAck <= x <= s.curr
      ensures s.cursor == s.curr + 1 - s.lastDataAck <= |s.blocks|
    {
      hide Num, BufferShows, LossShows, NumbersShow;
    }

    /** The packet at a place of the buffer. */
    lemma PacketAt(k: nat)
      requires Valid() && k < |s.blocks|
      ensures |buffer.Packets()| == |s.blocks| == |packets| - (s.lastDataAck - isn)
      ensures buffer.Packets()[k] == Packet(s.blocks[k], HeaderAt(packets, s.lastDataAck + k - isn))
    {
      hide Num, SndBuffer.Valid, SndBuffer.Packets, SndBuffer.Cursor, LossShows, IsCurrent;
      TailAt(buffer.Packets(), packets, s.blocks, history, s, isn, k);
    }

    /** The lost number taken before is looked up under the ACK lock: its packet is read
        again, unless an ACK has released it. */
    method Resend(seqno: SeqNum) returns (packet: Option<Packet>)
      requires Valid() && s.phase.Picked? && seqno == Num(s.phase.num) && Near(s.lastDataAck, s.phase.num)
      modifies this`s
      ensures old(s.phase.num - s.lastDataAck < |s.blocks|)
      ensures Valid() && s == old(s).(phase := Idle)
      ensures packet ==
              match Reread(old(s), old(s.phase.num))
              case Some(p) => Some(Packet(p, HeaderAt(packets, old(s.phase.num) - isn)))
              case None => None
    {
      hide Num, SndBuffer.Valid, SndBuffer.Packets, SndBuffer.Cursor, LossShows, IsCurrent, SenderInv, SeqOff, Tail,
           HeaderAt;
      RereadIsOriginal(s, isn, window, history);
      OffAgrees(s.lastDataAck, s.phase.num);
      var offset := SeqOff(lastDataAck, seqno);
      if offset < 0 {
        packet := None;
      } else {
        var p := buffer.ReadAt(offset);
        PacketAt(offset);
        packet := Some(p);
      }
      s := s.(phase := Idle);
    }

    /** The window test for a new packet. */
    method CheckWindow(congestionWindow: int) returns (ok: bool)
      requires Valid() && s.phase.NoLoss?
      modifies this`s
      ensures Valid() && ok == WindowAllows(old(s), congestionWindow)
      ensures ok <==> s.curr + 2 - s.lastAck <= s.flow && s.curr + 2 - s.lastAck <= congestionWindow
      ensures s == old(s).(phase := if ok then WindowOpen else Idle)
    {
      hide Num, BufferShows, LossShows, SenderInv, SeqLen, IncSeq;
      WindowExact(s, congestionWindow);
      CheckKeeps(s, isn, window, history, congestionWindow);
      NumbersNear();
      IncAgrees(s.curr, currSeqNo);
      LenAgrees(s.lastAck, s.curr + 1);
      var cwnd := if flowWindowSize < congestionWindow then flowWindowSize else congestionWindow;
      ok := cwnd >= SeqLen(lastAck, IncSeq(currSeqNo));
      s := s.(phase := if ok then WindowOpen else Idle);
    }

    /** The current block is sent under the next number. */
    method SendNew() returns (packet: Option<(SeqNum, Packet)>)
      requires Valid() && s.phase.WindowOpen?
      modifies this`s, this`currSeqNo, buffer`currBlock, buffer`cursor
      ensures Valid() && s == Advance(old(s))
      ensures packet ==
              if old(s).cursor < |old(s).blocks| then
                Some((Num(old(s).curr + 1),
                      Packet(old(s).blocks[old(s).cursor], HeaderAt(packets, old(s).curr + 1 - isn))))
              else None
    {
      hide Num, BufferShows, LossShows, SenderInv, IncSeq, HeaderAt, PacketsShow;
      AdvanceKeeps(s, isn, window, history);
      CurrentNext();
      var p := TakeNext();
      if p.Some? {
        currSeqNo := IncSeq(currSeqNo);
        packet := Some((currSeqNo, p.value));
      } else {
        packet := None;
      }
      s := Advance(s);
    }

    /** The number of the next packet, and where the queue's current place is. */
    lemma CurrentNext()
      requires Valid()
      ensures isn <= s.curr + 1 && IncSeq(currSeqNo) == Num(s.curr + 1)
      ensures s.lastDataAck + s.cursor == s.curr + 1
    {
      hide Num, BufferShows, LossShows, IncSeq;
      NumbersNear();
      IncAgrees(s.curr, currSeqNo);
    }

    /** The packet at the current place of the buffer, which moves on. */
    method TakeNext() returns (p: Option<Packet>)
      requires Valid()
      modifies buffer`currBlock, buffer`cursor
      ensures s.cursor < |s.blocks| ==>
                && p == Some(Packet(s.blocks[s.cursor], HeaderAt(packets, s.lastDataAck + s.cursor - isn)))
                && BufferShows(s.blocks, s.cursor + 1)
      ensures s.cursor >= |s.blocks| ==> p == None && BufferShows(s.blocks, s.cursor)
    {
      hide Num, SndBuffer.Valid, SndBuffer.Packets, SndBuffer.Cursor, LossShows, SenderInv, NumbersShow, Tail, HeaderAt;
      if s.cursor < |s.blocks| {
        NumbersNear();
        PacketAt(s.cursor);
      }
      p := buffer.ReadNext();
    }

    /** `packData` when nothing interrupts it: a lost packet goes first, and no new one goes
        while any is lost. With a new one the packets not acknowledged are within both windows;
        one that waits is held back only when they would not be. */
    method PackData(congestionWindow: int) returns (packet: Option<(SeqNum, Packet)>)
      requires Valid() && s.phase.Idle?
      modifies this`s, this`currSeqNo, buffer`currBlock, buffer`cursor
      modifies lossList, lossList.data1, lossList.data2, lossList.next
      ensures Valid() && s.phase.Idle? && s.blocks == old(s).blocks
      ensures old(s).loss != {} ==>
                && s == old(s).(loss := old(s).loss - {Least(old(s).loss)})
                && 0 <= Least(old(s).loss) - s.lastDataAck < |s.blocks|
                && packet == Some((Num(Least(old(s).loss)),
                                   Packet(s.blocks[Least(old(s).loss) - s.lastDataAck],
                                          HeaderAt(packets, Least(old(s).loss) - isn))))
      ensures old(s).loss == {} ==>
                if WindowAllows(old(s), congestionWindow) && old(s).cursor < |s.blocks| then
                  && s == old(s).(curr := old(s).curr + 1, cursor := old(s).cursor + 1)
                  && packet == Some((Num(s.curr), Packet(s.blocks[old(s).cursor], HeaderAt(packets, s.curr - isn))))
                else s == old(s) && packet == None
      ensures old(s).loss == {} && packet.Some? ==>
                && s.curr == old(s).curr + 1
                && s.curr + 1 - s.lastAck <= s.flow && s.curr + 1 - s.lastAck <= congestionWindow
      ensures packet.None? ==>
                && s == old(s) && s.loss == {}
                && (s.cursor < |s.blocks| ==>
                      (s.curr + 1) + 1 - s.lastAck > s.flow || (s.curr + 1) + 1 - s.lastAck > congestionWindow)
    {
      hide Num, Valid, Least, Near, HeaderAt, WindowAllows;
      WindowExact(s, congestionWindow);
      NumbersNear();
      LostNear(s, window);
      var seqno := PickLost();
      if seqno >= 0 {
        var lost := Resend(seqno);
        packet := Some((seqno, lost.value));
      } else {
        var ok := CheckWindow(congestionWindow);
        if ok {
          packet := SendNew();
        } else {
          packet := None;
        }
      }
    }

    // --- ACKs ---------------------------------------------------------------

    /** A light ACK. */
    method ProcessLiteAck(ack: SeqNum, ghost a: int)
      requires Valid() && s.pendingAck.None? && ack == Num(a) && a <= s.curr + 1 && Near(a, s.lastAck)
      modifies this`s, this`flowWindowSize, this`lastAck
      ensures Valid() && s == TakeLiteAck(old(s), a)
      ensures s.lastAck == Max(old(s).lastAck, a) && s.lastAck + s.flow == old(s).lastAck + old(s).flow
    {
      hide Num, BufferShows, LossShows, IsCurrent, SenderInv, SeqCmp, SeqOff;
      LiteAckKeeps(s, isn, window, history, a);
      CmpAgrees(a, s.lastAck);
      OffAgrees(s.lastAck, a);
      if SeqCmp(ack, lastAck) >= 0 {
        flowWindowSize := flowWindowSize - SeqOff(lastAck, ack);
        lastAck := ack;
      }
      s := TakeLiteAck(s, a);
      LiteAckEdge(old(s), a);
    }

    /** A full ACK, up to where it asks for the ACK lock. */
    method ProcessAck(ack: SeqNum, avail: int, ghost a: int) returns (forged: bool)
      requires Valid() && s.pendingAck.None? && ack == Num(a) && Near(a, s.lastAck) && Near(a, s.curr + 1)
      requires a <= s.curr + 1 ==> HonestAck(s, a, avail, window)
      modifies this`s, this`flowWindowSize, this`lastAck, this`broken
      ensures Valid() && s == TakeAck(old(s), a, avail) && (forged <==> a > old(s).curr + 1)
      ensures !forged ==>
                && s.lastAck == Max(old(s).lastAck, a) && s.pendingAck == Some(a)
                && s.flow == if old(s).lastAck <= a then avail else old(s).flow
    {
      hide Num, BufferShows, LossShows, IsCurrent, SeqCmp, IncSeq, SenderInv;
      ForgedKeeps(s, isn, window, history);
      IncAgrees(s.curr, currSeqNo);
      CmpAgrees(a, s.curr + 1);
      forged := SeqCmp(ack, IncSeq(currSeqNo)) > 0;
      if forged {
        broken := true;
      } else {
        AckKeeps(s, isn, window, history, a, avail);
        CmpAgrees(a, s.lastAck);
        if SeqCmp(ack, lastAck) >= 0 {
          flowWindowSize := avail;
          lastAck := ack;
        }
      }
      s := TakeAck(s, a, avail);
      AckEdge(old(s), a, avail);
    }

    /** A full ACK under the ACK lock: what it covers for the first time is released, and every
        lost number that it does not cover is still lost. */
    method LockAck(ack: SeqNum, ghost a: int)
      requires Valid() && s.pendingAck == Some(a) && ack == Num(a) && Near(s.lastDataAck, a)
      modifies this`s, this`lastDataAck, buffer`firstBlock, buffer`count, buffer`ring, buffer`cursor
      modifies lossList, lossList.data1, lossList.data2, lossList.next
      ensures old(Releasable(s, a))
      ensures Valid() && s == ReleaseAck(old(s), a)
      ensures s.lastDataAck == Max(old(s).lastDataAck, a)
      ensures forall x :: x in s.loss <==> x in old(s).loss && x >= a
      ensures forall b :: b in buffer.ring ==> b in old(buffer.ring)
    {
      hide *;
      Opened();
      ReleaseKeeps(s, isn, window, history);
      LockFacts(a);
      var offset := SeqOff(lastDataAck, ack);
      if offset > 0 {
        ReleaseBlocks(offset);
        MoveDataAck(ack, a);
        RemoveLost(DecSeq(lastDataAck), a - 1);
      }
      s := ReleaseAck(s, a);
      LockDone(old(s), a);
    }

    /** What the lock holder compares, and that the lost numbers are near. */
    lemma LockFacts(a: int)
      requires Valid() && s.pendingAck == Some(a) && Near(s.lastDataAck, a)
      ensures SeqOff(lastDataAck, Num(a)) == a - s.lastDataAck && DecSeq(Num(a)) == Num(a - 1)
      ensures a > s.lastDataAck ==> a - s.lastDataAck <= s.cursor <= |s.blocks|
      ensures forall x :: x in s.loss ==> s.lastDataAck <= x && (a > s.lastDataAck ==> Near(x, a - 1))
    {
      hide Num, BufferShows, LossShows, IsCurrent, SenderInv, SeqOff, DecSeq, PacketsShow;
      NumbersNear();
      ReleaseKeeps(s, isn, window, history);
      OffAgrees(s.lastDataAck, a);
      DecAgrees(a);
    }

    method MoveDataAck(ack: SeqNum, ghost a: int)
      requires NumbersShow(s) && ack == Num(a)
      modifies this`lastDataAck
      ensures lastDataAck == ack && NumbersShow(s.(lastDataAck := a))
    {
      hide Num, IsCurrent;
      lastDataAck := ack;
    }

    lemma LockDone(s0: Sender, a: int)
      requires SenderInv(s, isn, window, history) && PacketsShow(packets, history)
      requires Releasable(s0, a) && s == ReleaseAck(s0, a) && forall x :: x in s0.loss ==> s0.lastDataAck <= x
      requires if a > s0.lastDataAck then
                 && BufferShows(s0.blocks[a - s0.lastDataAck..], s0.cursor - (a - s0.lastDataAck))
                 && LossShows(Above(s0.loss, a - 1)) && NumbersShow(s0.(lastDataAck := a))
               else BufferShows(s0.blocks, s0.cursor) && LossShows(s0.loss) && NumbersShow(s0)
      ensures Valid() && s.lastDataAck == Max(s0.lastDataAck, a)
      ensures forall x :: x in s.loss <==> x in s0.loss && x >= a
    {
      hide Num, BufferShows, LossShows, IsCurrent, SenderInv, PacketsShow;
      ReleaseSpares(s0, a);
      assert Above(s0.loss, a - 1) == set x | x in s0.loss && x >= a;
    }

    method ReleaseBlocks(offset: int)
      requires BufferShows(s.blocks, s.cursor) && 0 <= offset <= s.cursor <= |s.blocks|
      modifies buffer`firstBlock, buffer`count, buffer`ring, buffer`cursor
      ensures BufferShows(s.blocks[offset..], s.cursor - offset)
      ensures forall b :: b in buffer.ring ==> b in old(buffer.ring)
    {
      hide SndBuffer.Valid, SndBuffer.Packets, SndBuffer.Cursor, Tail;
      TailLess(buffer.Packets(), packets, offset);
      buffer.AckData(offset);
    }

    method RemoveLost(seqno: SeqNum, ghost n: int)
      requires LossShows(s.loss) && seqno == Num(n) && forall x :: x in s.loss ==> Near(x, n)
      modifies lossList, lossList.data1, lossList.data2, lossList.next
      ensures LossShows(Above(s.loss, n))
    {
      hide Num, SndLossList.Valid, SndLossList.Lost;
      lossList.Remove(seqno, n);
    }

    // --- The retransmission timer -------------------------------------------

    method InsertLost(seqno1: SeqNum, seqno2: SeqNum, ghost a: int, ghost b: int)
      requires LossShows(s.loss) && seqno1 == Num(a) && seqno2 == Num(b) && a <= b < a + 2 * window
      requires forall x :: x in s.loss ==> b < x + 2 * window && x < a + 2 * window
      modifies lossList, lossList.data1, lossList.data2, lossList.next
      ensures LossShows(s.loss + Interval(a, b))
    {
      hide Num, SndLossList.Valid, SndLossList.Lost, Interval;
      var added := lossList.Insert(seqno1, seqno2, a, b);
    }

    method AnyBlock() returns (waiting: bool)
      requires BufferShows(s.blocks, s.cursor)
      ensures waiting <==> s.blocks != []
    {
      hide SndBuffer.Valid, SndBuffer.Packets, SndBuffer.Cursor;
      var n := buffer.GetCurrBufSize();
      waiting := n > 0;
    }

    /** The timer has expired: everything unacknowledged is lost, if nothing is yet. */
    method Expire()
      requires Valid()
      modifies this`s, lossList, lossList.data1, lossList.data2, lossList.next
      ensures Valid() && s == SendSide.Expire(old(s))
      ensures if old(s).loss == {} then forall x :: x in s.loss <==> s.lastAck <= x <= s.curr else s == old(s)
    {
      hide *;
      Opened();
      SentAligned();
      ExpireLoses(s, isn, history);
      ExpireKeeps(s, isn, window, history);
      NumbersNear();
      CurrentSent();
      ExpireIs(s);
      var waiting := AnyBlock();
      if waiting {
        var empty := NothingLost();
        if IncSeq(currSeqNo) != lastAck && empty {
          InsertLost(lastAck, currSeqNo, s.lastAck, s.curr);
        }
      }
      s := SendSide.Expire(s);
      LossMoved(old(s));
    }

    lemma SentAligned()
      requires Valid()
      ensures Aligned(s, isn, history)
    {
      hide Num, BufferShows, LossShows, NumbersShow, Aligned;
    }

    /** Only lost numbers have changed. */
    lemma LossMoved(s0: Sender)
      requires SenderInv(s, isn, window, history) && PacketsShow(packets, history)
      requires s == s0.(loss := s.loss) && NumbersShow(s0)
      requires BufferShows(s.blocks, s.cursor) && LossShows(s.loss)
      ensures Valid()
    {
      hide Num, BufferShows, LossShows, IsCurrent, SenderInv, PacketsShow;
    }

    /** Once something is sent, the current number is no longer -1. */
    lemma CurrentSent()
      requires Valid()
      ensures isn <= s.curr ==> currSeqNo as int == Num(s.curr)
      ensures currSeqNo >= -1 && (IncSeq(currSeqNo) == lastAck <==> s.curr + 1 == s.lastAck)
    {
      hide Num, BufferShows, LossShows, SenderInv, IncSeq, PacketsShow;
      NumbersNear();
      IncAgrees(s.curr, currSeqNo);
      EqAgrees(s.curr + 1, s.lastAck);
    }

    method NothingLost() returns (empty: bool)
      requires LossShows(s.loss)
      ensures empty <==> s.loss == {}
    {
      hide SndLossList.Valid, SndLossList.Lost;
      var n := lossList.GetLossLength();
      empty := n == 0;
    }

    // --- Loss reports -------------------------------------------------------

    /** A lost range is noted as far as it is not acknowledged. */
    method NoteLost(a: SeqNum, b: SeqNum, ghost r: Range)
      requires Valid() && a == Num(r.first) && b == Num(r.last) && Legible(r, isn, s.lastAck, s.curr) &&
               r.first <= r.last <= s.curr
      modifies this`s, lossList, lossList.data1, lossList.data2, lossList.next
      ensures Valid() && s == Noted(old(s), r)
    {
      hide *;
      Opened();
      NoteKeeps(s, isn, window, history, r);
      NoteFacts(r);
      NotedIs(s, r);
      if SeqCmp(a, lastAck) >= 0 {
        InsertLost(a, b, r.first, r.last);
      } else if SeqCmp(b, lastAck) >= 0 {
        InsertLost(lastAck, b, s.lastAck, r.last);
      }
      s := Noted(s, r);
      LossMoved(old(s));
    }

    /** How a range lies to the last ACK, and that all lost numbers are within reach of it. */
    lemma NoteFacts(r: Range)
      requires Valid() && Legible(r, isn, s.lastAck, s.curr) && r.first <= r.last <= s.curr
      ensures SeqCmp(Num(r.first), Num(s.lastAck)) >= 0 <==> r.first >= s.lastAck
      ensures SeqCmp(Num(r.last), Num(s.lastAck)) >= 0 <==> r.last >= s.lastAck
      ensures r.first >= s.lastAck ==>
                r.last < r.first + 2 * window &&
                forall x :: x in s.loss ==> r.last < x + 2 * window && x < r.first + 2 * window
      ensures r.last >= s.lastAck ==>
                r.last < s.lastAck + 2 * window &&
                forall x :: x in s.loss ==> r.last < x + 2 * window && x < s.lastAck + 2 * window
    {
      hide Num, LossShows, IsCurrent, SenderInv, BufferShows, SeqCmp, PacketsShow;
      NumbersNear();
      CmpAgrees(r.first, s.lastAck);
      CmpAgrees(r.last, s.lastAck);
    }

    /** A range of several numbers: is it one that can have been sent? */
    method TakePair(a: SeqNum, b: SeqNum, ghost r: Range) returns (secure: bool)
      requires Valid() && a == Num(r.first) && b == Num(r.last) && Legible(r, isn, s.lastAck, s.curr)
      modifies this`s, lossList, lossList.data1, lossList.data2, lossList.next
      ensures Valid() && (secure <==> r.first <= r.last <= old(s).curr) &&
              s == if secure then Noted(old(s), r) else old(s)
    {
      hide Num, LossShows, IsCurrent, SenderInv, BufferShows, SeqCmp, Noted, Near;
      CmpAgrees(r.first, r.last);
      CompareCurrent(r.last);
      if SeqCmp(a, b) > 0 || SeqCmp(b, currSeqNo) > 0 {
        return false;
      }
      NoteLost(a, b, r);
      secure := true;
    }

    lemma CompareCurrent(b: int)
      requires Valid() && isn <= b && Near(b, s.curr) && Near(b, s.curr + 1)
      ensures NumbersShow(s) && s.lastAck <= s.curr + 1
      ensures -0x7FFF_FFFF <= Num(b) - currSeqNo <= 0x7FFF_FFFF
      ensures SeqCmp(Num(b), currSeqNo) > 0 <==> b > s.curr
    {
      hide Num, LossShows, BufferShows, SeqCmp;
      CmpCurrent(b, currSeqNo, s.curr);
    }

    /** A single number; one already acknowledged is passed over. */
    method TakeSingle(a: SeqNum, ghost r: Range) returns (secure: bool)
      requires Valid() && a == Num(r.first) && Legible(r, isn, s.lastAck, s.curr) && r.first == r.last
      modifies this`s, lossList, lossList.data1, lossList.data2, lossList.next
      ensures Valid() && (secure <==> r.last <= old(s).curr) && s == if secure then Noted(old(s), r) else old(s)
    {
      hide Num, LossShows, IsCurrent, SenderInv, BufferShows, SeqCmp, Interval, Near;
      CmpAgrees(r.first, s.lastAck);
      CompareCurrent(r.last);
      if SeqCmp(a, lastAck) >= 0 {
        if SeqCmp(a, currSeqNo) > 0 {
          return false;
        }
        NoteLost(a, a, r);
      } else {
        assert Interval(s.lastAck, r.last) == {};
        assert s.loss + {} == s.loss;
      }
      secure := true;
    }

    /** A loss report: its words are decoded and the lost numbers noted, until one looks
        forged. */
    method ProcessNak(words: array<int32>, n: nat, ghost ranges: seq<Range>)
      requires Valid() && n <= words.Length && words[..n] == Encode(ranges)
      requires forall k :: 0 <= k < |ranges| ==> Legible(ranges[k], isn, s.lastAck, s.curr)
      modifies this`s, this`broken, lossList, lossList.data1, lossList.data2, lossList.next
      ensures Valid() && s == TakeNak(old(s), ranges)
    {
      hide Num, Valid, Legible, Encode, Words, TakeNak, Noted;
      ghost var k, goal := 0, TakeNak(s, ranges);
      var i, secure := 0, true;
      assert ranges[0..] == ranges;
      while i < n
        invariant Valid() && secure && words[..] == old(words[..])
        invariant 0 <= k <= |ranges| && i <= n && words[..n][i..] == Encode(ranges[k..])
        invariant goal == TakeNak(s, ranges[k..])
        invariant forall k :: 0 <= k < |ranges| ==> Legible(ranges[k], isn, s.lastAck, s.curr)
      {
        WordsAt(words[..n], i, ranges, k);
        NextNoted(s, ranges, k);
        assert Legible(ranges[k], isn, s.lastAck, s.curr);
        if words[i] < 0 {
          secure := TakePair(Bare(words[i]), words[i + 1], ranges[k]);
          if !secure {
            break;
          }
          i := i + 1;
        } else {
          secure := TakeSingle(words[i], ranges[k]);
          if !secure {
            break;
          }
        }
        i, k := i + 1, k + 1;
      }
      if secure {
        WordsAt(words[..n], i, ranges, k);
        assert ranges[k..] == [];
        NoRanges(s);
      } else {
        Forge();
      }
    }

    /** The connection is given up. */
    method Forge()
      requires Valid()
      modifies this`s, this`broken
      ensures Valid() && s == old(s).(broken := true)
    {
      hide Num, LossShows, IsCurrent, SenderInv, BufferShows;
      ForgedKeeps(s, isn, window, history);
      broken := true;
      s := s.(broken := true);
    }
  }

  lemma ExpireIs(s: Sender)
    ensures SendSide.Expire(s) == s.(loss := SendSide.Expire(s).loss)
    ensures SendSide.Expire(s).loss ==
            if s.blocks != [] && s.curr + 1 != s.lastAck && s.loss == {} then s.loss + Interval(s.lastAck, s.curr)
            else s.loss
  {}

  lemma NoRanges(s: Sender)
    ensures TakeNak(s, []) == s
  {}

  /** A forged packet changes no number. */
  lemma ForgedKeeps(s: Sender, isn: int, window: int, history: seq<Payload>)
    requires SenderInv(s, isn, window, history)
    ensures SenderInv(s.(broken := true), isn, window, history)
  {}

  /** The sender once a reported range is noted. */
  ghost function Noted(s: Sender, r: Range): Sender {
    s.(loss := s.loss + Interval(Max(r.first, s.lastAck), r.last))
  }

  lemma NotedIs(s: Sender, r: Range)
    ensures Noted(s, r) == s.(loss := Noted(s, r).loss)
    ensures Noted(s, r).loss ==
            if r.first >= s.lastAck then s.loss + Interval(r.first, r.last)
            else if r.last >= s.lastAck then s.loss + Interval(s.lastAck, r.last)
            else s.loss
  {}

  lemma NoteKeeps(s: Sender, isn: int, window: int, history: seq<Payload>, r: Range)
    requires SenderInv(s, isn, window, history) && r.first <= r.last <= s.curr
    ensures SenderInv(Noted(s, r), isn, window, history)
  {}

  lemma NextNoted(s: Sender, ranges: seq<Range>, k: nat)
    requires k < |ranges|
    ensures TakeNak(s, ranges[k..]) ==
            if ranges[k].first > ranges[k].last || ranges[k].last > s.curr then s.(broken := true)
            else TakeNak(Noted(s, ranges[k]), ranges[k + 1..])
    ensures Noted(s, ranges[k]).lastAck == s.lastAck && Noted(s, ranges[k]).curr == s.curr
  {
    assert ranges[k..][1..] == ranges[k + 1..];
  }

  /** The words at place `i` of a report, where range `k` begins. */
  lemma WordsAt(words: seq<int32>, i: nat, ranges: seq<Range>, k: nat)
    requires i <= |words| && k <= |ranges| && words[i..] == Encode(ranges[k..])
    ensures i < |words| <==> k < |ranges|
    ensures k < |ranges| && ranges[k].first == ranges[k].last ==>
              words[i] == Num(ranges[k].first) && words[i + 1..] == Encode(ranges[k + 1..])
    ensures k < |ranges| && ranges[k].first != ranges[k].last ==>
              && i + 1 < |words| && words[i] < 0 && Bare(words[i]) == Num(ranges[k].first)
              && words[i + 1] == Num(ranges[k].last) && words[i + 2..] == Encode(ranges[k + 1..])
  {
    hide Num;
    if k < |ranges| {
      EncodeNext(ranges, k);
      var w, rest := Words(ranges[k]), Encode(ranges[k + 1..]);
      hide Encode;
      assert words[i..] == w + rest;
      assert words[i..][|w|..] == rest;
      assert words[i..][0] == w[0];
    }
  }

  /** The least lost number is one whose packet is kept. */
  lemma LostNear(s: Sender, window: int)
    requires s.curr + 1 <= s.lastDataAck + 2 * window <= s.lastDataAck + THRESHOLD &&
             s.cursor == s.curr + 1 - s.lastDataAck <= |s.blocks|
    requires forall x :: x in s.loss ==> s.lastDataAck <= x <= s.curr
    ensures s.loss != {} ==>
              var m := Least(s.loss);
              && Near(s.lastDataAck, m) && 0 <= m - s.lastDataAck < |s.blocks|
              && Reread(s, m) == Some(s.blocks[m - s.lastDataAck])
  {}
}
