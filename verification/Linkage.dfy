/** A connection made of the two endpoints as the program keeps them. Every method is one
    step of module Connection, carried out on 32-bit numbers, loss lists and buffers; the
    datagrams it takes and gives are the wire forms of those on the network. */
module Linkage {
  import opened Bytes
  import opened Numbers
  import opened SequenceNumbers
  import opened SendSide
  import opened ReceiveSide
  import opened LossReports
  import opened Connection
  import opened SndEndpoints
  import opened RcvBuffers
  import opened RcvEndpoints
  import opened SlotArrays
  import SndBuffers
  import Theorems
  import UnitPools

  /** A datagram as the program sends it. */
  datatype Datagram =
    | DataGram(seqno: SeqNum, body: Payload, header: SndBuffers.Header)
    | LiteAckGram(seqno: SeqNum)
    | AckGram(no: SeqNum, seqno: SeqNum, avail: int)
    | Ack2Gram(no: SeqNum)
    | NakGram(words: seq<int32>)

  /** A data packet travels with the message word it was queued with: `sent` is all that was
      ever queued, numbered from `isn`. */
  function Wire(isn: int, sent: seq<SndBuffers.Packet>, p: Packet): Datagram {
    match p
    case Data(num, payload) => DataGram(Num(num), payload, HeaderAt(sent, num - isn))
    case LiteAck(ack) => LiteAckGram(Num(ack))
    case Ack(no, ack, avail) => AckGram(Num(no), Num(ack), avail)
    case Ack2(no) => Ack2Gram(Num(no))
    case Nak(ranges) => NakGram(Encode(ranges))
  }

  ghost function Wires(isn: int, sent: seq<SndBuffers.Packet>, packets: set<Packet>): set<Datagram> {
    set p | p in packets :: Wire(isn, sent, p)
  }

  /** What is queued later does not change a datagram that is under way. */
  lemma WireStays(isn: int, sent: seq<SndBuffers.Packet>, more: seq<SndBuffers.Packet>, p: Packet)
    requires p.Data? ==> isn <= p.num < isn + |sent|
    ensures Wire(isn, sent + more, p) == Wire(isn, sent, p)
  {}

  /** The numbers a step compares lie within the threshold: nothing was delayed so long that
      2^30 packets were sent meanwhile. */
  ghost predicate Timely(c: Config, st: State, step: Step)
  {
    match step
    case Resend => st.s.phase.Picked? ==> Near(st.s.lastDataAck, st.s.phase.num)
    case DeliverLiteAck(ack) => Near(ack, st.s.lastAck)
    case DeliverAck(_, ack, _, _) => Near(ack, st.s.lastAck) && Near(ack, st.s.curr + 1)
    case DeliverNak(ranges) => forall k :: 0 <= k < |ranges| ==> Legible(ranges[k], c.isn, st.s.lastAck, st.s.curr)
    case DeliverData(num, _) => Near(st.r.lastAck, num) && Near(num, st.r.curr) && Near(num, st.r.curr + 1)
    case LiteTimer => FirstMissing(st.r) < st.r.lastAckAck + THRESHOLD
    case AckTimer(_) => FirstMissing(st.r) < st.r.lastAckAck + THRESHOLD
    case DeliverAck2(no, _) => Near(st.r.ackNo, no) && st.r.lastAck < st.r.lastAckAck + THRESHOLD
    case _ => true
  }

  /** Only what is long overtaken can be untimely: with windows that fit the threshold, every
      packet and ACK still inside the sender's window is timely, whatever its delay. */
  lemma FreshIsTimely(c: Config, st: State, num: int, payload: Payload)
    requires c.Valid() && Theorems.Reachable(c, st) && 2 * c.Window() < THRESHOLD - 1
    requires st.s.lastDataAck <= num <= st.s.curr + 1
    ensures Timely(c, st, Step.DeliverData(num, payload)) && Timely(c, st, Step.DeliverLiteAck(num))
    ensures forall no, avail, reply :: Timely(c, st, Step.DeliverAck(no, num, avail, reply))
    ensures st.s.phase.Picked? && st.s.phase.num >= st.s.lastDataAck ==> Timely(c, st, Step.Resend)
  {
    hide Theorems.Reachable, FirstMissing;
    Theorems.NumbersInOrder(c, st);
    Theorems.PickedBelow(c, st);
  }

  /** A state that is reached, with the number of an ACK that waits for its lock near enough
      to compare. */
  ghost predicate Proper(c: Config, st: State)
    ensures Proper(c, st) ==> c.Valid()
    ensures Proper(c, st) && st.s.pendingAck.Some? ==> Near(st.s.lastDataAck, st.s.pendingAck.value)
  {
    && c.Valid() && 2 * c.Window() <= THRESHOLD && Theorems.Reachable(c, st)
    && (st.s.pendingAck.Some? ==> Near(st.s.lastDataAck, st.s.pendingAck.value))
  }

  class Link {
    const snd: SndEndpoint
    const rcv: RcvEndpoint
    ghost const c: Config
    ghost var st: State

    ghost predicate SndShows(s: Sender, history: seq<Payload>)
      reads snd, snd.buffer, snd.buffer.ring
      reads snd.lossList, snd.lossList.data1, snd.lossList.data2, snd.lossList.next
      ensures SndShows(s, history) ==> snd.buffer.mss == c.mss > 0
    {
      && snd.Valid() && snd.buffer.mss > 0 && snd.s == s && snd.history == history
      && snd.isn == c.isn && snd.window == c.Window() && snd.buffer.mss == c.mss
    }

    ghost predicate RcvShows(r: Receiver)
      reads rcv, rcv.buffer, rcv.buffer.slot, rcv.buffer.pool
      reads rcv.lossList, rcv.lossList.data1, rcv.lossList.data2, rcv.lossList.next, rcv.lossList.prior
      reads rcv.ackWindow, rcv.ackWindow.ackSeqNo, rcv.ackWindow.ack, rcv.ackWindow.timeStamp
      ensures RcvShows(r) ==> rcv.buffer.Shape()
    {
      rcv.Valid() && rcv.r == r && rcv.isn == c.isn && rcv.buffer.size == c.bufSize
    }

    ghost predicate Apart() {
      {snd.lossList.data1, snd.lossList.data2, snd.lossList.next} !!
      {rcv.lossList.data1, rcv.lossList.data2, rcv.lossList.next, rcv.lossList.prior,
       rcv.ackWindow.ackSeqNo, rcv.ackWindow.ack, rcv.ackWindow.timeStamp}
    }

    ghost predicate Valid()
      reads this, snd, snd.buffer, snd.buffer.ring
      reads snd.lossList, snd.lossList.data1, snd.lossList.data2, snd.lossList.next
      reads rcv, rcv.buffer, rcv.buffer.slot, rcv.buffer.pool
      reads rcv.lossList, rcv.lossList.data1, rcv.lossList.data2, rcv.lossList.next, rcv.lossList.prior
      reads rcv.ackWindow, rcv.ackWindow.ackSeqNo, rcv.ackWindow.ack, rcv.ackWindow.timeStamp
      ensures Valid() ==> rcv.buffer.Shape()
    {
      Apart() && Proper(c, st) && SndShows(st.s, st.history) && RcvShows(st.r)
    }

    /** The receiving end takes its units from `pool`, where its buffer goes by `id`. */
    constructor (pool: UnitPools.UnitPool, id: nat, isn: SeqNum, mss: nat, bufSize: nat, flightFlag: nat)
      requires mss > 0 && 2 <= bufSize <= flightFlag && 2 * flightFlag <= THRESHOLD && pool.Valid() && id !in pool.slots
      modifies pool`slots
      ensures rcv.buffer.pool == pool && rcv.buffer.id == id
      ensures rcv.buffer.Shape() && rcv.buffer.Slots() == seq(bufSize, _ => Empty) && rcv.buffer.maxPos == 0
      ensures snd.packets == [] && snd.buffer.nextMsgNo == 1
      ensures Valid() && c == Config(isn, mss, bufSize, flightFlag) && st == Init(c)
    {
      hide *;
      Start(Config(isn, mss, bufSize, flightFlag));
      rcv := new RcvEndpoint(pool, id, isn, bufSize, flightFlag);
      snd := new SndEndpoint(isn, if bufSize < flightFlag then bufSize else flightFlag, mss);
      c := Config(isn, mss, bufSize, flightFlag);
      st := Init(Config(isn, mss, bufSize, flightFlag));
      new;
      Begun();
    }

    lemma Begun()
      requires Proper(c, st) && st == Init(c) && snd.Valid() && rcv.Valid()
      requires snd.s == InitSender(c.isn, if c.bufSize < c.flightFlag then c.bufSize else c.flightFlag)
      requires snd.history == [] && snd.isn == c.isn && snd.buffer.mss == c.mss
      requires snd.window == if c.bufSize < c.flightFlag then c.bufSize else c.flightFlag
      requires rcv.r == InitReceiver(c.isn) && rcv.isn == c.isn && rcv.buffer.size == c.bufSize
      requires {snd.lossList.data1, snd.lossList.data2, snd.lossList.next} !!
               {rcv.lossList.data1, rcv.lossList.data2, rcv.lossList.next, rcv.lossList.prior,
                rcv.ackWindow.ackSeqNo, rcv.ackWindow.ack, rcv.ackWindow.timeStamp}
      ensures Valid()
    {
      hide SndEndpoint.Valid, RcvEndpoint.Valid, Proper;
    }

    /** Step `step` was taken from `before`, and put exactly `out` on the network. */
    ghost predicate Did(before: State, step: Step, out: Option<Datagram>)
      reads this`st, snd`packets
    {
      && c.Valid() && Enabled(before, step) && Sound(before) && st == Next(c, before, step)
      && Wires(c.isn, snd.packets, Sent(c, before, step)) == if out.Some? then {out.value} else {}
    }

    /** The state moves on by one step, when the ends have done their part. */
    ghost method MoveOn(step: Step, out: Option<Datagram>)
      requires Proper(c, st) && Enabled(st, step) && (step.DeliverAck? ==> Near(step.ack, st.s.lastAck))
      requires Sound(st) && Wires(c.isn, snd.packets, Sent(c, st, step)) == if out.Some? then {out.value} else {}
      modifies this`st
      ensures Proper(c, st) && Did(old(st), step, out)
      ensures if BySender(step) then st.r == old(st).r && st.s == NextSender(c, old(st), step)
              else st.s == old(st).s && st.r == NextReceiver(c, old(st), step)
      ensures !step.AppSend? ==> st.history == old(st).history
      ensures step.AppSend? ==> st.history == old(st).history + Chunks(step.data, c.mss)
    {
      hide Num, Proper, Sound, Enabled, Inv, Sent, Wires, NextSender, NextReceiver, Chunks;
      Reached(c, st, step);
      st := Next(c, st, step);
    }

    lemma Opened()
      requires Valid()
      ensures Apart() && Proper(c, st) && SndShows(st.s, st.history) && RcvShows(st.r)
    {
      hide Apart, Proper, SndShows, RcvShows;
    }

    lemma Closed()
      requires Apart() && Proper(c, st) && SndShows(st.s, st.history) && RcvShows(st.r)
      ensures Valid()
    {
      hide Apart, Proper, SndShows, RcvShows;
    }

    /** The state moves on by one step of the receiving end, once that has become `r1`. */
    ghost method MoveRcv(step: Step, out: Option<Datagram>, r1: Receiver)
      requires Apart() && Proper(c, st) && SndShows(st.s, st.history) && RcvShows(r1)
      requires !BySender(step) && Enabled(st, step) && Sound(st) && NextReceiver(c, st, step) == r1
      requires Wires(c.isn, snd.packets, Sent(c, st, step)) == if out.Some? then {out.value} else {}
      modifies this`st
      ensures Valid() && Did(old(st), step, out) && st.r == r1
    {
      hide Num, SndShows, RcvShows, Proper, Apart, Sound, Inv, Did, Sent, Wires, NextSender, NextReceiver, Enabled;
      MoveOn(step, out);
    }

    /** The state moves on by one step of the sending end, once that has become `s1`. */
    ghost method MoveSnd(step: Step, out: Option<Datagram>, s1: Sender)
      requires Apart() && Proper(c, st) && SndShows(s1, st.history) && RcvShows(st.r)
      requires BySender(step) && !step.AppSend? && Enabled(st, step) && Sound(st) && NextSender(c, st, step) == s1
      requires step.DeliverAck? ==> Near(step.ack, st.s.lastAck)
      requires Wires(c.isn, snd.packets, Sent(c, st, step)) == if out.Some? then {out.value} else {}
      modifies this`st
      ensures Valid() && Did(old(st), step, out) && st.s == s1
    {
      hide Num, SndShows, RcvShows, Proper, Apart, Sound, Inv, Did, Sent, Wires, NextSender, NextReceiver, Enabled;
      MoveOn(step, out);
    }

    /** The state moves on by a read, once the receiving end has done it. */
    ghost method MoveRead(len: nat)
      requires Apart() && Proper(c, st) && SndShows(st.s, st.history)
      requires ReadyToRead(st.r) && RcvShows(AfterRead(st.r, len))
      modifies this`st
      ensures Valid() && Did(old(st), AppRecv(len), None) && st.r == AfterRead(old(st).r, len)
    {
      hide Num, SndShows, RcvShows, Proper, Apart, Sound, Inv, Did, Sent, Wires, NextSender, AfterRead, ReadBytes,
           ReadyToRead;
      Sane(c, st, AppRecv(len), snd.packets);
      MoveRcv(AppRecv(len), None, AfterRead(st.r, len));
    }

    // --- The sending end ----------------------------------------------------

    method SndSend(data: Payload, order: bool)
      requires Apart() && RcvShows(st.r)
      requires SndShows(st.s, st.history)
      modifies snd`s, snd`history, snd`packets, snd.buffer, snd.buffer.ring
      ensures snd.packets ==
              old(snd.packets) + SndBuffers.Framed(Chunks(data, snd.buffer.mss), order, old(snd.buffer.nextMsgNo))
      ensures SndShows(Enqueue(st.s, data, snd.buffer.mss), st.history + Chunks(data, snd.buffer.mss))
      ensures RcvShows(st.r)
    {
      hide RcvShows, Num, SndEndpoint.Valid, Chunks, Enqueue;
      snd.Send(data, order);
    }

    /** The user sends. */
    method Send(data: Payload, order: bool)
      requires Valid()
      modifies this`st, snd`s, snd`history, snd`packets, snd.buffer, snd.buffer.ring
      ensures snd.packets == old(snd.packets) + SndBuffers.Framed(Chunks(data, c.mss), order, old(snd.buffer.nextMsgNo))
      ensures Valid() && Did(old(st), AppSend(data), None) && st.r == old(st).r
    {
      hide Num, SndShows, RcvShows, Proper, Apart, Sound, Inv, Did, Sent, Wires, NextReceiver, Chunks, Enqueue;
      Sane(c, st, AppSend(data), snd.packets);
      SndSend(data, order);
      Sane(c, st, AppSend(data), snd.packets);
      MoveOn(AppSend(data), None);
    }

    method SndPick() returns (seqno: int)
      requires Apart() && RcvShows(st.r)
      requires SndShows(st.s, st.history) && st.s.phase.Idle?
      modifies snd`s, snd.lossList, snd.lossList.data1, snd.lossList.data2, snd.lossList.next
      ensures SndShows(Pick(st.s), st.history)
      ensures if Pick(st.s).phase.Picked? then seqno == Num(Pick(st.s).phase.num) else seqno == -1
      ensures RcvShows(st.r)
    {
      hide RcvShows, Num, SndEndpoint.Valid, Pick;
      seqno := snd.PickLost();
    }

    /** `packData` takes a lost number, or finds none. */
    method PickLost() returns (seqno: int)
      requires Valid() && st.s.phase.Idle?
      modifies this`st, snd`s, snd.lossList, snd.lossList.data1, snd.lossList.data2, snd.lossList.next
      ensures Valid() && Did(old(st), Step.PickLost, None)
      ensures if st.s.phase.Picked? then seqno == Num(st.s.phase.num) else seqno == -1
    {
      hide Num, SndShows, RcvShows, Proper, Apart, Sound, Inv, Did, Sent, Wires, NextReceiver, Pick;
      Sane(c, st, Step.PickLost, snd.packets);
      seqno := SndPick();
      MoveSnd(Step.PickLost, None, Pick(st.s));
    }

    method SndResend(seqno: SeqNum) returns (packet: Option<SndBuffers.Packet>)
      requires Apart() && RcvShows(st.r)
      requires SndShows(st.s, st.history) && st.s.phase.Picked? && seqno == Num(st.s.phase.num) &&
               Near(st.s.lastDataAck, st.s.phase.num)
      modifies snd`s
      ensures st.s.phase.num - st.s.lastDataAck < |st.s.blocks|
      ensures SndShows(st.s.(phase := Idle), st.history)
      ensures packet ==
              match Reread(st.s, st.s.phase.num)
              case Some(p) => Some(SndBuffers.Packet(p, HeaderAt(snd.packets, st.s.phase.num - c.isn)))
              case None => None
      ensures RcvShows(st.r)
    {
      hide RcvShows, Num, SndEndpoint.Valid;
      packet := snd.Resend(seqno);
    }

    /** It reads the packet again, under the ACK lock, and sends it. */
    method Resend(seqno: SeqNum) returns (out: Option<Datagram>)
      requires Valid() && st.s.phase.Picked? && seqno == Num(st.s.phase.num) && Timely(c, st, Step.Resend)
      modifies this`st, snd`s
      ensures Valid() && Did(old(st), Step.Resend, out)
    {
      hide Num, SndShows, RcvShows, Proper, Apart, Sound, Inv, Did, Sent, Wires, NextReceiver, Reread;
      Sane(c, st, Step.Resend, snd.packets);
      ResendWires(c, st, snd.packets, seqno);
      var packet := SndResend(seqno);
      out := if packet.Some? then Some(DataGram(seqno, packet.value.payload, packet.value.header)) else None;
      MoveSnd(Step.Resend, out, st.s.(phase := Idle));
    }

    method SndCheck(congestionWindow: int) returns (ok: bool)
      requires Apart() && RcvShows(st.r)
      requires SndShows(st.s, st.history) && st.s.phase.NoLoss?
      modifies snd`s
      ensures SndShows(st.s.(phase := if WindowAllows(st.s, congestionWindow) then WindowOpen else Idle), st.history)
      ensures ok == WindowAllows(st.s, congestionWindow)
      ensures RcvShows(st.r)
    {
      hide RcvShows, Num, SndEndpoint.Valid;
      ok := snd.CheckWindow(congestionWindow);
    }

    /** It tests the window for a new packet. */
    method CheckWindow(congestionWindow: int) returns (ok: bool)
      requires Valid() && st.s.phase.NoLoss?
      modifies this`st, snd`s
      ensures Valid() && Did(old(st), Step.CheckWindow(congestionWindow), None)
      ensures ok == st.s.phase.WindowOpen?
    {
      hide Num, SndShows, RcvShows, Proper, Apart, Sound, Inv, Did, Sent, Wires, NextReceiver, WindowAllows;
      Sane(c, st, Step.CheckWindow(congestionWindow), snd.packets);
      ok := SndCheck(congestionWindow);
      MoveSnd(Step.CheckWindow(congestionWindow), None,
              st.s.(phase := if WindowAllows(st.s, congestionWindow) then WindowOpen else Idle));
    }

    method SndNew() returns (packet: Option<(SeqNum, SndBuffers.Packet)>)
      requires Apart() && RcvShows(st.r)
      requires SndShows(st.s, st.history) && st.s.phase.WindowOpen?
      modifies snd`s, snd`currSeqNo, snd.buffer`currBlock, snd.buffer`cursor
      ensures SndShows(Advance(st.s), st.history)
      ensures packet ==
              if st.s.cursor < |st.s.blocks| then
                Some((Num(st.s.curr + 1),
                      SndBuffers.Packet(st.s.blocks[st.s.cursor], HeaderAt(snd.packets, st.s.curr + 1 - c.isn))))
              else None
      ensures RcvShows(st.r)
    {
      hide RcvShows, Num, SndEndpoint.Valid, Advance;
      packet := snd.SendNew();
    }

    /** It sends the current block under the next number. */
    method SendNew() returns (out: Option<Datagram>)
      requires Valid() && st.s.phase.WindowOpen?
      modifies this`st, snd`s, snd`currSeqNo, snd.buffer`currBlock, snd.buffer`cursor
      ensures Valid() && Did(old(st), Step.SendNew, out)
    {
      hide Num, SndShows, RcvShows, Proper, Apart, Sound, Inv, Did, Sent, Wires, NextReceiver, Advance;
      Sane(c, st, Step.SendNew, snd.packets);
      NewWires(c, st, snd.packets);
      var packet := SndNew();
      out := None;
      if packet.Some? {
        out := Some(DataGram(packet.value.0, packet.value.1.payload, packet.value.1.header));
      }
      MoveSnd(Step.SendNew, out, Advance(st.s));
    }

    method SndLite(ack: SeqNum, ghost a: int)
      requires Apart() && RcvShows(st.r)
      requires SndShows(st.s, st.history) && st.s.pendingAck.None? && ack == Num(a) && a <= st.s.curr + 1 &&
               Near(a, st.s.lastAck)
      modifies snd`s, snd`flowWindowSize, snd`lastAck
      ensures SndShows(TakeLiteAck(st.s, a), st.history)
      ensures RcvShows(st.r)
    {
      hide RcvShows, Num, SndEndpoint.Valid, TakeLiteAck;
      snd.ProcessLiteAck(ack, a);
    }

    /** A light ACK arrives. */
    method DeliverLiteAck(ack: SeqNum, ghost a: int)
      requires Valid() && ack == Num(a) && Enabled(st, Step.DeliverLiteAck(a)) && Timely(c, st, Step.DeliverLiteAck(a))
      modifies this`st, snd`s, snd`flowWindowSize, snd`lastAck
      ensures Valid() && Did(old(st), Step.DeliverLiteAck(a), None)
    {
      hide Num, SndShows, RcvShows, Proper, Apart, Sound, Inv, Did, Sent, Wires, NextReceiver, TakeLiteAck;
      Sane(c, st, Step.DeliverLiteAck(a), snd.packets);
      Believed(c, st, LiteAck(a));
      SndLite(ack, a);
      MoveSnd(Step.DeliverLiteAck(a), None, TakeLiteAck(st.s, a));
    }

    method SndAck(ack: SeqNum, avail: int, ghost a: int)
      requires Apart() && RcvShows(st.r)
      requires SndShows(st.s, st.history) && st.s.pendingAck.None? && ack == Num(a) && Near(a, st.s.lastAck) &&
               Near(a, st.s.curr + 1) && HonestAck(st.s, a, avail, c.Window())
      modifies snd`s, snd`flowWindowSize, snd`lastAck, snd`broken
      ensures SndShows(TakeAck(st.s, a, avail), st.history)
      ensures RcvShows(st.r)
    {
      hide RcvShows, Num, SndEndpoint.Valid, TakeAck;
      var forged := snd.ProcessAck(ack, avail, a);
    }

    /** A full ACK arrives; `reply` says whether it is time for an ACK of it. */
    method DeliverAck(no: SeqNum, ack: SeqNum, avail: int, reply: bool, ghost n: int, ghost a: int)
      returns (out: Option<Datagram>)
      requires Valid() && no == Num(n) && ack == Num(a)
      requires Enabled(st, Step.DeliverAck(n, a, avail, reply)) && Timely(c, st, Step.DeliverAck(n, a, avail, reply))
      modifies this`st, snd`s, snd`flowWindowSize, snd`lastAck, snd`broken
      ensures Valid() && Did(old(st), Step.DeliverAck(n, a, avail, reply), out)
    {
      hide Num, SndShows, RcvShows, Proper, Apart, Sound, Inv, Did, Sent, Wires, NextReceiver, TakeAck;
      Sane(c, st, Step.DeliverAck(n, a, avail, reply), snd.packets);
      Believed(c, st, Ack(n, a, avail));
      SndAck(ack, avail, a);
      out := if reply then Some(Ack2Gram(no)) else None;
      AckWires(c, st, snd.packets, n, a, avail, reply);
      MoveSnd(Step.DeliverAck(n, a, avail, reply), out, TakeAck(st.s, a, avail));
    }

    method SndLock(ack: SeqNum, ghost a: int)
      requires Apart() && RcvShows(st.r)
      requires SndShows(st.s, st.history) && st.s.pendingAck == Some(a) && ack == Num(a) && Near(st.s.lastDataAck, a)
      modifies snd`s, snd`lastDataAck, snd.buffer`firstBlock, snd.buffer`count, snd.buffer`ring, snd.buffer`cursor
      modifies snd.lossList, snd.lossList.data1, snd.lossList.data2, snd.lossList.next
      ensures Releasable(st.s, a) && SndShows(ReleaseAck(st.s, a), st.history)
      ensures forall x :: x in ReleaseAck(st.s, a).loss <==> x in st.s.loss && x >= a
      ensures RcvShows(st.r)
    {
      hide RcvShows, Num, SndEndpoint.Valid, ReleaseAck;
      snd.LockAck(ack, a);
    }

    /** It gets the ACK lock. The lost numbers it does not cover are still lost. */
    method LockAck(ack: SeqNum)
      requires Valid() && st.s.pendingAck.Some? && ack == Num(st.s.pendingAck.value)
      modifies this`st, snd`s, snd`lastDataAck, snd.buffer`firstBlock, snd.buffer`count, snd.buffer`ring,
               snd.buffer`cursor
      modifies snd.lossList, snd.lossList.data1, snd.lossList.data2, snd.lossList.next
      ensures Valid() && Did(old(st), Step.LockAck, None)
      ensures forall x :: x in st.s.loss <==> x in old(st).s.loss && x >= old(st).s.pendingAck.value
    {
      hide Num, SndShows, RcvShows, Proper, Apart, Sound, Inv, Did, Sent, Wires, NextReceiver, ReleaseAck;
      Sane(c, st, Step.LockAck, snd.packets);
      SndLock(ack, st.s.pendingAck.value);
      MoveSnd(Step.LockAck, None, ReleaseAck(st.s, st.s.pendingAck.value));
    }

    method SndNak(words: array<int32>, n: nat, ghost ranges: seq<Range>)
      requires Apart() && RcvShows(st.r)
      requires SndShows(st.s, st.history) && n <= words.Length && words[..n] == Encode(ranges)
      requires forall k :: 0 <= k < |ranges| ==> Legible(ranges[k], c.isn, st.s.lastAck, st.s.curr)
      modifies snd`s, snd`broken, snd.lossList, snd.lossList.data1, snd.lossList.data2, snd.lossList.next
      ensures SndShows(TakeNak(st.s, ranges), st.history)
      ensures RcvShows(st.r)
    {
      hide RcvShows, Num, SndEndpoint.Valid, TakeNak, Encode;
      snd.ProcessNak(words, n, ranges);
    }

    /** A loss report arrives. */
    method DeliverNak(words: array<int32>, n: nat, ghost ranges: seq<Range>)
      requires Valid() && n <= words.Length && words[..n] == Encode(ranges)
      requires Enabled(st, Step.DeliverNak(ranges)) && Timely(c, st, Step.DeliverNak(ranges))
      modifies this`st, snd`s, snd`broken, snd.lossList, snd.lossList.data1, snd.lossList.data2, snd.lossList.next
      ensures Valid() && Did(old(st), Step.DeliverNak(ranges), None)
    {
      hide Num, SndShows, RcvShows, Proper, Apart, Sound, Inv, Did, Sent, Wires, NextReceiver, TakeNak, Encode;
      Sane(c, st, Step.DeliverNak(ranges), snd.packets);
      SndNak(words, n, ranges);
      MoveSnd(Step.DeliverNak(ranges), None, TakeNak(st.s, ranges));
    }

    method SndExpire()
      requires Apart() && RcvShows(st.r)
      requires SndShows(st.s, st.history)
      modifies snd`s, snd.lossList, snd.lossList.data1, snd.lossList.data2, snd.lossList.next
      ensures SndShows(Expire(st.s), st.history)
      ensures RcvShows(st.r)
    {
      hide RcvShows, Num, SndEndpoint.Valid, Expire;
      snd.Expire();
    }

    /** The retransmission timer expires. */
    method Timeout()
      requires Valid() && st.s.pendingAck.None?
      modifies this`st, snd`s, snd.lossList, snd.lossList.data1, snd.lossList.data2, snd.lossList.next
      ensures Valid() && Did(old(st), Step.Timeout, None)
    {
      hide Num, SndShows, RcvShows, Proper, Apart, Sound, Inv, Did, Sent, Wires, NextReceiver, Expire;
      Sane(c, st, Step.Timeout, snd.packets);
      SndExpire();
      MoveSnd(Step.Timeout, None, Expire(st.s));
    }

    // --- The receiving end --------------------------------------------------

    method RcvUnit() returns (u: Option<UnitPools.Unit>)
      requires Apart() && SndShows(st.s, st.history)
      requires RcvShows(st.r)
      modifies rcv.buffer.pool`flags, rcv.buffer.pool`size, rcv.buffer.pool`count, rcv.buffer.pool`currQueue,
               rcv.buffer.pool`avail
      ensures RcvShows(st.r) && rcv.buffer.Slots() == old(rcv.buffer.Slots())
      ensures u.Some? ==>
                && UnitPools.IsUnit(rcv.buffer.pool.flags, u.value)
                && UnitPools.FlagOf(rcv.buffer.pool.flags, u.value) == UnitPools.FREE
      ensures SndShows(st.s, st.history)
    {
      hide SndShows, RcvEndpoint.Valid, UnitPools.IsUnit, UnitPools.FlagOf;
      u := rcv.NextUnit();
    }

    method RcvData(seqno: SeqNum, payload: Payload, header: SndBuffers.Header, u: UnitPools.Unit, ghost num: int)
      returns (ok: bool, nak: seq<int32>)
      requires Apart() && SndShows(st.s, st.history)
      requires RcvShows(st.r) && payload != [] && seqno == Num(num) && Near(st.r.lastAck, num) &&
               Near(num, st.r.curr) && Near(num, st.r.curr + 1)
      requires UnitPools.IsUnit(rcv.buffer.pool.flags, u)
      requires UnitPools.FlagOf(rcv.buffer.pool.flags, u) == UnitPools.FREE
      modifies rcv`currSeqNo, rcv`r, rcv.buffer`maxPos, rcv.buffer.slot
      modifies rcv.buffer.pool`flags, rcv.buffer.pool`count, rcv.buffer.pool`slots, rcv.buffer.pool`owner
      modifies rcv.lossList, rcv.lossList.data1, rcv.lossList.data2, rcv.lossList.next, rcv.lossList.prior
      ensures RcvShows(Store(st.r, c.bufSize, num, payload))
      ensures ok <==> st.r.lastAck <= num < st.r.start + c.bufSize - 1 && num !in st.r.slots
      ensures nak == if Classify(st.r, c.bufSize, num) == Beyond then Encode([Range(st.r.curr + 1, num - 1)]) else []
      ensures Placed(old(rcv.buffer.Slots()), st.r.lastAck - st.r.start, old(rcv.buffer.maxPos), num - st.r.lastAck,
                     Full(payload, header, 1), ok, rcv.buffer.Slots(), rcv.buffer.maxPos)
      ensures SndShows(st.s, st.history)
    {
      hide *;
      RcvOpened();
      ClassifyExact(st.r, c.bufSize, num);
      var res;
      res, nak := rcv.ProcessData(seqno, payload, header, u, num);
      ok := res == 0;
      RcvClosed(Store(st.r, c.bufSize, num, payload));
    }

    lemma RcvOpened()
      requires Apart() && RcvShows(st.r)
      ensures rcv.Valid() && rcv.r == st.r && rcv.isn == c.isn && rcv.buffer.size == c.bufSize
      ensures {snd.lossList.data1, snd.lossList.data2, snd.lossList.next} !!
              {rcv.lossList.data1, rcv.lossList.data2, rcv.lossList.next, rcv.lossList.prior}
    {
      hide RcvEndpoint.Valid;
    }

    lemma RcvClosed(r: Receiver)
      requires rcv.Valid() && rcv.r == r && rcv.isn == c.isn && rcv.buffer.size == c.bufSize
      ensures RcvShows(r)
    {
      hide RcvEndpoint.Valid;
    }

    /** A data packet is read into a free unit and processed, or dropped when the pool has
        none. */
    method RcvGram(seqno: SeqNum, payload: Payload, header: SndBuffers.Header, ghost num: int)
      returns (taken: bool, stored: bool, nak: seq<int32>)
      requires Apart() && SndShows(st.s, st.history)
      requires RcvShows(st.r) && payload != [] && seqno == Num(num) && Near(st.r.lastAck, num) &&
               Near(num, st.r.curr) && Near(num, st.r.curr + 1)
      modifies rcv`currSeqNo, rcv`r, rcv.buffer`maxPos, rcv.buffer.slot, rcv.buffer.pool
      modifies rcv.lossList, rcv.lossList.data1, rcv.lossList.data2, rcv.lossList.next, rcv.lossList.prior
      ensures RcvShows(if taken then Store(st.r, c.bufSize, num, payload) else st.r)
      ensures stored <==> taken && st.r.lastAck <= num < st.r.start + c.bufSize - 1 && num !in st.r.slots
      ensures nak == if taken then GapReport(c, st, num) else []
      ensures Placed(old(rcv.buffer.Slots()), st.r.lastAck - st.r.start, old(rcv.buffer.maxPos), num - st.r.lastAck,
                     Full(payload, header, 1), stored, rcv.buffer.Slots(), rcv.buffer.maxPos)
      ensures SndShows(st.s, st.history)
    {
      hide SndShows, Num, RcvShows, Store, Classify, Encode, Placed, UnitPools.IsUnit, UnitPools.FlagOf,
           RcvBuffer.Slots;
      RcvSlots();
      PlacedNone(rcv.buffer.Slots(), st.r.lastAck - st.r.start, rcv.buffer.maxPos, num - st.r.lastAck,
                 Full(payload, header, 1));
      taken, stored, nak := false, false, [];
      var u := RcvUnit();
      if u.Some? {
        taken := true;
        stored, nak := RcvData(seqno, payload, header, u.value, num);
      }
    }

    lemma RcvSlots()
      requires RcvShows(st.r)
      ensures rcv.buffer.Shape() && rcv.buffer.GetRcvDataSize() == st.r.lastAck - st.r.start
    {
      hide ReceiverInv, RcvEndpoint.LossShows, RcvEndpoint.WindowShows, RcvEndpoint.NumbersShow, SlotsShow,
           RcvBuffer.Slots;
    }

    /** A data packet arrives: it is read into a free unit and processed, or dropped when the
        pool has none. It is kept exactly when it is new and its slot is free. */
    method DeliverData(seqno: SeqNum, payload: Payload, header: SndBuffers.Header, ghost num: int)
      returns (taken: bool, stored: bool, out: Option<Datagram>)
      requires Valid() && DataGram(seqno, payload, header) == Wire(c.isn, snd.packets, Data(num, payload))
      requires Enabled(st, Step.DeliverData(num, payload)) && Timely(c, st, Step.DeliverData(num, payload))
      modifies this`st, rcv`currSeqNo, rcv`r, rcv.buffer`maxPos, rcv.buffer.slot, rcv.buffer.pool
      modifies rcv.lossList, rcv.lossList.data1, rcv.lossList.data2, rcv.lossList.next, rcv.lossList.prior
      ensures Valid()
      ensures if taken then Did(old(st), Step.DeliverData(num, payload), out) else st == old(st) && out == None
      ensures stored <==>
              taken && old(st).r.lastAck <= num < old(st).r.start + c.bufSize - 1 && num !in old(st).r.slots
      ensures Placed(old(rcv.buffer.Slots()), old(st).r.lastAck - old(st).r.start, old(rcv.buffer.maxPos),
                     num - old(st).r.lastAck, Full(payload, header, 1), stored, rcv.buffer.Slots(), rcv.buffer.maxPos)
      ensures st.r.start == old(st).r.start && st.r.lastAck == old(st).r.lastAck && st.r.notch == old(st).r.notch
    {
      hide *;
      Opened();
      RcvSlots();
      DataFacts(c, st, snd.packets, seqno, payload, header, num);
      DataOut(c, st, snd.packets, num, payload);
      StoreShape(st.r, c.bufSize, num, payload);
      var nak;
      taken, stored, nak := RcvGram(seqno, payload, header, num);
      out := if nak != [] then Some(NakGram(nak)) else None;
      if taken {
        MoveRcv(Step.DeliverData(num, payload), out, Store(st.r, c.bufSize, num, payload));
      } else {
        Closed();
      }
    }

    method RcvLite() returns (packet: Option<SeqNum>)
      requires Apart() && SndShows(st.s, st.history)
      requires RcvShows(st.r) && FirstMissing(st.r) < st.r.lastAckAck + THRESHOLD
      ensures packet == if FirstMissing(st.r) == st.r.lastAckAck then None else Some(Num(FirstMissing(st.r)))
      ensures SndShows(st.s, st.history)
    {
      hide SndShows, Num, RcvEndpoint.Valid, FirstMissing;
      packet := rcv.SendLiteAck();
    }

    /** A light ACK is sent. */
    method LiteTimer() returns (out: Option<Datagram>)
      requires Valid() && Timely(c, st, Step.LiteTimer)
      modifies this`st
      ensures Valid() && Did(old(st), Step.LiteTimer, out)
    {
      hide Num, SndShows, RcvShows, Proper, Apart, Sound, Inv, Did, Sent, Wires, NextSender, FirstMissing;
      Sane(c, st, Step.LiteTimer, snd.packets);
      var packet := RcvLite();
      out := if packet.Some? then Some(LiteAckGram(packet.value)) else None;
      LiteWires(c, st, snd.packets);
      MoveRcv(Step.LiteTimer, out, st.r);
    }

    method RcvAck(due: bool, now: int) returns (packet: Option<(SeqNum, SeqNum, int)>)
      requires RcvShows(st.r) && FirstMissing(st.r) < st.r.lastAckAck + THRESHOLD
      requires Apart() && SndShows(st.s, st.history)
      ensures SndShows(st.s, st.history)
      modifies rcv`lastAck, rcv`ackSeqNo, rcv`r, rcv.buffer`lastAckPos, rcv.buffer`maxPos
      modifies rcv.ackWindow, rcv.ackWindow.ackSeqNo, rcv.ackWindow.ack, rcv.ackWindow.timeStamp
      ensures RcvShows(if AckDue(st.r, due) then Acknowledge(st.r) else st.r)
      ensures rcv.buffer.Slots() == old(rcv.buffer.Slots())
      ensures var gained := if AckDue(st.r, due) then Acknowledge(st.r).lastAck - st.r.lastAck else 0;
              rcv.buffer.maxPos == Max(old(rcv.buffer.maxPos) - gained, 0)
      ensures packet ==
              if AckDue(st.r, due) then
                var r1 := Acknowledge(st.r);
                Some((Num(r1.ackNo), Num(r1.lastAck), Max(Avail(r1, c.bufSize), 2)))
              else None
    {
      hide Num, RcvEndpoint.Valid, FirstMissing, Acknowledge, AckDue, SndShows;
      packet := rcv.SendAck(due, now);
    }

    /** A full ACK is sent, if one is due. */
    method AckTimer(due: bool, now: int) returns (out: Option<Datagram>)
      requires Valid() && Timely(c, st, Step.AckTimer(due))
      modifies this`st, rcv`lastAck, rcv`ackSeqNo, rcv`r, rcv.buffer`lastAckPos, rcv.buffer`maxPos
      modifies rcv.ackWindow, rcv.ackWindow.ackSeqNo, rcv.ackWindow.ack, rcv.ackWindow.timeStamp
      ensures Valid() && Did(old(st), Step.AckTimer(due), out) && rcv.buffer.Slots() == old(rcv.buffer.Slots())
      ensures rcv.buffer.maxPos == Max(old(rcv.buffer.maxPos) - (st.r.lastAck - old(st).r.lastAck), 0)
      ensures st.r.start == old(st).r.start && st.r.lastAck >= old(st).r.lastAck && st.r.notch == old(st).r.notch
    {
      hide *;
      Opened();
      DueFacts(c, st, due);
      var packet := RcvAck(due, now);
      out := if packet.Some? then Some(AckGram(packet.value.0, packet.value.1, packet.value.2)) else None;
      DueOut(c, st, snd.packets, due, packet, out);
      MoveRcv(Step.AckTimer(due), out, if AckDue(st.r, due) then Acknowledge(st.r) else st.r);
    }

    method RcvReport(words: array<int32>, limit: int) returns (len: nat, ghost ranges: seq<Range>)
      requires Apart() && SndShows(st.s, st.history)
      requires RcvShows(st.r) && limit <= words.Length
      modifies words
      ensures RcvShows(st.r) && len <= words.Length && words[..len] == Encode(ranges)
      ensures forall i :: 0 <= i < |ranges| ==> LostRange(st.r, ranges[i])
      ensures limit > |st.r.loss| || len < limit - 1 ==> Named(ranges) == st.r.loss
      ensures (ranges == [] ==> st.r.loss == {} || limit < 2) && (ranges != [] ==> st.r.loss != {})
      ensures SndShows(st.s, st.history)
    {
      hide SndShows, Num, RcvEndpoint.Valid, Encode, Named, Interval;
      len, ranges := rcv.ReportLoss(words, limit);
      if ranges != [] {
        SomeLost(st.r, ranges[0]);
      }
    }

    /** A periodic loss report is sent, when something is lost. */
    method ReportLoss(words: array<int32>, limit: int) returns (out: Option<Datagram>, ghost ranges: seq<Range>)
      requires Valid() && 2 <= limit <= words.Length
      modifies this`st, words
      ensures Valid() && (out.None? <==> old(st).r.loss == {})
      ensures if out.Some? then Did(old(st), Step.ReportLoss(ranges), out) else st == old(st)
      ensures limit > |old(st).r.loss| ==> Named(ranges) == old(st).r.loss
    {
      hide *;
      Opened();
      var len;
      len, ranges := RcvReport(words, limit);
      NoReport(ranges);
      if len == 0 {
        Closed();
        return None, ranges;
      }
      ReportFacts(c, st, ranges);
      ReportWires(c, st, snd.packets, ranges);
      out := Some(NakGram(words[..len]));
      MoveRcv(Step.ReportLoss(ranges), out, st.r);
    }

    method RcvAck2(no: SeqNum, now: int, ghost n: int) returns (measured: bool)
      requires Apart() && SndShows(st.s, st.history)
      requires RcvShows(st.r) && no == Num(n) && Near(st.r.ackNo, n) && st.r.lastAck < st.r.lastAckAck + THRESHOLD
      modifies rcv`lastAckAck, rcv`r, rcv.ackWindow, rcv.ackWindow.ackSeqNo
      ensures RcvShows(TakeAck2(st.r, n, measured))
      ensures measured <==> Recorded(old(rcv.ackWindow.Records()), no, now)
      ensures SndShows(st.s, st.history)
    {
      hide SndShows, Num, RcvEndpoint.Valid, TakeAck2;
      measured := rcv.ProcessAck2(no, now, n);
    }

    /** An ACK of an ACK arrives. */
    method DeliverAck2(no: SeqNum, now: int, ghost n: int) returns (measured: bool)
      requires Valid() && no == Num(n) && Ack2(n) in st.net && Timely(c, st, Step.DeliverAck2(n, true))
      modifies this`st, rcv`lastAckAck, rcv`r, rcv.ackWindow, rcv.ackWindow.ackSeqNo
      ensures Valid() && Did(old(st), Step.DeliverAck2(n, measured), None)
      ensures measured <==> Recorded(old(rcv.ackWindow.Records()), no, now)
    {
      hide Num, SndShows, RcvShows, Proper, Apart, Sound, Inv, Did, Sent, Wires, NextSender, TakeAck2;
      measured := RcvAck2(no, now, n);
      Sane(c, st, Step.DeliverAck2(n, measured), snd.packets);
      MoveRcv(Step.DeliverAck2(n, measured), None, TakeAck2(st.r, n, measured));
    }

    method RcvRead(len: nat) returns (data: Payload)
      requires Apart() && SndShows(st.s, st.history)
      requires RcvShows(st.r)
      modifies rcv`r, rcv.buffer`startPos, rcv.buffer`notch, rcv.buffer.slot
      modifies rcv.buffer.pool`flags, rcv.buffer.pool`count, rcv.buffer.pool`slots, rcv.buffer.pool`owner
      ensures ReadyToRead(st.r) && RcvShows(AfterRead(st.r, len)) && data == ReadBytes(st.r, len)
      ensures SndShows(st.s, st.history)
    {
      hide SndShows, Num, RcvEndpoint.Valid, AfterRead, ReadBytes, ReadyToRead;
      data := rcv.Recv(len);
    }

    /** The user receives. */
    method Recv(len: nat) returns (data: Payload)
      requires Valid()
      modifies this`st, rcv`r, rcv.buffer`startPos, rcv.buffer`notch, rcv.buffer.slot
      modifies rcv.buffer.pool`flags, rcv.buffer.pool`count, rcv.buffer.pool`slots, rcv.buffer.pool`owner
      ensures Valid() && Did(old(st), AppRecv(len), None)
      ensures st.delivered == old(st).delivered + data
    {
      hide Num, SndShows, RcvShows, Proper, Apart, Sound, Inv, Sent, Wires, NextSender, AfterRead, ReadBytes;
      Sane(c, st, AppRecv(len), snd.packets);
      data := RcvRead(len);
      MoveRcv(AppRecv(len), None, AfterRead(st.r, len));
    }

    method RcvMsg(len: nat) returns (data: Payload, ghost h: int, ghost i: int, ghost freed: nat)
      requires Apart() && SndShows(st.s, st.history)
      requires RcvShows(st.r) && st.r.notch == 0 && Chained(rcv.buffer.Slots())
      modifies rcv`r, rcv.buffer`startPos, rcv.buffer.slot
      modifies rcv.buffer.pool`flags, rcv.buffer.pool`count, rcv.buffer.pool`slots, rcv.buffer.pool`owner
      ensures ReadyToRead(st.r) && RcvShows(AfterRead(st.r, freed))
      ensures AfterRead(st.r, freed).notch == 0 && AfterRead(st.r, freed).lastAck == st.r.lastAck
      ensures Msg(old(rcv.buffer.Slots()), st.r.lastAck - st.r.start, rcv.buffer.maxPos, len, data, h, i,
                  rcv.buffer.Slots(), st.r.lastAck - AfterRead(st.r, freed).start)
      ensures SndShows(st.s, st.history)
    {
      hide SndShows, Num, RcvEndpoint.Valid, AfterRead, ReadyToRead, Msg, Chained, Units, Flatten;
      Kept();
      data, h, i := rcv.RecvMsg(len);
      freed := FreedBytes(st.r, c.isn, c.bufSize, rcv.r.start - st.r.start);
    }

    lemma Kept()
      requires RcvShows(st.r)
      ensures ReceiverInv(st.r, c.isn, c.bufSize)
    {
      hide ReceiverInv, RcvEndpoint.BufferShows, RcvEndpoint.LossShows, RcvEndpoint.WindowShows,
           RcvEndpoint.NumbersShow;
    }

    /** The user receives a message. For the packets it sets free it is a read of just their
        bytes. */
    method RecvMsg(len: nat) returns (data: Payload, ghost h: int, ghost i: int, ghost freed: nat)
      requires Valid() && st.r.notch == 0 && Chained(rcv.buffer.Slots())
      modifies this`st, rcv`r, rcv.buffer`startPos, rcv.buffer.slot
      modifies rcv.buffer.pool`flags, rcv.buffer.pool`count, rcv.buffer.pool`slots, rcv.buffer.pool`owner
      ensures Valid() && Did(old(st), AppRecv(freed), None)
      ensures st.r.notch == 0 && st.r.lastAck == old(st).r.lastAck
      ensures Msg(old(rcv.buffer.Slots()), old(st).r.lastAck - old(st).r.start, rcv.buffer.maxPos, len, data, h, i,
                  rcv.buffer.Slots(), st.r.lastAck - st.r.start)
    {
      hide *;
      Opened();
      data, h, i, freed := RcvMsg(len);
      MoveRead(freed);
    }

    method RcvCount() returns (n: int, ghost freed: nat)
      requires Apart() && SndShows(st.s, st.history)
      requires RcvShows(st.r) && st.r.notch == 0
      modifies rcv`r, rcv.buffer`startPos, rcv.buffer.slot
      modifies rcv.buffer.pool`flags, rcv.buffer.pool`count, rcv.buffer.pool`slots, rcv.buffer.pool`owner
      ensures ReadyToRead(st.r) && RcvShows(AfterRead(st.r, freed))
      ensures AfterRead(st.r, freed).notch == 0 && AfterRead(st.r, freed).lastAck == st.r.lastAck
      ensures Scanned(old(rcv.buffer.Slots()), st.r.lastAck - st.r.start, rcv.buffer.maxPos, n, rcv.buffer.Slots(),
                      st.r.lastAck - AfterRead(st.r, freed).start)
      ensures SndShows(st.s, st.history)
    {
      hide SndShows, Num, RcvEndpoint.Valid, AfterRead, ReadyToRead, Scanned, Units, Flatten;
      Kept();
      n := rcv.CountMsgs();
      freed := FreedBytes(st.r, c.isn, c.bufSize, rcv.r.start - st.r.start);
    }

    /** The user is told whether there is a message. */
    method CountMsgs() returns (n: int, ghost freed: nat)
      requires Valid() && st.r.notch == 0
      modifies this`st, rcv`r, rcv.buffer`startPos, rcv.buffer.slot
      modifies rcv.buffer.pool`flags, rcv.buffer.pool`count, rcv.buffer.pool`slots, rcv.buffer.pool`owner
      ensures Valid() && Did(old(st), AppRecv(freed), None)
      ensures st.r.notch == 0 && st.r.lastAck == old(st).r.lastAck
      ensures Scanned(old(rcv.buffer.Slots()), old(st).r.lastAck - old(st).r.start, rcv.buffer.maxPos, n,
                      rcv.buffer.Slots(), st.r.lastAck - st.r.start)
    {
      hide *;
      Opened();
      n, freed := RcvCount();
      MoveRead(freed);
    }

    /** A data packet on the network is one that was queued. */
    lemma Genuine(num: int, payload: Payload)
      requires Valid() && Data(num, payload) in st.net
      ensures 0 <= num - c.isn < |snd.packets| && snd.packets[num - c.isn].payload == payload
      ensures Wire(c.isn, snd.packets, Data(num, payload)) ==
              DataGram(Num(num), payload, snd.packets[num - c.isn].header)
    {
      hide Num, RcvShows, SenderInv, SndEndpoint.BufferShows, SndEndpoint.LossShows, SndEndpoint.NumbersShow, Inv;
      Theorems.ReachableInv(c, st);
      Theorems.PacketIsHistory(c, st, Data(num, payload));
    }

    /** The slots acknowledged are filled, and none was read before the first packet. */
    lemma AckedThere()
      requires Valid()
      ensures rcv.buffer.GetRcvDataSize() == st.r.lastAck - st.r.start && c.isn <= st.r.start
      ensures forall d :: 0 <= d < rcv.buffer.GetRcvDataSize() ==> rcv.buffer.Slots()[d].Full?
      ensures rcv.buffer.maxPos >= 0
    {
      hide Num, SndShows, Proper, RcvEndpoint.Valid, RcvBuffer.Slots;
      rcv.Ready();
      Kept();
    }

    // --- The network and the whole ------------------------------------------

    /** The network loses datagrams. */
    ghost method Lose(lost: set<Packet>)
      requires Valid()
      modifies this`st
      ensures Valid() && Did(old(st), Step.Lose(lost), None)
    {
      hide Num, SndShows, RcvShows, Proper, Apart, Sound, Inv, Did, Sent, Wires;
      Sane(c, st, Step.Lose(lost), snd.packets);
      MoveOn(Step.Lose(lost), None);
    }

    /** Whatever methods were called, in whatever order: the bytes received are a prefix of
        the bytes sent, and what is still missing is in the sender's buffer. */
    lemma Promise(num: int)
      requires Valid()
      ensures st.delivered <= st.accepted
      ensures FirstMissing(st.r) <= num <= st.s.curr ==>
                && snd.buffer.Valid() && 0 <= num - c.isn < |st.history|
                && 0 <= num - st.s.lastDataAck < |snd.buffer.Packets()|
                && snd.buffer.Packets()[num - st.s.lastDataAck].payload == st.history[num - c.isn]
    {
      hide Num, RcvShows, Theorems.Reachable, FirstMissing, SenderInv, SndBuffers.SndBuffer.Valid,
           SndBuffers.SndBuffer.Packets,
           SndEndpoint.LossShows, SndEndpoint.NumbersShow;
      Theorems.EndToEnd(c, st);
      Theorems.NoPrematureRelease(c, st, num);
    }
  }

  lemma WireOf(isn: int, sent: seq<SndBuffers.Packet>, p: Packet)
    ensures Wires(isn, sent, {p}) == {Wire(isn, sent, p)} && Wires(isn, sent, {}) == {}
  {
    assert p in {p};
  }

  lemma NoReport(ranges: seq<Range>)
    ensures Encode(ranges) == [] <==> ranges == []
  {}

  lemma SomeLost(r: Receiver, range: Range)
    requires LostRange(r, range)
    ensures r.loss != {}
  {
    assert range.first in Interval(range.first, range.last);
  }

  /** What a new packet puts on the network. */
  lemma NewWires(c: Config, st: State, sent: seq<SndBuffers.Packet>)
    requires Sound(st) && st.s.phase.WindowOpen?
    ensures Wires(c.isn, sent, Sent(c, st, Step.SendNew)) ==
            if st.s.cursor < |st.s.blocks| then
              {DataGram(Num(st.s.curr + 1), st.s.blocks[st.s.cursor], HeaderAt(sent, st.s.curr + 1 - c.isn))}
            else {}
  {
    hide Num, Sound;
    if st.s.cursor < |st.s.blocks| {
      WireOf(c.isn, sent, Data(st.s.curr + 1, st.s.blocks[st.s.cursor]));
    }
  }

  lemma AckWires(c: Config, st: State, sent: seq<SndBuffers.Packet>, n: int, a: int, avail: int, reply: bool)
    requires Sound(st) && Enabled(st, Step.DeliverAck(n, a, avail, reply))
    ensures Wires(c.isn, sent, Sent(c, st, Step.DeliverAck(n, a, avail, reply))) ==
            if reply then {Ack2Gram(Num(n))} else {}
  {
    hide Num, Sound;
    WireOf(c.isn, sent, Ack2(n));
  }

  lemma DataWires(c: Config, st: State, sent: seq<SndBuffers.Packet>, num: int, payload: Payload)
    requires Sound(st) && Enabled(st, Step.DeliverData(num, payload))
    ensures Wires(c.isn, sent, Sent(c, st, Step.DeliverData(num, payload))) ==
            if Classify(st.r, c.bufSize, num) == Beyond then {NakGram(Encode([Range(st.r.curr + 1, num - 1)]))} else {}
  {
    hide Num, Sound, Classify, Encode;
    WireOf(c.isn, sent, Nak([Range(st.r.curr + 1, num - 1)]));
  }

  /** The words of the report that an arriving packet calls for. */
  ghost function GapReport(c: Config, st: State, num: int): seq<int32> {
    if Classify(st.r, c.bufSize, num) == Beyond then Encode([Range(st.r.curr + 1, num - 1)]) else []
  }

  lemma DataOut(c: Config, st: State, sent: seq<SndBuffers.Packet>, num: int, payload: Payload)
    requires Sound(st) && Enabled(st, Step.DeliverData(num, payload))
    ensures Wires(c.isn, sent, Sent(c, st, Step.DeliverData(num, payload))) ==
            if GapReport(c, st, num) != [] then {NakGram(GapReport(c, st, num))} else {}
  {
    hide Num, Sound, Classify, Encode, Wires, Sent;
    NoReport([Range(st.r.curr + 1, num - 1)]);
    DataWires(c, st, sent, num, payload);
  }

  lemma LiteWires(c: Config, st: State, sent: seq<SndBuffers.Packet>)
    requires Sound(st)
    ensures Wires(c.isn, sent, Sent(c, st, Step.LiteTimer)) ==
            if FirstMissing(st.r) == st.r.lastAckAck then {} else {LiteAckGram(Num(FirstMissing(st.r)))}
  {
    hide Num, Sound, FirstMissing;
    WireOf(c.isn, sent, LiteAck(FirstMissing(st.r)));
  }

  lemma DueWires(c: Config, st: State, sent: seq<SndBuffers.Packet>, due: bool)
    requires Sound(st)
    ensures Wires(c.isn, sent, Sent(c, st, Step.AckTimer(due))) ==
            if AckDue(st.r, due) && FirstMissing(st.r) > st.r.lastAckAck then
              {AckGram(Num(st.r.ackNo + 1), Num(FirstMissing(st.r)), Max(Avail(Acknowledge(st.r), c.bufSize), 2))}
            else {}
  {
    hide Num, Sound, FirstMissing, AckDue, Acknowledge, Avail;
    WireOf(c.isn, sent, Ack(st.r.ackNo + 1, FirstMissing(st.r), Max(Avail(Acknowledge(st.r), c.bufSize), 2)));
  }

  lemma ReportWires(c: Config, st: State, sent: seq<SndBuffers.Packet>, ranges: seq<Range>)
    requires Sound(st) && Enabled(st, Step.ReportLoss(ranges))
    ensures Wires(c.isn, sent, Sent(c, st, Step.ReportLoss(ranges))) == {NakGram(Encode(ranges))}
  {
    hide Num, Sound, Encode;
    WireOf(c.isn, sent, Nak(ranges));
  }

  /** What a retransmission puts on the network. */
  lemma ResendWires(c: Config, st: State, sent: seq<SndBuffers.Packet>, seqno: SeqNum)
    requires Sound(st) && st.s.phase.Picked? && seqno == Num(st.s.phase.num)
    ensures var p := Reread(st.s, st.s.phase.num);
            Wires(c.isn, sent, Sent(c, st, Step.Resend)) ==
            if p.Some? then {DataGram(seqno, p.value, HeaderAt(sent, st.s.phase.num - c.isn))} else {}
  {
    hide Num, Reread;
    var p := Reread(st.s, st.s.phase.num);
    if p.Some? {
      WireOf(c.isn, sent, Data(st.s.phase.num, p.value));
    }
  }

  /** What the ends may rely on in a datagram from the network. */
  lemma Believed(c: Config, st: State, p: Packet)
    requires Inv(c, st) && p in st.net
    ensures p.LiteAck? ==> p.ack <= st.s.curr + 1
    ensures p.Ack? ==> HonestAck(st.s, p.ack, p.avail, c.Window())
    ensures p.Data? ==> p.payload != []
  {
    hide SenderInv, ReceiverInv, Stream;
    assert Truthful(c, st, p);
  }

  /** An ACK that is due brings a number the sender has not confirmed. */
  lemma DueAfter(c: Config, st: State, due: bool)
    requires Inv(c, st) && AckDue(st.r, due)
    ensures FirstMissing(st.r) > st.r.lastAckAck
    ensures Acknowledge(st.r).ackNo == st.r.ackNo + 1 && Acknowledge(st.r).lastAck == FirstMissing(st.r) >= st.r.lastAck
    ensures Acknowledge(st.r).start == st.r.start && Acknowledge(st.r).notch == st.r.notch
  {
    hide SenderInv, Agreement, NetTruthful, Stream, Least;
  }

  /** What an arriving packet brings. */
  lemma DataFacts(c: Config, st: State, sent: seq<SndBuffers.Packet>, seqno: SeqNum, payload: Payload,
          header: SndBuffers.Header, num: int)
    requires Proper(c, st) && Enabled(st, Step.DeliverData(num, payload))
    requires Timely(c, st, Step.DeliverData(num, payload))
    requires DataGram(seqno, payload, header) == Wire(c.isn, sent, Data(num, payload))
    ensures Sound(st) && seqno == Num(num) && payload != []
    ensures Near(st.r.lastAck, num) && Near(num, st.r.curr) && Near(num, st.r.curr + 1)
    ensures !BySender(Step.DeliverData(num, payload))
    ensures NextReceiver(c, st, Step.DeliverData(num, payload)) == Store(st.r, c.bufSize, num, payload)
  {
    hide Num, Proper, Inv, Sound, Near, Wires, Sent, Store, HeaderAt;
    Sane(c, st, Step.DeliverData(num, payload), sent);
    Believed(c, st, Data(num, payload));
  }

  lemma ReportFacts(c: Config, st: State, ranges: seq<Range>)
    requires Proper(c, st) && forall i :: 0 <= i < |ranges| ==> LostRange(st.r, ranges[i])
    ensures !BySender(Step.ReportLoss(ranges)) && Enabled(st, Step.ReportLoss(ranges)) && Sound(st)
    ensures NextReceiver(c, st, Step.ReportLoss(ranges)) == st.r
  {
    hide Proper, Inv, Sound, Wires, Sent, LostRange;
    Sane(c, st, Step.ReportLoss(ranges), []);
  }

  /** What the ACK timer does to the receiver. */
  lemma DueFacts(c: Config, st: State, due: bool)
    requires Proper(c, st) && Timely(c, st, Step.AckTimer(due))
    ensures FirstMissing(st.r) < st.r.lastAckAck + THRESHOLD
    ensures !BySender(Step.AckTimer(due)) && Enabled(st, Step.AckTimer(due)) && Sound(st) && Inv(c, st)
    ensures var r := if AckDue(st.r, due) then Acknowledge(st.r) else st.r;
            && NextReceiver(c, st, Step.AckTimer(due)) == r
            && r.start == st.r.start && r.lastAck >= st.r.lastAck && r.notch == st.r.notch
  {
    hide Proper, Inv, Sound, Wires, Sent, AckDue, Acknowledge, FirstMissing;
    Sane(c, st, Step.AckTimer(due), []);
    if AckDue(st.r, due) {
      DueAfter(c, st, due);
    }
  }

  /** The datagram sent is the one the step puts on the network. */
  lemma DueOut(c: Config, st: State, sent: seq<SndBuffers.Packet>, due: bool, packet: Option<(SeqNum, SeqNum, int)>,
          out: Option<Datagram>)
    requires Inv(c, st) && Sound(st)
    requires packet ==
             if AckDue(st.r, due) then
               var r := Acknowledge(st.r);
               Some((Num(r.ackNo), Num(r.lastAck), Max(Avail(r, c.bufSize), 2)))
             else None
    requires out == if packet.Some? then Some(AckGram(packet.value.0, packet.value.1, packet.value.2)) else None
    ensures Wires(c.isn, sent, Sent(c, st, Step.AckTimer(due))) == if out.Some? then {out.value} else {}
  {
    hide Num, Inv, Sound, FirstMissing, AckDue, Acknowledge, Avail, Wires, Sent;
    if AckDue(st.r, due) {
      DueAfter(c, st, due);
    }
    DueWires(c, st, sent, due);
  }

  lemma Start(c: Config)
    requires c.mss > 0 && 2 <= c.bufSize <= c.flightFlag && 2 * c.flightFlag <= THRESHOLD
    ensures Proper(c, Init(c))
    ensures 2 * (if c.bufSize < c.flightFlag then c.bufSize else c.flightFlag) <= THRESHOLD && c.flightFlag <= THRESHOLD
  {
    assert Legal(c, Init(c), []) && Final(c, Init(c), []) == Init(c);
  }

  /** The steps that put nothing on the network. */
  predicate Quiet(step: Step) {
    step.AppSend? || step.PickLost? || step.CheckWindow? || step.DeliverLiteAck? || step.LockAck? || step.DeliverNak? ||
    step.Timeout? || step.DeliverAck2? || step.AppRecv? || step.Lose?
  }

  predicate BySender(step: Step) {
    step.AppSend? || step.PickLost? || step.Resend? || step.CheckWindow? || step.SendNew? || step.DeliverLiteAck? ||
    step.DeliverAck? || step.LockAck? || step.DeliverNak? || step.Timeout?
  }

  lemma QuietWires(c: Config, st: State, step: Step)
    requires c.Valid() && Sound(st) && Enabled(st, step)
    ensures Quiet(step) ==> forall sent :: Wires(c.isn, sent, Sent(c, st, step)) == {}
    ensures if BySender(step) then Next(c, st, step).r == st.r else Next(c, st, step).s == st.s
  {
    hide Sound, Enabled, Enqueue, Pick, WindowAllows, Advance, TakeLiteAck, TakeAck, ReleaseAck, TakeNak, Expire,
         Store, Classify,
         AckDue, Acknowledge, TakeAck2, AfterRead, ReadBytes, Chunks, FirstMissing, Avail, Reread, Config.Valid;
  }

  /** An ACK that starts to wait for its lock is near, and stays so. */
  lemma PendingKept(c: Config, st: State, step: Step)
    requires Inv(c, st) && Sound(st) && Enabled(st, step) && c.Window() < THRESHOLD
    requires st.s.pendingAck.Some? ==> Near(st.s.lastDataAck, st.s.pendingAck.value)
    requires step.DeliverAck? ==> Near(step.ack, st.s.lastAck)
    ensures var s1 := Next(c, st, step).s; s1.pendingAck.Some? ==> Near(s1.lastDataAck, s1.pendingAck.value)
  {
    hide ReceiverInv, SenderInv, NetTruthful, Stream, Learned, Sound, Agreement, TakeAck, TakeNak;
    match step
    case DeliverAck(no, ack, avail, reply) =>
      Believed(c, st, Ack(no, ack, avail));
      PendingAcked(c, st, ack, avail);
    case DeliverNak(ranges) =>
      SamePending(st.s, ranges);
    case _ =>
      hide Near;
  }

  lemma PendingAcked(c: Config, st: State, ack: int, avail: int)
    requires Inv(c, st) && c.Window() < THRESHOLD && HonestAck(st.s, ack, avail, c.Window())
    requires Near(ack, st.s.lastAck) && st.s.pendingAck.None?
    ensures var s1 := TakeAck(st.s, ack, avail); s1.pendingAck.Some? ==> Near(s1.lastDataAck, s1.pendingAck.value)
  {
    hide ReceiverInv, NetTruthful, Stream, Learned;
    AckKeeps(st.s, c.isn, c.Window(), st.history, ack, avail);
  }

  lemma {:induction false} SamePending(s: Sender, ranges: seq<Range>)
    ensures TakeNak(s, ranges).pendingAck == s.pendingAck && TakeNak(s, ranges).lastDataAck == s.lastDataAck
    decreases ranges
  {
    if ranges != [] && !(ranges[0].first > ranges[0].last || ranges[0].last > s.curr) {
      SamePending(s.(loss := s.loss + Interval(Max(ranges[0].first, s.lastAck), ranges[0].last)), ranges[1..]);
    }
  }

  lemma SameHistory(c: Config, st: State, step: Step)
    requires c.Valid() && Sound(st) && Enabled(st, step) && !step.AppSend?
    ensures Next(c, st, step).history == st.history
  {
    hide NextSender, NextReceiver, Sent, Sound, Enabled, ReadBytes;
    assert st.history + [] == st.history;
  }

  /** Every enabled step can be taken. */
  lemma Sane(c: Config, st: State, step: Step, sent: seq<SndBuffers.Packet>)
    requires Proper(c, st) && Enabled(st, step)
    ensures Sound(st) && Inv(c, st)
    ensures Quiet(step) ==> Wires(c.isn, sent, Sent(c, st, step)) == {}
  {
    hide Inv, Sound, Next, Enabled, Init, Wires, Sent;
    Theorems.ReachableInv(c, st);
    var steps :| Legal(c, Init(c), steps) && Final(c, Init(c), steps) == st;
    Theorems.NeverStuck(c, steps, step);
    QuietWires(c, st, step);
  }

  /** Every enabled step leads on. */
  lemma Reached(c: Config, st: State, step: Step)
    requires Proper(c, st) && Enabled(st, step)
    requires step.DeliverAck? ==> Near(step.ack, st.s.lastAck)
    ensures Sound(st) && Inv(c, st) && Proper(c, Next(c, st, step))
    ensures !step.AppSend? ==> Next(c, st, step).history == st.history
    ensures if BySender(step) then Next(c, st, step).r == st.r else Next(c, st, step).s == st.s
  {
    hide Inv, Sound, Next, Enabled, Init, Wires;
    Theorems.ReachableInv(c, st);
    var steps :| Legal(c, Init(c), steps) && Final(c, Init(c), steps) == st;
    Theorems.NeverStuck(c, steps, step);
    QuietWires(c, st, step);
    PendingKept(c, st, step);
    if !step.AppSend? {
      SameHistory(c, st, step);
    }
    assert Legal(c, Next(c, st, step), []);
    assert Legal(c, st, [step]) && Final(c, st, [step]) == Next(c, st, step);
    RunsCompose(c, Init(c), steps, [step]);
  }
}
