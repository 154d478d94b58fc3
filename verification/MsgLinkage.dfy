/** A connection in message mode: the same ends and the same network, with the messages sent
    and all that happens to the receiver's slots kept on record. */
module MsgLinkage {
  import opened Bytes
  import opened SequenceNumbers
  import opened SlotArrays
  import opened SndBuffers
  import opened Messages
  import opened Linkage
  import Connection
  import UnitPools

  /** A packet that is stored, or turned away, as an event of the inbox. */
  lemma PlacedFollows(s: Inbox, t: Inbox, history: seq<Packet>, n: nat, stored: bool)
    requires Good(s, history) && n < |history| && t.acked == s.acked && t.base == s.base
    requires Placed(s.v, s.acked, s.maxPos, n - s.base - s.acked, Full(history[n].payload, history[n].header, 1),
                    stored, t.v, t.maxPos)
    ensures if stored then Follows(s, Arrived(n), t, history) else t == s
  {
    hide Kept, Uniform;
  }

  class MsgLink {
    const link: Link
    ghost var posts: seq<Post>
    ghost var inboxes: seq<Inbox>
    ghost var events: seq<Event>

    /** The receiver's slots as they are. */
    ghost function Now(): Inbox
      requires link.rcv.buffer.Shape() && link.c.isn <= link.st.r.start
      reads link`st, link.rcv.buffer, link.rcv.buffer.slot
    {
      Inbox(link.rcv.buffer.Slots(), link.rcv.buffer.GetRcvDataSize(), link.rcv.buffer.maxPos,
            link.st.r.start - link.c.isn)
    }

    /** The packets queued are those of the messages sent. */
    ghost predicate Sent()
      reads this`posts, link.snd`packets
    {
      && link.c.mss > 0 && link.snd.packets == Posted(posts, link.c.mss)
      && (forall k :: 0 <= k < |posts| ==> posts[k].data != [])
    }

    /** What happened to the slots is a run that leads to where they are. */
    ghost predicate Recorded()
      reads this`inboxes, this`events, link`st, link.rcv.buffer, link.rcv.buffer.slot, link.snd`packets
    {
      && link.rcv.buffer.Shape() && link.c.isn <= link.st.r.start && link.st.r.notch == 0
      && Run(inboxes, events, link.snd.packets) && inboxes[|events|] == Now()
    }

    ghost predicate Valid()
      reads this, link, link.snd, link.snd.buffer, link.snd.buffer.ring
      reads link.snd.lossList, link.snd.lossList.data1, link.snd.lossList.data2, link.snd.lossList.next
      reads link.rcv, link.rcv.buffer, link.rcv.buffer.slot, link.rcv.buffer.pool
      reads link.rcv.lossList, link.rcv.lossList.data1, link.rcv.lossList.data2, link.rcv.lossList.next,
            link.rcv.lossList.prior
      reads link.rcv.ackWindow, link.rcv.ackWindow.ackSeqNo, link.rcv.ackWindow.ack, link.rcv.ackWindow.timeStamp
    {
      link.Valid() && Sent() && Recorded()
    }

    constructor (pool: UnitPools.UnitPool, id: nat, isn: SeqNum, mss: nat, bufSize: nat, flightFlag: nat)
      requires mss > 0 && 2 <= bufSize <= flightFlag && 2 * flightFlag <= THRESHOLD && pool.Valid() && id !in pool.slots
      modifies pool`slots
      ensures Valid() && link.c == Connection.Config(isn, mss, bufSize, flightFlag) && posts == [] && events == []
    {
      hide *;
      link := new Link(pool, id, isn, mss, bufSize, flightFlag);
      posts, events, inboxes := [], [], [];
      new;
      link.AckedThere();
      inboxes := [Now()];
      Begun(bufSize);
    }

    lemma Begun(bufSize: nat)
      requires link.Valid() && link.st == Connection.Init(link.c) && link.snd.packets == []
      requires link.rcv.buffer.Shape() && link.c.isn <= link.st.r.start
      requires link.rcv.buffer.Slots() == seq(bufSize, _ => Empty) && link.rcv.buffer.maxPos == 0
      requires link.rcv.buffer.GetRcvDataSize() == link.st.r.lastAck - link.st.r.start
      requires posts == [] && events == [] && inboxes == [Now()] && bufSize >= 2 && link.c.mss > 0
      ensures Valid()
    {
      hide Link.Valid;
    }

    /** What the receiver's slots are is in order. */
    lemma InOrder()
      requires Valid()
      ensures Good(Now(), link.snd.packets) && WellFramed(link.snd.packets)
      ensures Chained(Now().v) && Now().acked == link.st.r.lastAck - link.st.r.start <= |Now().v|
    {
      hide Link.Valid, Run, Good, WellFramed, Posted;
      link.AckedThere();
      PostedFramed(posts, link.c.mss);
      RunGood(inboxes, events, link.snd.packets, |events|);
      GoodChained(Now(), link.snd.packets);
      SizeOk(Now(), link.snd.packets);
    }

    /** Something has happened to the slots. */
    ghost method Note(e: Event, was: Inbox)
      requires Sent() && link.Valid() && link.rcv.buffer.Shape() && link.st.r.notch == 0 &&
               link.c.isn <= link.st.r.start
      requires Run(inboxes, events, link.snd.packets) && inboxes[|events|] == was
      requires Follows(was, e, Now(), link.snd.packets)
      modifies this`inboxes, this`events
      ensures Valid() && events == old(events) + [e]
    {
      hide Link.Valid, Run, Follows, Posted;
      RunNext(inboxes, events, link.snd.packets, e, Now());
      inboxes, events := inboxes + [Now()], events + [e];
    }

    /** The user sends a message. Nothing is sent of one without bytes. */
    method SendMsg(data: Payload, inOrder: bool)
      requires Valid()
      modifies this`posts
      modifies link`st, link.snd`s, link.snd`history, link.snd`packets, link.snd.buffer, link.snd.buffer.ring
      ensures Valid()
      ensures posts ==
              if data == [] then old(posts) else old(posts) + [Post(data, inOrder, old(link.snd.buffer.nextMsgNo))]
    {
      hide *;
      if data == [] {
        return;
      }
      Opened();
      ghost var p := Post(data, inOrder, link.snd.buffer.nextMsgNo);
      link.Send(data, inOrder);
      posts := posts + [p];
      Same();
      Queued(old(posts), p, old(link.snd.packets));
    }

    lemma Opened()
      requires Valid()
      ensures link.Valid() && Sent() && Recorded() && link.rcv.buffer.Shape() && link.c.isn <= link.st.r.start
      ensures link.snd.packets == Posted(posts, link.c.mss) && inboxes[|events|] == Now() && link.st.r.notch == 0
      ensures Run(inboxes, events, link.snd.packets) && forall k :: 0 <= k < |posts| ==> posts[k].data != []
      ensures link.c.mss > 0
    {
      hide Link.Valid, Run, Posted;
    }

    twostate lemma Same()
      requires unchanged(link.rcv.buffer, link.rcv.buffer.slot) && old(link.rcv.buffer.Shape())
      requires old(link.c.isn <= link.st.r.start) && link.st.r == old(link.st).r
      ensures link.rcv.buffer.Shape() && link.c.isn <= link.st.r.start && Now() == old(Now())
    {}

    lemma Queued(posts0: seq<Post>, p: Post, packets0: seq<Packet>)
      requires link.Valid() && link.c.mss > 0 && posts == posts0 + [p] && packets0 == Posted(posts0, link.c.mss)
      requires p.data != [] && forall k :: 0 <= k < |posts0| ==> posts0[k].data != []
      requires link.snd.packets == packets0 + Framed(Chunks(p.data, link.c.mss), p.inOrder, p.no)
      requires link.rcv.buffer.Shape() && link.c.isn <= link.st.r.start && link.st.r.notch == 0
      requires Run(inboxes, events, packets0) && inboxes[|events|] == Now()
      ensures Valid()
    {
      hide Link.Valid, Run, Posted, Framed, Chunks;
      PostedNext(posts0, link.c.mss, p);
      RunMore(inboxes, events, packets0, Framed(Chunks(p.data, link.c.mss), p.inOrder, p.no));
    }

    /** A data packet arrives. */
    method DeliverData(seqno: SeqNum, payload: Payload, header: Header, ghost num: int)
      returns (taken: bool, stored: bool, out: Option<Datagram>)
      requires Valid() && DataGram(seqno, payload, header) ==
               Wire(link.c.isn, link.snd.packets, Connection.Data(num, payload))
      requires Connection.Enabled(link.st, Connection.DeliverData(num, payload)) &&
               Timely(link.c, link.st, Connection.DeliverData(num, payload))
      modifies this`inboxes, this`events
      modifies link`st, link.rcv`currSeqNo, link.rcv`r, link.rcv.buffer`maxPos, link.rcv.buffer.slot,
               link.rcv.buffer.pool
      modifies link.rcv.lossList, link.rcv.lossList.data1, link.rcv.lossList.data2, link.rcv.lossList.next,
               link.rcv.lossList.prior
      ensures Valid()
      ensures if stored then events == old(events) + [Arrived(num - link.c.isn)] else events == old(events)
      ensures if taken then link.Did(old(link.st), Connection.DeliverData(num, payload), out)
              else link.st == old(link.st) && out == None
    {
      hide Link.Valid, Run, Posted, Link.Did, Placed, Good, WellFramed, Follows, Wire, Timely;
      link.Genuine(num, payload);
      InOrder();
      ghost var s, n := Now(), num - link.c.isn;
      taken, stored, out := link.DeliverData(seqno, payload, header, num);
      link.AckedThere();
      PlacedFollows(s, Now(), link.snd.packets, n, stored);
      if stored {
        Note(Arrived(n), s);
      }
    }

    /** A full ACK is sent, if one is due. */
    method AckTimer(due: bool, now: int) returns (out: Option<Datagram>)
      requires Valid() && Timely(link.c, link.st, Connection.AckTimer(due))
      modifies this`inboxes, this`events
      modifies link`st, link.rcv`lastAck, link.rcv`ackSeqNo, link.rcv`r, link.rcv.buffer`lastAckPos,
               link.rcv.buffer`maxPos
      modifies link.rcv.ackWindow, link.rcv.ackWindow.ackSeqNo, link.rcv.ackWindow.ack, link.rcv.ackWindow.timeStamp
      ensures Valid() && link.Did(old(link.st), Connection.AckTimer(due), out)
      ensures events == old(events) + [Confirmed(link.st.r.lastAck - old(link.st).r.lastAck)]
    {
      hide Link.Valid, Run, Posted, Link.Did, Timely;
      link.AckedThere();
      ghost var s, was := Now(), link.st.r.lastAck;
      out := link.AckTimer(due, now);
      link.AckedThere();
      Note(Confirmed(link.st.r.lastAck - was), s);
    }

    /** The user asks for a message. */
    method RecvMsg(len: nat) returns (data: Payload)
      requires Valid()
      modifies this`inboxes, this`events
      modifies link`st, link.rcv`r, link.rcv.buffer`startPos, link.rcv.buffer.slot
      modifies link.rcv.buffer.pool`flags, link.rcv.buffer.pool`count, link.rcv.buffer.pool`slots,
               link.rcv.buffer.pool`owner
      ensures Valid()
      ensures if len == 0 then data == [] && events == old(events)
              else exists h, i :: events == old(events) + [Asked(len, data, h, i)]
    {
      hide Link.Valid, Run, Posted, Link.Did, Msg, Good, WellFramed, Chained;
      if len == 0 {
        return [];
      }
      InOrder();
      ghost var s, h, i, freed := Now(), 0, 0, 0;
      data, h, i, freed := link.RecvMsg(len);
      link.AckedThere();
      Note(Asked(len, data, h, i), s);
    }

    /** The user is told whether there is a message. */
    method CountMsgs() returns (n: int)
      requires Valid()
      modifies this`inboxes, this`events
      modifies link`st, link.rcv`r, link.rcv.buffer`startPos, link.rcv.buffer.slot
      modifies link.rcv.buffer.pool`flags, link.rcv.buffer.pool`count, link.rcv.buffer.pool`slots,
               link.rcv.buffer.pool`owner
      ensures Valid() && events == old(events) + [Counting(n)]
    {
      hide Link.Valid, Run, Posted, Link.Did, Scanned, Good, WellFramed, Chained;
      InOrder();
      ghost var s, freed := Now(), 0;
      n, freed := link.CountMsgs();
      link.AckedThere();
      Note(Counting(n), s);
    }

    /** Every other step of the connection leaves the record right. */
    twostate lemma Undisturbed()
      requires old(Valid()) && link.Valid() && unchanged(this, link.rcv.buffer, link.rcv.buffer.slot, link.snd`packets)
      requires link.st.r.start == old(link.st).r.start && link.st.r.notch == old(link.st).r.notch
      ensures Valid()
    {
      hide Link.Valid, Run, Posted;
    }

    /** Whatever was called, in whatever order: what the user got is told by a run in which
        each read gives one whole message sent, each message is given at most once, and one
        bound to order after all before it (Messages.WholeOrNothing, AtMostOnce,
        AfterEarlier). */
    lemma Promise()
      requires Valid()
      ensures Record(posts, link.c.mss, inboxes, events)
      ensures link.snd.packets == Posted(posts, link.c.mss) && inboxes[|events|] == Now()
    {
      hide Link.Valid, Run, Posted;
    }
  }
}
