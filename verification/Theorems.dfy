/** What holds of every run of a connection, stated without the invariant. */
module Theorems {
  import opened Bytes
  import opened Numbers
  import opened SendSide
  import opened ReceiveSide
  import opened Connection
  import Safety

  /** The states a connection can be in. */
  ghost predicate Reachable(c: Config, st: State)
    requires c.Valid()
  {
    exists steps :: Legal(c, Init(c), steps) && Final(c, Init(c), steps) == st
  }

  lemma ReachableInv(c: Config, st: State)
    requires c.Valid() && Reachable(c, st)
    ensures Inv(c, st)
  {
    hide Legal, Final, Inv, Init;
    InitInv(c);
    var steps :| Legal(c, Init(c), steps) && Final(c, Init(c), steps) == st;
    Safety.InvRun(c, Init(c), steps);
  }

  /** End to end: whatever the network loses, duplicates, delays or reorders, the bytes
      recv has returned are a prefix of the bytes send has accepted. */
  lemma EndToEnd(c: Config, st: State)
    requires c.Valid() && Reachable(c, st)
    ensures st.delivered <= st.accepted
  {
    hide Reachable, SenderInv, ReceiverInv, Agreement, NetTruthful, Units, Flatten, ReadyToRead, Unread;
    ReachableInv(c, st);
    var k := st.r.lastAck - c.isn;
    FlattenSplit(st.history, k);
    assert st.accepted == Flatten(st.history[..k]) + Flatten(st.history[k..]);
  }

  /** No step reads outside the block list, releases an unsent block or meets an empty slot,
      so every run can go on with every step that is enabled; and neither side ever finds
      the other's control packets forged. */
  lemma NeverStuck(c: Config, steps: seq<Step>, step: Step)
    requires c.Valid() && Legal(c, Init(c), steps) && Enabled(Final(c, Init(c), steps), step)
    ensures Sound(Final(c, Init(c), steps)) && !Final(c, Init(c), steps).s.broken
    ensures Legal(c, Init(c), steps + [step])
  {
    hide Inv, Init, Sound, Enabled, Next, Config.Valid;
    var st := Final(c, Init(c), steps);
    InitInv(c);
    Safety.InvRun(c, Init(c), steps);
    InvSound(c, st);
    assert Legal(c, Next(c, st, step), []);
    assert Legal(c, st, [step]);
    RunsCompose(c, Init(c), steps, [step]);
  }

  /** No premature release: what the receiver still misses, the sender still holds, at the
      offset of its number from the last data ACK. */
  lemma NoPrematureRelease(c: Config, st: State, num: int)
    requires c.Valid() && Reachable(c, st)
    ensures st.s.lastDataAck <= st.s.lastAck <= FirstMissing(st.r)
    ensures FirstMissing(st.r) <= num <= st.s.curr ==>
              && 0 <= num - st.s.lastDataAck < |st.s.blocks| && 0 <= num - c.isn < |st.history|
              && st.s.blocks[num - st.s.lastDataAck] == st.history[num - c.isn]
  {
    hide Reachable, ReceiverInv, NetTruthful, Stream, Learned, LossInside, InWindow;
    ReachableInv(c, st);
    CoveredIsFirstMissing(st.r, st.s.lastAck);
    hide Covered, FirstMissing;
    if FirstMissing(st.r) <= num <= st.s.curr {
      BlockOf(st.s, c.isn, st.history, num);
    }
  }

  /** The numbers of the two ends are always in this order: what the sender confirmed to the
      receiver, what it learned from full ACKs, what the receiver acknowledged, the first
      number it misses, the newest it has seen, the newest that was sent. */
  lemma NumbersInOrder(c: Config, st: State)
    requires c.Valid() && Reachable(c, st)
    ensures st.r.lastAckAck <= FullyAcked(st.s) <= st.r.lastAck <= FirstMissing(st.r) <= st.r.curr + 1 <= st.s.curr + 1
    ensures st.s.lastDataAck <= FullyAcked(st.s) <= st.s.lastAck <= FirstMissing(st.r)
    ensures st.s.curr + 1 <= st.s.lastDataAck + 2 * c.Window()
  {
    hide Reachable, NetTruthful, Stream;
    ReachableInv(c, st);
    CoveredIsFirstMissing(st.r, st.s.lastAck);
    hide Least;
  }

  lemma PickedBelow(c: Config, st: State)
    requires c.Valid() && Reachable(c, st)
    ensures st.s.phase.Picked? ==> st.s.phase.num <= st.s.curr
    ensures st.s.pendingAck.Some? ==> st.s.pendingAck.value <= st.s.curr + 1
  {
    hide Reachable, ReceiverInv, NetTruthful, Stream, Agreement;
    ReachableInv(c, st);
  }

  /** Alignment of numbers and blocks, and the span of the loss list: it lies between the
      last data ACK and the current number, and fits twice the initial window even while
      an ACK waits for its lock. */
  lemma SenderAlignment(c: Config, st: State)
    requires c.Valid() && Reachable(c, st)
    ensures forall k :: 0 <= k < |st.s.blocks| ==>
              0 <= st.s.lastDataAck + k - c.isn < |st.history| &&
                  st.s.blocks[k] == st.history[st.s.lastDataAck + k - c.isn]
    ensures st.s.lastDataAck + st.s.cursor == st.s.curr + 1
    ensures forall x :: x in st.s.loss ==> st.s.lastDataAck <= x <= st.s.curr
    ensures st.s.curr - st.s.lastDataAck < 2 * c.Window()
    ensures st.s.pendingAck.None? ==>
              && st.s.curr - st.s.lastDataAck < c.Window()
              && st.s.lastAck + st.s.flow <= st.s.lastDataAck + c.Window()
  {
    hide Reachable, ReceiverInv, NetTruthful, Stream, Agreement;
    ReachableInv(c, st);
  }

  /** Holes: between the acknowledged and the newest number a slot is empty exactly when
      the number is lost, beyond it all are empty, before it none is; and all fit. */
  lemma ReceiverHoles(c: Config, st: State)
    requires c.Valid() && Reachable(c, st)
    ensures forall n :: st.r.lastAck <= n <= st.r.curr ==> (n in st.r.slots <==> n !in st.r.loss)
    ensures forall n :: st.r.start <= n < FirstMissing(st.r) ==> n in st.r.slots
    ensures forall n :: n in st.r.slots ==> st.r.start <= n <= st.r.curr < st.r.start + c.bufSize - 1
    ensures forall n :: n in st.r.loss ==> st.r.lastAck <= n <= st.r.curr < st.r.lastAck + c.flightFlag
    ensures st.r.lastAckAck <= st.r.lastAck <= FirstMissing(st.r)
  {
    hide Reachable, SenderInv, NetTruthful, Stream, Agreement;
    ReachableInv(c, st);
  }

  /** A number names one payload for ever: any two data packets with the same number, on
      the network at whatever two moments of a run, carry the same bytes. */
  lemma OnePayloadPerNumber(c: Config, st: State, steps: seq<Step>, p: Packet, q: Packet)
    requires c.Valid() && Reachable(c, st) && Legal(c, st, steps)
    requires p in st.net && q in Final(c, st, steps).net && p.Data? && q.Data? && p.num == q.num
    ensures p.payload == q.payload
  {
    hide Reachable, Inv, Legal, Final;
    ReachableInv(c, st);
    Safety.InvRun(c, st, steps);
    HistoryGrows(c, st, steps);
    PacketIsHistory(c, st, p);
    PacketIsHistory(c, Final(c, st, steps), q);
  }

  lemma PacketIsHistory(c: Config, st: State, p: Packet)
    requires Inv(c, st) && p in st.net && p.Data?
    ensures 0 <= p.num - c.isn < |st.history| && p.payload == st.history[p.num - c.isn]
  {
    hide SenderInv, ReceiverInv, Agreement, Stream;
    assert Truthful(c, st, p);
  }

  lemma {:induction false} HistoryGrows(c: Config, st: State, steps: seq<Step>)
    requires c.Valid() && Legal(c, st, steps)
    ensures st.history <= Final(c, st, steps).history
    decreases |steps|
  {
    hide Sound, Enabled, NextSender, NextReceiver, Sent, Chunks, ReadBytes, Config.Valid;
    if steps != [] {
      HistoryGrows(c, Next(c, st, steps[0]), steps[1..]);
    }
  }
}
