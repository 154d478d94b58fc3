/** The sending half of a connection over unbounded sequence numbers: what `packData`,
    the ACK and NAK arms of `processCtrl`, and the retransmission timer do. */
module SendSide {
  import opened Bytes
  import opened Numbers

  /** How far `packData` has come: it holds a lost number it has not read yet, it
      found no lost number, or it also found the window open. */
  datatype Phase = Idle | Picked(num: int) | NoLoss | WindowOpen

  /** `blocks` are the packets from the first block on; `cursor` is the place of the
      current block among them. `pendingAck` is an ACK whose numbers are recorded but
      which does not hold the ACK lock yet. */
  datatype Sender = Sender(
    lastAck: int, lastDataAck: int, curr: int, flow: int,
    loss: set<int>, blocks: seq<Payload>, cursor: nat,
    phase: Phase, pendingAck: Option<int>, broken: bool)

  /** A lost range, both ends included. */
  datatype Range = Range(first: int, last: int)

  function InitSender(isn: int, window: int): Sender {
    Sender(isn, isn, isn - 1, window, {}, [], 0, Idle, None, false)
  }

  /** `addBuffer`: the bytes are cut into packets behind the last block. */
  function Enqueue(s: Sender, data: Payload, mss: nat): Sender
    requires mss > 0
  {
    s.(blocks := s.blocks + Chunks(data, mss))
  }

  /** First step of `packData`: take the least lost number, if there is one. */
  ghost function Pick(s: Sender): Sender {
    if s.loss == {} then s.(phase := NoLoss)
    else s.(phase := Picked(Least(s.loss)), loss := s.loss - {Least(s.loss)})
  }

  /** Second step for a lost number, under the ACK lock: the block it stands for, or
      None when an ACK has overtaken it. */
  function Reread(s: Sender, num: int): Option<Payload>
    requires num - s.lastDataAck < |s.blocks|
  {
    if num < s.lastDataAck then None else Some(s.blocks[num - s.lastDataAck])
  }

  /** The window test for a new packet, with congestion window `cwnd`. */
  predicate WindowAllows(s: Sender, cwnd: int) {
    Min(s.flow, cwnd) >= s.curr + 1 - s.lastAck + 1
  }

  /** Last step of `packData` for a new packet. */
  function Advance(s: Sender): Sender {
    if s.cursor < |s.blocks|
    then s.(curr := s.curr + 1, cursor := s.cursor + 1, phase := Idle)
    else s.(phase := Idle)
  }

  function TakeLiteAck(s: Sender, ack: int): Sender {
    if ack >= s.lastAck then s.(flow := s.flow - (ack - s.lastAck), lastAck := ack) else s
  }

  /** A full ACK up to the point where it asks for the ACK lock. */
  function TakeAck(s: Sender, ack: int, avail: int): Sender {
    if ack > s.curr + 1 then s.(broken := true)
    else if ack >= s.lastAck then s.(flow := avail, lastAck := ack, pendingAck := Some(ack))
    else s.(pendingAck := Some(ack))
  }

  /** What a full ACK may release: no block the cursor has not passed. */
  predicate Releasable(s: Sender, ack: int) {
    ack > s.lastDataAck ==> ack - s.lastDataAck <= s.cursor <= |s.blocks|
  }

  /** A full ACK under the ACK lock: blocks and lost numbers before it are dropped. */
  ghost function ReleaseAck(s: Sender, ack: int): Sender
    requires Releasable(s, ack)
  {
    var offset := ack - s.lastDataAck;
    if offset <= 0 then s.(pendingAck := None)
    else s.(pendingAck := None, lastDataAck := ack, blocks := s.blocks[offset..], cursor := s.cursor - offset,
            loss := set x | x in s.loss && x >= ack)
  }

  /** A loss report, range by range, until one looks forged. */
  ghost function TakeNak(s: Sender, ranges: seq<Range>): Sender
    decreases |ranges|
  {
    if ranges == [] then s
    else
      var r := ranges[0];
      if r.first > r.last || r.last > s.curr then s.(broken := true)
      else TakeNak(s.(loss := s.loss + Interval(Max(r.first, s.lastAck), r.last)), ranges[1..])
  }

  /** The retransmission timer: everything unacknowledged is lost, if nothing else is. */
  ghost function Expire(s: Sender): Sender {
    if s.blocks != [] && s.curr + 1 != s.lastAck && s.loss == {}
    then s.(loss := Interval(s.lastAck, s.curr)) else s
  }

  // --- Invariant ----------------------------------------------------------

  /** Every block ever queued is in `history`, numbered from `isn`. The first block has
      number lastDataAck and the current one curr + 1. */
  ghost predicate Aligned(s: Sender, isn: int, history: seq<Payload>) {
    && isn <= s.lastDataAck <= s.lastAck <= s.curr + 1
    && s.lastDataAck - isn <= |history|
    && s.blocks == history[s.lastDataAck - isn..]
    && s.cursor == s.curr + 1 - s.lastDataAck <= |s.blocks|
  }

  /** Lost numbers are sent and not released; a number taken from the list was sent. */
  ghost predicate LossInside(s: Sender) {
    && (forall x :: x in s.loss ==> s.lastDataAck <= x <= s.curr)
    && (s.phase.Picked? ==> s.phase.num <= s.curr)
  }

  /** The largest number a full ACK has brought, locked or not. */
  function FullyAcked(s: Sender): int {
    if s.pendingAck.Some? then Max(s.lastDataAck, s.pendingAck.value) else s.lastDataAck
  }

  /** Flow control: neither the window nor the sent packets run further than `window`
      past what a full ACK has covered, and that is at most `window` past the first block. */
  ghost predicate InWindow(s: Sender, window: int) {
    && FullyAcked(s) <= s.lastAck
    && FullyAcked(s) <= s.lastDataAck + window
    && s.lastAck + s.flow <= FullyAcked(s) + window
    && s.curr + 1 <= FullyAcked(s) + window
    && (s.phase.WindowOpen? ==> s.curr + 2 <= FullyAcked(s) + window)
    && (FullyAcked(s) == s.lastAck ==> s.flow >= 2)
  }

  ghost predicate SenderInv(s: Sender, isn: int, window: int, history: seq<Payload>) {
    Aligned(s, isn, history) && LossInside(s) && InWindow(s, window)
  }

  /** An ACK that an honest receiver can have sent. */
  predicate HonestAck(s: Sender, ack: int, avail: int, window: int) {
    ack <= s.curr + 1 && 2 <= avail <= window
  }

  ghost predicate HonestNak(s: Sender, ranges: seq<Range>) {
    forall i :: 0 <= i < |ranges| ==> ranges[i].first <= ranges[i].last <= s.curr
  }

  lemma EnqueueKeeps(s: Sender, isn: int, window: int, history: seq<Payload>, data: Payload, mss: nat)
    requires SenderInv(s, isn, window, history) && mss > 0
    ensures SenderInv(Enqueue(s, data, mss), isn, window, history + Chunks(data, mss))
  {
    var more := Chunks(data, mss);
    hide Chunks;
    assert (history + more)[s.lastDataAck - isn..] == history[s.lastDataAck - isn..] + more;
  }

  lemma PickKeeps(s: Sender, isn: int, window: int, history: seq<Payload>)
    requires SenderInv(s, isn, window, history) && s.phase.Idle?
    ensures SenderInv(Pick(s), isn, window, history)
  {}

  /** A retransmission reads the payload first sent under that number, or nothing. */
  lemma RereadIsOriginal(s: Sender, isn: int, window: int, history: seq<Payload>)
    requires SenderInv(s, isn, window, history) && s.phase.Picked?
    ensures s.phase.num - s.lastDataAck < |s.blocks|
    ensures s.phase.num >= s.lastDataAck ==>
              s.phase.num - isn < |history| && Reread(s, s.phase.num) == Some(history[s.phase.num - isn])
    ensures SenderInv(s.(phase := Idle), isn, window, history)
  {}

  lemma CheckKeeps(s: Sender, isn: int, window: int, history: seq<Payload>, cwnd: int)
    requires SenderInv(s, isn, window, history) && s.phase.NoLoss?
    ensures SenderInv(s.(phase := if WindowAllows(s, cwnd) then WindowOpen else Idle), isn, window, history)
  {}

  lemma AdvanceKeeps(s: Sender, isn: int, window: int, history: seq<Payload>)
    requires SenderInv(s, isn, window, history) && s.phase.WindowOpen?
    ensures SenderInv(Advance(s), isn, window, history)
    ensures s.cursor < |s.blocks| ==> s.curr + 1 - isn < |history| && s.blocks[s.cursor] == history[s.curr + 1 - isn]
  {}

  lemma LiteAckKeeps(s: Sender, isn: int, window: int, history: seq<Payload>, ack: int)
    requires SenderInv(s, isn, window, history) && s.pendingAck.None? && ack <= s.curr + 1
    ensures SenderInv(TakeLiteAck(s, ack), isn, window, history)
  {}

  lemma AckKeeps(s: Sender, isn: int, window: int, history: seq<Payload>, ack: int, avail: int)
    requires SenderInv(s, isn, window, history) && s.pendingAck.None? && HonestAck(s, ack, avail, window)
    ensures SenderInv(TakeAck(s, ack, avail), isn, window, history)
    ensures TakeAck(s, ack, avail).broken == s.broken
    ensures FullyAcked(TakeAck(s, ack, avail)) == Max(FullyAcked(s), ack)
  {}

  lemma ReleaseKeeps(s: Sender, isn: int, window: int, history: seq<Payload>)
    requires SenderInv(s, isn, window, history) && s.pendingAck.Some?
    ensures Releasable(s, s.pendingAck.value)
    ensures SenderInv(ReleaseAck(s, s.pendingAck.value), isn, window, history)
    ensures FullyAcked(ReleaseAck(s, s.pendingAck.value)) == FullyAcked(s)
  {
    var ack := s.pendingAck.value;
    if ack > s.lastDataAck {
      assert s.blocks[ack - s.lastDataAck..] == history[ack - isn..];
    }
  }

  lemma {:induction false} NakKeeps(s: Sender, isn: int, window: int, history: seq<Payload>, ranges: seq<Range>)
    requires SenderInv(s, isn, window, history) && HonestNak(s, ranges)
    ensures SenderInv(TakeNak(s, ranges), isn, window, history)
    ensures TakeNak(s, ranges) == s.(loss := TakeNak(s, ranges).loss)
    decreases |ranges|
  {
    if ranges != [] {
      var r := ranges[0];
      var s1 := s.(loss := s.loss + Interval(Max(r.first, s.lastAck), r.last));
      assert r.first <= r.last <= s.curr;
      assert HonestNak(s1, ranges[1..]);
      NakKeeps(s1, isn, window, history, ranges[1..]);
    }
  }

  lemma ExpireKeeps(s: Sender, isn: int, window: int, history: seq<Payload>)
    requires SenderInv(s, isn, window, history)
    ensures SenderInv(Expire(s), isn, window, history)
  {}

  /** Every sent number from the last data ACK on has its block at its offset. */
  lemma BlockOf(s: Sender, isn: int, history: seq<Payload>, num: int)
    requires Aligned(s, isn, history) && s.lastDataAck <= num <= s.curr
    ensures num - s.lastDataAck < |s.blocks| && 0 <= num - isn < |history|
    ensures s.blocks[num - s.lastDataAck] == history[num - isn]
  {}

  // --- What the steps come to ---------------------------------------------

  /** What `packData` takes is lost, nothing lost lies before it, and all else stays lost;
      with nothing lost it takes nothing. */
  lemma PickTakes(s: Sender)
    ensures Pick(s) == s.(phase := Pick(s).phase, loss := Pick(s).loss)
    ensures s.loss == {} ==> Pick(s).phase == NoLoss && Pick(s).loss == {}
    ensures s.loss != {} ==>
              && Pick(s).phase.Picked? && Pick(s).phase.num in s.loss
              && (forall x :: x in s.loss ==> Pick(s).phase.num <= x)
              && (forall x :: x in Pick(s).loss <==> x in s.loss && x != Pick(s).phase.num)
  {}

  /** The window is open exactly when, with one more packet under way, those not acknowledged
      are no more than the flow window nor the congestion window. */
  lemma WindowExact(s: Sender, cwnd: int)
    ensures WindowAllows(s, cwnd) <==> (s.curr + 1) + 1 - s.lastAck <= s.flow && (s.curr + 1) + 1 - s.lastAck <= cwnd
  {}

  /** A light ACK leaves the end of the window where it is; an older one changes nothing. */
  lemma LiteAckEdge(s: Sender, ack: int)
    ensures var s1 := TakeLiteAck(s, ack);
            && s1 == s.(lastAck := s1.lastAck, flow := s1.flow)
            && s1.lastAck == Max(s.lastAck, ack) && s1.lastAck + s1.flow == s.lastAck + s.flow
  {}

  /** A full ACK that is not older moves the end of the window to what it advertises. One of
      a packet never sent breaks the connection and does nothing else. */
  lemma AckEdge(s: Sender, ack: int, avail: int)
    ensures var s1 := TakeAck(s, ack, avail);
            && s1 == s.(lastAck := s1.lastAck, flow := s1.flow, pendingAck := s1.pendingAck, broken := s1.broken)
            && (ack > s.curr + 1 ==> s1 == s.(broken := true))
            && (ack <= s.curr + 1 ==>
                  && s1.broken == s.broken && s1.pendingAck == Some(ack) && s1.lastAck == Max(s.lastAck, ack)
                  && s1.flow == if s.lastAck <= ack then avail else s.flow)
  {}

  /** Of the lost numbers an ACK takes exactly those it covers: the one it asks for stays. */
  lemma ReleaseSpares(s: Sender, ack: int)
    requires Releasable(s, ack) && forall x :: x in s.loss ==> s.lastDataAck <= x
    ensures var s1 := ReleaseAck(s, ack);
            && s1.lastDataAck == Max(s.lastDataAck, ack) && s1.pendingAck == None
            && (forall x :: x in s1.loss <==> x in s.loss && x >= s1.lastDataAck)
            && s1.lastDataAck + s1.cursor == s.lastDataAck + s.cursor
            && s1.lastDataAck + |s1.blocks| == s.lastDataAck + |s.blocks|
            && (forall k :: 0 <= k < |s1.blocks| ==> s1.blocks[k] == s.blocks[k + s1.lastDataAck - s.lastDataAck])
            && s1.lastAck == s.lastAck && s1.curr == s.curr && s1.flow == s.flow && s1.phase == s.phase
            && s1.broken == s.broken
  {}

  /** When the timer expires with nothing lost, all that is sent and not acknowledged is lost;
      otherwise nothing changes. */
  lemma ExpireLoses(s: Sender, isn: int, history: seq<Payload>)
    requires Aligned(s, isn, history)
    ensures var s1 := Expire(s);
            && s1 == s.(loss := s1.loss)
            && (s.loss != {} ==> s1 == s)
            && (s.loss == {} ==> forall x :: x in s1.loss <==> s.lastAck <= x <= s.curr)
  {
    hide Interval;
    if s.blocks == [] {
      assert s.curr + 1 == s.lastDataAck;
    }
  }
}
