/** The invariant holds in every run, and what follows from it. */
module Safety {
  import opened Bytes
  import opened Numbers
  import opened SendSide
  import opened ReceiveSide
  import opened Connection

  lemma InvParts(c: Config, st: State)
    requires Inv(c, st)
    ensures c.Valid() && c.mss > 0 && SenderInv(st.s, c.isn, c.Window(), st.history) && !st.s.broken
    ensures ReceiverInv(st.r, c.isn, c.bufSize) && NetTruthful(c, st)
    ensures Covered(st.r, st.s.lastAck) && Learned(c, st)
  {
    hide SenderInv, ReceiverInv, NetTruthful, Covered, Learned, Stream;
  }

  lemma OnNet(c: Config, st: State, p: Packet)
    requires NetTruthful(c, st) && p in st.net
    ensures Truthful(c, st, p)
  {
    hide Truthful;
  }

  lemma NextIs(c: Config, st: State, step: Step)
    requires c.Valid() && Sound(st) && Enabled(st, step)
    ensures Next(c, st, step).s == NextSender(c, st, step) && Next(c, st, step).r == NextReceiver(c, st, step)
    ensures Next(c, st, step).net == (st.net - if step.Lose? then step.lost else {}) + Sent(c, st, step)
    ensures Next(c, st, step).history == if step.AppSend? then st.history + Chunks(step.data, c.mss) else st.history
  {
    hide NextSender, NextReceiver, Sent, Sound, Enabled, Chunks, ReadBytes, Config.Valid;
    assert st.history + [] == st.history;
  }

  /** What a step may make of the sender. */
  ghost predicate SenderFollows(c: Config, st: State, s1: Sender, h1: seq<Payload>) {
    && SenderInv(s1, c.isn, c.Window(), h1) && !s1.broken
    && st.s.curr <= s1.curr && FullyAcked(st.s) <= FullyAcked(s1)
    && Covered(st.r, s1.lastAck) && FullyAcked(s1) <= st.r.lastAck
  }

  /** A sender with the same ACK numbers. */
  lemma SameAcked(c: Config, st: State, s1: Sender, h1: seq<Payload>)
    requires SenderInv(s1, c.isn, c.Window(), h1) && st.s.curr <= s1.curr
    requires Covered(st.r, st.s.lastAck) && Learned(c, st) && !st.s.broken
    requires s1 == s1.(lastAck := st.s.lastAck, lastDataAck := st.s.lastDataAck, pendingAck := st.s.pendingAck,
                       broken := st.s.broken)
    ensures SenderFollows(c, st, s1, h1)
  {
    hide SenderInv, Covered;
  }

  /** The steps of sending. */
  lemma SendingStep(c: Config, st: State, step: Step)
    requires Inv(c, st) && Enabled(st, step) && Sound(st)
    requires step.AppSend? || step.PickLost? || step.Resend? || step.CheckWindow? || step.SendNew? || step.Timeout?
    ensures SenderFollows(c, st, NextSender(c, st, step),
                          if step.AppSend? then st.history + Chunks(step.data, c.mss) else st.history)
  {
    hide Inv, SenderInv, ReceiverInv, NetTruthful, Covered, Learned, Sound, Least, Interval, Chunks, SenderFollows,
         WindowAllows, Config.Valid;
    InvParts(c, st);
    var s, w, h := st.s, c.Window(), st.history;
    var s1, h1 := NextSender(c, st, step), if step.AppSend? then h + Chunks(step.data, c.mss) else h;
    match step {
      case AppSend(data) => EnqueueKeeps(s, c.isn, w, h, data, c.mss);
      case PickLost => PickKeeps(s, c.isn, w, h);
      case Resend => RereadIsOriginal(s, c.isn, w, h);
      case CheckWindow(cwnd) => CheckKeeps(s, c.isn, w, h, cwnd);
      case SendNew => AdvanceKeeps(s, c.isn, w, h);
      case Timeout => ExpireKeeps(s, c.isn, w, h);
    }
    SameAcked(c, st, s1, h1);
  }

  lemma LiteStep(c: Config, st: State, ack: int)
    requires Inv(c, st) && LiteAck(ack) in st.net && st.s.pendingAck.None?
    ensures SenderFollows(c, st, TakeLiteAck(st.s, ack), st.history)
  {
    hide Inv, SenderInv, ReceiverInv, NetTruthful, Config.Valid;
    InvParts(c, st);
    OnNet(c, st, LiteAck(ack));
    LiteAckKeeps(st.s, c.isn, c.Window(), st.history, ack);
  }

  lemma AckStep(c: Config, st: State, no: int, ack: int, avail: int)
    requires Inv(c, st) && Ack(no, ack, avail) in st.net && st.s.pendingAck.None?
    ensures SenderFollows(c, st, TakeAck(st.s, ack, avail), st.history) && ack <= FullyAcked(TakeAck(st.s, ack, avail))
  {
    hide Inv, SenderInv, ReceiverInv, NetTruthful, FullyAcked, Config.Valid;
    InvParts(c, st);
    OnNet(c, st, Ack(no, ack, avail));
    AckKeeps(st.s, c.isn, c.Window(), st.history, ack, avail);
  }

  lemma LockStep(c: Config, st: State)
    requires Inv(c, st) && Sound(st) && st.s.pendingAck.Some?
    ensures SenderFollows(c, st, ReleaseAck(st.s, st.s.pendingAck.value), st.history)
  {
    hide Inv, SenderInv, ReceiverInv, NetTruthful, FullyAcked, Covered, Config.Valid;
    InvParts(c, st);
    ReleaseKeeps(st.s, c.isn, c.Window(), st.history);
  }

  lemma NakStep(c: Config, st: State, ranges: seq<Range>)
    requires Inv(c, st) && Nak(ranges) in st.net
    ensures SenderFollows(c, st, TakeNak(st.s, ranges), st.history)
  {
    hide Inv, SenderInv, ReceiverInv, NetTruthful, Covered, Learned, Config.Valid;
    InvParts(c, st);
    OnNet(c, st, Nak(ranges));
    NakKeeps(st.s, c.isn, c.Window(), st.history, ranges);
    SameAcked(c, st, TakeNak(st.s, ranges), st.history);
  }

  lemma SenderFollowsNext(c: Config, st: State, step: Step)
    requires Inv(c, st) && Enabled(st, step) && Sound(st)
    ensures SenderFollows(c, st, NextSender(c, st, step),
                          if step.AppSend? then st.history + Chunks(step.data, c.mss) else st.history)
  {
    hide Inv, SenderFollows, SenderInv, ReceiverInv, NetTruthful, Covered, Learned, Sound, TakeAck, TakeLiteAck,
         ReleaseAck, TakeNak, Enqueue, Pick, WindowAllows, Advance, Expire, Chunks, Config.Valid;
    InvParts(c, st);
    match step {
      case DeliverLiteAck(ack) => LiteStep(c, st, ack);
      case DeliverAck(no, ack, avail, _) => AckStep(c, st, no, ack, avail);
      case LockAck => LockStep(c, st);
      case DeliverNak(ranges) => NakStep(c, st, ranges);
      case AppSend(_) => SendingStep(c, st, step);
      case PickLost => SendingStep(c, st, step);
      case Resend => SendingStep(c, st, step);
      case CheckWindow(_) => SendingStep(c, st, step);
      case SendNew => SendingStep(c, st, step);
      case Timeout => SendingStep(c, st, step);
      case _ => SameAcked(c, st, st.s, st.history);
    }
  }

  /** The sender never looks broken to itself: no honest ACK or loss report is refused. */
  lemma SenderStep(c: Config, st: State, step: Step)
    requires Inv(c, st) && Enabled(st, step) && Sound(st)
    ensures var st1 := Next(c, st, step);
            && SenderInv(st1.s, c.isn, c.Window(), st1.history) && !st1.s.broken
            && st.s.curr <= st1.s.curr && FullyAcked(st.s) <= FullyAcked(st1.s)
            && Covered(st.r, st1.s.lastAck) && FullyAcked(st1.s) <= st.r.lastAck
  {
    hide Inv, SenderInv, Covered, FullyAcked, Sound, Enabled, Next, NextSender, NextReceiver, Sent, Chunks;
    InvParts(c, st);
    NextIs(c, st, step);
    SenderFollowsNext(c, st, step);
  }

  /** Acknowledged history records only age out or are new. */
  ghost predicate RecordsGrow(r: Receiver, r1: Receiver) {
    r.ackNo <= r1.ackNo && r.lastAck <= r1.lastAck &&
    forall rec :: rec in r1.window ==> rec in r.window || rec.no > r.ackNo
  }

  lemma StoreGrows(r: Receiver, bufSize: nat, num: int, payload: Payload)
    ensures RecordsGrow(r, Store(r, bufSize, num, payload))
  {
    hide Classify, Interval;
  }

  lemma ReceiverStep(c: Config, st: State, step: Step)
    requires Inv(c, st) && Enabled(st, step) && Sound(st)
    ensures var r1 := NextReceiver(c, st, step);
            && ReceiverInv(r1, c.isn, c.bufSize)
            && RecordsGrow(st.r, r1)
            && (forall n :: Covered(st.r, n) ==> Covered(r1, n))
  {
    hide Inv, Sound, Store, AfterRead, Acknowledge, TakeAck2, ReceiverInv, RecordsGrow, Covered, NetTruthful, Truthful,
         AckDue, SenderInv, Learned;
    InvParts(c, st);
    RecordsSame(st.r);
    match step {
      case DeliverData(num, payload) => DataStep(c, st, num, payload);
      case AckTimer(due) => AckTimerStep(c, st);
      case DeliverAck2(no, measured) =>
        Ack2Keeps(st.r, c.isn, c.bufSize, no, measured);
        Ack2Grows(st.r, no, measured);
      case AppRecv(len) =>
        ReadKeeps(st.r, c.isn, c.bufSize, len);
        ReadGrows(st.r, len);
      case _ =>
    }
  }

  lemma RecordsSame(r: Receiver)
    ensures RecordsGrow(r, r)
  {}

  lemma DataStep(c: Config, st: State, num: int, payload: Payload)
    requires Inv(c, st) && Data(num, payload) in st.net
    ensures var r1 := Store(st.r, c.bufSize, num, payload);
            && ReceiverInv(r1, c.isn, c.bufSize) && RecordsGrow(st.r, r1)
            && (forall n :: Covered(st.r, n) ==> Covered(r1, n))
  {
    hide Stream, NetTruthful, SenderInv, ReceiverInv, Agreement, Store, Covered, RecordsGrow;
    OnNet(c, st, Data(num, payload));
    StoreKeeps(st.r, c.isn, c.bufSize, num, payload);
    HolesOf(st.r, c.isn, c.bufSize);
    StoreCovers(st.r, c.bufSize, num, payload);
    StoreGrows(st.r, c.bufSize, num, payload);
  }

  lemma AckTimerStep(c: Config, st: State)
    requires Inv(c, st)
    ensures var r1 := Acknowledge(st.r);
            && ReceiverInv(r1, c.isn, c.bufSize) && RecordsGrow(st.r, r1)
            && (forall n :: Covered(st.r, n) ==> Covered(r1, n))
  {
    hide Inv, SenderInv, Learned, NetTruthful, Acknowledge, Covered, RecordsGrow, ReceiverInv;
    InvParts(c, st);
    AcknowledgeKeeps(st.r, c.isn, c.bufSize);
    AckGrows(st.r, c.isn, c.bufSize);
  }

  lemma AckGrows(r: Receiver, isn: int, bufSize: nat)
    requires ReceiverInv(r, isn, bufSize)
    ensures RecordsGrow(r, Acknowledge(r))
  {
    hide Fits, AcksKnown;
  }

  lemma Ack2Grows(r: Receiver, no: int, measured: bool)
    ensures RecordsGrow(r, TakeAck2(r, no, measured))
    ensures forall n :: Covered(r, n) ==> Covered(TakeAck2(r, no, measured), n)
  {}

  lemma ReadGrows(r: Receiver, len: nat)
    requires ReadyToRead(r)
    ensures RecordsGrow(r, AfterRead(r, len)) && forall n :: Covered(r, n) ==> Covered(AfterRead(r, len), n)
  {
    hide ReadyToRead, Consume, Units;
  }

  lemma HolesOf(r: Receiver, isn: int, bufSize: nat)
    requires ReceiverInv(r, isn, bufSize)
    ensures Holes(r)
  {}

  /** What lets a datagram stay truthful while the endpoints move on. */
  ghost predicate Grows(st: State, st1: State) {
    && st.s.curr <= st1.s.curr
    && FullyAcked(st.s) <= FullyAcked(st1.s)
    && st.history <= st1.history
    && RecordsGrow(st.r, st1.r)
    && (forall n :: Covered(st.r, n) ==> Covered(st1.r, n))
  }

  lemma StaysTruthful(c: Config, st: State, st1: State, p: Packet)
    requires Grows(st, st1) && Truthful(c, st, p)
    ensures Truthful(c, st1, p)
  {
    hide Covered;
    if p.Ack? || p.Ack2? {
      forall i | 0 <= i < |st1.r.window| && st1.r.window[i].no == p.no
        ensures if p.Ack? then st1.r.window[i].ack == p.ack else st1.r.window[i].ack <= FullyAcked(st1.s)
      {
        assert st1.r.window[i] in st1.r.window;
        assert st1.r.window[i] in st.r.window;
      }
    }
  }

  /** The receiver learns only what was sent and what the sender confirmed. */
  lemma ReceiverLearns(c: Config, st: State, step: Step)
    requires Inv(c, st) && Enabled(st, step) && Sound(st)
    ensures Learned(c, st.(r := NextReceiver(c, st, step)))
  {
    hide Inv, Sound, SenderInv, ReceiverInv, Covered, NetTruthful, Truthful, Learned, Store, Acknowledge, AckDue,
         TakeAck2, AfterRead;
    InvParts(c, st);
    match step {
      case DeliverData(num, payload) =>
        OnNet(c, st, Data(num, payload));
        StoreLearns(c, st, num, payload);
      case AckTimer(due) => AckLearns(c, st);
      case DeliverAck2(no, measured) =>
        OnNet(c, st, Ack2(no));
        Ack2Learns(c, st, no, measured);
      case AppRecv(len) =>
        InvReady(st.r, c.isn, c.bufSize);
        ReadLearns(c, st, len);
      case _ => assert st.(r := st.r) == st;
    }
  }

  lemma StoreLearns(c: Config, st: State, num: int, payload: Payload)
    requires Learned(c, st) && Truthful(c, st, Data(num, payload))
    ensures Learned(c, st.(r := Store(st.r, c.bufSize, num, payload)))
  {
    hide Interval, FullyAcked, Avail;
  }

  lemma AckLearns(c: Config, st: State)
    requires Learned(c, st) && ReceiverInv(st.r, c.isn, c.bufSize)
    ensures Learned(c, st.(r := Acknowledge(st.r)))
  {
    hide FullyAcked, Remember, Fits, AcksKnown;
  }

  lemma Ack2Learns(c: Config, st: State, no: int, measured: bool)
    requires Learned(c, st) && Truthful(c, st, Ack2(no))
    ensures Learned(c, st.(r := TakeAck2(st.r, no, measured)))
  {
    hide FullyAcked;
  }

  lemma ReadLearns(c: Config, st: State, len: nat)
    requires Learned(c, st) && ReadyToRead(st.r)
    ensures Learned(c, st.(r := AfterRead(st.r, len)))
  {
    hide FullyAcked, Consume, ReadyToRead, Units;
  }

  lemma AgreementStep(c: Config, st: State, step: Step)
    requires Inv(c, st) && Enabled(st, step) && Sound(st)
    ensures Agreement(c, Next(c, st, step))
  {
    hide Inv, Sound, Enabled, NextSender, NextReceiver, Covered, SenderInv, ReceiverInv, Chunks, Sent, ReadBytes,
         FullyAcked;
    SenderStep(c, st, step);
    ReceiverStep(c, st, step);
    ReceiverLearns(c, st, step);
  }

  /** The steps that send a data packet. */
  lemma DataFrom(c: Config, st: State, step: Step, p: Packet)
    requires c.Valid() && Enabled(st, step) && Sound(st) && p in Sent(c, st, step) && p.Data?
    ensures step.Resend? || step.SendNew?
    ensures step.Resend? ==> st.s.phase == Picked(p.num) && p.num - st.s.lastDataAck < |st.s.blocks|
    ensures step.Resend? ==> Reread(st.s, p.num) == Some(p.payload)
    ensures step.SendNew? ==> st.s.cursor < |st.s.blocks| && p == Data(st.s.curr + 1, st.s.blocks[st.s.cursor])
  {
    hide Classify, FirstMissing, AckDue, Acknowledge, Avail, Reread;
  }

  lemma SentData(c: Config, st: State, step: Step, p: Packet)
    requires Inv(c, st) && Enabled(st, step) && Sound(st) && p in Sent(c, st, step) && p.Data?
    ensures Truthful(c, Next(c, st, step), p)
  {
    hide Inv, Sound, Enabled, Next, Sent, NextReceiver, ReceiverInv, NetTruthful, Covered, Learned, SenderInv,
         FullyAcked, Config.Valid;
    InvParts(c, st);
    NextIs(c, st, step);
    DataFrom(c, st, step, p);
    if step.Resend? {
      ReadAgain(st.s, c.isn, c.Window(), st.history, p.num, p.payload);
    } else {
      ReadFirst(st.s, c.isn, c.Window(), st.history);
    }
  }

  lemma ReadAgain(s: Sender, isn: int, window: int, history: seq<Payload>, num: int, payload: Payload)
    requires SenderInv(s, isn, window, history) && s.phase == Picked(num) && num - s.lastDataAck < |s.blocks|
    requires Reread(s, num) == Some(payload)
    ensures isn <= num <= s.curr && num - isn < |history| && payload == history[num - isn]
  {
    RereadIsOriginal(s, isn, window, history);
    hide InWindow;
  }

  lemma ReadFirst(s: Sender, isn: int, window: int, history: seq<Payload>)
    requires SenderInv(s, isn, window, history) && s.cursor < |s.blocks|
    ensures isn <= s.curr + 1 && s.curr + 1 - isn < |history| && s.blocks[s.cursor] == history[s.curr + 1 - isn]
    ensures Advance(s).curr == s.curr + 1
  {
    hide InWindow, LossInside;
  }

  /** The steps that send a loss report. */
  lemma NakFrom(c: Config, st: State, step: Step, p: Packet)
    requires c.Valid() && Enabled(st, step) && Sound(st) && p in Sent(c, st, step) && p.Nak?
    ensures step.DeliverData? || step.ReportLoss?
    ensures step.DeliverData? ==>
              && Data(step.num, step.payload) in st.net
              && step.num > st.r.curr + 1 && p.ranges == [Range(st.r.curr + 1, step.num - 1)]
    ensures step.ReportLoss? ==> forall i :: 0 <= i < |p.ranges| ==> LostRange(st.r, p.ranges[i])
    ensures NextSender(c, st, step) == st.s
  {
    hide FirstMissing, AckDue, Acknowledge, Avail, Reread, LostRange;
  }

  lemma LostSent(r: Receiver, isn: int, bufSize: nat, range: Range)
    requires ReceiverInv(r, isn, bufSize) && LostRange(r, range)
    ensures range.first <= range.last <= r.curr
  {
    hide Interval, Fits, AcksKnown;
    assert range.last in Interval(range.first, range.last);
  }

  /** A loss report names only numbers that were sent. */
  lemma ReportHonest(c: Config, st: State, step: Step, p: Packet)
    requires Inv(c, st) && Enabled(st, step) && Sound(st) && p in Sent(c, st, step) && p.Nak?
    ensures HonestNak(st.s, p.ranges)
  {
    hide Inv, Enabled, Sound, Sent, NextSender, SenderInv, ReceiverInv, NetTruthful, Covered, LostRange;
    InvParts(c, st);
    NakFrom(c, st, step, p);
    if step.DeliverData? {
      OnNet(c, st, Data(step.num, step.payload));
    } else {
      forall i | 0 <= i < |p.ranges| ensures p.ranges[i].first <= p.ranges[i].last <= st.s.curr {
        LostSent(st.r, c.isn, c.bufSize, p.ranges[i]);
      }
    }
  }

  lemma SentNak(c: Config, st: State, step: Step, p: Packet)
    requires Inv(c, st) && Enabled(st, step) && Sound(st) && p in Sent(c, st, step) && p.Nak?
    ensures Truthful(c, Next(c, st, step), p)
  {
    hide Inv, Enabled, Sound, Sent, Next, NextSender, NextReceiver, SenderInv, ReceiverInv, NetTruthful, Covered,
         Learned;
    InvParts(c, st);
    NextIs(c, st, step);
    NakFrom(c, st, step, p);
    ReportHonest(c, st, step, p);
  }

  /** The step that sends a full ACK. */
  lemma AckFrom(c: Config, st: State, step: Step, p: Packet)
    requires c.Valid() && Enabled(st, step) && Sound(st) && p in Sent(c, st, step) && p.Ack?
    ensures step.AckTimer? && NextReceiver(c, st, step) == Acknowledge(st.r) && NextSender(c, st, step) == st.s
    ensures FirstMissing(st.r) > st.r.lastAckAck
    ensures p == Ack(st.r.ackNo + 1, FirstMissing(st.r), Max(Avail(Acknowledge(st.r), c.bufSize), 2))
  {
    hide Classify, FirstMissing, AckDue, Acknowledge, Avail, Reread;
  }

  /** A full ACK covers what is stored, carries a usable window, and has its own record. */
  lemma SentAck(c: Config, st: State, step: Step, p: Packet)
    requires Inv(c, st) && Enabled(st, step) && Sound(st) && p in Sent(c, st, step) && p.Ack?
    ensures Truthful(c, Next(c, st, step), p)
  {
    hide Inv, Sound, Enabled, Next, Sent, NextReceiver, NextSender, ReceiverInv, NetTruthful, Learned, SenderInv,
         Acknowledge, Avail, FirstMissing, Covered;
    InvParts(c, st);
    NextIs(c, st, step);
    AckFrom(c, st, step, p);
    AckSays(st.r, c.isn, c.bufSize);
    AckWindowFits(c, st.r);
  }

  /** What the receiver is once it has sent a full ACK. */
  lemma AckSays(r: Receiver, isn: int, bufSize: nat)
    requires ReceiverInv(r, isn, bufSize) && FirstMissing(r) > r.lastAckAck
    ensures var r1, ack := Acknowledge(r), FirstMissing(r);
            && Covered(r1, ack) && r1.lastAck == ack && r1.ackNo == r.ackNo + 1
            && (forall i :: 0 <= i < |r1.window| && r1.window[i].no == r.ackNo + 1 ==> r1.window[i].ack == ack)
  {
    hide Fits;
  }

  lemma AckWindowFits(c: Config, r: Receiver)
    requires ReceiverInv(r, c.isn, c.bufSize) && c.Valid()
    ensures 2 <= Max(Avail(Acknowledge(r), c.bufSize), 2) <= c.Window()
  {
    hide ReceiverInv, Acknowledge;
    AcknowledgeKeeps(r, c.isn, c.bufSize);
    InvReady(Acknowledge(r), c.isn, c.bufSize);
  }

  /** The step that sends an ACK of an ACK. */
  lemma Ack2From(c: Config, st: State, step: Step, p: Packet)
    requires c.Valid() && Enabled(st, step) && Sound(st) && p in Sent(c, st, step) && p.Ack2?
    ensures step.DeliverAck? && p == Ack2(step.no) && Ack(step.no, step.ack, step.avail) in st.net
    ensures NextReceiver(c, st, step) == st.r && NextSender(c, st, step) == TakeAck(st.s, step.ack, step.avail)
  {
    hide Classify, FirstMissing, AckDue, Acknowledge, Avail, Reread, TakeAck;
  }

  /** An ACK of an ACK answers an ACK that was on the network. */
  lemma SentAck2(c: Config, st: State, step: Step, p: Packet)
    requires Inv(c, st) && Enabled(st, step) && Sound(st) && p in Sent(c, st, step) && p.Ack2?
    ensures Truthful(c, Next(c, st, step), p)
  {
    hide Inv, Sound, Next, Sent, NextReceiver, NextSender, ReceiverInv, NetTruthful, Learned, SenderInv, Covered,
         FullyAcked, TakeAck;
    InvParts(c, st);
    NextIs(c, st, step);
    Ack2From(c, st, step, p);
    OnNet(c, st, Ack(step.no, step.ack, step.avail));
    AckStep(c, st, step.no, step.ack, step.avail);
  }

  /** The step that sends a light ACK. */
  lemma LiteFrom(c: Config, st: State, step: Step, p: Packet)
    requires c.Valid() && Enabled(st, step) && Sound(st) && p in Sent(c, st, step) && p.LiteAck?
    ensures p == LiteAck(FirstMissing(st.r)) && NextReceiver(c, st, step) == st.r
  {
    hide Classify, FirstMissing, AckDue, Acknowledge, Avail, Reread;
  }

  lemma FirstCovered(r: Receiver, isn: int, bufSize: nat)
    requires ReceiverInv(r, isn, bufSize)
    ensures Covered(r, FirstMissing(r))
  {
    hide Fits, AcksKnown;
  }

  lemma SentLite(c: Config, st: State, step: Step, p: Packet)
    requires Inv(c, st) && Enabled(st, step) && Sound(st) && p in Sent(c, st, step) && p.LiteAck?
    ensures Truthful(c, Next(c, st, step), p)
  {
    hide Inv, Enabled, Sound, Sent, Next, NextSender, NextReceiver, SenderInv, ReceiverInv, NetTruthful, Covered,
         Learned, FirstMissing;
    InvParts(c, st);
    NextIs(c, st, step);
    LiteFrom(c, st, step, p);
    FirstCovered(st.r, c.isn, c.bufSize);
  }

  lemma SentTruthful(c: Config, st: State, step: Step, p: Packet)
    requires Inv(c, st) && Enabled(st, step) && Sound(st) && p in Sent(c, st, step)
    ensures Truthful(c, Next(c, st, step), p)
  {
    hide Inv, Enabled, Sound, Sent, Next, Truthful;
    match p {
      case Data(_, _) => SentData(c, st, step, p);
      case Ack(_, _, _) => SentAck(c, st, step, p);
      case Nak(_) => SentNak(c, st, step, p);
      case Ack2(_) => SentAck2(c, st, step, p);
      case LiteAck(_) => SentLite(c, st, step, p);
    }
  }

  lemma StateGrows(c: Config, st: State, step: Step)
    requires Inv(c, st) && Enabled(st, step) && Sound(st)
    ensures Grows(st, Next(c, st, step))
  {
    hide Inv, SenderInv, ReceiverInv, Sent, Next, NextSender, NextReceiver, Enabled, Sound, RecordsGrow, Covered,
         FullyAcked, Chunks;
    InvParts(c, st);
    NextIs(c, st, step);
    SenderStep(c, st, step);
    ReceiverStep(c, st, step);
  }

  lemma NetStep(c: Config, st: State, step: Step)
    requires Inv(c, st) && Enabled(st, step) && Sound(st)
    ensures NetTruthful(c, Next(c, st, step))
  {
    hide Inv, Truthful, SenderInv, ReceiverInv, Sent, Next, NextSender, NextReceiver, Enabled, Sound, RecordsGrow,
         Covered, FullyAcked, Grows, Learned;
    InvParts(c, st);
    NextIs(c, st, step);
    StateGrows(c, st, step);
    var st1 := Next(c, st, step);
    forall p | p in st1.net ensures Truthful(c, st1, p) {
      if p in Sent(c, st, step) {
        SentTruthful(c, st, step, p);
      } else {
        StaysTruthful(c, st, st1, p);
      }
    }
  }

  /** Storing packets and hearing ACK2s does not disturb what is ready to be read. */
  lemma SameUnits(r: Receiver, r1: Receiver)
    requires ReadyToRead(r)
    requires r1.start == r.start && r1.lastAck == r.lastAck && r1.notch == r.notch
    requires forall n :: n in r.slots ==> n in r1.slots && r1.slots[n] == r.slots[n]
    ensures ReadyToRead(r1) && Units(r1) == Units(r)
  {
    assert AllStored(r1);
    assert Units(r1) == Units(r);
  }

  lemma UnitsAreHistory(r: Receiver, isn: int, history: seq<Payload>)
    requires AllStored(r) && isn <= r.start && r.lastAck - isn <= |history|
    requires forall n :: n in r.slots ==> 0 <= n - isn < |history| && r.slots[n] == history[n - isn]
    ensures Units(r) == history[r.start - isn..r.lastAck - isn]
  {}

  /** A full ACK moves only the acknowledged number, and not past what is there. */
  lemma AckShape(r: Receiver, isn: int, bufSize: nat)
    requires ReceiverInv(r, isn, bufSize)
    ensures var r1 := Acknowledge(r);
            && ReceiverInv(r1, isn, bufSize) && r1.start == r.start && r1.slots == r.slots && r1.notch == r.notch
            && isn <= r.start <= r.lastAck <= r1.lastAck <= r.curr + 1
  {
    AcknowledgeKeeps(r, isn, bufSize);
    hide AcksKnown, Fits;
  }

  lemma SlicesJoin<T>(s: seq<T>, a: nat, b: nat, c: nat)
    requires a <= b <= c <= |s|
    ensures s[a..c] == s[a..b] + s[b..c]
  {}

  /** An ACK makes exactly the packets between the two acknowledged numbers readable. */
  lemma AckUnits(r: Receiver, isn: int, bufSize: nat, history: seq<Payload>)
    requires ReceiverInv(r, isn, bufSize) && AllStored(r) && r.curr + 1 - isn <= |history|
    requires forall n :: n in r.slots ==> 0 <= n - isn < |history| && r.slots[n] == history[n - isn]
    ensures var r1, k, k1 := Acknowledge(r), r.lastAck - isn, Acknowledge(r).lastAck - isn;
            && r1.notch == r.notch && ReadyToRead(r1)
            && 0 <= k <= k1 <= |history|
            && Units(r1) == Units(r) + history[k..k1]
  {
    hide Acknowledge, Units, Readable, ReceiverInv, AllStored;
    var r1 := Acknowledge(r);
    AckShape(r, isn, bufSize);
    InvReady(r1, isn, bufSize);
    UnitsAreHistory(r, isn, history);
    UnitsAreHistory(r1, isn, history);
    SlicesJoin(history, r.start - isn, r.lastAck - isn, r1.lastAck - isn);
  }

  lemma ReceivedIsQueued(c: Config, st: State)
    requires Inv(c, st)
    ensures st.r.curr + 1 - c.isn <= |st.history|
    ensures forall n :: n in st.r.slots ==> 0 <= n - c.isn < |st.history| && st.r.slots[n] == st.history[n - c.isn]
  {
    hide ReceiverInv, Stream, NetTruthful, LossInside, InWindow;
  }

  lemma AckStream(c: Config, st: State)
    requires Inv(c, st) && Sound(st)
    ensures Stream(c, st.(r := Acknowledge(st.r)))
  {
    hide Acknowledge, Units, Readable, ReceiverInv, SenderInv, NetTruthful, Agreement, InStream, AllStored;
    ReceivedIsQueued(c, st);
    AckUnits(st.r, c.isn, c.bufSize, st.history);
    var h, k, k1 := st.history, st.r.lastAck - c.isn, Acknowledge(st.r).lastAck - c.isn;
    StreamGrows(Units(st.r), st.r.notch, st.delivered, h[..k], h[k..k1]);
    assert h[..k1] == h[..k] + h[k..k1];
  }

  lemma ReadStream(c: Config, st: State, len: nat)
    requires Inv(c, st) && Sound(st)
    ensures Stream(c, st.(r := AfterRead(st.r, len), delivered := st.delivered + ReadBytes(st.r, len)))
  {
    hide ReceiverInv, SenderInv, Agreement, NetTruthful, Units, Consume, InStream, AllStored, Readable;
    ReadKeeps(st.r, c.isn, c.bufSize, len);
    InvReady(AfterRead(st.r, len), c.isn, c.bufSize);
    StreamRead(Units(st.r), st.r.notch, st.delivered, st.history[..st.r.lastAck - c.isn], len);
  }

  lemma SendStream(c: Config, st: State, data: Payload)
    requires Inv(c, st)
    ensures Stream(c, st.(history := st.history + Chunks(data, c.mss), accepted := st.accepted + data))
    ensures forall p :: p in Chunks(data, c.mss) ==> p != []
  {
    hide ReceiverInv, SenderInv, Agreement, NetTruthful, Chunks, Units, Flatten, InStream, ReadyToRead;
    ChunksRoundTrip(data, c.mss);
    var more := Chunks(data, c.mss);
    FlattenAppend(st.history, more);
    assert (st.history + more)[..st.r.lastAck - c.isn] == st.history[..st.r.lastAck - c.isn];
  }

  lemma StreamStep(c: Config, st: State, step: Step)
    requires Inv(c, st) && Enabled(st, step) && Sound(st)
    ensures Stream(c, Next(c, st, step))
  {
    hide SenderInv, ReceiverInv, Agreement, NetTruthful, Units, Flatten, InStream, ReadyToRead, Acknowledge,
         NextSender, Sent,
         AfterRead, ReadBytes, Chunks, AckDue, Interval, Enabled;
    var st1 := Next(c, st, step);
    assert st.delivered + [] == st.delivered && st.accepted + [] == st.accepted && st.history + [] == st.history;
    if step.AppSend? {
      SendStream(c, st, step.data);
    } else if step.AppRecv? {
      ReadStream(c, st, step.len);
    } else if step.AckTimer? && AckDue(st.r, step.due) {
      AckStream(c, st);
    } else {
      SameUnits(st.r, st1.r);
    }
  }

  lemma HistoryStep(c: Config, st: State, step: Step)
    requires Inv(c, st) && Enabled(st, step) && Sound(st)
    ensures forall k :: 0 <= k < |Next(c, st, step).history| ==> Next(c, st, step).history[k] != []
  {
    hide ReceiverInv, SenderInv, Agreement, NetTruthful, Stream, NextSender, NextReceiver, Sent, Chunks, ReadBytes;
    if step.AppSend? {
      SendStream(c, st, step.data);
      var more := Chunks(step.data, c.mss);
      assert forall k :: 0 <= k < |more| ==> more[k] in more;
    }
  }

  lemma InvStep(c: Config, st: State, step: Step)
    requires Inv(c, st) && Enabled(st, step)
    ensures Sound(st) && Inv(c, Next(c, st, step))
  {
    InvSound(c, st);
    SenderStep(c, st, step);
    ReceiverStep(c, st, step);
    AgreementStep(c, st, step);
    NetStep(c, st, step);
    StreamStep(c, st, step);
    hide Sound, Enabled, SenderInv, ReceiverInv, Agreement, NetTruthful, Stream, Covered, NextSender, Sent,
         ReadBytes, Chunks;
    var st1 := Next(c, st, step);
    HistoryStep(c, st, step);
  }

  lemma {:induction false} InvRun(c: Config, st: State, steps: seq<Step>)
    requires c.Valid() && Inv(c, st) && Legal(c, st, steps)
    ensures Inv(c, Final(c, st, steps))
    decreases |steps|
  {
    hide Inv, Next, Sound, Enabled;
    if steps != [] {
      InvStep(c, st, steps[0]);
      InvRun(c, Next(c, st, steps[0]), steps[1..]);
    }
  }
}
