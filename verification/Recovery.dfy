/** What becomes of a lost packet, of an ACK and of an advertised window, over whole runs: gaps
    are reported and the numbers stay on the sender's list until they are sent again or
    acknowledged, ACKs are confirmed, and the room an ACK advertises is there. A state that
    satisfies `Inv` may be any that is reached (Theorems.ReachableInv). */
module Recovery {
  import opened Bytes
  import opened Numbers
  import opened SendSide
  import opened ReceiveSide
  import opened LossReports
  import opened Connection
  import opened Theorems
  import Safety

  // --- Lost numbers ---------------------------------------------------------

  /** The sender has still to send this number again: it is lost, or just taken to be sent. */
  ghost predicate Owed(s: Sender, x: int) {
    x in s.loss || s.phase == Picked(x)
  }

  /** A report never takes a number off the list, whatever it names. */
  lemma {:induction false} NakGrows(s: Sender, ranges: seq<Range>)
    ensures s.loss <= TakeNak(s, ranges).loss && TakeNak(s, ranges).phase == s.phase
    ensures TakeNak(s, ranges).lastDataAck == s.lastDataAck
    decreases |ranges|
  {
    hide Interval;
    if ranges != [] {
      var r := ranges[0];
      NakGrows(s.(loss := s.loss + Interval(Max(r.first, s.lastAck), r.last)), ranges[1..]);
    }
  }

  /** No step forgets a lost number: it is still lost, or acknowledged, or the one just taken. */
  lemma LostKept(c: Config, st: State, step: Step, x: int)
    requires c.Valid() && Inv(c, st) && Enabled(st, step) && x in st.s.loss
    ensures Sound(st)
    ensures var s1 := Next(c, st, step).s;
            x in s1.loss || x < s1.lastDataAck || (step.PickLost? && s1.phase == Picked(x)) || st.s.phase == Picked(x)
  {
    hide Inv;
    InvSound(c, st);
    SenderKeeps(c, st, step);
    Safety.NextIs(c, st, step);
    hide Next, NextSender, Sound, Enabled;
  }

  /** What a step leaves of the sender: the data ACK never falls, nothing lost is forgotten, and
      a number taken stays taken until it is read again. */
  ghost predicate Keeps(s: Sender, s1: Sender, step: Step) {
    && s1.lastDataAck >= s.lastDataAck
    && (forall x :: x in s.loss ==> x in s1.loss || x < s1.lastDataAck || s1.phase == Picked(x))
    && (s.phase.Picked? && !step.Resend? ==> s1.phase == s.phase)
    && (s1.phase.Picked? ==> step.PickLost? || s1.phase == s.phase)
  }

  /** When each step is enabled, and what it makes of the sender. */
  lemma SenderIs(c: Config, st: State, step: Step)
    requires c.Valid() && Enabled(st, step) && Sound(st)
    ensures var s1 := NextSender(c, st, step);
            match step
            case PickLost => st.s.phase.Idle? && s1 == Pick(st.s)
            case Resend => st.s.phase.Picked? && s1 == st.s.(phase := Idle)
            case CheckWindow(cwnd) =>
              st.s.phase.NoLoss? && s1 == st.s.(phase := if WindowAllows(st.s, cwnd) then WindowOpen else Idle)
            case SendNew => st.s.phase.WindowOpen? && s1 == Advance(st.s)
            case DeliverLiteAck(ack) => s1 == TakeLiteAck(st.s, ack)
            case DeliverAck(_, ack, avail, _) => s1 == TakeAck(st.s, ack, avail)
            case LockAck =>
              && st.s.pendingAck.Some? && Releasable(st.s, st.s.pendingAck.value)
              && s1 == ReleaseAck(st.s, st.s.pendingAck.value)
            case DeliverNak(ranges) => s1 == TakeNak(st.s, ranges)
            case Timeout => s1 == SendSide.Expire(st.s)
            case AppSend(data) => c.mss > 0 && s1 == Enqueue(st.s, data, c.mss)
            case _ => s1 == st.s
  {
    hide Pick, ReleaseAck, TakeNak, SendSide.Expire, TakeAck, TakeLiteAck, Enqueue, WindowAllows, Advance, Releasable,
         ReadyToRead;
  }

  lemma SenderKeeps(c: Config, st: State, step: Step)
    requires Inv(c, st) && Enabled(st, step) && Sound(st)
    ensures Keeps(st.s, NextSender(c, st, step), step)
  {
    LostInside(c, st);
    SenderIs(c, st, step);
    hide *;
    match step
    case PickLost => PickKept(st.s);
    case Resend => ResendKept(st.s);
    case CheckWindow(cwnd) => CheckKept(st.s, cwnd, step);
    case SendNew => NewKept(st.s);
    case DeliverLiteAck(ack) => LiteAckKept(st.s, ack, step);
    case DeliverAck(_, ack, avail, _) => AckKept(st.s, ack, avail, step);
    case LockAck => LockKept(st.s, c.isn, c.Window(), st.history);
    case DeliverNak(ranges) => NakKept(st.s, ranges, step);
    case Timeout => TimeoutKept(st.s, c.isn, st.history, step);
    case AppSend(data) => QueueKept(st.s, data, c.mss, step);
    case _ => SameKept(st.s, st.s, step);
  }

  lemma SameKept(s: Sender, s1: Sender, step: Step)
    requires s.loss <= s1.loss && s1.phase == s.phase && s1.lastDataAck == s.lastDataAck
    ensures Keeps(s, s1, step)
  {}

  lemma LiteAckKept(s: Sender, ack: int, step: Step)
    ensures Keeps(s, TakeLiteAck(s, ack), step)
  {
    hide TakeLiteAck;
    LiteAckEdge(s, ack);
  }

  lemma AckKept(s: Sender, ack: int, avail: int, step: Step)
    ensures Keeps(s, TakeAck(s, ack, avail), step)
  {
    hide TakeAck;
    AckEdge(s, ack, avail);
  }

  lemma NakKept(s: Sender, ranges: seq<Range>, step: Step)
    ensures Keeps(s, TakeNak(s, ranges), step)
  {
    hide TakeNak;
    NakGrows(s, ranges);
  }

  lemma TimeoutKept(s: Sender, isn: int, history: seq<Payload>, step: Step)
    requires Aligned(s, isn, history)
    ensures Keeps(s, SendSide.Expire(s), step)
  {
    hide SendSide.Expire, Aligned;
    ExpireLoses(s, isn, history);
  }

  lemma PickKept(s: Sender)
    requires s.phase.Idle?
    ensures Keeps(s, Pick(s), Step.PickLost)
  {
    hide Pick;
    PickTakes(s);
  }

  lemma ResendKept(s: Sender)
    requires s.phase.Picked?
    ensures Keeps(s, s.(phase := Idle), Step.Resend)
  {}

  lemma CheckKept(s: Sender, cwnd: int, step: Step)
    requires s.phase.NoLoss?
    ensures Keeps(s, s.(phase := if WindowAllows(s, cwnd) then WindowOpen else Idle), step)
  {
    hide WindowAllows;
  }

  lemma NewKept(s: Sender)
    requires s.phase.WindowOpen?
    ensures Keeps(s, Advance(s), Step.SendNew)
  {}

  lemma LockKept(s: Sender, isn: int, window: int, history: seq<Payload>)
    requires SenderInv(s, isn, window, history) && s.pendingAck.Some?
    ensures Releasable(s, s.pendingAck.value) && Keeps(s, ReleaseAck(s, s.pendingAck.value), Step.LockAck)
  {
    ReleaseKeeps(s, isn, window, history);
    hide InWindow, Aligned, ReleaseAck, Releasable;
    ReleaseSpares(s, s.pendingAck.value);
  }

  lemma QueueKept(s: Sender, data: Payload, mss: nat, step: Step)
    requires mss > 0
    ensures Keeps(s, Enqueue(s, data, mss), step)
  {
    hide Chunks;
  }

  lemma LostInside(c: Config, st: State)
    requires Inv(c, st)
    ensures c.Valid() && c.mss > 0 && SenderInv(st.s, c.isn, c.Window(), st.history)
    ensures Aligned(st.s, c.isn, st.history) && forall x :: x in st.s.loss ==> st.s.lastDataAck <= x <= st.s.curr
  {
    Safety.InvParts(c, st);
    hide Inv, ReceiverInv, NetTruthful, Covered, Learned, Aligned, InWindow;
  }

  /** A number owed stays so until it is acknowledged or its first packet is sent once more. */
  lemma OwedStep(c: Config, st: State, step: Step, x: int)
    requires Inv(c, st) && Enabled(st, step) && Sound(st) && Owed(st.s, x)
    ensures x >= st.s.lastDataAck ==> 0 <= x - c.isn < |st.history|
    ensures var st1 := Next(c, st, step);
            && st1.s.lastDataAck >= st.s.lastDataAck
            && (Owed(st1.s, x) || x < st1.s.lastDataAck ||
                (x - c.isn < |st.history| && Data(x, st.history[x - c.isn]) in Sent(c, st, step)))
  {
    Safety.NextIs(c, st, step);
    LostInside(c, st);
    hide Inv, Sound, NextSender, Next;
    SenderKeeps(c, st, step);
    PickedHistory(c, st, x);
    if st.s.phase == Picked(x) && step.Resend? && x >= st.s.lastDataAck {
      ResendSends(c, st, x);
    }
  }

  lemma PickedHistory(c: Config, st: State, x: int)
    requires Inv(c, st) && Owed(st.s, x)
    ensures x >= st.s.lastDataAck ==> 0 <= x - c.isn < |st.history|
  {
    Safety.InvParts(c, st);
    hide Inv, ReceiverInv, NetTruthful, Covered, Learned, InWindow;
  }

  lemma ResendSends(c: Config, st: State, x: int)
    requires Inv(c, st) && Sound(st) && st.s.phase == Picked(x) && x >= st.s.lastDataAck
    requires 0 <= x - c.isn < |st.history|
    ensures Data(x, st.history[x - c.isn]) in Sent(c, st, Resend)
  {
    LostInside(c, st);
    hide *;
    RereadIsOriginal(st.s, c.isn, c.Window(), st.history);
    ResendSent(c, st);
  }

  lemma ResendSent(c: Config, st: State)
    requires Sound(st) && st.s.phase.Picked?
    ensures st.s.phase.num - st.s.lastDataAck < |st.s.blocks| && Enabled(st, Resend)
    ensures var p := Reread(st.s, st.s.phase.num); p.Some? ==> Data(st.s.phase.num, p.value) in Sent(c, st, Resend)
  {
    hide Reread, ReadyToRead, Releasable;
  }

  /** Some step of the run sends this datagram. */
  ghost predicate SentIn(c: Config, st: State, steps: seq<Step>, p: Packet)
    requires c.Valid() && Legal(c, st, steps)
    decreases |steps|
  {
    steps != [] && (p in Sent(c, st, steps[0]) || SentIn(c, Next(c, st, steps[0]), steps[1..], p))
  }

  /** Over any run a lost number is lost still, or acknowledged, or its packet has been sent
      again with the bytes it first carried. */
  lemma LostIsRepaired(c: Config, st: State, steps: seq<Step>, x: int)
    requires c.Valid() && Inv(c, st) && Legal(c, st, steps) && x in st.s.loss
    ensures 0 <= x - c.isn < |st.history|
    ensures var s1 := Final(c, st, steps).s;
            Owed(s1, x) || x < s1.lastDataAck || SentIn(c, st, steps, Data(x, st.history[x - c.isn]))
  {
    hide Inv, Legal, Final, SentIn;
    LostInside(c, st);
    PickedHistory(c, st, x);
    OwedRun(c, st, steps, x, st.history[x - c.isn]);
  }

  lemma {:induction false} OwedRun(c: Config, st: State, steps: seq<Step>, x: int, payload: Payload)
    requires c.Valid() && Inv(c, st) && Legal(c, st, steps) && (Owed(st.s, x) || x < st.s.lastDataAck)
    requires 0 <= x - c.isn < |st.history| && st.history[x - c.isn] == payload
    ensures var s1 := Final(c, st, steps).s;
            Owed(s1, x) || x < s1.lastDataAck || SentIn(c, st, steps, Data(x, payload))
    decreases |steps|
  {
    hide Inv, Next, Sound, Enabled, Owed, Sent;
    if steps != [] {
      var st1 := Next(c, st, steps[0]);
      Safety.InvStep(c, st, steps[0]);
      if Owed(st.s, x) {
        OwedStep(c, st, steps[0], x);
      } else {
        AckedStays(c, st, steps[0]);
      }
      SameHistory(c, st, steps[0], x - c.isn);
      if Owed(st1.s, x) || x < st1.s.lastDataAck {
        OwedRun(c, st1, steps[1..], x, payload);
      }
    }
  }

  lemma AckedStays(c: Config, st: State, step: Step)
    requires c.Valid() && Inv(c, st) && Enabled(st, step) && Sound(st)
    ensures Next(c, st, step).s.lastDataAck >= st.s.lastDataAck
  {
    hide Inv, Sound, NextSender;
    SenderKeeps(c, st, step);
    Safety.NextIs(c, st, step);
  }

  lemma SameHistory(c: Config, st: State, step: Step, k: int)
    requires c.Valid() && Enabled(st, step) && Sound(st) && 0 <= k < |st.history|
    ensures k < |Next(c, st, step).history| && Next(c, st, step).history[k] == st.history[k]
  {
    hide Sound, Enabled, Chunks;
    Safety.NextIs(c, st, step);
  }

  // --- Gaps -----------------------------------------------------------------

  /** The report of a gap before packet `num`. */
  function GapNak(r: Receiver, num: int): seq<Range> {
    [Range(r.curr + 1, num - 1)]
  }

  /** A packet that is stored makes lost exactly the numbers it leaps over, and a report of them
      goes out at once. */
  lemma GapReported(c: Config, st: State, step: Step, x: int)
    requires c.Valid() && Inv(c, st) && step.DeliverData? && Enabled(st, step)
    ensures Sound(st)
    ensures var st1 := Next(c, st, step);
            && (x in st1.r.loss && x !in st.r.loss ==>
                  st.r.curr < x < step.num && Nak(GapNak(st.r, step.num)) in st1.net)
            && (st.r.curr < x < step.num && step.num in st1.r.slots ==> x in st1.r.loss)
  {
    hide Inv;
    InvSound(c, st);
    GapStep(c, st, step.num, step.payload, x);
  }

  lemma GapStep(c: Config, st: State, num: int, payload: Payload, x: int)
    requires Inv(c, st) && Sound(st) && Data(num, payload) in st.net
    ensures var st1 := Next(c, st, DeliverData(num, payload));
            && st1.s == st.s
            && (x in st1.r.loss && x !in st.r.loss ==> st.r.curr < x < num && Nak(GapNak(st.r, num)) in st1.net)
            && (st.r.curr < x < num && num in st1.r.slots ==> x in st1.r.loss)
  {
    hide *;
    Safety.InvParts(c, st);
    DataNext(c, st, num, payload);
    GapStored(st.r, c.isn, c.bufSize, num, payload, x);
  }

  /** What the arrival of a packet does to the connection. */
  lemma DataNext(c: Config, st: State, num: int, payload: Payload)
    requires c.Valid() && Sound(st) && Data(num, payload) in st.net
    ensures Enabled(st, DeliverData(num, payload))
    ensures var st1 := Next(c, st, DeliverData(num, payload));
            && st1.s == st.s && st1.r == Store(st.r, c.bufSize, num, payload)
            && (Classify(st.r, c.bufSize, num) == Beyond ==> Nak(GapNak(st.r, num)) in st1.net)
  {
    hide Sound, Store, Classify, Config.Valid;
    Safety.NextIs(c, st, DeliverData(num, payload));
  }

  lemma GapStored(r: Receiver, isn: int, bufSize: nat, num: int, payload: Payload, x: int)
    requires ReceiverInv(r, isn, bufSize)
    ensures var r1 := Store(r, bufSize, num, payload);
            && (x in r1.loss && x !in r.loss ==> r.curr < x < num && Classify(r, bufSize, num) == Beyond)
            && (r.curr < x < num && num in r1.slots ==> x in r1.loss)
  {
    hide Fits, AcksKnown, Store, Classify;
    ClassifyExact(r, bufSize, num);
    StoreTakes(r, bufSize, num, payload);
    if r.lastAck <= num < r.start + bufSize - 1 && num !in r.slots {
      StoreNotes(r, bufSize, num, payload);
    }
  }

  /** When that report arrives, before anything else does, the sender has all of them lost. */
  lemma GapRepaired(c: Config, st: State, step: Step, nak: Step, x: int)
    requires c.Valid() && Inv(c, st) && step.DeliverData? && Enabled(st, step) && st.s.pendingAck.None?
    requires nak == DeliverNak(GapNak(st.r, step.num))
    ensures Sound(st)
    ensures x in Next(c, st, step).r.loss && x !in st.r.loss ==>
              && Sound(Next(c, st, step)) && Enabled(Next(c, st, step), nak)
              && x in Next(c, Next(c, st, step), nak).s.loss
  {
    hide *;
    InvSound(c, st);
    DeliveryOnNet(st, step);
    DataNext(c, st, step.num, step.payload);
    GapStep(c, st, step.num, step.payload, x);
    var st1 := Next(c, st, step);
    Safety.InvStep(c, st, step);
    InvSound(c, st1);
    if x in st1.r.loss && x !in st.r.loss {
      NakTaken(c, st1, st.r, step.num, x);
    }
  }

  lemma DeliveryOnNet(st: State, step: Step)
    requires step.DeliverData? && Enabled(st, step)
    ensures Data(step.num, step.payload) in st.net && step == DeliverData(step.num, step.payload)
  {}

  lemma NakTaken(c: Config, st: State, r: Receiver, num: int, x: int)
    requires c.Valid() && Inv(c, st) && Sound(st) && Nak(GapNak(r, num)) in st.net && st.s.pendingAck.None?
    requires r.curr < x < num && x in st.r.loss
    ensures Enabled(st, DeliverNak(GapNak(r, num))) && x in Next(c, st, DeliverNak(GapNak(r, num))).s.loss
  {
    Safety.InvParts(c, st);
    Safety.OnNet(c, st, Nak(GapNak(r, num)));
    hide Inv, Sound, SenderInv, ReceiverInv, NetTruthful, Learned, TakeNak, GapNak;
    GapTaken(st.s, r, num, x);
    Safety.NextIs(c, st, DeliverNak(GapNak(r, num)));
    hide Next, Enabled;
  }

  lemma GapTaken(s: Sender, r: Receiver, num: int, x: int)
    requires HonestNak(s, GapNak(r, num)) && r.curr < x < num && x >= s.lastAck
    ensures x in TakeNak(s, GapNak(r, num)).loss
  {
    OneNamed(r.curr + 1, num - 1);
    assert x in Named(GapNak(r, num));
    hide TakeNak, Named, HonestNak, GapNak, Interval;
    NakAddsUnacknowledged(s, GapNak(r, num));
  }

  lemma OneNamed(a: int, b: int)
    ensures Named([Range(a, b)]) == Interval(a, b)
  {
    NamedHead([Range(a, b)]);
    assert [Range(a, b)][1..] == [];
    hide Named;
  }

  // --- ACKs -----------------------------------------------------------------

  /** An ACK on the network that is remembered: taken, released and confirmed at once it leaves
      both ends agreed on its number, and of the lost numbers those it does not cover. */
  lemma AckConfirmed(c: Config, st: State, no: int, ack: int, avail: int)
    requires c.Valid() && Inv(c, st) && Ack(no, ack, avail) in st.net && st.s.pendingAck.None?
    requires exists i :: 0 <= i < |st.r.window| && st.r.window[i].no == no
    ensures var steps := [DeliverAck(no, ack, avail, true), LockAck, DeliverAck2(no, true)];
            Legal(c, st, steps) && Agreed(st, Final(c, st, steps), no, ack)
  {
    hide Inv, Final, Legal;
    var a, l, k := DeliverAck(no, ack, avail, true), LockAck, DeliverAck2(no, true);
    AckTaken(c, st, no, ack, avail);
    var st1 := Next(c, st, a);
    Safety.InvStep(c, st, a);
    AckLocked(c, st1);
    var st2 := Next(c, st1, l);
    Safety.InvStep(c, st1, l);
    ConfirmTaken(c, st2, no, ack);
    LostInside(c, st);
    hide Next, Enabled, Sound, SenderInv, Aligned;
    ThreeSteps(c, st, a, l, k);
  }

  /** Both ends have settled ACK `no` of the packets before `ack`. */
  ghost predicate Agreed(st: State, st1: State, no: int, ack: int) {
    && st1.s.lastAck == Max(st.s.lastAck, ack) && st1.s.lastDataAck == Max(st.s.lastDataAck, ack)
    && st1.r.lastAckAck == Max(st.r.lastAckAck, ack)
    && (forall x :: x in st1.s.loss <==> x in st.s.loss && x >= ack)
    && (forall i :: 0 <= i < |st1.r.window| ==> st1.r.window[i].no > no)
  }

  lemma ThreeSteps(c: Config, st: State, a: Step, b: Step, d: Step)
    requires c.Valid() && Sound(st) && Enabled(st, a)
    requires Sound(Next(c, st, a)) && Enabled(Next(c, st, a), b)
    requires Sound(Next(c, Next(c, st, a), b)) && Enabled(Next(c, Next(c, st, a), b), d)
    ensures Legal(c, st, [a, b, d]) && Final(c, st, [a, b, d]) == Next(c, Next(c, Next(c, st, a), b), d)
  {
    hide Next, Enabled, Sound, Config.Valid;
    var st1 := Next(c, st, a);
    var st2 := Next(c, st1, b);
    assert Legal(c, Next(c, st2, d), []);
    assert [d][1..] == [] && [b, d][1..] == [d] && [a, b, d][1..] == [b, d];
    assert Legal(c, st2, [d]) && Final(c, st2, [d]) == Next(c, st2, d);
    assert Legal(c, st1, [b, d]) && Final(c, st1, [b, d]) == Next(c, st2, d);
  }

  lemma AckTaken(c: Config, st: State, no: int, ack: int, avail: int)
    requires Inv(c, st) && Ack(no, ack, avail) in st.net && st.s.pendingAck.None?
    ensures Sound(st) && Enabled(st, DeliverAck(no, ack, avail, true))
    ensures var st1 := Next(c, st, DeliverAck(no, ack, avail, true));
            && st1.s.pendingAck == Some(ack) && st1.s.lastAck == Max(st.s.lastAck, ack)
            && st1.s.lastDataAck == st.s.lastDataAck && st1.s.loss == st.s.loss
            && Ack2(no) in st1.net && st1.r == st.r
    ensures forall i :: 0 <= i < |st.r.window| && st.r.window[i].no == no ==> st.r.window[i].ack == ack
  {
    InvSound(c, st);
    Safety.InvParts(c, st);
    Safety.OnNet(c, st, Ack(no, ack, avail));
    CoveredIsFirstMissing(st.r, ack);
    hide Inv, Sound, SenderInv, ReceiverInv, NetTruthful, TakeAck, FirstMissing;
    AckEdge(st.s, ack, avail);
    Safety.NextIs(c, st, DeliverAck(no, ack, avail, true));
  }

  lemma AckLocked(c: Config, st: State)
    requires Inv(c, st) && st.s.pendingAck.Some?
    ensures Sound(st) && Enabled(st, LockAck)
    ensures var st1, ack := Next(c, st, LockAck), st.s.pendingAck.value;
            && st1.s.lastDataAck == Max(st.s.lastDataAck, ack) && st1.s.lastAck == st.s.lastAck
            && (forall x :: x in st1.s.loss <==> x in st.s.loss && x >= st1.s.lastDataAck)
            && st1.r == st.r && st1.net == st.net
  {
    InvSound(c, st);
    LostInside(c, st);
    hide Inv, Sound, SenderInv, Aligned, ReleaseAck, Releasable, Config.Valid;
    ReleaseKeeps(st.s, c.isn, c.Window(), st.history);
    ReleaseSpares(st.s, st.s.pendingAck.value);
    LockNext(c, st);
  }

  lemma LockNext(c: Config, st: State)
    requires c.Valid() && Sound(st) && st.s.pendingAck.Some?
    ensures Releasable(st.s, st.s.pendingAck.value) && Enabled(st, LockAck)
    ensures var st1 := Next(c, st, LockAck);
            st1.s == ReleaseAck(st.s, st.s.pendingAck.value) && st1.r == st.r && st1.net == st.net
  {
    hide ReleaseAck, Releasable, ReadyToRead, Config.Valid;
    assert st.net - {} + {} == st.net;
  }

  lemma ConfirmTaken(c: Config, st: State, no: int, ack: int)
    requires Inv(c, st) && Ack2(no) in st.net
    requires exists i :: 0 <= i < |st.r.window| && st.r.window[i].no == no
    requires forall i :: 0 <= i < |st.r.window| && st.r.window[i].no == no ==> st.r.window[i].ack == ack
    ensures Sound(st) && Enabled(st, DeliverAck2(no, true))
    ensures var st1 := Next(c, st, DeliverAck2(no, true));
            && st1.s == st.s && st1.r.lastAckAck == Max(st.r.lastAckAck, ack)
            && (forall i :: 0 <= i < |st1.r.window| ==> st1.r.window[i].no > no)
  {
    InvSound(c, st);
    Safety.InvParts(c, st);
    hide *;
    RecordTaken(st.r, c.isn, c.bufSize, no, ack);
    ConfirmNext(c, st, no);
  }

  lemma ConfirmNext(c: Config, st: State, no: int)
    requires c.Valid() && Sound(st) && Ack2(no) in st.net
    ensures Enabled(st, DeliverAck2(no, true))
    ensures var st1 := Next(c, st, DeliverAck2(no, true)); st1.s == st.s && st1.r == TakeAck2(st.r, no, true)
  {
    hide Sound, TakeAck2, Config.Valid;
  }

  lemma RecordTaken(r: Receiver, isn: int, bufSize: nat, no: int, ack: int)
    requires ReceiverInv(r, isn, bufSize)
    requires exists i :: 0 <= i < |r.window| && r.window[i].no == no
    requires forall i :: 0 <= i < |r.window| && r.window[i].no == no ==> r.window[i].ack == ack
    ensures var r1 := TakeAck2(r, no, true);
            r1.lastAckAck == Max(r.lastAckAck, ack) && forall i :: 0 <= i < |r1.window| ==> r1.window[i].no > no
  {
    assert AcksKnown(r);
    hide ReceiverInv, TakeAck2;
    Ack2Exact(r, isn, bufSize, no, true);
  }

  // --- Windows --------------------------------------------------------------

  /** No ACK on the network advertises, beyond the minimum of 2, more slots than there are. */
  ghost predicate Roomy(c: Config, st: State) {
    forall no, ack, avail :: Ack(no, ack, avail) in st.net && avail > 2 ==> ack + avail <= st.r.start + c.bufSize - 1
  }

  lemma RoomStep(c: Config, st: State, step: Step)
    requires c.Valid() && Sound(st) && Enabled(st, step) && Roomy(c, st)
    ensures Roomy(c, Next(c, st, step))
  {
    Safety.NextIs(c, st, step);
    StartGrows(c, st, step);
    var st1 := Next(c, st, step);
    forall no, ack, avail | Ack(no, ack, avail) in st1.net && avail > 2
      ensures ack + avail <= st1.r.start + c.bufSize - 1
    {
      hide Next, NextReceiver, NextSender, Sound, Enabled, Sent;
      if Ack(no, ack, avail) !in st.net {
        AckAdvertises(c, st, step, no, ack, avail);
      }
    }
  }

  lemma StartGrows(c: Config, st: State, step: Step)
    requires c.Valid() && Sound(st) && Enabled(st, step)
    ensures NextReceiver(c, st, step).start >= st.r.start
  {
    hide Sound, Classify, AckDue, FirstMissing, Remember, IndexOf, Interval;
    match step
    case DeliverData(num, payload) => StoreShape(st.r, c.bufSize, num, payload);
    case _ =>
  }

  lemma AckAdvertises(c: Config, st: State, step: Step, no: int, ack: int, avail: int)
    requires c.Valid() && Sound(st) && Enabled(st, step) && Ack(no, ack, avail) in Sent(c, st, step)
    ensures avail > 2 ==> ack + avail == st.r.start + c.bufSize - 1
  {
    hide Sound, Classify, AckDue, FirstMissing, Remember, Reread;
  }

  lemma {:induction false} RoomRun(c: Config, st: State, steps: seq<Step>)
    requires c.Valid() && Roomy(c, st) && Legal(c, st, steps)
    ensures Roomy(c, Final(c, st, steps))
    decreases |steps|
  {
    hide Roomy, Next, Sound, Enabled;
    if steps != [] {
      RoomStep(c, st, steps[0]);
      RoomRun(c, Next(c, st, steps[0]), steps[1..]);
    }
  }

  /** The window an ACK advertises, beyond the minimum, is honoured: whenever that ACK is on the
      network, a packet that arrives from inside it is stored, unless it is already there or
      read. */
  lemma WindowHonoured(c: Config, st: State, step: Step, no: int, ack: int, avail: int)
    requires c.Valid() && Inv(c, st) && Roomy(c, st) && Ack(no, ack, avail) in st.net && avail > 2
    requires step.DeliverData? && Enabled(st, step) && step.num < ack + avail
    ensures Sound(st)
    ensures var r1 := Next(c, st, step).r; step.num < r1.start || step.num in r1.slots
  {
    hide Inv, Roomy;
    InvSound(c, st);
    InRoom(c, st, step, no, ack, avail);
  }

  /** Every reachable state has room. */
  lemma RoomThere(c: Config, st: State)
    requires c.Valid() && Reachable(c, st)
    ensures Roomy(c, st)
  {
    hide Legal, Final;
    var steps :| Legal(c, Init(c), steps) && Final(c, Init(c), steps) == st;
    assert Roomy(c, Init(c));
    RoomRun(c, Init(c), steps);
  }

  lemma InRoom(c: Config, st: State, step: Step, no: int, ack: int, avail: int)
    requires c.Valid() && Inv(c, st) && Sound(st) && Roomy(c, st) && Ack(no, ack, avail) in st.net && avail > 2
    requires step.DeliverData? && Enabled(st, step) && step.num < ack + avail
    ensures var r1 := Next(c, st, step).r; step.num < r1.start || step.num in r1.slots
  {
    Safety.InvParts(c, st);
    hide Inv, Sound, ReceiverInv, SenderInv, NetTruthful, Covered, Learned, Store;
    if step.num < st.r.lastAck {
      HeldBefore(st.r, c.isn, c.bufSize, step.num);
    }
    Safety.NextIs(c, st, step);
    StoreTakes(st.r, c.bufSize, step.num, step.payload);
    StoreShape(st.r, c.bufSize, step.num, step.payload);
  }

  lemma HeldBefore(r: Receiver, isn: int, bufSize: nat, num: int)
    requires ReceiverInv(r, isn, bufSize) && num < r.lastAck
    ensures num < r.start || num in r.slots
  {}
}
