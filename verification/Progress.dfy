/** No deadlock: from every state a connection can reach, even when everything in flight
    is lost, there is a way to go on after which all accepted bytes are delivered. */
module Progress {
  import opened Bytes
  import opened Numbers
  import opened SendSide
  import opened ReceiveSide
  import opened Connection
  import opened Theorems
  import Safety

  /** `st1` can follow `st` without the application sending more. */
  ghost predicate Follows(c: Config, st: State, st1: State)
    requires c.Valid()
  {
    && (exists steps :: Legal(c, st, steps) && Final(c, st, steps) == st1)
    && Inv(c, st1)
    && st1.history == st.history && st1.accepted == st.accepted
  }

  lemma FollowsTrans(c: Config, a: State, b: State, d: State)
    requires c.Valid() && Follows(c, a, b) && Follows(c, b, d)
    ensures Follows(c, a, d)
  {
    hide Inv, Legal, Final, Config.Valid;
    var s1 :| Legal(c, a, s1) && Final(c, a, s1) == b;
    var s2 :| Legal(c, b, s2) && Final(c, b, s2) == d;
    RunsCompose(c, a, s1, s2);
  }

  lemma FollowsSelf(c: Config, st: State)
    requires c.Valid() && Inv(c, st)
    ensures Follows(c, st, st)
  {
    hide Inv, Config.Valid;
    assert Legal(c, st, []) && Final(c, st, []) == st;
  }

  lemma Go(c: Config, st: State, step: Step)
    requires c.Valid() && Inv(c, st) && Enabled(st, step) && !step.AppSend?
    ensures Sound(st) && Follows(c, st, Next(c, st, step))
  {
    hide Inv, Enabled, Sound, NextSender, NextReceiver, Sent, ReadBytes, Config.Valid;
    Safety.InvStep(c, st, step);
    var st1 := Next(c, st, step);
    assert st1.history == st.history && st1.accepted == st.accepted;
    hide Next;
    assert Legal(c, st1, []);
    assert Legal(c, st, [step]) && Final(c, st, [step]) == st1;
  }

  // --- The sender ---------------------------------------------------------

  /** A sender between two packets with no ACK waiting. */
  ghost predicate Settled(s: Sender) {
    s.phase.Idle? && s.pendingAck.None?
  }

  lemma Settle(c: Config, st: State) returns (st1: State)
    requires c.Valid() && Inv(c, st)
    ensures Follows(c, st, st1) && Settled(st1.s) && st1.r == st.r
  {
    hide Follows, Inv, Legal, Final, Sent;
    FollowsSelf(c, st);
    st1 := st;
    if st1.s.pendingAck.Some? {
      Go(c, st, LockAck);
      st1 := Next(c, st, LockAck);
      FollowsInv(c, st, st1);
    }
    if !st1.s.phase.Idle? {
      var st2 := st1;
      var step := match st2.s.phase
        case Picked(_) => Resend
        case NoLoss => CheckWindow(0)
        case _ => SendNew;
      Go(c, st2, step);
      st1 := Next(c, st2, step);
      FollowsTrans(c, st, st2, st1);
      WindowShut(c, st2);
    }
  }

  lemma WindowShut(c: Config, st: State)
    requires Inv(c, st)
    ensures !WindowAllows(st.s, 0)
  {
    hide ReceiverInv, Agreement, NetTruthful, Stream;
  }

  /** Taking and sending the least lost number. */
  lemma SendLeast(c: Config, st: State) returns (st1: State)
    requires c.Valid() && Inv(c, st) && Settled(st.s) && st.s.loss != {}
    ensures Follows(c, st, st1) && st1.r == st.r && Settled(st1.s)
    ensures st1.s == st.s.(loss := st.s.loss - {Least(st.s.loss)})
    ensures exists p :: Data(Least(st.s.loss), p) in st1.net
  {
    var num := Least(st.s.loss);
    Go(c, st, PickLost);
    var st2 := Next(c, st, PickLost);
    Go(c, st2, Resend);
    st1 := Next(c, st2, Resend);
    FollowsTrans(c, st, st2, st1);
    assert num >= st.s.lastDataAck by {
      hide ReceiverInv, Agreement, NetTruthful, Stream;
    }
    hide Follows, Inv, Legal, Final, NextReceiver;
    assert st2.s.phase == Picked(num);
    assert Reread(st2.s, num).Some?;
    assert Data(num, Reread(st2.s, num).value) in st1.net;
  }

  /** A number on the loss list gets sent, after the smaller ones. */
  lemma SendLost(c: Config, st: State, num: int) returns (st1: State)
    requires c.Valid() && Inv(c, st) && Settled(st.s) && num in st.s.loss
    ensures Follows(c, st, st1) && st1.r == st.r
    ensures exists p :: Data(num, p) in st1.net
    decreases |st.s.loss|
  {
    hide Follows, Inv, Config.Valid;
    st1 := SendLeast(c, st);
    if Least(st.s.loss) != num {
      var st2 := st1;
      FollowsInv(c, st, st2);
      assert |st2.s.loss| == |st.s.loss| - 1;
      st1 := SendLost(c, st2, num);
      FollowsTrans(c, st, st2, st1);
    }
  }

  lemma FollowsInv(c: Config, st: State, st1: State)
    requires c.Valid() && Follows(c, st, st1)
    ensures Inv(c, st1) && st1.history == st.history
  {}

  /** The loss list runs empty if nothing is added to it. */
  lemma SendAllLost(c: Config, st: State) returns (st1: State)
    requires c.Valid() && Inv(c, st) && Settled(st.s)
    ensures Follows(c, st, st1) && st1.r == st.r && st1.s == st.s.(loss := {})
    decreases |st.s.loss|
  {
    hide Follows, Inv, Config.Valid;
    if st.s.loss == {} {
      FollowsSelf(c, st);
      st1 := st;
      assert st1.s == st.s.(loss := {});
    } else {
      var st2 := SendLeast(c, st);
      FollowsInv(c, st, st2);
      assert |st2.s.loss| == |st.s.loss| - 1;
      st1 := SendAllLost(c, st2);
      FollowsTrans(c, st, st2, st1);
    }
  }

  /** A sent number the receiver may still miss gets sent again. */
  lemma SendAgain(c: Config, st: State, num: int) returns (st1: State)
    requires c.Valid() && Inv(c, st) && Settled(st.s) && st.s.lastAck <= num <= st.s.curr
    ensures Follows(c, st, st1) && st1.r == st.r
    ensures exists p :: Data(num, p) in st1.net
  {
    hide Follows, Inv, Config.Valid, Settled, Enabled, Next;
    if num in st.s.loss {
      st1 := SendLost(c, st, num);
    } else {
      var st2 := SendAllLost(c, st);
      FollowsInv(c, st, st2);
      SentBlocks(c, st2, num);
      SettledKept(st.s, st2.s);
      var st3 := LoseAll(c, st2, num);
      FollowsInv(c, st2, st3);
      st1 := SendLost(c, st3, num);
      FollowsTrans(c, st, st2, st3);
      FollowsTrans(c, st, st3, st1);
    }
  }

  /** A sent number that is not acknowledged has a block. */
  lemma SentBlocks(c: Config, st: State, num: int)
    requires Inv(c, st) && st.s.lastAck <= num <= st.s.curr
    ensures st.s.blocks != []
  {
    hide ReceiverInv, Agreement, NetTruthful, Stream, LossInside, InWindow;
  }

  lemma SettledKept(s: Sender, s1: Sender)
    requires Settled(s) && s1.phase == s.phase && s1.pendingAck == s.pendingAck
    ensures Settled(s1)
  {}

  /** The timer puts everything unacknowledged on the empty loss list. */
  lemma LoseAll(c: Config, st: State, num: int) returns (st1: State)
    requires c.Valid() && Inv(c, st) && Settled(st.s) && st.s.loss == {} && st.s.blocks != []
    requires st.s.lastAck <= num <= st.s.curr
    ensures Follows(c, st, st1) && st1.r == st.r && Settled(st1.s) && num in st1.s.loss
  {
    hide Follows, Inv, Config.Valid, Sent, Sound;
    Go(c, st, Timeout);
    st1 := Next(c, st, Timeout);
  }

  // --- The receiver -------------------------------------------------------

  /** Everything received without a gap is acknowledged and read. */
  ghost predicate Drained(r: Receiver) {
    r.start == r.lastAck == FirstMissing(r) && r.notch == 0
  }

  lemma UnreadSome(units: seq<Payload>, notch: nat)
    requires Readable(units, notch) && units != [] && units[0] != []
    ensures notch < |Flatten(units)|
  {}

  lemma ConsumeAll(units: seq<Payload>, notch: nat)
    requires Readable(units, notch) && forall i :: 0 <= i < |units| ==> units[i] != []
    ensures var got := Consume(units, notch, |Flatten(units)|); got.used == |units| && got.notch == 0
  {
    hide Consume, Flatten;
    ConsumeTakes(units, notch, |Flatten(units)|);
    var got := Consume(units, notch, |Flatten(units)|);
    if got.used < |units| {
      UnreadSome(units[got.used..], got.notch);
    }
  }

  lemma ReadAll(r: Receiver, isn: int, bufSize: nat)
    requires ReceiverInv(r, isn, bufSize) && ReadyToRead(r)
    ensures var r1 := AfterRead(r, |Flatten(Units(r))|);
            r1 == r.(slots := r1.slots, start := r.lastAck, notch := 0)
  {
    assert forall i :: 0 <= i < |Units(r)| ==> Units(r)[i] != [];
    hide ReceiverInv, Consume, Flatten, AllStored, Readable;
    ConsumeAll(Units(r), r.notch);
  }

  lemma DrainRead(c: Config, st: State) returns (st1: State)
    requires c.Valid() && Inv(c, st) && st.r.lastAck == FirstMissing(st.r)
    ensures Follows(c, st, st1) && st1.s == st.s && Drained(st1.r)
    ensures st1.r.start == FirstMissing(st.r)
  {
    hide Follows, Inv, Config.Valid, Sound, Flatten, Sent, AfterRead, Units, AllStored, FirstMissing, ReceiverInv,
         ReadyToRead, NetTruthful, SenderInv, ReadBytes;
    Safety.InvParts(c, st);
    InvReady(st.r, c.isn, c.bufSize);
    ReadAll(st.r, c.isn, c.bufSize);
    var len := |Flatten(Units(st.r))|;
    Go(c, st, AppRecv(len));
    st1 := Next(c, st, AppRecv(len));
    SameMissing(st.r, st1.r);
  }

  /** What is acknowledged and what is received. */
  lemma AckedBelow(r: Receiver, isn: int, bufSize: nat)
    requires ReceiverInv(r, isn, bufSize)
    ensures r.lastAckAck <= r.lastAck <= FirstMissing(r) && r.start <= r.lastAck
  {
    hide Fits;
  }

  /** An ACK timer acknowledges all that is received. */
  lemma AckAll(c: Config, st: State) returns (st1: State)
    requires c.Valid() && Inv(c, st) && FirstMissing(st.r) > st.r.lastAck >= st.r.lastAckAck
    ensures Follows(c, st, st1) && st1.s == st.s
    ensures st1.r.lastAck == FirstMissing(st1.r) == FirstMissing(st.r)
  {
    hide Follows, Inv, Config.Valid, Sent, Sound, FirstMissing, Remember;
    Go(c, st, AckTimer(true));
    st1 := Next(c, st, AckTimer(true));
    SameMissing(st.r, st1.r);
  }

  lemma Drain(c: Config, st: State) returns (st1: State)
    requires c.Valid() && Inv(c, st)
    ensures Follows(c, st, st1) && st1.s == st.s && Drained(st1.r)
    ensures st.r.start <= st1.r.start == FirstMissing(st.r)
  {
    hide Follows, Inv, Config.Valid, Drained, FirstMissing, ReceiverInv, SenderInv, NetTruthful;
    Safety.InvParts(c, st);
    AckedBelow(st.r, c.isn, c.bufSize);
    if FirstMissing(st.r) > st.r.lastAck {
      var st2 := AckAll(c, st);
      FollowsInv(c, st, st2);
      st1 := DrainRead(c, st2);
      FollowsTrans(c, st, st2, st1);
    } else {
      st1 := DrainRead(c, st);
    }
  }

  // --- One more packet ----------------------------------------------------

  /** With everything received acknowledged, the sender can learn of it and find its
      window open: it is never left with a window too small and no ACK to come. */
  lemma LearnAck(c: Config, st: State, num: int) returns (st1: State)
    requires c.Valid() && Inv(c, st) && Settled(st.s) && Drained(st.r) && st.s.loss == {}
    requires num == st.s.curr + 1 == st.r.lastAck
    ensures Follows(c, st, st1) && Settled(st1.s) && Drained(st1.r) && st1.s.loss == {}
    ensures st1.r == st.r.(ackNo := st1.r.ackNo, window := st1.r.window)
    ensures st1.s.curr == st.s.curr && st1.s.lastAck == num && st1.s.flow >= 2
  {
    hide Follows, Legal, Final, Inv, Sent, NextSender, Enabled, Sound;
    AckedSoFar(c, st);
    if FullyAcked(st.s) == num {
      FollowsSelf(c, st);
      st1 := st;
    } else {
      var no, avail := st.r.ackNo + 1, Max(Avail(Acknowledge(st.r), c.bufSize), 2);
      AckEnabled(st);
      Go(c, st, AckTimer(true));
      var st2 := Next(c, st, AckTimer(true));
      AckOut(c, st, num);
      FollowsInv(c, st, st2);
      st1 := HearAck(c, st2, no, num, avail);
      FollowsTrans(c, st, st2, st1);
    }
  }

  /** What the sender has learned of what is received. */
  lemma AckedSoFar(c: Config, st: State)
    requires c.Valid() && Inv(c, st) && Drained(st.r) && st.s.curr + 1 == st.r.lastAck
    ensures st.r.lastAckAck <= FullyAcked(st.s) <= st.s.lastAck <= st.s.curr + 1
    ensures FullyAcked(st.s) == st.s.curr + 1 ==> st.s.flow >= 2
  {
    hide ReceiverInv, NetTruthful, Stream;
    assert Covered(st.r, st.s.lastAck);
  }

  lemma AckEnabled(st: State)
    ensures Enabled(st, AckTimer(true))
  {}

  /** An ACK timer sends the ACK, when the receiver has it to send. */
  lemma AckOut(c: Config, st: State, num: int)
    requires c.Valid() && Sound(st) && Drained(st.r) && num == st.s.curr + 1 == st.r.lastAck && st.r.lastAckAck < num
    ensures Enabled(st, AckTimer(true))
    ensures var st2 := Next(c, st, AckTimer(true));
            && Ack(st.r.ackNo + 1, num, Max(Avail(Acknowledge(st.r), c.bufSize), 2)) in st2.net
            && st2.s == st.s && st2.r == Acknowledge(st.r) && Drained(st2.r)
            && st2.r == st.r.(ackNo := st2.r.ackNo, window := st2.r.window)
  {
    hide Sound, Remember;
  }

  /** A full ACK for the next number to be sent, taken and released. */
  lemma HearAck(c: Config, st: State, no: int, num: int, avail: int) returns (st1: State)
    requires c.Valid() && Inv(c, st) && Settled(st.s) && st.s.loss == {}
    requires Ack(no, num, avail) in st.net && st.s.lastAck <= num == st.s.curr + 1
    requires FullyAcked(st.s) < num && avail >= 2
    ensures Follows(c, st, st1) && Settled(st1.s) && st1.r == st.r && st1.s.loss == {}
    ensures st1.s.curr == st.s.curr && st1.s.lastAck == num && st1.s.flow == avail
  {
    hide Follows, Inv, Config.Valid, Sent, NextReceiver;
    Go(c, st, DeliverAck(no, num, avail, false));
    var st2 := Next(c, st, DeliverAck(no, num, avail, false));
    FollowsInv(c, st, st2);
    Go(c, st2, LockAck);
    st1 := Next(c, st2, LockAck);
    FollowsTrans(c, st, st2, st1);
    ReceiverUntouched(c, st, DeliverAck(no, num, avail, false));
    ReceiverUntouched(c, st2, LockAck);
    assert st1.s.loss == {};
  }

  lemma ReceiverUntouched(c: Config, st: State, step: Step)
    requires c.Valid() && Sound(st) && Enabled(st, step)
    requires !step.DeliverData? && !step.AckTimer? && !step.DeliverAck2? && !step.AppRecv?
    ensures Next(c, st, step).r == st.r
  {}

  lemma OpenWindow(c: Config, st: State) returns (st1: State)
    requires c.Valid() && Inv(c, st) && Settled(st.s) && st.s.loss == {}
    requires st.s.lastAck == st.s.curr + 1 && st.s.flow >= 2
    ensures Follows(c, st, st1) && st1.r == st.r && st1.s == st.s.(phase := WindowOpen)
  {
    hide Follows, Inv, Config.Valid, NextReceiver;
    Go(c, st, PickLost);
    var st2 := Next(c, st, PickLost);
    FollowsInv(c, st, st2);
    var step := CheckWindow(st.s.flow);
    Go(c, st2, step);
    st1 := Next(c, st2, step);
    FollowsTrans(c, st, st2, st1);
    ReceiverUntouched(c, st, PickLost);
    ReceiverUntouched(c, st2, step);
  }

  lemma BlockWaiting(c: Config, st: State)
    requires Inv(c, st) && st.s.curr + 1 - c.isn < |st.history|
    ensures st.s.cursor < |st.s.blocks|
  {
    hide ReceiverInv, Agreement, NetTruthful, Stream;
  }

  /** A new packet can be sent when the window is open and a block is waiting. */
  lemma SendFresh(c: Config, st: State, num: int) returns (st1: State)
    requires c.Valid() && Inv(c, st) && Settled(st.s) && st.s.loss == {}
    requires st.s.lastAck == st.s.curr + 1 == num && st.s.flow >= 2 && num - c.isn < |st.history|
    ensures Follows(c, st, st1) && st1.r == st.r
    ensures exists p :: Data(num, p) in st1.net
  {
    hide Follows, Inv, Config.Valid, NextReceiver;
    BlockWaiting(c, st);
    var st2 := OpenWindow(c, st);
    FollowsInv(c, st, st2);
    Go(c, st2, SendNew);
    st1 := Next(c, st2, SendNew);
    FollowsTrans(c, st, st2, st1);
    ReceiverUntouched(c, st2, SendNew);
    assert Data(num, st.s.blocks[st.s.cursor]) in st1.net;
  }

  /** The first number the receiver misses gets on the network. */
  lemma SendMissing(c: Config, st: State) returns (st1: State)
    requires c.Valid() && Inv(c, st) && Settled(st.s) && Drained(st.r) && st.r.lastAck - c.isn < |st.history|
    ensures Follows(c, st, st1) && Drained(st1.r) && st1.r.start == st.r.start
    ensures exists p :: Data(st.r.lastAck, p) in st1.net
  {
    var num := st.r.lastAck;
    assert st.s.lastAck <= num <= st.s.curr + 1 by {
      assert Covered(st.r, st.s.lastAck);
      hide SenderInv, NetTruthful, Stream;
    }
    if num <= st.s.curr {
      st1 := SendAgain(c, st, num);
    } else {
      hide Follows, Inv, Config.Valid;
      var st2 := SendAllLost(c, st);
      FollowsInv(c, st, st2);
      var st3 := LearnAck(c, st2, num);
      FollowsInv(c, st2, st3);
      st1 := SendFresh(c, st3, num);
      FollowsTrans(c, st, st2, st3);
      FollowsTrans(c, st, st3, st1);
    }
  }

  /** The first missing packet, once it arrives, is stored and read. */
  lemma TakeMissing(c: Config, st: State) returns (st1: State)
    requires c.Valid() && Inv(c, st) && Drained(st.r)
    requires exists p :: Data(st.r.lastAck, p) in st.net
    ensures Follows(c, st, st1) && Drained(st1.r) && st1.r.start > st.r.start
  {
    var p :| Data(st.r.lastAck, p) in st.net;
    var step := DeliverData(st.r.lastAck, p);
    StoreAdvances(st.r, c.isn, c.bufSize, p);
    Go(c, st, step);
    hide Follows, Inv, NextSender, Sent, Store;
    var st2 := Next(c, st, step);
    FollowsInv(c, st, st2);
    st1 := Drain(c, st2);
    FollowsTrans(c, st, st2, st1);
  }

  lemma AllDelivered(c: Config, st: State)
    requires Inv(c, st) && Drained(st.r) && st.r.lastAck - c.isn == |st.history|
    ensures st.delivered == st.accepted
  {
    hide SenderInv, ReceiverInv, Agreement, NetTruthful;
    assert Units(st.r) == [];
    assert Unread([], 0) == [];
    hide Flatten, Units;
    assert st.history[..|st.history|] == st.history;
  }

  lemma LastAckBounded(c: Config, st: State)
    requires Inv(c, st)
    ensures c.isn <= st.r.lastAck <= c.isn + |st.history|
  {
    hide SenderInv, ReceiverInv, Agreement, NetTruthful, InStream;
  }

  /** Packet by packet, everything accepted gets delivered. */
  lemma DeliverRest(c: Config, st: State) returns (st1: State)
    requires c.Valid() && Inv(c, st) && Drained(st.r)
    ensures Follows(c, st, st1) && st1.delivered == st1.accepted
    decreases c.isn + |st.history| - st.r.lastAck
  {
    hide Inv, Follows;
    LastAckBounded(c, st);
    if st.r.lastAck - c.isn == |st.history| {
      FollowsSelf(c, st);
      AllDelivered(c, st);
      st1 := st;
    } else {
      var st2 := Settle(c, st);
      FollowsInv(c, st, st2);
      var st3 := SendMissing(c, st2);
      FollowsInv(c, st2, st3);
      var st4 := TakeMissing(c, st3);
      FollowsInv(c, st3, st4);
      LastAckBounded(c, st4);
      st1 := DeliverRest(c, st4);
      FollowsTrans(c, st, st2, st3);
      FollowsTrans(c, st, st3, st4);
      FollowsTrans(c, st, st4, st1);
    }
  }

  /** No deadlock: let the network lose all it holds in any reachable state; there still is
      a run from there, without further sends, after which all accepted bytes are delivered. */
  lemma NoDeadlock(c: Config, st: State)
    requires c.Valid() && Reachable(c, st)
    ensures Sound(st)
    ensures var emptied := Next(c, st, Lose(st.net));
            && emptied == st.(net := {})
            && exists steps :: && Legal(c, emptied, steps)
                               && Final(c, emptied, steps).accepted == st.accepted == Final(c, emptied, steps).delivered
  {
    hide Reachable, Inv, Legal, Final;
    ReachableInv(c, st);
    Go(c, st, Lose(st.net));
    var st1 := Next(c, st, Lose(st.net));
    EmptiedIs(c, st);
    FollowsInv(c, st, st1);
    var st2 := Drain(c, st1);
    FollowsInv(c, st1, st2);
    var st3 := DeliverRest(c, st2);
    FollowsTrans(c, st1, st2, st3);
  }

  lemma EmptiedIs(c: Config, st: State)
    requires c.Valid() && Sound(st)
    ensures Next(c, st, Lose(st.net)) == st.(net := {})
  {
    assert st.delivered + [] == st.delivered && st.accepted + [] == st.accepted && st.history + [] == st.history;
  }
}
