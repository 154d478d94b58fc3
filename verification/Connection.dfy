/** One direction of an established stream connection: a sending endpoint, a receiving
    endpoint, and a network that keeps every datagram until it chooses to lose it, so
    that it can also duplicate, delay and reorder. Sequence numbers are unbounded here;
    module SequenceNumbers relates them to the wrapping ones. */
module Connection {
  import opened Bytes
  import opened Numbers
  import opened SendSide
  import opened ReceiveSide

  /** What the handshake settles: the initial sequence number, the payload size, and the
      receiver's buffer and flight flag sizes. */
  datatype Config = Config(isn: nat, mss: nat, bufSize: nat, flightFlag: nat) {
    predicate Valid() {
      mss > 0 && 2 <= bufSize <= flightFlag
    }

    /** The flow window the sender starts with. */
    function Window(): int {
      Min(bufSize, flightFlag)
    }
  }

  datatype Packet =
    | Data(num: int, payload: Payload)
    | LiteAck(ack: int)
    | Ack(no: int, ack: int, avail: int)
    | Ack2(no: int)
    | Nak(ranges: seq<Range>)

  /** `history` is every packet the sender ever queued: its k-th has number isn + k.
      `accepted` and `delivered` are the bytes taken by send and returned by recv. */
  datatype State = State(
    s: Sender, r: Receiver, net: set<Packet>,
    history: seq<Payload>, accepted: Payload, delivered: Payload)

  datatype Step =
    | AppSend(data: Payload)
    | PickLost
    | Resend
    | CheckWindow(cwnd: int)
    | SendNew
    | DeliverLiteAck(ack: int)
    | DeliverAck(no: int, ack: int, avail: int, reply: bool)
    | LockAck
    | DeliverNak(ranges: seq<Range>)
    | Timeout
    | DeliverData(num: int, payload: Payload)
    | LiteTimer
    | AckTimer(due: bool)
    | ReportLoss(ranges: seq<Range>)
    | DeliverAck2(no: int, measured: bool)
    | AppRecv(len: nat)
    | Lose(lost: set<Packet>)

  ghost function Init(c: Config): State {
    State(InitSender(c.isn, c.Window()), InitReceiver(c.isn), {}, [], [], [])
  }

  /** What the periodic loss report may contain: ranges of the receiver's loss list. */
  ghost predicate LostRange(r: Receiver, range: Range) {
    range.first <= range.last && Interval(range.first, range.last) <= r.loss
  }

  /** When a step can happen. The sender's receive thread finishes one ACK before it looks
      at anything else; `packData` runs beside it, in steps of its own. */
  ghost predicate Enabled(st: State, step: Step) {
    match step
    case AppSend(_) => true
    case PickLost => st.s.phase.Idle?
    case Resend => st.s.phase.Picked?
    case CheckWindow(_) => st.s.phase.NoLoss?
    case SendNew => st.s.phase.WindowOpen?
    case DeliverLiteAck(ack) => LiteAck(ack) in st.net && st.s.pendingAck.None?
    case DeliverAck(no, ack, avail, _) => Ack(no, ack, avail) in st.net && st.s.pendingAck.None?
    case LockAck => st.s.pendingAck.Some?
    case DeliverNak(ranges) => Nak(ranges) in st.net && st.s.pendingAck.None?
    case Timeout => st.s.pendingAck.None?
    case DeliverData(num, payload) => Data(num, payload) in st.net
    case LiteTimer => true
    case AckTimer(_) => true
    case ReportLoss(ranges) => forall i :: 0 <= i < |ranges| ==> LostRange(st.r, ranges[i])
    case DeliverAck2(no, _) => Ack2(no) in st.net
    case AppRecv(_) => true
    case Lose(_) => true
  }

  /** No step reads past the block list, releases an unsent block, or reads an empty slot. */
  ghost predicate Sound(st: State) {
    && (st.s.phase.Picked? ==> st.s.phase.num - st.s.lastDataAck < |st.s.blocks|)
    && (st.s.pendingAck.Some? ==> Releasable(st.s, st.s.pendingAck.value))
    && ReadyToRead(st.r)
  }

  /** The datagrams a step puts on the network. */
  ghost function Sent(c: Config, st: State, step: Step): set<Packet>
    requires Sound(st) && Enabled(st, step)
  {
    match step
    case Resend =>
      (match Reread(st.s, st.s.phase.num)
       case Some(p) => {Data(st.s.phase.num, p)}
       case None => {})
    case SendNew =>
      if st.s.cursor < |st.s.blocks| then {Data(st.s.curr + 1, st.s.blocks[st.s.cursor])} else {}
    case DeliverAck(no, _, _, reply) => if reply then {Ack2(no)} else {}
    case DeliverData(num, _) =>
      if Classify(st.r, c.bufSize, num) == Beyond then {Nak([Range(st.r.curr + 1, num - 1)])} else {}
    case LiteTimer =>
      if FirstMissing(st.r) == st.r.lastAckAck then {} else {LiteAck(FirstMissing(st.r))}
    case AckTimer(due) =>
      if AckDue(st.r, due) && FirstMissing(st.r) > st.r.lastAckAck then
        {Ack(st.r.ackNo + 1, FirstMissing(st.r), Max(Avail(Acknowledge(st.r), c.bufSize), 2))}
      else {}
    case ReportLoss(ranges) => {Nak(ranges)}
    case _ => {}
  }

  ghost function NextSender(c: Config, st: State, step: Step): Sender
    requires c.Valid() && Sound(st) && Enabled(st, step)
  {
    match step
    case AppSend(data) => Enqueue(st.s, data, c.mss)
    case PickLost => Pick(st.s)
    case Resend => st.s.(phase := Idle)
    case CheckWindow(cwnd) => st.s.(phase := if WindowAllows(st.s, cwnd) then WindowOpen else Idle)
    case SendNew => Advance(st.s)
    case DeliverLiteAck(ack) => TakeLiteAck(st.s, ack)
    case DeliverAck(_, ack, avail, _) => TakeAck(st.s, ack, avail)
    case LockAck => ReleaseAck(st.s, st.s.pendingAck.value)
    case DeliverNak(ranges) => TakeNak(st.s, ranges)
    case Timeout => Expire(st.s)
    case _ => st.s
  }

  ghost function NextReceiver(c: Config, st: State, step: Step): Receiver
    requires Sound(st) && Enabled(st, step)
  {
    match step
    case DeliverData(num, payload) => Store(st.r, c.bufSize, num, payload)
    case AckTimer(due) => if AckDue(st.r, due) then Acknowledge(st.r) else st.r
    case DeliverAck2(no, measured) => TakeAck2(st.r, no, measured)
    case AppRecv(len) => AfterRead(st.r, len)
    case _ => st.r
  }

  ghost function Next(c: Config, st: State, step: Step): State
    requires c.Valid() && Sound(st) && Enabled(st, step)
  {
    State(
      NextSender(c, st, step),
      NextReceiver(c, st, step),
      (st.net - if step.Lose? then step.lost else {}) + Sent(c, st, step),
      st.history + if step.AppSend? then Chunks(step.data, c.mss) else [],
      st.accepted + if step.AppSend? then step.data else [],
      st.delivered + if step.AppRecv? then ReadBytes(st.r, step.len) else [])
  }

  /** A run: every step is enabled where it is taken. */
  ghost predicate Legal(c: Config, st: State, steps: seq<Step>)
    requires c.Valid()
    decreases |steps|
  {
    steps == [] ||
    (Sound(st) && Enabled(st, steps[0]) && Legal(c, Next(c, st, steps[0]), steps[1..]))
  }

  ghost function Final(c: Config, st: State, steps: seq<Step>): State
    requires c.Valid() && Legal(c, st, steps)
    decreases |steps|
  {
    if steps == [] then st else Final(c, Next(c, st, steps[0]), steps[1..])
  }

  lemma {:induction false} RunsCompose(c: Config, st: State, a: seq<Step>, b: seq<Step>)
    requires c.Valid() && Legal(c, st, a) && Legal(c, Final(c, st, a), b)
    ensures Legal(c, st, a + b) && Final(c, st, a + b) == Final(c, Final(c, st, a), b)
    decreases |a|
  {
    hide Sound, Enabled, Next, Config.Valid;
    if a == [] {
      assert a + b == b;
    } else {
      assert (a + b)[0] == a[0] && (a + b)[1..] == a[1..] + b;
      var st1 := Next(c, st, a[0]);
      RunsCompose(c, st1, a[1..], b);
    }
  }

  // --- Invariant ----------------------------------------------------------

  /** What every datagram on the network is known to say. */
  ghost predicate Truthful(c: Config, st: State, p: Packet) {
    match p
    case Data(num, payload) => c.isn <= num <= st.s.curr && num - c.isn < |st.history| &&
        payload == st.history[num - c.isn]
    case LiteAck(ack) => Covered(st.r, ack)
    case Ack(no, ack, avail) =>
      && Covered(st.r, ack) && ack <= st.r.lastAck && 2 <= avail <= c.Window() && no <= st.r.ackNo
      && (forall i :: 0 <= i < |st.r.window| && st.r.window[i].no == no ==> st.r.window[i].ack == ack)
    case Ack2(no) =>
      && no <= st.r.ackNo
      && (forall i :: 0 <= i < |st.r.window| && st.r.window[i].no == no ==> st.r.window[i].ack <= FullyAcked(st.s))
    case Nak(ranges) => HonestNak(st.s, ranges)
  }

  ghost predicate NetTruthful(c: Config, st: State) {
    forall p :: p in st.net ==> Truthful(c, st, p)
  }

  /** The sender believes only what was received; the receiver knows only what was sent. */
  ghost predicate Agreement(c: Config, st: State) {
    Covered(st.r, st.s.lastAck) && Learned(c, st)
  }

  ghost predicate Learned(c: Config, st: State) {
    && st.r.curr <= st.s.curr
    && st.r.lastAckAck <= FullyAcked(st.s) <= st.r.lastAck
    && (forall n :: n in st.r.slots ==> 0 <= n - c.isn < |st.history| && st.r.slots[n] == st.history[n - c.isn])
  }

  /** The bytes delivered, followed by the acknowledged bytes not yet delivered, are the
      bytes of the packets before the acknowledged number. */
  ghost predicate Stream(c: Config, st: State) {
    && st.accepted == Flatten(st.history)
    && ReadyToRead(st.r)
    && c.isn <= st.r.lastAck <= c.isn + |st.history|
    && InStream(Units(st.r), st.r.notch, st.delivered, st.history[..st.r.lastAck - c.isn])
  }

  ghost predicate Inv(c: Config, st: State) {
    && c.Valid()
    && !st.s.broken
    && (forall k :: 0 <= k < |st.history| ==> st.history[k] != [])
    && SenderInv(st.s, c.isn, c.Window(), st.history)
    && ReceiverInv(st.r, c.isn, c.bufSize)
    && Agreement(c, st)
    && NetTruthful(c, st)
    && Stream(c, st)
  }

  lemma InitEnds(c: Config)
    requires c.Valid()
    ensures SenderInv(InitSender(c.isn, c.Window()), c.isn, c.Window(), [])
    ensures ReceiverInv(InitReceiver(c.isn), c.isn, c.bufSize)
  {
    assert SenderInv(InitSender(c.isn, c.Window()), c.isn, c.Window(), []);
    hide SenderInv;
  }

  lemma InitStream(c: Config)
    requires c.Valid()
    ensures Stream(c, Init(c))
  {
    assert Units(Init(c).r) == [];
  }

  lemma InitInv(c: Config)
    requires c.Valid()
    ensures Inv(c, Init(c))
  {
    InitEnds(c);
    InitStream(c);
    hide SenderInv, ReceiverInv, Stream;
  }

  lemma InvSound(c: Config, st: State)
    requires Inv(c, st)
    ensures Sound(st) && !st.s.broken
  {
    hide Stream, NetTruthful, Agreement, Units;
    InvReady(st.r, c.isn, c.bufSize);
    hide ReceiverInv;
    if st.s.phase.Picked? {
      RereadIsOriginal(st.s, c.isn, c.Window(), st.history);
    }
    if st.s.pendingAck.Some? {
      ReleaseKeeps(st.s, c.isn, c.Window(), st.history);
    }
  }
}
