/** The receiving half of a connection over unbounded sequence numbers: what
    `processData`, the ACK arms of `sendCtrl`, the ACK2 arm of `processCtrl` and
    `recv` do. */
module ReceiveSide {
  import opened Bytes
  import opened Numbers

  datatype AckRecord = AckRecord(no: int, ack: int)

  /** `slots` holds the stored packets by number; `start` is the first unread one and
      `notch` the bytes of it already read. `window` is the ACK history. */
  datatype Receiver = Receiver(
    lastAck: int, lastAckAck: int, curr: int,
    loss: set<int>, slots: map<int, Payload>, start: int, notch: nat,
    ackNo: nat, window: seq<AckRecord>)

  function InitReceiver(isn: int): Receiver {
    Receiver(isn, isn, isn - 1, {}, map[], isn, 0, 0, [])
  }

  /** Free slots: one is always kept empty. */
  function Avail(r: Receiver, bufSize: nat): int {
    bufSize - (r.lastAck - r.start) - 1
  }

  /** The first number the receiver is missing, which is what it acknowledges. */
  ghost function FirstMissing(r: Receiver): int {
    if r.loss == {} then r.curr + 1 else Least(r.loss)
  }

  /** What `processData` makes of a packet. */
  datatype Arrival = Refused | InOrder | Beyond | Filler

  function Classify(r: Receiver, bufSize: nat, num: int): Arrival {
    if num < r.lastAck || num - r.lastAck >= Avail(r, bufSize) || num in r.slots then Refused
    else if num > r.curr + 1 then Beyond
    else if num > r.curr then InOrder
    else Filler
  }

  /** `processData`: store the packet and note what it shows to be missing or found. */
  ghost function Store(r: Receiver, bufSize: nat, num: int, payload: Payload): Receiver {
    var kept := r.(slots := r.slots[num := payload]);
    match Classify(r, bufSize, num)
    case Refused => r
    case InOrder => kept.(curr := num)
    case Beyond => kept.(curr := num, loss := r.loss + Interval(r.curr + 1, num - 1))
    case Filler => kept.(loss := r.loss - {num})
  }

  const ACK_WINDOW_SIZE: nat := 1024

  /** The ACK history keeps its newest `size - 1` records. */
  function Remember<T>(window: seq<T>, rec: T, size: nat): seq<T> {
    var w := window + [rec];
    if |w| >= size then w[1..] else w
  }

  /** Whether an ACK timer makes the receiver look at its buffer at all: not when the
      sender confirmed this number, nor too soon after it was sent. */
  ghost predicate AckDue(r: Receiver, due: bool) {
    var ack := FirstMissing(r);
    ack != r.lastAckAck && (ack > r.lastAck || (ack == r.lastAck && due))
  }

  /** A full ACK moves the acknowledged number to the first missing one and, when the
      sender may not know it yet, numbers and remembers the ACK. */
  ghost function Acknowledge(r: Receiver): Receiver {
    var r1 := r.(lastAck := FirstMissing(r));
    if r1.lastAck > r.lastAckAck then
      r1.(ackNo := r.ackNo + 1,
          window := Remember(r.window, AckRecord(r.ackNo + 1, r1.lastAck), ACK_WINDOW_SIZE))
    else r1
  }

  /** The place of the first record numbered `no`, or |window|. */
  function IndexOf(window: seq<AckRecord>, no: int): (i: nat)
    ensures i <= |window|
    ensures i < |window| ==> window[i].no == no
    ensures forall j :: 0 <= j < i ==> window[j].no != no
  {
    if window == [] || window[0].no == no then 0 else 1 + IndexOf(window[1..], no)
  }

  /** An ACK2. `measured` is false when the round trip measured as zero. */
  function TakeAck2(r: Receiver, no: int, measured: bool): Receiver {
    var i := IndexOf(r.window, no);
    if i == |r.window| then r
    else
      var ack := r.window[i].ack;
      var r1 := r.(window := r.window[i + 1..]);
      if measured && ack > r.lastAckAck then r1.(lastAckAck := ack) else r1
  }

  predicate AllStored(r: Receiver) {
    r.start <= r.lastAck && forall n :: r.start <= n < r.lastAck ==> n in r.slots
  }

  /** The acknowledged packets not yet given to the application. */
  function Units(r: Receiver): (units: seq<Payload>)
    requires AllStored(r)
    ensures |units| == r.lastAck - r.start
    ensures forall i :: 0 <= i < |units| ==> units[i] == r.slots[r.start + i]
  {
    seq(r.lastAck - r.start, i requires 0 <= i < r.lastAck - r.start => r.slots[r.start + i])
  }

  predicate ReadyToRead(r: Receiver) {
    AllStored(r) && Readable(Units(r), r.notch)
  }

  /** The bytes `recv` copies. */
  function ReadBytes(r: Receiver, len: nat): Payload
    requires ReadyToRead(r)
  {
    Consume(Units(r), r.notch, len).bytes
  }

  /** What `recv` leaves behind. */
  function AfterRead(r: Receiver, len: nat): Receiver
    requires ReadyToRead(r)
  {
    var got := Consume(Units(r), r.notch, len);
    FreeUnits(r, got.used, got.notch)
  }

  /** The first `used` slots are emptied, and the next is entered by `notch` bytes. */
  function FreeUnits(r: Receiver, used: nat, notch: nat): Receiver {
    r.(slots := map n | n in r.slots && n >= r.start + used :: r.slots[n], start := r.start + used, notch := notch)
  }

  // --- Invariant ----------------------------------------------------------

  /** From the first unread number to the newest one, a slot is empty exactly when its
      number is lost; no other slot is filled; nothing lost is acknowledged. */
  ghost predicate Holes(r: Receiver) {
    && r.start <= r.lastAck <= r.curr + 1
    && (forall n :: n in r.slots <==> r.start <= n <= r.curr && n !in r.loss)
    && (forall n :: n in r.loss ==> r.lastAck <= n <= r.curr)
  }

  /** The stored packets fit the slot array. */
  ghost predicate Fits(r: Receiver, bufSize: nat) {
    r.curr + 1 <= r.start + bufSize - 1
  }

  ghost predicate AcksKnown(r: Receiver) {
    && r.lastAckAck <= r.lastAck
    && (forall i :: 0 <= i < |r.window| ==> r.window[i].ack <= r.lastAck && r.window[i].no <= r.ackNo)
    && (forall i, j :: 0 <= i < j < |r.window| ==> r.window[i].no < r.window[j].no)
    && |r.window| < ACK_WINDOW_SIZE
  }

  ghost predicate ReceiverInv(r: Receiver, isn: int, bufSize: nat) {
    && isn <= r.start
    && Holes(r) && Fits(r, bufSize) && AcksKnown(r)
    && (forall n :: n in r.slots ==> r.slots[n] != [])
    && (r.notch > 0 ==> r.start < r.lastAck && r.notch < |r.slots[r.start]|)
  }

  /** `n` is at most the first missing number. */
  ghost predicate Covered(r: Receiver, n: int) {
    n <= r.curr + 1 && forall x :: x in r.loss ==> n <= x
  }

  lemma CoveredIsFirstMissing(r: Receiver, n: int)
    ensures Covered(r, n) <==> n <= FirstMissing(r) && n <= r.curr + 1
  {}

  /** The reader never meets an empty slot. */
  lemma InvReady(r: Receiver, isn: int, bufSize: nat)
    requires ReceiverInv(r, isn, bufSize)
    ensures ReadyToRead(r)
    ensures 0 <= Avail(r, bufSize) < bufSize
  {}

  lemma StoreShape(r: Receiver, bufSize: nat, num: int, payload: Payload)
    ensures var r1 := Store(r, bufSize, num, payload);
            && r1 == r.(curr := r1.curr, loss := r1.loss, slots := r1.slots)
            && (r1.slots == r.slots || (r1.slots == r.slots[num := payload] && num !in r.slots))
  {}

  lemma StoreKeeps(r: Receiver, isn: int, bufSize: nat, num: int, payload: Payload)
    requires ReceiverInv(r, isn, bufSize) && payload != []
    ensures ReceiverInv(Store(r, bufSize, num, payload), isn, bufSize)
  {
    assert r.notch > 0 ==> r.start in r.slots;
    hide Holes, Fits, Store, AcksKnown;
    StoreKeepsHoles(r, bufSize, num, payload);
    StoreShape(r, bufSize, num, payload);
    assert AcksKnown(Store(r, bufSize, num, payload)) by { SameAcks(r, Store(r, bufSize, num, payload)); }
    assert Holes(Store(r, bufSize, num, payload));
  }

  lemma SameAcks(r: Receiver, r1: Receiver)
    requires AcksKnown(r) && r1.lastAckAck == r.lastAckAck && r1.lastAck == r.lastAck && r1.window == r.window &&
             r1.ackNo == r.ackNo
    ensures AcksKnown(r1)
  {}

  lemma StoreKeepsHoles(r: Receiver, bufSize: nat, num: int, payload: Payload)
    requires Holes(r) && Fits(r, bufSize)
    ensures Holes(Store(r, bufSize, num, payload)) && Fits(Store(r, bufSize, num, payload), bufSize)
  {
    hide Interval;
  }

  lemma StoreCovers(r: Receiver, bufSize: nat, num: int, payload: Payload)
    requires Holes(r)
    ensures forall n :: Covered(r, n) ==> Covered(Store(r, bufSize, num, payload), n)
  {}

  /** A packet that fills the first hole of an empty buffer is always taken. */
  lemma StoreAdvances(r: Receiver, isn: int, bufSize: nat, payload: Payload)
    requires ReceiverInv(r, isn, bufSize) && r.lastAck == FirstMissing(r) == r.start && bufSize >= 2
    ensures var r1 := Store(r, bufSize, r.lastAck, payload);
            FirstMissing(r1) > FirstMissing(r) && r1 == r.(curr := r1.curr, loss := r1.loss, slots := r1.slots)
  {}

  /** An ACK covers only stored packets. */
  lemma AcknowledgeKeeps(r: Receiver, isn: int, bufSize: nat)
    requires ReceiverInv(r, isn, bufSize)
    ensures ReceiverInv(Acknowledge(r), isn, bufSize)
    ensures forall n :: Covered(r, n) ==> Covered(Acknowledge(r), n)
    ensures forall n :: r.start <= n < Acknowledge(r).lastAck ==> n in r.slots
  {}

  lemma Ack2Keeps(r: Receiver, isn: int, bufSize: nat, no: int, measured: bool)
    requires ReceiverInv(r, isn, bufSize)
    ensures ReceiverInv(TakeAck2(r, no, measured), isn, bufSize)
  {}

  /** An ACK that is sent and confirmed need not be repeated: the confirmation brings exactly
      its number, forgets it and all older ones, and no ACK is due until something new comes. */
  lemma AckRoundTrip(r: Receiver, isn: int, bufSize: nat, due: bool)
    requires ReceiverInv(r, isn, bufSize) && FirstMissing(r) > r.lastAckAck
    ensures var r1 := Acknowledge(r);
            var r2 := TakeAck2(r1, r1.ackNo, true);
            r2 == r1.(lastAckAck := FirstMissing(r), window := []) && !AckDue(r2, due)
  {
    hide Holes, Fits, FirstMissing, Least;
    var r1 := Acknowledge(r);
    NewestRemembered(r.window, AckRecord(r.ackNo + 1, FirstMissing(r)), ACK_WINDOW_SIZE);
    SameMissing(r1, TakeAck2(r1, r1.ackNo, true));
    SameMissing(r, r1);
  }

  /** The newest record is the last, and the only one with its number. */
  lemma NewestRemembered(window: seq<AckRecord>, rec: AckRecord, size: nat)
    requires |window| < size && size >= 2 && forall i :: 0 <= i < |window| ==> window[i].no < rec.no
    ensures var w := Remember(window, rec, size);
            w != [] && w[|w| - 1] == rec && IndexOf(w, rec.no) == |w| - 1
  {
    var w := Remember(window, rec, size);
    assert forall i :: 0 <= i < |w| - 1 ==> w[i].no < rec.no;
  }

  lemma SameMissing(r: Receiver, r1: Receiver)
    requires r1.loss == r.loss && r1.curr == r.curr
    ensures FirstMissing(r1) == FirstMissing(r)
  {}

  lemma FreeKeeps(r: Receiver, isn: int, bufSize: nat, used: nat, notch: nat)
    requires ReceiverInv(r, isn, bufSize) && AllStored(r)
    requires used <= |Units(r)| && Readable(Units(r)[used..], notch)
    ensures ReceiverInv(FreeUnits(r, used, notch), isn, bufSize) && AllStored(FreeUnits(r, used, notch))
    ensures Units(FreeUnits(r, used, notch)) == Units(r)[used..]
  {
    var r1 := FreeUnits(r, used, notch);
    assert AllStored(r1) && Units(r1) == Units(r)[used..];
    hide Units, AllStored, AcksKnown;
    if notch > 0 {
      assert Units(r)[used..][0] == r.slots[r.start + used];
    }
  }

  /** Giving up whole packets at the front, read or not. */
  lemma FreeMsg(r: Receiver, isn: int, bufSize: nat, used: nat)
    requires ReceiverInv(r, isn, bufSize) && used <= r.lastAck - r.start
    ensures ReceiverInv(FreeUnits(r, used, 0), isn, bufSize) && Holes(r) && Fits(r, bufSize)
    ensures FreeUnits(r, used, 0) == r.(slots := FreeUnits(r, used, 0).slots, start := r.start + used, notch := 0)
  {
    InvReady(r, isn, bufSize);
    FreeKeeps(r, isn, bufSize, used, 0);
  }

  /** Giving up whole packets at the front is reading just their bytes. */
  lemma FreedBytes(r: Receiver, isn: int, bufSize: nat, used: nat) returns (freed: nat)
    requires ReceiverInv(r, isn, bufSize) && r.notch == 0 && used <= r.lastAck - r.start
    ensures ReadyToRead(r) && freed == |Flatten(Units(r)[..used])|
    ensures AfterRead(r, freed) == FreeUnits(r, used, 0) && ReadBytes(r, freed) == Flatten(Units(r)[..used])
  {
    hide Flatten, Consume, Fits, AcksKnown;
    InvReady(r, isn, bufSize);
    freed := |Flatten(Units(r)[..used])|;
    ConsumeWhole(Units(r), used);
  }

  lemma ReadKeeps(r: Receiver, isn: int, bufSize: nat, len: nat)
    requires ReceiverInv(r, isn, bufSize)
    ensures ReadyToRead(r) && ReceiverInv(AfterRead(r, len), isn, bufSize)
    ensures AllStored(AfterRead(r, len))
    ensures Units(AfterRead(r, len)) == Units(r)[Consume(Units(r), r.notch, len).used..]
  {
    InvReady(r, isn, bufSize);
    ConsumeTakes(Units(r), r.notch, len);
    var got := Consume(Units(r), r.notch, len);
    FreeKeeps(r, isn, bufSize, got.used, got.notch);
  }

  // --- What the steps come to ---------------------------------------------

  /** Which packets are taken: those not acknowledged, not yet there, and in front of the last
      slot, which stays empty. Any other changes nothing. */
  lemma StoreTakes(r: Receiver, bufSize: nat, num: int, payload: Payload)
    ensures var r1 := Store(r, bufSize, num, payload);
            if r.lastAck <= num < r.start + bufSize - 1 && num !in r.slots then r1.slots == r.slots[num := payload]
            else r1 == r
  {}

  lemma ClassifyExact(r: Receiver, bufSize: nat, num: int)
    ensures Classify(r, bufSize, num) != Refused <==> r.lastAck <= num < r.start + bufSize - 1 && num !in r.slots
    ensures Classify(r, bufSize, num) == Beyond <==> Classify(r, bufSize, num) != Refused && num > r.curr + 1
  {}

  /** What a taken packet says of others: the newest number seen is the largest, and lost are
      those lost before and those it leaps over, but not itself. */
  ghost predicate Leaps(r: Receiver, r1: Receiver, num: int) {
    r1.curr == Max(r.curr, num) && forall x :: x in r1.loss <==> (x in r.loss || r.curr < x < num) && x != num
  }

  lemma StoreNotes(r: Receiver, bufSize: nat, num: int, payload: Payload)
    requires Holes(r) && r.lastAck <= num < r.start + bufSize - 1 && num !in r.slots
    ensures Leaps(r, Store(r, bufSize, num, payload), num)
  {
    hide Interval;
  }

  /** The first missing number is the one whose slot is empty while none before it is. */
  lemma FirstMissingExact(r: Receiver, isn: int, bufSize: nat, n: int)
    requires ReceiverInv(r, isn, bufSize)
    ensures n == FirstMissing(r) <==> n >= r.start && n !in r.slots && forall k :: r.start <= k < n ==> k in r.slots
  {
    hide Fits, AcksKnown;
    if r.loss == {} {
      assert forall k :: r.start <= k <= r.curr ==> k in r.slots;
    }
    if n >= r.start && n !in r.slots && forall k :: r.start <= k < n ==> k in r.slots {
      assert FirstMissing(r) !in r.slots && FirstMissing(r) >= r.start;
      assert forall k :: r.start <= k < FirstMissing(r) ==> k in r.slots;
    }
  }

  /** When an ACK goes out, `m` being the first missing number: at once when there is something
      new, or again while it is not confirmed and the last was long enough ago. It moves the
      acknowledged number to `m` and is remembered under the next ACK number. */
  lemma AckExact(r: Receiver, isn: int, bufSize: nat, due: bool)
    requires ReceiverInv(r, isn, bufSize)
    ensures var m := FirstMissing(r);
            && (AckDue(r, due) <==> m > r.lastAck || (due && m > r.lastAckAck))
            && (AckDue(r, due) ==>
                  var r1 := Acknowledge(r);
                  && r1 == r.(lastAck := m, ackNo := r.ackNo + 1, window := r1.window)
                  && r1.window != [] && r1.window[|r1.window| - 1] == AckRecord(r.ackNo + 1, m)
                  && 1 <= |r1.window| == Min(|r.window| + 1, ACK_WINDOW_SIZE - 1)
                  && forall k :: 0 <= k < |r1.window| - 1 ==>
                       r1.window[k] == r.window[|r.window| + 1 - |r1.window| + k])
  {
    hide Fits;
    assert r.lastAckAck <= r.lastAck <= FirstMissing(r);
    hide Holes, AcksKnown, FirstMissing;
  }

  /** An ACK of any ACK that is remembered: with a time measured its number is confirmed, and it
      is forgotten with all older ones. Of an ACK not remembered nothing comes. */
  ghost predicate Confirms(r: Receiver, r1: Receiver, no: int, measured: bool) {
    && (forall i :: 0 <= i < |r.window| && r.window[i].no == no ==>
          r1 == r.(window := r.window[i + 1..],
                   lastAckAck := if measured then Max(r.lastAckAck, r.window[i].ack) else r.lastAckAck))
    && ((forall i :: 0 <= i < |r.window| ==> r.window[i].no != no) ==> r1 == r)
  }

  lemma Ack2Exact(r: Receiver, isn: int, bufSize: nat, no: int, measured: bool)
    requires ReceiverInv(r, isn, bufSize)
    ensures Confirms(r, TakeAck2(r, no, measured), no, measured)
  {
    hide Holes, Fits;
    forall i | 0 <= i < |r.window| && r.window[i].no == no ensures IndexOf(r.window, no) == i {}
  }
}
