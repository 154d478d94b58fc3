/** Reading whole messages: what the receiver's buffer returns over a run, when packets
    arrive in any order and no message is dropped. */
module Messages {
  import opened Bytes
  import opened SndBuffers
  import opened SlotArrays

  /** The packets of every message ever queued, in order: a packet begins a message exactly
      when the one before it ends one. */
  ghost predicate WellFramed(history: seq<Packet>) {
    && (history != [] ==> history[0].header.first && history[|history| - 1].header.last)
    && (forall n :: 0 <= n < |history| - 1 ==> (history[n].header.last <==> history[n + 1].header.first))
  }

  /** Packets `a` to `b` are one whole message. */
  ghost predicate WholeMessage(history: seq<Packet>, a: int, b: int) {
    && 0 <= a <= b < |history| && history[a].header.first && history[b].header.last
    && (forall n :: a < n <= b ==> !history[n].header.first)
    && (forall n :: a <= n < b ==> !history[n].header.last)
  }

  /** The receiver's slots, of which `acked` are acknowledged; packet `base` is next to be
      read, and no filled slot lies further than `maxPos` behind the acknowledged ones. */
  datatype Inbox = Inbox(v: seq<Slot>, acked: nat, maxPos: int, base: nat)

  /** The slots hold packets of the history; acknowledged ones are all there; a message is
      read as a whole or not at all. */
  ghost predicate Good(s: Inbox, history: seq<Packet>) {
    && Kept(s, history) && Dense(s) && Uniform(s.v)
    && (s.base < |history| && !history[s.base].header.first ==> |s.v| > 0 && Read(s.v[0]))
  }

  ghost predicate Kept(s: Inbox, history: seq<Packet>) {
    forall d :: 0 <= d < |s.v| && s.v[d].Full? ==>
      && s.base + d < |history| && s.v[d].payload == history[s.base + d].payload &&
          s.v[d].header == history[s.base + d].header
      && (s.v[d].flag == 1 || s.v[d].flag == 2)
  }

  ghost predicate Dense(s: Inbox) {
    && s.acked <= |s.v| && (forall d :: 0 <= d < s.acked ==> s.v[d].Full?)
    && (forall d :: 0 <= d < |s.v| && s.v[d].Full? ==> d <= s.acked + s.maxPos)
  }

  /** A message of which one packet is read is read as a whole, as far as it is there. */
  ghost predicate Uniform(v: seq<Slot>) {
    forall d :: 0 <= d < |v| && Read(v[d]) ==> Joined(v, d)
  }

  ghost predicate Joined(v: seq<Slot>, d: nat)
    requires d < |v| && v[d].Full?
  {
    && (!v[d].header.last ==> d + 1 < |v| && Read(v[d + 1]))
    && (!v[d].header.first ==> d == 0 || Read(v[d - 1]))
  }

  predicate Read(x: Slot) {
    x.Full? && x.flag == 2
  }

  /** Packet `n` has been returned. */
  ghost predicate Returned(s: Inbox, n: int) {
    n < s.base || (n - s.base < |s.v| && Read(s.v[n - s.base]))
  }

  lemma GoodChained(s: Inbox, history: seq<Packet>)
    requires Good(s, history) && WellFramed(history)
    ensures Chained(s.v)
  {}

  // --- Dropping bad slots drops only messages already returned ---------------

  /** An unread packet is followed by unread ones up to the end of its message. */
  lemma {:induction false} UnreadIsWhole(s: Inbox, history: seq<Packet>, e: nat)
    requires Good(s, history) && WellFramed(history) && e < s.acked && Fresh(s.v[e])
    ensures WholeFrom(s.v, e, s.acked)
    decreases s.acked - e
  {
    if !s.v[e].header.last && e + 1 < s.acked {
      assert s.v[e + 1].Full? && !s.v[e + 1].header.first;
      UnreadIsWhole(s, history, e + 1);
    }
  }

  /** A slot that is dropped, after slots that are read, is read. */
  lemma BadIsRead(s: Inbox, history: seq<Packet>, t: nat)
    requires Good(s, history) && WellFramed(history) && t < s.acked && !GoodAt(s.v, t, s.acked)
    requires t > 0 ==> Read(s.v[t - 1])
    ensures Read(s.v[t])
  {
    assert s.v[t].Full?;
    if t > 0 {
      assert s.v[t - 1].Full?;
      assert history[s.base + t - 1].header.last == history[s.base + t - 1 + 1].header.first;
    }
    assert s.v[t].header.first || Read(s.v[t]);
    if Fresh(s.v[t]) {
      UnreadIsWhole(s, history, t);
    }
  }

  lemma {:induction false} BadAreRead(s: Inbox, history: seq<Packet>, t: nat)
    requires Good(s, history) && WellFramed(history) && t <= s.acked
    requires t > 0 ==> Read(s.v[t - 1])
    ensures forall d :: t <= d < t + BadFrom(s.v, t, s.acked) ==> Read(s.v[d])
    decreases s.acked - t
  {
    hide Good, WellFramed, GoodAt;
    SizeOk(s, history);
    if t < s.acked && !GoodAt(s.v, t, s.acked) {
      BadIsRead(s, history, t);
      BadAreRead(s, history, t + 1);
    }
  }

  /** The inbox once bad slots are dropped. */
  ghost function DropBad(s: Inbox): Inbox
    requires s.acked <= |s.v|
  {
    var k := BadFrom(s.v, 0, s.acked);
    Inbox(Passed(s.v, k), s.acked - k, s.maxPos, s.base + k)
  }

  lemma PassedUniform(v: seq<Slot>, k: nat)
    requires Uniform(v) && k <= |v|
    ensures Uniform(Passed(v, k))
  {
    var w := Passed(v, k);
    forall d | 0 <= d < |w| && Read(w[d]) ensures Joined(w, d) {
      assert d + k < |v| && w[d] == v[d + k];
      assert Joined(v, d + k);
      assert d + k + 1 < |v| ==> w[d + 1] == v[d + k + 1];
      assert d > 0 ==> w[d - 1] == v[d + k - 1];
    }
  }

  lemma PassedStart(s: Inbox, history: seq<Packet>, k: nat)
    requires Good(s, history) && WellFramed(history) && 0 < k <= s.acked && (Read(s.v[k - 1]) || s.v[k - 1].header.last)
    ensures s.base + k < |history| && !history[s.base + k].header.first ==> k < |s.v| && Read(s.v[k])
  {
    assert s.v[k - 1].Full?;
    if s.base + k < |history| {
      assert history[s.base + k - 1].header.last == history[s.base + k - 1 + 1].header.first;
    }
  }

  /** Passing slots that are read, or all of a message, keeps the rest in order. */
  lemma PassedGood(s: Inbox, history: seq<Packet>, k: nat)
    requires Good(s, history) && WellFramed(history) && k <= s.acked
    requires k > 0 ==> Read(s.v[k - 1]) || s.v[k - 1].header.last
    ensures Good(Inbox(Passed(s.v, k), s.acked - k, s.maxPos, s.base + k), history)
  {
    hide Uniform, WellFramed;
    var w := Passed(s.v, k);
    PassedUniform(s.v, k);
    assert forall d :: 0 <= d < |w| && w[d].Full? ==> d + k < |w| && w[d] == s.v[d + k];
    if k > 0 {
      PassedStart(s, history, k);
    }
  }

  lemma DropKeeps(s: Inbox, history: seq<Packet>)
    requires Good(s, history) && WellFramed(history)
    ensures Good(DropBad(s), history)
    ensures forall n :: Returned(DropBad(s), n) <==> Returned(s, n)
    ensures forall d :: 0 <= d < DropBad(s).base - s.base ==> d < |s.v| && Read(s.v[d])
    ensures |DropBad(s).v| == |s.v| && DropBad(s).base >= s.base
    ensures forall d :: 0 <= d && d + DropBad(s).base - s.base < |s.v| ==>
              DropBad(s).v[d] == s.v[d + DropBad(s).base - s.base]
  {
    hide Good, WellFramed, BadFrom;
    SizeOk(s, history);
    BadAreRead(s, history, 0);
    var k := BadFrom(s.v, 0, s.acked);
    PassedGood(s, history, k);
    forall n ensures Returned(DropBad(s), n) <==> Returned(s, n) {
      if n >= s.base + k && n - s.base < |s.v| {
        assert DropBad(s).v[n - s.base - k] == s.v[n - s.base];
      }
    }
  }

  lemma SizeOk(s: Inbox, history: seq<Packet>)
    requires Good(s, history)
    ensures s.acked <= |s.v|
  {}

  // --- What a read returns ----------------------------------------------------

  /** The bytes of packets in a row. */
  function PacketBytes(q: seq<Packet>): Payload {
    if q == [] then [] else PacketBytes(q[..|q| - 1]) + q[|q| - 1].payload
  }

  lemma {:induction false} BytesOfPackets(s: Inbox, history: seq<Packet>, h: nat, k: nat)
    requires Kept(s, history) && h + k <= |s.v| && s.base + h + k <= |history|
    requires forall d :: h <= d < h + k ==> s.v[d].Full?
    ensures BytesAt(s.v, h, k) == PacketBytes(history[s.base + h..s.base + h + k])
  {
    hide BytesAt, PacketBytes, Kept;
    if k == 0 {
      NoBytes(s.v, h);
      NoPackets(history, s.base + h);
    } else {
      KeptAt(s, history, h + k - 1);
      BytesOfPackets(s, history, h, k - 1);
      BytesNext(s.v, h, k - 1);
      BytesOfNext(history, s.base + h, k - 1);
    }
  }

  lemma KeptAt(s: Inbox, history: seq<Packet>, d: nat)
    requires Kept(s, history) && d < |s.v| && s.v[d].Full?
    ensures s.base + d < |history| && s.v[d].payload == history[s.base + d].payload
  {}

  lemma BytesOfNext(history: seq<Packet>, a: nat, k: nat)
    requires a + k < |history|
    ensures PacketBytes(history[a..a + k + 1]) == PacketBytes(history[a..a + k]) + history[a + k].payload
  {
    var q := history[a..a + k + 1];
    assert q[..|q| - 1] == history[a..a + k];
  }

  lemma NoPackets(history: seq<Packet>, a: nat)
    requires a <= |history|
    ensures PacketBytes(history[a..a]) == []
  {}

  lemma NoBytes(v: seq<Slot>, h: nat)
    requires h <= |v|
    ensures BytesAt(v, h, 0) == []
  {}

  /** Slots `h` to `i` are unread, and only the first begins and only the last ends. */
  ghost predicate Intact(v: seq<Slot>, h: nat, i: nat) {
    && h <= i < |v| && (forall d :: h <= d <= i ==> Fresh(v[d])) && v[i].header.last
    && (forall d :: h <= d <= i ==> (v[d].header.first <==> d == h))
  }

  /** Such slots hold one whole message. */
  lemma RunIsMessage(s: Inbox, history: seq<Packet>, h: nat, i: nat)
    requires Kept(s, history) && WellFramed(history) && Intact(s.v, h, i)
    ensures WholeMessage(history, s.base + h, s.base + i) && history[s.base + i].header == s.v[i].header
  {
    assert Fresh(s.v[h]) && Fresh(s.v[i]);
    forall n | s.base + h < n <= s.base + i ensures !history[n].header.first {
      assert Fresh(s.v[n - s.base]);
    }
    forall n | s.base + h <= n < s.base + i ensures !history[n].header.last {
      assert history[n].header.last == history[n + 1].header.first;
    }
  }

  /** A slot that ends a message that may be returned ends a whole one, all unread. */
  lemma FoundIsMessage(s: Inbox, history: seq<Packet>, i: nat)
    requires Good(s, history) && WellFramed(history) && i < |s.v| && Eligible(s.v, i, s.acked)
    ensures var h := HeadAt(s.v, i + 1);
            && 0 <= h && Intact(s.v, h, i)
            && WholeMessage(history, s.base + h, s.base + i) && history[s.base + i].header == s.v[i].header
            && BytesAt(s.v, h, i + 1 - h) == PacketBytes(history[s.base + h..s.base + i + 1])
  {
    hide Uniform, Dense, Kept, WellFramed, WholeMessage, Intact, BytesAt, PacketBytes;
    var h := HeadAt(s.v, i + 1);
    EndsIntact(s.v, i, s.acked);
    RunIsMessage(s, history, h, i);
    IntactFull(s.v, h, i);
    BytesOfPackets(s, history, h, i + 1 - h);
  }

  lemma EndsIntact(v: seq<Slot>, i: nat, acked: nat)
    requires i < |v| && Eligible(v, i, acked)
    ensures var h := HeadAt(v, i + 1); 0 <= h <= i && Intact(v, h, i)
  {}

  /** A whole unread message is recognised. */
  lemma {:induction false} HeadOf(v: seq<Slot>, h: nat, i: nat, e: nat)
    requires Intact(v, h, i) && h <= e <= i
    ensures HeadAt(v, e + 1) == h
    decreases e
  {
    assert Fresh(v[e]);
    if h < e {
      HeadOf(v, h, i, e - 1);
    }
  }

  lemma MarkedUniform(v: seq<Slot>, h: nat, i: nat)
    requires Uniform(v) && h <= i < |v| && (forall d :: h <= d <= i ==> v[d].Full? && v[d].flag == 1)
    requires v[h].header.first && v[i].header.last
    ensures Uniform(Marked(v, h, i + 1 - h, true))
  {
    var w := Marked(v, h, i + 1 - h, true);
    forall d | 0 <= d < |w| && Read(w[d]) ensures Joined(w, d) {
      assert w[d].header == v[d].header;
      if d < h || i < d {
        assert Joined(v, d);
      } else {
        assert v[d].Full? && (d == i ==> w[d].header.last) && (d == h ==> w[d].header.first);
      }
    }
  }

  /** Marking a whole unread message as read keeps everything in order. */
  lemma MarkedGood(s: Inbox, history: seq<Packet>, h: nat, i: nat)
    requires Good(s, history) && h <= i < |s.v| && (forall d :: h <= d <= i ==> s.v[d].Full? && s.v[d].flag == 1)
    requires s.v[h].header.first && s.v[i].header.last
    ensures Good(s.(v := Marked(s.v, h, i + 1 - h, true)), history)
  {
    hide Uniform;
    MarkedUniform(s.v, h, i);
  }

  // --- One read -----------------------------------------------------------

  /** `t` is what a read of at most `len` bytes makes of `s`. */
  ghost predicate Reads(s: Inbox, t: Inbox, len: nat, data: Payload, h: int, i: int)
    requires s.acked <= |s.v|
  {
    && Msg(s.v, s.acked, s.maxPos, len, data, h, i, t.v, t.acked)
    && t.maxPos == s.maxPos && t.base == s.base + s.acked - t.acked
  }

  /** The source's test for an empty buffer, which overlooks a packet right behind the
      acknowledged ones. */
  predicate LooksEmpty(s: Inbox) {
    s.acked == 0 && s.maxPos <= 0
  }

  /** Packets `a` to `b` are returned between `s` and `t`: one whole message, none of it
      returned before, and in its turn if it must be. */
  ghost predicate Returns(s: Inbox, t: Inbox, history: seq<Packet>, len: nat, data: Payload, a: int, b: int) {
    && WholeMessage(history, a, b)
    && (var all := PacketBytes(history[a..b + 1]); data == all[..Min(len, |all|)])
    && (forall n :: a <= n <= b ==> !Returned(s, n))
    && (forall n :: Returned(t, n) <==> Returned(s, n) || a <= n <= b)
    && (history[b].header.inOrder ==> forall n :: n < a ==> Returned(s, n))
  }

  /** Nothing is returned, and there is no message that could be. */
  ghost predicate ReturnsNothing(s: Inbox, t: Inbox, history: seq<Packet>, data: Payload) {
    && data == [] && (forall n :: Returned(t, n) <==> Returned(s, n))
    && (!LooksEmpty(s) ==> forall a, b :: Waiting(s, history, a, b) ==> MustWait(s, history, b))
  }

  /** A message that ends with packet `b` may not be returned yet: it is bound to order and
      not acknowledged. */
  ghost predicate MustWait(s: Inbox, history: seq<Packet>, b: int) {
    s.base + s.acked <= b < |history| && history[b].header.inOrder
  }

  /** A whole message is there and not returned yet. */
  ghost predicate Waiting(s: Inbox, history: seq<Packet>, a: int, b: int) {
    WholeMessage(history, a, b) && forall n :: a <= n <= b ==> Here(s, n)
  }

  /** Packet `n` is there and not returned yet. */
  ghost predicate Here(s: Inbox, n: int) {
    s.base <= n < s.base + |s.v| && Fresh(s.v[n - s.base])
  }

  /** Packets given up in front are returned. */
  lemma FrontReturned(s: Inbox, t: Inbox, k: nat)
    requires k <= |s.v| && t.base == s.base + k && t.v == Passed(s.v, k)
    ensures forall n :: Returned(t, n) <==> n < s.base + k || Returned(s, n)
  {
    forall n ensures Returned(t, n) <==> n < s.base + k || Returned(s, n) {
      if n >= s.base + k && n - s.base < |s.v| {
        assert t.v[n - t.base] == s.v[n - s.base];
      }
    }
  }

  /** Handing over the message in slots `h` to `i`. */
  lemma HandedReturns(s: Inbox, t: Inbox, history: seq<Packet>, len: nat, data: Payload, h: nat, i: nat)
    requires Good(s, history) && WellFramed(history) && Intact(s.v, h, i) && h == HeadAt(s.v, i + 1) &&
             Eligible(s.v, i, s.acked)
    requires (forall d :: h <= d <= i ==> s.v[d].Full?) && Handed(s.v, s.acked, h, i, t.v, t.acked)
    requires var all := BytesAt(s.v, h, i + 1 - h); data == all[..Min(len, |all|)]
    requires t.maxPos == s.maxPos && t.base == s.base + s.acked - t.acked
    ensures Good(t, history) && Returns(s, t, history, len, data, s.base + h, s.base + i)
  {
    hide Good, WellFramed, BytesAt, WholeMessage, PacketBytes, HeadAt, Passed, Marked;
    FoundIsMessage(s, history, i);
    if i < s.acked {
      PassedGood(s, history, i + 1);
      FrontReturned(s, t, i + 1);
    } else {
      MarkedGood(s, history, h, i);
      assert t == s.(v := Marked(s.v, h, i + 1 - h, true));
    }
  }

  lemma WaitingIntact(s: Inbox, history: seq<Packet>, a: int, b: int)
    requires Kept(s, history) && Waiting(s, history, a, b)
    ensures s.base <= a && Intact(s.v, a - s.base, b - s.base) && history[b].header == s.v[b - s.base].header
  {
    assert Here(s, a) && Here(s, b);
    forall d | a - s.base <= d <= b - s.base ensures Fresh(s.v[d]) && (s.v[d].header.first <==> d == a - s.base) {
      assert Here(s, d + s.base);
    }
  }

  /** A waiting message is not dropped. */
  lemma WaitingStays(s: Inbox, history: seq<Packet>, a: int, b: int)
    requires Good(s, history) && WellFramed(history) && Waiting(s, history, a, b)
    ensures Waiting(DropBad(s), history, a, b)
  {
    hide Good, WellFramed, WholeMessage, DropBad;
    SizeOk(s, history);
    DropKeeps(s, history);
    forall n | a <= n <= b ensures Here(DropBad(s), n) {
      assert Here(s, n);
      assert Fresh(s.v[n - s.base]) && n >= DropBad(s).base;
      assert DropBad(s).v[n - DropBad(s).base] == s.v[n - s.base];
    }
  }

  /** A waiting message that may be returned is found. */
  lemma WaitingFound(s: Inbox, history: seq<Packet>, a: int, b: int, i: nat)
    requires Good(s, history) && Waiting(s, history, a, b)
    requires i <= |s.v| && NoneBefore(s.v, i, s.acked) && i > s.maxPos + s.acked
    ensures MustWait(s, history, b)
  {
    hide Uniform, Waiting, WholeMessage;
    WaitingIntact(s, history, a, b);
    HeadOf(s.v, a - s.base, b - s.base, b - s.base);
    assert Fresh(s.v[b - s.base]);
    assert !Eligible(s.v, b - s.base, s.acked);
  }

  /** Every read returns one whole message, in its turn and for the first time, or nothing;
      and nothing only if there is no message that could be returned. */
  lemma ReadReturns(s: Inbox, t: Inbox, history: seq<Packet>, len: nat, data: Payload, h: int, i: int)
    requires Good(s, history) && WellFramed(history) && s.acked <= |s.v| && Reads(s, t, len, data, h, i)
    ensures Good(t, history)
    ensures var d := DropBad(s);
            if !LooksEmpty(s) && i <= d.maxPos + d.acked then Returns(s, t, history, len, data, d.base + h, d.base + i)
            else ReturnsNothing(s, t, history, data)
  {
    hide Good, WellFramed, BytesAt, WholeMessage, PacketBytes, HeadAt, Passed, Marked, Eligible, Intact, NoneBefore,
         BadFrom, Waiting, Handed;
    if !LooksEmpty(s) {
      var d := DropBad(s);
      DropKeeps(s, history);
      if i <= d.maxPos + d.acked {
        FoundIsMessage(d, history, i);
        IntactFull(d.v, h, i);
        HandedReturns(d, t, history, len, data, h, i);
      } else {
        forall a, b | Waiting(s, history, a, b) ensures MustWait(s, history, b) {
          WaitingStays(s, history, a, b);
          WaitingFound(d, history, a, b, i);
        }
      }
    }
  }

  lemma IntactFull(v: seq<Slot>, h: nat, i: nat)
    requires Intact(v, h, i)
    ensures forall d :: h <= d <= i ==> v[d].Full?
  {
    forall d | h <= d <= i ensures v[d].Full? {
      assert Fresh(v[d]);
    }
  }

  // --- Runs -----------------------------------------------------------------

  /** What happens to an inbox: packet `n` arrives, `k` more packets are acknowledged, the
      user asks for at most `len` bytes and gets `data`, or is told whether there is a
      message. */
  datatype Event =
    | Arrived(n: int)
    | Confirmed(k: int)
    | Asked(len: nat, data: Payload, h: int, i: int)
    | Counting(count: int)

  ghost predicate Follows(s: Inbox, e: Event, t: Inbox, history: seq<Packet>) {
    s.acked <= |s.v| &&
    match e
    case Arrived(n) =>
      && s.base + s.acked <= n < |history| && n - s.base < |s.v| && s.v[n - s.base].Empty?
      && t == s.(v := s.v[n - s.base := Full(history[n].payload, history[n].header, 1)],
                 maxPos := Max(s.maxPos, n - s.base - s.acked))
    case Confirmed(k) =>
      && 0 <= k && s.acked + k <= |s.v| && (forall d :: s.acked <= d < s.acked + k ==> s.v[d].Full?)
      && t == s.(acked := s.acked + k, maxPos := Max(s.maxPos - k, 0))
    case Asked(len, data, h, i) => Reads(s, t, len, data, h, i)
    case Counting(count) =>
      && Scanned(s.v, s.acked, s.maxPos, count, t.v, t.acked)
      && t.maxPos == s.maxPos && t.base == s.base + s.acked - t.acked
  }

  lemma ArrivedGood(s: Inbox, n: int, t: Inbox, history: seq<Packet>)
    requires Good(s, history) && Follows(s, Arrived(n), t, history)
    ensures Good(t, history) && forall x :: Returned(t, x) <==> Returned(s, x)
  {
    hide Uniform, Kept, Dense;
    PutUniform(s.v, n - s.base, t.v[n - s.base]);
    assert Kept(t, history) by { PutKept(s, t, history, n); }
    PutDense(s, t, n - s.base - s.acked);
  }

  /** An unread packet put into an empty slot joins nothing that is read. */
  lemma PutUniform(v: seq<Slot>, d: nat, x: Slot)
    requires Uniform(v) && d < |v| && v[d].Empty? && x.Full? && x.flag == 1
    ensures Uniform(v[d := x])
  {
    var w := v[d := x];
    forall e | 0 <= e < |w| && Read(w[e]) ensures Joined(w, e) {
      assert Joined(v, e);
    }
  }

  lemma PutKept(s: Inbox, t: Inbox, history: seq<Packet>, n: int)
    requires Kept(s, history) && t.base == s.base <= n < |history| && n - s.base < |s.v|
    requires t.v == s.v[n - s.base := Full(history[n].payload, history[n].header, 1)]
    ensures Kept(t, history)
  {}

  lemma PutDense(s: Inbox, t: Inbox, offset: nat)
    requires Dense(s) && t.acked == s.acked && s.acked + offset < |s.v| == |t.v| && t.maxPos == Max(s.maxPos, offset)
    requires t.v == s.v[s.acked + offset := t.v[s.acked + offset]] && t.v[s.acked + offset].Full?
    ensures Dense(t)
  {}

  lemma ConfirmedGood(s: Inbox, k: int, t: Inbox, history: seq<Packet>)
    requires Good(s, history) && Follows(s, Confirmed(k), t, history)
    ensures Good(t, history) && forall x :: Returned(t, x) <==> Returned(s, x)
  {
    hide Uniform;
  }

  lemma CountingGood(s: Inbox, count: int, t: Inbox, history: seq<Packet>)
    requires Good(s, history) && WellFramed(history) && Follows(s, Counting(count), t, history)
    ensures Good(t, history) && forall x :: Returned(t, x) <==> Returned(s, x)
  {
    hide Good, WellFramed, Counted;
    DropKeeps(s, history);
    assert t == if LooksEmpty(s) then s else DropBad(s);
  }

  /** An inbox before anything arrives. */
  ghost predicate Unused(s: Inbox) {
    s.acked == 0 && s.maxPos == 0 && s.base == 0 && forall d :: 0 <= d < |s.v| ==> s.v[d].Empty?
  }

  /** A run, by the inboxes it goes through. */
  ghost predicate Run(inboxes: seq<Inbox>, events: seq<Event>, history: seq<Packet>)
    ensures Run(inboxes, events, history) ==> |inboxes| == |events| + 1
  {
    && |inboxes| == |events| + 1
    && Unused(inboxes[0])
    && (forall x :: 0 <= x < |events| ==> Follows(inboxes[x], events[x], inboxes[x + 1], history))
  }

  /** What is sent later does not change a run. */
  lemma RunMore(inboxes: seq<Inbox>, events: seq<Event>, history: seq<Packet>, more: seq<Packet>)
    requires Run(inboxes, events, history)
    ensures Run(inboxes, events, history + more)
  {
    hide Reads, Scanned;
    forall x | 0 <= x < |events| ensures Follows(inboxes[x], events[x], inboxes[x + 1], history + more) {
      assert Follows(inboxes[x], events[x], inboxes[x + 1], history);
    }
  }

  /** A run goes on. */
  lemma RunNext(inboxes: seq<Inbox>, events: seq<Event>, history: seq<Packet>, e: Event, t: Inbox)
    requires Run(inboxes, events, history) && Follows(inboxes[|events|], e, t, history)
    ensures Run(inboxes + [t], events + [e], history)
  {
    hide Follows, Unused;
    var inboxes1, events1 := inboxes + [t], events + [e];
    forall x | 0 <= x < |events1| ensures Follows(inboxes1[x], events1[x], inboxes1[x + 1], history) {
      if x < |events| {
        assert Follows(inboxes[x], events[x], inboxes[x + 1], history);
      }
    }
  }

  /** Event `x` returns packets `a` to `b`. */
  ghost predicate Gave(inboxes: seq<Inbox>, events: seq<Event>, history: seq<Packet>, x: int, a: int, b: int) {
    && 0 <= x < |events| && |inboxes| == |events| + 1 && events[x].Asked?
    && Returns(inboxes[x], inboxes[x + 1], history, events[x].len, events[x].data, a, b)
  }

  lemma {:induction false} RunGood(inboxes: seq<Inbox>, events: seq<Event>, history: seq<Packet>, x: nat)
    requires Run(inboxes, events, history) && WellFramed(history) && x < |inboxes|
    ensures Good(inboxes[x], history)
  {
    if x > 0 {
      RunGood(inboxes, events, history, x - 1);
      assert Follows(inboxes[x - 1], events[x - 1], inboxes[x - 1 + 1], history);
      OneEvent(inboxes[x - 1], events[x - 1], inboxes[x], history);
    }
  }

  /** One event: what is returned stays returned, and only a read that gives a message
      returns more. */
  lemma OneEvent(s: Inbox, e: Event, t: Inbox, history: seq<Packet>)
    requires Good(s, history) && WellFramed(history) && Follows(s, e, t, history)
    ensures Good(t, history)
    ensures forall n :: Returned(s, n) ==> Returned(t, n)
    ensures || (forall n :: Returned(t, n) <==> Returned(s, n))
            || (e.Asked? && exists a, b :: Returns(s, t, history, e.len, e.data, a, b))
    ensures e.Asked? ==>
              || ReturnsNothing(s, t, history, e.data)
              || exists a, b :: Returns(s, t, history, e.len, e.data, a, b)
  {
    hide Good, WellFramed, Returned, WholeMessage, PacketBytes, Reads, Waiting, MustWait;
    match e
    case Arrived(n) => ArrivedGood(s, n, t, history);
    case Confirmed(k) => ConfirmedGood(s, k, t, history);
    case Asked(len, data, h, i) => ReadReturns(s, t, history, len, data, h, i);
    case Counting(count) => CountingGood(s, count, t, history);
  }

  /** What is returned stays returned. */
  lemma {:induction false} StaysReturned(inboxes: seq<Inbox>, events: seq<Event>, history: seq<Packet>, x: nat,
          y: nat, n: int)
    requires Run(inboxes, events, history) && WellFramed(history) && x <= y < |inboxes| && Returned(inboxes[x], n)
    ensures Returned(inboxes[y], n)
    decreases y
  {
    hide Follows, Returned, Returns, ReturnsNothing, Good, WellFramed;
    if x < y {
      StaysReturned(inboxes, events, history, x, y - 1, n);
      RunGood(inboxes, events, history, y - 1);
      assert Follows(inboxes[y - 1], events[y - 1], inboxes[y - 1 + 1], history);
      OneEvent(inboxes[y - 1], events[y - 1], inboxes[y], history);
    }
  }

  /** Over a whole run no packet is returned twice, so no message is. */
  lemma NeverTwice(inboxes: seq<Inbox>, events: seq<Event>, history: seq<Packet>, x: nat, a: int, b: int, y: nat,
          c: int, d: int)
    requires Run(inboxes, events, history) && WellFramed(history)
    requires x < y && Gave(inboxes, events, history, x, a, b) && Gave(inboxes, events, history, y, c, d)
    ensures b < c || d < a
  {
    hide Follows, Returned, WellFramed, PacketBytes, Run;
    if c <= b && a <= d {
      var n := Max(a, c);
      assert Returned(inboxes[x + 1], n);
      assert !Returned(inboxes[y], n);
      StaysReturned(inboxes, events, history, x + 1, y, n);
    }
  }

  /** Whatever is returned was returned by some event before. */
  lemma {:induction false} GivenBefore(inboxes: seq<Inbox>, events: seq<Event>, history: seq<Packet>, x: nat, n: nat)
    returns (y: nat, a: int, b: int)
    requires Run(inboxes, events, history) && WellFramed(history) && x < |inboxes| && Returned(inboxes[x], n)
    ensures y < x && Gave(inboxes, events, history, y, a, b) && a <= n <= b
    decreases x
  {
    hide Follows, WellFramed, Good, WholeMessage, PacketBytes, ReturnsNothing;
    assert x > 0;
    hide Returned;
    RunGood(inboxes, events, history, x - 1);
    assert Follows(inboxes[x - 1], events[x - 1], inboxes[x - 1 + 1], history);
    OneEvent(inboxes[x - 1], events[x - 1], inboxes[x], history);
    if Returned(inboxes[x - 1], n) {
      y, a, b := GivenBefore(inboxes, events, history, x - 1, n);
    } else {
      y := x - 1;
      a, b :| Returns(inboxes[y], inboxes[y + 1], history, events[y].len, events[y].data, a, b);
    }
  }

  /** A message that must be delivered in order comes only after everything before it. */
  lemma InTurn(inboxes: seq<Inbox>, events: seq<Event>, history: seq<Packet>, x: nat, a: int, b: int, n: nat)
    returns (y: nat, c: int, d: int)
    requires Run(inboxes, events, history) && WellFramed(history)
    requires Gave(inboxes, events, history, x, a, b) && history[b].header.inOrder && n < a
    ensures y < x && Gave(inboxes, events, history, y, c, d) && c <= n <= d
  {
    hide Follows, Returned, WellFramed, WholeMessage, PacketBytes, Run;
    y, c, d := GivenBefore(inboxes, events, history, x, n);
  }

  // --- Where a message is left behind --------------------------------------------

  /** Nothing is returned although a message that may be is waiting. */
  ghost predicate LeavesOne(s: Inbox, t: Inbox, history: seq<Packet>) {
    && (forall n :: Returned(t, n) ==> Returned(s, n))
    && exists a, b :: Waiting(s, history, a, b) && !MustWait(s, history, b)
  }

  /** A single-packet message, free of order, lies right behind the acknowledged slots of
      which there are none, and nothing lies further on. */
  ghost predicate Hidden(s: Inbox) {
    && LooksEmpty(s) && s.v != [] && Fresh(s.v[0])
    && s.v[0].header.first && s.v[0].header.last && !s.v[0].header.inOrder
  }

  /** When a read leaves a message behind: exactly when the test for an empty buffer hides a
      single one. */
  lemma OverlooksExactly(s: Inbox, t: Inbox, history: seq<Packet>, len: nat, data: Payload, h: int, i: int)
    requires Good(s, history) && WellFramed(history) && s.acked <= |s.v| && Reads(s, t, len, data, h, i)
    ensures LeavesOne(s, t, history) <==> Hidden(s)
  {
    hide Good, WellFramed, Reads, WholeMessage, PacketBytes, Waiting, MustWait;
    if LooksEmpty(s) {
      LooksEmptyReads(s, t, len, data, h, i);
      if Hidden(s) {
        HiddenWaits(s, history);
      }
      forall a, b | Waiting(s, history, a, b) && !MustWait(s, history, b) ensures Hidden(s) {
        OnlyFirst(s, history, a, b);
      }
    } else {
      ReadReturns(s, t, history, len, data, h, i);
      var d := DropBad(s);
      if i <= d.maxPos + d.acked {
        ReturnsMore(s, t, history, len, data, d.base + h, d.base + i);
      }
    }
  }

  lemma LooksEmptyReads(s: Inbox, t: Inbox, len: nat, data: Payload, h: int, i: int)
    requires LooksEmpty(s) && s.acked <= |s.v| && Reads(s, t, len, data, h, i)
    ensures t == s && data == []
  {}

  lemma HiddenWaits(s: Inbox, history: seq<Packet>)
    requires Good(s, history) && Hidden(s)
    ensures Waiting(s, history, s.base, s.base) && !MustWait(s, history, s.base)
  {
    hide Uniform;
    assert Here(s, s.base);
  }

  /** All that waits in an inbox that looks empty is its first packet. */
  lemma OnlyFirst(s: Inbox, history: seq<Packet>, a: int, b: int)
    requires Good(s, history) && LooksEmpty(s) && Waiting(s, history, a, b) && !MustWait(s, history, b)
    ensures Hidden(s)
  {
    hide Uniform;
    assert Here(s, a) && Here(s, b);
  }

  lemma ReturnsMore(s: Inbox, t: Inbox, history: seq<Packet>, len: nat, data: Payload, a: int, b: int)
    requires Returns(s, t, history, len, data, a, b)
    ensures Returned(t, a) && !Returned(s, a)
  {}

  /** Such an inbox is the first that can be: one packet has arrived, and no read gives it. */
  lemma Overlooked(p: Packet, len: nat)
    requires p.header.first && p.header.last && !p.header.inOrder
    ensures
      var u := Inbox([Empty, Empty], 0, 0, 0);
      var s := Inbox([Full(p.payload, p.header, 1), Empty], 0, 0, 0);
      && Run([u, s], [Arrived(0)], [p]) && WellFramed([p]) && Good(s, [p]) && Hidden(s)
      && forall t, data, h, i :: Reads(s, t, len, data, h, i) ==> data == [] && t == s && LeavesOne(s, t, [p])
  {
    var u := Inbox([Empty, Empty], 0, 0, 0);
    var s := Inbox([Full(p.payload, p.header, 1), Empty], 0, 0, 0);
    var inboxes, events := [u, s], [Arrived(0)];
    assert u.v[0 := Full(p.payload, p.header, 1)] == s.v;
    assert Follows(u, Arrived(0), s, [p]);
    assert Run(inboxes, events, [p]);
    RunGood(inboxes, events, [p], 1);
    forall t, data, h, i | Reads(s, t, len, data, h, i)
      ensures data == [] && t == s && LeavesOne(s, t, [p])
    {
      OverlooksExactly(s, t, [p], len, data, h, i);
    }
  }

  /** A message is counted that no read gives: exactly when packets of one message fill the
      array and none of them ends one that may be returned. */
  lemma CountsInVain(s: Inbox, t: Inbox, history: seq<Packet>, count: int, c: Inbox, len: nat, data: Payload, h: int,
          i: int)
    requires Good(s, history) && WellFramed(history) && s.acked <= |s.v|
    requires Reads(s, t, len, data, h, i) && Follows(s, Counting(count), c, history)
    ensures var d := DropBad(s);
            count == 1 && (forall n :: Returned(t, n) ==> Returned(s, n)) <==>
            !LooksEmpty(s) && Filled(d.v, d.maxPos + d.acked) && NoneBefore(d.v, d.maxPos + d.acked + 1, d.acked)
  {
    hide Good, WellFramed, WholeMessage, PacketBytes, Waiting, MustWait, BadFrom, Passed, HeadAt, Eligible, Handed,
         Copied;
    if !LooksEmpty(s) {
      ReadReturns(s, t, history, len, data, h, i);
      var d := DropBad(s);
      if i <= d.maxPos + d.acked {
        ReturnsMore(s, t, history, len, data, d.base + h, d.base + i);
      }
    }
  }

  /** Such a case: two packets of a longer message fill the three slots but for one. */
  lemma CountedInVain(p: Packet, q: Packet, r: Packet, len: nat)
    requires p.header.first && !p.header.last && !q.header.first && !q.header.last && !r.header.first && r.header.last
    ensures
      var s := Inbox([Full(p.payload, p.header, 1), Full(q.payload, q.header, 1), Empty], 0, 1, 0);
      && WellFramed([p, q, r])
      && (exists inboxes, events :: Run(inboxes, events, [p, q, r]) && inboxes[|events|] == s)
      && Follows(s, Counting(1), s, [p, q, r])
      && forall t, data, h, i :: Reads(s, t, len, data, h, i) ==> data == [] && t == s
  {
    var x, y := Full(p.payload, p.header, 1), Full(q.payload, q.header, 1);
    var s0, s1 := Inbox([Empty, Empty, Empty], 0, 0, 0), Inbox([x, Empty, Empty], 0, 0, 0);
    var s := Inbox([x, y, Empty], 0, 1, 0);
    var inboxes, events := [s0, s1, s], [Arrived(0), Arrived(1)];
    assert s0.v[0 := x] == s1.v && s1.v[1 := y] == s.v;
    assert Run(inboxes, events, [p, q, r]) && inboxes[|events|] == s;
    hide Run, Follows;
    NoneEnds(x, y);
    assert Follows(s, Counting(1), s, [p, q, r]) by { CountsHere(x, y, [p, q, r]); }
    forall t, data, h, i | Reads(s, t, len, data, h, i) ensures data == [] && t == s {
      ReadsNoneHere(x, y, t, len, data, h, i);
    }
  }

  lemma NoneEnds(x: Slot, y: Slot)
    requires Fresh(x) && Fresh(y) && x.header.first && !x.header.last && !y.header.first && !y.header.last
    ensures HeadAt([x, y, Empty], 2) == 0 && NoneBefore([x, y, Empty], 3, 0)
    ensures Passed([x, y, Empty], 0) == [x, y, Empty]
  {
    var v := [x, y, Empty];
    assert HeadAt(v, 1) == 0 && HeadAt(v, 3) == -1;
    assert forall i :: 0 <= i < 3 ==> !Eligible(v, i, 0);
  }

  lemma CountsHere(x: Slot, y: Slot, history: seq<Packet>)
    requires Fresh(x) && Fresh(y) && x.header.first && !x.header.last && !y.header.first && !y.header.last
    ensures var s := Inbox([x, y, Empty], 0, 1, 0); Follows(s, Counting(1), s, history)
  {
    hide HeadAt, Eligible;
    NoneEnds(x, y);
  }

  lemma ReadsNoneHere(x: Slot, y: Slot, t: Inbox, len: nat, data: Payload, h: int, i: int)
    requires Fresh(x) && Fresh(y) && x.header.first && !x.header.last && !y.header.first && !y.header.last
    requires Reads(Inbox([x, y, Empty], 0, 1, 0), t, len, data, h, i)
    ensures data == [] && t == Inbox([x, y, Empty], 0, 1, 0)
  {
    hide HeadAt, Eligible, Handed, Copied, Passed;
    NoneEnds(x, y);
  }

  // --- The sender's messages ------------------------------------------------

  /** What the user hands to `sendmsg`, with the number the sender gives it. */
  datatype Post = Post(data: Payload, inOrder: bool, no: nat)

  /** The packets of the messages sent. */
  function Posted(posts: seq<Post>, mss: nat): seq<Packet>
    requires mss > 0
  {
    if posts == [] then [] else
      var p := posts[|posts| - 1];
      Posted(posts[..|posts| - 1], mss) + Framed(Chunks(p.data, mss), p.inOrder, p.no)
  }

  /** Message `k` of those sent is packets `a` to `b`. */
  ghost predicate IsPost(posts: seq<Post>, mss: nat, k: int, a: int, b: int)
    requires mss > 0
  {
    0 <= k < |posts| && a == |Posted(posts[..k], mss)| && b + 1 == |Posted(posts[..k + 1], mss)|
  }

  lemma ChunksSome(data: Payload, mss: nat)
    requires mss > 0 && data != []
    ensures Chunks(data, mss) != []
  {}

  lemma {:induction false} PostedFramed(posts: seq<Post>, mss: nat)
    requires mss > 0 && forall k :: 0 <= k < |posts| ==> posts[k].data != []
    ensures WellFramed(Posted(posts, mss)) && (posts != [] ==> Posted(posts, mss) != [])
  {
    hide Chunks;
    if posts != [] {
      var rest, p := posts[..|posts| - 1], posts[|posts| - 1];
      PostedFramed(rest, mss);
      ChunksSome(p.data, mss);
      FramedNext(Posted(rest, mss), Chunks(p.data, mss), p.inOrder, p.no);
    }
  }

  lemma FramedNext(history: seq<Packet>, chunks: seq<Payload>, inOrder: bool, no: nat)
    requires WellFramed(history) && chunks != []
    ensures WellFramed(history + Framed(chunks, inOrder, no))
  {
    var more := Framed(chunks, inOrder, no);
    var all := history + more;
    forall n | 0 <= n < |all| - 1 ensures all[n].header.last <==> all[n + 1].header.first {
      if n < |history| - 1 {
        assert all[n] == history[n] && all[n + 1] == history[n + 1];
      } else if n >= |history| {
        assert all[n] == more[n - |history|] && all[n + 1] == more[n + 1 - |history|];
      }
    }
  }

  lemma {:induction false} FramedBytes(chunks: seq<Payload>, q: seq<Packet>)
    requires |q| == |chunks| && forall k :: 0 <= k < |q| ==> q[k].payload == chunks[k]
    ensures PacketBytes(q) == Flatten(chunks)
  {
    if q != [] {
      var k := |q| - 1;
      FramedBytes(chunks[..k], q[..k]);
      FlattenNext(chunks, k);
      assert chunks[..k + 1] == chunks;
    }
  }

  lemma PostedNext(posts: seq<Post>, mss: nat, p: Post)
    requires mss > 0
    ensures Posted(posts + [p], mss) == Posted(posts, mss) + Framed(Chunks(p.data, mss), p.inOrder, p.no)
  {
    hide Chunks, Framed;
    assert (posts + [p])[..|posts|] == posts;
  }

  /** Messages sent later come later. */
  lemma {:induction false} PostedGrows(posts: seq<Post>, mss: nat, j: nat, k: nat)
    requires mss > 0 && j <= k <= |posts|
    ensures |Posted(posts[..j], mss)| <= |Posted(posts[..k], mss)|
    decreases k
  {
    hide Chunks, Framed, Posted;
    if j < k {
      PostedGrows(posts, mss, j, k - 1);
      PostedNext(posts[..k - 1], mss, posts[k - 1]);
      assert posts[..k - 1] + [posts[k - 1]] == posts[..k];
    }
  }

  /** Messages with a packet in common are the same. */
  lemma SamePost(posts: seq<Post>, mss: nat, j: nat, k: nat, a: int, b: int, c: int, d: int, n: int)
    requires mss > 0 && IsPost(posts, mss, j, a, b) && IsPost(posts, mss, k, c, d) && a <= n <= b && c <= n <= d
    ensures j == k
  {
    hide Posted;
    if j < k {
      PostedGrows(posts, mss, j + 1, k);
    } else if k < j {
      PostedGrows(posts, mss, k + 1, j);
    }
  }

  /** A message has a packet. */
  lemma PostSome(posts: seq<Post>, mss: nat, k: nat)
    requires mss > 0 && k < |posts| && posts[k].data != []
    ensures |Posted(posts[..k], mss)| < |Posted(posts[..k + 1], mss)| <= |Posted(posts, mss)|
  {
    hide Chunks, Framed, Posted;
    ChunksSome(posts[k].data, mss);
    PostedNext(posts[..k], mss, posts[k]);
    assert posts[..k] + [posts[k]] == posts[..k + 1];
    PostedGrows(posts, mss, k + 1, |posts|);
    assert posts[..|posts|] == posts;
  }

  lemma PostKept(posts: seq<Post>, mss: nat, k: int, a: int, b: int)
    requires mss > 0 && posts != [] && IsPost(posts[..|posts| - 1], mss, k, a, b)
    ensures IsPost(posts, mss, k, a, b)
  {
    hide Posted;
    var rest := posts[..|posts| - 1];
    assert rest[..k] == posts[..k] && rest[..k + 1] == posts[..k + 1];
  }

  /** A whole message is one that was sent: it carries exactly its bytes. */
  lemma {:induction false} MessageIsPost(posts: seq<Post>, mss: nat, a: int, b: int) returns (k: nat)
    requires mss > 0 && (forall k :: 0 <= k < |posts| ==> posts[k].data != []) && WholeMessage(Posted(posts, mss), a, b)
    ensures k < |posts| && PacketBytes(Posted(posts, mss)[a..b + 1]) == posts[k].data
    ensures Posted(posts, mss)[b].header.inOrder == posts[k].inOrder
    ensures IsPost(posts, mss, k, a, b)
  {
    hide Chunks, PacketBytes, Framed;
    var q := Posted(posts, mss);
    assert posts != [];
    hide Posted;
    var rest, p := posts[..|posts| - 1], posts[|posts| - 1];
    var before, more := Posted(rest, mss), Framed(Chunks(p.data, mss), p.inOrder, p.no);
    PostedNext(rest, mss, p);
    assert rest + [p] == posts;
    if b < |before| {
      assert before[a..b + 1] == q[a..b + 1];
      EarlierMessage(before, more, a, b);
      k := MessageIsPost(rest, mss, a, b);
      PostKept(posts, mss, k, a, b);
    } else {
      k := |posts| - 1;
      PostedFramed(rest, mss);
      LastPost(before, p, mss, a, b);
      assert posts[..k + 1] == posts;
    }
  }

  /** The message sent last. */
  lemma LastPost(before: seq<Packet>, p: Post, mss: nat, a: int, b: int)
    requires mss > 0 && p.data != [] && WellFramed(before)
    requires var q := before + Framed(Chunks(p.data, mss), p.inOrder, p.no); WholeMessage(q, a, b) && b >= |before|
    ensures var q := before + Framed(Chunks(p.data, mss), p.inOrder, p.no);
            && a == |before| && b + 1 == |q| && PacketBytes(q[a..b + 1]) == p.data
            && q[b].header.inOrder == p.inOrder
  {
    hide Chunks, PacketBytes;
    var chunks := Chunks(p.data, mss);
    var more := Framed(chunks, p.inOrder, p.no);
    ChunksSome(p.data, mss);
    LastMessage(before, chunks, p.inOrder, p.no, a, b);
    assert (before + more)[a..b + 1] == more;
    FramedBytes(chunks, more);
    ChunksRoundTrip(p.data, mss);
  }

  lemma EarlierMessage(before: seq<Packet>, more: seq<Packet>, a: int, b: int)
    requires WholeMessage(before + more, a, b) && b < |before|
    ensures WholeMessage(before, a, b)
  {
    forall n | a <= n <= b ensures before[n] == (before + more)[n] {}
  }

  lemma LastMessage(before: seq<Packet>, chunks: seq<Payload>, inOrder: bool, no: nat, a: int, b: int)
    requires WellFramed(before) && chunks != [] && WholeMessage(before + Framed(chunks, inOrder, no), a, b) &&
             b >= |before|
    ensures a == |before| && b == |before| + |chunks| - 1
    ensures (before + Framed(chunks, inOrder, no))[b].header.inOrder == inOrder
  {
    var m, more := |before|, Framed(chunks, inOrder, no);
    var q := before + more;
    assert m > 0 ==> q[m - 1] == before[m - 1] && q[m - 1].header.last;
    assert a >= m && q[a] == more[a - m] && q[b] == more[b - m];
  }

  // --- Messages sent and messages given ------------------------------------------

  /** A run in which the packets are those of the messages sent. */
  ghost predicate Record(posts: seq<Post>, mss: nat, inboxes: seq<Inbox>, events: seq<Event>) {
    mss > 0 && (forall k :: 0 <= k < |posts| ==> posts[k].data != []) && Run(inboxes, events, Posted(posts, mss))
  }

  /** Event `x` gave message `k`. */
  ghost predicate GaveMsg(posts: seq<Post>, mss: nat, inboxes: seq<Inbox>, events: seq<Event>, x: int, k: int)
    requires mss > 0
  {
    exists a, b :: Gave(inboxes, events, Posted(posts, mss), x, a, b) && IsPost(posts, mss, k, a, b)
  }

  /** A read gives one whole message, cut to the length asked for, or nothing; and nothing only
      if there is no message that could be given, or one is hidden. */
  lemma WholeOrNothing(posts: seq<Post>, mss: nat, inboxes: seq<Inbox>, events: seq<Event>, x: nat) returns (k: int)
    requires Record(posts, mss, inboxes, events) && x < |events| && events[x].Asked?
    ensures -1 <= k < |posts|
    ensures k == -1 ==>
              && events[x].data == []
              && (LeavesOne(inboxes[x], inboxes[x + 1], Posted(posts, mss)) <==> Hidden(inboxes[x]))
    ensures k >= 0 ==>
              && GaveMsg(posts, mss, inboxes, events, x, k)
              && events[x].data == posts[k].data[..Min(events[x].len, |posts[k].data|)]
  {
    hide Posted, PacketBytes, WholeMessage, Good, WellFramed, ReturnsNothing, Follows, Returned, LeavesOne, Hidden,
         IsPost, Run, Reads;
    var q := Posted(posts, mss);
    PostedFramed(posts, mss);
    RunGood(inboxes, events, q, x);
    RunAt(inboxes, events, q, x);
    OneEvent(inboxes[x], events[x], inboxes[x + 1], q);
    k := -1;
    if ReturnsNothing(inboxes[x], inboxes[x + 1], q, events[x].data) {
      NothingData(inboxes[x], inboxes[x + 1], q, events[x].data);
      AskedReads(inboxes[x], events[x], inboxes[x + 1], q);
      OverlooksExactly(inboxes[x], inboxes[x + 1], q, events[x].len, events[x].data, events[x].h, events[x].i);
    } else {
      var a, b :| Returns(inboxes[x], inboxes[x + 1], q, events[x].len, events[x].data, a, b);
      k := MessageIsPost(posts, mss, a, b);
      assert Gave(inboxes, events, q, x, a, b);
    }
  }

  lemma RunAt(inboxes: seq<Inbox>, events: seq<Event>, history: seq<Packet>, x: nat)
    requires Run(inboxes, events, history) && x < |events|
    ensures |inboxes| == |events| + 1 && Follows(inboxes[x], events[x], inboxes[x + 1], history)
  {
    hide Follows;
  }

  lemma NothingData(s: Inbox, t: Inbox, history: seq<Packet>, data: Payload)
    requires ReturnsNothing(s, t, history, data)
    ensures data == []
  {}

  lemma AskedReads(s: Inbox, e: Event, t: Inbox, history: seq<Packet>)
    requires Follows(s, e, t, history) && e.Asked?
    ensures s.acked <= |s.v| && Reads(s, t, e.len, e.data, e.h, e.i)
  {}

  /** Each message is given at most once. */
  lemma AtMostOnce(posts: seq<Post>, mss: nat, inboxes: seq<Inbox>, events: seq<Event>, x: nat, y: nat, k: int)
    requires Record(posts, mss, inboxes, events)
    requires GaveMsg(posts, mss, inboxes, events, x, k) && GaveMsg(posts, mss, inboxes, events, y, k)
    ensures x == y
  {
    hide Posted, PacketBytes, WholeMessage, Run, Follows, Returned, WellFramed;
    var q := Posted(posts, mss);
    PostedFramed(posts, mss);
    PostSome(posts, mss, k);
    var a, b :| Gave(inboxes, events, q, x, a, b) && IsPost(posts, mss, k, a, b);
    var c, d :| Gave(inboxes, events, q, y, c, d) && IsPost(posts, mss, k, c, d);
    if x < y {
      NeverTwice(inboxes, events, q, x, a, b, y, c, d);
    } else if y < x {
      NeverTwice(inboxes, events, q, y, c, d, x, a, b);
    }
  }

  /** A message bound to order is given only after all that were sent before it. */
  lemma AfterEarlier(posts: seq<Post>, mss: nat, inboxes: seq<Inbox>, events: seq<Event>, x: nat, k: int, j: nat)
    returns (y: nat)
    requires Record(posts, mss, inboxes, events)
    requires GaveMsg(posts, mss, inboxes, events, x, k) && 0 <= j < k < |posts| && posts[k].inOrder
    ensures y < x && GaveMsg(posts, mss, inboxes, events, y, j)
  {
    hide Posted, PacketBytes, WholeMessage, Run, Follows, Returned, WellFramed;
    var q := Posted(posts, mss);
    PostedFramed(posts, mss);
    PostSome(posts, mss, j);
    PostedGrows(posts, mss, j + 1, k);
    var a, b :| Gave(inboxes, events, q, x, a, b) && IsPost(posts, mss, k, a, b);
    PostFlagged(posts, mss, k, a, b);
    var n := |Posted(posts[..j], mss)|;
    var c, d;
    y, c, d := InTurn(inboxes, events, q, x, a, b, n);
    var i := MessageIsPost(posts, mss, c, d);
    SamePost(posts, mss, i, j, c, d, n, |Posted(posts[..j + 1], mss)| - 1, n);
    assert Gave(inboxes, events, q, y, c, d) && IsPost(posts, mss, j, c, d);
  }

  lemma PostFlagged(posts: seq<Post>, mss: nat, k: int, a: int, b: int)
    requires mss > 0 && (forall j :: 0 <= j < |posts| ==> posts[j].data != [])
    requires IsPost(posts, mss, k, a, b) && WholeMessage(Posted(posts, mss), a, b)
    ensures Posted(posts, mss)[b].header.inOrder == posts[k].inOrder
  {
    hide Posted, PacketBytes;
    var i := MessageIsPost(posts, mss, a, b);
    SamePost(posts, mss, i, k, a, b, a, b, a);
  }
}
