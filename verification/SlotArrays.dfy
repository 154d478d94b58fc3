/** The receiver's slots in order from the read position, and what message reading looks for
    in them. */
module SlotArrays {
  import opened Bytes
  import opened Modular
  import opened SndBuffers

  /** What a slot holds: a packet and the flag of its unit, or nothing. The flag is 1 for a
      packet not read yet and 2 for one read before its turn. */
  datatype Slot = Empty | Full(payload: Payload, header: Header, flag: int)

  /** One slot stays empty, and nothing lies beyond the furthest position. */
  ghost predicate Spare(slots: seq<Slot>, acked: int, maxPos: int) {
    slots != [] && slots[|slots| - 1].Empty? && maxPos + acked < |slots|
  }

  /** The packets in the first `n` slots. */
  function Payloads(slots: seq<Slot>, n: nat): (units: seq<Payload>)
    requires n <= |slots| && forall d :: 0 <= d < n ==> slots[d].Full?
    ensures |units| == n && forall d :: 0 <= d < n ==> units[d] == slots[d].payload
  {
    seq(n, d requires 0 <= d < n => slots[d].payload)
  }

  /** The first `k` slots emptied in place. */
  function Emptied(slots: seq<Slot>, k: nat): (v: seq<Slot>)
    requires k <= |slots|
    ensures |v| == |slots|
  {
    seq(k, _ => Empty) + slots[k..]
  }

  lemma EmptiedNext(slots: seq<Slot>, k: nat)
    requires k < |slots|
    ensures Emptied(slots, k)[k] == slots[k] && Emptied(slots, k)[k := Empty] == Emptied(slots, k + 1)
    ensures Emptied(slots, 0) == slots
    ensures Emptied(slots, k)[k..] + Emptied(slots, k)[..k] == slots[k..] + seq(k, _ => Empty)
    ensures k > 0 ==> Emptied(slots, k)[k - 1].Empty?
  {}

  /** A circle read from place `s`. */
  function Rotated<T>(a: seq<T>, s: int): (b: seq<T>)
    requires 0 <= s < |a|
    ensures |b| == |a|
  {
    a[s..] + a[..s]
  }

  /** The place `d` after place `s`. */
  function Around(s: int, d: int, size: int): (p: int)
    requires 0 <= s < size && 0 <= d < size
    ensures 0 <= p < size
  {
    if s + d < size then s + d else s + d - size
  }

  lemma RotatedAt<T>(a: seq<T>, s: int, d: int)
    requires 0 <= s < |a| && 0 <= d < |a|
    ensures Rotated(a, s)[d] == a[Around(s, d, |a|)]
  {}

  /** Turning a circle twice is turning it by the sum. */
  lemma RotatedTwice<T>(a: seq<T>, s: int, k: int)
    requires 0 <= s < |a| && 0 <= k < |a|
    ensures Rotated(a, Around(s, k, |a|)) == Rotated(Rotated(a, s), k)
  {
    var t, b := Around(s, k, |a|), Rotated(a, s);
    forall d | 0 <= d < |a| ensures Rotated(a, t)[d] == Rotated(b, k)[d] {
      RotatedAt(a, t, d);
      RotatedAt(b, k, d);
      RotatedAt(a, s, Around(k, d, |a|));
      hide Rotated;
    }
  }

  lemma RotatedWrite<T>(a: seq<T>, s: int, d: int, x: T)
    requires 0 <= s < |a| && 0 <= d < |a|
    ensures Rotated(a[Around(s, d, |a|) := x], s) == Rotated(a, s)[d := x]
  {}

  /** Places up to one short of the circle do not meet. */
  lemma AroundSucc(s: int, h: int, i: int, size: int)
    requires 0 <= s < size && 0 <= h <= i < size
    ensures i < size - 1 ==> Around(s, h, size) != Succ(Around(s, i, size), size)
  {}

  /** The place two after another is a given one before it only right round the circle. */
  lemma AroundNext(s: int, h: int, e: int, size: int)
    requires 0 <= s < size && 0 <= h < e <= size && size > 1
    ensures var q := if e < size then Around(s, e, size) else s;
            Succ(q, size) == Around(s, h, size) <==> e + 1 == h + size
  {}

  /** Turning past an empty slot leaves one to spare. */
  lemma SpareRotated(slots: seq<Slot>, acked: int, maxPos: int, k: int)
    requires Spare(slots, acked, maxPos) && 0 <= k < |slots| && (k > 0 ==> slots[k - 1].Empty?)
    ensures Spare(Rotated(slots, k), acked - k, maxPos)
  {}

  /** A packet put `offset` slots after the acknowledged ones, or turned away; `w` and
      `maxAfter` are what the slots and the furthest position become. */
  ghost predicate Placed(v: seq<Slot>, acked: int, maxPos: int, offset: int, x: Slot, ok: bool, w: seq<Slot>,
          maxAfter: int) {
    var d := acked + offset;
    if ok then 0 <= offset && 0 <= d < |v| && v[d].Empty? && w == v[d := x] && maxAfter == Max(maxPos, offset)
    else
      && w == v
      && (maxAfter == maxPos || (0 <= offset && 0 <= d < |v| && v[d].Full? && maxAfter == Max(maxPos, offset)))
  }

  lemma PlacedNone(v: seq<Slot>, acked: int, maxPos: int, offset: int, x: Slot)
    ensures Placed(v, acked, maxPos, offset, x, false, v, maxPos)
  {}

  // --- Messages -------------------------------------------------------------

  /** A packet that is there and not read yet. */
  predicate Fresh(s: Slot) {
    s.Full? && s.flag == 1
  }

  /** Looking ahead from slot `e`: unread packets up to the end of a message, or up to the
      last acknowledged one. */
  predicate WholeFrom(v: seq<Slot>, e: nat, acked: nat)
    requires e <= acked <= |v|
    decreases acked - e
  {
    e == acked || (Fresh(v[e]) && (v[e].header.last || WholeFrom(v, e + 1, acked)))
  }

  /** Slot `t` begins a message that may be read. */
  predicate GoodAt(v: seq<Slot>, t: nat, acked: nat)
    requires t < acked <= |v|
  {
    Fresh(v[t]) && v[t].header.first && WholeFrom(v, t, acked)
  }

  /** How many acknowledged slots from `t` on are dropped before one begins such a message. */
  function BadFrom(v: seq<Slot>, t: nat, acked: nat): (k: nat)
    requires t <= acked <= |v|
    ensures k <= acked - t
    decreases acked - t
  {
    if t == acked || GoodAt(v, t, acked) then 0 else 1 + BadFrom(v, t + 1, acked)
  }

  /** The slots dropped are those before the first that begins such a message. */
  lemma {:induction false} BadExact(v: seq<Slot>, t: nat, acked: nat)
    requires t <= acked <= |v|
    ensures var k := t + BadFrom(v, t, acked);
            (forall i :: t <= i < k ==> !GoodAt(v, i, acked)) && (k < acked ==> GoodAt(v, k, acked))
    decreases acked - t
  {
    hide GoodAt;
    if t < acked && !GoodAt(v, t, acked) {
      BadExact(v, t + 1, acked);
    }
  }

  /** A message may be read as far as it is acknowledged when its packets are unread up to the
      first that ends it. */
  lemma {:induction false} WholeExact(v: seq<Slot>, e: nat, acked: nat)
    requires e <= acked <= |v|
    ensures WholeFrom(v, e, acked) <==>
            forall i :: e <= i < acked && (forall j :: e <= j < i ==> !(Fresh(v[j]) && v[j].header.last)) ==>
              Fresh(v[i])
    decreases acked - e
  {
    hide Fresh;
    if e < acked {
      WholeExact(v, e + 1, acked);
    }
  }

  /** The first `k` slots emptied and passed. */
  function Passed(v: seq<Slot>, k: nat): (w: seq<Slot>)
    requires k <= |v|
    ensures |w| == |v|
  {
    v[k..] + seq(k, _ => Empty)
  }

  lemma PassedNext(v: seq<Slot>, k: nat)
    requires k < |v|
    ensures var w := Passed(v, k);
            w[0] == v[k] && w[0 := Empty][1..] + w[0 := Empty][..1] == Passed(v, k + 1)
    ensures Passed(v, 0) == v
  {
    var w := Passed(v, k)[0 := Empty];
    assert w[1..] + w[..1] == Passed(v, k + 1);
  }

  /** Looking ahead after passing slots is looking ahead from further on. */
  lemma {:induction false} WholePassed(v: seq<Slot>, k: nat, e: nat, acked: nat)
    requires k + e <= acked <= |v|
    ensures WholeFrom(Passed(v, k), e, acked - k) == WholeFrom(v, k + e, acked)
    decreases acked - k - e
  {
    if k + e < acked {
      WholePassed(v, k, e + 1, acked);
      assert Passed(v, k)[e] == v[k + e];
    }
  }

  /** How a slot is found good or bad once the ones before it are passed. */
  lemma BadNext(v: seq<Slot>, k: nat, acked: nat)
    requires k <= acked <= |v|
    ensures k == acked ==> BadFrom(v, k, acked) == 0
    ensures k < acked ==>
              && (GoodAt(v, k, acked) <==> Fresh(v[k]) && v[k].header.first && WholeFrom(Passed(v, k), 0, acked - k))
              && BadFrom(v, k, acked) == if GoodAt(v, k, acked) then 0 else 1 + BadFrom(v, k + 1, acked)
  {
    if k < acked {
      WholePassed(v, k, 0, acked);
    }
  }

  lemma PassedAgain(v: seq<Slot>, k: nat)
    requires k < |v|
    ensures Passed(Passed(v, k), 1) == Passed(v, k + 1)
  {}

  /** Where the message that slot `i - 1` belongs to begins, as far as the packets before
      slot `i` show: -1 when a hole or a packet read before comes between. */
  function HeadAt(v: seq<Slot>, i: nat): (h: int)
    requires i <= |v|
    ensures -1 <= h < i
    ensures h >= 0 ==> v[h].Full? && v[h].header.first && forall d :: h <= d < i ==> Fresh(v[d])
    ensures forall d :: h < d < i && d >= 0 && Fresh(v[d]) && (forall x :: d <= x < i ==> Fresh(v[x])) ==>
            !v[d].header.first
  {
    if i == 0 || !Fresh(v[i - 1]) then -1
    else if v[i - 1].header.first then i - 1
    else HeadAt(v, i - 1)
  }

  /** Slot `i` ends a message that may be returned: all acknowledged, or not bound to order. */
  predicate Eligible(v: seq<Slot>, i: nat, acked: nat)
    requires i < |v|
  {
    Fresh(v[i]) && v[i].header.last && HeadAt(v, i + 1) != -1 && (i < acked || !v[i].header.inOrder)
  }

  /** A slot emptied, or marked as read. */
  function Taken1(x: Slot, early: bool): Slot {
    if !early then Empty else if x.Full? then x.(flag := 2) else x
  }

  /** Slots `h` to `h + k - 1` are emptied, or marked as read. */
  function Marked(v: seq<Slot>, h: nat, k: nat, early: bool): (w: seq<Slot>)
    ensures |w| == |v|
    ensures forall d :: 0 <= d < |v| ==> w[d] == if h <= d < h + k then Taken1(v[d], early) else v[d]
  {
    seq(|v|, d requires 0 <= d < |v| => if h <= d < h + k then Taken1(v[d], early) else v[d])
  }

  lemma MarkedNext(v: seq<Slot>, h: nat, k: nat, early: bool)
    requires h + k < |v|
    ensures Marked(v, h, k, early)[h + k] == v[h + k]
    ensures Marked(v, h, k, early)[h + k := Taken1(v[h + k], early)] == Marked(v, h, k + 1, early)
    ensures Marked(v, h, 0, early) == v
  {}

  /** The bytes of slots `h` to `h + k - 1`. */
  function BytesAt(v: seq<Slot>, h: nat, k: nat): Payload
    requires h + k <= |v| && forall d :: h <= d < h + k ==> v[d].Full?
  {
    if k == 0 then [] else BytesAt(v, h, k - 1) + v[h + k - 1].payload
  }

  /** `data` is the first `len` bytes of slots `h` to `h + k - 1`, all filled. */
  ghost predicate Copied(v: seq<Slot>, h: nat, k: nat, len: nat, data: Payload) {
    && h + k <= |v| && (forall d :: h <= d < h + k ==> v[d].Full?)
    && var all := BytesAt(v, h, k); data == all[..Min(len, |all|)]
  }

  lemma CopiedNone(v: seq<Slot>, h: nat, len: nat)
    requires h <= |v|
    ensures Copied(v, h, 0, len, [])
  {}

  /** One more slot is copied, as far as the length goes. */
  lemma CopiedNext(v: seq<Slot>, h: nat, k: nat, len: nat, data: Payload)
    requires Copied(v, h, k, len, data) && h + k < |v| && v[h + k].Full?
    ensures |data| <= len
    ensures Copied(v, h, k + 1, len, data + v[h + k].payload[..Min(len - |data|, |v[h + k].payload|)])
  {
    hide BytesAt;
    BytesNext(v, h, k);
    TakeMore(BytesAt(v, h, k), v[h + k].payload, len);
  }

  lemma BytesNext(v: seq<Slot>, h: nat, k: nat)
    requires h + k < |v| && forall d :: h <= d < h + k + 1 ==> v[d].Full?
    ensures BytesAt(v, h, k + 1) == BytesAt(v, h, k) + v[h + k].payload
  {}

  /** The first `len` of the bytes so far, then what of the next packet still fits. */
  lemma TakeMore(all: Payload, x: Payload, len: nat)
    ensures var rs := len - Min(len, |all|);
            all[..Min(len, |all|)] + x[..Min(rs, |x|)] == (all + x)[..Min(len, |all + x|)]
  {}

  /** The sender's framing: of two packets next to each other the first ends its message
      exactly when the second begins one. */
  ghost predicate Chained(v: seq<Slot>) {
    forall d :: 0 <= d < |v| - 1 && v[d].Full? && v[d + 1].Full? ==> (v[d].header.last <==> v[d + 1].header.first)
  }

  lemma PassedChained(v: seq<Slot>, k: nat)
    requires Chained(v) && k <= |v|
    ensures Chained(Passed(v, k))
  {
    var w := Passed(v, k);
    forall d | 0 <= d < |w| - 1 && w[d].Full? && w[d + 1].Full? ensures w[d].header.last <==> w[d + 1].header.first {
      assert w[d] == v[k + d] && w[d + 1] == v[k + d + 1];
    }
  }

  /** No slot before slot `i` ends a message that may be returned. */
  ghost predicate NoneBefore(v: seq<Slot>, i: int, acked: nat)
    requires i <= |v|
  {
    forall x :: 0 <= x < i ==> !Eligible(v, x, acked)
  }

  lemma {:induction false} FirstHead(v: seq<Slot>, e: nat, i: nat, acked: nat)
    requires Chained(v) && e <= i < acked <= |v| && WholeFrom(v, e, acked)
    requires if e == 0 then v[0].Full? && v[0].header.first else HeadAt(v, e) == 0 && !v[e - 1].header.last
    requires Eligible(v, i, acked) && NoneBefore(v, i, acked)
    ensures HeadAt(v, i + 1) == 0
    decreases i - e
  {
    assert HeadAt(v, e + 1) == 0;
    if e < i {
      assert !Eligible(v, e, acked);
      FirstHead(v, e + 1, i, acked);
    }
  }

  lemma {:induction false} BadEnds(v: seq<Slot>, t: nat, acked: nat)
    requires t <= acked <= |v| && t + BadFrom(v, t, acked) < acked
    ensures GoodAt(v, t + BadFrom(v, t, acked), acked)
    decreases acked - t
  {
    if t < acked && !GoodAt(v, t, acked) {
      BadEnds(v, t + 1, acked);
    }
  }

  /** Once the bad slots are passed, a message found among the acknowledged slots starts at
      the read position. */
  lemma FoundWhere(v0: seq<Slot>, acked0: nat, k: nat, v: seq<Slot>, i: nat)
    requires Chained(v0) && acked0 <= |v0| && k == BadFrom(v0, 0, acked0) && v == Passed(v0, k) && i < |v|
    requires Eligible(v, i, acked0 - k) && NoneBefore(v, i, acked0 - k)
    ensures var h := HeadAt(v, i + 1);
            (i < acked0 - k ==> h == 0) && 0 <= h <= i && forall d :: h <= d <= i ==> v[d].Full?
  {
    if i < acked0 - k {
      BadEnds(v0, 0, acked0);
      BadNext(v0, k, acked0);
      PassedChained(v0, k);
      assert v[0] == v0[k];
      FirstHead(v, 0, i, acked0 - k);
    }
  }

  lemma MarkedPassed(v: seq<Slot>, k: nat)
    requires k <= |v|
    ensures k < |v| ==> Rotated(Marked(v, 0, k, false), k) == Passed(v, k)
    ensures k > 0 ==> Marked(v, 0, k, false)[k - 1].Empty?
  {}

  /** Message slots `h` to `i` of `v`, handed over; `w` and `ackedAfter` are what remains. */
  ghost predicate Handed(v: seq<Slot>, acked: nat, h: int, i: int, w: seq<Slot>, ackedAfter: int) {
    0 <= h <= i < |v| &&
    if i < acked then h == 0 && w == Passed(v, i + 1) && ackedAfter == acked - (i + 1)
    else w == Marked(v, h, i + 1 - h, true) && ackedAfter == acked
  }

  /** What `ReadMsg` does to slots `v` once bad slots are dropped: `i` is the first slot that
      ends a message that may be returned, none when it is past slot `n`. */
  ghost predicate Taken(v: seq<Slot>, acked: nat, n: int, len: nat, data: Payload, h: int, i: int, w: seq<Slot>,
          ackedAfter: int) {
    0 <= i <= |v| && NoneBefore(v, i, acked) &&
    if i <= n then
      && i < |v| && Eligible(v, i, acked) && h == HeadAt(v, i + 1)
      && Handed(v, acked, h, i, w, ackedAfter) && Copied(v, h, i + 1 - h, len, data)
    else data == [] && w == v && ackedAfter == acked
  }

  /** The packets of one message that goes on fill slots 0 to `n`, all but one of the array. */
  predicate Filled(v: seq<Slot>, n: int) {
    0 <= n == |v| - 2 && HeadAt(v, n + 1) == 0
  }

  /** Whether a message is counted: one that may be returned, or one that fills the array. */
  ghost predicate Counted(v: seq<Slot>, acked: nat, n: int) {
    (exists i :: 0 <= i <= n && i < |v| && Eligible(v, i, acked)) || Filled(v, n)
  }

  /** What `ReadMsg` does to slots `v`, of which `acked` are acknowledged and none that is
      filled lies more than `maxPos` places after those. */
  ghost predicate Msg(v: seq<Slot>, acked: nat, maxPos: int, len: nat, data: Payload, h: int, i: int, w: seq<Slot>,
          ackedAfter: int)
    requires acked <= |v|
  {
    if acked == 0 && maxPos <= 0 then
      data == [] && w == v && ackedAfter == acked
    else
      var k := BadFrom(v, 0, acked);
      Taken(Passed(v, k), acked - k, maxPos + acked - k, len, data, h, i, w, ackedAfter)
  }

  /** What `GetRcvMsgNum` does to slots `v`, and what it answers. */
  ghost predicate Scanned(v: seq<Slot>, acked: nat, maxPos: int, count: int, w: seq<Slot>, ackedAfter: int)
    requires acked <= |v|
  {
    if acked == 0 && maxPos <= 0 then count == 0 && w == v && ackedAfter == acked
    else
      var k := BadFrom(v, 0, acked);
      && w == Passed(v, k) && ackedAfter == acked - k
      && count == if Counted(w, acked - k, maxPos + acked - k) then 1 else 0
  }
}
