/** Byte strings, their concatenation and their division into packets. */
module Bytes {
  import opened Modular

  newtype Byte = x: int | 0 <= x < 0x100

  /** What one data packet carries. */
  type Payload = seq<Byte>

  datatype Option<+T> = None | Some(value: T)

  function Min(a: int, b: int): int {
    if a < b then a else b
  }

  function Max(a: int, b: int): int {
    if a < b then b else a
  }

  /** The bytes of a run of packets, in order. */
  function Flatten(parts: seq<Payload>): Payload {
    if parts == [] then [] else parts[0] + Flatten(parts[1..])
  }

  lemma FlattenHead(parts: seq<Payload>)
    ensures Flatten([]) == []
    ensures parts != [] ==> Flatten(parts) == parts[0] + Flatten(parts[1..])
  {}

  lemma AppendHead<T>(a: seq<T>, b: seq<T>)
    ensures if a == [] then a + b == b else (a + b)[0] == a[0] && (a + b)[1..] == a[1..] + b
  {}

  lemma Associative<T>(x: seq<T>, y: seq<T>, z: seq<T>)
    ensures x + (y + z) == x + y + z && [] + z == z
  {}

  /** A sequence cut in two. */
  lemma CutAt<T>(a: seq<T>, k: nat)
    requires k <= |a|
    ensures a == a[..k] + a[k..]
    ensures k < |a| ==> a[k..] != [] && a[k..][0] == a[k] && a[k..][1..] == a[k + 1..]
  {}

  lemma {:induction false} FlattenAppend(a: seq<Payload>, b: seq<Payload>)
    ensures Flatten(a + b) == Flatten(a) + Flatten(b)
  {
    hide Flatten;
    FlattenHead(a);
    FlattenHead(a + b);
    AppendHead(a, b);
    if a == [] {
      Associative(a[..0], a[..0], b);
      assert Flatten(a) + Flatten(b) == Flatten(b);
    } else {
      FlattenAppend(a[1..], b);
      Associative(a[0], Flatten(a[1..]), Flatten(b));
    }
  }

  lemma FlattenSplit(parts: seq<Payload>, k: nat)
    requires k <= |parts|
    ensures Flatten(parts) == Flatten(parts[..k]) + Flatten(parts[k..])
  {
    hide Flatten;
    CutAt(parts, k);
    FlattenAppend(parts[..k], parts[k..]);
  }

  lemma FlattenNext(parts: seq<Payload>, k: nat)
    requires k < |parts|
    ensures Flatten(parts[..k + 1]) == Flatten(parts[..k]) + parts[k]
  {
    FlattenAppend(parts[..k], [parts[k]]);
    assert parts[..k + 1] == parts[..k] + [parts[k]];
    assert Flatten([parts[k]]) == parts[k];
  }

  /** The packets `data` is cut into: all full except possibly the last. */
  function Chunks(data: Payload, mss: nat): (parts: seq<Payload>)
    requires mss > 0
    decreases |data|
  {
    if data == [] then []
    else if |data| <= mss then [data]
    else [data[..mss]] + Chunks(data[mss..], mss)
  }

  /** Cutting loses nothing, and makes no packet that is empty or too long. */
  lemma {:induction false} ChunksRoundTrip(data: Payload, mss: nat)
    requires mss > 0
    ensures Flatten(Chunks(data, mss)) == data
    ensures forall p :: p in Chunks(data, mss) ==> 0 < |p| <= mss
    decreases |data|
  {
    if data == [] {
    } else if |data| <= mss {
      assert Flatten([data]) == data + Flatten([]);
    } else {
      ChunksRoundTrip(data[mss..], mss);
      assert data == data[..mss] + data[mss..];
    }
  }

  /** How many packets there are: the quotient, and one more for a remainder. */
  lemma {:induction false} ChunkCount(data: Payload, mss: nat, q: nat, r: nat)
    requires mss > 0 && |data| == q * mss + r && r < mss
    ensures |Chunks(data, mss)| == q + if r == 0 then 0 else 1
    decreases q
  {
    if q == 0 {
      assert Chunks(data, mss) == if data == [] then [] else [data];
    } else {
      assert (q - 1) * mss == q * mss - mss;
      ChunkCount(data[mss..], mss, q - 1, r);
      if q >= 2 {
        MulMono(2, q, mss);
      }
    }
  }

  /** Packet `i` begins at `i * mss`. */
  lemma {:induction false} ChunkAt(data: Payload, mss: nat, i: nat)
    requires mss > 0 && i < |Chunks(data, mss)|
    ensures 0 <= i * mss < |data| && Chunks(data, mss)[i] == data[i * mss..Min(i * mss + mss, |data|)]
    decreases i
  {
    if i > 0 {
      ChunkAt(data[mss..], mss, i - 1);
      assert (i - 1) * mss == i * mss - mss;
    } else {
      assert i * mss == 0;
    }
  }

  /** The bytes still to be read from `units` when `notch` bytes of the first are gone. */
  function Unread(units: seq<Payload>, notch: nat): Payload
    requires notch <= |Flatten(units)|
  {
    Flatten(units)[notch..]
  }

  /** A read position: the notch lies strictly inside the first unit. */
  predicate Readable(units: seq<Payload>, notch: nat) {
    if units == [] then notch == 0 else notch == 0 || notch < |units[0]|
  }

  lemma ReadableInside(units: seq<Payload>, notch: nat)
    requires Readable(units, notch)
    ensures notch <= |Flatten(units)|
  {}

  datatype Reading = Reading(bytes: Payload, used: nat, notch: nat)

  /** What reading at most `len` bytes copies, how many units it frees, and the new notch. */
  function Consume(units: seq<Payload>, notch: nat, len: int): (r: Reading)
    requires Readable(units, notch)
    ensures r.used <= |units|
    decreases |units|
  {
    if units == [] || len <= 0 then Reading([], 0, notch)
    else
      var left := |units[0]| - notch;
      var take := Min(left, len);
      var bytes := units[0][notch..notch + take];
      if len > take || len == left then
        var rest := Consume(units[1..], 0, len - take);
        Reading(bytes + rest.bytes, rest.used + 1, rest.notch)
      else
        Reading(bytes, 0, notch + len)
  }

  lemma UnreadStep(units: seq<Payload>, notch: nat)
    requires units != [] && notch <= |units[0]|
    ensures notch <= |Flatten(units)|
    ensures Unread(units, notch) == units[0][notch..] + Unread(units[1..], 0)
  {
    assert Flatten(units) == units[0] + Flatten(units[1..]);
  }

  lemma ConsumeNothing(units: seq<Payload>, notch: nat, len: int)
    requires Readable(units, notch) && (units == [] || len <= 0)
    ensures notch <= |Flatten(units)|
    ensures Consume(units, notch, len) == Reading([], 0, notch)
    ensures units[0..] == units && |Unread(units, notch)| >= 0 == Min(Max(len, 0), |Unread(units, notch)|)
  {}

  /** What `Consume` does to the first unit. */
  lemma ConsumeStep(units: seq<Payload>, notch: nat, len: int)
    requires Readable(units, notch) && units != [] && len > 0
    ensures
      var left := |units[0]| - notch;
      var r := Consume(units, notch, len);
      if len >= left then
        var rest := Consume(units[1..], 0, len - left);
        r == Reading(units[0][notch..] + rest.bytes, rest.used + 1, rest.notch)
      else r == Reading(units[0][notch..notch + len], 0, notch + len)
  {
    var left := |units[0]| - notch;
    assert units[0][notch..notch + left] == units[0][notch..];
  }

  /** A read takes a prefix of the unread bytes and leaves the rest. */
  lemma {:induction false} ConsumeTakes(units: seq<Payload>, notch: nat, len: int)
    requires Readable(units, notch)
    ensures notch <= |Flatten(units)|
    ensures var r := Consume(units, notch, len);
            && Readable(units[r.used..], r.notch)
            && r.notch <= |Flatten(units[r.used..])|
            && |r.bytes| == Min(Max(len, 0), |Unread(units, notch)|)
            && Unread(units, notch) == r.bytes + Unread(units[r.used..], r.notch)
    decreases |units|
  {
    hide Consume, Flatten, Unread;
    ReadableInside(units, notch);
    var r := Consume(units, notch, len);
    if units == [] || len <= 0 {
      ConsumeNothing(units, notch, len);
    } else {
      var left := |units[0]| - notch;
      UnreadStep(units, notch);
      ConsumeStep(units, notch, len);
      if len >= left {
        var rest := Consume(units[1..], 0, len - left);
        ConsumeTakes(units[1..], 0, len - left);
        assert units[1..][rest.used..] == units[rest.used + 1..];
      } else {
        assert units[0..] == units;
        UnreadStep(units, notch + len);
        assert units[0][notch..] == r.bytes + units[0][notch + len..];
      }
    }
  }

  /** A read copies the longest prefix of the unread bytes that fits, and drops it. */
  lemma ConsumePrefix(units: seq<Payload>, notch: nat, len: nat)
    requires Readable(units, notch)
    ensures notch <= |Flatten(units)|
    ensures var r := Consume(units, notch, len);
            var k := Min(len, |Unread(units, notch)|);
            && Readable(units[r.used..], r.notch) && r.notch <= |Flatten(units[r.used..])|
            && r.bytes == Unread(units, notch)[..k]
            && Unread(units[r.used..], r.notch) == Unread(units, notch)[k..]
  {
    hide Consume, Flatten, Unread;
    ConsumeTakes(units, notch, len);
  }

  /** A read of just the bytes of the first `k` units frees these and enters no other. */
  lemma {:induction false} ConsumeWhole(units: seq<Payload>, k: nat)
    requires k <= |units| && forall j :: 0 <= j < k ==> units[j] != []
    ensures Consume(units, 0, |Flatten(units[..k])|) == Reading(Flatten(units[..k]), k, 0)
    decreases k
  {
    if k == 0 {
      ConsumeNothing(units, 0, 0);
    } else {
      var first, rest := units[0], units[1..];
      ConsumeWhole(rest, k - 1);
      assert units[..k][0] == first && units[..k][1..] == rest[..k - 1];
      assert Flatten(units[..k]) == first + Flatten(rest[..k - 1]);
      hide Flatten;
      ConsumeStep(units, 0, |first| + |Flatten(rest[..k - 1])|);
      assert first[0..] == first;
    }
  }

  /** Reading `n` and then `m` bytes is reading `n + m`. */
  lemma ReadTwice(units: seq<Payload>, notch: nat, n: nat, m: nat)
    requires Readable(units, notch)
    ensures var first := Consume(units, notch, n);
            && Readable(units[first.used..], first.notch)
            && first.bytes + Consume(units[first.used..], first.notch, m).bytes == Consume(units, notch, n + m).bytes
  {
    hide Consume, Flatten, Unread;
    ConsumePrefix(units, notch, n);
    ConsumePrefix(units, notch, n + m);
    var first := Consume(units, notch, n);
    ConsumePrefix(units[first.used..], first.notch, m);
    TakeTwice(Unread(units, notch), n, m);
  }

  lemma TakeTwice(all: Payload, n: nat, m: nat)
    ensures var k := Min(n, |all|);
            all[..k] + all[k..][..Min(m, |all| - k)] == all[..Min(n + m, |all|)]
  {}

  /** `delivered` and what is still unread make up the bytes of the packets `before`. */
  ghost predicate InStream(units: seq<Payload>, notch: nat, delivered: Payload, before: seq<Payload>) {
    notch <= |Flatten(units)| && delivered + Unread(units, notch) == Flatten(before)
  }

  lemma StreamGrows(units: seq<Payload>, notch: nat, delivered: Payload, before: seq<Payload>, more: seq<Payload>)
    requires InStream(units, notch, delivered, before)
    ensures InStream(units + more, notch, delivered, before + more)
  {
    hide Flatten;
    FlattenAppend(units, more);
    FlattenAppend(before, more);
  }

  lemma StreamRead(units: seq<Payload>, notch: nat, delivered: Payload, before: seq<Payload>, len: nat)
    requires InStream(units, notch, delivered, before) && Readable(units, notch)
    ensures var got := Consume(units, notch, len);
            InStream(units[got.used..], got.notch, delivered + got.bytes, before)
  {
    hide Flatten, Consume, Unread;
    ConsumeTakes(units, notch, len);
    var got := Consume(units, notch, len);
    var left := Unread(units[got.used..], got.notch);
    assert delivered + (got.bytes + left) == (delivered + got.bytes) + left;
  }

  /** How far a read has come: `k` units are finished, `data` is copied and `len` bytes are
      still wanted; finishing it as specified gives `goal`. */
  ghost predicate Halfway(units: seq<Payload>, notch: nat, goal: Reading, data: Payload, len: int, k: int) {
    0 <= k <= |units| && len >= 0 && Readable(units[k..], notch) &&
    var rest := Consume(units[k..], notch, len);
    goal == Reading(data + rest.bytes, k + rest.used, rest.notch)
  }

  lemma HalfwayStart(units: seq<Payload>, notch: nat, len: nat)
    requires Readable(units, notch)
    ensures Halfway(units, notch, Consume(units, notch, len), [], len, 0)
  {
    hide Consume;
    assert units[0..] == units;
  }

  lemma HalfwayUnit(units: seq<Payload>, notch: nat, goal: Reading, data: Payload, len: int, k: int)
    requires Halfway(units, notch, goal, data, len, k) && k < |units| && len > 0
    ensures notch <= |units[k]|
    ensures var left := |units[k]| - notch;
            if len >= left then Halfway(units, 0, goal, data + units[k][notch..], len - left, k + 1)
            else Halfway(units, notch + len, goal, data + units[k][notch..notch + len], 0, k)
  {
    hide Consume;
    ConsumeStep(units[k..], notch, len);
    assert units[k..][1..] == units[k + 1..];
    if len < |units[k]| - notch {
      ConsumeNothing(units[k..], notch + len, 0);
    }
  }

  lemma HalfwayDone(units: seq<Payload>, notch: nat, goal: Reading, data: Payload, len: int, k: int)
    requires Halfway(units, notch, goal, data, len, k) && (k == |units| || len == 0)
    ensures goal == Reading(data, k, notch)
  {
    hide Consume;
    ConsumeNothing(units[k..], notch, len);
  }
}
