/** 31-bit sequence numbers that wrap around, as 32-bit integers hold them, and their
    agreement with unbounded numbers that lie close together. */
module SequenceNumbers {

  /** A 32-bit signed integer: every intermediate result below is one. */
  type int32 = x: int | -0x8000_0000 <= x <= 0x7FFF_FFFF

  const THRESHOLD: int32 := 0x3FFF_FFFF
  const MAX_SEQ: int32 := 0x7FFF_FFFF

  type SeqNum = x: int32 | 0 <= x

  function Abs(x: int32): (r: int32)
    requires x != -0x8000_0000
  {
    if x < 0 then -x else x
  }

  /** Negative, zero or positive as `a` is before, at or after `b`. */
  function SeqCmp(a: int32, b: int32): int32
    requires -0x7FFF_FFFF <= a - b <= 0x7FFF_FFFF
  {
    var d: int32 := a - b;
    if Abs(d) < THRESHOLD then d else b - a
  }

  /** All numbers, once round: 2^31 of them. */
  predicate FullCircle(a: SeqNum, b: SeqNum) {
    a == b + 1 || (a == 0 && b == MAX_SEQ)
  }

  /** How many numbers there are from `a` to `b`, both included; 2^31 is no int32. */
  function SeqLen(a: SeqNum, b: SeqNum): int32
    requires !FullCircle(a, b)
  {
    var d: int32 := b - a;
    if a <= b then
      d + 1
    else
      var e: int32 := d + MAX_SEQ;
      e + 2
  }

  /** How far `b` lies after `a`. */
  function SeqOff(a: SeqNum, b: SeqNum): int32 {
    var d: int32 := a - b;
    var e: int32 := b - a;
    if Abs(d) < THRESHOLD then e
    else if a < b then
      var f: int32 := e - MAX_SEQ;
      f - 1
    else
      var f: int32 := e + MAX_SEQ;
      f + 1
  }

  function IncSeq(a: int32): SeqNum
    requires a >= -1
  {
    if a == MAX_SEQ then 0 else a + 1
  }

  function DecSeq(a: SeqNum): SeqNum {
    if a == 0 then MAX_SEQ else a - 1
  }

  function IncSeqBy(a: SeqNum, k: SeqNum): SeqNum {
    var room: int32 := MAX_SEQ - a;
    if room >= k then a + k
    else
      var d: int32 := a - MAX_SEQ;
      var e: int32 := d + k;
      e - 1
  }

  function IncAck(a: SeqNum): SeqNum {
    if a == MAX_SEQ then 0 else a + 1
  }

  // --- Agreement with unbounded numbers -----------------------------------

  /** The wire form of an unbounded number. */
  function Num(n: int): SeqNum {
    n % 0x8000_0000
  }

  /** The wire form of a "current" number, which starts at one before the initial number
      and so is -1 when that is 0. */
  predicate IsCurrent(c: int32, n: int) {
    c == Num(n) || (c == -1 && Num(n) == MAX_SEQ)
  }

  predicate Near(a: int, b: int) {
    -THRESHOLD < b - a < THRESHOLD
  }

  /** Near numbers differ on the wire as they do, or by one turn more or less. */
  lemma NumDiff(a: int, b: int)
    requires -0x8000_0000 < b - a < 0x8000_0000
    ensures Num(b) - Num(a) == b - a || Num(b) - Num(a) == b - a + 0x8000_0000 || Num(b) - Num(a) == b - a - 0x8000_0000
  {
    var q, p := a / 0x8000_0000, b / 0x8000_0000;
    assert a == q * 0x8000_0000 + Num(a) && b == p * 0x8000_0000 + Num(b);
    assert p - q == 0 || p - q == 1 || p - q == -1;
  }

  /** Comparison has the sign of the true difference. */
  lemma CmpAgrees(a: int, b: int)
    requires Near(a, b)
    ensures SeqCmp(Num(a), Num(b)) < 0 <==> a < b
    ensures SeqCmp(Num(a), Num(b)) > 0 <==> a > b
    ensures SeqCmp(Num(a), Num(b)) == 0 <==> a == b
  {
    NumDiff(a, b);
  }

  /** Comparison with a current number, even one written -1. */
  lemma CmpCurrent(a: int, c: int32, b: int)
    requires Near(a, b) && Near(a, b + 1) && IsCurrent(c, b) && (c == -1 ==> a != b)
    ensures -0x7FFF_FFFF <= Num(a) - c <= 0x7FFF_FFFF
    ensures SeqCmp(Num(a), c) > 0 <==> a > b
    ensures SeqCmp(Num(a), c) < 0 <==> a < b
  {
    NumDiff(a, b);
    CmpAgrees(a, b);
  }

  /** The offset is the true one. */
  lemma OffAgrees(a: int, b: int)
    requires Near(a, b)
    ensures SeqOff(Num(a), Num(b)) == b - a
  {
    NumDiff(a, b);
  }

  /** Equality on the wire is equality, for near numbers. */
  lemma EqAgrees(a: int, b: int)
    requires -0x8000_0000 < b - a < 0x8000_0000
    ensures Num(a) == Num(b) <==> a == b
  {
    NumDiff(a, b);
  }

  lemma LenAgrees(a: int, b: int)
    requires a <= b < a + 0x7FFF_FFFF
    ensures !FullCircle(Num(a), Num(b))
    ensures SeqLen(Num(a), Num(b)) == b - a + 1
  {
    NumDiff(a, b);
  }

  lemma IncAgrees(n: int, c: int32)
    requires IsCurrent(c, n)
    ensures c >= -1 && IncSeq(c) == Num(n + 1)
  {
    NumDiff(n, n + 1);
  }

  lemma DecAgrees(n: int)
    ensures DecSeq(Num(n)) == Num(n - 1)
  {
    NumDiff(n - 1, n);
  }

  /** Advancing by an offset ahead arrives. */
  lemma IncByOffset(a: int, b: int)
    requires Near(a, b) && a <= b
    ensures SeqOff(Num(a), Num(b)) >= 0 && IncSeqBy(Num(a), SeqOff(Num(a), Num(b))) == Num(b)
  {
    OffAgrees(a, b);
    NumDiff(a, b);
  }

  /** Ordering is transitive among numbers that lie within one threshold. */
  lemma CmpTransitive(a: int, b: int, c: int)
    requires Near(a, b) && Near(b, c) && Near(a, c)
    requires SeqCmp(Num(a), Num(b)) < 0 && SeqCmp(Num(b), Num(c)) < 0
    ensures SeqCmp(Num(a), Num(c)) < 0
  {
    CmpAgrees(a, b);
    CmpAgrees(b, c);
    CmpAgrees(a, c);
  }

  /** From number 0 no offset reaches the threshold. */
  lemma OffShort(n: nat)
    ensures SeqOff(Num(0), Num(n)) < THRESHOLD
  {
    assert Num(0) == 0;
    hide Num;
  }

  /** The threshold is exact: agreement at a distance holds for all pairs that far apart
      if and only if the distance is below it. */
  lemma ThresholdExact(d: nat)
    ensures (forall a: int :: SeqOff(Num(a), Num(a + d)) == d) <==> d < THRESHOLD
    ensures d == THRESHOLD ==> SeqCmp(Num(0), Num(d)) > 0
  {
    if d < THRESHOLD {
      forall a: int ensures SeqOff(Num(a), Num(a + d)) == d {
        OffAgrees(a, a + d);
      }
    } else {
      OffShort(d);
      assert SeqOff(Num(0), Num(0 + d)) != d;
    }
  }

  /** The excluded pairs are exactly those whose count overflows. */
  lemma LenFits(a: SeqNum, b: SeqNum)
    ensures (if a <= b then b - a + 1 else b - a + MAX_SEQ + 2) > 0x7FFF_FFFF <==> FullCircle(a, b)
  {}
}
