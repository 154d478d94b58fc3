/** Loss reports: lost ranges written as 32-bit words, a range of several numbers as its
    first number with the top bit set followed by its last. */
module LossReports {
  import opened Bytes
  import opened Numbers
  import opened SequenceNumbers
  import opened LossRuns
  import opened SendSide

  const TOP_BIT: int := 0x8000_0000

  /** A number with the top bit set, as a signed word. */
  function Flagged(x: SeqNum): (w: int32)
    ensures w < 0
  {
    x - TOP_BIT
  }

  /** A word with the top bit cleared. */
  function Bare(w: int32): (x: SeqNum)
    ensures w >= 0 ==> x == w
  {
    if w < 0 then w + TOP_BIT else w
  }

  /** The words of one range. */
  function Words(r: Range): seq<int32> {
    if r.first == r.last then [Num(r.first)] else [Flagged(Num(r.first)), Num(r.last)]
  }

  function Encode(ranges: seq<Range>): seq<int32> {
    if ranges == [] then [] else Words(ranges[0]) + Encode(ranges[1..])
  }

  /** On the wire a single number is itself, and a range its first number less 2^31 and its last. */
  lemma WordsExact(a: SeqNum, b: SeqNum)
    ensures Encode([Range(a as int, a as int)]) == [a]
    ensures a != b ==> Encode([Range(a as int, b as int)]) == [(a as int - 0x8000_0000) as int32, b]
  {
    assert [Range(a as int, b as int)][1..] == [];
    assert [Range(a as int, a as int)][1..] == [];
  }

  /** What the words say, as pairs of wire numbers. */
  function Decode(words: seq<int32>): seq<(SeqNum, SeqNum)>
    decreases |words|
  {
    if words == [] then []
    else if words[0] >= 0 then [(words[0], words[0])] + Decode(words[1..])
    else if |words| == 1 then []
    else [(Bare(words[0]), Bare(words[1]))] + Decode(words[2..])
  }

  /** The wire numbers of ranges. */
  function OnWire(ranges: seq<Range>): seq<(SeqNum, SeqNum)> {
    if ranges == [] then [] else [(Num(ranges[0].first), Num(ranges[0].last))] + OnWire(ranges[1..])
  }

  /** Reading a report gives back the ranges written. */
  lemma {:induction false} DecodeEncode(ranges: seq<Range>)
    ensures Decode(Encode(ranges)) == OnWire(ranges)
  {
    hide Num;
    if ranges != [] {
      DecodeEncode(ranges[1..]);
      var w, rest := Words(ranges[0]), Encode(ranges[1..]);
      assert (w + rest)[|w|..] == rest;
    }
  }

  lemma NoWords()
    ensures Encode([]) == []
  {}

  lemma {:induction false} EncodeAppend(a: seq<Range>, b: seq<Range>)
    ensures Encode(a + b) == Encode(a) + Encode(b)
  {
    hide Encode, Words;
    EncodeHead(a);
    EncodeHead(a + b);
    AppendHead(a, b);
    if a == [] {
      Associative<int32>([], [], Encode(b));
    } else {
      EncodeAppend(a[1..], b);
      Associative(Words(a[0]), Encode(a[1..]), Encode(b));
    }
  }

  lemma EncodeHead(ranges: seq<Range>)
    ensures Encode([]) == []
    ensures ranges != [] ==> Encode(ranges) == Words(ranges[0]) + Encode(ranges[1..])
  {
    hide Words;
  }

  lemma EncodeNext(ranges: seq<Range>, k: nat)
    requires k < |ranges|
    ensures Encode(ranges[k..]) == Words(ranges[k]) + Encode(ranges[k + 1..])
    ensures Encode(ranges) == Encode(ranges[..k]) + Encode(ranges[k..])
  {
    hide Encode, Words;
    CutAt(ranges, k);
    EncodeHead(ranges[k..]);
    EncodeAppend(ranges[..k], ranges[k..]);
  }

  /** The numbers that ranges name. */
  ghost function Named(ranges: seq<Range>): set<int> {
    if ranges == [] then {} else Interval(ranges[0].first, ranges[0].last) + Named(ranges[1..])
  }

  lemma {:induction false} NamedAppend(a: seq<Range>, b: seq<Range>)
    ensures Named(a + b) == Named(a) + Named(b)
  {
    hide Interval, Named;
    NamedHead(a);
    NamedHead(a + b);
    AppendHead(a, b);
    if a == [] {
      UnionAssociative({}, {}, Named(b));
    } else {
      NamedAppend(a[1..], b);
      UnionAssociative(Interval(a[0].first, a[0].last), Named(a[1..]), Named(b));
    }
  }

  lemma NamedHead(a: seq<Range>)
    ensures Named([]) == {}
    ensures a != [] ==> Named(a) == Interval(a[0].first, a[0].last) + Named(a[1..])
  {
    hide Interval;
  }

  /** A report of sent numbers adds to the sender's list exactly those of its numbers that
      are not acknowledged, and finds nothing forged. */
  lemma {:induction false} NakAddsUnacknowledged(s: Sender, ranges: seq<Range>)
    requires HonestNak(s, ranges)
    ensures TakeNak(s, ranges) == s.(loss := s.loss + set x | x in Named(ranges) && x >= s.lastAck)
    decreases |ranges|
  {
    hide Interval;
    if ranges != [] {
      var r := ranges[0];
      var s1 := s.(loss := s.loss + Interval(Max(r.first, s.lastAck), r.last));
      NakAddsUnacknowledged(s1, ranges[1..]);
      assert TakeNak(s, ranges) == TakeNak(s1, ranges[1..]);
    } else {
      assert s.loss + (set x | x in Named(ranges) && x >= s.lastAck) == s.loss;
    }
  }

  /** A report that names a number not yet sent is taken for forged. */
  lemma {:induction false} NakForged(s: Sender, ranges: seq<Range>)
    ensures HonestNak(s, ranges) || TakeNak(s, ranges).broken
    decreases |ranges|
  {
    hide Interval;
    if ranges != [] {
      var r := ranges[0];
      var s1 := s.(loss := s.loss + Interval(Max(r.first, s.lastAck), r.last));
      NakForged(s1, ranges[1..]);
      if HonestNak(s1, ranges[1..]) && r.first <= r.last <= s.curr {
        forall i | 0 <= i < |ranges| ensures ranges[i].first <= ranges[i].last <= s.curr {
          assert i > 0 ==> ranges[i] == ranges[1..][i - 1];
        }
      }
    }
  }

  // --- Writing a report -------------------------------------------------------

  /** The numbers before `n`. */
  ghost function Below(s: set<int>, n: int): set<int> {
    set x | x in s && x < n
  }

  /** How far a report of `runs` has come: it names the lost numbers before `bound`. */
  ghost predicate Reported(runs: Runs, ranges: seq<Range>, bound: int) {
    && Named(ranges) == Below(Elems(runs), bound)
    && |Encode(ranges)| <= |Below(Elems(runs), bound)|
    && (forall i :: 0 <= i < |ranges| ==> ranges[i].first in runs && runs[ranges[i].first] == ranges[i].last)
  }

  /** The next run, which starts at `bound`, is reported. */
  lemma ReportNext(runs: Runs, ranges: seq<Range>, bound: int, next: int)
    requires Ordered(runs) && Reported(runs, ranges, bound) && bound in runs && runs[bound] < next
    requires forall x :: x in runs ==> x <= bound || next <= x
    ensures Reported(runs, ranges + [Range(bound, runs[bound])], next)
    ensures Encode(ranges + [Range(bound, runs[bound])]) == Encode(ranges) + Words(Range(bound, runs[bound]))
  {
    hide Interval, Elems, Words, Named, Encode, Below, Ordered;
    var r := Range(bound, runs[bound]);
    OrderedRun(runs, bound);
    EncodeAppend(ranges, [r]);
    NamedAppend(ranges, [r]);
    OneWordPerNumber(r);
    NextBelow(runs, bound, next);
  }

  lemma OrderedRun(runs: Runs, x: int)
    requires Ordered(runs) && x in runs
    ensures x <= runs[x]
  {}

  lemma OneWordPerNumber(r: Range)
    requires r.first <= r.last
    ensures Encode([r]) == Words(r) && |Words(r)| <= |Interval(r.first, r.last)|
    ensures Named([r]) == Interval(r.first, r.last)
  {
    hide Num, Interval;
    assert [r][1..] == [];
  }

  lemma NextBelow(runs: Runs, bound: int, next: int)
    requires Ordered(runs) && bound in runs && runs[bound] < next
    requires forall x :: x in runs ==> x <= bound || next <= x
    ensures Below(Elems(runs), next) == Below(Elems(runs), bound) + Interval(bound, runs[bound])
    ensures |Below(Elems(runs), next)| == |Below(Elems(runs), bound)| + |Interval(bound, runs[bound])|
  {
    hide Interval, Elems;
    forall n ensures n in Below(Elems(runs), next) <==> n in Below(Elems(runs), bound) + Interval(bound, runs[bound]) {
      if n in Elems(runs) && bound <= n < next {
        var x := RunOf(runs, n);
      }
      if bound <= n <= runs[bound] {
        RunInside(runs, bound, n);
      }
    }
    assert Below(Elems(runs), bound) !! Interval(bound, runs[bound]);
  }

  /** Before the first run nothing is reported; once `bound` has passed every run, all is. */
  lemma ReportEnds(runs: Runs, ranges: seq<Range>, bound: int)
    ensures (forall x :: x in runs ==> bound <= x) ==> Reported(runs, [], bound)
    ensures Reported(runs, ranges, bound) && (forall x :: x in runs ==> runs[x] < bound) ==>
            Named(ranges) == Elems(runs)
    ensures Reported(runs, ranges, bound) && |Encode(ranges)| >= |Elems(runs)| ==> Named(ranges) == Elems(runs)
    ensures Reported(runs, ranges, bound) ==> Named(ranges) <= Elems(runs)
  {
    hide Elems, Below, Named, Encode;
    if forall x :: x in runs ==> bound <= x {
      BelowNone(runs, bound);
      EncodeHead([]);
      NamedHead([]);
    }
    if forall x :: x in runs ==> runs[x] < bound {
      BelowAll(runs, bound);
    }
    BelowInside(Elems(runs), bound);
  }

  lemma BelowNone(runs: Runs, bound: int)
    requires forall x :: x in runs ==> bound <= x
    ensures Below(Elems(runs), bound) == {}
  {
    hide Elems;
    forall n | n in Elems(runs) ensures bound <= n {
      var x := RunOf(runs, n);
    }
  }

  lemma BelowAll(runs: Runs, bound: int)
    requires forall x :: x in runs ==> runs[x] < bound
    ensures Below(Elems(runs), bound) == Elems(runs)
  {
    hide Elems;
    forall n | n in Elems(runs) ensures n < bound {
      var x := RunOf(runs, n);
    }
  }

  lemma BelowInside(s: set<int>, bound: int)
    ensures Below(s, bound) <= s && (|Below(s, bound)| >= |s| ==> Below(s, bound) == s)
  {
    var rest := s - Below(s, bound);
    assert s == Below(s, bound) + rest;
  }
}
