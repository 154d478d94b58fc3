/** Binary heaps in a row: what moving one entry up or down does to their order. */
module Heaps {

  /** A heap entry: whose it is and when it is due. */
  datatype Entry<T> = Entry(node: T, time: int)

  function Parent(i: int): int {
    (i - 1) / 2
  }

  /** No entry is due before its parent. */
  ghost predicate Ordered<T>(h: seq<Entry<T>>) {
    forall i :: 0 < i < |h| ==> h[Parent(i)].time <= h[i].time
  }

  function Swapped<T>(h: seq<T>, p: nat, q: nat): (s: seq<T>)
    requires p < |h| && q < |h|
    ensures |s| == |h|
  {
    h[p := h[q]][q := h[p]]
  }

  /** The entry at `q` moves up while it is due before its parent. */
  function SiftUp<T>(h: seq<Entry<T>>, q: nat): (s: seq<Entry<T>>)
    requires q < |h|
    ensures |s| == |h|
    decreases q
  {
    if q == 0 || h[Parent(q)].time <= h[q].time then h else SiftUp(Swapped(h, Parent(q), q), Parent(q))
  }

  /** The child of `q` that is due first. */
  function FirstChild<T>(h: seq<Entry<T>>, q: nat): (p: nat)
    requires 2 * q + 1 < |h|
    ensures p < |h| && (p == 2 * q + 1 || p == 2 * q + 2) && Parent(p) == q
    ensures forall i :: 0 < i < |h| && Parent(i) == q ==> h[p].time <= h[i].time
  {
    if 2 * q + 2 < |h| && h[2 * q + 1].time > h[2 * q + 2].time then 2 * q + 2 else 2 * q + 1
  }

  /** The entry at `q` moves down while a child is due before it. */
  function SiftDown<T>(h: seq<Entry<T>>, q: nat): (s: seq<Entry<T>>)
    requires q < |h|
    ensures |s| == |h|
    decreases |h| - q
  {
    if 2 * q + 1 >= |h| || h[q].time <= h[FirstChild(h, q)].time then h
    else SiftDown(Swapped(h, q, FirstChild(h, q)), FirstChild(h, q))
  }

  lemma SwappedSame<T>(h: seq<T>, p: nat, q: nat)
    requires p < |h| && q < |h|
    ensures multiset(Swapped(h, p, q)) == multiset(h)
  {}

  /** Sifting moves entries about and neither adds nor drops any. */
  lemma {:induction false} SiftUpSame<T>(h: seq<Entry<T>>, q: nat)
    requires q < |h|
    ensures multiset(SiftUp(h, q)) == multiset(h)
    decreases q
  {
    if !(q == 0 || h[Parent(q)].time <= h[q].time) {
      SwappedSame(h, Parent(q), q);
      SiftUpSame(Swapped(h, Parent(q), q), Parent(q));
    }
  }

  lemma {:induction false} SiftDownSame<T>(h: seq<Entry<T>>, q: nat)
    requires q < |h|
    ensures multiset(SiftDown(h, q)) == multiset(h)
    decreases |h| - q
  {
    if !(2 * q + 1 >= |h| || h[q].time <= h[FirstChild(h, q)].time) {
      SwappedSame(h, q, FirstChild(h, q));
      SiftDownSame(Swapped(h, q, FirstChild(h, q)), FirstChild(h, q));
    }
  }

  /** Ordered but for `q`, which may be due before its parent. */
  ghost predicate OrderedBut<T>(h: seq<Entry<T>>, q: nat) {
    && (forall i :: 0 < i < |h| && i != q ==> h[Parent(i)].time <= h[i].time)
    && (forall i :: 0 < i < |h| && Parent(i) == q && q > 0 ==> h[Parent(q)].time <= h[i].time)
  }

  lemma {:induction false} SiftUpOrders<T>(h: seq<Entry<T>>, q: nat)
    requires q < |h| && OrderedBut(h, q)
    ensures Ordered(SiftUp(h, q))
    decreases q
  {
    if !(q == 0 || h[Parent(q)].time <= h[q].time) {
      SiftUpOrders(Swapped(h, Parent(q), q), Parent(q));
    }
  }

  /** Ordered but for `q`, which may be due after its children. */
  ghost predicate OrderedAbove<T>(h: seq<Entry<T>>, q: nat) {
    && (forall i :: 0 < i < |h| && Parent(i) != q ==> h[Parent(i)].time <= h[i].time)
    && (forall i :: 0 < i < |h| && Parent(i) == q && q > 0 ==> h[Parent(q)].time <= h[i].time)
  }

  lemma {:induction false} SiftDownOrders<T>(h: seq<Entry<T>>, q: nat)
    requires q < |h| && OrderedAbove(h, q)
    ensures Ordered(SiftDown(h, q))
    decreases |h| - q
  {
    if !(2 * q + 1 >= |h| || h[q].time <= h[FirstChild(h, q)].time) {
      SiftDownOrders(Swapped(h, q, FirstChild(h, q)), FirstChild(h, q));
    }
  }

  /** A new entry put last and moved up. */
  function Added<T>(h: seq<Entry<T>>, e: Entry<T>): (s: seq<Entry<T>>)
    ensures |s| == |h| + 1
  {
    SiftUp(h + [e], |h|)
  }

  lemma AddedKeeps<T>(h: seq<Entry<T>>, e: Entry<T>)
    ensures multiset(Added(h, e)) == multiset(h) + multiset{e}
    ensures Ordered(h) ==> Ordered(Added(h, e))
  {
    SiftUpSame(h + [e], |h|);
    if Ordered(h) {
      SiftUpOrders(h + [e], |h|);
    }
  }

  /** The entry at `k` replaced by the last one. */
  function Replaced<T>(h: seq<Entry<T>>, k: nat): (s: seq<Entry<T>>)
    requires k < |h|
    ensures |s| == |h| - 1
  {
    if k == |h| - 1 then h[..k] else h[..|h| - 1][k := h[|h| - 1]]
  }

  /** The entry at `k` taken out: the last one takes its place and moves down. */
  function Without<T>(h: seq<Entry<T>>, k: nat): (s: seq<Entry<T>>)
    requires k < |h|
    ensures |s| == |h| - 1
  {
    if k == |h| - 1 then Replaced(h, k) else SiftDown(Replaced(h, k), k)
  }

  lemma WithoutSame<T>(h: seq<Entry<T>>, k: nat)
    requires k < |h|
    ensures multiset(Without(h, k)) == multiset(h) - multiset{h[k]}
  {
    var n := |h| - 1;
    assert h == h[..n] + [h[n]];
    if k < n {
      SiftDownSame(Replaced(h, k), k);
      assert multiset(h[..n][k := h[n]]) == multiset(h[..n]) - multiset{h[k]} + multiset{h[n]};
    }
  }

  /** Taking an entry out keeps the order exactly when the entry that takes its place is not
      due before the parent there: the source never moves an entry up again. */
  lemma WithoutOrdered<T>(h: seq<Entry<T>>, k: nat)
    requires k < |h| && Ordered(h)
    ensures Ordered(Without(h, k)) <==> k == 0 || k == |h| - 1 || h[Parent(k)].time <= h[|h| - 1].time
  {
    var r := Replaced(h, k);
    if k == |h| - 1 {
    } else if k == 0 || h[Parent(k)].time <= h[|h| - 1].time {
      SiftDownOrders(r, k);
    } else {
      assert r[k].time < r[Parent(k)].time <= h[k].time;
      assert SiftDown(r, k) == r;
    }
  }

  /** Not every removal keeps it. */
  lemma WithoutCanFail()
    ensures var h := [Entry(0, 1), Entry(1, 10), Entry(2, 2), Entry(3, 11), Entry(4, 12), Entry(5, 3)];
            Ordered(h) && !Ordered(Without(h, 3))
  {
    var h := [Entry(0, 1), Entry(1, 10), Entry(2, 2), Entry(3, 11), Entry(4, 12), Entry(5, 3)];
    assert Ordered(h);
    WithoutOrdered(h, 3);
  }

  /** In an ordered heap nothing is due before the root. */
  lemma {:induction false} RootLeast<T>(h: seq<Entry<T>>, i: nat)
    requires Ordered(h) && i < |h|
    ensures h[0].time <= h[i].time
    decreases i
  {
    if i > 0 {
      RootLeast(h, Parent(i));
    }
  }

  // --- Runs that touch only the root --------------------------------------------

  datatype Move<T> = Put(e: Entry<T>) | TakeRoot | HurryRoot

  function Next<T>(h: seq<Entry<T>>, m: Move<T>): seq<Entry<T>> {
    match m
    case Put(e) => Added(h, e)
    case TakeRoot => if h == [] then h else Without(h, 0)
    case HurryRoot => if h == [] then h else h[0 := Entry(h[0].node, 1)]
  }

  function After<T>(h: seq<Entry<T>>, moves: seq<Move<T>>): seq<Entry<T>>
    decreases |moves|
  {
    if moves == [] then h else After(Next(h, moves[0]), moves[1..])
  }

  /** All times are positive: 1 stands for at once. */
  ghost predicate Positive<T>(h: seq<Entry<T>>) {
    forall e :: e in h ==> e.time >= 1
  }

  lemma NextKeeps<T>(h: seq<Entry<T>>, m: Move<T>)
    requires Ordered(h) && Positive(h) && (m.Put? ==> m.e.time >= 1)
    ensures Ordered(Next(h, m)) && Positive(Next(h, m))
  {
    match m
    case Put(e) =>
      AddedKeeps(h, e);
      SameElements(Added(h, e), h + [e]);
    case TakeRoot =>
      if h != [] {
        WithoutOrdered(h, 0);
        WithoutSame(h, 0);
        forall x | x in Without(h, 0) ensures x.time >= 1 {
          assert x in multiset(Without(h, 0));
          assert x in multiset(h);
        }
      }
    case HurryRoot =>
      if h != [] {
        var r := h[0 := Entry(h[0].node, 1)];
        forall i | 0 < i < |r| ensures r[Parent(i)].time <= r[i].time {
          assert h[i] in h;
        }
      }
  }

  lemma SameElements<T>(a: seq<T>, b: seq<T>)
    requires multiset(a) == multiset(b)
    ensures forall x :: x in a ==> x in b
  {
    forall x | x in a ensures x in b {
      assert x in multiset(a);
    }
  }

  /** As long as only the root is removed or rescheduled, the order holds. */
  lemma {:induction false} RootRunsOrdered<T>(h: seq<Entry<T>>, moves: seq<Move<T>>)
    requires Ordered(h) && Positive(h) && forall m :: m in moves && m.Put? ==> m.e.time >= 1
    ensures Ordered(After(h, moves)) && Positive(After(h, moves))
    decreases |moves|
  {
    hide Ordered, Positive, Next;
    if moves != [] {
      NextKeeps(h, moves[0]);
      RootRunsOrdered(Next(h, moves[0]), moves[1..]);
    }
  }
}
