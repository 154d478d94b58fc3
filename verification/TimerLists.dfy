/** The receiving thread's list of sockets, in the order in which they were last served, and
    the scan that serves those that have waited too long. */
module TimerLists {

  /** A clock that never goes back. */
  class Clock {
    var now: nat

    constructor ()
    {
      now := 0;
    }

    method Read() returns (t: nat)
      modifies this
      ensures t == now >= old(now)
    {
      var passed :| passed >= 0;
      now := now + passed;
      t := now;
    }
  }

  class RNode {
    var timeStamp: nat
    var prev: RNode?
    var next: RNode?
    var onList: bool

    constructor ()
      ensures !onList && prev == null && next == null
    {
      timeStamp, prev, next, onList := 0, null, null, false;
    }
  }

  function At(order: seq<RNode>, i: int): RNode? {
    if 0 <= i < |order| then order[i] else null
  }

  ghost predicate Distinct(order: seq<RNode>) {
    forall i, j :: 0 <= i < j < |order| ==> order[i] != order[j]
  }

  /** The node in place `i` is linked to those around it. */
  ghost predicate LinkAt(order: seq<RNode>, i: nat)
    requires i < |order|
    reads order`next, order`prev
  {
    order[i].next == At(order, i + 1) && order[i].prev == At(order, i - 1)
  }

  /** Nodes linked both ways. */
  ghost predicate Linked(order: seq<RNode>)
    reads order`next, order`prev
  {
    forall i :: 0 <= i < |order| ==> LinkAt(order, i)
  }

  ghost predicate OnList(order: seq<RNode>)
    reads order`onList
  {
    forall i :: 0 <= i < |order| ==> order[i].onList
  }

  /** In the order of their time stamps, none of which is later than `now`. */
  ghost predicate Sorted(order: seq<RNode>, now: nat)
    reads order`timeStamp
  {
    && (forall i, j :: 0 <= i < j < |order| ==> order[i].timeStamp <= order[j].timeStamp)
    && (forall i :: 0 <= i < |order| ==> order[i].timeStamp <= now)
  }

  function Without(order: seq<RNode>, k: nat): (w: seq<RNode>)
    requires k < |order|
    ensures |w| == |order| - 1
    ensures forall i :: 0 <= i < |w| ==> w[i] == order[if i < k then i else i + 1]
  {
    order[..k] + order[k + 1..]
  }

  /** The node in place `i` is linked to those around it, passing over place `k`. */
  ghost predicate LinkPast(order: seq<RNode>, i: nat, k: nat)
    requires i < |order|
    reads order`next, order`prev
  {
    && order[i].next == At(order, if i + 1 == k then k + 1 else i + 1)
    && order[i].prev == At(order, if i == k + 1 then k - 1 else i - 1)
  }

  ghost predicate Bridged(order: seq<RNode>, k: nat)
    reads order`next, order`prev
  {
    forall i :: 0 <= i < |order| && i != k ==> LinkPast(order, i, k)
  }

  lemma BridgedLinked(order: seq<RNode>, k: nat)
    requires k < |order| && Bridged(order, k)
    ensures Linked(Without(order, k))
  {
    var w := Without(order, k);
    forall i | 0 <= i < |w| ensures LinkAt(w, i) {
      assert LinkPast(order, if i < k then i else i + 1, k);
    }
  }

  /** The nodes whose sockets are alive. */
  ghost function Alive(s: seq<RNode>, dead: set<RNode>): seq<RNode> {
    if s == [] then [] else
      Alive(s[..|s| - 1], dead) + if s[|s| - 1] in dead then [] else [s[|s| - 1]]
  }

  /** The nodes alive are those not dead, each as often and in the same order. */
  lemma {:induction false} AliveSplit(a: seq<RNode>, b: seq<RNode>, dead: set<RNode>)
    ensures Alive(a + b, dead) == Alive(a, dead) + Alive(b, dead) && Alive([], dead) == []
    ensures |b| == 1 ==> Alive(b, dead) == if b[0] in dead then [] else b
    decreases |b|
  {
    hide Alive;
    AliveLast(b, dead);
    if b == [] {
      assert a + b == a && Alive(a, dead) + [] == Alive(a, dead);
    } else {
      var n := |b| - 1;
      AliveSplit(a, b[..n], dead);
      AliveLast(a + b, dead);
      JoinLast(a, b);
      Joined(Alive(a, dead), Alive(b[..n], dead), if b[n] in dead then [] else [b[n]]);
    }
  }

  lemma AliveLast(s: seq<RNode>, dead: set<RNode>)
    ensures s == [] ==> Alive(s, dead) == []
    ensures s != [] ==>
              var n := |s| - 1; Alive(s, dead) == Alive(s[..n], dead) + if s[n] in dead then [] else [s[n]]
    ensures |s| == 1 ==> Alive(s, dead) == if s[0] in dead then [] else s
  {}

  lemma JoinLast<T>(a: seq<T>, b: seq<T>)
    requires b != []
    ensures var n := |b| - 1; |a + b| == |a| + n + 1 && (a + b)[..|a| + n] == a + b[..n] && (a + b)[|a| + n] == b[n]
  {}

  lemma Joined<T>(a: seq<T>, b: seq<T>, d: seq<T>)
    ensures a + (b + d) == (a + b) + d
  {}

  lemma AliveNext(was: seq<RNode>, j: nat, dead: set<RNode>)
    requires j < |was|
    ensures Alive(was[..j + 1], dead) == Alive(was[..j], dead) + if was[j] in dead then [] else [was[j]]
    ensures was[j..] == [was[j]] + was[j + 1..]
  {
    assert was[..j + 1][..j] == was[..j];
  }

  lemma MovedSame(order: seq<RNode>, k: nat)
    requires k < |order| && Distinct(order) && OnList(order)
    ensures var w := Without(order, k) + [order[k]];
            Distinct(w) && OnList(w) && (forall m :: m in w <==> m in order) && (k == |order| - 1 ==> w == order)
  {
    var w := Without(order, k) + [order[k]];
    forall m | m in order ensures m in w {
      var i :| 0 <= i < |order| && order[i] == m;
      assert w[if i < k then i else if i == k then |order| - 1 else i - 1] == m;
    }
  }

  lemma Appended(order: seq<RNode>, n: RNode)
    requires Distinct(order) && OnList(order) && n !in order && n.onList
    ensures Distinct(order + [n]) && OnList(order + [n])
  {}

  class RcvUList {
    var first: RNode?
    var last: RNode?
    ghost var order: seq<RNode>

    ghost predicate Ends(order: seq<RNode>)
      reads this`first, this`last
    {
      first == At(order, 0) && last == At(order, |order| - 1)
    }

    ghost predicate Valid()
      reads this, order`next, order`prev, order`onList
    {
      Distinct(order) && Linked(order) && Ends(order) && OnList(order)
    }

    constructor ()
      ensures Valid() && order == []
    {
      first, last, order := null, null, [];
    }

    /** A node not linked is linked behind the last. */
    method LinkLast(n: RNode)
      requires Distinct(order) && Linked(order) && Ends(order) && n !in order
      modifies this`first, this`last, n`next, n`prev, order`next
      ensures Linked(order + [n]) && Ends(order + [n])
    {
      ghost var w := order + [n];
      if first == null {
        n.prev, n.next := null, null;
        first, last := n, n;
        return;
      }
      assert LinkAt(order, |order| - 1);
      n.prev, n.next := last, null;
      last.next := n;
      last := n;
      forall i | 0 <= i < |w| ensures LinkAt(w, i) {
        if i < |order| {
          assert old(LinkAt(order, i));
        }
      }
    }

    /** The links that lead to the node in place `k` lead past it. */
    method Bridge(n: RNode, ghost k: nat)
      requires Distinct(order) && Linked(order) && Ends(order) && k < |order| && order[k] == n
      modifies this`first, this`last, order`next, order`prev
      ensures Bridged(order, k) && Ends(Without(order, k))
    {
      assert LinkAt(order, k);
      assert k > 0 ==> LinkAt(order, k - 1);
      assert k + 1 < |order| ==> LinkAt(order, k + 1);
      if n.prev == null {
        first := n.next;
        if first == null {
          last := null;
        } else {
          first.prev := null;
        }
      } else {
        n.prev.next := n.next;
        if n.next == null {
          last := n.prev;
        } else {
          n.next.prev := n.prev;
        }
      }
      forall i | 0 <= i < |order| && i != k ensures LinkPast(order, i, k) {
        assert old(LinkAt(order, i));
      }
    }

    /** The node in place `k` is unlinked. */
    method Unlink(n: RNode, ghost k: nat)
      requires Distinct(order) && Linked(order) && Ends(order) && k < |order| && order[k] == n
      modifies this`first, this`last, order`next, order`prev
      ensures Linked(Without(order, k)) && Ends(Without(order, k))
    {
      hide Linked, Bridged;
      Bridge(n, k);
      BridgedLinked(order, k);
      Detach(n, k);
    }

    method Detach(n: RNode, ghost k: nat)
      requires Distinct(order) && k < |order| && order[k] == n && Linked(Without(order, k))
      modifies n`next, n`prev
      ensures Linked(Without(order, k))
    {
      assert forall i :: 0 <= i < |order| - 1 ==> Without(order, k)[i] != n;
      n.next, n.prev := null, null;
    }

    /** A new socket's node joins the end. */
    method Insert(n: RNode, clock: Clock)
      requires Valid() && Sorted(order, clock.now) && n !in order && n.onList
      modifies this, order`next, n`next, n`prev, n`timeStamp, clock
      ensures Valid() && order == old(order) + [n]
      ensures Sorted(order, clock.now) && n.timeStamp == clock.now >= old(clock.now)
    {
      hide Linked, Ends, Sorted, OnList, Distinct;
      Appended(order, n);
      StampNew(n, clock);
      LinkLast(n);
      order := order + [n];
    }

    /** A node not on the list gets the present time. */
    method StampNew(n: RNode, clock: Clock)
      requires Sorted(order, clock.now) && n !in order
      modifies n`timeStamp, clock
      ensures n.timeStamp == clock.now >= old(clock.now) && Sorted(order + [n], clock.now)
    {
      n.timeStamp := clock.Read();
    }

    /** A node is unlinked, if it is on the list. */
    method Remove(n: RNode, ghost k: nat)
      requires Valid() && (n.onList ==> k < |order| && order[k] == n)
      modifies this, order`next, order`prev
      ensures Valid() && order == if n.onList then Without(old(order), k) else old(order)
    {
      hide Linked, Ends;
      if !n.onList {
        return;
      }
      Unlink(n, k);
      order := Without(order, k);
    }

    /** A node that has been served moves to the end, with the present time. */
    method Update(n: RNode, clock: Clock, ghost k: nat)
      requires Valid() && Sorted(order, clock.now) && (n.onList ==> k < |order| && order[k] == n)
      modifies this, order`next, order`prev, order`timeStamp, clock
      ensures Valid() && Sorted(order, clock.now) && clock.now >= old(clock.now)
      ensures if n.onList then order == Without(old(order), k) + [n] &&
              n.timeStamp == clock.now else order == old(order)
      ensures forall m :: m in old(order) && (m != n || !n.onList) ==> m.timeStamp == old(m.timeStamp)
    {
      hide Linked, Ends, Distinct, OnList, Sorted;
      if !n.onList {
        return;
      }
      MovedSame(order, k);
      Stamp(n, clock, k);
      var atEnd := IsLast(n, k);
      if !atEnd {
        MoveLast(n, k);
      }
    }

    /** A node on the list gets the present time. */
    method Stamp(n: RNode, clock: Clock, ghost k: nat)
      requires Distinct(order) && Sorted(order, clock.now) && k < |order| && order[k] == n
      modifies n`timeStamp, clock
      ensures n.timeStamp == clock.now >= old(clock.now) && Sorted(Without(order, k) + [n], clock.now)
    {
      n.timeStamp := clock.Read();
    }

    /** A node is taken out of the middle and linked at the end. */
    method MoveLast(n: RNode, ghost k: nat)
      requires Distinct(order) && Linked(order) && Ends(order) && k < |order| && order[k] == n
      modifies this, order`next, order`prev
      ensures Linked(order) && Ends(order) && order == Without(old(order), k) + [n]
    {
      hide Linked, Ends;
      Unlink(n, k);
      order := Without(order, k);
      LinkLast(n);
      order := order + [n];
    }

    method IsLast(n: RNode, ghost k: nat) returns (r: bool)
      requires Linked(order) && k < |order| && order[k] == n
      ensures r <==> k == |order| - 1
    {
      assert LinkAt(order, k);
      r := n.next == null;
    }

    // --- The scan ---------------------------------------------------------------

    /** The scan has visited the first `j` of the nodes that were on the list: the dead ones
        are gone, the others at the end, stamped at or after `start`. */
    ghost predicate Scanned(was: seq<RNode>, j: nat, dead: set<RNode>, start: nat)
      reads this`order, order`timeStamp
    {
      && j <= |was| && order == was[j..] + Alive(was[..j], dead)
      && forall i :: |was| - j <= i < |order| ==> order[i].timeStamp >= start
    }

    lemma FirstApart()
      requires Valid() && order != []
      ensures first == order[0] && order[0].onList && Without(order, 0) == order[1..] && order[0] !in order[1..]
    {
      hide Linked;
    }

    lemma SortedRest(order: seq<RNode>, now: nat)
      requires order != [] && Sorted(order, now)
      ensures Sorted(order[1..], now)
    {}

    /** The node at the head is taken off the list for good. */
    method DropFirst(u: RNode, ghost now: nat)
      requires Valid() && order != [] && u == order[0] && Sorted(order, now)
      modifies this, order`next, order`prev, u`onList
      ensures Valid() && order == old(order)[1..] && !u.onList && Sorted(order, now)
    {
      hide Linked, Ends, Sorted;
      FirstApart();
      SortedRest(order, now);
      Remove(u, 0);
      u.onList := false;
    }

    /** The node at the head is served and moved to the end. */
    method ServeFirst(u: RNode, clock: Clock)
      requires Valid() && order != [] && u == order[0] && Sorted(order, clock.now)
      modifies this, order`next, order`prev, order`timeStamp, clock
      ensures Valid() && order == old(order)[1..] + [u] && Sorted(order, clock.now) &&
              u.timeStamp == clock.now >= old(clock.now)
      ensures forall m :: m in old(order)[1..] ==> m.timeStamp == old(m.timeStamp)
    {
      hide Linked, Ends, Sorted, Distinct;
      FirstApart();
      Update(u, clock, 0);
    }

    /** One turn of the scan: the node at the head is served and moved to the end, or taken
        off the list if its socket is dead. */
    method ScanNext(u: RNode, clock: Clock, dead: set<RNode>, ghost was: seq<RNode>, ghost j: nat, ghost start: nat)
      requires Valid() && Sorted(order, clock.now) && Scanned(was, j, dead, start) && j < |was| && u == was[j] &&
               start <= clock.now
      modifies this, order`next, order`prev, order`timeStamp, order`onList, clock
      ensures Valid() && Sorted(order, clock.now) && Scanned(was, j + 1, dead, start) && clock.now >= old(clock.now)
      ensures forall x :: j < x < |was| ==> was[x].timeStamp == old(was[x].timeStamp)
    {
      hide Valid, Sorted;
      AliveNext(was, j, dead);
      ghost var rest := order[1..];
      assert order[0] == u && rest == was[j + 1..] + Alive(was[..j], dead);
      assert forall x :: j < x < |was| ==> was[x] == rest[x - j - 1];
      assert forall i :: |was| - j - 1 <= i < |rest| ==> rest[i] == order[i + 1];
      if u !in dead {
        ServeFirst(u, clock);
      } else {
        DropFirst(u, clock.now);
      }
    }

    /** The state of the scan: `times` are the time stamps from before it. */
    ghost predicate Visiting(was: seq<RNode>, times: seq<nat>, j: nat, dead: set<RNode>, start: nat, limit: nat,
            now: nat)
      reads this, order`next, order`prev, order`onList, order`timeStamp, was`timeStamp
    {
      && Valid() && Sorted(order, now) && Scanned(was, j, dead, start) && limit < start <= now && |times| == |was|
      && (forall x :: j <= x < |was| ==> was[x].timeStamp == times[x])
      && (forall i :: 0 <= i < j ==> times[i] < limit)
    }

    /** One turn of the loop of `Scan`. */
    method VisitNext(u: RNode, clock: Clock, dead: set<RNode>, ghost was: seq<RNode>, ghost times: seq<nat>,
            ghost j: nat, ghost start: nat, ghost limit: nat)
      requires Visiting(was, times, j, dead, start, limit, clock.now) && u == first && u.timeStamp < limit
      modifies this, order`next, order`prev, order`timeStamp, order`onList, clock
      ensures j < |was| && Visiting(was, times, j + 1, dead, start, limit, clock.now) && clock.now >= old(clock.now)
    {
      hide Linked, Distinct, OnList, Sorted;
      HeadIs();
      assert order[0] == u;
      assert j < |was| && u == was[j] && times[j] < limit;
      ScanNext(u, clock, dead, was, j, start);
    }

    /** Once the head has not waited too long, nobody has. */
    lemma VisitEnd(was: seq<RNode>, times: seq<nat>, j: nat, dead: set<RNode>, start: nat, limit: nat, now: nat)
      requires Visiting(was, times, j, dead, start, limit, now) && (first == null || first.timeStamp >= limit)
      ensures forall i :: 0 <= i < |order| ==> order[i].timeStamp >= limit
      ensures forall i :: 0 <= i < |times| ==> (i < j <==> times[i] < limit)
    {
      hide Linked, Distinct, OnList;
      HeadIs();
      forall i | 0 <= i < |times| ensures i < j <==> times[i] < limit {
        if j <= i {
          assert order[i - j] == was[i];
        }
      }
    }

    /** The scan for sockets that have waited longer than `wait`. The first `j` had; of these
        the dead leave the list and the others go to its end, and no other moves. The scan
        ends with nobody left who has waited that long. */
    method Scan(clock: Clock, wait: nat, dead: set<RNode>) returns (ghost j: nat, ghost limit: nat)
      requires Valid() && Sorted(order, clock.now) && 0 < wait <= clock.now
      modifies this, order`next, order`prev, order`timeStamp, order`onList, clock
      ensures Valid() && Sorted(order, clock.now) && old(clock.now) <= limit + wait <= clock.now
      ensures j <= |old(order)| && order == old(order)[j..] + Alive(old(order)[..j], dead)
      ensures forall i :: 0 <= i < |old(order)| ==> (i < j <==> old(order[i].timeStamp) < limit)
      ensures forall i :: 0 <= i < |order| ==> order[i].timeStamp >= limit
    {
      hide Valid, Sorted, Visiting, Alive;
      ghost var was, times := order, Times();
      var currtime := clock.Read();
      var ctime := currtime - wait;
      limit, j := ctime, 0;
      VisitStart(times, dead, currtime, limit, old(clock.now), clock.now);
      var ul := first;
      while ul != null && ul.timeStamp < ctime
        invariant Visiting(was, times, j, dead, currtime, limit, clock.now) && ul == first && j <= |was|
        invariant forall i :: 0 <= i < |order| ==> order[i] in was
        decreases |was| - j
      {
        VisitNext(ul, clock, dead, was, times, j, currtime, limit);
        VisitInside(was, times, j + 1, dead, currtime, limit, clock.now);
        j := j + 1;
        ul := first;
      }
      VisitSays(was, times, j, dead, currtime, limit, clock.now);
      VisitEnd(was, times, j, dead, currtime, limit, clock.now);
    }

    ghost function Times(): (t: seq<nat>)
      reads this, order
      ensures |t| == |order| && forall i :: 0 <= i < |t| ==> t[i] == order[i].timeStamp
    {
      seq(|order|, i requires 0 <= i < |order| reads this, order => order[i].timeStamp)
    }

    lemma VisitStart(times: seq<nat>, dead: set<RNode>, start: nat, limit: nat, before: nat, now: nat)
      requires Valid() && Sorted(order, before) && before <= now && limit < start <= now && times == Times()
      ensures Visiting(order, times, 0, dead, start, limit, now)
    {
      hide Valid;
      assert Alive(order[..0], dead) == [];
    }

    lemma VisitSays(was: seq<RNode>, times: seq<nat>, j: nat, dead: set<RNode>, start: nat, limit: nat, now: nat)
      requires Visiting(was, times, j, dead, start, limit, now)
      ensures Valid() && Sorted(order, now) && start <= now && j <= |was| && order == was[j..] + Alive(was[..j], dead)
    {}

    lemma VisitInside(was: seq<RNode>, times: seq<nat>, j: nat, dead: set<RNode>, start: nat, limit: nat, now: nat)
      requires Visiting(was, times, j, dead, start, limit, now)
      ensures j <= |was| && forall i :: 0 <= i < |order| ==> order[i] in was
    {
      hide Valid, Sorted, Alive;
      AliveInside(was, j, dead, order);
    }

    lemma HeadIs()
      requires Valid()
      ensures first == At(order, 0)
    {}
  }

  lemma {:induction false} AliveIn(was: seq<RNode>, j: nat, dead: set<RNode>)
    requires j <= |was|
    ensures forall m :: m in Alive(was[..j], dead) ==> m in was
    decreases j
  {
    if j > 0 {
      AliveIn(was, j - 1, dead);
      AliveNext(was, j - 1, dead);
    }
  }

  lemma AliveInside(was: seq<RNode>, j: nat, dead: set<RNode>, w: seq<RNode>)
    requires j <= |was| && w == was[j..] + Alive(was[..j], dead)
    ensures forall i :: 0 <= i < |w| ==> w[i] in was
  {
    AliveIn(was, j, dead);
    var alive := Alive(was[..j], dead);
    forall i | 0 <= i < |w| ensures w[i] in was {
      if i >= |was| - j {
        assert w[i] == alive[i - (|was| - j)];
      } else {
        assert w[i] == was[j + i];
      }
    }
  }
}
