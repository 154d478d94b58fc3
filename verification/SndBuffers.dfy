/** The sender's buffer: a circular list of blocks that grows, standing for the queue of
    packets that are not acknowledged yet. */
module SndBuffers {
  import opened Bytes

  /** The message word of a packet: whether it begins and ends its message, whether the
      message must be delivered in order, and the message number. */
  datatype Header = Header(first: bool, last: bool, inOrder: bool, no: nat)

  datatype Packet = Packet(payload: Payload, header: Header)

  /** The message word on the wire: two boundary bits, the order bit and 29 bits of number. */
  function WordOf(h: Header): (w: nat)
    requires h.no < 0x2000_0000
    ensures w < 0x1_0000_0000
  {
    (if h.first then 0x8000_0000 else 0) + (if h.last then 0x4000_0000 else 0)
    + (if h.inOrder then 0x2000_0000 else 0) + h.no
  }

  function Boundary(w: nat): nat {
    w / 0x4000_0000 % 4
  }

  function OrderFlag(w: nat): nat {
    w / 0x2000_0000 % 2
  }

  function MsgSeq(w: nat): nat {
    w % 0x2000_0000
  }

  /** The fields of a word read back are those written. */
  lemma WordRoundTrip(h: Header)
    requires h.no < 0x2000_0000
    ensures var w := WordOf(h);
            && (Boundary(w) > 1 <==> h.first) && (Boundary(w) == 1 || Boundary(w) == 3 <==> h.last)
            && (OrderFlag(w) == 1 <==> h.inOrder) && MsgSeq(w) == h.no
  {}

  /** Where the fields are: a message's first packet has the top bit, its last the next, one
      bound to order the third, above the message number. */
  lemma WordFields(no: nat)
    requires no < 0x2000_0000
    ensures WordOf(Header(false, false, false, no)) == no && WordOf(Header(true, false, false, no)) == 0x8000_0000 + no
    ensures WordOf(Header(false, true, false, no)) == 0x4000_0000 + no
    ensures WordOf(Header(true, true, true, no)) == 0xE000_0000 + no
  {}

  class Block {
    var payload: Payload
    var header: Header
    var next: Block?

    constructor ()
      ensures next == null
    {
      payload, header, next := [], Header(false, false, false, 0), null;
    }
  }

  /** The blocks, each linked to the one after it and the last to the first. */
  ghost predicate Circular(ring: seq<Block>)
    reads ring
  {
    && ring != []
    && (forall i, j :: 0 <= i < j < |ring| ==> ring[i] != ring[j])
    && (forall i :: 0 <= i < |ring| - 1 ==> ring[i].next == ring[i + 1])
    && ring[|ring| - 1].next == ring[0]
  }

  /** Blocks linked in a row. */
  ghost predicate Row(chain: seq<Block>)
    reads chain
  {
    && chain != []
    && (forall i, j :: 0 <= i < j < |chain| ==> chain[i] != chain[j])
    && (forall i :: 0 <= i < |chain| - 1 ==> chain[i].next == chain[i + 1])
  }

  /** `n` new blocks in a row. */
  method NewRow(n: nat) returns (first: Block, last: Block, ghost chain: seq<Block>)
    requires n > 0
    ensures Row(chain) && |chain| == n && first == chain[0] && last == chain[n - 1]
    ensures fresh(set b | b in chain)
  {
    first := new Block();
    last := first;
    chain := [first];
    for i := 1 to n
      invariant |chain| == i && first == chain[0] && last == chain[i - 1] && Row(chain)
      invariant fresh(set b | b in chain)
    {
      var b := new Block();
      last.next := b;
      last := b;
      chain := chain + [b];
    }
  }

  /** What a run of blocks holds. */
  ghost function Load(blocks: seq<Block>): (q: seq<Packet>)
    reads blocks
    ensures |q| == |blocks|
    ensures forall i :: 0 <= i < |q| ==> q[i] == Packet(blocks[i].payload, blocks[i].header)
  {
    seq(|blocks|, i requires 0 <= i < |blocks| reads blocks => Packet(blocks[i].payload, blocks[i].header))
  }

  lemma LoadDrop(blocks: seq<Block>, k: nat)
    requires k <= |blocks|
    ensures Load(blocks[k..]) == Load(blocks)[k..]
  {}

  /** A circle can be begun anywhere. */
  lemma Rotate(ring: seq<Block>, k: nat)
    requires Circular(ring) && k <= |ring|
    ensures Circular(ring[k..] + ring[..k])
  {
    var turned := ring[k..] + ring[..k];
    assert forall i :: 0 <= i < |ring| ==> turned[i] == if i < |ring| - k then ring[i + k] else ring[i - (|ring| - k)];
  }

  /** Where the blocks of a splice come from. */
  lemma SpliceAt<T>(ring: seq<T>, k: nat, chain: seq<T>, i: nat)
    requires k <= |ring| && i < |ring| + |chain|
    ensures var whole, m := ring[..k] + chain + ring[k..], |chain|;
            |whole| == |ring| + m &&
            whole[i] == if i < k then ring[i] else if i < k + m then chain[i - k] else ring[i - m]
  {}

  /** A row spliced into a circle behind its first `k` blocks: each is linked to the next. */
  lemma SplicedNext(ring: seq<Block>, k: nat, chain: seq<Block>, i: nat)
    requires Row(chain) && 1 <= k <= |ring| && i < |ring| + |chain| - 1
    requires forall i :: 0 <= i < |ring| - 1 && i != k - 1 ==> ring[i].next == ring[i + 1]
    requires ring[k - 1].next == chain[0]
    requires k < |ring| ==> chain[|chain| - 1].next == ring[k]
    ensures var whole := ring[..k] + chain + ring[k..];
            |whole| == |ring| + |chain| && whole[i].next == whole[i + 1]
  {
    var m := |chain|;
    SpliceAt(ring, k, chain, i);
    SpliceAt(ring, k, chain, i + 1);
    if k + m <= i {
      assert ring[i - m].next == ring[i - m + 1];
    } else if k <= i < k + m - 1 {
      assert chain[i - k].next == chain[i - k + 1];
    } else if i < k - 1 {
      assert ring[i].next == ring[i + 1];
    }
  }

  lemma SplicedApart<T>(ring: seq<T>, k: nat, chain: seq<T>, i: nat, j: nat)
    requires k <= |ring| && i < j < |ring| + |chain|
    requires forall i, j :: 0 <= i < j < |ring| ==> ring[i] != ring[j]
    requires forall i, j :: 0 <= i < j < |chain| ==> chain[i] != chain[j]
    requires forall i, j :: 0 <= i < |ring| && 0 <= j < |chain| ==> ring[i] != chain[j]
    ensures var whole := ring[..k] + chain + ring[k..];
            |whole| == |ring| + |chain| && whole[i] != whole[j]
  {
    SpliceAt(ring, k, chain, i);
    SpliceAt(ring, k, chain, j);
  }

  /** A row spliced into a circle behind its first `k` blocks. */
  lemma Spliced(ring: seq<Block>, k: nat, chain: seq<Block>)
    requires Row(chain) && 1 <= k <= |ring|
    requires forall i, j :: 0 <= i < j < |ring| ==> ring[i] != ring[j]
    requires forall i, j :: 0 <= i < |ring| && 0 <= j < |chain| ==> ring[i] != chain[j]
    requires forall i :: 0 <= i < |ring| - 1 && i != k - 1 ==> ring[i].next == ring[i + 1]
    requires ring[k - 1].next == chain[0]
    requires k < |ring| ==> chain[|chain| - 1].next == ring[k] && ring[|ring| - 1].next == ring[0]
    requires k == |ring| ==> chain[|chain| - 1].next == ring[0]
    ensures Circular(ring[..k] + chain + ring[k..])
  {
    var whole := ring[..k] + chain + ring[k..];
    forall i | 0 <= i < |whole| - 1 ensures whole[i].next == whole[i + 1] {
      SplicedNext(ring, k, chain, i);
    }
    forall i, j | 0 <= i < j < |whole| ensures whole[i] != whole[j] {
      SplicedApart(ring, k, chain, i, j);
    }
    SpliceAt(ring, k, chain, 0);
    SpliceAt(ring, k, chain, |whole| - 1);
  }

  /** A splice leaves the blocks before it where they are. */
  lemma SplicedAt<T>(ring: seq<T>, k: nat, chain: seq<T>, cursor: nat)
    requires cursor < k <= |ring|
    ensures var whole := ring[..k] + chain + ring[k..];
            && |whole| == |ring| + |chain|
            && whole[0] == ring[0] && whole[cursor] == ring[cursor] && whole[k - 1] == ring[k - 1]
            && whole[..k - 1] == ring[..k - 1] && ring[..k] <= whole
            && forall b :: b in whole ==> b in ring || b in chain
  {}

  lemma AppendNext<T>(a: seq<T>, f: seq<T>, i: nat)
    requires i < |f|
    ensures (a + f[..i]) + [f[i]] == a + f[..i + 1]
    ensures a + f[..|f|] == a + f
  {}

  lemma Turned<T>(ring: seq<T>, k: nat, cursor: nat, count: nat)
    requires k <= cursor <= count < |ring|
    ensures var turned := ring[k..] + ring[..k];
            && turned[0] == ring[k] && turned[cursor - k] == ring[cursor] && turned[count - k] == ring[count]
            && turned[..count - k] == ring[..count][k..]
            && |turned| == |ring|
            && forall b :: b in turned ==> b in ring
  {}

  class SndBuffer {
    const mss: nat
    const unitSize: nat
    var firstBlock: Block
    var currBlock: Block
    var lastBlock: Block
    var nextMsgNo: nat
    var size: nat
    var count: nat
    ghost var ring: seq<Block>
    ghost var cursor: nat

    ghost predicate Valid()
      reads this, ring
      ensures Valid() ==> mss > 0 && |ring| == size
    {
      && mss > 0 && unitSize > 0
      && Circular(ring) && |ring| == size
      && cursor <= count < size
      && firstBlock == ring[0] && currBlock == ring[cursor] && lastBlock == ring[count]
      && 1 <= nextMsgNo < MAX_MSG_NO
    }

    constructor (size: nat, mss: nat)
      requires size > 0 && mss > 0
      ensures Valid() && Packets() == [] && this.mss == mss && nextMsgNo == 1
      ensures fresh(set b | b in ring)
    {
      var first, last, chain := NewRow(size);
      last.next := first;
      this.mss, unitSize, this.size := mss, size, size;
      firstBlock, currBlock, lastBlock := first, first, first;
      nextMsgNo, count := 1, 0;
      ring, cursor := chain, 0;
    }

    /** The queued packets, oldest first. */
    ghost function Packets(): (q: seq<Packet>)
      requires Valid()
      reads this, ring
      ensures |q| == count
    {
      Load(ring[..count])
    }

    /** Where the packet to be sent next is among them. */
    ghost function Cursor(): (k: nat)
      requires Valid()
      reads this, ring
      ensures k <= |Packets()|
    {
      cursor
    }

    /** A packet for the first time: None when all have been sent. */
    method ReadNext() returns (p: Option<Packet>)
      requires Valid()
      modifies this`currBlock, this`cursor
      ensures Valid() && Packets() == old(Packets()) && ring == old(ring)
      ensures old(Cursor()) == |Packets()| ==> p == None && Cursor() == old(Cursor())
      ensures old(Cursor()) < |Packets()| ==> p == Some(Packets()[old(Cursor())]) && Cursor() == old(Cursor()) + 1
    {
      if currBlock == lastBlock {
        return None;
      }
      p := Some(Packet(currBlock.payload, currBlock.header));
      assert ring[cursor].next == ring[cursor + 1];
      currBlock := currBlock.next;
      cursor := cursor + 1;
    }

    /** How many packets are queued, sent or not. */
    method GetCurrBufSize() returns (n: nat)
      requires Valid()
      ensures n == |Packets()|
    {
      n := count;
    }

    /** The block `offset` places behind the first. */
    method Forward(offset: nat) returns (b: Block)
      requires Valid() && offset <= count
      ensures b == ring[offset]
    {
      b := firstBlock;
      for i := 0 to offset
        invariant b == ring[i]
      {
        assert ring[i].next == ring[i + 1];
        b := b.next;
      }
    }

    /** The packet `offset` places behind the first, for a retransmission. */
    method ReadAt(offset: nat) returns (p: Packet)
      requires Valid() && offset < |Packets()|
      ensures p == Packets()[offset]
    {
      var b := Forward(offset);
      p := Packet(b.payload, b.header);
    }

    /** The circle `turned` begins `offset` blocks later; its blocks in use hold `q`. */
    ghost predicate Begins(turned: seq<Block>, offset: nat, q: seq<Packet>)
      reads this, ring, turned
    {
      && offset <= cursor <= count < size == |ring| == |turned|
      && Circular(turned) && Load(turned[..count - offset]) == q
      && turned[0] == ring[offset] && turned[cursor - offset] == ring[cursor]
      && turned[count - offset] == ring[count]
    }

    lemma Released(offset: nat)
      requires Valid() && offset <= cursor
      ensures Begins(ring[offset..] + ring[..offset], offset, Packets()[offset..])
    {
      hide Circular, Load;
      Rotate(ring, offset);
      LoadDrop(ring[..count], offset);
      Turned(ring, offset, cursor, count);
    }

    method TurnTo(offset: nat, ghost turned: seq<Block>, ghost q: seq<Packet>)
      requires Valid() && Begins(turned, offset, q)
      modifies this`firstBlock, this`count, this`ring, this`cursor
      ensures Valid() && ring == turned && Packets() == q && Cursor() == old(Cursor()) - offset
    {
      hide Circular, Load;
      firstBlock := Forward(offset);
      ring := turned;
      count := count - offset;
      cursor := cursor - offset;
    }

    /** The first `offset` packets, all sent, are released. */
    method AckData(offset: nat)
      requires Valid() && offset <= Cursor()
      modifies this`firstBlock, this`count, this`ring, this`cursor
      ensures Valid() && Packets() == old(Packets())[offset..] && Cursor() == old(Cursor()) - offset
      ensures forall b :: b in ring ==> b in old(ring)
    {
      hide Begins, Circular, Load;
      Released(offset);
      TurnTo(offset, ring[offset..] + ring[..offset], Packets()[offset..]);
    }

    /** More blocks are put behind the last block; queue and cursor stay. */
    method Increase()
      requires Valid()
      modifies this`ring, this`size, lastBlock
      ensures Valid() && Packets() == old(Packets()) && Cursor() == old(Cursor())
      ensures size == old(size) + unitSize && count == old(count)
      ensures old(ring)[..count + 1] <= ring
      ensures fresh(set b | b in ring && b !in old(ring))
    {
      hide Load, Circular, Row;
      var nblk, pb, chain := NewRow(unitSize);
      Splice(nblk, pb, chain);
      SplicedAt(ring, count + 1, chain, cursor);
      Join(ring[..count + 1] + chain + ring[count + 1..]);
    }

    /** The longer circle `whole` becomes the buffer's. */
    method Join(ghost whole: seq<Block>)
      requires |ring| == size && cursor <= count < size && mss > 0 && unitSize > 0 && 1 <= nextMsgNo < MAX_MSG_NO
      requires firstBlock == ring[0] && currBlock == ring[cursor] && lastBlock == ring[count]
      requires Circular(whole) && |whole| == size + unitSize
      requires whole[0] == ring[0] && whole[cursor] == ring[cursor] && whole[count] == ring[count]
      requires whole[..count] == ring[..count]
      modifies this`ring, this`size
      ensures Valid() && ring == whole && Packets() == old(Load(ring[..count])) && cursor == old(cursor)
      ensures size == old(size) + unitSize
    {
      hide Circular, Load;
      ring := whole;
      size := size + unitSize;
    }

    /** A row of new blocks is linked in behind the last block. */
    method Splice(nblk: Block, pb: Block, ghost chain: seq<Block>)
      requires Valid() && Row(chain) && nblk == chain[0] && pb == chain[|chain| - 1]
      requires forall i, j :: 0 <= i < |ring| && 0 <= j < |chain| ==> ring[i] != chain[j]
      modifies lastBlock`next, pb`next
      ensures Circular(ring[..count + 1] + chain + ring[count + 1..])
      ensures Load(ring[..count]) == old(Load(ring[..count]))
    {
      ghost var k := count + 1;
      assert k < size ==> ring[count].next == ring[k];
      pb.next := lastBlock.next;
      lastBlock.next := nblk;
      assert Row(chain);
      Spliced(ring, k, chain);
    }

    /** The first `k` blocks hold `q`, and `s` is the one after them. */
    ghost predicate FilledTo(k: nat, s: Block, q: seq<Packet>)
      reads this`ring, ring
    {
      Circular(ring) && k < |ring| && s == ring[k] && Load(ring[..k]) == q
    }

    /** The block behind the filled ones gets its contents; the result is the one after it. */
    method Fill(b: Block, p: Packet, ghost k: nat, ghost q: seq<Packet>) returns (after: Block)
      requires FilledTo(k, b, q) && k < |ring| - 1
      modifies ring
      ensures FilledTo(k + 1, after, q + [p])
    {
      b.payload := p.payload;
      b.header := p.header;
      assert ring[k].next == ring[k + 1];
      after := b.next;
    }

    /** The bytes and the message word of packet `i`. */
    method CutPacket(data: Payload, i: nat, n: nat, order: bool) returns (p: Packet)
      requires mss > 0 && i < n == |Chunks(data, mss)|
      ensures p == Framed(Chunks(data, mss), order, nextMsgNo)[i]
    {
      hide Chunks, Framed;
      ChunkAt(data, mss, i);
      var pktlen := |data| - i * mss;
      if pktlen > mss {
        pktlen := mss;
      }
      p := Packet(data[i * mss..i * mss + pktlen], Header(i == 0, i == n - 1, order, nextMsgNo));
    }

    /** The loop of `AddBuffer` over the blocks behind the last one. */
    method FillBlocks(data: Payload, n: nat, order: bool, first: Block) returns (s: Block)
      requires mss > 0 && n + count < |ring| && n == |Chunks(data, mss)|
      requires FilledTo(count, first, Load(ring[..count]))
      modifies ring
      ensures FilledTo(count + n, s, old(Load(ring[..count])) + Framed(Chunks(data, mss), order, nextMsgNo))
    {
      hide Circular, Load, Chunks, Framed, FilledTo;
      ghost var framed, was := Framed(Chunks(data, mss), order, nextMsgNo), Load(ring[..count]);
      s := first;
      assert was + framed[..0] == was && was + framed[..n] == was + framed;
      for i := 0 to n
        modifies ring
        invariant FilledTo(count + i, s, was + framed[..i])
      {
        var p := CutPacket(data, i, n, order);
        AppendNext(was, framed, i);
        s := Fill(s, p, count + i, was + framed[..i]);
      }
    }

    method FillNew(data: Payload, n: nat, order: bool)
      requires Valid() && n + count < size && n == |Chunks(data, mss)|
      modifies this`lastBlock, this`count, ring
      ensures Valid() && Packets() == old(Packets()) + Framed(Chunks(data, mss), order, nextMsgNo)
      ensures Cursor() == old(Cursor())
    {
      hide Circular, Load, Chunks, Framed;
      lastBlock := FillBlocks(data, n, order, lastBlock);
      count := count + n;
    }

    /** Blocks are added until `n` more packets fit with one block to spare, and no more than
        that takes. */
    method MakeRoom(n: nat)
      requires Valid()
      modifies this`ring, this`size, ring
      ensures Valid() && n + count < size && (size == old(size) || n + count >= size - unitSize)
      ensures Packets() == old(Packets()) && Cursor() == old(Cursor())
      ensures fresh(set b | b in ring && b !in old(ring))
    {
      hide Circular, Load;
      while n + count >= size
        invariant Valid() && Packets() == old(Packets()) && Cursor() == old(Cursor()) && count == old(count)
        invariant size == old(size) || n + count >= size - unitSize
        invariant fresh(set b | b in ring && b !in old(ring))
        decreases n + count - size
      {
        Increase();
      }
    }

    /** How many packets the bytes need. */
    method CountPackets(data: Payload) returns (n: nat)
      requires mss > 0
      ensures n == |Chunks(data, mss)|
    {
      hide Chunks;
      var len := |data|;
      n := len / mss;
      if len % mss != 0 {
        n := n + 1;
      }
      ChunkCount(data, mss, len / mss, len % mss);
    }

    method NextNumber()
      requires Valid()
      modifies this`nextMsgNo
      ensures Valid() && Packets() == old(Packets()) && Cursor() == old(Cursor())
      ensures nextMsgNo == if old(nextMsgNo) + 1 == MAX_MSG_NO then 1 else old(nextMsgNo) + 1
    {
      hide Circular, Load;
      nextMsgNo := nextMsgNo + 1;
      if nextMsgNo == MAX_MSG_NO {
        nextMsgNo := 1;
      }
    }

    /** The user's bytes, cut into packets of one message, join the queue. */
    method AddBuffer(data: Payload, order: bool)
      requires Valid()
      modifies this, ring
      ensures Valid() && Cursor() == old(Cursor())
      ensures Packets() == old(Packets()) + Framed(Chunks(data, mss), order, old(nextMsgNo))
      ensures nextMsgNo == if old(nextMsgNo) + 1 == MAX_MSG_NO then 1 else old(nextMsgNo) + 1
      ensures fresh(set b | b in ring && b !in old(ring))
    {
      hide Valid, Packets, Cursor, Chunks, Framed;
      var n := CountPackets(data);
      MakeRoom(n);
      FillNew(data, n, order);
      NextNumber();
    }
  }

  /** The packets of one message: the first and the last are marked. */
  function Framed(chunks: seq<Payload>, order: bool, no: nat): (q: seq<Packet>)
    ensures |q| == |chunks|
    ensures forall i :: 0 <= i < |q| ==> q[i] == Packet(chunks[i], Header(i == 0, i == |chunks| - 1, order, no))
  {
    seq(|chunks|, i requires 0 <= i < |chunks| => Packet(chunks[i], Header(i == 0, i == |chunks| - 1, order, no)))
  }

  const MAX_MSG_NO: nat := 0x1FFF_FFFF
}