/** Remainders by a variable size, as circular arrays use them. */
module Modular {

  lemma MulMono(a: int, b: int, m: int)
    requires a <= b && 0 <= m
    ensures a * m <= b * m
  {
    assert (b - a) * m >= 0;
  }

  /** A place less than three turns round is brought back by subtraction. */
  lemma ModWithin(x: int, m: int)
    requires 0 <= x < 3 * m
    ensures x % m == if x < m then x else if x < 2 * m then x - m else x - 2 * m
  {
    var q, r := x / m, x % m;
    assert x == q * m + r && 0 <= r < m;
    if q >= 3 {
      MulMono(3, q, m);
      assert false;
    } else if q < 0 {
      MulMono(q, -1, m);
      assert false;
    } else if q == 0 {
      assert q * m == 0;
    } else if q == 1 {
      assert q * m == m;
    } else {
      assert q * m == 2 * m;
    }
  }

  /** The cell after `p` in a circular array. */
  function Succ(p: int, size: int): (q: int)
    requires 0 <= p < size
    ensures q == if p + 1 == size then 0 else p + 1
  {
    ModWithin(p + 1, size);
    (p + 1) % size
  }

  /** The cell before `p` in a circular array. */
  function Pred(p: int, size: int): (q: int)
    requires 0 <= p < size
    ensures q == if p == 0 then size - 1 else p - 1
  {
    ModWithin(p - 1 + size, size);
    (p - 1 + size) % size
  }

  /** The cell `offset` places after `p`. */
  function Ahead(p: int, offset: int, size: int): (q: int)
    requires 0 <= p < size && 0 <= offset
    ensures 0 <= q < size
    ensures offset <= size ==> q == if p + offset < size then p + offset else p + offset - size
  {
    if offset <= size then
      ModWithin(p + offset, size);
      (p + offset) % size
    else
      (p + offset) % size
  }

  /** The cell `offset` places from `p`, backwards by at most one turn. */
  function Place(p: int, offset: int, size: int): (q: int)
    requires 0 <= p < size && -size <= offset
    ensures 0 <= q < size
    ensures offset <= size ==> q == p + offset || q == p + offset - size || q == p + offset + size
  {
    PlaceWithin(p, offset, size);
    (p + offset + size) % size
  }

  lemma PlaceWithin(p: int, offset: int, size: int)
    requires 0 <= p < size && -size <= offset
    ensures var q := (p + offset + size) % size;
            offset <= size ==> q == p + offset || q == p + offset - size || q == p + offset + size
  {
    if offset <= size {
      ModWithin(p + offset + size, size);
    }
  }
}
