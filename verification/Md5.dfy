/** The MD5 hash as the program computes it, a piece of the message at a time, and as
    RFC 1321 defines it, over the padded whole message. */
module Md5 {
  import opened Bytes

  datatype Registers = Registers(a: bv32, b: bv32, c: bv32, d: bv32)

  const INIT := Registers(0x67452301, 0xefcdab89, 0x98badcfe, 0x10325476)

  // --- The block function -----------------------------------------------------

  /** The sine table of section 3.4 of RFC 1321, a round at a time. */
  const TABLE1: seq<bv32> := [
    0xd76aa478, 0xe8c7b756, 0x242070db, 0xc1bdceee, 0xf57c0faf, 0x4787c62a, 0xa8304613, 0xfd469501,
    0x698098d8, 0x8b44f7af, 0xffff5bb1, 0x895cd7be, 0x6b901122, 0xfd987193, 0xa679438e, 0x49b40821]

  const TABLE2: seq<bv32> := [
    0xf61e2562, 0xc040b340, 0x265e5a51, 0xe9b6c7aa, 0xd62f105d, 0x02441453, 0xd8a1e681, 0xe7d3fbc8,
    0x21e1cde6, 0xc33707d6, 0xf4d50d87, 0x455a14ed, 0xa9e3e905, 0xfcefa3f8, 0x676f02d9, 0x8d2a4c8a]

  const TABLE3: seq<bv32> := [
    0xfffa3942, 0x8771f681, 0x6d9d6122, 0xfde5380c, 0xa4beea44, 0x4bdecfa9, 0xf6bb4b60, 0xbebfbc70,
    0x289b7ec6, 0xeaa127fa, 0xd4ef3085, 0x04881d05, 0xd9d4d039, 0xe6db99e5, 0x1fa27cf8, 0xc4ac5665]

  const TABLE4: seq<bv32> := [
    0xf4292244, 0x432aff97, 0xab9423a7, 0xfc93a039, 0x655b59c3, 0x8f0ccc92, 0xffeff47d, 0x85845dd1,
    0x6fa87e4f, 0xfe2ce6e0, 0xa3014314, 0x4e0811a1, 0xf7537e82, 0xbd3af235, 0x2ad7d2bb, 0xeb86d391]

  function Sine(i: nat): bv32
    requires i < 64
  {
    if i < 16 then TABLE1[i] else if i < 32 then TABLE2[i - 16] else if i < 48 then TABLE3[i - 32] else TABLE4[i - 48]
  }

  function RotateLeft(x: bv32, n: nat): bv32
    requires n < 32
  {
    (x << n) | (x >> (32 - n))
  }

  /** Word `k` of a block, least significant byte first. */
  function WordAt(block: seq<Byte>, k: nat): bv32
    requires |block| == 64 && k < 16
  {
    Word(block[4 * k], block[4 * k + 1], block[4 * k + 2], block[4 * k + 3])
  }

  function Word(p: Byte, q: Byte, r: Byte, s: Byte): bv32 {
    (p as bv32) + ((q as bv32) << 8) + ((r as bv32) << 16) + ((s as bv32) << 24)
  }

  /** The function of three registers that step `i` uses. */
  function Mix(i: nat, x: bv32, y: bv32, z: bv32): bv32 {
    if i < 16 then (x & y) | (!x & z)
    else if i < 32 then (x & z) | (y & !z)
    else if i < 48 then x ^ y ^ z
    else y ^ (x | !z)
  }

  /** The word that step `i` adds, and how far it rotates. */
  function WordOf(i: nat): (k: nat)
    ensures i < 64 ==> k < 16
  {
    if i < 16 then i else if i < 32 then (5 * i + 1) % 16 else if i < 48 then (3 * i + 5) % 16 else 7 * i % 16
  }

  function ShiftOf(i: nat): (n: nat)
    requires i < 64
    ensures n < 32
  {
    if i < 16 then [7, 12, 17, 22][i % 4]
    else if i < 32 then [5, 9, 14, 20][i % 4]
    else if i < 48 then [4, 11, 16, 23][i % 4]
    else [6, 10, 15, 21][i % 4]
  }

  /** One operation: the sum is turned by `s` places. */
  function Set(a: bv32, b: bv32, mix: bv32, x: bv32, s: nat, t: bv32): bv32
    requires s < 32
  {
    RotateLeft(a + mix + x + t, s) + b
  }

  /** Steps `i` to 63; each replaces one register, and the next works on the others' places
      turned by one. */
  function Steps(r: Registers, block: seq<Byte>, i: nat): Registers
    requires |block| == 64 && i <= 64
    decreases |block| - i
  {
    if i == 64 then r else
      var a := Set(r.a, r.b, Mix(i, r.b, r.c, r.d), WordAt(block, WordOf(i)), ShiftOf(i), Sine(i));
      Steps(Registers(r.d, a, r.b, r.c), block, i + 1)
  }

  lemma StepsEnd(r: Registers, block: seq<Byte>)
    requires |block| == 64
    ensures Steps(r, block, 64) == r
  {}

  /** The block function. */
  function Process(r: Registers, block: seq<Byte>): Registers
    requires |block| == 64
  {
    Plus(r, Steps(r, block, 0))
  }

  function Plus(r: Registers, s: Registers): Registers {
    Registers(r.a + s.a, r.b + s.b, r.c + s.c, r.d + s.d)
  }

  // --- The block function as the source has it ---------------------------------

  const T_MASK: bv32 := !0

  const T1: bv32 := T_MASK ^ 0x28955b87
  const T2: bv32 := T_MASK ^ 0x173848a9
  const T3: bv32 := 0x242070db
  const T4: bv32 := T_MASK ^ 0x3e423111
  const T5: bv32 := T_MASK ^ 0x0a83f050
  const T6: bv32 := 0x4787c62a
  const T7: bv32 := T_MASK ^ 0x57cfb9ec
  const T8: bv32 := T_MASK ^ 0x02b96afe
  const T9: bv32 := 0x698098d8
  const T10: bv32 := T_MASK ^ 0x74bb0850
  const T11: bv32 := T_MASK ^ 0x0000a44e
  const T12: bv32 := T_MASK ^ 0x76a32841
  const T13: bv32 := 0x6b901122
  const T14: bv32 := T_MASK ^ 0x02678e6c
  const T15: bv32 := T_MASK ^ 0x5986bc71
  const T16: bv32 := 0x49b40821
  const T17: bv32 := T_MASK ^ 0x09e1da9d
  const T18: bv32 := T_MASK ^ 0x3fbf4cbf
  const T19: bv32 := 0x265e5a51
  const T20: bv32 := T_MASK ^ 0x16493855
  const T21: bv32 := T_MASK ^ 0x29d0efa2
  const T22: bv32 := 0x02441453
  const T23: bv32 := T_MASK ^ 0x275e197e
  const T24: bv32 := T_MASK ^ 0x182c0437
  const T25: bv32 := 0x21e1cde6
  const T26: bv32 := T_MASK ^ 0x3cc8f829
  const T27: bv32 := T_MASK ^ 0x0b2af278
  const T28: bv32 := 0x455a14ed
  const T29: bv32 := T_MASK ^ 0x561c16fa
  const T30: bv32 := T_MASK ^ 0x03105c07
  const T31: bv32 := 0x676f02d9
  const T32: bv32 := T_MASK ^ 0x72d5b375
  const T33: bv32 := T_MASK ^ 0x0005c6bd
  const T34: bv32 := T_MASK ^ 0x788e097e
  const T35: bv32 := 0x6d9d6122
  const T36: bv32 := T_MASK ^ 0x021ac7f3
  const T37: bv32 := T_MASK ^ 0x5b4115bb
  const T38: bv32 := 0x4bdecfa9
  const T39: bv32 := T_MASK ^ 0x0944b49f
  const T40: bv32 := T_MASK ^ 0x4140438f
  const T41: bv32 := 0x289b7ec6
  const T42: bv32 := T_MASK ^ 0x155ed805
  const T43: bv32 := T_MASK ^ 0x2b10cf7a
  const T44: bv32 := 0x04881d05
  const T45: bv32 := T_MASK ^ 0x262b2fc6
  const T46: bv32 := T_MASK ^ 0x1924661a
  const T47: bv32 := 0x1fa27cf8
  const T48: bv32 := T_MASK ^ 0x3b53a99a
  const T49: bv32 := T_MASK ^ 0x0bd6ddbb
  const T50: bv32 := 0x432aff97
  const T51: bv32 := T_MASK ^ 0x546bdc58
  const T52: bv32 := T_MASK ^ 0x036c5fc6
  const T53: bv32 := 0x655b59c3
  const T54: bv32 := T_MASK ^ 0x70f3336d
  const T55: bv32 := T_MASK ^ 0x00100b82
  const T56: bv32 := T_MASK ^ 0x7a7ba22e
  const T57: bv32 := 0x6fa87e4f
  const T58: bv32 := T_MASK ^ 0x01d3191f
  const T59: bv32 := T_MASK ^ 0x5cfebceb
  const T60: bv32 := 0x4e0811a1
  const T61: bv32 := T_MASK ^ 0x08ac817d
  const T62: bv32 := T_MASK ^ 0x42c50dca
  const T63: bv32 := 0x2ad7d2bb
  const T64: bv32 := T_MASK ^ 0x14792c6e

  function F(x: bv32, y: bv32, z: bv32): bv32 {
    (x & y) | (!x & z)
  }

  function G(x: bv32, y: bv32, z: bv32): bv32 {
    (x & z) | (y & !z)
  }

  function H(x: bv32, y: bv32, z: bv32): bv32 {
    x ^ y ^ z
  }

  function I(x: bv32, y: bv32, z: bv32): bv32 {
    y ^ (x | !z)
  }

  /** Four steps, after which every register is back in its place. */
  lemma FourSteps(r: Registers, block: seq<Byte>, i: nat)
    requires |block| == 64 && i + 4 <= 64
    ensures var a := Set(r.a, r.b, Mix(i, r.b, r.c, r.d), WordAt(block, WordOf(i)), ShiftOf(i), Sine(i));
            var d := Set(r.d, a, Mix(i + 1, a, r.b, r.c), WordAt(block, WordOf(i + 1)), ShiftOf(i + 1), Sine(i + 1));
            var c := Set(r.c, d, Mix(i + 2, d, a, r.b), WordAt(block, WordOf(i + 2)), ShiftOf(i + 2), Sine(i + 2));
            var b := Set(r.b, c, Mix(i + 3, c, d, a), WordAt(block, WordOf(i + 3)), ShiftOf(i + 3), Sine(i + 3));
            Steps(r, block, i) == Steps(Registers(a, b, c, d), block, i + 4)
  {
    hide Mix, WordAt, WordOf, ShiftOf, Sine, Set, Steps;
    var r1 := OneStep(r, block, i);
    var r2 := OneStep(r1, block, i + 1);
    var r3 := OneStep(r2, block, i + 2);
    var r4 := OneStep(r3, block, i + 3);
  }

  lemma OneStep(r: Registers, block: seq<Byte>, i: nat) returns (r1: Registers)
    requires |block| == 64 && i < 64
    ensures r1 == Registers(r.d, Set(r.a, r.b, Mix(i, r.b, r.c, r.d), WordAt(block, WordOf(i)), ShiftOf(i), Sine(i)),
                            r.b, r.c)
    ensures Steps(r, block, i) == Steps(r1, block, i + 1)
  {
    hide Mix, WordAt, WordOf, ShiftOf, Sine, Set;
    r1 := Registers(r.d, Set(r.a, r.b, Mix(i, r.b, r.c, r.d), WordAt(block, WordOf(i)), ShiftOf(i), Sine(i)), r.b, r.c);
  }

  /** Which function of three registers each round uses. */
  lemma Mixes(i: nat, x: bv32, y: bv32, z: bv32)
    ensures i < 16 ==> Mix(i, x, y, z) == F(x, y, z)
    ensures 16 <= i < 32 ==> Mix(i, x, y, z) == G(x, y, z)
    ensures 32 <= i < 48 ==> Mix(i, x, y, z) == H(x, y, z)
    ensures 48 <= i ==> Mix(i, x, y, z) == I(x, y, z)
  {}

  lemma FourF(r: Registers, block: seq<Byte>, i: nat)
    requires |block| == 64 && i + 4 <= 16
    ensures var a := Set(r.a, r.b, F(r.b, r.c, r.d), WordAt(block, WordOf(i)), ShiftOf(i), Sine(i));
            var d := Set(r.d, a, F(a, r.b, r.c), WordAt(block, WordOf(i + 1)), ShiftOf(i + 1), Sine(i + 1));
            var c := Set(r.c, d, F(d, a, r.b), WordAt(block, WordOf(i + 2)), ShiftOf(i + 2), Sine(i + 2));
            var b := Set(r.b, c, F(c, d, a), WordAt(block, WordOf(i + 3)), ShiftOf(i + 3), Sine(i + 3));
            Steps(r, block, i) == Steps(Registers(a, b, c, d), block, i + 4)
  {
    hide Mix, WordAt, WordOf, ShiftOf, Sine, Set, Steps, F;
    var a := Set(r.a, r.b, F(r.b, r.c, r.d), WordAt(block, WordOf(i)), ShiftOf(i), Sine(i));
    var d := Set(r.d, a, F(a, r.b, r.c), WordAt(block, WordOf(i + 1)), ShiftOf(i + 1), Sine(i + 1));
    var c := Set(r.c, d, F(d, a, r.b), WordAt(block, WordOf(i + 2)), ShiftOf(i + 2), Sine(i + 2));
    Mixes(i, r.b, r.c, r.d);
    Mixes(i + 1, a, r.b, r.c);
    Mixes(i + 2, d, a, r.b);
    Mixes(i + 3, c, d, a);
    FourSteps(r, block, i);
  }

  /** Round 1: words, turns and constants. */
  lemma Words1()
    ensures WordOf(0) == 0 && ShiftOf(0) == 7 && WordOf(1) == 1 && ShiftOf(1) == 12
    ensures WordOf(2) == 2 && ShiftOf(2) == 17 && WordOf(3) == 3 && ShiftOf(3) == 22
    ensures WordOf(4) == 4 && ShiftOf(4) == 7 && WordOf(5) == 5 && ShiftOf(5) == 12
    ensures WordOf(6) == 6 && ShiftOf(6) == 17 && WordOf(7) == 7 && ShiftOf(7) == 22
    ensures WordOf(8) == 8 && ShiftOf(8) == 7 && WordOf(9) == 9 && ShiftOf(9) == 12
    ensures WordOf(10) == 10 && ShiftOf(10) == 17 && WordOf(11) == 11 && ShiftOf(11) == 22
    ensures WordOf(12) == 12 && ShiftOf(12) == 7 && WordOf(13) == 13 && ShiftOf(13) == 12
    ensures WordOf(14) == 14 && ShiftOf(14) == 17 && WordOf(15) == 15 && ShiftOf(15) == 22
  {}

  lemma Sines1()
    ensures Sine(0) == T1 && Sine(1) == T2 && Sine(2) == T3 && Sine(3) == T4
    ensures Sine(4) == T5 && Sine(5) == T6 && Sine(6) == T7 && Sine(7) == T8
  {}

  lemma Sines1Rest()
    ensures Sine(8) == T9 && Sine(9) == T10 && Sine(10) == T11 && Sine(11) == T12
    ensures Sine(12) == T13 && Sine(13) == T14 && Sine(14) == T15 && Sine(15) == T16
  {}

  method Round1(r: Registers, block: seq<Byte>) returns (t: Registers)
    requires |block| == 64
    ensures Steps(r, block, 0) == Steps(t, block, 16)
  {
    hide *;
    Words1();
    Sines1();
    Sines1Rest();
    var a, b, c, d := r.a, r.b, r.c, r.d;
    FourF(Registers(a, b, c, d), block, 0);
    a := Set(a, b, F(b, c, d), WordAt(block, 0), 7, T1);
    d := Set(d, a, F(a, b, c), WordAt(block, 1), 12, T2);
    c := Set(c, d, F(d, a, b), WordAt(block, 2), 17, T3);
    b := Set(b, c, F(c, d, a), WordAt(block, 3), 22, T4);
    FourF(Registers(a, b, c, d), block, 4);
    a := Set(a, b, F(b, c, d), WordAt(block, 4), 7, T5);
    d := Set(d, a, F(a, b, c), WordAt(block, 5), 12, T6);
    c := Set(c, d, F(d, a, b), WordAt(block, 6), 17, T7);
    b := Set(b, c, F(c, d, a), WordAt(block, 7), 22, T8);
    FourF(Registers(a, b, c, d), block, 8);
    a := Set(a, b, F(b, c, d), WordAt(block, 8), 7, T9);
    d := Set(d, a, F(a, b, c), WordAt(block, 9), 12, T10);
    c := Set(c, d, F(d, a, b), WordAt(block, 10), 17, T11);
    b := Set(b, c, F(c, d, a), WordAt(block, 11), 22, T12);
    FourF(Registers(a, b, c, d), block, 12);
    a := Set(a, b, F(b, c, d), WordAt(block, 12), 7, T13);
    d := Set(d, a, F(a, b, c), WordAt(block, 13), 12, T14);
    c := Set(c, d, F(d, a, b), WordAt(block, 14), 17, T15);
    b := Set(b, c, F(c, d, a), WordAt(block, 15), 22, T16);
    t := Registers(a, b, c, d);
  }

  lemma FourG(r: Registers, block: seq<Byte>, i: nat)
    requires |block| == 64 && 16 <= i && i + 4 <= 32
    ensures var a := Set(r.a, r.b, G(r.b, r.c, r.d), WordAt(block, WordOf(i)), ShiftOf(i), Sine(i));
            var d := Set(r.d, a, G(a, r.b, r.c), WordAt(block, WordOf(i + 1)), ShiftOf(i + 1), Sine(i + 1));
            var c := Set(r.c, d, G(d, a, r.b), WordAt(block, WordOf(i + 2)), ShiftOf(i + 2), Sine(i + 2));
            var b := Set(r.b, c, G(c, d, a), WordAt(block, WordOf(i + 3)), ShiftOf(i + 3), Sine(i + 3));
            Steps(r, block, i) == Steps(Registers(a, b, c, d), block, i + 4)
  {
    hide Mix, WordAt, WordOf, ShiftOf, Sine, Set, Steps, G;
    var a := Set(r.a, r.b, G(r.b, r.c, r.d), WordAt(block, WordOf(i)), ShiftOf(i), Sine(i));
    var d := Set(r.d, a, G(a, r.b, r.c), WordAt(block, WordOf(i + 1)), ShiftOf(i + 1), Sine(i + 1));
    var c := Set(r.c, d, G(d, a, r.b), WordAt(block, WordOf(i + 2)), ShiftOf(i + 2), Sine(i + 2));
    Mixes(i, r.b, r.c, r.d);
    Mixes(i + 1, a, r.b, r.c);
    Mixes(i + 2, d, a, r.b);
    Mixes(i + 3, c, d, a);
    FourSteps(r, block, i);
  }

  /** Round 2: words, turns and constants. */
  lemma Words2()
    ensures WordOf(16) == 1 && ShiftOf(16) == 5 && WordOf(17) == 6 && ShiftOf(17) == 9
    ensures WordOf(18) == 11 && ShiftOf(18) == 14 && WordOf(19) == 0 && ShiftOf(19) == 20
    ensures WordOf(20) == 5 && ShiftOf(20) == 5 && WordOf(21) == 10 && ShiftOf(21) == 9
    ensures WordOf(22) == 15 && ShiftOf(22) == 14 && WordOf(23) == 4 && ShiftOf(23) == 20
    ensures WordOf(24) == 9 && ShiftOf(24) == 5 && WordOf(25) == 14 && ShiftOf(25) == 9
    ensures WordOf(26) == 3 && ShiftOf(26) == 14 && WordOf(27) == 8 && ShiftOf(27) == 20
    ensures WordOf(28) == 13 && ShiftOf(28) == 5 && WordOf(29) == 2 && ShiftOf(29) == 9
    ensures WordOf(30) == 7 && ShiftOf(30) == 14 && WordOf(31) == 12 && ShiftOf(31) == 20
  {}

  lemma Sines2()
    ensures Sine(16) == T17 && Sine(17) == T18 && Sine(18) == T19 && Sine(19) == T20
    ensures Sine(20) == T21 && Sine(21) == T22 && Sine(22) == T23 && Sine(23) == T24
  {}

  lemma Sines2Rest()
    ensures Sine(24) == T25 && Sine(25) == T26 && Sine(26) == T27 && Sine(27) == T28
    ensures Sine(28) == T29 && Sine(29) == T30 && Sine(30) == T31 && Sine(31) == T32
  {}

  method Round2(r: Registers, block: seq<Byte>) returns (t: Registers)
    requires |block| == 64
    ensures Steps(r, block, 16) == Steps(t, block, 32)
  {
    hide *;
    Words2();
    Sines2();
    Sines2Rest();
    var a, b, c, d := r.a, r.b, r.c, r.d;
    FourG(Registers(a, b, c, d), block, 16);
    a := Set(a, b, G(b, c, d), WordAt(block, 1), 5, T17);
    d := Set(d, a, G(a, b, c), WordAt(block, 6), 9, T18);
    c := Set(c, d, G(d, a, b), WordAt(block, 11), 14, T19);
    b := Set(b, c, G(c, d, a), WordAt(block, 0), 20, T20);
    FourG(Registers(a, b, c, d), block, 20);
    a := Set(a, b, G(b, c, d), WordAt(block, 5), 5, T21);
    d := Set(d, a, G(a, b, c), WordAt(block, 10), 9, T22);
    c := Set(c, d, G(d, a, b), WordAt(block, 15), 14, T23);
    b := Set(b, c, G(c, d, a), WordAt(block, 4), 20, T24);
    FourG(Registers(a, b, c, d), block, 24);
    a := Set(a, b, G(b, c, d), WordAt(block, 9), 5, T25);
    d := Set(d, a, G(a, b, c), WordAt(block, 14), 9, T26);
    c := Set(c, d, G(d, a, b), WordAt(block, 3), 14, T27);
    b := Set(b, c, G(c, d, a), WordAt(block, 8), 20, T28);
    FourG(Registers(a, b, c, d), block, 28);
    a := Set(a, b, G(b, c, d), WordAt(block, 13), 5, T29);
    d := Set(d, a, G(a, b, c), WordAt(block, 2), 9, T30);
    c := Set(c, d, G(d, a, b), WordAt(block, 7), 14, T31);
    b := Set(b, c, G(c, d, a), WordAt(block, 12), 20, T32);
    t := Registers(a, b, c, d);
  }

  lemma FourH(r: Registers, block: seq<Byte>, i: nat)
    requires |block| == 64 && 32 <= i && i + 4 <= 48
    ensures var a := Set(r.a, r.b, H(r.b, r.c, r.d), WordAt(block, WordOf(i)), ShiftOf(i), Sine(i));
            var d := Set(r.d, a, H(a, r.b, r.c), WordAt(block, WordOf(i + 1)), ShiftOf(i + 1), Sine(i + 1));
            var c := Set(r.c, d, H(d, a, r.b), WordAt(block, WordOf(i + 2)), ShiftOf(i + 2), Sine(i + 2));
            var b := Set(r.b, c, H(c, d, a), WordAt(block, WordOf(i + 3)), ShiftOf(i + 3), Sine(i + 3));
            Steps(r, block, i) == Steps(Registers(a, b, c, d), block, i + 4)
  {
    hide Mix, WordAt, WordOf, ShiftOf, Sine, Set, Steps, H;
    var a := Set(r.a, r.b, H(r.b, r.c, r.d), WordAt(block, WordOf(i)), ShiftOf(i), Sine(i));
    var d := Set(r.d, a, H(a, r.b, r.c), WordAt(block, WordOf(i + 1)), ShiftOf(i + 1), Sine(i + 1));
    var c := Set(r.c, d, H(d, a, r.b), WordAt(block, WordOf(i + 2)), ShiftOf(i + 2), Sine(i + 2));
    Mixes(i, r.b, r.c, r.d);
    Mixes(i + 1, a, r.b, r.c);
    Mixes(i + 2, d, a, r.b);
    Mixes(i + 3, c, d, a);
    FourSteps(r, block, i);
  }

  /** Round 3: words, turns and constants. */
  lemma Words3()
    ensures WordOf(32) == 5 && ShiftOf(32) == 4 && WordOf(33) == 8 && ShiftOf(33) == 11
    ensures WordOf(34) == 11 && ShiftOf(34) == 16 && WordOf(35) == 14 && ShiftOf(35) == 23
    ensures WordOf(36) == 1 && ShiftOf(36) == 4 && WordOf(37) == 4 && ShiftOf(37) == 11
    ensures WordOf(38) == 7 && ShiftOf(38) == 16 && WordOf(39) == 10 && ShiftOf(39) == 23
    ensures WordOf(40) == 13 && ShiftOf(40) == 4 && WordOf(41) == 0 && ShiftOf(41) == 11
    ensures WordOf(42) == 3 && ShiftOf(42) == 16 && WordOf(43) == 6 && ShiftOf(43) == 23
    ensures WordOf(44) == 9 && ShiftOf(44) == 4 && WordOf(45) == 12 && ShiftOf(45) == 11
    ensures WordOf(46) == 15 && ShiftOf(46) == 16 && WordOf(47) == 2 && ShiftOf(47) == 23
  {}

  lemma Sines3()
    ensures Sine(32) == T33 && Sine(33) == T34 && Sine(34) == T35 && Sine(35) == T36
    ensures Sine(36) == T37 && Sine(37) == T38 && Sine(38) == T39 && Sine(39) == T40
  {}

  lemma Sines3Rest()
    ensures Sine(40) == T41 && Sine(41) == T42 && Sine(42) == T43 && Sine(43) == T44
    ensures Sine(44) == T45 && Sine(45) == T46 && Sine(46) == T47 && Sine(47) == T48
  {}

  method Round3(r: Registers, block: seq<Byte>) returns (t: Registers)
    requires |block| == 64
    ensures Steps(r, block, 32) == Steps(t, block, 48)
  {
    hide *;
    Words3();
    Sines3();
    Sines3Rest();
    var a, b, c, d := r.a, r.b, r.c, r.d;
    FourH(Registers(a, b, c, d), block, 32);
    a := Set(a, b, H(b, c, d), WordAt(block, 5), 4, T33);
    d := Set(d, a, H(a, b, c), WordAt(block, 8), 11, T34);
    c := Set(c, d, H(d, a, b), WordAt(block, 11), 16, T35);
    b := Set(b, c, H(c, d, a), WordAt(block, 14), 23, T36);
    FourH(Registers(a, b, c, d), block, 36);
    a := Set(a, b, H(b, c, d), WordAt(block, 1), 4, T37);
    d := Set(d, a, H(a, b, c), WordAt(block, 4), 11, T38);
    c := Set(c, d, H(d, a, b), WordAt(block, 7), 16, T39);
    b := Set(b, c, H(c, d, a), WordAt(block, 10), 23, T40);
    FourH(Registers(a, b, c, d), block, 40);
    a := Set(a, b, H(b, c, d), WordAt(block, 13), 4, T41);
    d := Set(d, a, H(a, b, c), WordAt(block, 0), 11, T42);
    c := Set(c, d, H(d, a, b), WordAt(block, 3), 16, T43);
    b := Set(b, c, H(c, d, a), WordAt(block, 6), 23, T44);
    FourH(Registers(a, b, c, d), block, 44);
    a := Set(a, b, H(b, c, d), WordAt(block, 9), 4, T45);
    d := Set(d, a, H(a, b, c), WordAt(block, 12), 11, T46);
    c := Set(c, d, H(d, a, b), WordAt(block, 15), 16, T47);
    b := Set(b, c, H(c, d, a), WordAt(block, 2), 23, T48);
    t := Registers(a, b, c, d);
  }

  lemma FourI(r: Registers, block: seq<Byte>, i: nat)
    requires |block| == 64 && 48 <= i && i + 4 <= 64
    ensures var a := Set(r.a, r.b, I(r.b, r.c, r.d), WordAt(block, WordOf(i)), ShiftOf(i), Sine(i));
            var d := Set(r.d, a, I(a, r.b, r.c), WordAt(block, WordOf(i + 1)), ShiftOf(i + 1), Sine(i + 1));
            var c := Set(r.c, d, I(d, a, r.b), WordAt(block, WordOf(i + 2)), ShiftOf(i + 2), Sine(i + 2));
            var b := Set(r.b, c, I(c, d, a), WordAt(block, WordOf(i + 3)), ShiftOf(i + 3), Sine(i + 3));
            Steps(r, block, i) == Steps(Registers(a, b, c, d), block, i + 4)
  {
    hide Mix, WordAt, WordOf, ShiftOf, Sine, Set, Steps, I;
    var a := Set(r.a, r.b, I(r.b, r.c, r.d), WordAt(block, WordOf(i)), ShiftOf(i), Sine(i));
    var d := Set(r.d, a, I(a, r.b, r.c), WordAt(block, WordOf(i + 1)), ShiftOf(i + 1), Sine(i + 1));
    var c := Set(r.c, d, I(d, a, r.b), WordAt(block, WordOf(i + 2)), ShiftOf(i + 2), Sine(i + 2));
    Mixes(i, r.b, r.c, r.d);
    Mixes(i + 1, a, r.b, r.c);
    Mixes(i + 2, d, a, r.b);
    Mixes(i + 3, c, d, a);
    FourSteps(r, block, i);
  }

  /** Round 4: words, turns and constants. */
  lemma Words4()
    ensures WordOf(48) == 0 && ShiftOf(48) == 6 && WordOf(49) == 7 && ShiftOf(49) == 10
    ensures WordOf(50) == 14 && ShiftOf(50) == 15 && WordOf(51) == 5 && ShiftOf(51) == 21
    ensures WordOf(52) == 12 && ShiftOf(52) == 6 && WordOf(53) == 3 && ShiftOf(53) == 10
    ensures WordOf(54) == 10 && ShiftOf(54) == 15 && WordOf(55) == 1 && ShiftOf(55) == 21
    ensures WordOf(56) == 8 && ShiftOf(56) == 6 && WordOf(57) == 15 && ShiftOf(57) == 10
    ensures WordOf(58) == 6 && ShiftOf(58) == 15 && WordOf(59) == 13 && ShiftOf(59) == 21
    ensures WordOf(60) == 4 && ShiftOf(60) == 6 && WordOf(61) == 11 && ShiftOf(61) == 10
    ensures WordOf(62) == 2 && ShiftOf(62) == 15 && WordOf(63) == 9 && ShiftOf(63) == 21
  {}

  lemma Sines4()
    ensures Sine(48) == T49 && Sine(49) == T50 && Sine(50) == T51 && Sine(51) == T52
    ensures Sine(52) == T53 && Sine(53) == T54 && Sine(54) == T55 && Sine(55) == T56
  {}

  lemma Sines4Rest()
    ensures Sine(56) == T57 && Sine(57) == T58 && Sine(58) == T59 && Sine(59) == T60
    ensures Sine(60) == T61 && Sine(61) == T62 && Sine(62) == T63 && Sine(63) == T64
  {}

  method Round4(r: Registers, block: seq<Byte>) returns (t: Registers)
    requires |block| == 64
    ensures Steps(r, block, 48) == Steps(t, block, 64)
  {
    hide *;
    Words4();
    Sines4();
    Sines4Rest();
    var a, b, c, d := r.a, r.b, r.c, r.d;
    FourI(Registers(a, b, c, d), block, 48);
    a := Set(a, b, I(b, c, d), WordAt(block, 0), 6, T49);
    d := Set(d, a, I(a, b, c), WordAt(block, 7), 10, T50);
    c := Set(c, d, I(d, a, b), WordAt(block, 14), 15, T51);
    b := Set(b, c, I(c, d, a), WordAt(block, 5), 21, T52);
    FourI(Registers(a, b, c, d), block, 52);
    a := Set(a, b, I(b, c, d), WordAt(block, 12), 6, T53);
    d := Set(d, a, I(a, b, c), WordAt(block, 3), 10, T54);
    c := Set(c, d, I(d, a, b), WordAt(block, 10), 15, T55);
    b := Set(b, c, I(c, d, a), WordAt(block, 1), 21, T56);
    FourI(Registers(a, b, c, d), block, 56);
    a := Set(a, b, I(b, c, d), WordAt(block, 8), 6, T57);
    d := Set(d, a, I(a, b, c), WordAt(block, 15), 10, T58);
    c := Set(c, d, I(d, a, b), WordAt(block, 6), 15, T59);
    b := Set(b, c, I(c, d, a), WordAt(block, 13), 21, T60);
    FourI(Registers(a, b, c, d), block, 60);
    a := Set(a, b, I(b, c, d), WordAt(block, 4), 6, T61);
    d := Set(d, a, I(a, b, c), WordAt(block, 11), 10, T62);
    c := Set(c, d, I(d, a, b), WordAt(block, 2), 15, T63);
    b := Set(b, c, I(c, d, a), WordAt(block, 9), 21, T64);
    t := Registers(a, b, c, d);
  }

  // --- The hash of a whole message --------------------------------------------

  /** The block function over all whole blocks of the data, in order. */
  function Fold(r: Registers, data: seq<Byte>): Registers
    decreases |data|
  {
    if |data| < 64 then r else Fold(Process(r, data[..64]), data[64..])
  }

  lemma {:induction false} FoldAppend(r: Registers, a: seq<Byte>, b: seq<Byte>)
    requires |a| % 64 == 0
    ensures Fold(r, a + b) == Fold(Fold(r, a), b)
    decreases |a|
  {
    hide Process;
    if |a| < 64 {
      assert a + b == b;
    } else {
      assert (a + b)[..64] == a[..64] && (a + b)[64..] == a[64..] + b;
      FoldAppend(Process(r, a[..64]), a[64..], b);
    }
  }

  /** The bytes of `n`, `k` of them, least significant first. */
  function LittleEndian(n: nat, k: nat): (s: seq<Byte>)
    ensures |s| == k
    decreases k
  {
    if k == 0 then [] else [(n % 0x100) as Byte] + LittleEndian(n / 0x100, k - 1)
  }

  /** How many bytes of padding bring a length to 56 modulo 64: at least one. */
  function PadLength(length: nat): (p: nat)
    ensures 1 <= p <= 64 && (length + p) % 64 == 56
  {
    (55 - length) % 64 + 1
  }

  /** Sections 3.1 and 3.2 of RFC 1321: a one bit, zeros, and the length in bits modulo 2^64. */
  function Padded(message: seq<Byte>): (m: seq<Byte>) {
    message + ([0x80] + seq(PadLength(|message|) - 1, _ => 0)) + LittleEndian(8 * |message| % (WORD * WORD), 8)
  }

  /** Padding ends on a block boundary. */
  lemma PaddedWhole(message: seq<Byte>)
    ensures |Padded(message)| % 64 == 0 && message <= Padded(message)
  {
    hide LittleEndian;
    assert |Padded(message)| == |message| + PadLength(|message|) + 8;
  }

  /** The digest, as the output of section 3.5 of RFC 1321. */
  function Digest(message: seq<Byte>): (d: seq<Byte>)
    ensures |d| == 16
  {
    Output(Fold(INIT, Padded(message)))
  }

  function Output(r: Registers): (d: seq<Byte>)
    ensures |d| == 16
  {
    LittleEndian(r.a as int, 4) + LittleEndian(r.b as int, 4)
    + LittleEndian(r.c as int, 4) + LittleEndian(r.d as int, 4)
  }

  // --- A known value ------------------------------------------------------------

  /** "abc", padded. */
  const ABC: seq<Byte> := [0x61, 0x62, 0x63, 0x80] + seq(52, _ => 0) + [24, 0, 0, 0, 0, 0, 0, 0]

  lemma AbcBytes()
    ensures |ABC| == 64 && ABC[0] == 0x61 && ABC[1] == 0x62 && ABC[2] == 0x63 && ABC[3] == 0x80 && ABC[56] == 24
    ensures forall i :: 4 <= i < 64 && i != 56 ==> ABC[i] == 0
  {}

  lemma AbcWords()
    ensures |ABC| == 64 && WordAt(ABC, 0) == 0x80636261 && WordAt(ABC, 14) == 24
    ensures forall k :: 1 <= k < 16 && k != 14 ==> WordAt(ABC, k) == 0
  {
    hide ABC, Word;
    AbcBytes();
    WordValues();
  }

  lemma WordValues()
    ensures Word(0x61, 0x62, 0x63, 0x80) == 0x80636261 && Word(24, 0, 0, 0) == 24 && Word(0, 0, 0, 0) == 0
  {}

  /** The operations of round 1. */
  lemma AbcSets1()
    ensures Set(0x67452301, 0xefcdab89, F(0xefcdab89, 0x98badcfe, 0x10325476), 0x80636261, 7, T1) == 0xd6d117b4
    ensures Set(0x10325476, 0xd6d117b4, F(0xd6d117b4, 0xefcdab89, 0x98badcfe), 0x00000000, 12, T2) == 0x344a8432
    ensures Set(0x98badcfe, 0x344a8432, F(0x344a8432, 0xd6d117b4, 0xefcdab89), 0x00000000, 17, T3) == 0x2f6fbd72
    ensures Set(0xefcdab89, 0x2f6fbd72, F(0x2f6fbd72, 0x344a8432, 0xd6d117b4), 0x00000000, 22, T4) == 0x7ad956f2
    ensures Set(0xd6d117b4, 0x7ad956f2, F(0x7ad956f2, 0x2f6fbd72, 0x344a8432), 0x00000000, 7, T5) == 0xc73741ef
    ensures Set(0x344a8432, 0xc73741ef, F(0xc73741ef, 0x7ad956f2, 0x2f6fbd72), 0x00000000, 12, T6) == 0x8bac3051
    ensures Set(0x2f6fbd72, 0x8bac3051, F(0x8bac3051, 0xc73741ef, 0x7ad956f2), 0x00000000, 17, T7) == 0x207dc67b
    ensures Set(0x7ad956f2, 0x207dc67b, F(0x207dc67b, 0x8bac3051, 0xc73741ef), 0x00000000, 22, T8) == 0x928d99f6
    ensures Set(0xc73741ef, 0x928d99f6, F(0x928d99f6, 0x207dc67b, 0x8bac3051), 0x00000000, 7, T9) == 0x854b3712
    ensures Set(0x8bac3051, 0x854b3712, F(0x854b3712, 0x928d99f6, 0x207dc67b), 0x00000000, 12, T10) == 0x74e2f284
    ensures Set(0x207dc67b, 0x74e2f284, F(0x74e2f284, 0x854b3712, 0x928d99f6), 0x00000000, 17, T11) == 0x3020401c
    ensures Set(0x928d99f6, 0x3020401c, F(0x3020401c, 0x74e2f284, 0x854b3712), 0x00000000, 22, T12) == 0x5ed49596
    ensures Set(0x854b3712, 0x5ed49596, F(0x5ed49596, 0x3020401c, 0x74e2f284), 0x00000000, 7, T13) == 0xdda9b9a6
    ensures Set(0x74e2f284, 0xdda9b9a6, F(0xdda9b9a6, 0x5ed49596, 0x3020401c), 0x00000000, 12, T14) == 0xa1051895
    ensures Set(0x3020401c, 0xa1051895, F(0xa1051895, 0xdda9b9a6, 0x5ed49596), 0x00000018, 17, T15) == 0xe396856b
    ensures Set(0x5ed49596, 0xe396856b, F(0xe396856b, 0xa1051895, 0xdda9b9a6), 0x00000000, 22, T16) == 0x72aff2e0
  {}

  lemma Abc1()
    ensures Steps(Registers(0x67452301, 0xefcdab89, 0x98badcfe, 0x10325476), ABC, 0) ==
            Steps(Registers(0xdda9b9a6, 0x72aff2e0, 0xe396856b, 0xa1051895), ABC, 16)
  {
    hide *;
    AbcWords();
    Words1();
    Sines1();
    Sines1Rest();
    AbcSets1();
    FourF(Registers(0x67452301, 0xefcdab89, 0x98badcfe, 0x10325476), ABC, 0);
    FourF(Registers(0xd6d117b4, 0x7ad956f2, 0x2f6fbd72, 0x344a8432), ABC, 4);
    FourF(Registers(0xc73741ef, 0x928d99f6, 0x207dc67b, 0x8bac3051), ABC, 8);
    FourF(Registers(0x854b3712, 0x5ed49596, 0x3020401c, 0x74e2f284), ABC, 12);
  }

  /** The operations of round 2. */
  lemma AbcSets2()
    ensures Set(0xdda9b9a6, 0x72aff2e0, G(0x72aff2e0, 0xe396856b, 0xa1051895), 0x00000000, 5, T17) == 0x3e9e9126
    ensures Set(0xa1051895, 0x3e9e9126, G(0x3e9e9126, 0x72aff2e0, 0xe396856b), 0x00000000, 9, T18) == 0x4a1d804e
    ensures Set(0xe396856b, 0x4a1d804e, G(0x4a1d804e, 0x3e9e9126, 0x72aff2e0), 0x00000000, 14, T19) == 0xe25e1652
    ensures Set(0x72aff2e0, 0xe25e1652, G(0xe25e1652, 0x4a1d804e, 0x3e9e9126), 0x80636261, 20, T20) == 0xb5b204e4
    ensures Set(0x3e9e9126, 0xb5b204e4, G(0xb5b204e4, 0xe25e1652, 0x4a1d804e), 0x00000000, 5, T21) == 0x59a8ffda
    ensures Set(0x4a1d804e, 0x59a8ffda, G(0x59a8ffda, 0xb5b204e4, 0xe25e1652), 0x00000000, 9, T22) == 0x6d002f1e
    ensures Set(0xe25e1652, 0x6d002f1e, G(0x6d002f1e, 0x59a8ffda, 0xb5b204e4), 0x00000000, 14, T23) == 0xabfc7920
    ensures Set(0xb5b204e4, 0xabfc7920, G(0xabfc7920, 0x6d002f1e, 0x59a8ffda), 0x00000000, 20, T24) == 0x47092c07
    ensures Set(0x59a8ffda, 0x47092c07, G(0x47092c07, 0xabfc7920, 0x6d002f1e), 0x00000000, 5, T25) == 0xb7f268cf
    ensures Set(0x6d002f1e, 0xb7f268cf, G(0xb7f268cf, 0x47092c07, 0xabfc7920), 0x00000018, 9, T26) == 0x09388eff
    ensures Set(0xabfc7920, 0x09388eff, G(0x09388eff, 0xb7f268cf, 0x47092c07), 0x00000000, 14, T27) == 0xfe1623b1
    ensures Set(0x47092c07, 0xfe1623b1, G(0xfe1623b1, 0x09388eff, 0xb7f268cf), 0x00000000, 20, T28) == 0x786acb8f
    ensures Set(0xb7f268cf, 0x786acb8f, G(0x786acb8f, 0xfe1623b1, 0x09388eff), 0x00000000, 5, T29) == 0x790a77fb
    ensures Set(0x09388eff, 0x790a77fb, G(0x790a77fb, 0x786acb8f, 0xfe1623b1), 0x00000000, 9, T30) == 0x9f47e4f8
    ensures Set(0xfe1623b1, 0x9f47e4f8, G(0x9f47e4f8, 0x790a77fb, 0x786acb8f), 0x00000000, 14, T31) == 0xa62884aa
    ensures Set(0x786acb8f, 0xa62884aa, G(0xa62884aa, 0x9f47e4f8, 0x790a77fb), 0x00000000, 20, T32) == 0x726342d3
  {}

  lemma Abc2()
    ensures Steps(Registers(0xdda9b9a6, 0x72aff2e0, 0xe396856b, 0xa1051895), ABC, 16) ==
            Steps(Registers(0x790a77fb, 0x726342d3, 0xa62884aa, 0x9f47e4f8), ABC, 32)
  {
    hide *;
    AbcWords();
    Words2();
    Sines2();
    Sines2Rest();
    AbcSets2();
    FourG(Registers(0xdda9b9a6, 0x72aff2e0, 0xe396856b, 0xa1051895), ABC, 16);
    FourG(Registers(0x3e9e9126, 0xb5b204e4, 0xe25e1652, 0x4a1d804e), ABC, 20);
    FourG(Registers(0x59a8ffda, 0x47092c07, 0xabfc7920, 0x6d002f1e), ABC, 24);
    FourG(Registers(0xb7f268cf, 0x786acb8f, 0xfe1623b1, 0x09388eff), ABC, 28);
  }

  /** The operations of round 3. */
  lemma AbcSets3()
    ensures Set(0x790a77fb, 0x726342d3, H(0x726342d3, 0xa62884aa, 0x9f47e4f8), 0x00000000, 4, T33) == 0xb3707ebf
    ensures Set(0x9f47e4f8, 0xb3707ebf, H(0xb3707ebf, 0x726342d3, 0xa62884aa), 0x00000000, 11, T34) == 0x60127b2e
    ensures Set(0xa62884aa, 0x60127b2e, H(0x60127b2e, 0xb3707ebf, 0x726342d3), 0x00000000, 16, T35) == 0x8d212ff5
    ensures Set(0x726342d3, 0x8d212ff5, H(0x8d212ff5, 0x60127b2e, 0xb3707ebf), 0x00000018, 23, T36) == 0x3b0875c7
    ensures Set(0xb3707ebf, 0x3b0875c7, H(0x3b0875c7, 0x8d212ff5, 0x60127b2e), 0x00000000, 4, T37) == 0x21b117b9
    ensures Set(0x60127b2e, 0x21b117b9, H(0x21b117b9, 0x3b0875c7, 0x8d212ff5), 0x00000000, 11, T38) == 0x6e7429d5
    ensures Set(0x8d212ff5, 0x6e7429d5, H(0x6e7429d5, 0x21b117b9, 0x3b0875c7), 0x00000000, 16, T39) == 0x3575227e
    ensures Set(0x3b0875c7, 0x3575227e, H(0x3575227e, 0x6e7429d5, 0x21b117b9), 0x00000000, 23, T40) == 0x5a2f5ea5
    ensures Set(0x21b117b9, 0x5a2f5ea5, H(0x5a2f5ea5, 0x3575227e, 0x6e7429d5), 0x00000000, 4, T41) == 0x11de1779
    ensures Set(0x6e7429d5, 0x11de1779, H(0x11de1779, 0x5a2f5ea5, 0x3575227e), 0x80636261, 11, T42) == 0xfadcaa38
    ensures Set(0x3575227e, 0xfadcaa38, H(0xfadcaa38, 0x11de1779, 0x5a2f5ea5), 0x00000000, 16, T43) == 0x31c465ca
    ensures Set(0x5a2f5ea5, 0x31c465ca, H(0x31c465ca, 0xfadcaa38, 0x11de1779), 0x00000000, 23, T44) == 0x4c6124f4
    ensures Set(0x11de1779, 0x4c6124f4, H(0x4c6124f4, 0x31c465ca, 0xfadcaa38), 0x00000000, 4, T45) == 0x7f2e507b
    ensures Set(0xfadcaa38, 0x7f2e507b, H(0x7f2e507b, 0x4c6124f4, 0x31c465ca), 0x00000000, 11, T46) == 0x99d9679d
    ensures Set(0x31c465ca, 0x99d9679d, H(0x99d9679d, 0x7f2e507b, 0x4c6124f4), 0x00000000, 16, T47) == 0x8fae6399
    ensures Set(0x4c6124f4, 0x8fae6399, H(0x8fae6399, 0x99d9679d, 0x7f2e507b), 0x00000000, 23, T48) == 0x7beb9700
  {}

  lemma Abc3()
    ensures Steps(Registers(0x790a77fb, 0x726342d3, 0xa62884aa, 0x9f47e4f8), ABC, 32) ==
            Steps(Registers(0x7f2e507b, 0x7beb9700, 0x8fae6399, 0x99d9679d), ABC, 48)
  {
    hide *;
    AbcWords();
    Words3();
    Sines3();
    Sines3Rest();
    AbcSets3();
    FourH(Registers(0x790a77fb, 0x726342d3, 0xa62884aa, 0x9f47e4f8), ABC, 32);
    FourH(Registers(0xb3707ebf, 0x3b0875c7, 0x8d212ff5, 0x60127b2e), ABC, 36);
    FourH(Registers(0x21b117b9, 0x5a2f5ea5, 0x3575227e, 0x6e7429d5), ABC, 40);
    FourH(Registers(0x11de1779, 0x4c6124f4, 0x31c465ca, 0xfadcaa38), ABC, 44);
  }

  /** The operations of round 4. */
  lemma AbcSets4()
    ensures Set(0x7f2e507b, 0x7beb9700, I(0x7beb9700, 0x8fae6399, 0x99d9679d), 0x80636261, 6, T49) == 0x7b201df8
    ensures Set(0x99d9679d, 0x7b201df8, I(0x7b201df8, 0x7beb9700, 0x8fae6399), 0x00000000, 10, T50) == 0xf4e8e96e
    ensures Set(0x8fae6399, 0xf4e8e96e, I(0xf4e8e96e, 0x7b201df8, 0x7beb9700), 0x00000018, 15, T51) == 0xb298cefd
    ensures Set(0x7beb9700, 0xb298cefd, I(0xb298cefd, 0xf4e8e96e, 0x7b201df8), 0x00000000, 21, T52) == 0x8bf025c4
    ensures Set(0x7b201df8, 0x8bf025c4, I(0x8bf025c4, 0xb298cefd, 0xf4e8e96e), 0x00000000, 6, T53) == 0x06cc5e8a
    ensures Set(0xf4e8e96e, 0x06cc5e8a, I(0x06cc5e8a, 0x8bf025c4, 0xb298cefd), 0x00000000, 10, T54) == 0x5b0d97aa
    ensures Set(0xb298cefd, 0x5b0d97aa, I(0x5b0d97aa, 0x06cc5e8a, 0x8bf025c4), 0x00000000, 15, T55) == 0x7d632dd0
    ensures Set(0x8bf025c4, 0x7d632dd0, I(0x7d632dd0, 0x5b0d97aa, 0x06cc5e8a), 0x00000000, 21, T56) == 0x3bfa2c27
    ensures Set(0x06cc5e8a, 0x3bfa2c27, I(0x3bfa2c27, 0x7d632dd0, 0x5b0d97aa), 0x00000000, 6, T57) == 0x7f81cc35
    ensures Set(0x5b0d97aa, 0x7f81cc35, I(0x7f81cc35, 0x3bfa2c27, 0x7d632dd0), 0x00000000, 10, T58) == 0x094454ab
    ensures Set(0x7d632dd0, 0x094454ab, I(0x094454ab, 0x7f81cc35, 0x3bfa2c27), 0x00000000, 15, T59) == 0x4f9dbe3f
    ensures Set(0x3bfa2c27, 0x4f9dbe3f, I(0x4f9dbe3f, 0x094454ab, 0x7f81cc35), 0x00000000, 21, T60) == 0x7327d604
    ensures Set(0x7f81cc35, 0x7327d604, I(0x7327d604, 0x4f9dbe3f, 0x094454ab), 0x00000000, 6, T61) == 0x310ade8f
    ensures Set(0x094454ab, 0x310ade8f, I(0x310ade8f, 0x7327d604, 0x4f9dbe3f), 0x00000000, 10, T62) == 0x624d8cb2
    ensures Set(0x4f9dbe3f, 0x624d8cb2, I(0x624d8cb2, 0x310ade8f, 0x7327d604), 0x00000000, 15, T63) == 0xe484b9d8
    ensures Set(0x7327d604, 0xe484b9d8, I(0xe484b9d8, 0x624d8cb2, 0x310ade8f), 0x00000000, 21, T64) == 0xc08226b3
  {}

  lemma Abc4()
    ensures Steps(Registers(0x7f2e507b, 0x7beb9700, 0x8fae6399, 0x99d9679d), ABC, 48) ==
            Steps(Registers(0x310ade8f, 0xc08226b3, 0xe484b9d8, 0x624d8cb2), ABC, 64)
  {
    hide *;
    AbcWords();
    Words4();
    Sines4();
    Sines4Rest();
    AbcSets4();
    FourI(Registers(0x7f2e507b, 0x7beb9700, 0x8fae6399, 0x99d9679d), ABC, 48);
    FourI(Registers(0x7b201df8, 0x8bf025c4, 0xb298cefd, 0xf4e8e96e), ABC, 52);
    FourI(Registers(0x06cc5e8a, 0x3bfa2c27, 0x7d632dd0, 0x5b0d97aa), ABC, 56);
    FourI(Registers(0x7f81cc35, 0x7327d604, 0x4f9dbe3f, 0x094454ab), ABC, 60);
  }

  /** The digest of "abc" is the one that section A.5 of RFC 1321 lists. */
  lemma AbcDigest(message: seq<Byte>)
    requires message == [0x61, 0x62, 0x63]
    ensures Digest(message) ==
            [0x90, 0x01, 0x50, 0x98, 0x3c, 0xd2, 0x4f, 0xb0, 0xd6, 0x96, 0x3f, 0x7d, 0x28, 0xe1, 0x7f, 0x72]
  {
    hide *;
    AbcPadded();
    AbcBytes();
    FoldOne(INIT, ABC);
    AbcProcessed();
    AbcOutput();
    DigestIs(message);
  }

  lemma AbcPadded()
    ensures Padded([0x61, 0x62, 0x63]) == ABC
  {
    hide LittleEndian;
    AbcLength();
  }

  lemma AbcLength()
    ensures PadLength(3) == 53 && LittleEndian(24, 8) == [24, 0, 0, 0, 0, 0, 0, 0]
  {}

  lemma FoldOne(r: Registers, block: seq<Byte>)
    requires |block| == 64
    ensures Fold(r, block) == Process(r, block)
  {
    hide Process;
    assert block[..64] == block && block[64..] == [];
  }

  lemma DigestIs(message: seq<Byte>)
    ensures Digest(message) == Output(Fold(INIT, Padded(message)))
  {
    hide Output, Fold, Padded;
  }

  lemma AbcProcessed()
    requires |ABC| == 64
    ensures Process(INIT, ABC) == Registers(0x98500190, 0xb04fd23c, 0x7d3f96d6, 0x727fe128)
  {
    hide Steps, ABC;
    Abc1();
    Abc2();
    Abc3();
    Abc4();
    StepsEnd(Registers(0x310ade8f, 0xc08226b3, 0xe484b9d8, 0x624d8cb2), ABC);
  }

  lemma AbcOutput()
    ensures Output(Registers(0x98500190, 0xb04fd23c, 0x7d3f96d6, 0x727fe128)) ==
            [0x90, 0x01, 0x50, 0x98, 0x3c, 0xd2, 0x4f, 0xb0, 0xd6, 0x96, 0x3f, 0x7d, 0x28, 0xe1, 0x7f, 0x72]
  {
    hide LittleEndian;
    AbcParts();
  }

  lemma AbcParts()
    ensures LittleEndian(0x98500190, 4) == [0x90, 0x01, 0x50, 0x98]
    ensures LittleEndian(0xb04fd23c, 4) == [0x3c, 0xd2, 0x4f, 0xb0]
    ensures LittleEndian(0x7d3f96d6, 4) == [0xd6, 0x96, 0x3f, 0x7d]
    ensures LittleEndian(0x727fe128, 4) == [0x28, 0xe1, 0x7f, 0x72]
  {
    hide LittleEndian;
    FourBytes(0x98500190, 0x90, 0x01, 0x50, 0x98);
    FourBytes(0xb04fd23c, 0x3c, 0xd2, 0x4f, 0xb0);
    FourBytes(0x7d3f96d6, 0xd6, 0x96, 0x3f, 0x7d);
    FourBytes(0x727fe128, 0x28, 0xe1, 0x7f, 0x72);
  }

  lemma FourBytes(n: nat, p: Byte, q: Byte, r: Byte, s: Byte)
    requires n == p as int + 0x100 * (q as int + 0x100 * (r as int + 0x100 * s as int))
    ensures LittleEndian(n, 4) == [p, q, r, s]
  {
    hide LittleEndian;
    var m2, m1 := r as int + 0x100 * s as int, q as int + 0x100 * (r as int + 0x100 * s as int);
    NextByte(n, p, m1, 3);
    NextByte(m1, q, m2, 2);
    NextByte(m2, r, s as int, 1);
    NextByte(s as int, s, 0, 0);
  }

  lemma NextByte(n: nat, p: Byte, m: nat, k: nat)
    requires n == p as int + 0x100 * m
    ensures LittleEndian(n, k + 1) == [p] + LittleEndian(m, k) && LittleEndian(m, 0) == []
  {
    DivMod(n, m, p as int, 0x100);
  }

  // --- The hash a piece at a time ---------------------------------------------

  const WORD: nat := 0x1_0000_0000

  /** The two words hold the low and the high half of the length in bits, modulo 2^64. */
  ghost predicate Counted(count0: nat, count1: nat, length: nat) {
    count0 == 8 * length % WORD && count1 == 8 * length / WORD % WORD
  }

  lemma DivMod(x: int, q: int, r: int, m: int)
    requires m == 64 || m == 0x100 || m == WORD || m == WORD * WORD
    requires x == q * m + r && 0 <= r < m
    ensures x / m == q && x % m == r
  {}

  /** How far into a block the counter says the message has come. */
  lemma OffsetOf(count0: nat, count1: nat, length: nat)
    requires Counted(count0, count1, length)
    ensures count0 / 8 % 64 == length % 64
  {
    var q := 8 * length / WORD;
    var a, b := length / 64, length % 64;
    assert count0 == 8 * (64 * (a - 0x80_0000 * q) + b);
    DivMod(count0 / 8, a - 0x80_0000 * q, b, 64);
  }

  /** Counting `n` more bytes, with the carry between the words. */
  lemma CountMore(count0: nat, count1: nat, length: nat, n: nat)
    requires Counted(count0, count1, length) && n < 0x1000_0000
    ensures var sum := (count0 + 8 * n) % WORD;
            Counted(sum, (count1 + if sum < 8 * n then 1 else 0) % WORD, length + n)
  {
    var q := 8 * length / WORD;
    var sum := count0 + 8 * n;
    if sum < WORD {
      DivMod(8 * (length + n), q, sum, WORD);
      DivMod(sum, 0, sum, WORD);
      DivMod(count1, 0, count1, WORD);
    } else {
      DivMod(8 * (length + n), q + 1, sum - WORD, WORD);
      DivMod(sum, 1, sum - WORD, WORD);
      NextMod(q);
    }
  }

  lemma NextMod(q: nat)
    ensures (q + 1) % WORD == (q % WORD + 1) % WORD
  {
    var t, r := q / WORD, q % WORD;
    if r + 1 < WORD {
      DivMod(q + 1, t, r + 1, WORD);
      DivMod(r + 1, 0, r + 1, WORD);
    } else {
      DivMod(q + 1, t + 1, 0, WORD);
      DivMod(r + 1, 1, 0, WORD);
    }
  }

  function Pow256(k: nat): nat {
    if k == 0 then 1 else 0x100 * Pow256(k - 1)
  }

  /** Writing a low and a high part one after the other is writing them as one number. */
  lemma {:induction false} LittleEndianSplit(low: nat, high: nat, k: nat, j: nat)
    requires low < Pow256(k)
    ensures LittleEndian(low + Pow256(k) * high, k + j) == LittleEndian(low, k) + LittleEndian(high, j)
    decreases k
  {
    if k > 0 {
      var q, r, h := low / 0x100, low % 0x100, Pow256(k - 1) * high;
      Pow256Times(k, high);
      DivMod(low + Pow256(k) * high, q + h, r, 0x100);
      LittleEndianSplit(q, high, k - 1, j);
    }
  }

  lemma Pow256Times(k: nat, high: nat)
    requires k > 0
    ensures Pow256(k) * high == 0x100 * (Pow256(k - 1) * high)
  {}

  /** The counter's bytes are those of the length in bits. */
  lemma LengthBytes(count0: nat, count1: nat, length: nat)
    requires Counted(count0, count1, length)
    ensures LittleEndian(count0, 4) + LittleEndian(count1, 4) == LittleEndian(8 * length % (WORD * WORD), 8)
  {
    hide LittleEndian;
    var q := 8 * length / WORD;
    DivMod(8 * length, q / WORD, count0 + WORD * count1, WORD * WORD);
    assert Pow256(1) == 0x100 && Pow256(2) == 0x1_0000 && Pow256(3) == 0x100_0000 && Pow256(4) == WORD;
    LittleEndianSplit(count0, count1, 4, 4);
  }

  /** The buffer begins with `tail`. */
  ghost predicate Begins(buf: seq<Byte>, tail: seq<Byte>) {
    |buf| == 64 && |tail| < 64 && buf[..|tail|] == tail
  }

  /** The message split where its last whole block ends. */
  ghost predicate Split(message: seq<Byte>, whole: seq<Byte>, tail: seq<Byte>) {
    message == whole + tail && |whole| % 64 == 0 && |tail| < 64
  }

  lemma SplitAt(message: seq<Byte>)
    ensures Split(message, Whole(message), Tail(message)) && |Tail(message)| == |message| % 64
  {}

  function Whole(message: seq<Byte>): seq<Byte> {
    message[..|message| - |message| % 64]
  }

  /** What of the message does not fill a block. */
  function Tail(message: seq<Byte>): seq<Byte> {
    message[|message| - |message| % 64..]
  }

  lemma SplitOnce(message: seq<Byte>, whole: seq<Byte>, tail: seq<Byte>)
    requires Split(message, whole, tail)
    ensures whole == Whole(message) && tail == Tail(message)
  {
    assert |message| % 64 == |tail|;
  }

  /** Only whole blocks count. */
  lemma FoldTail(r: Registers, message: seq<Byte>, whole: seq<Byte>, tail: seq<Byte>)
    requires Split(message, whole, tail)
    ensures Fold(r, message) == Fold(r, whole)
  {
    FoldAppend(r, whole, tail);
  }

  /** Data that does not complete the block begun. */
  lemma StillPartial(message: seq<Byte>, data: seq<Byte>, buf: seq<Byte>)
    requires Begins(buf, Tail(message)) && |Tail(message)| + |data| < 64
    ensures Fold(INIT, message + data) == Fold(INIT, message)
    ensures var o := |Tail(message)|; Begins(buf[..o] + data + buf[o + |data|..], Tail(message + data))
  {
    hide Fold, Whole, Tail, Split, Begins;
    SplitAt(message);
    var whole, tail := Whole(message), Tail(message);
    SplitMore(message, whole, tail, data);
    FoldTail(INIT, message, whole, tail);
    FoldTail(INIT, message + data, whole, tail + data);
    SplitOnce(message + data, whole, tail + data);
    BeginsMore(buf, tail, data);
  }

  lemma SplitMore(message: seq<Byte>, whole: seq<Byte>, tail: seq<Byte>, data: seq<Byte>)
    requires Split(message, whole, tail) && |tail| + |data| < 64
    ensures Split(message + data, whole, tail + data)
  {
    Associative(whole, tail, data);
  }

  lemma BeginsMore(buf: seq<Byte>, tail: seq<Byte>, data: seq<Byte>)
    requires Begins(buf, tail) && |tail| + |data| < 64
    ensures |buf| == 64 && Begins(buf[..|tail|] + data + buf[|tail| + |data|..], tail + data)
  {}

  /** Data that completes the block begun. */
  lemma CompletesBlock(message: seq<Byte>, data: seq<Byte>, buf: seq<Byte>, copy: nat)
    requires Begins(buf, Tail(message)) && |Tail(message)| + copy == 64 && copy <= |data|
    ensures var o := |Tail(message)|;
            var block := buf[..o] + data[..copy] + buf[o + copy..];
            |block| == 64 && Fold(INIT, message + data) == Fold(Process(Fold(INIT, message), block), data[copy..])
  {
    hide Process, Whole, Tail;
    SplitAt(message);
    var whole, tail := Whole(message), Tail(message);
    var o := |tail|;
    var block := buf[..o] + data[..copy] + buf[o + copy..];
    assert block == tail + data[..copy];
    assert message + data == whole + (block + data[copy..]);
    FoldTail(INIT, message, whole, tail);
    FoldAppend(INIT, whole, block + data[copy..]);
    assert (block + data[copy..])[..64] == block && (block + data[copy..])[64..] == data[copy..];
  }

  /** One more whole block of the data. */
  lemma NextBlock(r: Registers, data: seq<Byte>, p: nat)
    requires p + 64 <= |data|
    ensures Fold(r, data[p..]) == Fold(Process(r, data[p..p + 64]), data[p + 64..])
  {
    hide Process;
    assert data[p..][..64] == data[p..p + 64] && data[p..][64..] == data[p + 64..];
  }

  lemma FoldShort(r: Registers, data: seq<Byte>)
    requires |data| < 64
    ensures Fold(r, data) == r
  {}

  /** The end of the data, less than a block. */
  lemma LastPart(message: seq<Byte>, data: seq<Byte>, p: nat, r: Registers, buf: seq<Byte>)
    requires p <= |data| < p + 64 && (|message| + p) % 64 == 0 && |buf| == 64
    requires Fold(r, data[p..]) == Fold(INIT, message + data)
    ensures r == Fold(INIT, message + data) && Begins(data[p..] + buf[|data| - p..], Tail(message + data))
  {
    hide Fold, Tail, Whole;
    FoldShort(r, data[p..]);
    assert message + data == (message + data[..p]) + data[p..];
    SplitOnce(message + data, message + data[..p], data[p..]);
  }

  /** The data from byte `p` on starts at a block boundary. */
  lemma StartBlocks(message: seq<Byte>, data: seq<Byte>, p: nat, offset: nat, r: Registers)
    requires offset == |message| % 64 && p <= |data| && p == if offset == 0 then 0 else 64 - offset
    requires if offset == 0 then r == Fold(INIT, message) else Fold(INIT, message + data) == Fold(r, data[p..])
    ensures (|message| + p) % 64 == 0 && Fold(r, data[p..]) == Fold(INIT, message + data)
  {
    hide Fold;
    if offset == 0 {
      FoldAppend(INIT, message, data);
      assert data[0..] == data;
    }
  }

  class Md5State {
    var count0: nat
    var count1: nat
    var abcd: Registers
    const buf: array<Byte>
    ghost var message: seq<Byte>

    ghost predicate Valid()
      reads this, buf
    {
      && buf.Length == 64 && Counted(count0, count1, |message|)
      && abcd == Fold(INIT, message) && Begins(buf[..], Tail(message))
    }

    /** `md5_init`. */
    constructor ()
      ensures Valid() && message == [] && fresh(buf)
    {
      count0, count1 := 0, 0;
      abcd := Registers(0x6745_2301, T_MASK ^ 0x1032_5476, T_MASK ^ 0x6745_2301, 0x1032_5476);
      buf := new Byte[64];
      message := [];
    }

    /** `md5_process`: the four rounds, and the registers from before added. */
    method ProcessBlock(block: seq<Byte>)
      requires |block| == 64
      modifies this`abcd
      ensures abcd == Process(old(abcd), block)
    {
      hide Steps, Plus;
      var t := Round1(abcd, block);
      t := Round2(t, block);
      t := Round3(t, block);
      t := Round4(t, block);
      StepsEnd(t, block);
      abcd := Plus(abcd, t);
    }

    /** Bytes are copied into the buffer. */
    method CopyIn(at: nat, data: seq<Byte>)
      requires at + |data| <= buf.Length
      modifies buf
      ensures buf[..] == old(buf[..])[..at] + data + old(buf[..])[at + |data|..]
    {
      forall k | 0 <= k < |data| {
        buf[at + k] := data[k];
      }
    }

    /** The message length grows by `n` bytes. */
    method Count(n: nat)
      requires Counted(count0, count1, |message|) && n < 0x1000_0000
      modifies this`count0, this`count1
      ensures Counted(count0, count1, |message| + n)
    {
      CountMore(count0, count1, |message|, n);
      var nbits := 8 * n;
      count0 := (count0 + nbits) % WORD;
      if count0 < nbits {
        count1 := (count1 + 1) % WORD;
      }
    }

    /** Whole blocks are processed straight from the data, from byte `p0` on; what is left
        goes into the buffer. */
    method AppendBlocks(data: seq<Byte>, p0: nat)
      requires buf.Length == 64 && p0 <= |data| && (|message| + p0) % 64 == 0
      requires Fold(abcd, data[p0..]) == Fold(INIT, message + data)
      modifies this`abcd, buf
      ensures abcd == Fold(INIT, message + data) && Begins(buf[..], Tail(message + data))
    {
      hide Process, Fold, Begins, Tail;
      var p := p0;
      while |data| - p >= 64
        invariant p <= |data| && (|message| + p) % 64 == 0
        invariant Fold(abcd, data[p..]) == Fold(INIT, message + data)
      {
        NextBlock(abcd, data, p);
        ProcessBlock(data[p..p + 64]);
        p := p + 64;
      }
      LastPart(message, data, p, abcd, buf[..]);
      ghost var was := buf[..];
      if |data| - p > 0 {
        CopyIn(0, data[p..]);
      }
      CopiedFront(was, data[p..]);
    }

    /** The data does not complete the block begun. */
    method AppendPartial(offset: nat, data: seq<Byte>)
      requires buf.Length == 64 && offset == |Tail(message)| && offset + |data| < 64
      requires abcd == Fold(INIT, message) && Begins(buf[..], Tail(message))
      modifies buf
      ensures abcd == Fold(INIT, message + data) && Begins(buf[..], Tail(message + data))
    {
      hide Process, Fold, Tail, Begins;
      StillPartial(message, data, buf[..]);
      CopyIn(offset, data);
    }

    /** The first `copy` bytes of the data complete the block begun, which is processed. */
    method CompleteBlock(offset: nat, copy: nat, data: seq<Byte>)
      requires buf.Length == 64 && offset == |Tail(message)| && offset + copy == 64 && copy <= |data|
      requires abcd == Fold(INIT, message) && Begins(buf[..], Tail(message))
      modifies this`abcd, buf
      ensures Fold(INIT, message + data) == Fold(abcd, data[copy..])
    {
      hide Process, Fold, Tail, Begins;
      CompletesBlock(message, data, buf[..], copy);
      CopyIn(offset, data[..copy]);
      ProcessBlock(buf[..]);
    }

    /** `md5_append`: the message grows by less than 2^28 bytes. */
    method Append(data: seq<Byte>)
      requires Valid() && |data| < 0x1000_0000
      modifies this, buf
      ensures Valid() && message == old(message) + data
    {
      hide Process, Fold, Tail, Whole, Split, Begins, Counted;
      OffsetOf(count0, count1, |message|);
      SplitAt(message);
      var offset := count0 / 8 % 64;
      if |data| == 0 {
        assert message + data == message;
        message := message + data;
        return;
      }
      Count(|data|);
      var p := 0;
      if offset != 0 {
        var copy := if offset + |data| > 64 then 64 - offset else |data|;
        if offset + copy < 64 {
          AppendPartial(offset, data);
          message := message + data;
          return;
        }
        CompleteBlock(offset, copy, data);
        p := copy;
      }
      StartBlocks(message, data, p, offset, abcd);
      AppendBlocks(data, p);
      message := message + data;
    }

    /** `md5_finish`: the padding and the length are appended, and the registers written out. */
    method Finish() returns (digest: seq<Byte>)
      requires Valid()
      modifies this, buf
      ensures digest == Digest(old(message))
    {
      hide Process, Fold, Tail, Counted, Output, LittleEndian;
      ghost var m := message;
      OffsetOf(count0, count1, |m|);
      LengthBytes(count0, count1, |m|);
      var data := LittleEndian(count0, 4) + LittleEndian(count1, 4);
      var p := PadOf(count0 / 8, |m|);
      Append([0x80] + seq(p - 1, _ => 0));
      Append(data);
      digest := Output(abcd);
    }

    /** How much padding the counter calls for. */
    method PadOf(bytes: nat, ghost length: nat) returns (p: nat)
      requires bytes % 64 == length % 64
      ensures p == PadLength(length)
    {
      SamePad(bytes, length);
      p := (55 - bytes) % 64 + 1;
    }
  }

  lemma CopiedFront(was: seq<Byte>, part: seq<Byte>)
    requires |part| <= |was|
    ensures was[..0] + part + was[0 + |part|..] == part + was[|part|..]
    ensures |part| == 0 ==> part + was[|part|..] == was
  {}

  /** Lengths that leave the same remainder need the same padding. */
  lemma SamePad(a: nat, b: nat)
    requires a % 64 == b % 64
    ensures (55 - a) % 64 == (55 - b) % 64
  {
    var q, s, r := a / 64, b / 64, a % 64;
    var t, u := (55 - r) / 64, (55 - r) % 64;
    DivMod(55 - a, t - q, u, 64);
    DivMod(55 - b, t - s, u, 64);
  }

  /** Any division of a message into pieces of less than 2^28 bytes gives its digest. */
  method HashParts(parts: seq<seq<Byte>>) returns (digest: seq<Byte>)
    requires forall k :: 0 <= k < |parts| ==> |parts[k]| < 0x1000_0000
    ensures digest == Digest(Flatten(parts))
  {
    hide Digest, Flatten, Md5State.Valid;
    var state := new Md5State();
    assert parts[..0] == [];
    assert Flatten([]) == [] by { FlattenNone(); }
    for i := 0 to |parts|
      invariant fresh(state) && fresh(state.buf) && state.Valid() && state.message == Flatten(parts[..i])
    {
      state.Append(parts[i]);
      FlattenNext(parts, i);
    }
    assert parts[..|parts|] == parts;
    digest := state.Finish();
  }

  lemma FlattenNone()
    ensures Flatten([]) == []
  {}
}
