/** The 16-bit checksum behind the cluster's key slots: the table of crc16.c against bit-by-bit
    polynomial division, and the slot of a key. */
module Crc16s {
  import opened Polynomials

  /** The polynomial x^16 + x^12 + x^5 + 1, without its leading term. */
  const POLY: bv16 := 0x1021

  // ---------- Bit by bit ----------

  function Xor(a: bv16, b: bv16): bv16 {
    a ^ b
  }

  /** Multiplication by x modulo the polynomial. */
  function Step(c: bv16): bv16 {
    if c & 0x8000 != 0 then (c << 1) ^ POLY else c << 1
  }

  function Step8(c: bv16): bv16 {
    Step(Step(Step(Step(Step(Step(Step(Step(c))))))))
  }

  function Bit(b: bool): bv16 {
    if b then 0x8000 else 0
  }

  /** Polynomial division one message bit at a time. */
  function DivideBits(c: bv16, bits: seq<bool>): bv16
    decreases bits
  {
    if bits == [] then c else DivideBits(Step(Xor(c, Bit(bits[0]))), bits[1..])
  }

  /** The bits of a byte in the order they are fed: the most significant first. */
  function BitsOf(b: bv8): seq<bool> {
    [b & 128 != 0, b & 64 != 0, b & 32 != 0, b & 16 != 0, b & 8 != 0, b & 4 != 0, b & 2 != 0, b & 1 != 0]
  }

  function AllBits(s: seq<bv8>): seq<bool> {
    if s == [] then [] else BitsOf(s[0]) + AllBits(s[1..])
  }

  // ---------- Linearity ----------

  lemma XorAssoc(a: bv16, b: bv16, c: bv16)
    ensures Xor(Xor(a, b), c) == Xor(a, Xor(b, c))
  {
  }

  lemma XorComm(a: bv16, b: bv16)
    ensures Xor(a, b) == Xor(b, a)
  {
  }

  lemma XorSwap(a: bv16, b: bv16, c: bv16, d: bv16)
    ensures Xor(Xor(a, b), Xor(c, d)) == Xor(Xor(a, c), Xor(b, d))
  {
    hide Xor;
    XorAssoc(a, b, Xor(c, d));
    XorAssoc(b, c, d);
    XorComm(b, c);
    XorAssoc(c, b, d);
    XorAssoc(a, c, Xor(b, d));
  }

  /** The polynomial, if the coefficient of x^15 is about to overflow. */
  function Overflow(c: bv16): bv16 {
    if c & 0x8000 != 0 then POLY else 0
  }

  function Rest(c: bv16): bv16 {
    c << 1
  }

  lemma StepWraps(c: bv16)
    requires c & 0x8000 != 0
    ensures Step(c) == Xor(Rest(c), POLY) && Overflow(c) == POLY
  {
  }

  /** A register whose top bit is clear just shifts. */
  lemma StepClear(c: bv16)
    requires c & 0x8000 == 0
    ensures Step(c) == Rest(c) && Overflow(c) == 0
  {
  }

  lemma StepIs(c: bv16)
    ensures Step(c) == Xor(Rest(c), Overflow(c))
  {
    hide Step, Xor, Rest, Overflow;
    if c & 0x8000 != 0 {
      StepWraps(c);
    } else {
      StepClear(c);
      XorZero(Rest(c));
    }
  }

  lemma OverflowLinear(x: bv16, y: bv16)
    ensures Overflow(Xor(x, y)) == Xor(Overflow(x), Overflow(y))
  {
    assert (x ^ y) & 0x8000 == (x & 0x8000) ^ (y & 0x8000);
    assert (x & 0x8000 == 0 || x & 0x8000 == 0x8000) && (y & 0x8000 == 0 || y & 0x8000 == 0x8000);
  }

  lemma RestLinear(x: bv16, y: bv16)
    ensures Rest(Xor(x, y)) == Xor(Rest(x), Rest(y))
  {
  }

  lemma StepLinear(x: bv16, y: bv16)
    ensures Step(Xor(x, y)) == Xor(Step(x), Step(y))
  {
    hide Step, Overflow, Rest, Xor;
    StepIs(x);
    StepIs(y);
    StepIs(Xor(x, y));
    OverflowLinear(x, y);
    RestLinear(x, y);
    XorSwap(Rest(x), Rest(y), Overflow(x), Overflow(y));
  }

  lemma Step8Linear(x: bv16, y: bv16)
    ensures Step8(Xor(x, y)) == Xor(Step8(x), Step8(y))
  {
    hide Step, Xor;
    StepLinear(x, y);
    var x1, y1 := Step(x), Step(y);
    StepLinear(x1, y1);
    var x2, y2 := Step(x1), Step(y1);
    StepLinear(x2, y2);
    var x3, y3 := Step(x2), Step(y2);
    StepLinear(x3, y3);
    var x4, y4 := Step(x3), Step(y3);
    StepLinear(x4, y4);
    var x5, y5 := Step(x4), Step(y4);
    StepLinear(x5, y5);
    var x6, y6 := Step(x5), Step(y5);
    StepLinear(x6, y6);
    StepLinear(Step(x6), Step(y6));
  }

  // ---------- A byte at once ----------

  function TopBit(b: bv16): bv16 {
    b & 0x8000
  }

  function LowBits(b: bv16): bv16 {
    b & 0x7fff
  }

  lemma SplitTop(b: bv16)
    ensures Xor(TopBit(b), LowBits(b)) == b
    ensures LowBits(b) & 0x8000 == 0 && Rest(LowBits(b)) == Rest(b)
  {
  }

  /** The top bit of what is fed can be fed alone, the rest one step later. */
  lemma PeelBit(c: bv16, b: bv16)
    ensures Step(Xor(c, b)) == Xor(Step(Xor(c, TopBit(b))), Rest(b))
  {
    hide Step, Xor, TopBit, LowBits, Rest;
    SplitTop(b);
    XorAssoc(c, TopBit(b), LowBits(b));
    StepLinear(Xor(c, TopBit(b)), LowBits(b));
    StepClear(LowBits(b));
  }

  function Feed(c: bv16, bit: bool): bv16 {
    Step(Xor(c, Bit(bit)))
  }

  /** A byte as the top eight coefficients of the register. */
  function Top(b: bv8): bv16 {
    (b as bv16) << 8
  }

  /** Eight steps after feeding a byte at once are eight steps fed bit by bit. */
  lemma ByteAtOnce(c: bv16, b: bv8)
    ensures Step8(Xor(c, Top(b))) == DivideBits(c, BitsOf(b))
  {
    hide Step, Xor, TopBit, Rest, Bit, DivideBits, BitsOf, Top;
    var b0 := Top(b);
    var b1 := Rest(b0);
    var b2 := Rest(b1);
    var b3 := Rest(b2);
    var b4 := Rest(b3);
    var b5 := Rest(b4);
    var b6 := Rest(b5);
    var b7 := Rest(b6);
    ByteBits(b);
    var bits := BitsOf(b);
    FeedEight(c, bits);
    PeelBit(c, b0);
    var c1 := Feed(c, bits[0]);
    PeelBit(c1, b1);
    var c2 := Feed(c1, bits[1]);
    PeelBit(c2, b2);
    var c3 := Feed(c2, bits[2]);
    PeelBit(c3, b3);
    var c4 := Feed(c3, bits[3]);
    PeelBit(c4, b4);
    var c5 := Feed(c4, bits[4]);
    PeelBit(c5, b5);
    var c6 := Feed(c5, bits[5]);
    PeelBit(c6, b6);
    var c7 := Feed(c6, bits[6]);
    PeelBit(c7, b7);
    XorZero(Feed(c7, bits[7]));
  }

  lemma XorZero(a: bv16)
    ensures Xor(a, 0) == a
  {
  }

  /** The bits of a byte, as its repeated shifts show them. */
  lemma ByteBits(b: bv8)
    ensures var bits := BitsOf(b);
            |bits| == 8 &&
            var b0 := Top(b); var b1 := Rest(b0); var b2 := Rest(b1); var b3 := Rest(b2);
            var b4 := Rest(b3); var b5 := Rest(b4); var b6 := Rest(b5); var b7 := Rest(b6);
            TopBit(b0) == Bit(bits[0]) && TopBit(b1) == Bit(bits[1]) && TopBit(b2) == Bit(bits[2]) &&
            TopBit(b3) == Bit(bits[3]) && TopBit(b4) == Bit(bits[4]) && TopBit(b5) == Bit(bits[5]) &&
            TopBit(b6) == Bit(bits[6]) && TopBit(b7) == Bit(bits[7]) && Rest(b7) == 0
  {
  }

  lemma FeedOne(c: bv16, bits: seq<bool>)
    requires bits != []
    ensures DivideBits(c, bits) == DivideBits(Feed(c, bits[0]), bits[1..])
  {
    hide Step, Xor, Bit;
  }

  lemma FeedEight(c: bv16, bits: seq<bool>)
    requires |bits| == 8
    ensures DivideBits(c, bits) ==
      Feed(Feed(Feed(Feed(Feed(Feed(Feed(Feed(c, bits[0]), bits[1]), bits[2]), bits[3]), bits[4]), bits[5]), bits[6]), bits[7])
  {
    hide Feed, DivideBits;
    FeedOne(c, bits);
    var c1, s1 := Feed(c, bits[0]), bits[1..];
    FeedOne(c1, s1);
    var c2, s2 := Feed(c1, bits[1]), s1[1..];
    FeedOne(c2, s2);
    var c3, s3 := Feed(c2, bits[2]), s2[1..];
    FeedOne(c3, s3);
    var c4, s4 := Feed(c3, bits[3]), s3[1..];
    FeedOne(c4, s4);
    var c5, s5 := Feed(c4, bits[4]), s4[1..];
    FeedOne(c5, s5);
    var c6, s6 := Feed(c5, bits[5]), s5[1..];
    FeedOne(c6, s6);
    var c7, s7 := Feed(c6, bits[6]), s6[1..];
    FeedOne(c7, s7);
    DivideNothing(Feed(c7, bits[7]), s7[1..]);
  }

  lemma DivideNothing(c: bv16, bits: seq<bool>)
    requires bits == []
    ensures DivideBits(c, bits) == c
  {
  }

  lemma {:induction false} DivideSplit(c: bv16, a: seq<bool>, b: seq<bool>)
    ensures DivideBits(c, a + b) == DivideBits(DivideBits(c, a), b)
    decreases a
  {
    hide Step, Xor, Bit;
    if a == [] {
      assert a + b == b;
    } else {
      assert (a + b)[1..] == a[1..] + b;
      DivideSplit(Feed(c, a[0]), a[1..], b);
    }
  }

  // ---------- The table ----------

  /** The rows of crc16tab, sixteen entries each. */
  function Row(i: nat): (r: seq<bv16>)
    requires i < 16
    ensures |r| == 16
  {
    match i
    case 0 => [
      0x0000, 0x1021, 0x2042, 0x3063, 0x4084, 0x50a5, 0x60c6, 0x70e7,
      0x8108, 0x9129, 0xa14a, 0xb16b, 0xc18c, 0xd1ad, 0xe1ce, 0xf1ef]
    case 1 => [
      0x1231, 0x0210, 0x3273, 0x2252, 0x52b5, 0x4294, 0x72f7, 0x62d6,
      0x9339, 0x8318, 0xb37b, 0xa35a, 0xd3bd, 0xc39c, 0xf3ff, 0xe3de]
    case 2 => [
      0x2462, 0x3443, 0x0420, 0x1401, 0x64e6, 0x74c7, 0x44a4, 0x5485,
      0xa56a, 0xb54b, 0x8528, 0x9509, 0xe5ee, 0xf5cf, 0xc5ac, 0xd58d]
    case 3 => [
      0x3653, 0x2672, 0x1611, 0x0630, 0x76d7, 0x66f6, 0x5695, 0x46b4,
      0xb75b, 0xa77a, 0x9719, 0x8738, 0xf7df, 0xe7fe, 0xd79d, 0xc7bc]
    case 4 => [
      0x48c4, 0x58e5, 0x6886, 0x78a7, 0x0840, 0x1861, 0x2802, 0x3823,
      0xc9cc, 0xd9ed, 0xe98e, 0xf9af, 0x8948, 0x9969, 0xa90a, 0xb92b]
    case 5 => [
      0x5af5, 0x4ad4, 0x7ab7, 0x6a96, 0x1a71, 0x0a50, 0x3a33, 0x2a12,
      0xdbfd, 0xcbdc, 0xfbbf, 0xeb9e, 0x9b79, 0x8b58, 0xbb3b, 0xab1a]
    case 6 => [
      0x6ca6, 0x7c87, 0x4ce4, 0x5cc5, 0x2c22, 0x3c03, 0x0c60, 0x1c41,
      0xedae, 0xfd8f, 0xcdec, 0xddcd, 0xad2a, 0xbd0b, 0x8d68, 0x9d49]
    case 7 => [
      0x7e97, 0x6eb6, 0x5ed5, 0x4ef4, 0x3e13, 0x2e32, 0x1e51, 0x0e70,
      0xff9f, 0xefbe, 0xdfdd, 0xcffc, 0xbf1b, 0xaf3a, 0x9f59, 0x8f78]
    case 8 => [
      0x9188, 0x81a9, 0xb1ca, 0xa1eb, 0xd10c, 0xc12d, 0xf14e, 0xe16f,
      0x1080, 0x00a1, 0x30c2, 0x20e3, 0x5004, 0x4025, 0x7046, 0x6067]
    case 9 => [
      0x83b9, 0x9398, 0xa3fb, 0xb3da, 0xc33d, 0xd31c, 0xe37f, 0xf35e,
      0x02b1, 0x1290, 0x22f3, 0x32d2, 0x4235, 0x5214, 0x6277, 0x7256]
    case 10 => [
      0xb5ea, 0xa5cb, 0x95a8, 0x8589, 0xf56e, 0xe54f, 0xd52c, 0xc50d,
      0x34e2, 0x24c3, 0x14a0, 0x0481, 0x7466, 0x6447, 0x5424, 0x4405]
    case 11 => [
      0xa7db, 0xb7fa, 0x8799, 0x97b8, 0xe75f, 0xf77e, 0xc71d, 0xd73c,
      0x26d3, 0x36f2, 0x0691, 0x16b0, 0x6657, 0x7676, 0x4615, 0x5634]
    case 12 => [
      0xd94c, 0xc96d, 0xf90e, 0xe92f, 0x99c8, 0x89e9, 0xb98a, 0xa9ab,
      0x5844, 0x4865, 0x7806, 0x6827, 0x18c0, 0x08e1, 0x3882, 0x28a3]
    case 13 => [
      0xcb7d, 0xdb5c, 0xeb3f, 0xfb1e, 0x8bf9, 0x9bd8, 0xabbb, 0xbb9a,
      0x4a75, 0x5a54, 0x6a37, 0x7a16, 0x0af1, 0x1ad0, 0x2ab3, 0x3a92]
    case 14 => [
      0xfd2e, 0xed0f, 0xdd6c, 0xcd4d, 0xbdaa, 0xad8b, 0x9de8, 0x8dc9,
      0x7c26, 0x6c07, 0x5c64, 0x4c45, 0x3ca2, 0x2c83, 0x1ce0, 0x0cc1]
    case 15 => [
      0xef1f, 0xff3e, 0xcf5d, 0xdf7c, 0xaf9b, 0xbfba, 0x8fd9, 0x9ff8,
      0x6e17, 0x7e36, 0x4e55, 0x5e74, 0x2e93, 0x3eb2, 0x0ed1, 0x1ef0]
  }

  function Table(x: bv8): bv16 {
    Row((x >> 4) as nat)[(x & 15) as nat]
  }

  lemma LowEntries0()
    ensures Row(0)[0] == Step8(0x0)
    ensures Row(0)[1] == Step8(0x100)
    ensures Row(0)[2] == Step8(0x200)
    ensures Row(0)[3] == Step8(0x300)
  {
  }

  lemma LowEntries1()
    ensures Row(0)[4] == Step8(0x400)
    ensures Row(0)[5] == Step8(0x500)
    ensures Row(0)[6] == Step8(0x600)
    ensures Row(0)[7] == Step8(0x700)
  {
  }

  lemma LowEntries2()
    ensures Row(0)[8] == Step8(0x800)
    ensures Row(0)[9] == Step8(0x900)
    ensures Row(0)[10] == Step8(0xa00)
    ensures Row(0)[11] == Step8(0xb00)
  {
  }

  lemma LowEntries3()
    ensures Row(0)[12] == Step8(0xc00)
    ensures Row(0)[13] == Step8(0xd00)
    ensures Row(0)[14] == Step8(0xe00)
    ensures Row(0)[15] == Step8(0xf00)
  {
  }

  lemma HighEntries0()
    ensures Row(0)[0] == Step8(0x0)
    ensures Row(1)[0] == Step8(0x1000)
    ensures Row(2)[0] == Step8(0x2000)
    ensures Row(3)[0] == Step8(0x3000)
  {
  }

  lemma HighEntries1()
    ensures Row(4)[0] == Step8(0x4000)
    ensures Row(5)[0] == Step8(0x5000)
    ensures Row(6)[0] == Step8(0x6000)
    ensures Row(7)[0] == Step8(0x7000)
  {
  }

  lemma HighEntries2()
    ensures Row(8)[0] == Step8(0x8000)
    ensures Row(9)[0] == Step8(0x9000)
    ensures Row(10)[0] == Step8(0xa000)
    ensures Row(11)[0] == Step8(0xb000)
  {
  }

  lemma HighEntries3()
    ensures Row(12)[0] == Step8(0xc000)
    ensures Row(13)[0] == Step8(0xd000)
    ensures Row(14)[0] == Step8(0xe000)
    ensures Row(15)[0] == Step8(0xf000)
  {
  }

  lemma ShiftedRow1(j: nat)
    requires j < 16
    ensures Row(1)[j] == Xor(Row(1)[0], Row(0)[j])
  {
    assert j == 0 || j == 1 || j == 2 || j == 3 || j == 4 || j == 5 || j == 6 || j == 7 || j == 8 || j == 9 ||
        j == 10 || j == 11 || j == 12 || j == 13 || j == 14 || j == 15;
  }

  lemma ShiftedRow2(j: nat)
    requires j < 16
    ensures Row(2)[j] == Xor(Row(2)[0], Row(0)[j])
  {
    assert j == 0 || j == 1 || j == 2 || j == 3 || j == 4 || j == 5 || j == 6 || j == 7 || j == 8 || j == 9 ||
        j == 10 || j == 11 || j == 12 || j == 13 || j == 14 || j == 15;
  }

  lemma ShiftedRow3(j: nat)
    requires j < 16
    ensures Row(3)[j] == Xor(Row(3)[0], Row(0)[j])
  {
    assert j == 0 || j == 1 || j == 2 || j == 3 || j == 4 || j == 5 || j == 6 || j == 7 || j == 8 || j == 9 ||
        j == 10 || j == 11 || j == 12 || j == 13 || j == 14 || j == 15;
  }

  lemma ShiftedRow4(j: nat)
    requires j < 16
    ensures Row(4)[j] == Xor(Row(4)[0], Row(0)[j])
  {
    assert j == 0 || j == 1 || j == 2 || j == 3 || j == 4 || j == 5 || j == 6 || j == 7 || j == 8 || j == 9 ||
        j == 10 || j == 11 || j == 12 || j == 13 || j == 14 || j == 15;
  }

  lemma ShiftedRow5(j: nat)
    requires j < 16
    ensures Row(5)[j] == Xor(Row(5)[0], Row(0)[j])
  {
    assert j == 0 || j == 1 || j == 2 || j == 3 || j == 4 || j == 5 || j == 6 || j == 7 || j == 8 || j == 9 ||
        j == 10 || j == 11 || j == 12 || j == 13 || j == 14 || j == 15;
  }

  lemma ShiftedRow6(j: nat)
    requires j < 16
    ensures Row(6)[j] == Xor(Row(6)[0], Row(0)[j])
  {
    assert j == 0 || j == 1 || j == 2 || j == 3 || j == 4 || j == 5 || j == 6 || j == 7 || j == 8 || j == 9 ||
        j == 10 || j == 11 || j == 12 || j == 13 || j == 14 || j == 15;
  }

  lemma ShiftedRow7(j: nat)
    requires j < 16
    ensures Row(7)[j] == Xor(Row(7)[0], Row(0)[j])
  {
    assert j == 0 || j == 1 || j == 2 || j == 3 || j == 4 || j == 5 || j == 6 || j == 7 || j == 8 || j == 9 ||
        j == 10 || j == 11 || j == 12 || j == 13 || j == 14 || j == 15;
  }

  lemma ShiftedRow8(j: nat)
    requires j < 16
    ensures Row(8)[j] == Xor(Row(8)[0], Row(0)[j])
  {
    assert j == 0 || j == 1 || j == 2 || j == 3 || j == 4 || j == 5 || j == 6 || j == 7 || j == 8 || j == 9 ||
        j == 10 || j == 11 || j == 12 || j == 13 || j == 14 || j == 15;
  }

  lemma ShiftedRow9(j: nat)
    requires j < 16
    ensures Row(9)[j] == Xor(Row(9)[0], Row(0)[j])
  {
    assert j == 0 || j == 1 || j == 2 || j == 3 || j == 4 || j == 5 || j == 6 || j == 7 || j == 8 || j == 9 ||
        j == 10 || j == 11 || j == 12 || j == 13 || j == 14 || j == 15;
  }

  lemma ShiftedRowA(j: nat)
    requires j < 16
    ensures Row(10)[j] == Xor(Row(10)[0], Row(0)[j])
  {
    assert j == 0 || j == 1 || j == 2 || j == 3 || j == 4 || j == 5 || j == 6 || j == 7 || j == 8 || j == 9 ||
        j == 10 || j == 11 || j == 12 || j == 13 || j == 14 || j == 15;
  }

  lemma ShiftedRowB(j: nat)
    requires j < 16
    ensures Row(11)[j] == Xor(Row(11)[0], Row(0)[j])
  {
    assert j == 0 || j == 1 || j == 2 || j == 3 || j == 4 || j == 5 || j == 6 || j == 7 || j == 8 || j == 9 ||
        j == 10 || j == 11 || j == 12 || j == 13 || j == 14 || j == 15;
  }

  lemma ShiftedRowC(j: nat)
    requires j < 16
    ensures Row(12)[j] == Xor(Row(12)[0], Row(0)[j])
  {
    assert j == 0 || j == 1 || j == 2 || j == 3 || j == 4 || j == 5 || j == 6 || j == 7 || j == 8 || j == 9 ||
        j == 10 || j == 11 || j == 12 || j == 13 || j == 14 || j == 15;
  }

  lemma ShiftedRowD(j: nat)
    requires j < 16
    ensures Row(13)[j] == Xor(Row(13)[0], Row(0)[j])
  {
    assert j == 0 || j == 1 || j == 2 || j == 3 || j == 4 || j == 5 || j == 6 || j == 7 || j == 8 || j == 9 ||
        j == 10 || j == 11 || j == 12 || j == 13 || j == 14 || j == 15;
  }

  lemma ShiftedRowE(j: nat)
    requires j < 16
    ensures Row(14)[j] == Xor(Row(14)[0], Row(0)[j])
  {
    assert j == 0 || j == 1 || j == 2 || j == 3 || j == 4 || j == 5 || j == 6 || j == 7 || j == 8 || j == 9 ||
        j == 10 || j == 11 || j == 12 || j == 13 || j == 14 || j == 15;
  }

  lemma ShiftedRowF(j: nat)
    requires j < 16
    ensures Row(15)[j] == Xor(Row(15)[0], Row(0)[j])
  {
    assert j == 0 || j == 1 || j == 2 || j == 3 || j == 4 || j == 5 || j == 6 || j == 7 || j == 8 || j == 9 ||
        j == 10 || j == 11 || j == 12 || j == 13 || j == 14 || j == 15;
  }

  /** The table is linear in the two halves of its index. */
  lemma TableIsLinear(r: nat, j: nat)
    requires r < 16 && j < 16
    ensures Row(r)[j] == Xor(Row(r)[0], Row(0)[j])
  {
    match r {
      case 0 => XorWithZero(Row(0)[j]);
      case 1 => ShiftedRow1(j);
      case 2 => ShiftedRow2(j);
      case 3 => ShiftedRow3(j);
      case 4 => ShiftedRow4(j);
      case 5 => ShiftedRow5(j);
      case 6 => ShiftedRow6(j);
      case 7 => ShiftedRow7(j);
      case 8 => ShiftedRow8(j);
      case 9 => ShiftedRow9(j);
      case 10 => ShiftedRowA(j);
      case 11 => ShiftedRowB(j);
      case 12 => ShiftedRowC(j);
      case 13 => ShiftedRowD(j);
      case 14 => ShiftedRowE(j);
      case 15 => ShiftedRowF(j);
    }
  }

  lemma XorWithZero(a: bv16)
    ensures Row(0)[0] == 0 && Xor(0, a) == a
  {
  }

  lemma LowHalf(x: bv8)
    requires x & 0xf0 == 0
    ensures Row(0)[(x & 15) as nat] == Step8(Top(x))
  {
    hide Step8, Row;
    LowEntries0();
    LowEntries1();
    LowEntries2();
    LowEntries3();
    assert x == 0 || x == 1 || x == 2 || x == 3 || x == 4 || x == 5 || x == 6 || x == 7 || x == 8 || x == 9 ||
        x == 10 || x == 11 || x == 12 || x == 13 || x == 14 || x == 15;
  }

  lemma HighHalf(x: bv8)
    requires x & 0x0f == 0
    ensures Row((x >> 4) as nat)[0] == Step8(Top(x))
  {
    hide Step8, Row;
    HighEntries0();
    HighEntries1();
    HighEntries2();
    HighEntries3();
    assert x == 0 || x == 16 || x == 32 || x == 48 || x == 64 || x == 80 || x == 96 || x == 112 || x == 128 ||
        x == 144 || x == 160 || x == 176 || x == 192 || x == 208 || x == 224 || x == 240;
  }

  /** Every entry of the table is eight steps of its index. */
  lemma TableIsEightSteps(x: bv8)
    ensures Table(x) == Step8(Top(x))
  {
    hide Step8, Row, Xor, Top;
    var high, low := x & 0xf0, x & 0x0f;
    TableIsLinear((x >> 4) as nat, (x & 15) as nat);
    Halves(x);
    LowHalf(low);
    HighHalf(high);
    Step8Linear(Top(high), Top(low));
  }

  lemma Halves(x: bv8)
    ensures Top(x) == Xor(Top(x & 0xf0), Top(x & 0x0f))
    ensures (x & 0xf0) & 0x0f == 0 && (x & 0x0f) & 0xf0 == 0
    ensures (x & 0xf0) >> 4 == x >> 4 && (x & 0x0f) & 15 == x & 15
  {
  }

  // ---------- The loop ----------

  function LowByte(c: bv16): bv16 {
    c & 0xff
  }

  function HighByte(c: bv16): bv16 {
    c & 0xff00
  }

  function Up8(c: bv16): bv16 {
    c << 8
  }

  /** The index crc16 looks up: the top byte of the register against the next byte. */
  function Index(c: bv16, b: bv8): bv8 {
    (((c >> 8) ^ (b as bv16)) & 0x00ff) as bv8
  }

  lemma SplitByte(c: bv16)
    ensures c == Xor(HighByte(c), LowByte(c))
    ensures LowByte(c) & 0xff00 == 0 && Up8(LowByte(c)) == Up8(c)
  {
  }

  lemma IndexByte(c: bv16, b: bv8)
    ensures Top(Index(c, b)) == Xor(HighByte(c), Top(b))
  {
  }

  lemma Step8Low(x: bv16)
    requires x & 0xff00 == 0
    ensures Step8(x) == Up8(x)
  {
  }

  /** One turn of the loop of crc16. */
  function Turn(c: bv16, b: bv8): bv16 {
    Xor(Up8(c), Table(Index(c, b)))
  }

  lemma TurnDoes(c: bv16, b: bv8)
    ensures Turn(c, b) == (c << 8) ^ Table((((c >> 8) ^ (b as bv16)) & 0x00ff) as bv8)
  {
    hide Table;
  }

  /** One turn is eight steps once the byte has been added. */
  lemma TurnIsEightSteps(c: bv16, b: bv8)
    ensures Turn(c, b) == Step8(Xor(c, Top(b)))
  {
    hide Table, Step8, Xor, LowByte, HighByte, Up8, Index, Top;
    var low, high, word := LowByte(c), HighByte(c), Top(b);
    TableIsEightSteps(Index(c, b));
    IndexByte(c, b);
    SplitByte(c);
    Step8Low(low);
    Step8Linear(low, Xor(high, word));
    XorAssoc(low, high, word);
    XorComm(low, high);
  }

  /** One turn is polynomial division by the eight bits of its byte. */
  lemma TurnDivides(c: bv16, b: bv8)
    ensures Turn(c, b) == DivideBits(c, BitsOf(b))
  {
    hide Turn, Step8, Xor, DivideBits, BitsOf, Top;
    TurnIsEightSteps(c, b);
    ByteAtOnce(c, b);
  }

  lemma {:induction false} AllBitsSplit(a: seq<bv8>, b: seq<bv8>)
    ensures AllBits(a + b) == AllBits(a) + AllBits(b)
    decreases a
  {
    hide BitsOf;
    if a == [] {
      assert a + b == b;
    } else {
      assert (a + b)[1..] == a[1..] + b;
      AllBitsSplit(a[1..], b);
    }
  }

  /** The checksum of a byte string, started from a register: the message divided bit by bit. */
  function Checksum(c: bv16, s: seq<bv8>): bv16 {
    DivideBits(c, AllBits(s))
  }

  /** Checksums can be taken piece by piece. */
  lemma ChecksumSplit(c: bv16, a: seq<bv8>, b: seq<bv8>)
    ensures Checksum(c, a + b) == Checksum(Checksum(c, a), b)
  {
    hide DivideBits, AllBits;
    AllBitsSplit(a, b);
    DivideSplit(c, AllBits(a), AllBits(b));
  }

  lemma ChecksumOne(c: bv16, b: bv8)
    ensures Checksum(c, [b]) == Turn(c, b)
  {
    hide Turn, DivideBits, BitsOf;
    TurnDivides(c, b);
    assert [b][1..] == [];
    assert AllBits([b]) == BitsOf(b) + [] == BitsOf(b);
  }

  lemma ChecksumNothing(c: bv16)
    ensures Checksum(c, []) == c
  {
  }

  /** crc16: the table-driven loop divides the message by the polynomial, bit by bit. */
  method Crc16(buf: seq<bv8>) returns (crc: bv16)
    ensures crc == Checksum(0, buf)
  {
    hide Table, Checksum, Turn;
    crc := 0;
    var counter := 0;
    ChecksumNothing(0);
    while counter < |buf|
      invariant 0 <= counter <= |buf| && crc == Checksum(0, buf[..counter])
    {
      var byte := buf[counter];
      ChecksumSplit(0, buf[..counter], [byte]);
      ChecksumOne(crc, byte);
      TurnDoes(crc, byte);
      assert buf[..counter + 1] == buf[..counter] + [byte];
      crc := (crc << 8) ^ Table((((crc >> 8) ^ (byte as bv16)) & 0x00ff) as bv8);
      counter := counter + 1;
    }
    assert buf[..counter] == buf;
  }

  lemma ChecksumCons(c: bv16, s: seq<bv8>)
    requires s != []
    ensures Checksum(c, s) == Checksum(Turn(c, s[0]), s[1..])
  {
    hide Checksum, Turn;
    assert s == [s[0]] + s[1..];
    ChecksumSplit(c, [s[0]], s[1..]);
    ChecksumOne(c, s[0]);
  }

  /** The check value the header of crc16.c gives for "123456789". */
  lemma CheckValue()
    ensures Checksum(0, [0x31, 0x32, 0x33, 0x34, 0x35, 0x36, 0x37, 0x38, 0x39]) == 0x31c3
  {
    hide Checksum, Turn;
    FirstTurns();
    MiddleTurns();
    LastTurns();
    var s0 := [0x31, 0x32, 0x33, 0x34, 0x35, 0x36, 0x37, 0x38, 0x39];
    ChecksumCons(0, s0);
    var s1 := s0[1..];
    ChecksumCons(0x2672, s1);
    var s2 := s1[1..];
    ChecksumCons(0x20b5, s2);
    var s3 := s2[1..];
    ChecksumCons(0x9752, s3);
    var s4 := s3[1..];
    ChecksumCons(0xd789, s4);
    var s5 := s4[1..];
    ChecksumCons(0x546c, s5);
    var s6 := s5[1..];
    ChecksumCons(0x20e4, s6);
    var s7 := s6[1..];
    ChecksumCons(0x86d6, s7);
    var s8 := s7[1..];
    ChecksumCons(0x9015, s8);
    var s9 := s8[1..];
    ChecksumNothing(0x31c3);
    assert s9 == [];
  }

  lemma FirstTurns()
    ensures Turn(0, 0x31) == 0x2672
    ensures Turn(0x2672, 0x32) == 0x20b5
    ensures Turn(0x20b5, 0x33) == 0x9752
  {
  }

  lemma MiddleTurns()
    ensures Turn(0x9752, 0x34) == 0xd789
    ensures Turn(0xd789, 0x35) == 0x546c
    ensures Turn(0x546c, 0x36) == 0x20e4
  {
  }

  lemma LastTurns()
    ensures Turn(0x20e4, 0x37) == 0x86d6
    ensures Turn(0x86d6, 0x38) == 0x9015
    ensures Turn(0x9015, 0x39) == 0x31c3
  {
  }

  // ---------- The slot of a key ----------

  const SLOTS: nat := 16384
  const OPEN: bv8 := 0x7b
  const CLOSE: bv8 := 0x7d

  /** The first occurrence of c at or after from, or the length. */
  function Find(key: seq<bv8>, c: bv8, from: nat): (i: nat)
    requires from <= |key|
    ensures from <= i <= |key|
    ensures forall k :: from <= k < i ==> key[k] != c
    ensures i < |key| ==> key[i] == c
    decreases |key| - from
  {
    if from == |key| || key[from] == c then from else Find(key, c, from + 1)
  }

  /** What is hashed: the bytes between the first opening brace and the first closing brace after it, if
      there are any, and otherwise the whole key. */
  function Hashed(key: seq<bv8>): seq<bv8> {
    var s := Find(key, OPEN, 0);
    if s == |key| then key
    else
      var e := Find(key, CLOSE, s + 1);
      if e == |key| || e == s + 1 then key else key[s + 1..e]
  }

  function Slot(key: seq<bv8>): (slot: nat) {
    Low14(Checksum(0, Hashed(key)))
  }

  /** The least significant fourteen bits. */
  function Low14(crc: bv16): nat {
    (crc & 0x3fff) as nat
  }

  /** The mask takes the remainder of the division by the number of slots. */
  lemma Low14IsRemainder(crc: bv16)
    ensures Low14(crc) == (crc % 0x4000) as nat && SLOTS == 0x4000
  {
    assert crc & 0x3fff == crc % 0x4000;
  }

  lemma Low14Small(crc: bv16)
    ensures Low14(crc) < SLOTS
  {
    assert crc & 0x3fff < 0x4000;
  }

  lemma SlotInRange(key: seq<bv8>)
    ensures Slot(key) < SLOTS
  {
    hide Checksum, Hashed, Low14;
    Low14Small(Checksum(0, Hashed(key)));
  }

  lemma FindIs(key: seq<bv8>, c: bv8, from: nat, i: nat)
    requires from <= i < |key| && key[i] == c
    requires forall k :: from <= k < i ==> key[k] != c
    ensures Find(key, c, from) == i
  {
  }

  /** Keys that carry the same non-empty tag in braces live in the same slot. */
  lemma TaggedKeysShareSlot(before: seq<bv8>, after: seq<bv8>, before': seq<bv8>, after': seq<bv8>, tag: seq<bv8>)
    requires tag != [] && CLOSE !in tag && OPEN !in before && OPEN !in before'
    ensures Slot(before + [OPEN] + tag + [CLOSE] + after) == Slot(before' + [OPEN] + tag + [CLOSE] + after')
    ensures Slot(before + [OPEN] + tag + [CLOSE] + after) == Slot(tag) || OPEN in tag
  {
    hide Checksum;
    TagIsHashed(before, after, tag);
    TagIsHashed(before', after', tag);
    if OPEN !in tag {
      assert Find(tag, OPEN, 0) == |tag|;
    }
  }

  /** A key without an opening brace, without a closing one after the first opening one, or with nothing between the two
      is hashed as a whole. */
  lemma UntaggedIsWhole(key: seq<bv8>, before: seq<bv8>, rest: seq<bv8>)
    requires OPEN !in key || (key == before + [OPEN] + rest && OPEN !in before && (CLOSE !in rest || rest[0] == CLOSE))
    ensures Slot(key) == Low14(Checksum(0, key))
  {
    hide Checksum;
    if OPEN !in key {
      assert Find(key, OPEN, 0) == |key|;
    } else {
      FindIs(key, OPEN, 0, |before|);
      var s := |before|;
      assert key[s + 1..] == rest;
      if CLOSE !in rest {
        assert forall k :: s + 1 <= k < |key| ==> key[k] == rest[k - (s + 1)];
        assert Find(key, CLOSE, s + 1) == |key|;
      } else {
        FindIs(key, CLOSE, s + 1, s + 1);
      }
    }
  }

  lemma TagIsHashed(before: seq<bv8>, after: seq<bv8>, tag: seq<bv8>)
    requires tag != [] && CLOSE !in tag && OPEN !in before
    ensures Hashed(before + [OPEN] + tag + [CLOSE] + after) == tag
  {
    var key := before + [OPEN] + tag + [CLOSE] + after;
    FindIs(key, OPEN, 0, |before|);
    FindIs(key, CLOSE, |before| + 1, |before| + 1 + |tag|);
    assert key[|before| + 1..|before| + 1 + |tag|] == tag;
  }

  /** keyHashSlot. */
  method KeyHashSlot(key: seq<bv8>) returns (slot: nat)
    ensures slot == Slot(key) && slot < SLOTS
  {
    hide Checksum, Low14;
    SlotInRange(key);
    var s := 0;
    while s < |key|
      invariant 0 <= s <= |key| && Find(key, OPEN, 0) == Find(key, OPEN, s)
    {
      if key[s] == OPEN {
        break;
      }
      s := s + 1;
    }
    if s == |key| {
      var whole := Crc16(key);
      return Low14(whole);
    }
    var e := s + 1;
    while e < |key|
      invariant s + 1 <= e <= |key| && Find(key, CLOSE, s + 1) == Find(key, CLOSE, e)
    {
      if key[e] == CLOSE {
        break;
      }
      e := e + 1;
    }
    if e == |key| || e == s + 1 {
      var whole := Crc16(key);
      return Low14(whole);
    }
    var tag := Crc16(key[s + 1..e]);
    slot := Low14(tag);
  }

  // ---------- Division as polynomials divide ----------

  /** The register with only the coefficient of x^e. */
  function OneBit(e: nat): bv16 {
    if e == 0 then 1 else Rest(OneBit(e - 1))
  }

  function Meet(a: bv16, b: bv16): bv16 {
    a & b
  }

  predicate Coefficient(c: bv16, e: nat) {
    Meet(c, OneBit(e)) != 0
  }

  /** The polynomial a register stands for. */
  function Coefficients(c: bv16): Poly {
    set e: nat | e < 16 && Coefficient(c, e)
  }

  /** The divisor, with its leading term. */
  const GENERATOR: Poly := {
    0, 5, 12, 16}

  function Back(c: bv16): bv16 {
    c >> 1
  }

  lemma MeetRest(a: bv16, o: bv16)
    ensures Meet(a, Rest(o)) == Rest(Meet(Back(a), o))
  {
  }

  lemma MeetFirst(a: bv16)
    ensures Meet(a, 1) == 0 || Meet(a, 1) == 1
  {
  }

  /** A register meets a single coefficient in all of it or in nothing. */
  lemma {:induction false} AllOrNothing(a: bv16, e: nat)
    ensures Meet(a, OneBit(e)) == 0 || Meet(a, OneBit(e)) == OneBit(e)
    decreases e
  {
    hide Meet, Rest, Back;
    if e == 0 {
      MeetFirst(a);
    } else {
      MeetRest(a, OneBit(e - 1));
      AllOrNothing(Back(a), e - 1);
      RestNothing();
    }
  }

  lemma RestNothing()
    ensures Rest(0) == 0
  {
  }

  lemma MeetXor(a: bv16, b: bv16, o: bv16)
    ensures Meet(Xor(a, b), o) == Xor(Meet(a, o), Meet(b, o))
  {
  }

  lemma XorSelf(a: bv16)
    ensures Xor(a, a) == 0 && Xor(a, 0) == a && Xor(0, a) == a
  {
  }

  /** Exclusive or adds the polynomials. */
  lemma CoefficientXor(a: bv16, b: bv16, e: nat)
    ensures Coefficient(Xor(a, b), e) == (Coefficient(a, e) != Coefficient(b, e))
  {
    hide Meet, Xor, OneBit;
    MeetXor(a, b, OneBit(e));
    AllOrNothing(a, e);
    AllOrNothing(b, e);
    XorSelf(OneBit(e));
    XorSelf(0);
  }

  lemma OneBits0()
    ensures OneBit(0) == 0x0001
    ensures OneBit(1) == 0x0002
    ensures OneBit(2) == 0x0004
    ensures OneBit(3) == 0x0008
    ensures OneBit(4) == 0x0010
    ensures OneBit(5) == 0x0020
    ensures OneBit(6) == 0x0040
    ensures OneBit(7) == 0x0080
  {
    assert OneBit(1) == Rest(OneBit(0));
    assert OneBit(2) == Rest(OneBit(1));
    assert OneBit(3) == Rest(OneBit(2));
    assert OneBit(4) == Rest(OneBit(3));
    assert OneBit(5) == Rest(OneBit(4));
    assert OneBit(6) == Rest(OneBit(5));
    assert OneBit(7) == Rest(OneBit(6));
  }

  lemma PolyCoefficients0(e: nat)
    requires 0 <= e < 8
    ensures Coefficient(POLY, e) <==> e in GENERATOR
    ensures OneBit(e) != 0 && (e < 15 ==> Meet(OneBit(e), 0x8000) == 0)
  {
    hide OneBit;
    OneBits0();
    assert e == 0 || e == 1 || e == 2 || e == 3 || e == 4 || e == 5 || e == 6 || e == 7;
  }

  lemma OneBits1()
    requires OneBit(7) == 0x0080
    ensures OneBit(8) == 0x0100
    ensures OneBit(9) == 0x0200
    ensures OneBit(10) == 0x0400
    ensures OneBit(11) == 0x0800
    ensures OneBit(12) == 0x1000
    ensures OneBit(13) == 0x2000
    ensures OneBit(14) == 0x4000
    ensures OneBit(15) == 0x8000
  {
    assert OneBit(8) == Rest(OneBit(7));
    assert OneBit(9) == Rest(OneBit(8));
    assert OneBit(10) == Rest(OneBit(9));
    assert OneBit(11) == Rest(OneBit(10));
    assert OneBit(12) == Rest(OneBit(11));
    assert OneBit(13) == Rest(OneBit(12));
    assert OneBit(14) == Rest(OneBit(13));
    assert OneBit(15) == Rest(OneBit(14));
  }

  lemma PolyCoefficients1(e: nat)
    requires 8 <= e < 16
    ensures Coefficient(POLY, e) <==> e in GENERATOR
    ensures OneBit(e) != 0 && (e < 15 ==> Meet(OneBit(e), 0x8000) == 0)
  {
    hide OneBit;
    OneBits0();
    OneBits1();
    assert e == 8 || e == 9 || e == 10 || e == 11 || e == 12 || e == 13 || e == 14 || e == 15;
  }

  /** The constant POLY is that divisor without its leading term. */
  lemma PolyCoefficients(e: nat)
    requires e < 16
    ensures Coefficient(POLY, e) <==> e in GENERATOR
    ensures OneBit(e) != 0 && (e < 15 ==> Meet(OneBit(e), 0x8000) == 0)
  {
    hide Coefficient, OneBit, Meet;
    if e < 8 {
      PolyCoefficients0(e);
    } else {
      PolyCoefficients1(e);
    }
  }

  lemma LastBit()
    ensures OneBit(15) == 0x8000
  {
    OneBits0();
    OneBits1();
  }

  lemma RestMeets(c: bv16, o: bv16)
    requires Meet(o, 0x8000) == 0
    ensures Meet(Rest(c), Rest(o)) != 0 <==> Meet(c, o) != 0
  {
  }

  lemma RestHasNoFirst(c: bv16)
    ensures Meet(Rest(c), 1) == 0
  {
  }

  /** Shifting multiplies by x, apart from the overflow. */
  lemma CoefficientRest(c: bv16, e: nat)
    requires e < 16
    ensures Coefficient(Rest(c), e) <==> e > 0 && Coefficient(c, e - 1)
  {
    hide Meet, Rest, GENERATOR;
    if e == 0 {
      RestHasNoFirst(c);
    } else {
      PolyCoefficients(e - 1);
      RestMeets(c, OneBit(e - 1));
    }
  }

  lemma OverflowIs(c: bv16)
    ensures Overflow(c) == if Meet(c, 0x8000) != 0 then POLY else 0
  {
  }

  lemma NoCoefficient(e: nat)
    ensures !Coefficient(0, e)
  {
    hide OneBit;
  }

  /** One step is multiplication by x and, on overflow, subtraction of the divisor. */
  lemma CoefficientStep(c: bv16, e: nat)
    requires e < 16
    ensures Coefficient(Step(c), e) <==>
            ((e > 0 && Coefficient(c, e - 1)) != (Coefficient(c, 15) && e in GENERATOR))
  {
    hide Step, Rest, Xor, Overflow, GENERATOR, Meet, OneBit;
    StepIs(c);
    CoefficientXor(Rest(c), Overflow(c), e);
    CoefficientRest(c, e);
    OverflowIs(c);
    LastBit();
    PolyCoefficients(e);
    NoCoefficient(e);
  }

  lemma CoefficientBit(b: bool, e: nat)
    requires e < 16
    ensures Coefficient(Bit(b), e) <==> b && e == 15
  {
    hide OneBit;
    LastBit();
    NoCoefficient(e);
    PolyCoefficients(e);
    if b && e < 15 {
      MeetComm(OneBit(e), Bit(b));
    }
  }

  lemma MeetComm(a: bv16, b: bv16)
    ensures Meet(a, b) == Meet(b, a)
  {
  }

  /** Feeding a bit to the register divides the polynomial once. */
  lemma FeedDivides(c: bv16, b: bool)
    ensures Coefficients(Feed(c, b)) == DivideOnce(GENERATOR, 16, Coefficients(c), b)
  {
    hide Coefficient, Step, Xor, Bit, Add, Shift, GENERATOR;
    var taken := Xor(c, Bit(b));
    forall e: nat | e < 16
      ensures Coefficient(taken, e) <==> (Coefficient(c, e) != (b && e == 15))
      ensures Coefficient(Feed(c, b), e) <==>
              ((e > 0 && Coefficient(taken, e - 1)) != (Coefficient(taken, 15) && e in GENERATOR))
    {
      CoefficientXor(c, Bit(b), e);
      CoefficientBit(b, e);
      CoefficientStep(taken, e);
    }
    TakenIs(c, taken, b);
    ShiftedOver(taken, Feed(c, b));
  }

  lemma TakenIs(c: bv16, taken: bv16, b: bool)
    requires forall e: nat :: e < 16 ==> (Coefficient(taken, e) <==> (Coefficient(c, e) != (b && e == 15)))
    ensures Coefficients(taken) == Add(Coefficients(c), Term(b, 15))
  {
    hide Coefficient;
  }

  lemma ShiftedOver(taken: bv16, next: bv16)
    requires forall e: nat :: e < 16 ==>
      (Coefficient(next, e) <==> ((e > 0 && Coefficient(taken, e - 1)) != (Coefficient(taken, 15) && e in GENERATOR)))
    ensures Coefficients(next) ==
            Add(Shift(Coefficients(taken), 1), if 15 in Coefficients(taken) then GENERATOR else {})
  {
    GeneratorTop();
    hide Coefficient, GENERATOR;
    var over := 15 in Coefficients(taken);
    var r := Add(Shift(Coefficients(taken), 1), if over then GENERATOR else {});
    forall e: nat
      ensures e in Coefficients(next) <==> e in r
    {
      assert e in Shift(Coefficients(taken), 1) <==> 1 <= e && e - 1 in Coefficients(taken);
    }
  }

  lemma GeneratorTop()
    ensures 16 in GENERATOR && forall e :: e in GENERATOR ==> e <= 16
  {
  }

  /** The register after a message is its remainder: what is left when multiples of the divisor are taken off the
      message times x^16, together with the starting register carried along in front of it. */
  lemma {:induction false} RegisterIsRemainder(c: bv16, bits: seq<bool>) returns (quotient: seq<nat>)
    ensures Add(Dividend(bits, 16, Coefficients(c)), Coefficients(DivideBits(c, bits))) == Multiple(GENERATOR, quotient)
    decreases bits
  {
    hide Dividend, Add, Coefficients, Feed, DivideOnce, GENERATOR;
    if bits == [] {
      DivideNothing(c, bits);
      NothingDivided(16, Coefficients(c));
      quotient := [];
    } else {
      var front, last := bits[..|bits| - 1], bits[|bits| - 1];
      var q := RegisterIsRemainder(c, front);
      assert bits == front + [last];
      DivideSplit(c, front, [last]);
      FeedOne(DivideBits(c, front), [last]);
      DivideNothing(Feed(DivideBits(c, front), last), [last][1..]);
      FeedDivides(DivideBits(c, front), last);
      quotient := DivisionStep(GENERATOR, 16, front, last, Coefficients(c), Coefficients(DivideBits(c, front)), q);
    }
  }

  /** The checksum of a byte string is the remainder of its bits, as polynomials divide, and of lower degree than the
      divisor. */
  lemma ChecksumIsRemainder(c: bv16, s: seq<bv8>) returns (quotient: seq<nat>)
    ensures Add(Dividend(AllBits(s), 16, Coefficients(c)), Coefficients(Checksum(c, s))) == Multiple(GENERATOR, quotient)
    ensures forall e :: e in Coefficients(Checksum(c, s)) ==> e < 16
  {
    hide DivideBits, Dividend, Add, AllBits, Coefficient, GENERATOR;
    quotient := RegisterIsRemainder(c, AllBits(s));
  }
}
