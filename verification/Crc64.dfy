/** The 64-bit checksum of dumps and snapshots: the table of crc64.c against bit-by-bit polynomial
    division, and what the checksum is for. */
module Crc64s {
  import opened Polynomials

  /** The polynomial 0xad93d23594c935a9 with its bits reversed: bit 63 is the coefficient of x^0. */
  const POLY: bv64 := 0x95ac9329ac4bc9b5

  // ---------- Bit by bit ----------

  function Xor(a: bv64, b: bv64): bv64 {
    a ^ b
  }

  /** Multiplication by x modulo the polynomial, on the reversed representation. */
  function Step(c: bv64): bv64 {
    if c & 1 == 1 then (c >> 1) ^ POLY else c >> 1
  }

  function Step8(c: bv64): bv64 {
    Step(Step(Step(Step(Step(Step(Step(Step(c))))))))
  }

  function Bit(b: bool): bv64 {
    if b then 1 else 0
  }

  /** Polynomial division one message bit at a time. */
  function DivideBits(c: bv64, bits: seq<bool>): bv64
    decreases bits
  {
    if bits == [] then c else DivideBits(Step(Xor(c, Bit(bits[0]))), bits[1..])
  }

  /** The bits of a byte in the order they are fed: the least significant first. */
  function BitsOf(b: bv8): seq<bool> {
    [b & 1 != 0, b & 2 != 0, b & 4 != 0, b & 8 != 0, b & 16 != 0, b & 32 != 0, b & 64 != 0, b & 128 != 0]
  }

  function AllBits(s: seq<bv8>): seq<bool> {
    if s == [] then [] else BitsOf(s[0]) + AllBits(s[1..])
  }

  // ---------- Linearity ----------

  function Low(x: bv64): bv64 {
    x & 0xffff_ffff
  }

  function High(x: bv64): bv64 {
    x >> 32
  }

  lemma LowAssoc(a: bv64, b: bv64, c: bv64)
    ensures Low(Xor(Xor(a, b), c)) == Low(Xor(a, Xor(b, c)))
  {
  }

  lemma HighLinear(a: bv64, b: bv64)
    ensures High(Xor(a, b)) == Xor(High(a), High(b))
  {
  }

  lemma LowOfHigh(x: bv64)
    ensures Low(High(x)) == High(x)
  {
  }

  lemma SameHalves(x: bv64, y: bv64)
    requires Low(x) == Low(y) && High(x) == High(y)
    ensures x == y
  {
  }

  lemma XorAssoc(a: bv64, b: bv64, c: bv64)
    ensures Xor(Xor(a, b), c) == Xor(a, Xor(b, c))
  {
    hide Xor, Low, High;
    var x, y := Xor(Xor(a, b), c), Xor(a, Xor(b, c));
    LowAssoc(a, b, c);
    HighLinear(Xor(a, b), c);
    HighLinear(a, b);
    HighLinear(a, Xor(b, c));
    HighLinear(b, c);
    LowAssoc(High(a), High(b), High(c));
    LowOfHigh(x);
    LowOfHigh(y);
    SameHalves(x, y);
  }

  lemma XorComm(a: bv64, b: bv64)
    ensures Xor(a, b) == Xor(b, a)
  {
  }

  lemma XorSwap(a: bv64, b: bv64, c: bv64, d: bv64)
    ensures Xor(Xor(a, b), Xor(c, d)) == Xor(Xor(a, c), Xor(b, d))
  {
    hide Xor;
    XorAssoc(a, b, Xor(c, d));
    XorAssoc(b, c, d);
    XorComm(b, c);
    XorAssoc(c, b, d);
    XorAssoc(a, c, Xor(b, d));
  }

  /** The polynomial, if the coefficient of x^63 is about to overflow. */
  function Overflow(c: bv64): bv64 {
    if c & 1 == 1 then POLY else 0
  }

  function Rest(c: bv64): bv64 {
    c >> 1
  }

  lemma StepOdd(c: bv64)
    requires c & 1 == 1
    ensures Step(c) == Xor(Rest(c), POLY) && Overflow(c) == POLY
  {
  }

  /** An even register just shifts. */
  lemma StepEven(c: bv64)
    requires c & 1 != 1
    ensures Step(c) == Rest(c) && Overflow(c) == 0
  {
  }

  lemma XorZero(a: bv64)
    ensures Xor(a, 0) == a
  {
  }

  lemma StepIs(c: bv64)
    ensures Step(c) == Xor(Rest(c), Overflow(c))
  {
    hide Step, Xor, Rest, Overflow;
    if c & 1 == 1 {
      StepOdd(c);
    } else {
      StepEven(c);
      XorZero(Rest(c));
    }
  }

  lemma OverflowLinear(x: bv64, y: bv64)
    ensures Overflow(Xor(x, y)) == Xor(Overflow(x), Overflow(y))
  {
    assert (x ^ y) & 1 == (x & 1) ^ (y & 1);
    assert (x & 1 == 0 || x & 1 == 1) && (y & 1 == 0 || y & 1 == 1);
  }

  lemma RestLinear(x: bv64, y: bv64)
    ensures Rest(Xor(x, y)) == Xor(Rest(x), Rest(y))
  {
  }

  lemma StepLinear(x: bv64, y: bv64)
    ensures Step(Xor(x, y)) == Xor(Step(x), Step(y))
  {
    hide Step, Overflow, Rest, Xor;
    StepIs(x);
    StepIs(y);
    StepIs(Xor(x, y));
    OverflowLinear(x, y);
    RestLinear(x, y);
    XorSwap(Rest(x), Rest(y), Overflow(x), Overflow(y));
  }

  lemma Step8Linear(x: bv64, y: bv64)
    ensures Step8(Xor(x, y)) == Xor(Step8(x), Step8(y))
  {
    hide Step, Xor;
    StepLinear(x, y);
    var x1, y1 := Step(x), Step(y);
    StepLinear(x1, y1);
    var x2, y2 := Step(x1), Step(y1);
    StepLinear(x2, y2);
    var x3, y3 := Step(x2), Step(y2);
    StepLinear(x3, y3);
    var x4, y4 := Step(x3), Step(y3);
    StepLinear(x4, y4);
    var x5, y5 := Step(x4), Step(y4);
    StepLinear(x5, y5);
    var x6, y6 := Step(x5), Step(y5);
    StepLinear(x6, y6);
    StepLinear(Step(x6), Step(y6));
  }

  // ---------- A byte at once ----------

  function LowBit(b: bv64): bv64 {
    b & 1
  }

  function HighBits(b: bv64): bv64 {
    b & 0xffff_ffff_ffff_fffe
  }

  lemma SplitLow(b: bv64)
    ensures Xor(LowBit(b), HighBits(b)) == b
    ensures HighBits(b) & 1 == 0 && Rest(HighBits(b)) == Rest(b)
  {
  }

  /** The lowest bit of what is fed can be fed alone, the rest one step later. */
  lemma PeelBit(c: bv64, b: bv64)
    ensures Step(Xor(c, b)) == Xor(Step(Xor(c, LowBit(b))), Rest(b))
  {
    hide Step, Xor, LowBit, HighBits, Rest;
    SplitLow(b);
    XorAssoc(c, LowBit(b), HighBits(b));
    StepLinear(Xor(c, LowBit(b)), HighBits(b));
    StepEven(HighBits(b));
  }

  function Feed(c: bv64, bit: bool): bv64 {
    Step(Xor(c, Bit(bit)))
  }

  /** Eight steps after feeding a byte at once are eight steps fed bit by bit. */
  lemma ByteAtOnce(c: bv64, b: bv8)
    ensures Step8(Xor(c, b as bv64)) == DivideBits(c, BitsOf(b))
  {
    hide Step, Xor, LowBit, Rest, Bit, DivideBits, BitsOf;
    var b0 := b as bv64;
    var b1 := Rest(b0);
    var b2 := Rest(b1);
    var b3 := Rest(b2);
    var b4 := Rest(b3);
    var b5 := Rest(b4);
    var b6 := Rest(b5);
    var b7 := Rest(b6);
    ByteBits(b);
    var bits := BitsOf(b);
    FeedEight(c, bits);
    PeelBit(c, b0);
    var c1 := Feed(c, bits[0]);
    PeelBit(c1, b1);
    var c2 := Feed(c1, bits[1]);
    PeelBit(c2, b2);
    var c3 := Feed(c2, bits[2]);
    PeelBit(c3, b3);
    var c4 := Feed(c3, bits[3]);
    PeelBit(c4, b4);
    var c5 := Feed(c4, bits[4]);
    PeelBit(c5, b5);
    var c6 := Feed(c5, bits[5]);
    PeelBit(c6, b6);
    var c7 := Feed(c6, bits[6]);
    PeelBit(c7, b7);
    XorZero(Feed(c7, bits[7]));
  }

  /** The bits of a byte, as its repeated shifts show them. */
  lemma ByteBits(b: bv8)
    ensures var bits := BitsOf(b);
            |bits| == 8 &&
            var b0 := b as bv64; var b1 := Rest(b0); var b2 := Rest(b1); var b3 := Rest(b2);
            var b4 := Rest(b3); var b5 := Rest(b4); var b6 := Rest(b5); var b7 := Rest(b6);
            LowBit(b0) == Bit(bits[0]) && LowBit(b1) == Bit(bits[1]) && LowBit(b2) == Bit(bits[2]) &&
            LowBit(b3) == Bit(bits[3]) && LowBit(b4) == Bit(bits[4]) && LowBit(b5) == Bit(bits[5]) &&
            LowBit(b6) == Bit(bits[6]) && LowBit(b7) == Bit(bits[7]) && Rest(b7) == 0
  {
  }

  lemma FeedOne(c: bv64, bits: seq<bool>)
    requires bits != []
    ensures DivideBits(c, bits) == DivideBits(Feed(c, bits[0]), bits[1..])
  {
    hide Step, Xor, Bit;
  }

  lemma FeedEight(c: bv64, bits: seq<bool>)
    requires |bits| == 8
    ensures DivideBits(c, bits) ==
      Feed(Feed(Feed(Feed(Feed(Feed(Feed(Feed(c, bits[0]), bits[1]), bits[2]), bits[3]), bits[4]), bits[5]), bits[6]), bits[7])
  {
    hide Feed, DivideBits;
    FeedOne(c, bits);
    var c1, s1 := Feed(c, bits[0]), bits[1..];
    FeedOne(c1, s1);
    var c2, s2 := Feed(c1, bits[1]), s1[1..];
    FeedOne(c2, s2);
    var c3, s3 := Feed(c2, bits[2]), s2[1..];
    FeedOne(c3, s3);
    var c4, s4 := Feed(c3, bits[3]), s3[1..];
    FeedOne(c4, s4);
    var c5, s5 := Feed(c4, bits[4]), s4[1..];
    FeedOne(c5, s5);
    var c6, s6 := Feed(c5, bits[5]), s5[1..];
    FeedOne(c6, s6);
    var c7, s7 := Feed(c6, bits[6]), s6[1..];
    FeedOne(c7, s7);
    DivideNothing(Feed(c7, bits[7]), s7[1..]);
  }

  lemma DivideNothing(c: bv64, bits: seq<bool>)
    requires bits == []
    ensures DivideBits(c, bits) == c
  {
  }

  lemma {:induction false} DivideSplit(c: bv64, a: seq<bool>, b: seq<bool>)
    ensures DivideBits(c, a + b) == DivideBits(DivideBits(c, a), b)
    decreases a
  {
    hide Step, Xor, Bit;
    if a == [] {
      assert a + b == b;
    } else {
      assert (a + b)[1..] == a[1..] + b;
      DivideSplit(Feed(c, a[0]), a[1..], b);
    }
  }

  // ---------- The table ----------

  /** The rows of crc64_tab, sixteen entries each. */
  function Row(i: nat): (r: seq<bv64>)
    requires i < 16
    ensures |r| == 16
  {
    match i
    case 0 => [
      0x0000000000000000, 0x7ad870c830358979, 0xf5b0e190606b12f2, 0x8f689158505e9b8b,
      0xc038e5739841b68f, 0xbae095bba8743ff6, 0x358804e3f82aa47d, 0x4f50742bc81f2d04,
      0xab28ecb46814fe75, 0xd1f09c7c5821770c, 0x5e980d24087fec87, 0x24407dec384a65fe,
      0x6b1009c7f05548fa, 0x11c8790fc060c183, 0x9ea0e857903e5a08, 0xe478989fa00bd371]
    case 1 => [
      0x7d08ff3b88be6f81, 0x07d08ff3b88be6f8, 0x88b81eabe8d57d73, 0xf2606e63d8e0f40a,
      0xbd301a4810ffd90e, 0xc7e86a8020ca5077, 0x4880fbd87094cbfc, 0x32588b1040a14285,
      0xd620138fe0aa91f4, 0xacf86347d09f188d, 0x2390f21f80c18306, 0x594882d7b0f40a7f,
      0x1618f6fc78eb277b, 0x6cc0863448deae02, 0xe3a8176c18803589, 0x997067a428b5bcf0]
    case 2 => [
      0xfa11fe77117cdf02, 0x80c98ebf2149567b, 0x0fa11fe77117cdf0, 0x75796f2f41224489,
      0x3a291b04893d698d, 0x40f16bccb908e0f4, 0xcf99fa94e9567b7f, 0xb5418a5cd963f206,
      0x513912c379682177, 0x2be1620b495da80e, 0xa489f35319033385, 0xde51839b2936bafc,
      0x9101f7b0e12997f8, 0xebd98778d11c1e81, 0x64b116208142850a, 0x1e6966e8b1770c73]
    case 3 => [
      0x8719014c99c2b083, 0xfdc17184a9f739fa, 0x72a9e0dcf9a9a271, 0x08719014c99c2b08,
      0x4721e43f0183060c, 0x3df994f731b68f75, 0xb29105af61e814fe, 0xc849756751dd9d87,
      0x2c31edf8f1d64ef6, 0x56e99d30c1e3c78f, 0xd9810c6891bd5c04, 0xa3597ca0a188d57d,
      0xec09088b6997f879, 0x96d1784359a27100, 0x19b9e91b09fcea8b, 0x636199d339c963f2]
    case 4 => [
      0xdf7adabd7a6e2d6f, 0xa5a2aa754a5ba416, 0x2aca3b2d1a053f9d, 0x50124be52a30b6e4,
      0x1f423fcee22f9be0, 0x659a4f06d21a1299, 0xeaf2de5e82448912, 0x902aae96b271006b,
      0x74523609127ad31a, 0x0e8a46c1224f5a63, 0x81e2d7997211c1e8, 0xfb3aa75142244891,
      0xb46ad37a8a3b6595, 0xceb2a3b2ba0eecec, 0x41da32eaea507767, 0x3b024222da65fe1e]
    case 5 => [
      0xa2722586f2d042ee, 0xd8aa554ec2e5cb97, 0x57c2c41692bb501c, 0x2d1ab4dea28ed965,
      0x624ac0f56a91f461, 0x1892b03d5aa47d18, 0x97fa21650afae693, 0xed2251ad3acf6fea,
      0x095ac9329ac4bc9b, 0x7382b9faaaf135e2, 0xfcea28a2faafae69, 0x8632586aca9a2710,
      0xc9622c4102850a14, 0xb3ba5c8932b0836d, 0x3cd2cdd162ee18e6, 0x460abd1952db919f]
    case 6 => [
      0x256b24ca6b12f26d, 0x5fb354025b277b14, 0xd0dbc55a0b79e09f, 0xaa03b5923b4c69e6,
      0xe553c1b9f35344e2, 0x9f8bb171c366cd9b, 0x10e3202993385610, 0x6a3b50e1a30ddf69,
      0x8e43c87e03060c18, 0xf49bb8b633338561, 0x7bf329ee636d1eea, 0x012b592653589793,
      0x4e7b2d0d9b47ba97, 0x34a35dc5ab7233ee, 0xbbcbcc9dfb2ca865, 0xc113bc55cb19211c]
    case 7 => [
      0x5863dbf1e3ac9dec, 0x22bbab39d3991495, 0xadd33a6183c78f1e, 0xd70b4aa9b3f20667,
      0x985b3e827bed2b63, 0xe2834e4a4bd8a21a, 0x6debdf121b863991, 0x1733afda2bb3b0e8,
      0xf34b37458bb86399, 0x8993478dbb8deae0, 0x06fbd6d5ebd3716b, 0x7c23a61ddbe6f812,
      0x3373d23613f9d516, 0x49aba2fe23cc5c6f, 0xc6c333a67392c7e4, 0xbc1b436e43a74e9d]
    case 8 => [
      0x95ac9329ac4bc9b5, 0xef74e3e19c7e40cc, 0x601c72b9cc20db47, 0x1ac40271fc15523e,
      0x5594765a340a7f3a, 0x2f4c0692043ff643, 0xa02497ca54616dc8, 0xdafce7026454e4b1,
      0x3e847f9dc45f37c0, 0x445c0f55f46abeb9, 0xcb349e0da4342532, 0xb1eceec59401ac4b,
      0xfebc9aee5c1e814f, 0x8464ea266c2b0836, 0x0b0c7b7e3c7593bd, 0x71d40bb60c401ac4]
    case 9 => [
      0xe8a46c1224f5a634, 0x927c1cda14c02f4d, 0x1d148d82449eb4c6, 0x67ccfd4a74ab3dbf,
      0x289c8961bcb410bb, 0x5244f9a98c8199c2, 0xdd2c68f1dcdf0249, 0xa7f41839ecea8b30,
      0x438c80a64ce15841, 0x3954f06e7cd4d138, 0xb63c61362c8a4ab3, 0xcce411fe1cbfc3ca,
      0x83b465d5d4a0eece, 0xf96c151de49567b7, 0x76048445b4cbfc3c, 0x0cdcf48d84fe7545]
    case 10 => [
      0x6fbd6d5ebd3716b7, 0x15651d968d029fce, 0x9a0d8ccedd5c0445, 0xe0d5fc06ed698d3c,
      0xaf85882d2576a038, 0xd55df8e515432941, 0x5a3569bd451db2ca, 0x20ed197575283bb3,
      0xc49581ead523e8c2, 0xbe4df122e51661bb, 0x3125607ab548fa30, 0x4bfd10b2857d7349,
      0x04ad64994d625e4d, 0x7e7514517d57d734, 0xf11d85092d094cbf, 0x8bc5f5c11d3cc5c6]
    case 11 => [
      0x12b5926535897936, 0x686de2ad05bcf04f, 0xe70573f555e26bc4, 0x9ddd033d65d7e2bd,
      0xd28d7716adc8cfb9, 0xa85507de9dfd46c0, 0x273d9686cda3dd4b, 0x5de5e64efd965432,
      0xb99d7ed15d9d8743, 0xc3450e196da80e3a, 0x4c2d9f413df695b1, 0x36f5ef890dc31cc8,
      0x79a59ba2c5dc31cc, 0x037deb6af5e9b8b5, 0x8c157a32a5b7233e, 0xf6cd0afa9582aa47]
    case 12 => [
      0x4ad64994d625e4da, 0x300e395ce6106da3, 0xbf66a804b64ef628, 0xc5bed8cc867b7f51,
      0x8aeeace74e645255, 0xf036dc2f7e51db2c, 0x7f5e4d772e0f40a7, 0x05863dbf1e3ac9de,
      0xe1fea520be311aaf, 0x9b26d5e88e0493d6, 0x144e44b0de5a085d, 0x6e963478ee6f8124,
      0x21c640532670ac20, 0x5b1e309b16452559, 0xd476a1c3461bbed2, 0xaeaed10b762e37ab]
    case 13 => [
      0x37deb6af5e9b8b5b, 0x4d06c6676eae0222, 0xc26e573f3ef099a9, 0xb8b627f70ec510d0,
      0xf7e653dcc6da3dd4, 0x8d3e2314f6efb4ad, 0x0256b24ca6b12f26, 0x788ec2849684a65f,
      0x9cf65a1b368f752e, 0xe62e2ad306bafc57, 0x6946bb8b56e467dc, 0x139ecb4366d1eea5,
      0x5ccebf68aecec3a1, 0x2616cfa09efb4ad8, 0xa97e5ef8cea5d153, 0xd3a62e30fe90582a]
    case 14 => [
      0xb0c7b7e3c7593bd8, 0xca1fc72bf76cb2a1, 0x45775673a732292a, 0x3faf26bb9707a053,
      0x70ff52905f188d57, 0x0a2722586f2d042e, 0x854fb3003f739fa5, 0xff97c3c80f4616dc,
      0x1bef5b57af4dc5ad, 0x61372b9f9f784cd4, 0xee5fbac7cf26d75f, 0x9487ca0fff135e26,
      0xdbd7be24370c7322, 0xa10fceec0739fa5b, 0x2e675fb4576761d0, 0x54bf2f7c6752e8a9]
    case 15 => [
      0xcdcf48d84fe75459, 0xb71738107fd2dd20, 0x387fa9482f8c46ab, 0x42a7d9801fb9cfd2,
      0x0df7adabd7a6e2d6, 0x772fdd63e7936baf, 0xf8474c3bb7cdf024, 0x829f3cf387f8795d,
      0x66e7a46c27f3aa2c, 0x1c3fd4a417c62355, 0x935745fc4798b8de, 0xe98f353477ad31a7,
      0xa6df411fbfb21ca3, 0xdc0731d78f8795da, 0x536fa08fdfd90e51, 0x29b7d047efec8728]
  }

  function Table(x: bv8): bv64 {
    Row((x >> 4) as nat)[(x & 15) as nat]
  }

  lemma LowEntries0()
    ensures Row(0)[0] == Step8(0)
    ensures Row(0)[1] == Step8(1)
  {
  }

  lemma LowEntries1()
    ensures Row(0)[2] == Step8(2)
    ensures Row(0)[3] == Step8(3)
  {
  }

  lemma LowEntries2()
    ensures Row(0)[4] == Step8(4)
    ensures Row(0)[5] == Step8(5)
  {
  }

  lemma LowEntries3()
    ensures Row(0)[6] == Step8(6)
    ensures Row(0)[7] == Step8(7)
  {
  }

  lemma LowEntries4()
    ensures Row(0)[8] == Step8(8)
    ensures Row(0)[9] == Step8(9)
  {
  }

  lemma LowEntries5()
    ensures Row(0)[10] == Step8(10)
    ensures Row(0)[11] == Step8(11)
  {
  }

  lemma LowEntries6()
    ensures Row(0)[12] == Step8(12)
    ensures Row(0)[13] == Step8(13)
  {
  }

  lemma LowEntries7()
    ensures Row(0)[14] == Step8(14)
    ensures Row(0)[15] == Step8(15)
  {
  }

  lemma HighEntries0()
    ensures Row(0)[0] == Step8(0)
    ensures Row(1)[0] == Step8(16)
  {
  }

  lemma HighEntries1()
    ensures Row(2)[0] == Step8(32)
    ensures Row(3)[0] == Step8(48)
  {
  }

  lemma HighEntries2()
    ensures Row(4)[0] == Step8(64)
    ensures Row(5)[0] == Step8(80)
  {
  }

  lemma HighEntries3()
    ensures Row(6)[0] == Step8(96)
    ensures Row(7)[0] == Step8(112)
  {
  }

  lemma HighEntries4()
    ensures Row(8)[0] == Step8(128)
    ensures Row(9)[0] == Step8(144)
  {
  }

  lemma HighEntries5()
    ensures Row(10)[0] == Step8(160)
    ensures Row(11)[0] == Step8(176)
  {
  }

  lemma HighEntries6()
    ensures Row(12)[0] == Step8(192)
    ensures Row(13)[0] == Step8(208)
  {
  }

  lemma HighEntries7()
    ensures Row(14)[0] == Step8(224)
    ensures Row(15)[0] == Step8(240)
  {
  }

  lemma ShiftedRow1(j: nat)
    requires j < 16
    ensures Row(1)[j] == Xor(Row(1)[0], Row(0)[j])
  {
    assert j == 0 || j == 1 || j == 2 || j == 3 || j == 4 || j == 5 || j == 6 || j == 7 || j == 8 || j == 9 ||
        j == 10 || j == 11 || j == 12 || j == 13 || j == 14 || j == 15;
  }

  lemma ShiftedRow2(j: nat)
    requires j < 16
    ensures Row(2)[j] == Xor(Row(2)[0], Row(0)[j])
  {
    assert j == 0 || j == 1 || j == 2 || j == 3 || j == 4 || j == 5 || j == 6 || j == 7 || j == 8 || j == 9 ||
        j == 10 || j == 11 || j == 12 || j == 13 || j == 14 || j == 15;
  }

  lemma ShiftedRow3(j: nat)
    requires j < 16
    ensures Row(3)[j] == Xor(Row(3)[0], Row(0)[j])
  {
    assert j == 0 || j == 1 || j == 2 || j == 3 || j == 4 || j == 5 || j == 6 || j == 7 || j == 8 || j == 9 ||
        j == 10 || j == 11 || j == 12 || j == 13 || j == 14 || j == 15;
  }

  lemma ShiftedRow4(j: nat)
    requires j < 16
    ensures Row(4)[j] == Xor(Row(4)[0], Row(0)[j])
  {
    assert j == 0 || j == 1 || j == 2 || j == 3 || j == 4 || j == 5 || j == 6 || j == 7 || j == 8 || j == 9 ||
        j == 10 || j == 11 || j == 12 || j == 13 || j == 14 || j == 15;
  }

  lemma ShiftedRow5(j: nat)
    requires j < 16
    ensures Row(5)[j] == Xor(Row(5)[0], Row(0)[j])
  {
    assert j == 0 || j == 1 || j == 2 || j == 3 || j == 4 || j == 5 || j == 6 || j == 7 || j == 8 || j == 9 ||
        j == 10 || j == 11 || j == 12 || j == 13 || j == 14 || j == 15;
  }

  lemma ShiftedRow6(j: nat)
    requires j < 16
    ensures Row(6)[j] == Xor(Row(6)[0], Row(0)[j])
  {
    assert j == 0 || j == 1 || j == 2 || j == 3 || j == 4 || j == 5 || j == 6 || j == 7 || j == 8 || j == 9 ||
        j == 10 || j == 11 || j == 12 || j == 13 || j == 14 || j == 15;
  }

  lemma ShiftedRow7(j: nat)
    requires j < 16
    ensures Row(7)[j] == Xor(Row(7)[0], Row(0)[j])
  {
    assert j == 0 || j == 1 || j == 2 || j == 3 || j == 4 || j == 5 || j == 6 || j == 7 || j == 8 || j == 9 ||
        j == 10 || j == 11 || j == 12 || j == 13 || j == 14 || j == 15;
  }

  lemma ShiftedRow8(j: nat)
    requires j < 16
    ensures Row(8)[j] == Xor(Row(8)[0], Row(0)[j])
  {
    assert j == 0 || j == 1 || j == 2 || j == 3 || j == 4 || j == 5 || j == 6 || j == 7 || j == 8 || j == 9 ||
        j == 10 || j == 11 || j == 12 || j == 13 || j == 14 || j == 15;
  }

  lemma ShiftedRow9(j: nat)
    requires j < 16
    ensures Row(9)[j] == Xor(Row(9)[0], Row(0)[j])
  {
    assert j == 0 || j == 1 || j == 2 || j == 3 || j == 4 || j == 5 || j == 6 || j == 7 || j == 8 || j == 9 ||
        j == 10 || j == 11 || j == 12 || j == 13 || j == 14 || j == 15;
  }

  lemma ShiftedRowA(j: nat)
    requires j < 16
    ensures Row(10)[j] == Xor(Row(10)[0], Row(0)[j])
  {
    assert j == 0 || j == 1 || j == 2 || j == 3 || j == 4 || j == 5 || j == 6 || j == 7 || j == 8 || j == 9 ||
        j == 10 || j == 11 || j == 12 || j == 13 || j == 14 || j == 15;
  }

  lemma ShiftedRowB(j: nat)
    requires j < 16
    ensures Row(11)[j] == Xor(Row(11)[0], Row(0)[j])
  {
    assert j == 0 || j == 1 || j == 2 || j == 3 || j == 4 || j == 5 || j == 6 || j == 7 || j == 8 || j == 9 ||
        j == 10 || j == 11 || j == 12 || j == 13 || j == 14 || j == 15;
  }

  lemma ShiftedRowC(j: nat)
    requires j < 16
    ensures Row(12)[j] == Xor(Row(12)[0], Row(0)[j])
  {
    assert j == 0 || j == 1 || j == 2 || j == 3 || j == 4 || j == 5 || j == 6 || j == 7 || j == 8 || j == 9 ||
        j == 10 || j == 11 || j == 12 || j == 13 || j == 14 || j == 15;
  }

  lemma ShiftedRowD(j: nat)
    requires j < 16
    ensures Row(13)[j] == Xor(Row(13)[0], Row(0)[j])
  {
    assert j == 0 || j == 1 || j == 2 || j == 3 || j == 4 || j == 5 || j == 6 || j == 7 || j == 8 || j == 9 ||
        j == 10 || j == 11 || j == 12 || j == 13 || j == 14 || j == 15;
  }

  lemma ShiftedRowE(j: nat)
    requires j < 16
    ensures Row(14)[j] == Xor(Row(14)[0], Row(0)[j])
  {
    assert j == 0 || j == 1 || j == 2 || j == 3 || j == 4 || j == 5 || j == 6 || j == 7 || j == 8 || j == 9 ||
        j == 10 || j == 11 || j == 12 || j == 13 || j == 14 || j == 15;
  }

  lemma ShiftedRowF(j: nat)
    requires j < 16
    ensures Row(15)[j] == Xor(Row(15)[0], Row(0)[j])
  {
    assert j == 0 || j == 1 || j == 2 || j == 3 || j == 4 || j == 5 || j == 6 || j == 7 || j == 8 || j == 9 ||
        j == 10 || j == 11 || j == 12 || j == 13 || j == 14 || j == 15;
  }

  /** The table is linear in the two halves of its index. */
  lemma TableIsLinear(r: nat, j: nat)
    requires r < 16 && j < 16
    ensures Row(r)[j] == Xor(Row(r)[0], Row(0)[j])
  {
    match r {
      case 0 => XorWithZero(Row(0)[j]);
      case 1 => ShiftedRow1(j);
      case 2 => ShiftedRow2(j);
      case 3 => ShiftedRow3(j);
      case 4 => ShiftedRow4(j);
      case 5 => ShiftedRow5(j);
      case 6 => ShiftedRow6(j);
      case 7 => ShiftedRow7(j);
      case 8 => ShiftedRow8(j);
      case 9 => ShiftedRow9(j);
      case 10 => ShiftedRowA(j);
      case 11 => ShiftedRowB(j);
      case 12 => ShiftedRowC(j);
      case 13 => ShiftedRowD(j);
      case 14 => ShiftedRowE(j);
      case 15 => ShiftedRowF(j);
    }
  }

  lemma XorWithZero(a: bv64)
    ensures Row(0)[0] == 0 && Xor(0, a) == a
  {
  }

  lemma LowHalf(x: bv8)
    requires x & 0xf0 == 0
    ensures Row(0)[(x & 15) as nat] == Step8(x as bv64)
  {
    hide Step8, Row;
    LowEntries0();
    LowEntries1();
    LowEntries2();
    LowEntries3();
    LowEntries4();
    LowEntries5();
    LowEntries6();
    LowEntries7();
    assert x == 0 || x == 1 || x == 2 || x == 3 || x == 4 || x == 5 || x == 6 || x == 7 || x == 8 || x == 9 ||
        x == 10 || x == 11 || x == 12 || x == 13 || x == 14 || x == 15;
  }

  lemma HighHalf(x: bv8)
    requires x & 0x0f == 0
    ensures Row((x >> 4) as nat)[0] == Step8(x as bv64)
  {
    hide Step8, Row;
    HighEntries0();
    HighEntries1();
    HighEntries2();
    HighEntries3();
    HighEntries4();
    HighEntries5();
    HighEntries6();
    HighEntries7();
    assert x == 0 || x == 16 || x == 32 || x == 48 || x == 64 || x == 80 || x == 96 || x == 112 || x == 128 ||
        x == 144 || x == 160 || x == 176 || x == 192 || x == 208 || x == 224 || x == 240;
  }

  /** Every entry of the table is eight steps of its index. */
  lemma TableIsEightSteps(x: bv8)
    ensures Table(x) == Step8(x as bv64)
  {
    hide Step8, Row, Xor;
    var high, low := x & 0xf0, x & 0x0f;
    TableIsLinear((x >> 4) as nat, (x & 15) as nat);
    Halves(x);
    LowHalf(low);
    HighHalf(high);
    Step8Linear(high as bv64, low as bv64);
  }

  lemma Halves(x: bv8)
    ensures x as bv64 == Xor((x & 0xf0) as bv64, (x & 0x0f) as bv64)
    ensures (x & 0xf0) & 0x0f == 0 && (x & 0x0f) & 0xf0 == 0
    ensures (x & 0xf0) >> 4 == x >> 4 && (x & 0x0f) & 15 == x & 15
  {
  }

  // ---------- The loop ----------

  function LowByte(c: bv64): bv64 {
    c & 0xff
  }

  function HighBytes(c: bv64): bv64 {
    c & 0xffff_ffff_ffff_ff00
  }

  function Without8(c: bv64): bv64 {
    c >> 8
  }

  lemma SplitByte(c: bv64)
    ensures c == Xor(LowByte(c), HighBytes(c))
    ensures HighBytes(c) & 0xff == 0 && Without8(HighBytes(c)) == Without8(c)
  {
  }

  lemma IndexByte(c: bv64, b: bv8)
    ensures ((c & 0xff) as bv8 ^ b) as bv64 == Xor(LowByte(c), b as bv64)
  {
  }

  lemma Step8High(x: bv64)
    requires x & 0xff == 0
    ensures Step8(x) == Without8(x)
  {
  }

  /** One turn of the loop of crc64. */
  function Turn(c: bv64, b: bv8): bv64 {
    Table((c & 0xff) as bv8 ^ b) ^ (c >> 8)
  }

  lemma TurnIs(c: bv64, b: bv8)
    ensures Turn(c, b) == Xor(Table((c & 0xff) as bv8 ^ b), Without8(c))
  {
    hide Table;
  }

  lemma TurnDoes(c: bv64, b: bv8)
    ensures Turn(c, b) == Table((c & 0xff) as bv8 ^ b) ^ (c >> 8)
  {
    hide Table;
  }

  /** One turn is eight steps once the byte has been added. */
  lemma TurnIsEightSteps(c: bv64, b: bv8)
    ensures Turn(c, b) == Step8(Xor(c, b as bv64))
  {
    hide Turn, Table, Step8, Xor, LowByte, HighBytes, Without8;
    var low, high, word := LowByte(c), HighBytes(c), b as bv64;
    TurnIs(c, b);
    TableIsEightSteps((c & 0xff) as bv8 ^ b);
    IndexByte(c, b);
    SplitByte(c);
    Step8High(high);
    Step8Linear(Xor(low, word), high);
    XorAssoc(low, word, high);
    XorComm(word, high);
    XorAssoc(low, high, word);
  }

  /** One turn is polynomial division by the eight bits of its byte. */
  lemma TurnDivides(c: bv64, b: bv8)
    ensures Turn(c, b) == DivideBits(c, BitsOf(b))
  {
    hide Turn, Step8, Xor, DivideBits, BitsOf;
    TurnIsEightSteps(c, b);
    ByteAtOnce(c, b);
  }

  lemma {:induction false} AllBitsSplit(a: seq<bv8>, b: seq<bv8>)
    ensures AllBits(a + b) == AllBits(a) + AllBits(b)
    decreases a
  {
    hide BitsOf;
    if a == [] {
      assert a + b == b;
    } else {
      assert (a + b)[1..] == a[1..] + b;
      AllBitsSplit(a[1..], b);
    }
  }

  /** The checksum of a byte string, started from a register: the message divided bit by bit. */
  function Checksum(c: bv64, s: seq<bv8>): bv64 {
    DivideBits(c, AllBits(s))
  }

  /** Checksums can be taken piece by piece. */
  lemma ChecksumSplit(c: bv64, a: seq<bv8>, b: seq<bv8>)
    ensures Checksum(c, a + b) == Checksum(Checksum(c, a), b)
  {
    hide DivideBits, AllBits;
    AllBitsSplit(a, b);
    DivideSplit(c, AllBits(a), AllBits(b));
  }

  lemma ChecksumOne(c: bv64, b: bv8)
    ensures Checksum(c, [b]) == Turn(c, b)
  {
    hide Turn, DivideBits, BitsOf;
    TurnDivides(c, b);
    assert [b][1..] == [];
    assert AllBits([b]) == BitsOf(b) + [] == BitsOf(b);
  }

  /** crc64: the table-driven loop divides the message by the polynomial, bit by bit. */
  method Crc64(crc: bv64, s: seq<bv8>) returns (r: bv64)
    ensures r == Checksum(crc, s)
  {
    hide Table, Checksum, Turn;
    r := crc;
    var j := 0;
    ChecksumNothing(crc);
    while j < |s|
      invariant 0 <= j <= |s| && r == Checksum(crc, s[..j])
    {
      var byte := s[j];
      ChecksumSplit(crc, s[..j], [byte]);
      ChecksumOne(r, byte);
      TurnDoes(r, byte);
      assert s[..j + 1] == s[..j] + [byte];
      r := Table((r & 0xff) as bv8 ^ byte) ^ (r >> 8);
      j := j + 1;
    }
    assert s[..j] == s;
  }

  lemma ChecksumNothing(c: bv64)
    ensures Checksum(c, []) == c
  {
  }

  // ---------- What the checksum detects ----------

  lemma StepZero(z: bv64)
    requires Step(z) == 0
    ensures z == 0
  {
    if z & 1 == 1 {
      OddStepIsLarge(z);
      assert false;
    }
  }

  /** Dividing by the polynomial sets the top coefficient. */
  lemma OddStepIsLarge(z: bv64)
    requires z & 1 == 1
    ensures Step(z) >= 0x8000_0000_0000_0000
  {
  }

  lemma Step8Zero(z: bv64)
    requires Step8(z) == 0
    ensures z == 0
  {
    hide Step;
    var z1 := Step(z);
    var z2 := Step(z1);
    var z3 := Step(z2);
    var z4 := Step(z3);
    var z5 := Step(z4);
    var z6 := Step(z5);
    var z7 := Step(z6);
    StepZero(z7);
    StepZero(z6);
    StepZero(z5);
    StepZero(z4);
    StepZero(z3);
    StepZero(z2);
    StepZero(z1);
    StepZero(z);
  }

  predicate Reaches(y: bv64, s: bv64) {
    y >= s
  }

  /** The difference of two bytes, as a register. */
  function Apart(b: bv8, b': bv8): bv64 {
    (b ^ b') as bv64
  }

  /** The difference of two registers goes through the loop by itself. */
  lemma TurnDifference(c: bv64, c': bv64, b: bv8, b': bv8)
    ensures Xor(Turn(c, b), Turn(c', b')) == Step8(Xor(Xor(c, c'), Apart(b, b')))
  {
    hide Turn, Step8, Xor, Apart;
    TurnIsEightSteps(c, b);
    TurnIsEightSteps(c', b');
    Step8Linear(Xor(c, b as bv64), Xor(c', b' as bv64));
    XorSwap(c, b as bv64, c', b' as bv64);
    ByteXor(b, b');
  }

  lemma ByteXor(b: bv8, b': bv8)
    ensures Xor(b as bv64, b' as bv64) == Apart(b, b')
  {
  }

  lemma DifferenceIsZero(x: bv64, y: bv64)
    ensures Xor(x, y) == 0 <==> x == y
  {
    hide Xor;
    XorAssoc(x, y, y);
    XorSelf(x);
    XorSelf(y);
  }

  lemma ChecksumNext(c: bv64, b: bv8, s: seq<bv8>)
    ensures Checksum(c, [b] + s) == Checksum(Turn(c, b), s)
  {
    hide Checksum, Turn;
    ChecksumSplit(c, [b], s);
    ChecksumOne(c, b);
  }

  lemma ChecksumCons(c: bv64, s: seq<bv8>)
    requires s != []
    ensures Checksum(c, s) == Checksum(Turn(c, s[0]), s[1..])
  {
    hide Checksum, Turn;
    assert s == [s[0]] + s[1..];
    ChecksumNext(c, s[0], s[1..]);
  }

  /** Two registers that differ still differ after the same bytes. */
  lemma {:induction false} RegistersStayApart(c: bv64, c': bv64, s: seq<bv8>)
    requires c != c'
    ensures Checksum(c, s) != Checksum(c', s)
    decreases s
  {
    hide Checksum, Turn, Step8, Xor, Apart;
    if s == [] {
      ChecksumNothing(c);
      ChecksumNothing(c');
    } else {
      var b := s[0];
      TurnDifference(c, c', b, b);
      SameByte(Xor(c, c'), b);
      DifferenceIsZero(c, c');
      DifferenceIsZero(Turn(c, b), Turn(c', b));
      if Turn(c, b) == Turn(c', b) {
        Step8Zero(Xor(c, c'));
        assert false;
      }
      RegistersStayApart(Turn(c, b), Turn(c', b), s[1..]);
      ChecksumCons(c, s);
      ChecksumCons(c', s);
    }
  }

  lemma SameByte(d: bv64, b: bv8)
    ensures Xor(d, Apart(b, b)) == d
  {
  }

  /** The weight 256^m. */
  function Weight(m: nat): bv64 {
    match m
    case 0 => 1
    case 1 => 0x100
    case 2 => 0x1_0000
    case 3 => 0x100_0000
    case 4 => 0x1_0000_0000
    case 5 => 0x100_0000_0000
    case 6 => 0x1_0000_0000_0000
    case _ => 0x100_0000_0000_0000
  }

  /** One step loses at most one bit of the size of a register. */
  lemma StepFloor(y: bv64, s: bv64)
    requires Reaches(y, s)
    ensures Reaches(Step(y), Rest(s))
  {
    if y & 1 == 1 {
      OddStepIsLarge(y);
      ShiftedIsSmall(s);
    }
  }

  lemma ShiftedIsSmall(s: bv64)
    ensures s >> 1 < 0x8000_0000_0000_0000
  {
  }

  lemma Step8Floor(y: bv64, s: bv64)
    requires Reaches(y, s)
    ensures Reaches(Step8(y), Rest8(s))
  {
    hide Step, Rest, Reaches;
    StepFloor(y, s);
    var y1, s1 := Step(y), Rest(s);
    StepFloor(y1, s1);
    var y2, s2 := Step(y1), Rest(s1);
    StepFloor(y2, s2);
    var y3, s3 := Step(y2), Rest(s2);
    StepFloor(y3, s3);
    var y4, s4 := Step(y3), Rest(s3);
    StepFloor(y4, s4);
    var y5, s5 := Step(y4), Rest(s4);
    StepFloor(y5, s5);
    var y6, s6 := Step(y5), Rest(s5);
    StepFloor(y6, s6);
    StepFloor(Step(y6), Rest(s6));
  }

  function Rest8(s: bv64): bv64 {
    Rest(Rest(Rest(Rest(Rest(Rest(Rest(Rest(s))))))))
  }

  /** A difference of at least 256^m is still one of 256^(m-1) after the next byte, whatever that is. */
  lemma Fades(d: bv64, b: bv8, b': bv8, m: nat)
    requires 1 <= m <= 7 && Reaches(d, Weight(m))
    ensures Reaches(Step8(Xor(d, Apart(b, b'))), Weight(m - 1))
  {
    hide Step8, Xor, Apart, Reaches, Weight, Rest8;
    ByteLeavesWeight(d, b ^ b', m);
    ApartIs(b, b');
    Step8Floor(Xor(d, Apart(b, b')), Weight(m));
    WeightDown(m);
  }

  lemma ApartIs(b: bv8, b': bv8)
    ensures Apart(b, b') == (b ^ b') as bv64
  {
  }

  lemma WeightDown(m: nat)
    requires 1 <= m <= 7
    ensures Rest8(Weight(m)) == Weight(m - 1)
  {
  }

  lemma ByteLeavesWeight(d: bv64, x: bv8, m: nat)
    requires 1 <= m <= 7 && Reaches(d, Weight(m))
    ensures Reaches(Xor(d, x as bv64), Weight(m))
  {
    assert m == 1 || m == 2 || m == 3 || m == 4 || m == 5 || m == 6 || m == 7;
  }

  /** A difference that starts in this byte fills the register to the top. */
  lemma FirstDifference(c: bv64, b: bv8, b': bv8)
    requires b != b'
    ensures Reaches(Step8(Xor(Xor(c, c), Apart(b, b'))), Weight(7))
  {
    hide Step8, Xor, Apart, Reaches, Weight;
    BytesDiffer(b, b');
    NoDifference(c, b, b');
    ByteFills(b ^ b');
  }

  lemma ByteFills(x: bv8)
    requires x != 0
    ensures Reaches(Step8(x as bv64), Weight(7))
  {
  }

  lemma BytesDiffer(b: bv8, b': bv8)
    requires b != b'
    ensures b ^ b' != 0
  {
  }

  lemma NoDifference(c: bv64, b: bv8, b': bv8)
    ensures Xor(Xor(c, c), Apart(b, b')) == (b ^ b') as bv64
  {
  }

  lemma WeightPositive(d: bv64, m: nat)
    requires Reaches(d, Weight(m))
    ensures d != 0
  {
  }

  lemma {:induction false} DifferenceSurvives(c: bv64, c': bv64, w: seq<bv8>, w': seq<bv8>, m: nat)
    requires |w| == |w'| <= m <= 7 && Reaches(Xor(c, c'), Weight(m))
    ensures Checksum(c, w) != Checksum(c', w')
    decreases w
  {
    hide Checksum, Turn, Step8, Xor, Apart, Reaches, Weight;
    if w == [] {
      WeightPositive(Xor(c, c'), m);
      DifferenceIsZero(c, c');
      ChecksumNothing(c);
      ChecksumNothing(c');
    } else {
      TurnDifference(c, c', w[0], w'[0]);
      Fades(Xor(c, c'), w[0], w'[0], m);
      ChecksumCons(c, w);
      ChecksumCons(c', w');
      DifferenceSurvives(Turn(c, w[0]), Turn(c', w'[0]), w[1..], w'[1..], m - 1);
    }
  }

  lemma {:induction false} WindowDetected(c: bv64, w: seq<bv8>, w': seq<bv8>)
    requires |w| == |w'| <= 8 && w != w'
    ensures Checksum(c, w) != Checksum(c, w')
    decreases w
  {
    hide Checksum, Turn, Step8, Xor, Apart, Reaches, Weight;
    ChecksumCons(c, w);
    ChecksumCons(c, w');
    if w[0] == w'[0] {
      WindowDetected(Turn(c, w[0]), w[1..], w'[1..]);
    } else {
      TurnDifference(c, c, w[0], w'[0]);
      FirstDifference(c, w[0], w'[0]);
      DifferenceSurvives(Turn(c, w[0]), Turn(c, w'[0]), w[1..], w'[1..], 7);
    }
  }

  /** Damage confined to eight consecutive bytes never goes unnoticed, wherever it is. */
  lemma BurstDetected(c: bv64, before: seq<bv8>, w: seq<bv8>, w': seq<bv8>, after: seq<bv8>)
    requires |w| == |w'| <= 8 && w != w'
    ensures Checksum(c, before + w + after) != Checksum(c, before + w' + after)
  {
    hide Checksum;
    ChecksumSplit(c, before + w, after);
    ChecksumSplit(c, before, w);
    ChecksumSplit(c, before + w', after);
    ChecksumSplit(c, before, w');
    var r := Checksum(c, before);
    WindowDetected(r, w, w');
    RegistersStayApart(Checksum(r, w), Checksum(r, w'), after);
  }

  /** The check value the header of crc64.c gives for "123456789" is the checksum started from 0, the initial value
      of its first line, and not the one started from all ones, which its list of parameters names. */
  lemma CheckValue()
    ensures Checksum(0, [0x31, 0x32, 0x33, 0x34, 0x35, 0x36, 0x37, 0x38, 0x39]) == 0xe9c6d914c4b8d9ca
    ensures Checksum(0xffff_ffff_ffff_ffff, [0x31, 0x32, 0x33, 0x34, 0x35, 0x36, 0x37, 0x38, 0x39])
              != 0xe9c6d914c4b8d9ca
  {
    hide Checksum, Turn;
    FirstTurns();
    MiddleTurns();
    LastTurns();
    var s0 := [0x31, 0x32, 0x33, 0x34, 0x35, 0x36, 0x37, 0x38, 0x39];
    RegistersStayApart(0, 0xffff_ffff_ffff_ffff, s0);
    ChecksumCons(0, s0);
    var s1 := s0[1..];
    ChecksumCons(0xfdc17184a9f739fa, s1);
    var s2 := s1[1..];
    ChecksumCons(0xe10364513a98ed96, s2);
    var s3 := s2[1..];
    ChecksumCons(0xd5bcfb814479b1ac, s3);
    var s4 := s3[1..];
    ChecksumCons(0x43593c5dcda521f0, s4);
    var s5 := s4[1..];
    ChecksumCons(0xf0758513239c7e0d, s5);
    var s6 := s5[1..];
    ChecksumCons(0xa3a90925b2ab4903, s6);
    var s7 := s6[1..];
    ChecksumCons(0x47824d362431ad45, s7);
    var s8 := s7[1..];
    ChecksumCons(0x49ec20b315e86dc2, s8);
    var s9 := s8[1..];
    ChecksumNothing(0xe9c6d914c4b8d9ca);
    assert s9 == [];
  }

  lemma FirstTurns()
    ensures Turn(0, 0x31) == 0xfdc17184a9f739fa
    ensures Turn(0xfdc17184a9f739fa, 0x32) == 0xe10364513a98ed96
    ensures Turn(0xe10364513a98ed96, 0x33) == 0xd5bcfb814479b1ac
  {
  }

  lemma MiddleTurns()
    ensures Turn(0xd5bcfb814479b1ac, 0x34) == 0x43593c5dcda521f0
    ensures Turn(0x43593c5dcda521f0, 0x35) == 0xf0758513239c7e0d
    ensures Turn(0xf0758513239c7e0d, 0x36) == 0xa3a90925b2ab4903
  {
  }

  lemma LastTurns()
    ensures Turn(0xa3a90925b2ab4903, 0x37) == 0x47824d362431ad45
    ensures Turn(0x47824d362431ad45, 0x38) == 0x49ec20b315e86dc2
    ensures Turn(0x49ec20b315e86dc2, 0x39) == 0xe9c6d914c4b8d9ca
  {
  }

  // ---------- Division as polynomials divide ----------

  /** The register with only the coefficient of x^e. */
  function OneBit(e: nat): bv64 {
    if e == 0 then 0x8000_0000_0000_0000 else Rest(OneBit(e - 1))
  }

  function Meet(a: bv64, b: bv64): bv64 {
    a & b
  }

  predicate Coefficient(c: bv64, e: nat) {
    Meet(c, OneBit(e)) != 0
  }

  /** The polynomial a register stands for. */
  function Coefficients(c: bv64): Poly {
    set e: nat | e < 64 && Coefficient(c, e)
  }

  /** The divisor, with its leading term. */
  const GENERATOR: Poly := {
    0, 3, 5, 7, 8, 10, 12, 13, 16, 19, 22, 23, 26, 28, 31, 32, 34, 36, 37, 41, 44, 46, 47, 48, 49, 52, 55,
    56, 58, 59, 61, 63, 64}

  function Back(c: bv64): bv64 {
    c << 1
  }

  lemma MeetRest(a: bv64, o: bv64)
    ensures Meet(a, Rest(o)) == Rest(Meet(Back(a), o))
  {
  }

  lemma MeetFirst(a: bv64)
    ensures Meet(a, 0x8000_0000_0000_0000) == 0 || Meet(a, 0x8000_0000_0000_0000) == 0x8000_0000_0000_0000
  {
  }

  /** A register meets a single coefficient in all of it or in nothing. */
  lemma {:induction false} AllOrNothing(a: bv64, e: nat)
    ensures Meet(a, OneBit(e)) == 0 || Meet(a, OneBit(e)) == OneBit(e)
    decreases e
  {
    hide Meet, Rest, Back;
    if e == 0 {
      MeetFirst(a);
    } else {
      MeetRest(a, OneBit(e - 1));
      AllOrNothing(Back(a), e - 1);
      RestNothing();
    }
  }

  lemma RestNothing()
    ensures Rest(0) == 0
  {
  }

  function Quarter(x: bv64): bv64 {
    x & 0xffff
  }

  function Up16(x: bv64): bv64 {
    x >> 16
  }

  lemma QuarterMeetXor(a: bv64, b: bv64, o: bv64)
    ensures Quarter(Meet(Xor(a, b), o)) == Quarter(Xor(Meet(a, o), Meet(b, o)))
  {
  }

  lemma Up16Meet(a: bv64, b: bv64)
    ensures Up16(Meet(a, b)) == Meet(Up16(a), Up16(b))
  {
  }

  lemma Up16Xor(a: bv64, b: bv64)
    ensures Up16(Xor(a, b)) == Xor(Up16(a), Up16(b))
  {
  }

  lemma SameQuarters(x: bv64, y: bv64)
    requires Quarter(x) == Quarter(y) && Quarter(Up16(x)) == Quarter(Up16(y))
    ensures Low(x) == Low(y)
  {
  }

  lemma LowMeetXor(a: bv64, b: bv64, o: bv64)
    ensures Low(Meet(Xor(a, b), o)) == Low(Xor(Meet(a, o), Meet(b, o)))
  {
    hide Meet, Xor, Quarter, Up16, Low;
    QuarterMeetXor(a, b, o);
    QuarterMeetXor(Up16(a), Up16(b), Up16(o));
    Up16Meet(Xor(a, b), o);
    Up16Xor(a, b);
    Up16Xor(Meet(a, o), Meet(b, o));
    Up16Meet(a, o);
    Up16Meet(b, o);
    SameQuarters(Meet(Xor(a, b), o), Xor(Meet(a, o), Meet(b, o)));
  }

  lemma HighMeet(a: bv64, o: bv64)
    ensures High(Meet(a, o)) == Meet(High(a), High(o))
  {
  }

  lemma MeetXor(a: bv64, b: bv64, o: bv64)
    ensures Meet(Xor(a, b), o) == Xor(Meet(a, o), Meet(b, o))
  {
    hide Meet, Xor, Low, High;
    var x, y := Meet(Xor(a, b), o), Xor(Meet(a, o), Meet(b, o));
    LowMeetXor(a, b, o);
    HighMeet(Xor(a, b), o);
    HighLinear(a, b);
    HighLinear(Meet(a, o), Meet(b, o));
    HighMeet(a, o);
    HighMeet(b, o);
    LowMeetXor(High(a), High(b), High(o));
    LowOfHigh(x);
    LowOfHigh(y);
    SameHalves(x, y);
  }

  lemma XorSelf(a: bv64)
    ensures Xor(a, a) == 0 && Xor(a, 0) == a && Xor(0, a) == a
  {
  }

  /** Exclusive or adds the polynomials. */
  lemma CoefficientXor(a: bv64, b: bv64, e: nat)
    ensures Coefficient(Xor(a, b), e) == (Coefficient(a, e) != Coefficient(b, e))
  {
    hide Meet, Xor, OneBit;
    MeetXor(a, b, OneBit(e));
    AllOrNothing(a, e);
    AllOrNothing(b, e);
    XorSelf(OneBit(e));
    XorSelf(0);
  }

  lemma OneBits0()
    ensures OneBit(0) == 0x8000000000000000
    ensures OneBit(1) == 0x4000000000000000
    ensures OneBit(2) == 0x2000000000000000
    ensures OneBit(3) == 0x1000000000000000
    ensures OneBit(4) == 0x0800000000000000
    ensures OneBit(5) == 0x0400000000000000
    ensures OneBit(6) == 0x0200000000000000
    ensures OneBit(7) == 0x0100000000000000
  {
    assert OneBit(1) == Rest(OneBit(0));
    assert OneBit(2) == Rest(OneBit(1));
    assert OneBit(3) == Rest(OneBit(2));
    assert OneBit(4) == Rest(OneBit(3));
    assert OneBit(5) == Rest(OneBit(4));
    assert OneBit(6) == Rest(OneBit(5));
    assert OneBit(7) == Rest(OneBit(6));
  }

  lemma PolyCoefficients0(e: nat)
    requires 0 <= e < 8
    ensures Coefficient(POLY, e) <==> e in GENERATOR
    ensures OneBit(e) != 0 && (e < 63 ==> Meet(OneBit(e), 0x0000000000000001) == 0)
  {
    hide OneBit;
    OneBits0();
    assert e == 0 || e == 1 || e == 2 || e == 3 || e == 4 || e == 5 || e == 6 || e == 7;
  }

  lemma OneBits1()
    requires OneBit(7) == 0x0100000000000000
    ensures OneBit(8) == 0x0080000000000000
    ensures OneBit(9) == 0x0040000000000000
    ensures OneBit(10) == 0x0020000000000000
    ensures OneBit(11) == 0x0010000000000000
    ensures OneBit(12) == 0x0008000000000000
    ensures OneBit(13) == 0x0004000000000000
    ensures OneBit(14) == 0x0002000000000000
    ensures OneBit(15) == 0x0001000000000000
  {
    assert OneBit(8) == Rest(OneBit(7));
    assert OneBit(9) == Rest(OneBit(8));
    assert OneBit(10) == Rest(OneBit(9));
    assert OneBit(11) == Rest(OneBit(10));
    assert OneBit(12) == Rest(OneBit(11));
    assert OneBit(13) == Rest(OneBit(12));
    assert OneBit(14) == Rest(OneBit(13));
    assert OneBit(15) == Rest(OneBit(14));
  }

  lemma PolyCoefficients1(e: nat)
    requires 8 <= e < 16
    ensures Coefficient(POLY, e) <==> e in GENERATOR
    ensures OneBit(e) != 0 && (e < 63 ==> Meet(OneBit(e), 0x0000000000000001) == 0)
  {
    hide OneBit;
    OneBits0();
    OneBits1();
    assert e == 8 || e == 9 || e == 10 || e == 11 || e == 12 || e == 13 || e == 14 || e == 15;
  }

  lemma OneBits2()
    requires OneBit(15) == 0x0001000000000000
    ensures OneBit(16) == 0x0000800000000000
    ensures OneBit(17) == 0x0000400000000000
    ensures OneBit(18) == 0x0000200000000000
    ensures OneBit(19) == 0x0000100000000000
    ensures OneBit(20) == 0x0000080000000000
    ensures OneBit(21) == 0x0000040000000000
    ensures OneBit(22) == 0x0000020000000000
    ensures OneBit(23) == 0x0000010000000000
  {
    assert OneBit(16) == Rest(OneBit(15));
    assert OneBit(17) == Rest(OneBit(16));
    assert OneBit(18) == Rest(OneBit(17));
    assert OneBit(19) == Rest(OneBit(18));
    assert OneBit(20) == Rest(OneBit(19));
    assert OneBit(21) == Rest(OneBit(20));
    assert OneBit(22) == Rest(OneBit(21));
    assert OneBit(23) == Rest(OneBit(22));
  }

  lemma PolyCoefficients2(e: nat)
    requires 16 <= e < 24
    ensures Coefficient(POLY, e) <==> e in GENERATOR
    ensures OneBit(e) != 0 && (e < 63 ==> Meet(OneBit(e), 0x0000000000000001) == 0)
  {
    hide OneBit;
    OneBits0();
    OneBits1();
    OneBits2();
    assert e == 16 || e == 17 || e == 18 || e == 19 || e == 20 || e == 21 || e == 22 || e == 23;
  }

  lemma OneBits3()
    requires OneBit(23) == 0x0000010000000000
    ensures OneBit(24) == 0x0000008000000000
    ensures OneBit(25) == 0x0000004000000000
    ensures OneBit(26) == 0x0000002000000000
    ensures OneBit(27) == 0x0000001000000000
    ensures OneBit(28) == 0x0000000800000000
    ensures OneBit(29) == 0x0000000400000000
    ensures OneBit(30) == 0x0000000200000000
    ensures OneBit(31) == 0x0000000100000000
  {
    assert OneBit(24) == Rest(OneBit(23));
    assert OneBit(25) == Rest(OneBit(24));
    assert OneBit(26) == Rest(OneBit(25));
    assert OneBit(27) == Rest(OneBit(26));
    assert OneBit(28) == Rest(OneBit(27));
    assert OneBit(29) == Rest(OneBit(28));
    assert OneBit(30) == Rest(OneBit(29));
    assert OneBit(31) == Rest(OneBit(30));
  }

  lemma PolyCoefficients3(e: nat)
    requires 24 <= e < 32
    ensures Coefficient(POLY, e) <==> e in GENERATOR
    ensures OneBit(e) != 0 && (e < 63 ==> Meet(OneBit(e), 0x0000000000000001) == 0)
  {
    hide OneBit;
    OneBits0();
    OneBits1();
    OneBits2();
    OneBits3();
    assert e == 24 || e == 25 || e == 26 || e == 27 || e == 28 || e == 29 || e == 30 || e == 31;
  }

  lemma OneBits4()
    requires OneBit(31) == 0x0000000100000000
    ensures OneBit(32) == 0x0000000080000000
    ensures OneBit(33) == 0x0000000040000000
    ensures OneBit(34) == 0x0000000020000000
    ensures OneBit(35) == 0x0000000010000000
    ensures OneBit(36) == 0x0000000008000000
    ensures OneBit(37) == 0x0000000004000000
    ensures OneBit(38) == 0x0000000002000000
    ensures OneBit(39) == 0x0000000001000000
  {
    assert OneBit(32) == Rest(OneBit(31));
    assert OneBit(33) == Rest(OneBit(32));
    assert OneBit(34) == Rest(OneBit(33));
    assert OneBit(35) == Rest(OneBit(34));
    assert OneBit(36) == Rest(OneBit(35));
    assert OneBit(37) == Rest(OneBit(36));
    assert OneBit(38) == Rest(OneBit(37));
    assert OneBit(39) == Rest(OneBit(38));
  }

  lemma PolyCoefficients4(e: nat)
    requires 32 <= e < 40
    ensures Coefficient(POLY, e) <==> e in GENERATOR
    ensures OneBit(e) != 0 && (e < 63 ==> Meet(OneBit(e), 0x0000000000000001) == 0)
  {
    hide OneBit;
    OneBits0();
    OneBits1();
    OneBits2();
    OneBits3();
    OneBits4();
    assert e == 32 || e == 33 || e == 34 || e == 35 || e == 36 || e == 37 || e == 38 || e == 39;
  }

  lemma OneBits5()
    requires OneBit(39) == 0x0000000001000000
    ensures OneBit(40) == 0x0000000000800000
    ensures OneBit(41) == 0x0000000000400000
    ensures OneBit(42) == 0x0000000000200000
    ensures OneBit(43) == 0x0000000000100000
    ensures OneBit(44) == 0x0000000000080000
    ensures OneBit(45) == 0x0000000000040000
    ensures OneBit(46) == 0x0000000000020000
    ensures OneBit(47) == 0x0000000000010000
  {
    assert OneBit(40) == Rest(OneBit(39));
    assert OneBit(41) == Rest(OneBit(40));
    assert OneBit(42) == Rest(OneBit(41));
    assert OneBit(43) == Rest(OneBit(42));
    assert OneBit(44) == Rest(OneBit(43));
    assert OneBit(45) == Rest(OneBit(44));
    assert OneBit(46) == Rest(OneBit(45));
    assert OneBit(47) == Rest(OneBit(46));
  }

  lemma PolyCoefficients5(e: nat)
    requires 40 <= e < 48
    ensures Coefficient(POLY, e) <==> e in GENERATOR
    ensures OneBit(e) != 0 && (e < 63 ==> Meet(OneBit(e), 0x0000000000000001) == 0)
  {
    hide OneBit;
    OneBits0();
    OneBits1();
    OneBits2();
    OneBits3();
    OneBits4();
    OneBits5();
    assert e == 40 || e == 41 || e == 42 || e == 43 || e == 44 || e == 45 || e == 46 || e == 47;
  }

  lemma OneBits6()
    requires OneBit(47) == 0x0000000000010000
    ensures OneBit(48) == 0x0000000000008000
    ensures OneBit(49) == 0x0000000000004000
    ensures OneBit(50) == 0x0000000000002000
    ensures OneBit(51) == 0x0000000000001000
    ensures OneBit(52) == 0x0000000000000800
    ensures OneBit(53) == 0x0000000000000400
    ensures OneBit(54) == 0x0000000000000200
    ensures OneBit(55) == 0x0000000000000100
  {
    assert OneBit(48) == Rest(OneBit(47));
    assert OneBit(49) == Rest(OneBit(48));
    assert OneBit(50) == Rest(OneBit(49));
    assert OneBit(51) == Rest(OneBit(50));
    assert OneBit(52) == Rest(OneBit(51));
    assert OneBit(53) == Rest(OneBit(52));
    assert OneBit(54) == Rest(OneBit(53));
    assert OneBit(55) == Rest(OneBit(54));
  }

  lemma PolyCoefficients6(e: nat)
    requires 48 <= e < 56
    ensures Coefficient(POLY, e) <==> e in GENERATOR
    ensures OneBit(e) != 0 && (e < 63 ==> Meet(OneBit(e), 0x0000000000000001) == 0)
  {
    hide OneBit;
    OneBits0();
    OneBits1();
    OneBits2();
    OneBits3();
    OneBits4();
    OneBits5();
    OneBits6();
    assert e == 48 || e == 49 || e == 50 || e == 51 || e == 52 || e == 53 || e == 54 || e == 55;
  }

  lemma OneBits7()
    requires OneBit(55) == 0x0000000000000100
    ensures OneBit(56) == 0x0000000000000080
    ensures OneBit(57) == 0x0000000000000040
    ensures OneBit(58) == 0x0000000000000020
    ensures OneBit(59) == 0x0000000000000010
    ensures OneBit(60) == 0x0000000000000008
    ensures OneBit(61) == 0x0000000000000004
    ensures OneBit(62) == 0x0000000000000002
    ensures OneBit(63) == 0x0000000000000001
  {
    assert OneBit(56) == Rest(OneBit(55));
    assert OneBit(57) == Rest(OneBit(56));
    assert OneBit(58) == Rest(OneBit(57));
    assert OneBit(59) == Rest(OneBit(58));
    assert OneBit(60) == Rest(OneBit(59));
    assert OneBit(61) == Rest(OneBit(60));
    assert OneBit(62) == Rest(OneBit(61));
    assert OneBit(63) == Rest(OneBit(62));
  }

  lemma PolyCoefficients7(e: nat)
    requires 56 <= e < 64
    ensures Coefficient(POLY, e) <==> e in GENERATOR
    ensures OneBit(e) != 0 && (e < 63 ==> Meet(OneBit(e), 0x0000000000000001) == 0)
  {
    hide OneBit;
    OneBits0();
    OneBits1();
    OneBits2();
    OneBits3();
    OneBits4();
    OneBits5();
    OneBits6();
    OneBits7();
    assert e == 56 || e == 57 || e == 58 || e == 59 || e == 60 || e == 61 || e == 62 || e == 63;
  }

  /** The constant POLY is that divisor without its leading term. */
  lemma PolyCoefficients(e: nat)
    requires e < 64
    ensures Coefficient(POLY, e) <==> e in GENERATOR
    ensures OneBit(e) != 0 && (e < 63 ==> Meet(OneBit(e), 0x0000000000000001) == 0)
  {
    hide Coefficient, OneBit, Meet;
    if e < 8 {
      PolyCoefficients0(e);
    } else if e < 16 {
      PolyCoefficients1(e);
    } else if e < 24 {
      PolyCoefficients2(e);
    } else if e < 32 {
      PolyCoefficients3(e);
    } else if e < 40 {
      PolyCoefficients4(e);
    } else if e < 48 {
      PolyCoefficients5(e);
    } else if e < 56 {
      PolyCoefficients6(e);
    } else {
      PolyCoefficients7(e);
    }
  }

  lemma LastBit()
    ensures OneBit(63) == 0x0000000000000001
  {
    OneBits0();
    OneBits1();
    OneBits2();
    OneBits3();
    OneBits4();
    OneBits5();
    OneBits6();
    OneBits7();
  }

  lemma RestMeets(c: bv64, o: bv64)
    requires Meet(o, 0x0000000000000001) == 0
    ensures Meet(Rest(c), Rest(o)) != 0 <==> Meet(c, o) != 0
  {
  }

  lemma RestHasNoFirst(c: bv64)
    ensures Meet(Rest(c), 0x8000_0000_0000_0000) == 0
  {
  }

  /** Shifting multiplies by x, apart from the overflow. */
  lemma CoefficientRest(c: bv64, e: nat)
    requires e < 64
    ensures Coefficient(Rest(c), e) <==> e > 0 && Coefficient(c, e - 1)
  {
    hide Meet, Rest, GENERATOR;
    if e == 0 {
      RestHasNoFirst(c);
    } else {
      PolyCoefficients(e - 1);
      RestMeets(c, OneBit(e - 1));
    }
  }

  lemma OverflowIs(c: bv64)
    ensures Overflow(c) == if Meet(c, 0x0000000000000001) != 0 then POLY else 0
  {
  }

  lemma NoCoefficient(e: nat)
    ensures !Coefficient(0, e)
  {
    hide OneBit;
  }

  /** One step is multiplication by x and, on overflow, subtraction of the divisor. */
  lemma CoefficientStep(c: bv64, e: nat)
    requires e < 64
    ensures Coefficient(Step(c), e) <==>
            ((e > 0 && Coefficient(c, e - 1)) != (Coefficient(c, 63) && e in GENERATOR))
  {
    hide Step, Rest, Xor, Overflow, GENERATOR, Meet, OneBit;
    StepIs(c);
    CoefficientXor(Rest(c), Overflow(c), e);
    CoefficientRest(c, e);
    OverflowIs(c);
    LastBit();
    PolyCoefficients(e);
    NoCoefficient(e);
  }

  lemma CoefficientBit(b: bool, e: nat)
    requires e < 64
    ensures Coefficient(Bit(b), e) <==> b && e == 63
  {
    hide OneBit;
    LastBit();
    NoCoefficient(e);
    PolyCoefficients(e);
    if b && e < 63 {
      MeetComm(OneBit(e), Bit(b));
    }
  }

  lemma MeetComm(a: bv64, b: bv64)
    ensures Meet(a, b) == Meet(b, a)
  {
  }

  /** Feeding a bit to the register divides the polynomial once. */
  lemma FeedDivides(c: bv64, b: bool)
    ensures Coefficients(Feed(c, b)) == DivideOnce(GENERATOR, 64, Coefficients(c), b)
  {
    hide Coefficient, Step, Xor, Bit, Add, Shift, GENERATOR;
    var taken := Xor(c, Bit(b));
    forall e: nat | e < 64
      ensures Coefficient(taken, e) <==> (Coefficient(c, e) != (b && e == 63))
      ensures Coefficient(Feed(c, b), e) <==>
              ((e > 0 && Coefficient(taken, e - 1)) != (Coefficient(taken, 63) && e in GENERATOR))
    {
      CoefficientXor(c, Bit(b), e);
      CoefficientBit(b, e);
      CoefficientStep(taken, e);
    }
    TakenIs(c, taken, b);
    ShiftedOver(taken, Feed(c, b));
  }

  lemma TakenIs(c: bv64, taken: bv64, b: bool)
    requires forall e: nat :: e < 64 ==> (Coefficient(taken, e) <==> (Coefficient(c, e) != (b && e == 63)))
    ensures Coefficients(taken) == Add(Coefficients(c), Term(b, 63))
  {
    hide Coefficient;
  }

  lemma ShiftedOver(taken: bv64, next: bv64)
    requires forall e: nat :: e < 64 ==>
      (Coefficient(next, e) <==> ((e > 0 && Coefficient(taken, e - 1)) != (Coefficient(taken, 63) && e in GENERATOR)))
    ensures Coefficients(next) ==
            Add(Shift(Coefficients(taken), 1), if 63 in Coefficients(taken) then GENERATOR else {})
  {
    GeneratorTop();
    hide Coefficient, GENERATOR;
    var over := 63 in Coefficients(taken);
    var r := Add(Shift(Coefficients(taken), 1), if over then GENERATOR else {});
    forall e: nat
      ensures e in Coefficients(next) <==> e in r
    {
      assert e in Shift(Coefficients(taken), 1) <==> 1 <= e && e - 1 in Coefficients(taken);
    }
  }

  lemma GeneratorTop()
    ensures 64 in GENERATOR && forall e :: e in GENERATOR ==> e <= 64
  {
  }

  /** The register after a message is its remainder: what is left when multiples of the divisor are taken off the
      message times x^64, together with the starting register carried along in front of it. */
  lemma {:induction false} RegisterIsRemainder(c: bv64, bits: seq<bool>) returns (quotient: seq<nat>)
    ensures Add(Dividend(bits, 64, Coefficients(c)), Coefficients(DivideBits(c, bits))) == Multiple(GENERATOR, quotient)
    decreases bits
  {
    hide Dividend, Add, Coefficients, Feed, DivideOnce, GENERATOR;
    if bits == [] {
      DivideNothing(c, bits);
      NothingDivided(64, Coefficients(c));
      quotient := [];
    } else {
      var front, last := bits[..|bits| - 1], bits[|bits| - 1];
      var q := RegisterIsRemainder(c, front);
      assert bits == front + [last];
      DivideSplit(c, front, [last]);
      FeedOne(DivideBits(c, front), [last]);
      DivideNothing(Feed(DivideBits(c, front), last), [last][1..]);
      FeedDivides(DivideBits(c, front), last);
      quotient := DivisionStep(GENERATOR, 64, front, last, Coefficients(c), Coefficients(DivideBits(c, front)), q);
    }
  }

  /** The checksum of a byte string is the remainder of its bits, as polynomials divide, and of lower degree than the
      divisor. */
  lemma ChecksumIsRemainder(c: bv64, s: seq<bv8>) returns (quotient: seq<nat>)
    ensures Add(Dividend(AllBits(s), 64, Coefficients(c)), Coefficients(Checksum(c, s))) == Multiple(GENERATOR, quotient)
    ensures forall e :: e in Coefficients(Checksum(c, s)) ==> e < 64
  {
    hide DivideBits, Dividend, Add, AllBits, Coefficient, GENERATOR;
    quotient := RegisterIsRemainder(c, AllBits(s));
  }
}
