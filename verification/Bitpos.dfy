/** redisBitpos: whole bytes, then whole words without the sought bit are skipped, and one zero-padded word is
    searched bit by bit. BITPOS on top of it. */
module Bitpos {
  import opened Bits
  import opened Popcount

  // ---------- Words of eight bytes ----------

  function Word8(b0: bv8, b1: bv8, b2: bv8, b3: bv8, b4: bv8, b5: bv8, b6: bv8, b7: bv8): bv64 {
    ((b0 as bv64) << 56) | ((b1 as bv64) << 48) | ((b2 as bv64) << 40) | ((b3 as bv64) << 32) |
    ((b4 as bv64) << 24) | ((b5 as bv64) << 16) | ((b6 as bv64) << 8) | (b7 as bv64)
  }

  /** A 64-bit load in either byte order. */
  function Load8(t: seq<bv8>, bigEndian: bool): bv64
    requires |t| == 8
  {
    if bigEndian then Word8(t[0], t[1], t[2], t[3], t[4], t[5], t[6], t[7])
    else Word8(t[7], t[6], t[5], t[4], t[3], t[2], t[1], t[0])
  }

  /** A byte at place j of a word, counted from the most significant. */
  function Place(b: bv8, j: nat): bv64
    requires j < 8
  {
    match j
    case 0 => (b as bv64) << 56
    case 1 => (b as bv64) << 48
    case 2 => (b as bv64) << 40
    case 3 => (b as bv64) << 32
    case 4 => (b as bv64) << 24
    case 5 => (b as bv64) << 16
    case 6 => (b as bv64) << 8
    case 7 => b as bv64
  }

  const ULONG_MAX: bv64 := 0xffff_ffff_ffff_ffff

  lemma WordIsZero(b0: bv8, b1: bv8, b2: bv8, b3: bv8, b4: bv8, b5: bv8, b6: bv8, b7: bv8)
    ensures Word8(b0, b1, b2, b3, b4, b5, b6, b7) == 0 <==>
            b0 == 0 && b1 == 0 && b2 == 0 && b3 == 0 && b4 == 0 && b5 == 0 && b6 == 0 && b7 == 0
  {
  }

  lemma WordIsFull(b0: bv8, b1: bv8, b2: bv8, b3: bv8, b4: bv8, b5: bv8, b6: bv8, b7: bv8)
    ensures Word8(b0, b1, b2, b3, b4, b5, b6, b7) == ULONG_MAX <==>
            b0 == 0xff && b1 == 0xff && b2 == 0xff && b3 == 0xff && b4 == 0xff && b5 == 0xff && b6 == 0xff && b7 == 0xff
  {
  }

  /** The byte, and the word, that holds no bit of the sought kind. */
  function SkipByte(bit: bool): bv8 {
    if bit then 0 else 0xff
  }

  function SkipWord(bit: bool): bv64 {
    if bit then 0 else ULONG_MAX
  }

  /** A word can be skipped exactly if each of its bytes can, whatever the byte order. */
  lemma SkipByBytes(t: seq<bv8>, bigEndian: bool, bit: bool)
    requires |t| == 8
    ensures Load8(t, bigEndian) == SkipWord(bit) <==> forall i :: 0 <= i < 8 ==> t[i] == SkipByte(bit)
  {
    hide Word8;
    WordIsZero(t[0], t[1], t[2], t[3], t[4], t[5], t[6], t[7]);
    WordIsZero(t[7], t[6], t[5], t[4], t[3], t[2], t[1], t[0]);
    WordIsFull(t[0], t[1], t[2], t[3], t[4], t[5], t[6], t[7]);
    WordIsFull(t[7], t[6], t[5], t[4], t[3], t[2], t[1], t[0]);
  }

  // ---------- The padded load ----------

  function ByteOr0(t: seq<bv8>, i: nat): bv8 {
    if i < |t| then t[i] else 0
  }

  function ShiftIn(word: bv64, b: bv8): bv64 {
    (word << 8) | (b as bv64)
  }

  /** What the loading loop holds after j bytes. */
  function Loaded(t: seq<bv8>, j: nat): bv64 {
    if j == 0 then 0 else ShiftIn(Loaded(t, j - 1), ByteOr0(t, j - 1))
  }

  lemma EightIn(b0: bv8, b1: bv8, b2: bv8, b3: bv8, b4: bv8, b5: bv8, b6: bv8, b7: bv8)
    ensures ShiftIn(ShiftIn(ShiftIn(ShiftIn(ShiftIn(ShiftIn(ShiftIn(ShiftIn(0, b0), b1), b2), b3), b4), b5), b6), b7) ==
            Word8(b0, b1, b2, b3, b4, b5, b6, b7)
  {
  }

  lemma LoadedIsWord(t: seq<bv8>)
    ensures Loaded(t, 8) == Word8(ByteOr0(t, 0), ByteOr0(t, 1), ByteOr0(t, 2), ByteOr0(t, 3),
                                  ByteOr0(t, 4), ByteOr0(t, 5), ByteOr0(t, 6), ByteOr0(t, 7))
  {
    hide Word8, ShiftIn, ByteOr0;
    EightIn(ByteOr0(t, 0), ByteOr0(t, 1), ByteOr0(t, 2), ByteOr0(t, 3),
            ByteOr0(t, 4), ByteOr0(t, 5), ByteOr0(t, 6), ByteOr0(t, 7));
    assert Loaded(t, 1) == ShiftIn(0, ByteOr0(t, 0));
    assert Loaded(t, 2) == ShiftIn(Loaded(t, 1), ByteOr0(t, 1));
    assert Loaded(t, 3) == ShiftIn(Loaded(t, 2), ByteOr0(t, 2));
    assert Loaded(t, 4) == ShiftIn(Loaded(t, 3), ByteOr0(t, 3));
    assert Loaded(t, 5) == ShiftIn(Loaded(t, 4), ByteOr0(t, 4));
    assert Loaded(t, 6) == ShiftIn(Loaded(t, 5), ByteOr0(t, 5));
    assert Loaded(t, 7) == ShiftIn(Loaded(t, 6), ByteOr0(t, 6));
  }

  // ---------- The scanning bit ----------

  /** The word with only bit k set, counted from the most significant; 0 when the bit has been shifted out. */
  function OneAt(k: nat): bv64 {
    if k < 64 then Place(Mask(k % 8), k / 8) else 0
  }

  function And(a: bv64, b: bv64): bv64 {
    a & b
  }

  function Half(a: bv64): bv64 {
    a >> 1
  }

  function And8(a: bv8, b: bv8): bv8 {
    a & b
  }

  lemma PlaceMeets0(x: bv8, b0: bv8, b1: bv8, b2: bv8, b3: bv8, b4: bv8, b5: bv8, b6: bv8, b7: bv8)
    ensures And(Place(x, 0), Word8(b0, b1, b2, b3, b4, b5, b6, b7)) == Place(And8(x, b0), 0)
  {
  }

  lemma PlaceMeets1(x: bv8, b0: bv8, b1: bv8, b2: bv8, b3: bv8, b4: bv8, b5: bv8, b6: bv8, b7: bv8)
    ensures And(Place(x, 1), Word8(b0, b1, b2, b3, b4, b5, b6, b7)) == Place(And8(x, b1), 1)
  {
  }

  lemma PlaceMeets2(x: bv8, b0: bv8, b1: bv8, b2: bv8, b3: bv8, b4: bv8, b5: bv8, b6: bv8, b7: bv8)
    ensures And(Place(x, 2), Word8(b0, b1, b2, b3, b4, b5, b6, b7)) == Place(And8(x, b2), 2)
  {
  }

  lemma PlaceMeets3(x: bv8, b0: bv8, b1: bv8, b2: bv8, b3: bv8, b4: bv8, b5: bv8, b6: bv8, b7: bv8)
    ensures And(Place(x, 3), Word8(b0, b1, b2, b3, b4, b5, b6, b7)) == Place(And8(x, b3), 3)
  {
  }

  lemma PlaceMeets4(x: bv8, b0: bv8, b1: bv8, b2: bv8, b3: bv8, b4: bv8, b5: bv8, b6: bv8, b7: bv8)
    ensures And(Place(x, 4), Word8(b0, b1, b2, b3, b4, b5, b6, b7)) == Place(And8(x, b4), 4)
  {
  }

  lemma PlaceMeets5(x: bv8, b0: bv8, b1: bv8, b2: bv8, b3: bv8, b4: bv8, b5: bv8, b6: bv8, b7: bv8)
    ensures And(Place(x, 5), Word8(b0, b1, b2, b3, b4, b5, b6, b7)) == Place(And8(x, b5), 5)
  {
  }

  lemma PlaceMeets6(x: bv8, b0: bv8, b1: bv8, b2: bv8, b3: bv8, b4: bv8, b5: bv8, b6: bv8, b7: bv8)
    ensures And(Place(x, 6), Word8(b0, b1, b2, b3, b4, b5, b6, b7)) == Place(And8(x, b6), 6)
  {
  }

  lemma PlaceMeets7(x: bv8, b0: bv8, b1: bv8, b2: bv8, b3: bv8, b4: bv8, b5: bv8, b6: bv8, b7: bv8)
    ensures And(Place(x, 7), Word8(b0, b1, b2, b3, b4, b5, b6, b7)) == Place(And8(x, b7), 7)
  {
  }

  /** Masking the loaded word with a byte at some place masks the byte loaded there. */
  lemma PlaceMeets(t: seq<bv8>, x: bv8, j: nat)
    requires j < 8
    ensures And(Place(x, j), Loaded(t, 8)) == Place(And8(x, ByteOr0(t, j)), j)
  {
    hide Place, And, And8, Word8, Loaded, ByteOr0;
    LoadedIsWord(t);
    var b0, b1, b2, b3 := ByteOr0(t, 0), ByteOr0(t, 1), ByteOr0(t, 2), ByteOr0(t, 3);
    var b4, b5, b6, b7 := ByteOr0(t, 4), ByteOr0(t, 5), ByteOr0(t, 6), ByteOr0(t, 7);
    match j {
      case 0 => PlaceMeets0(x, b0, b1, b2, b3, b4, b5, b6, b7);
      case 1 => PlaceMeets1(x, b0, b1, b2, b3, b4, b5, b6, b7);
      case 2 => PlaceMeets2(x, b0, b1, b2, b3, b4, b5, b6, b7);
      case 3 => PlaceMeets3(x, b0, b1, b2, b3, b4, b5, b6, b7);
      case 4 => PlaceMeets4(x, b0, b1, b2, b3, b4, b5, b6, b7);
      case 5 => PlaceMeets5(x, b0, b1, b2, b3, b4, b5, b6, b7);
      case 6 => PlaceMeets6(x, b0, b1, b2, b3, b4, b5, b6, b7);
      case 7 => PlaceMeets7(x, b0, b1, b2, b3, b4, b5, b6, b7);
    }
  }

  lemma HalfPlace(j: nat)
    requires j < 8
    ensures Half(Place(128, j)) == Place(64, j) && Half(Place(64, j)) == Place(32, j) &&
            Half(Place(32, j)) == Place(16, j) && Half(Place(16, j)) == Place(8, j) &&
            Half(Place(8, j)) == Place(4, j) && Half(Place(4, j)) == Place(2, j) && Half(Place(2, j)) == Place(1, j)
    ensures Half(Place(1, j)) == if j < 7 then Place(128, j + 1) else 0
  {
    assert j == 0 || j == 1 || j == 2 || j == 3 || j == 4 || j == 5 || j == 6 || j == 7;
  }

  lemma PlaceNotZero(b: bv8, j: nat)
    requires j < 8
    ensures Place(b, j) != 0 <==> b != 0
  {
  }

  /** Shifting the scanning bit moves it to the next position. */
  lemma NextOne(k: nat)
    requires k < 64
    ensures OneAt(k) != 0 && Half(OneAt(k)) == OneAt(k + 1)
  {
    hide Place, Half;
    var m, j := k % 8, k / 8;
    HalfPlace(j);
    PlaceNotZero(Mask(m), j);
    if m < 7 {
      assert (k + 1) % 8 == m + 1 && (k + 1) / 8 == j;
    } else {
      assert (k + 1) % 8 == 0 && (k + 1) / 8 == j + 1;
    }
  }

  lemma FirstOne()
    ensures OneAt(0) == !(ULONG_MAX >> 1)
  {
  }

  /** The scanning bit sees exactly the bits of the zero-padded bytes. */
  lemma ScanSees(t: seq<bv8>, k: nat)
    requires k < 64
    ensures And(OneAt(k), Loaded(t, 8)) != 0 <==> Padded(t, k)
  {
    hide Place, And, And8, Loaded, ByteOr0, Mask, Padded;
    var m, j := k % 8, k / 8;
    PlaceMeets(t, Mask(m), j);
    PlaceNotZero(And8(Mask(m), ByteOr0(t, j)), j);
    PaddedIs(t, k);
  }

  lemma PaddedIs(t: seq<bv8>, k: nat)
    ensures Padded(t, k) <==> And8(Mask(k % 8), ByteOr0(t, k / 8)) != 0
  {
    hide Mask, And8, HasBit;
    HasBitIs(ByteOr0(t, k / 8), k % 8);
    NoBits(k % 8);
  }

  lemma HasBitIs(b: bv8, m: nat)
    requires m < 8
    ensures HasBit(b, m) <==> And8(Mask(m), b) != 0
  {
    hide Mask;
  }

  /** A byte whose bits are all of one kind. */
  lemma UniformByte(b: bv8, bit: bool)
    requires forall m :: 0 <= m < 8 ==> HasBit(b, m) != bit
    ensures b == SkipByte(bit)
  {
    assert HasBit(b, 0) != bit && HasBit(b, 1) != bit && HasBit(b, 2) != bit && HasBit(b, 3) != bit;
    assert HasBit(b, 4) != bit && HasBit(b, 5) != bit && HasBit(b, 6) != bit && HasBit(b, 7) != bit;
    EightBits(b);
  }

  lemma EightBits(b: bv8)
    ensures b & 128 == 0 && b & 64 == 0 && b & 32 == 0 && b & 16 == 0 && b & 8 == 0 && b & 4 == 0 && b & 2 == 0 && b & 1 == 0
            ==> b == 0
    ensures b & 128 != 0 && b & 64 != 0 && b & 32 != 0 && b & 16 != 0 && b & 8 != 0 && b & 4 != 0 && b & 2 != 0 && b & 1 != 0
            ==> b == 0xff
  {
  }

  lemma SkippedByte(bit: bool, m: nat)
    requires m < 8
    ensures HasBit(SkipByte(bit), m) != bit
  {
  }

  /** Sixty-four padded bits without the sought one: the bytes they come from can all be skipped, and the last of
      them is not padding when a clear bit is sought. */
  lemma NothingFound(t: seq<bv8>, bit: bool)
    requires forall k: nat :: k < 64 ==> Padded(t, k) != bit
    ensures forall i: nat :: i < 8 ==> ByteOr0(t, i) == SkipByte(bit)
  {
    hide HasBit;
    forall i: nat | i < 8
      ensures ByteOr0(t, i) == SkipByte(bit)
    {
      forall m | 0 <= m < 8
        ensures HasBit(ByteOr0(t, i), m) != bit
      {
        var k := 8 * i + m;
        assert Padded(t, k) != bit && k / 8 == i && k % 8 == m;
        NoBits(m);
      }
      UniformByte(ByteOr0(t, i), bit);
    }
  }

  // ---------- The search ----------

  /** The least position that holds the bit, in the string followed by endless zeros. */
  predicate IsFirst(s: seq<bv8>, bit: bool, pos: nat) {
    Padded(s, pos) == bit && forall k: nat :: k < pos ==> Padded(s, k) != bit
  }

  /** Nothing before byte at can hold the bit. */
  predicate Skipped(s: seq<bv8>, bit: bool, at: nat)
    requires at <= |s|
  {
    forall i: nat :: i < at ==> s[i] == SkipByte(bit)
  }

  lemma SkippedBits(s: seq<bv8>, bit: bool, at: nat)
    requires at <= |s| && Skipped(s, bit, at)
    ensures forall k: nat :: k < 8 * at ==> Padded(s, k) != bit
    ensures forall k: nat :: Padded(s, 8 * at + k) == Padded(s[at..], k)
  {
    hide HasBit, SkipByte;
    forall k: nat | k < 8 * at
      ensures Padded(s, k) != bit
    {
      SkippedByte(bit, k % 8);
    }
    forall k: nat
      ensures Padded(s, 8 * at + k) == Padded(s[at..], k)
    {
      assert (8 * at + k) / 8 == at + k / 8 && (8 * at + k) % 8 == k % 8;
    }
  }

  /** The word the search ends in is never one of the words that could be skipped: with a clear bit sought, fewer
      than eight bytes leave zero padding in it. */
  lemma SearchEnds(t: seq<bv8>, bit: bool)
    requires |t| >= 8 ==> exists i: nat :: i < 8 && t[i] != SkipByte(bit)
    requires forall k: nat :: k < 64 ==> Padded(t, k) != bit
    ensures bit && |t| < 8 && Loaded(t, 8) == 0
  {
    NothingFound(t, bit);
    forall i: nat | i < 8 && i < |t|
      ensures t[i] == SkipByte(bit)
    {
      assert ByteOr0(t, i) == SkipByte(bit);
    }
    assert ByteOr0(t, 7) == SkipByte(bit);
    LoadedIsWord(t);
    hide Word8;
    WordIsZero(ByteOr0(t, 0), ByteOr0(t, 1), ByteOr0(t, 2), ByteOr0(t, 3),
               ByteOr0(t, 4), ByteOr0(t, 5), ByteOr0(t, 6), ByteOr0(t, 7));
  }

  lemma NothingLoaded(t: seq<bv8>)
    requires Loaded(t, 8) == 0
    ensures forall k: nat :: k < 64 ==> !Padded(t, k)
  {
    hide Word8, Loaded, HasBit;
    LoadedIsWord(t);
    WordIsZero(ByteOr0(t, 0), ByteOr0(t, 1), ByteOr0(t, 2), ByteOr0(t, 3),
               ByteOr0(t, 4), ByteOr0(t, 5), ByteOr0(t, 6), ByteOr0(t, 7));
    forall k: nat | k < 64 && k < 8 * |t|
      ensures !Padded(t, k)
    {
      var j := k / 8;
      assert j == 0 || j == 1 || j == 2 || j == 3 || j == 4 || j == 5 || j == 6 || j == 7;
      assert ByteOr0(t, j) == 0;
      NoBits(k % 8);
    }
  }

  /** A zero word means no byte is left with a one: a full word of zeros would have been skipped. */
  lemma NoneLeft(t: seq<bv8>)
    requires |t| >= 8 ==> exists i: nat :: i < 8 && t[i] != SkipByte(true)
    requires Loaded(t, 8) == 0
    ensures |t| < 8 && forall k: nat :: !Padded(t, k)
  {
    NothingLoaded(t);
    SearchEnds(t, true);
  }

  method SkipBytes(s: seq<bv8>, address: nat, bit: bool) returns (c: nat)
    ensures c <= |s| && Skipped(s, bit, c)
  {
    var skipval := SkipByte(bit);
    c := 0;
    var count := |s|;
    while (address + c) % 8 != 0 && count != 0
      invariant c <= |s| && count == |s| - c && Skipped(s, bit, c)
      decreases count
    {
      if s[c] != skipval {
        break;
      }
      c := c + 1;
      count := count - 1;
    }
  }

  method SkipWords(s: seq<bv8>, from: nat, bigEndian: bool, bit: bool) returns (c: nat)
    requires from <= |s| && Skipped(s, bit, from)
    ensures from <= c <= |s| && Skipped(s, bit, c)
    ensures |s| - c >= 8 ==> exists i: nat :: i < 8 && s[c..][i] != SkipByte(bit)
  {
    hide SkipByte, SkipWord, Load8;
    var skipval := SkipWord(bit);
    c := from;
    var count := |s| - c;
    while count >= 8
      invariant from <= c <= |s| && count == |s| - c && Skipped(s, bit, c)
    {
      SkipByBytes(s[c..c + 8], bigEndian, bit);
      if Load8(s[c..c + 8], bigEndian) != skipval {
        var i :| 0 <= i < 8 && s[c..c + 8][i] != SkipByte(bit);
        assert s[c..][i] != SkipByte(bit);
        break;
      }
      forall i: nat | i < c + 8
        ensures s[i] == SkipByte(bit)
      {
        if i >= c {
          assert s[c..c + 8][i - c] == s[i];
        }
      }
      c := c + 8;
      count := count - 8;
    }
  }

  method LoadWord(t: seq<bv8>) returns (word: bv64)
    ensures word == Loaded(t, 8)
  {
    hide ShiftIn;
    word := 0;
    var c, count := 0, |t|;
    var j := 0;
    while j < 8
      invariant j <= 8 && c + count == |t| && c == (if j < |t| then j else |t|) && word == Loaded(t, j)
    {
      ShiftInIs(word, ByteOr0(t, j));
      word := word << 8;
      if count != 0 {
        word := word | (t[c] as bv64);
        c := c + 1;
        count := count - 1;
      }
      j := j + 1;
    }
  }

  lemma ShiftInIs(word: bv64, b: bv8)
    ensures ShiftIn(word, b) == (word << 8) | (b as bv64)
    ensures b == 0 ==> ShiftIn(word, b) == word << 8
  {
  }

  /** redisBitpos, for a string that starts at any address and a machine of either byte order: the position of the
      first bit of the sought kind, or -1 exactly when a one is sought and there is none. The panic at its end is
      never reached. */
  method RedisBitpos(s: seq<bv8>, address: nat, bit: bool, bigEndian: bool) returns (pos: int)
    ensures pos == -1 <==> bit && forall k: nat :: !Padded(s, k)
    ensures pos != -1 ==> 0 <= pos <= 8 * |s| && IsFirst(s, bit, pos)
  {
    hide HasBit, SkipByte, Loaded, And, Half, OneAt, Padded;
    var c := SkipBytes(s, address, bit);
    c := SkipWords(s, c, bigEndian, bit);
    pos := 8 * c;
    ghost var t := s[c..];
    SkippedBits(s, bit, c);
    var word := LoadWord(s[c..]);
    if bit && word == 0 {
      NoneLeft(t);
      NoneAnywhere(s, c);
      return -1;
    }
    FirstOne();
    var one := !(ULONG_MAX >> 1);
    ghost var k := 0;
    while one != 0
      invariant k <= 64 && one == OneAt(k) && pos == 8 * c + k
      invariant forall i: nat :: i < k ==> Padded(t, i) != bit
      decreases 64 - k
    {
      OneAtEnd(k);
      ScanSees(t, k);
      NextOne(k);
      if (And(one, word) != 0) == bit {
        FoundHere(s, bit, c, k);
        FoundInside(s, bit, pos);
        return;
      }
      pos := pos + 1;
      one := Half(one);
      k := k + 1;
    }
    OneAtEnd(k);
    SearchEnds(t, bit);
    assert false;
  }

  lemma OneAtEnd(k: nat)
    requires k <= 64
    ensures OneAt(k) == 0 <==> k == 64
  {
    hide Place, Half;
    if k < 64 {
      NextOne(k);
    }
  }

  lemma NoneAnywhere(s: seq<bv8>, c: nat)
    requires c <= |s|
    requires forall k: nat :: k < 8 * c ==> !Padded(s, k)
    requires forall k: nat :: Padded(s, 8 * c + k) == Padded(s[c..], k)
    requires forall k: nat :: !Padded(s[c..], k)
    ensures forall k: nat :: !Padded(s, k)
  {
    hide Padded;
    forall k: nat
      ensures !Padded(s, k)
    {
      if k >= 8 * c {
        assert Padded(s, 8 * c + (k - 8 * c)) == Padded(s[c..], k - 8 * c);
      }
    }
  }

  lemma FoundHere(s: seq<bv8>, bit: bool, c: nat, k: nat)
    requires c <= |s|
    requires forall i: nat :: i < 8 * c ==> Padded(s, i) != bit
    requires forall i: nat :: Padded(s, 8 * c + i) == Padded(s[c..], i)
    requires Padded(s[c..], k) == bit && forall i: nat :: i < k ==> Padded(s[c..], i) != bit
    ensures IsFirst(s, bit, 8 * c + k)
  {
    hide Padded;
    forall i: nat | i < 8 * c + k
      ensures Padded(s, i) != bit
    {
      if i >= 8 * c {
        assert Padded(s, 8 * c + (i - 8 * c)) == Padded(s[c..], i - 8 * c);
      }
    }
  }

  lemma FoundInside(s: seq<bv8>, bit: bool, pos: nat)
    requires IsFirst(s, bit, pos)
    ensures pos <= 8 * |s| && (bit ==> exists k: nat :: Padded(s, k))
  {
    hide BitAt;
    assert !Padded(s, 8 * |s|);
  }

  // ---------- BITPOS ----------

  datatype Window = Whole | From(start: int) | FromTo(start: int, end: int)

  function Bounds(window: Window, length: nat): (int, int) {
    match window
    case Whole => (0, length - 1)
    case From(start) => Clamp(start, length - 1, length)
    case FromTo(start, end) => Clamp(start, end, length)
  }

  /** The first position of the bit among the bytes from start to end. */
  predicate FirstWithin(s: seq<bv8>, bit: bool, start: nat, end: nat, pos: int)
    requires start <= end < |s|
  {
    8 * start <= pos < 8 * (end + 1) && BitAt(s, pos) == bit &&
    forall k: nat :: 8 * start <= k < pos ==> BitAt(s, k) != bit
  }

  predicate NoneWithin(s: seq<bv8>, bit: bool, start: nat, end: nat)
    requires start <= end < |s|
  {
    forall k: nat :: 8 * start <= k < 8 * (end + 1) ==> BitAt(s, k) != bit
  }

  /** Without a range all bytes are searched; with only a start, all from there on. */
  lemma BoundsMean(window: Window, length: nat)
    requires length > 0
    ensures window.Whole? ==> Bounds(window, length) == (0, length - 1)
    ensures window.From? ==> Bounds(window, length) == (Clamp(window.start, -1, length).0, length - 1)
    ensures window.FromTo? ==> Bounds(window, length) == Clamp(window.start, window.end, length)
  {
  }

  lemma BoundsInside(window: Window, length: nat)
    ensures 0 <= Bounds(window, length).0 && Bounds(window, length).1 < length
    ensures !window.FromTo? && Bounds(window, length).0 <= Bounds(window, length).1 ==> Bounds(window, length).1 == length - 1
  {
  }

  lemma WindowBit(s: seq<bv8>, start: nat, end: nat, k: nat)
    requires start <= end < |s| && k < 8 * (end + 1 - start)
    ensures BitAt(s, 8 * start + k) == Padded(s[start..end + 1], k)
  {
    hide HasBit;
    assert (8 * start + k) / 8 == start + k / 8 && (8 * start + k) % 8 == k % 8;
  }

  /** What the position found in a window means for the whole string. */
  lemma WindowAnswer(s: seq<bv8>, w: seq<bv8>, bit: bool, start: nat, end: nat, pos: int)
    requires start <= end < |s| && w == s[start..end + 1]
    requires pos == -1 <==> bit && forall k: nat :: !Padded(w, k)
    requires pos != -1 ==> 0 <= pos <= 8 * |w| && IsFirst(w, bit, pos)
    ensures 0 <= pos < 8 * |w| ==> FirstWithin(s, bit, start, end, 8 * start + pos)
    ensures pos == -1 || pos == 8 * |w| ==> NoneWithin(s, bit, start, end)
    ensures pos == 8 * |w| ==> !bit
  {
    assert !Padded(w, 8 * |w|);
    hide BitAt, Padded;
    forall k: nat | 8 * start <= k < 8 * (end + 1) && (pos == -1 || k < 8 * start + pos)
      ensures BitAt(s, k) != bit
    {
      WindowBit(s, start, end, k - 8 * start);
      assert Padded(w, k - 8 * start) != bit;
    }
    if 0 <= pos < 8 * |w| {
      WindowBit(s, start, end, pos);
    }
  }

  /** BITPOS of a string value. With no end given, a clear bit is always found, if only just past the string; with
      an end given it has to lie inside the range. An empty range holds neither kind of bit. */
  predicate IsAnswer(value: seq<bv8>, bit: bool, window: Window, pos: int) {
    var (start, end) := Bounds(window, |value|);
    0 <= start && end < |value| &&
    if start > end then pos == -1
    else if NoneWithin(value, bit, start, end) then pos == if bit || window.FromTo? then -1 else 8 * |value|
    else FirstWithin(value, bit, start, end, pos)
  }

  method BitPos(value: seq<bv8>, bit: bool, window: Window, address: nat, bigEndian: bool) returns (pos: int)
    ensures IsAnswer(value, bit, window, pos)
    ensures value == [] ==> pos == -1
  {
    hide NoneWithin, FirstWithin, IsFirst, Padded, BitAt;
    BoundsInside(window, |value|);
    var start, end := Bounds(window, |value|).0, Bounds(window, |value|).1;
    if start > end {
      return -1;
    }
    var bytes := end - start + 1;
    pos := RedisBitpos(value[start..end + 1], address + start, bit, bigEndian);
    WindowAnswer(value, value[start..end + 1], bit, start, end, pos);
    NotBoth(value, bit, start, end, 8 * start + pos);
    if window.FromTo? && !bit && pos == bytes * 8 {
      return -1;
    }
    if pos != -1 {
      pos := pos + start * 8;
    }
  }

  lemma NotBoth(s: seq<bv8>, bit: bool, start: nat, end: nat, pos: int)
    requires start <= end < |s|
    ensures !(NoneWithin(s, bit, start, end) && FirstWithin(s, bit, start, end, pos))
  {
    hide BitAt;
  }

  datatype Reply = NotABit | NotAString | Number(n: int)

  /** BITPOS of a key: a missing one is an endless string of clear bits, so that it answers 0 for a clear bit, where
      an empty string answers -1. */
  method BitPosCommand(key: Source, bit: int, window: Window, address: nat, bigEndian: bool) returns (reply: Reply)
    ensures reply.NotABit? <==> bit != 0 && bit != 1
    ensures reply.NotAString? <==> (bit == 0 || bit == 1) && key.OtherType?
    ensures reply.Number? && key.Missing? ==> reply.n == if bit == 1 then -1 else 0
    ensures reply.Number? && key.Text? ==> IsAnswer(key.bytes, bit == 1, window, reply.n)
    ensures reply.Number? && key == Text([]) ==> reply.n == -1
  {
    hide IsAnswer;
    if bit != 0 && bit != 1 {
      return NotABit;
    }
    match key {
      case Missing =>
        reply := Number(if bit == 1 then -1 else 0);
      case OtherType =>
        reply := NotAString;
      case Text(bytes) =>
        var pos := BitPos(bytes, bit == 1, window, address, bigEndian);
        reply := Number(pos);
    }
  }
}
