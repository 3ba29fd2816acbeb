/** BITOP: four words at a time over the length all sources share, then byte by byte with zero padding; either
    way the fold of the operation over the padded sources. */
module Bitop {
  import opened Bits
  import opened Bitpos

  datatype Op = BitAnd | BitOr | BitXor | BitNot

  // ---------- What BITOP means ----------

  /** The first source, complemented for NOT. */
  function First(op: Op, b: bv8): bv8 {
    if op.BitNot? then Not8(b) else b
  }

  function Or8(a: bv8, b: bv8): bv8 {
    a | b
  }

  function Xor8(a: bv8, b: bv8): bv8 {
    a ^ b
  }

  function Not8(b: bv8): bv8 {
    !b
  }

  function Combine(op: Op, a: bv8, b: bv8): bv8 {
    match op
    case BitAnd => And8(a, b)
    case BitOr => Or8(a, b)
    case BitXor => Xor8(a, b)
    case BitNot => a
  }

  /** Byte k of the operation over the first n sources, each followed by endless zeros. */
  function Fold(op: Op, src: seq<seq<bv8>>, n: nat, k: nat): bv8
    requires 1 <= n <= |src|
  {
    if n == 1 then First(op, ByteOr0(src[0], k)) else Combine(op, Fold(op, src, n - 1, k), ByteOr0(src[n - 1], k))
  }

  function Max(a: nat, b: nat): nat {
    if a > b then a else b
  }

  function Min(a: nat, b: nat): nat {
    if a < b then a else b
  }

  function MaxLen(src: seq<seq<bv8>>): nat {
    if src == [] then 0 else Max(MaxLen(src[..|src| - 1]), |src[|src| - 1]|)
  }

  function MinLen(src: seq<seq<bv8>>): nat {
    if src == [] then 0
    else if |src| == 1 then |src[0]|
    else Min(MinLen(src[..|src| - 1]), |src[|src| - 1]|)
  }

  function Result(op: Op, src: seq<seq<bv8>>): seq<bv8>
    requires src != []
  {
    seq(MaxLen(src), k requires 0 <= k => Fold(op, src, |src|, k))
  }

  lemma {:induction false} Lengths(src: seq<seq<bv8>>)
    ensures forall i :: 0 <= i < |src| ==> MinLen(src) <= |src[i]| <= MaxLen(src)
    decreases src
  {
    if |src| > 1 {
      Lengths(src[..|src| - 1]);
    }
  }

  predicate HasLength(src: seq<seq<bv8>>, i: nat, n: nat) {
    i < |src| && |src[i]| == n
  }

  /** Both lengths are reached. */
  lemma {:induction false} LengthsAreReached(src: seq<seq<bv8>>) returns (shortest: nat, longest: nat)
    requires src != []
    ensures HasLength(src, shortest, MinLen(src)) && HasLength(src, longest, MaxLen(src))
    decreases src
  {
    var last := |src| - 1;
    shortest, longest := last, last;
    if last > 0 {
      var i, j := LengthsAreReached(src[..last]);
      assert src[..last][i] == src[i] && src[..last][j] == src[j];
      if MinLen(src[..last]) < |src[last]| {
        shortest := i;
      }
      if |src[last]| < MaxLen(src[..last]) {
        longest := j;
      }
    }
  }

  // ---------- Bit by bit ----------

  /** The number of the first n sources that have a one at position k. */
  function OnesAcross(src: seq<seq<bv8>>, n: nat, k: nat): nat
    requires n <= |src|
  {
    if n == 0 then 0 else OnesAcross(src, n - 1, k) + One(Padded(src[n - 1], k))
  }

  /** What the operation makes of one bit position. */
  predicate BitOf(op: Op, src: seq<seq<bv8>>, n: nat, k: nat)
    requires 1 <= n <= |src|
  {
    match op
    case BitAnd => forall i :: 0 <= i < n ==> Padded(src[i], k)
    case BitOr => exists i :: 0 <= i < n && Padded(src[i], k)
    case BitXor => OnesAcross(src, n, k) % 2 == 1
    case BitNot => !Padded(src[0], k)
  }

  predicate OneHot(x: bv8) {
    x & (x - 1) == 0
  }

  lemma MaskIsOneHot(m: nat)
    requires m < 8
    ensures OneHot(Mask(m)) && Mask(m) != 0
  {
    assert m == 0 || m == 1 || m == 2 || m == 3 || m == 4 || m == 5 || m == 6 || m == 7;
  }

  predicate Hit(b: bv8, x: bv8) {
    b & x != 0
  }

  lemma HasBitHits(b: bv8, m: nat)
    requires m < 8
    ensures HasBit(b, m) == Hit(b, Mask(m))
  {
    hide Mask;
  }

  lemma AndHit(a: bv8, b: bv8, x: bv8)
    requires OneHot(x)
    ensures Hit(And8(a, b), x) == (Hit(a, x) && Hit(b, x))
  {
  }

  lemma OrHit(a: bv8, b: bv8, x: bv8)
    ensures Hit(Or8(a, b), x) == (Hit(a, x) || Hit(b, x))
  {
  }

  lemma XorHit(a: bv8, b: bv8, x: bv8)
    requires OneHot(x)
    ensures Hit(Xor8(a, b), x) == (Hit(a, x) != Hit(b, x))
  {
  }

  lemma NotHit(b: bv8, x: bv8)
    requires OneHot(x) && x != 0
    ensures Hit(Not8(b), x) == !Hit(b, x)
  {
  }

  lemma CombineBits(op: Op, a: bv8, b: bv8, m: nat)
    requires m < 8
    ensures HasBit(First(op, a), m) == (HasBit(a, m) != op.BitNot?)
    ensures HasBit(Combine(op, a, b), m) ==
            match op {
              case BitAnd => HasBit(a, m) && HasBit(b, m)
              case BitOr => HasBit(a, m) || HasBit(b, m)
              case BitXor => HasBit(a, m) != HasBit(b, m)
              case BitNot => HasBit(a, m)
            }
  {
    hide HasBit, Hit, OneHot, Mask, And8, Or8, Xor8, Not8;
    var x := Mask(m);
    MaskIsOneHot(m);
    HasBitHits(a, m);
    HasBitHits(b, m);
    HasBitHits(First(op, a), m);
    HasBitHits(Combine(op, a, b), m);
    AndHit(a, b, x);
    OrHit(a, b, x);
    XorHit(a, b, x);
    NotHit(a, x);
  }

  lemma PaddedByte(t: seq<bv8>, k: nat)
    ensures Padded(t, k) == HasBit(ByteOr0(t, k / 8), k % 8)
  {
    hide HasBit;
    NoBits(k % 8);
  }

  lemma {:induction false} FoldBits(op: Op, src: seq<seq<bv8>>, n: nat, k: nat)
    requires 1 <= n <= |src|
    ensures HasBit(Fold(op, src, n, k / 8), k % 8) == BitOf(op, src, n, k)
    decreases n
  {
    hide HasBit, First, Combine, Padded, ByteOr0;
    PaddedByte(src[n - 1], k);
    if n == 1 {
      CombineBits(op, ByteOr0(src[0], k / 8), 0, k % 8);
      assert OnesAcross(src, 1, k) == OnesAcross(src, 0, k) + One(Padded(src[0], k));
    } else {
      CombineBits(op, Fold(op, src, n - 1, k / 8), ByteOr0(src[n - 1], k / 8), k % 8);
      FoldBits(op, src, n - 1, k);
    }
  }

  /** Every bit of the result is the operation applied to the bits of all padded sources at that position: all
      of them for AND, any of them for OR, an odd number of them for XOR. */
  lemma ResultBits(op: Op, src: seq<seq<bv8>>, k: nat)
    requires src != [] && k < 8 * MaxLen(src)
    ensures BitAt(Result(op, src), k) == BitOf(op, src, |src|, k)
  {
    hide HasBit, Fold, BitOf;
    FoldBits(op, src, |src|, k);
  }

  // ---------- Words ----------

  function AndWords(a: bv64, b: bv64): bv64 {
    a & b
  }

  function OrWords(a: bv64, b: bv64): bv64 {
    a | b
  }

  function XorWords(a: bv64, b: bv64): bv64 {
    a ^ b
  }

  function NotWord(a: bv64): bv64 {
    !a
  }

  /** Byte j of a word, counted from the most significant. */
  function ByteOf(w: bv64, j: nat): bv8
    requires j < 8
  {
    match j
    case 0 => (w >> 56) as bv8
    case 1 => ((w >> 48) & 0xff) as bv8
    case 2 => ((w >> 40) & 0xff) as bv8
    case 3 => ((w >> 32) & 0xff) as bv8
    case 4 => ((w >> 24) & 0xff) as bv8
    case 5 => ((w >> 16) & 0xff) as bv8
    case 6 => ((w >> 8) & 0xff) as bv8
    case 7 => (w & 0xff) as bv8
  }

  /** The byte a 64-bit store puts at offset j. */
  function Stored(w: bv64, j: nat, bigEndian: bool): bv8
    requires j < 8
  {
    ByteOf(w, if bigEndian then j else 7 - j)
  }

  lemma AndByBytes(b0: bv8, b1: bv8, b2: bv8, b3: bv8, b4: bv8, b5: bv8, b6: bv8, b7: bv8,
                  c0: bv8, c1: bv8, c2: bv8, c3: bv8, c4: bv8, c5: bv8, c6: bv8, c7: bv8)
    ensures AndWords(Word8(b0, b1, b2, b3, b4, b5, b6, b7), Word8(c0, c1, c2, c3, c4, c5, c6, c7)) ==
            Word8(And8(b0, c0), And8(b1, c1), And8(b2, c2), And8(b3, c3), And8(b4, c4), And8(b5, c5), And8(b6, c6), And8(b7, c7))
  {
  }

  lemma OrByBytes(b0: bv8, b1: bv8, b2: bv8, b3: bv8, b4: bv8, b5: bv8, b6: bv8, b7: bv8,
                  c0: bv8, c1: bv8, c2: bv8, c3: bv8, c4: bv8, c5: bv8, c6: bv8, c7: bv8)
    ensures OrWords(Word8(b0, b1, b2, b3, b4, b5, b6, b7), Word8(c0, c1, c2, c3, c4, c5, c6, c7)) ==
            Word8(Or8(b0, c0), Or8(b1, c1), Or8(b2, c2), Or8(b3, c3), Or8(b4, c4), Or8(b5, c5), Or8(b6, c6), Or8(b7, c7))
  {
  }

  lemma XorByBytes(b0: bv8, b1: bv8, b2: bv8, b3: bv8, b4: bv8, b5: bv8, b6: bv8, b7: bv8,
                  c0: bv8, c1: bv8, c2: bv8, c3: bv8, c4: bv8, c5: bv8, c6: bv8, c7: bv8)
    ensures XorWords(Word8(b0, b1, b2, b3, b4, b5, b6, b7), Word8(c0, c1, c2, c3, c4, c5, c6, c7)) ==
            Word8(Xor8(b0, c0), Xor8(b1, c1), Xor8(b2, c2), Xor8(b3, c3), Xor8(b4, c4), Xor8(b5, c5), Xor8(b6, c6), Xor8(b7, c7))
  {
  }

  lemma BytesOfWord(b0: bv8, b1: bv8, b2: bv8, b3: bv8, b4: bv8, b5: bv8, b6: bv8, b7: bv8)
    ensures ByteOf(Word8(b0, b1, b2, b3, b4, b5, b6, b7), 0) == b0
    ensures ByteOf(Word8(b0, b1, b2, b3, b4, b5, b6, b7), 1) == b1
    ensures ByteOf(Word8(b0, b1, b2, b3, b4, b5, b6, b7), 2) == b2
    ensures ByteOf(Word8(b0, b1, b2, b3, b4, b5, b6, b7), 3) == b3
    ensures ByteOf(Word8(b0, b1, b2, b3, b4, b5, b6, b7), 4) == b4
    ensures ByteOf(Word8(b0, b1, b2, b3, b4, b5, b6, b7), 5) == b5
    ensures ByteOf(Word8(b0, b1, b2, b3, b4, b5, b6, b7), 6) == b6
    ensures ByteOf(Word8(b0, b1, b2, b3, b4, b5, b6, b7), 7) == b7
  {
  }

  function OpWords(op: Op, a: bv64, b: bv64): bv64 {
    match op
    case BitAnd => AndWords(a, b)
    case BitOr => OrWords(a, b)
    case BitXor => XorWords(a, b)
    case BitNot => a
  }

  function WordOf(x: seq<bv8>): bv64
    requires |x| == 8
  {
    Word8(x[0], x[1], x[2], x[3], x[4], x[5], x[6], x[7])
  }

  function Reversed(x: seq<bv8>): (r: seq<bv8>)
    requires |x| == 8
    ensures |r| == 8 && forall i :: 0 <= i < 8 ==> r[i] == x[7 - i]
  {
    [x[7], x[6], x[5], x[4], x[3], x[2], x[1], x[0]]
  }

  function InOrder(x: seq<bv8>, bigEndian: bool): (r: seq<bv8>)
    requires |x| == 8
    ensures |r| == 8 && forall i :: 0 <= i < 8 ==> r[if bigEndian then i else 7 - i] == x[i]
  {
    if bigEndian then x else Reversed(x)
  }

  lemma LoadInOrder(x: seq<bv8>, bigEndian: bool)
    requires |x| == 8
    ensures Load8(x, bigEndian) == WordOf(InOrder(x, bigEndian))
  {
    hide Word8;
  }

  function Zip(op: Op, x: seq<bv8>, y: seq<bv8>): (z: seq<bv8>)
    requires |x| == |y| == 8
    ensures |z| == 8 && forall i :: 0 <= i < 8 ==> z[i] == Combine(op, x[i], y[i])
  {
    seq(8, i requires 0 <= i < 8 => Combine(op, x[i], y[i]))
  }

  function Complement(x: seq<bv8>): (z: seq<bv8>)
    requires |x| == 8
    ensures |z| == 8 && forall i :: 0 <= i < 8 ==> z[i] == Not8(x[i])
  {
    seq(8, i requires 0 <= i < 8 => Not8(x[i]))
  }

  lemma OpByBytes(op: Op, x: seq<bv8>, y: seq<bv8>)
    requires |x| == |y| == 8
    ensures OpWords(op, WordOf(x), WordOf(y)) == WordOf(Zip(op, x, y))
  {
    hide Word8, AndWords, OrWords, XorWords, And8, Or8, Xor8;
    match op {
      case BitAnd =>
        AndByBytes(x[0], x[1], x[2], x[3], x[4], x[5], x[6], x[7], y[0], y[1], y[2], y[3], y[4], y[5], y[6], y[7]);
      case BitOr =>
        OrByBytes(x[0], x[1], x[2], x[3], x[4], x[5], x[6], x[7], y[0], y[1], y[2], y[3], y[4], y[5], y[6], y[7]);
      case BitXor =>
        XorByBytes(x[0], x[1], x[2], x[3], x[4], x[5], x[6], x[7], y[0], y[1], y[2], y[3], y[4], y[5], y[6], y[7]);
      case BitNot =>
        assert Zip(op, x, y) == x;
    }
  }

  lemma ByteOfLoaded(x: seq<bv8>, j: nat)
    requires |x| == 8 && j < 8
    ensures ByteOf(WordOf(x), j) == x[j]
  {
    hide Word8, ByteOf;
    BytesOfWord(x[0], x[1], x[2], x[3], x[4], x[5], x[6], x[7]);
    assert j == 0 || j == 1 || j == 2 || j == 3 || j == 4 || j == 5 || j == 6 || j == 7;
  }

  /** An operation on loaded words, stored again, is the operation on each byte, in either byte order. */
  lemma WordOpIsByteOp(op: Op, x: seq<bv8>, y: seq<bv8>, bigEndian: bool, j: nat)
    requires |x| == |y| == 8 && j < 8
    ensures Stored(OpWords(op, Load8(x, bigEndian), Load8(y, bigEndian)), j, bigEndian) == Combine(op, x[j], y[j])
  {
    hide WordOf, OpWords, ByteOf, Combine, Load8;
    LoadInOrder(x, bigEndian);
    LoadInOrder(y, bigEndian);
    OpByBytes(op, InOrder(x, bigEndian), InOrder(y, bigEndian));
    ByteOfLoaded(Zip(op, InOrder(x, bigEndian), InOrder(y, bigEndian)), if bigEndian then j else 7 - j);
  }

  lemma NotWordIsByteNot(x: seq<bv8>, bigEndian: bool, j: nat)
    requires |x| == 8 && j < 8
    ensures Stored(NotWord(Load8(x, bigEndian)), j, bigEndian) == First(BitNot, x[j])
  {
    hide WordOf, NotWord, ByteOf, Not8, Load8;
    LoadInOrder(x, bigEndian);
    ComplementByBytes(InOrder(x, bigEndian));
    ByteOfLoaded(Complement(InOrder(x, bigEndian)), if bigEndian then j else 7 - j);
  }

  lemma ComplementByBytes(x: seq<bv8>)
    requires |x| == 8
    ensures NotWord(WordOf(x)) == WordOf(Complement(x))
  {
    NotIsXor(WordOf(x));
    hide Word8, NotWord, Not8, Xor8, XorWords;
    XorByBytes(x[0], x[1], x[2], x[3], x[4], x[5], x[6], x[7],
               0xff, 0xff, 0xff, 0xff, 0xff, 0xff, 0xff, 0xff);
    forall i | 0 <= i < 8
      ensures Not8(x[i]) == Xor8(x[i], 0xff)
    {
      Not8IsXor(x[i]);
    }
  }

  lemma NotIsXor(w: bv64)
    ensures NotWord(w) == XorWords(w, Word8(0xff, 0xff, 0xff, 0xff, 0xff, 0xff, 0xff, 0xff))
  {
  }

  lemma Not8IsXor(b: bv8)
    ensures Not8(b) == Xor8(b, 0xff)
  {
  }

  // ---------- The fast path ----------

  method StoreWord(res: array<bv8>, at: nat, w: bv64, bigEndian: bool)
    requires at + 8 <= res.Length
    modifies res
    ensures forall k :: 0 <= k < res.Length ==>
      res[k] == if at <= k < at + 8 then Stored(w, k - at, bigEndian) else old(res[k])
  {
    hide Stored;
    for j := 0 to 8
      invariant forall k :: 0 <= k < res.Length ==>
        res[k] == if at <= k < at + j then Stored(w, k - at, bigEndian) else old(res[k])
    {
      res[at + j] := Stored(w, j, bigEndian);
    }
  }

  /** One word of the result combined with one word of a source. */
  method CombineWord(res: array<bv8>, at: nat, s: seq<bv8>, from: nat, op: Op, bigEndian: bool)
    requires at + 8 <= res.Length && from + 8 <= |s|
    modifies res
    ensures forall k :: 0 <= k < res.Length ==>
      res[k] == if at <= k < at + 8 then Combine(op, old(res[k]), s[from + (k - at)]) else old(res[k])
  {
    hide Stored, OpWords, Load8, Combine;
    var x, y := res[at..at + 8], s[from..from + 8];
    forall j: nat | j < 8
      ensures Stored(OpWords(op, Load8(x, bigEndian), Load8(y, bigEndian)), j, bigEndian) ==
              Combine(op, old(res[at + j]), s[from + j])
    {
      WordOpIsByteOp(op, x, y, bigEndian, j);
    }
    StoreWord(res, at, OpWords(op, Load8(x, bigEndian), Load8(y, bigEndian)), bigEndian);
  }

  method ComplementWord(res: array<bv8>, at: nat, bigEndian: bool)
    requires at + 8 <= res.Length
    modifies res
    ensures forall k :: 0 <= k < res.Length ==>
      res[k] == if at <= k < at + 8 then First(BitNot, old(res[k])) else old(res[k])
  {
    hide Stored, NotWord, Load8, First;
    var x := res[at..at + 8];
    forall j: nat | j < 8
      ensures Stored(NotWord(Load8(x, bigEndian)), j, bigEndian) == First(BitNot, old(res[at + j]))
    {
      NotWordIsByteNot(x, bigEndian, j);
    }
    StoreWord(res, at, NotWord(Load8(x, bigEndian)), bigEndian);
  }

  /** Four words of every further source, folded into four words of the result. */
  method CombineStride(res: array<bv8>, at: nat, src: seq<seq<bv8>>, from: seq<nat>, op: Op, bigEndian: bool)
    returns (lp: seq<nat>)
    requires op != BitNot && |from| == |src| >= 1 && at + 32 <= res.Length
    requires forall i :: 0 <= i < |src| ==> at + 32 <= |src[i]|
    requires forall i :: 1 <= i < |src| ==> from[i] == at
    requires forall k :: at <= k < at + 32 ==> res[k] == src[0][k]
    modifies res
    ensures |lp| == |src| && forall i :: 1 <= i < |src| ==> lp[i] == at + 32
    ensures forall k :: at <= k < at + 32 ==> res[k] == Fold(op, src, |src|, k)
    ensures forall k :: 0 <= k < res.Length && !(at <= k < at + 32) ==> res[k] == old(res[k])
  {
    hide Combine;
    lp := from;
    var numkeys := |src|;
    for i := 1 to numkeys
      invariant |lp| == |src| && forall n :: 1 <= n < |src| ==> lp[n] == if n < i then at + 32 else at
      invariant forall k :: at <= k < at + 32 ==> res[k] == Fold(op, src, i, k)
      invariant forall k :: 0 <= k < res.Length && !(at <= k < at + 32) ==> res[k] == old(res[k])
    {
      CombineWord(res, at, src[i], lp[i], op, bigEndian);
      CombineWord(res, at + 8, src[i], lp[i] + 8, op, bigEndian);
      CombineWord(res, at + 16, src[i], lp[i] + 16, op, bigEndian);
      CombineWord(res, at + 24, src[i], lp[i] + 24, op, bigEndian);
      lp := lp[i := lp[i] + 32];
    }
  }

  method ComplementStride(res: array<bv8>, at: nat, src: seq<seq<bv8>>, bigEndian: bool)
    requires |src| == 1 && at + 32 <= res.Length && at + 32 <= |src[0]|
    requires forall k :: at <= k < at + 32 ==> res[k] == src[0][k]
    modifies res
    ensures forall k :: at <= k < at + 32 ==> res[k] == Fold(BitNot, src, 1, k)
    ensures forall k :: 0 <= k < res.Length && !(at <= k < at + 32) ==> res[k] == old(res[k])
  {
    hide First;
    ComplementWord(res, at, bigEndian);
    ComplementWord(res, at + 8, bigEndian);
    ComplementWord(res, at + 16, bigEndian);
    ComplementWord(res, at + 24, bigEndian);
  }

  /** The fast path: whole strides of four words while every source has data. Returns the next byte to process. */
  method FastPath(res: array<bv8>, op: Op, src: seq<seq<bv8>>, shared: nat, bigEndian: bool) returns (j: nat)
    requires src != [] && (op.BitNot? ==> |src| == 1)
    requires shared <= res.Length && forall i :: 0 <= i < |src| ==> shared <= |src[i]|
    modifies res
    ensures j <= shared && shared - j < 32
    ensures forall k :: 0 <= k < j ==> res[k] == Fold(op, src, |src|, k)
  {
    hide Fold;
    var minlen := shared;
    var lp := seq(|src|, i => 0);
    forall k | 0 <= k < minlen {
      res[k] := src[0][k];
    }
    j := 0;
    while minlen >= 32
      invariant j + minlen == shared
      invariant forall k :: 0 <= k < j ==> res[k] == Fold(op, src, |src|, k)
      invariant forall k :: j <= k < shared ==> res[k] == src[0][k]
      invariant |lp| == |src| && forall i :: 1 <= i < |src| ==> lp[i] == j
    {
      if op.BitNot? {
        ComplementStride(res, j, src, bigEndian);
      } else {
        lp := CombineStride(res, j, src, lp, op, bigEndian);
      }
      j := j + 32;
      minlen := minlen - 32;
    }
  }

  // ---------- The command ----------

  datatype Outcome = TooManyKeys | WrongType | Delete | Store(value: seq<bv8>)

  /** The strings BITOP works on: a missing key is an empty one. */
  function Bytes(sources: seq<Source>): (src: seq<seq<bv8>>)
    ensures |src| == |sources|
    ensures forall i :: 0 <= i < |src| ==> src[i] == if sources[i].Text? then sources[i].bytes else []
  {
    if sources == [] then []
    else
      var last := sources[|sources| - 1];
      Bytes(sources[..|sources| - 1]) + [if last.Text? then last.bytes else []]
  }

  method SlowByte(op: Op, src: seq<seq<bv8>>, j: nat) returns (output: bv8)
    requires src != []
    ensures output == Fold(op, src, |src|, j)
  {
    hide Combine;
    output := if |src[0]| <= j then 0 else src[0][j];
    if op.BitNot? {
      output := Not8(output);
    }
    for i := 1 to |src|
      invariant output == Fold(op, src, i, j)
    {
      var byte := if |src[i]| <= j then 0 else src[i][j];
      output := Combine(op, output, byte);
    }
  }

  lemma SourceAdded(sources: seq<Source>, j: nat, src: seq<seq<bv8>>, o: seq<bv8>)
    requires j < |sources| && src == Bytes(sources[..j]) && !sources[j].OtherType?
    requires o == if sources[j].Text? then sources[j].bytes else []
    ensures Bytes(sources[..j + 1]) == src + [o]
    ensures MaxLen(src + [o]) == Max(MaxLen(src), |o|)
    ensures MinLen(src + [o]) == if j == 0 then |o| else Min(MinLen(src), |o|)
  {
    assert sources[..j + 1][..j] == sources[..j];
    assert (src + [o])[..j] == src;
  }

  /** The lookups: the shortest and the longest length are what they are named, whatever the order of missing and
      present keys. */
  method LookupSources(sources: seq<Source>) returns (right: bool, src: seq<seq<bv8>>, minlen: nat, maxlen: nat)
    ensures right <==> OtherType !in sources
    ensures right ==> src == Bytes(sources) && minlen == MinLen(src) && maxlen == MaxLen(src)
  {
    hide MinLen, MaxLen, Bytes;
    src := [];
    minlen, maxlen := 0, 0;
    NoLengths(sources);
    var j := 0;
    while j < |sources|
      invariant j <= |sources| && src == Bytes(sources[..j]) && forall i :: 0 <= i < j ==> !sources[i].OtherType?
      invariant maxlen == MaxLen(src) && minlen == MinLen(src)
    {
      if sources[j].OtherType? {
        return false, src, minlen, maxlen;
      }
      SourceAdded(sources, j, src, if sources[j].Text? then sources[j].bytes else []);
      if sources[j].Missing? {
        src := src + [[]];
        minlen := 0;
      } else {
        var o := sources[j].bytes;
        src := src + [o];
        if |o| > maxlen {
          maxlen := |o|;
        }
        if j == 0 || |o| < minlen {
          minlen := |o|;
        }
      }
      j := j + 1;
    }
    assert sources[..j] == sources;
    right := true;
  }

  lemma NoLengths(sources: seq<Source>)
    ensures MinLen([]) == 0 && MaxLen([]) == 0 && Bytes(sources[..0]) == []
  {
  }

  /** The fast path, when it applies, and the byte loop after it. */
  method Compute(op: Op, src: seq<seq<bv8>>, minlen: nat, maxlen: nat, bigEndian: bool) returns (value: seq<bv8>)
    requires src != [] && (op.BitNot? ==> |src| == 1) && minlen == MinLen(src) && maxlen == MaxLen(src)
    ensures value == Result(op, src)
  {
    hide Fold, MinLen, MaxLen;
    Lengths(src);
    assert minlen <= |src[0]| <= maxlen;
    var res := new bv8[maxlen](i => 0);
    var j := 0;
    if minlen >= 32 && |src| <= 16 {
      j := FastPath(res, op, src, minlen, bigEndian);
    }
    while j < maxlen
      invariant j <= maxlen && forall k :: 0 <= k < j ==> res[k] == Fold(op, src, |src|, k)
    {
      var output := SlowByte(op, src, j);
      res[j] := output;
      j := j + 1;
    }
    value := res[..];
    assert value == Result(op, src);
  }

  /** bitopCommand, up to what it stores: the padded fold of all sources, and nothing exactly when they are all
      empty. */
  method BitopCommand(op: Op, sources: seq<Source>, bigEndian: bool) returns (outcome: Outcome)
    requires sources != []
    ensures op.BitNot? && |sources| != 1 ==> outcome == TooManyKeys
    ensures !(op.BitNot? && |sources| != 1) && OtherType in sources ==> outcome == WrongType
    ensures !(op.BitNot? && |sources| != 1) && OtherType !in sources ==>
      outcome == if MaxLen(Bytes(sources)) == 0 then Delete else Store(Result(op, Bytes(sources)))
  {
    hide Result, MinLen, MaxLen;
    if op.BitNot? && |sources| != 1 {
      return TooManyKeys;
    }
    var right, src, minlen, maxlen := LookupSources(sources);
    if !right {
      return WrongType;
    }
    if maxlen == 0 {
      return Delete;
    }
    var value := Compute(op, src, minlen, maxlen, bigEndian);
    outcome := Store(value);
  }
}
