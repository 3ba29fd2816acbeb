/** Strings as sets of bits: bit 0 is the most significant bit of the first byte. GETBIT, SETBIT, and the
    number of ones as the size of a set of positions. */
module Bits {
  function Mask(m: nat): bv8
    requires m < 8
  {
    match m
    case 0 => 128
    case 1 => 64
    case 2 => 32
    case 3 => 16
    case 4 => 8
    case 5 => 4
    case 6 => 2
    case 7 => 1
  }

  predicate HasBit(b: bv8, m: nat)
    requires m < 8
  {
    b & Mask(m) != 0
  }

  predicate BitAt(s: seq<bv8>, k: nat)
    requires k < 8 * |s|
  {
    HasBit(s[k / 8], k % 8)
  }

  /** The bits of a string followed by endless zeros. */
  predicate Padded(s: seq<bv8>, k: nat) {
    k < 8 * |s| && BitAt(s, k)
  }

  // ---------- Counting ----------

  function One(bit: bool): nat {
    if bit then 1 else 0
  }

  function Ones(b: bv8): nat {
    One(b & 128 != 0) + One(b & 64 != 0) + One(b & 32 != 0) + One(b & 16 != 0) +
    One(b & 8 != 0) + One(b & 4 != 0) + One(b & 2 != 0) + One(b & 1 != 0)
  }

  function CountOnes(s: seq<bv8>): nat {
    if s == [] then 0 else Ones(s[0]) + CountOnes(s[1..])
  }

  lemma {:induction false} CountSplit(a: seq<bv8>, b: seq<bv8>)
    ensures CountOnes(a + b) == CountOnes(a) + CountOnes(b)
    decreases a
  {
    hide Ones;
    if a == [] {
      assert a + b == b;
    } else {
      assert (a + b)[1..] == a[1..] + b;
      CountSplit(a[1..], b);
    }
  }

  lemma CountOne(b: bv8)
    ensures CountOnes([b]) == Ones(b)
  {
    hide Ones;
    assert [b][1..] == [];
  }

  /** The positions of the ones. */
  function Positions(s: seq<bv8>): set<nat> {
    set k: nat | k < 8 * |s| && BitAt(s, k)
  }

  /** The positions of the ones among the first m bits of a byte that starts at base. */
  function BytePositions(base: nat, b: bv8, m: nat): (p: set<nat>)
    requires m <= 8
    ensures forall k: nat :: k in p <==> base <= k < base + m && HasBit(b, k - base)
  {
    if m == 0 then {}
    else BytePositions(base, b, m - 1) + (if HasBit(b, m - 1) then {base + (m - 1)} else {})
  }

  function OnesBefore(b: bv8, m: nat): nat
    requires m <= 8
  {
    if m == 0 then 0 else OnesBefore(b, m - 1) + One(HasBit(b, m - 1))
  }

  lemma {:induction false} BytePositionsCount(base: nat, b: bv8, m: nat)
    requires m <= 8
    ensures |BytePositions(base, b, m)| == OnesBefore(b, m)
  {
    hide HasBit;
    if m > 0 {
      BytePositionsCount(base, b, m - 1);
    }
  }

  lemma OnesBeforeAll(b: bv8)
    ensures OnesBefore(b, 8) == Ones(b)
  {
    hide HasBit;
    assert OnesBefore(b, 1) == One(HasBit(b, 0));
    assert OnesBefore(b, 2) == OnesBefore(b, 1) + One(HasBit(b, 1));
    assert OnesBefore(b, 4) == OnesBefore(b, 2) + One(HasBit(b, 2)) + One(HasBit(b, 3));
    assert OnesBefore(b, 6) == OnesBefore(b, 4) + One(HasBit(b, 4)) + One(HasBit(b, 5));
    OnesAreBits(b);
  }

  lemma OnesAreBits(b: bv8)
    ensures Ones(b) == One(HasBit(b, 0)) + One(HasBit(b, 1)) + One(HasBit(b, 2)) + One(HasBit(b, 3)) +
                       One(HasBit(b, 4)) + One(HasBit(b, 5)) + One(HasBit(b, 6)) + One(HasBit(b, 7))
  {
  }

  /** Counting byte by byte counts the positions that hold a one. */
  lemma {:induction false} CountIsPositions(s: seq<bv8>)
    ensures |Positions(s)| == CountOnes(s)
    decreases s
  {
    hide HasBit, Ones, CountOnes;
    if s == [] {
      assert Positions(s) == {};
      CountNothing(s);
    } else {
      var front, last := s[..|s| - 1], s[|s| - 1];
      CountIsPositions(front);
      BytePositionsCount(8 * |front|, last, 8);
      OnesBeforeAll(last);
      assert s == front + [last];
      PositionsGrow(front, last);
      CountSplit(front, [last]);
      CountOne(last);
    }
  }

  lemma PositionsGrow(front: seq<bv8>, last: bv8)
    ensures Positions(front + [last]) == Positions(front) + BytePositions(8 * |front|, last, 8)
    ensures Positions(front) !! BytePositions(8 * |front|, last, 8)
  {
    hide HasBit;
    var s, base := front + [last], 8 * |front|;
    forall k: nat
      ensures k in Positions(s) <==> k in Positions(front) || k in BytePositions(base, last, 8)
    {
      if k < base {
        assert k / 8 < |front| && s[k / 8] == front[k / 8];
      } else if k < base + 8 {
        assert k / 8 == |front| && k % 8 == k - base;
      }
    }
  }

  lemma CountNothing(s: seq<bv8>)
    requires s == []
    ensures CountOnes(s) == 0
  {
  }

  /** What the lookup of a key finds. */
  datatype Source = Missing | Text(bytes: seq<bv8>) | OtherType

  // ---------- GETBIT and SETBIT ----------

  /** Strings are at most 512MB. */
  const MAX_BYTES: nat := 512 * 1024 * 1024

  datatype Answer = Bad | Was(bit: bool)

  function Grown(s: seq<bv8>, size: nat): (g: seq<bv8>)
    ensures |g| == if size > |s| then size else |s|
    ensures g[..|s|] == s && forall i :: |s| <= i < |g| ==> g[i] == 0
  {
    if size > |s| then s + seq(size - |s|, i => 0) else s
  }

  /** A byte with one bit replaced. */
  function WithBit(b: bv8, m: nat, on: bool): bv8
    requires m < 8
  {
    if on then (b & !Mask(m)) | Mask(m) else b & !Mask(m)
  }

  lemma SameBit(b: bv8, m: nat, on: bool)
    requires m < 8
    ensures HasBit(WithBit(b, m, on), m) == on
  {
    assert m == 0 || m == 1 || m == 2 || m == 3 || m == 4 || m == 5 || m == 6 || m == 7;
  }

  lemma OtherBit(b: bv8, m: nat, n: nat, on: bool)
    requires m < 8 && n < 8 && m != n
    ensures HasBit(WithBit(b, m, on), n) == HasBit(b, n)
  {
    MasksApart(m, n);
    var p, q := Mask(m), Mask(n);
    assert (b & !p) & q == b & (q & !p);
    assert ((b & !p) | p) & q == (b & q & !p) | (p & q);
    assert q & !p == q;
  }

  lemma MasksApart(m: nat, n: nat)
    requires m < 8 && n < 8 && m != n
    ensures Mask(m) & Mask(n) == 0 && Mask(n) & !Mask(m) == Mask(n)
  {
    assert m == 0 || m == 1 || m == 2 || m == 3 || m == 4 || m == 5 || m == 6 || m == 7;
    assert n == 0 || n == 1 || n == 2 || n == 3 || n == 4 || n == 5 || n == 6 || n == 7;
  }

  lemma OneBit(b: bv8, m: nat, n: nat, on: bool)
    requires m < 8 && n < 8
    ensures HasBit(WithBit(b, m, on), n) == if m == n then on else HasBit(b, n)
  {
    hide HasBit, WithBit;
    if m == n {
      SameBit(b, m, on);
    } else {
      OtherBit(b, m, n, on);
    }
  }

  lemma NoBits(m: nat)
    requires m < 8
    ensures !HasBit(0, m)
  {
  }

  /** SETBIT on the string a key holds (empty when there is no key): the bit is what was asked for, every
      other bit of the zero-padded string is as it was, and the answer is the bit that was there. */
  method SetBit(value: seq<bv8>, bitoffset: int, on: int) returns (answer: Answer, changed: seq<bv8>)
    ensures answer.Bad? <==> bitoffset < 0 || bitoffset / 8 >= MAX_BYTES || (on != 0 && on != 1)
    ensures answer.Bad? ==> changed == value
    ensures answer.Was? ==> answer.bit == Padded(value, bitoffset)
    ensures answer.Was? ==> |changed| == if bitoffset / 8 < |value| then |value| else bitoffset / 8 + 1
    ensures answer.Was? ==> forall k: nat :: Padded(changed, k) == if k == bitoffset then on == 1 else Padded(value, k)
  {
    hide HasBit, WithBit;
    changed := value;
    if bitoffset < 0 || bitoffset / 8 >= MAX_BYTES {
      return Bad, changed;
    }
    if on != 0 && on != 1 {
      return Bad, changed;
    }
    var byte := bitoffset / 8;
    var grown := Grown(value, byte + 1);
    GrownBits(value, byte + 1);
    var byteval := grown[byte];
    var m := bitoffset % 8;
    answer := Was(HasBit(byteval, m));
    changed := grown[byte := WithBit(byteval, m, on == 1)];
    BitReplaced(grown, bitoffset, on == 1);
  }

  /** Growing with zeros leaves the padded string alone. */
  lemma GrownBits(s: seq<bv8>, size: nat)
    ensures forall k: nat :: Padded(Grown(s, size), k) == Padded(s, k)
  {
    hide HasBit;
    var g := Grown(s, size);
    forall k: nat | k < 8 * |g|
      ensures Padded(g, k) == Padded(s, k)
    {
      if k / 8 < |s| {
        assert g[k / 8] == g[..|s|][k / 8] == s[k / 8];
      } else {
        NoBits(k % 8);
      }
    }
  }

  lemma BitReplaced(s: seq<bv8>, offset: nat, on: bool)
    requires offset < 8 * |s|
    ensures var t := s[offset / 8 := WithBit(s[offset / 8], offset % 8, on)];
            forall k: nat :: Padded(t, k) == if k == offset then on else Padded(s, k)
  {
    hide HasBit, WithBit;
    var byte, m := offset / 8, offset % 8;
    var t := s[byte := WithBit(s[byte], m, on)];
    forall k: nat | k < 8 * |s|
      ensures Padded(t, k) == if k == offset then on else Padded(s, k)
    {
      if k / 8 == byte {
        OneBit(s[byte], m, k % 8, on);
        assert k == offset <==> k % 8 == m;
      } else {
        assert t[k / 8] == s[k / 8];
      }
    }
  }

  /** GETBIT. */
  method GetBit(value: seq<bv8>, bitoffset: int) returns (answer: Answer)
    ensures answer == if bitoffset < 0 || bitoffset / 8 >= MAX_BYTES then Bad else Was(Padded(value, bitoffset))
  {
    hide HasBit;
    if bitoffset < 0 || bitoffset / 8 >= MAX_BYTES {
      return Bad;
    }
    var bitval := false;
    var byte := bitoffset / 8;
    if byte < |value| {
      bitval := HasBit(value[byte], bitoffset % 8);
    }
    answer := Was(bitval);
  }

  /** What SETBIT does to the number of ones: it moves by exactly the difference between the new bit and the
      one that was there. */
  lemma SettingMovesCount(s: seq<bv8>, t: seq<bv8>, offset: nat, on: bool)
    requires forall k: nat :: Padded(t, k) == if k == offset then on else Padded(s, k)
    ensures CountOnes(t) == CountOnes(s) - One(Padded(s, offset)) + One(on)
  {
    hide BitAt, CountOnes;
    CountIsPositions(s);
    CountIsPositions(t);
    forall k: nat
      ensures k in Positions(s) <==> Padded(s, k)
      ensures k in Positions(t) <==> Padded(t, k)
    {
    }
    assert Positions(t) - {offset} == Positions(s) - {offset};
    if on {
      assert Positions(t) == (Positions(s) - {offset}) + {offset};
    } else {
      assert Positions(t) == Positions(s) - {offset};
    }
    if Padded(s, offset) {
      assert Positions(s) == (Positions(s) - {offset}) + {offset};
    } else {
      assert Positions(s) == Positions(s) - {offset};
    }
  }
}
