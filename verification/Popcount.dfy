/** redisPopcount: table lookups up to a word boundary, then seven words at a time with all lanes of the
    words counted in parallel, then table lookups again. */
module Popcount {
  import opened Bits

  // ---------- One byte ----------

  /** The rows of bitsinbyte, sixteen entries each. */
  function Row(i: nat): (r: seq<nat>)
    requires i < 16
    ensures |r| == 16
  {
    match i
    case 0 => [0, 1, 1, 2, 1, 2, 2, 3, 1, 2, 2, 3, 2, 3, 3, 4]
    case 1 => [1, 2, 2, 3, 2, 3, 3, 4, 2, 3, 3, 4, 3, 4, 4, 5]
    case 2 => [1, 2, 2, 3, 2, 3, 3, 4, 2, 3, 3, 4, 3, 4, 4, 5]
    case 3 => [2, 3, 3, 4, 3, 4, 4, 5, 3, 4, 4, 5, 4, 5, 5, 6]
    case 4 => [1, 2, 2, 3, 2, 3, 3, 4, 2, 3, 3, 4, 3, 4, 4, 5]
    case 5 => [2, 3, 3, 4, 3, 4, 4, 5, 3, 4, 4, 5, 4, 5, 5, 6]
    case 6 => [2, 3, 3, 4, 3, 4, 4, 5, 3, 4, 4, 5, 4, 5, 5, 6]
    case 7 => [3, 4, 4, 5, 4, 5, 5, 6, 4, 5, 5, 6, 5, 6, 6, 7]
    case 8 => [1, 2, 2, 3, 2, 3, 3, 4, 2, 3, 3, 4, 3, 4, 4, 5]
    case 9 => [2, 3, 3, 4, 3, 4, 4, 5, 3, 4, 4, 5, 4, 5, 5, 6]
    case 10 => [2, 3, 3, 4, 3, 4, 4, 5, 3, 4, 4, 5, 4, 5, 5, 6]
    case 11 => [3, 4, 4, 5, 4, 5, 5, 6, 4, 5, 5, 6, 5, 6, 6, 7]
    case 12 => [2, 3, 3, 4, 3, 4, 4, 5, 3, 4, 4, 5, 4, 5, 5, 6]
    case 13 => [3, 4, 4, 5, 4, 5, 5, 6, 4, 5, 5, 6, 5, 6, 6, 7]
    case 14 => [3, 4, 4, 5, 4, 5, 5, 6, 4, 5, 5, 6, 5, 6, 6, 7]
    case 15 => [4, 5, 5, 6, 5, 6, 6, 7, 5, 6, 6, 7, 6, 7, 7, 8]
  }

  function BitsInByte(b: bv8): nat {
    Row((b >> 4) as nat)[(b & 15) as nat]
  }

  lemma LowRowsAdd(r: nat, j: nat)
    requires r < 8 && j < 16
    ensures Row(r)[j] == Row(0)[r] + Row(0)[j]
  {
    assert j == 0 || j == 1 || j == 2 || j == 3 || j == 4 || j == 5 || j == 6 || j == 7 || j == 8 || j == 9 ||
        j == 10 || j == 11 || j == 12 || j == 13 || j == 14 || j == 15;
  }

  lemma HighRowsAdd(r: nat, j: nat)
    requires 8 <= r < 16 && j < 16
    ensures Row(r)[j] == Row(0)[r] + Row(0)[j]
  {
    assert j == 0 || j == 1 || j == 2 || j == 3 || j == 4 || j == 5 || j == 6 || j == 7 || j == 8 || j == 9 ||
        j == 10 || j == 11 || j == 12 || j == 13 || j == 14 || j == 15;
  }

  lemma RowsAdd(r: nat, j: nat)
    requires r < 16 && j < 16
    ensures Row(r)[j] == Row(0)[r] + Row(0)[j]
  {
    hide Row;
    if r < 8 {
      LowRowsAdd(r, j);
    } else {
      HighRowsAdd(r, j);
    }
  }

  lemma NibbleCount(x: bv8)
    requires x < 16
    ensures Row(0)[x as nat] == Ones(x)
  {
    assert x == 0 || x == 1 || x == 2 || x == 3 || x == 4 || x == 5 || x == 6 || x == 7 || x == 8 || x == 9 ||
        x == 10 || x == 11 || x == 12 || x == 13 || x == 14 || x == 15;
  }

  lemma OnesOfNibbles(b: bv8)
    ensures Ones(b) == Ones(b >> 4) + Ones(b & 15) && b >> 4 < 16 && b & 15 < 16
  {
  }

  /** The table is right for every byte. */
  lemma TableCounts(b: bv8)
    ensures BitsInByte(b) == Ones(b)
  {
    hide Row, Ones;
    OnesOfNibbles(b);
    RowsAdd((b >> 4) as nat, (b & 15) as nat);
    NibbleCount(b >> 4);
    NibbleCount(b & 15);
  }

  // ---------- Four lanes ----------

  /** A 32-bit word as its four bytes, the most significant first. */
  datatype Lanes = Lanes(a: bv8, b: bv8, c: bv8, d: bv8)

  function Word(a: bv8, b: bv8, c: bv8, d: bv8): bv32 {
    ((a as bv32) << 24) | ((b as bv32) << 16) | ((c as bv32) << 8) | (d as bv32)
  }

  function Join(q: Lanes): bv32 {
    Word(q.a, q.b, q.c, q.d)
  }

  /** A 32-bit load in either byte order. */
  function Load(s: seq<bv8>, bigEndian: bool): Lanes
    requires |s| == 4
  {
    if bigEndian then Lanes(s[0], s[1], s[2], s[3]) else Lanes(s[3], s[2], s[1], s[0])
  }

  function Native(s: seq<bv8>, bigEndian: bool): bv32
    requires |s| == 4
  {
    Join(Load(s, bigEndian))
  }

  // The three folding stages, on a word and on one lane.

  function Pairs(w: bv32): bv32 {
    w - ((w >> 1) & 0x5555_5555)
  }

  function Quads(w: bv32): bv32 {
    (w & 0x3333_3333) + ((w >> 2) & 0x3333_3333)
  }

  function Octets(w: bv32): bv32 {
    (w + (w >> 4)) & 0x0F0F_0F0F
  }

  function LanePairs(b: bv8): bv8 {
    b - ((b >> 1) & 0x55)
  }

  function LaneQuads(b: bv8): bv8 {
    (b & 0x33) + ((b >> 2) & 0x33)
  }

  function LaneOctets(b: bv8): bv8 {
    (b + (b >> 4)) & 0x0F
  }

  function LaneCount(b: bv8): bv8 {
    LaneOctets(LaneQuads(LanePairs(b)))
  }

  function Count(q: Lanes): Lanes {
    Lanes(LaneCount(q.a), LaneCount(q.b), LaneCount(q.c), LaneCount(q.d))
  }

  predicate AtMost(b: bv8, limit: bv8) {
    b <= limit
  }

  function Value(b: bv8): nat {
    b as nat
  }

  function WordValue(w: bv32): nat {
    w as nat
  }

  predicate Within(q: Lanes, limit: bv8) {
    AtMost(q.a, limit) && AtMost(q.b, limit) && AtMost(q.c, limit) && AtMost(q.d, limit)
  }

  function Total(q: Lanes): nat {
    Value(q.a) + Value(q.b) + Value(q.c) + Value(q.d)
  }

  lemma LaneCountIsOnes(b: bv8)
    ensures Value(LaneCount(b)) == Ones(b) && AtMost(LaneCount(b), 8)
  {
  }

  lemma PairsByLane(a: bv8, b: bv8, c: bv8, d: bv8)
    ensures Pairs(Word(a, b, c, d)) == Word(LanePairs(a), LanePairs(b), LanePairs(c), LanePairs(d))
  {
  }

  lemma QuadsByLane(a: bv8, b: bv8, c: bv8, d: bv8)
    ensures Quads(Word(a, b, c, d)) == Word(LaneQuads(a), LaneQuads(b), LaneQuads(c), LaneQuads(d))
  {
  }

  predicate NibblesAtMostFour(b: bv8) {
    b & 0x0f <= 4 && b & 0xf0 <= 0x40
  }

  lemma OctetsByLane(a: bv8, b: bv8, c: bv8, d: bv8)
    requires NibblesAtMostFour(a) && NibblesAtMostFour(b) && NibblesAtMostFour(c) && NibblesAtMostFour(d)
    ensures Octets(Word(a, b, c, d)) == Word(LaneOctets(a), LaneOctets(b), LaneOctets(c), LaneOctets(d))
  {
  }

  lemma QuadsAreSmall(b: bv8)
    ensures NibblesAtMostFour(LaneQuads(LanePairs(b)))
  {
  }

  /** Folding a word counts each of its bytes in that byte's own lane: no lane borrows or carries. */
  lemma FoldByLane(q: Lanes)
    ensures Octets(Quads(Pairs(Join(q)))) == Join(Count(q))
  {
    hide Pairs, Quads, Octets, Word, LanePairs, LaneQuads, LaneOctets, NibblesAtMostFour;
    PairsByLane(q.a, q.b, q.c, q.d);
    var a, b, c, d := LanePairs(q.a), LanePairs(q.b), LanePairs(q.c), LanePairs(q.d);
    QuadsByLane(a, b, c, d);
    QuadsAreSmall(q.a);
    QuadsAreSmall(q.b);
    QuadsAreSmall(q.c);
    QuadsAreSmall(q.d);
    OctetsByLane(LaneQuads(a), LaneQuads(b), LaneQuads(c), LaneQuads(d));
  }

  lemma CountIsOnes(q: Lanes)
    ensures Within(Count(q), 8) && Total(Count(q)) == Ones(q.a) + Ones(q.b) + Ones(q.c) + Ones(q.d)
  {
    hide LaneCount, Ones, Value, AtMost;
    LaneCountIsOnes(q.a);
    LaneCountIsOnes(q.b);
    LaneCountIsOnes(q.c);
    LaneCountIsOnes(q.d);
  }

  // ---------- Seven words ----------

  function Plus(w: bv32, v: bv32): bv32 {
    w + v
  }

  function LanePlus(b: bv8, c: bv8): bv8 {
    b + c
  }

  function AddLanes(p: Lanes, q: Lanes): Lanes {
    Lanes(LanePlus(p.a, q.a), LanePlus(p.b, q.b), LanePlus(p.c, q.c), LanePlus(p.d, q.d))
  }

  lemma Increment(b: bv8)
    requires AtMost(b, 254)
    ensures Value(LanePlus(b, 1)) == Value(b) + 1
  {
  }

  predicate Fits(b: bv8, c: bv8) {
    b <= 255 - c
  }

  lemma OneLess(b: bv8, c: bv8)
    requires c != 0 && Fits(b, c)
    ensures Fits(b, c - 1) && AtMost(LanePlus(b, c - 1), 254) && AtMost(c - 1, 254)
    ensures LanePlus(LanePlus(b, c - 1), 1) == LanePlus(b, c) && LanePlus(c - 1, 1) == c
  {
  }

  lemma PlusNothing(b: bv8)
    ensures LanePlus(b, 0) == b && Value(0) == 0
  {
  }

  /** A lane that does not overflow adds as a number. */
  lemma {:induction false} LaneAdds(b: bv8, c: bv8)
    requires Fits(b, c)
    ensures Value(LanePlus(b, c)) == Value(b) + Value(c)
    decreases Value(c)
  {
    hide LanePlus, Value, AtMost, Fits;
    if c == 0 {
      PlusNothing(b);
    } else {
      OneLess(b, c);
      Increment(c - 1);
      Increment(LanePlus(b, c - 1));
      LaneAdds(b, c - 1);
    }
  }

  lemma WordAdds(a: bv8, b: bv8, c: bv8, d: bv8, a': bv8, b': bv8, c': bv8, d': bv8)
    requires a <= 48 && b <= 48 && c <= 48 && d <= 48
    requires a' <= 8 && b' <= 8 && c' <= 8 && d' <= 8
    ensures Plus(Word(a, b, c, d), Word(a', b', c', d')) == Word(a + a', b + b', c + c', d + d')
  {
  }

  lemma WordAddsByLane(a: bv8, b: bv8, c: bv8, d: bv8, a': bv8, b': bv8, c': bv8, d': bv8)
    requires AtMost(a, 48) && AtMost(b, 48) && AtMost(c, 48) && AtMost(d, 48)
    requires AtMost(a', 8) && AtMost(b', 8) && AtMost(c', 8) && AtMost(d', 8)
    ensures Plus(Word(a, b, c, d), Word(a', b', c', d')) ==
            Word(LanePlus(a, a'), LanePlus(b, b'), LanePlus(c, c'), LanePlus(d, d'))
  {
    WordAdds(a, b, c, d, a', b', c', d');
    hide Plus, Word;
  }

  lemma JoinAdds(p: Lanes, q: Lanes)
    requires Within(p, 48) && Within(q, 8)
    ensures Plus(Join(p), Join(q)) == Join(AddLanes(p, q))
  {
    hide Plus, Word, LanePlus, AtMost;
    WordAddsByLane(p.a, p.b, p.c, p.d, q.a, q.b, q.c, q.d);
  }

  lemma LaneLimit(b: bv8, c: bv8, limit: bv8)
    requires AtMost(b, limit) && limit <= 48 && AtMost(c, 8)
    ensures AtMost(LanePlus(b, c), limit + 8) && AtMost(b, 48) && Fits(b, c)
  {
  }

  lemma AddLimits(p: Lanes, q: Lanes, limit: bv8)
    requires limit <= 48 && Within(p, limit) && Within(q, 8)
    ensures Within(AddLanes(p, q), limit + 8) && Within(p, 48)
    ensures Total(AddLanes(p, q)) == Total(p) + Total(q)
  {
    hide LanePlus, AtMost, Fits, Value;
    LaneLimit(p.a, q.a, limit);
    LaneLimit(p.b, q.b, limit);
    LaneLimit(p.c, q.c, limit);
    LaneLimit(p.d, q.d, limit);
    LaneAdds(p.a, q.a);
    LaneAdds(p.b, q.b);
    LaneAdds(p.c, q.c);
    LaneAdds(p.d, q.d);
  }

  /** Adding one more word whose lanes hold at most 8 moves the limit by 8 and the total by its own. */
  lemma AddWord(p: Lanes, q: Lanes, limit: bv8)
    requires limit <= 48 && Within(p, limit) && Within(q, 8)
    ensures Plus(Join(p), Join(q)) == Join(AddLanes(p, q)) && Within(AddLanes(p, q), limit + 8)
    ensures Total(AddLanes(p, q)) == Total(p) + Total(q)
  {
    hide Plus, Join, AddLanes, Within, Total;
    AddLimits(p, q, limit);
    JoinAdds(p, q);
  }

  /** The multiplication gathers the four lanes in the top byte, which the shift brings down. */
  function Gather(w: bv32): bv32 {
    (w * 0x0101_0101) >> 24
  }

  /** Every lane with the next lower one added. */
  function Twice(w: bv32): bv32 {
    w + (w << 8)
  }

  /** The top lane of a word with the third lane added. */
  function GatherPairs(w: bv32): bv32 {
    (w + (w << 16)) >> 24
  }

  lemma ProductIsShifts(w: bv32)
    ensures w * 0x0101_0101 == (w + (w << 8)) + ((w + (w << 8)) << 16)
  {
  }

  lemma GatherIsPairs(w: bv32)
    ensures Gather(w) == GatherPairs(w + (w << 8))
  {
    ProductIsShifts(w);
  }

  lemma TwiceIs(w: bv32)
    ensures Twice(w) == w + (w << 8)
  {
  }

  /** The multiplication is two rounds of adding a shifted copy. */
  lemma GatherInTwoStages(w: bv32)
    ensures Gather(w) == GatherPairs(Twice(w))
  {
    hide Gather, Twice, GatherPairs;
    GatherIsPairs(w);
    TwiceIs(w);
  }

  lemma TwiceAdds(a: bv8, b: bv8, c: bv8, d: bv8)
    requires AtMost(a, 56) && AtMost(b, 56) && AtMost(c, 56) && AtMost(d, 56)
    ensures Twice(Word(a, b, c, d)) == Word(a + b, b + c, c + d, d)
  {
  }

  lemma TwiceByLane(a: bv8, b: bv8, c: bv8, d: bv8)
    requires AtMost(a, 56) && AtMost(b, 56) && AtMost(c, 56) && AtMost(d, 56)
    ensures Twice(Word(a, b, c, d)) == Word(LanePlus(a, b), LanePlus(b, c), LanePlus(c, d), d)
  {
    hide Twice, Word;
    TwiceAdds(a, b, c, d);
  }

  lemma PairsByPlace(a: bv8, b: bv8, c: bv8, d: bv8)
    requires AtMost(a, 112) && AtMost(b, 112) && AtMost(c, 112) && AtMost(d, 112)
    ensures GatherPairs(Word(a, b, c, d)) == LanePlus(a, c) as bv32
  {
  }

  lemma PairLimit(a: bv8, b: bv8)
    requires AtMost(a, 56) && AtMost(b, 56)
    ensures AtMost(LanePlus(a, b), 112) && AtMost(a, 112) && Fits(a, b)
  {
  }

  lemma PairsFit(a: bv8, b: bv8)
    requires AtMost(a, 112) && AtMost(b, 112)
    ensures Fits(a, b)
  {
  }

  /** The multiplication gathers the sum of the four lanes, as a number. */
  lemma WordGathers(a: bv8, b: bv8, c: bv8, d: bv8)
    requires AtMost(a, 56) && AtMost(b, 56) && AtMost(c, 56) && AtMost(d, 56)
    ensures Gather(Word(a, b, c, d)) == LanePlus(LanePlus(a, b), LanePlus(c, d)) as bv32
    ensures Value(LanePlus(LanePlus(a, b), LanePlus(c, d))) == Value(a) + Value(b) + Value(c) + Value(d)
  {
    hide Gather, GatherPairs, Twice, Word, AtMost, LanePlus, Fits, Value;
    GatherInTwoStages(Word(a, b, c, d));
    TwiceByLane(a, b, c, d);
    PairLimit(a, b);
    PairLimit(b, c);
    PairLimit(c, d);
    PairLimit(d, d);
    PairsByPlace(LanePlus(a, b), LanePlus(b, c), LanePlus(c, d), d);
    PairsFit(LanePlus(a, b), LanePlus(c, d));
    LaneAdds(a, b);
    LaneAdds(c, d);
    LaneAdds(LanePlus(a, b), LanePlus(c, d));
  }

  lemma Widen(w: bv32, b: bv8)
    requires w == b as bv32
    ensures WordValue(w) == Value(b)
  {
  }

  /** Even the fullest lanes, 56 each, gather to 224: nothing overflows the top byte. */
  lemma GatherIsTotal(q: Lanes)
    requires Within(q, 56)
    ensures WordValue(Gather(Join(q))) == Total(q)
  {
    hide Gather, Word, LanePlus, AtMost, Value, WordValue;
    WordGathers(q.a, q.b, q.c, q.d);
    Widen(Gather(Join(q)), LanePlus(LanePlus(q.a, q.b), LanePlus(q.c, q.d)));
  }

  function Fold(w: bv32): bv32 {
    Octets(Quads(Pairs(w)))
  }

  /** Seven words, folded, added and gathered: the ones of their twenty-eight bytes. */
  lemma SevenWords(q1: Lanes, q2: Lanes, q3: Lanes, q4: Lanes, q5: Lanes, q6: Lanes, q7: Lanes)
    ensures WordValue(Gather(Plus(Plus(Plus(Plus(Plus(Plus(Fold(Join(q1)), Fold(Join(q2))), Fold(Join(q3))),
                                             Fold(Join(q4))), Fold(Join(q5))), Fold(Join(q6))), Fold(Join(q7))))) ==
            LaneOnes(q1) + LaneOnes(q2) + LaneOnes(q3) + LaneOnes(q4) + LaneOnes(q5) + LaneOnes(q6) + LaneOnes(q7)
  {
    hide WordValue, Gather, Plus, Join, Octets, Quads, Pairs, Count, Within, Total, AddLanes, LaneOnes;
    WordCount(q1);
    WordCount(q2);
    WordCount(q3);
    WordCount(q4);
    WordCount(q5);
    WordCount(q6);
    WordCount(q7);
    var s1 := Count(q1);
    AddWord(s1, Count(q2), 8);
    var s2 := AddLanes(s1, Count(q2));
    AddWord(s2, Count(q3), 16);
    var s3 := AddLanes(s2, Count(q3));
    AddWord(s3, Count(q4), 24);
    var s4 := AddLanes(s3, Count(q4));
    AddWord(s4, Count(q5), 32);
    var s5 := AddLanes(s4, Count(q5));
    AddWord(s5, Count(q6), 40);
    var s6 := AddLanes(s5, Count(q6));
    AddWord(s6, Count(q7), 48);
    GatherIsTotal(AddLanes(s6, Count(q7)));
  }

  function LaneOnes(q: Lanes): nat {
    Ones(q.a) + Ones(q.b) + Ones(q.c) + Ones(q.d)
  }

  lemma WordCount(q: Lanes)
    ensures Fold(Join(q)) == Join(Count(q)) && Within(Count(q), 8) && Total(Count(q)) == LaneOnes(q)
  {
    hide Pairs, Quads, Octets, Join, Count, Within, Total, Ones;
    FoldByLane(q);
    CountIsOnes(q);
  }

  lemma LoadCounts(s: seq<bv8>, bigEndian: bool)
    requires |s| == 4
    ensures LaneOnes(Load(s, bigEndian)) == CountOnes(s)
  {
    hide Ones;
    assert s == [s[0]] + [s[1]] + [s[2]] + [s[3]];
    CountOne(s[0]);
    CountOne(s[1]);
    CountOne(s[2]);
    CountOne(s[3]);
    CountSplit([s[0]], [s[1]]);
    CountSplit([s[0]] + [s[1]], [s[2]]);
    CountSplit([s[0]] + [s[1]] + [s[2]], [s[3]]);
  }

  // ---------- The whole string ----------

  /** The ones of s from at on are those of the next n bytes and of the rest. */
  lemma CountAhead(s: seq<bv8>, at: nat, n: nat)
    requires at + n <= |s|
    ensures CountOnes(s[at..]) == CountOnes(s[at..at + n]) + CountOnes(s[at + n..])
  {
    assert s[at..] == s[at..at + n] + s[at + n..];
    CountSplit(s[at..at + n], s[at + n..]);
  }

  lemma CountStride(s: seq<bv8>, at: nat)
    requires at + 28 <= |s|
    ensures CountOnes(s[at..]) ==
      CountOnes(s[at..at + 4]) + CountOnes(s[at + 4..at + 8]) + CountOnes(s[at + 8..at + 12]) +
      CountOnes(s[at + 12..at + 16]) + CountOnes(s[at + 16..at + 20]) + CountOnes(s[at + 20..at + 24]) +
      CountOnes(s[at + 24..at + 28]) + CountOnes(s[at + 28..])
  {
    hide CountOnes;
    CountAhead(s, at, 4);
    CountAhead(s, at + 4, 4);
    CountAhead(s, at + 8, 4);
    CountAhead(s, at + 12, 4);
    CountAhead(s, at + 16, 4);
    CountAhead(s, at + 20, 4);
    CountAhead(s, at + 24, 4);
  }

  lemma CountByte(s: seq<bv8>, at: nat)
    requires at < |s|
    ensures CountOnes(s[at..]) == BitsInByte(s[at]) + CountOnes(s[at + 1..])
  {
    hide Ones, BitsInByte;
    TableCounts(s[at]);
    assert s[at..][1..] == s[at + 1..];
  }

  /** The ones of the 28 bytes at p, as the loop computes them. */
  method Stride(s: seq<bv8>, p: nat, bigEndian: bool) returns (ones: nat)
    requires p + 28 <= |s|
    ensures CountOnes(s[p..]) == ones + CountOnes(s[p + 28..])
  {
    hide WordValue, Gather, Plus, Join, Octets, Quads, Pairs, Load, CountOnes, LaneOnes;
    var aux1 := Native(s[p..p + 4], bigEndian);
    var aux2 := Native(s[p + 4..p + 8], bigEndian);
    var aux3 := Native(s[p + 8..p + 12], bigEndian);
    var aux4 := Native(s[p + 12..p + 16], bigEndian);
    var aux5 := Native(s[p + 16..p + 20], bigEndian);
    var aux6 := Native(s[p + 20..p + 24], bigEndian);
    var aux7 := Native(s[p + 24..p + 28], bigEndian);
    CountStride(s, p);
    LoadCounts(s[p..p + 4], bigEndian);
    LoadCounts(s[p + 4..p + 8], bigEndian);
    LoadCounts(s[p + 8..p + 12], bigEndian);
    LoadCounts(s[p + 12..p + 16], bigEndian);
    LoadCounts(s[p + 16..p + 20], bigEndian);
    LoadCounts(s[p + 20..p + 24], bigEndian);
    LoadCounts(s[p + 24..p + 28], bigEndian);
    SevenWords(Load(s[p..p + 4], bigEndian), Load(s[p + 4..p + 8], bigEndian), Load(s[p + 8..p + 12], bigEndian),
               Load(s[p + 12..p + 16], bigEndian), Load(s[p + 16..p + 20], bigEndian),
               Load(s[p + 20..p + 24], bigEndian), Load(s[p + 24..p + 28], bigEndian));

    aux1 := Pairs(aux1);
    aux1 := Quads(aux1);
    aux2 := Pairs(aux2);
    aux2 := Quads(aux2);
    aux3 := Pairs(aux3);
    aux3 := Quads(aux3);
    aux4 := Pairs(aux4);
    aux4 := Quads(aux4);
    aux5 := Pairs(aux5);
    aux5 := Quads(aux5);
    aux6 := Pairs(aux6);
    aux6 := Quads(aux6);
    aux7 := Pairs(aux7);
    aux7 := Quads(aux7);
    ones := WordValue(Gather(Plus(Plus(Plus(Plus(Plus(Plus(Octets(aux1), Octets(aux2)), Octets(aux3)), Octets(aux4)),
                                            Octets(aux5)), Octets(aux6)), Octets(aux7))));
  }

  /** redisPopcount of a string that starts at any address, on a machine of either byte order. */
  method RedisPopcount(s: seq<bv8>, address: nat, bigEndian: bool) returns (bits: nat)
    ensures bits == CountOnes(s)
  {
    hide CountOnes, BitsInByte;
    bits := 0;
    var p, count := 0, |s|;
    assert s[0..] == s;
    while (address + p) % 4 != 0 && count != 0
      invariant p <= |s| && p + count == |s| && bits + CountOnes(s[p..]) == CountOnes(s)
      decreases count
    {
      CountByte(s, p);
      bits := bits + BitsInByte(s[p]);
      p := p + 1;
      count := count - 1;
    }
    while count >= 28
      invariant p <= |s| && p + count == |s| && bits + CountOnes(s[p..]) == CountOnes(s)
    {
      var ones := Stride(s, p, bigEndian);
      p := p + 28;
      count := count - 28;
      bits := bits + ones;
    }
    while count != 0
      invariant p <= |s| && p + count == |s| && bits + CountOnes(s[p..]) == CountOnes(s)
      decreases count
    {
      CountByte(s, p);
      bits := bits + BitsInByte(s[p]);
      p := p + 1;
      count := count - 1;
    }
    CountNothing(s[p..]);
  }

  // ---------- BITCOUNT ----------

  /** The byte range BITCOUNT and BITPOS make of a start and an end: negative ones count from the end of the
      string, then both are cut to it. */
  function Clamp(start: int, end: int, length: nat): (int, int) {
    var start' := if start < 0 then length + start else start;
    var end' := if end < 0 then length + end else end;
    var low := if start' < 0 then 0 else start';
    var high := if end' < 0 then 0 else end';
    (low, if high >= length then length - 1 else high)
  }

  /** For a string that is not empty: a start or an end from the front stands for itself, one from the back for its
      distance to it, and what lies outside is moved to the nearest byte; only a start beyond the end stays there, so
      that the range is empty. */
  lemma ClampMeans(start: int, end: int, length: nat)
    requires length > 0
    ensures var (low, high) := Clamp(start, end, length);
            (0 <= start ==> low == start) && (0 <= end < length ==> high == end) &&
            (end >= length ==> high == length - 1) &&
            (start < 0 <= start + length ==> low == start + length) && (start + length < 0 ==> low == 0) &&
            (end < 0 <= end + length ==> high == end + length) && (end + length < 0 ==> high == 0)
  {
  }

  datatype Range = Whole | Between(start: int, end: int)

  /** A range that is not empty lies inside the string. */
  lemma ClampInside(start: int, end: int, length: nat)
    ensures 0 <= Clamp(start, end, length).0 && Clamp(start, end, length).1 < length
  {
  }

  /** The ones in a byte range are the positions of the whole string that fall into it. */
  lemma WindowPositions(s: seq<bv8>, first: nat, last: nat)
    requires first <= last < |s|
    ensures CountOnes(s[first..last + 1]) == |set k: nat | k in Positions(s) && 8 * first <= k < 8 * (last + 1)|
  {
    hide HasBit, CountOnes;
    var w := s[first..last + 1];
    CountIsPositions(w);
    var here := set k: nat | k in Positions(s) && 8 * first <= k < 8 * (last + 1);
    forall k: nat
      ensures k in here <==> 8 * first <= k && k - 8 * first in Positions(w)
    {
      if 8 * first <= k < 8 * (last + 1) {
        var m := k - 8 * first;
        assert k / 8 == first + m / 8 && k % 8 == m % 8;
        assert w[m / 8] == s[k / 8];
      }
    }
    assert here == Shifted(Positions(w), 8 * first);
    ShiftedSize(Positions(w), 8 * first);
  }

  function Shifted(a: set<nat>, shift: nat): (b: set<nat>)
    ensures forall k: nat :: k in b <==> shift <= k && k - shift in a
  {
    set k: nat | k in a :: shift + k
  }

  lemma {:induction false} ShiftedSize(a: set<nat>, shift: nat)
    ensures |Shifted(a, shift)| == |a|
    decreases a
  {
    if a != {} {
      var k :| k in a;
      ShiftedSize(a - {k}, shift);
      assert Shifted(a, shift) == Shifted(a - {k}, shift) + {shift + k};
    }
  }

  /** BITCOUNT of the string a key holds: the ones between the first bit of the start byte and the last bit of
      the end byte. */
  method BitCount(value: seq<bv8>, range: Range, address: nat, bigEndian: bool) returns (count: nat)
    ensures range.Whole? ==> count == |Positions(value)|
    ensures range.Between? ==>
      var (start, end) := Clamp(range.start, range.end, |value|);
      count == |set k: nat | k in Positions(value) && 8 * start <= k < 8 * (end + 1)|
  {
    hide CountOnes, Positions, Clamp;
    CountIsPositions(value);
    var start, end := 0, |value| - 1;
    if range.Between? {
      ClampInside(range.start, range.end, |value|);
      start, end := Clamp(range.start, range.end, |value|).0, Clamp(range.start, range.end, |value|).1;
    }
    if start > end {
      assert (set k: nat | k in Positions(value) && 8 * start <= k < 8 * (end + 1)) == {};
      if value == [] {
        CountNothing(value);
      }
      return 0;
    }
    WindowPositions(value, start, end);
    assert value[0..|value|] == value;
    count := RedisPopcount(value[start..end + 1], address + start, bigEndian);
  }
}
