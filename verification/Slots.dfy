/** The cluster's slot index: the skip list that keeps (slot, key) pairs in order, and what is read off it. */
module Slots {
  import opened Wire
  import opened Keyspace
  import Crc16s

  /** The bytes of a name as crc16 sees them. */
  function Octets(name: Bytes): seq<bv8> {
    seq(|name|, i requires 0 <= i < |name| => (name[i] as int) as bv8)
  }

  /** keyHashSlot. */
  function HashSlot(name: Bytes): nat {
    Crc16s.Slot(Octets(name))
  }

  datatype SlotEntry = SlotEntry(slot: nat, name: Bytes)

  function EntryOf(name: Bytes): SlotEntry {
    SlotEntry(HashSlot(name), name)
  }

  // ---------- The order ----------

  /** compareStringObjects: byte by byte, a proper prefix first. */
  predicate NameBefore(a: Bytes, b: Bytes) {
    if b == [] then false
    else if a == [] then true
    else if a[0] != b[0] then a[0] < b[0]
    else NameBefore(a[1..], b[1..])
  }

  predicate Before(x: SlotEntry, y: SlotEntry) {
    x.slot < y.slot || (x.slot == y.slot && NameBefore(x.name, y.name))
  }

  lemma {:induction false} NamesTotal(a: Bytes, b: Bytes)
    ensures a == b || NameBefore(a, b) || NameBefore(b, a)
    ensures !(NameBefore(a, b) && NameBefore(b, a)) && !NameBefore(a, a)
    decreases a
  {
    if a != [] {
      NamesTotal(a[1..], a[1..]);
      if b != [] && a[0] == b[0] {
        NamesTotal(a[1..], b[1..]);
        if a[1..] == b[1..] {
          assert a == [a[0]] + a[1..] && b == [b[0]] + b[1..];
        }
      }
    }
  }

  /** The first byte that differs decides, and a proper prefix comes first. */
  lemma {:induction false} NameBeforeIs(a: Bytes, b: Bytes, i: nat)
    requires i <= |a| && i <= |b| && a[..i] == b[..i] && (i == |a| || i == |b| || a[i] != b[i])
    ensures NameBefore(a, b) <==> i < |b| && (i == |a| || a[i] < b[i])
    decreases i
  {
    if i > 0 {
      assert a[..i][0] == b[..i][0] && a[1..][..i - 1] == a[..i][1..] && b[1..][..i - 1] == b[..i][1..];
      NameBeforeIs(a[1..], b[1..], i - 1);
    }
  }

  lemma {:induction false} NamesTransitive(a: Bytes, b: Bytes, c: Bytes)
    requires NameBefore(a, b) && NameBefore(b, c)
    ensures NameBefore(a, c)
    decreases a
  {
    if a != [] && a[0] == b[0] && b[0] == c[0] {
      NamesTransitive(a[1..], b[1..], c[1..]);
    }
  }

  lemma BeforeIsOrder(x: SlotEntry, y: SlotEntry, z: SlotEntry)
    ensures x == y || Before(x, y) || Before(y, x)
    ensures !Before(x, x) && !(Before(x, y) && Before(y, x))
    ensures Before(x, y) && Before(y, z) ==> Before(x, z)
  {
    hide NameBefore;
    NamesTotal(x.name, y.name);
    NamesTotal(x.name, x.name);
    if Before(x, y) && Before(y, z) && x.slot == y.slot == z.slot {
      NamesTransitive(x.name, y.name, z.name);
    }
  }

  predicate Sorted(s: seq<SlotEntry>) {
    forall i, j :: 0 <= i < j < |s| ==> Before(s[i], s[j])
  }

  /** The index of a key set: its entries, each once, in order. */
  ghost predicate Indexes(s: seq<SlotEntry>, names: set<Bytes>) {
    Sorted(s) && (forall x :: x in s <==> x.name in names && x == EntryOf(x.name))
  }

  lemma SortedOnce(s: seq<SlotEntry>, i: nat, j: nat)
    requires Sorted(s) && i < |s| && j < |s| && s[i] == s[j]
    ensures i == j
  {
    hide Before;
    BeforeIsOrder(s[i], s[i], s[i]);
  }

  lemma HasMember(s: seq<SlotEntry>, t: seq<SlotEntry>)
    requires t != [] && forall x :: x in t ==> x in s
    ensures s != []
  {
    assert t[0] in s;
  }

  /** A key set has only one index. */
  lemma {:induction false} IndexIsUnique(s: seq<SlotEntry>, t: seq<SlotEntry>)
    requires Sorted(s) && Sorted(t) && forall x :: x in s <==> x in t
    ensures s == t
    decreases |s|
  {
    hide Before;
    if s == [] {
      if t != [] {
        HasMember(s, t);
      }
    } else {
      assert s[0] in t && t[0] in s;
      var i :| 0 <= i < |t| && t[i] == s[0];
      var j :| 0 <= j < |s| && s[j] == t[0];
      BeforeIsOrder(s[0], t[0], s[0]);
      assert s[0] == t[0];
      forall x
        ensures x in s[1..] <==> x in t[1..]
      {
        if x in s[1..] {
          var m :| 1 <= m < |s| && s[m] == x;
          BeforeIsOrder(s[0], x, x);
          assert x in t && x != t[0];
        }
        if x in t[1..] {
          var m :| 1 <= m < |t| && t[m] == x;
          BeforeIsOrder(t[0], x, x);
          assert x in s && x != s[0];
        }
      }
      IndexIsUnique(s[1..], t[1..]);
    }
  }

  // ---------- Changing it ----------

  /** zslInsert: in front of the first entry that does not come before it. */
  method ZslInsert(s: seq<SlotEntry>, x: SlotEntry) returns (t: seq<SlotEntry>)
    requires Sorted(s) && x !in s
    ensures Sorted(t) && forall y :: y in t <==> y in s || y == x
  {
    hide Before;
    var i := 0;
    while i < |s| && Before(s[i], x)
      invariant i <= |s| && forall k :: 0 <= k < i ==> Before(s[k], x)
    {
      i := i + 1;
    }
    t := s[..i] + [x] + s[i..];
    if i < |s| {
      BeforeIsOrder(s[i], x, x);
      forall k | i < k < |s|
        ensures Before(x, s[k])
      {
        BeforeIsOrder(x, s[i], s[k]);
      }
    }
    forall y
      ensures y in t <==> y in s || y == x
    {
      assert s == s[..i] + s[i..];
    }
  }

  /** zslDelete. */
  method ZslDelete(s: seq<SlotEntry>, x: SlotEntry) returns (t: seq<SlotEntry>)
    requires Sorted(s)
    ensures Sorted(t) && forall y :: y in t <==> y in s && y != x
  {
    hide Before;
    var i := 0;
    while i < |s| && s[i] != x
      invariant i <= |s| && x !in s[..i]
    {
      i := i + 1;
    }
    if i == |s| {
      return s;
    }
    t := s[..i] + s[i + 1..];
    forall y
      ensures y in t <==> y in s && y != x
    {
      assert s == s[..i] + [x] + s[i + 1..];
      if y in s[i + 1..] {
        BeforeIsOrder(x, x, x);
      }
    }
  }

  // ---------- Reading it ----------

  /** zslFirstInRange for one slot: the position of its first entry, or the length. */
  function FirstIn(s: seq<SlotEntry>, slot: nat): (i: nat)
    ensures i <= |s| && (i < |s| ==> s[i].slot == slot)
    ensures Sorted(s) ==> forall k :: 0 <= k < |s| ==> (s[k].slot == slot ==> i <= k)
    ensures i == |s| ==> forall k :: 0 <= k < |s| ==> s[k].slot != slot
  {
    if s == [] then 0
    else if s[0].slot == slot then 0
    else FirstIn(s[1..], slot) + 1
  }

  /** zslLastInRange for one slot: one past the position of its last entry, or 0. */
  function LastIn(s: seq<SlotEntry>, slot: nat): (i: nat)
    ensures i <= |s| && (i > 0 ==> s[i - 1].slot == slot)
    ensures forall k :: i <= k < |s| ==> s[k].slot != slot
    decreases s
  {
    if s == [] then 0
    else if s[|s| - 1].slot == slot then |s|
    else LastIn(s[..|s| - 1], slot)
  }

  /** The keys of one slot are one stretch of the index. */
  lemma SlotIsStretch(s: seq<SlotEntry>, slot: nat, k: nat)
    requires Sorted(s) && k < |s|
    ensures s[k].slot == slot <==> FirstIn(s, slot) <= k < LastIn(s, slot)
  {
    hide NameBefore, FirstIn, LastIn;
    var i, j := FirstIn(s, slot), LastIn(s, slot);
    if i <= k < j {
      assert i == k || Before(s[i], s[k]);
      assert k == j - 1 || Before(s[k], s[j - 1]);
    }
  }

  /** The keys of a database that hash to a slot. */
  function KeysOf(names: set<Bytes>, slot: nat): set<Bytes> {
    set n | n in names && HashSlot(n) == slot
  }

  lemma InSlice(s: seq<SlotEntry>, i: nat, j: nat, n: Bytes)
    requires i <= j <= |s|
    ensures n in NamesOf(s[i..j]) <==> exists k :: i <= k < j && s[k].name == n
  {
    var w := s[i..j];
    if n in NamesOf(w) {
      var m :| 0 <= m < |w| && w[m].name == n;
      assert s[i + m].name == n;
    }
    if k :| i <= k < j && s[k].name == n {
      assert w[k - i] == s[k];
    }
  }

  lemma IndexedAt(s: seq<SlotEntry>, names: set<Bytes>, k: nat)
    requires Indexes(s, names) && k < |s|
    ensures s[k].name in names && s[k] == EntryOf(s[k].name)
  {
    hide Sorted, HashSlot;
    assert s[k] in s;
  }

  lemma IndexedName(s: seq<SlotEntry>, names: set<Bytes>, n: Bytes) returns (k: nat)
    requires Indexes(s, names) && n in names
    ensures k < |s| && s[k] == EntryOf(n)
  {
    hide Sorted, HashSlot;
    assert EntryOf(n) in s;
    k :| k < |s| && s[k] == EntryOf(n);
  }

  /** The keys of a slot are the names of its stretch. */
  lemma StretchHolds(s: seq<SlotEntry>, names: set<Bytes>, slot: nat, n: Bytes)
    requires Indexes(s, names) && FirstIn(s, slot) <= LastIn(s, slot)
    ensures n in KeysOf(names, slot) <==> n in NamesOf(s[FirstIn(s, slot)..LastIn(s, slot)])
  {
    assert Sorted(s);
    hide Indexes, Sorted, FirstIn, LastIn, HashSlot, NamesOf;
    var i, j := FirstIn(s, slot), LastIn(s, slot);
    InSlice(s, i, j, n);
    if n in KeysOf(names, slot) {
      var k := IndexedName(s, names, n);
      SlotIsStretch(s, slot, k);
    }
    if k :| i <= k < j && s[k].name == n {
      SlotIsStretch(s, slot, k);
      IndexedAt(s, names, k);
    }
  }

  lemma NoStretch(s: seq<SlotEntry>, names: set<Bytes>, slot: nat)
    requires Indexes(s, names) && FirstIn(s, slot) == |s|
    ensures KeysOf(names, slot) == {} && LastIn(s, slot) == 0
  {
    hide Before, FirstIn, LastIn, HashSlot;
    forall n | n in names
      ensures HashSlot(n) != slot
    {
      assert EntryOf(n) in s;
    }
  }

  /** How many entries of the index a slot has: the length of its stretch. */
  lemma StretchCounts(s: seq<SlotEntry>, names: set<Bytes>, slot: nat)
    requires Indexes(s, names)
    ensures |KeysOf(names, slot)| == if FirstIn(s, slot) == |s| then 0 else LastIn(s, slot) - FirstIn(s, slot)
    ensures FirstIn(s, slot) == |s| <==> LastIn(s, slot) == 0
    ensures FirstIn(s, slot) < |s| ==> FirstIn(s, slot) < LastIn(s, slot)
  {
    hide Sorted, FirstIn, LastIn, HashSlot, KeysOf, NamesOf;
    var i, j := FirstIn(s, slot), LastIn(s, slot);
    if i == |s| {
      NoStretch(s, names, slot);
    } else {
      StretchNames(s, slot);
      forall n
        ensures n in KeysOf(names, slot) <==> n in NamesOf(s[i..j])
      {
        StretchHolds(s, names, slot, n);
      }
      assert KeysOf(names, slot) == NamesOf(s[i..j]);
      forall x | x in s[i..j]
        ensures x == EntryOf(x.name)
      {
        assert x in s;
      }
      NamesCount(s[i..j]);
    }
  }

  lemma StretchNames(s: seq<SlotEntry>, slot: nat)
    requires FirstIn(s, slot) < |s| && Sorted(s)
    ensures FirstIn(s, slot) < LastIn(s, slot)
    ensures Sorted(s[FirstIn(s, slot)..LastIn(s, slot)])
  {
    hide Before, FirstIn, LastIn;
    var i := FirstIn(s, slot);
    assert s[i].slot == slot;
  }

  function NamesOf(s: seq<SlotEntry>): set<Bytes> {
    set x | x in s :: x.name
  }

  lemma {:induction false} NamesCount(s: seq<SlotEntry>)
    requires Sorted(s) && forall x :: x in s ==> x == EntryOf(x.name)
    ensures |NamesOf(s)| == |s|
    decreases s
  {
    hide Before, HashSlot;
    if s != [] {
      var rest := s[1..];
      NamesCount(rest);
      assert s == [s[0]] + rest;
      assert NamesOf(s) == {s[0].name} + NamesOf(rest);
      if s[0].name in NamesOf(rest) {
        var x :| x in rest && x.name == s[0].name;
        assert x in s && s[0] in s && x == s[0];
        var k :| 1 <= k < |s| && s[k] == x;
        SortedOnce(s, 0, k);
        assert false;
      }
    }
  }

  /** countKeysInSlot: subtracting the ranks of the last and the first entry gives the number of the keys. */
  method CountKeysInSlot(s: seq<SlotEntry>, slot: nat, ghost names: set<Bytes>) returns (count: int)
    requires Indexes(s, names)
    ensures count == |KeysOf(names, slot)|
  {
    hide Indexes, FirstIn, LastIn, KeysOf;
    count := 0;
    var zn := FirstIn(s, slot);
    StretchCounts(s, names, slot);
    if zn != |s| {
      var rank := zn + 1;
      count := |s| - (rank - 1);
      zn := LastIn(s, slot);
      if zn != 0 {
        rank := zn;
        count := count - (|s| - rank);
      }
    }
  }

  /** getKeysInSlot: up to count keys of the slot, each once, in order; all of them if count allows. */
  method GetKeysInSlot(s: seq<SlotEntry>, slot: nat, count: nat, ghost names: set<Bytes>) returns (keys: seq<Bytes>)
    requires Indexes(s, names)
    ensures |keys| == if |KeysOf(names, slot)| < count then |KeysOf(names, slot)| else count
    ensures forall i :: 0 <= i < |keys| ==> keys[i] in KeysOf(names, slot)
    ensures forall i, j :: 0 <= i < j < |keys| ==> NameBefore(keys[i], keys[j])
  {
    hide FirstIn, LastIn, HashSlot, NameBefore;
    keys := [];
    var n := FirstIn(s, slot);
    var left := count;
    ghost var first, last := n, LastIn(s, slot);
    StretchCounts(s, names, slot);
    while n < |s| && s[n].slot == slot && left != 0
      invariant first <= n <= |s| && |keys| == n - first && left == count - |keys|
      invariant first < |s| ==> n <= last
      invariant forall i :: 0 <= i < |keys| ==> keys[i] == s[first + i].name && s[first + i].slot == slot
    {
      SlotIsStretch(s, slot, n);
      keys := keys + [s[n].name];
      left := left - 1;
      n := n + 1;
    }
    forall i | 0 <= i < |keys|
      ensures keys[i] in KeysOf(names, slot)
    {
      assert s[first + i] in s;
    }
    forall i, j | 0 <= i < j < |keys|
      ensures NameBefore(keys[i], keys[j])
    {
      assert Before(s[first + i], s[first + j]);
    }
    if n < |s| {
      SlotIsStretch(s, slot, n);
    }
  }

  // ---------- Walking a slot while deleting from it ----------

  function NodeAt(s: seq<SlotEntry>, at: nat): Option<SlotEntry> {
    if at < |s| then Some(s[at]) else None
  }

  /** Nothing of the slot lies before a position, nothing of an earlier slot after it. */
  predicate UpToStretch(s: seq<SlotEntry>, slot: nat, at: nat) {
    at <= |s| &&
    (forall k :: 0 <= k < at ==> s[k].slot != slot) && (forall k :: at <= k < |s| ==> s[k].slot >= slot)
  }

  lemma StretchStart(s: seq<SlotEntry>, names: set<Bytes>, slot: nat)
    requires Indexes(s, names)
    ensures UpToStretch(s, slot, FirstIn(s, slot))
  {
    hide FirstIn, HashSlot, NameBefore;
    var at := FirstIn(s, slot);
    forall k | at <= k < |s|
      ensures s[k].slot >= slot
    {
      assert k == at || Before(s[at], s[k]);
    }
  }

  /** Deleting a node of the slot puts the node after it in its place. */
  lemma NodeRemoved(s: seq<SlotEntry>, names: set<Bytes>, at: nat, t: seq<SlotEntry>, slot: nat)
    requires at < |s| && Indexes(s, names) && Indexes(t, names - {s[at].name})
    requires UpToStretch(s, slot, at)
    ensures t == s[..at] + s[at + 1..] && NodeAt(t, at) == NodeAt(s, at + 1) && UpToStretch(t, slot, at)
  {
    hide Before, HashSlot;
    var rest := s[..at] + s[at + 1..];
    forall x
      ensures x in rest <==> x in t
    {
      assert s == s[..at] + [s[at]] + s[at + 1..];
      if x in rest && x.name == s[at].name {
        assert x in s && s[at] in s;
        BeforeIsOrder(x, x, x);
      }
    }
    IndexIsUnique(rest, t);
  }

  lemma StretchOver(s: seq<SlotEntry>, names: set<Bytes>, slot: nat, at: nat)
    requires Indexes(s, names) && UpToStretch(s, slot, at) && (at < |s| ==> s[at].slot != slot)
    ensures KeysOf(names, slot) == {}
  {
    hide HashSlot, NameBefore;
    forall n | n in names
      ensures HashSlot(n) != slot
    {
      var k := IndexedName(s, names, n);
      assert k <= at || Before(s[at], s[k]);
    }
  }
}
