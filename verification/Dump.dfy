/** The rewritten log: a dataset printed as the commands that rebuild it, with the elements of a
    collection split over commands of bounded length. */
module Dump {
  import opened Wire
  import opened Keyspace
  import opened Commands
  import opened Log
  import opened Coverage
  import Durability

  /** REDIS_AOF_REWRITE_ITEMS_PER_CMD. */
  const ITEMS_PER_CMD := 64

  // ---------- Iterating over a value ----------

  /** The rows an iteration over a collection yields: every element exactly once, a list in order and
      anything else in any order. */
  ghost predicate IsEnumeration(kind: Kind, o: Obj, rows: seq<Row>)
    requires IsKind(o, kind)
  {
    match kind
    case KList => |rows| == |o.items| && forall i :: 0 <= i < |rows| ==> rows[i] == [o.items[i]]
    case KSet =>
      (forall i :: 0 <= i < |rows| ==> |rows[i]| == 1 && rows[i][0] in o.members) &&
      (forall i, j :: 0 <= i < j < |rows| ==> rows[i] != rows[j]) &&
      (forall x :: x in o.members ==> [x] in rows)
    case KZset =>
      (forall i :: 0 <= i < |rows| ==> |rows[i]| == 2 && rows[i][1] in o.scores &&
                                       rows[i][0] == Decimal(o.scores[rows[i][1]])) &&
      (forall i, j :: 0 <= i < j < |rows| ==> rows[i] != rows[j]) &&
      (forall x :: x in o.scores ==> [Decimal(o.scores[x]), x] in rows)
    case KHash =>
      (forall i :: 0 <= i < |rows| ==> |rows[i]| == 2 && rows[i][0] in o.fields &&
                                       rows[i][1] == o.fields[rows[i][0]]) &&
      (forall i, j :: 0 <= i < j < |rows| ==> rows[i] != rows[j]) &&
      (forall x :: x in o.fields ==> [x, o.fields[x]] in rows)
  }

  lemma EnumerationRowsOk(kind: Kind, o: Obj, rows: seq<Row>)
    requires IsKind(o, kind) && IsEnumeration(kind, o, rows)
    ensures RowsOk(kind, rows)
    ensures !IsEmptyObj(o) ==> rows != []
  {
    if kind.KZset? {
      forall i | 0 <= i < |rows|
        ensures RowOk(kind, rows[i])
      {
        ParseIntegerOfDecimal(o.scores[rows[i][1]]);
      }
    }
    if !IsEmptyObj(o) {
      match kind {
        case KList =>
        case KSet => var x :| x in o.members;
        case KZset => var x :| x in o.scores;
        case KHash => var x :| x in o.fields;
      }
    }
  }

  lemma {:induction false} AddList(o: Obj, xs: seq<Bytes>, rows: seq<Row>)
    requires o.List? && |rows| == |xs| && forall i :: 0 <= i < |rows| ==> rows[i] == [xs[i]]
    ensures RowsOk(KList, rows) && AddRows(KList, o, rows) == List(o.items + xs)
    decreases rows
  {
    if rows == [] {
      assert o.items + xs == o.items;
    } else {
      AddList(AddRow(KList, o, rows[0]), xs[1..], rows[1..]);
      assert o.items + [xs[0]] + xs[1..] == o.items + xs;
    }
  }

  lemma {:induction false} AddSet(o: Obj, rows: seq<Row>)
    requires o.Set? && RowsOk(KSet, rows)
    ensures AddRows(KSet, o, rows).members == o.members + set i | 0 <= i < |rows| :: rows[i][0]
    decreases rows
  {
    if rows != [] {
      AddSet(AddRow(KSet, o, rows[0]), rows[1..]);
      assert (set i | 0 <= i < |rows| :: rows[i][0]) == {rows[0][0]} + set i | 0 <= i < |rows[1..]| :: rows[1..][i][0] by {
        assert forall i :: 0 < i < |rows| ==> rows[i] == rows[1..][i - 1];
      }
    }
  }

  lemma {:induction false} AddZset(o: Obj, f: map<Bytes, int>, rows: seq<Row>)
    requires o.Zset? && RowsOk(KZset, rows)
    requires forall i :: 0 <= i < |rows| ==> rows[i][1] in f && ParseInteger(rows[i][0]) == Some(f[rows[i][1]])
    requires forall x :: x in o.scores ==> x in f && o.scores[x] == f[x]
    ensures var r := AddRows(KZset, o, rows).scores;
            (forall x :: x in r ==> x in f && r[x] == f[x]) &&
            (forall x :: x in o.scores ==> x in r) &&
            (forall i :: 0 <= i < |rows| ==> rows[i][1] in r)
    decreases rows
  {
    if rows != [] {
      var next := AddRow(KZset, o, rows[0]);
      AddZset(next, f, rows[1..]);
      assert rows[0][1] in next.scores;
      assert forall i :: 0 < i < |rows| ==> rows[i] == rows[1..][i - 1];
    }
  }

  lemma {:induction false} AddHash(o: Obj, f: map<Bytes, Bytes>, rows: seq<Row>)
    requires o.Hash? && RowsOk(KHash, rows)
    requires forall i :: 0 <= i < |rows| ==> rows[i][0] in f && rows[i][1] == f[rows[i][0]]
    requires forall x :: x in o.fields ==> x in f && o.fields[x] == f[x]
    ensures var r := AddRows(KHash, o, rows).fields;
            (forall x :: x in r ==> x in f && r[x] == f[x]) &&
            (forall x :: x in o.fields ==> x in r) &&
            (forall i :: 0 <= i < |rows| ==> rows[i][0] in r)
    decreases rows
  {
    if rows != [] {
      var next := AddRow(KHash, o, rows[0]);
      AddHash(next, f, rows[1..]);
      assert rows[0][0] in next.fields;
      assert forall i :: 0 < i < |rows| ==> rows[i] == rows[1..][i - 1];
    }
  }

  lemma RebuildsSet(o: Obj, rows: seq<Row>)
    requires o.Set? && IsEnumeration(KSet, o, rows) && RowsOk(KSet, rows)
    ensures AddRows(KSet, Set({}), rows) == o
  {
    hide AddRows;
    AddSet(Set({}), rows);
    forall x | x in o.members
      ensures x in AddRows(KSet, Set({}), rows).members
    {
      var i :| 0 <= i < |rows| && rows[i] == [x];
      assert rows[i][0] == x;
    }
  }

  lemma RebuildsZset(o: Obj, rows: seq<Row>)
    requires o.Zset? && IsEnumeration(KZset, o, rows) && RowsOk(KZset, rows)
    ensures AddRows(KZset, Zset(map[]), rows) == o
  {
    hide AddRows, ParseInteger, Decimal;
    forall i | 0 <= i < |rows|
      ensures ParseInteger(rows[i][0]) == Some(o.scores[rows[i][1]])
    {
      ParseIntegerOfDecimal(o.scores[rows[i][1]]);
    }
    AddZset(Zset(map[]), o.scores, rows);
    var r := AddRows(KZset, Zset(map[]), rows).scores;
    forall x | x in o.scores
      ensures x in r
    {
      var i :| 0 <= i < |rows| && rows[i] == [Decimal(o.scores[x]), x];
      assert rows[i][1] == x;
    }
    assert r == o.scores;
  }

  lemma RebuildsHash(o: Obj, rows: seq<Row>)
    requires o.Hash? && IsEnumeration(KHash, o, rows) && RowsOk(KHash, rows)
    ensures AddRows(KHash, Hash(map[]), rows) == o
  {
    hide AddRows;
    AddHash(Hash(map[]), o.fields, rows);
    var r := AddRows(KHash, Hash(map[]), rows).fields;
    forall x | x in o.fields
      ensures x in r
    {
      var i :| 0 <= i < |rows| && rows[i] == [x, o.fields[x]];
      assert rows[i][0] == x;
    }
    assert r == o.fields;
  }

  /** Adding the rows of an iteration to an empty collection gives the collection back. */
  lemma EnumerationRebuilds(kind: Kind, o: Obj, rows: seq<Row>)
    requires IsKind(o, kind) && IsEnumeration(kind, o, rows)
    ensures RowsOk(kind, rows) && AddRows(kind, EmptyObj(kind), rows) == o
  {
    EnumerationRowsOk(kind, o, rows);
    hide AddRows, RowsOk;
    match kind {
      case KList =>
        AddList(List([]), o.items, rows);
        assert [] + o.items == o.items;
      case KSet => RebuildsSet(o, rows);
      case KZset => RebuildsZset(o, rows);
      case KHash => RebuildsHash(o, rows);
    }
  }

  // ---------- One object ----------

  function Min(a: nat, b: nat): nat {
    if a < b then a else b
  }

  function Flatten(rows: seq<Row>): seq<Bytes> {
    if rows == [] then [] else rows[0] + Flatten(rows[1..])
  }

  function AddName(kind: Kind): Name {
    match kind
    case KList => RPUSH
    case KSet => SADD
    case KZset => ZADD
    case KHash => HMSET
  }

  /** The command name and the key, as each command of an object starts. */
  function Head(kind: Kind, key: Bytes): Argv {
    [Spelling(AddName(kind)), key]
  }

  /** The commands for a collection: at most K rows in each. */
  function Chunks(head: Argv, rows: seq<Row>, K: nat): seq<Argv>
    requires K > 0
  {
    if rows == [] then []
    else
      var m := Min(K, |rows|);
      [head + Flatten(rows[..m])] + Chunks(head, rows[m..], K)
  }

  function AllRows(parts: seq<seq<Row>>): seq<Row> {
    if parts == [] then [] else parts[0] + AllRows(parts[1..])
  }

  /** How a collection is cut: in their order, K rows in every command but the last, which has the rest. */
  lemma {:induction false} ChunkSizes(head: Argv, rows: seq<Row>, K: nat) returns (parts: seq<seq<Row>>)
    requires K > 0
    ensures AllRows(parts) == rows && |parts| == |Chunks(head, rows, K)|
    ensures forall i :: 0 <= i < |parts| ==>
              Chunks(head, rows, K)[i] == head + Flatten(parts[i]) &&
              0 < |parts[i]| <= K && (i < |parts| - 1 ==> |parts[i]| == K)
    decreases rows
  {
    hide Flatten;
    if rows == [] {
      parts := [];
    } else {
      var m := Min(K, |rows|);
      var rest := ChunkSizes(head, rows[m..], K);
      parts := [rows[..m]] + rest;
      assert rows[..m] + rows[m..] == rows;
    }
  }

  lemma {:induction false} ToRowsOfFlatten(rows: seq<Row>, width: nat)
    requires width == 1 || width == 2
    requires forall i :: 0 <= i < |rows| ==> |rows[i]| == width
    ensures |Flatten(rows)| == width * |rows|
    ensures ToRows(Flatten(rows), width) == rows
    decreases rows
  {
    if rows != [] {
      ToRowsOfFlatten(rows[1..], width);
      assert Flatten(rows)[width..] == Flatten(rows[1..]);
      assert Flatten(rows)[..width] == rows[0];
    }
  }

  /** Each command of the rewrite is read as the addition of exactly its rows. */
  lemma ReadChunk(kind: Kind, key: Bytes, rows: seq<Row>)
    requires RowsOk(kind, rows) && rows != []
    ensures Read(Head(kind, key) + Flatten(rows)) == Some(Add(kind, key, rows))
  {
    hide NameOf, Spelling, ToRows, Read, Flatten;
    var argv := Head(kind, key) + Flatten(rows);
    ToRowsOfFlatten(rows, Width(kind));
    assert argv[2..] == Flatten(rows) && argv[1] == key && argv[0] == Spelling(AddName(kind));
    NameOfSpelling(AddName(kind));
    ReadAddCommand(kind, argv);
  }

  lemma ReadAddCommand(kind: Kind, argv: Argv)
    requires |argv| >= 2 + Width(kind) && NameOf(argv[0]) == Some(AddName(kind))
    ensures Read(argv) == Some(ReadAdd(kind, argv))
  {
    hide NameOf, ReadAdd, ReadSetOptions, ParseInteger;
  }

  /** A dataset after more rows have been added to a key. */
  function After(ks: Dataset, k: Key, kind: Kind, rows: seq<Row>): (r: Dataset)
    requires RowsOk(kind, rows) && (k in ks ==> IsKind(ks[k].val, kind))
    ensures k in r ==> IsKind(r[k].val, kind)
  {
    if rows == [] then ks
    else
      var cur := if k in ks then ks[k] else Entry(EmptyObj(kind), None);
      ks[k := cur.(val := AddRows(kind, cur.val, rows))]
  }

  lemma AfterAgain(ks: Dataset, k: Key, kind: Kind, a: seq<Row>, b: seq<Row>)
    requires RowsOk(kind, a) && RowsOk(kind, b) && (k in ks ==> IsKind(ks[k].val, kind))
    ensures RowsOk(kind, a + b) && After(After(ks, k, kind, a), k, kind, b) == After(ks, k, kind, a + b)
  {
    if a == [] {
      assert a + b == b;
    } else if b == [] {
      assert a + b == a;
    } else {
      var cur := if k in ks then ks[k] else Entry(EmptyObj(kind), None);
      AddRowsSplit(kind, cur.val, a, b);
    }
  }

  /** Running one command of the rewrite adds its rows to what is there. */
  lemma RunChunk(ks: Dataset, db: int, kind: Kind, key: Bytes, rows: seq<Row>, now: int)
    requires RowsOk(kind, rows) && rows != []
    requires Key(db, key) in ks ==> IsKind(ks[Key(db, key)].val, kind)
    ensures var argv := Head(kind, key) + Flatten(rows);
            Read(argv).Some? && !Read(argv).value.Select? &&
            Exec(ks, db, argv, Read(argv).value, true, LoadClock(now)).ks == After(ks, Key(db, key), kind, rows)
  {
    ReadChunk(kind, key, rows);
    hide Read, Head, Flatten;
  }

  lemma {:induction false} RunChunks(ks: Dataset, db: int, kind: Kind, key: Bytes, rows: seq<Row>, K: nat, now: int)
    requires RowsOk(kind, rows) && K > 0
    requires Key(db, key) in ks ==> IsKind(ks[Key(db, key)].val, kind)
    ensures var log := Chunks(Head(kind, key), rows, K);
            Readable(log) && NoSelect(log) && RunIn(ks, db, log, now) == After(ks, Key(db, key), kind, rows)
    decreases rows
  {
    hide Read, Exec, Flatten, After;
    if rows == [] {
      assert After(ks, Key(db, key), kind, []) == ks by { NothingAdded(ks, Key(db, key), kind); }
    } else {
      var m, k := Min(K, |rows|), Key(db, key);
      RunChunk(ks, db, kind, key, rows[..m], now);
      RunChunks(After(ks, k, kind, rows[..m]), db, kind, key, rows[m..], K, now);
      assert rows[..m] + rows[m..] == rows;
      AfterAgain(ks, k, kind, rows[..m], rows[m..]);
      ChunksStep(Head(kind, key), rows, K);
      RunInStep(ks, db, Chunks(Head(kind, key), rows, K), now);
    }
  }

  lemma NothingAdded(ks: Dataset, k: Key, kind: Kind)
    requires k in ks ==> IsKind(ks[k].val, kind)
    ensures After(ks, k, kind, []) == ks
  {
  }

  lemma RunInStep(ks: Dataset, db: int, log: seq<Argv>, now: int)
    requires log != [] && log[0] != [] && Read(log[0]).Some? && !Read(log[0]).value.Select?
    requires Readable(log[1..]) && NoSelect(log[1..])
    ensures Readable(log) && NoSelect(log)
    ensures RunIn(ks, db, log, now)
         == RunIn(Exec(ks, db, log[0], Read(log[0]).value, true, LoadClock(now)).ks, db, log[1..], now)
  {
    hide Read, Exec;
    assert forall i :: 0 < i < |log| ==> log[i] == log[1..][i - 1];
  }

  predicate NoSelect(log: seq<Argv>)
    requires Readable(log)
  {
    forall i :: 0 <= i < |log| ==> !Read(log[i]).value.Select?
  }

  lemma ChunksStep(head: Argv, rows: seq<Row>, K: nat)
    requires rows != [] && K > 0
    ensures var m := Min(K, |rows|); var log := Chunks(head, rows, K);
            log != [] && log[0] == head + Flatten(rows[..m]) && log[1..] == Chunks(head, rows[m..], K)
  {
    hide Flatten;
  }

  // ---------- The whole dataset ----------

  function KindOf(o: Obj): Kind
    requires !o.Str?
    ensures IsKind(o, KindOf(o))
  {
    match o
    case List(_) => KList
    case Set(_) => KSet
    case Zset(_) => KZset
    case Hash(_) => KHash
  }

  /** One key as the iteration over a database meets it, with the rows of its collection. */
  datatype Item = Item(name: Bytes, rows: seq<Row>)

  ghost predicate ItemOk(e: Entry, item: Item) {
    !e.val.Str? ==> IsEnumeration(KindOf(e.val), e.val, item.rows)
  }

  /** The rewrite leaves out a key that expired before it read the clock. */
  predicate IsSkipped(e: Entry, now: int) {
    e.GetExpire() != -1 && e.GetExpire() < now
  }

  function ValueLog(o: Obj, item: Item, K: nat): seq<Argv>
    requires K > 0
  {
    if o.Str? then [SetArgv(item.name, o.text)] else Chunks(Head(KindOf(o), item.name), item.rows, K)
  }

  function ItemLog(e: Entry, item: Item, now: int, K: nat): seq<Argv>
    requires K > 0
  {
    if IsSkipped(e, now) then []
    else ValueLog(e.val, item, K) +
         if e.GetExpire() != -1 then [PexpireatArgv(item.name, e.GetExpire())] else []
  }

  predicate InDataset(ks: Dataset, db: int, items: seq<Item>) {
    forall i :: 0 <= i < |items| ==> Key(db, items[i].name) in ks
  }

  function DbLog(ks: Dataset, db: int, items: seq<Item>, now: int, K: nat): seq<Argv>
    requires InDataset(ks, db, items) && K > 0
    decreases items
  {
    if items == [] then []
    else ItemLog(ks[Key(db, items[0].name)], items[0], now, K) + DbLog(ks, db, items[1..], now, K)
  }

  /** A plan of the rewrite: for every database, its keys in the order of the iteration. */
  type Plan = seq<seq<Item>>

  /** The iteration meets exactly the keys of the database, each once. */
  ghost predicate IsIteration(ks: Dataset, db: int, items: seq<Item>) {
    InDataset(ks, db, items) &&
    (forall i :: 0 <= i < |items| ==> ItemOk(ks[Key(db, items[i].name)], items[i])) &&
    (forall i, j :: 0 <= i < j < |items| ==> items[i].name != items[j].name) &&
    (forall k :: k in ks && k.db == db ==> exists i :: 0 <= i < |items| && items[i].name == k.name)
  }

  ghost predicate IsPlan(ks: Dataset, plan: Plan) {
    |plan| == DBNUM && forall db :: 0 <= db < DBNUM ==> IsIteration(ks, db, plan[db])
  }

  predicate PlanInDataset(ks: Dataset, plan: Plan) {
    forall db :: 0 <= db < |plan| ==> InDataset(ks, db, plan[db])
  }

  function DumpFrom(ks: Dataset, plan: Plan, db: nat, now: int, K: nat): seq<Argv>
    requires PlanInDataset(ks, plan) && db <= |plan| && K > 0
    decreases |plan| - db
  {
    if db == |plan| then []
    else
      (if plan[db] == [] then [] else [SelectArgv(db)] + DbLog(ks, db, plan[db], now, K))
        + DumpFrom(ks, plan, db + 1, now, K)
  }

  /** The commands rewriteAppendOnlyFile prints for the dataset. */
  function DumpLog(ks: Dataset, plan: Plan, now: int): seq<Argv>
    requires PlanInDataset(ks, plan)
  {
    DumpFrom(ks, plan, 0, now, ITEMS_PER_CMD)
  }

  // ---------- There is always a plan ----------

  /** The members of a finite set in some order, each once. */
  lemma InSomeOrder(s: set<Bytes>) returns (xs: seq<Bytes>)
    ensures forall i, j :: 0 <= i < j < |xs| ==> xs[i] != xs[j]
    ensures forall x :: x in xs <==> x in s
    decreases s
  {
    if s == {} {
      xs := [];
    } else {
      var x :| x in s;
      var rest := InSomeOrder(s - {x});
      xs := [x] + rest;
    }
  }

  lemma EnumerationExists(o: Obj) returns (rows: seq<Row>)
    requires !o.Str?
    ensures IsEnumeration(KindOf(o), o, rows)
  {
    match o {
      case List(items) =>
        rows := seq(|items|, i requires 0 <= i < |items| => [items[i]]);
      case Set(members) =>
        var xs := InSomeOrder(members);
        rows := seq(|xs|, i requires 0 <= i < |xs| => [xs[i]]);
        forall x | x in members
          ensures [x] in rows
        {
          var i :| 0 <= i < |xs| && xs[i] == x;
          assert rows[i] == [x];
        }
      case Zset(scores) =>
        var xs := InSomeOrder(scores.Keys);
        rows := seq(|xs|, i requires 0 <= i < |xs| => [Decimal(if xs[i] in scores then scores[xs[i]] else 0), xs[i]]);
        forall x | x in scores
          ensures [Decimal(scores[x]), x] in rows
        {
          var i :| 0 <= i < |xs| && xs[i] == x;
          assert rows[i] == [Decimal(scores[x]), x];
        }
      case Hash(fields) =>
        var xs := InSomeOrder(fields.Keys);
        rows := seq(|xs|, i requires 0 <= i < |xs| => [xs[i], if xs[i] in fields then fields[xs[i]] else ""]);
        forall x | x in fields
          ensures [x, fields[x]] in rows
        {
          var i :| 0 <= i < |xs| && xs[i] == x;
          assert rows[i] == [x, fields[x]];
        }
    }
  }

  lemma {:induction false} ItemsExist(ks: Dataset, db: int, names: seq<Bytes>) returns (items: seq<Item>)
    requires forall i :: 0 <= i < |names| ==> Key(db, names[i]) in ks
    ensures |items| == |names|
    ensures forall i :: 0 <= i < |items| ==> items[i].name == names[i] && ItemOk(ks[Key(db, names[i])], items[i])
    decreases names
  {
    hide ItemOk, IsEnumeration;
    if names == [] {
      items := [];
    } else {
      var item := ItemExists(ks[Key(db, names[0])], names[0]);
      assert forall i :: 0 <= i < |names[1..]| ==> names[1..][i] == names[i + 1];
      var rest := ItemsExist(ks, db, names[1..]);
      items := [item] + rest;
    }
  }

  lemma ItemExists(e: Entry, name: Bytes) returns (item: Item)
    ensures item.name == name && ItemOk(e, item)
  {
    item := Item(name, []);
    if !e.val.Str? {
      var rows := EnumerationExists(e.val);
      item := Item(name, rows);
    }
  }

  lemma IterationExists(ks: Dataset, db: int) returns (items: seq<Item>)
    ensures IsIteration(ks, db, items)
  {
    hide ItemOk;
    var names := InSomeOrder(set k | k in ks && k.db == db :: k.name);
    forall i | 0 <= i < |names|
      ensures Key(db, names[i]) in ks
    {
      assert names[i] in names;
    }
    items := ItemsExist(ks, db, names);
    forall k | k in ks && k.db == db
      ensures exists i :: 0 <= i < |items| && items[i].name == k.name
    {
      assert k.name in names;
      var i :| 0 <= i < |names| && names[i] == k.name;
      assert items[i].name == k.name;
    }
  }

  lemma {:induction false} PlanUpTo(ks: Dataset, n: nat) returns (plan: Plan)
    ensures |plan| == n && forall db :: 0 <= db < n ==> IsIteration(ks, db, plan[db])
  {
    hide IsIteration;
    if n == 0 {
      plan := [];
    } else {
      var start := PlanUpTo(ks, n - 1);
      var items := IterationExists(ks, n - 1);
      plan := start + [items];
    }
  }

  /** Every dataset can be iterated over: what is said of all plans is never said of none. */
  lemma PlanExists(ks: Dataset) returns (plan: Plan)
    ensures IsPlan(ks, plan) && PlanInDataset(ks, plan)
  {
    plan := PlanUpTo(ks, DBNUM);
    forall db | 0 <= db < |plan|
      ensures InDataset(ks, db, plan[db])
    {
      assert IsIteration(ks, db, plan[db]);
    }
  }

  // ---------- Replaying a dump ----------

  lemma {:induction false} RunInSplit(ks: Dataset, db: int, a: seq<Argv>, b: seq<Argv>, now: int)
    requires Readable(a) && NoSelect(a) && Readable(b) && NoSelect(b)
    ensures Readable(a + b) && NoSelect(a + b)
    ensures RunIn(ks, db, a + b, now) == RunIn(RunIn(ks, db, a, now), db, b, now)
    decreases a
  {
    hide Read, Exec;
    if a == [] {
      assert a + b == b;
    } else {
      assert (a + b)[1..] == a[1..] + b;
      RunInSplit(Exec(ks, db, a[0], Read(a[0]).value, true, LoadClock(now)).ks, db, a[1..], b, now);
    }
  }

  /** One value, printed and run where the key does not exist. */
  lemma RunValue(R: Dataset, db: int, o: Obj, item: Item, K: nat, now: int)
    requires K > 0 && !IsEmptyObj(o) && ItemOk(Entry(o, None), item) && Key(db, item.name) !in R
    ensures var log := ValueLog(o, item, K);
            Readable(log) && NoSelect(log) &&
            RunIn(R, db, log, now) == R[Key(db, item.name) := Entry(o, None)]
  {
    if o.Str? {
      var argv := SetArgv(item.name, o.text);
      ReadPlainSet(item.name, o.text);
      hide Read;
      Durability.RunInOne(R, db, argv, now);
    } else {
      var kind := KindOf(o);
      EnumerationRebuilds(kind, o, item.rows);
      EnumerationRowsOk(kind, o, item.rows);
      RunChunks(R, db, kind, item.name, item.rows, K, now);
    }
  }

  lemma RunPexpireat(R: Dataset, db: int, name: Bytes, when: int, now: int)
    requires Key(db, name) in R
    ensures var log := [PexpireatArgv(name, when)]; var k := Key(db, name);
            Readable(log) && NoSelect(log) && RunIn(R, db, log, now) == R[k := R[k].(exp := Some(when))]
  {
    ReadPexpireat(name, when);
    hide Read;
    Durability.RunInOne(R, db, PexpireatArgv(name, when), now);
  }

  /** One key of the dump puts back exactly its entry, or nothing if it is skipped. */
  lemma RunItem(R: Dataset, db: int, e: Entry, item: Item, dumped: int, K: nat, now: int)
    requires K > 0 && !IsEmptyObj(e.val) && ItemOk(e, item) && (e.exp.Some? ==> e.exp.value >= 0)
    requires Key(db, item.name) !in R
    ensures var log := ItemLog(e, item, dumped, K);
            Readable(log) && NoSelect(log) &&
            RunIn(R, db, log, now) == if IsSkipped(e, dumped) then R else R[Key(db, item.name) := e]
  {
    if !IsSkipped(e, dumped) {
      hide Read, Exec, RunIn, ValueLog, ItemOk, IsEmptyObj;
      var k := Key(db, item.name);
      assert ItemOk(Entry(e.val, None), item) by { ItemOkIgnoresExpire(e, item); }
      RunValue(R, db, e.val, item, K, now);
      var R1 := R[k := Entry(e.val, None)];
      if e.exp.Some? {
        RunPexpireat(R1, db, item.name, e.exp.value, now);
        RunInSplit(R, db, ValueLog(e.val, item, K), [PexpireatArgv(item.name, e.exp.value)], now);
      } else {
        assert ValueLog(e.val, item, K) + [] == ValueLog(e.val, item, K);
      }
    }
  }

  lemma ItemOkIgnoresExpire(e: Entry, item: Item)
    requires ItemOk(e, item)
    ensures ItemOk(Entry(e.val, None), item)
  {
  }

  /** The entries among the listed keys that the dump does not skip. */
  function Kept(ks: Dataset, db: int, items: seq<Item>, dumped: int): Dataset {
    map k | k in ks && k.db == db && (exists i :: 0 <= i < |items| && items[i].name == k.name)
                    && !IsSkipped(ks[k], dumped) :: ks[k]
  }

  lemma KeptStep(ks: Dataset, R: Dataset, db: int, items: seq<Item>, dumped: int)
    requires items != [] && Key(db, items[0].name) in ks && Key(db, items[0].name) !in R
    requires forall i :: 0 < i < |items| ==> items[i].name != items[0].name
    ensures var k := Key(db, items[0].name);
            (if IsSkipped(ks[k], dumped) then R else R[k := ks[k]]) + Kept(ks, db, items[1..], dumped)
              == R + Kept(ks, db, items, dumped)
  {
    var k := Key(db, items[0].name);
    var a, b := Kept(ks, db, items, dumped), Kept(ks, db, items[1..], dumped);
    assert items[0].name == k.name;
    forall j | j in a && j != k
      ensures j in b
    {
      var i :| 0 <= i < |items| && items[i].name == j.name;
      assert items[1..][i - 1] == items[i];
    }
    forall j | j in b
      ensures j in a && j != k
    {
      var i :| 0 <= i < |items[1..]| && items[1..][i].name == j.name;
      assert items[i + 1] == items[1..][i];
    }
  }

  lemma {:induction false} RunDb(ks: Dataset, R: Dataset, db: int, items: seq<Item>, dumped: int, K: nat, now: int)
    requires K > 0 && Sane(ks) && InDataset(ks, db, items)
    requires forall i :: 0 <= i < |items| ==> ItemOk(ks[Key(db, items[i].name)], items[i])
    requires forall i, j :: 0 <= i < j < |items| ==> items[i].name != items[j].name
    requires forall i :: 0 <= i < |items| ==> Key(db, items[i].name) !in R
    ensures var log := DbLog(ks, db, items, dumped, K);
            Readable(log) && NoSelect(log) &&
            RunIn(R, db, log, now) == R + Kept(ks, db, items, dumped)
    decreases items
  {
    hide Read, Exec, ItemLog, ItemOk, Kept;
    if items == [] {
      NothingKept(ks, R, db, dumped);
    } else {
      var k := Key(db, items[0].name);
      assert SaneAt(k, ks[k]);
      RunItem(R, db, ks[k], items[0], dumped, K, now);
      KeptStep(ks, R, db, items, dumped);
      var R1 := if IsSkipped(ks[k], dumped) then R else R[k := ks[k]];
      RunDb(ks, R1, db, items[1..], dumped, K, now);
      RunInSplit(R, db, ItemLog(ks[k], items[0], dumped, K), DbLog(ks, db, items[1..], dumped, K), now);
    }
  }

  lemma NothingKept(ks: Dataset, R: Dataset, db: int, dumped: int)
    ensures R + Kept(ks, db, [], dumped) == R
  {
    assert Kept(ks, db, [], dumped) == map[];
  }

  /** The live entries of the databases from the given one on. */
  function LiveFrom(ks: Dataset, db: int, dumped: int): Dataset {
    map k | k in ks && k.db >= db && !ks[k].Due(dumped) :: ks[k]
  }

  lemma KeptIsLive(ks: Dataset, R: Dataset, db: int, items: seq<Item>, dumped: int)
    requires Sane(ks) && IsIteration(ks, db, items)
    ensures R + Kept(ks, db, items, dumped) + LiveFrom(ks, db + 1, dumped) == R + LiveFrom(ks, db, dumped)
  {
    KeptAndLater(ks, db, items, dumped);
    hide Kept, LiveFrom, Sane, IsIteration;
    UnionAssoc(R, Kept(ks, db, items, dumped), LiveFrom(ks, db + 1, dumped));
  }

  lemma UnionAssoc(a: Dataset, b: Dataset, c: Dataset)
    ensures a + b + c == a + (b + c)
  {
  }

  lemma KeptAndLater(ks: Dataset, db: int, items: seq<Item>, dumped: int)
    requires Sane(ks) && IsIteration(ks, db, items)
    ensures Kept(ks, db, items, dumped) + LiveFrom(ks, db + 1, dumped) == LiveFrom(ks, db, dumped)
  {
    hide ItemOk;
    forall k | k in ks
      ensures SaneAt(k, ks[k]) && IsSkipped(ks[k], dumped) == ks[k].Due(dumped)
    {
      assert SaneAt(k, ks[k]);
    }
    var a, c := Kept(ks, db, items, dumped), LiveFrom(ks, db, dumped);
    forall k | k in c && k.db == db
      ensures k in a
    {
      var i :| 0 <= i < |items| && items[i].name == k.name;
    }
  }

  lemma {:induction false} ReplayDumpFrom(ks: Dataset, plan: Plan, st: LoadState, db: nat, dumped: int, K: nat, now: int)
    requires K > 0 && Sane(ks) && IsPlan(ks, plan) && db <= DBNUM && PlanInDataset(ks, plan)
    requires forall k :: k in st.ks ==> k.db < db
    ensures var log := DumpFrom(ks, plan, db, dumped, K);
            Readable(log) && Replay(st, log, now).ks == st.ks + LiveFrom(ks, db, dumped)
    decreases DBNUM - db
  {
    hide Read, LoadStep, LiveFrom, DbLog, Kept, RunIn, Sane;
    if db == DBNUM {
      assert st.ks + LiveFrom(ks, db, dumped) == st.ks by { NothingFrom(ks, dumped); }
    } else {
      var items := plan[db];
      assert IsIteration(ks, db, items);
      var rest := DumpFrom(ks, plan, db + 1, dumped, K);
      KeptIsLive(ks, st.ks, db, items, dumped);
      if items == [] {
        NothingKept(ks, st.ks, db, dumped);
        ReplayDumpFrom(ks, plan, st, db + 1, dumped, K, now);
        assert [] + rest == rest;
      } else {
        var log, sel := DbLog(ks, db, items, dumped, K), [SelectArgv(db)];
        RunDb(ks, st.ks, db, items, dumped, K, now);
        var at := LoadState(st.ks, db);
        ReplaySelect(st, db, now);
        ReplayWithoutSelect(at, log, now);
        var next := at.(ks := st.ks + Kept(ks, db, items, dumped));
        KeptInDb(ks, db, items, dumped);
        ReplayDumpFrom(ks, plan, next, db + 1, dumped, K, now);
        ReplaySplit(st, sel, log, now);
        ReplaySplit(st, sel + log, rest, now);
      }
    }
  }

  lemma KeptInDb(ks: Dataset, db: int, items: seq<Item>, dumped: int)
    ensures forall k :: k in Kept(ks, db, items, dumped) ==> k.db == db
  {
  }

  lemma ReplaySelect(st: LoadState, db: int, now: int)
    requires 0 <= db < DBNUM
    ensures Readable([SelectArgv(db)]) && Replay(st, [SelectArgv(db)], now) == st.(sel := db)
  {
    ReadSelect(db);
    hide Read, SelectArgv;
    assert [SelectArgv(db)][1..] == [];
  }

  lemma NothingFrom(ks: Dataset, dumped: int)
    requires Sane(ks)
    ensures LiveFrom(ks, DBNUM, dumped) == map[]
  {
    forall k | k in ks
      ensures k.db < DBNUM
    {
      assert SaneAt(k, ks[k]);
    }
  }

  /** The rewritten log rebuilds exactly the entries that had not expired when the rewrite read the
      clock, at any later clock, whatever order the iterations take. */
  lemma DumpRebuilds(ks: Dataset, plan: Plan, dumped: int, now: int)
    requires Sane(ks) && IsPlan(ks, plan) && PlanInDataset(ks, plan)
    ensures var log := DumpLog(ks, plan, dumped);
            Readable(log) && Replay(FRESH, log, now).ks == Live(ks, dumped)
  {
    ReplayDumpFrom(ks, plan, FRESH, 0, dumped, ITEMS_PER_CMD, now);
    assert map[] + LiveFrom(ks, 0, dumped) == Live(ks, dumped) by {
      forall k | k in ks
        ensures k.db >= 0
      {
        assert SaneAt(k, ks[k]);
      }
    }
  }
}
