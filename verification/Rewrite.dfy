/** The loops of the rewriting child, writing the dump byte by byte. */
module Rewrite {
  import opened Wire
  import opened Keyspace
  import opened Commands
  import opened Log
  import opened Dump

  // ---------- One collection ----------

  /** What is still to be written when r more rows belong to the command begun. */
  ghost function Part(head: Argv, rest: seq<Row>, r: nat): Bytes
    requires r <= |rest|
  {
    EncodeBulks(Flatten(rest[..r])) + EncodeAll(Chunks(head, rest[r..], ITEMS_PER_CMD))
  }

  /** How many rows the command begun still takes, from the loop's own counters. */
  ghost function Left(count: nat, items: nat): nat
    requires count < ITEMS_PER_CMD
  {
    if count == 0 then 0 else Min(ITEMS_PER_CMD - count, items)
  }

  lemma PartStep(head: Argv, rest: seq<Row>, r: nat)
    requires 0 < r <= |rest|
    ensures Part(head, rest, r) == EncodeBulks(rest[0]) + Part(head, rest[1..], r - 1)
  {
    hide EncodeBulks, EncodeAll, Chunks;
    assert rest[..r][1..] == rest[1..][..r - 1];
    assert rest[..r][0] == rest[0];
    assert rest[1..][r - 1..] == rest[r..];
    EncodeBulksSplit(rest[0], Flatten(rest[1..][..r - 1]));
    Assoc(EncodeBulks(rest[0]), EncodeBulks(Flatten(rest[1..][..r - 1])),
          EncodeAll(Chunks(head, rest[r..], ITEMS_PER_CMD)));
  }

  /** A new command starts with the count of all its arguments, its name and the key. */
  lemma PartStart(kind: Kind, key: Bytes, rest: seq<Row>)
    requires rest != [] && forall i :: 0 <= i < |rest| ==> |rest[i]| == Width(kind)
    ensures var m := Min(ITEMS_PER_CMD, |rest|); var head := Head(kind, key);
            Part(head, rest, 0)
              == Header('*', 2 + m * Width(kind)) + EncodeBulk(head[0]) + EncodeBulk(head[1]) + Part(head, rest, m)
  {
    var m, head := Min(ITEMS_PER_CMD, |rest|), Head(kind, key);
    var args, more := Flatten(rest[..m]), Chunks(head, rest[m..], ITEMS_PER_CMD);
    ToRowsOfFlatten(rest[..m], Width(kind));
    ChunksStep(head, rest, ITEMS_PER_CMD);
    hide EncodeBulk, Header, Head, Chunks, Flatten;
    assert EncodeAll(Chunks(head, rest, ITEMS_PER_CMD)) == Encode(head + args) + EncodeAll(more);
    PartOfNone(head, rest);
    EncodeBulksSplit(head, args);
    TwoBulks(head);
    assert |head + args| == 2 + m * Width(kind);
    Assoc(Header('*', 2 + m * Width(kind)), EncodeBulk(head[0]) + EncodeBulk(head[1]), EncodeBulks(args));
    Assoc(Header('*', 2 + m * Width(kind)), EncodeBulk(head[0]), EncodeBulk(head[1]));
    Assoc(Header('*', 2 + m * Width(kind)) + EncodeBulk(head[0]) + EncodeBulk(head[1]), EncodeBulks(args), EncodeAll(more));
  }

  lemma PartOfNone(head: Argv, rest: seq<Row>)
    ensures Part(head, rest, 0) == EncodeAll(Chunks(head, rest, ITEMS_PER_CMD))
  {
    hide Chunks, EncodeAll;
    assert rest[0..] == rest;
    assert Flatten(rest[..0]) == [] && EncodeBulks([]) == [];
  }

  lemma TwoBulks(argv: Argv)
    requires |argv| == 2
    ensures EncodeBulks(argv) == EncodeBulk(argv[0]) + EncodeBulk(argv[1])
  {
    hide EncodeBulk;
    assert argv[1..] == [argv[1]];
    assert EncodeBulks([argv[1]]) == EncodeBulk(argv[1]) + [];
  }

  lemma OneBulk(argv: Argv)
    requires |argv| == 1
    ensures EncodeBulks(argv) == EncodeBulk(argv[0])
  {
    hide EncodeBulk;
    assert EncodeBulks(argv) == EncodeBulk(argv[0]) + [];
  }

  /** rewriteListObject, rewriteSetObject, rewriteSortedSetObject and rewriteHashObject: one loop over
      the rows, with a countdown that opens a new command every ITEMS_PER_CMD rows. */
  method RewriteCollection(w: Bytes, kind: Kind, key: Bytes, rows: seq<Row>) returns (out: Bytes)
    requires forall i :: 0 <= i < |rows| ==> |rows[i]| == Width(kind)
    ensures out == w + EncodeAll(Chunks(Head(kind, key), rows, ITEMS_PER_CMD))
  {
    hide Part, EncodeAll, EncodeBulk, Chunks, Header;
    ghost var head := Head(kind, key);
    ghost var all := EncodeAll(Chunks(head, rows, ITEMS_PER_CMD));
    out := w;
    var count, items, i := 0, |rows|, 0;
    PartOfNone(head, rows);
    assert rows[0..] == rows;
    while i < |rows|
      invariant 0 <= i <= |rows| && items == |rows| - i && 0 <= count < ITEMS_PER_CMD
      invariant out + Part(head, rows[i..], Left(count, items)) == w + all
    {
      ghost var rest, left := rows[i..], Left(count, items);
      if count == 0 {
        var cmdItems := if items > ITEMS_PER_CMD then ITEMS_PER_CMD else items;
        PartStart(kind, key, rest);
        ghost var before := out;
        left := cmdItems;
        out := out + Header('*', 2 + cmdItems * Width(kind));
        out := out + EncodeBulk(Spelling(AddName(kind)));
        out := out + EncodeBulk(key);
        Assoc5(before, Header('*', 2 + cmdItems * Width(kind)), EncodeBulk(head[0]), EncodeBulk(head[1]),
               Part(head, rest, left));
      }
      PartStep(head, rest, left);
      ghost var before := out;
      out := out + EncodeBulk(rows[i][0]);
      if Width(kind) == 2 {
        TwoBulks(rows[i]);
        Assoc(before, EncodeBulk(rows[i][0]), EncodeBulk(rows[i][1]));
        out := out + EncodeBulk(rows[i][1]);
      } else {
        OneBulk(rows[i]);
      }
      Assoc(before, EncodeBulks(rows[i]), Part(head, rest[1..], left - 1));
      assert rest[1..] == rows[i + 1..];
      count := count + 1;
      if count == ITEMS_PER_CMD {
        count := 0;
      }
      items := items - 1;
      i := i + 1;
    }
    NothingLeft(head, rows[i..]);
  }

  lemma Assoc5<T>(a: seq<T>, b: seq<T>, c: seq<T>, d: seq<T>, e: seq<T>)
    ensures a + b + c + d + e == a + (b + c + d + e)
  {
  }

  lemma NothingLeft(head: Argv, rest: seq<Row>)
    requires rest == []
    ensures Part(head, rest, 0) == []
  {
  }

  // ---------- The whole dataset ----------

  lemma NameBulks()
    ensures Header('*', 3) == "*3\r\n"
    ensures EncodeBulk("SET") == "$3\r\nSET\r\n"
    ensures EncodeBulk("PEXPIREAT") == "$9\r\nPEXPIREAT\r\n"
    ensures EncodeBulk("SELECT") == "$6\r\nSELECT\r\n"
  {
    assert Decimal(3) == "3" && Decimal(9) == "9" && Decimal(6) == "6";
  }

  lemma NamePrefixes()
    ensures "*3\r\n$3\r\nSET\r\n" == Header('*', 3) + EncodeBulk("SET")
    ensures "*3\r\n$9\r\nPEXPIREAT\r\n" == Header('*', 3) + EncodeBulk("PEXPIREAT")
  {
    hide EncodeBulk, Header;
    NameBulks();
  }

  lemma SetLiteral(name: Bytes, text: Bytes)
    ensures "*3\r\n$3\r\nSET\r\n" + EncodeBulk(name) + EncodeBulk(text) == Encode(SetArgv(name, text))
  {
    hide EncodeBulk, Header, Encode;
    NamePrefixes();
    ThreeBulks("SET", name, text);
  }

  lemma PexpireatLiteral(name: Bytes, when: int)
    ensures "*3\r\n$9\r\nPEXPIREAT\r\n" + EncodeBulk(name) + EncodeBulk(Decimal(when))
         == Encode(PexpireatArgv(name, when))
  {
    hide EncodeBulk, Header, Encode, Decimal;
    NamePrefixes();
    ThreeBulks("PEXPIREAT", name, Decimal(when));
  }

  lemma ThreeBulks(a: Bytes, b: Bytes, c: Bytes)
    ensures Encode([a, b, c]) == Header('*', 3) + EncodeBulk(a) + EncodeBulk(b) + EncodeBulk(c)
  {
    hide EncodeBulk, Header;
    assert [a, b, c][1..] == [b, c];
    TwoBulks([b, c]);
    Assoc4(Header('*', 3), EncodeBulk(a), EncodeBulk(b), EncodeBulk(c));
  }

  lemma SelectPrefix(db: int)
    ensures "*2\r\n$6\r\nSELECT\r\n" + EncodeBulk(Decimal(db)) == Encode(SelectArgv(db))
  {
    hide EncodeBulk, Header, Decimal;
    SmallHeaders();
    NameBulks();
    assert "*2\r\n$6\r\nSELECT\r\n" == Header('*', 2) + EncodeBulk("SELECT");
    SelectBulks(db);
    Assoc(Header('*', 2), EncodeBulk("SELECT"), EncodeBulk(Decimal(db)));
  }

  /** What is printed for one key that is not skipped. */
  lemma ItemBytes(e: Entry, item: Item, now: int)
    ensures EncodeAll(ItemLog(e, item, now, ITEMS_PER_CMD)) ==
            if IsSkipped(e, now) then [] else
              EncodeAll(ValueLog(e.val, item, ITEMS_PER_CMD)) +
              (if e.GetExpire() != -1 then Encode(PexpireatArgv(item.name, e.GetExpire())) else [])
  {
    hide Encode, ValueLog;
    if !IsSkipped(e, now) {
      var v := ValueLog(e.val, item, ITEMS_PER_CMD);
      if e.GetExpire() != -1 {
        EncodeAllSplit(v, [PexpireatArgv(item.name, e.GetExpire())]);
        EncodeAllOne(PexpireatArgv(item.name, e.GetExpire()));
      } else {
        assert v + [] == v;
        assert EncodeAll(v) + [] == EncodeAll(v);
      }
    }
  }

  /** The body of the loop over the keys of a database. */
  method RewriteKey(w: Bytes, e: Entry, item: Item, now: int) returns (out: Bytes)
    requires ItemOk(e, item)
    ensures out == w + EncodeAll(ItemLog(e, item, now, ITEMS_PER_CMD))
  {
    hide EncodeAll, EncodeBulk, Encode, ItemLog, Chunks;
    ItemBytes(e, item, now);
    out := w;
    var expiretime := e.GetExpire();
    if expiretime != -1 && expiretime < now {
      return;
    }
    ghost var value := EncodeAll(ValueLog(e.val, item, ITEMS_PER_CMD));
    if e.val.Str? {
      out := out + "*3\r\n$3\r\nSET\r\n";
      out := out + EncodeBulk(item.name);
      out := out + EncodeBulk(e.val.text);
      SetLiteral(item.name, e.val.text);
      EncodeAllOne(SetArgv(item.name, e.val.text));
      Assoc4(w, "*3\r\n$3\r\nSET\r\n", EncodeBulk(item.name), EncodeBulk(e.val.text));
    } else {
      EnumerationRowsOk(KindOf(e.val), e.val, item.rows);
      out := RewriteCollection(out, KindOf(e.val), item.name, item.rows);
    }
    assert out == w + value;
    if expiretime != -1 {
      out := out + "*3\r\n$9\r\nPEXPIREAT\r\n";
      out := out + EncodeBulk(item.name);
      out := out + EncodeBulk(Decimal(expiretime));
      PexpireatLiteral(item.name, expiretime);
      Assoc4(w + value, "*3\r\n$9\r\nPEXPIREAT\r\n", EncodeBulk(item.name), EncodeBulk(Decimal(expiretime)));
      Assoc(w, value, Encode(PexpireatArgv(item.name, expiretime)));
    }
  }

  lemma {:induction false} DbLogSplit(ks: Dataset, db: int, a: seq<Item>, b: seq<Item>, now: int, K: nat)
    requires InDataset(ks, db, a) && InDataset(ks, db, b) && K > 0
    ensures InDataset(ks, db, a + b)
    ensures DbLog(ks, db, a + b, now, K) == DbLog(ks, db, a, now, K) + DbLog(ks, db, b, now, K)
    decreases a
  {
    hide ItemLog;
    if a == [] {
      assert a + b == b;
    } else {
      assert (a + b)[1..] == a[1..] + b;
      DbLogSplit(ks, db, a[1..], b, now, K);
      Assoc(ItemLog(ks[Key(db, a[0].name)], a[0], now, K), DbLog(ks, db, a[1..], now, K), DbLog(ks, db, b, now, K));
    }
  }

  lemma DbLogNext(ks: Dataset, db: int, items: seq<Item>, i: nat, now: int)
    requires InDataset(ks, db, items) && i < |items|
    ensures InDataset(ks, db, items[..i]) && InDataset(ks, db, items[..i + 1])
    ensures EncodeAll(DbLog(ks, db, items[..i + 1], now, ITEMS_PER_CMD))
         == EncodeAll(DbLog(ks, db, items[..i], now, ITEMS_PER_CMD))
            + EncodeAll(ItemLog(ks[Key(db, items[i].name)], items[i], now, ITEMS_PER_CMD))
  {
    hide ItemLog, EncodeAll;
    var one := [items[i]];
    assert items[..i + 1] == items[..i] + one && one[1..] == [];
    DbLogSplit(ks, db, items[..i], one, now, ITEMS_PER_CMD);
    var last := ItemLog(ks[Key(db, items[i].name)], items[i], now, ITEMS_PER_CMD);
    assert DbLog(ks, db, one, now, ITEMS_PER_CMD) == last + [] == last;
    EncodeAllSplit(DbLog(ks, db, items[..i], now, ITEMS_PER_CMD), last);
  }

  /** rewriteAppendOnlyFile up to its first fflush: the databases in order, the empty ones left out,
      and every key of each in the order of the iteration. */
  method RewriteAppendOnlyFile(ks: Dataset, plan: Plan, now: int) returns (out: Bytes)
    requires IsPlan(ks, plan) && PlanInDataset(ks, plan)
    ensures out == EncodeAll(DumpLog(ks, plan, now))
  {
    hide EncodeAll, EncodeBulk, Encode, DumpFrom, DbLog;
    out := [];
    var j := 0;
    ghost var all := EncodeAll(DumpLog(ks, plan, now));
    while j < DBNUM
      invariant 0 <= j <= DBNUM
      invariant out + EncodeAll(DumpFrom(ks, plan, j, now, ITEMS_PER_CMD)) == all
    {
      ghost var before, rest := out, EncodeAll(DumpFrom(ks, plan, j + 1, now, ITEMS_PER_CMD));
      DumpFromBytes(ks, plan, j, now);
      if plan[j] != [] {
        out := out + "*2\r\n$6\r\nSELECT\r\n";
        out := out + EncodeBulk(Decimal(j));
        SelectPrefix(j);
        Assoc(before, "*2\r\n$6\r\nSELECT\r\n", EncodeBulk(Decimal(j)));
        out := RewriteDb(out, ks, j, plan[j], now);
        Assoc4(before, Encode(SelectArgv(j)), EncodeAll(DbLog(ks, j, plan[j], now, ITEMS_PER_CMD)), rest);
      }
      j := j + 1;
    }
    NothingToDump(ks, plan, now);
    assert out + [] == out;
  }

  /** The loop over the keys of a database. */
  method RewriteDb(w: Bytes, ks: Dataset, db: int, items: seq<Item>, now: int) returns (out: Bytes)
    requires IsIteration(ks, db, items)
    ensures out == w + EncodeAll(DbLog(ks, db, items, now, ITEMS_PER_CMD))
  {
    hide EncodeAll, ItemLog, ItemOk;
    out := w;
    var i := 0;
    NoKeys(ks, db, now);
    assert items[..0] == [] && w + [] == w;
    while i < |items|
      invariant 0 <= i <= |items| && InDataset(ks, db, items[..i])
      invariant out == w + EncodeAll(DbLog(ks, db, items[..i], now, ITEMS_PER_CMD))
    {
      DbLogNext(ks, db, items, i, now);
      var e := ks[Key(db, items[i].name)];
      Assoc(w, EncodeAll(DbLog(ks, db, items[..i], now, ITEMS_PER_CMD)),
            EncodeAll(ItemLog(e, items[i], now, ITEMS_PER_CMD)));
      out := RewriteKey(out, e, items[i], now);
      i := i + 1;
    }
    assert items[..i] == items;
  }

  lemma NoKeys(ks: Dataset, db: int, now: int)
    ensures InDataset(ks, db, []) && EncodeAll(DbLog(ks, db, [], now, ITEMS_PER_CMD)) == []
  {
  }

  lemma NothingToDump(ks: Dataset, plan: Plan, now: int)
    requires |plan| == DBNUM && PlanInDataset(ks, plan)
    ensures EncodeAll(DumpFrom(ks, plan, DBNUM, now, ITEMS_PER_CMD)) == []
  {
  }

  lemma DumpFromBytes(ks: Dataset, plan: Plan, j: nat, now: int)
    requires j < |plan| && PlanInDataset(ks, plan)
    ensures var rest := EncodeAll(DumpFrom(ks, plan, j + 1, now, ITEMS_PER_CMD));
            EncodeAll(DumpFrom(ks, plan, j, now, ITEMS_PER_CMD)) ==
              if plan[j] == [] then rest
              else Encode(SelectArgv(j)) + EncodeAll(DbLog(ks, j, plan[j], now, ITEMS_PER_CMD)) + rest
  {
    hide EncodeAll, DbLog, Encode, SelectArgv;
    var rest := DumpFrom(ks, plan, j + 1, now, ITEMS_PER_CMD);
    if plan[j] == [] {
      assert [] + rest == rest;
    } else {
      var sel, log := [SelectArgv(j)], DbLog(ks, j, plan[j], now, ITEMS_PER_CMD);
      EncodeAllSplit(sel + log, rest);
      EncodeAllSplit(sel, log);
      EncodeAllOne(SelectArgv(j));
    }
  }
}
