/** What each command does to the keys it names, said of keys, values and expire times: which entry it leaves, that it
    leaves all other keys alone, and what it hands to the log. A server that is loading or is a slave is passive: it
    expires nothing. */
module Meanings {
  import opened Wire
  import opened Keyspace
  import opened Commands
  import opened Durability

  // ---------- Terms ----------

  /** The key is there for a command that looks it up: its expire time, if it has one, is not over. A negative one
      counts as none. */
  predicate Present(ks: Dataset, k: Key, passive: bool, now: int) {
    k in ks && (passive || ks[k].exp.None? || ks[k].exp.value < 0 || now <= ks[k].exp.value)
  }

  /** The DEL that the log gets for a key that is found expired. */
  function Expelled(ks: Dataset, k: Key, passive: bool, now: int): seq<Fed> {
    if k in ks && !Present(ks, k, passive, now) then [Fed(k.db, DelArgv(k.name))] else []
  }

  ghost predicate OthersStay(before: Dataset, after: Dataset, named: set<Key>) {
    forall k :: k !in named ==> (k in after <==> k in before) && (k in before ==> after[k] == before[k])
  }

  // ---------- Lookups ----------

  /** GET, and every other lookup. */
  lemma GetMeans(ks: Dataset, k: Key, passive: bool, now: int)
    ensures var e := Lookup(ks, k, passive, now);
            (k in e.ks <==> Present(ks, k, passive, now)) && OthersStay(ks, e.ks, {k}) &&
            e.feds == Expelled(ks, k, passive, now) && (Present(ks, k, passive, now) ==> e.ks == ks)
  {
  }

  // ---------- SET ----------

  /** Whether NX and XX refuse the SET. */
  predicate Refused(ks: Dataset, k: Key, c: Command, passive: bool, now: int)
    requires c.SetTo?
  {
    (c.nx && Present(ks, k, passive, now)) || (c.xx && !Present(ks, k, passive, now))
  }

  /** SET, SETNX, SETEX and PSETEX: the key has the new value and exactly the expire time asked for, and the command is
      logged; a refused one changes nothing but an expired key. */
  lemma SetMeans(ks: Dataset, db: int, argv: Argv, c: Command, passive: bool, clock: Clock)
    requires c.SetTo?
    ensures var k := Key(db, c.key);
            var e := ExecSet(ks, db, argv, c, passive, clock);
            var refused := Refused(ks, k, c, passive, clock.look);
            OthersStay(ks, e.ks, {k}) &&
            e.feds == Expelled(ks, k, passive, clock.look) + (if refused then [] else [Fed(db, argv)]) &&
            (!refused ==> k in e.ks && e.ks[k].val == Str(c.text) &&
                          e.ks[k].exp == if c.ttl.Some? then Some(clock.check + c.ttl.value) else None) &&
            (refused && Present(ks, k, passive, clock.look) ==> e.ks == ks) &&
            (refused && !Present(ks, k, passive, clock.look) ==> k !in e.ks)
  {
    GetMeans(ks, Key(db, c.key), passive, clock.look);
    hide Lookup, Present;
  }

  // ---------- EXPIRE ----------

  /** EXPIRE, PEXPIRE, EXPIREAT and PEXPIREAT on a key that is there: a time that is over deletes the key, and the log
      gets a DEL; any other is stored, with the value unchanged, and the command is logged. A passive server stores
      either. */
  lemma ExpireMeans(ks: Dataset, db: int, argv: Argv, c: Command, passive: bool, clock: Clock)
    requires c.Expire? && Present(ks, Key(db, c.key), passive, clock.look)
    ensures var k := Key(db, c.key);
            var when := if c.relative then clock.base + c.amount else c.amount;
            var e := ExecExpire(ks, db, argv, c, passive, clock);
            OthersStay(ks, e.ks, {k}) &&
            if when <= clock.check && !passive then k !in e.ks && e.feds == [Fed(db, DelArgv(c.key))]
            else k in e.ks && e.ks[k].val == ks[k].val && e.ks[k].exp == Some(when) && e.feds == [Fed(db, argv)]
  {
    GetMeans(ks, Key(db, c.key), passive, clock.look);
    hide Lookup, Present;
  }

  /** On any other key they do what a lookup does. */
  lemma ExpireOfNothing(ks: Dataset, db: int, argv: Argv, c: Command, passive: bool, clock: Clock)
    requires c.Expire? && !Present(ks, Key(db, c.key), passive, clock.look)
    ensures var k := Key(db, c.key);
            var e := ExecExpire(ks, db, argv, c, passive, clock);
            k !in e.ks && OthersStay(ks, e.ks, {k}) && e.feds == Expelled(ks, k, passive, clock.look)
  {
    GetMeans(ks, Key(db, c.key), passive, clock.look);
    hide Lookup, Present;
  }

  /** PERSIST: an expire time goes, past or not, and nothing else. */
  lemma PersistMeans(ks: Dataset, db: int, argv: Argv, c: Command, passive: bool, clock: Clock)
    requires c.Persist?
    ensures var k := Key(db, c.key);
            var e := Exec(ks, db, argv, c, passive, clock);
            OthersStay(ks, e.ks, {k}) && (k in e.ks <==> k in ks) &&
            (k in ks ==> e.ks[k].val == ks[k].val && e.ks[k].exp.None?) &&
            e.feds == if k in ks && ks[k].exp.Some? then [Fed(db, argv)] else []
  {
  }

  // ---------- RENAME and MOVE ----------

  /** RENAME and RENAMENX of a key that is there to another name: the target takes over its value and its expire time
      and the source goes; but RENAMENX onto a target that is there does nothing. */
  lemma RenameMeans(ks: Dataset, db: int, argv: Argv, c: Command, passive: bool, clock: Clock)
    requires c.Rename? && c.key != c.newkey && Present(ks, Key(db, c.key), passive, clock.look)
    ensures var src, dst := Key(db, c.key), Key(db, c.newkey);
            var e := ExecRename(ks, db, argv, c, passive, clock);
            if c.keepnew && Present(ks, dst, passive, clock.look) then e == Effect(ks, [])
            else
              src !in e.ks && dst in e.ks && e.ks[dst].val == ks[src].val &&
              (ks[src].exp != Some(-1) ==> e.ks[dst].exp == ks[src].exp) &&
              OthersStay(ks, e.ks, {src, dst}) &&
              e.feds == Expelled(ks, dst, passive, clock.look) + [Fed(db, argv)]
  {
    var src, dst := Key(db, c.key), Key(db, c.newkey);
    GetMeans(ks, src, passive, clock.look);
    GetMeans(ks, dst, passive, clock.look);
    assert Lookup(ks, src, passive, clock.look) == Effect(ks, []);
    hide Lookup, Present;
  }

  /** A key renamed to itself, or one that is not there. */
  lemma RenameOfNothing(ks: Dataset, db: int, argv: Argv, c: Command, passive: bool, clock: Clock)
    requires c.Rename? && (c.key == c.newkey || !Present(ks, Key(db, c.key), passive, clock.look))
    ensures var src := Key(db, c.key);
            var e := ExecRename(ks, db, argv, c, passive, clock);
            (c.key == c.newkey ==> e == Effect(ks, [])) && OthersStay(ks, e.ks, {src}) &&
            (c.key != c.newkey ==> src !in e.ks && e.feds == Expelled(ks, src, passive, clock.look))
  {
    GetMeans(ks, Key(db, c.key), passive, clock.look);
    hide Lookup, Present;
  }

  /** MOVE of a key that is there to another database: where the name is free, the value arrives without an expire time
      and the source goes; where it is not, nothing happens. */
  lemma MoveMeans(ks: Dataset, db: int, argv: Argv, c: Command, passive: bool, clock: Clock)
    requires c.Move? && c.dst != db && Present(ks, Key(db, c.key), passive, clock.look)
    ensures var src, dst := Key(db, c.key), Key(c.dst, c.key);
            var e := ExecMove(ks, db, argv, c, passive, clock);
            if Present(ks, dst, passive, clock.look) then e == Effect(ks, [])
            else
              src !in e.ks && dst in e.ks && e.ks[dst].val == ks[src].val && e.ks[dst].exp.None? &&
              OthersStay(ks, e.ks, {src, dst}) &&
              e.feds == Expelled(ks, dst, passive, clock.look) + [Fed(db, argv)]
  {
    var src, dst := Key(db, c.key), Key(c.dst, c.key);
    GetMeans(ks, src, passive, clock.look);
    GetMeans(ks, dst, passive, clock.look);
    assert Lookup(ks, src, passive, clock.look) == Effect(ks, []);
    hide Lookup, Present;
  }

  lemma MoveOfNothing(ks: Dataset, db: int, argv: Argv, c: Command, passive: bool, clock: Clock)
    requires c.Move? && (c.dst == db || !Present(ks, Key(db, c.key), passive, clock.look))
    ensures var src := Key(db, c.key);
            var e := ExecMove(ks, db, argv, c, passive, clock);
            (c.dst == db ==> e == Effect(ks, [])) && OthersStay(ks, e.ks, {src}) &&
            (c.dst != db ==> src !in e.ks && e.feds == Expelled(ks, src, passive, clock.look))
  {
    GetMeans(ks, Key(db, c.key), passive, clock.look);
    hide Lookup, Present;
  }

  // ---------- DEL and the flushes ----------

  /** DEL: exactly the listed keys go; the log gets a DEL for each of them that had expired, and the command itself,
      last, if and only if one of them was there. */
  lemma DelMeans(ks: Dataset, db: int, argv: Argv, c: Command, passive: bool, clock: Clock)
    requires c.Del?
    ensures var e := Exec(ks, db, argv, c, passive, clock);
            var any := exists k :: k in KeysOf(db, c.keys) && Present(ks, k, passive, clock.look);
            OthersStay(ks, e.ks, KeysOf(db, c.keys)) && (forall k :: k in KeysOf(db, c.keys) ==> k !in e.ks) &&
            exists dels :: e.feds == dels + (if any then [Fed(db, argv)] else []) &&
                           DelsOfExpired(ks, KeysOf(db, c.keys), passive, clock.look, dels)
  {
    hide Present, KeysOf;
    DelKeysRemoves(ks, db, c.keys, passive, clock.look);
    DelKeysMeans(ks, db, c.keys, passive, clock.look);
    var d := DelKeys(ks, db, c.keys, passive, clock.look);
    hide DelKeys, DelsOfExpired;
    assert d.feds + [] == d.feds;
    var e := Exec(ks, db, argv, c, passive, clock);
    assert e.feds == d.feds + (if d.any then [Fed(db, argv)] else []);
  }

  predicate IsDel(ks: Dataset, keys: set<Key>, passive: bool, now: int, k: Key, del: Fed) {
    k in keys && k in ks && !Present(ks, k, passive, now) && del == Fed(k.db, DelArgv(k.name))
  }

  ghost predicate IsSomeDel(ks: Dataset, keys: set<Key>, passive: bool, now: int, del: Fed) {
    exists k :: IsDel(ks, keys, passive, now, k, del)
  }

  /** One DEL for each of the keys that has expired, and no other. */
  ghost predicate DelsOfExpired(ks: Dataset, keys: set<Key>, passive: bool, now: int, dels: seq<Fed>) {
    (forall k :: k in keys && k in ks && !Present(ks, k, passive, now) ==> Fed(k.db, DelArgv(k.name)) in dels) &&
    (forall i :: 0 <= i < |dels| ==> IsSomeDel(ks, keys, passive, now, dels[i])) &&
    (forall i, j :: 0 <= i < j < |dels| ==> dels[i] != dels[j])
  }

  lemma {:induction false} DelKeysMeans(ks: Dataset, db: int, names: seq<Bytes>, passive: bool, now: int)
    ensures var d := DelKeys(ks, db, names, passive, now);
            (d.any <==> exists k :: k in KeysOf(db, names) && Present(ks, k, passive, now)) &&
            DelsOfExpired(ks, KeysOf(db, names), passive, now, d.feds)
    decreases names
  {
    if names != [] {
      var k := Key(db, names[0]);
      var l := Lookup(ks, k, passive, now);
      var less := Without(l.ks, k);
      GetMeans(ks, k, passive, now);
      DelKeysMeans(less, db, names[1..], passive, now);
      KeysOfHead(db, names);
      DelsGrow(ks, less, k, KeysOf(db, names[1..]), passive, now, DelKeys(less, db, names[1..], passive, now).feds);
      hide KeysOf, DelKeys, DelsOfExpired, Lookup;
      AnyGrows(ks, less, k, KeysOf(db, names[1..]), passive, now);
    }
  }

  lemma AnyGrows(ks: Dataset, less: Dataset, k: Key, keys: set<Key>, passive: bool, now: int)
    requires less.Keys == ks.Keys - {k} && forall j :: j in less ==> less[j] == ks[j]
    ensures (exists j :: j in {k} + keys && Present(ks, j, passive, now)) <==>
            Present(ks, k, passive, now) || exists j :: j in keys && Present(less, j, passive, now)
  {
    if j :| j in {k} + keys && Present(ks, j, passive, now) {
      assert j == k || (j in keys && Present(less, j, passive, now));
    }
    if Present(ks, k, passive, now) {
      assert k in {k} + keys;
    }
    if j :| j in keys && Present(less, j, passive, now) {
      assert j in {k} + keys && Present(ks, j, passive, now);
    }
  }

  lemma DelsGrow(ks: Dataset, less: Dataset, k: Key, keys: set<Key>, passive: bool, now: int, dels: seq<Fed>)
    requires less.Keys == ks.Keys - {k} && forall j :: j in less ==> less[j] == ks[j]
    requires DelsOfExpired(less, keys, passive, now, dels)
    ensures DelsOfExpired(ks, {k} + keys, passive, now, Expelled(ks, k, passive, now) + dels)
  {
    var one := Expelled(ks, k, passive, now);
    var all := one + dels;
    forall j | j in {k} + keys && j in ks && !Present(ks, j, passive, now)
      ensures Fed(j.db, DelArgv(j.name)) in all
    {
      if j == k {
        assert all[0] == Fed(j.db, DelArgv(j.name));
      } else {
        assert j in less && !Present(less, j, passive, now);
        assert Fed(j.db, DelArgv(j.name)) in dels;
      }
    }
    forall i | 0 <= i < |all|
      ensures IsSomeDel(ks, {k} + keys, passive, now, all[i])
    {
      if i < |one| {
        assert IsDel(ks, {k} + keys, passive, now, k, all[i]);
      } else {
        assert all[i] == dels[i - |one|];
        var j :| IsDel(less, keys, passive, now, j, dels[i - |one|]);
        assert IsDel(ks, {k} + keys, passive, now, j, all[i]);
      }
    }
    forall i, j | 0 <= i < j < |all|
      ensures all[i] != all[j]
    {
      if i >= |one| {
        assert all[i] == dels[i - |one|] && all[j] == dels[j - |one|];
      } else if j >= |one| {
        assert all[j] == dels[j - |one|];
        var m :| IsDel(less, keys, passive, now, m, dels[j - |one|]);
        SameDel(k, m);
      }
    }
  }

  lemma SameDel(k: Key, m: Key)
    ensures Fed(k.db, DelArgv(k.name)) == Fed(m.db, DelArgv(m.name)) ==> k == m
  {
    assert DelArgv(k.name)[1] == k.name && DelArgv(m.name)[1] == m.name;
  }

  /** FLUSHDB: the selected database is emptied and the others stay; it is logged if there was anything. FLUSHALL
      empties them all and is always logged. */
  lemma FlushMeans(ks: Dataset, db: int, argv: Argv, c: Command, passive: bool, clock: Clock)
    requires c.FlushDb? || c.FlushAll?
    ensures var e := Exec(ks, db, argv, c, passive, clock);
            (forall k :: k in e.ks <==> c.FlushDb? && k in ks && k.db != db) &&
            (forall k :: k in e.ks ==> e.ks[k] == ks[k]) &&
            e.feds == if c.FlushAll? || (exists k :: k in ks && k.db == db) then [Fed(db, argv)] else []
  {
    if k :| k in ks && k.db == db {
      assert k in InDb(ks, db);
    }
  }

  // ---------- RPUSH, SADD, ZADD and HMSET ----------

  /** The four adding commands: a value of another type stays; any other value, or an empty one if there is none,
      has the rows added, and keeps its expire time; the command is logged if it counted a change. */
  lemma AddMeans(ks: Dataset, db: int, argv: Argv, c: Command, passive: bool, clock: Clock)
    requires c.Add? && RowsOk(c.kind, c.rows)
    ensures var k := Key(db, c.key);
            var e := ExecAdd(ks, db, argv, c, passive, clock);
            var there := Present(ks, k, passive, clock.look);
            OthersStay(ks, e.ks, {k}) &&
            if there && !IsKind(ks[k].val, c.kind) then e == Effect(ks, [])
            else
              var was := if there then ks[k].val else EmptyObj(c.kind);
              k in e.ks && e.ks[k].val == AddRows(c.kind, was, c.rows) &&
              e.ks[k].exp == (if there then ks[k].exp else None) &&
              e.feds == Expelled(ks, k, passive, clock.look) +
                        if RowsChange(c.kind, was, c.rows) then [Fed(db, argv)] else []
  {
    GetMeans(ks, Key(db, c.key), passive, clock.look);
    hide Lookup, Present, AddRows, RowsChange;
  }

  /** Where a row says which element it is about: the only string, the member, or the field. */
  function NameOfRow(kind: Kind, row: Row): Bytes
    requires RowOk(kind, row)
  {
    if kind.KZset? then row[1] else row[0]
  }

  /** Row i is the last one about its element. */
  ghost predicate LastWord(kind: Kind, rows: seq<Row>, i: nat)
    requires RowsOk(kind, rows) && i < |rows|
  {
    forall j :: i < j < |rows| ==> NameOfRow(kind, rows[j]) != NameOfRow(kind, rows[i])
  }

  lemma LastWordRest(kind: Kind, rows: seq<Row>, i: nat)
    requires RowsOk(kind, rows) && 0 < i < |rows| && LastWord(kind, rows, i)
    ensures RowsOk(kind, rows[1..]) && LastWord(kind, rows[1..], i - 1)
  {
    assert forall j :: 0 <= j < |rows[1..]| ==> rows[1..][j] == rows[j + 1];
  }

  /** RPUSH appends all elements in their order; SADD adds them all. */
  lemma {:induction false} ListAndSetGrow(kind: Kind, o: Obj, rows: seq<Row>)
    requires IsKind(o, kind) && RowsOk(kind, rows) && (kind.KList? || kind.KSet?)
    ensures var r := AddRows(kind, o, rows);
            (kind.KList? ==> r.items == o.items + seq(|rows|, i requires 0 <= i < |rows| => rows[i][0])) &&
            (kind.KSet? ==> forall x :: x in r.members <==>
                              x in o.members || exists i :: 0 <= i < |rows| && rows[i][0] == x)
    decreases rows
  {
    if rows != [] {
      var next := AddRow(kind, o, rows[0]);
      ListAndSetGrow(kind, next, rows[1..]);
      var r := AddRows(kind, o, rows);
      if kind.KList? {
        var heads := seq(|rows|, i requires 0 <= i < |rows| => rows[i][0]);
        var rest := seq(|rows[1..]|, i requires 0 <= i < |rows[1..]| => rows[1..][i][0]);
        assert heads == [rows[0][0]] + rest;
        assert o.items + [rows[0][0]] + rest == o.items + heads;
      } else {
        forall x
          ensures x in r.members <==> x in o.members || exists i :: 0 <= i < |rows| && rows[i][0] == x
        {
          if i :| 0 <= i < |rows| && rows[i][0] == x {
            assert i == 0 || rows[1..][i - 1][0] == x;
          }
          if i :| 0 <= i < |rows[1..]| && rows[1..][i][0] == x {
            assert rows[i + 1][0] == x;
          }
        }
      }
    }
  }

  lemma {:induction false} ScoreStays(o: Obj, rows: seq<Row>, m: Bytes)
    requires o.Zset? && RowsOk(KZset, rows) && forall i :: 0 <= i < |rows| ==> rows[i][1] != m
    ensures var r := AddRows(KZset, o, rows);
            (m in r.scores <==> m in o.scores) && (m in o.scores ==> r.scores[m] == o.scores[m])
    decreases rows
  {
    if rows != [] {
      assert rows[0][1] != m && forall i :: 0 <= i < |rows[1..]| ==> rows[1..][i] == rows[i + 1];
      ScoreStays(AddRow(KZset, o, rows[0]), rows[1..], m);
    }
  }

  lemma {:induction false} ScoreIsSet(o: Obj, rows: seq<Row>, i: nat)
    requires o.Zset? && RowsOk(KZset, rows) && i < |rows| && LastWord(KZset, rows, i)
    ensures var r := AddRows(KZset, o, rows);
            rows[i][1] in r.scores && r.scores[rows[i][1]] == ParseInteger(rows[i][0]).value
    decreases rows
  {
    var next, rest := AddRow(KZset, o, rows[0]), rows[1..];
    assert forall j :: 0 <= j < |rest| ==> rest[j] == rows[j + 1];
    hide ParseInteger;
    if i == 0 {
      assert forall j :: 0 <= j < |rest| ==> NameOfRow(KZset, rows[j + 1]) == rest[j][1];
      ScoreStays(next, rest, rows[0][1]);
    } else {
      LastWordRest(KZset, rows, i);
      ScoreIsSet(next, rest, i - 1);
    }
  }

  /** ZADD: every member named has the score of the last row about it, new or not, and the others keep theirs. */
  lemma ScoresAreSet(o: Obj, rows: seq<Row>)
    requires o.Zset? && RowsOk(KZset, rows)
    ensures var r := AddRows(KZset, o, rows);
            (forall i :: 0 <= i < |rows| && LastWord(KZset, rows, i) ==>
               rows[i][1] in r.scores && r.scores[rows[i][1]] == ParseInteger(rows[i][0]).value) &&
            (forall m :: (forall i :: 0 <= i < |rows| ==> rows[i][1] != m) ==>
               (m in r.scores <==> m in o.scores) && (m in o.scores ==> r.scores[m] == o.scores[m]))
  {
    hide AddRows, LastWord, ParseInteger;
    var r := AddRows(KZset, o, rows);
    forall i | 0 <= i < |rows| && LastWord(KZset, rows, i)
      ensures rows[i][1] in r.scores && r.scores[rows[i][1]] == ParseInteger(rows[i][0]).value
    {
      ScoreIsSet(o, rows, i);
    }
    forall m | forall i :: 0 <= i < |rows| ==> rows[i][1] != m
      ensures (m in r.scores <==> m in o.scores) && (m in o.scores ==> r.scores[m] == o.scores[m])
    {
      ScoreStays(o, rows, m);
    }
  }

  lemma {:induction false} FieldStays(o: Obj, rows: seq<Row>, f: Bytes)
    requires o.Hash? && RowsOk(KHash, rows) && forall i :: 0 <= i < |rows| ==> rows[i][0] != f
    ensures var r := AddRows(KHash, o, rows);
            (f in r.fields <==> f in o.fields) && (f in o.fields ==> r.fields[f] == o.fields[f])
    decreases rows
  {
    if rows != [] {
      assert rows[0][0] != f && forall i :: 0 <= i < |rows[1..]| ==> rows[1..][i] == rows[i + 1];
      FieldStays(AddRow(KHash, o, rows[0]), rows[1..], f);
    }
  }

  lemma {:induction false} FieldIsSet(o: Obj, rows: seq<Row>, i: nat)
    requires o.Hash? && RowsOk(KHash, rows) && i < |rows| && LastWord(KHash, rows, i)
    ensures var r := AddRows(KHash, o, rows); rows[i][0] in r.fields && r.fields[rows[i][0]] == rows[i][1]
    decreases rows
  {
    var next, rest := AddRow(KHash, o, rows[0]), rows[1..];
    assert forall j :: 0 <= j < |rest| ==> rest[j] == rows[j + 1];
    if i == 0 {
      assert forall j :: 0 <= j < |rest| ==> NameOfRow(KHash, rows[j + 1]) == rest[j][0];
      FieldStays(next, rest, rows[0][0]);
    } else {
      LastWordRest(KHash, rows, i);
      FieldIsSet(next, rest, i - 1);
    }
  }

  /** HMSET: every field named has the value of the last row about it, new or not, and the others keep theirs. */
  lemma FieldsAreSet(o: Obj, rows: seq<Row>)
    requires o.Hash? && RowsOk(KHash, rows)
    ensures var r := AddRows(KHash, o, rows);
            (forall i :: 0 <= i < |rows| && LastWord(KHash, rows, i) ==>
               rows[i][0] in r.fields && r.fields[rows[i][0]] == rows[i][1]) &&
            (forall f :: (forall i :: 0 <= i < |rows| ==> rows[i][0] != f) ==>
               (f in r.fields <==> f in o.fields) && (f in o.fields ==> r.fields[f] == o.fields[f]))
  {
    hide AddRows, LastWord;
    var r := AddRows(KHash, o, rows);
    forall i | 0 <= i < |rows| && LastWord(KHash, rows, i)
      ensures rows[i][0] in r.fields && r.fields[rows[i][0]] == rows[i][1]
    {
      FieldIsSet(o, rows, i);
    }
    forall f | forall i :: 0 <= i < |rows| ==> rows[i][0] != f
      ensures (f in r.fields <==> f in o.fields) && (f in o.fields ==> r.fields[f] == o.fields[f])
    {
      FieldStays(o, rows, f);
    }
  }

  /** What counts as a change: RPUSH and HMSET always, SADD a new element, ZADD a new member or another score. */
  lemma {:induction false} ChangesCounted(kind: Kind, o: Obj, rows: seq<Row>)
    requires IsKind(o, kind) && RowsOk(kind, rows)
    ensures RowsChange(kind, o, rows) <==>
            match kind
            case KList => rows != []
            case KHash => rows != []
            case KSet => exists i :: 0 <= i < |rows| && rows[i][0] !in o.members
            case KZset => exists i :: 0 <= i < |rows| &&
                            !(rows[i][1] in o.scores && o.scores[rows[i][1]] == ParseInteger(rows[i][0]).value)
    decreases rows
  {
    if rows != [] && !RowChanges(kind, o, rows[0]) {
      assert AddRow(kind, o, rows[0]) == o;
      ChangesCounted(kind, o, rows[1..]);
      assert forall i :: 0 < i < |rows| ==> rows[i] == rows[1..][i - 1];
      if kind.KSet? {
        if i :| 0 <= i < |rows| && rows[i][0] !in o.members {
          assert rows[1..][i - 1][0] !in o.members;
        }
      }
      if kind.KZset? {
        if i :| 0 <= i < |rows| && !(rows[i][1] in o.scores && o.scores[rows[i][1]] == ParseInteger(rows[i][0]).value) {
          var row := rows[1..][i - 1];
          assert !(row[1] in o.scores && o.scores[row[1]] == ParseInteger(row[0]).value);
        }
      }
    } else if rows != [] {
      assert RowChanges(kind, o, rows[0]);
    }
  }
}
