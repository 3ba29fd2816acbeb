/** Keys that no command of a log names: replaying the log with or without them makes no difference elsewhere. */
module SparedKeys {
  import opened Wire
  import opened Keyspace
  import opened Commands
  import opened Log
  import opened Durability

  /** The keys a command names, run in database db. */
  function Named(c: Command, db: int): set<Key> {
    match c
    case Get(key) => {Key(db, key)}
    case SetTo(key, _, _, _, _) => {Key(db, key)}
    case Del(keys) => KeysOf(db, keys)
    case Expire(key, _, _) => {Key(db, key)}
    case Add(_, key, _) => {Key(db, key)}
    case Rename(key, newkey, _) => {Key(db, key), Key(db, newkey)}
    case Move(key, dst) => {Key(db, key), Key(dst, key)}
    case Persist(key) => {Key(db, key)}
    case _ => {}
  }

  /** No command of a log, read with database sel selected, names one of the keys. */
  predicate Spares(sel: int, log: seq<Argv>, keys: set<Key>)
    requires Readable(log)
    decreases log
  {
    log == [] ||
    var c := Read(log[0]).value;
    Named(c, sel) !! keys && Spares(if c.Select? then c.id else sel, log[1..], keys)
  }

  /** What is at the keys in b was there in a. */
  ghost predicate LeftAlone(a: Dataset, b: Dataset, keys: set<Key>) {
    forall k :: k in keys && k in b ==> k in a && b[k] == a[k]
  }

  /** Two outcomes of a command that differ only in that the second lacks the keys, at which the first has changed
      nothing; they may have been flushed. */
  ghost predicate Apart(ks: Dataset, e: Dataset, f: Dataset, keys: set<Key>) {
    f == e - keys && LeftAlone(ks, e, keys)
  }

  lemma PutApart(ks: Dataset, e: Dataset, f: Dataset, keys: set<Key>, k: Key, v: Entry)
    requires Apart(ks, e, f, keys) && k !in keys
    ensures Apart(ks, e[k := v], f[k := v], keys)
    ensures k in e <==> k in f
    ensures k in e ==> e[k] == f[k]
  {
  }

  lemma WithoutApart(ks: Dataset, e: Dataset, f: Dataset, keys: set<Key>, k: Key)
    requires Apart(ks, e, f, keys)
    ensures Apart(ks, Without(e, k), Without(f, k), keys)
  {
    assert Without(f, k) == Without(e, k) - keys;
  }

  lemma MinusApart(ks: Dataset, e: Dataset, f: Dataset, keys: set<Key>, gone: set<Key>)
    requires Apart(ks, e, f, keys)
    ensures Apart(ks, e - gone, f - gone, keys)
  {
    assert f - gone == (e - gone) - keys;
  }

  lemma SameApart(ks: Dataset, keys: set<Key>, k: Key)
    ensures Apart(ks, ks, ks - keys, keys)
    ensures k !in keys ==> (k in ks <==> k in ks - keys)
    ensures k !in keys && k in ks ==> (ks - keys)[k] == ks[k]
  {
  }

  lemma AddApart(ks: Dataset, db: int, argv: Argv, c: Command, keys: set<Key>, now: int)
    requires c.Add? && RowsOk(c.kind, c.rows) && Key(db, c.key) !in keys
    ensures Apart(ks, ExecAdd(ks, db, argv, c, true, LoadClock(now)).ks,
                  ExecAdd(ks - keys, db, argv, c, true, LoadClock(now)).ks, keys)
  {
    hide AddRows, RowsChange, EmptyObj;
    var k := Key(db, c.key);
    SameApart(ks, keys, k);
    var cur := if k in ks then ks[k] else Entry(EmptyObj(c.kind), None);
    if k !in ks || IsKind(cur.val, c.kind) {
      PutApart(ks, ks, ks - keys, keys, k, cur.(val := AddRows(c.kind, cur.val, c.rows)));
    }
    hide Apart;
  }

  lemma RenameApart(ks: Dataset, db: int, argv: Argv, c: Command, keys: set<Key>, now: int)
    requires c.Rename? && Key(db, c.key) !in keys && Key(db, c.newkey) !in keys
    ensures Apart(ks, ExecRename(ks, db, argv, c, true, LoadClock(now)).ks,
                  ExecRename(ks - keys, db, argv, c, true, LoadClock(now)).ks, keys)
  {
    var src, dst := Key(db, c.key), Key(db, c.newkey);
    SameApart(ks, keys, src);
    SameApart(ks, keys, dst);
    if src in ks {
      var moved := Entry(ks[src].val, if ks[src].GetExpire() != -1 then Some(ks[src].GetExpire()) else None);
      PutApart(ks, ks, ks - keys, keys, dst, moved);
      WithoutApart(ks, ks[dst := moved], (ks - keys)[dst := moved], keys, src);
    }
    hide Apart;
  }

  lemma MoveApart(ks: Dataset, db: int, argv: Argv, c: Command, keys: set<Key>, now: int)
    requires c.Move? && Key(db, c.key) !in keys && Key(c.dst, c.key) !in keys
    ensures Apart(ks, ExecMove(ks, db, argv, c, true, LoadClock(now)).ks,
                  ExecMove(ks - keys, db, argv, c, true, LoadClock(now)).ks, keys)
  {
    var src, dst := Key(db, c.key), Key(c.dst, c.key);
    SameApart(ks, keys, src);
    SameApart(ks, keys, dst);
    if src in ks {
      var moved := Entry(ks[src].val, None);
      PutApart(ks, ks, ks - keys, keys, dst, moved);
      WithoutApart(ks, ks[dst := moved], (ks - keys)[dst := moved], keys, src);
    }
    hide Apart;
  }

  /** SET, EXPIRE and PERSIST: at most one entry is put. */
  lemma OneEntryApart(ks: Dataset, db: int, argv: Argv, c: Command, keys: set<Key>, now: int)
    requires c.SetTo? || c.Expire? || c.Persist?
    requires Key(db, c.key) !in keys
    ensures Apart(ks, Exec(ks, db, argv, c, true, LoadClock(now)).ks,
                  Exec(ks - keys, db, argv, c, true, LoadClock(now)).ks, keys)
  {
    var k := Key(db, c.key);
    SameApart(ks, keys, k);
    var e := Exec(ks, db, argv, c, true, LoadClock(now)).ks;
    if e != ks {
      PutApart(ks, ks, ks - keys, keys, k, e[k]);
    }
  }

  lemma DelApart(ks: Dataset, db: int, names: seq<Bytes>, keys: set<Key>, now: int)
    ensures Apart(ks, DelKeys(ks, db, names, true, now).ks, DelKeys(ks - keys, db, names, true, now).ks, keys)
  {
    hide Apart, DelKeys;
    SameApart(ks, keys, Key(db, []));
    DelKeysRemoves(ks, db, names, true, now);
    DelKeysRemoves(ks - keys, db, names, true, now);
    MinusApart(ks, ks, ks - keys, keys, KeysOf(db, names));
  }

  lemma FlushApart(ks: Dataset, db: int, keys: set<Key>)
    ensures Apart(ks, ks - InDb(ks, db), (ks - keys) - InDb(ks - keys, db), keys) && Apart(ks, map[], map[], keys)
  {
    assert (ks - keys) - InDb(ks - keys, db) == (ks - InDb(ks, db)) - keys;
    var none: Dataset := map[];
    assert none - keys == none;
  }

  /** A command that does not name the keys does the same with and without them. */
  lemma ExecApart(ks: Dataset, db: int, argv: Argv, c: Command, keys: set<Key>, now: int)
    requires (c.Add? ==> RowsOk(c.kind, c.rows)) && Named(c, db) !! keys
    ensures Apart(ks, Exec(ks, db, argv, c, true, LoadClock(now)).ks,
                  Exec(ks - keys, db, argv, c, true, LoadClock(now)).ks, keys)
  {
    SameApart(ks, keys, Key(db, []));
    hide Apart, ExecSet, ExecExpire, ExecAdd, ExecRename, ExecMove, DelKeys, InDb, KeysOf;
    match c {
      case SetTo(_, _, _, _, _) => OneEntryApart(ks, db, argv, c, keys, now);
      case Expire(_, _, _) => OneEntryApart(ks, db, argv, c, keys, now);
      case Persist(_) => OneEntryApart(ks, db, argv, c, keys, now);
      case Add(_, _, _) => AddApart(ks, db, argv, c, keys, now);
      case Rename(_, _, _) => RenameApart(ks, db, argv, c, keys, now);
      case Move(_, _) => MoveApart(ks, db, argv, c, keys, now);
      case Del(names) => DelApart(ks, db, names, keys, now);
      case FlushDb => FlushApart(ks, db, keys);
      case FlushAll => FlushApart(ks, db, keys);
      case _ =>
    }
  }

  /** A log that names none of the keys replays alike with and without them, and leaves them alone. */
  lemma {:induction false} ReplaySpares(st: LoadState, log: seq<Argv>, keys: set<Key>, now: int)
    requires Readable(log) && Spares(st.sel, log, keys)
    ensures var a, b := Replay(st, log, now), Replay(st.(ks := st.ks - keys), log, now);
            b == a.(ks := a.ks - keys) && LeftAlone(st.ks, a.ks, keys)
    decreases log
  {
    hide Read, Exec, Named;
    if log != [] {
      var c := Read(log[0]).value;
      if !c.Select? {
        ExecApart(st.ks, st.sel, log[0], c, keys, now);
      }
      var next := LoadStep(st, log[0], now);
      assert LoadStep(st.(ks := st.ks - keys), log[0], now) == next.(ks := next.ks - keys);
      ReplaySpares(next, log[1..], keys, now);
    }
  }
}
