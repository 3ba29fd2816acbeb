/** What runs leave in their logs, and what the time of a load does to it: a later load gives the same values under the
    same keys and lets none expire earlier, and a log without times to live does not care at all. */
module PlainLogs {
  import opened Wire
  import opened Keyspace
  import opened Commands
  import opened Log
  import opened Coverage
  import opened Durability
  import opened Dump
  import opened Protocol
  import opened Safety

  // ---------- The commands of a log ----------

  predicate PlainCommand(c: Command, steady: bool) {
    (c.SetTo? && c.ttl.Some? ==> c.ttl.value > 0 && !steady) && (c.Expire? ==> !c.relative && c.amount >= 0) &&
    (c.Add? ==> c.rows != [])
  }

  /** A command as every run leaves it in its log: expire times are absolute. In a steady log that goes for the times to
      live of SET as well. */
  predicate Plain(argv: Argv, steady: bool) {
    argv != [] && Read(argv).Some? && PlainCommand(Read(argv).value, steady)
  }

  predicate AllPlain(log: seq<Argv>, steady: bool) {
    forall i :: 0 <= i < |log| ==> Plain(log[i], steady)
  }

  // ---------- Replaying them at two times ----------

  /** B holds what A holds, but may let it live longer. */
  ghost predicate Delays(A: Dataset, B: Dataset) {
    A.Keys == B.Keys && Sane(A) && Sane(B) && forall k :: k in A ==> EntryCovers(A[k], B[k], false)
  }

  /** Only for a steady log the order of the two times is of no interest. */
  predicate InOrder(t: int, u: int, steady: bool) {
    steady || 0 <= t <= u
  }

  lemma DelaysPut(A: Dataset, B: Dataset, k: Key, a: Entry, b: Entry)
    requires Delays(A, B) && SaneAt(k, a) && SaneAt(k, b) && EntryCovers(a, b, false)
    ensures Delays(A[k := a], B[k := b])
  {
    hide SaneAt, EntryCovers;
  }

  lemma DelaysMinus(A: Dataset, B: Dataset, gone: set<Key>)
    requires Delays(A, B)
    ensures Delays(A - gone, B - gone)
  {
    hide SaneAt, EntryCovers;
  }

  lemma DelaysWithout(A: Dataset, B: Dataset, k: Key)
    requires Delays(A, B)
    ensures Delays(Without(A, k), Without(B, k))
  {
    hide SaneAt, EntryCovers;
  }

  lemma DelaysAt(A: Dataset, B: Dataset, k: Key)
    requires Delays(A, B) && k in A
    ensures k in B && SaneAt(k, A[k]) && SaneAt(k, B[k]) && EntryCovers(A[k], B[k], false)
  {
  }

  lemma DelaysBoth(A: Dataset, B: Dataset)
    requires Delays(A, B) && Delays(B, A)
    ensures A == B
  {
    hide SaneAt;
  }

  lemma SetDelays(A: Dataset, B: Dataset, db: int, argv: Argv, c: Command, t: int, u: int, steady: bool)
    requires c.SetTo? && PlainCommand(c, steady) && Delays(A, B) && 0 <= db < DBNUM && InOrder(t, u, steady)
    ensures Delays(ExecSet(A, db, argv, c, true, LoadClock(t)).ks, ExecSet(B, db, argv, c, true, LoadClock(u)).ks)
  {
    var k := Key(db, c.key);
    if !((c.nx && k in A) || (c.xx && k !in A)) {
      var a := Entry(Str(c.text), if c.ttl.Some? then Some(t + c.ttl.value) else None);
      var b := Entry(Str(c.text), if c.ttl.Some? then Some(u + c.ttl.value) else None);
      DelaysPut(A, B, k, a, b);
    }
    hide SaneAt, EntryCovers;
  }

  lemma ExpireDelays(A: Dataset, B: Dataset, db: int, argv: Argv, c: Command, t: int, u: int)
    requires c.Expire? && !c.relative && c.amount >= 0 && Delays(A, B) && 0 <= db < DBNUM
    ensures Delays(ExecExpire(A, db, argv, c, true, LoadClock(t)).ks, ExecExpire(B, db, argv, c, true, LoadClock(u)).ks)
  {
    hide IsEmptyObj;
    var k := Key(db, c.key);
    if k in A {
      DelaysAt(A, B, k);
      DelaysPut(A, B, k, A[k].(exp := Some(c.amount)), B[k].(exp := Some(c.amount)));
    }
    hide SaneAt, EntryCovers, Delays;
  }

  lemma AddDelays(A: Dataset, B: Dataset, db: int, argv: Argv, c: Command, t: int, u: int)
    requires c.Add? && RowsOk(c.kind, c.rows) && c.rows != [] && Delays(A, B) && 0 <= db < DBNUM
    ensures Delays(ExecAdd(A, db, argv, c, true, LoadClock(t)).ks, ExecAdd(B, db, argv, c, true, LoadClock(u)).ks)
  {
    hide IsEmptyObj, AddRows, RowsChange;
    var k := Key(db, c.key);
    if k in A {
      DelaysAt(A, B, k);
    }
    var a := if k in A then A[k] else Entry(EmptyObj(c.kind), None);
    var b := if k in B then B[k] else Entry(EmptyObj(c.kind), None);
    if k !in A || IsKind(a.val, c.kind) {
      AddedIsNotEmpty(c.kind, a.val, c.rows);
      DelaysPut(A, B, k, a.(val := AddRows(c.kind, a.val, c.rows)), b.(val := AddRows(c.kind, b.val, c.rows)));
    }
    hide SaneAt, EntryCovers;
  }

  lemma RenameDelays(A: Dataset, B: Dataset, db: int, argv: Argv, c: Command, t: int, u: int)
    requires c.Rename? && Delays(A, B) && 0 <= db < DBNUM
    ensures Delays(ExecRename(A, db, argv, c, true, LoadClock(t)).ks, ExecRename(B, db, argv, c, true, LoadClock(u)).ks)
  {
    hide IsEmptyObj;
    var src, dst := Key(db, c.key), Key(db, c.newkey);
    if src in A && src != dst {
      DelaysAt(A, B, src);
      DelaysPut(A, B, dst, A[src], B[src]);
      DelaysWithout(A[dst := A[src]], B[dst := B[src]], src);
    }
    hide Delays;
  }

  lemma MoveDelays(A: Dataset, B: Dataset, db: int, argv: Argv, c: Command, t: int, u: int)
    requires c.Move? && 0 <= c.dst < DBNUM && Delays(A, B) && 0 <= db < DBNUM
    ensures Delays(ExecMove(A, db, argv, c, true, LoadClock(t)).ks, ExecMove(B, db, argv, c, true, LoadClock(u)).ks)
  {
    hide IsEmptyObj;
    var src, dst := Key(db, c.key), Key(c.dst, c.key);
    if src in A && src != dst {
      DelaysAt(A, B, src);
      var a, b := Entry(A[src].val, None), Entry(B[src].val, None);
      DelaysPut(A, B, dst, a, b);
      DelaysWithout(A[dst := a], B[dst := b], src);
    }
    hide SaneAt, EntryCovers;
  }

  lemma DelDelays(A: Dataset, B: Dataset, db: int, keys: seq<Bytes>, t: int, u: int)
    requires Delays(A, B)
    ensures Delays(DelKeys(A, db, keys, true, t).ks, DelKeys(B, db, keys, true, u).ks)
  {
    hide Delays, DelKeys;
    DelKeysRemoves(A, db, keys, true, t);
    DelKeysRemoves(B, db, keys, true, u);
    DelaysMinus(A, B, KeysOf(db, keys));
  }

  lemma FlushDelays(A: Dataset, B: Dataset, db: int)
    requires Delays(A, B)
    ensures Delays(A - InDb(A, db), B - InDb(B, db)) && Delays(map[], map[])
  {
    DelaysMinus(A, B, InDb(A, db));
    assert InDb(A, db) == InDb(B, db);
    hide SaneAt, EntryCovers, InDb;
  }

  lemma PersistDelays(A: Dataset, B: Dataset, k: Key)
    requires Delays(A, B) && k in A
    ensures k in B && A[k].exp.Some? == B[k].exp.Some?
    ensures Delays(A[k := A[k].(exp := None)], B[k := B[k].(exp := None)])
  {
    hide IsEmptyObj;
    DelaysAt(A, B, k);
    DelaysPut(A, B, k, A[k].(exp := None), B[k].(exp := None));
    hide Delays;
  }

  lemma SelectInRange(argv: Argv)
    requires Read(argv).Some? && Read(argv).value.Select?
    ensures 0 <= Read(argv).value.id < DBNUM
  {
    hide NameOf;
  }

  /** One command, loaded later into what lives longer, leaves what lives longer. */
  lemma StepDelays(p: LoadState, q: LoadState, argv: Argv, t: int, u: int, steady: bool)
    requires Plain(argv, steady) && InOrder(t, u, steady)
    requires Delays(p.ks, q.ks) && p.sel == q.sel && 0 <= p.sel < DBNUM
    ensures var p', q' := LoadStep(p, argv, t), LoadStep(q, argv, u);
            Delays(p'.ks, q'.ks) && p'.sel == q'.sel && 0 <= p'.sel < DBNUM
  {
    var c, db := Read(argv).value, p.sel;
    if c.Move? {
      MoveTargetExists(argv);
    }
    if c.Select? {
      SelectInRange(argv);
    }
    hide Read, ExecSet, ExecExpire, ExecAdd, ExecRename, ExecMove, DelKeys, InDb, Delays;
    match c {
      case SetTo(_, _, _, _, _) => SetDelays(p.ks, q.ks, db, argv, c, t, u, steady);
      case Expire(_, _, _) => ExpireDelays(p.ks, q.ks, db, argv, c, t, u);
      case Add(_, _, _) => AddDelays(p.ks, q.ks, db, argv, c, t, u);
      case Rename(_, _, _) => RenameDelays(p.ks, q.ks, db, argv, c, t, u);
      case Move(_, _) => MoveDelays(p.ks, q.ks, db, argv, c, t, u);
      case Del(keys) => DelDelays(p.ks, q.ks, db, keys, t, u);
      case FlushDb => FlushDelays(p.ks, q.ks, db);
      case FlushAll => FlushDelays(p.ks, q.ks, db);
      case Persist(key) => PersistStep(p.ks, q.ks, Key(db, key));
      case _ =>
    }
  }

  lemma PersistStep(A: Dataset, B: Dataset, k: Key)
    requires Delays(A, B)
    ensures k in A <==> k in B
    ensures k in A ==> A[k].exp.Some? == B[k].exp.Some?
    ensures k in A ==> Delays(A[k := A[k].(exp := None)], B[k := B[k].(exp := None)])
  {
    if k in A {
      PersistDelays(A, B, k);
    }
    hide SaneAt, EntryCovers;
  }

  /** A load at a later time gives the same values under the same keys, and none of them expires earlier. */
  lemma {:induction false} ReplayDelays(p: LoadState, q: LoadState, log: seq<Argv>, t: int, u: int, steady: bool)
    requires AllPlain(log, steady) && InOrder(t, u, steady)
    requires Delays(p.ks, q.ks) && p.sel == q.sel && 0 <= p.sel < DBNUM
    ensures Readable(log)
    ensures var p', q' := Replay(p, log, t), Replay(q, log, u);
            Delays(p'.ks, q'.ks) && p'.sel == q'.sel && 0 <= p'.sel < DBNUM
    decreases log
  {
    hide Read, LoadStep, Delays, PlainCommand;
    if log != [] {
      StepDelays(p, q, log[0], t, u, steady);
      ReplayDelays(LoadStep(p, log[0], t), LoadStep(q, log[0], u), log[1..], t, u, steady);
    }
  }

  /** A load of a steady log at any other time gives the same values and the same expire times. */
  lemma ReplayNeedsNoClock(st: LoadState, log: seq<Argv>, t: int, u: int)
    requires AllPlain(log, true) && Sane(st.ks) && 0 <= st.sel < DBNUM
    ensures Readable(log) && Replay(st, log, t) == Replay(st, log, u)
    ensures Sane(Replay(st, log, t).ks) && 0 <= Replay(st, log, t).sel < DBNUM
  {
    hide Replay, SaneAt;
    assert Delays(st.ks, st.ks);
    ReplayDelays(st, st, log, t, u, true);
    ReplayDelays(st, st, log, u, t, true);
    DelaysBoth(Replay(st, log, t).ks, Replay(st, log, u).ks);
  }

  lemma NothingDelays()
    ensures Delays(FRESH.ks, FRESH.ks)
  {
  }

  // ---------- What is fed is plain ----------

  predicate PlainFed(fed: Fed, feed: int, steady: bool) {
    Read(fed.argv).Some? && 0 <= fed.db < DBNUM && AllPlain(Translate(fed.argv, feed), steady)
  }

  predicate AllPlainFed(feds: seq<Fed>, feed: int, steady: bool) {
    forall i :: 0 <= i < |feds| ==> PlainFed(feds[i], feed, steady)
  }

  lemma {:induction false} FeedAllPlain(selected: int, feds: seq<Fed>, feed: int, steady: bool)
    requires AllPlainFed(feds, feed, steady)
    ensures Known(feds) && AllPlain(FeedAll(selected, feds, feed).log, steady)
    decreases feds
  {
    hide Read, Translate, Plain;
    if feds != [] {
      assert PlainFed(feds[0], feed, steady);
      SelectPlain(feds[0].db, steady);
      FeedAllPlain(feds[0].db, feds[1..], feed, steady);
    }
  }

  lemma SelectPlain(db: int, steady: bool)
    requires 0 <= db < DBNUM
    ensures Plain(SelectArgv(db), steady)
  {
    ReadSelect(db);
    hide Read;
  }

  lemma PexpireatPlain(name: Bytes, when: int, steady: bool)
    requires when >= 0
    ensures Plain(PexpireatArgv(name, when), steady)
  {
    ReadPexpireat(name, when);
    hide Read;
  }

  lemma SetPlain(name: Bytes, text: Bytes, steady: bool)
    ensures Plain(SetArgv(name, text), steady)
  {
    ReadPlainSet(name, text);
    hide Read;
  }

  lemma DelPlain(db: int, name: Bytes, feed: int, steady: bool)
    requires 0 <= db < DBNUM
    ensures PlainFed(Fed(db, DelArgv(name)), feed, steady)
  {
    ReadDel(name);
    hide Read, Translate;
  }

  lemma {:induction false} DelFedsPlain(ks: Dataset, db: int, keys: seq<Bytes>, look: int, feed: int, steady: bool)
    requires 0 <= db < DBNUM
    ensures AllPlainFed(DelKeys(ks, db, keys, false, look).feds, feed, steady)
    decreases keys
  {
    hide PlainFed, Without;
    if keys != [] {
      var k := Key(db, keys[0]);
      DelPlain(db, keys[0], feed, steady);
      DelFedsPlain(Without(Lookup(ks, k, false, look).ks, k), db, keys[1..], look, feed, steady);
    }
  }

  /** The translation of a command takes the clock out of it. */
  lemma TranslatePlain(argv: Argv, feed: int, steady: bool)
    requires argv != [] && Read(argv).Some? && !Read(argv).value.Error? && feed >= 0
    requires steady ==> !HasRelativeTtl(argv)
    requires var c := Read(argv).value; c.Expire? ==> c.amount + (if c.relative then feed else 0) >= 0
    ensures AllPlain(Translate(argv, feed), steady)
  {
    var c := Read(argv).value;
    if IsTranslated(argv) {
      TranslatedCommands(argv);
      if c.Expire? {
        ExpireTranslation(argv, feed);
        PexpireatPlain(c.key, c.amount + if c.relative then feed else 0, steady);
      } else {
        SetexTranslation(argv, feed);
        SetPlain(c.key, c.text, steady);
        PexpireatPlain(c.key, c.ttl.value + feed, steady);
      }
    } else {
      if c.Expire? {
        VerbatimExpireIsAbsolute(argv);
      }
      assert Translate(argv, feed) == [argv];
    }
  }

  lemma LookupFedsPlain(ks: Dataset, k: Key, look: int, feed: int, steady: bool)
    requires 0 <= k.db < DBNUM
    ensures AllPlainFed(Lookup(ks, k, false, look).feds, feed, steady)
  {
    DelPlain(k.db, k.name, feed, steady);
    hide PlainFed;
  }

  lemma VerbatimFedPlain(db: int, argv: Argv, feed: int, steady: bool)
    requires argv != [] && Read(argv).Some? && !Read(argv).value.Error? && feed >= 0
    requires steady ==> !HasRelativeTtl(argv)
    requires var c := Read(argv).value; c.Expire? ==> c.amount + (if c.relative then feed else 0) >= 0
    requires 0 <= db < DBNUM
    ensures PlainFed(Fed(db, argv), feed, steady)
  {
    hide Read, Translate;
    TranslatePlain(argv, feed, steady);
  }

  lemma PlainPair(a: seq<Fed>, b: seq<Fed>, feed: int, steady: bool)
    requires AllPlainFed(a, feed, steady) && AllPlainFed(b, feed, steady)
    ensures AllPlainFed(a + b, feed, steady)
  {
    hide PlainFed;
  }

  lemma PlainOne(fed: Fed, feed: int, steady: bool)
    requires PlainFed(fed, feed, steady)
    ensures AllPlainFed([fed], feed, steady)
  {
    hide PlainFed;
  }

  lemma TwoLookupsPlain(D: Dataset, src: Key, dst: Key, look: int, feed: int, steady: bool)
    requires 0 <= src.db < DBNUM && 0 <= dst.db < DBNUM
    ensures var l := Lookup(D, src, false, look);
            AllPlainFed(l.feds, feed, steady) && AllPlainFed(l.feds + Lookup(l.ks, dst, false, look).feds, feed, steady)
  {
    hide Lookup;
    LookupFedsPlain(D, src, look, feed, steady);
    var l := Lookup(D, src, false, look);
    LookupFedsPlain(l.ks, dst, look, feed, steady);
    PlainPair(l.feds, Lookup(l.ks, dst, false, look).feds, feed, steady);
  }

  lemma NoTtl(argv: Argv)
    requires Read(argv).Some? && !Read(argv).value.SetTo?
    ensures !HasRelativeTtl(argv)
  {
  }

  lemma ExpireFedsPlain(D: Dataset, db: int, argv: Argv, clock: Clock, steady: bool)
    requires argv != [] && Read(argv).Some? && Read(argv).value.Expire? && 0 <= db < DBNUM
    requires Ordered(clock)
    ensures AllPlainFed(ExecExpire(D, db, argv, Read(argv).value, false, clock).feds, clock.feed, steady)
  {
    NoTtl(argv);
    hide Read, HasRelativeTtl, PlainFed, Lookup;
    var c := Read(argv).value;
    var k := Key(db, c.key);
    var l := Lookup(D, k, false, clock.look);
    var when := c.amount + (if c.relative then clock.base else 0);
    LookupFedsPlain(D, k, clock.look, clock.feed, steady);
    DelPlain(db, c.key, clock.feed, steady);
    PlainOne(Fed(db, DelArgv(c.key)), clock.feed, steady);
    PlainPair(l.feds, [Fed(db, DelArgv(c.key))], clock.feed, steady);
    if when > clock.check {
      VerbatimFedPlain(db, argv, clock.feed, steady);
      PlainOne(Fed(db, argv), clock.feed, steady);
      PlainPair(l.feds, [Fed(db, argv)], clock.feed, steady);
    }
  }

  lemma SetFedsPlain(D: Dataset, db: int, argv: Argv, clock: Clock, steady: bool)
    requires argv != [] && Read(argv).Some? && Read(argv).value.SetTo? && 0 <= db < DBNUM && Ordered(clock)
    requires steady ==> !Drifts(D, db, argv, clock)
    ensures AllPlainFed(ExecSet(D, db, argv, Read(argv).value, false, clock).feds, clock.feed, steady)
  {
    hide Read, PlainFed, Lookup, IsTranslated;
    var c := Read(argv).value;
    var l := Lookup(D, Key(db, c.key), false, clock.look);
    LookupFedsPlain(D, Key(db, c.key), clock.look, clock.feed, steady);
    if Stores(l.ks, db, c) {
      VerbatimFedPlain(db, argv, clock.feed, steady);
      PlainOne(Fed(db, argv), clock.feed, steady);
      PlainPair(l.feds, [Fed(db, argv)], clock.feed, steady);
    }
  }

  /** Everything a command feeds is plain; what stores no time that a replay will not find again is steady. */
  lemma ExecFedsPlain(D: Dataset, db: int, argv: Argv, clock: Clock, steady: bool)
    requires argv != [] && Read(argv).Some? && 0 <= db < DBNUM && Ordered(clock)
    requires steady ==> !Drifts(D, db, argv, clock)
    ensures AllPlainFed(Exec(D, db, argv, Read(argv).value, false, clock).feds, clock.feed, steady)
  {
    var c, feed := Read(argv).value, clock.feed;
    if c.Move? {
      MoveTargetExists(argv);
    }
    hide Read, HasRelativeTtl, Drifts, PlainFed, Lookup, ExecExpire, ExecSet;
    if c.Error? {
      return;
    }
    if c.Expire? {
      ExpireFedsPlain(D, db, argv, clock, steady);
      return;
    }
    if c.SetTo? {
      SetFedsPlain(D, db, argv, clock, steady);
      return;
    }
    NoTtl(argv);
    VerbatimFedPlain(db, argv, feed, steady);
    PlainOne(Fed(db, argv), feed, steady);
    match c {
      case Del(keys) =>
        DelFedsPlain(D, db, keys, clock.look, feed, steady);
        PlainPair(DelKeys(D, db, keys, false, clock.look).feds, [Fed(db, argv)], feed, steady);
      case Rename(key, newkey, _) =>
        TwoLookupsPlain(D, Key(db, key), Key(db, newkey), clock.look, feed, steady);
        var l := Lookup(D, Key(db, key), false, clock.look);
        PlainPair(l.feds + Lookup(l.ks, Key(db, newkey), false, clock.look).feds, [Fed(db, argv)], feed, steady);
      case Move(key, dst) =>
        TwoLookupsPlain(D, Key(db, key), Key(dst, key), clock.look, feed, steady);
        var l := Lookup(D, Key(db, key), false, clock.look);
        PlainPair(l.feds + Lookup(l.ks, Key(dst, key), false, clock.look).feds, [Fed(db, argv)], feed, steady);
      case Add(_, key, _) =>
        LookupFedsPlain(D, Key(db, key), clock.look, feed, steady);
        PlainPair(Lookup(D, Key(db, key), false, clock.look).feds, [Fed(db, argv)], feed, steady);
      case Get(key) =>
        LookupFedsPlain(D, Key(db, key), clock.look, feed, steady);
      case _ =>
    }
  }

  // ---------- What is dumped is plain ----------

  lemma PlainJoin(a: seq<Argv>, b: seq<Argv>, steady: bool)
    requires AllPlain(a, steady) && AllPlain(b, steady)
    ensures AllPlain(a + b, steady)
  {
    hide Plain;
  }

  lemma {:induction false} ChunksPlain(kind: Kind, key: Bytes, rows: seq<Row>, K: nat, steady: bool)
    requires RowsOk(kind, rows) && K > 0
    ensures AllPlain(Chunks(Head(kind, key), rows, K), steady)
    decreases rows
  {
    hide Read, Flatten, Head;
    if rows != [] {
      var m := Min(K, |rows|);
      ReadChunk(kind, key, rows[..m]);
      HeadNotEmpty(kind, key);
      ChunksPlain(kind, key, rows[m..], K, steady);
      ChunksStep(Head(kind, key), rows, K);
      var log := Chunks(Head(kind, key), rows, K);
      assert Plain(log[0], steady);
      assert log == [log[0]] + log[1..];
    }
  }

  lemma HeadNotEmpty(kind: Kind, key: Bytes)
    ensures Head(kind, key) != []
  {
  }

  lemma ItemPlain(e: Entry, item: Item, now: int, K: nat, steady: bool)
    requires K > 0 && ItemOk(e, item) && !IsEmptyObj(e.val) && (e.exp.Some? ==> e.exp.value >= 0)
    ensures AllPlain(ItemLog(e, item, now, K), steady)
  {
    hide Plain, Chunks, Head, IsEnumeration;
    if e.val.Str? {
      SetPlain(item.name, e.val.text, steady);
    } else {
      EnumerationRowsOk(KindOf(e.val), e.val, item.rows);
      ChunksPlain(KindOf(e.val), item.name, item.rows, K, steady);
    }
    if e.GetExpire() != -1 {
      PexpireatPlain(item.name, e.GetExpire(), steady);
    }
  }

  lemma {:induction false} DbPlain(ks: Dataset, db: int, items: seq<Item>, now: int, K: nat, steady: bool)
    requires InDataset(ks, db, items) && K > 0 && Sane(ks)
    requires forall i :: 0 <= i < |items| ==> ItemOk(ks[Key(db, items[i].name)], items[i])
    ensures AllPlain(DbLog(ks, db, items, now, K), steady)
    decreases items
  {
    hide Plain, ItemLog, ItemOk, IsEmptyObj;
    if items != [] {
      var k := Key(db, items[0].name);
      assert SaneAt(k, ks[k]);
      ItemPlain(ks[k], items[0], now, K, steady);
      DbPlain(ks, db, items[1..], now, K, steady);
      PlainJoin(ItemLog(ks[k], items[0], now, K), DbLog(ks, db, items[1..], now, K), steady);
    }
  }

  lemma {:induction false} DumpFromPlain(ks: Dataset, plan: Plan, db: nat, now: int, K: nat, steady: bool)
    requires PlanInDataset(ks, plan) && IsPlan(ks, plan) && db <= |plan| && K > 0 && Sane(ks)
    ensures AllPlain(DumpFrom(ks, plan, db, now, K), steady)
    decreases |plan| - db
  {
    hide Plain, DbLog, Sane, SelectArgv;
    if db < |plan| {
      assert IsIteration(ks, db, plan[db]);
      DbPlain(ks, db, plan[db], now, K, steady);
      SelectPlain(db, steady);
      DumpFromPlain(ks, plan, db + 1, now, K, steady);
      var mine := if plan[db] == [] then [] else [SelectArgv(db)] + DbLog(ks, db, plan[db], now, K);
      PlainJoin(mine, DumpFrom(ks, plan, db + 1, now, K), steady);
    }
  }

  // ---------- Plain worlds ----------

  predicate PlainWorld(w: World, steady: bool) {
    AllPlain(w.log, steady) && AllPlain(w.dump, steady) && AllPlain(w.diff, steady)
  }

  lemma FedLogPlain(s: Server, db: int, argv: Argv, clock: Clock, steady: bool)
    requires Possible(s, Command(db, argv, clock)) && Sane(s.ks)
    requires steady && !s.mode.Off? ==> !Drifts(s.ks, db, argv, clock)
    ensures AllPlain(FedLog(s, db, argv, clock), steady)
  {
    hide Read, Exec, FeedAll, Drifts, Sane, Plain, PlainFed;
    if !s.mode.Off? {
      ExecFedsPlain(s.ks, db, argv, clock, steady);
      FeedAllPlain(s.selected, Exec(s.ks, db, argv, Read(argv).value, false, clock).feds, clock.feed, steady);
    }
  }

  lemma CommandPlain(w: World, db: int, argv: Argv, clock: Clock, now: int, claim: Claim)
    requires Inv(w, now, claim) && Possible(w.s, Command(db, argv, clock))
    requires Respects(w, Command(db, argv, clock), now, claim)
    ensures w.s.mode.On? || w.s.child.Some? ==> AllPlain(FedLog(w.s, db, argv, clock), claim.Exact?)
  {
    hide Read, Replay, Revives, Drifts, Plain, FedLog, Covers, Sane;
    if w.s.mode.On? || w.s.child.Some? {
      FedLogPlain(w.s, db, argv, clock, claim.Exact?);
    }
  }

  lemma StepKeepsPlain(w: World, step: Step, now: int, claim: Claim)
    requires Inv(w, now, claim) && Possible(w.s, step) && Respects(w, step, now, claim)
    requires PlainWorld(w, claim.Exact?)
    ensures PlainWorld(NextWorld(w, step), claim.Exact?)
  {
    match step {
      case Command(db, argv, clock) =>
        CommandPlain(w, db, argv, clock, now, claim);
      case DumpStep(plan, read) =>
        DumpFromPlain(w.s.child.value.snap, plan, 0, read, ITEMS_PER_CMD, claim.Exact?);
      case _ =>
    }
    hide Plain, FedLog, DumpLog, Sane, LogOk, Next, Respects;
    match step {
      case Command(db, argv, clock) =>
        if w.s.mode.On? {
          PlainJoin(w.log, FedLog(w.s, db, argv, clock), claim.Exact?);
        }
        if w.s.child.Some? {
          PlainJoin(w.diff, FedLog(w.s, db, argv, clock), claim.Exact?);
        }
      case ChildDone(e) =>
        PlainJoin(w.dump, w.diff, claim.Exact?);
      case _ =>
    }
  }

  /** Every run keeps its log plain, and an exact run keeps it steady. */
  lemma {:induction false} RunKeepsPlain(w: World, steps: seq<Step>, v: World, now: int, claim: Claim)
    requires Inv(w, now, claim) && PlainWorld(w, claim.Exact?) && Runs(w, steps, v, now, claim)
    ensures Inv(v, now, claim) && PlainWorld(v, claim.Exact?)
    decreases steps
  {
    hide Inv, Possible, Respects, NextWorld, PlainWorld;
    if steps != [] {
      StepKeeps(w, steps[0], now, claim);
      StepKeepsPlain(w, steps[0], now, claim);
      RunKeepsPlain(NextWorld(w, steps[0]), steps[1..], v, now, claim);
    }
  }
}
