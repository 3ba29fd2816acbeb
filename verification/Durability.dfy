/** Every command a master runs keeps its log standing for its dataset. */
module Durability {
  import opened Wire
  import opened Keyspace
  import opened Commands
  import opened Log
  import opened Coverage

  // ---------- Changing both sides alike ----------

  lemma CoversPut(D: Dataset, R: Dataset, k: Key, d: Entry, r: Entry, now: int, exact: bool)
    requires Covers(D, R, now, exact) && SaneAt(k, d) && EntryCovers(d, r, exact)
    ensures Covers(D[k := d], R[k := r], now, exact)
  {
  }

  lemma CoveredEntry(D: Dataset, R: Dataset, k: Key, now: int, exact: bool)
    requires Covers(D, R, now, exact) && k in R
    ensures k in D && EntryCovers(D[k], R[k], exact) && SaneAt(k, D[k])
  {
  }

  lemma CoversWithout(D: Dataset, R: Dataset, k: Key, now: int, exact: bool)
    requires Covers(D, R, now, exact)
    ensures Covers(Without(D, k), Without(R, k), now, exact)
  {
  }

  lemma ReplayOne(R: Dataset, fed: Fed, feed: int, now: int)
    requires Feedable(fed) && Translate(fed.argv, feed) == [fed.argv]
    ensures ReplayFed(R, fed, feed, now)
         == Exec(R, fed.db, fed.argv, Read(fed.argv).value, true, LoadClock(now)).ks
  {
    hide Read, Exec, Translate;
    assert [fed.argv][1..] == [];
    RunInOne(R, fed.db, fed.argv, now);
  }

  lemma RunInOne(R: Dataset, db: int, argv: Argv, now: int)
    requires argv != [] && Read(argv).Some?
    ensures Readable([argv]) && RunIn(R, db, [argv], now) == Exec(R, db, argv, Read(argv).value, true, LoadClock(now)).ks
  {
    hide Read, Exec;
    assert [argv][1..] == [];
  }

  /** A logged DEL takes the key away and nothing else. */
  lemma ReplayDel(R: Dataset, k: Key, feed: int, now: int)
    requires 0 <= k.db < DBNUM
    ensures Feedable(Fed(k.db, DelArgv(k.name)))
    ensures ReplayFed(R, Fed(k.db, DelArgv(k.name)), feed, now) == Without(R, k)
  {
    ReadDel(k.name);
    hide Read, Translate;
    ReplayOne(R, Fed(k.db, DelArgv(k.name)), feed, now);
    assert [k.name][1..] == [];
    assert DelKeys(Without(R, k), k.db, [], true, now).ks == Without(R, k);
  }

  /** What a command that ran in database db did: its log entries can be replayed, and replaying them
      keeps the two sides together. */
  ghost predicate Tracked(e: Effect, R: Dataset, feed: int, now: int, exact: bool) {
    AllFeedable(e.feds) && Covers(e.ks, ReplayFeds(R, e.feds, feed, now), feed, exact)
  }

  /** After a lookup the two sides agree on whether the key is there: an expired key has been deleted
      on both, by the same DEL. */
  lemma LookupTracks(D: Dataset, R: Dataset, k: Key, look: int, feed: int, now: int, exact: bool)
      returns (R1: Dataset)
    requires Covers(D, R, look, exact) && 0 <= k.db < DBNUM
    ensures var e := Lookup(D, k, false, look);
            AllFeedable(e.feds) && R1 == ReplayFeds(R, e.feds, feed, now) &&
            (look <= feed ==> Tracked(e, R, feed, now, exact)) &&
            Covers(e.ks, R1, look, exact) && (k in e.ks <==> k in R1)
  {
    hide ReplayFed, Feedable;
    R1 := R;
    if k in D && D[k].Due(look) {
      R1 := Without(R, k);
      ReplayDel(R, k, feed, now);
      ReplayFedsOne(R, Fed(k.db, DelArgv(k.name)), feed, now);
      CoversWithout(D, R, k, look, exact);
    }
  }

  lemma Finish(R: Dataset, feds: seq<Fed>, last: Fed, feed: int, now: int)
    requires AllFeedable(feds) && Feedable(last)
    ensures AllFeedable(feds + [last])
    ensures ReplayFeds(R, feds + [last], feed, now)
         == ReplayFed(ReplayFeds(R, feds, feed, now), last, feed, now)
  {
    hide ReplayFed, Feedable;
    ReplayFedsSplit(R, feds, [last], feed, now);
    ReplayFedsOne(ReplayFeds(R, feds, feed, now), last, feed, now);
  }

  // ---------- The commands ----------

  predicate IsTranslated(argv: Argv)
    requires Read(argv).Some?
  {
    var n := NameOf(argv[0]).value;
    n.EXPIRE? || n.PEXPIRE? || n.EXPIREAT? || n.SETEX? || n.PSETEX?
  }

  /** A time to live that is logged as a relative one: SET with EX or PX, which is not translated. */
  predicate HasRelativeTtl(argv: Argv)
    requires Read(argv).Some?
  {
    var c := Read(argv).value;
    c.SetTo? && c.ttl.Some? && !IsTranslated(argv)
  }

  /** The conditions NX and XX of a SET let it store its value. */
  predicate Stores(ks: Dataset, db: int, c: Command)
    requires c.SetTo?
  {
    var k := Key(db, c.key);
    (c.nx ==> k !in ks) && (c.xx ==> k in ks)
  }

  /** The command stores an expire time, and a replay at clock reading now sets another: because a time to live was
      logged as it came, or because its base was read from the clock a second time for the log. */
  predicate DriftsAt(D: Dataset, db: int, argv: Argv, clock: Clock, now: int)
    requires Read(argv).Some?
  {
    var c := Read(argv).value;
    if c.SetTo? then
      c.ttl.Some? && Stores(Lookup(D, Key(db, c.key), false, clock.look).ks, db, c) &&
      clock.check != if HasRelativeTtl(argv) then now else clock.feed
    else if c.Expire? then
      c.relative && Key(db, c.key) in Lookup(D, Key(db, c.key), false, clock.look).ks &&
      c.amount + clock.base > clock.check && clock.base != clock.feed
    else false
  }

  /** The same for a replay at some time: no time suits a time to live that was logged as it came. */
  predicate Drifts(D: Dataset, db: int, argv: Argv, clock: Clock)
    requires Read(argv).Some?
  {
    DriftsAt(D, db, argv, clock, clock.check + 1)
  }

  lemma DriftsSometime(D: Dataset, db: int, argv: Argv, clock: Clock, now: int)
    requires Read(argv).Some? && DriftsAt(D, db, argv, clock, now)
    ensures Drifts(D, db, argv, clock)
  {
    hide Read, Lookup, Stores, HasRelativeTtl;
  }

  /** A command that, after its lookups, stores an entry on both sides. */
  lemma PutTracks(l: Effect, R: Dataset, k: Key, d: Entry, r: Entry, fed: Fed,
                  feed: int, now: int, exact: bool)
    requires Tracked(l, R, feed, now, exact) && Feedable(fed)
    requires SaneAt(k, d) && EntryCovers(d, r, exact)
    requires var R1 := ReplayFeds(R, l.feds, feed, now); ReplayFed(R1, fed, feed, now) == R1[k := r]
    ensures Tracked(Effect(l.ks[k := d], l.feds + [fed]), R, feed, now, exact)
  {
    hide ReplayFed, Feedable, SaneAt, EntryCovers;
    Finish(R, l.feds, fed, feed, now);
    CoversPut(l.ks, ReplayFeds(R, l.feds, feed, now), k, d, r, feed, exact);
  }

  /** A command that, after its lookups, removes an entry from both sides. */
  lemma RemoveTracks(l: Effect, R: Dataset, k: Key, fed: Fed, feed: int, now: int, exact: bool)
    requires Tracked(l, R, feed, now, exact) && Feedable(fed)
    requires var R1 := ReplayFeds(R, l.feds, feed, now); ReplayFed(R1, fed, feed, now) == Without(R1, k)
    ensures Tracked(Effect(Without(l.ks, k), l.feds + [fed]), R, feed, now, exact)
  {
    hide ReplayFed, Feedable;
    Finish(R, l.feds, fed, feed, now);
    CoversWithout(l.ks, ReplayFeds(R, l.feds, feed, now), k, feed, exact);
  }

  lemma VerbatimReplay(R: Dataset, fed: Fed, feed: int, now: int)
    requires Feedable(fed) && !IsTranslated(fed.argv)
    ensures ReplayFed(R, fed, feed, now)
         == Exec(R, fed.db, fed.argv, Read(fed.argv).value, true, LoadClock(now)).ks
  {
    hide Read, Exec, NameOf, ReplayFed;
    ReplayOne(R, fed, feed, now);
  }

  /** Only the five expire commands are translated. */
  lemma TranslatedCommands(argv: Argv)
    requires Read(argv).Some? && IsTranslated(argv)
    ensures var c := Read(argv).value; c.SetTo? || c.Expire? || c.Error?
  {
    hide NameOf;
  }

  /** What SETEX and PSETEX leave in the log: a plain SET and an absolute expire time. */
  lemma SetexTranslation(argv: Argv, feed: int)
    requires Read(argv).Some? && Read(argv).value.SetTo? && IsTranslated(argv)
    ensures var c := Read(argv).value;
            c.ttl.Some? && !c.nx && !c.xx && |argv| == 4 && argv[1] == c.key && argv[3] == c.text &&
            Translate(argv, feed) == [SetArgv(c.key, c.text), PexpireatArgv(c.key, c.ttl.value + feed)]
  {
    hide NameOf;
  }

  lemma RunSetAndExpire(R: Dataset, db: int, name: Bytes, text: Bytes, when: int, now: int)
    ensures var log := [SetArgv(name, text), PexpireatArgv(name, when)];
            Readable(log) && RunIn(R, db, log, now) == R[Key(db, name) := Entry(Str(text), Some(when))]
  {
    var s, p := SetArgv(name, text), PexpireatArgv(name, when);
    ReadPlainSet(name, text);
    ReadPexpireat(name, when);
    hide Read;
    assert [s, p][1..] == [p];
    var k := Key(db, name);
    var R1 := R[k := Entry(Str(text), None)];
    assert Exec(R, db, s, Read(s).value, true, LoadClock(now)).ks == R1;
    RunInOne(R1, db, p, now);
    assert Exec(R1, db, p, Read(p).value, true, LoadClock(now)).ks == R1[k := R1[k].(exp := Some(when))];
  }

  /** Replaying a SET, SETNX, SETEX or PSETEX that took effect. */
  lemma ReplaySet(R: Dataset, db: int, argv: Argv, feed: int, now: int)
    requires argv != [] && Read(argv).Some? && Read(argv).value.SetTo? && 0 <= db < DBNUM
    requires var c := Read(argv).value; var k := Key(db, c.key);
             !((c.nx && k in R) || (c.xx && k !in R))
    ensures var c := Read(argv).value; var k := Key(db, c.key);
            ReplayFed(R, Fed(db, argv), feed, now) == R[k := Entry(Str(c.text),
              if c.ttl.None? then None
              else Some(c.ttl.value + if HasRelativeTtl(argv) then now else feed))]
  {
    hide Read, Translate, RunIn, ReplayFed, IsTranslated;
    var c := Read(argv).value;
    if HasRelativeTtl(argv) || c.ttl.None? {
      if IsTranslated(argv) {
        SetexTranslation(argv, feed);
      } else {
        VerbatimReplay(R, Fed(db, argv), feed, now);
        LoadingLooksAway(R, Key(db, c.key), now);
        hide Lookup;
      }
    } else {
      ReplaySetex(R, db, argv, feed, now);
    }
  }

  lemma ReplaySetex(R: Dataset, db: int, argv: Argv, feed: int, now: int)
    requires argv != [] && Read(argv).Some? && Read(argv).value.SetTo? && 0 <= db < DBNUM
    requires IsTranslated(argv)
    ensures var c := Read(argv).value;
            c.ttl.Some? &&
            ReplayFed(R, Fed(db, argv), feed, now)
              == R[Key(db, c.key) := Entry(Str(c.text), Some(c.ttl.value + feed))]
  {
    SetexTranslation(argv, feed);
    hide Read, Translate, RunIn;
    var c := Read(argv).value;
    RunSetAndExpire(R, db, c.key, c.text, c.ttl.value + feed, now);
  }

  lemma SetTracks(D: Dataset, R: Dataset, db: int, argv: Argv, clock: Clock, now: int, exact: bool)
    requires argv != [] && Read(argv).Some? && Read(argv).value.SetTo? && 0 <= db < DBNUM
    requires Covers(D, R, clock.look, exact) && Ordered(clock)
    requires !exact ==> clock.feed <= now
    requires exact ==> !DriftsAt(D, db, argv, clock, now)
    ensures Tracked(ExecSet(D, db, argv, Read(argv).value, false, clock), R, clock.feed, now, exact)
  {
    hide Read, ReplayFed, ReplayFeds, HasRelativeTtl, Covers, Lookup, AllFeedable;
    var c := Read(argv).value;
    var k := Key(db, c.key);
    var l := Lookup(D, k, false, clock.look);
    var R1 := LookupTracks(D, R, k, clock.look, clock.feed, now, exact);
    if !((c.nx && k in l.ks) || (c.xx && k !in l.ks)) {
      ReplaySet(R1, db, argv, clock.feed, now);
      var exp := if c.ttl.Some? then Some(clock.check + c.ttl.value) else None;
      var rexp := if c.ttl.None? then None
                  else Some(c.ttl.value + if HasRelativeTtl(argv) then now else clock.feed);
      PutTracks(l, R, k, Entry(Str(c.text), exp), Entry(Str(c.text), rexp), Fed(db, argv), clock.feed, now, exact);
    }
  }

  /** Replaying an EXPIRE, PEXPIRE, EXPIREAT or PEXPIREAT that stored a time. */
  lemma ReplayExpire(R: Dataset, db: int, argv: Argv, feed: int, now: int)
    requires argv != [] && Read(argv).Some? && Read(argv).value.Expire? && 0 <= db < DBNUM
    requires Key(db, Read(argv).value.key) in R
    ensures var c := Read(argv).value; var k := Key(db, c.key);
            ReplayFed(R, Fed(db, argv), feed, now)
              == R[k := R[k].(exp := Some(c.amount + if c.relative then feed else 0))]
  {
    var c := Read(argv).value;
    if IsTranslated(argv) {
      ReplayTranslatedExpire(R, db, argv, feed, now);
    } else {
      VerbatimExpireIsAbsolute(argv);
      hide Read, ReplayFed;
      VerbatimReplay(R, Fed(db, argv), feed, now);
      LoadingLooksAway(R, Key(db, c.key), now);
      hide Lookup;
    }
  }

  lemma ReplayTranslatedExpire(R: Dataset, db: int, argv: Argv, feed: int, now: int)
    requires argv != [] && Read(argv).Some? && Read(argv).value.Expire? && 0 <= db < DBNUM
    requires Key(db, Read(argv).value.key) in R && IsTranslated(argv)
    ensures var c := Read(argv).value; var k := Key(db, c.key);
            ReplayFed(R, Fed(db, argv), feed, now)
              == R[k := R[k].(exp := Some(c.amount + if c.relative then feed else 0))]
  {
    var c := Read(argv).value;
    var when := c.amount + if c.relative then feed else 0;
    ExpireTranslation(argv, feed);
    ReadPexpireat(c.key, when);
    hide Read, Translate, RunIn, IsTranslated;
    RunInOne(R, db, PexpireatArgv(c.key, when), now);
    LoadingLooksAway(R, Key(db, c.key), now);
    hide Lookup;
  }

  lemma VerbatimExpireIsAbsolute(argv: Argv)
    requires Read(argv).Some? && Read(argv).value.Expire? && !IsTranslated(argv)
    ensures !Read(argv).value.relative
  {
    hide NameOf;
  }

  lemma ExpireTranslation(argv: Argv, feed: int)
    requires Read(argv).Some? && Read(argv).value.Expire? && IsTranslated(argv)
    ensures var c := Read(argv).value;
            Translate(argv, feed) == [PexpireatArgv(c.key, c.amount + if c.relative then feed else 0)]
  {
    hide NameOf;
  }

  lemma ExpireTracks(D: Dataset, R: Dataset, db: int, argv: Argv, clock: Clock, now: int, exact: bool)
    requires argv != [] && Read(argv).Some? && Read(argv).value.Expire? && 0 <= db < DBNUM
    requires Covers(D, R, clock.look, exact) && Ordered(clock)
    requires exact ==> !DriftsAt(D, db, argv, clock, now)
    ensures Tracked(ExecExpire(D, db, argv, Read(argv).value, false, clock), R, clock.feed, now, exact)
  {
    hide Read, ReplayFed, ReplayFeds, Lookup, AllFeedable, Covers;
    var c := Read(argv).value;
    var k := Key(db, c.key);
    var l := Lookup(D, k, false, clock.look);
    var R1 := LookupTracks(D, R, k, clock.look, clock.feed, now, exact);
    if k in R1 {
      CoveredEntry(l.ks, R1, k, clock.look, exact);
    }
    var when := c.amount + (if c.relative then clock.base else 0);
    if k in l.ks {
      if when <= clock.check {
        ReplayDel(R1, k, clock.feed, now);
        RemoveTracks(l, R, k, Fed(db, DelArgv(c.key)), clock.feed, now, exact);
      } else {
        ReplayExpire(R1, db, argv, clock.feed, now);
        var rwhen := c.amount + (if c.relative then clock.feed else 0);
        PutTracks(l, R, k, l.ks[k].(exp := Some(when)), R1[k].(exp := Some(rwhen)), Fed(db, argv),
                  clock.feed, now, exact);
      }
    }
  }

  // DEL of several keys

  function KeysOf(db: int, names: seq<Bytes>): set<Key> {
    set i | 0 <= i < |names| :: Key(db, names[i])
  }

  lemma KeysOfHead(db: int, names: seq<Bytes>)
    requires names != []
    ensures KeysOf(db, names) == {Key(db, names[0])} + KeysOf(db, names[1..])
  {
    forall k | k in KeysOf(db, names)
      ensures k in {Key(db, names[0])} + KeysOf(db, names[1..])
    {
      var i :| 0 <= i < |names| && k == Key(db, names[i]);
      assert i > 0 ==> names[1..][i - 1] == names[i];
    }
    forall k | k in KeysOf(db, names[1..])
      ensures k in KeysOf(db, names)
    {
      var i :| 0 <= i < |names[1..]| && k == Key(db, names[1..][i]);
      assert names[i + 1] == names[1..][i];
    }
  }

  /** The listed keys that a lookup finds expired. */
  function DueAmong(ks: Dataset, S: set<Key>, now: int): set<Key> {
    set k | k in S && k in ks && ks[k].Due(now)
  }

  /** All listed keys go. */
  lemma {:induction false} DelKeysRemoves(D: Dataset, db: int, keys: seq<Bytes>, loading: bool, look: int)
    ensures DelKeys(D, db, keys, loading, look).ks == D - KeysOf(db, keys)
    decreases keys
  {
    if keys != [] {
      var k := Key(db, keys[0]);
      var D1 := Without(Lookup(D, k, loading, look).ks, k);
      KeysOfHead(db, keys);
      DelKeysRemoves(D1, db, keys[1..], loading, look);
      assert D1 - KeysOf(db, keys[1..]) == D - KeysOf(db, keys);
    }
  }

  /** The command counts a change exactly when some listed key was there and not expired. */
  lemma {:induction false} DelKeysCounts(D: Dataset, db: int, keys: seq<Bytes>, look: int)
    ensures DelKeys(D, db, keys, false, look).any
       <==> exists k :: k in KeysOf(db, keys) && k in D && !D[k].Due(look)
    decreases keys
  {
    if keys != [] {
      var k, S, S1 := Key(db, keys[0]), KeysOf(db, keys), KeysOf(db, keys[1..]);
      var l := Lookup(D, k, false, look);
      var D1 := Without(l.ks, k);
      KeysOfHead(db, keys);
      DelKeysCounts(D1, db, keys[1..], look);
      forall j | j in S && j in D && !D[j].Due(look)
        ensures k in l.ks || (j in S1 && j in D1 && !D1[j].Due(look))
      {
      }
      forall j | j in S1 && j in D1 && !D1[j].Due(look)
        ensures j in S && j in D && !D[j].Due(look)
      {
      }
    }
  }

  lemma DueAmongStep(D: Dataset, R: Dataset, db: int, keys: seq<Bytes>, look: int)
    requires keys != []
    ensures var k := Key(db, keys[0]);
            var l := Lookup(D, k, false, look);
            R - DueAmong(D, KeysOf(db, keys), look)
              == (if l.feds == [] then R else Without(R, k))
                 - DueAmong(Without(l.ks, k), KeysOf(db, keys[1..]), look)
  {
    hide KeysOf;
    KeysOfHead(db, keys);
  }

  /** The listed keys that are found expired are logged one by one. */
  lemma {:induction false} DelKeysLogs(D: Dataset, R: Dataset, db: int, keys: seq<Bytes>,
                                       look: int, feed: int, now: int)
    requires 0 <= db < DBNUM
    ensures var d := DelKeys(D, db, keys, false, look);
            AllFeedable(d.feds) &&
            ReplayFeds(R, d.feds, feed, now) == R - DueAmong(D, KeysOf(db, keys), look)
    decreases keys
  {
    hide ReplayFed, Feedable, KeysOf, DueAmong;
    if keys == [] {
      NothingDue(D, R, db, look);
    } else {
      var k := Key(db, keys[0]);
      var l := Lookup(D, k, false, look);
      var D1 := Without(l.ks, k);
      DueAmongStep(D, R, db, keys, look);
      var rest := DelKeys(D1, db, keys[1..], false, look);
      if l.feds == [] {
        DelKeysLogs(D1, R, db, keys[1..], look, feed, now);
        assert [] + rest.feds == rest.feds;
      } else {
        var R1 := Without(R, k);
        ReplayDel(R, k, feed, now);
        ReplayFedsOne(R, l.feds[0], feed, now);
        DelKeysLogs(D1, R1, db, keys[1..], look, feed, now);
        ReplayFedsSplit(R, [l.feds[0]], rest.feds, feed, now);
      }
    }
  }

  lemma NothingDue(D: Dataset, R: Dataset, db: int, look: int)
    ensures R - DueAmong(D, KeysOf(db, []), look) == R
  {
  }

  lemma CoversMinus(D: Dataset, R: Dataset, S: set<Key>, now: int, exact: bool)
    requires Covers(D, R, now, exact)
    ensures Covers(D - S, R - DueAmong(D, S, now) - S, now, exact)
    ensures (forall k :: k in S && k in D ==> D[k].Due(now)) ==> Covers(D - S, R - DueAmong(D, S, now), now, exact)
  {
  }

  lemma DelTracks(D: Dataset, R: Dataset, db: int, argv: Argv, c: Command, clock: Clock, now: int, exact: bool)
    requires argv != [] && Read(argv) == Some(c) && c.Del? && 0 <= db < DBNUM
    requires Covers(D, R, clock.look, exact) && Ordered(clock)
    ensures Tracked(Exec(D, db, argv, c, false, clock), R, clock.feed, now, exact)
  {
    hide Read, ReplayFed, ReplayFeds, Translate, DelKeys, KeysOf, Covers, IsTranslated, AllFeedable;
    var d := DelKeys(D, db, c.keys, false, clock.look);
    var S := KeysOf(db, c.keys);
    var R1 := R - DueAmong(D, S, clock.look);
    DelKeysRemoves(D, db, c.keys, false, clock.look);
    DelKeysLogs(D, R, db, c.keys, clock.look, clock.feed, now);
    CoversMinus(D, R, S, clock.look, exact);
    DelKeysCounts(D, db, c.keys, clock.look);
    if d.any {
      var fed := Fed(db, argv);
      if IsTranslated(argv) {
        TranslatedCommands(argv);
      }
      Finish(R, d.feds, fed, clock.feed, now);
      VerbatimReplay(R1, fed, clock.feed, now);
      DelKeysRemoves(R1, db, c.keys, true, now);
      CoversLater(d.ks, R1 - S, clock.look, clock.feed, exact);
    } else {
      CoversLater(d.ks, R1, clock.look, clock.feed, exact);
    }
  }

  // RPUSH, SADD, ZADD and HMSET

  /** A command that counted no change found the key there, and left it as it was. */
  lemma UncountedAdd(kind: Kind, isNew: bool, o: Obj, rows: seq<Row>)
    requires IsKind(o, kind) && RowsOk(kind, rows) && rows != [] && (isNew ==> o == EmptyObj(kind))
    requires !RowsChange(kind, o, rows)
    ensures !isNew && AddRows(kind, o, rows) == o
  {
    UnchangedRows(kind, o, rows);
    assert !RowChanges(kind, o, rows[0]);
  }

  lemma AddTracks(D: Dataset, R: Dataset, db: int, argv: Argv, c: Command, clock: Clock, now: int, exact: bool)
    requires argv != [] && Read(argv) == Some(c) && c.Add? && 0 <= db < DBNUM
    requires Covers(D, R, clock.look, exact) && Ordered(clock)
    ensures Tracked(ExecAdd(D, db, argv, c, false, clock), R, clock.feed, now, exact)
  {
    hide Read, ReplayFed, ReplayFeds, Lookup, AllFeedable, Covers, IsTranslated, AddRows, RowsChange, RowsOk;
    var k := Key(db, c.key);
    var l := Lookup(D, k, false, clock.look);
    var R1 := LookupTracks(D, R, k, clock.look, clock.feed, now, exact);
    if k in R1 {
      CoveredEntry(l.ks, R1, k, clock.look, exact);
    }
    if !(k in l.ks && !IsKind(l.ks[k].val, c.kind)) {
      var cur := if k in l.ks then l.ks[k] else Entry(EmptyObj(c.kind), None);
      var rcur := if k in R1 then R1[k] else Entry(EmptyObj(c.kind), None);
      var obj := AddRows(c.kind, cur.val, c.rows);
      if RowsChange(c.kind, cur.val, c.rows) {
        if IsTranslated(argv) {
          TranslatedCommands(argv);
        }
        VerbatimReplay(R1, Fed(db, argv), clock.feed, now);
        LoadingLooksAway(R1, k, now);
        AddedIsNotEmpty(c.kind, cur.val, c.rows);
        PutTracks(l, R, k, cur.(val := obj), rcur.(val := obj), Fed(db, argv), clock.feed, now, exact);
      } else {
        UncountedAdd(c.kind, k !in l.ks, cur.val, c.rows);
        assert l.ks[k := cur.(val := obj)] == l.ks;
      }
    }
  }

  // RENAME and MOVE

  /** Two lookups in a row. */
  lemma TwoLookupsTrack(D: Dataset, R: Dataset, a: Key, b: Key, clock: Clock, now: int, exact: bool)
      returns (R2: Dataset)
    requires Covers(D, R, clock.look, exact) && Ordered(clock)
    requires a != b && 0 <= a.db < DBNUM && 0 <= b.db < DBNUM
    requires a in Lookup(D, a, false, clock.look).ks
    ensures var l := Lookup(D, a, false, clock.look);
            var m := Lookup(l.ks, b, false, clock.look);
            var e := Effect(m.ks, l.feds + m.feds);
            Tracked(e, R, clock.feed, now, exact) &&
            R2 == ReplayFeds(R, e.feds, clock.feed, now) &&
            a in m.ks && m.ks[a] == l.ks[a] && a in R2 && EntryCovers(m.ks[a], R2[a], exact) &&
            SaneAt(a, m.ks[a]) && (b in m.ks <==> b in R2)
  {
    hide ReplayFed, ReplayFeds, AllFeedable, Covers, SaneAt, EntryCovers;
    var l := Lookup(D, a, false, clock.look);
    var m := Lookup(l.ks, b, false, clock.look);
    var R1 := LookupTracks(D, R, a, clock.look, clock.feed, now, exact);
    R2 := LookupTracks(l.ks, R1, b, clock.look, clock.feed, now, exact);
    ReplayFedsSplit(R, l.feds, m.feds, clock.feed, now);
    CoveredEntry(l.ks, R1, a, clock.look, exact);
    StillThere(m.ks, R2, a, clock.look, exact);
    CoveredEntry(m.ks, R2, a, clock.look, exact);
  }

  lemma StillThere(D: Dataset, R: Dataset, a: Key, now: int, exact: bool)
    requires Covers(D, R, now, exact) && a in D && !D[a].Due(now)
    ensures a in R
  {
  }

  /** A command that, after its lookups, moves an entry from one key to another on both sides. */
  lemma MoveEntryTracks(e: Effect, R: Dataset, src: Key, dst: Key, d: Entry, r: Entry, fed: Fed,
                        feed: int, now: int, exact: bool)
    requires Tracked(e, R, feed, now, exact) && Feedable(fed)
    requires SaneAt(dst, d) && EntryCovers(d, r, exact)
    requires var R1 := ReplayFeds(R, e.feds, feed, now);
             ReplayFed(R1, fed, feed, now) == Without(R1[dst := r], src)
    ensures Tracked(Effect(Without(e.ks[dst := d], src), e.feds + [fed]), R, feed, now, exact)
  {
    hide ReplayFed, Feedable, SaneAt, EntryCovers, Covers;
    var R1 := ReplayFeds(R, e.feds, feed, now);
    Finish(R, e.feds, fed, feed, now);
    CoversPut(e.ks, R1, dst, d, r, feed, exact);
    CoversWithout(e.ks[dst := d], R1[dst := r], src, feed, exact);
  }

  lemma RenameTracks(D: Dataset, R: Dataset, db: int, argv: Argv, c: Command, clock: Clock, now: int, exact: bool)
    requires argv != [] && Read(argv) == Some(c) && c.Rename? && 0 <= db < DBNUM
    requires Covers(D, R, clock.look, exact) && Ordered(clock)
    ensures Tracked(ExecRename(D, db, argv, c, false, clock), R, clock.feed, now, exact)
  {
    hide Read, ReplayFed, ReplayFeds, AllFeedable, Covers, IsTranslated, Lookup;
    var src, dst := Key(db, c.key), Key(db, c.newkey);
    if src == dst {
      NoEffect(D, R, clock, now, exact);
    } else {
      var l := Lookup(D, src, false, clock.look);
      var R1 := LookupTracks(D, R, src, clock.look, clock.feed, now, exact);
      if src in l.ks {
        var m := Lookup(l.ks, dst, false, clock.look);
        var R2 := TwoLookupsTrack(D, R, src, dst, clock, now, exact);
        if !(c.keepnew && dst in m.ks) {
          if IsTranslated(argv) {
            TranslatedCommands(argv);
          }
          VerbatimReplay(R2, Fed(db, argv), clock.feed, now);
          LoadingLooksAway(R2, src, now);
          LoadingLooksAway(R2, dst, now);
          MoveEntryTracks(Effect(m.ks, l.feds + m.feds), R, src, dst, m.ks[src], R2[src], Fed(db, argv),
                          clock.feed, now, exact);
        }
      }
    }
  }

  lemma NoEffect(D: Dataset, R: Dataset, clock: Clock, now: int, exact: bool)
    requires Covers(D, R, clock.look, exact) && Ordered(clock)
    ensures Tracked(Effect(D, []), R, clock.feed, now, exact)
  {
  }

  /** A lookup while loading deletes nothing. */
  lemma LoadingLooksAway(ks: Dataset, k: Key, now: int)
    ensures Lookup(ks, k, true, now) == Effect(ks, [])
  {
  }

  lemma MoveTracks(D: Dataset, R: Dataset, db: int, argv: Argv, c: Command, clock: Clock, now: int, exact: bool)
    requires argv != [] && Read(argv) == Some(c) && c.Move? && 0 <= db < DBNUM && 0 <= c.dst < DBNUM
    requires Covers(D, R, clock.look, exact) && Ordered(clock)
    ensures Tracked(ExecMove(D, db, argv, c, false, clock), R, clock.feed, now, exact)
  {
    hide Read, ReplayFed, ReplayFeds, AllFeedable, Covers, IsTranslated, Lookup;
    var src, dst := Key(db, c.key), Key(c.dst, c.key);
    if src == dst {
      NoEffect(D, R, clock, now, exact);
    } else {
      var l := Lookup(D, src, false, clock.look);
      var R1 := LookupTracks(D, R, src, clock.look, clock.feed, now, exact);
      if src in l.ks {
        var m := Lookup(l.ks, dst, false, clock.look);
        var R2 := TwoLookupsTrack(D, R, src, dst, clock, now, exact);
        if dst !in m.ks {
          if IsTranslated(argv) {
            TranslatedCommands(argv);
          }
          VerbatimReplay(R2, Fed(db, argv), clock.feed, now);
          LoadingLooksAway(R2, src, now);
          LoadingLooksAway(R2, dst, now);
          MoveEntryTracks(Effect(m.ks, l.feds + m.feds), R, src, dst, Entry(m.ks[src].val, None),
                          Entry(R2[src].val, None), Fed(db, argv), clock.feed, now, exact);
        }
      }
    }
  }

  // FLUSHDB, FLUSHALL and PERSIST

  lemma CoversFlush(D: Dataset, R: Dataset, db: int, now: int, exact: bool)
    requires Covers(D, R, now, exact)
    ensures Covers(D - InDb(D, db), R - InDb(R, db), now, exact)
    ensures InDb(D, db) == {} ==> D - InDb(D, db) == D
  {
  }

  lemma FlushTracks(D: Dataset, R: Dataset, db: int, argv: Argv, c: Command, clock: Clock, now: int, exact: bool)
    requires argv != [] && Read(argv) == Some(c) && (c.FlushDb? || c.FlushAll?) && 0 <= db < DBNUM
    requires Covers(D, R, clock.look, exact) && Ordered(clock)
    ensures Tracked(Exec(D, db, argv, c, false, clock), R, clock.feed, now, exact)
  {
    hide Read, ReplayFed, IsTranslated, InDb, Covers;
    var fed := Fed(db, argv);
    if IsTranslated(argv) {
      TranslatedCommands(argv);
    }
    VerbatimReplay(R, fed, clock.feed, now);
    ReplayFedsOne(R, fed, clock.feed, now);
    CoversLater(D, R, clock.look, clock.feed, exact);
    CoversFlush(D, R, db, clock.feed, exact);
    CoversNothing(clock.feed, exact);
  }

  lemma CoversNothing(now: int, exact: bool)
    ensures Covers(map[], map[], now, exact)
  {
  }

  /** PERSIST on a key that has expired and that the log no longer has: the one command that brings back what a
      replay cannot. */
  predicate Revives(D: Dataset, R: Dataset, db: int, c: Command, look: int) {
    c.Persist? && Key(db, c.key) in D && D[Key(db, c.key)].Due(look) && Key(db, c.key) !in R
  }

  lemma PersistTracks(D: Dataset, R: Dataset, db: int, argv: Argv, c: Command, clock: Clock, now: int, exact: bool)
    requires argv != [] && Read(argv) == Some(c) && c.Persist? && 0 <= db < DBNUM
    requires Covers(D, R, clock.look, exact) && Ordered(clock)
    requires !Revives(D, R, db, c, clock.look)
    ensures Tracked(Exec(D, db, argv, c, false, clock), R, clock.feed, now, exact)
  {
    hide Read, ReplayFed, ReplayFeds, IsTranslated, Covers, AllFeedable;
    NoEffect(D, R, clock, now, exact);
    var fed, k := Fed(db, argv), Key(db, c.key);
    if IsTranslated(argv) {
      TranslatedCommands(argv);
    }
    if k in D && D[k].exp.Some? {
      if k !in R {
        StillThere(D, R, k, clock.look, exact);
      }
      CoveredEntry(D, R, k, clock.look, exact);
      VerbatimReplay(R, fed, clock.feed, now);
      NothingReplayed(R, clock.feed, now);
      PutTracks(Effect(D, []), R, k, D[k].(exp := None), R[k].(exp := None), fed, clock.feed, now, exact);
      assert [] + [fed] == [fed];
    }
  }

  lemma NothingReplayed(R: Dataset, feed: int, now: int)
    ensures AllFeedable([]) && ReplayFeds(R, [], feed, now) == R
  {
  }

  // ---------- All commands ----------

  /** What a run must avoid for its log, which replays to R, to stand for its dataset: PERSIST on an expired key that
      the log no longer has; and, for an exact log, a stored expire time that a replay does not find again. */
  predicate Tame(D: Dataset, R: Dataset, db: int, argv: Argv, clock: Clock, exact: bool)
    requires Read(argv).Some?
  {
    !Revives(D, R, db, Read(argv).value, clock.look) &&
    (exact ==> !Drifts(D, db, argv, clock))
  }

  lemma TameNow(D: Dataset, R: Dataset, db: int, argv: Argv, clock: Clock, now: int, exact: bool)
    requires Read(argv).Some? && Tame(D, R, db, argv, clock, exact)
    ensures !Revives(D, R, db, Read(argv).value, clock.look) && (exact ==> !DriftsAt(D, db, argv, clock, now))
  {
    hide Read, DriftsAt, Drifts, Revives;
    if DriftsAt(D, db, argv, clock, now) {
      DriftsSometime(D, db, argv, clock, now);
    }
  }

  /** The heart of the matter: a command run by a master, and its log entries run by a loader, keep the
      two datasets together, whatever the command does. */
  lemma ExecTracks(D: Dataset, R: Dataset, db: int, argv: Argv, clock: Clock, now: int, exact: bool)
    requires argv != [] && Read(argv).Some? && 0 <= db < DBNUM
    requires Ordered(clock) && Covers(D, R, clock.look, exact)
    requires !Revives(D, R, db, Read(argv).value, clock.look) && (exact ==> !DriftsAt(D, db, argv, clock, now))
    requires !exact ==> clock.feed <= now
    ensures Tracked(Exec(D, db, argv, Read(argv).value, false, clock), R, clock.feed, now, exact)
  {
    var c := Read(argv).value;
    if c.Move? {
      MoveTargetExists(argv);
    }
    hide Read, Covers, ReplayFeds, AllFeedable, ReplayFed, ExecSet, ExecExpire, ExecAdd, ExecRename, ExecMove,
      DelKeys, InDb, Lookup, DriftsAt;
    match c {
      case Error => NoEffect(D, R, clock, now, exact);
      case Get(key) => var _ := LookupTracks(D, R, Key(db, key), clock.look, clock.feed, now, exact);
      case SetTo(_, _, _, _, _) => SetTracks(D, R, db, argv, clock, now, exact);
      case Del(_) => DelTracks(D, R, db, argv, c, clock, now, exact);
      case Expire(_, _, _) => ExpireTracks(D, R, db, argv, clock, now, exact);
      case Add(_, _, _) => AddTracks(D, R, db, argv, c, clock, now, exact);
      case Rename(_, _, _) => RenameTracks(D, R, db, argv, c, clock, now, exact);
      case Move(_, _) => MoveTracks(D, R, db, argv, c, clock, now, exact);
      case FlushDb => FlushTracks(D, R, db, argv, c, clock, now, exact);
      case FlushAll => FlushTracks(D, R, db, argv, c, clock, now, exact);
      case Persist(_) => PersistTracks(D, R, db, argv, c, clock, now, exact);
      case Select(_) => NoEffect(D, R, clock, now, exact);
    }
  }

  lemma MoveTargetExists(argv: Argv)
    requires Read(argv).Some? && Read(argv).value.Move?
    ensures 0 <= Read(argv).value.dst < DBNUM
  {
    hide NameOf;
  }
}
