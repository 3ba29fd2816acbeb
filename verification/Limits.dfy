/** Where the log of this version does not keep its promise, and exactly when it does: relative times
    to live that are logged as they came, a clock that moves between running and logging a command,
    PERSIST on an expired key, keys of a slot that go unlogged, and a child that reads the clock after the fork. */
module Limits {
  import opened Wire
  import opened Keyspace
  import opened Commands
  import opened Log
  import opened Coverage
  import opened Durability
  import opened Protocol
  import opened Safety
  import opened Restart
  import Databases
  import Slots

  // ---------- SET with EX or PX ----------

  /** The stored and the replayed expire time of a SET, SETEX or PSETEX with a time to live, where it stores: D is the
      server's dataset, R the one a loader has when it comes to the command. */
  lemma TtlReplay(D: Dataset, R: Dataset, db: int, argv: Argv, clock: Clock, now: int)
    requires argv != [] && Read(argv).Some? && Read(argv).value.SetTo? && 0 <= db < DBNUM
    requires var c := Read(argv).value;
             c.ttl.Some? && Stores(Lookup(D, Key(db, c.key), false, clock.look).ks, db, c) && Stores(R, db, c)
    ensures var k := Key(db, Read(argv).value.key);
            var d, r := ExecSet(D, db, argv, Read(argv).value, false, clock).ks, ReplayFed(R, Fed(db, argv), clock.feed, now);
            k in d && k in r && d[k].exp.Some? && r[k].exp.Some? &&
            r[k].exp.value - d[k].exp.value == (if HasRelativeTtl(argv) then now else clock.feed) - clock.check
  {
    ReplaySet(R, db, argv, clock.feed, now);
    hide Read, ReplayFed, HasRelativeTtl;
  }

  /** Such a command expires at the same time after every load if and only if it is SETEX or PSETEX and
      the clock did not move between storing the time and logging it. */
  lemma TtlSurvivesEveryLoad(D: Dataset, R: Dataset, db: int, argv: Argv, clock: Clock)
    requires argv != [] && Read(argv).Some? && Read(argv).value.SetTo? && 0 <= db < DBNUM
    requires var c := Read(argv).value;
             c.ttl.Some? && Stores(Lookup(D, Key(db, c.key), false, clock.look).ks, db, c) && Stores(R, db, c)
    ensures (forall now: int :: SameExpire(D, R, db, argv, clock, now))
       <==> !HasRelativeTtl(argv) && clock.feed == clock.check
  {
    hide Read, HasRelativeTtl, SameExpire;
    forall now: int
      ensures SameExpire(D, R, db, argv, clock, now)
         <==> (if HasRelativeTtl(argv) then now else clock.feed) == clock.check
    {
      SameExpireByReplay(D, R, db, argv, clock, now);
    }
    assert SameExpire(D, R, db, argv, clock, clock.check + 1)
      <==> (if HasRelativeTtl(argv) then clock.check + 1 else clock.feed) == clock.check;
  }

  lemma SameExpireByReplay(D: Dataset, R: Dataset, db: int, argv: Argv, clock: Clock, now: int)
    requires argv != [] && Read(argv).Some? && Read(argv).value.SetTo? && 0 <= db < DBNUM
    requires var c := Read(argv).value;
             c.ttl.Some? && Stores(Lookup(D, Key(db, c.key), false, clock.look).ks, db, c) && Stores(R, db, c)
    ensures SameExpire(D, R, db, argv, clock, now)
       <==> (if HasRelativeTtl(argv) then now else clock.feed) == clock.check
  {
    hide Read, HasRelativeTtl, ExecSet, ReplayFed;
    TtlReplay(D, R, db, argv, clock, now);
  }

  predicate SameExpire(D: Dataset, R: Dataset, db: int, argv: Argv, clock: Clock, now: int)
    requires argv != [] && Read(argv).Some? && Read(argv).value.SetTo? && 0 <= db < DBNUM
  {
    var k := Key(db, Read(argv).value.key);
    var d, r := ExecSet(D, db, argv, Read(argv).value, false, clock).ks, ReplayFed(R, Fed(db, argv), clock.feed, now);
    k in d && k in r && d[k].exp == r[k].exp
  }

  const SET_WITH_EX: Argv := ["SET", "k", "v", "EX", "10"]

  lemma ReadSetWithEx()
    ensures Read(SET_WITH_EX) == Some(SetTo("k", "v", false, false, Some(10000))) && HasRelativeTtl(SET_WITH_EX)
  {
    NameOfSpelling(SET);
    var opts: Argv := ["EX", "10"];
    assert SET_WITH_EX[3..] == opts && |opts[2..]| == 0;
    assert CString("EX") == "EX" by {
      var e: Bytes := "EX";
      assert |e[1..][1..]| == 0;
      assert e[1..] == "X" && CString(e[1..]) == ['X'] + CString(e[1..][1..]);
    }
    assert Upper("EX") == "EX";
    assert Decimal(10) == "10";
    ParseIntegerOfDecimal(10);
    hide NameOf, CString, ParseInteger, Upper;
  }

  /** SET k v EX 10, run at time 0 and loaded at time 1, expires a millisecond late. */
  lemma SetWithExDrifts()
    ensures Read(SET_WITH_EX).Some? && Read(SET_WITH_EX).value.SetTo? &&
            !SameExpire(map[], map[], 0, SET_WITH_EX, Clock(0, 0, 0, 0), 1)
  {
    ReadSetWithEx();
    hide Read, HasRelativeTtl;
    SameExpireByReplay(map[], map[], 0, SET_WITH_EX, Clock(0, 0, 0, 0), 1);
  }

  // ---------- EXPIRE and PEXPIRE ----------

  /** An expire command that stores a time is replayed with that time if and only if it is one of the
      absolute ones or the clock did not move between its start and its logging. */
  lemma ExpireSurvives(D: Dataset, R: Dataset, db: int, argv: Argv, clock: Clock, now: int)
    requires argv != [] && Read(argv).Some? && Read(argv).value.Expire? && 0 <= db < DBNUM
    requires var c := Read(argv).value; var k := Key(db, c.key);
             k in D && !D[k].Due(clock.look) && k in R &&
             c.amount + (if c.relative then clock.base else 0) > clock.check
    ensures var c := Read(argv).value; var k := Key(db, c.key);
            var d, r := ExecExpire(D, db, argv, c, false, clock).ks, ReplayFed(R, Fed(db, argv), clock.feed, now);
            k in d && k in r && (d[k].exp == r[k].exp <==> (!c.relative || clock.base == clock.feed))
  {
    hide Read, ReplayFed;
    ReplayExpire(R, db, argv, clock.feed, now);
    var c := Read(argv).value;
    assert Lookup(D, Key(db, c.key), false, clock.look) == Effect(D, []);
    hide Lookup;
  }

  // ---------- PERSIST ----------

  /** PERSIST keeps a log standing for the dataset if and only if its key has not expired or the log still has it. */
  lemma PersistExactly(D: Dataset, R: Dataset, db: int, argv: Argv, clock: Clock, now: int, exact: bool)
    requires argv != [] && Read(argv).Some? && Read(argv).value.Persist? && 0 <= db < DBNUM
    requires Covers(D, R, clock.look, exact) && Ordered(clock)
    ensures Tracked(Exec(D, db, argv, Read(argv).value, false, clock), R, clock.feed, now, exact)
       <==> !Revives(D, R, db, Read(argv).value, clock.look)
  {
    hide Read, Exec, Covers, Tracked;
    if Revives(D, R, db, Read(argv).value, clock.look) {
      PersistOnExpired(D, R, db, argv, clock, now, exact);
    } else {
      PersistTracks(D, R, db, argv, Read(argv).value, clock, now, exact);
    }
  }

  /** PERSIST keeps every log standing for the dataset if and only if its key has not expired. */
  lemma PersistIsSafe(D: Dataset, db: int, argv: Argv, clock: Clock, now: int, exact: bool)
    requires argv != [] && Read(argv).Some? && Read(argv).value.Persist? && 0 <= db < DBNUM
    requires Sane(D) && Ordered(clock)
    ensures (forall R: Dataset :: Covers(D, R, clock.look, exact) ==>
               Tracked(Exec(D, db, argv, Read(argv).value, false, clock), R, clock.feed, now, exact))
       <==> (var k := Key(db, Read(argv).value.key); k in D ==> !D[k].Due(clock.look))
  {
    var c := Read(argv).value;
    var k := Key(db, c.key);
    if k in D && D[k].Due(clock.look) {
      var R := Without(D, k);
      assert Covers(D, R, clock.look, exact);
      PersistOnExpired(D, R, db, argv, clock, now, exact);
    } else {
      hide Read, Exec, Covers, Tracked;
      forall R: Dataset | Covers(D, R, clock.look, exact)
        ensures Tracked(Exec(D, db, argv, c, false, clock), R, clock.feed, now, exact)
      {
        PersistTracks(D, R, db, argv, c, clock, now, exact);
      }
    }
  }

  lemma PersistOnExpired(D: Dataset, R: Dataset, db: int, argv: Argv, clock: Clock, now: int, exact: bool)
    requires argv != [] && Read(argv).Some? && Read(argv).value.Persist? && 0 <= db < DBNUM
    requires var k := Key(db, Read(argv).value.key); k in D && D[k].Due(clock.look) && k !in R
    ensures !Tracked(Exec(D, db, argv, Read(argv).value, false, clock), R, clock.feed, now, exact)
  {
    var c, fed := Read(argv).value, Fed(db, argv);
    var k := Key(db, c.key);
    if IsTranslated(argv) {
      TranslatedCommands(argv);
    }
    hide Read, IsTranslated, ReplayFed, ReplayFeds;
    VerbatimReplay(R, fed, clock.feed, now);
    ReplayFedsOne(R, fed, clock.feed, now);
    var e := Exec(D, db, argv, c, false, clock);
    assert e.feds == [fed] && k in e.ks && !e.ks[k].Due(clock.feed);
    assert ReplayFeds(R, e.feds, clock.feed, now) == R;
  }

  // ---------- Every command ----------

  lemma NotCovered(D: Dataset, R: Dataset, k: Key, now: int)
    requires k in D && k in R && D[k].exp != R[k].exp
    ensures !Covers(D, R, now, true)
  {
  }

  lemma SetDrifts(D: Dataset, R: Dataset, db: int, argv: Argv, clock: Clock, now: int)
    requires argv != [] && Read(argv).Some? && Read(argv).value.SetTo? && 0 <= db < DBNUM
    requires Covers(D, R, clock.look, true) && Ordered(clock) && DriftsAt(D, db, argv, clock, now)
    ensures !Tracked(ExecSet(D, db, argv, Read(argv).value, false, clock), R, clock.feed, now, true)
  {
    hide Read, ReplayFed, ReplayFeds, HasRelativeTtl, Covers, Lookup, AllFeedable;
    var c := Read(argv).value;
    var k := Key(db, c.key);
    var l := Lookup(D, k, false, clock.look);
    var R1 := LookupTracks(D, R, k, clock.look, clock.feed, now, true);
    ReplaySet(R1, db, argv, clock.feed, now);
    Durability.Finish(R, l.feds, Fed(db, argv), clock.feed, now);
    var e := ExecSet(D, db, argv, c, false, clock);
    NotCovered(e.ks, ReplayFeds(R, e.feds, clock.feed, now), k, clock.feed);
  }

  lemma ExpireDrifts(D: Dataset, R: Dataset, db: int, argv: Argv, clock: Clock, now: int)
    requires argv != [] && Read(argv).Some? && Read(argv).value.Expire? && 0 <= db < DBNUM
    requires Covers(D, R, clock.look, true) && Ordered(clock) && DriftsAt(D, db, argv, clock, now)
    ensures !Tracked(ExecExpire(D, db, argv, Read(argv).value, false, clock), R, clock.feed, now, true)
  {
    hide Read, ReplayFed, ReplayFeds, HasRelativeTtl, Covers, Lookup, AllFeedable;
    var c := Read(argv).value;
    var k := Key(db, c.key);
    var l := Lookup(D, k, false, clock.look);
    var R1 := LookupTracks(D, R, k, clock.look, clock.feed, now, true);
    ReplayExpire(R1, db, argv, clock.feed, now);
    Durability.Finish(R, l.feds, Fed(db, argv), clock.feed, now);
    var e := ExecExpire(D, db, argv, c, false, clock);
    NotCovered(e.ks, ReplayFeds(R, e.feds, clock.feed, now), k, clock.feed);
  }

  /** The exact condition for every command: it keeps a log standing for the dataset, for a load at clock reading now,
      if and only if it is no PERSIST that revives what the log has lost and, where expire times have to agree, stores none
      that such a load sets to another. */
  lemma CommandExactly(D: Dataset, R: Dataset, db: int, argv: Argv, clock: Clock, now: int, exact: bool)
    requires argv != [] && Read(argv).Some? && 0 <= db < DBNUM
    requires Covers(D, R, clock.look, exact) && Ordered(clock) && (exact || clock.feed <= now)
    ensures Tracked(Exec(D, db, argv, Read(argv).value, false, clock), R, clock.feed, now, exact)
       <==> !Revives(D, R, db, Read(argv).value, clock.look) && (exact ==> !DriftsAt(D, db, argv, clock, now))
  {
    var c := Read(argv).value;
    if Revives(D, R, db, c, clock.look) {
      PersistOnExpired(D, R, db, argv, clock, now, exact);
    } else if exact && DriftsAt(D, db, argv, clock, now) {
      if c.SetTo? {
        SetDrifts(D, R, db, argv, clock, now);
      } else {
        ExpireDrifts(D, R, db, argv, clock, now);
      }
      hide Read, ExecSet, ExecExpire, Tracked;
    } else {
      ExecTracks(D, R, db, argv, clock, now, exact);
    }
  }

  /** No load at all may set another expire time if and only if the command is tame. */
  lemma TameExactly(D: Dataset, R: Dataset, db: int, argv: Argv, clock: Clock, exact: bool)
    requires argv != [] && Read(argv).Some? && 0 <= db < DBNUM
    requires Covers(D, R, clock.look, exact) && Ordered(clock)
    ensures (forall now: int :: exact || clock.feed <= now ==>
               Tracked(Exec(D, db, argv, Read(argv).value, false, clock), R, clock.feed, now, exact))
       <==> Tame(D, R, db, argv, clock, exact)
  {
    hide Read, Exec, Covers, Tracked, DriftsAt, Revives;
    var e := Exec(D, db, argv, Read(argv).value, false, clock);
    if Tame(D, R, db, argv, clock, exact) {
      forall now: int | exact || clock.feed <= now
        ensures Tracked(e, R, clock.feed, now, exact)
      {
        TameNow(D, R, db, argv, clock, now, exact);
        CommandExactly(D, R, db, argv, clock, now, exact);
      }
    } else {
      var now := if exact then clock.check + 1 else clock.feed;
      CommandExactly(D, R, db, argv, clock, now, exact);
    }
  }

  /** The same at any point of any history: after a command, file and buffer load to the dataset at clock reading now if
      and only if the condition holds, for the dataset and what a load just before would have given. */
  lemma CommandInRun(h: History, w: World, loadTruncated: bool, truncateOk: bool,
                     db: int, argv: Argv, clock: Clock, now: int, claim: Claim)
    requires Leads(h, w, now, claim) && !claim.OnlyBytes? && (claim.Loose? ==> clock.feed <= now)
    requires w.s.mode.On? && !w.s.exited && Possible(w.s, Command(db, argv, clock))
    ensures var v := Next(w.s, Command(db, argv, clock));
            w.s.fd.Some? && w.s.fd.value in w.s.disk.inodes && v.fd.Some? && v.fd.value in v.disk.inodes &&
            var before := LoadFile(w.s.disk.inodes[w.s.fd.value] + w.s.buf, loadTruncated, truncateOk, now);
            var after := LoadFile(v.disk.inodes[v.fd.value] + v.buf, loadTruncated, truncateOk, now);
            (Covers(v.ks, LoadedData(after), v.now, claim.Exact?) <==>
             !Revives(w.s.ks, LoadedData(before), db, Read(argv).value, clock.look) &&
             (claim.Exact? ==> !DriftsAt(w.s.ks, db, argv, clock, now)))
  {
    hide Inv, Leads;
    HistoryKeeps(h, w, now, claim);
    CommandInState(w, loadTruncated, truncateOk, db, argv, clock, now, claim);
  }

  lemma CommandInState(w: World, loadTruncated: bool, truncateOk: bool, db: int, argv: Argv, clock: Clock,
                       now: int, claim: Claim)
    requires Inv(w, now, claim) && !claim.OnlyBytes? && (claim.Loose? ==> clock.feed <= now)
    requires w.s.mode.On? && !w.s.exited && Possible(w.s, Command(db, argv, clock))
    ensures var v := Next(w.s, Command(db, argv, clock));
            w.s.fd.Some? && w.s.fd.value in w.s.disk.inodes && v.fd.Some? && v.fd.value in v.disk.inodes &&
            var before := LoadFile(w.s.disk.inodes[w.s.fd.value] + w.s.buf, loadTruncated, truncateOk, now);
            var after := LoadFile(v.disk.inodes[v.fd.value] + v.buf, loadTruncated, truncateOk, now);
            (Covers(v.ks, LoadedData(after), v.now, claim.Exact?) <==>
             !Revives(w.s.ks, LoadedData(before), db, Read(argv).value, clock.look) &&
             (claim.Exact? ==> !DriftsAt(w.s.ks, db, argv, clock, now)))
  {
    var step := Command(db, argv, clock);
    LoadsItsLog(w, loadTruncated, truncateOk, now, claim);
    var R := Replay(FRESH, w.log, now).ks;
    CommandState(w.s, db, argv, clock);
    BytesAtLeast(w, now, claim);
    hide Read, Exec, Covers, Replay, Sane, LoadFile, ChildOk, FeedAll, EncodeAll, ReplayFeds, AllFeedable, Revives,
      DriftsAt;
    CoversLater(w.s.ks, R, w.s.now, clock.look, claim.Exact?);
    CommandExactly(w.s.ks, R, db, argv, clock, now, claim.Exact?);
    FedReplays(w.s, FRESH, w.log, db, argv, clock, now);
    CommandKeeps(w, db, argv, clock, now, OnlyBytes);
    LoadsItsLog(NextWorld(w, step), loadTruncated, truncateOk, now, OnlyBytes);
  }

  // ---------- The deletion of a slot ----------

  /** Keys that go without being logged do no harm exactly where the log had none of them. */
  lemma GoneUnlogged(D: Dataset, R: Dataset, gone: set<Key>, now: int, exact: bool)
    requires Covers(D, R, now, exact)
    ensures Covers(D - gone, R, now, exact) <==> gone !! R.Keys
  {
    hide SaneAt, EntryCovers;
    if k :| k in gone && k in R {
      assert k !in D - gone;
    }
  }

  /** Deleting the keys of a slot is not logged: the log goes on standing for the dataset if and only if it had none of
      these keys. */
  lemma SlotDeletion(D: Dataset, R: Dataset, slot: nat, now: int, exact: bool)
    requires Covers(D, R, now, exact)
    ensures Covers(D - Databases.InSlot(D, slot), R, now, exact) <==> Databases.InSlot(R, slot) == {}
  {
    GoneUnlogged(D, R, Databases.InSlot(D, slot), now, exact);
    hide SaneAt, EntryCovers, Slots.HashSlot;
    if k :| k in Databases.InSlot(D, slot) && k in R {
      assert k in Databases.InSlot(R, slot);
    }
    if k :| k in Databases.InSlot(R, slot) {
      assert k in Databases.InSlot(D, slot);
    }
  }

  // ---------- The clock of the child ----------

  /** No command that the server runs from the fork on is lost to a dump that leaves out what had
      expired when the child read the clock. */
  ghost predicate SafeToRead(snap: Dataset, forked: int, read: int) {
    forall db: int, argv: Argv, clock: Clock, now: int ::
      argv != [] && Read(argv).Some? && 0 <= db < DBNUM && Ordered(clock) && forked <= clock.base &&
      Tame(snap, Live(snap, read), db, argv, clock, true) ==>
        Tracked(Exec(snap, db, argv, Read(argv).value, false, clock), Live(snap, read), clock.feed, now, true)
  }

  /** The child may read its clock late, whatever command comes first, exactly when no key of its copy expires in
      between. */
  lemma ReadingLate(snap: Dataset, forked: nat, read: int)
    requires Sane(snap) && forked <= read
    ensures SafeToRead(snap, forked, read) <==> Expiring(snap, forked, read) == {}
  {
    if Expiring(snap, forked, read) == {} {
      LiveApart(snap, forked, read);
      LiveCovers(snap, forked, true);
      hide Read, Exec, Tracked, Covers, Tame, Live, Expiring;
      forall db: int, argv: Argv, clock: Clock, now: int |
        argv != [] && Read(argv).Some? && 0 <= db < DBNUM && Ordered(clock) && forked <= clock.base &&
        Tame(snap, Live(snap, read), db, argv, clock, true)
        ensures Tracked(Exec(snap, db, argv, Read(argv).value, false, clock), Live(snap, read), clock.feed, now, true)
      {
        assert Live(snap, read) == Live(snap, forked);
        CoversLater(snap, Live(snap, read), forked, clock.look, true);
        TameNow(snap, Live(snap, read), db, argv, clock, now, true);
        ExecTracks(snap, Live(snap, read), db, argv, clock, now, true);
      }
    } else {
      var k :| k in Expiring(snap, forked, read);
      LostExtension(snap, k, forked, read, 0);
    }
  }

  /** The failing case: the server extends the life of such a key, and the rewritten log loses it. */
  lemma LostExtension(snap: Dataset, k: Key, forked: nat, read: int, now: int)
    requires Sane(snap) && k in snap && snap[k].exp.Some? && forked <= snap[k].exp.value < read
    ensures var argv, clock := PexpireatArgv(k.name, read + 1), Clock(forked, forked, forked, forked);
            argv != [] && Read(argv).Some? && 0 <= k.db < DBNUM &&
            Tame(snap, Live(snap, read), k.db, argv, clock, true) &&
            !Tracked(Exec(snap, k.db, argv, Read(argv).value, false, clock), Live(snap, read), forked, now, true)
  {
    var argv, clock := PexpireatArgv(k.name, read + 1), Clock(forked, forked, forked, forked);
    assert SaneAt(k, snap[k]);
    ReadPexpireat(k.name, read + 1);
    assert NameOf(argv[0]) == Some(PEXPIREAT) by { NameOfSpelling(PEXPIREAT); }
    assert !IsTranslated(argv);
    hide Read, IsTranslated, ReplayFed, ReplayFeds, NameOf;
    var fed := Fed(k.db, argv);
    var R, e := Live(snap, read), Exec(snap, k.db, argv, Read(argv).value, false, clock);
    assert k !in R;
    VerbatimReplay(R, fed, forked, now);
    ReplayFedsOne(R, fed, forked, now);
    assert [] + [fed] == [fed];
    assert e.feds == [fed] && k in e.ks && !e.ks[k].Due(forked);
    assert ReplayFeds(R, e.feds, forked, now) == R;
  }
}
