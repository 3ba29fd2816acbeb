/** When a log stands for a dataset, and the proof that every command a master runs, once fed to the
    log, keeps it so. */
module Coverage {
  import opened Wire
  import opened Keyspace
  import opened Commands
  import opened Log

  // ---------- The relation ----------

  /** What every dataset of a running master satisfies: databases in range, no empty collections,
      and no negative expire times. */
  ghost predicate Sane(ks: Dataset) {
    forall k :: k in ks ==> SaneAt(k, ks[k])
  }

  predicate SaneAt(k: Key, e: Entry) {
    0 <= k.db < DBNUM && !IsEmptyObj(e.val) && (e.exp.Some? ==> e.exp.value >= 0)
  }

  /** The replayed entry has the live entry's value; it expires when the live one does, or, unless
      exactness is asked for, some time later. */
  predicate EntryCovers(d: Entry, r: Entry, exact: bool) {
    d.val == r.val && d.exp.Some? == r.exp.Some? &&
    (d.exp.Some? ==> d.exp.value <= r.exp.value && (exact ==> d.exp.value == r.exp.value))
  }

  /** The replayed dataset R stands for the live dataset D at time now: it holds the live entries and
      nothing else, except that it may lack keys whose expire time has passed. */
  ghost predicate Covers(D: Dataset, R: Dataset, now: int, exact: bool) {
    Sane(D) &&
    (forall k :: k in R ==> k in D && EntryCovers(D[k], R[k], exact)) &&
    (forall k :: k in D && k !in R ==> D[k].Due(now))
  }

  lemma CoversLater(D: Dataset, R: Dataset, now: int, later: int, exact: bool)
    requires Covers(D, R, now, exact) && now <= later
    ensures Covers(D, R, later, exact)
  {
  }

  /** The part of a dataset whose expire time has not passed. */
  function Live(ks: Dataset, now: int): Dataset {
    map k | k in ks && !ks[k].Due(now) :: ks[k]
  }

  /** In the exact form nobody who skips the expired keys can tell the two datasets apart, now or
      later. */
  lemma ExactCoverIsSameLiveData(D: Dataset, R: Dataset, now: int, later: int)
    requires Covers(D, R, now, true) && now <= later
    ensures Live(D, later) == Live(R, later)
  {
    forall k | k in D && !D[k].Due(later)
      ensures k in R && R[k] == D[k]
    {
      assert k in R;
    }
  }

  /** A SELECT is printed exactly when the database of a command is not the one the log has selected; the rest is the
      translation of the command. */
  lemma SelectOnChange(selected: int, fed: Fed, feed: int)
    requires Feedable(fed)
    ensures var log := FeedOne(selected, fed, feed).log;
            Readable(log) && (log[0] == SelectArgv(fed.db) <==> fed.db != selected) &&
            log[if fed.db != selected then 1 else 0..] == Translate(fed.argv, feed)
  {
    TranslateReadable(fed, feed);
    ReadSelect(fed.db);
    hide Read, Translate, SelectArgv;
  }

  // ---------- Replaying what was fed ----------

  /** Runs commands that select no database, in a given one. */
  function RunIn(ks: Dataset, db: int, log: seq<Argv>, now: int): Dataset
    requires Readable(log)
    decreases log
  {
    if log == [] then ks
    else RunIn(Exec(ks, db, log[0], Read(log[0]).value, true, LoadClock(now)).ks, db, log[1..], now)
  }

  /** A fed command that is not a SELECT, in a database that exists. */
  predicate Feedable(fed: Fed) {
    fed.argv != [] && Read(fed.argv).Some? && !Read(fed.argv).value.Select? && 0 <= fed.db < DBNUM
  }

  predicate AllFeedable(feds: seq<Fed>) {
    forall i :: 0 <= i < |feds| ==> Feedable(feds[i])
  }

  lemma ReadPexpireat(name: Bytes, when: int)
    ensures Read(PexpireatArgv(name, when)) == Some(Expire(name, when, false))
  {
    NameOfSpelling(PEXPIREAT);
    ParseIntegerOfDecimal(when);
    hide NameOf, ParseInteger, Decimal;
  }

  /** What the four expire commands ask for: seconds are milliseconds times a thousand, and only the plain forms
      count from now. */
  lemma ReadExpireForms(name: Bytes, n: int)
    ensures Read(["EXPIRE", name, Decimal(n)]) == Some(Expire(name, 1000 * n, true))
    ensures Read(["PEXPIRE", name, Decimal(n)]) == Some(Expire(name, n, true))
    ensures Read(["EXPIREAT", name, Decimal(n)]) == Some(Expire(name, 1000 * n, false))
    ensures Read(["PEXPIREAT", name, Decimal(n)]) == Some(Expire(name, n, false))
  {
    NameOfSpelling(EXPIRE);
    NameOfSpelling(PEXPIRE);
    NameOfSpelling(EXPIREAT);
    NameOfSpelling(PEXPIREAT);
    ParseIntegerOfDecimal(n);
    hide NameOf, ParseInteger, Decimal;
  }

  /** SETEX and PSETEX take their time to live before the value, and refuse one that is not positive. */
  lemma ReadSetexForms(name: Bytes, text: Bytes, n: int)
    ensures Read(["SETEX", name, Decimal(n), text]) ==
            Some(if n > 0 then SetTo(name, text, false, false, Some(1000 * n)) else Error)
    ensures Read(["PSETEX", name, Decimal(n), text]) ==
            Some(if n > 0 then SetTo(name, text, false, false, Some(n)) else Error)
  {
    NameOfSpelling(SETEX);
    NameOfSpelling(PSETEX);
    ParseIntegerOfDecimal(n);
    hide NameOf, ParseInteger, Decimal;
  }

  lemma ShortCString(s: Bytes)
    requires |s| == 2 && s[0] != '\0' && s[1] != '\0'
    ensures CString(s) == s
  {
    assert s[1..][1..] == [] && CString(s[1..]) == [s[1]] + CString(s[1..][1..]);
  }

  lemma OptionWords()
    ensures Upper(CString("NX")) == "NX" && Upper(CString("XX")) == "XX"
    ensures Upper(CString("EX")) == "EX" && Upper(CString("PX")) == "PX"
  {
    ShortCString("NX");
    ShortCString("XX");
    ShortCString("EX");
    ShortCString("PX");
    assert Upper("NX") == "NX" && Upper("XX") == "XX" && Upper("EX") == "EX" && Upper("PX") == "PX";
  }

  lemma FlagOptions()
    ensures ReadSetOptions(["NX"], NO_OPTIONS) == Some(SetOptions(true, false, None, false))
    ensures ReadSetOptions(["XX"], NO_OPTIONS) == Some(SetOptions(false, true, None, false))
  {
    OptionWords();
    hide CString, Upper;
    var nx: Argv, xx: Argv := ["NX"], ["XX"];
    assert nx[1..] == [] && xx[1..] == [];
  }

  lemma TtlOptions(ttl: Bytes)
    ensures ReadSetOptions(["EX", ttl], NO_OPTIONS) == Some(SetOptions(false, false, Some(ttl), true))
    ensures ReadSetOptions(["PX", ttl], NO_OPTIONS) == Some(SetOptions(false, false, Some(ttl), false))
  {
    OptionWords();
    hide CString, Upper;
    var ex: Argv, px: Argv := ["EX", ttl], ["PX", ttl];
    assert ex[2..] == [] && px[2..] == [];
  }

  /** SETNX, and SET with one option: NX asks for a new key, XX for an old one. */
  lemma ReadSetFlags(name: Bytes, text: Bytes)
    ensures Read(["SETNX", name, text]) == Some(SetTo(name, text, true, false, None))
    ensures Read(["SET", name, text, "NX"]) == Some(SetTo(name, text, true, false, None))
    ensures Read(["SET", name, text, "XX"]) == Some(SetTo(name, text, false, true, None))
  {
    NameOfSpelling(SET);
    NameOfSpelling(SETNX);
    FlagOptions();
    hide NameOf, ReadSetOptions;
    var nx: Argv := ["SET", name, text, "NX"];
    var xx: Argv := ["SET", name, text, "XX"];
    assert nx[3..] == ["NX"] && xx[3..] == ["XX"];
  }

  /** EX counts seconds and PX milliseconds, and neither may be zero or less. */
  lemma ReadSetTtls(name: Bytes, text: Bytes, n: int)
    ensures Read(["SET", name, text, "EX", Decimal(n)]) ==
            Some(if n > 0 then SetTo(name, text, false, false, Some(1000 * n)) else Error)
    ensures Read(["SET", name, text, "PX", Decimal(n)]) ==
            Some(if n > 0 then SetTo(name, text, false, false, Some(n)) else Error)
  {
    NameOfSpelling(SET);
    TtlOptions(Decimal(n));
    ParseIntegerOfDecimal(n);
    hide NameOf, ReadSetOptions, ParseInteger, Decimal;
    var ex: Argv := ["SET", name, text, "EX", Decimal(n)];
    var px: Argv := ["SET", name, text, "PX", Decimal(n)];
    assert ex[3..] == ["EX", Decimal(n)] && px[3..] == ["PX", Decimal(n)];
  }

  /** The option loop of SET takes one option after the other, NX and XX alone, EX and PX with their argument, and
      refuses any other word, and EX and PX at the end. */
  lemma SetOptionsInTurn(rest: seq<Bytes>, o: SetOptions, ttl: Bytes, word: Bytes)
    ensures ReadSetOptions(["NX"] + rest, o) == ReadSetOptions(rest, o.(nx := true))
    ensures ReadSetOptions(["XX"] + rest, o) == ReadSetOptions(rest, o.(xx := true))
    ensures ReadSetOptions(["EX", ttl] + rest, o) == ReadSetOptions(rest, o.(expire := Some(ttl), seconds := true))
    ensures ReadSetOptions(["PX", ttl] + rest, o) == ReadSetOptions(rest, o.(expire := Some(ttl), seconds := false))
    ensures ReadSetOptions(["EX"], o).None? && ReadSetOptions(["PX"], o).None?
    ensures var w := Upper(CString(word));
            w != "NX" && w != "XX" && w != "EX" && w != "PX" ==> ReadSetOptions([word] + rest, o).None?
  {
    OptionWords();
    hide CString, Upper;
    assert (["NX"] + rest)[1..] == rest && (["XX"] + rest)[1..] == rest;
    assert (["EX", ttl] + rest)[2..] == rest && (["PX", ttl] + rest)[2..] == rest;
  }

  /** The commands on whole keys. */
  lemma ReadKeyForms(name: Bytes, other: Bytes)
    ensures Read(["GET", name]) == Some(Get(name))
    ensures Read(["PERSIST", name]) == Some(Persist(name))
    ensures Read(["RENAME", name, other]) == Some(Rename(name, other, false))
    ensures Read(["RENAMENX", name, other]) == Some(Rename(name, other, true))
  {
    NameOfSpelling(GET);
    NameOfSpelling(PERSIST);
    NameOfSpelling(RENAME);
    NameOfSpelling(RENAMENX);
    hide NameOf;
  }

  /** MOVE and SELECT take the number of a database that exists. */
  lemma ReadDbForms(name: Bytes, n: int)
    ensures Read(["MOVE", name, Decimal(n)]) == Some(if 0 <= n < DBNUM then Move(name, n) else Error)
    ensures Read(["SELECT", Decimal(n)]) == Some(if 0 <= n < DBNUM then Select(n) else Error)
  {
    NameOfSpelling(MOVE);
    NameOfSpelling(SELECT);
    ParseIntegerOfDecimal(n);
    hide NameOf, ParseInteger, Decimal;
  }

  /** A time that is not an integer is refused before any key is looked at. */
  lemma ReadTimeRefused(name: Bytes, arg: Bytes)
    requires ParseInteger(arg).None?
    ensures Read(["EXPIRE", name, arg]) == Some(Error) && Read(["PEXPIRE", name, arg]) == Some(Error)
    ensures Read(["EXPIREAT", name, arg]) == Some(Error) && Read(["PEXPIREAT", name, arg]) == Some(Error)
  {
    NameOfSpelling(EXPIRE);
    NameOfSpelling(PEXPIRE);
    NameOfSpelling(EXPIREAT);
    NameOfSpelling(PEXPIREAT);
    hide NameOf, ParseInteger;
  }

  /** So is a time to live, and the number of a database. */
  lemma ReadNumberRefused(name: Bytes, text: Bytes, arg: Bytes)
    requires ParseInteger(arg).None?
    ensures Read(["SETEX", name, arg, text]) == Some(Error) && Read(["PSETEX", name, arg, text]) == Some(Error)
    ensures Read(["MOVE", name, arg]) == Some(Error) && Read(["SELECT", arg]) == Some(Error)
  {
    NameOfSpelling(SETEX);
    NameOfSpelling(PSETEX);
    NameOfSpelling(MOVE);
    NameOfSpelling(SELECT);
    hide NameOf, ParseInteger;
  }

  lemma ReadPlainSet(name: Bytes, text: Bytes)
    ensures Read(SetArgv(name, text)) == Some(SetTo(name, text, false, false, None))
  {
    NameOfSpelling(SET);
    hide NameOf;
    assert SetArgv(name, text)[3..] == [];
  }

  lemma ReadDel(name: Bytes)
    ensures Read(DelArgv(name)) == Some(Del([name]))
    ensures forall feed :: Translate(DelArgv(name), feed) == [DelArgv(name)]
  {
    NameOfSpelling(DEL);
    hide NameOf;
    assert DelArgv(name)[1..] == [name];
  }

  lemma ReadSelect(db: int)
    requires 0 <= db < DBNUM
    ensures Read(SelectArgv(db)) == Some(Select(db))
  {
    NameOfSpelling(SELECT);
    ParseIntegerOfDecimal(db);
    hide NameOf, ParseInteger, Decimal;
  }

  /** Translation only ever prints commands that can be read back, and no SELECT. */
  lemma TranslateReadable(fed: Fed, feed: int)
    requires Feedable(fed)
    ensures var t := Translate(fed.argv, feed);
            Readable(t) && t != [] && forall i :: 0 <= i < |t| ==> !Read(t[i]).value.Select?
  {
    var n := NameOf(fed.argv[0]).value;
    hide Read, NameOf;
    if n.EXPIRE? || n.PEXPIRE? || n.EXPIREAT? || n.SETEX? || n.PSETEX? {
      ReadPexpireat(fed.argv[1], ExpireAtTime(n, fed.argv[2], feed));
      if n.SETEX? || n.PSETEX? {
        ReadPlainSet(fed.argv[1], fed.argv[3]);
      }
    }
  }

  function ReplayFed(ks: Dataset, fed: Fed, feed: int, now: int): Dataset
    requires Feedable(fed)
  {
    TranslateReadable(fed, feed);
    RunIn(ks, fed.db, Translate(fed.argv, feed), now)
  }

  function ReplayFeds(ks: Dataset, feds: seq<Fed>, feed: int, now: int): Dataset
    requires AllFeedable(feds)
    decreases feds
  {
    if feds == [] then ks else ReplayFeds(ReplayFed(ks, feds[0], feed, now), feds[1..], feed, now)
  }

  lemma {:induction false} ReplayFedsSplit(ks: Dataset, a: seq<Fed>, b: seq<Fed>, feed: int, now: int)
    requires AllFeedable(a) && AllFeedable(b)
    ensures AllFeedable(a + b)
    ensures ReplayFeds(ks, a + b, feed, now) == ReplayFeds(ReplayFeds(ks, a, feed, now), b, feed, now)
    decreases a
  {
    hide ReplayFed, Feedable;
    if a == [] {
      assert a + b == b;
    } else {
      assert (a + b)[1..] == a[1..] + b;
      ReplayFedsSplit(ReplayFed(ks, a[0], feed, now), a[1..], b, feed, now);
    }
  }

  lemma ReplayFedsOne(ks: Dataset, fed: Fed, feed: int, now: int)
    requires Feedable(fed)
    ensures ReplayFeds(ks, [fed], feed, now) == ReplayFed(ks, fed, feed, now)
  {
    hide ReplayFed, Feedable;
    assert [fed][1..] == [];
  }

  // ---------- SELECT tracking ----------

  lemma {:induction false} ReplayWithoutSelect(st: LoadState, log: seq<Argv>, now: int)
    requires Readable(log) && forall i :: 0 <= i < |log| ==> !Read(log[i]).value.Select?
    ensures Replay(st, log, now) == st.(ks := RunIn(st.ks, st.sel, log, now))
    decreases log
  {
    hide Read, Exec;
    if log != [] {
      ReplayWithoutSelect(LoadStep(st, log[0], now), log[1..], now);
    }
  }

  /** Whatever database the log had selected, one fed command is replayed in the database it ran
      against, and the selection the server remembers is the one the reader ends up with. */
  lemma FeedOneReplays(st: LoadState, selected: int, fed: Fed, feed: int, now: int)
    requires Feedable(fed) && (selected == -1 || selected == st.sel)
    ensures var f := FeedOne(selected, fed, feed);
            Readable(f.log) && f.selected == fed.db &&
            Replay(st, f.log, now) == LoadState(ReplayFed(st.ks, fed, feed, now), fed.db)
  {
    TranslateReadable(fed, feed);
    ReadSelect(fed.db);
    hide Read, Translate, RunIn;
    var t := Translate(fed.argv, feed);
    var at := LoadState(st.ks, fed.db);
    ReplayWithoutSelect(at, t, now);
    if fed.db != selected {
      var s := [SelectArgv(fed.db)];
      assert Readable(s);
      ReplaySplit(st, s, t, now);
      assert s[1..] == [];
    } else {
      assert [] + t == t;
    }
  }

  lemma {:induction false} FeedAllReplays(st: LoadState, selected: int, feds: seq<Fed>, feed: int, now: int)
    requires AllFeedable(feds) && (selected == -1 || selected == st.sel)
    ensures Known(feds)
    ensures var f := FeedAll(selected, feds, feed);
            Readable(f.log) && (f.selected == -1 || f.selected == Replay(st, f.log, now).sel) &&
            Replay(st, f.log, now).ks == ReplayFeds(st.ks, feds, feed, now)
    decreases feds
  {
    if feds != [] {
      FeedOneReplays(st, selected, feds[0], feed, now);
      var one := FeedOne(selected, feds[0], feed);
      var mid := Replay(st, one.log, now);
      FeedAllReplays(mid, one.selected, feds[1..], feed, now);
      ReplaySplit(st, one.log, FeedAll(one.selected, feds[1..], feed).log, now);
    }
  }
}
