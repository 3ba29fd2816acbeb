/** The invariant of every run: as long as the log is on, the file and the buffer together load to the dataset, and
    so does the file that a rewrite is about to put in place. */
module Safety {
  import opened Wire
  import opened Keyspace
  import opened Commands
  import opened Log
  import opened Coverage
  import opened Durability
  import opened Dump
  import opened Protocol
  import opened SparedKeys

  // ---------- What a state's bytes mean ----------

  /** A server together with the commands its bytes are meant to hold: those of the log, of the child's
      dump, and of the differences fed since the fork. No step looks at them. */
  datatype World = World(s: Server, log: seq<Argv>, dump: seq<Argv>, diff: seq<Argv>)

  /** How much is claimed of a log: only that its bytes are those of the commands fed; or that replaying
      them gives the dataset; or that it gives the same expire times as well. */
  datatype Claim = OnlyBytes | Loose | Exact

  /** The log, run from a base state, stands for the dataset, and the selection that the server
      remembers is the one a reader of the log ends up with. */
  ghost predicate Stands(ks: Dataset, at: int, selected: int, base: LoadState, log: seq<Argv>, now: int, claim: Claim) {
    Readable(log) && (!claim.OnlyBytes? ==> Covers(ks, Replay(base, log, now).ks, at, claim.Exact?)) &&
    (selected == -1 || selected == Replay(base, log, now).sel)
  }

  ghost predicate DiskOk(s: Server) {
    var d := s.disk;
    (forall i :: i in d.inodes ==> i < d.next) &&
    (d.aof.Some? ==> d.aof.value in d.inodes) &&
    (s.fd.Some? ==> s.fd.value in d.inodes) &&
    (d.temp.Some? ==> d.temp.value in d.inodes && d.temp != d.aof && d.temp != s.fd) &&
    (!s.mode.Off? ==> s.fd.Some?)
  }

  /** While the log is on: the descriptor is the configured file, that file is a prefix of the printed
      log, and the file followed by the buffer is all of it. */
  ghost predicate LogOk(w: World, now: int, claim: Claim)
    requires DiskOk(w.s)
  {
    w.s.mode.On? ==>
      var file := w.s.disk.inodes[w.s.fd.value];
      w.s.fd == w.s.disk.aof && file <= EncodeAll(w.log) &&
      (!w.s.exited ==> file + w.s.buf == EncodeAll(w.log) && w.s.size == |file|) &&
      Stands(w.s.ks, w.s.now, w.s.selected, FRESH, w.log, now, claim)
  }

  /** What the child's dump rebuilds: its copy of the dataset without what had expired when it read the clock; until
      then, without what had expired by the fork. */
  function Base(c: Child): LoadState {
    LoadState(Live(c.snap, c.clock), 0)
  }

  predicate StartsWithSelect(log: seq<Argv>) {
    log != [] ==> exists db :: 0 <= db < DBNUM && log[0] == SelectArgv(db)
  }

  /** Every byte fed since the fork is in exactly one place, in order: with the child, in the pipe, or
      in the blocks of the server. */
  predicate Conserved(w: World)
    requires w.s.child.Some?
  {
    var c := w.s.child.value;
    c.diff + c.pipe + w.s.blocks == EncodeAll(w.diff)
  }

  /** The stop handshake: an acknowledgement is only on its way, or received, when the server has
      stopped sending; waiting bytes have somebody to send them until then. */
  predicate Handshake(s: Server)
    requires s.child.Some?
  {
    var c := s.child.value;
    (c.phase.Dumping? || c.phase.Dumped? ==> !c.toParent && !c.toChild) &&
    (c.toChild || c.phase.Finished? ==> s.stopSending) &&
    (c.phase.Finished? ==> c.pipe == []) &&
    (s.blocks != [] && !s.stopSending ==> s.sendHandler)
  }

  predicate TempOk(s: Server)
    requires s.child.Some?
  {
    var c := s.child.value;
    c.phase.Finished? ==>
      s.disk.temp.Some? && s.disk.temp.value in s.disk.inodes &&
      s.disk.inodes[s.disk.temp.value] == c.dump + c.diff
  }

  ghost predicate DumpOk(w: World, now: int)
    requires w.s.child.Some?
  {
    var c := w.s.child.value;
    Sane(c.snap) && c.clock <= w.s.now &&
    (!c.phase.Dumping? ==>
      c.dump == EncodeAll(w.dump) && Readable(w.dump) &&
      Replay(FRESH, w.dump, now).ks == Base(c).ks)
  }

  ghost predicate DiffOk(w: World, now: int, claim: Claim)
    requires w.s.child.Some?
  {
    !w.s.mode.Off? ==>
      Stands(w.s.ks, w.s.now, w.s.selected, Base(w.s.child.value), w.diff, now, claim) &&
      StartsWithSelect(w.diff) && (w.diff == [] ==> w.s.selected == -1)
  }

  ghost predicate ChildOk(w: World, now: int, claim: Claim) {
    if w.s.child.None? then w.s.blocks == []
    else Conserved(w) && Handshake(w.s) && TempOk(w.s) && DumpOk(w, now) && DiffOk(w, now, claim)
  }

  /** The invariant of every run, for a later load at clock reading now. */
  ghost predicate Inv(w: World, now: int, claim: Claim) {
    Sane(w.s.ks) && w.s.now >= 0 && DiskOk(w.s) && LogOk(w, now, claim) && ChildOk(w, now, claim)
  }

  /** Whatever is claimed, the bytes are right. */
  lemma BytesAtLeast(w: World, now: int, claim: Claim)
    requires Inv(w, now, claim)
    ensures Inv(w, now, OnlyBytes)
  {
    hide Covers, Replay, Readable, Sane, EncodeAll, StartsWithSelect, Live;
  }

  // ---------- The meaning of a step ----------

  /** The commands fed by a command. */
  ghost function FedLog(s: Server, db: int, argv: Argv, clock: Clock): seq<Argv>
    requires Read(argv).Some?
  {
    var e := Exec(s.ks, db, argv, Read(argv).value, false, clock);
    if s.mode.Off? || !Known(e.feds) then [] else FeedAll(s.selected, e.feds, clock.feed).log
  }

  ghost function NextWorld(w: World, step: Step): World
    requires Possible(w.s, step)
  {
    var v := w.(s := Next(w.s, step));
    match step
    case Command(db, argv, clock) =>
      var more := FedLog(w.s, db, argv, clock);
      v.(log := if w.s.mode.On? then w.log + more else w.log,
         diff := if w.s.child.Some? then w.diff + more else w.diff)
    case StartLog(openOk, pipesOk, forkOk, _) => ForkWorld(w, v.s, openOk && ForkSucceeds(w.s, pipesOk, forkOk))
    case Rewrite(pipesOk, forkOk, _) => ForkWorld(w, v.s, ForkSucceeds(w.s, pipesOk, forkOk))
    case DumpStep(plan, now) => DumpWorld(w, plan, now)
    case ChildDone(e) => DoneWorld(w, e)
    case _ => v
  }

  /** After a fork no differences have been fed yet. */
  function ForkWorld(w: World, s: Server, forked: bool): World {
    if forked then w.(s := s, dump := [], diff := []) else w.(s := s)
  }

  function DumpWorld(w: World, plan: Plan, now: int): World
    requires w.s.child.Some? && PlanInDataset(w.s.child.value.snap, plan)
  {
    w.(s := ChildDump(w.s, plan, now), dump := DumpLog(w.s.child.value.snap, plan, now))
  }

  /** The log after a switch is meant to be the dump and the differences. */
  function DoneWorld(w: World, e: DoneEvents): World
    requires DonePossible(w.s, e)
  {
    w.(s := Done(w.s, e), log := if Switches(w.s, e) then w.dump + w.diff else w.log)
  }

  /** The keys whose expire time passes from one clock reading to another. */
  function Expiring(ks: Dataset, from: int, to: int): set<Key> {
    set k | k in ks && ks[k].exp.Some? && from <= ks[k].exp.value < to
  }

  /** What the run must respect for a claim about its log; nothing for the claim about bytes: its commands are tame for
      the log and for the rewritten one in the making, and what has been fed when the child reads its clock names no
      key that has expired since the fork. A load is later than every clock reading of the run, unless exactness is
      claimed, when its clock does not matter. */
  ghost predicate Respects(w: World, step: Step, now: int, claim: Claim) {
    claim.OnlyBytes? ||
    match step
    case Command(db, argv, clock) =>
      Read(argv).Some? ==>
        (w.s.mode.On? ==> TameFor(w.s.ks, FRESH, w.log, db, argv, clock, now, claim)) &&
        (w.s.child.Some? && !w.s.mode.Off? ==>
           TameFor(w.s.ks, Base(w.s.child.value), w.diff, db, argv, clock, now, claim))
    case DumpStep(_, read) =>
      w.s.child.Some? && !w.s.mode.Off? && Readable(w.diff) ==>
        Spares(0, w.diff, Expiring(w.s.child.value.snap, w.s.child.value.clock, read))
    case _ => true
  }

  /** What a log asks of a command that is fed to it. */
  ghost predicate TameFor(ks: Dataset, base: LoadState, log: seq<Argv>, db: int, argv: Argv, clock: Clock,
                          now: int, claim: Claim)
    requires Read(argv).Some?
  {
    (Readable(log) ==> Tame(ks, Replay(base, log, now).ks, db, argv, clock, claim.Exact?)) &&
    (claim.Loose? ==> clock.feed <= now)
  }

  // ---------- Commands ----------

  /** Feeding entry by entry is feeding all their bytes. */
  lemma {:induction false} FeedAllIsOnce(s: Server, feds: seq<Fed>, feed: int)
    requires Known(feds)
    ensures var f := FeedAll(s.selected, feds, feed);
            FeedAllBytes(s, feds, feed) == s.(
              selected := f.selected,
              buf := if s.mode.On? then s.buf + EncodeAll(f.log) else s.buf,
              blocks := if s.child.Some? then s.blocks + EncodeAll(f.log) else s.blocks,
              sendHandler := s.sendHandler || (s.child.Some? && feds != []))
    decreases feds
  {
    hide FeedOne, EncodeAll, Read;
    if feds == [] {
      assert EncodeAll([]) == [] by { EmptyLog(); }
      assert s.buf + [] == s.buf && s.blocks + [] == s.blocks;
    } else {
      var one := FeedOne(s.selected, feds[0], feed);
      var t := FeedBytes(s, feds[0], feed);
      FeedAllIsOnce(t, feds[1..], feed);
      var rest := FeedAll(one.selected, feds[1..], feed);
      EncodeAllSplit(one.log, rest.log);
      Assoc(s.buf, EncodeAll(one.log), EncodeAll(rest.log));
      Assoc(s.blocks, EncodeAll(one.log), EncodeAll(rest.log));
    }
  }

  lemma EmptyLog()
    ensures EncodeAll([]) == []
  {
  }

  /** Any command keeps the dataset sane and feeds only commands that can be printed, logged or not,
      tame or not. */
  lemma ExecSane(ks: Dataset, db: int, argv: Argv, clock: Clock)
    requires Sane(ks) && argv != [] && Read(argv).Some? && 0 <= db < DBNUM && Ordered(clock)
    ensures var e := Exec(ks, db, argv, Read(argv).value, false, clock);
            Sane(e.ks) && AllFeedable(e.feds) && Known(e.feds)
  {
    hide Read;
    var c := Read(argv).value;
    if c.Persist? {
      hide IsEmptyObj;
    } else {
      assert Covers(ks, ks, clock.look, false);
      assert Tame(ks, ks, db, argv, clock, false);
      hide Exec, ReplayFeds, Sane, Tame;
      ExecTracks(ks, ks, db, argv, clock, clock.feed, false);
    }
  }

  /** A log is extended by what a command feeds: its replay goes on with the replay of that. */
  lemma FedReplays(s: Server, base: LoadState, log: seq<Argv>, db: int, argv: Argv, clock: Clock, now: int)
    requires Possible(s, Command(db, argv, clock)) && !s.mode.Off? && Sane(s.ks)
    requires Readable(log) && (s.selected == -1 || s.selected == Replay(base, log, now).sel)
    ensures var e := Exec(s.ks, db, argv, Read(argv).value, false, clock);
            Known(e.feds) && AllFeedable(e.feds) &&
            var f := FeedAll(s.selected, e.feds, clock.feed);
            Readable(log + f.log) &&
            Replay(base, log + f.log, now).ks == ReplayFeds(Replay(base, log, now).ks, e.feds, clock.feed, now) &&
            (f.selected == -1 || f.selected == Replay(base, log + f.log, now).sel)
  {
    hide Read, Exec, Replay, LoadStep, FeedAll, AllFeedable, ReplayFeds, Sane;
    ExecSane(s.ks, db, argv, clock);
    var e := Exec(s.ks, db, argv, Read(argv).value, false, clock);
    FeedAllReplays(Replay(base, log, now), s.selected, e.feds, clock.feed, now);
    ReplaySplit(base, log, FeedAll(s.selected, e.feds, clock.feed).log, now);
  }

  /** The one fact about commands: what is fed extends any log that stands for the dataset. */
  lemma FedStands(s: Server, base: LoadState, log: seq<Argv>, db: int, argv: Argv, clock: Clock, now: int, claim: Claim)
    requires Possible(s, Command(db, argv, clock)) && !s.mode.Off? && Sane(s.ks)
    requires Stands(s.ks, s.now, s.selected, base, log, now, claim)
    requires claim.OnlyBytes? || TameFor(s.ks, base, log, db, argv, clock, now, claim)
    ensures var e := Exec(s.ks, db, argv, Read(argv).value, false, clock);
            Known(e.feds) &&
            var f := FeedAll(s.selected, e.feds, clock.feed);
            Stands(e.ks, clock.feed, f.selected, base, log + f.log, now, claim)
  {
    hide Read, Exec, Covers, Replay, LoadStep, Tame, FeedAll, AllFeedable, ReplayFeds, Sane;
    var st := Replay(base, log, now);
    if !claim.OnlyBytes? {
      CoversLater(s.ks, st.ks, s.now, clock.look, claim.Exact?);
      TameNow(s.ks, st.ks, db, argv, clock, now, claim.Exact?);
      ExecTracks(s.ks, st.ks, db, argv, clock, now, claim.Exact?);
    }
    FedReplays(s, base, log, db, argv, clock, now);
  }

  lemma StartsKept(log: seq<Argv>, selected: int, feds: seq<Fed>, feed: int)
    requires Known(feds) && StartsWithSelect(log) && (log == [] ==> selected == -1)
    ensures var f := FeedAll(selected, feds, feed);
            StartsWithSelect(log + f.log) && (log + f.log == [] ==> f.selected == -1)
  {
    hide Translate, SelectArgv, Read;
    var f := FeedAll(selected, feds, feed);
    if log == [] {
      if feds != [] {
        assert f.log[0] == SelectArgv(feds[0].db);
      }
      assert log + f.log == f.log;
    } else {
      assert (log + f.log)[0] == log[0];
    }
  }

  /** The server after a command whose entries are fed. */
  lemma CommandState(s: Server, db: int, argv: Argv, clock: Clock)
    requires Possible(s, Command(db, argv, clock)) && Sane(s.ks)
    ensures var e := Exec(s.ks, db, argv, Read(argv).value, false, clock);
            var more := FedLog(s, db, argv, clock);
            var t := Next(s, Command(db, argv, clock));
            Known(e.feds) && Sane(e.ks) &&
            t == s.(ks := e.ks, now := clock.feed,
                    selected := if s.mode.Off? then s.selected else FeedAll(s.selected, e.feds, clock.feed).selected,
                    buf := if s.mode.On? then s.buf + EncodeAll(more) else s.buf,
                    blocks := if s.child.Some? then s.blocks + EncodeAll(more) else s.blocks,
                    sendHandler := s.sendHandler || (s.child.Some? && !s.mode.Off? && e.feds != [])) &&
            (e.feds == [] ==> more == [])
  {
    ExecSane(s.ks, db, argv, clock);
    hide Read, Exec, Sane, FeedAll, FeedAllBytes, EncodeAll;
    var e := Exec(s.ks, db, argv, Read(argv).value, false, clock);
    if s.mode.Off? {
      EmptyLog();
      assert s.blocks + [] == s.blocks;
    } else {
      FeedAllIsOnce(s.(ks := e.ks, now := clock.feed), e.feds, clock.feed);
      assert e.feds == [] ==> FeedAll(s.selected, e.feds, clock.feed).log == [] by {
        NothingFed(s.selected, clock.feed);
      }
    }
  }

  lemma NothingFed(selected: int, feed: int)
    ensures FeedAll(selected, [], feed) == Feed([], selected)
  {
  }

  lemma CommandKeepsLog(w: World, db: int, argv: Argv, clock: Clock, now: int, claim: Claim)
    requires Inv(w, now, claim) && Possible(w.s, Command(db, argv, clock))
    requires Respects(w, Command(db, argv, clock), now, claim)
    ensures var v := NextWorld(w, Command(db, argv, clock));
            DiskOk(v.s) && LogOk(v, now, claim)
  {
    CommandState(w.s, db, argv, clock);
    hide Read, Exec, Sane, Stands, Tame, FeedAll, EncodeAll, FedLog, ChildOk, Next;
    if w.s.mode.On? {
      var more := FedLog(w.s, db, argv, clock);
      assert more == FeedAll(w.s.selected, Exec(w.s.ks, db, argv, Read(argv).value, false, clock).feds, clock.feed).log by {
        FedLogIsFeed(w.s, db, argv, clock);
      }
      FedStands(w.s, FRESH, w.log, db, argv, clock, now, claim);
      EncodeAllSplit(w.log, more);
      var file := w.s.disk.inodes[w.s.fd.value];
      Assoc(file, w.s.buf, EncodeAll(more));
      PrefixGrows(file, EncodeAll(w.log), EncodeAll(more));
    }
  }

  lemma PrefixGrows(p: Bytes, a: Bytes, b: Bytes)
    requires p <= a
    ensures p <= a + b
  {
  }

  lemma FedLogIsFeed(s: Server, db: int, argv: Argv, clock: Clock)
    requires Read(argv).Some? && !s.mode.Off?
    requires Known(Exec(s.ks, db, argv, Read(argv).value, false, clock).feds)
    ensures FedLog(s, db, argv, clock)
         == FeedAll(s.selected, Exec(s.ks, db, argv, Read(argv).value, false, clock).feds, clock.feed).log
  {
  }

  lemma CommandKeepsDiff(w: World, db: int, argv: Argv, clock: Clock, now: int, claim: Claim)
    requires Inv(w, now, claim) && Possible(w.s, Command(db, argv, clock)) && w.s.child.Some?
    requires Respects(w, Command(db, argv, clock), now, claim)
    ensures var v := NextWorld(w, Command(db, argv, clock)); v.s.child.Some? && DiffOk(v, now, claim)
  {
    CommandState(w.s, db, argv, clock);
    hide Read, Exec, Sane, Stands, Tame, FeedAll, EncodeAll, FedLog, LogOk, Next, StartsWithSelect, Live,
      DumpOk, DiskOk, Handshake, TempOk, Conserved;
    var s := w.s;
    var e := Exec(s.ks, db, argv, Read(argv).value, false, clock);
    if !s.mode.Off? {
      FedLogIsFeed(s, db, argv, clock);
      FedStands(s, Base(s.child.value), w.diff, db, argv, clock, now, claim);
      StartsKept(w.diff, s.selected, e.feds, clock.feed);
    }
  }

  lemma CommandKeepsBytes(w: World, db: int, argv: Argv, clock: Clock, now: int, claim: Claim)
    requires Inv(w, now, claim) && Possible(w.s, Command(db, argv, clock)) && w.s.child.Some?
    ensures var v := NextWorld(w, Command(db, argv, clock));
            v.s.child == w.s.child && Conserved(v) && Handshake(v.s) && TempOk(v.s) && DumpOk(v, now)
  {
    CommandState(w.s, db, argv, clock);
    hide Read, Exec, Sane, Stands, FeedAll, EncodeAll, FedLog, LogOk, Next, DumpOk, DiffOk, DiskOk;
    var s := w.s;
    var c, more := s.child.value, FedLog(s, db, argv, clock);
    EncodeAllSplit(w.diff, more);
    Assoc(c.diff + c.pipe, s.blocks, EncodeAll(more));
    EmptyLog();
    if s.mode.Off? {
      FedWhenOff(s, db, argv, clock);
    }
    DumpOkIgnores(w, NextWorld(w, Command(db, argv, clock)), now);
  }

  lemma CommandKeepsChild(w: World, db: int, argv: Argv, clock: Clock, now: int, claim: Claim)
    requires Inv(w, now, claim) && Possible(w.s, Command(db, argv, clock))
    requires Respects(w, Command(db, argv, clock), now, claim)
    ensures ChildOk(NextWorld(w, Command(db, argv, clock)), now, claim)
  {
    if w.s.child.Some? {
      CommandKeepsBytes(w, db, argv, clock, now, claim);
      CommandKeepsDiff(w, db, argv, clock, now, claim);
      hide Read, Exec, Sane, FedLog, LogOk, Next, DumpOk, DiffOk, DiskOk, Handshake, TempOk, Conserved;
    } else {
      CommandState(w.s, db, argv, clock);
      hide Read, Exec, Sane, FedLog, LogOk, Next, FeedAll;
    }
  }

  lemma FedWhenOff(s: Server, db: int, argv: Argv, clock: Clock)
    requires Read(argv).Some? && s.mode.Off?
    ensures FedLog(s, db, argv, clock) == []
  {
  }

  lemma DumpOkIgnores(w: World, v: World, now: int)
    requires w.s.child.Some? && w.s.child == v.s.child && w.dump == v.dump && DumpOk(w, now)
    requires w.s.now <= v.s.now
    ensures DumpOk(v, now)
  {
    hide Replay, Readable, EncodeAll, Sane, Live;
  }

  lemma CommandKeeps(w: World, db: int, argv: Argv, clock: Clock, now: int, claim: Claim)
    requires Inv(w, now, claim) && Possible(w.s, Command(db, argv, clock))
    requires Respects(w, Command(db, argv, clock), now, claim)
    ensures Inv(NextWorld(w, Command(db, argv, clock)), now, claim)
  {
    CommandState(w.s, db, argv, clock);
    CommandKeepsLog(w, db, argv, clock, now, claim);
    CommandKeepsChild(w, db, argv, clock, now, claim);
    hide Read, Exec, Sane, FedLog, LogOk, ChildOk, FeedAll, EncodeAll, DiskOk, Next;
  }

  // ---------- Writing the log ----------

  lemma CutBack(content: Bytes, more: Bytes)
    ensures Truncate(content + more, |content|) == content
  {
  }

  lemma PartlyWritten(content: Bytes, buf: Bytes, n: nat)
    requires n <= |buf|
    ensures content + buf[..n] + buf[n..] == content + buf
    ensures content + buf[..n] <= content + buf
  {
    assert buf == buf[..n] + buf[n..];
    Assoc(content, buf[..n], buf[n..]);
  }

  /** A write, however it goes, leaves the file and the buffer with the same bytes between them, the
      file a prefix of the log, and its remembered size right. */
  lemma WriteKeeps(s: Server, e: FlushEvents, all: Bytes)
    requires FlushPossible(s, e) && s.fd.Some? && s.buf != [] && !s.exited
    requires var file := s.disk.inodes[s.fd.value]; file + s.buf == all && s.size == |file|
    ensures var r := Write(s, e);
            s.fd.value in r.disk.inodes &&
            var file := r.disk.inodes[s.fd.value];
            file <= all && (!r.exited ==> file + r.buf == all && r.size == |file|)
  {
    hide Truncate;
    if e.written >= 0 {
      var file := s.disk.inodes[s.fd.value];
      PartlyWritten(file, s.buf, e.written);
      CutBack(file, s.buf[..e.written]);
      if e.written == |s.buf| {
        assert s.buf[..e.written] == s.buf;
        assert file + s.buf + [] == file + s.buf;
      }
    }
  }

  /** Only the file behind the descriptor is touched. */
  lemma WriteTouches(s: Server, e: FlushEvents)
    requires FlushPossible(s, e)
    ensures var r := Write(s, e);
            r.disk == s.disk.(inodes := r.disk.inodes) && r.disk.inodes.Keys == s.disk.inodes.Keys &&
            forall i :: i in s.disk.inodes && Some(i) != s.fd ==> r.disk.inodes[i] == s.disk.inodes[i]
  {
    hide Truncate;
  }

  lemma FlushKeepsLog(w: World, e: FlushEvents, now: int, claim: Claim)
    requires DiskOk(w.s) && LogOk(w, now, claim) && FlushPossible(w.s, e) && !w.s.exited
    ensures var v := w.(s := Flush(w.s, e)); DiskOk(v.s) && LogOk(v, now, claim)
  {
    hide Stands, EncodeAll, Write;
    WriteTouches(w.s, e);
    if w.s.mode.On? && w.s.buf != [] {
      WriteKeeps(w.s, e, EncodeAll(w.log));
    }
  }

  lemma FlushKeepsChild(w: World, e: FlushEvents, now: int, claim: Claim)
    requires DiskOk(w.s) && ChildOk(w, now, claim) && FlushPossible(w.s, e)
    ensures ChildOk(w.(s := Flush(w.s, e)), now, claim)
  {
    hide Stands, EncodeAll, StartsWithSelect, Live, Replay, Readable, Sane, Write;
    WriteTouches(w.s, e);
  }

  lemma FlushKeeps(w: World, e: FlushEvents, now: int, claim: Claim)
    requires Inv(w, now, claim) && Possible(w.s, FlushLog(e))
    ensures Inv(w.(s := Flush(w.s, e)), now, claim)
  {
    FlushKeepsLog(w, e, now, claim);
    FlushKeepsChild(w, e, now, claim);
    hide LogOk, ChildOk, DiskOk, Sane, Write;
  }

  // ---------- Turning the log on and off ----------

  /** Right after a fork nothing has been fed, and the child's copy is the dataset. */
  lemma ForkKeepsChild(w: World, s: Server, forked: int, now: int, claim: Claim)
    requires Sane(s.ks) && s.blocks == [] && s.now <= forked
    ensures var c := Child(s.ks, forked, Dumping, [], [], [], false, false);
            var t := s.(now := forked, selected := -1, child := Some(c), stopSending := false);
            ChildOk(w.(s := t, dump := [], diff := []), now, claim)
  {
    EmptyLog();
    var c := Child(s.ks, forked, Dumping, [], [], [], false, false);
    LiveCovers(s.ks, forked, claim.Exact?);
    assert Replay(Base(c), [], now) == Base(c);
    hide Covers, Live, Sane;
  }

  lemma LiveCovers(ks: Dataset, at: int, exact: bool)
    requires Sane(ks)
    ensures Covers(ks, Live(ks, at), at, exact)
  {
  }

  lemma StandsLater(ks: Dataset, at: int, later: int, selected: int, base: LoadState, log: seq<Argv>, now: int, claim: Claim)
    requires Stands(ks, at, selected, base, log, now, claim) && at <= later
    ensures Stands(ks, later, selected, base, log, now, claim)
    ensures Stands(ks, later, -1, base, log, now, claim)
  {
    hide Replay, Readable;
    if !claim.OnlyBytes? {
      CoversLater(ks, Replay(base, log, now).ks, at, later, claim.Exact?);
    }
  }

  lemma ForkKeeps(w: World, pipesOk: bool, forkOk: bool, at: int, now: int, claim: Claim)
    requires Inv(w, now, claim) && Possible(w.s, Rewrite(pipesOk, forkOk, at))
    ensures Inv(ForkWorld(w, Fork(w.s, pipesOk, forkOk, at), ForkSucceeds(w.s, pipesOk, forkOk)), now, claim)
  {
    hide Sane, Stands, EncodeAll, StartsWithSelect, Live, Replay, Readable;
    var s := w.s;
    if ForkSucceeds(s, pipesOk, forkOk) {
      var t := s.(askHandler := true, sendHandler := false, stopSending := false, scheduled := false);
      ForkKeepsChild(w, t, at, now, claim);
      if s.mode.On? {
        StandsLater(s.ks, s.now, at, s.selected, FRESH, w.log, now, claim);
      }
    }
  }

  lemma StartKeeps(w: World, openOk: bool, pipesOk: bool, forkOk: bool, at: int, now: int, claim: Claim)
    requires Inv(w, now, claim) && Possible(w.s, StartLog(openOk, pipesOk, forkOk, at))
    ensures Inv(ForkWorld(w, Start(w.s, openOk, pipesOk, forkOk, at), openOk && ForkSucceeds(w.s, pipesOk, forkOk)), now, claim)
  {
    hide Sane, Stands, EncodeAll, StartsWithSelect, Live, Replay, Readable;
    var s := w.s;
    if openOk && ForkSucceeds(s, pipesOk, forkOk) {
      var d := OpenLog(s.disk);
      var t := s.(disk := d, fd := d.aof, askHandler := true, sendHandler := false, stopSending := false,
                  scheduled := false, mode := WaitRewrite);
      ForkKeepsChild(w, t, at, now, claim);
    }
  }

  lemma StopKeeps(w: World, e: FlushEvents, now: int, claim: Claim)
    requires Inv(w, now, claim) && Possible(w.s, StopLog(e))
    ensures Inv(w.(s := Stop(w.s, e)), now, claim)
  {
    hide Inv, Flush, FlushPossible, DropChild;
    var f := e.(postponed := false);
    assert FlushPossible(w.s, f) by { PutOffOrNot(w.s, e); }
    FlushKeeps(w, f, now, claim);
    var t := Flush(w.s, f);
    if !t.exited {
      TurnOffKeeps(w.(s := t), now, claim);
    }
  }

  lemma PutOffOrNot(s: Server, e: FlushEvents)
    requires FlushPossible(s, e)
    ensures FlushPossible(s, e.(postponed := false))
  {
  }

  lemma TurnOffKeeps(w: World, now: int, claim: Claim)
    requires Inv(w, now, claim)
    ensures var off := w.s.(fd := None, selected := -1, mode := Off);
            Inv(w.(s := if w.s.child.None? then off else DropChild(off)), now, claim)
  {
    hide Sane, Stands, EncodeAll, StartsWithSelect, Live, Replay, Readable;
  }

  // ---------- Parent and child ----------

  lemma SplitPipe(a: Bytes, b: Bytes, c: Bytes, n: nat)
    ensures n <= |c| ==> a + (b + c[..n]) + c[n..] == a + b + c
    ensures n <= |b| ==> a + b[..n] + b[n..] == a + b
  {
    if n <= |c| {
      assert c[..n] + c[n..] == c;
      Assoc(a, b, c[..n]);
      Assoc(a + b, c[..n], c[n..]);
    }
    if n <= |b| {
      assert b[..n] + b[n..] == b;
      Assoc(a, b[..n], b[n..]);
    }
  }

  /** Steps of the pipes and the handshake change nothing but the child, the waiting blocks and flags. */
  predicate OnlyPipes(s: Server, t: Server) {
    s.child.Some? && t.child.Some? &&
    t == s.(child := t.child, blocks := t.blocks, sendHandler := t.sendHandler,
            askHandler := t.askHandler, stopSending := t.stopSending) &&
    t.child.value.snap == s.child.value.snap && t.child.value.clock == s.child.value.clock
  }

  lemma PipesKeep(w: World, t: Server, now: int, claim: Claim)
    requires Inv(w, now, claim) && OnlyPipes(w.s, t)
    requires Conserved(w.(s := t)) && Handshake(t) && TempOk(t)
    requires t.child.value.dump == w.s.child.value.dump
    requires t.child.value.phase.Dumping? <==> w.s.child.value.phase.Dumping?
    ensures Inv(w.(s := t), now, claim)
  {
    hide Stands, EncodeAll, StartsWithSelect, Live, Replay, Readable, Sane, Conserved, Handshake, TempOk;
  }

  lemma SendKeeps(w: World, n: nat, now: int, claim: Claim)
    requires Inv(w, now, claim) && Possible(w.s, Send(n))
    ensures Inv(w.(s := SendDiff(w.s, n)), now, claim)
  {
    hide Stands, EncodeAll, StartsWithSelect, Live, Replay, Readable, Sane, DumpOk, DiffOk, DiskOk, LogOk;
    var c := w.s.child.value;
    SplitPipe(c.diff, c.pipe, w.s.blocks, n);
    PipesKeep(w, SendDiff(w.s, n), now, claim);
  }

  lemma ReceiveKeeps(w: World, n: nat, now: int, claim: Claim)
    requires Inv(w, now, claim) && Possible(w.s, Receive(n))
    ensures Inv(w.(s := ChildRead(w.s, n)), now, claim)
  {
    hide Stands, EncodeAll, StartsWithSelect, Live, Replay, Readable, Sane, DumpOk, DiffOk, DiskOk, LogOk;
    var c := w.s.child.value;
    SplitPipe(c.diff, c.pipe, [], n);
    PipesKeep(w, ChildRead(w.s, n), now, claim);
  }

  lemma AskKeeps(w: World, now: int, claim: Claim)
    requires Inv(w, now, claim) && Possible(w.s, Ask)
    ensures Inv(w.(s := ChildAsk(w.s)), now, claim)
  {
    hide Stands, EncodeAll, StartsWithSelect, Live, Replay, Readable, Sane, DumpOk, DiffOk, DiskOk, LogOk;
    PipesKeep(w, ChildAsk(w.s), now, claim);
  }

  lemma HearKeeps(w: World, readOk: bool, ackOk: bool, now: int, claim: Claim)
    requires Inv(w, now, claim) && Possible(w.s, Hear(readOk, ackOk))
    ensures Inv(w.(s := HearChild(w.s, readOk, ackOk)), now, claim)
  {
    hide Stands, EncodeAll, StartsWithSelect, Live, Replay, Readable, Sane, DumpOk, DiffOk, DiskOk, LogOk;
    PipesKeep(w, HearChild(w.s, readOk, ackOk), now, claim);
  }

  /** The child finishes with every byte that was ever sent to it, and the temporary file holds its dump
      followed by them. */
  lemma FinishKeeps(w: World, now: int, claim: Claim)
    requires Inv(w, now, claim) && Possible(w.s, Finish)
    ensures Inv(w.(s := ChildFinish(w.s)), now, claim)
  {
    hide Stands, EncodeAll, StartsWithSelect, Live, Replay, Readable, Sane;
    var c := w.s.child.value;
    assert c.diff + c.pipe + [] == c.diff + c.pipe;
  }

  /** What is live at one time and not at a later one has expired in between. */
  lemma LiveApart(snap: Dataset, clock: int, read: int)
    requires Sane(snap) && clock <= read
    ensures Live(snap, read) == Live(snap, clock) - Expiring(snap, clock, read)
  {
    forall k | k in snap
      ensures k in Live(snap, read) <==> k in Live(snap, clock) - Expiring(snap, clock, read)
    {
      assert SaneAt(k, snap[k]);
    }
  }

  /** A replayed dataset may lack what was left alone since it expired. */
  lemma CoversApart(D: Dataset, R: Dataset, snap: Dataset, clock: int, at: int, read: int, exact: bool)
    requires Covers(D, R, at, exact) && at <= read && Sane(snap)
    requires LeftAlone(Live(snap, clock), R, Expiring(snap, clock, read))
    ensures Covers(D, R - Expiring(snap, clock, read), read, exact)
  {
    var gone := Expiring(snap, clock, read);
    forall k | k in D && k !in R - gone
      ensures D[k].Due(read)
    {
      if k in R {
        assert R[k] == snap[k] && EntryCovers(D[k], R[k], exact) && SaneAt(k, D[k]);
      }
    }
  }

  lemma DumpKeepsDump(w: World, plan: Plan, read: int, now: int)
    requires Possible(w.s, DumpStep(plan, read)) && DumpOk(w, now)
    ensures DumpOk(DumpWorld(w, plan, read), now)
  {
    hide EncodeAll, Live, Replay, Readable, Sane, DumpLog, IsPlan, PlanInDataset;
    DumpRebuilds(w.s.child.value.snap, plan, read, now);
  }

  /** The differences fed so far stand on what the child dumps as they stood on its whole copy. */
  lemma DumpedStands(ks: Dataset, at: int, read: int, selected: int, c: Child, diff: seq<Argv>, now: int, claim: Claim)
    requires Stands(ks, at, selected, Base(c), diff, now, claim) && Sane(c.snap) && c.clock <= at <= read
    requires claim.OnlyBytes? || Spares(0, diff, Expiring(c.snap, c.clock, read))
    ensures Stands(ks, read, selected, LoadState(Live(c.snap, read), 0), diff, now, claim)
  {
    hide Covers, Live, Replay, Readable, Sane, Spares, Expiring, LeftAlone;
    if claim.OnlyBytes? {
      SelectionIgnoresData(Base(c).ks, Live(c.snap, read), 0, diff, now);
    } else {
      LiveApart(c.snap, c.clock, read);
      ReplaySpares(Base(c), diff, Expiring(c.snap, c.clock, read), now);
      CoversApart(ks, Replay(Base(c), diff, now).ks, c.snap, c.clock, at, read, claim.Exact?);
    }
  }

  lemma DumpKeepsDiff(w: World, plan: Plan, read: int, now: int, claim: Claim)
    requires Possible(w.s, DumpStep(plan, read)) && DumpOk(w, now) && DiffOk(w, now, claim)
    requires Respects(w, DumpStep(plan, read), now, claim)
    ensures DiffOk(DumpWorld(w, plan, read), now, claim)
  {
    hide Live, Replay, Readable, Sane, DumpLog, IsPlan, PlanInDataset, Spares, Expiring, EncodeAll, Covers,
      StartsWithSelect;
    if !w.s.mode.Off? {
      DumpedStands(w.s.ks, w.s.now, read, w.s.selected, w.s.child.value, w.diff, now, claim);
    }
  }

  lemma DumpKeeps(w: World, plan: Plan, read: int, now: int, claim: Claim)
    requires Inv(w, now, claim) && Possible(w.s, DumpStep(plan, read))
    requires Respects(w, DumpStep(plan, read), now, claim)
    ensures Inv(DumpWorld(w, plan, read), now, claim)
  {
    DumpKeepsDump(w, plan, read, now);
    DumpKeepsDiff(w, plan, read, now, claim);
    hide Stands, EncodeAll, StartsWithSelect, Live, Replay, Readable, Sane, DumpLog, IsPlan, PlanInDataset,
      Spares, Expiring, DumpOk, DiffOk;
    if w.s.mode.On? {
      StandsLater(w.s.ks, w.s.now, read, w.s.selected, FRESH, w.log, now, claim);
    }
  }

  // ---------- The end of a rewrite ----------

  /** A log that starts by selecting a database does not care which one was selected before. */
  lemma SelectionIsForgotten(ks: Dataset, a: int, b: int, log: seq<Argv>, now: int)
    requires Readable(log) && log != [] && StartsWithSelect(log)
    ensures Replay(LoadState(ks, a), log, now) == Replay(LoadState(ks, b), log, now)
  {
    var db :| 0 <= db < DBNUM && log[0] == SelectArgv(db);
    ReadSelect(db);
    hide Read, SelectArgv;
  }

  /** The dump followed by the differences makes what the differences make of the child's copy. */
  lemma RewrittenReplays(w: World, now: int, claim: Claim)
    requires w.s.child.Some? && !w.s.mode.Off? && !w.s.child.value.phase.Dumping?
    requires DumpOk(w, now) && DiffOk(w, now, claim)
    ensures Readable(w.dump + w.diff) && Readable(w.diff)
    ensures var a, b := Replay(FRESH, w.dump + w.diff, now), Replay(Base(w.s.child.value), w.diff, now);
            a.ks == b.ks && (w.diff != [] ==> a.sel == b.sel)
  {
    hide EncodeAll, StartsWithSelect, Live, Replay, LoadStep, Covers, Sane;
    var c := w.s.child.value;
    var mid := Replay(FRESH, w.dump, now);
    ReplaySplit(FRESH, w.dump, w.diff, now);
    if w.diff == [] {
      NothingReplays(mid, now);
      NothingReplays(Base(c), now);
    } else {
      SelectionIsForgotten(mid.ks, mid.sel, 0, w.diff, now);
    }
  }

  /** The dump followed by the differences stands for the dataset of the server. */
  lemma RewrittenLogStands(w: World, now: int, claim: Claim)
    requires w.s.child.Some? && !w.s.mode.Off? && !w.s.child.value.phase.Dumping?
    requires DumpOk(w, now) && DiffOk(w, now, claim)
    ensures Stands(w.s.ks, w.s.now, w.s.selected, FRESH, w.dump + w.diff, now, claim)
    ensures Stands(w.s.ks, w.s.now, -1, FRESH, w.dump + w.diff, now, claim)
  {
    RewrittenReplays(w, now, claim);
    hide EncodeAll, StartsWithSelect, Live, Replay, LoadStep, Covers, Sane;
  }

  /** Which database is selected after a log has nothing to do with the data. */
  lemma {:induction false} SelectionIgnoresData(a: Dataset, b: Dataset, sel: int, log: seq<Argv>, now: int)
    requires Readable(log)
    ensures Replay(LoadState(a, sel), log, now).sel == Replay(LoadState(b, sel), log, now).sel
    decreases log
  {
    hide Read, Exec;
    if log != [] {
      var p, q := LoadStep(LoadState(a, sel), log[0], now), LoadStep(LoadState(b, sel), log[0], now);
      SelectionIgnoresData(p.ks, q.ks, p.sel, log[1..], now);
    }
  }

  lemma NothingReplays(st: LoadState, now: int)
    ensures Replay(st, [], now) == st
  {
  }

  /** What the server makes of the temporary file is the dump followed by every byte fed since the
      fork, once and in order. */
  lemma SwitchedFile(w: World, e: DoneEvents, now: int, claim: Claim)
    requires Inv(w, now, claim) && Possible(w.s, ChildDone(e)) && Switches(w.s, e)
    ensures var t := Done(w.s, e);
            t.disk.aof == w.s.disk.temp && t.disk.aof.Some? && t.disk.aof.value in t.disk.inodes &&
            t.disk.inodes[t.disk.aof.value] == EncodeAll(w.dump) + EncodeAll(w.diff) &&
            t.disk.inodes[t.disk.aof.value] == EncodeAll(w.dump + w.diff)
  {
    hide Stands, EncodeAll, StartsWithSelect, Live, Replay, Readable, Sane, LogOk, DiffOk;
    var c := w.s.child.value;
    EncodeAllSplit(w.dump, w.diff);
    assert w.s.blocks[..e.appended] == w.s.blocks;
    assert c.diff + [] + w.s.blocks == c.diff + w.s.blocks;
    Assoc(c.dump, c.diff, w.s.blocks);
  }

  lemma DoneKeepsDisk(w: World, e: DoneEvents, now: int, claim: Claim)
    requires Inv(w, now, claim) && Possible(w.s, ChildDone(e))
    ensures var t := Done(w.s, e);
            DiskOk(t) && t.ks == w.s.ks && t.now == w.s.now && t.child.None? && t.blocks == [] &&
            (Switches(w.s, e) && t.mode.On? ==>
               t.fd == t.disk.aof && t.buf == [] && t.selected == -1 && t.size == |t.disk.inodes[t.fd.value]|) &&
            (!Switches(w.s, e) ==>
               t.mode == w.s.mode && t.fd == w.s.fd && t.buf == w.s.buf && t.size == w.s.size &&
               t.selected == w.s.selected && t.exited == w.s.exited && t.disk.aof == w.s.disk.aof &&
               (t.fd.Some? ==> t.disk.inodes[t.fd.value] == w.s.disk.inodes[t.fd.value]))
  {
    hide Stands, EncodeAll, StartsWithSelect, Live, Replay, Readable, Sane, LogOk, DiffOk, DumpOk, Conserved, Handshake;
  }

  lemma DoneKeeps(w: World, e: DoneEvents, now: int, claim: Claim)
    requires Inv(w, now, claim) && Possible(w.s, ChildDone(e))
    ensures Inv(DoneWorld(w, e), now, claim)
  {
    DoneKeepsDisk(w, e, now, claim);
    if Switches(w.s, e) {
      SwitchedFile(w, e, now, claim);
      if !w.s.mode.Off? {
        RewrittenLogStands(w, now, claim);
      }
      DoneMode(w.s, e);
    }
    hide Stands, EncodeAll, StartsWithSelect, Live, Replay, Readable, Sane, Done, DumpOk, DiffOk, Conserved, Handshake, TempOk;
    var t := Done(w.s, e);
    assert t.buf == [] && t.fd.Some? ==> t.disk.inodes[t.fd.value] + t.buf == t.disk.inodes[t.fd.value];
  }

  lemma DoneMode(s: Server, e: DoneEvents)
    requires DonePossible(s, e)
    ensures var t := Done(s, e); t.mode.On? ==> !s.mode.Off?
  {
  }

  // ---------- Runs ----------

  /** A sequence of possible steps, each respecting the conditions, leads from one world to another. */
  ghost predicate Runs(w: World, steps: seq<Step>, v: World, now: int, claim: Claim)
    decreases steps
  {
    if steps == [] then v == w
    else
      Possible(w.s, steps[0]) && Respects(w, steps[0], now, claim) &&
      Runs(NextWorld(w, steps[0]), steps[1..], v, now, claim)
  }

  lemma StepKeeps(w: World, step: Step, now: int, claim: Claim)
    requires Inv(w, now, claim) && Possible(w.s, step) && Respects(w, step, now, claim)
    ensures Inv(NextWorld(w, step), now, claim)
  {
    match step {
      case Command(db, argv, clock) => CommandKeeps(w, db, argv, clock, now, claim);
      case FlushLog(e) => FlushKeeps(w, e, now, claim);
      case StartLog(openOk, pipesOk, forkOk, at) => StartKeeps(w, openOk, pipesOk, forkOk, at, now, claim);
      case StopLog(e) => StopKeeps(w, e, now, claim);
      case Rewrite(pipesOk, forkOk, at) => ForkKeeps(w, pipesOk, forkOk, at, now, claim);
      case Send(n) => SendKeeps(w, n, now, claim);
      case Receive(n) => ReceiveKeeps(w, n, now, claim);
      case DumpStep(plan, read) => DumpKeeps(w, plan, read, now, claim);
      case Ask => AskKeeps(w, now, claim);
      case Hear(readOk, ackOk) => HearKeeps(w, readOk, ackOk, now, claim);
      case Finish => FinishKeeps(w, now, claim);
      case ChildDone(e) => DoneKeeps(w, e, now, claim);
    }
    hide Inv, Respects, RunCommand, Flush, Start, Stop, Fork, SendDiff, ChildRead, ChildDump, ChildAsk, HearChild,
      ChildFinish, Done;
  }

  lemma {:induction false} RunKeeps(w: World, steps: seq<Step>, v: World, now: int, claim: Claim)
    requires Inv(w, now, claim) && Runs(w, steps, v, now, claim)
    ensures Inv(v, now, claim)
    decreases steps
  {
    hide Inv, Possible, Respects, NextWorld;
    if steps != [] {
      StepKeeps(w, steps[0], now, claim);
      RunKeeps(NextWorld(w, steps[0]), steps[1..], v, now, claim);
    }
  }

  /** The world of a server that has just been started. */
  function Started(logging: bool, at: nat): World {
    World(Boot(logging, at), [], [], [])
  }

  lemma StartedInv(logging: bool, at: nat, now: int, claim: Claim)
    ensures Inv(Started(logging, at), now, claim)
  {
    EmptyLog();
    NothingReplays(FRESH, now);
  }

  /** The dataset a server has after loading. */
  function LoadedData(o: Outcome): Dataset {
    if o.Loaded? then o.ks else map[]
  }

  lemma LoadNothing(loadTruncated: bool, truncateOk: bool, now: int)
    ensures LoadFile([], loadTruncated, truncateOk, now) == Nothing
  {
  }

  lemma LoadsAll(log: seq<Argv>, loadTruncated: bool, truncateOk: bool, now: int)
    requires Readable(log)
    ensures var o := LoadFile(EncodeAll(log), loadTruncated, truncateOk, now);
            !o.Exit? && LoadedData(o) == Replay(FRESH, log, now).ks
  {
    hide Replay, Readable, LoadFile, EncodeAll;
    if log == [] {
      EmptyLog();
      NothingReplays(FRESH, now);
      LoadNothing(loadTruncated, truncateOk, now);
    } else {
      LoadWholeLog(log, loadTruncated, truncateOk, now);
    }
  }

  /** The file and the buffer load to what the commands of the log make. */
  lemma LoadsItsLog(v: World, loadTruncated: bool, truncateOk: bool, now: int, claim: Claim)
    requires Inv(v, now, claim) && v.s.mode.On? && !v.s.exited
    ensures v.s.fd.Some? && v.s.fd == v.s.disk.aof && v.s.fd.value in v.s.disk.inodes && Readable(v.log)
    ensures var o := LoadFile(v.s.disk.inodes[v.s.fd.value] + v.s.buf, loadTruncated, truncateOk, now);
            !o.Exit? && LoadedData(o) == Replay(FRESH, v.log, now).ks
  {
    hide Covers, Replay, Readable, Sane, ChildOk, LoadFile;
    LoadsAll(v.log, loadTruncated, truncateOk, now);
  }

  /** What the invariant says about a load. */
  lemma StateIsDurable(v: World, loadTruncated: bool, truncateOk: bool, now: int, claim: Claim)
    requires Inv(v, now, claim) && v.s.mode.On? && !v.s.exited
    ensures v.s.fd.Some? && v.s.fd == v.s.disk.aof && v.s.fd.value in v.s.disk.inodes
    ensures var all := v.s.disk.inodes[v.s.fd.value] + v.s.buf;
            var o := LoadFile(all, loadTruncated, truncateOk, now);
            !o.Exit? && (!claim.OnlyBytes? ==> Covers(v.s.ks, LoadedData(o), v.s.now, claim.Exact?))
  {
    LoadsItsLog(v, loadTruncated, truncateOk, now, claim);
    hide Covers, Replay, Readable, Sane, ChildOk, LoadFile;
  }

  lemma ChildParts(w: World, now: int, claim: Claim)
    requires Inv(w, now, claim) && w.s.child.Some?
    ensures DumpOk(w, now) && DiffOk(w, now, claim)
  {
    hide DumpOk, DiffOk, Sane, LogOk, DiskOk;
  }
}
