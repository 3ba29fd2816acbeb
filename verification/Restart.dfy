/** Crashes and restarts, and the promises over any number of lifetimes of a server: what is in the log loads to its
    dataset, nothing fed is lost, repeated or reordered on its way to the file or to the child of a rewrite, and what a
    crash leaves of the file loads to the commands wholly in it. */
module Restart {
  import opened Wire
  import opened Keyspace
  import opened Commands
  import opened Log
  import opened Coverage
  import opened Protocol
  import opened Safety
  import opened PlainLogs

  // ---------- Crash and restart ----------

  /** A crash that leaves the first cut bytes of the log: what a write or a rewrite put there after the last fsync
      may be lost, wholly or in part. */
  predicate Leaves(s: Server, cut: nat) {
    s.fd.Some? && s.fd.value in s.disk.inodes && cut <= |s.disk.inodes[s.fd.value]|
  }

  /** The server that comes up after such a crash, at clock reading at: what is left is the disk; the log is loaded,
      with its torn end cut off, and opened again. */
  function Recovered(s: Server, at: nat, cut: nat): Server
    requires Leaves(s, cut)
  {
    var file := s.disk.inodes[s.fd.value][..cut];
    var o := LoadFile(file, true, true, at);
    var kept := if o.Loaded? then o.file else file;
    Server(LoadedData(o), at, On, s.fd, [], |kept|, -1, true, None, [], false, false, false, false,
           s.disk.(inodes := s.disk.inodes[s.fd.value := kept]), false)
  }

  /** The commands such a server has in its log: those that are wholly in the bytes left. */
  function Survived(w: World, cut: nat): seq<Argv> {
    w.log[..WholeCommands(w.log, cut)]
  }

  function RecoveredWorld(w: World, at: nat, cut: nat): World
    requires Leaves(w.s, cut)
  {
    World(Recovered(w.s, at, cut), Survived(w, cut), [], [])
  }

  lemma LoadAfterCrash(w: World, at: nat, cut: nat)
    requires DiskOk(w.s) && w.s.mode.On? && Readable(w.log) && w.s.disk.inodes[w.s.fd.value] <= EncodeAll(w.log)
    requires Leaves(w.s, cut)
    ensures var file := w.s.disk.inodes[w.s.fd.value][..cut];
            var o := LoadFile(file, true, true, at);
            !o.Exit? && Readable(Survived(w, cut)) && LoadedData(o) == Replay(FRESH, Survived(w, cut), at).ks &&
            (if o.Loaded? then o.file else file) == EncodeAll(Survived(w, cut))
  {
    hide Encode, Read, Replay, LoadFile, WholeCommands;
    var file := w.s.disk.inodes[w.s.fd.value][..cut];
    if file == [] {
      LoadNothing(true, true, at);
      NothingWhole(w.log);
      EmptyLog();
      NothingReplays(FRESH, at);
    } else {
      CrashRecovery(w.log, file, at);
    }
  }

  /** The server that comes up: its log is on, holds exactly the printed form of the commands that were wholly in
      the bytes left, with nothing waiting, and its dataset is what these commands make. */
  lemma RecoveredIs(w: World, at: nat, cut: nat)
    requires DiskOk(w.s) && w.s.mode.On? && Readable(w.log) && w.s.disk.inodes[w.s.fd.value] <= EncodeAll(w.log)
    requires Leaves(w.s, cut)
    ensures var r := Recovered(w.s, at, cut);
            var log := w.log[..WholeCommands(w.log, cut)];
            Readable(log) && r.ks == Replay(FRESH, log, at).ks && r.now == at && r.mode.On? && !r.exited &&
            r.fd == w.s.fd && r.fd.value in r.disk.inodes && r.disk.inodes[r.fd.value] == EncodeAll(log) &&
            r.size == |EncodeAll(log)| && r.buf == [] && r.selected == -1 && r.child.None? && r.blocks == [] &&
            r.disk.aof == w.s.disk.aof
  {
    hide Replay, LoadFile, WholeCommands, Readable, EncodeAll, DiskOk;
    LoadAfterCrash(w, at, cut);
  }

  lemma NothingWhole(log: seq<Argv>)
    ensures WholeCommands(log, 0) == 0
  {
  }

  /** What a restart must respect for a claim about the log it finds: a loose log is loaded again no earlier, and an
      exact one is steady. */
  predicate Admits(w: World, now: int, claim: Claim) {
    (claim.Loose? ==> w.s.now <= now) && (claim.Exact? ==> AllPlain(w.log, true))
  }

  /** However much of the log a crash leaves, and whenever the server comes back, its bytes are right again, and the log
      stands for the dataset the server now has, whatever the lifetime before did. */
  lemma RestartKeeps(w: World, at: nat, cut: nat, now: int, claim: Claim)
    requires Inv(w, now, OnlyBytes) && PlainWorld(w, false) && w.s.mode.On? && Leaves(w.s, cut)
    requires Admits(RecoveredWorld(w, at, cut), now, claim)
    ensures Inv(RecoveredWorld(w, at, cut), now, claim) && PlainWorld(RecoveredWorld(w, at, cut), claim.Exact?)
    ensures RecoveredWorld(w, at, cut).s.mode.On?
  {
    hide Sane, Replay, Plain, LoadFile, WholeCommands, ChildOk, Covers;
    LoadAfterCrash(w, at, cut);
    var log := Survived(w, cut);
    assert AllPlain(log, false);
    LoadedStands(log, at, now, claim);
    hide Readable;
    RecoveredChild(w, at, cut, now, claim);
  }

  /** A loaded log stands for what it was loaded to. */
  lemma LoadedStands(log: seq<Argv>, at: nat, now: int, claim: Claim)
    requires AllPlain(log, false) && (claim.Loose? ==> at <= now) && (claim.Exact? ==> AllPlain(log, true))
    ensures Readable(log) && Sane(Replay(FRESH, log, at).ks)
    ensures !claim.OnlyBytes? ==> Covers(Replay(FRESH, log, at).ks, Replay(FRESH, log, now).ks, at, claim.Exact?)
  {
    hide Replay, Plain, Sane, SaneAt;
    NothingDelays();
    ReplayDelays(FRESH, FRESH, log, at, at, false);
    if claim.Loose? {
      ReplayDelays(FRESH, FRESH, log, at, now, false);
    }
    if claim.Exact? {
      ReplayNeedsNoClock(FRESH, log, at, now);
    }
  }

  lemma RecoveredChild(w: World, at: nat, cut: nat, now: int, claim: Claim)
    requires Leaves(w.s, cut)
    ensures ChildOk(RecoveredWorld(w, at, cut), now, claim)
  {
    hide LoadFile, WholeCommands;
  }

  // ---------- Any number of lifetimes ----------

  /** One lifetime of a server: the steps it takes, where they lead before it crashes with its log on, how much of
      the file the crash leaves, and the time at which the server comes back. */
  datatype Life = Life(steps: seq<Step>, end: World, cut: nat, at: nat)

  /** Lifetimes without any condition on what the server does in them. */
  ghost predicate Lives(w: World, lives: seq<Life>, v: World, now: int)
    decreases lives
  {
    if lives == [] then v == w
    else
      var end := lives[0].end;
      Runs(w, lives[0].steps, end, now, OnlyBytes) && end.s.mode.On? && Leaves(end.s, lives[0].cut) &&
      Lives(RecoveredWorld(end, lives[0].at, lives[0].cut), lives[1..], v, now)
  }

  /** A server that was started on an empty dataset, has had any number of lifetimes, came up last in a certain world,
      and has taken some steps from there. */
  datatype History = History(logging: bool, at: nat, lives: seq<Life>, up: World, steps: seq<Step>)

  /** The history leads to a world; a claim is made only of the last lifetime, and of what it found. */
  ghost predicate Leads(h: History, v: World, now: int, claim: Claim) {
    Lives(Started(h.logging, h.at), h.lives, h.up, now) && Admits(h.up, now, claim) &&
    Runs(h.up, h.steps, v, now, claim)
  }

  lemma {:induction false} LivesKeep(w: World, lives: seq<Life>, v: World, now: int, claim: Claim)
    requires Inv(w, now, OnlyBytes) && PlainWorld(w, false) && Lives(w, lives, v, now)
    requires Admits(w, now, claim) ==> Inv(w, now, claim)
    ensures Admits(v, now, claim) ==> Inv(v, now, claim)
    decreases lives
  {
    hide Inv, Runs, PlainWorld, RecoveredWorld, Admits;
    if lives != [] {
      var life := lives[0];
      RunKeepsPlain(w, life.steps, life.end, now, OnlyBytes);
      var up := RecoveredWorld(life.end, life.at, life.cut);
      BytesAdmitted(up, now);
      RestartKeeps(life.end, life.at, life.cut, now, OnlyBytes);
      if Admits(up, now, claim) {
        RestartKeeps(life.end, life.at, life.cut, now, claim);
      }
      LivesKeep(up, lives[1..], v, now, claim);
    }
  }

  lemma BytesAdmitted(w: World, now: int)
    ensures Admits(w, now, OnlyBytes)
  {
  }

  lemma StartedPlain(logging: bool, at: nat, steady: bool)
    ensures PlainWorld(Started(logging, at), steady)
  {
  }

  /** The invariant of every history. */
  lemma HistoryKeeps(h: History, v: World, now: int, claim: Claim)
    requires Leads(h, v, now, claim)
    ensures Inv(v, now, claim)
  {
    hide Inv, Lives, Runs, PlainWorld, Admits;
    StartedInv(h.logging, h.at, now, OnlyBytes);
    StartedInv(h.logging, h.at, now, claim);
    StartedPlain(h.logging, h.at, false);
    LivesKeep(Started(h.logging, h.at), h.lives, h.up, now, claim);
    RunKeeps(h.up, h.steps, v, now, claim);
  }

  /** Histories go on: whatever one has led to while the log is on, a crash that leaves any first part of the file
      leads, at any time, to a server that has come up from it. */
  lemma HistoryGoesOn(h: History, v: World, cut: nat, at: nat, now: int)
    requires Leads(h, v, now, OnlyBytes) && v.s.mode.On? && Leaves(v.s, cut)
    ensures var up := RecoveredWorld(v, at, cut);
            Leads(History(h.logging, h.at, h.lives + [Life(h.steps, v, cut, at)], up, []), up, now, OnlyBytes)
  {
    hide Runs, RecoveredWorld;
    OneMoreLife(Started(h.logging, h.at), h.lives, h.up, Life(h.steps, v, cut, at), now);
    NoSteps(RecoveredWorld(v, at, cut), now);
  }

  lemma NoSteps(w: World, now: int)
    ensures Runs(w, [], w, now, OnlyBytes) && Admits(w, now, OnlyBytes)
  {
  }

  lemma {:induction false} OneMoreLife(w: World, lives: seq<Life>, up: World, life: Life, now: int)
    requires Lives(w, lives, up, now) && Runs(up, life.steps, life.end, now, OnlyBytes)
    requires life.end.s.mode.On? && Leaves(life.end.s, life.cut)
    ensures Lives(w, lives + [life], RecoveredWorld(life.end, life.at, life.cut), now)
    decreases lives
  {
    hide Runs, RecoveredWorld, Leaves;
    if lives == [] {
      assert lives + [life] == [life] && [life][1..] == [];
    } else {
      OneMoreLife(RecoveredWorld(lives[0].end, lives[0].at, lives[0].cut), lives[1..], up, life, now);
      assert (lives + [life])[1..] == lives[1..] + [life];
    }
  }

  /** Lifetimes in which every run is exact. */
  ghost predicate ExactLives(w: World, lives: seq<Life>, now: int)
    decreases lives
  {
    lives == [] ||
    (Runs(w, lives[0].steps, lives[0].end, now, Exact) && Leaves(lives[0].end.s, lives[0].cut) &&
     ExactLives(RecoveredWorld(lives[0].end, lives[0].at, lives[0].cut), lives[1..], now))
  }

  /** Such lifetimes leave a steady log, so that the next one can be exact again. */
  lemma {:induction false} ExactLivesAreSteady(w: World, lives: seq<Life>, v: World, now: int)
    requires Inv(w, now, Exact) && PlainWorld(w, true) && Lives(w, lives, v, now) && ExactLives(w, lives, now)
    ensures Inv(v, now, Exact) && PlainWorld(v, true)
    decreases lives
  {
    hide Inv, Runs, RecoveredWorld, Plain;
    if lives != [] {
      var life := lives[0];
      RunKeepsPlain(w, life.steps, life.end, now, Exact);
      SteadyIsPlain(life.end);
      SteadySurvives(life.end, life.at, life.cut, now);
      BytesAtLeast(life.end, now, Exact);
      RestartKeeps(life.end, life.at, life.cut, now, Exact);
      ExactLivesAreSteady(RecoveredWorld(life.end, life.at, life.cut), lives[1..], v, now);
    }
  }

  lemma SteadyIsPlain(w: World)
    requires PlainWorld(w, true)
    ensures PlainWorld(w, false)
  {
    hide Read;
  }

  lemma SteadySurvives(w: World, at: nat, cut: nat, now: int)
    requires Leaves(w.s, cut) && PlainWorld(w, true)
    ensures Admits(RecoveredWorld(w, at, cut), now, Exact)
  {
    hide Recovered, WholeCommands, Plain;
  }

  // ---------- What is promised ----------

  /** The durability theorem. After any history, as long as the log is on, loading what is in the file and
      in the buffer succeeds and gives the dataset, up to keys whose expire time has passed. */
  lemma LogIsDurable(h: History, v: World, loadTruncated: bool, truncateOk: bool, now: int, claim: Claim)
    requires Leads(h, v, now, claim)
    requires v.s.mode.On? && !v.s.exited
    ensures v.s.fd.Some? && v.s.fd == v.s.disk.aof && v.s.fd.value in v.s.disk.inodes
    ensures var all := v.s.disk.inodes[v.s.fd.value] + v.s.buf;
            var o := LoadFile(all, loadTruncated, truncateOk, now);
            !o.Exit? && (!claim.OnlyBytes? ==> Covers(v.s.ks, LoadedData(o), v.s.now, claim.Exact?))
  {
    hide Inv, Covers, LoadFile, Leads;
    HistoryKeeps(h, v, now, claim);
    StateIsDurable(v, loadTruncated, truncateOk, now, claim);
  }

  /** If no expire time is stored that a replay does not find again, and the log the server came up from is steady, the
      live data after loading is the live data of the server, at whatever clock the load takes place and from then
      on. */
  lemma LogIsExact(h: History, v: World, loadTruncated: bool, truncateOk: bool, now: int, later: int)
    requires Leads(h, v, now, Exact)
    requires v.s.mode.On? && !v.s.exited && v.s.now <= later
    ensures v.s.fd.Some? && v.s.fd.value in v.s.disk.inodes
    ensures var all := v.s.disk.inodes[v.s.fd.value] + v.s.buf;
            Live(LoadedData(LoadFile(all, loadTruncated, truncateOk, now)), later) == Live(v.s.ks, later)
  {
    LogIsDurable(h, v, loadTruncated, truncateOk, now, Exact);
    hide Covers, Live, LoadFile, Leads;
    var all := v.s.disk.inodes[v.s.fd.value] + v.s.buf;
    ExactCoverIsSameLiveData(v.s.ks, LoadedData(LoadFile(all, loadTruncated, truncateOk, now)), v.s.now, later);
  }

  /** What a client sees of a crash: if nothing was waiting to be written and the file is left whole, the server comes
      back with the dataset it had, up to keys whose expire time had passed. */
  lemma LogOutlivesCrashes(h: History, v: World, at: nat, claim: Claim)
    requires Leads(h, v, at, claim) && v.s.mode.On? && !v.s.exited && v.s.buf == [] && !claim.OnlyBytes?
    ensures v.s.fd.Some? && v.s.fd.value in v.s.disk.inodes
    ensures Covers(v.s.ks, Recovered(v.s, at, |v.s.disk.inodes[v.s.fd.value]|).ks, v.s.now, claim.Exact?)
  {
    HistoryKeeps(h, v, at, claim);
    hide Leads, Inv, Covers, LoadFile;
    StateIsDurable(v, true, true, at, claim);
    var file := v.s.disk.inodes[v.s.fd.value];
    assert file + v.s.buf == file == file[..|file|];
  }

  /** Flush conservation, in every history: while the log is on and the server has not ended itself, the file followed
      by the buffer is the printed form of everything fed, nothing lost, repeated or reordered, and the remembered size
      is the file's; and whether it has ended itself or not, the file is a first part of it. */
  lemma FlushConserves(h: History, v: World, now: int)
    requires Leads(h, v, now, OnlyBytes)
    requires v.s.mode.On?
    ensures v.s.fd.Some? && v.s.fd == v.s.disk.aof && v.s.fd.value in v.s.disk.inodes
    ensures var file := v.s.disk.inodes[v.s.fd.value];
            file <= EncodeAll(v.log) &&
            (!v.s.exited ==> file + v.s.buf == EncodeAll(v.log) && v.s.size == |file|)
  {
    HistoryKeeps(h, v, now, OnlyBytes);
    hide Leads, Sane, Stands, ChildOk, EncodeAll;
  }

  /** If the machine stops, whatever first part of the file it leaves loads, with aof-load-truncated, to what the
      commands of the log that are wholly in it make, and the repaired file holds exactly those. This is so after any
      history, also when the server ended itself because a write failed. */
  lemma FileSurvivesCrash(h: History, v: World, cut: nat, now: int)
    requires Leads(h, v, now, OnlyBytes)
    requires v.s.mode.On?
    ensures v.s.fd.Some? && v.s.fd.value in v.s.disk.inodes && Readable(v.log)
    ensures cut <= |v.s.disk.inodes[v.s.fd.value]| ==>
              var left := v.s.disk.inodes[v.s.fd.value][..cut];
              var kept := v.log[..WholeCommands(v.log, cut)];
              LoadFile(left, true, true, now) ==
                if left == [] then Nothing else Loaded(Replay(FRESH, kept, now).ks, EncodeAll(kept))
  {
    HistoryKeeps(h, v, now, OnlyBytes);
    hide Covers, Replay, Readable, Sane, ChildOk, LoadFile, Leads, EncodeAll, WholeCommands;
    var file := v.s.disk.inodes[v.s.fd.value];
    if cut == 0 {
      LoadNothing(true, true, now);
    } else if cut <= |file| {
      CrashRecovery(v.log, file[..cut], now);
    }
  }

  /** Nothing fed since the fork is lost, repeated or reordered on its way to the child, in any history; the
      pipe is quiet from the acknowledgement on; and waiting bytes always have their sender until then. */
  lemma RewriteConserves(h: History, v: World, now: int)
    requires Leads(h, v, now, OnlyBytes)
    ensures v.s.child.None? ==> v.s.blocks == []
    ensures v.s.child.Some? ==>
              var c := v.s.child.value;
              c.diff + c.pipe + v.s.blocks == EncodeAll(v.diff) &&
              (c.toChild || c.phase.Finished? ==>
                 forall n: nat :: n <= |v.s.blocks| ==> SendDiff(v.s, n).child == v.s.child) &&
              (v.s.blocks != [] && !v.s.stopSending ==> v.s.sendHandler) &&
              (!c.phase.Dumping? ==> c.dump == EncodeAll(v.dump))
  {
    HistoryKeeps(h, v, now, OnlyBytes);
    hide Covers, Replay, Readable, Sane, LogOk, Leads, EncodeAll, Stands;
  }

  /** The file a successful rewrite puts in place, after any history: the dump, then every byte fed since the
      fork, once and in order; and the log goes on in that file. */
  lemma SwitchConserves(h: History, v: World, e: DoneEvents, now: int)
    requires Leads(h, v, now, OnlyBytes)
    requires Possible(v.s, ChildDone(e)) && Switches(v.s, e)
    ensures var t := Done(v.s, e);
            t.disk.aof.Some? && t.disk.aof.value in t.disk.inodes &&
            t.disk.inodes[t.disk.aof.value] == EncodeAll(v.dump) + EncodeAll(v.diff) &&
            (v.s.fd.Some? ==> t.fd == t.disk.aof && t.buf == [] && t.size == |t.disk.inodes[t.fd.value]|)
  {
    HistoryKeeps(h, v, now, OnlyBytes);
    hide Leads, Readable, EncodeAll;
    SwitchedFile(v, e, now, OnlyBytes);
    hide Covers, Replay, Sane, Stands, LogOk, ChildOk;
  }

  /** That file loads, after any history and whenever the child read its clock, to what the commands fed since the fork
      make of the keys that had not expired at that reading. */
  lemma SwitchRebuilds(h: History, v: World, e: DoneEvents, loadTruncated: bool, truncateOk: bool, now: int)
    requires Leads(h, v, now, OnlyBytes)
    requires Possible(v.s, ChildDone(e)) && Switches(v.s, e) && !v.s.mode.Off?
    ensures var d := Done(v.s, e).disk;
            v.s.child.Some? && d.aof.Some? && d.aof.value in d.inodes && Readable(v.diff) &&
            var c := v.s.child.value;
            var o := LoadFile(d.inodes[d.aof.value], loadTruncated, truncateOk, now);
            !o.Exit? && LoadedData(o) == Replay(LoadState(Live(c.snap, c.clock), 0), v.diff, now).ks
  {
    hide Inv, Leads, Readable, EncodeAll, Live, Replay, LoadFile, Done, DumpOk, DiffOk;
    HistoryKeeps(h, v, now, OnlyBytes);
    SwitchedFile(v, e, now, OnlyBytes);
    ChildParts(v, now, OnlyBytes);
    RewrittenReplays(v, now, OnlyBytes);
    LoadsAll(v.dump + v.diff, loadTruncated, truncateOk, now);
  }
}
