/** What the steps of the protocol achieve, said of the fields of the server, its files and its child: a flush writes, a
    start turns the log on, a rewrite that goes well can be completed and ends with the rewritten file in use. */
module Progress {
  import opened Wire
  import opened Keyspace
  import opened Commands
  import opened Log
  import opened Coverage
  import opened Dump
  import opened Protocol
  import opened Safety
  import opened SparedKeys

  /** What is in the file the server has open. */
  function FileOf(s: Server): Bytes
    requires s.fd.Some? && s.fd.value in s.disk.inodes
  {
    s.disk.inodes[s.fd.value]
  }

  /** The two disks hold the same files under the same names, apart from the contents of one. */
  ghost predicate OnlyFileDiffers(d: Disk, e: Disk, inode: nat) {
    e.aof == d.aof && e.temp == d.temp && e.next == d.next && e.inodes.Keys == d.inodes.Keys &&
    forall i :: i in d.inodes && i != inode ==> e.inodes[i] == d.inodes[i]
  }

  // ---------- Starting ----------

  /** A server that has just been started: with its log off, or on and empty under its name. */
  lemma StartedServer(logging: bool, at: nat)
    ensures var s := Started(logging, at).s;
            s.ks == map[] && s.now == at && s.buf == [] && s.child.None? && !s.exited && DiskOk(s) &&
            (!logging ==> s.mode.Off? && s.fd.None?) &&
            (logging ==> s.mode.On? && s.fd.Some? && s.fd == s.disk.aof && FileOf(s) == [] && s.size == 0)
  {
  }

  // ---------- Feeding ----------

  /** A command: the dataset becomes what the command makes of it, and what it feeds, printed with the SELECTs it
      needs, goes to the end of the buffer if the log is on, and to the end of the unsent blocks if a child is
      there; nothing is fed while the log is off. */
  lemma CommandFeeds(s: Server, db: int, argv: Argv, clock: Clock)
    requires !s.exited && argv != [] && Read(argv).Some? && 0 <= db < DBNUM && Ordered(clock) && s.now <= clock.base
    requires Sane(s.ks)
    ensures Possible(s, Command(db, argv, clock))
    ensures var e := Exec(s.ks, db, argv, Read(argv).value, false, clock);
            var t := Next(s, Command(db, argv, clock));
            t.ks == e.ks && t.now == clock.feed && t.disk == s.disk && t.mode == s.mode && t.fd == s.fd &&
            t.child == s.child && t.size == s.size && !t.exited && Known(e.feds) &&
            var bytes := if s.mode.Off? then [] else EncodeAll(FeedAll(s.selected, e.feds, clock.feed).log);
            t.buf == (if s.mode.On? then s.buf + bytes else s.buf) &&
            t.blocks == (if s.child.Some? then s.blocks + bytes else s.blocks)
  {
    CommandState(s, db, argv, clock);
    EmptyLog();
    assert s.blocks + [] == s.blocks;
    hide Read, Exec, EncodeAll, FeedAll, Sane, Next;
  }

  // ---------- Flushing ----------

  /** A flush that is not put off and has something to write: a full write moves the whole buffer to the end of the
      file; a failed write, or a short one that was taken back, moves nothing; a short one that was not taken back moves
      exactly what was written, but under the policy "always" the process ends with the buffer as it was. Under that
      policy anything but a full write ends the process, under any other it is remembered. */
  lemma FlushWrites(s: Server, e: FlushEvents)
    requires !s.exited && s.fd.Some? && s.fd.value in s.disk.inodes && s.size == |FileOf(s)|
    requires s.buf != [] && !e.postponed && -1 <= e.written <= |s.buf|
    ensures Possible(s, FlushLog(e))
    ensures var t := Next(s, FlushLog(e));
            t.fd == s.fd && t.fd.value in t.disk.inodes && OnlyFileDiffers(s.disk, t.disk, s.fd.value) &&
            (e.written == |s.buf| ==>
               FileOf(t) == FileOf(s) + s.buf && t.buf == [] && t.size == s.size + |s.buf| && t.writeOk && !t.exited) &&
            (e.written == -1 || (e.written < |s.buf| && e.truncateOk) ==>
               FileOf(t) == FileOf(s) && t.buf == s.buf && t.size == s.size) &&
            (0 <= e.written < |s.buf| && !e.truncateOk ==>
               FileOf(t) == FileOf(s) + s.buf[..e.written] &&
               (!e.always ==> t.buf == s.buf[e.written..] && t.size == s.size + e.written) &&
               (e.always ==> t.buf == s.buf)) &&
            (e.written < |s.buf| ==> t.exited == e.always && (!e.always ==> !t.writeOk))
  {
    FlushStep(s, e);
    hide Next, Possible;
    if 0 <= e.written < |s.buf| && e.truncateOk {
      CutBack(FileOf(s), s.buf[..e.written]);
    }
    hide Truncate;
  }

  lemma FlushStep(s: Server, e: FlushEvents)
    requires !s.exited && FlushPossible(s, e)
    ensures Possible(s, FlushLog(e)) && Next(s, FlushLog(e)) == Flush(s, e)
  {
    hide Flush;
  }

  /** Nothing else changes; and a flush that is put off, or has nothing to write, changes nothing at all. */
  lemma FlushLeaves(s: Server, e: FlushEvents)
    requires Possible(s, FlushLog(e))
    ensures var t := Next(s, FlushLog(e));
            t == s.(disk := t.disk, size := t.size, buf := t.buf, writeOk := t.writeOk, exited := t.exited) &&
            (s.buf == [] || e.postponed ==> t == s) && (s.fd.None? ==> t.disk == s.disk && t.buf == s.buf)
  {
    FlushStep(s, e);
    hide Next, Possible, Truncate, Append;
  }

  // ---------- Turning the log on and off ----------

  /** A start that goes well waits for the first rewrite: the log is open under its name, a child has a copy of the
      dataset, and the next command fed will select its database. One that does not leaves the log off. */
  lemma StartTurnsOn(s: Server, openOk: bool, pipesOk: bool, forkOk: bool, now: int)
    requires !s.exited && s.mode.Off? && s.now <= now && DiskOk(s)
    ensures Possible(s, StartLog(openOk, pipesOk, forkOk, now))
    ensures var t := Next(s, StartLog(openOk, pipesOk, forkOk, now));
            t.ks == s.ks && t.buf == s.buf && t.blocks == s.blocks && t.exited == s.exited &&
            (forall i :: i in s.disk.inodes ==> i in t.disk.inodes && t.disk.inodes[i] == s.disk.inodes[i]) &&
            if openOk && pipesOk && forkOk && s.child.None? then
              t.mode.WaitRewrite? && t.fd.Some? && t.fd == t.disk.aof && t.selected == -1 && t.now == now &&
              t.child == Some(Child(s.ks, now, Dumping, [], [], [], false, false)) &&
              t.askHandler && !t.sendHandler && !t.stopSending && !t.scheduled
            else t.mode.Off? && t.child == s.child
  {
  }

  /** Forking a rewrite child, or failing to. */
  lemma ForkCopies(s: Server, pipesOk: bool, forkOk: bool, now: int)
    requires !s.exited && s.now <= now
    ensures Possible(s, Rewrite(pipesOk, forkOk, now))
    ensures var t := Next(s, Rewrite(pipesOk, forkOk, now));
            t.ks == s.ks && t.buf == s.buf && t.mode == s.mode && t.fd == s.fd && t.disk == s.disk &&
            t.size == s.size && t.blocks == s.blocks && t.exited == s.exited &&
            if pipesOk && forkOk && s.child.None? then
              t.child == Some(Child(s.ks, now, Dumping, [], [], [], false, false)) && t.now == now &&
              t.selected == -1 && t.askHandler && !t.sendHandler && !t.stopSending && !t.scheduled
            else t.child == s.child && t.selected == s.selected && t.scheduled == s.scheduled && t.now == s.now
  {
  }

  /** A stop writes what is waiting, put off or not, and, unless that ended the process, leaves the log off, with no
      file and no child. */
  lemma StopTurnsOff(s: Server, e: FlushEvents)
    requires !s.exited && !s.mode.Off? && DiskOk(s) && s.size == |FileOf(s)| && -1 <= e.written <= |s.buf|
    ensures Possible(s, StopLog(e))
    ensures var t := Next(s, StopLog(e));
            t.ks == s.ks && s.fd.value in t.disk.inodes &&
            (s.buf != [] && e.written == |s.buf| ==>
               t.disk.inodes[s.fd.value] == FileOf(s) + s.buf && t.buf == []) &&
            (t.exited <==> s.buf != [] && e.written < |s.buf| && e.always) &&
            (!t.exited ==> t.mode.Off? && t.fd.None? && t.selected == -1 && t.child.None? &&
                           (s.child.Some? ==> t.blocks == [] && !t.askHandler && !t.sendHandler && t.disk.temp.None?))
  {
    hide Flush, Stop, Next, OnlyFileDiffers;
    var f := e.(postponed := false);
    FlushLeaves(s, f);
    if s.buf != [] {
      FlushWrites(s, f);
      WrittenFile(s, f);
    }
    StopIs(s, e);
  }

  lemma WrittenFile(s: Server, e: FlushEvents)
    requires Possible(s, FlushLog(e)) && s.fd.Some?
    ensures s.fd.value in Next(s, FlushLog(e)).disk.inodes
  {
    FlushStep(s, e);
    hide Next, Possible, Truncate;
  }

  /** A stop is a flush that is not put off and, if the process goes on, letting go of the file and the child. */
  lemma StopIs(s: Server, e: FlushEvents)
    requires Possible(s, StopLog(e))
    ensures var f := e.(postponed := false);
            Possible(s, FlushLog(f)) &&
            var flushed, t := Next(s, FlushLog(f)), Next(s, StopLog(e));
            t.ks == flushed.ks && t.buf == flushed.buf && t.exited == flushed.exited &&
            t.disk.inodes == flushed.disk.inodes && (flushed.exited ==> t == flushed) &&
            (!flushed.exited ==> t.mode.Off? && t.fd.None? && t.selected == -1 && t.child.None? &&
                                 (flushed.child.Some? ==> t.blocks == [] && !t.askHandler && !t.sendHandler &&
                                                          t.disk.temp.None?))
  {
    hide Flush;
  }

  // ---------- Parent and child ----------

  /** The write handler moves exactly what the pipe takes, and goes when nothing is left or sending was stopped. */
  lemma SendMoves(s: Server, n: nat)
    requires !s.exited && s.child.Some? && s.sendHandler && n <= |s.blocks|
    ensures Possible(s, Send(n))
    ensures var t := Next(s, Send(n));
            t.child.Some? &&
            t == s.(child := t.child, blocks := t.blocks, sendHandler := t.sendHandler) &&
            t.child.value == s.child.value.(pipe := t.child.value.pipe) &&
            if s.stopSending then t.child == s.child && t.blocks == s.blocks && !t.sendHandler
            else t.child.value.pipe == s.child.value.pipe + s.blocks[..n] && t.blocks == s.blocks[n..] &&
                 (t.sendHandler <==> t.blocks != [])
  {
  }

  /** The child takes what it reads off the pipe, behind what it has. */
  lemma ReceiveMoves(s: Server, n: nat)
    requires !s.exited && s.child.Some? && !s.child.value.phase.Finished? && n <= |s.child.value.pipe|
    ensures Possible(s, Receive(n))
    ensures var t := Next(s, Receive(n));
            t.child.Some? && t == s.(child := t.child) &&
            var c, d := s.child.value, t.child.value;
            d == c.(diff := d.diff, pipe := d.pipe) && d.diff == c.diff + c.pipe[..n] && d.pipe == c.pipe[n..]
  {
  }

  /** The four turns of the child and of the server's answer. */
  lemma ChildTurns(s: Server, step: Step)
    requires Possible(s, step) && (step.DumpStep? || step.Ask? || step.Hear? || step.Finish?)
    ensures var t := Next(s, step);
            t.child.Some? && t.ks == s.ks && t.buf == s.buf && t.mode == s.mode && t.fd == s.fd &&
            t.blocks == s.blocks &&
            t.exited == s.exited && (!step.Hear? ==> t.askHandler == s.askHandler && t.stopSending == s.stopSending) &&
            var c, d := s.child.value, t.child.value;
            match step
            case DumpStep(plan, now) =>
              d == c.(phase := Dumped, clock := now, dump := EncodeAll(DumpLog(c.snap, plan, now))) && t.disk == s.disk
            case Ask => d == c.(phase := Asked, toParent := true) && t.disk == s.disk
            case Hear(readOk, ackOk) =>
              !t.askHandler && (readOk ==> t.stopSending && !d.toParent && (ackOk ==> d.toChild)) &&
              (!readOk ==> t.child == s.child && t.stopSending == s.stopSending) && d.phase == c.phase &&
              t.disk == s.disk
            case Finish =>
              d.phase.Finished? && d.pipe == [] && d.diff == c.diff + c.pipe && !d.toChild &&
              t.disk.temp.Some? && t.disk.temp.value in t.disk.inodes &&
              t.disk.inodes[t.disk.temp.value] == c.dump + c.diff + c.pipe && t.disk.aof == s.disk.aof
  {
    hide DumpLog, EncodeAll, IsPlan, PlanInDataset, Live, Readable, Read;
    if step.Finish? {
      var c := s.child.value;
      assert c.dump + (c.diff + c.pipe) == c.dump + c.diff + c.pipe;
    }
  }

  /** The end of a rewrite. If everything went well, the rewritten file, with what had not been sent appended, is
      the log under its name, a waiting log is on, and an open one goes on there with an empty buffer; otherwise the
      log is what it was, and the rewrite is due again if the log still waits for it. The child and what it left are
      gone. */
  lemma DoneSwitches(s: Server, e: DoneEvents)
    requires !s.exited && DiskOk(s) && s.child.Some? && e.appended <= |s.blocks|
    requires e.exitOk ==> s.child.value.phase.Finished? && s.disk.temp.Some?
    ensures Possible(s, ChildDone(e))
    ensures var t := Next(s, ChildDone(e));
            t.ks == s.ks && t.child.None? && t.blocks == [] && !t.askHandler && !t.sendHandler && t.disk.temp.None? &&
            (t.scheduled <==> s.scheduled || t.mode.WaitRewrite?) &&
            if e.exitOk && e.openOk && e.appended == |s.blocks| && e.renameOk then
              t.disk.aof == s.disk.temp && t.disk.aof.Some? && t.disk.aof.value in t.disk.inodes &&
              t.disk.inodes[t.disk.aof.value] == s.disk.inodes[s.disk.temp.value] + s.blocks &&
              t.mode == (if s.mode.WaitRewrite? then On else s.mode) &&
              (s.fd.Some? ==> t.fd == t.disk.aof && t.buf == [] && t.selected == -1 && t.size == |FileOf(t)|) &&
              (s.fd.None? ==> t.fd.None? && t.buf == s.buf && t.selected == s.selected)
            else
              t.mode == s.mode && t.fd == s.fd && t.buf == s.buf && t.size == s.size && t.selected == s.selected &&
              t.disk.aof == s.disk.aof &&
              (s.disk.aof.Some? ==> s.disk.aof.value in t.disk.inodes &&
                                    t.disk.inodes[s.disk.aof.value] == s.disk.inodes[s.disk.aof.value])
  {
  }

  // ---------- A rewrite from beginning to end ----------

  /** Along a run, some rewrite was switched in. */
  ghost predicate Switched(w: World, steps: seq<Step>)
    decreases steps
  {
    steps != [] && Possible(w.s, steps[0]) &&
    ((steps[0].ChildDone? && Switches(w.s, steps[0].done)) || Switched(NextWorld(w, steps[0]), steps[1..]))
  }

  ghost predicate NeverStops(steps: seq<Step>) {
    forall i :: 0 <= i < |steps| ==> !steps[i].StopLog?
  }

  lemma ModeAfter(w: World, step: Step)
    requires Possible(w.s, step) && !step.StopLog?
    ensures w.s.mode.WaitRewrite? ==>
              NextWorld(w, step).s.mode == if step.ChildDone? && Switches(w.s, step.done) then On else WaitRewrite
    ensures w.s.mode.On? ==> NextWorld(w, step).s.mode.On?
  {
    if step.Command? {
      CommandKeepsMode(w.s, step.db, step.argv, step.clock);
    }
    hide RunCommand;
  }

  lemma CommandKeepsMode(s: Server, db: int, argv: Argv, clock: Clock)
    requires Read(argv).Some?
    ensures RunCommand(s, db, argv, clock).mode == s.mode
  {
    hide Read, Exec, FeedAllBytes;
    var e := Exec(s.ks, db, argv, Read(argv).value, false, clock);
    if !s.mode.Off? && Known(e.feds) {
      FeedKeepsMode(s.(ks := e.ks, now := clock.feed), e.feds, clock.feed);
    }
  }

  lemma {:induction false} FeedKeepsMode(s: Server, feds: seq<Fed>, feed: int)
    requires Known(feds)
    ensures FeedAllBytes(s, feds, feed).mode == s.mode
    decreases feds
  {
    hide Read, FeedOne;
    if feds != [] {
      FeedKeepsMode(FeedBytes(s, feds[0], feed), feds[1..], feed);
    }
  }

  /** A log that waits for its first rewrite is on exactly once a rewrite has been switched in, as long as it is not
      turned off. */
  lemma {:induction false} WaitingEnds(w: World, steps: seq<Step>, v: World, now: int, claim: Claim)
    requires Runs(w, steps, v, now, claim) && NeverStops(steps) && !w.s.mode.Off?
    ensures v.s.mode == if w.s.mode.On? || Switched(w, steps) then On else WaitRewrite
    decreases steps
  {
    hide Possible, Respects, NextWorld;
    if steps != [] {
      ModeAfter(w, steps[0]);
      assert NeverStops(steps[1..]) by {
        assert forall i :: 0 <= i < |steps[1..]| ==> steps[1..][i] == steps[i + 1];
      }
      WaitingEnds(NextWorld(w, steps[0]), steps[1..], v, now, claim);
    }
  }

  /** The shortest way through a rewrite: the child prints its copy and asks, the server answers, the child
      finishes, and the server appends everything it has not sent. */
  function WayThrough(plan: Plan, at: int, unsent: nat): seq<Step> {
    [DumpStep(plan, at), Ask, Hear(true, true), Finish, ChildDone(DoneEvents(true, true, unsent, true))]
  }

  lemma TurnOfWorld(w: World, step: Step)
    requires Possible(w.s, step) && (step.DumpStep? || step.Ask? || step.Hear? || step.Finish?)
    ensures var v := NextWorld(w, step);
            v.s == Next(w.s, step) && v.diff == w.diff &&
            v.dump == if step.DumpStep? then DumpLog(w.s.child.value.snap, step.plan, step.now) else w.dump
  {
    hide DumpLog, IsPlan, EncodeAll;
  }

  /** The child prints its copy and asks. */
  lemma ChildCanAsk(w: World, plan: Plan, at: int, now: int) returns (v: World)
    requires !w.s.exited && w.s.now <= at && w.s.child.Some? && w.s.child.value.phase.Dumping? && w.s.askHandler
    requires IsPlan(w.s.child.value.snap, plan) && PlanInDataset(w.s.child.value.snap, plan)
    ensures Runs(w, [DumpStep(plan, at), Ask], v, now, OnlyBytes)
    ensures v.s.ks == w.s.ks && v.s.mode == w.s.mode && v.s.fd == w.s.fd && v.s.blocks == w.s.blocks && !v.s.exited
    ensures v.s.child.Some? && v.s.child.value.phase.Asked? && v.s.child.value.toParent && v.s.askHandler
    ensures v.dump == DumpLog(w.s.child.value.snap, plan, at) && v.diff == w.diff
  {
    hide DumpLog, EncodeAll, IsPlan, PlanInDataset, NextWorld, Next;
    TurnOfWorld(w, DumpStep(plan, at));
    ChildTurns(w.s, DumpStep(plan, at));
    var dumped := NextWorld(w, DumpStep(plan, at));
    TurnOfWorld(dumped, Ask);
    ChildTurns(dumped.s, Ask);
    v := NextWorld(dumped, Ask);
    RunsNothing(v, now);
    RunsOn(dumped, Ask, [], v, now);
    RunsOn(w, DumpStep(plan, at), [Ask], v, now);
    hide Possible, Runs;
  }

  /** The server answers and the child finishes. */
  lemma ChildCanFinish(w: World, now: int) returns (v: World)
    requires !w.s.exited && w.s.child.Some? && w.s.child.value.phase.Asked? && w.s.child.value.toParent && w.s.askHandler
    ensures Runs(w, [Hear(true, true), Finish], v, now, OnlyBytes)
    ensures v.s.ks == w.s.ks && v.s.mode == w.s.mode && v.s.fd == w.s.fd && v.s.blocks == w.s.blocks && !v.s.exited
    ensures v.s.child.Some? && v.s.child.value.phase.Finished?
    ensures v.s.disk.temp.Some? && v.s.disk.temp.value in v.s.disk.inodes
    ensures v.dump == w.dump && v.diff == w.diff
  {
    hide EncodeAll, NextWorld, Next;
    TurnOfWorld(w, Hear(true, true));
    ChildTurns(w.s, Hear(true, true));
    var heard := NextWorld(w, Hear(true, true));
    TurnOfWorld(heard, Finish);
    ChildTurns(heard.s, Finish);
    v := NextWorld(heard, Finish);
    RunsNothing(v, now);
    RunsOn(heard, Finish, [], v, now);
    RunsOn(w, Hear(true, true), [Finish], v, now);
    hide Possible, Runs;
  }

  /** In every state of every run, a child that has just been forked can bring its rewrite to an end; then its file
      is in place under the name of the log, holds the dump and every byte fed since the fork, and a log that waited
      is on. */
  lemma RewriteCanFinish(w: World, plan: Plan, at: int, now: int) returns (v: World)
    requires Inv(w, now, OnlyBytes) && !w.s.exited && w.s.now <= at
    requires w.s.child.Some? && w.s.child.value.phase.Dumping? && w.s.askHandler
    requires IsPlan(w.s.child.value.snap, plan) && PlanInDataset(w.s.child.value.snap, plan)
    ensures Runs(w, WayThrough(plan, at, |w.s.blocks|), v, now, OnlyBytes)
    ensures v.s.child.None? && v.s.ks == w.s.ks && v.s.mode == (if w.s.mode.WaitRewrite? then On else w.s.mode)
    ensures v.s.disk.aof.Some? && v.s.disk.aof.value in v.s.disk.inodes
    ensures v.s.disk.inodes[v.s.disk.aof.value] ==
            EncodeAll(DumpLog(w.s.child.value.snap, plan, at)) + EncodeAll(w.diff)
    ensures w.s.fd.Some? ==> v.s.fd == v.s.disk.aof && v.s.buf == []
  {
    hide Inv, Runs, Done, DumpLog, EncodeAll, IsPlan, PlanInDataset, DiskOk;
    var asked := ChildCanAsk(w, plan, at, now);
    var finished := ChildCanFinish(asked, now);
    var way := [DumpStep(plan, at), Ask] + [Hear(true, true), Finish];
    RunsJoin(w, [DumpStep(plan, at), Ask], asked, [Hear(true, true), Finish], finished, now);
    RunKeeps(w, way, finished, now, OnlyBytes);
    var e := DoneEvents(true, true, |w.s.blocks|, true);
    v := NextWorld(finished, ChildDone(e));
    RunsNothing(v, now);
    RunsOn(finished, ChildDone(e), [], v, now);
    assert [ChildDone(e)] + [] == [ChildDone(e)];
    RunsJoin(w, way, finished, [ChildDone(e)], v, now);
    assert way + [ChildDone(e)] == WayThrough(plan, at, |w.s.blocks|);
    SwitchedFile(finished, e, now, OnlyBytes);
    DiskIsOk(finished, now);
    DoneSwitches(finished.s, e);
  }

  lemma DiskIsOk(w: World, now: int)
    requires Inv(w, now, OnlyBytes)
    ensures DiskOk(w.s)
  {
    hide Sane, LogOk, ChildOk;
  }

  lemma RunsNothing(v: World, now: int)
    ensures Runs(v, [], v, now, OnlyBytes)
  {
  }

  lemma RunsOn(w: World, step: Step, steps: seq<Step>, v: World, now: int)
    requires Possible(w.s, step) && Runs(NextWorld(w, step), steps, v, now, OnlyBytes)
    ensures Runs(w, [step] + steps, v, now, OnlyBytes)
  {
    assert ([step] + steps)[1..] == steps;
    hide Possible, NextWorld;
  }

  lemma {:induction false} RunsJoin(w: World, a: seq<Step>, m: World, b: seq<Step>, v: World, now: int)
    requires Runs(w, a, m, now, OnlyBytes) && Runs(m, b, v, now, OnlyBytes)
    ensures Runs(w, a + b, v, now, OnlyBytes)
    decreases a
  {
    hide Possible, NextWorld;
    if a == [] {
      assert a + b == b;
    } else {
      RunsJoin(NextWorld(w, a[0]), a[1..], m, b, v, now);
      RunsOn(w, a[0], a[1..] + b, v, now);
      assert [a[0]] + (a[1..] + b) == a + b;
    }
  }

  /** From every state of every run in which the log is off and no child runs, it can be turned on: there is a way to a
      log that is on and holds exactly the dump of the dataset. */
  lemma LogCanTurnOn(w: World, plan: Plan, at: int, now: int) returns (v: World)
    requires Inv(w, now, OnlyBytes) && !w.s.exited && w.s.now <= at && w.s.mode.Off? && w.s.child.None?
    requires IsPlan(w.s.ks, plan) && PlanInDataset(w.s.ks, plan)
    ensures Runs(w, [StartLog(true, true, true, at)] + WayThrough(plan, at, 0), v, now, OnlyBytes)
    ensures v.s.mode.On? && v.s.child.None? && v.s.ks == w.s.ks && v.s.buf == []
    ensures v.s.fd.Some? && v.s.fd.value in v.s.disk.inodes && v.s.fd == v.s.disk.aof
    ensures FileOf(v.s) == EncodeAll(DumpLog(w.s.ks, plan, at))
  {
    hide Inv, Runs, DumpLog, EncodeAll, IsPlan, PlanInDataset, DiskOk, Next;
    var start := StartLog(true, true, true, at);
    DiskIsOk(w, now);
    NoBlocks(w, now);
    StartTurnsOn(w.s, true, true, true, at);
    StepKeeps(w, start, now, OnlyBytes);
    StartedWorld(w, at);
    var waiting := NextWorld(w, start);
    hide NextWorld;
    v := RewriteCanFinish(waiting, plan, at, now);
    RunsOn(w, start, WayThrough(plan, at, 0), v, now);
    EmptyLog();
  }

  lemma NoBlocks(w: World, now: int)
    requires Inv(w, now, OnlyBytes) && w.s.child.None?
    ensures w.s.blocks == []
  {
    hide Sane, LogOk, DiskOk;
  }

  lemma StartedWorld(w: World, at: int)
    requires Possible(w.s, StartLog(true, true, true, at)) && w.s.child.None?
    ensures var v := NextWorld(w, StartLog(true, true, true, at));
            v.s == Next(w.s, StartLog(true, true, true, at)) && v.diff == []
  {
  }
}
