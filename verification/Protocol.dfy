/** The server state that aof.c works on, and every step that changes it: commands, flushes, turning
    the log on and off, and the protocol with the forked child that rewrites the log. What the
    operating system decides (how much a write accepts, whether a call fails, what the clock shows)
    is a parameter of a step. */
module Protocol {
  import opened Wire
  import opened Keyspace
  import opened Commands
  import opened Log
  import opened Dump

  datatype Mode = Off | On | WaitRewrite

  /** Files by inode, and the two names that matter: the configured log and the child's temporary
      file. */
  datatype Disk = Disk(inodes: map<nat, Bytes>, next: nat, aof: Option<nat>, temp: Option<nat>)

  datatype Phase = Dumping | Dumped | Asked | Finished

  /** The rewriting child, with the clock reading of the fork and then its own, and the three pipes it shares with the
      server: the differences on their way, and the two single bytes of the stop handshake. */
  datatype Child = Child(
    snap: Dataset, clock: int, phase: Phase, dump: Bytes,
    diff: Bytes, pipe: Bytes, toParent: bool, toChild: bool)

  datatype Server = Server(
    ks: Dataset, now: int,
    mode: Mode, fd: Option<nat>, buf: Bytes, size: nat, selected: int, writeOk: bool,
    child: Option<Child>, blocks: Bytes, sendHandler: bool, askHandler: bool, stopSending: bool,
    scheduled: bool, disk: Disk, exited: bool)

  // ---------- Commands ----------

  /** feedAppendOnlyFile. */
  function FeedBytes(s: Server, fed: Fed, feed: int): Server
    requires Read(fed.argv).Some?
  {
    var f := FeedOne(s.selected, fed, feed);
    var bytes := EncodeAll(f.log);
    s.(selected := f.selected,
       buf := if s.mode.On? then s.buf + bytes else s.buf,
       blocks := if s.child.Some? then s.blocks + bytes else s.blocks,
       sendHandler := s.sendHandler || s.child.Some?)
  }

  function FeedAllBytes(s: Server, feds: seq<Fed>, feed: int): Server
    requires Known(feds)
    decreases feds
  {
    if feds == [] then s else FeedAllBytes(FeedBytes(s, feds[0], feed), feds[1..], feed)
  }

  /** A command of a client, together with what it propagates. */
  function RunCommand(s: Server, db: int, argv: Argv, clock: Clock): Server
    requires Read(argv).Some?
  {
    var e := Exec(s.ks, db, argv, Read(argv).value, false, clock);
    var t := s.(ks := e.ks, now := clock.feed);
    if s.mode.Off? || !Known(e.feds) then t else FeedAllBytes(t, e.feds, clock.feed)
  }

  // ---------- Writing the log ----------

  /** How a flush goes: whether it is put off because of a running fsync, what write() returns, whether
      ftruncate() succeeds, and whether the fsync policy is "always". */
  datatype FlushEvents = FlushEvents(postponed: bool, written: int, truncateOk: bool, always: bool)

  predicate FlushPossible(s: Server, e: FlushEvents) {
    -1 <= e.written <= |s.buf| && (s.fd.None? ==> e.written == -1) &&
    (s.fd.Some? ==> s.fd.value in s.disk.inodes)
  }

  /** ftruncate: a longer file is cut, a shorter one is filled up with NUL bytes. */
  function Truncate(content: Bytes, size: nat): Bytes {
    if size <= |content| then content[..size] else content + seq(size - |content|, i => '\0')
  }

  function Append(d: Disk, inode: nat, bytes: Bytes): Disk
    requires inode in d.inodes
  {
    d.(inodes := d.inodes[inode := d.inodes[inode] + bytes])
  }

  /** What a flush changes: the file, its remembered size, the buffer, whether the last write went well,
      and whether the process had to end. */
  datatype Flushed = Flushed(disk: Disk, size: nat, buf: Bytes, writeOk: bool, exited: bool)

  /** The write of flushAppendOnlyFile and what follows it. */
  function Write(s: Server, e: FlushEvents): Flushed
    requires FlushPossible(s, e)
  {
    if e.written == -1 then Flushed(s.disk, s.size, s.buf, s.writeOk && e.always, s.exited || e.always)
    else
      var fd := s.fd.value;
      var d := Append(s.disk, fd, s.buf[..e.written]);
      if e.written == |s.buf| then Flushed(d, s.size + e.written, [], true, s.exited)
      else if e.truncateOk then
        Flushed(d.(inodes := d.inodes[fd := Truncate(d.inodes[fd], s.size)]), s.size, s.buf,
                s.writeOk && e.always, s.exited || e.always)
      else if e.always then Flushed(d, s.size, s.buf, s.writeOk, true)
      else Flushed(d, s.size + e.written, s.buf[e.written..], false, s.exited)
  }

  /** flushAppendOnlyFile. */
  function Flush(s: Server, e: FlushEvents): Server
    requires FlushPossible(s, e)
  {
    if s.buf == [] || e.postponed then s
    else
      var r := Write(s, e);
      s.(disk := r.disk, size := r.size, buf := r.buf, writeOk := r.writeOk, exited := r.exited)
  }

  // ---------- Turning the log on and off ----------

  /** rewriteAppendOnlyFileBackground: creating the pipes and forking. The child starts with a copy of
      the dataset. */
  function Fork(s: Server, pipesOk: bool, forkOk: bool, now: int): Server {
    if s.child.Some? || !pipesOk then s
    else if !forkOk then s.(askHandler := true, sendHandler := false, stopSending := false)
    else s.(askHandler := true, sendHandler := false, stopSending := false,
            now := now, scheduled := false, selected := -1,
            child := Some(Child(s.ks, now, Dumping, [], [], [], false, false)))
  }

  predicate ForkSucceeds(s: Server, pipesOk: bool, forkOk: bool) {
    s.child.None? && pipesOk && forkOk
  }

  /** open() with O_CREAT. */
  function OpenLog(d: Disk): Disk {
    if d.aof.Some? then d
    else d.(inodes := d.inodes[d.next := []], next := d.next + 1, aof := Some(d.next))
  }

  /** startAppendOnly. A descriptor opened in vain is closed, but the field that holds it keeps it. */
  function Start(s: Server, openOk: bool, pipesOk: bool, forkOk: bool, now: int): Server {
    if !openOk then s.(fd := None)
    else
      var d := OpenLog(s.disk);
      Fork(s.(disk := d, fd := d.aof, mode := if ForkSucceeds(s, pipesOk, forkOk) then WaitRewrite else s.mode),
           pipesOk, forkOk, now)
  }

  /** aofClosePipes, aofRewriteBufferReset, aofRemoveTempFile and forgetting the child. */
  function DropChild(s: Server): Server {
    s.(child := None, blocks := [], askHandler := false, sendHandler := false, disk := s.disk.(temp := None))
  }

  /** stopAppendOnly. */
  function Stop(s: Server, e: FlushEvents): Server
    requires FlushPossible(s, e)
  {
    var t := Flush(s, e.(postponed := false));
    if t.exited then t
    else if t.child.None? then t.(fd := None, selected := -1, mode := Off)
    else DropChild(t.(fd := None, selected := -1, mode := Off))
  }

  // ---------- Parent and child ----------

  /** aofChildWriteDiffData: n is how many bytes the pipe accepts before it would block. */
  function SendDiff(s: Server, n: nat): Server
    requires s.child.Some? && n <= |s.blocks|
  {
    if s.stopSending then s.(sendHandler := false)
    else
      var c := s.child.value;
      s.(child := Some(c.(pipe := c.pipe + s.blocks[..n])), blocks := s.blocks[n..],
         sendHandler := s.sendHandler && n < |s.blocks|)
  }

  /** One read() of aofReadDiffFromParent. */
  function ChildRead(s: Server, n: nat): Server
    requires s.child.Some? && n <= |s.child.value.pipe|
  {
    var c := s.child.value;
    s.(child := Some(c.(diff := c.diff + c.pipe[..n], pipe := c.pipe[n..])))
  }

  /** The child reads the clock and prints its copy of the dataset. */
  function ChildDump(s: Server, plan: Plan, now: int): Server
    requires s.child.Some? && PlanInDataset(s.child.value.snap, plan)
  {
    var c := s.child.value;
    s.(now := now, child := Some(c.(clock := now, phase := Dumped, dump := EncodeAll(DumpLog(c.snap, plan, now)))))
  }

  /** The child asks the server to stop sending. */
  function ChildAsk(s: Server): Server
    requires s.child.Some?
  {
    s.(child := Some(s.child.value.(phase := Asked, toParent := true)))
  }

  /** aofChildPipeReadable. */
  function HearChild(s: Server, readOk: bool, ackOk: bool): Server
    requires s.child.Some?
  {
    var t := s.(askHandler := false);
    if !readOk then t
    else
      var c := s.child.value;
      t.(stopSending := true, child := Some(c.(toParent := false, toChild := c.toChild || ackOk)))
  }

  /** The child has the acknowledgement: it drains the pipe, appends the differences and renames its
      work to the temporary file the server looks for. */
  function ChildFinish(s: Server): Server
    requires s.child.Some?
  {
    var c := s.child.value;
    var all := c.diff + c.pipe;
    var d := s.disk;
    s.(child := Some(c.(phase := Finished, diff := all, pipe := [], toChild := false)),
       disk := d.(inodes := d.inodes[d.next := c.dump + all], next := d.next + 1, temp := Some(d.next)))
  }

  /** How the end of the child goes: whether it ended well, whether the temporary file opens, how much
      of the remaining differences can be appended to it, and whether rename() succeeds. */
  datatype DoneEvents = DoneEvents(exitOk: bool, openOk: bool, appended: nat, renameOk: bool)

  predicate DonePossible(s: Server, e: DoneEvents) {
    s.child.Some? && (e.exitOk ==> s.child.value.phase.Finished?) && e.appended <= |s.blocks| &&
    (e.exitOk && e.openOk ==> s.disk.temp.Some? && s.disk.temp.value in s.disk.inodes)
  }

  predicate Switches(s: Server, e: DoneEvents) {
    e.exitOk && e.openOk && e.appended == |s.blocks| && e.renameOk
  }

  /** What the end of a rewrite makes of the log: its file, what is remembered of it, and the mode. */
  datatype LogFile = LogFile(disk: Disk, mode: Mode, fd: Option<nat>, buf: Bytes, size: nat, selected: int)

  /** backgroundRewriteDoneHandler up to its cleanup. */
  function SwitchFile(s: Server, e: DoneEvents): LogFile
    requires DonePossible(s, e)
  {
    if !e.exitOk || !e.openOk then LogFile(s.disk, s.mode, s.fd, s.buf, s.size, s.selected)
    else
      var d := Append(s.disk, s.disk.temp.value, s.blocks[..e.appended]);
      if !Switches(s, e) then LogFile(d, s.mode, s.fd, s.buf, s.size, s.selected)
      else
        var renamed := d.(aof := d.temp);
        var mode := if s.mode.WaitRewrite? then On else s.mode;
        if s.fd.None? then LogFile(renamed, mode, s.fd, s.buf, s.size, s.selected)
        else LogFile(renamed, mode, d.temp, [], |d.inodes[d.temp.value]|, -1)
  }

  /** backgroundRewriteDoneHandler. */
  function Done(s: Server, e: DoneEvents): Server
    requires DonePossible(s, e)
  {
    var f := SwitchFile(s, e);
    DropChild(s.(disk := f.disk, mode := f.mode, fd := f.fd, buf := f.buf, size := f.size, selected := f.selected,
                 scheduled := s.scheduled || f.mode.WaitRewrite?))
  }

  // ---------- Steps ----------

  datatype Step =
    | Command(db: int, argv: Argv, clock: Clock)
    | FlushLog(flush: FlushEvents)
    | StartLog(openOk: bool, pipesOk: bool, forkOk: bool, now: int)
    | StopLog(flush: FlushEvents)
    | Rewrite(pipesOk: bool, forkOk: bool, now: int)
    | Send(n: nat)
    | Receive(n: nat)
    | DumpStep(plan: Plan, now: int)
    | Ask
    | Hear(readOk: bool, ackOk: bool)
    | Finish
    | ChildDone(done: DoneEvents)

  /** When a step can happen at all. */
  ghost predicate Possible(s: Server, step: Step) {
    !s.exited &&
    match step
    case Command(db, argv, clock) =>
      argv != [] && Read(argv).Some? && 0 <= db < DBNUM && Ordered(clock) && s.now <= clock.base
    case FlushLog(e) => FlushPossible(s, e)
    case StartLog(_, _, _, now) => s.mode.Off? && s.now <= now
    case StopLog(e) => !s.mode.Off? && FlushPossible(s, e)
    case Rewrite(_, _, now) => s.now <= now
    case Send(n) => s.child.Some? && s.sendHandler && n <= |s.blocks|
    case Receive(n) => s.child.Some? && !s.child.value.phase.Finished? && n <= |s.child.value.pipe|
    case DumpStep(plan, now) =>
      s.child.Some? && s.child.value.phase.Dumping? && s.now <= now &&
      IsPlan(s.child.value.snap, plan) && PlanInDataset(s.child.value.snap, plan)
    case Ask => s.child.Some? && s.child.value.phase.Dumped?
    case Hear(_, _) => s.child.Some? && s.askHandler && s.child.value.toParent
    case Finish => s.child.Some? && s.child.value.phase.Asked? && s.child.value.toChild
    case ChildDone(e) => DonePossible(s, e)
  }

  ghost function Next(s: Server, step: Step): Server
    requires Possible(s, step)
  {
    match step
    case Command(db, argv, clock) => RunCommand(s, db, argv, clock)
    case FlushLog(e) => Flush(s, e)
    case StartLog(openOk, pipesOk, forkOk, now) => Start(s, openOk, pipesOk, forkOk, now)
    case StopLog(e) => Stop(s, e)
    case Rewrite(pipesOk, forkOk, now) => Fork(s, pipesOk, forkOk, now)
    case Send(n) => SendDiff(s, n)
    case Receive(n) => ChildRead(s, n)
    case DumpStep(plan, now) => ChildDump(s, plan, now)
    case Ask => ChildAsk(s)
    case Hear(readOk, ackOk) => HearChild(s, readOk, ackOk)
    case Finish => ChildFinish(s)
    case ChildDone(e) => Done(s, e)
  }

  /** A server that has just been started on an empty dataset, with its log off, or on and new. */
  function Boot(logging: bool, now: nat): Server {
    var d := Disk(map[], 0, None, None);
    var s := Server(map[], now, Off, None, [], 0, -1, true, None, [], false, false, false, false, d, false);
    if logging then s.(mode := On, disk := OpenLog(d), fd := OpenLog(d).aof) else s
  }
}
