/** The functions of aof.c that run in the server, over its own fields, each proved to take the step of
    the protocol that bears its name. */
module AofServers {
  import opened Wire
  import opened Keyspace
  import opened Commands
  import opened Log
  import opened Protocol
  import opened RewriteBuffers

  class AofServer {
    var ks: Dataset
    var now: int
    var mode: Mode
    var fd: Option<nat>
    var buf: Bytes
    var size: nat
    var selected: int
    var writeOk: bool
    var child: Option<Child>
    var rewriteBuf: RewriteBuffer
    var sendHandler: bool
    var askHandler: bool
    var stopSending: bool
    var scheduled: bool
    var disk: Disk
    var exited: bool

    ghost predicate Valid()
      reads this, rewriteBuf, rewriteBuf.Repr
    {
      rewriteBuf.Valid() && this !in rewriteBuf.Repr
    }

    ghost function State(): Server
      reads this, rewriteBuf
    {
      Server(ks, now, mode, fd, buf, size, selected, writeOk, child, rewriteBuf.Contents,
             sendHandler, askHandler, stopSending, scheduled, disk, exited)
    }

    /** bioInit and initServer leave the server with an empty list of blocks. */
    constructor (boot: Server)
      requires boot.blocks == []
      ensures Valid() && State() == boot
    {
      ks, now, mode, fd, buf, size := boot.ks, boot.now, boot.mode, boot.fd, boot.buf, boot.size;
      selected, writeOk, child := boot.selected, boot.writeOk, boot.child;
      sendHandler, askHandler, stopSending := boot.sendHandler, boot.askHandler, boot.stopSending;
      scheduled, disk, exited := boot.scheduled, boot.disk, boot.exited;
      rewriteBuf := new RewriteBuffer();
    }

    /** aofRewriteBufferReset. */
    method RewriteBufferReset()
      modifies this`rewriteBuf
      ensures Valid() && rewriteBuf.Contents == []
    {
      rewriteBuf := new RewriteBuffer();
    }

    // ---------- Feeding ----------

    /** The text of a command as feedAppendOnlyFile builds it. */
    static method PrintCommand(dst: Bytes, argv: Argv, feed: int) returns (out: Bytes)
      requires argv != [] && Read(argv).Some?
      ensures out == dst + EncodeAll(Translate(argv, feed))
    {
      PrintedForms(argv, feed);
      var n := NameOf(argv[0]).value;
      if n.EXPIRE? || n.PEXPIRE? || n.EXPIREAT? {
        out := CatAppendOnlyGenericCommand(dst, PexpireatArgv(argv[1], ExpireAtTime(n, argv[2], feed)));
      } else if n.SETEX? || n.PSETEX? {
        out := CatAppendOnlyGenericCommand(dst, SetArgv(argv[1], argv[3]));
        out := CatAppendOnlyGenericCommand(out, PexpireatArgv(argv[1], ExpireAtTime(n, argv[2], feed)));
        Assoc(dst, Encode(SetArgv(argv[1], argv[3])),
              Encode(PexpireatArgv(argv[1], ExpireAtTime(n, argv[2], feed))));
      } else {
        out := CatAppendOnlyGenericCommand(dst, argv);
      }
    }

    static lemma PrintedForms(argv: Argv, feed: int)
      requires argv != [] && Read(argv).Some?
      ensures var n := NameOf(argv[0]).value; var t := EncodeAll(Translate(argv, feed));
              t == if n.EXPIRE? || n.PEXPIRE? || n.EXPIREAT? then
                     Encode(PexpireatArgv(argv[1], ExpireAtTime(n, argv[2], feed)))
                   else if n.SETEX? || n.PSETEX? then
                     Encode(SetArgv(argv[1], argv[3])) + Encode(PexpireatArgv(argv[1], ExpireAtTime(n, argv[2], feed)))
                   else Encode(argv)
    {
      var n := NameOf(argv[0]).value;
      var t := Translate(argv, feed);
      hide Encode, Read, NameOf, Translate, ExpireAtTime;
      if |t| == 1 {
        EncodeAllOne(t[0]);
        assert t == [t[0]];
      } else {
        EncodeAllSplit([t[0]], [t[1]]);
        EncodeAllOne(t[0]);
        EncodeAllOne(t[1]);
        assert t == [t[0]] + [t[1]];
      }
    }

    /** The two places the text of a command goes to. */
    method AppendText(text: Bytes)
      requires Valid()
      modifies this, rewriteBuf.Repr
      ensures Valid() && State() == old(State()).(
        buf := if old(mode).On? then old(buf) + text else old(buf),
        blocks := if old(child).Some? then old(State()).blocks + text else old(State()).blocks,
        sendHandler := old(sendHandler) || old(child).Some?)
    {
      if child.Some? {
        rewriteBuf.Append(text);
        sendHandler := true;
      }
      if mode.On? {
        buf := buf + text;
      }
    }

    /** feedAppendOnlyFile. */
    method FeedAppendOnlyFile(dictid: int, argv: Argv, feed: int)
      requires Valid() && argv != [] && Read(argv).Some?
      modifies this, rewriteBuf.Repr
      ensures Valid() && State() == FeedBytes(old(State()), Fed(dictid, argv), feed)
    {
      hide Encode, Read, Translate, EncodeAll, RewriteBuffer.Valid;
      var text: Bytes := [];
      var sel := selected;
      if dictid != sel {
        text := text + ("*2\r\n$6\r\nSELECT\r\n$" + Decimal(|Decimal(dictid)|) + "\r\n" + Decimal(dictid) + "\r\n");
        SelectLiteral(dictid);
        EncodeAllOne(SelectArgv(dictid));
        sel := dictid;
      }
      ghost var select := text;
      text := PrintCommand(text, argv, feed);
      FedBytes(selected, Fed(dictid, argv), feed, select);
      AppendText(text);
      selected := sel;
    }

    static lemma FedBytes(sel: int, fed: Fed, feed: int, select: Bytes)
      requires Read(fed.argv).Some?
      requires select == if fed.db != sel then EncodeAll([SelectArgv(fed.db)]) else []
      ensures EncodeAll(FeedOne(sel, fed, feed).log) == select + EncodeAll(Translate(fed.argv, feed))
    {
      hide Encode, Read, Translate, SelectArgv;
      var t := Translate(fed.argv, feed);
      if fed.db != sel {
        EncodeAllSplit([SelectArgv(fed.db)], t);
      } else {
        assert [] + t == t && [] + EncodeAll(t) == EncodeAll(t);
      }
    }

    // ---------- Writing the log ----------

    /** The write of a flush, and the attempt to take a short one back: -1 says that nothing of it is
        left in the file. */
    method WriteAndUndo(e: FlushEvents) returns (nwritten: int)
      requires Valid() && FlushPossible(State(), e)
      modifies this`disk
      ensures Valid()
      ensures nwritten == (if 0 <= e.written < |buf| && e.truncateOk then -1 else e.written)
      ensures disk == if e.written == -1 then old(disk)
                      else
                        var d := Append(old(disk), fd.value, buf[..e.written]);
                        if nwritten == -1 then d.(inodes := d.inodes[fd.value := Truncate(d.inodes[fd.value], size)]) else d
    {
      hide Truncate, RewriteBuffer.Valid;
      nwritten := e.written;
      if nwritten == -1 {
        return;
      }
      disk := Append(disk, fd.value, buf[..nwritten]);
      if nwritten != |buf| && e.truncateOk {
        disk := disk.(inodes := disk.inodes[fd.value := Truncate(disk.inodes[fd.value], size)]);
        nwritten := -1;
      }
    }

    /** flushAppendOnlyFile. */
    method FlushAppendOnlyFile(e: FlushEvents)
      requires Valid() && FlushPossible(State(), e)
      modifies this`disk, this`size, this`buf, this`writeOk, this`exited
      ensures Valid() && State() == Flush(old(State()), e)
    {
      hide Truncate, Append, RewriteBuffer.Valid;
      if |buf| == 0 || e.postponed {
        return;
      }
      var nwritten := WriteAndUndo(e);
      if nwritten != |buf| {
        if e.always {
          exited := true;
          return;
        }
        writeOk := false;
        if nwritten > 0 {
          size := size + nwritten;
          buf := buf[nwritten..];
        }
        return;
      }
      writeOk := true;
      size := size + nwritten;
      buf := [];
    }

    // ---------- Turning the log on and off ----------

    /** rewriteAppendOnlyFileBackground; the child's half is not run here. */
    method RewriteAppendOnlyFileBackground(pipesOk: bool, forkOk: bool, at: int) returns (ok: bool)
      requires Valid()
      modifies this
      ensures Valid() && State() == Fork(old(State()), pipesOk, forkOk, at)
      ensures ok == ForkSucceeds(old(State()), pipesOk, forkOk) && rewriteBuf == old(rewriteBuf)
    {
      hide RewriteBuffer.Valid;
      if child.Some? || !pipesOk {
        return false;
      }
      askHandler, sendHandler, stopSending := true, false, false;
      if !forkOk {
        return false;
      }
      now := at;
      scheduled := false;
      child := Some(Child(ks, at, Dumping, [], [], [], false, false));
      selected := -1;
      ok := true;
    }

    /** startAppendOnly. */
    method StartAppendOnly(openOk: bool, pipesOk: bool, forkOk: bool, at: int) returns (ok: bool)
      requires Valid() && mode.Off?
      modifies this
      ensures Valid() && State() == Start(old(State()), openOk, pipesOk, forkOk, at)
      ensures ok == (openOk && ForkSucceeds(old(State()), pipesOk, forkOk))
    {
      hide RewriteBuffer.Valid;
      if !openOk {
        fd := None;
        return false;
      }
      disk := OpenLog(disk);
      fd := disk.aof;
      ok := RewriteAppendOnlyFileBackground(pipesOk, forkOk, at);
      if !ok {
        return;
      }
      mode := WaitRewrite;
    }

    /** The part that stopAppendOnly and backgroundRewriteDoneHandler have in common. */
    method Cleanup()
      requires Valid()
      modifies this`askHandler, this`sendHandler, this`rewriteBuf, this`disk, this`child
      ensures Valid() && State() == DropChild(old(State()))
    {
      hide RewriteBuffer.Valid;
      askHandler, sendHandler := false, false;
      RewriteBufferReset();
      disk := disk.(temp := None);
      child := None;
    }

    /** stopAppendOnly. */
    method StopAppendOnly(e: FlushEvents)
      requires Valid() && !mode.Off? && FlushPossible(State(), e)
      modifies this
      ensures Valid() && State() == Stop(old(State()), e)
    {
      hide Flush, FlushPossible, DropChild, RewriteBuffer.Valid;
      FlushPutOff(State(), e);
      FlushAppendOnlyFile(e.(postponed := false));
      if exited {
        return;
      }
      fd := None;
      selected := -1;
      mode := Off;
      if child.Some? {
        Cleanup();
      }
    }

    static lemma FlushPutOff(s: Server, e: FlushEvents)
      requires FlushPossible(s, e)
      ensures FlushPossible(s, e.(postponed := false))
    {
    }

    // ---------- Parent and child ----------

    /** aofChildWriteDiffData. Whatever the pipe accepts, write by write, is one sending step. */
    method ChildWriteDiffData(results: seq<int>) returns (ghost n: nat)
      requires Valid() && child.Some? && sendHandler
      modifies this, rewriteBuf.Repr
      ensures n <= |old(State()).blocks| && Valid()
      ensures State() == SendDiff(old(State()), n)
      ensures stopSending || results == [] || results[0] <= 0 ==> n == 0
      ensures !stopSending && AllTake(results, 1) && |results| >= |old(State()).blocks| ==> n == |old(State()).blocks|
    {
      hide RewriteBuffer.Valid, Protocol.SendDiff;
      ghost var s := State();
      var sent, handlerDeleted := rewriteBuf.SendDiff(stopSending, results);
      n := |sent|;
      SentByHandler(s, sent, rewriteBuf.Contents, handlerDeleted);
      if handlerDeleted {
        sendHandler := false;
      }
      var c := child.value;
      child := Some(c.(pipe := c.pipe + sent));
    }

    static lemma SentByHandler(s: Server, sent: Bytes, left: Bytes, handlerDeleted: bool)
      requires s.child.Some? && s.sendHandler && s.blocks == sent + left
      requires (s.stopSending ==> sent == []) && (handlerDeleted <==> s.stopSending || left == [])
      ensures var c := s.child.value;
              SendDiff(s, |sent|) == s.(child := Some(c.(pipe := c.pipe + sent)), blocks := left,
                                        sendHandler := !handlerDeleted)
    {
      var c := s.child.value;
      assert s.blocks[..|sent|] == sent && s.blocks[|sent|..] == left;
      assert c.pipe + [] == c.pipe;
    }

    /** aofChildPipeReadable. */
    method ChildPipeReadable(readOk: bool, ackOk: bool)
      requires Valid() && child.Some? && child.value.toParent && askHandler
      modifies this
      ensures Valid() && State() == HearChild(old(State()), readOk, ackOk)
    {
      hide RewriteBuffer.Valid;
      if readOk {
        stopSending := true;
        var c := child.value;
        child := Some(c.(toParent := false));
        if ackOk {
          child := Some(child.value.(toChild := true));
        }
      }
      askHandler := false;
    }

    /** The renamed file becomes the log. */
    method SwitchToRewritten()
      requires disk.temp.Some? && disk.temp.value in disk.inodes
      modifies this`disk, this`mode, this`fd, this`selected, this`size, this`buf
      ensures disk == old(disk).(aof := old(disk).temp) && mode == if old(mode).WaitRewrite? then On else old(mode)
      ensures old(fd).None? ==> fd == old(fd) && selected == old(selected) && size == old(size) && buf == old(buf)
      ensures old(fd).Some? ==>
                fd == disk.temp && selected == -1 && size == |disk.inodes[disk.temp.value]| && buf == []
    {
      disk := disk.(aof := disk.temp);
      if fd.Some? {
        fd := disk.temp;
        selected := -1;
        size := |disk.inodes[fd.value]|;
        buf := [];
      }
      if mode.WaitRewrite? {
        mode := On;
      }
    }

    /** What backgroundRewriteDoneHandler does when the child ended well. */
    method TakeRewrittenFile(openOk: bool, results: seq<int>, renameOk: bool) returns (ghost appended: nat)
      requires Valid() && DonePossible(State(), DoneEvents(true, openOk, 0, renameOk))
      modifies this`disk, this`mode, this`fd, this`selected, this`size, this`buf
      ensures appended <= |rewriteBuf.Contents|
      ensures openOk && AllTake(results, |rewriteBuf.Contents|) && |results| >= |rewriteBuf.blocks| ==>
                appended == |rewriteBuf.Contents|
      ensures var f := SwitchFile(old(State()), DoneEvents(true, openOk, appended, renameOk));
              disk == f.disk && mode == f.mode && fd == f.fd && selected == f.selected && size == f.size && buf == f.buf
    {
      hide RewriteBuffer.Valid;
      appended := 0;
      if openOk {
        var written, out := rewriteBuf.WriteAll(results);
        appended := |out|;
        assert rewriteBuf.Contents[..|out|] == out;
        disk := Append(disk, disk.temp.value, out);
        if written && renameOk {
          SwitchToRewritten();
        }
      }
    }

    /** What becomes of the rewritten file, the child having ended well or not. */
    method EndOfChild(exitOk: bool, openOk: bool, results: seq<int>, renameOk: bool) returns (ghost e: DoneEvents)
      requires Valid() && DonePossible(State(), DoneEvents(exitOk, openOk, 0, renameOk))
      modifies this`disk, this`mode, this`fd, this`selected, this`size, this`buf
      ensures e.exitOk == exitOk && e.openOk == openOk && e.renameOk == renameOk
      ensures Valid() && DonePossible(old(State()), e)
      ensures exitOk && openOk && AllTake(results, |rewriteBuf.Contents|) && |results| >= |rewriteBuf.blocks| ==>
                e.appended == |rewriteBuf.Contents|
      ensures var f := SwitchFile(old(State()), e);
              State() == old(State()).(disk := f.disk, mode := f.mode, fd := f.fd, buf := f.buf, size := f.size,
                                       selected := f.selected)
    {
      hide RewriteBuffer.Valid, SwitchFile;
      e := DoneEvents(exitOk, openOk, 0, renameOk);
      ChildFailed(State(), e);
      if exitOk {
        ghost var appended := TakeRewrittenFile(openOk, results, renameOk);
        e := e.(appended := appended);
      }
    }

    /** backgroundRewriteDoneHandler. The results are what the writes to the temporary file accept. */
    method BackgroundRewriteDoneHandler(exitOk: bool, openOk: bool, results: seq<int>, renameOk: bool)
        returns (ghost e: DoneEvents)
      requires Valid() && DonePossible(State(), DoneEvents(exitOk, openOk, 0, renameOk))
      modifies this
      ensures e.exitOk == exitOk && e.openOk == openOk && e.renameOk == renameOk
      ensures DonePossible(old(State()), e)
      ensures exitOk && openOk && AllTake(results, |old(State()).blocks|) && |results| >= |old(rewriteBuf.blocks)| ==>
                e.appended == |old(State()).blocks|
      ensures Valid() && State() == Done(old(State()), e)
    {
      hide RewriteBuffer.Valid, SwitchFile, DonePossible;
      e := EndOfChild(exitOk, openOk, results, renameOk);
      Cleanup();
      if mode.WaitRewrite? {
        scheduled := true;
      }
    }

    static lemma ChildFailed(s: Server, e: DoneEvents)
      requires DonePossible(s, e)
      ensures !e.exitOk ==> SwitchFile(s, e) == LogFile(s.disk, s.mode, s.fd, s.buf, s.size, s.selected)
    {
    }
  }
}
