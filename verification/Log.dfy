/** The append only file as a sequence of commands: what is printed for a command that ran, and how
    the file is run again when the server starts. */
module Log {
  import opened Wire
  import opened Keyspace
  import opened Commands

  // ---------- Feeding the log ----------

  function SelectArgv(db: int): Argv {
    ["SELECT", Decimal(db)]
  }

  function PexpireatArgv(name: Bytes, when: int): Argv {
    ["PEXPIREAT", name, Decimal(when)]
  }

  function SetArgv(name: Bytes, text: Bytes): Argv {
    ["SET", name, text]
  }

  /** The time catAppendOnlyExpireAtCommand prints: it reads the argument again, and the clock again
      for a relative time. */
  function ExpireAtTime(n: Name, amount: Bytes, feed: int): int {
    var when := ToMs(Strtoll(amount).value, n.EXPIRE? || n.SETEX? || n.EXPIREAT?);
    if n.EXPIRE? || n.PEXPIRE? || n.SETEX? || n.PSETEX? then when + feed else when
  }

  /** The commands that stand in the log for a command that ran. */
  function Translate(argv: Argv, feed: int): seq<Argv>
    requires Read(argv).Some?
  {
    var n := NameOf(argv[0]).value;
    if n.EXPIRE? || n.PEXPIRE? || n.EXPIREAT? then
      [PexpireatArgv(argv[1], ExpireAtTime(n, argv[2], feed))]
    else if n.SETEX? || n.PSETEX? then
      [SetArgv(argv[1], argv[3]), PexpireatArgv(argv[1], ExpireAtTime(n, argv[2], feed))]
    else [argv]
  }

  datatype Feed = Feed(log: seq<Argv>, selected: int)

  /** feedAppendOnlyFile: what it prints, and the database the log has selected afterwards. */
  function FeedOne(selected: int, fed: Fed, feed: int): Feed
    requires Read(fed.argv).Some?
  {
    Feed((if fed.db != selected then [SelectArgv(fed.db)] else []) + Translate(fed.argv, feed), fed.db)
  }

  predicate Known(feds: seq<Fed>) {
    forall i :: 0 <= i < |feds| ==> Read(feds[i].argv).Some? && 0 <= feds[i].db < DBNUM
  }

  function FeedAll(selected: int, feds: seq<Fed>, feed: int): Feed
    requires Known(feds)
    decreases feds
  {
    if feds == [] then Feed([], selected)
    else
      var one := FeedOne(selected, feds[0], feed);
      var rest := FeedAll(one.selected, feds[1..], feed);
      Feed(one.log + rest.log, rest.selected)
  }

  /** The SELECT that is printed literally is the printed form of the command. */
  lemma SelectLiteral(db: int)
    ensures "*2\r\n$6\r\nSELECT\r\n$" + Decimal(|Decimal(db)|) + "\r\n" + Decimal(db) + "\r\n"
         == Encode(SelectArgv(db))
  {
    hide Decimal;
    var d := Decimal(db);
    var name: Bytes := "SELECT";
    var num := Decimal(|d|);
    SmallHeaders();
    var one := EncodeBulk(name);
    assert one == Header('$', 6) + name + CRLF;
    assert "*2\r\n$6\r\nSELECT\r\n$" == Header('*', 2) + one + "$";
    SelectBulks(db);
    Regroup(Header('*', 2), one, "$", num, CRLF, d);
  }

  lemma SelectBulks(db: int)
    ensures EncodeBulks(SelectArgv(db)) == EncodeBulk("SELECT") + EncodeBulk(Decimal(db))
  {
    hide EncodeBulk, Decimal;
    var tail: Argv := [Decimal(db)];
    assert SelectArgv(db)[1..] == tail && |tail[1..]| == 0;
    assert EncodeBulks(tail) == EncodeBulk(Decimal(db)) + [];
  }

  lemma Regroup(a: Bytes, b: Bytes, c: Bytes, d: Bytes, e: Bytes, f: Bytes)
    ensures a + b + c + d + e + f + e == a + (b + (c + d + e + f + e))
  {
  }

  lemma SmallHeaders()
    ensures Header('*', 2) == "*2\r\n" && Header('$', 6) == "$6\r\n"
  {
    assert Decimal(2) == "2" && Decimal(6) == "6";
  }

  // ---------- Running the log ----------

  /** The dataset under construction, and the database the fake client has selected. */
  datatype LoadState = LoadState(ks: Dataset, sel: int)

  const FRESH := LoadState(map[], 0)

  /** All clock readings taken while a command is loaded; no branch of the loading mode tests them. */
  function LoadClock(now: int): Clock {
    Clock(now, now, now, now)
  }

  function LoadStep(st: LoadState, argv: Argv, now: int): LoadState
    requires Read(argv).Some?
  {
    var c := Read(argv).value;
    if c.Select? then st.(sel := c.id)
    else st.(ks := Exec(st.ks, st.sel, argv, c, true, LoadClock(now)).ks)
  }

  predicate Readable(log: seq<Argv>) {
    forall i :: 0 <= i < |log| ==> log[i] != [] && Read(log[i]).Some?
  }

  function Replay(st: LoadState, log: seq<Argv>, now: int): LoadState
    requires Readable(log)
    decreases log
  {
    if log == [] then st else Replay(LoadStep(st, log[0], now), log[1..], now)
  }

  lemma {:induction false} ReplaySplit(st: LoadState, a: seq<Argv>, b: seq<Argv>, now: int)
    requires Readable(a) && Readable(b)
    ensures Readable(a + b)
    ensures Replay(st, a + b, now) == Replay(Replay(st, a, now), b, now)
    decreases a
  {
    hide LoadStep, Read;
    if a == [] {
      assert a + b == b;
    } else {
      assert (a + b)[1..] == a[1..] + b;
      ReplaySplit(LoadStep(st, a[0], now), a[1..], b, now);
    }
  }

  // ---------- Loading a file ----------

  /** Where the loading loop stops: the state so far, the unread part of the file from the first
      command not run, and why. */
  datatype LoadEnd = LoadEnd(st: LoadState, rest: Bytes, why: Parsed)

  function LoadLoop(st: LoadState, b: Bytes, now: int): (e: LoadEnd)
    ensures |e.rest| <= |b| && !e.why.Got?
    decreases |b|
  {
    var p := ParseCommand(b);
    if !p.Got? then LoadEnd(st, b, p)
    else if Read(p.argv).None? then LoadEnd(st, b, Fatal)
    else LoadLoop(LoadStep(st, p.argv, now), p.rest, now)
  }

  /** How loading ends: with a dataset and possibly a shortened file, with nothing because the file is
      empty, or by ending the process. */
  datatype Outcome = Loaded(ks: Dataset, file: Bytes) | Nothing | Exit

  function LoadFile(file: Bytes, loadTruncated: bool, truncateOk: bool, now: int): Outcome {
    if file == [] then Nothing
    else
      var e := LoadLoop(FRESH, file, now);
      if e.why.AtEnd? then Loaded(e.st.ks, file)
      else if e.why.Short? && loadTruncated && truncateOk then
        Loaded(e.st.ks, file[..|file| - |e.rest|])
      else Exit
  }

  /** loadAppendOnlyFile, with the file's whole content as argument. */
  method LoadAppendOnlyFile(file: Bytes, loadTruncated: bool, truncateOk: bool, now: int) returns (r: Outcome)
    ensures r == LoadFile(file, loadTruncated, truncateOk, now)
  {
    hide ParseCommand, Read, LoadStep;
    if |file| == 0 {
      return Nothing;
    }
    var client, pos, validUpTo := FRESH, 0, 0;
    var why := Parsed.AtEnd;
    while true
      invariant 0 <= pos <= |file|
      invariant loadTruncated ==> validUpTo == pos
      invariant LoadLoop(client, file[pos..], now) == LoadLoop(FRESH, file, now)
      decreases |file| - pos
    {
      var p := ParseCommand(file[pos..]);
      if !p.Got? {
        why := p;
        break;
      }
      if Read(p.argv).None? {
        return Exit;
      }
      client := LoadStep(client, p.argv, now);
      ParseConsumes(file, pos);
      pos := |file| - |p.rest|;
      if loadTruncated {
        validUpTo := pos;
      }
    }
    match why {
      case AtEnd => r := Loaded(client.ks, file);
      case Short =>
        if loadTruncated && truncateOk {
          r := Loaded(client.ks, file[..validUpTo]);
        } else {
          r := Exit;
        }
      case _ => r := Exit;
    }
  }

  /** The unread part is always an end of the text. */
  lemma {:induction false} ParseArgsConsumes(b: Bytes, n: nat)
    ensures var p := ParseArgs(b, n); p.Got? ==> |p.rest| <= |b| && p.rest == b[|b| - |p.rest|..]
    decreases n
  {
    hide FGets, Strtoll;
    if n > 0 && b != [] {
      var l := FGets(b);
      var len := Strtoll(l.text[1..]).value;
      if l.text[0] == '$' && len >= 0 && |l.rest| >= len + 2 {
        ParseArgsConsumes(l.rest[len + 2..], n - 1);
      }
    }
  }

  lemma ParseConsumes(file: Bytes, pos: nat)
    requires pos <= |file|
    ensures var p := ParseCommand(file[pos..]);
            p.Got? ==> pos < |file| - |p.rest| <= |file| && p.rest == file[|file| - |p.rest|..]
  {
    var b := file[pos..];
    if b != [] {
      var l := FGets(b);
      var argc := Strtoll(l.text[1..]).value;
      if argc >= 1 {
        ParseArgsConsumes(l.rest, argc);
      }
    }
  }

  lemma {:induction false} LoadLoopOfLog(st: LoadState, log: seq<Argv>, tail: Bytes, now: int)
    requires Readable(log)
    ensures LoadLoop(st, EncodeAll(log) + tail, now) == LoadLoop(Replay(st, log, now), tail, now)
    decreases log
  {
    if log == [] {
      assert EncodeAll(log) + tail == tail;
    } else {
      Assoc(Encode(log[0]), EncodeAll(log[1..]), tail);
      RoundTrip(log[0], EncodeAll(log[1..]) + tail);
      LoadLoopOfLog(LoadStep(st, log[0], now), log[1..], tail, now);
    }
  }

  /** A file that holds exactly a log is loaded by running that log. */
  lemma LoadWholeLog(log: seq<Argv>, loadTruncated: bool, truncateOk: bool, now: int)
    requires Readable(log) && log != []
    ensures LoadFile(EncodeAll(log), loadTruncated, truncateOk, now)
         == Loaded(Replay(FRESH, log, now).ks, EncodeAll(log))
  {
    LoadLoopOfLog(FRESH, log, [], now);
    assert EncodeAll(log) + [] == EncodeAll(log);
  }

  /** What follows a log in a file decides how its loading ends. Anything that is not the torn beginning of a
      command ends the process, whatever the flags: a format error, an argument that cannot be read, or an unknown
      command. A torn beginning is cut off if that is allowed and succeeds, and ends the process otherwise. */
  lemma LoadWithTail(log: seq<Argv>, tail: Bytes, loadTruncated: bool, truncateOk: bool, now: int)
    requires Readable(log) && tail != []
    ensures var p := ParseCommand(tail);
            var o := LoadFile(EncodeAll(log) + tail, loadTruncated, truncateOk, now);
            (p.Malformed? || p.Fatal? || (p.Got? && Read(p.argv).None?) ==> o == Exit) &&
            (p.Short? ==> o == if loadTruncated && truncateOk then Loaded(Replay(FRESH, log, now).ks, EncodeAll(log))
                               else Exit)
  {
    hide Encode, ParseCommand, Read, LoadStep, Replay;
    LoadLoopOfLog(FRESH, log, tail, now);
    var file := EncodeAll(log) + tail;
    assert file != [] && file[..|file| - |tail|] == EncodeAll(log);
  }

  /** A file that goes on with anything but an asterisk after a command is not loaded. */
  lemma GarbageIsRefused(log: seq<Argv>, garbage: Bytes, loadTruncated: bool, truncateOk: bool, now: int)
    requires Readable(log) && garbage != [] && garbage[0] != '*'
    ensures LoadFile(EncodeAll(log) + garbage, loadTruncated, truncateOk, now) == Exit
  {
    StrangeStart(garbage);
    LoadWithTail(log, garbage, loadTruncated, truncateOk, now);
    hide ParseCommand, LoadFile;
  }

  /** A command that is well formed and unknown ends the process as well, wherever it stands. */
  lemma UnknownIsRefused(log: seq<Argv>, argv: Argv, rest: Bytes, loadTruncated: bool, truncateOk: bool, now: int)
    requires Readable(log) && argv != [] && Read(argv).None?
    ensures LoadFile(EncodeAll(log) + (Encode(argv) + rest), loadTruncated, truncateOk, now) == Exit
  {
    RoundTrip(argv, rest);
    hide Encode, LoadFile, Read;
    assert Encode(argv) + rest != [];
    hide ParseCommand;
    LoadWithTail(log, Encode(argv) + rest, loadTruncated, truncateOk, now);
  }

  // ---------- Crash recovery ----------

  /** How many commands of a log lie wholly inside its first n bytes. */
  function WholeCommands(log: seq<Argv>, n: nat): (k: nat)
    ensures k <= |log|
    decreases log
  {
    if log == [] || n < |Encode(log[0])| then 0
    else 1 + WholeCommands(log[1..], n - |Encode(log[0])|)
  }

  /** That count is the one number of commands that fits while one more does not. */
  lemma {:induction false} WholeCommandsIsMost(log: seq<Argv>, n: nat, k: nat)
    requires k <= |log|
    ensures k == WholeCommands(log, n) <==>
            |EncodeAll(log[..k])| <= n && (k < |log| ==> n < |EncodeAll(log[..k + 1])|)
    decreases log
  {
    hide Encode;
    if log != [] {
      assert EncodeAll(log[..1]) == Encode(log[0]) by { assert log[..1] == [log[0]]; EncodeAllOne(log[0]); }
      if k > 0 {
        EncodeAllHead(log[..k]);
        assert log[..k][1..] == log[1..][..k - 1];
        if k < |log| {
          EncodeAllHead(log[..k + 1]);
          assert log[..k + 1][1..] == log[1..][..k];
        }
        if n >= |Encode(log[0])| {
          WholeCommandsIsMost(log[1..], n - |Encode(log[0])|, k - 1);
        }
      }
    }
  }

  lemma EncodeAllHead(log: seq<Argv>)
    requires log != []
    ensures |EncodeAll(log)| == |Encode(log[0])| + |EncodeAll(log[1..])|
  {
  }

  /** A prefix of a log is its whole commands and a torn rest that the reader finds too short. */
  lemma {:induction false} PrefixOfLog(log: seq<Argv>, p: Bytes) returns (tail: Bytes)
    requires Readable(log) && p <= EncodeAll(log)
    ensures p == EncodeAll(log[..WholeCommands(log, |p|)]) + tail
    ensures tail != [] ==> ParseCommand(tail).Short?
    decreases log
  {
    hide Encode, ParseCommand, Read;
    if log == [] {
      tail := [];
    } else if |p| < |Encode(log[0])| {
      tail := p;
      assert StrictPrefix(p, Encode(log[0]));
      if p != [] {
        TornCommandIsShort(log[0], p);
      }
      assert EncodeAll(log[..0]) + p == p;
    } else {
      var first := Encode(log[0]);
      var q := p[|first|..];
      assert p == first + q;
      tail := PrefixOfLog(log[1..], q);
      var k := WholeCommands(log[1..], |q|);
      assert log[..k + 1][1..] == log[1..][..k];
      Assoc(first, EncodeAll(log[1..][..k]), tail);
    }
  }

  /** Whatever prefix of the log a crash leaves, loading with aof-load-truncated runs exactly the
      commands that are wholly there, cuts the file behind the last of them, and never gives up. */
  lemma CrashRecovery(log: seq<Argv>, p: Bytes, now: int)
    requires Readable(log) && p <= EncodeAll(log) && p != []
    ensures var k := WholeCommands(log, |p|);
            LoadFile(p, true, true, now) == Loaded(Replay(FRESH, log[..k], now).ks, EncodeAll(log[..k]))
  {
    hide Encode, ParseCommand, Read, LoadStep;
    var k := WholeCommands(log, |p|);
    var tail := PrefixOfLog(log, p);
    LoadLoopOfLog(FRESH, log[..k], tail, now);
    if tail == [] {
      assert EncodeAll(log[..k]) + [] == EncodeAll(log[..k]);
    } else {
      assert p[..|p| - |tail|] == EncodeAll(log[..k]);
    }
  }

  /** The repaired file needs no second repair: it loads to the same dataset and stays as it is. */
  lemma RepairedFileIsClean(log: seq<Argv>, p: Bytes, loadTruncated: bool, truncateOk: bool, now: int)
    requires Readable(log) && p <= EncodeAll(log) && p != []
    ensures var o := LoadFile(p, true, true, now);
            o.Loaded? && LoadFile(o.file, loadTruncated, truncateOk, now) ==
              if o.file == [] then Nothing else o
  {
    hide Encode, ParseCommand, Read, LoadStep;
    CrashRecovery(log, p, now);
    var k := WholeCommands(log, |p|);
    if k > 0 {
      LoadWholeLog(log[..k], loadTruncated, truncateOk, now);
    }
  }
}
