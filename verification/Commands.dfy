/** The commands of the model, as text and as actions on the dataset. A master and a server that is
    loading its log run the same code; the loading flag takes the branches the code takes. */
module Commands {
  import opened Wire
  import opened Keyspace

  /** server.dbnum, at its default. */
  const DBNUM := 16

  datatype Name =
    | GET | SET | SETNX | SETEX | PSETEX | DEL | EXPIRE | PEXPIRE | EXPIREAT | PEXPIREAT
    | RPUSH | SADD | ZADD | HMSET | RENAME | RENAMENX | MOVE | FLUSHDB | FLUSHALL | PERSIST | SELECT

  function Spelling(n: Name): Bytes {
    match n
    case GET => "GET" case SET => "SET" case SETNX => "SETNX" case SETEX => "SETEX"
    case PSETEX => "PSETEX" case DEL => "DEL" case EXPIRE => "EXPIRE" case PEXPIRE => "PEXPIRE"
    case EXPIREAT => "EXPIREAT" case PEXPIREAT => "PEXPIREAT" case RPUSH => "RPUSH"
    case SADD => "SADD" case ZADD => "ZADD" case HMSET => "HMSET" case RENAME => "RENAME"
    case RENAMENX => "RENAMENX" case MOVE => "MOVE" case FLUSHDB => "FLUSHDB"
    case FLUSHALL => "FLUSHALL" case PERSIST => "PERSIST" case SELECT => "SELECT"
  }

  function ToUpper(c: byte): byte {
    if 'a' <= c <= 'z' then (c as int - 32) as char else c
  }

  function Upper(s: Bytes): (u: Bytes)
    ensures |u| == |s|
  {
    seq(|s|, i requires 0 <= i < |s| => ToUpper(s[i]))
  }

  /** lookupCommand: command names are compared without regard to case. */
  function NameOf(s: Bytes): Option<Name> {
    var u := Upper(s);
    if u == "GET" then Some(GET) else if u == "SET" then Some(SET)
    else if u == "SETNX" then Some(SETNX) else if u == "SETEX" then Some(SETEX)
    else if u == "PSETEX" then Some(PSETEX) else if u == "DEL" then Some(DEL)
    else if u == "EXPIRE" then Some(EXPIRE) else if u == "PEXPIRE" then Some(PEXPIRE)
    else if u == "EXPIREAT" then Some(EXPIREAT) else if u == "PEXPIREAT" then Some(PEXPIREAT)
    else if u == "RPUSH" then Some(RPUSH) else if u == "SADD" then Some(SADD)
    else if u == "ZADD" then Some(ZADD) else if u == "HMSET" then Some(HMSET)
    else if u == "RENAME" then Some(RENAME) else if u == "RENAMENX" then Some(RENAMENX)
    else if u == "MOVE" then Some(MOVE) else if u == "FLUSHDB" then Some(FLUSHDB)
    else if u == "FLUSHALL" then Some(FLUSHALL) else if u == "PERSIST" then Some(PERSIST)
    else if u == "SELECT" then Some(SELECT) else None
  }

  lemma NameOfSpelling(n: Name)
    ensures NameOf(Spelling(n)) == Some(n)
  {
    hide Upper;
    UpperOfSpelling(n);
  }

  /** The same letters in any mixture of cases are the same command. */
  lemma CaseIsIgnored(s: Bytes, n: Name)
    requires |s| == |Spelling(n)|
    requires forall i :: 0 <= i < |s| ==> s[i] == Spelling(n)[i] || s[i] as int == Spelling(n)[i] as int + 32
    ensures NameOf(s) == Some(n)
  {
    Capitals(n);
    NameOfSpelling(n);
    UpperOfSpelling(n);
    hide Spelling;
    assert Upper(s) == Upper(Spelling(n));
  }

  lemma Capitals(n: Name)
    ensures forall i :: 0 <= i < |Spelling(n)| ==> 'A' <= Spelling(n)[i] <= 'Z'
  {
  }

  /** Nothing else is a command. */
  lemma OtherSpellings(s: Bytes)
    ensures NameOf(s).Some? ==> Upper(s) == Spelling(NameOf(s).value)
    ensures NameOf(s).None? ==> forall n :: Upper(s) != Spelling(n)
  {
    hide Upper;
  }

  lemma UpperOfSpelling(n: Name)
    ensures Upper(Spelling(n)) == Spelling(n)
  {
  }

  /** The arity column of the command table. */
  predicate ArityOk(n: Name, argc: nat) {
    match n
    case FLUSHDB | FLUSHALL => argc == 1
    case GET | PERSIST | SELECT => argc == 2
    case SETNX | EXPIRE | PEXPIRE | EXPIREAT | PEXPIREAT | RENAME | RENAMENX | MOVE => argc == 3
    case SETEX | PSETEX => argc == 4
    case DEL => argc >= 2
    case SET | RPUSH | SADD => argc >= 3
    case ZADD | HMSET => argc >= 4
  }

  /** A command with its arguments read. Error stands for a command that replies with an error before
      it looks at any key. Times are in milliseconds. */
  datatype Command =
    | Error
    | Get(key: Bytes)
    | SetTo(key: Bytes, text: Bytes, nx: bool, xx: bool, ttl: Option<int>)
    | Del(keys: seq<Bytes>)
    | Expire(key: Bytes, amount: int, relative: bool)
    | Add(kind: Kind, key: Bytes, rows: seq<Row>)
    | Rename(key: Bytes, newkey: Bytes, keepnew: bool)
    | Move(key: Bytes, dst: int)
    | FlushDb
    | FlushAll
    | Persist(key: Bytes)
    | Select(id: int)

  function ToRows(args: seq<Bytes>, width: nat): (rows: seq<Row>)
    requires width == 1 || (width == 2 && |args| % 2 == 0)
    ensures |args| == if width == 1 then |rows| else 2 * |rows|
    ensures forall i :: 0 <= i < |rows| ==> |rows[i]| == width
  {
    if args == [] then [] else [args[..width]] + ToRows(args[width..], width)
  }

  /** RPUSH, SADD, ZADD and HMSET; ZADD reads all its scores before it touches the key. */
  function ReadAdd(kind: Kind, argv: Argv): Command
    requires |argv| >= 3
  {
    if (|argv| - 2) % Width(kind) != 0 then Error
    else
      var rows := ToRows(argv[2..], Width(kind));
      if RowsOk(kind, rows) then Add(kind, argv[1], rows) else Error
  }

  /** The option loop of SET. */
  datatype SetOptions = SetOptions(nx: bool, xx: bool, expire: Option<Bytes>, seconds: bool)

  function ReadSetOptions(args: seq<Bytes>, o: SetOptions): Option<SetOptions> {
    if args == [] then Some(o)
    else
      var a := Upper(CString(args[0]));
      if a == "NX" then ReadSetOptions(args[1..], o.(nx := true))
      else if a == "XX" then ReadSetOptions(args[1..], o.(xx := true))
      else if a == "EX" && |args| > 1 then
        ReadSetOptions(args[2..], o.(expire := Some(args[1]), seconds := true))
      else if a == "PX" && |args| > 1 then
        ReadSetOptions(args[2..], o.(expire := Some(args[1]), seconds := false))
      else None
  }

  /** A string as the C library sees it: up to the first NUL byte. */
  function CString(s: Bytes): Bytes {
    if s == [] || s[0] == '\0' then [] else [s[0]] + CString(s[1..])
  }

  function ToMs(amount: int, seconds: bool): int {
    if seconds then amount * 1000 else amount
  }

  /** The checks setGenericCommand makes on an expire argument. */
  function ReadSet(key: Bytes, text: Bytes, o: SetOptions): Command {
    if o.expire.None? then SetTo(key, text, o.nx, o.xx, None)
    else
      var n := ParseInteger(o.expire.value);
      if n.None? || n.value <= 0 then Error
      else SetTo(key, text, o.nx, o.xx, Some(ToMs(n.value, o.seconds)))
  }

  function ReadExpire(key: Bytes, param: Bytes, seconds: bool, relative: bool): Command {
    var n := ParseInteger(param);
    if n.None? then Error else Expire(key, ToMs(n.value, seconds), relative)
  }

  const NO_OPTIONS := SetOptions(false, false, None, false)

  function ReadArguments(n: Name, argv: Argv): Command
    requires ArityOk(n, |argv|)
  {
    match n
    case GET => Get(argv[1])
    case SET =>
      var o := ReadSetOptions(argv[3..], NO_OPTIONS);
      if o.None? then Error else ReadSet(argv[1], argv[2], o.value)
    case SETNX => SetTo(argv[1], argv[2], true, false, None)
    case SETEX => ReadSet(argv[1], argv[3], SetOptions(false, false, Some(argv[2]), true))
    case PSETEX => ReadSet(argv[1], argv[3], SetOptions(false, false, Some(argv[2]), false))
    case DEL => Del(argv[1..])
    case EXPIRE => ReadExpire(argv[1], argv[2], true, true)
    case PEXPIRE => ReadExpire(argv[1], argv[2], false, true)
    case EXPIREAT => ReadExpire(argv[1], argv[2], true, false)
    case PEXPIREAT => ReadExpire(argv[1], argv[2], false, false)
    case RPUSH => ReadAdd(KList, argv)
    case SADD => ReadAdd(KSet, argv)
    case ZADD => ReadAdd(KZset, argv)
    case HMSET => ReadAdd(KHash, argv)
    case RENAME => Rename(argv[1], argv[2], false)
    case RENAMENX => Rename(argv[1], argv[2], true)
    case MOVE =>
      var id := ParseInteger(argv[2]);
      if id.Some? && 0 <= id.value < DBNUM then Move(argv[1], id.value) else Error
    case FLUSHDB => FlushDb
    case FLUSHALL => FlushAll
    case PERSIST => Persist(argv[1])
    case SELECT =>
      var id := ParseInteger(argv[1]);
      if id.Some? && 0 <= id.value < DBNUM then Select(id.value) else Error
  }

  /** None: no such command, or not with so many arguments. */
  function Read(argv: Argv): (c: Option<Command>)
    ensures c.Some? && c.value.Add? ==> RowsOk(c.value.kind, c.value.rows) && c.value.rows != []
    ensures c.Some? && c.value.SetTo? && c.value.ttl.Some? ==> c.value.ttl.value > 0
  {
    if argv == [] then None
    else
      var n := NameOf(argv[0]);
      if n.None? || !ArityOk(n.value, |argv|) then None else Some(ReadArguments(n.value, argv))
  }

  // ---------- Running a command ----------

  /** The readings of mstime() one command takes, in the order it takes them: the base of a relative
      expire, the lookups of its keys, the test or the base of the stored time, and the printing of
      the log entry. */
  datatype Clock = Clock(base: int, look: int, check: int, feed: int)

  predicate Ordered(c: Clock) {
    0 <= c.base <= c.look <= c.check <= c.feed
  }

  /** A command handed to the log, with the database it ran in. */
  datatype Fed = Fed(db: int, argv: Argv)

  datatype Effect = Effect(ks: Dataset, feds: seq<Fed>)

  function DelArgv(name: Bytes): Argv {
    ["DEL", name]
  }

  /** expireIfNeeded, as every lookup of a key runs it first. */
  function Lookup(ks: Dataset, k: Key, loading: bool, now: int): Effect {
    if !loading && k in ks && ks[k].Due(now)
    then Effect(Without(ks, k), [Fed(k.db, DelArgv(k.name))])
    else Effect(ks, [])
  }

  datatype Deleted = Deleted(ks: Dataset, feds: seq<Fed>, any: bool)

  /** The loop of DEL. */
  function DelKeys(ks: Dataset, db: int, keys: seq<Bytes>, loading: bool, now: int): Deleted {
    if keys == [] then Deleted(ks, [], false)
    else
      var k := Key(db, keys[0]);
      var l := Lookup(ks, k, loading, now);
      var rest := DelKeys(Without(l.ks, k), db, keys[1..], loading, now);
      Deleted(rest.ks, l.feds + rest.feds, k in l.ks || rest.any)
  }

  function InDb(ks: Dataset, db: int): set<Key> {
    set k | k in ks && k.db == db
  }

  function ExecSet(ks: Dataset, db: int, argv: Argv, c: Command, loading: bool, clock: Clock): Effect
    requires c.SetTo?
  {
    var k := Key(db, c.key);
    var l := Lookup(ks, k, loading, clock.look);
    if (c.nx && k in l.ks) || (c.xx && k !in l.ks) then l
    else
      var exp := if c.ttl.Some? then Some(clock.check + c.ttl.value) else None;
      Effect(l.ks[k := Entry(Str(c.text), exp)], l.feds + [Fed(db, argv)])
  }

  /** expireGenericCommand. */
  function ExecExpire(ks: Dataset, db: int, argv: Argv, c: Command, loading: bool, clock: Clock): Effect
    requires c.Expire?
  {
    var when := c.amount + (if c.relative then clock.base else 0);
    var k := Key(db, c.key);
    var l := Lookup(ks, k, loading, clock.look);
    if k !in l.ks then l
    else if when <= clock.check && !loading then
      Effect(Without(l.ks, k), l.feds + [Fed(db, DelArgv(c.key))])
    else Effect(l.ks[k := l.ks[k].(exp := Some(when))], l.feds + [Fed(db, argv)])
  }

  function ExecAdd(ks: Dataset, db: int, argv: Argv, c: Command, loading: bool, clock: Clock): Effect
    requires c.Add? && RowsOk(c.kind, c.rows)
  {
    var k := Key(db, c.key);
    var l := Lookup(ks, k, loading, clock.look);
    if k in l.ks && !IsKind(l.ks[k].val, c.kind) then l
    else
      var cur := if k in l.ks then l.ks[k] else Entry(EmptyObj(c.kind), None);
      Effect(l.ks[k := cur.(val := AddRows(c.kind, cur.val, c.rows))],
             if RowsChange(c.kind, cur.val, c.rows) then l.feds + [Fed(db, argv)] else l.feds)
  }

  /** renameGenericCommand. */
  function ExecRename(ks: Dataset, db: int, argv: Argv, c: Command, loading: bool, clock: Clock): Effect
    requires c.Rename?
  {
    var src, dst := Key(db, c.key), Key(db, c.newkey);
    if src == dst then Effect(ks, [])
    else
      var l := Lookup(ks, src, loading, clock.look);
      if src !in l.ks then l
      else
        var m := Lookup(l.ks, dst, loading, clock.look);
        if c.keepnew && dst in m.ks then Effect(m.ks, l.feds + m.feds)
        else
          var e := l.ks[src];
          var moved := Entry(e.val, if e.GetExpire() != -1 then Some(e.GetExpire()) else None);
          Effect(Without(m.ks[dst := moved], src), l.feds + m.feds + [Fed(db, argv)])
  }

  /** moveCommand: the value moves, its expire time does not. */
  function ExecMove(ks: Dataset, db: int, argv: Argv, c: Command, loading: bool, clock: Clock): Effect
    requires c.Move?
  {
    var src, dst := Key(db, c.key), Key(c.dst, c.key);
    if src == dst then Effect(ks, [])
    else
      var l := Lookup(ks, src, loading, clock.look);
      if src !in l.ks then l
      else
        var m := Lookup(l.ks, dst, loading, clock.look);
        if dst in m.ks then Effect(m.ks, l.feds + m.feds)
        else Effect(Without(m.ks[dst := Entry(l.ks[src].val, None)], src), l.feds + m.feds + [Fed(db, argv)])
  }

  /** Runs a command in a database. What is fed to the log is what call() propagates because the
      command counted a change, after the DELs of the keys found expired on the way. */
  function Exec(ks: Dataset, db: int, argv: Argv, c: Command, loading: bool, clock: Clock): Effect
    requires c.Add? ==> RowsOk(c.kind, c.rows)
  {
    match c
    case Error => Effect(ks, [])
    case Get(key) => Lookup(ks, Key(db, key), loading, clock.look)
    case SetTo(_, _, _, _, _) => ExecSet(ks, db, argv, c, loading, clock)
    case Del(keys) =>
      var d := DelKeys(ks, db, keys, loading, clock.look);
      Effect(d.ks, if d.any then d.feds + [Fed(db, argv)] else d.feds)
    case Expire(_, _, _) => ExecExpire(ks, db, argv, c, loading, clock)
    case Add(_, _, _) => ExecAdd(ks, db, argv, c, loading, clock)
    case Rename(_, _, _) => ExecRename(ks, db, argv, c, loading, clock)
    case Move(_, _) => ExecMove(ks, db, argv, c, loading, clock)
    case FlushDb =>
      var gone := InDb(ks, db);
      Effect(ks - gone, if gone != {} then [Fed(db, argv)] else [])
    case FlushAll => Effect(map[], [Fed(db, argv)])
    case Persist(key) =>
      var k := Key(db, key);
      if k in ks && ks[k].exp.Some? then Effect(ks[k := ks[k].(exp := None)], [Fed(db, argv)])
      else Effect(ks, [])
    case Select(_) => Effect(ks, [])
  }
}
