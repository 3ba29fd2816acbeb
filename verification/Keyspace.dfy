/** Values, keys and expire times as plain values: what the dataset of a server is, apart from how
    the dictionaries of db.c represent it. */
module Keyspace {
  import opened Wire

  datatype Option<+T> = None | Some(value: T)

  /** The types of a value that holds elements; each row added to it has a fixed number of strings:
      an element, a score and a member, or a field and a value. */
  datatype Kind = KList | KSet | KZset | KHash

  datatype Obj =
    | Str(text: Bytes)
    | List(items: seq<Bytes>)
    | Set(members: set<Bytes>)
    | Zset(scores: map<Bytes, int>)
    | Hash(fields: map<Bytes, Bytes>)

  type Row = seq<Bytes>

  predicate IsKind(o: Obj, kind: Kind) {
    match kind
    case KList => o.List?
    case KSet => o.Set?
    case KZset => o.Zset?
    case KHash => o.Hash?
  }

  function EmptyObj(kind: Kind): (o: Obj)
    ensures IsKind(o, kind)
  {
    match kind
    case KList => List([])
    case KSet => Set({})
    case KZset => Zset(map[])
    case KHash => Hash(map[])
  }

  function Width(kind: Kind): nat {
    if kind.KZset? || kind.KHash? then 2 else 1
  }

  /** getLongLongFromObject: the whole string, up to a NUL byte, is a number without leading blanks. */
  function ParseInteger(s: Bytes): Option<int> {
    var n := Strtoll(s);
    if s != [] && IsSpace(s[0]) then None
    else if n.rest != [] && n.rest[0] != '\0' then None
    else Some(n.value)
  }

  lemma ParseIntegerOfDecimal(n: int)
    ensures ParseInteger(Decimal(n)) == Some(n)
    ensures Strtoll(Decimal(n)).value == n
  {
    StrtollOfDecimal(n, []);
    assert Decimal(n) + [] == Decimal(n);
  }

  /** A number followed by anything but a NUL byte is refused. */
  lemma NumberAndMore(n: int, c: byte, rest: Bytes)
    requires !IsDigit(c) && c != '\0'
    ensures ParseInteger(Decimal(n) + ([c] + rest)).None?
  {
    StrtollOfDecimal(n, [c] + rest);
    hide Strtoll, Decimal;
  }

  /** So is what starts neither as a number nor with a NUL byte. */
  lemma NoNumber(s: Bytes)
    requires s != [] && !IsDigit(s[0]) && s[0] != '-' && s[0] != '+' && s[0] != '\0'
    ensures ParseInteger(s).None?
  {
  }

  predicate RowOk(kind: Kind, row: Row) {
    |row| == Width(kind) && (kind.KZset? ==> ParseInteger(row[0]).Some?)
  }

  predicate RowsOk(kind: Kind, rows: seq<Row>) {
    forall i :: 0 <= i < |rows| ==> RowOk(kind, rows[i])
  }

  /** One turn of the loop in RPUSH, SADD, ZADD or HMSET. */
  function AddRow(kind: Kind, o: Obj, row: Row): (r: Obj)
    requires IsKind(o, kind) && RowOk(kind, row)
    ensures IsKind(r, kind)
  {
    match kind
    case KList => List(o.items + [row[0]])
    case KSet => Set(o.members + {row[0]})
    case KZset => Zset(o.scores[row[1] := ParseInteger(row[0]).value])
    case KHash => Hash(o.fields[row[0] := row[1]])
  }

  /** Whether that turn counts as a change: SADD and ZADD only count what is new. */
  predicate RowChanges(kind: Kind, o: Obj, row: Row)
    requires IsKind(o, kind) && RowOk(kind, row)
  {
    match kind
    case KList => true
    case KSet => row[0] !in o.members
    case KZset => row[1] !in o.scores || o.scores[row[1]] != ParseInteger(row[0]).value
    case KHash => true
  }

  function AddRows(kind: Kind, o: Obj, rows: seq<Row>): (r: Obj)
    requires IsKind(o, kind) && RowsOk(kind, rows)
    ensures IsKind(r, kind)
    decreases rows
  {
    if rows == [] then o else AddRows(kind, AddRow(kind, o, rows[0]), rows[1..])
  }

  predicate RowsChange(kind: Kind, o: Obj, rows: seq<Row>)
    requires IsKind(o, kind) && RowsOk(kind, rows)
    decreases rows
  {
    rows != [] && (RowChanges(kind, o, rows[0]) || RowsChange(kind, AddRow(kind, o, rows[0]), rows[1..]))
  }

  lemma {:induction false} AddRowsSplit(kind: Kind, o: Obj, a: seq<Row>, b: seq<Row>)
    requires IsKind(o, kind) && RowsOk(kind, a) && RowsOk(kind, b)
    ensures RowsOk(kind, a + b)
    ensures AddRows(kind, o, a + b) == AddRows(kind, AddRows(kind, o, a), b)
    decreases a
  {
    if a == [] {
      assert a + b == b;
    } else {
      AddRowsSplit(kind, AddRow(kind, o, a[0]), a[1..], b);
      assert (a + b)[1..] == a[1..] + b;
    }
  }

  /** An uncounted command had no effect on the value. */
  lemma {:induction false} UnchangedRows(kind: Kind, o: Obj, rows: seq<Row>)
    requires IsKind(o, kind) && RowsOk(kind, rows) && !RowsChange(kind, o, rows)
    ensures AddRows(kind, o, rows) == o
    decreases rows
  {
    if rows != [] {
      assert AddRow(kind, o, rows[0]) == o;
      UnchangedRows(kind, o, rows[1..]);
    }
  }

  predicate IsEmptyObj(o: Obj) {
    match o
    case Str(_) => false
    case List(items) => items == []
    case Set(members) => members == {}
    case Zset(scores) => scores == map[]
    case Hash(fields) => fields == map[]
  }

  lemma {:induction false} AddedIsNotEmpty(kind: Kind, o: Obj, rows: seq<Row>)
    requires IsKind(o, kind) && RowsOk(kind, rows)
    requires rows != [] || !IsEmptyObj(o)
    ensures !IsEmptyObj(AddRows(kind, o, rows))
    decreases rows
  {
    if rows != [] {
      var next := AddRow(kind, o, rows[0]);
      match kind {
        case KList => assert next.items[|o.items|] == rows[0][0];
        case KSet => assert rows[0][0] in next.members;
        case KZset => assert rows[0][1] in next.scores;
        case KHash => assert rows[0][0] in next.fields;
      }
      AddedIsNotEmpty(kind, next, rows[1..]);
    }
  }

  // ---------- The dataset ----------

  datatype Key = Key(db: int, name: Bytes)

  datatype Entry = Entry(val: Obj, exp: Option<int>) {
    /** getExpire: -1 stands for no expire time. */
    function GetExpire(): int {
      if exp.Some? then exp.value else -1
    }

    /** The test of expireIfNeeded at clock reading now. */
    predicate Due(now: int) {
      GetExpire() >= 0 && now > GetExpire()
    }
  }

  /** All databases of a server. */
  type Dataset = map<Key, Entry>

  function Without(ks: Dataset, k: Key): (r: Dataset)
    ensures r.Keys == ks.Keys - {k}
    ensures forall j :: j in r ==> r[j] == ks[j]
  {
    map j | j in ks && j != k :: ks[j]
  }
}
