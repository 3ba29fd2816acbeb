/** The text protocol of the append only file: how a command is printed into the log and how the
    loader reads it back, one command at a time. */
module Wire {

  /** One byte of a file, a pipe or a string value. */
  type byte = c: char | c as int < 256 witness 'a'
  type Bytes = seq<byte>
  /** The arguments of one command, its name first. */
  type Argv = seq<Bytes>

  const CRLF: Bytes := "\r\n"
  const NL: Bytes := "\n"

  lemma Assoc<T>(a: seq<T>, b: seq<T>, c: seq<T>)
    ensures a + b + c == a + (b + c)
  {
  }

  lemma Assoc4<T>(a: seq<T>, b: seq<T>, c: seq<T>, d: seq<T>)
    ensures a + b + c + d == a + (b + c + d)
  {
  }

  // ---------- Decimal numbers ----------

  function Digit(d: nat): byte
    requires d < 10
  {
    (('0' as int) + d) as char
  }

  predicate IsDigit(c: byte) {
    '0' <= c <= '9'
  }

  /** The C locale's isspace. */
  predicate IsSpace(c: byte) {
    c == ' ' || '\t' <= c <= '\r'
  }

  function Digits(n: nat): (s: Bytes)
    ensures |s| > 0
    ensures forall i :: 0 <= i < |s| ==> IsDigit(s[i])
  {
    if n < 10 then [Digit(n)] else Digits(n / 10) + [Digit(n % 10)]
  }

  /** ll2string, and "%d" and "%lu" of the printf family. */
  function Decimal(n: int): Bytes {
    if n < 0 then "-" + Digits(-n) else Digits(n)
  }

  /** What strtoll leaves behind: the value, and the text from the first character it did not use. */
  datatype Number = Number(value: int, rest: Bytes)

  function ParseDigits(s: Bytes, acc: nat): (r: Number)
    ensures r.value >= acc
  {
    if s != [] && IsDigit(s[0])
    then ParseDigits(s[1..], acc * 10 + (s[0] as int - '0' as int))
    else Number(acc, s)
  }

  function SkipSpaces(s: Bytes): Bytes {
    if s != [] && IsSpace(s[0]) then SkipSpaces(s[1..]) else s
  }

  /** strtoll(s, &end, 10), also atoi and strtol. Without any digit nothing is used. */
  function Strtoll(s: Bytes): Number {
    var t := SkipSpaces(s);
    if t != [] && (t[0] == '-' || t[0] == '+') then
      if |t| > 1 && IsDigit(t[1]) then
        var m := ParseDigits(t[1..], 0);
        Number(if t[0] == '-' then -m.value else m.value, m.rest)
      else Number(0, s)
    else if t != [] && IsDigit(t[0]) then ParseDigits(t, 0)
    else Number(0, s)
  }

  predicate NoLeadingDigit(s: Bytes) {
    s == [] || !IsDigit(s[0])
  }

  lemma {:induction false} ParseDigitsOfDigits(n: nat, rest: Bytes)
    ensures ParseDigits(Digits(n) + rest, 0) == ParseDigits(rest, n)
  {
    if n < 10 {
      assert (Digits(n) + rest)[1..] == rest;
    } else {
      var last := [Digit(n % 10)];
      assert Digits(n) + rest == Digits(n / 10) + (last + rest);
      ParseDigitsOfDigits(n / 10, last + rest);
      assert (last + rest)[1..] == rest;
    }
  }

  /** Printing a number and reading it back, whatever non-digit follows it. */
  lemma StrtollOfDecimal(n: int, rest: Bytes)
    requires NoLeadingDigit(rest)
    ensures Strtoll(Decimal(n) + rest) == Number(n, rest)
  {
    hide Digits, ParseDigits;
    var m := if n < 0 then -n else n;
    ParseDigitsOfDigits(m, rest);
    ParseDigitsStops(m, rest);
    var d := Digits(m) + rest;
    if n < 0 {
      assert (Decimal(n) + rest)[1..] == d;
    } else {
      assert SkipSpaces(d) == d;
    }
  }

  lemma ParseDigitsStops(n: nat, rest: Bytes)
    requires NoLeadingDigit(rest)
    ensures ParseDigits(rest, n) == Number(n, rest)
  {
  }

  lemma {:induction false} DigitsLeadsNonZero(n: nat)
    requires n > 0
    ensures Digits(n)[0] != '0'
  {
    if n >= 10 {
      DigitsLeadsNonZero(n / 10);
    }
  }

  // ---------- Printing a command ----------

  /** A count line: '*' before the number of arguments, '$' before the length of one. */
  function Header(prefix: byte, n: nat): (h: Bytes)
    ensures |h| > 3
  {
    [prefix] + Decimal(n) + CRLF
  }

  function EncodeBulk(s: Bytes): Bytes {
    Header('$', |s|) + s + CRLF
  }

  function EncodeBulks(argv: Argv): Bytes {
    if argv == [] then [] else EncodeBulk(argv[0]) + EncodeBulks(argv[1..])
  }

  function Encode(argv: Argv): (b: Bytes)
    ensures |b| > 0
  {
    Header('*', |argv|) + EncodeBulks(argv)
  }

  function EncodeAll(log: seq<Argv>): Bytes {
    if log == [] then [] else Encode(log[0]) + EncodeAll(log[1..])
  }

  lemma {:induction false} EncodeBulksSplit(a: Argv, b: Argv)
    ensures EncodeBulks(a + b) == EncodeBulks(a) + EncodeBulks(b)
  {
    hide EncodeBulk;
    if a == [] {
      assert a + b == b;
    } else {
      EncodeBulksSplit(a[1..], b);
      assert (a + b)[1..] == a[1..] + b;
      Assoc(EncodeBulk(a[0]), EncodeBulks(a[1..]), EncodeBulks(b));
    }
  }

  lemma {:induction false} EncodeAllSplit(a: seq<Argv>, b: seq<Argv>)
    ensures EncodeAll(a + b) == EncodeAll(a) + EncodeAll(b)
  {
    hide Encode;
    if a == [] {
      assert a + b == b;
    } else {
      EncodeAllSplit(a[1..], b);
      assert (a + b)[1..] == a[1..] + b;
      Assoc(Encode(a[0]), EncodeAll(a[1..]), EncodeAll(b));
    }
  }

  lemma EncodeAllOne(argv: Argv)
    ensures EncodeAll([argv]) == Encode(argv)
  {
    assert [argv][1..] == [];
    assert EncodeAll([argv]) == Encode(argv) + [];
  }

  lemma EncodeBulksNext(argv: Argv, j: nat)
    requires j < |argv|
    ensures EncodeBulks(argv[..j + 1]) == EncodeBulks(argv[..j]) + EncodeBulk(argv[j])
  {
    hide EncodeBulk;
    EncodeBulksSplit(argv[..j], [argv[j]]);
    assert argv[..j + 1] == argv[..j] + [argv[j]];
    assert EncodeBulks([argv[j]]) == EncodeBulk(argv[j]) + [];
  }

  /** catAppendOnlyGenericCommand: the header line and then one bulk after the other. */
  method CatAppendOnlyGenericCommand(dst: Bytes, argv: Argv) returns (out: Bytes)
    ensures out == dst + Encode(argv)
  {
    hide Header;
    out := dst + Header('*', |argv|);
    var j := 0;
    while j < |argv|
      invariant 0 <= j <= |argv|
      invariant out == dst + Header('*', |argv|) + EncodeBulks(argv[..j])
    {
      EncodeBulksNext(argv, j);
      ghost var before, h := out, Header('$', |argv[j]|);
      out := out + Header('$', |argv[j]|);
      out := out + argv[j];
      out := out + CRLF;
      Assoc4(before, h, argv[j], CRLF);
      Assoc(dst + Header('*', |argv|), EncodeBulks(argv[..j]), EncodeBulk(argv[j]));
      j := j + 1;
    }
    assert argv[..j] == argv;
    Assoc(dst, Header('*', |argv|), EncodeBulks(argv));
  }

  // ---------- Reading a command ----------

  /** What fgets returned: the text up to and including a newline, or up to the end of the file, in
      which case the end of file indicator is set. */
  datatype Line = Line(text: Bytes, rest: Bytes, eof: bool)

  function FGets(b: Bytes): (l: Line)
    ensures b == l.text + l.rest
    ensures b != [] ==> l.text != [] && l.text[0] == b[0]
    ensures l.eof ==> l.rest == []
  {
    if b == [] then Line([], [], true)
    else if b[0] == '\n' then Line([b[0]], b[1..], false)
    else
      var l := FGets(b[1..]);
      Line([b[0]] + l.text, l.rest, l.eof)
  }

  /** How one turn of the loading loop can end before the command is run. Short is a read error with
      the end of file indicator set, Fatal any other way of giving up on the file. */
  datatype Parsed = Got(argv: Argv, rest: Bytes) | AtEnd | Short | Fatal | Malformed

  function ParseArgs(b: Bytes, n: nat): (p: Parsed)
    ensures p.Got? ==> |p.argv| == n && |p.rest| <= |b|
    ensures !p.AtEnd?
    decreases n
  {
    if n == 0 then Got([], b)
    else if b == [] then Short
    else
      var l := FGets(b);
      if l.text[0] != '$' then Malformed
      else
        var len := Strtoll(l.text[1..]).value;
        // A negative length becomes a huge unsigned one, which cannot be allocated.
        if len < 0 then Fatal
        else if |l.rest| < len then Short
        else if |l.rest| - len < 2 then Short
        else
          // The two bytes after the argument are skipped without a look at them.
          var more := ParseArgs(l.rest[len + 2..], n - 1);
          if more.Got? then more.(argv := [l.rest[..len]] + more.argv) else more
  }

  function ParseCommand(b: Bytes): (p: Parsed)
    ensures p.Got? ==> |p.argv| > 0 && |p.rest| < |b|
    ensures p.AtEnd? <==> b == []
  {
    if b == [] then AtEnd
    else
      var l := FGets(b);
      if l.text[0] != '*' then Malformed
      else if |l.text| == 1 || l.text[1] == '\0' then (if l.eof then Short else Fatal)
      else
        var argc := Strtoll(l.text[1..]).value;
        if argc < 1 then Malformed else ParseArgs(l.rest, argc)
  }

  lemma {:induction false} FGetsOfLine(text: Bytes, rest: Bytes)
    requires forall i :: 0 <= i < |text| ==> text[i] != '\n'
    ensures FGets(text + NL + rest) == Line(text + NL, rest, false)
  {
    if text == [] {
      assert text + NL + rest == NL + rest;
      assert (NL + rest)[1..] == rest;
    } else {
      FGetsOfLine(text[1..], rest);
      var b := text + NL + rest;
      assert b[0] == text[0];
      assert b[1..] == text[1..] + NL + rest;
      Assoc([text[0]], text[1..], NL);
      assert [text[0]] + text[1..] == text;
    }
  }

  lemma {:induction false} FGetsOfLastLine(text: Bytes)
    requires forall i :: 0 <= i < |text| ==> text[i] != '\n'
    ensures FGets(text) == Line(text, [], true)
  {
    if text != [] {
      FGetsOfLastLine(text[1..]);
      assert [text[0]] + text[1..] == text;
    }
  }

  lemma FGetsOfHeader(prefix: byte, n: nat, rest: Bytes)
    requires prefix != '\n'
    ensures FGets(Header(prefix, n) + rest) == Line(Header(prefix, n), rest, false)
    ensures Strtoll(Header(prefix, n)[1..]).value == n
  {
    var text := [prefix] + Decimal(n) + "\r";
    FGetsOfLine(text, rest);
    assert Header(prefix, n) == text + NL;
    assert Header(prefix, n)[1..] == Decimal(n) + CRLF;
    StrtollOfDecimal(n, CRLF);
  }

  lemma ParseArgsStep(a: Bytes, more: Bytes, argc: nat)
    requires argc > 0
    ensures var p := ParseArgs(Header('$', |a|) + (a + CRLF + more), argc);
            var q := ParseArgs(more, argc - 1);
            p == if q.Got? then Got([a] + q.argv, q.rest) else q
  {
    FGetsOfHeader('$', |a|, a + CRLF + more);
    assert (a + CRLF + more)[..|a|] == a;
    assert (a + CRLF + more)[|a| + 2..] == more;
  }

  lemma {:induction false} ParseArgsOfEncode(argv: Argv, rest: Bytes)
    ensures ParseArgs(EncodeBulks(argv) + rest, |argv|) == Got(argv, rest)
  {
    hide Header, FGets, Strtoll;
    if argv == [] {
      assert EncodeBulks(argv) + rest == rest;
    } else {
      var a, more := argv[0], EncodeBulks(argv[1..]) + rest;
      Assoc(EncodeBulk(a), EncodeBulks(argv[1..]), rest);
      Assoc4(Header('$', |a|), a, CRLF, more);
      ParseArgsStep(a, more, |argv|);
      ParseArgsOfEncode(argv[1..], rest);
      assert [a] + argv[1..] == argv;
    }
  }

  /** Whatever bytes its arguments hold, a printed command is read back as it was, and the reader
      stands exactly behind it. */
  lemma RoundTrip(argv: Argv, rest: Bytes)
    requires argv != []
    ensures ParseCommand(Encode(argv) + rest) == Got(argv, rest)
  {
    assert Encode(argv) + rest == Header('*', |argv|) + (EncodeBulks(argv) + rest);
    FGetsOfHeader('*', |argv|, EncodeBulks(argv) + rest);
    ParseArgsOfEncode(argv, rest);
  }

  // ---------- What is not a command ----------

  /** Arguments that are well formed are read as such, whatever becomes of the further ones. */
  lemma {:induction false} ParseArgsPrefix(argv: Argv, rest: Bytes, more: nat)
    ensures var p, q := ParseArgs(EncodeBulks(argv) + rest, |argv| + more), ParseArgs(rest, more);
            p == if q.Got? then Got(argv + q.argv, q.rest) else q
    decreases argv
  {
    hide Header, FGets, Strtoll, ParseArgs;
    var q := ParseArgs(rest, more);
    if argv == [] {
      assert EncodeBulks(argv) + rest == rest;
      if q.Got? {
        assert argv + q.argv == q.argv;
      }
    } else {
      var a, tail := argv[0], EncodeBulks(argv[1..]) + rest;
      Assoc(EncodeBulk(a), EncodeBulks(argv[1..]), rest);
      Assoc4(Header('$', |a|), a, CRLF, tail);
      ParseArgsStep(a, tail, |argv| + more);
      ParseArgsPrefix(argv[1..], rest, more);
      if q.Got? {
        assert [a] + (argv[1..] + q.argv) == argv + q.argv;
      }
    }
  }

  lemma ParseArgsAfterHeader(argc: nat, rest: Bytes)
    requires argc > 0
    ensures ParseCommand(Header('*', argc) + rest) == ParseArgs(rest, argc)
  {
    FGetsOfHeader('*', argc, rest);
    hide Strtoll, FGets, ParseArgs;
  }

  /** Text that does not start with an asterisk. */
  lemma StrangeStart(b: Bytes)
    requires b != [] && b[0] != '*'
    ensures ParseCommand(b).Malformed?
  {
  }

  /** A count of arguments that is not positive. */
  lemma StrangeCount(n: int, rest: Bytes)
    requires n < 1
    ensures ParseCommand("*" + Decimal(n) + CRLF + rest).Malformed?
  {
    var line := "*" + Decimal(n) + "\r";
    assert "*" + Decimal(n) + CRLF + rest == line + NL + rest;
    DecimalIsOneLine(n);
    FGetsOfLine(line, rest);
    StrtollOfDecimal(n, CRLF);
    assert (line + NL)[1..] == Decimal(n) + CRLF;
    hide Strtoll, FGets, ParseArgs, Decimal;
  }

  lemma DecimalIsOneLine(n: int)
    ensures Decimal(n) != [] && forall i :: 0 <= i < |Decimal(n)| ==> Decimal(n)[i] != '\n' && Decimal(n)[i] != '\0'
  {
  }

  /** What stops the reader behind any number of good arguments. */
  lemma StoppedAt(argv: Argv, more: nat, bad: Bytes)
    requires more > 0 && !ParseArgs(bad, more).Got?
    ensures ParseCommand(Header('*', |argv| + more) + (EncodeBulks(argv) + bad)) == ParseArgs(bad, more)
  {
    hide EncodeBulks, Header, ParseCommand, ParseArgs;
    ParseArgsAfterHeader(|argv| + more, EncodeBulks(argv) + bad);
    ParseArgsPrefix(argv, bad, more);
  }

  /** After any number of good arguments, one that does not start with a dollar sign. */
  lemma StrangeArgument(argv: Argv, more: nat, bad: Bytes)
    requires more > 0 && bad != [] && bad[0] != '$'
    ensures ParseCommand(Header('*', |argv| + more) + (EncodeBulks(argv) + bad)).Malformed?
  {
    hide EncodeBulks, Header, ParseCommand;
    BadArgument(bad, more);
    StoppedAt(argv, more, bad);
    hide ParseArgs;
  }

  lemma BadArgument(rest: Bytes, more: nat)
    requires more > 0 && rest != [] && rest[0] != '$'
    ensures ParseArgs(rest, more).Malformed?
  {
  }

  /** After any number of good arguments, one whose length is negative. */
  lemma StrangeLength(argv: Argv, more: nat, n: int, bad: Bytes, rest: Bytes)
    requires more > 0 && n < 0 && bad == "$" + Decimal(n) + CRLF + rest
    ensures ParseCommand(Header('*', |argv| + more) + (EncodeBulks(argv) + bad)).Fatal?
  {
    hide EncodeBulks, Header, Decimal, ParseCommand, ParseArgs;
    BadLength(n, more, rest);
    StoppedAt(argv, more, bad);
  }

  lemma BadLength(n: int, more: nat, rest: Bytes)
    requires more > 0 && n < 0
    ensures ParseArgs("$" + Decimal(n) + CRLF + rest, more).Fatal?
  {
    hide Decimal;
    var line := "$" + Decimal(n) + "\r";
    assert "$" + Decimal(n) + CRLF + rest == line + NL + rest;
    DecimalIsOneLine(n);
    FGetsOfLine(line, rest);
    StrtollOfDecimal(n, CRLF);
    assert (line + NL)[1..] == Decimal(n) + CRLF;
    hide Strtoll, FGets;
  }

  // ---------- A log cut short ----------

  ghost predicate StrictPrefix(p: Bytes, whole: Bytes) {
    |p| < |whole| && p == whole[..|p|]
  }

  /** The digits that are left of a torn number still read as a number, and not as zero. */
  lemma StrtollOfTornNumber(n: nat, q: Bytes)
    requires q != [] && q[0] == Digits(n)[0]
    ensures Strtoll(q).value >= 0
    ensures n > 0 ==> Strtoll(q).value > 0
  {
    assert SkipSpaces(q) == q;
    assert ParseDigits(q, 0) == ParseDigits(q[1..], q[0] as int - '0' as int);
    if n > 0 {
      DigitsLeadsNonZero(n);
    }
  }

  /** A strict prefix that covers all of the first part is that part and a strict prefix of the second. */
  lemma DropWhole(a: Bytes, b: Bytes, p: Bytes) returns (r: Bytes)
    requires StrictPrefix(p, a + b) && |p| >= |a|
    ensures p == a + r && StrictPrefix(r, b)
  {
    r := p[|a|..];
  }

  /** A count line that lost its newline is still one line, ends the file, and shows a number. */
  lemma FGetsOfTornHeader(prefix: byte, n: nat, p: Bytes)
    requires prefix != '\n' && p != [] && StrictPrefix(p, Header(prefix, n))
    ensures FGets(p) == Line(p, [], true) && p[0] == prefix
    ensures |p| > 1 ==> p[1] != '\0'
    ensures Strtoll(p[1..]).value >= 0
    ensures |p| > 1 && n > 0 ==> Strtoll(p[1..]).value > 0
  {
    hide Strtoll, Digits;
    var h := Header(prefix, n);
    forall i | 0 <= i < |p|
      ensures p[i] != '\n'
    {
      assert p[i] == h[i];
      HeaderText(prefix, n, i);
    }
    FGetsOfLastLine(p);
    assert p[0] == h[0];
    if |p| > 1 {
      assert p[1] == h[1];
      HeaderText(prefix, n, 1);
      StrtollOfTornNumber(n, p[1..]);
    } else {
      assert p[1..] == [];
      StrtollOfNothing();
    }
  }

  lemma StrtollOfNothing()
    ensures Strtoll([]) == Number(0, [])
  {
  }

  lemma HeaderText(prefix: byte, n: nat, i: nat)
    requires prefix != '\n' && i < |Header(prefix, n)| - 1
    ensures Header(prefix, n)[i] != '\n'
    ensures Header(prefix, n)[0] == prefix
    ensures |Header(prefix, n)| > 1 && Header(prefix, n)[1] == Digits(n)[0]
  {
    var d := Digits(n);
    assert Header(prefix, n) == [prefix] + d + CRLF;
    if 1 <= i < 1 + |d| {
      assert Header(prefix, n)[i] == d[i - 1];
    }
  }

  lemma TornBulkIsShort(a: Bytes, more: Bytes, argc: nat, p: Bytes)
    requires p != [] && StrictPrefix(p, Header('$', |a|) + (a + CRLF + more))
    requires argc > 0
    ensures |p| < |Header('$', |a|)| + |a| + 2 ==> ParseArgs(p, argc) == Short
  {
    var h := Header('$', |a|);
    if |p| < |h| {
      assert p == h[..|p|];
      FGetsOfTornHeader('$', |a|, p);
    } else {
      var q := p[|h|..];
      assert p == h + q;
      FGetsOfHeader('$', |a|, q);
    }
  }

  lemma {:induction false} ParseArgsOfTorn(argv: Argv, p: Bytes)
    requires StrictPrefix(p, EncodeBulks(argv))
    ensures ParseArgs(p, |argv|) == Short
  {
    if p != [] {
      var a, h, more := argv[0], Header('$', |argv[0]|), EncodeBulks(argv[1..]);
      Assoc4(h, a, CRLF, more);
      TornBulkIsShort(a, more, |argv|, p);
      if |p| >= |h| + |a| + 2 {
        var r := DropWhole(h + a + CRLF, more, p);
        ParseArgsOfTorn(argv[1..], r);
        Assoc4(h, a, CRLF, r);
        ParseArgsStep(a, r, |argv|);
      }
    }
  }

  lemma ParseArgsOfNothing(argc: int)
    ensures argc > 0 ==> ParseArgs([], argc) == Short
  {
  }

  /** A command cut anywhere but at its very start or end makes the reader meet the end of the file;
      it is never mistaken for another command nor for a format error. */
  lemma TornCommandIsShort(argv: Argv, p: Bytes)
    requires argv != [] && p != [] && StrictPrefix(p, Encode(argv))
    ensures ParseCommand(p) == Short
  {
    hide Strtoll, Header, FGets, ParseArgs, EncodeBulks;
    var h := Header('*', |argv|);
    if |p| < |h| {
      assert StrictPrefix(p, h);
      FGetsOfTornHeader('*', |argv|, p);
      ParseArgsOfNothing(Strtoll(p[1..]).value);
    } else {
      var q := DropWhole(h, EncodeBulks(argv), p);
      FGetsOfHeader('*', |argv|, q);
      HeaderText('*', |argv|, 0);
      ParseArgsOfTorn(argv, q);
    }
  }
}
