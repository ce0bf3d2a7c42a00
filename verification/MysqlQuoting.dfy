/** Quoting of names, grant patterns and strings for MySQL and MariaDB, against the
    server's reading of them: sections 11.1.1, 11.2 and 15.7.1.6 of the MySQL 8.4
    Reference Manual, default SQL mode. */
module MysqlQuoting {

  import opened Basics

  /** `str::replace` of one character. */
  function Replace(s: string, c: char, with: string): string {
    if s == [] then [] else (if s[0] == c then with else [s[0]]) + Replace(s[1..], c, with)
  }

  function QuoteIdent(name: string): string {
    "`" + Replace(name, '`', "``") + "`"
  }

  function EscapePattern(name: string): string {
    Replace(Replace(Replace(name, '\\', "\\\\"), '_', "\\_"), '%', "\\%")
  }

  function QuoteGrantDb(name: string): string {
    QuoteIdent(EscapePattern(name))
  }

  function QuoteString(value: string): string {
    "'" + Replace(Replace(value, '\\', "\\\\"), '\'', "''") + "'"
  }

  // ---- the server's side -------------------------------------------------------------------

  datatype Lexed = Lexed(text: string, rest: string)

  function Prefixed(c: char, l: Option<Lexed>): Option<Lexed> {
    if l.Some? then Some(Lexed([c] + l.value.text, l.value.rest)) else None
  }

  /** The inside of a backtick-quoted identifier, up to its closing backtick. */
  function LexIdentBody(s: string): Option<Lexed> {
    if s == [] then None
    else if s[0] != '`' then Prefixed(s[0], LexIdentBody(s[1..]))
    else if |s| > 1 && s[1] == '`' then Prefixed('`', LexIdentBody(s[2..]))
    else Some(Lexed([], s[1..]))
  }

  function LexIdent(s: string): Option<Lexed> {
    if s != [] && s[0] == '`' then LexIdentBody(s[1..]) else None
  }

  /** A backslash escape inside a string literal; `\%` and `\_` keep the backslash. */
  function Unescaped(c: char): string {
    match c
    case '0' => [0 as char]
    case 'b' => [8 as char]
    case 'n' => "\n"
    case 'r' => "\r"
    case 't' => "\t"
    case 'Z' => [26 as char]
    case '%' => "\\%"
    case '_' => "\\_"
    case _ => [c]
  }

  function LexStringBody(s: string): Option<Lexed> {
    if s == [] then None
    else if s[0] == '\\' then
      if |s| == 1 then None
      else
        var l := LexStringBody(s[2..]);
        if l.Some? then Some(Lexed(Unescaped(s[1]) + l.value.text, l.value.rest)) else None
    else if s[0] != '\'' then Prefixed(s[0], LexStringBody(s[1..]))
    else if |s| > 1 && s[1] == '\'' then Prefixed('\'', LexStringBody(s[2..]))
    else Some(Lexed([], s[1..]))
  }

  function LexString(s: string): Option<Lexed> {
    if s != [] && s[0] == '\'' then LexStringBody(s[1..]) else None
  }

  /** Whether a grant's database pattern covers a database name. */
  predicate Covers(pattern: string, name: string)
    decreases |pattern|
  {
    if pattern == [] then name == []
    else if pattern[0] == '%' then exists k :: 0 <= k <= |name| && Covers(pattern[1..], name[k..])
    else if name == [] then false
    else if pattern[0] == '_' then Covers(pattern[1..], name[1..])
    else if pattern[0] == '\\' && |pattern| > 1 then name[0] == pattern[1] && Covers(pattern[2..], name[1..])
    else name[0] == pattern[0] && Covers(pattern[1..], name[1..])
  }

  // ---- round trips ---------------------------------------------------------------------------

  predicate EndsBefore(rest: string, quote: char) {
    rest == [] || rest[0] != quote
  }

  function EscapeIdentChar(c: char): string {
    if c == '`' then "``" else [c]
  }

  lemma {:induction false} LexIdentStep(c: char, tail: string)
    ensures LexIdentBody(EscapeIdentChar(c) + tail) == Prefixed(c, LexIdentBody(tail))
  {
    var s := EscapeIdentChar(c) + tail;
    if c == '`' { assert s[2..] == tail; } else { assert s[1..] == tail; }
  }

  lemma {:induction false} IdentBodyRoundTrip(name: string, rest: string)
    requires EndsBefore(rest, '`')
    ensures LexIdentBody(Replace(name, '`', "``") + "`" + rest) == Some(Lexed(name, rest))
  {
    if name == [] {
      assert Replace(name, '`', "``") + "`" + rest == "`" + rest && ("`" + rest)[1..] == rest;
    } else {
      var tail := Replace(name[1..], '`', "``") + "`" + rest;
      assert Replace(name, '`', "``") + "`" + rest == EscapeIdentChar(name[0]) + tail;
      LexIdentStep(name[0], tail);
      IdentBodyRoundTrip(name[1..], rest);
      assert name == [name[0]] + name[1..];
    }
  }

  /** A quoted identifier is read back exactly, whatever follows but a backtick. */
  lemma IdentRoundTrip(name: string, rest: string)
    requires EndsBefore(rest, '`')
    ensures LexIdent(QuoteIdent(name) + rest) == Some(Lexed(name, rest))
  {
    var body := Replace(name, '`', "``") + "`" + rest;
    assert QuoteIdent(name) + rest == "`" + body && ("`" + body)[1..] == body;
    IdentBodyRoundTrip(name, rest);
  }

  function EscapeStringChar(c: char): string {
    if c == '\\' then "\\\\" else if c == '\'' then "''" else [c]
  }

  function EscapePatternChar(c: char): string {
    if c in {'\\', '_', '%'} then ['\\', c] else [c]
  }

  lemma {:induction false} ReplaceConcat(a: string, b: string, c: char, with: string)
    ensures Replace(a + b, c, with) == Replace(a, c, with) + Replace(b, c, with)
  {
    if a == [] {
      assert a + b == b;
    } else {
      assert (a + b)[1..] == a[1..] + b;
      ReplaceConcat(a[1..], b, c, with);
    }
  }

  lemma ReplaceOne(x: char, c: char, with: string)
    ensures Replace([x], c, with) == if x == c then with else [x]
  {
    assert [x][1..] == [];
  }

  lemma ReplaceTwo(x: char, y: char, c: char, with: string)
    ensures Replace([x, y], c, with) == (if x == c then with else [x]) + (if y == c then with else [y])
  {
    assert [x, y] == [x] + [y];
    ReplaceConcat([x], [y], c, with);
    ReplaceOne(x, c, with);
    ReplaceOne(y, c, with);
  }

  /** The three replacements in sequence are one per-character escape. */
  lemma {:induction false} EscapePatternStep(c: char, name: string)
    ensures EscapePattern([c] + name) == EscapePatternChar(c) + EscapePattern(name)
  {
    ReplaceConcat([c], name, '\\', "\\\\");
    ReplaceOne(c, '\\', "\\\\");
    var one := if c == '\\' then "\\\\" else [c];
    ReplaceConcat(one, Replace(name, '\\', "\\\\"), '_', "\\_");
    ReplaceOne(c, '_', "\\_");
    ReplaceTwo('\\', '\\', '_', "\\_");
    assert ['\\'] + ['\\'] == "\\\\" && ['\\'] + ['_'] == "\\_";
    var two := if c == '\\' then "\\\\" else if c == '_' then "\\_" else [c];
    ReplaceConcat(two, Replace(Replace(name, '\\', "\\\\"), '_', "\\_"), '%', "\\%");
    ReplaceOne(c, '%', "\\%");
    ReplaceTwo('\\', '\\', '%', "\\%");
    ReplaceTwo('\\', '_', '%', "\\%");
    assert Replace(two, '%', "\\%") == EscapePatternChar(c);
  }

  lemma {:induction false} EscapedCoversOnlyItself(name: string, other: string)
    ensures Covers(EscapePattern(name), other) <==> other == name
    decreases |name|
  {
    if name == [] {
      assert EscapePattern([]) == [];
    } else {
      var c, tail := name[0], EscapePattern(name[1..]);
      assert name == [c] + name[1..];
      EscapePatternStep(c, name[1..]);
      var p := EscapePattern(name);
      assert p == EscapePatternChar(c) + tail;
      if other != [] {
        EscapedCoversOnlyItself(name[1..], other[1..]);
        assert other == [other[0]] + other[1..];
        if c in {'\\', '_', '%'} { assert p[2..] == tail; } else { assert p[1..] == tail; }
      }
    }
  }

  /** The grant text built for a database, unquoted by the server and read as a
      pattern, covers that database and no other. */
  lemma GrantCoversOnlyItsDatabase(name: string, other: string, rest: string)
    requires EndsBefore(rest, '`')
    ensures LexIdent(QuoteGrantDb(name) + rest) == Some(Lexed(EscapePattern(name), rest))
    ensures Covers(EscapePattern(name), other) <==> other == name
  {
    IdentRoundTrip(EscapePattern(name), rest);
    EscapedCoversOnlyItself(name, other);
  }

  function EscapeString(value: string): string {
    Replace(Replace(value, '\\', "\\\\"), '\'', "''")
  }

  lemma {:induction false} EscapeStringStep(c: char, value: string)
    ensures EscapeString([c] + value) == EscapeStringChar(c) + EscapeString(value)
  {
    ReplaceConcat([c], value, '\\', "\\\\");
    ReplaceOne(c, '\\', "\\\\");
    var one := if c == '\\' then "\\\\" else [c];
    ReplaceConcat(one, Replace(value, '\\', "\\\\"), '\'', "''");
    ReplaceOne(c, '\'', "''");
    ReplaceTwo('\\', '\\', '\'', "''");
  }

  lemma {:induction false} LexStringStep(c: char, tail: string)
    ensures LexStringBody(EscapeStringChar(c) + tail) == Prefixed(c, LexStringBody(tail))
  {
    var s := EscapeStringChar(c) + tail;
    if c == '\\' || c == '\'' { assert s[2..] == tail; } else { assert s[1..] == tail; }
  }

  lemma {:induction false} StringBodyRoundTrip(value: string, rest: string)
    requires EndsBefore(rest, '\'')
    ensures LexStringBody(EscapeString(value) + "'" + rest) == Some(Lexed(value, rest))
  {
    if value == [] {
      assert EscapeString(value) + "'" + rest == "'" + rest && ("'" + rest)[1..] == rest;
    } else {
      var tail := EscapeString(value[1..]) + "'" + rest;
      assert value == [value[0]] + value[1..];
      EscapeStringStep(value[0], value[1..]);
      assert EscapeString(value) + "'" + rest == EscapeStringChar(value[0]) + tail;
      LexStringStep(value[0], tail);
      StringBodyRoundTrip(value[1..], rest);
    }
  }

  /** A quoted string is read back exactly, whatever follows but a quote. */
  lemma StringRoundTrip(value: string, rest: string)
    requires EndsBefore(rest, '\'')
    ensures LexString(QuoteString(value) + rest) == Some(Lexed(value, rest))
  {
    var body := EscapeString(value) + "'" + rest;
    assert QuoteString(value) + rest == "'" + body && ("'" + body)[1..] == body;
    StringBodyRoundTrip(value, rest);
  }
}
