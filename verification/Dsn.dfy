/**
 * How a connection becomes a DSN (gormx/dsn.go), for SQL Server and PostgreSQL: the template
 * is expanded and filled, the arguments are appended, and the grammar of the driver reads back
 * what was configured.
 */
module Dsn {
  import opened Strings
  import opened DsnTemplate
  import opened DsnQuoting

  /** The six placeholders, by slot. */
  const KEYS: seq<string> := ["{user}", "{password}", "{host}", "{port}", "{database}", "{schema}"]

  /** A registered dialect, or none. */
  datatype DatabaseType = Postgres | Sqlserver | Unregistered

  datatype Arg = Arg(name: string, value: string)

  datatype Settings = Settings(
    user: string, password: string, host: string, port: int, database: string, schema: string, args: seq<Arg>)

  // ---- strconv.Itoa ----

  predicate IsDigits(s: string) {
    s != "" && forall i | 0 <= i < |s| :: '0' <= s[i] <= '9'
  }

  function Digits(n: nat): (s: string)
    ensures IsDigits(s)
  {
    (if n < 10 then "" else Digits(n / 10)) + [(n % 10 + '0' as int) as char]
  }

  function Itoa(n: int): string {
    if n < 0 then "-" + Digits(-n) else Digits(n)
  }

  function Decimal(s: string): int {
    if s == "" then 0 else 10 * Decimal(s[..|s| - 1]) + (s[|s| - 1] as int - '0' as int)
  }

  /** The number a port text stands for. */
  function Number(s: string): int {
    if s != "" && s[0] == '-' then -Decimal(s[1..]) else Decimal(s)
  }

  lemma {:induction false} DecimalInverse(n: nat)
    ensures Decimal(Digits(n)) == n
  {
    var s := Digits(n);
    if n >= 10 {
      DecimalInverse(n / 10);
      assert s[..|s| - 1] == Digits(n / 10);
    }
  }

  lemma Signed(s: string)
    requires IsDigits(s)
    ensures Number(s) == Decimal(s) && Number("-" + s) == -Decimal(s)
  {
    assert ("-" + s)[1..] == s;
  }

  lemma NumberInverse(n: int)
    ensures Number(Itoa(n)) == n
  {
    var s := Digits(if n < 0 then -n else n);
    Signed(s);
    DecimalInverse(if n < 0 then -n else n);
  }

  lemma NumberTextIsPlain(s: string)
    requires s != "" && forall i | 0 <= i < |s| :: s[i] == '-' || '0' <= s[i] <= '9'
    ensures QuoteMssql(s) == s && QuotePg(s) == s
  {
    TrimSpaceFixed(s);
  }

  lemma PortIsPlain(n: int)
    ensures QuoteMssql(Itoa(n)) == Itoa(n) && QuotePg(Itoa(n)) == Itoa(n)
  {
    var s := Itoa(n);
    assert forall i | 0 <= i < |s| :: s[i] == '-' || '0' <= s[i] <= '9';
    NumberTextIsPlain(s);
  }

  // ---- templates ----

  /** Literal text followed by a placeholder. */
  datatype Piece = Piece(text: string, slot: nat)

  /** The pieces with the given texts in their slots, and what follows them. */
  function Flat(pieces: seq<Piece>, slots: seq<string>, tail: string): string
    requires forall i | 0 <= i < |pieces| :: pieces[i].slot < |slots|
  {
    if pieces == [] then tail else pieces[0].text + (slots[pieces[0].slot] + Flat(pieces[1..], slots, tail))
  }

  predicate PlainText(text: string) {
    '{' !in text && '[' !in text
  }

  predicate PlainPieces(pieces: seq<Piece>) {
    forall i | 0 <= i < |pieces| :: PlainText(pieces[i].text) && pieces[i].slot < 6
  }

  const MSSQL: seq<Piece> :=
    [Piece("odbc:user id=", 0), Piece(";password=", 1), Piece(";server=", 2), Piece(";port=", 3),
     Piece(";database=", 4)]

  const PG: seq<Piece> :=
    [Piece("user=", 0), Piece(" password=", 1), Piece(" host=", 2), Piece(" port=", 3), Piece(" dbname=", 4)]

  const PG_SCHEMA: seq<Piece> := [Piece(" search_path='", 5)]

  /** The optional segment of the PostgreSQL template. */
  function SearchPath(slots: seq<string>): string
    requires |slots| == 6
  {
    Flat(PG_SCHEMA, slots, "'")
  }

  function Template(t: DatabaseType): string {
    match t
    case Postgres => Flat(PG, KEYS, "[" + SearchPath(KEYS) + "]")
    case Sqlserver => Flat(MSSQL, KEYS, "")
    case Unregistered => ""
  }

  lemma MssqlTextsArePlain()
    ensures PlainText("odbc:user id=") && PlainText(";password=") && PlainText(";server=")
    ensures PlainText(";port=") && PlainText(";database=")
  {
  }

  lemma MssqlIsPlain()
    ensures PlainPieces(MSSQL)
  {
    MssqlTextsArePlain();
  }

  lemma PgTextsArePlain()
    ensures PlainText("user=") && PlainText(" password=") && PlainText(" host=") && PlainText(" port=")
    ensures PlainText(" dbname=") && PlainText(" search_path='")
  {
  }

  lemma PgIsPlain()
    ensures PlainPieces(PG) && PlainPieces(PG_SCHEMA)
  {
    PgTextsArePlain();
  }

  // ---- values ----

  /** The encoder of user, password, database and argument values. */
  function Quote(t: DatabaseType, v: string): string {
    match t
    case Postgres => QuotePg(v)
    case Sqlserver => QuoteMssql(v)
    case Unregistered => v
  }

  /** The encoded value of each slot; host and port go in as they are, and so does the schema but for PostgreSQL. */
  function Encoded(t: DatabaseType, s: Settings): (r: seq<string>)
    ensures |r| == 6
  {
    [Quote(t, s.user), Quote(t, s.password), s.host, Itoa(s.port), Quote(t, s.database),
     if t.Postgres? then PgEscape(s.schema) else s.schema]
  }

  /** The slots as bindings. */
  function Slots(slots: seq<string>): (r: seq<Binding>)
    requires |slots| == 6
    ensures |r| == 6
  {
    seq(6, i requires 0 <= i < 6 => Binding(KEYS[i], slots[i]))
  }

  function AsMap(pairs: seq<Binding>): Bindings {
    if pairs == [] then map[] else AsMap(pairs[1..])[pairs[0].key := pairs[0].value]
  }

  lemma {:induction false} AsMapLists(pairs: seq<Binding>)
    requires PrefixFree(pairs)
    ensures Lists(pairs, AsMap(pairs))
    ensures PrefixFreeKeys(AsMap(pairs).Keys)
  {
    if pairs != [] {
      AsMapLists(pairs[1..]);
    }
  }

  lemma KeysArePrefixFree(i: nat, j: nat)
    requires i < 6 && j < 6 && KEYS[i] <= KEYS[j]
    ensures i == j
  {
    assert KEYS[i][1] == KEYS[j][1] && KEYS[i][2] == KEYS[j][2];
  }

  lemma KeysAreApart(i: nat, j: nat)
    requires i < 6 && j < 6 && (KEYS[i] <= KEYS[j] || KEYS[j] <= KEYS[i])
    ensures i == j
  {
    if KEYS[i] <= KEYS[j] {
      KeysArePrefixFree(i, j);
    } else {
      KeysArePrefixFree(j, i);
    }
  }

  lemma SlotsArePrefixFree(slots: seq<string>)
    requires |slots| == 6
    ensures PrefixFree(Slots(slots)) && BraceKeys(Slots(slots))
    ensures Keys(Slots(slots)) == KEYS && Values(Slots(slots)) == slots
  {
    forall i, j | 0 <= i < 6 && 0 <= j < 6 && KEYS[i] <= KEYS[j] ensures i == j {
      KeysArePrefixFree(i, j);
    }
  }

  // ---- render ----

  function Rendered(t: DatabaseType, s: Settings): string {
    var slots := Slots(Encoded(t, s));
    Replace(Expanded(Template(t), AsMap(slots)), slots)
  }

  method Render(t: DatabaseType, s: Settings) returns (r: string)
    ensures r == Rendered(t, s)
  {
    var slots := Slots(Encoded(t, s));
    SlotsArePrefixFree(Encoded(t, s));
    AsMapLists(slots);
    var expanded := ExpandOptional(Template(t), AsMap(slots));
    r := Substitute(expanded, AsMap(slots));
  }

  /** Replacing puts each value where its placeholder stands. */
  lemma {:induction false} FlatReplaced(pieces: seq<Piece>, tail: string, slots: seq<string>)
    requires PlainPieces(pieces) && |slots| == 6
    ensures Replace(Flat(pieces, KEYS, tail), Slots(slots)) == Flat(pieces, slots, Replace(tail, Slots(slots)))
  {
    if pieces != [] {
      var pairs, rest := Slots(slots), Flat(pieces[1..], KEYS, tail);
      SlotsArePrefixFree(slots);
      LiteralText(pieces[0].text, pairs[pieces[0].slot].key + rest, pairs);
      Placeholder(pieces[0].slot, rest, pairs);
      FlatReplaced(pieces[1..], tail, slots);
    }
  }

  lemma {:induction false} FlatAppended(pieces: seq<Piece>, slots: seq<string>, tail: string)
    requires forall i | 0 <= i < |pieces| :: pieces[i].slot < |slots|
    ensures Flat(pieces, slots, tail) == Flat(pieces, slots, "") + tail
  {
    if pieces == [] {
      assert "" + tail == tail;
    } else {
      FlatAppended(pieces[1..], slots, tail);
      var (text, slot, rest) := (pieces[0].text, slots[pieces[0].slot], Flat(pieces[1..], slots, ""));
      assert text + (slot + (rest + tail)) == text + (slot + rest) + tail;
    }
  }

  lemma {:induction false} FlatHasNoBracket(pieces: seq<Piece>, tail: string)
    requires PlainPieces(pieces) && '[' !in tail
    ensures '[' !in Flat(pieces, KEYS, tail)
  {
    if pieces != [] {
      FlatHasNoBracket(pieces[1..], tail);
      assert '[' !in KEYS[pieces[0].slot];
    }
  }

  // ---- the optional search path ----

  lemma {:induction false} OnlyBehindText(text: string, rest: string, key: string)
    requires '{' !in text && key != "" && key[0] == '{'
    ensures Contains(text + rest, key) == Contains(rest, key)
  {
    if text == "" {
      assert text + rest == rest;
    } else {
      assert (text + rest)[1..] == text[1..] + rest;
      OnlyBehindText(text[1..], rest, key);
    }
  }

  /** The optional segment holds the schema placeholder and no other. */
  lemma SegmentHoldsSchema(i: nat)
    requires i < 6
    ensures Contains(SearchPath(KEYS), KEYS[i]) <==> i == 5
  {
    var key, behind := KEYS[i], KEYS[5] + "'";
    OnlyBehindText(" search_path='", behind, key);
    OnlyBehindText(behind[1..], "", key);
    assert behind[1..] + "" == behind[1..];
    if key <= behind {
      PrefixesOfOneText(behind, key, KEYS[5]);
      KeysAreApart(i, 5);
    }
  }

  lemma SegmentReadyIffSchema(slots: seq<string>)
    requires |slots| == 6
    ensures Ready(SearchPath(KEYS), AsMap(Slots(slots))) <==> slots[5] != ""
  {
    var pairs := Slots(slots);
    var values := AsMap(pairs);
    SlotsArePrefixFree(slots);
    AsMapLists(pairs);
    forall key | key in values && values[key] == "" && Contains(SearchPath(KEYS), key) ensures slots[5] == "" {
      var i :| 0 <= i < 6 && pairs[i] == Binding(key, "");
      SegmentHoldsSchema(i);
    }
    assert pairs[5] in pairs;
    SegmentHoldsSchema(5);
  }

  lemma PlainReplaced(text: string, slots: seq<string>)
    requires |slots| == 6 && '{' !in text
    ensures Replace(text, Slots(slots)) == text
  {
    SlotsArePrefixFree(slots);
    LiteralText(text, "", Slots(slots));
    assert text + "" == text;
  }

  lemma ExpandedSegment(pieces: seq<Piece>, segment: string, values: Bindings)
    requires PlainPieces(pieces) && ']' !in segment
    ensures Expanded(Flat(pieces, KEYS, "[" + segment + "]"), values) ==
            Flat(pieces, KEYS, if Ready(segment, values) then segment else "")
  {
    var body, kept := Flat(pieces, KEYS, ""), if Ready(segment, values) then segment else "";
    FlatHasNoBracket(pieces, "");
    FlatAppended(pieces, KEYS, "[" + segment + "]");
    FlatAppended(pieces, KEYS, kept);
    assert "[" + segment + "]" + "" == "[" + segment + "]";
    SegmentKeptIffReady(body, segment, "", values);
    WithoutSegment("", values);
    assert body + kept + "" == body + kept;
  }

  lemma PgRendered(s: Settings)
    ensures var slots := Encoded(Postgres, s);
            Rendered(Postgres, s) == Flat(PG, slots, if slots[5] != "" then SearchPath(slots) else "")
  {
    var slots := Encoded(Postgres, s);
    PgIsPlain();
    ExpandedSegment(PG, SearchPath(KEYS), AsMap(Slots(slots)));
    SegmentReadyIffSchema(slots);
    FlatReplaced(PG, if slots[5] != "" then SearchPath(KEYS) else "", slots);
    FlatReplaced(PG_SCHEMA, "'", slots);
    PlainReplaced("'", slots);
    PlainReplaced("", slots);
  }

  lemma RenderedWhole(pieces: seq<Piece>, slots: seq<string>)
    requires PlainPieces(pieces) && |slots| == 6
    ensures Replace(Expanded(Flat(pieces, KEYS, ""), AsMap(Slots(slots))), Slots(slots)) == Flat(pieces, slots, "")
  {
    FlatHasNoBracket(pieces, "");
    WithoutSegment(Flat(pieces, KEYS, ""), AsMap(Slots(slots)));
    FlatReplaced(pieces, "", slots);
    PlainReplaced("", slots);
  }

  lemma MssqlRendered(s: Settings)
    ensures Rendered(Sqlserver, s) == Flat(MSSQL, Encoded(Sqlserver, s), "")
  {
    MssqlIsPlain();
    RenderedWhole(MSSQL, Encoded(Sqlserver, s));
  }

  /** The SQL Server text in full: the host goes in as it is. */
  lemma MssqlInFull(s: Settings)
    ensures Rendered(Sqlserver, s) ==
            "odbc:user id=" + QuoteMssql(s.user) + ";password=" + QuoteMssql(s.password) + ";server=" + s.host +
            ";port=" + Itoa(s.port) + ";database=" + QuoteMssql(s.database)
  {
    MssqlRendered(s);
    var e := Encoded(Sqlserver, s);
    FiveInFull(MSSQL, e, "");
  }

  /** The PostgreSQL text in full. */
  lemma PgInFull(s: Settings)
    ensures Rendered(Postgres, s) ==
            "user=" + QuotePg(s.user) + " password=" + QuotePg(s.password) + " host=" + s.host +
            " port=" + Itoa(s.port) + " dbname=" + QuotePg(s.database) +
            if s.schema != "" then " search_path='" + PgEscape(s.schema) + "'" else ""
  {
    PgRendered(s);
    var e := Encoded(Postgres, s);
    var tail := if e[5] != "" then SearchPath(e) else "";
    FiveInFull(PG, e, tail);
    assert Flat(PG_SCHEMA[1..], e, "'") == "'";
    assert SearchPath(e) == " search_path='" + PgEscape(s.schema) + "'";
  }

  lemma FiveInFull(pieces: seq<Piece>, e: seq<string>, tail: string)
    requires |pieces| == 5 && |e| == 6 && forall i | 0 <= i < 5 :: pieces[i].slot == i
    ensures Flat(pieces, e, tail) ==
            pieces[0].text + e[0] + pieces[1].text + e[1] + pieces[2].text + e[2] + pieces[3].text + e[3] +
            pieces[4].text + e[4] + tail
  {
    assert Flat(pieces[5..], e, tail) == tail;
    assert pieces[4..][1..] == pieces[5..] && pieces[3..][1..] == pieces[4..] && pieces[2..][1..] == pieces[3..];
    assert pieces[1..][1..] == pieces[2..];
    assert Flat(pieces[4..], e, tail) == pieces[4].text + (e[4] + tail);
    assert Flat(pieces[3..], e, tail) == pieces[3].text + (e[3] + Flat(pieces[4..], e, tail));
    assert Flat(pieces[2..], e, tail) == pieces[2].text + (e[2] + Flat(pieces[3..], e, tail));
    assert Flat(pieces[1..], e, tail) == pieces[1].text + (e[1] + Flat(pieces[2..], e, tail));
  }

  // ---- appendArgs ----

  function Separator(t: DatabaseType): string {
    if t.Postgres? then " " else ";"
  }

  function ArgText(t: DatabaseType, arg: Arg): string {
    arg.name + ("=" + Quote(t, arg.value))
  }

  /** strings.Join */
  function Join(texts: seq<string>, sep: string): string {
    if texts == [] then "" else if |texts| == 1 then texts[0] else texts[0] + (sep + Join(texts[1..], sep))
  }

  function ArgTexts(t: DatabaseType, args: seq<Arg>): seq<string> {
    seq(|args|, i requires 0 <= i < |args| => ArgText(t, args[i]))
  }

  /** Every text behind its own separator. */
  function Chained(texts: seq<string>, sep: string): string {
    if texts == [] then "" else sep + (texts[0] + Chained(texts[1..], sep))
  }

  lemma {:induction false} JoinIsChain(texts: seq<string>, sep: string)
    requires texts != []
    ensures sep + Join(texts, sep) == Chained(texts, sep)
  {
    if |texts| == 1 {
      assert Chained(texts[1..], sep) == "";
      assert texts[0] + "" == texts[0];
    } else {
      JoinIsChain(texts[1..], sep);
    }
  }

  method PrintArgs(t: DatabaseType, args: seq<Arg>) returns (texts: seq<string>)
    ensures texts == ArgTexts(t, args)
  {
    texts := [];
    for i := 0 to |args|
      invariant |texts| == i && forall k | 0 <= k < i :: texts[k] == ArgText(t, args[k])
    {
      texts := texts + [ArgText(t, args[i])];
    }
  }

  /** Each argument follows behind one separator; without arguments nothing is appended. */
  method AppendArgs(t: DatabaseType, dsn: string, args: seq<Arg>) returns (r: string)
    ensures r == dsn + Chained(ArgTexts(t, args), Separator(t))
  {
    if args == [] {
      assert dsn + "" == dsn;
      return dsn;
    }
    var texts := PrintArgs(t, args);
    JoinIsChain(texts, Separator(t));
    r := dsn + (Separator(t) + Join(texts, Separator(t)));
  }

  // ---- the whole text ----

  /** What a reader of the SQL Server string should find. */
  function MssqlFields(s: Settings): seq<Pair> {
    [("user id", s.user)] + MssqlOthers(s)
  }

  function MssqlOthers(s: Settings): seq<Pair> {
    MssqlServer(s) + ArgPairs(s.args)
  }

  function MssqlServer(s: Settings): seq<Pair> {
    [("password", s.password), ("server", s.host), ("port", Itoa(s.port)), ("database", s.database)]
  }

  function ArgPairs(args: seq<Arg>): seq<Pair> {
    seq(|args|, i requires 0 <= i < |args| => (args[i].name, args[i].value))
  }

  /** What a reader of the PostgreSQL string should find: the search path only if a schema is set. */
  function PgFields(s: Settings): seq<Field> {
    [Field("user", s.user, false)] + PgOthers(s)
  }

  function PgOthers(s: Settings): seq<Field> {
    PgServer(s) + (PgSchema(s) + ArgFields(s.args))
  }

  function PgServer(s: Settings): seq<Field> {
    [Field("password", s.password, false), Field("host", s.host, false), Field("port", Itoa(s.port), false),
     Field("dbname", s.database, false)]
  }

  function PgSchema(s: Settings): seq<Field> {
    if s.schema == "" then [] else [Field("search_path", s.schema, true)]
  }

  function ArgFields(args: seq<Arg>): seq<Field> {
    seq(|args|, i requires 0 <= i < |args| => Field(args[i].name, args[i].value, false))
  }

  function Generated(t: DatabaseType, s: Settings): string {
    Rendered(t, s) + Chained(ArgTexts(t, s.args), Separator(t))
  }

  // ---- the text as a chain ----

  lemma {:induction false} ChainedAppended(a: seq<string>, b: seq<string>, sep: string)
    ensures Chained(a + b, sep) == Chained(a, sep) + Chained(b, sep)
  {
    if a == [] {
      assert a + b == b;
    } else {
      ChainedAppended(a[1..], b, sep);
      assert (a + b)[1..] == a[1..] + b;
      Regroup(a[0], Chained(a[1..], sep), Chained(b, sep));
      Regroup(sep, a[0] + Chained(a[1..], sep), Chained(b, sep));
    }
  }

  /** Pieces whose texts are separators and keywords make a chain. */
  lemma {:induction false} FlatIsChain(pieces: seq<Piece>, slots: seq<string>, tail: string, texts: seq<string>,
                                           sep: string)
    requires |pieces| == |texts| && forall i | 0 <= i < |pieces| :: pieces[i].slot < |slots|
    requires forall i | 0 <= i < |pieces| :: pieces[i].text + slots[pieces[i].slot] == sep + texts[i]
    ensures Flat(pieces, slots, tail) == Chained(texts, sep) + tail
  {
    if pieces == [] {
      assert "" + tail == tail;
    } else {
      FlatIsChain(pieces[1..], slots, tail, texts[1..], sep);
      var (text, slot, rest) := (pieces[0].text, slots[pieces[0].slot], Chained(texts[1..], sep));
      Regroup(text, slot, rest + tail);
      Regroup(sep, texts[0], rest);
      Regroup(sep + texts[0], rest, tail);
    }
  }

  lemma Regroup(a: string, b: string, c: string)
    ensures a + (b + c) == (a + b) + c
  {
  }

  function MssqlTexts(pairs: seq<Pair>): seq<string> {
    seq(|pairs|, i requires 0 <= i < |pairs| => PrintMssql(pairs[i]))
  }

  function PgTexts(fields: seq<Field>): seq<string> {
    seq(|fields|, i requires 0 <= i < |fields| => PrintPg(fields[i]))
  }

  lemma {:induction false} MssqlChained(pairs: seq<Pair>)
    ensures ChainMssql(pairs) == Chained(MssqlTexts(pairs), ";")
  {
    if pairs != [] {
      MssqlChained(pairs[1..]);
      assert MssqlTexts(pairs)[1..] == MssqlTexts(pairs[1..]);
    }
  }

  lemma {:induction false} PgChained(fields: seq<Field>)
    ensures ChainPg(fields) == Chained(PgTexts(fields), " ")
  {
    if fields != [] {
      PgChained(fields[1..]);
      assert PgTexts(fields)[1..] == PgTexts(fields[1..]);
    }
  }

  function Assigned(name: string, value: string): string {
    name + ("=" + value)
  }

  lemma PieceText(text: string, sep: string, name: string, value: string)
    requires text == sep + name + "="
    ensures text + value == sep + Assigned(name, value)
  {
  }

  lemma MssqlFlat(slots: seq<string>)
    requires |slots| == 6
    ensures Flat(MSSQL[1..], slots, "") ==
            Chained([Assigned("password", slots[1]), Assigned("server", slots[2]), Assigned("port", slots[3]),
                     Assigned("database", slots[4])], ";")
  {
    var texts := [Assigned("password", slots[1]), Assigned("server", slots[2]), Assigned("port", slots[3]),
                  Assigned("database", slots[4])];
    PieceText(";password=", ";", "password", slots[1]);
    PieceText(";server=", ";", "server", slots[2]);
    PieceText(";port=", ";", "port", slots[3]);
    PieceText(";database=", ";", "database", slots[4]);
    FlatIsChain(MSSQL[1..], slots, "", texts, ";");
    assert Chained(texts, ";") + "" == Chained(texts, ";");
  }

  lemma MssqlServerTexts(s: Settings)
    requires QuoteMssql(s.host) == s.host
    ensures Flat(MSSQL[1..], Encoded(Sqlserver, s), "") == Chained(MssqlTexts(MssqlServer(s)), ";")
  {
    var slots := Encoded(Sqlserver, s);
    PortIsPlain(s.port);
    MssqlFlat(slots);
    assert MssqlTexts(MssqlServer(s)) ==
           [Assigned("password", slots[1]), Assigned("server", slots[2]), Assigned("port", slots[3]),
            Assigned("database", slots[4])];
  }

  lemma FirstOfMssql(user: string, server: string, args: string)
    ensures "odbc:user id=" + (user + server) + args == "odbc:" + (Assigned("user id", user) + (server + args))
  {
    assert "odbc:user id=" == "odbc:" + ("user id" + "=");
  }

  lemma MssqlOtherTexts(s: Settings)
    ensures ChainMssql(MssqlOthers(s)) ==
            Chained(MssqlTexts(MssqlServer(s)), ";") + Chained(ArgTexts(Sqlserver, s.args), ";")
  {
    var server, args := MssqlServer(s), ArgPairs(s.args);
    assert ArgTexts(Sqlserver, s.args) == MssqlTexts(args);
    MssqlTextsAppended(server, args);
    ChainedAppended(MssqlTexts(server), MssqlTexts(args), ";");
    MssqlChained(server + args);
  }

  lemma MssqlTextsAppended(a: seq<Pair>, b: seq<Pair>)
    ensures MssqlTexts(a + b) == MssqlTexts(a) + MssqlTexts(b)
  {
  }

  lemma MssqlText(s: Settings)
    requires QuoteMssql(s.host) == s.host
    ensures Generated(Sqlserver, s) == "odbc:" + (PrintMssql(("user id", s.user)) + ChainMssql(MssqlOthers(s)))
  {
    MssqlRendered(s);
    MssqlServerTexts(s);
    MssqlOtherTexts(s);
    FirstOfMssql(QuoteMssql(s.user), Chained(MssqlTexts(MssqlServer(s)), ";"),
                 Chained(ArgTexts(Sqlserver, s.args), ";"));
  }

  lemma PgFlat(slots: seq<string>, tail: string)
    requires |slots| == 6
    ensures Flat(PG[1..], slots, tail) ==
            Chained([Assigned("password", slots[1]), Assigned("host", slots[2]), Assigned("port", slots[3]),
                     Assigned("dbname", slots[4])], " ") + tail
  {
    var texts := [Assigned("password", slots[1]), Assigned("host", slots[2]), Assigned("port", slots[3]),
                  Assigned("dbname", slots[4])];
    PieceText(" password=", " ", "password", slots[1]);
    PieceText(" host=", " ", "host", slots[2]);
    PieceText(" port=", " ", "port", slots[3]);
    PieceText(" dbname=", " ", "dbname", slots[4]);
    FlatIsChain(PG[1..], slots, tail, texts, " ");
  }

  lemma PgServerTexts(s: Settings, tail: string)
    requires QuotePg(s.host) == s.host
    ensures Flat(PG[1..], Encoded(Postgres, s), tail) == Chained(PgTexts(PgServer(s)), " ") + tail
  {
    var slots := Encoded(Postgres, s);
    PortIsPlain(s.port);
    PgFlat(slots, tail);
    assert PgTexts(PgServer(s)) ==
           [Assigned("password", slots[1]), Assigned("host", slots[2]), Assigned("port", slots[3]),
            Assigned("dbname", slots[4])];
  }

  lemma SearchPathText(slots: seq<string>)
    requires |slots| == 6
    ensures SearchPath(slots) == Chained([Assigned("search_path", "'" + slots[5] + "'")], " ")
  {
    var text := Assigned("search_path", "'" + slots[5] + "'");
    assert Flat(PG_SCHEMA[1..], slots, "'") == "'";
    assert " search_path='" == " " + ("search_path" + ("=" + "'"));
    assert " search_path='" + (slots[5] + "'") == " " + text;
    assert Chained([text][1..], " ") == "";
    assert text + "" == text;
  }

  /** The search path is written exactly if a schema is set. */
  lemma PgSchemaTexts(s: Settings)
    ensures var slots := Encoded(Postgres, s);
            (if slots[5] != "" then SearchPath(slots) else "") == Chained(PgTexts(PgSchema(s)), " ")
  {
    if s.schema == "" {
      assert PgTexts(PgSchema(s)) == [];
    } else {
      SearchPathText(Encoded(Postgres, s));
      assert PgTexts(PgSchema(s)) == [Assigned("search_path", "'" + PgEscape(s.schema) + "'")];
    }
  }

  lemma FirstOfPg(user: string, server: string, args: string)
    ensures "user=" + (user + server) + args == Assigned("user", user) + (server + args)
  {
    assert "user=" == "user" + "=";
  }

  lemma PgOtherTexts(s: Settings)
    ensures ChainPg(PgOthers(s)) ==
            (Chained(PgTexts(PgServer(s)), " ") + Chained(PgTexts(PgSchema(s)), " "))
            + Chained(ArgTexts(Postgres, s.args), " ")
  {
    PgOtherParts(s);
    ChainedParts(PgTexts(PgServer(s)), PgTexts(PgSchema(s)), ArgTexts(Postgres, s.args), " ");
    PgChained(PgOthers(s));
  }

  lemma PgTextsAppended(a: seq<Field>, b: seq<Field>)
    ensures PgTexts(a + b) == PgTexts(a) + PgTexts(b)
  {
  }

  lemma PgOtherParts(s: Settings)
    ensures PgTexts(PgOthers(s)) == PgTexts(PgServer(s)) + (PgTexts(PgSchema(s)) + ArgTexts(Postgres, s.args))
  {
    assert ArgTexts(Postgres, s.args) == PgTexts(ArgFields(s.args));
    PgTextsAppended(PgSchema(s), ArgFields(s.args));
    PgTextsAppended(PgServer(s), PgSchema(s) + ArgFields(s.args));
  }

  lemma ChainedParts(a: seq<string>, b: seq<string>, c: seq<string>, separator: string)
    ensures Chained(a + (b + c), separator) == (Chained(a, separator) + Chained(b, separator)) + Chained(c, separator)
  {
    ChainedAppended(b, c, separator);
    ChainedAppended(a, b + c, separator);
  }

  lemma PgText(s: Settings)
    requires QuotePg(s.host) == s.host
    ensures Generated(Postgres, s) == PrintPg(Field("user", s.user, false)) + ChainPg(PgOthers(s))
  {
    var tail := Chained(PgTexts(PgSchema(s)), " ");
    PgRendered(s);
    PgSchemaTexts(s);
    PgServerTexts(s, tail);
    PgOtherTexts(s);
    FirstOfPg(QuotePg(s.user), Chained(PgTexts(PgServer(s)), " ") + tail, Chained(ArgTexts(Postgres, s.args), " "));
  }

  // ---- what the readers find ----

  lemma {:induction false} ChainLengths(pairs: seq<Pair>, fields: seq<Field>)
    ensures |ChainMssql(pairs)| >= 2 * |pairs| && |ChainPg(fields)| >= |fields|
    decreases |pairs| + |fields|
  {
    if pairs != [] {
      ChainLengths(pairs[1..], []);
    }
    if fields != [] {
      ChainLengths([], fields[1..]);
    }
  }

  lemma MssqlWhole(first: Pair, others: seq<Pair>, limit: nat)
    requires PlainName(first.0) && forall i | 0 <= i < |others| :: PlainName(others[i].0)
    requires limit > |ChainMssql(others)|
    ensures ParseOdbc(PrintMssql(first) + ChainMssql(others), limit) == Parsed([first] + others)
  {
    MssqlPairInverse(first, ChainMssql(others), limit);
    ChainLengths(others, []);
    MssqlRoundTrip(others, limit - 1);
  }

  lemma MssqlNames()
    ensures PlainName("user id") && PlainName("password") && PlainName("server") && PlainName("port")
    ensures PlainName("database")
  {
  }

  lemma MssqlOtherNames(s: Settings)
    requires forall i | 0 <= i < |s.args| :: PlainName(s.args[i].name)
    ensures forall i | 0 <= i < |MssqlOthers(s)| :: PlainName(MssqlOthers(s)[i].0)
  {
    MssqlNames();
  }

  lemma Unprefixed(text: string)
    ensures "odbc:" <= "odbc:" + text && ("odbc:" + text)[5..] == text
  {
  }

  /**
   * The ODBC reader gets back every user, password, database and argument value, whatever
   * characters they hold, next to a host that needs no quoting and the port.
   */
  lemma SqlserverReturnsEverything(s: Settings)
    requires QuoteMssql(s.host) == s.host
    requires forall i | 0 <= i < |s.args| :: PlainName(s.args[i].name)
    ensures var dsn := Generated(Sqlserver, s);
            "odbc:" <= dsn && ParseOdbc(dsn[5..], |dsn|) == Parsed(MssqlFields(s))
    ensures Number(MssqlFields(s)[3].1) == s.port
  {
    var first, others := ("user id", s.user), MssqlOthers(s);
    MssqlText(s);
    Unprefixed(PrintMssql(first) + ChainMssql(others));
    MssqlNames();
    MssqlOtherNames(s);
    MssqlWhole(first, others, |Generated(Sqlserver, s)|);
    NumberInverse(s.port);
  }

  lemma PgWhole(first: Field, others: seq<Field>, limit: nat)
    requires FieldName(first.name) && forall i | 0 <= i < |others| :: FieldName(others[i].name)
    requires limit > |ChainPg(others)|
    ensures ParsePg(PrintPg(first) + ChainPg(others), limit) == Parsed(Named([first] + others)) <==>
            Recoverable([first] + others)
  {
    var fields := [first] + others;
    assert fields[1..] == others;
    SkipPgSeparator(PrintPg(first) + ChainPg(others), limit);
    ChainLengths([], others);
    PgRoundTripIff(fields, limit);
  }

  lemma PgNames()
    ensures FieldName("user") && FieldName("password") && FieldName("host") && FieldName("port")
    ensures FieldName("dbname") && FieldName("search_path")
  {
  }

  lemma PgOtherNames(s: Settings)
    requires forall i | 0 <= i < |s.args| :: FieldName(s.args[i].name)
    ensures forall i | 0 <= i < |PgOthers(s)| :: FieldName(PgOthers(s)[i].name)
  {
    PgNames();
  }

  /** The PostgreSQL reader gets back every value exactly if all of them are recoverable. */
  lemma PostgresReturnsEverythingIff(s: Settings)
    requires QuotePg(s.host) == s.host
    requires forall i | 0 <= i < |s.args| :: FieldName(s.args[i].name)
    ensures var dsn := Generated(Postgres, s);
            ParsePg(dsn, |dsn|) == Parsed(Named(PgFields(s))) <==> Recoverable(PgFields(s))
  {
    PgText(s);
    PgNames();
    PgOtherNames(s);
    PgWhole(Field("user", s.user, false), PgOthers(s), |Generated(Postgres, s)|);
  }

  /** In particular an empty password is not read back: the host is read in its place. */
  lemma EmptyPasswordLost(s: Settings)
    requires QuotePg(s.host) == s.host && s.password == ""
    requires forall i | 0 <= i < |s.args| :: FieldName(s.args[i].name)
    ensures var dsn := Generated(Postgres, s); ParsePg(dsn, |dsn|) != Parsed(Named(PgFields(s)))
  {
    PostgresReturnsEverythingIff(s);
    var fields := PgFields(s);
    assert fields[1..][0] == Field("password", "", false);
  }

  // ---- genDSN ----

  class Connection {
    var dsn: string
    var dbType: DatabaseType
    var settings: Settings

    constructor (explicit: string, dbType: DatabaseType, settings: Settings)
      ensures dsn == explicit && this.dbType == dbType && this.settings == settings
    {
      this.dsn, this.dbType, this.settings := explicit, dbType, settings;
    }

    /** An explicit or earlier DSN wins; without a dialect, a host or a port there is none. */
    method GenDsn() returns (r: string)
      modifies this`dsn
      ensures r == dsn
      ensures r == if old(dsn) != "" then old(dsn)
                   else if dbType.Unregistered? || settings.host == "" || settings.port == 0 then ""
                   else Generated(dbType, settings)
    {
      if dsn != "" {
        return dsn;
      }
      if dbType.Unregistered? {
        return "";
      }
      if settings.host == "" || settings.port == 0 {
        return "";
      }
      var rendered := Render(dbType, settings);
      r := AppendArgs(dbType, rendered, settings.args);
      dsn := r;
    }
  }
}
