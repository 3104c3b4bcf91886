/**
 * Value quoting for SQL Server and PostgreSQL connection strings (gormx/dsn.go), paired
 * with parsers written from the two grammars: ODBC keyword=value strings with braced
 * values, and the keyword/value strings of section 34.1.1.1 of the PostgreSQL 16
 * documentation.
 */
module DsnQuoting {
  import opened Strings

  datatype Parsed<+T> = Failed | Parsed(value: T)

  /** A keyword with its value. */
  type Pair = (string, string)

  predicate ContainsAny(s: string, chars: set<char>) {
    exists i :: 0 <= i < |s| && s[i] in chars
  }

  // ---- SQL Server ----

  /** strings.ReplaceAll(v, "}", "}}") */
  function Doubled(v: string): string {
    if v == "" then "" else (if v[0] == '}' then "}}" else [v[0]]) + Doubled(v[1..])
  }

  function QuoteMssql(v: string): string {
    if v == "" || (v == TrimSpace(v) && !ContainsAny(v, {';', '{', '}'})) then v else InBraces(v)
  }

  /** Quoted only where the reader would see something else: at a reserved character, or white space at an end. */
  lemma MssqlLeavesPlain(v: string)
    ensures QuoteMssql(v) == v <==>
            || v == ""
            || (!IsSpace(v[0]) && !IsSpace(v[|v| - 1]) && ';' !in v && '{' !in v && '}' !in v)
    ensures QuoteMssql(v) != v ==> |QuoteMssql(v)| >= |v| + 2 && QuoteMssql(v)[0] == '{'
  {
    TrimSpaceFixed(v);
    DoubledGrows(v);
  }

  lemma {:induction false} DoubledGrows(v: string)
    ensures |Doubled(v)| >= |v|
  {
    if v != "" {
      DoubledGrows(v[1..]);
    }
  }

  function InBraces(v: string): string {
    "{" + Doubled(v) + "}"
  }

  /** The inside of a braced value, and what follows its closing brace. */
  function Braced(s: string): Parsed<Pair> {
    if s == "" then Failed
    else if s[0] == '}' then
      if |s| > 1 && s[1] == '}' then
        match Braced(s[2..])
        case Failed => Failed
        case Parsed(p) => Parsed(("}" + p.0, p.1))
      else Parsed(("", s[1..]))
    else
      match Braced(s[1..])
      case Failed => Failed
      case Parsed(p) => Parsed(([s[0]] + p.0, p.1))
  }

  /** The text up to the first stop character, and the rest from there on. */
  function Until(s: string, stops: set<char>): Pair {
    if s == "" || s[0] in stops then ("", s)
    else var p := Until(s[1..], stops); ([s[0]] + p.0, p.1)
  }

  /** Between a closing brace and the next pair there is only white space. */
  function Closed(p: Parsed<Pair>): Parsed<Pair> {
    match p
    case Failed => Failed
    case Parsed(q) =>
      var rest := TrimSpaceLeft(q.1);
      if rest == "" || rest[0] == ';' then Parsed((q.0, rest)) else Failed
  }

  /** A value up to the next `;` or the end: braced, or bare with white space around it dropped. */
  function OdbcValue(s: string): Parsed<Pair> {
    var t := TrimSpaceLeft(s);
    if t != "" && t[0] == '{' then Closed(Braced(t[1..]))
    else var p := Until(t, {';'}); Parsed((TrimSpaceRight(p.0), p.1))
  }

  /** A keyword=value string: pairs separated by `;`, where a keyword may stand alone. */
  function ParseOdbc(s: string, limit: nat): Parsed<seq<Pair>>
    decreases limit, 1
  {
    var t := TrimSpaceLeft(s);
    if t == "" then Parsed([]) else if limit == 0 then Failed else ParseItem(t, limit)
  }

  function ParseItem(t: string, limit: nat): Parsed<seq<Pair>>
    requires t != "" && limit > 0
    decreases limit, 0
  {
    if t[0] == '=' then Failed
    else if t[0] == ';' then ParseOdbc(t[1..], limit - 1)
    else
      var name := Until(t, {'=', ';'});
      if name.1 == "" || name.1[0] == ';' then Joined((TrimSpaceRight(name.0), ""), ParseOdbc(name.1, limit - 1))
      else
        match OdbcValue(name.1[1..])
        case Failed => Failed
        case Parsed(p) => Joined((TrimSpaceRight(name.0), p.0), ParseOdbc(p.1, limit - 1))
  }

  function Joined(first: Pair, rest: Parsed<seq<Pair>>): Parsed<seq<Pair>> {
    match rest
    case Failed => Failed
    case Parsed(pairs) => Parsed([first] + pairs)
  }

  lemma {:induction false} BracedInverse(v: string, rest: string)
    requires rest == "" || rest[0] != '}'
    ensures Braced(Doubled(v) + "}" + rest) == Parsed((v, rest))
  {
    var s := Doubled(v) + "}" + rest;
    if v == "" {
      assert s == "}" + rest;
      assert s[1..] == rest;
    } else {
      BracedInverse(v[1..], rest);
      var tail := Doubled(v[1..]) + "}" + rest;
      assert v == [v[0]] + v[1..];
      if v[0] == '}' {
        assert s == "}}" + tail;
        assert s[2..] == tail;
      } else {
        assert s == [v[0]] + tail;
        assert s[1..] == tail;
      }
    }
  }

  lemma {:induction false} UntilReads(v: string, stops: set<char>, rest: string)
    requires forall i | 0 <= i < |v| :: v[i] !in stops
    requires rest == "" || rest[0] in stops
    ensures Until(v + rest, stops) == (v, rest)
  {
    if v == "" {
      assert v + rest == rest;
    } else {
      assert (v + rest)[1..] == v[1..] + rest;
      assert v == [v[0]] + v[1..];
      UntilReads(v[1..], stops, rest);
    }
  }

  lemma BareInverse(v: string, rest: string)
    requires v != "" && v == TrimSpace(v) && !ContainsAny(v, {';', '{', '}'})
    requires rest == "" || rest[0] == ';'
    ensures OdbcValue(v + rest) == Parsed((v, rest))
  {
    TrimSpaceFixed(v);
    assert forall i | 0 <= i < |v| :: v[i] !in {';', '{', '}'};
    assert (v + rest)[0] == v[0];
    UntilReads(v, {';'}, rest);
  }

  lemma BracedValue(v: string, rest: string)
    requires rest == "" || rest[0] == ';'
    ensures OdbcValue(InBraces(v) + rest) == Parsed((v, rest))
  {
    assert (InBraces(v) + rest)[1..] == Doubled(v) + "}" + rest;
    BracedInverse(v, rest);
  }

  /** Every string survives SQL Server quoting, before the end or before a further pair. */
  lemma MssqlValueInverse(v: string, rest: string)
    requires rest == "" || rest[0] == ';'
    ensures OdbcValue(QuoteMssql(v) + rest) == Parsed((v, rest))
  {
    if v == "" {
      assert QuoteMssql(v) + rest == rest;
    } else if v == TrimSpace(v) && !ContainsAny(v, {';', '{', '}'}) {
      BareInverse(v, rest);
    } else {
      BracedValue(v, rest);
    }
  }

  /** A keyword that needs no quoting and carries no white space at its ends. */
  predicate PlainName(k: string) {
    && k != "" && !IsSpace(k[0]) && !IsSpace(k[|k| - 1])
    && forall i | 0 <= i < |k| :: k[i] !in {'=', ';'}
  }

  function PrintMssql(p: Pair): string {
    p.0 + ("=" + QuoteMssql(p.1))
  }

  /** The pairs behind a first one, each after its separator. */
  function ChainMssql(pairs: seq<Pair>): (r: string)
    ensures r == "" || r[0] == ';'
  {
    if pairs == [] then "" else ";" + (PrintMssql(pairs[0]) + ChainMssql(pairs[1..]))
  }

  /** A printed keyword and `=` are read back; the value decides the rest. */
  lemma AfterName(k: string, tail: string, limit: nat)
    requires PlainName(k) && limit > 0
    ensures ParseOdbc(k + ("=" + tail), limit) ==
            match OdbcValue(tail)
            case Failed => Failed
            case Parsed(p) => Joined((k, p.0), ParseOdbc(p.1, limit - 1))
  {
    var s := k + ("=" + tail);
    assert s[0] == k[0];
    UntilReads(k, {'=', ';'}, "=" + tail);
    assert ("=" + tail)[1..] == tail;
  }

  /** Parsing steps over one printed pair. */
  lemma MssqlPairInverse(p: Pair, rest: string, limit: nat)
    requires PlainName(p.0) && (rest == "" || rest[0] == ';') && limit > 0
    ensures ParseOdbc(PrintMssql(p) + rest, limit) == Joined(p, ParseOdbc(rest, limit - 1))
  {
    assert PrintMssql(p) + rest == p.0 + ("=" + (QuoteMssql(p.1) + rest));
    AfterName(p.0, QuoteMssql(p.1) + rest, limit);
    MssqlValueInverse(p.1, rest);
  }

  lemma SkipSeparator(rest: string, limit: nat)
    requires limit > 0
    ensures ParseOdbc(";" + rest, limit) == ParseOdbc(rest, limit - 1)
  {
    assert (";" + rest)[1..] == rest;
  }

  lemma MssqlLink(p: Pair, rest: string, limit: nat)
    requires PlainName(p.0) && (rest == "" || rest[0] == ';') && limit >= 2
    ensures ParseOdbc(";" + (PrintMssql(p) + rest), limit) == Joined(p, ParseOdbc(rest, limit - 2))
  {
    SkipSeparator(PrintMssql(p) + rest, limit);
    MssqlPairInverse(p, rest, limit - 1);
  }

  lemma MssqlChainStep(pairs: seq<Pair>, limit: nat)
    requires pairs != [] && PlainName(pairs[0].0) && limit >= 2
    requires ParseOdbc(ChainMssql(pairs[1..]), limit - 2) == Parsed(pairs[1..])
    ensures ParseOdbc(ChainMssql(pairs), limit) == Parsed(pairs)
  {
    var rest := ChainMssql(pairs[1..]);
    MssqlLink(pairs[0], rest, limit);
    JoinedIff(pairs[0], ParseOdbc(rest, limit - 2), pairs[1..]);
    assert [pairs[0]] + pairs[1..] == pairs;
  }

  lemma NothingToParse(s: string, limit: nat)
    requires s == ""
    ensures ParseOdbc(s, limit) == Parsed([])
  {
  }

  /** Printed pairs come back unchanged, whatever their values contain. */
  lemma {:induction false} MssqlRoundTrip(pairs: seq<Pair>, limit: nat)
    requires forall i | 0 <= i < |pairs| :: PlainName(pairs[i].0)
    requires limit >= 2 * |pairs|
    ensures ParseOdbc(ChainMssql(pairs), limit) == Parsed(pairs)
  {
    if pairs == [] {
      NothingToParse(ChainMssql(pairs), limit);
    } else {
      var rest := pairs[1..];
      assert PlainName(pairs[0].0) && forall i | 0 <= i < |rest| :: rest[i] == pairs[i + 1];
      MssqlRoundTrip(rest, limit - 2);
      MssqlChainStep(pairs, limit);
    }
  }

  // ---- PostgreSQL ----

  /** The white space of the C locale. */
  predicate PgSpace(c: char) {
    '\t' <= c <= '\r' || c == ' '
  }

  function PgEscape(v: string): string {
    if v == "" then ""
    else (if v[0] == '\\' then "\\\\" else if v[0] == '\'' then "\\'" else [v[0]]) + PgEscape(v[1..])
  }

  function QuotePg(v: string): string {
    if v == "" || !ContainsAny(v, {' ', '\'', '\\'}) then v else "'" + PgEscape(v) + "'"
  }

  function SkipPgSpace(s: string): (r: string)
    ensures |r| <= |s|
    ensures r != "" ==> !PgSpace(r[0])
  {
    if s != "" && PgSpace(s[0]) then SkipPgSpace(s[1..]) else s
  }

  /** The inside of a quoted value, and what follows its closing quote. */
  function Quoted(s: string): Parsed<Pair> {
    if s == "" then Failed
    else if s[0] == '\'' then Parsed(("", s[1..]))
    else if s[0] == '\\' then
      if |s| == 1 then Failed else Cons(s[1], Quoted(s[2..]))
    else Cons(s[0], Quoted(s[1..]))
  }

  /** An unquoted value ends at the first white space. */
  function Unquoted(s: string): Pair {
    if s == "" || PgSpace(s[0]) then ("", s)
    else if s[0] == '\\' then
      if |s| == 1 then ("", "") else var p := Unquoted(s[2..]); ([s[1]] + p.0, p.1)
    else var p := Unquoted(s[1..]); ([s[0]] + p.0, p.1)
  }

  function Cons(c: char, p: Parsed<Pair>): Parsed<Pair> {
    match p
    case Failed => Failed
    case Parsed(q) => Parsed(([c] + q.0, q.1))
  }

  function PgValue(s: string): Parsed<Pair> {
    var t := SkipPgSpace(s);
    if t != "" && t[0] == '\'' then Quoted(t[1..]) else Parsed(Unquoted(t))
  }

  /** A keyword ends at `=` or at white space that only an `=` may follow. */
  function PgName(s: string): Pair {
    if s == "" || s[0] == '=' || PgSpace(s[0]) then ("", s)
    else var p := PgName(s[1..]); ([s[0]] + p.0, p.1)
  }

  function ParsePg(s: string, limit: nat): Parsed<seq<Pair>>
    decreases limit
  {
    var t := SkipPgSpace(s);
    if t == "" then Parsed([])
    else if limit == 0 then Failed
    else
      var name := PgName(t);
      var rest := SkipPgSpace(name.1);
      if rest == "" || rest[0] != '=' then Failed
      else
        match PgValue(rest[1..])
        case Failed => Failed
        case Parsed(p) => Joined((name.0, p.0), ParsePg(p.1, limit - 1))
  }

  lemma {:induction false} QuotedInverse(v: string, rest: string)
    ensures Quoted(PgEscape(v) + "'" + rest) == Parsed((v, rest))
  {
    var s := PgEscape(v) + "'" + rest;
    if v == "" {
      assert s == "'" + rest;
      assert s[1..] == rest;
    } else {
      QuotedInverse(v[1..], rest);
      var tail := PgEscape(v[1..]) + "'" + rest;
      assert v == [v[0]] + v[1..];
      if v[0] == '\\' || v[0] == '\'' {
        assert s == ['\\', v[0]] + tail;
        assert s[2..] == tail;
      } else {
        assert s == [v[0]] + tail;
        assert s[1..] == tail;
      }
    }
  }

  /** Up to the first white space, an unquoted text without backslashes is read as it stands. */
  lemma {:induction false} UnquotedReads(v: string, rest: string)
    requires forall i | 0 <= i < |v| :: !PgSpace(v[i]) && v[i] != '\\'
    requires rest == "" || PgSpace(rest[0])
    ensures Unquoted(v + rest) == (v, rest)
  {
    if v == "" {
      assert v + rest == rest;
    } else {
      assert (v + rest)[1..] == v[1..] + rest;
      assert v == [v[0]] + v[1..];
      UnquotedReads(v[1..], rest);
    }
  }

  /** The values that quotePG gets across in the middle of a connection string. */
  predicate PgSafe(v: string) {
    v != "" && (ContainsAny(v, {' ', '\'', '\\'}) || forall i | 0 <= i < |v| :: !PgSpace(v[i]))
  }

  lemma QuotedPgValue(v: string, rest: string)
    ensures PgValue("'" + (PgEscape(v) + "'" + rest)) == Parsed((v, rest))
  {
    var inner := PgEscape(v) + "'" + rest;
    assert ("'" + inner)[1..] == inner;
    QuotedInverse(v, rest);
  }

  lemma BarePgValue(v: string, rest: string)
    requires v != "" && !ContainsAny(v, {' ', '\'', '\\'}) && forall i | 0 <= i < |v| :: !PgSpace(v[i])
    requires rest == "" || PgSpace(rest[0])
    ensures PgValue(v + rest) == Parsed((v, rest))
  {
    assert forall i | 0 <= i < |v| :: v[i] !in {' ', '\'', '\\'};
    assert (v + rest)[0] == v[0];
    UnquotedReads(v, rest);
  }

  lemma PgValueInverse(v: string, rest: string)
    requires PgSafe(v) && (rest == "" || PgSpace(rest[0]))
    ensures PgValue(QuotePg(v) + rest) == Parsed((v, rest))
  {
    if ContainsAny(v, {' ', '\'', '\\'}) {
      QuotedPgValue(v, rest);
      assert QuotePg(v) + rest == "'" + (PgEscape(v) + "'" + rest);
    } else {
      BarePgValue(v, rest);
    }
  }

  predicate PlainPgName(k: string) {
    k != "" && forall i | 0 <= i < |k| :: k[i] != '=' && !PgSpace(k[i])
  }

  lemma {:induction false} PgNameReads(k: string, rest: string)
    requires forall i | 0 <= i < |k| :: k[i] != '=' && !PgSpace(k[i])
    requires rest != "" && rest[0] == '='
    ensures PgName(k + rest) == (k, rest)
  {
    if k == "" {
      assert k + rest == rest;
    } else {
      assert (k + rest)[1..] == k[1..] + rest;
      assert k == [k[0]] + k[1..];
      PgNameReads(k[1..], rest);
    }
  }

  /** A printed keyword and `=` are read back; the value decides the rest. */
  lemma PgAfterName(k: string, tail: string, limit: nat)
    requires PlainPgName(k) && limit > 0
    ensures ParsePg(k + ("=" + tail), limit) ==
            match PgValue(tail)
            case Failed => Failed
            case Parsed(p) => Joined((k, p.0), ParsePg(p.1, limit - 1))
  {
    var s := k + ("=" + tail);
    assert s[0] == k[0];
    PgNameReads(k, "=" + tail);
    assert ("=" + tail)[1..] == tail;
  }

  /** A keyword with its value; `always` marks a value that the template itself puts in quotes. */
  datatype Field = Field(name: string, value: string, always: bool)

  function PgText(f: Field): string {
    if f.always then "'" + PgEscape(f.value) + "'" else QuotePg(f.value)
  }

  function PrintPg(f: Field): string {
    f.name + ("=" + PgText(f))
  }

  function ChainPg(fields: seq<Field>): string {
    if fields == [] then "" else " " + (PrintPg(fields[0]) + ChainPg(fields[1..]))
  }

  function Named(fields: seq<Field>): seq<Pair> {
    if fields == [] then [] else [(fields[0].name, fields[0].value)] + Named(fields[1..])
  }

  /** The values that get across whatever follows them. */
  predicate Survives(f: Field) {
    f.always || PgSafe(f.value)
  }

  /** All fields survive, but nothing follows the last one, so that one may also be empty. */
  predicate Recoverable(fields: seq<Field>) {
    fields == [] ||
    ((Survives(fields[0]) || (fields[0].value == "" && |fields| == 1)) && Recoverable(fields[1..]))
  }

  lemma FieldInverse(f: Field, rest: string, limit: nat)
    requires PlainPgName(f.name) && Survives(f) && (rest == "" || PgSpace(rest[0])) && limit > 0
    ensures ParsePg(PrintPg(f) + rest, limit) == Joined((f.name, f.value), ParsePg(rest, limit - 1))
  {
    assert PrintPg(f) + rest == f.name + ("=" + (PgText(f) + rest));
    PgAfterName(f.name, PgText(f) + rest, limit);
    if f.always {
      QuotedPgValue(f.value, rest);
      assert PgText(f) + rest == "'" + (PgEscape(f.value) + "'" + rest);
    } else {
      PgValueInverse(f.value, rest);
    }
  }

  lemma SkipPgSeparator(rest: string, limit: nat)
    ensures ParsePg(" " + rest, limit) == ParsePg(rest, limit)
  {
    assert (" " + rest)[1..] == rest;
  }

  // ---- where quotePG falls short ----

  /** A text that an unquoted value could start with. */
  predicate StartsBare(t: string) {
    t != "" && !PgSpace(t[0]) && t[0] != '\'' && t[0] != '\\'
  }

  lemma {:induction false} SkipOver(v: string, rest: string)
    ensures SkipPgSpace(v + rest) == if SkipPgSpace(v) == "" then SkipPgSpace(rest) else SkipPgSpace(v) + rest
    ensures forall c | c in SkipPgSpace(v) :: c in v
  {
    if v == "" {
      assert v + rest == rest;
    } else {
      assert (v + rest)[1..] == v[1..] + rest;
      SkipOver(v[1..], rest);
    }
  }

  lemma {:induction false} UnquotedCut(v: string, rest: string)
    requires '\\' !in v && exists i :: 0 <= i < |v| && PgSpace(v[i])
    ensures |Unquoted(v + rest).0| < |v|
  {
    if !PgSpace(v[0]) {
      var i :| 0 <= i < |v| && PgSpace(v[i]);
      assert v[1..][i - 1] == v[i];
      assert (v + rest)[1..] == v[1..] + rest;
      UnquotedCut(v[1..], rest);
    }
  }

  lemma BareValueStarts(s: string)
    requires StartsBare(SkipPgSpace(s))
    ensures PgValue(s).Parsed?
    ensures PgValue(s).value.0 != "" && PgValue(s).value.0[0] == SkipPgSpace(s)[0]
  {
  }

  /** An unquoted value is not read back if it holds white space, or if it is empty and a field follows. */
  lemma ValueLost(v: string, rest: string)
    requires !PgSafe(v) && (v == "" ==> rest != "")
    requires rest == "" || StartsBare(SkipPgSpace(rest))
    ensures PgValue(QuotePg(v) + rest).Parsed? && PgValue(QuotePg(v) + rest).value.0 != v
  {
    assert forall i | 0 <= i < |v| :: v[i] !in {' ', '\'', '\\'};
    var s := v + rest;
    assert QuotePg(v) + rest == s;
    SkipOver(v, rest);
    if v == "" || PgSpace(v[0]) {
      var t := SkipPgSpace(s);
      assert t != "" && SkipPgSpace(v) != "" ==> t[0] == SkipPgSpace(v)[0] && t[0] in v;
      if t != "" {
        BareValueStarts(s);
      }
    } else {
      UnquotedCut(v, rest);
    }
  }

  predicate FieldName(k: string) {
    PlainPgName(k) && StartsBare(k)
  }

  lemma ChainStartsBare(fields: seq<Field>)
    requires fields != [] && FieldName(fields[0].name)
    ensures StartsBare(SkipPgSpace(ChainPg(fields)))
  {
    var text := PrintPg(fields[0]) + ChainPg(fields[1..]);
    assert text[0] == fields[0].name[0];
    assert (" " + text)[1..] == text;
  }

  lemma JoinedIff(first: Pair, parsed: Parsed<seq<Pair>>, rest: seq<Pair>)
    ensures Joined(first, parsed) == Parsed([first] + rest) <==> parsed == Parsed(rest)
  {
    if parsed.Parsed? {
      assert ([first] + parsed.value)[1..] == parsed.value && ([first] + rest)[1..] == rest;
    }
  }

  lemma OtherValue(k: string, v: string, p: Parsed<Pair>, parsed: Parsed<seq<Pair>>, rest: seq<Pair>)
    requires p.Parsed? && p.value.0 != v
    ensures Joined((k, p.value.0), parsed) != Parsed([(k, v)] + rest)
  {
    if parsed.Parsed? {
      assert ([(k, p.value.0)] + parsed.value)[0] != ([(k, v)] + rest)[0];
    }
  }

  /** What the first field of a chain contributes. */
  lemma PgChainStep(fields: seq<Field>, limit: nat)
    requires fields != [] && FieldName(fields[0].name) && limit > 0
    requires |fields| > 1 ==> FieldName(fields[1].name)
    ensures if Survives(fields[0]) || (fields[0].value == "" && |fields| == 1)
            then ParsePg(ChainPg(fields), limit) == Joined(Named(fields)[0], ParsePg(ChainPg(fields[1..]), limit - 1))
            else ParsePg(ChainPg(fields), limit) != Parsed(Named(fields))
  {
    var f, rest := fields[0], ChainPg(fields[1..]);
    var tail := PgText(f) + rest;
    SkipPgSeparator(PrintPg(f) + rest, limit);
    if |fields| > 1 {
      ChainStartsBare(fields[1..]);
    }
    if Survives(f) {
      FieldInverse(f, rest, limit);
    } else {
      assert PrintPg(f) + rest == f.name + ("=" + tail);
      PgAfterName(f.name, tail, limit);
      if f.value == "" && |fields| == 1 {
        assert tail == "";
      } else {
        ValueLost(f.value, rest);
        var p := PgValue(tail);
        OtherValue(f.name, f.value, p, ParsePg(p.value.1, limit - 1), Named(fields[1..]));
      }
    }
  }

  /**
   * A PostgreSQL string returns its fields exactly if every value is quoted by the template,
   * or is non-empty and either gets quoted (it holds a space, quote or backslash) or holds no
   * white space; only the last value may be empty.
   */
  lemma {:induction false} PgRoundTripIff(fields: seq<Field>, limit: nat)
    requires forall i | 0 <= i < |fields| :: FieldName(fields[i].name)
    requires limit >= |fields|
    ensures ParsePg(ChainPg(fields), limit) == Parsed(Named(fields)) <==> Recoverable(fields)
  {
    if fields != [] {
      PgChainStep(fields, limit);
      PgRoundTripIff(fields[1..], limit - 1);
      JoinedIff(Named(fields)[0], ParsePg(ChainPg(fields[1..]), limit - 1), Named(fields[1..]));
    }
  }
}
