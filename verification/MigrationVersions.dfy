/**
 * Version numbers and file loading of gormx/migrate: which file names and header lines
 * yield a version, how versions are ordered, and what loadMigrationFiles returns.
 */
module MigrationVersions {
  import opened Strings

  const BASELINE_PREFIX := "00000000_000"
  const BASELINE_NAME := BASELINE_PREFIX + "_baseline.sql"
  const VERSION_PREFIX := "-- @version "
  const VERSION_PREFIX_2 := "--@version "

  datatype MigrationType = Ddl | Seed

  datatype MigFile = MigFile(name: string, version: string, kind: MigrationType, baseline: bool)

  /** A directory entry together with the lines of the file (empty when it cannot be read). */
  datatype Entry = Entry(name: string, isDir: bool, lines: seq<string>)

  // ---- version syntax ----

  predicate AllDigits(value: string) {
    forall i | 0 <= i < |value| :: '0' <= value[i] <= '9'
  }

  predicate IsDigits(value: string) {
    value != [] && AllDigits(value)
  }

  predicate IsMigrationVersion(value: string) {
    var parts := Split(value, '_');
    && |parts| == 2
    && |parts[0]| == 8
    && |parts[1]| == 3
    && IsDigits(parts[0])
    && IsDigits(parts[1])
  }

  function ExtractNameVersion(name: string): string {
    if !HasSuffix(name, ".sql") then ""
    else
      var parts := SplitN(name[..|name| - 4], '_', 3);
      if && |parts| == 3
         && |parts[0]| == 8
         && |parts[1]| == 3
         && parts[2] != ""
         && IsDigits(parts[0])
         && IsDigits(parts[1])
      then parts[0] + "_" + parts[1]
      else ""
  }

  /** The shape YYYYMMDD_NNN, written without splitting. */
  predicate WellFormed(v: string) {
    |v| == 12 && v[8] == '_' && IsDigits(v[..8]) && IsDigits(v[9..])
  }

  lemma SplitAt(s: string, i: nat, n: nat)
    requires i < |s| && s[i] == '_' && '_' !in s[..i] && n > 1
    ensures SplitN(s, '_', n) == [s[..i]] + SplitN(s[i + 1..], '_', n - 1)
  {
    IndexOfUnique(s, '_', i);
  }

  lemma VersionShape(v: string)
    ensures IsMigrationVersion(v) <==> WellFormed(v)
  {
    var i := IndexOf(v, '_');
    if i < |v| {
      var rest := v[i + 1..];
      assert Split(v, '_') == [v[..i]] + SplitN(rest, '_', |v|);
      var j := IndexOf(rest, '_');
      if j < |rest| {
        assert v[i + 1 + j] == '_';
        if i == 8 && |v| == 12 {
          assert v[i + 1 + j] == v[9..][j];
        }
      } else {
        assert SplitN(rest, '_', |v|) == [rest];
      }
    }
    if WellFormed(v) {
      assert forall k | 0 <= k < 8 :: v[k] == v[..8][k];
      SplitAt(v, 8, 13);
      var rest := v[9..];
      IndexOfUnique(rest, '_', |rest|);
      assert Split(v, '_') == [v[..8], rest];
    }
  }

  /** extractNameVersion accepts exactly version + "_" + description + ".sql", and returns the version. */
  lemma NameVersionInverse(name: string, v: string)
    requires v != ""
    ensures ExtractNameVersion(name) == v <==>
            WellFormed(v) && exists desc :: desc != "" && name == v + "_" + desc + ".sql"
  {
    if ExtractNameVersion(name) == v {
      NameVersionSplit(name, v);
    }
    if WellFormed(v) && exists desc :: desc != "" && name == v + "_" + desc + ".sql" {
      var desc :| desc != "" && name == v + "_" + desc + ".sql";
      NameVersionRoundTrip(v, desc);
    }
  }

  lemma NameVersionSplit(name: string, v: string)
    requires v != "" && ExtractNameVersion(name) == v
    ensures WellFormed(v)
    ensures exists desc :: desc != "" && name == v + "_" + desc + ".sql"
  {
    var base := name[..|name| - 4];
    var i := IndexOf(base, '_');
    var rest := base[i + 1..];
    var parts := SplitN(base, '_', 3);
    assert parts == [base[..i]] + SplitN(rest, '_', 2);
    var j := IndexOf(rest, '_');
    assert SplitN(rest, '_', 2) == [rest[..j]] + SplitN(rest[j + 1..], '_', 1);
    var desc := rest[j + 1..];
    assert rest == rest[..j] + "_" + desc;
    assert base == base[..i] + "_" + rest;
    assert name == base + ".sql";
    assert v == base[..i] + "_" + rest[..j];
    assert v[..8] == base[..i] && v[9..] == rest[..j];
    assert name == v + "_" + desc + ".sql";
  }

  lemma NameVersionRoundTrip(v: string, desc: string)
    requires WellFormed(v) && desc != ""
    ensures ExtractNameVersion(v + "_" + desc + ".sql") == v
  {
    var name := v + "_" + desc + ".sql";
    var base := v + "_" + desc;
    assert name[..|name| - 4] == base;
    assert base[..8] == v[..8];
    SplitAt(base, 8, 3);
    var rest := base[9..];
    assert rest == v[9..] + "_" + desc;
    assert rest[..3] == v[9..];
    SplitAt(rest, 3, 2);
    assert rest[4..] == desc;
    assert v == v[..8] + "_" + v[9..];
  }

  // ---- version order ----

  function Pow10(n: nat): nat {
    if n == 0 then 1 else 10 * Pow10(n - 1)
  }

  function Digit(c: char): (d: nat)
    requires '0' <= c <= '9'
    ensures d <= 9
  {
    c as int - '0' as int
  }

  /** The number a digit string denotes. */
  function Value(s: string): nat
    requires AllDigits(s)
  {
    if s == [] then 0 else Digit(s[0]) * Pow10(|s| - 1) + Value(s[1..])
  }

  function Date(v: string): nat requires WellFormed(v) { Value(v[..8]) }

  function Sequence(v: string): nat requires WellFormed(v) { Value(v[9..]) }

  lemma Scaled(a: nat, b: nat, p: nat)
    requires a <= b
    ensures a * p <= b * p
  {
  }

  lemma {:induction false} ValueBound(s: string)
    requires AllDigits(s)
    ensures Value(s) < Pow10(|s|)
  {
    if s != [] {
      ValueBound(s[1..]);
      Scaled(Digit(s[0]), 9, Pow10(|s| - 1));
    }
  }

  /** The leading digits decide unless they agree. */
  lemma LeadingDigit(da: nat, db: nat, p: nat, va: nat, vb: nat)
    requires va < p && vb < p
    ensures da * p + va < db * p + vb <==> da < db || (da == db && va < vb)
    ensures da * p + va == db * p + vb <==> da == db && va == vb
  {
    if da < db {
      Scaled(da + 1, db, p);
    } else if db < da {
      Scaled(db + 1, da, p);
    }
  }

  lemma {:induction false} DigitOrder(a: string, b: string)
    requires |a| == |b|
    requires AllDigits(a) && AllDigits(b)
    ensures Less(a, b) <==> Value(a) < Value(b)
    ensures a == b <==> Value(a) == Value(b)
  {
    if a != [] {
      DigitOrder(a[1..], b[1..]);
      ValueBound(a[1..]);
      ValueBound(b[1..]);
      LeadingDigit(Digit(a[0]), Digit(b[0]), Pow10(|a| - 1), Value(a[1..]), Value(b[1..]));
      assert a == [a[0]] + a[1..] && b == [b[0]] + b[1..];
    }
  }

  lemma {:induction false} LessOfConcat(p: string, q: string, p': string, q': string)
    requires |p| == |p'|
    ensures Less(p + q, p' + q') <==> Less(p, p') || (p == p' && Less(q, q'))
  {
    if p == [] {
      assert p + q == q && p' + q' == q';
    } else {
      LessOfConcat(p[1..], q, p'[1..], q');
      assert (p + q)[1..] == p[1..] + q && (p' + q')[1..] == p'[1..] + q';
      assert p == [p[0]] + p[1..] && p' == [p'[0]] + p'[1..];
    }
  }

  /** String order on well-formed versions is numeric order on (date, sequence). */
  lemma VersionOrder(a: string, b: string)
    requires WellFormed(a) && WellFormed(b)
    ensures Less(a, b) <==> Date(a) < Date(b) || (Date(a) == Date(b) && Sequence(a) < Sequence(b))
    ensures a == b <==> Date(a) == Date(b) && Sequence(a) == Sequence(b)
  {
    assert a == a[..8] + ("_" + a[9..]) && b == b[..8] + ("_" + b[9..]);
    LessOfConcat(a[..8], "_" + a[9..], b[..8], "_" + b[9..]);
    LessOfConcat("_", a[9..], "_", b[9..]);
    DigitOrder(a[..8], b[..8]);
    DigitOrder(a[9..], b[9..]);
  }

  // ---- header declaration ----

  function CutVersion(line: string, prefix: string): (string, bool) {
    if prefix <= line then (line[|prefix|..], true) else ("", false)
  }

  /** A line that the header scan passes over: blank, or a comment that declares no version. */
  predicate Skipped(line: string) {
    var t := TrimSpace(line);
    !(VERSION_PREFIX <= t) && !(VERSION_PREFIX_2 <= t) && (t == "" || "--" <= t)
  }

  /** What a line declares; "" when it declares nothing. */
  function Declared(line: string): string {
    var t := TrimSpace(line);
    if VERSION_PREFIX <= t then TrimSpace(t[|VERSION_PREFIX|..])
    else if VERSION_PREFIX_2 <= t then TrimSpace(t[|VERSION_PREFIX_2|..])
    else ""
  }

  function HeaderVersion(lines: seq<string>): string {
    if lines == [] then ""
    else if Skipped(lines[0]) then HeaderVersion(lines[1..])
    else Declared(lines[0])
  }

  /** The first line that is not skipped decides, whatever follows it. */
  lemma {:induction false} HeaderIsFirstDeclaration(lines: seq<string>, k: nat)
    requires k <= |lines| && forall j | 0 <= j < k :: Skipped(lines[j])
    requires k < |lines| ==> !Skipped(lines[k])
    ensures HeaderVersion(lines) == if k < |lines| then Declared(lines[k]) else ""
  {
    if k > 0 {
      HeaderIsFirstDeclaration(lines[1..], k - 1);
    }
  }

  method ParseHeaderVersion(lines: seq<string>) returns (version: string)
    ensures version == HeaderVersion(lines)
  {
    for i := 0 to |lines|
      invariant HeaderVersion(lines) == HeaderVersion(lines[i..])
    {
      assert lines[i..][0] == lines[i] && lines[i..][1..] == lines[i + 1..];
      var line := TrimSpace(lines[i]);
      var first := CutVersion(line, VERSION_PREFIX);
      if first.1 {
        return TrimSpace(first.0);
      }
      var second := CutVersion(line, VERSION_PREFIX_2);
      if second.1 {
        return TrimSpace(second.0);
      }
      if line != "" && !("--" <= line) {
        return "";
      }
    }
    version := "";
  }

  function ResolveVersion(name: string, lines: seq<string>): (v: string)
    ensures v != "" ==> WellFormed(v) && ExtractNameVersion(name) != ""
  {
    VersionShape(HeaderVersion(lines));
    if ExtractNameVersion(name) == "" then ""
    else if IsMigrationVersion(HeaderVersion(lines)) then HeaderVersion(lines)
    else if BASELINE_PREFIX <= name then ""
    else
      NameVersionSplit(name, ExtractNameVersion(name));
      ExtractNameVersion(name)
  }

  // ---- loading a directory ----

  /** The sort key of loadMigrationFiles. */
  predicate Before(f: MigFile, g: MigFile) {
    Less(f.version, g.version) || (f.version == g.version && Less(f.name, g.name))
  }

  predicate Sorted(files: seq<MigFile>) {
    forall i, j | 0 <= i < j < |files| :: Before(files[i], files[j])
  }

  predicate Accepted(e: Entry, kind: MigrationType) {
    && !e.isDir
    && HasSuffix(e.name, ".sql")
    && !(kind.Ddl? && BASELINE_PREFIX <= e.name && e.name != BASELINE_NAME)
    && ResolveVersion(e.name, e.lines) != ""
  }

  function FileOf(e: Entry, kind: MigrationType): MigFile {
    MigFile(e.name, ResolveVersion(e.name, e.lines), kind, BASELINE_PREFIX <= e.name)
  }

  // ---- what an entry is loaded as ----

  /** The file is named version + "_" + description + ".sql". */
  ghost predicate NamedVersion(name: string, v: string) {
    WellFormed(v) && exists desc :: desc != "" && name == v + "_" + desc + ".sql"
  }

  /** The first line that is not skipped, which ends the search, declares h; nothing is declared if all are skipped. */
  ghost predicate Declares(lines: seq<string>, h: string) {
    exists k: nat | k <= |lines| ::
      && (forall j | 0 <= j < k :: Skipped(lines[j]))
      && (if k < |lines| then !Skipped(lines[k]) && h == Declared(lines[k]) else h == "")
  }

  lemma HeaderDeclares(lines: seq<string>, h: string)
    requires Declares(lines, h)
    ensures HeaderVersion(lines) == h
  {
    var k: nat :| k <= |lines| && (forall j | 0 <= j < k :: Skipped(lines[j]))
                  && (if k < |lines| then !Skipped(lines[k]) && h == Declared(lines[k]) else h == "");
    HeaderIsFirstDeclaration(lines, k);
  }

  /** A DDL directory has room for one baseline name only. */
  predicate WrongBaseline(name: string, kind: MigrationType) {
    kind.Ddl? && BASELINE_PREFIX <= name && name != BASELINE_NAME
  }

  /**
   * What becomes of a file named by version v whose header declares h: a well-formed h is its version;
   * otherwise v is, unless the name starts with the baseline prefix: then the file is not loaded.
   */
  lemma LoadedAs(e: Entry, kind: MigrationType, v: string, h: string)
    requires NamedVersion(e.name, v) && Declares(e.lines, h)
    ensures Accepted(e, kind) <==>
            !e.isDir && !WrongBaseline(e.name, kind) && (WellFormed(h) || !(BASELINE_PREFIX <= e.name))
    ensures Accepted(e, kind) ==>
              FileOf(e, kind) == MigFile(e.name, if WellFormed(h) then h else v, kind, BASELINE_PREFIX <= e.name)
  {
    NameVersionInverse(e.name, v);
    HeaderDeclares(e.lines, h);
    VersionShape(h);
  }

  /** A file that is not named by a version is not loaded, whatever its header declares. */
  lemma UnnamedIsSkipped(e: Entry, kind: MigrationType)
    requires forall v :: !NamedVersion(e.name, v)
    ensures !Accepted(e, kind)
  {
    var v := ExtractNameVersion(e.name);
    if v != "" {
      NameVersionInverse(e.name, v);
      assert NamedVersion(e.name, v);
    }
  }

  lemma BeforeTransitive(f: MigFile, g: MigFile, h: MigFile)
    requires Before(f, g) && Before(g, h)
    ensures Before(f, h)
  {
    LessTransitive(f.version, g.version, h.version);
    LessTransitive(f.name, g.name, h.name);
  }

  /** Inserts a file whose key differs from all keys present. */
  function Insert(f: MigFile, files: seq<MigFile>): (r: seq<MigFile>)
    requires Sorted(files) && forall g | g in files :: g.name != f.name
    ensures Sorted(r) && multiset(r) == multiset(files) + multiset{f}
  {
    if files == [] || Before(f, files[0]) then
      BeforeAll(f, files);
      Prepended(f, files);
      [f] + files
    else
      assert files == [files[0]] + files[1..];
      var rest := Insert(f, files[1..]);
      FirstStaysFirst(f, files, rest);
      Prepended(files[0], rest);
      [files[0]] + rest
  }

  lemma BeforeAll(f: MigFile, files: seq<MigFile>)
    requires Sorted(files) && (files == [] || Before(f, files[0]))
    ensures forall g | g in files :: Before(f, g)
  {
    forall j | 0 < j < |files| ensures Before(f, files[j]) { BeforeTransitive(f, files[0], files[j]); }
  }

  lemma FirstStaysFirst(f: MigFile, files: seq<MigFile>, rest: seq<MigFile>)
    requires Sorted(files) && files != [] && !Before(f, files[0]) && files[0].name != f.name
    requires multiset(rest) == multiset(files[1..]) + multiset{f}
    ensures forall g | g in rest :: Before(files[0], g)
  {
    LessTotal(f.version, files[0].version);
    LessTotal(f.name, files[0].name);
    forall g | g in rest ensures Before(files[0], g) {
      assert g in multiset(rest);
    }
  }

  lemma Prepended(f: MigFile, files: seq<MigFile>)
    requires Sorted(files) && forall g | g in files :: Before(f, g)
    ensures Sorted([f] + files) && multiset([f] + files) == multiset(files) + multiset{f}
  {
    var all := [f] + files;
    forall i, j | 0 <= i < j < |all| ensures Before(all[i], all[j]) {
      assert all[j] == files[j - 1] && files[j - 1] in files;
    }
  }

  predicate DistinctFileNames(files: seq<MigFile>) {
    forall i, j | 0 <= i < j < |files| :: files[i].name != files[j].name
  }

  /** sort.Slice: the arrangement is unique because no two names are equal. */
  function SortFiles(files: seq<MigFile>): (r: seq<MigFile>)
    requires DistinctFileNames(files)
    ensures Sorted(r) && multiset(r) == multiset(files)
  {
    if files == [] then []
    else
      assert files == [files[0]] + files[1..];
      var rest := SortFiles(files[1..]);
      assert forall g | g in rest :: g.name != files[0].name by {
        forall g | g in rest ensures g.name != files[0].name { assert g in multiset(rest); }
      }
      Insert(files[0], rest)
  }

  /** What the runner relies on. */
  predicate Loaded(files: seq<MigFile>, kind: MigrationType) {
    && Sorted(files)
    && forall f | f in files :: f.kind == kind && WellFormed(f.version)
  }

  /** The accepted entries, in directory order. */
  function AcceptedFiles(entries: seq<Entry>, kind: MigrationType): seq<MigFile> {
    if entries == [] then []
    else
      var e := entries[|entries| - 1];
      AcceptedFiles(entries[..|entries| - 1], kind) + if Accepted(e, kind) then [FileOf(e, kind)] else []
  }

  predicate DistinctNames(entries: seq<Entry>) {
    forall i, j | 0 <= i < j < |entries| :: entries[i].name != entries[j].name
  }

  lemma {:induction false} AcceptedMembers(entries: seq<Entry>, kind: MigrationType)
    ensures forall f :: f in AcceptedFiles(entries, kind) <==>
                        exists e :: e in entries && Accepted(e, kind) && f == FileOf(e, kind)
  {
    if entries != [] {
      var n := |entries| - 1;
      AcceptedMembers(entries[..n], kind);
      assert entries == entries[..n] + [entries[n]];
      assert forall e :: e in entries <==> e in entries[..n] || e == entries[n];
    }
  }

  lemma {:induction false} AcceptedDistinct(entries: seq<Entry>, kind: MigrationType)
    requires DistinctNames(entries)
    ensures DistinctFileNames(AcceptedFiles(entries, kind))
  {
    if entries != [] {
      var n := |entries| - 1;
      assert forall i, j | 0 <= i < j < n :: entries[..n][i].name != entries[..n][j].name;
      AcceptedDistinct(entries[..n], kind);
      EarlierNamesDiffer(entries, n, kind);
      NewNameAppended(AcceptedFiles(entries[..n], kind), FileOf(entries[n], kind));
    }
  }

  lemma EarlierNamesDiffer(entries: seq<Entry>, n: nat, kind: MigrationType)
    requires DistinctNames(entries) && n < |entries|
    ensures forall f | f in AcceptedFiles(entries[..n], kind) :: f.name != entries[n].name
  {
    AcceptedMembers(entries[..n], kind);
    forall f | f in AcceptedFiles(entries[..n], kind) ensures f.name != entries[n].name {
      var e :| e in entries[..n] && Accepted(e, kind) && f == FileOf(e, kind);
      var k :| 0 <= k < n && entries[..n][k] == e;
    }
  }

  lemma NewNameAppended(files: seq<MigFile>, f: MigFile)
    requires DistinctFileNames(files) && forall g | g in files :: g.name != f.name
    ensures DistinctFileNames(files + [f])
  {
  }

  method LoadMigrationFiles(entries: seq<Entry>, kind: MigrationType) returns (files: seq<MigFile>)
    requires DistinctNames(entries)
    ensures Loaded(files, kind)
    ensures forall f :: f in files <==> exists e :: e in entries && Accepted(e, kind) && f == FileOf(e, kind)
    ensures forall e, v, h | e in entries && NamedVersion(e.name, v) && Declares(e.lines, h) && !e.isDir ::
              LoadedEntry(files, e.name, kind, v, h)
    ensures kind.Ddl? ==> forall i, j | 0 <= i < j < |files| :: !(files[i].baseline && files[j].baseline)
  {
    files := [];
    for i := 0 to |entries|
      invariant files == AcceptedFiles(entries[..i], kind)
    {
      var e := entries[i];
      assert entries[..i + 1][..i] == entries[..i];
      if e.isDir || !HasSuffix(e.name, ".sql") {
        continue;
      }
      if kind.Ddl? && BASELINE_PREFIX <= e.name && e.name != BASELINE_NAME {
        continue;
      }
      var version := ResolveVersion(e.name, e.lines);
      if version == "" {
        continue;
      }
      files := files + [MigFile(e.name, version, kind, BASELINE_PREFIX <= e.name)];
    }
    assert entries[..|entries|] == entries;
    ghost var accepted := files;
    AcceptedDistinct(entries, kind);
    files := SortFiles(files);
    AcceptedMembers(entries, kind);
    SortKeepsMembers(accepted, files);
    OneDdlBaseline(entries, files, kind);
    forall e, v, h | e in entries && NamedVersion(e.name, v) && Declares(e.lines, h) && !e.isDir
      ensures LoadedEntry(files, e.name, kind, v, h)
    {
      EntryIsLoaded(entries, files, kind, e, v, h);
    }
  }

  /** The only file of that name, with the version it should have; or none. */
  ghost predicate LoadedEntry(files: seq<MigFile>, name: string, kind: MigrationType, v: string, h: string) {
    var baseline := BASELINE_PREFIX <= name;
    var loaded := !WrongBaseline(name, kind) && (WellFormed(h) || !baseline);
    forall f :: f in files && f.name == name <==>
      loaded && f == MigFile(name, if WellFormed(h) then h else v, kind, baseline)
  }

  lemma EntryIsLoaded(entries: seq<Entry>, files: seq<MigFile>, kind: MigrationType, e: Entry, v: string, h: string)
    requires DistinctNames(entries) && e in entries && !e.isDir
    requires NamedVersion(e.name, v) && Declares(e.lines, h)
    requires forall f :: f in files <==> exists e :: e in entries && Accepted(e, kind) && f == FileOf(e, kind)
    ensures LoadedEntry(files, e.name, kind, v, h)
  {
    LoadedAs(e, kind, v, h);
    forall f | f in files && f.name == e.name ensures Accepted(e, kind) && f == FileOf(e, kind) {
      var e' :| e' in entries && Accepted(e', kind) && f == FileOf(e', kind);
      assert e' == e;
    }
  }

  lemma SortKeepsMembers(accepted: seq<MigFile>, files: seq<MigFile>)
    requires multiset(accepted) == multiset(files)
    ensures forall f :: f in files <==> f in accepted
  {
    assert forall f :: f in files <==> f in multiset(files);
    assert forall f :: f in accepted <==> f in multiset(accepted);
  }

  /** All DDL baselines carry one name, and names are distinct. */
  lemma OneDdlBaseline(entries: seq<Entry>, files: seq<MigFile>, kind: MigrationType)
    requires DistinctNames(entries) && Sorted(files)
    requires forall f :: f in files <==> exists e :: e in entries && Accepted(e, kind) && f == FileOf(e, kind)
    ensures kind.Ddl? ==> forall i, j | 0 <= i < j < |files| :: !(files[i].baseline && files[j].baseline)
  {
    forall i, j | kind.Ddl? && 0 <= i < j < |files| && files[i].baseline && files[j].baseline ensures false {
      var f, g := files[i], files[j];
      assert f in files && g in files;
      var e :| e in entries && Accepted(e, kind) && f == FileOf(e, kind);
      var e' :| e' in entries && Accepted(e', kind) && g == FileOf(e', kind);
      assert e == e';
      LessTotal(files[i].version, files[i].version);
      LessTotal(files[i].name, files[i].name);
    }
  }
}
