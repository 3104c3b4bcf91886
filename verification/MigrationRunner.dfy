/**
 * runMigrationFiles and Run of gormx/migrate as a resumable machine over the table
 * schema_migrations. The plan of a run is the sequence of files a fault-free run executes;
 * everything else is stated against it.
 */
module MigrationRunner {
  import opened Strings
  import opened MigrationVersions

  /** A row of schema_migrations; the table lists its rows in the order of their commits. */
  datatype Row = Row(version: string, kind: MigrationType)

  type Table = seq<Row>

  /** SELECT COALESCE(MAX(version), '') ... WHERE type = kind */
  function Latest(table: Table, kind: MigrationType): string {
    if table == [] then ""
    else
      var earlier := Latest(table[..|table| - 1], kind);
      var row := table[|table| - 1];
      if row.kind == kind && Less(earlier, row.version) then row.version else earlier
  }

  /** Latest is the maximum: a recorded version of the kind, or "", and never below any of them. */
  lemma {:induction false} LatestIsMaximum(table: Table, kind: MigrationType)
    ensures Latest(table, kind) == "" || Row(Latest(table, kind), kind) in table
    ensures forall row | row in table && row.kind == kind :: !Less(Latest(table, kind), row.version)
  {
    if table != [] {
      var n := |table| - 1;
      LatestIsMaximum(table[..n], kind);
      var earlier, latest := Latest(table[..n], kind), Latest(table, kind);
      assert table == table[..n] + [table[n]];
      LessTotal(earlier, table[n].version);
      Irreflexive(latest);
      forall row | row in table && row.kind == kind ensures !Less(latest, row.version) {
        if row in table[..n] {
          NotLessTransitive(earlier, latest, row.version);
        }
      }
    }
  }

  lemma LatestOfAppend(table: Table, row: Row, kind: MigrationType)
    ensures Latest(table + [row], kind) ==
            if row.kind == kind && Less(Latest(table, kind), row.version) then row.version else Latest(table, kind)
  {
    assert (table + [row])[..|table|] == table;
  }

  function RowOf(f: MigFile): Row {
    Row(f.version, f.kind)
  }

  function Rows(files: seq<MigFile>): (rows: Table)
    ensures |rows| == |files|
    ensures forall i | 0 <= i < |rows| :: rows[i] == RowOf(files[i])
  {
    seq(|files|, i requires 0 <= i < |files| => RowOf(files[i]))
  }

  predicate Distinct(table: Table) {
    forall i, j | 0 <= i < j < |table| :: table[i] != table[j]
  }

  lemma RowsOfConcat(table: Table, a: seq<MigFile>, b: seq<MigFile>)
    ensures table + Rows(a + b) == table + Rows(a) + Rows(b)
  {
    assert Rows(a + b) == Rows(a) + Rows(b);
  }

  // ---- the plan ----

  /** The files the main loop executes from a given `latest`. */
  function Pending(files: seq<MigFile>, kind: MigrationType, latest: string): seq<MigFile> {
    if files == [] then []
    else if files[0].kind == kind && !files[0].baseline && Less(latest, files[0].version)
    then [files[0]] + Pending(files[1..], kind, files[0].version)
    else Pending(files[1..], kind, latest)
  }

  function Baselines(files: seq<MigFile>): seq<MigFile> {
    if files == [] then []
    else (if files[0].baseline then [files[0]] else []) + Baselines(files[1..])
  }

  /** The steps of a fault-free run, and whether it ends in an error of its own. */
  datatype Plan = Plan(steps: seq<MigFile>, err: bool)

  function FilesPlan(files: seq<MigFile>, table: Table): Plan {
    if files == [] then Plan([], false)
    else
      var kind := files[0].kind;
      var baselines := Baselines(files);
      var latest := Latest(table, kind);
      if |baselines| > 1 then Plan([], true)
      else if latest != "" then Plan(Pending(files, kind, latest), false)
      else if baselines == [] then Plan([], true)
      else Plan([baselines[0]] + Pending(files, kind, baselines[0].version), false)
  }

  lemma {:induction false} BaselinesAreFiles(files: seq<MigFile>)
    ensures forall b | b in Baselines(files) :: b in files && b.baseline
    ensures forall f | f in files && f.baseline :: f in Baselines(files)
  {
    if files != [] {
      assert files == [files[0]] + files[1..];
      BaselinesAreFiles(files[1..]);
    }
  }

  /** Executed versions strictly increase from `latest` on. */
  ghost predicate Rising(latest: string, steps: seq<MigFile>) {
    && (forall i | 0 <= i < |steps| :: Less(latest, steps[i].version))
    && (forall i, j | 0 <= i < j < |steps| :: Less(steps[i].version, steps[j].version))
  }

  lemma {:induction false} PendingRises(files: seq<MigFile>, kind: MigrationType, latest: string)
    ensures Rising(latest, Pending(files, kind, latest))
    ensures forall f | f in Pending(files, kind, latest) :: f in files && f.kind == kind && !f.baseline
  {
    if files != [] {
      assert files == [files[0]] + files[1..];
      if files[0].kind == kind && !files[0].baseline && Less(latest, files[0].version) {
        PendingRises(files[1..], kind, files[0].version);
        var rest := Pending(files[1..], kind, files[0].version);
        forall i | 0 <= i < |rest| ensures Less(latest, rest[i].version) {
          LessTransitive(latest, files[0].version, rest[i].version);
        }
      } else {
        PendingRises(files[1..], kind, latest);
      }
    }
  }

  /**
   * An independent reading of the loop on sorted files: a file runs exactly when it is no
   * baseline, lies above `latest`, and is the first by name of its version.
   */
  lemma {:induction false} PendingMembers(files: seq<MigFile>, kind: MigrationType, latest: string, f: MigFile)
    requires Loaded(files, kind)
    ensures f in Pending(files, kind, latest) <==>
            && f in files && !f.baseline && Less(latest, f.version)
            && forall g | g in files && !g.baseline && g.version == f.version :: g == f || Less(f.name, g.name)
  {
    if files != [] {
      var h, rest := files[0], files[1..];
      assert files == [h] + rest;
      assert forall g | g in rest :: Before(h, g);
      Irreflexive(h.version);
      Irreflexive(h.name);
      LessTotal(h.name, f.name);
      LessTotal(h.version, f.version);
      if !h.baseline && Less(latest, h.version) {
        PendingMembers(rest, kind, h.version, f);
        LessTransitive(latest, h.version, f.version);
      } else {
        PendingMembers(rest, kind, latest, f);
        if f == h {
          PendingRises(rest, kind, latest);
        }
      }
    }
  }

  // ---- resuming ----

  lemma {:induction false} PendingAfter(files: seq<MigFile>, kind: MigrationType, latest: string, k: nat)
    requires 0 < k <= |Pending(files, kind, latest)|
    ensures Pending(files, kind, Pending(files, kind, latest)[k - 1].version) == Pending(files, kind, latest)[k..]
  {
    var steps := Pending(files, kind, latest);
    var reached := steps[k - 1].version;
    PendingRises(files, kind, latest);
    var f := files[0];
    if f.kind == kind && !f.baseline && Less(latest, f.version) {
      if k == 1 {
        Irreflexive(f.version);
      } else {
        assert Less(steps[0].version, reached);
        LessTotal(f.version, reached);
        PendingAfter(files[1..], kind, f.version, k - 1);
      }
    } else {
      LessTotal(latest, reached);
      if Less(reached, f.version) {
        LessTransitive(latest, reached, f.version);
      }
      PendingAfter(files[1..], kind, latest, k);
    }
  }

  lemma RisingPrefix(latest: string, steps: seq<MigFile>, done: seq<MigFile>)
    requires Rising(latest, steps) && done <= steps
    ensures Rising(latest, done)
  {
    assert forall i | 0 <= i < |done| :: done[i] == steps[i];
  }

  lemma RowsOfLast(table: Table, steps: seq<MigFile>, n: nat)
    requires |steps| == n + 1
    ensures table + Rows(steps) == table + Rows(steps[..n]) + [RowOf(steps[n])]
  {
    assert Rows(steps) == Rows(steps[..n]) + [RowOf(steps[n])];
  }

  /** What recording rising steps does to the maximum of each kind. */
  lemma {:induction false} LatestAfter(table: Table, steps: seq<MigFile>, kind: MigrationType)
    requires forall f | f in steps :: f.kind == kind
    requires Rising(Latest(table, kind), steps)
    ensures Latest(table + Rows(steps), kind) ==
            if steps == [] then Latest(table, kind) else steps[|steps| - 1].version
  {
    if steps == [] {
      assert table + Rows(steps) == table;
    } else {
      var n := |steps| - 1;
      RisingPrefix(Latest(table, kind), steps, steps[..n]);
      LatestAfter(table, steps[..n], kind);
      RowsOfLast(table, steps, n);
      assert steps[n] in steps;
      assert n > 0 ==> Less(steps[n - 1].version, steps[n].version);
      LatestOfAppend(table + Rows(steps[..n]), RowOf(steps[n]), kind);
    }
  }

  lemma LoadedNonEmpty(files: seq<MigFile>, kind: MigrationType, f: MigFile)
    requires Loaded(files, kind) && f in files
    ensures Less("", f.version)
  {
  }

  /** The steps of a plan rise above what is recorded and are files of the one kind. */
  lemma PlanRises(files: seq<MigFile>, kind: MigrationType, table: Table)
    requires Loaded(files, kind)
    ensures var plan := FilesPlan(files, table);
            && Rising(Latest(table, kind), plan.steps)
            && forall f | f in plan.steps :: f in files && f.kind == kind
  {
    if files != [] {
      BaselinesAreFiles(files);
      var latest, baselines := Latest(table, kind), Baselines(files);
      PendingRises(files, kind, latest);
      if |baselines| == 1 && latest == "" {
        var b := baselines[0];
        assert b in baselines;
        LoadedNonEmpty(files, kind, b);
        PendingRises(files, kind, b.version);
        var rest := Pending(files, kind, b.version);
        forall i | 0 <= i < |rest| ensures Less("", rest[i].version) {
          LessTransitive("", b.version, rest[i].version);
        }
      }
    }
  }

  /** Once the kind has rows, the plan is what the main loop executes. */
  lemma PlanFrom(files: seq<MigFile>, kind: MigrationType, table: Table)
    requires Loaded(files, kind) && files != [] && |Baselines(files)| <= 1 && Latest(table, kind) != ""
    ensures FilesPlan(files, table) == Plan(Pending(files, kind, Latest(table, kind)), false)
  {
    assert files[0] in files;
  }

  /** From the version of any of its steps the main loop executes the steps behind it. */
  lemma StepsBehind(files: seq<MigFile>, kind: MigrationType, table: Table, k: nat)
    requires Loaded(files, kind)
    requires 0 < k <= |FilesPlan(files, table).steps|
    ensures files != [] && |Baselines(files)| <= 1 && !FilesPlan(files, table).err
    ensures var steps := FilesPlan(files, table).steps; Pending(files, kind, steps[k - 1].version) == steps[k..]
  {
    assert files[0] in files;
    var latest := Latest(table, kind);
    if latest != "" {
      PendingAfter(files, kind, latest, k);
    } else if k > 1 {
      PendingAfter(files, kind, Baselines(files)[0].version, k - 1);
    }
  }

  /** Stopping after any number of committed files and running again continues the same plan. */
  lemma ResumeEquivalence(files: seq<MigFile>, kind: MigrationType, table: Table, k: nat)
    requires Loaded(files, kind)
    requires k <= |FilesPlan(files, table).steps|
    ensures var plan := FilesPlan(files, table);
            FilesPlan(files, table + Rows(plan.steps[..k])) == Plan(plan.steps[k..], plan.err)
  {
    var plan := FilesPlan(files, table);
    var done := plan.steps[..k];
    if k == 0 {
      assert table + Rows(done) == table;
    } else {
      PlanRises(files, kind, table);
      RisingPrefix(Latest(table, kind), plan.steps, done);
      LatestAfter(table, done, kind);
      assert done[k - 1] == plan.steps[k - 1] && plan.steps[k - 1] in plan.steps;
      LoadedNonEmpty(files, kind, plan.steps[k - 1]);
      StepsBehind(files, kind, table, k);
      PlanFrom(files, kind, table + Rows(done));
    }
  }

  /** A run after a successful run executes nothing. */
  lemma RerunExecutesNothing(files: seq<MigFile>, kind: MigrationType, table: Table)
    requires Loaded(files, kind)
    ensures var plan := FilesPlan(files, table);
            FilesPlan(files, table + Rows(plan.steps)) == Plan([], plan.err)
  {
    var steps := FilesPlan(files, table).steps;
    ResumeEquivalence(files, kind, table, |steps|);
    assert steps[..|steps|] == steps;
  }

  /** No (version, type) key is recorded twice. */
  lemma KeysStayUnique(files: seq<MigFile>, kind: MigrationType, table: Table)
    requires Loaded(files, kind) && Distinct(table)
    ensures Distinct(table + Rows(FilesPlan(files, table).steps))
  {
    var steps := FilesPlan(files, table).steps;
    PlanRises(files, kind, table);
    LatestIsMaximum(table, kind);
    forall i, j | 0 <= i < j < |steps| ensures RowOf(steps[i]) != RowOf(steps[j]) {
      Irreflexive(steps[i].version);
    }
    forall i, j | 0 <= i < |table| && 0 <= j < |steps| ensures table[i] != RowOf(steps[j]) {
      assert steps[j] in steps;
    }
  }

  /** Above the recorded maximum nothing is recorded. */
  lemma AboveLatestIsNew(table: Table, kind: MigrationType, version: string)
    requires Less(Latest(table, kind), version)
    ensures Row(version, kind) !in table
  {
    LatestIsMaximum(table, kind);
  }

  // ---- stages ----

  lemma {:induction false} PendingOfConcat(a: seq<MigFile>, b: seq<MigFile>, kind: MigrationType, latest: string)
    ensures var first := Pending(a, kind, latest);
            Pending(a + b, kind, latest) ==
            first + Pending(b, kind, if first == [] then latest else first[|first| - 1].version)
  {
    if a == [] {
      assert a + b == b;
    } else {
      assert (a + b)[1..] == a[1..] + b;
      var f := a[0];
      if f.kind == kind && !f.baseline && Less(latest, f.version) {
        PendingOfConcat(a[1..], b, kind, f.version);
        var rest := Pending(a[1..], kind, f.version);
        Associative([f], rest, Pending(b, kind, if rest == [] then f.version else rest[|rest| - 1].version));
      } else {
        PendingOfConcat(a[1..], b, kind, latest);
      }
    }
  }

  lemma {:induction false} BaselinesOfConcat(a: seq<MigFile>, b: seq<MigFile>)
    ensures Baselines(a + b) == Baselines(a) + Baselines(b)
  {
    if a == [] {
      assert a + b == b;
    } else {
      assert (a + b)[1..] == a[1..] + b;
      BaselinesOfConcat(a[1..], b);
      Associative(if a[0].baseline then [a[0]] else [], Baselines(a[1..]), Baselines(b));
    }
  }

  lemma Associative(a: seq<MigFile>, b: seq<MigFile>, c: seq<MigFile>)
    ensures a + (b + c) == a + b + c
  {
  }

  /** Where the second stage starts: the version the first stage ended on. */
  lemma FirstStageEnd(a: seq<MigFile>, kind: MigrationType, table: Table)
    requires Loaded(a, kind) && a != [] && !FilesPlan(a, table).err
    ensures var first := FilesPlan(a, table).steps;
            var end := Latest(table + Rows(first), kind);
            && end != ""
            && end == if first == [] then Latest(table, kind) else first[|first| - 1].version
  {
    PlanRises(a, kind, table);
    var first := FilesPlan(a, table).steps;
    LatestAfter(table, first, kind);
    if first != [] {
      assert first[|first| - 1] in first;
      LoadedNonEmpty(a, kind, first[|first| - 1]);
    }
  }

  /** Without recorded rows a plan without an error is the baseline and what the loop executes above it. */
  lemma PlanFromBaseline(files: seq<MigFile>, kind: MigrationType, table: Table)
    requires files != [] && files[0].kind == kind && Latest(table, kind) == "" && !FilesPlan(files, table).err
    ensures |Baselines(files)| == 1
    ensures var base := Baselines(files)[0];
            FilesPlan(files, table).steps == [base] + Pending(files, kind, base.version)
  {
  }

  /** One run over both stages goes on through b from where the first stage ends. */
  lemma BothStages(a: seq<MigFile>, b: seq<MigFile>, kind: MigrationType, table: Table, first: seq<MigFile>,
                   end: string)
    requires Loaded(a, kind) && a != [] && a[0].kind == kind
    requires !FilesPlan(a, table).err && !FilesPlan(a + b, table).err
    requires first == FilesPlan(a, table).steps
    requires end == if first == [] then Latest(table, kind) else first[|first| - 1].version
    ensures FilesPlan(a + b, table).steps == first + Pending(b, kind, end)
    ensures |Baselines(b)| <= 1
  {
    BaselinesOfConcat(a, b);
    assert (a + b)[0] == a[0];
    if Latest(table, kind) != "" {
      PendingOfConcat(a, b, kind, Latest(table, kind));
    } else {
      BothStagesAnew(a, b, kind, table, first, end);
    }
  }

  lemma BothStagesAnew(a: seq<MigFile>, b: seq<MigFile>, kind: MigrationType, table: Table, first: seq<MigFile>,
                       end: string)
    requires a != [] && a[0].kind == kind && Latest(table, kind) == ""
    requires !FilesPlan(a, table).err && !FilesPlan(a + b, table).err
    requires first == FilesPlan(a, table).steps
    requires end == if first == [] then "" else first[|first| - 1].version
    ensures FilesPlan(a + b, table).steps == first + Pending(b, kind, end)
  {
    BaselinesOfConcat(a, b);
    assert (a + b)[0] == a[0];
    PlanFromBaseline(a, kind, table);
    PlanFromBaseline(a + b, kind, table);
    var base := Baselines(a)[0];
    var rest := Pending(a, kind, base.version);
    PendingOfConcat(a, b, kind, base.version);
    Associative([base], rest, Pending(b, kind, end));
  }

  /** Running the files in two stages split by version equals one run, when neither run ends in an error. */
  lemma StagesEqualOneRun(a: seq<MigFile>, b: seq<MigFile>, kind: MigrationType, table: Table)
    requires Loaded(a + b, kind)
    requires !FilesPlan(a, table).err && !FilesPlan(a + b, table).err
    requires a != []
    ensures var first := FilesPlan(a, table).steps;
            var second := FilesPlan(b, table + Rows(first));
            !second.err && FilesPlan(a + b, table).steps == first + second.steps
  {
    LoadedPrefix(a, b, kind);
    FirstStageEnd(a, kind, table);
    assert a[0] in a;
    var first := FilesPlan(a, table).steps;
    BothStages(a, b, kind, table, first, Latest(table + Rows(first), kind));
    if b != [] {
      assert b[0] in a + b;
    }
  }

  lemma LoadedPrefix(a: seq<MigFile>, b: seq<MigFile>, kind: MigrationType)
    requires Loaded(a + b, kind)
    ensures Loaded(a, kind)
  {
    forall i, j | 0 <= i < j < |a| ensures Before(a[i], a[j]) {
      assert (a + b)[i] == a[i] && (a + b)[j] == a[j];
    }
    assert forall f | f in a :: f in a + b;
  }

  // ---- DDL, then seed ----

  /** Run: seed files follow only a DDL phase that returned no error; their own error is a warning. */
  function RunPlan(ddl: seq<MigFile>, seed: seq<MigFile>, table: Table): seq<MigFile> {
    var plan := FilesPlan(ddl, table);
    if plan.err then [] else plan.steps + FilesPlan(seed, table + Rows(plan.steps)).steps
  }

  /** The seed plan does not see the DDL rows. */
  lemma PlanIgnoresOtherKind(files: seq<MigFile>, kind: MigrationType, table: Table, other: seq<MigFile>)
    requires Loaded(files, kind)
    requires forall f | f in other :: f.kind != kind
    ensures FilesPlan(files, table + Rows(other)) == FilesPlan(files, table)
  {
    LatestIgnoresOtherKind(kind, table, other);
  }

  lemma {:induction false} LatestIgnoresOtherKind(kind: MigrationType, table: Table, other: seq<MigFile>)
    requires forall f | f in other :: f.kind != kind
    ensures Latest(table + Rows(other), kind) == Latest(table, kind)
  {
    if other == [] {
      assert table + Rows(other) == table;
    } else {
      var n := |other| - 1;
      LatestIgnoresOtherKind(kind, table, other[..n]);
      assert table + Rows(other) == table + Rows(other[..n]) + [RowOf(other[n])];
      LatestOfAppend(table + Rows(other[..n]), RowOf(other[n]), kind);
    }
  }

  /** Resume equivalence for the whole of Run, across the DDL and the seed phase. */
  lemma RunResumes(ddl: seq<MigFile>, seed: seq<MigFile>, table: Table, k: nat)
    requires Loaded(ddl, Ddl) && Loaded(seed, Seed)
    requires k <= |RunPlan(ddl, seed, table)|
    ensures var steps := RunPlan(ddl, seed, table);
            RunPlan(ddl, seed, table + Rows(steps[..k])) == steps[k..]
  {
    var d := FilesPlan(ddl, table);
    if d.err {
      assert k == 0 && table + Rows([]) == table;
    } else {
      var s := FilesPlan(seed, table + Rows(d.steps)).steps;
      SlicesOfConcat(d.steps, s, k);
      if k <= |d.steps| {
        RunResumesInDdl(ddl, seed, table, d.steps[..k], d.steps[k..]);
      } else {
        var m := k - |d.steps|;
        RunResumesInSeed(ddl, seed, table, d.steps, s[..m], s[m..]);
      }
    }
  }

  lemma SlicesOfConcat<T>(a: seq<T>, b: seq<T>, k: nat)
    requires k <= |a + b|
    ensures k <= |a| ==> (a + b)[..k] == a[..k] && (a + b)[k..] == a[k..] + b && a == a[..k] + a[k..]
    ensures k > |a| ==> (a + b)[..k] == a + b[..k - |a|] && (a + b)[k..] == b[k - |a|..]
                        && b == b[..k - |a|] + b[k - |a|..]
  {
  }

  lemma RunResumesInDdl(ddl: seq<MigFile>, seed: seq<MigFile>, table: Table, done: seq<MigFile>, left: seq<MigFile>)
    requires Loaded(ddl, Ddl) && FilesPlan(ddl, table) == Plan(done + left, false)
    ensures RunPlan(ddl, seed, table + Rows(done)) ==
            left + FilesPlan(seed, table + Rows(done + left)).steps
  {
    assert (done + left)[..|done|] == done && (done + left)[|done|..] == left;
    ResumeEquivalence(ddl, Ddl, table, |done|);
    RowsOfConcat(table, done, left);
  }

  lemma RunResumesInSeed(ddl: seq<MigFile>, seed: seq<MigFile>, table: Table,
                         ddlSteps: seq<MigFile>, done: seq<MigFile>, left: seq<MigFile>)
    requires Loaded(ddl, Ddl) && FilesPlan(ddl, table) == Plan(ddlSteps, false)
    requires Loaded(seed, Seed) && FilesPlan(seed, table + Rows(ddlSteps)).steps == done + left
    ensures RunPlan(ddl, seed, table + Rows(ddlSteps + done)) == left
  {
    var mid := table + Rows(ddlSteps);
    RowsOfConcat(table, ddlSteps, done);
    RerunExecutesNothing(ddl, Ddl, table);
    PlanRises(seed, Seed, mid);
    assert forall f | f in done :: f in done + left;
    PlanIgnoresOtherKind(ddl, Ddl, mid, done);
    assert (done + left)[..|done|] == done && (done + left)[|done|..] == left;
    ResumeEquivalence(seed, Seed, mid, |done|);
    assert mid + Rows(done) + Rows([]) == mid + Rows(done);
  }
}
