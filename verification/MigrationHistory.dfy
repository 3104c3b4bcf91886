/**
 * What any number of instances record together. In every run -- with lost leases, failed
 * renewals, crashes, failing statements, or no lock at all -- the sequence of committed
 * migrations is a prefix of the plan of a single instance.
 */
module MigrationHistory {
  import opened Strings
  import opened MigrationVersions
  import opened MigrationRunner
  import opened MigrationCluster
  import MigrationLease

  function PlanOf(c: Config): seq<MigFile> {
    RunPlan(c.ddl, c.seed, c.initial)
  }

  /** The table is the initial one plus a prefix of the plan. */
  predicate Recorded(c: Config, table: Table) {
    && |c.initial| <= |table| <= |c.initial| + |PlanOf(c)|
    && table == c.initial + Rows(PlanOf(c)[..|table| - |c.initial|])
  }

  /** Nothing at or below this version of the kind is ever executed. */
  function Floor(c: Config, kind: MigrationType): string {
    if Latest(c.initial, kind) != "" then Latest(c.initial, kind)
    else if Baselines(Files(c, kind)) != [] then Baselines(Files(c, kind))[0].version
    else ""
  }

  predicate DdlDone(c: Config, table: Table) {
    FilesPlan(c.ddl, table) == Plan([], false)
  }

  /** What an instance in the middle of its work knows; its `latest` may lag behind the table. */
  predicate ScanInv(c: Config, table: Table, kind: MigrationType, latest: string, n: nat) {
    var files := Files(c, kind);
    && n <= |files| && |Baselines(files)| <= 1
    && latest != "" && !Less(latest, Floor(c, kind)) && !Less(Latest(table, kind), latest)
    && (forall j | 0 <= j < n :: files[j].baseline || !Less(Latest(table, kind), files[j].version))
    && (kind.Seed? ==> DdlDone(c, table))
  }

  predicate WorkInv(c: Config, table: Table, w: Work) {
    match w
    case Starting(kind) => kind.Seed? ==> DdlDone(c, table)
    case Basing(kind) =>
      |Baselines(Files(c, kind))| == 1 && Latest(c.initial, kind) == "" && (kind.Seed? ==> DdlDone(c, table))
    case Scanning(kind, latest, n) => ScanInv(c, table, kind, latest, n)
    case Executing(kind, latest, n) =>
      && ScanInv(c, table, kind, latest, n) && n < |Files(c, kind)|
      && !Files(c, kind)[n].baseline && Less(latest, Files(c, kind)[n].version)
    case Finished => true
  }

  predicate HistoryInv(c: Config, s: State) {
    && Recorded(c, s.table)
    && forall i | 0 <= i < |s.instances| && s.instances[i].Holding? :: WorkInv(c, s.table, s.instances[i].work)
  }

  // ---- one kind at a time ----

  /** Rows of another kind underneath do not change where rising steps end. */
  lemma LatestOnTop(table: Table, other: seq<MigFile>, steps: seq<MigFile>, kind: MigrationType)
    requires forall f | f in other :: f.kind != kind
    requires forall f | f in steps :: f.kind == kind
    requires Rising(Latest(table, kind), steps)
    ensures Latest(table + Rows(other) + Rows(steps), kind) == Latest(table + Rows(steps), kind)
  {
    LatestIgnoresOtherKind(kind, table, other);
    LatestAfter(table, steps, kind);
    LatestAfter(table + Rows(other), steps, kind);
  }

  lemma MembersAreRecorded(table: Table, steps: seq<MigFile>, done: seq<MigFile>)
    requires forall f | f in done :: f in steps
    ensures forall f | f in done :: RowOf(f) in table + Rows(steps)
  {
    forall f | f in done ensures RowOf(f) in table + Rows(steps) {
      var j :| 0 <= j < |steps| && steps[j] == f;
      assert (table + Rows(steps))[|table| + j] == RowOf(f);
    }
  }

  /** The part of the recorded history that belongs to one kind is a prefix of that kind's plan. */
  lemma KindPrefix(c: Config, table: Table, kind: MigrationType) returns (done: seq<MigFile>)
    requires Valid(c) && Recorded(c, table)
    ensures done <= FilesPlan(Files(c, kind), c.initial).steps
    ensures Latest(table, kind) == Latest(c.initial + Rows(done), kind)
    ensures forall f | f in done :: RowOf(f) in table
  {
    var k := |table| - |c.initial|;
    var d := FilesPlan(c.ddl, c.initial);
    PlanRises(c.ddl, Ddl, c.initial);
    assert c.initial + Rows([]) == c.initial;
    if d.err {
      return [];
    }
    var mid := c.initial + Rows(d.steps);
    var s := FilesPlan(c.seed, mid).steps;
    PlanIgnoresOtherKind(c.seed, Seed, c.initial, d.steps);
    SlicesOfConcat(d.steps, s, k);
    if k <= |d.steps| {
      done := DdlPrefix(c, table, kind, d.steps, k);
    } else {
      PlanRises(c.seed, Seed, c.initial);
      done := SeedPrefix(c, table, kind, d.steps, s, k - |d.steps|);
    }
  }

  lemma DdlPrefix(c: Config, table: Table, kind: MigrationType, ddlSteps: seq<MigFile>, k: nat)
    returns (done: seq<MigFile>)
    requires k <= |ddlSteps| && table == c.initial + Rows(ddlSteps[..k])
    requires forall f | f in ddlSteps :: f.kind == Ddl
    ensures done <= (if kind.Ddl? then ddlSteps else [])
    ensures Latest(table, kind) == Latest(c.initial + Rows(done), kind)
    ensures forall f | f in done :: RowOf(f) in table
  {
    if kind.Ddl? {
      done := ddlSteps[..k];
      MembersAreRecorded(c.initial, done, done);
    } else {
      done := [];
      assert c.initial + Rows(done) == c.initial;
      LatestIgnoresOtherKind(Seed, c.initial, ddlSteps[..k]);
    }
  }

  lemma SeedPrefix(c: Config, table: Table, kind: MigrationType, ddlSteps: seq<MigFile>, seedSteps: seq<MigFile>,
                   m: nat)
    returns (done: seq<MigFile>)
    requires m <= |seedSteps| && table == c.initial + Rows(ddlSteps + seedSteps[..m])
    requires forall f | f in ddlSteps :: f.kind == Ddl
    requires forall f | f in seedSteps :: f.kind == Seed
    requires Rising(Latest(c.initial, Seed), seedSteps)
    ensures done <= (if kind.Ddl? then ddlSteps else seedSteps)
    ensures Latest(table, kind) == Latest(c.initial + Rows(done), kind)
    ensures forall f | f in done :: RowOf(f) in table
  {
    var some := seedSteps[..m];
    RowsOfConcat(c.initial, ddlSteps, some);
    if kind.Ddl? {
      done := ddlSteps;
      LatestIgnoresOtherKind(Ddl, c.initial + Rows(ddlSteps), some);
    } else {
      done := some;
      RisingPrefix(Latest(c.initial, Seed), seedSteps, some);
      LatestOnTop(c.initial, ddlSteps, some, Seed);
    }
    MembersAreRecorded(c.initial, ddlSteps + some, done);
  }

  /** A recorded prefix of the plan reaches the floor, and starts with the baseline on a new database. */
  lemma PrefixReachesFloor(c: Config, kind: MigrationType, done: seq<MigFile>)
    requires Valid(c) && done != [] && done <= FilesPlan(Files(c, kind), c.initial).steps
    ensures !Less(Latest(c.initial + Rows(done), kind), Floor(c, kind))
    ensures Latest(c.initial, kind) == "" ==>
              |Baselines(Files(c, kind))| == 1 && done[0] == Baselines(Files(c, kind))[0]
  {
    var files, reached := Files(c, kind), done[|done| - 1].version;
    var steps := FilesPlan(files, c.initial).steps;
    PlanRises(files, kind, c.initial);
    RisingPrefix(Latest(c.initial, kind), steps, done);
    assert forall f | f in done :: f in steps;
    LatestAfter(c.initial, done, kind);
    assert files[0] in files;
    assert done[0] == steps[0];
    LessTotal(Latest(c.initial, kind), reached);
    LessTotal(done[0].version, reached);
  }

  /** Once a kind has rows, its floor is reached, and a new database has run its baseline. */
  lemma FloorReached(c: Config, table: Table, kind: MigrationType)
    requires Valid(c) && Recorded(c, table) && Latest(table, kind) != ""
    ensures !Less(Latest(table, kind), Floor(c, kind))
    ensures Latest(c.initial, kind) == "" ==>
              var baselines := Baselines(Files(c, kind));
              |baselines| == 1 && RowOf(baselines[0]) in table
  {
    var done := KindPrefix(c, table, kind);
    if done == [] {
      assert c.initial + Rows(done) == c.initial;
      Irreflexive(Latest(table, kind));
    } else {
      PrefixReachesFloor(c, kind, done);
      assert done[0] in done;
    }
  }

  /** The file of its version that the loop picks is in the plan if it lies above the floor. */
  lemma AboveFloorIsPlanned(c: Config, kind: MigrationType, g: MigFile)
    requires Valid(c) && FilesPlan(Files(c, kind), c.initial).steps != []
    requires g in Files(c, kind) && !g.baseline && Less(Floor(c, kind), g.version)
    requires forall h | h in Files(c, kind) && !h.baseline && h.version == g.version :: h == g || Less(g.name, h.name)
    ensures g in FilesPlan(Files(c, kind), c.initial).steps
  {
    var files := Files(c, kind);
    assert files[0].kind == kind by { assert files[0] in files; }
    PendingMembers(files, kind, Floor(c, kind), g);
  }

  /** What a prefix of the plan leaves over lies above the maximum it recorded. */
  lemma LeftIsAbove(files: seq<MigFile>, kind: MigrationType, table: Table, done: seq<MigFile>, g: MigFile)
    requires Loaded(files, kind) && done <= FilesPlan(files, table).steps
    requires g in FilesPlan(files, table).steps && !Less(Latest(table + Rows(done), kind), g.version)
    ensures g in done
  {
    var plan := FilesPlan(files, table);
    ResumeEquivalence(files, kind, table, |done|);
    assert plan.steps[..|done|] == done;
    PlanRises(files, kind, table + Rows(done));
    assert g !in plan.steps[|done|..];
    assert plan.steps == done + plan.steps[|done|..];
  }

  /** A file between the floor and the recorded maximum has its version recorded. */
  lemma NothingSkipped(c: Config, table: Table, kind: MigrationType, f: MigFile)
    requires Valid(c) && Recorded(c, table) && Latest(table, kind) != ""
    requires f in Files(c, kind) && !f.baseline
    requires Less(Floor(c, kind), f.version) && !Less(Latest(table, kind), f.version)
    ensures RowOf(f) in table
  {
    var files := Files(c, kind);
    var done := KindPrefix(c, table, kind);
    var g := FirstOfVersion(files, kind, f);
    assert c.initial + Rows([]) == c.initial;
    if FilesPlan(files, c.initial).steps == [] {
      assert false;  // nothing was planned, so the maximum is the floor
    }
    AboveFloorIsPlanned(c, kind, g);
    LeftIsAbove(files, kind, c.initial, done, g);
    assert RowOf(g) == RowOf(f);
  }

  /** The file the loop picks among those of one version. */
  lemma {:induction false} FirstOfVersion(files: seq<MigFile>, kind: MigrationType, f: MigFile) returns (g: MigFile)
    requires Loaded(files, kind) && f in files && !f.baseline
    ensures g in files && !g.baseline && g.version == f.version && g.kind == f.kind
    ensures forall h | h in files && !h.baseline && h.version == g.version :: h == g || Less(g.name, h.name)
  {
    var i :| 0 <= i < |files| && files[i] == f;
    var first := i;
    for j := 0 to |files|
      invariant 0 <= first < |files| && !files[first].baseline && files[first].version == f.version
      invariant forall k | 0 <= k < j && !files[k].baseline && files[k].version == f.version :: first <= k
    {
      if !files[j].baseline && files[j].version == f.version && j < first {
        first := j;
      }
    }
    g := files[first];
    Irreflexive(f.version);
    forall h | h in files && !h.baseline && h.version == g.version ensures h == g || Less(g.name, h.name) {
      var k :| 0 <= k < |files| && files[k] == h;
      if k > first { assert Before(files[first], files[k]); }
    }
  }

  // ---- one commit ----

  lemma {:induction false} PendingStartsAt(files: seq<MigFile>, kind: MigrationType, latest: string, n: nat)
    requires n <= |files| && forall f | f in files :: f.kind == kind
    requires forall j | 0 <= j < n :: files[j].baseline || !Less(latest, files[j].version)
    ensures Pending(files, kind, latest) == Pending(files[n..], kind, latest)
  {
    if n > 0 {
      PendingStartsAt(files[1..], kind, latest, n - 1);
      assert files[1..][n - 1..] == files[n..];
    } else {
      assert files[n..] == files;
    }
  }

  lemma NextIsFirst(c: Config, table: Table, kind: MigrationType, f: MigFile)
    requires Files(c, kind) != [] && !FilesPlan(Files(c, kind), table).err
    requires FilesPlan(Files(c, kind), table).steps != [] && FilesPlan(Files(c, kind), table).steps[0] == f
    requires kind.Seed? ==> DdlDone(c, table)
    ensures RunPlan(c.ddl, c.seed, table) != [] && RunPlan(c.ddl, c.seed, table)[0] == f
  {
    assert table + Rows([]) == table;
  }

  /** A file whose record goes in is the first file that a single instance would still execute. */
  lemma ExecutingIsNext(c: Config, table: Table, w: Work)
    requires Valid(c) && Recorded(c, table) && w.Executing? && WorkInv(c, table, w)
    requires RowOf(Files(c, w.kind)[w.next]) !in table
    ensures Less(Latest(table, w.kind), Files(c, w.kind)[w.next].version)
    ensures RunPlan(c.ddl, c.seed, table) != [] && RunPlan(c.ddl, c.seed, table)[0] == Files(c, w.kind)[w.next]
  {
    var files, f := Files(c, w.kind), Files(c, w.kind)[w.next];
    var latest := Latest(table, w.kind);
    assert f in files;
    assert files[0].kind == w.kind by { assert files[0] in files; }
    LessTotal("", w.latest);
    LessTotal(w.latest, Floor(c, w.kind));
    LessTransitive(Floor(c, w.kind), w.latest, f.version);
    if !Less(latest, f.version) {
      NothingSkipped(c, table, w.kind, f);
      assert false;
    }
    PendingStartsAt(files, w.kind, latest, w.next);
    NextIsFirst(c, table, w.kind, f);
  }

  lemma BasingIsNext(c: Config, table: Table, kind: MigrationType)
    requires Valid(c) && Recorded(c, table) && WorkInv(c, table, Basing(kind))
    requires RowOf(Baselines(Files(c, kind))[0]) !in table
    ensures Latest(table, kind) == ""
    ensures RunPlan(c.ddl, c.seed, table) != [] && RunPlan(c.ddl, c.seed, table)[0] == Baselines(Files(c, kind))[0]
  {
    var files := Files(c, kind);
    BaselinesAreFiles(files);
    if Latest(table, kind) != "" {
      FloorReached(c, table, kind);
      assert false;
    }
    assert Baselines(files)[0] in Baselines(files);
    assert files[0].kind == kind by { assert files[0] in files; }
    NextIsFirst(c, table, kind, Baselines(files)[0]);
  }

  lemma OneMoreRow(table: Table, steps: seq<MigFile>, k: nat)
    requires k < |steps|
    ensures table + Rows(steps[..k]) + [RowOf(steps[k..][0])] == table + Rows(steps[..k + 1])
  {
    assert steps[..k + 1] == steps[..k] + [steps[k]];
    RowsOfConcat(table, steps[..k], [steps[k]]);
    assert Rows([steps[k]]) == [RowOf(steps[k])];
  }

  /** Recording the next step keeps the history a prefix and leaves the rest of the plan to do. */
  lemma RecordNext(c: Config, table: Table)
    requires Valid(c) && Recorded(c, table) && RunPlan(c.ddl, c.seed, table) != []
    ensures Recorded(c, table + [RowOf(RunPlan(c.ddl, c.seed, table)[0])])
  {
    var k := |table| - |c.initial|;
    RunResumes(c.ddl, c.seed, c.initial, k);
    OneMoreRow(c.initial, PlanOf(c), k);
  }

  /** What everybody else knows stays true when the next step is recorded. */
  lemma OthersKeepKnowing(c: Config, table: Table, w: Work)
    requires Valid(c) && WorkInv(c, table, w) && RunPlan(c.ddl, c.seed, table) != []
    ensures WorkInv(c, table + [RowOf(RunPlan(c.ddl, c.seed, table)[0])], w)
  {
    var f := RunPlan(c.ddl, c.seed, table)[0];
    var table' := table + [RowOf(f)];
    if DdlDone(c, table) {
      assert table + Rows([]) == table;
      PlanRises(c.seed, Seed, table);
      assert f in FilesPlan(c.seed, table).steps;
      PlanIgnoresOtherKind(c.ddl, Ddl, table, [f]);
      assert Rows([f]) == [RowOf(f)];
    }
    if w.Scanning? || w.Executing? {
      LatestGrows(table, RowOf(f), w.kind);
      NotLessTransitive(Latest(table, w.kind), Latest(table', w.kind), w.latest);
      var files := Files(c, w.kind);
      forall j | 0 <= j < w.next && !files[j].baseline ensures !Less(Latest(table', w.kind), files[j].version) {
        NotLessTransitive(Latest(table, w.kind), Latest(table', w.kind), files[j].version);
      }
    }
  }

  lemma LatestGrows(table: Table, row: Row, kind: MigrationType)
    ensures !Less(Latest(table + [row], kind), Latest(table, kind))
  {
    LatestOfAppend(table, row, kind);
    LessTotal(Latest(table, kind), row.version);
    Irreflexive(Latest(table, kind));
  }

  // ---- one statement ----

  lemma ScanningDone(c: Config, table: Table, kind: MigrationType, latest: string)
    requires Valid(c) && ScanInv(c, table, kind, latest, |Files(c, kind)|)
    ensures WorkInv(c, table, NextKind(kind))
  {
    var files := Files(c, kind);
    if kind.Ddl? && files != [] {
      assert files[0].kind == kind by { assert files[0] in files; }
      LessTotal("", latest);
      PendingStartsAt(files, kind, Latest(table, kind), |files|);
      assert files[|files|..] == [];
    }
  }

  lemma StartingWork(c: Config, table: Table, kind: MigrationType, ok: bool)
    requires Valid(c) && Recorded(c, table) && WorkInv(c, table, Starting(kind))
    ensures WorkInv(c, table, WorkStep(c, table, Starting(kind), ok).0)
  {
    var latest := Latest(table, kind);
    Irreflexive(latest);
    if latest != "" {
      FloorReached(c, table, kind);
    } else {
      StaysEmpty(c, table, kind);
    }
  }

  /** An empty kind was empty from the start. */
  lemma StaysEmpty(c: Config, table: Table, kind: MigrationType)
    requires Valid(c) && Recorded(c, table) && Latest(table, kind) == ""
    ensures Latest(c.initial, kind) == ""
  {
    var done := KindPrefix(c, table, kind);
    var steps := FilesPlan(Files(c, kind), c.initial).steps;
    PlanRises(Files(c, kind), kind, c.initial);
    RisingPrefix(Latest(c.initial, kind), steps, done);
    LatestAfter(c.initial, done, kind);
  }

  /** The table stays as it is or gets the record of the next step of the plan. */
  predicate LeavesOrRecords(c: Config, table: Table, table': Table) {
    var rest := RunPlan(c.ddl, c.seed, table);
    table' == table || (rest != [] && table' == table + [RowOf(rest[0])])
  }

  lemma BasingWork(c: Config, table: Table, kind: MigrationType, ok: bool)
    requires Valid(c) && Recorded(c, table) && WorkInv(c, table, Basing(kind))
    ensures var (w', table') := WorkStep(c, table, Basing(kind), ok);
            WorkInv(c, table', w') && LeavesOrRecords(c, table, table')
  {
    var b := Baselines(Files(c, kind))[0];
    if ok && RowOf(b) !in table {
      BasingIsNext(c, table, kind);
      OthersKeepKnowing(c, table, Basing(kind));
      BaselinesAreFiles(Files(c, kind));
      assert b in Baselines(Files(c, kind));
      LoadedNonEmpty(Files(c, kind), kind, b);
      LatestOfAppend(table, RowOf(b), kind);
      Irreflexive(b.version);
    }
  }

  lemma ScanFurther(c: Config, table: Table, kind: MigrationType, latest: string, n: nat)
    requires ScanInv(c, table, kind, latest, n) && n < |Files(c, kind)|
    requires Files(c, kind)[n].baseline || !Less(Latest(table, kind), Files(c, kind)[n].version)
    ensures ScanInv(c, table, kind, latest, n + 1)
  {
  }

  lemma ScanningWork(c: Config, table: Table, w: Work, ok: bool)
    requires Valid(c) && Recorded(c, table) && w.Scanning? && WorkInv(c, table, w)
    ensures WorkInv(c, table, WorkStep(c, table, w, ok).0)
  {
    var files := Files(c, w.kind);
    if w.next == |files| {
      ScanningDone(c, table, w.kind, w.latest);
    } else {
      var f := files[w.next];
      assert f in files;
      if f.baseline {
        ScanFurther(c, table, w.kind, w.latest, w.next);
      } else if !Less(w.latest, f.version) {
        NotLessTransitive(w.latest, Latest(table, w.kind), f.version);
        ScanFurther(c, table, w.kind, w.latest, w.next);
      } else if ok && RowOf(f) in table {
        LatestIsMaximum(table, w.kind);
        ScanFurther(c, table, w.kind, w.latest, w.next);
      }
    }
  }

  lemma ExecutingWork(c: Config, table: Table, w: Work, ok: bool)
    requires Valid(c) && Recorded(c, table) && w.Executing? && WorkInv(c, table, w)
    ensures var (w', table') := WorkStep(c, table, w, ok);
            WorkInv(c, table', w') && LeavesOrRecords(c, table, table')
  {
    var files, f := Files(c, w.kind), Files(c, w.kind)[w.next];
    if ok && RowOf(f) !in table {
      ExecutingIsNext(c, table, w);
      OthersKeepKnowing(c, table, w);
      assert f in files;
      LatestOfAppend(table, RowOf(f), w.kind);
      NewScan(c, table + [RowOf(f)], w, f);
    }
  }

  /** After its own commit the loop stands one file further, at the new maximum. */
  lemma NewScan(c: Config, table: Table, w: Work, f: MigFile)
    requires Valid(c) && w.Executing? && WorkInv(c, table, w) && f == Files(c, w.kind)[w.next]
    requires Latest(table, w.kind) == f.version
    ensures ScanInv(c, table, w.kind, f.version, w.next + 1)
  {
    Irreflexive(f.version);
    LessTotal(w.latest, f.version);
    LessTotal("", f.version);
    LessTransitive(w.latest, f.version, Floor(c, w.kind));
  }

  // ---- whole runs ----

  /** A statement either leaves the table alone or records the next step of the plan. */
  lemma CommitsAreNext(c: Config, table: Table, w: Work, ok: bool)
    requires Valid(c) && Recorded(c, table) && WorkInv(c, table, w)
    ensures var (w', table') := WorkStep(c, table, w, ok);
            WorkInv(c, table', w') && LeavesOrRecords(c, table, table')
  {
    match w
    case Starting(kind) => StartingWork(c, table, kind, ok);
    case Basing(kind) => BasingWork(c, table, kind, ok);
    case Scanning(_, _, _) => ScanningWork(c, table, w, ok);
    case Executing(_, _, _) => ExecutingWork(c, table, w, ok);
    case Finished =>
  }

  /** Every event but a statement of the work leaves the table and all work in progress alone. */
  lemma OtherEvents(c: Config, s: State, i: nat, e: Event)
    requires i < |s.instances| == |c.offsets| && Local(c, s, i, e).Some? && !e.Work?
    ensures var t := Local(c, s, i, e).value;
            && t.table == s.table
            && t.instances == s.instances[i := t.instances[i]]
            && (t.instances[i].Holding? ==>
                  || t.instances[i].work == Starting(Ddl)
                  || (s.instances[i].Holding? && t.instances[i].work == s.instances[i].work))
  {
  }

  lemma SameWork(c: Config, s: State, t: State, i: nat)
    requires HistoryInv(c, s) && i < |s.instances| && t.table == s.table
    requires |t.instances| == |s.instances| && t.instances == s.instances[i := t.instances[i]]
    requires t.instances[i].Holding? ==>
               || t.instances[i].work == Starting(Ddl)
               || (s.instances[i].Holding? && t.instances[i].work == s.instances[i].work)
    ensures HistoryInv(c, t)
  {
  }

  lemma HistoryStep(c: Config, s: State, a: Action)
    requires Valid(c) && HistoryInv(c, s) && Apply(c, s, a).Some?
    ensures HistoryInv(c, Apply(c, s, a).value)
    ensures s.table <= Apply(c, s, a).value.table
  {
    if a.Pass? {
    } else if !a.event.Work? {
      OtherEvents(c, s, a.i, a.event);
      SameWork(c, s, Local(c, s, a.i, a.event).value, a.i);
    } else {
      WorkEvent(c, s, a.i, a.event.ok);
    }
  }

  lemma WorkEvent(c: Config, s: State, i: nat, ok: bool)
    requires Valid(c) && HistoryInv(c, s) && i < |s.instances| == |c.offsets| && s.instances[i].Holding?
    requires !s.instances[i].work.Finished?
    ensures var (w', table') := WorkStep(c, s.table, s.instances[i].work, ok);
            var t := Put(s, i, Holding(s.instances[i].renewal, w')).(table := table');
            HistoryInv(c, t) && s.table <= table'
  {
    var w := s.instances[i].work;
    var (w', table') := WorkStep(c, s.table, w, ok);
    CommitsAreNext(c, s.table, w, ok);
    if table' != s.table {
      RecordNext(c, s.table);
      forall k | 0 <= k < |s.instances| && s.instances[k].Holding? && k != i
        ensures WorkInv(c, table', s.instances[k].work)
      {
        OthersKeepKnowing(c, s.table, s.instances[k].work);
      }
    }
  }

  lemma {:induction false} HistoryRun(c: Config, s: State, actions: seq<Action>)
    requires Valid(c) && HistoryInv(c, s) && Exec(c, s, actions).Some?
    ensures HistoryInv(c, Exec(c, s, actions).value)
    decreases |actions|
  {
    if actions != [] {
      HistoryStep(c, s, actions[0]);
      HistoryRun(c, Apply(c, s, actions[0]).value, actions[1..]);
    }
  }

  /**
   * In every run, whatever is lost or fails, the committed migrations are a prefix of the
   * single-instance plan, and a single instance starting now would commit exactly the rest.
   */
  lemma HistoryIsPlanPrefix(c: Config, s: State, actions: seq<Action>)
    requires Valid(c) && Initial(c, s) && Exec(c, s, actions).Some?
    ensures var t, plan := Exec(c, s, actions).value, PlanOf(c);
            && |c.initial| <= |t.table| <= |c.initial| + |plan|
            && t.table == c.initial + Rows(plan[..|t.table| - |c.initial|])
            && RunPlan(c.ddl, c.seed, t.table) == plan[|t.table| - |c.initial|..]
  {
    assert c.initial + Rows([]) == c.initial;
    HistoryRun(c, s, actions);
    RunResumes(c.ddl, c.seed, c.initial, |Exec(c, s, actions).value.table| - |c.initial|);
  }

  /** The whole plan on top of the initial table repeats no key. */
  lemma PlanKeysStayUnique(c: Config)
    requires Valid(c) && Distinct(c.initial)
    ensures Distinct(c.initial + Rows(PlanOf(c)))
  {
    var ddl := FilesPlan(c.ddl, c.initial);
    var mid := c.initial + Rows(ddl.steps);
    if ddl.err {
      assert c.initial + Rows([]) == c.initial;
    } else {
      KeysStayUnique(c.ddl, Ddl, c.initial);
      KeysStayUnique(c.seed, Seed, mid);
      RowsOfConcat(c.initial, ddl.steps, FilesPlan(c.seed, mid).steps);
    }
  }

  lemma PrefixDistinct(table: Table, plan: seq<MigFile>, n: nat)
    requires n <= |plan| && Distinct(table + Rows(plan))
    ensures Distinct(table + Rows(plan[..n]))
  {
    var all, part := table + Rows(plan), table + Rows(plan[..n]);
    assert forall i | 0 <= i < |part| :: part[i] == all[i];
  }

  /** No version of a kind is recorded twice in any run, unless it was so from the start. */
  lemma EachVersionOnce(c: Config, s: State, actions: seq<Action>)
    requires Valid(c) && Initial(c, s) && Exec(c, s, actions).Some?
    requires Distinct(c.initial)
    ensures Distinct(Exec(c, s, actions).value.table)
  {
    HistoryIsPlanPrefix(c, s, actions);
    PlanKeysStayUnique(c);
    PrefixDistinct(c.initial, PlanOf(c), |Exec(c, s, actions).value.table| - |c.initial|);
  }

  // ---- under the lease ----

  /** A sole holder's `latest` is the recorded maximum. */
  predicate UpToDate(table: Table, w: Work) {
    && (w.Scanning? || w.Executing? ==> w.latest == Latest(table, w.kind))
    && (w.Basing? ==> Latest(table, w.kind) == "")
  }

  predicate SoleInv(c: Config, s: State) {
    forall i | 0 <= i < |s.instances| && s.instances[i].Holding? :: UpToDate(s.table, s.instances[i].work)
  }

  lemma UpToDateStep(c: Config, table: Table, w: Work, ok: bool)
    requires Valid(c) && WorkInv(c, table, w) && UpToDate(table, w)
    ensures var (w', table') := WorkStep(c, table, w, ok); UpToDate(table', w')
  {
    if w.Basing? {
      var b := Baselines(Files(c, w.kind))[0];
      BaselinesAreFiles(Files(c, w.kind));
      assert b in Baselines(Files(c, w.kind));
      LoadedNonEmpty(Files(c, w.kind), w.kind, b);
      LatestOfAppend(table, RowOf(b), w.kind);
    } else if w.Executing? {
      var f := Files(c, w.kind)[w.next];
      assert f in Files(c, w.kind);
      LatestOfAppend(table, RowOf(f), w.kind);
    } else if w.Scanning? && w.next < |Files(c, w.kind)| {
      AboveLatest(table, Files(c, w.kind)[w.next], w);
    }
  }

  /** For a sole holder the isApplied query never answers yes. */
  lemma AboveLatest(table: Table, f: MigFile, w: Work)
    requires w.Scanning? && UpToDate(table, w)
    ensures Less(w.latest, f.version) ==> Row(f.version, w.kind) !in table
  {
    LatestIsMaximum(table, w.kind);
  }

  lemma {:induction false} SoleRun(c: Config, s: State, actions: seq<Action>, skew: int)
    requires Valid(c) && c.registered && c.timely
    requires MigrationLease.SkewAtMost(c, skew) && c.timeout + skew <= c.third
    requires MigrationLease.LeaseInv(c, s) && HistoryInv(c, s) && SoleInv(c, s)
    requires Exec(c, s, actions).Some?
    ensures SoleInv(c, Exec(c, s, actions).value)
    decreases |actions|
  {
    if actions != [] {
      var t := Apply(c, s, actions[0]).value;
      SoleStep(c, s, actions[0]);
      MigrationLease.LeaseStep(c, s, actions[0], skew);
      HistoryStep(c, s, actions[0]);
      SoleRun(c, t, actions[1..], skew);
    }
  }

  lemma SoleStep(c: Config, s: State, a: Action)
    requires Valid(c) && MigrationLease.LeaseInv(c, s) && HistoryInv(c, s) && SoleInv(c, s)
    requires Apply(c, s, a).Some?
    ensures SoleInv(c, Apply(c, s, a).value)
  {
    if a.Act? {
      if a.event.Work? {
        UpToDateStep(c, s.table, s.instances[a.i].work, a.event.ok);
        MigrationLease.OneHolder(c, s);
      } else {
        OtherEvents(c, s, a.i, a.event);
      }
    }
  }

  /** The file whose script an instance is running, if any. */
  function Running(c: Config, w: Work): seq<MigFile> {
    match w
    case Basing(kind) => if Baselines(Files(c, kind)) == [] then [] else [Baselines(Files(c, kind))[0]]
    case Executing(kind, _, n) => if n < |Files(c, kind)| then [Files(c, kind)[n]] else []
    case _ => []
  }

  /**
   * Under the lease condition no script ever runs beside another, and the script that runs
   * is the next step of the plan, not yet recorded.
   */
  lemma ScriptsRunAloneInOrder(c: Config, s: State, actions: seq<Action>, skew: int, i: nat)
    requires Valid(c) && c.registered && c.timely
    requires MigrationLease.SkewAtMost(c, skew) && c.timeout + skew <= c.third
    requires Initial(c, s) && Exec(c, s, actions).Some?
    requires var t := Exec(c, s, actions).value;
             i < |t.instances| && t.instances[i].Holding? && Running(c, t.instances[i].work) != []
    ensures var t := Exec(c, s, actions).value;
            var f := Running(c, t.instances[i].work)[0];
            && (forall j | 0 <= j < |t.instances| && j != i :: !t.instances[j].Holding?)
            && RowOf(f) !in t.table
            && RunPlan(c.ddl, c.seed, t.table) != [] && RunPlan(c.ddl, c.seed, t.table)[0] == f
  {
    assert c.initial + Rows([]) == c.initial;
    MigrationLease.LeaseSafety(c, s, actions, skew);
    MigrationLease.LeaseRun(c, s, actions, skew);
    HistoryRun(c, s, actions);
    SoleRun(c, s, actions, skew);
    var t := Exec(c, s, actions).value;
    var w := t.instances[i].work;
    LatestIsMaximum(t.table, w.kind);
    if w.Basing? {
      BaselinesAreFiles(Files(c, w.kind));
      var b := Baselines(Files(c, w.kind))[0];
      assert b in Baselines(Files(c, w.kind));
      LoadedNonEmpty(Files(c, w.kind), w.kind, b);
      BasingIsNext(c, t.table, w.kind);
    } else {
      assert Files(c, w.kind)[w.next] in Files(c, w.kind);
      ExecutingIsNext(c, t.table, w);
    }
  }
}
