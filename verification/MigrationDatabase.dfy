/**
 * The imperative side of the migration runner: execFile, runMigrationFiles and Run update
 * the table in place and are proved against the plan of MigrationRunner, for every pattern
 * of faults. A fault stops the run after a prefix of the plan and leaves the table at
 * exactly that prefix.
 */
module MigrationDatabase {
  import opened Strings
  import opened MigrationVersions
  import opened MigrationRunner

  /** What goes wrong, if anything, while one file is handled. */
  datatype Fault = NoFault | QueryFault | ReadFault | SqlFault(skippable: bool) | RecordFault

  /** Whether a file gets past its fault: only a "duplicate object" error of a DDL file is skipped. */
  predicate Survives(fault: Fault, f: MigFile, registered: bool) {
    match fault
    case NoFault => true
    case QueryFault => f.baseline  // a baseline is not looked up before it is executed
    case ReadFault => false
    case SqlFault(skippable) => f.kind.Ddl? && registered && skippable
    case RecordFault => false
  }

  /** The steps that commit before the first one that fails. */
  function Committed(steps: seq<MigFile>, faults: MigFile -> Fault, registered: bool): (done: seq<MigFile>)
    ensures done <= steps
  {
    if steps == [] || !Survives(faults(steps[0]), steps[0], registered) then []
    else [steps[0]] + Committed(steps[1..], faults, registered)
  }

  lemma {:induction false} CommittedOfConcat(a: seq<MigFile>, b: seq<MigFile>, faults: MigFile -> Fault,
                                                 registered: bool)
    ensures Committed(a + b, faults, registered) ==
            if |Committed(a, faults, registered)| == |a| then a + Committed(b, faults, registered)
            else Committed(a, faults, registered)
  {
    if a == [] {
      assert a + b == b;
    } else {
      assert (a + b)[1..] == a[1..] + b;
      CommittedOfConcat(a[1..], b, faults, registered);
    }
  }

  lemma Regroup<T>(a: seq<T>, x: T, b: seq<T>)
    ensures a + ([x] + b) == a + [x] + b
  {
  }

  lemma NextBaseline(files: seq<MigFile>, i: nat)
    requires i < |files|
    ensures Baselines(files[i..]) == (if files[i].baseline then [files[i]] else []) + Baselines(files[i + 1..])
  {
    assert files[i..][0] == files[i] && files[i..][1..] == files[i + 1..];
  }

  /** The baseline scan: fails on the second baseline. */
  method FindBaseline(files: seq<MigFile>) returns (baselines: seq<MigFile>, several: bool)
    ensures several <==> |Baselines(files)| > 1
    ensures !several ==> baselines == Baselines(files)
  {
    baselines := [];
    for i := 0 to |files|
      invariant |baselines| <= 1
      invariant Baselines(files) == baselines + Baselines(files[i..])
    {
      NextBaseline(files, i);
      if files[i].baseline {
        Regroup(baselines, files[i], Baselines(files[i + 1..]));
        if baselines != [] {
          return baselines, true;
        }
        baselines := [files[i]];
      }
    }
    several := false;
  }

  /** One turn of the main loop, as the plan sees it. */
  lemma Turn(files: seq<MigFile>, i: nat, kind: MigrationType, latest: string, faults: MigFile -> Fault,
             registered: bool)
    requires i < |files|
    ensures var f, rest := files[i], Pending(files[i..], kind, latest);
            if f.kind != kind || f.baseline || !Less(latest, f.version) then
              rest == Pending(files[i + 1..], kind, latest)
            else
              var next := Pending(files[i + 1..], kind, f.version);
              && |rest| == 1 + |next|
              && Committed(rest, faults, registered) ==
                 if Survives(faults(f), f, registered) then [f] + Committed(next, faults, registered) else []
  {
    assert files[i..][0] == files[i] && files[i..][1..] == files[i + 1..];
  }

  /** What committing one new version does to the table. */
  lemma Commit(start: Table, executed: seq<MigFile>, f: MigFile)
    requires Less(Latest(start + Rows(executed), f.kind), f.version)
    ensures RowOf(f) !in start + Rows(executed)
    ensures start + Rows(executed) + [RowOf(f)] == start + Rows(executed + [f])
    ensures Latest(start + Rows(executed + [f]), f.kind) == f.version
  {
    AboveLatestIsNew(start + Rows(executed), f.kind, f.version);
    RowsOfConcat(start, executed, [f]);
    assert Rows([f]) == [RowOf(f)];
    LatestOfAppend(start + Rows(executed), RowOf(f), f.kind);
  }

  class Database {
    var rows: Table

    constructor (rows: Table)
      ensures this.rows == rows
    {
      this.rows := rows;
    }

    /** One transaction: the script and its record both take effect, or neither does. */
    method ExecFile(f: MigFile, registered: bool, fault: Fault) returns (ok: bool)
      modifies this
      ensures ok <==> && RowOf(f) !in old(rows)
                      && (fault.NoFault? || fault.QueryFault?
                          || (fault.SqlFault? && fault.skippable && f.kind.Ddl? && registered))
      ensures rows == if ok then old(rows) + [RowOf(f)] else old(rows)
    {
      if fault.ReadFault? {
        return false;
      }
      if fault.SqlFault? {
        if f.kind.Seed? || !registered || !fault.skippable {
          return false;
        }
      }
      // the primary key (version, type) rejects a second record of the same version
      if fault.RecordFault? || RowOf(f) in rows {
        return false;
      }
      rows := rows + [RowOf(f)];
      return true;
    }

    /** The main loop of runMigrationFiles. */
    method RunPending(files: seq<MigFile>, kind: MigrationType, from: string, registered: bool,
                      faults: MigFile -> Fault)
      returns (executed: seq<MigFile>, err: bool)
      requires from == Latest(rows, kind)
      modifies this
      ensures executed == Committed(Pending(files, kind, from), faults, registered)
      ensures rows == old(rows) + Rows(executed)
      ensures err <==> |executed| < |Pending(files, kind, from)|
    {
      var latest := from;
      executed := [];
      ghost var start, steps := rows, Pending(files, kind, from);
      assert rows == start + Rows(executed);
      for i := 0 to |files|
        invariant rows == start + Rows(executed)
        invariant latest == Latest(rows, kind)
        invariant |steps| == |executed| + |Pending(files[i..], kind, latest)|
        invariant Committed(steps, faults, registered) ==
                  executed + Committed(Pending(files[i..], kind, latest), faults, registered)
      {
        var f := files[i];
        Turn(files, i, kind, latest, faults, registered);
        if f.kind != kind || f.baseline || !Less(latest, f.version) {
          continue;
        }
        Commit(start, executed, f);
        if faults(f).QueryFault? {
          return executed, true;
        }
        var done := RowOf(f) in rows;
        if done {
          assert false;  // nothing above the maximum is ever recorded already
        }
        var ok := ExecFile(f, registered, faults(f));
        if !ok {
          return executed, true;
        }
        Regroup(executed, f, Committed(Pending(files[i + 1..], kind, f.version), faults, registered));
        executed := executed + [f];
        latest := f.version;
      }
      return executed, false;
    }

    /** A database without rows of the kind runs the baseline first. */
    method RunFromBaseline(files: seq<MigFile>, kind: MigrationType, baseline: MigFile, registered: bool,
                           faults: MigFile -> Fault)
      returns (executed: seq<MigFile>, err: bool)
      requires Latest(rows, kind) == "" && baseline.kind == kind && baseline.baseline && Less("", baseline.version)
      modifies this
      ensures var steps := [baseline] + Pending(files, kind, baseline.version);
              executed == Committed(steps, faults, registered) && (err <==> |executed| < |steps|)
      ensures rows == old(rows) + Rows(executed)
    {
      executed := [];
      assert rows == rows + Rows([]);
      Commit(rows, [], baseline);
      var ok := ExecFile(baseline, registered, faults(baseline));
      if !ok {
        return executed, true;
      }
      assert [] + [baseline] == [baseline];
      var more;
      more, err := RunPending(files, kind, baseline.version, registered, faults);
      RowsOfConcat(old(rows), [baseline], more);
      executed := [baseline] + more;
    }

    method RunMigrationFiles(files: seq<MigFile>, registered: bool, faults: MigFile -> Fault, latestFails: bool)
      returns (executed: seq<MigFile>, err: bool)
      requires exists kind :: Loaded(files, kind)
      modifies this
      ensures rows == old(rows) + Rows(executed)
      ensures executed == if latestFails then [] else Committed(FilesPlan(files, old(rows)).steps, faults, registered)
      ensures err <==> var plan := FilesPlan(files, old(rows));
                       files != [] && (plan.err || latestFails || |executed| < |plan.steps|)
    {
      executed := [];
      assert rows == rows + Rows([]);
      if |files| == 0 {
        return executed, false;
      }
      var kind := files[0].kind;
      assert files[0] in files;
      assert Loaded(files, kind);

      var baselines, several := FindBaseline(files);
      if several || latestFails {
        return executed, true;
      }
      var latest := Latest(rows, kind);
      if latest != "" {
        executed, err := RunPending(files, kind, latest, registered, faults);
        return;
      }
      if baselines == [] {
        return executed, true;
      }
      BaselinesAreFiles(files);
      assert baselines[0] in baselines;
      LoadedNonEmpty(files, kind, baselines[0]);
      executed, err := RunFromBaseline(files, kind, baselines[0], registered, faults);
    }

    /**
     * Run under the lock: the whole plan up to its first fault; only a DDL fault is an error. Either
     * query for the latest version may fail; it is not sent for an empty list of files.
     */
    method Run(ddl: seq<MigFile>, seed: seq<MigFile>, registered: bool, faults: MigFile -> Fault,
               ddlQueryFails: bool, seedQueryFails: bool)
      returns (executed: seq<MigFile>, err: bool)
      requires Loaded(ddl, Ddl) && Loaded(seed, Seed)
      modifies this
      ensures executed == RunCommits(ddl, seed, old(rows), registered, faults, ddlQueryFails, seedQueryFails)
      ensures rows == old(rows) + Rows(executed)
      ensures err <==> ddl != [] && (ddlQueryFails || FilesPlan(ddl, old(rows)).err ||
                                     |executed| < |FilesPlan(ddl, old(rows)).steps|)
    {
      ghost var start := rows;
      if |ddl| == 0 && |seed| == 0 {
        assert start + Rows([]) == start;
        return [], false;
      }
      ghost var d := FilesPlan(ddl, start);
      executed, err := RunMigrationFiles(ddl, registered, faults, ddlQueryFails);
      if err {
        CommittedOfConcat(d.steps, FilesPlan(seed, start + Rows(d.steps)).steps, faults, registered);
        return;
      }
      assert executed == d.steps;
      var more, warned := RunMigrationFiles(seed, registered, faults, seedQueryFails);
      CommittedOfConcat(d.steps, FilesPlan(seed, start + Rows(d.steps)).steps, faults, registered);
      RowsOfConcat(start, executed, more);
      executed := executed + more;
    }
  }

  /** What one Run commits: the plan up to its first fault, cut before a kind whose query fails. */
  function RunCommits(ddl: seq<MigFile>, seed: seq<MigFile>, table: Table, registered: bool, faults: MigFile -> Fault,
                      ddlQueryFails: bool, seedQueryFails: bool): (done: seq<MigFile>)
    ensures done <= RunPlan(ddl, seed, table)
  {
    if ddl != [] && ddlQueryFails then []
    else if seedQueryFails then
      var steps := FilesPlan(ddl, table).steps;
      assert FilesPlan(ddl, table).err ==> steps == [];
      Committed(steps, faults, registered)
    else Committed(RunPlan(ddl, seed, table), faults, registered)
  }

  /** However often a run is cut short by faults, the next run goes on where the table stands. */
  lemma FaultyRunsCompose(ddl: seq<MigFile>, seed: seq<MigFile>, table: Table, registered: bool,
                          faults: MigFile -> Fault, ddlQueryFails: bool, seedQueryFails: bool)
    requires Loaded(ddl, Ddl) && Loaded(seed, Seed)
    ensures var plan := RunPlan(ddl, seed, table);
            var first := RunCommits(ddl, seed, table, registered, faults, ddlQueryFails, seedQueryFails);
            first + RunPlan(ddl, seed, table + Rows(first)) == plan
  {
    var plan := RunPlan(ddl, seed, table);
    var first := RunCommits(ddl, seed, table, registered, faults, ddlQueryFails, seedQueryFails);
    SplitAt(first, plan);
    RunResumes(ddl, seed, table, |first|);
  }

  lemma SplitAt<T>(first: seq<T>, whole: seq<T>)
    requires first <= whole
    ensures whole[..|first|] == first && first + whole[|first|..] == whole
  {
  }
}
