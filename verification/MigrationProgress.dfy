/**
 * The other half of the migration cluster: what an instance gets done when nothing goes wrong.
 * It takes a free or a stale lock, commits the whole plan, and leaves the lock free.
 */
module MigrationProgress {
  import opened Strings
  import opened MigrationVersions
  import opened MigrationRunner
  import opened MigrationCluster

  // ---- the work, statement by statement ----

  /** A number of statements in a row, none of which fails. */
  function Worked(c: Config, table: Table, w: Work, steps: nat): (Work, Table)
    decreases steps
  {
    if steps == 0 then (w, table)
    else
      var (w', table') := WorkStep(c, table, w, true);
      Worked(c, table', w', steps - 1)
  }

  lemma {:induction false} WorkedOn(c: Config, table: Table, w: Work, a: nat, b: nat)
    ensures var (w', table') := Worked(c, table, w, a); Worked(c, table, w, a + b) == Worked(c, table', w', b)
    decreases a
  {
    if a > 0 {
      var (w', table') := WorkStep(c, table, w, true);
      WorkedOn(c, table', w', a - 1, b);
    }
  }

  lemma OneMore(table: Table, f: MigFile, rest: seq<MigFile>)
    ensures table + [RowOf(f)] + Rows(rest) == table + Rows([f] + rest)
  {
    assert Rows([f] + rest) == [RowOf(f)] + Rows(rest);
  }

  /** What one file does to the pending list behind it. */
  lemma PendingFrom(files: seq<MigFile>, n: nat, kind: MigrationType, latest: string)
    requires n < |files| && files[n].kind == kind
    ensures Pending(files[n..], kind, latest) ==
            if files[n].baseline || !Less(latest, files[n].version) then Pending(files[n + 1..], kind, latest)
            else [files[n]] + Pending(files[n + 1..], kind, files[n].version)
  {
    assert files[n..][0] == files[n] && files[n..][1..] == files[n + 1..];
  }

  predicate OneKind(files: seq<MigFile>, kind: MigrationType) {
    forall i | 0 <= i < |files| :: files[i].kind == kind
  }

  lemma FilesAreOneKind(c: Config, kind: MigrationType)
    requires Valid(c)
    ensures OneKind(Files(c, kind), kind)
  {
    assert forall i | 0 <= i < |Files(c, kind)| :: Files(c, kind)[i] in Files(c, kind);
  }

  /** From any file on, the loop commits exactly what is pending behind it. */
  lemma ScanCompletes(c: Config, table: Table, kind: MigrationType, latest: string, n: nat) returns (steps: nat)
    requires OneKind(Files(c, kind), kind) && n <= |Files(c, kind)| && latest == Latest(table, kind)
    ensures Worked(c, table, Scanning(kind, latest, n), steps) ==
            (NextKind(kind), table + Rows(Pending(Files(c, kind)[n..], kind, latest)))
    decreases |Files(c, kind)| - n
  {
    var files := Files(c, kind);
    if n == |files| {
      assert table + Rows([]) == table;
      WorkedOnce(c, table, Scanning(kind, latest, n));
      steps := 1;
    } else {
      var f := files[n];
      PendingFrom(files, n, kind, latest);
      if f.baseline || !Less(latest, f.version) {
        var more := ScanCompletes(c, table, kind, latest, n + 1);
        FileIsSkipped(c, table, Scanning(kind, latest, n), more);
        steps := 1 + more;
      } else {
        AboveLatestIsNew(table, kind, f.version);
        LatestOfAppend(table, RowOf(f), kind);
        var more := ScanCompletes(c, table + [RowOf(f)], kind, f.version, n + 1);
        OneMore(table, f, Pending(files[n + 1..], kind, f.version));
        FileIsExecuted(c, table, Scanning(kind, latest, n), f, more);
        steps := 2 + more;
      }
    }
  }

  lemma WorkedOnce(c: Config, table: Table, w: Work)
    ensures Worked(c, table, w, 1) == WorkStep(c, table, w, true)
  {
  }

  lemma FileIsSkipped(c: Config, table: Table, w: Work, more: nat)
    requires w.Scanning? && w.next < |Files(c, w.kind)|
    requires Files(c, w.kind)[w.next].baseline || !Less(w.latest, Files(c, w.kind)[w.next].version)
    ensures Worked(c, table, w, 1 + more) == Worked(c, table, Scanning(w.kind, w.latest, w.next + 1), more)
  {
  }

  /** A file above the maximum is looked up, executed and recorded. */
  lemma FileIsExecuted(c: Config, table: Table, w: Work, f: MigFile, more: nat)
    requires w.Scanning? && w.next < |Files(c, w.kind)| && f == Files(c, w.kind)[w.next]
    requires !f.baseline && Less(w.latest, f.version) && RowOf(f) !in table
    ensures Worked(c, table, w, 2 + more) ==
            Worked(c, table + [RowOf(f)], Scanning(w.kind, f.version, w.next + 1), more)
  {
    assert WorkStep(c, table, w, true) == (Executing(w.kind, w.latest, w.next), table);
  }

  /** Where a kind leads: to the next one, or to the end if its plan is an error. */
  function After(files: seq<MigFile>, table: Table, kind: MigrationType): Work {
    if FilesPlan(files, table).err then Finished else NextKind(kind)
  }

  /** One kind: its whole plan is committed. */
  lemma KindCompletes(c: Config, table: Table, kind: MigrationType) returns (steps: nat)
    requires Valid(c)
    ensures Worked(c, table, Starting(kind), steps) ==
            (After(Files(c, kind), table, kind), table + Rows(FilesPlan(Files(c, kind), table).steps))
  {
    var files, latest := Files(c, kind), Latest(table, kind);
    assert table + Rows([]) == table;
    FilesAreOneKind(c, kind);
    if files == [] || |Baselines(files)| > 1 || (latest == "" && Baselines(files) == []) {
      steps := 1;
      assert Worked(c, table, Starting(kind), 1) == WorkStep(c, table, Starting(kind), true);
    } else if latest != "" {
      var more := ScanCompletes(c, table, kind, latest, 0);
      assert files[0..] == files;
      steps := 1 + more;
    } else {
      steps := BaselineCompletes(c, table, kind);
    }
  }

  lemma BaselineCompletes(c: Config, table: Table, kind: MigrationType) returns (steps: nat)
    requires Valid(c) && |Baselines(Files(c, kind))| == 1 && Latest(table, kind) == ""
    ensures Worked(c, table, Starting(kind), steps) ==
            (NextKind(kind), table + Rows(FilesPlan(Files(c, kind), table).steps))
    ensures !FilesPlan(Files(c, kind), table).err
  {
    var files, b := Files(c, kind), Baselines(Files(c, kind))[0];
    BaselineIsNew(c, table, kind);
    var more := ScanCompletes(c, table + [RowOf(b)], kind, b.version, 0);
    assert files[0..] == files;
    BaselineIsExecuted(c, table, kind, more);
    BaselinePlanRows(c, table, kind);
    steps := 2 + more;
  }

  /** The plan's rows are the baseline's and those of the files above it. */
  lemma BaselinePlanRows(c: Config, table: Table, kind: MigrationType)
    requires Valid(c) && |Baselines(Files(c, kind))| == 1 && Latest(table, kind) == "" && Files(c, kind) != []
    ensures var files, b := Files(c, kind), Baselines(Files(c, kind))[0];
            table + Rows(FilesPlan(files, table).steps) ==
            table + [RowOf(b)] + Rows(Pending(files, kind, b.version))
  {
    var files, b := Files(c, kind), Baselines(Files(c, kind))[0];
    FilesAreOneKind(c, kind);
    PlanFromBaseline(files, kind, table);
    OneMore(table, b, Pending(files, kind, b.version));
  }

  /** Without rows of the kind the baseline can be recorded, and is the maximum then. */
  lemma BaselineIsNew(c: Config, table: Table, kind: MigrationType)
    requires Valid(c) && |Baselines(Files(c, kind))| == 1 && Latest(table, kind) == ""
    ensures Files(c, kind) != [] && !FilesPlan(Files(c, kind), table).err
    ensures var b := Baselines(Files(c, kind))[0];
            RowOf(b) !in table && Latest(table + [RowOf(b)], kind) == b.version
  {
    var files := Files(c, kind);
    BaselinesAreFiles(files);
    var b := Baselines(files)[0];
    assert b in Baselines(files) && files[0] in files;
    LoadedNonEmpty(files, kind, b);
    AboveLatestIsNew(table, kind, b.version);
    LatestOfAppend(table, RowOf(b), kind);
  }

  lemma BaselineIsExecuted(c: Config, table: Table, kind: MigrationType, more: nat)
    requires |Baselines(Files(c, kind))| == 1 && Latest(table, kind) == "" && Files(c, kind) != []
    requires RowOf(Baselines(Files(c, kind))[0]) !in table
    ensures var b := Baselines(Files(c, kind))[0];
            Worked(c, table, Starting(kind), 2 + more) ==
            Worked(c, table + [RowOf(b)], Scanning(kind, b.version, 0), more)
  {
    assert WorkStep(c, table, Starting(kind), true) == (Basing(kind), table);
  }

  /** Both kinds: the work ends, with exactly the plan of Run committed. */
  lemma WorkCompletes(c: Config, table: Table) returns (steps: nat)
    requires Valid(c)
    ensures Worked(c, table, Starting(Ddl), steps) == (Finished, table + Rows(RunPlan(c.ddl, c.seed, table)))
  {
    assert table + Rows([]) == table;
    var ddl := FilesPlan(c.ddl, table);
    steps := KindCompletes(c, table, Ddl);
    if !ddl.err {
      var mid := table + Rows(ddl.steps);
      var more := KindCompletes(c, mid, Seed);
      WorkedOn(c, table, Starting(Ddl), steps, more);
      RowsOfConcat(table, ddl.steps, FilesPlan(c.seed, mid).steps);
      steps := steps + more;
    }
  }

  // ---- one instance from start to end ----

  lemma Then(c: Config, s: State, actions: seq<Action>, t: State, a: Action) returns (actions': seq<Action>, t': State)
    requires Exec(c, s, actions) == Some(t) && Apply(c, t, a).Some?
    ensures Exec(c, s, actions') == Some(t') && Some(t') == Apply(c, t, a) && actions' == actions + [a]
  {
    ExecSnoc(c, s, actions, a);
    actions', t' := actions + [a], Apply(c, t, a).value;
  }

  /** No row, or one that this instance's clock calls stale. */
  predicate Takeable(c: Config, s: State, i: nat)
    requires i < |c.offsets|
  {
    s.lock.None? || Clock(c, s, i) - s.lock.value.lockedAt > 3 * c.third
  }

  // ---- single steps ----

  /** The work is at a statement, not just passing over files. */
  predicate AtStatement(c: Config, w: Work) {
    match w
    case Starting(kind) => Files(c, kind) != []
    case Basing(_) => true
    case Scanning(kind, latest, n) =>
      n < |Files(c, kind)| && !Files(c, kind)[n].baseline && Less(latest, Files(c, kind)[n].version)
    case Executing(_, _, _) => true
    case Finished => false
  }

  /** A statement that fails ends the work and changes nothing. */
  lemma FailureEndsWork(c: Config, table: Table, w: Work)
    requires AtStatement(c, w)
    ensures WorkStep(c, table, w, false) == (Finished, table)
  {
  }

  /** A file above `latest` that somebody has recorded meanwhile is passed over, not taken for the end. */
  lemma RecordedFileIsPassed(c: Config, table: Table, kind: MigrationType, latest: string, n: nat)
    requires AtStatement(c, Scanning(kind, latest, n))
    ensures var next := if RowOf(Files(c, kind)[n]) in table then Scanning(kind, latest, n + 1)
                        else Executing(kind, latest, n);
            WorkStep(c, table, Scanning(kind, latest, n), true) == (next, table)
  {
  }

  /** A holder keeps its lease going, and leaves only with its work finished, unless it stops. */
  lemma HolderGoesOn(c: Config, s: State, i: nat, e: Event)
    requires i < |s.instances| == |c.offsets| && s.instances[i].Holding? && !e.Stop? && Local(c, s, i, e).Some?
    ensures var p, q := s.instances[i], Local(c, s, i, e).value.instances[i];
            || (q.Holding? && (q.renewal.NoLease? <==> p.renewal.NoLease?))
            || (p.work.Finished? && (q.Unlocking? || (q.Down? && p.renewal.NoLease?)))
  {
  }

  /** When its tick is due a holder can set the row to its current clock; a renewal that fails is due again later. */
  lemma RenewalWorks(c: Config, s: State, i: nat) returns (actions: seq<Action>, t: State)
    requires i < |s.instances| == |c.offsets| && s.instances[i].Holding?
    requires s.instances[i].renewal.Ticking? && s.now >= s.instances[i].renewal.due
    requires s.lock.Some? && s.lock.value.lockedBy == i
    ensures Exec(c, s, actions) == Some(t)
    ensures t == Put(s, i, Holding(Ticking(s.now + c.third), s.instances[i].work))
                 .(lock := Some(LockRow(i, Clock(c, s, i))))
    ensures !c.timely ==> Exec(c, s, [Act(i, RenewBegins), Act(i, RenewFails)]) == Some(t.(lock := s.lock))
  {
    actions, t := Then(c, s, [], s, Act(i, RenewBegins));
    var u := t;
    actions, t := Then(c, s, actions, t, Act(i, Renew));
    assert t.instances == s.instances[i := Holding(Ticking(s.now + c.third), s.instances[i].work)];
    if !c.timely {
      var fails, v := Then(c, s, [Act(i, RenewBegins)], u, Act(i, RenewFails));
      assert v.instances == t.instances;
    }
  }

  /** A renewal under way at Unlock may still land: it refreshes the own row until Unlock has removed it. */
  lemma LateRenewalLands(c: Config, s: State, i: nat) returns (actions: seq<Action>, t: State)
    requires i < |s.instances| == |c.offsets| && s.lock.Some? && s.lock.value.lockedBy == i
    requires s.instances[i].Holding? && s.instances[i].work.Finished? && s.instances[i].renewal.Updating?
    ensures Exec(c, s, actions) == Some(t) && actions == [Act(i, Release), Act(i, LateRenew)]
    ensures t.lock == Some(LockRow(i, s.instances[i].renewal.since + c.offsets[i]))
    ensures Exec(c, s, [Act(i, Release), Act(i, LateRenew), Act(i, Unlock)]) == Some(Put(s, i, Down).(lock := None))
  {
    actions, t := Then(c, s, [], s, Act(i, Release));
    actions, t := Then(c, s, actions, t, Act(i, LateRenew));
    var more, u := Then(c, s, actions, t, Act(i, Unlock));
    assert u.instances == s.instances[i := Down];
  }

  /** Past its deadline a Lock that is about to try again can only return the error. */
  lemma LateLockEnds(c: Config, s: State, i: nat, e: Event)
    requires i < |s.instances| == |c.offsets| && s.instances[i].Trying?
    requires s.now > s.instances[i].since + c.timeout && Local(c, s, i, e).Some?
    ensures e.Stop? && Local(c, s, i, e) == Some(Put(s, i, Down))
  {
  }

  /** A crashed holder does not block the others: once its row is stale, the next instance takes the lock. */
  lemma CrashedHolderIsReplaced(c: Config, s: State, i: nat, k: nat) returns (actions: seq<Action>, t: State)
    requires Valid(c) && c.registered && i < |s.instances| == |c.offsets| && k < |s.instances| && s.instances[k].Down?
    requires s.instances[i].Holding? && forall j | 0 <= j < |s.instances| && s.instances[j].Holding? :: j == i
    ensures Exec(c, s, actions) == Some(t) && |t.instances| == |c.offsets| && t.table == s.table
    ensures t.instances[i].Down? && t.instances[k].Holding? && t.lock.Some? && t.lock.value.lockedBy == k
  {
    var u;
    actions, u := Then(c, s, [], s, Act(i, Stop));
    assert u.instances == s.instances[i := Down];
    var age := if u.lock.Some? then Clock(c, u, k) - u.lock.value.lockedAt else 0;
    actions, u := Then(c, s, actions, u, Pass(1 + if age > 0 then 3 * c.third else 3 * c.third - age));
    var more, v := LockIsTaken(c, u, k);
    ExecConcat(c, s, actions, more);
    actions, t := actions + more, v;
  }

  lemma {:induction false} ExecConcat(c: Config, s: State, a: seq<Action>, b: seq<Action>)
    requires Exec(c, s, a).Some?
    ensures Exec(c, s, a + b) == Exec(c, Exec(c, s, a).value, b)
    decreases |a|
  {
    if a == [] {
      assert a + b == b;
    } else {
      assert (a + b)[1..] == a[1..] + b;
      ExecConcat(c, Apply(c, s, a[0]).value, a[1..], b);
    }
  }

  // ---- inside Lock ----

  /** The instance is in the loop of Lock, which began at `since`. */
  predicate InLock(p: Instance) {
    p.Trying? || p.Inserting? || p.Reading? || p.Judging? || p.Deleting?
  }

  /** A step of Lock other than a stop stays in its loop, with the same deadline, or gets the lock. */
  lemma LockGoesOn(c: Config, s: State, i: nat, e: Event)
    requires i < |s.instances| == |c.offsets| && InLock(s.instances[i]) && !e.Stop? && Local(c, s, i, e).Some?
    ensures var p := Local(c, s, i, e).value.instances[i];
            (InLock(p) && p.since == s.instances[i].since) || p == Holding(Ticking(s.now + c.third), Starting(Ddl))
  {
  }

  predicate ByOthers(actions: seq<Action>, i: nat) {
    forall a | a in actions :: a.Act? ==> a.i != i
  }

  lemma {:induction false} OthersLeave(c: Config, s: State, actions: seq<Action>, i: nat)
    requires ByOthers(actions, i) && Exec(c, s, actions).Some? && i < |s.instances|
    ensures var t := Exec(c, s, actions).value; |t.instances| == |s.instances| && t.instances[i] == s.instances[i]
    decreases |actions|
  {
    if actions != [] {
      assert actions[0] in actions && forall a | a in actions[1..] :: a in actions;
      OthersLeave(c, Apply(c, s, actions[0]).value, actions[1..], i);
    }
  }

  /** From any point of its loop Lock comes back to the INSERT, also when it has judged the row fresh. */
  lemma BackToInsert(c: Config, s: State, actions: seq<Action>, t: State, i: nat)
    returns (actions': seq<Action>, t': State)
    requires i < |t.instances| == |c.offsets| && Exec(c, s, actions) == Some(t) && InLock(t.instances[i])
    ensures Exec(c, s, actions') == Some(t') && t' == Put(t, i, Trying(t.instances[i].since))
    ensures NoStart(actions, i) ==> NoStart(actions', i)
  {
    var since := t.instances[i].since;
    actions', t' := actions, t;
    if t'.instances[i].Inserting? {
      actions', t' := Then(c, s, actions', t', Act(i, InsertRefused));
    }
    if t'.instances[i].Reading? {
      actions', t' := Then(c, s, actions', t', Act(i, ReadFails));
    }
    if t'.instances[i].Judging? {
      actions', t' := Then(c, s, actions', t', Act(i, Judge));
    }
    if t'.instances[i].Deleting? {
      actions', t' := Then(c, s, actions', t', Act(i, DeleteFails));
    }
    assert t'.instances == t.instances[i := Trying(since)];
  }

  predicate NoStart(actions: seq<Action>, i: nat) {
    forall a | a in actions :: a != Act(i, Start)
  }

  /**
   * A waiting Lock is not lost: wherever it is in its loop, whatever the others do meanwhile, if the
   * row is then free or stale before the deadline, the instance can take the lock in this same call.
   */
  lemma WaiterGetsLock(c: Config, s: State, others: seq<Action>, i: nat) returns (actions: seq<Action>, t: State)
    requires Valid(c) && i < |s.instances| == |c.offsets| && InLock(s.instances[i])
    requires ByOthers(others, i) && Exec(c, s, others).Some?
    requires var u := Exec(c, s, others).value;
             && u.now <= s.instances[i].since + c.timeout
             && (u.lock.None? || Clock(c, u, i) - u.lock.value.lockedAt > 3 * c.third)
    ensures var u := Exec(c, s, others).value;
            && Exec(c, u, actions) == Some(t) && NoStart(actions, i) && |u.instances| == |c.offsets|
            && t == Put(u, i, Holding(Ticking(u.now + c.third), Starting(Ddl)))
                    .(lock := Some(LockRow(i, Clock(c, u, i))))
  {
    var u := Exec(c, s, others).value;
    OthersLeave(c, s, others, i);
    actions, t := BackToInsert(c, u, [], u, i);
    actions, t := RowIsCleared(c, u, actions, t, i);
    actions, t := RowIsInserted(c, u, actions, t, i);
    assert t.instances == u.instances[i := t.instances[i]];
  }

  /** An instance that judged the row fresh waits and tries again: once the row is removed in time, it gets the lock. */
  lemma FreshRowIsWaitedFor(c: Config, s: State, i: nat, others: seq<Action>) returns (actions: seq<Action>, t: State)
    requires Valid(c) && i < |s.instances| == |c.offsets| && s.instances[i].Judging?
    requires Clock(c, s, i) - s.instances[i].seen <= 3 * c.third && Local(c, s, i, Judge).Some?
    requires var judged := Local(c, s, i, Judge).value;
             && ByOthers(others, i) && Exec(c, judged, others).Some?
             && var u := Exec(c, judged, others).value; u.lock.None? && u.now <= s.instances[i].since + c.timeout
    ensures var u := Exec(c, Local(c, s, i, Judge).value, others).value;
            && Exec(c, u, actions) == Some(t) && NoStart(actions, i) && |t.instances| == |c.offsets|
            && t.instances[i].Holding? && t.lock == Some(LockRow(i, Clock(c, u, i)))
  {
    LockGoesOn(c, s, i, Judge);
    actions, t := WaiterGetsLock(c, Local(c, s, i, Judge).value, others, i);
  }

  /** A stale row is removed by its locked_at. */
  lemma RowIsCleared(c: Config, s: State, actions: seq<Action>, t: State, i: nat)
    returns (actions': seq<Action>, t': State)
    requires Valid(c) && i < |t.instances| == |c.offsets| && Exec(c, s, actions) == Some(t)
    requires t.instances[i].Trying? && t.now <= t.instances[i].since + c.timeout && Takeable(c, t, i)
    ensures Exec(c, s, actions') == Some(t') && t' == t.(lock := None)
    ensures NoStart(actions, i) ==> NoStart(actions', i)
  {
    actions', t' := actions, t;
    if t.lock.Some? {
      actions', t' := Then(c, s, actions', t', Act(i, Attempt));
      actions', t' := Then(c, s, actions', t', Act(i, InsertRefused));
      actions', t' := Then(c, s, actions', t', Act(i, Read));
      actions', t' := Then(c, s, actions', t', Act(i, Judge));
      actions', t' := Then(c, s, actions', t', Act(i, Delete));
      assert t'.instances == t.instances;
    }
  }

  /** Lock succeeds on a free or stale row. */
  lemma LockIsTaken(c: Config, s: State, i: nat) returns (actions: seq<Action>, t: State)
    requires Valid(c) && c.registered && i < |s.instances| == |c.offsets| && s.instances[i].Down?
    requires Takeable(c, s, i)
    ensures Exec(c, s, actions) == Some(t)
    ensures t == Put(s, i, Holding(Ticking(s.now + c.third), Starting(Ddl))).(lock := Some(LockRow(i, Clock(c, s, i))))
  {
    actions, t := Then(c, s, [], s, Act(i, Start));
    actions, t := RowIsCleared(c, s, actions, t, i);
    actions, t := RowIsInserted(c, s, actions, t, i);
    assert t.instances == s.instances[i := Holding(Ticking(s.now + c.third), Starting(Ddl))];
  }

  lemma RowIsInserted(c: Config, s: State, actions: seq<Action>, t: State, i: nat)
    returns (actions': seq<Action>, t': State)
    requires Valid(c) && i < |t.instances| == |c.offsets| && Exec(c, s, actions) == Some(t)
    requires t.instances[i].Trying? && t.now <= t.instances[i].since + c.timeout && t.lock.None?
    ensures Exec(c, s, actions') == Some(t') && (NoStart(actions, i) ==> NoStart(actions', i))
    ensures t' == Put(t, i, Holding(Ticking(t.now + c.third), Starting(Ddl))).(lock := Some(LockRow(i, Clock(c, t, i))))
  {
    actions', t' := Then(c, s, actions, t, Act(i, Attempt));
    actions', t' := Then(c, s, actions', t', Act(i, Insert(true)));
    assert t'.instances == t.instances[i := Holding(Ticking(t.now + c.third), Starting(Ddl))];
  }

  /** Run gets to its work: under the lock, or without one for an unregistered dialect. */
  lemma WorkBegins(c: Config, s: State, i: nat) returns (actions: seq<Action>, t: State, r: Renewal)
    requires Valid(c) && i < |s.instances| == |c.offsets| && s.instances[i].Down?
    requires c.registered ==> Takeable(c, s, i)
    ensures Exec(c, s, actions) == Some(t) && t.instances == s.instances[i := Holding(r, Starting(Ddl))]
    ensures t == s.(instances := t.instances, lock := t.lock)
    ensures if c.registered then r.Ticking? && t.lock.Some? && t.lock.value.lockedBy == i
            else r.NoLease? && t.lock == s.lock
  {
    if c.registered {
      actions, t := LockIsTaken(c, s, i);
      r := Ticking(s.now + c.third);
    } else {
      actions, t := Then(c, s, [], s, Act(i, Start));
      r := NoLease;
    }
  }

  /** Unlock removes the own row, also when a renewal is still under way. */
  lemma LockIsFreed(c: Config, s: State, actions: seq<Action>, t: State, i: nat, r: Renewal)
    returns (actions': seq<Action>, t': State)
    requires i < |t.instances| == |c.offsets| && Exec(c, s, actions) == Some(t)
    requires t.instances[i] == Holding(r, Finished)
    requires if c.registered then !r.NoLease? && t.lock.Some? && t.lock.value.lockedBy == i else r.NoLease?
    ensures Exec(c, s, actions') == Some(t')
    ensures t' == Put(t, i, Down).(lock := if c.registered then None else t.lock)
  {
    actions', t' := Then(c, s, actions, t, Act(i, Release));
    if c.registered {
      actions', t' := Then(c, s, actions', t', Act(i, Unlock));
    }
    assert t'.instances == t.instances[i := Down];
  }

  /** The statements of the work as steps of the cluster. */
  lemma {:induction false} WorkIsDone(c: Config, s: State, actions: seq<Action>, t: State, i: nat, steps: nat)
    returns (actions': seq<Action>, t': State)
    requires i < |t.instances| == |c.offsets| && Exec(c, s, actions) == Some(t) && t.instances[i].Holding?
    requires Worked(c, t.table, t.instances[i].work, steps).0.Finished?
    ensures Exec(c, s, actions') == Some(t')
    ensures t' == Put(t, i, Holding(t.instances[i].renewal, Finished)).(
                    table := Worked(c, t.table, t.instances[i].work, steps).1)
    decreases steps
  {
    var w := t.instances[i].work;
    if w.Finished? {
      FinishedStays(c, t.table, steps);
      actions', t' := actions, t;
      assert t.instances[i := t.instances[i]] == t.instances;
    } else {
      var (w', table') := WorkStep(c, t.table, w, true);
      var actions1, t1 := Then(c, s, actions, t, Act(i, Work(true)));
      actions', t' := WorkIsDone(c, s, actions1, t1, i, steps - 1);
    }
  }

  lemma {:induction false} FinishedStays(c: Config, table: Table, steps: nat)
    ensures Worked(c, table, Finished, steps) == (Finished, table)
    decreases steps
  {
    if steps > 0 {
      FinishedStays(c, table, steps - 1);
    }
  }

  /**
   * An instance that starts on a free or stale lock can commit the whole plan, and then leaves
   * no lock row and no trace but the table. Nothing is left out of the plan, and a crashed
   * holder does not block the others for ever.
   */
  lemma OneInstanceCompletes(c: Config, s: State, i: nat) returns (actions: seq<Action>, t: State)
    requires Valid(c) && i < |s.instances| == |c.offsets| && s.instances[i].Down?
    requires c.registered ==> Takeable(c, s, i)
    ensures Exec(c, s, actions) == Some(t)
    ensures t == s.(table := s.table + Rows(RunPlan(c.ddl, c.seed, s.table)),
                    lock := if c.registered then None else s.lock)
  {
    var r;
    actions, t, r := WorkBegins(c, s, i);
    var steps := WorkCompletes(c, s.table);
    actions, t := WorkIsDone(c, s, actions, t, i, steps);
    actions, t := LockIsFreed(c, s, actions, t, i, r);
    assert t.instances == s.instances;
  }
}
