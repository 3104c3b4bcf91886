/**
 * Any number of service instances calling Run on one database: the lease lock of
 * tableLocker, its renewal goroutine, and the migration work under it. Every SQL statement
 * or transaction is one atomic step; instances may stop at any point; each has its own
 * clock, a fixed offset away from the true time.
 */
module MigrationCluster {
  import opened Strings
  import opened MigrationVersions
  import opened MigrationRunner

  datatype Option<+T> = None | Some(value: T)

  /**
   * `third` is staleLockThreshold / 3, `timeout` is LockTimeout. Without a registered
   * dialect Run takes no lock. `timely` says that the renewal goroutine runs when its
   * ticker fires and that each renewal commits within its own timeout of one third.
   */
  datatype Config = Config(third: int, timeout: int, registered: bool, timely: bool, offsets: seq<int>,
                           ddl: seq<MigFile>, seed: seq<MigFile>, initial: Table)

  datatype LockRow = LockRow(lockedBy: nat, lockedAt: int)

  /** How far runMigrationFiles has come; a script runs in Basing and in Executing. */
  datatype Work =
    | Starting(kind: MigrationType)
    | Basing(kind: MigrationType)
    | Scanning(kind: MigrationType, latest: string, next: nat)
    | Executing(kind: MigrationType, latest: string, next: nat)
    | Finished

  /** The renewal goroutine: waiting for its next tick, or inside its UPDATE since some time. */
  datatype Renewal = Ticking(due: int) | Updating(since: int) | NoLease

  /** Program points of one instance; `since` is when its Lock call began. */
  datatype Instance =
    | Down
    | Trying(since: int)
    | Inserting(since: int, stamp: int)
    | Reading(since: int)
    | Judging(since: int, seen: int)
    | Deleting(since: int, seen: int)
    | Holding(renewal: Renewal, work: Work)
    | Unlocking(late: Option<int>)

  datatype State = State(now: int, lock: Option<LockRow>, table: Table, instances: seq<Instance>)

  datatype Event =
    | Start | Attempt | Insert(replied: bool) | InsertRefused | Read | ReadFails | Judge | Delete | DeleteFails
    | RenewBegins | Renew | RenewFails | Work(ok: bool) | Release | LateRenew | Unlock | Stop

  datatype Action = Pass(d: int) | Act(i: nat, event: Event)

  function Files(c: Config, kind: MigrationType): seq<MigFile> {
    if kind.Ddl? then c.ddl else c.seed
  }

  predicate Valid(c: Config) {
    c.third > 0 && c.timeout > 0 && Loaded(c.ddl, Ddl) && Loaded(c.seed, Seed)
  }

  /** All instances are down; a row of an earlier crash may be in the lock table. */
  predicate Initial(c: Config, s: State) {
    && s.table == c.initial
    && |s.instances| == |c.offsets|
    && forall i | 0 <= i < |s.instances| :: s.instances[i] == Down
  }

  // ---- the migration work ----

  /** Where the work goes when a kind is complete. */
  function NextKind(kind: MigrationType): Work {
    if kind.Ddl? then Starting(Seed) else Finished
  }

  function Record(table: Table, f: MigFile, ok: bool, then_: Work): (Work, Table) {
    if ok && RowOf(f) !in table then (then_, table + [RowOf(f)]) else (Finished, table)
  }

  /** One statement of runMigrationFiles; `ok` is false when the statement fails. */
  function WorkStep(c: Config, table: Table, w: Work, ok: bool): (Work, Table) {
    match w
    case Starting(kind) =>
      var files := Files(c, kind);
      var latest := Latest(table, kind);
      if files == [] then (NextKind(kind), table)
      else if |Baselines(files)| > 1 || !ok then (Finished, table)
      else if latest != "" then (Scanning(kind, latest, 0), table)
      else if Baselines(files) == [] then (Finished, table)
      else (Basing(kind), table)
    case Basing(kind) =>
      if Baselines(Files(c, kind)) == [] then (Finished, table)
      else
        var b := Baselines(Files(c, kind))[0];
        Record(table, b, ok, Scanning(kind, b.version, 0))
    case Scanning(kind, latest, n) =>
      var files := Files(c, kind);
      if n >= |files| then (NextKind(kind), table)
      else if files[n].baseline || !Less(latest, files[n].version) then (Scanning(kind, latest, n + 1), table)
      else if !ok then (Finished, table)
      else if RowOf(files[n]) in table then (Scanning(kind, latest, n + 1), table)
      else (Executing(kind, latest, n), table)
    case Executing(kind, latest, n) =>
      var files := Files(c, kind);
      if n >= |files| then (Finished, table)
      else Record(table, files[n], ok, Scanning(kind, files[n].version, n + 1))
    case Finished => (Finished, table)
  }

  // ---- the lock ----

  function Clock(c: Config, s: State, i: nat): int
    requires i < |c.offsets|
  {
    s.now + c.offsets[i]
  }

  /** UPDATE ... SET locked_at = stamp WHERE lock_key = ? AND locked_by = i */
  function Refresh(lock: Option<LockRow>, i: nat, stamp: int): Option<LockRow> {
    if lock.Some? && lock.value.lockedBy == i then Some(LockRow(i, stamp)) else lock
  }

  function Put(s: State, i: nat, p: Instance): State
    requires i < |s.instances|
  {
    s.(instances := s.instances[i := p])
  }

  function Local(c: Config, s: State, i: nat, e: Event): Option<State>
    requires i < |s.instances| == |c.offsets|
  {
    match s.instances[i] {
      case Down =>
        if !e.Start? then None
        else if c.registered then Some(Put(s, i, Trying(s.now)))
        else Some(Put(s, i, Holding(NoLease, Starting(Ddl))))
      case Trying(t) =>
        if e.Stop? then Some(Put(s, i, Down))
        else if e.Attempt? && s.now <= t + c.timeout then Some(Put(s, i, Inserting(t, Clock(c, s, i))))
        else None
      case Inserting(t, stamp) =>
        if e.Stop? then Some(Put(s, i, Down))
        else if e.InsertRefused? then Some(Put(s, i, Reading(t)))
        else if e.Insert? && s.lock.None? && (e.replied ==> s.now <= t + c.timeout) then
          // an INSERT whose reply is lost leaves the row behind without a holder
          Some(Put(s, i, if e.replied then Holding(Ticking(s.now + c.third), Starting(Ddl)) else Reading(t))
               .(lock := Some(LockRow(i, stamp))))
        else None
      case Reading(t) =>
        if e.Stop? then Some(Put(s, i, Down))
        else if e.ReadFails? || (e.Read? && s.lock.None?) then Some(Put(s, i, Trying(t)))
        else if e.Read? then Some(Put(s, i, Judging(t, s.lock.value.lockedAt)))
        else None
      case Judging(t, seen) =>
        if e.Stop? then Some(Put(s, i, Down))
        else if !e.Judge? then None
        else if Clock(c, s, i) - seen > 3 * c.third then Some(Put(s, i, Deleting(t, seen)))
        else Some(Put(s, i, Trying(t)))
      case Deleting(t, seen) =>
        if e.Stop? then Some(Put(s, i, Down))
        else if e.DeleteFails? then Some(Put(s, i, Trying(t)))
        else if e.Delete? then
          // DELETE ... WHERE lock_key = ? AND locked_at = seen
          Some(Put(s, i, Trying(t)).(
               lock := if s.lock.Some? && s.lock.value.lockedAt == seen then None else s.lock))
        else None
      case Holding(r, w) => LocalHolding(c, s, i, r, w, e)
      case Unlocking(late) =>
        if e.Stop? then Some(Put(s, i, Down))
        else if e.LateRenew? && late.Some? then
          Some(Put(s, i, Unlocking(None)).(lock := Refresh(s.lock, i, late.value)))
        else if e.Unlock? then
          Some(Put(s, i, Down).(lock := if s.lock.Some? && s.lock.value.lockedBy == i then None else s.lock))
        else None
    }
  }

  function LocalHolding(c: Config, s: State, i: nat, r: Renewal, w: Work, e: Event): Option<State>
    requires i < |s.instances| == |c.offsets|
  {
    match e
    case Stop => Some(Put(s, i, Down))
    case RenewBegins =>
      if r.Ticking? && s.now >= r.due then Some(Put(s, i, Holding(Updating(s.now), w))) else None
    case Renew =>
      if r.Updating?
      then Some(Put(s, i, Holding(Ticking(r.since + c.third), w))
                .(lock := Refresh(s.lock, i, r.since + c.offsets[i])))
      else None
    case RenewFails =>
      if r.Updating? && !c.timely then Some(Put(s, i, Holding(Ticking(r.since + c.third), w))) else None
    case Work(ok) =>
      if w.Finished? then None
      else
        var (w', table) := WorkStep(c, s.table, w, ok);
        Some(Put(s, i, Holding(r, w')).(table := table))
    case Release =>
      if !w.Finished? then None
      else Some(Put(s, i, match r
                          case NoLease => Down
                          case Ticking(_) => Unlocking(None)
                          case Updating(since) => Unlocking(Some(since + c.offsets[i]))))
    case _ => None
  }

  /** Time does not run past a timely renewal. */
  predicate InTime(c: Config, r: Renewal, now: int) {
    (r.Ticking? ==> now <= r.due) && (r.Updating? ==> now <= r.since + c.third)
  }

  predicate MayPass(c: Config, s: State, d: int) {
    && d > 0
    && (c.timely ==> forall i | 0 <= i < |s.instances| && s.instances[i].Holding? ::
                       InTime(c, s.instances[i].renewal, s.now + d))
  }

  function Apply(c: Config, s: State, a: Action): Option<State> {
    match a
    case Pass(d) => if MayPass(c, s, d) then Some(s.(now := s.now + d)) else None
    case Act(i, e) => if i < |s.instances| == |c.offsets| then Local(c, s, i, e) else None
  }

  /** The state after a sequence of actions; None when one of them is not enabled. */
  function Exec(c: Config, s: State, actions: seq<Action>): Option<State>
    decreases |actions|
  {
    if actions == [] then Some(s)
    else
      var next := Apply(c, s, actions[0]);
      if next.None? then None else Exec(c, next.value, actions[1..])
  }

  lemma {:induction false} ExecSnoc(c: Config, s: State, actions: seq<Action>, a: Action)
    requires Exec(c, s, actions).Some?
    ensures Exec(c, s, actions + [a]) == Apply(c, Exec(c, s, actions).value, a)
    decreases |actions|
  {
    if actions == [] {
      assert [a][1..] == [];
    } else {
      assert (actions + [a])[1..] == actions[1..] + [a];
      ExecSnoc(c, Apply(c, s, actions[0]).value, actions[1..], a);
    }
  }
}
