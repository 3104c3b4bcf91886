/**
 * Around the delayed queue: the operator object that pushes and pops, its local and the
 * shared registry of queue names, and one pass of the migration daemon over all queues
 * with its ten worker slots.
 */
module DelayDaemon {
  import opened Counting
  import opened DelayQueue

  // ---- the operator object ----

  function QueueOf(queues: map<string, Queue>, name: string): Queue {
    if name in queues then queues[name] else Queue([], [])
  }

  /** A command or script on one queue. */
  datatype Command = Command(queue: string, op: Op)

  function Commanded(queues: map<string, Queue>, c: Command): map<string, Queue> {
    queues[c.queue := Apply(QueueOf(queues, c.queue), c.op)]
  }

  function AllCommanded(queues: map<string, Queue>, commands: seq<Command>): map<string, Queue>
    decreases |commands|
  {
    if commands == [] then queues else AllCommanded(Commanded(queues, commands[0]), commands[1..])
  }

  /** The operations of a run that concern one queue. */
  function OpsOn(commands: seq<Command>, name: string): seq<Op> {
    if commands == [] then []
    else (if commands[0].queue == name then [commands[0].op] else []) + OpsOn(commands[1..], name)
  }

  /** However the commands on many queues interleave, each queue sees a run of its own operations and nothing else. */
  lemma {:induction false} QueuesAreIndependent(queues: map<string, Queue>, commands: seq<Command>, name: string)
    ensures QueueOf(AllCommanded(queues, commands), name) == Run(QueueOf(queues, name), OpsOn(commands, name))
    decreases |commands|
  {
    if commands != [] {
      QueuesAreIndependent(Commanded(queues, commands[0]), commands[1..], name);
      var op, rest := commands[0].op, OpsOn(commands[1..], name);
      assert [] + rest == rest && ([op] + rest)[1..] == rest;
    }
  }

  class Redis {
    var registry: set<string>
    var queues: map<string, Queue>

    constructor ()
      ensures registry == {} && queues == map[]
    {
      registry, queues := {}, map[];
    }

    /** One atomic command or script on one queue. */
    method Execute(name: string, op: Op)
      modifies this`queues
      ensures queues == Commanded(old(queues), Command(name, op))
    {
      queues := queues[name := Apply(QueueOf(queues, name), op)];
    }
  }

  class Operator {
    var delayQueues: set<string>

    constructor ()
      ensures delayQueues == {}
    {
      delayQueues := {};
    }

    /** The first phase of the daemon: learn the registered queues. */
    method Init(redis: Redis)
      modifies this
      ensures delayQueues == old(delayQueues) + redis.registry
    {
      delayQueues := delayQueues + redis.registry;
    }

    /** The queue becomes known locally before it is registered, and stays known if that fails. */
    method PushDelayMessage(redis: Redis, name: string, msg: string, due: int, saddOk: bool, zaddOk: bool)
      returns (ok: bool)
      modifies this, redis
      ensures ok <==> (name in old(delayQueues) || saddOk) && zaddOk
      ensures Registry(delayQueues, redis.registry) ==
              AfterPush(Registry(old(delayQueues), old(redis.registry)), Attempt(name, saddOk))
      ensures redis.queues ==
              if ok then Commanded(old(redis.queues), Command(name, PushDelayed(msg, due)))
              else old(redis.queues)
    {
      if name !in delayQueues {
        delayQueues := delayQueues + {name};
        if !saddOk {
          return false;
        }
        redis.registry := redis.registry + {name};
      }
      if zaddOk {
        redis.Execute(name, PushDelayed(msg, due));
      }
      return zaddOk;
    }

    /** RPUSH: the message goes behind everything that is ready. */
    method PushMessage(redis: Redis, name: string, msg: string, rpushOk: bool) returns (ok: bool)
      modifies redis
      ensures ok == rpushOk && redis.registry == old(redis.registry)
      ensures ok ==> QueueOf(redis.queues, name).ready == QueueOf(old(redis.queues), name).ready + [msg]
      ensures redis.queues ==
              if ok then Commanded(old(redis.queues), Command(name, Push(msg))) else old(redis.queues)
    {
      if rpushOk {
        redis.Execute(name, Push(msg));
      }
      ok := rpushOk;
    }

    method GetMessage(redis: Redis, name: string) returns (found: bool, msg: string)
      modifies redis
      ensures found <==> QueueOf(old(redis.queues), name).ready != []
      ensures found ==> QueueOf(old(redis.queues), name).ready == [msg] + QueueOf(redis.queues, name).ready
      ensures redis.queues == Commanded(old(redis.queues), Command(name, Pop))
      ensures redis.registry == old(redis.registry)
    {
      var ready := QueueOf(redis.queues, name).ready;
      found := ready != [];
      msg := if found then ready[0] else "";
      redis.Execute(name, Pop);
    }
  }

  // ---- the registry ----

  datatype Registry = Registry(known: set<string>, shared: set<string>)

  datatype Attempt = Attempt(queue: string, saddOk: bool)

  function AfterPush(r: Registry, a: Attempt): Registry {
    if a.queue in r.known then r
    else Registry(r.known + {a.queue}, if a.saddOk then r.shared + {a.queue} else r.shared)
  }

  function AfterPushes(r: Registry, attempts: seq<Attempt>): Registry {
    if attempts == [] then r
    else AfterPush(AfterPushes(r, attempts[..|attempts| - 1]), attempts[|attempts| - 1])
  }

  /** An operator's very first push to the queue gets through to the shared registry. */
  ghost predicate FirstPushRegisters(attempts: seq<Attempt>, queue: string) {
    exists i | 0 <= i < |attempts| ::
      && attempts[i] == Attempt(queue, true)
      && forall j | 0 <= j < i :: attempts[j].queue != queue
  }

  /**
   * The shared registry is not always complete: a queue is registered exactly when the first
   * push to it was, however many later pushes succeed.
   */
  lemma {:induction false} RegisteredIff(r: Registry, attempts: seq<Attempt>, queue: string)
    requires queue !in r.known && queue !in r.shared
    ensures queue in AfterPushes(r, attempts).shared <==> FirstPushRegisters(attempts, queue)
    ensures queue in AfterPushes(r, attempts).known <==> exists a :: a in attempts && a.queue == queue
  {
    if attempts != [] {
      var n := |attempts| - 1;
      var before, a := attempts[..n], attempts[n];
      RegisteredIff(r, before, queue);
      assert attempts == before + [a];
      FirstPushSnoc(before, a, queue);
    }
  }

  lemma FirstPushSnoc(before: seq<Attempt>, a: Attempt, queue: string)
    ensures FirstPushRegisters(before + [a], queue) <==>
            || FirstPushRegisters(before, queue)
            || (a == Attempt(queue, true) && forall b | b in before :: b.queue != queue)
  {
    var attempts, n := before + [a], |before|;
    assert forall j | 0 <= j < n :: before[j] == attempts[j];
    if FirstPushRegisters(before, queue) {
      var i :| 0 <= i < n && before[i] == Attempt(queue, true) && forall j | 0 <= j < i :: before[j].queue != queue;
      assert attempts[i] == Attempt(queue, true);
    }
    if a == Attempt(queue, true) && forall b | b in before :: b.queue != queue {
      assert attempts[n] == a && forall j | 0 <= j < n :: attempts[j] in before;
    }
    if FirstPushRegisters(attempts, queue) {
      var i :| 0 <= i <= n && attempts[i] == Attempt(queue, true)
               && forall j | 0 <= j < i :: attempts[j].queue != queue;
      if i < n {
        assert before[i] == Attempt(queue, true);
      } else {
        forall b | b in before ensures b.queue != queue {
          var j :| 0 <= j < n && before[j] == b;
          assert attempts[j] == b;
        }
      }
    }
  }

  /** One failed registration and a later successful push: a pending message that a restarted daemon never sees. */
  lemma OrphanedQueue(queue: string)
    ensures var r := AfterPushes(Registry({}, {}), [Attempt(queue, false), Attempt(queue, true)]);
            queue in r.known && queue !in r.shared
  {
    var attempts := [Attempt(queue, false), Attempt(queue, true)];
    assert attempts[..1][..0] == [] && attempts[..1][0] == Attempt(queue, false);
    assert AfterPushes(Registry({}, {}), attempts[..1]) == Registry({queue}, {});
  }

  // ---- one pass of the daemon ----

  const SLOTS := 10

  /** A worker holds its slot until its first deferred call; the second one is wg.Done. */
  datatype Stage = Waiting | Migrating | Migrated | SlotFreed | Finished

  /**
   * `next` is how far Range has come, `slots` the fill of the semaphore channel. Once the context
   * is cancelled the select may end the Range, or still take a free slot.
   */
  datatype Pass = Pass(stages: seq<Stage>, next: nat, slots: nat, cancelled: bool, stopped: bool, returned: bool)

  datatype Step = Launch | Cancel | StopRange | RunScript(k: nat) | FreeSlot(k: nat) | Done(k: nat) | Return

  const HOLDS: Stage -> bool := (s: Stage) => s.Migrating? || s.Migrated?
  const MIGRATES: Stage -> bool := (s: Stage) => s.Migrating?

  predicate Active(s: Stage) {
    s.Migrating? || s.Migrated? || s.SlotFreed?
  }

  predicate Enabled(p: Pass, step: Step) {
    !p.returned &&
    match step
    case Launch => !p.stopped && p.next < |p.stages| && p.slots < SLOTS
    case Cancel => !p.cancelled
    case StopRange => p.cancelled && !p.stopped && p.next < |p.stages|
    case RunScript(k) => k < |p.stages| && p.stages[k].Migrating?
    case FreeSlot(k) => k < |p.stages| && p.stages[k].Migrated?
    case Done(k) => k < |p.stages| && p.stages[k].SlotFreed?
    case Return => (p.stopped || p.next == |p.stages|) && forall k | 0 <= k < |p.stages| :: !Active(p.stages[k])
  }

  function Take(p: Pass, step: Step): Pass
    requires PassInv(p) && Enabled(p, step)
  {
    match step
    case Launch => p.(stages := p.stages[p.next := Migrating], next := p.next + 1, slots := p.slots + 1)
    case Cancel => p.(cancelled := true)
    case StopRange => p.(stopped := true)
    case RunScript(k) => p.(stages := p.stages[k := Migrated])
    case FreeSlot(k) =>
      CountZero(p.stages, HOLDS);
      p.(stages := p.stages[k := SlotFreed], slots := p.slots - 1)
    case Done(k) => p.(stages := p.stages[k := Finished])
    case Return => p.(returned := true)
  }

  predicate PassInv(p: Pass) {
    && p.next <= |p.stages|
    && (forall k | 0 <= k < |p.stages| :: p.stages[k].Waiting? <==> k >= p.next)
    && p.slots == Count(p.stages, HOLDS)
    && p.slots <= SLOTS
    && (p.returned ==> p.slots == 0 && forall k | 0 <= k < p.next :: p.stages[k].Finished?)
    && (p.stopped ==> p.cancelled)
    && (p.returned && !p.stopped ==> p.next == |p.stages|)
  }

  function Begin(queues: nat): (p: Pass)
    ensures PassInv(p) && |p.stages| == queues
  {
    var stages := seq(queues, _ => Waiting);
    CountZero(stages, HOLDS);
    Pass(stages, 0, 0, false, false, false)
  }

  lemma PassStep(p: Pass, step: Step)
    requires PassInv(p) && Enabled(p, step)
    ensures PassInv(Take(p, step))
  {
    match step
    case Launch => CountUpdate(p.stages, HOLDS, p.next, Migrating);
    case Cancel =>
    case StopRange =>
    case RunScript(k) => CountUpdate(p.stages, HOLDS, k, Migrated);
    case FreeSlot(k) => CountUpdate(p.stages, HOLDS, k, SlotFreed);
    case Done(k) => CountUpdate(p.stages, HOLDS, k, Finished);
    case Return => CountZero(p.stages, HOLDS);
  }

  function Rank(s: Stage): nat {
    match s
    case Waiting => 4
    case Migrating => 3
    case Migrated => 2
    case SlotFreed => 1
    case Finished => 0
  }

  function Work(stages: seq<Stage>): nat {
    if stages == [] then 0 else Rank(stages[0]) + Work(stages[1..])
  }

  lemma {:induction false} WorkUpdate(stages: seq<Stage>, k: nat, s: Stage)
    requires k < |stages|
    ensures Work(stages[k := s]) == Work(stages) - Rank(stages[k]) + Rank(s)
  {
    if k == 0 {
      assert stages[0 := s][1..] == stages[1..];
    } else {
      assert stages[k := s][1..] == stages[1..][k - 1 := s];
      WorkUpdate(stages[1..], k - 1, s);
    }
  }

  /** What is left to do; every step uses some of it up. */
  function Left(p: Pass): nat {
    Work(p.stages) + (if p.cancelled then 0 else 1) + (if p.stopped then 0 else 1) + (if p.returned then 0 else 1)
  }

  /** A pass that has not returned can always go on, and cannot go on for ever. */
  lemma PassProgresses(p: Pass)
    requires PassInv(p)
    ensures !p.returned ==> exists step :: step != Cancel && Enabled(p, step)
    ensures forall step | Enabled(p, step) :: Left(Take(p, step)) < Left(p)
  {
    if !p.returned {
      if k :| 0 <= k < |p.stages| && Active(p.stages[k]) {
        assert Enabled(p, RunScript(k)) || Enabled(p, FreeSlot(k)) || Enabled(p, Done(k));
      } else {
        CountZero(p.stages, HOLDS);
        assert Enabled(p, Launch) || Enabled(p, Return);
      }
    }
    forall step | Enabled(p, step) ensures Left(Take(p, step)) < Left(p) {
      StepUsesWork(p, step);
    }
  }

  lemma StepUsesWork(p: Pass, step: Step)
    requires PassInv(p) && Enabled(p, step)
    ensures Left(Take(p, step)) < Left(p)
  {
    match step
    case Launch => WorkUpdate(p.stages, p.next, Migrating);
    case Cancel =>
    case StopRange =>
    case RunScript(k) => WorkUpdate(p.stages, k, Migrated);
    case FreeSlot(k) => WorkUpdate(p.stages, k, SlotFreed);
    case Done(k) => WorkUpdate(p.stages, k, Finished);
    case Return =>
  }

  /** As long as fewer than ten workers hold a slot, the next queue gets one. */
  lemma SlotsAreUsed(p: Pass)
    requires PassInv(p) && !p.returned && !p.stopped && p.next < |p.stages| && Count(p.stages, HOLDS) < 10
    ensures Enabled(p, Launch) && Take(p, Launch).stages == p.stages[p.next := Migrating]
  {
  }

  /** A pass whose workers are through can be cancelled and return, and leaves the remaining queues alone. */
  lemma CancelledPassReturns(p: Pass)
    requires PassInv(p) && !p.returned && forall k | 0 <= k < |p.stages| :: !Active(p.stages[k])
    ensures var r := Play(p, [Cancel, StopRange, Return]); r.returned && r.cancelled && r.stages == p.stages
  {
    assert [Cancel, StopRange, Return][1..] == [StopRange, Return];
    assert [StopRange, Return][1..] == [Return] && [Return][1..] == [];
  }

  /** How often queue k is migrated in a schedule. */
  function Visits(p: Pass, steps: seq<Step>, k: nat): nat
    requires PassInv(p)
    decreases |steps|
  {
    if steps == [] then 0
    else if !Enabled(p, steps[0]) then Visits(p, steps[1..], k)
    else
      PassStep(p, steps[0]);
      (if steps[0] == RunScript(k) then 1 else 0) + Visits(Take(p, steps[0]), steps[1..], k)
  }

  /** A schedule; steps that are not enabled when their turn comes are passed over. */
  function Play(p: Pass, steps: seq<Step>): (r: Pass)
    requires PassInv(p)
    ensures PassInv(r)
    decreases |steps|
  {
    if steps == [] then p
    else if !Enabled(p, steps[0]) then Play(p, steps[1..])
    else
      PassStep(p, steps[0]);
      Play(Take(p, steps[0]), steps[1..])
  }

  /** The script of a queue has run in between. */
  predicate Passed(from: Stage, to: Stage) {
    Rank(from) >= 3 && Rank(to) <= 2
  }

  lemma {:induction false} VisitedOnce(p: Pass, steps: seq<Step>, k: nat)
    requires PassInv(p) && k < |p.stages|
    ensures |Play(p, steps).stages| == |p.stages|
    ensures Visits(p, steps, k) == if Passed(p.stages[k], Play(p, steps).stages[k]) then 1 else 0
    ensures Rank(Play(p, steps).stages[k]) <= Rank(p.stages[k])
    decreases |steps|
  {
    if steps != [] {
      if Enabled(p, steps[0]) {
        PassStep(p, steps[0]);
        VisitedOnce(Take(p, steps[0]), steps[1..], k);
      } else {
        VisitedOnce(p, steps[1..], k);
      }
    }
  }

  /**
   * Every schedule of a pass over any number of queues: at most ten migrations in flight at
   * any point, and once it returns uncancelled every queue was migrated exactly once and
   * every slot is free again.
   */
  lemma PassVisitsAll(queues: nat, steps: seq<Step>)
    ensures var r := Play(Begin(queues), steps);
            && Count(r.stages, MIGRATES) <= 10
            && (r.returned ==> r.slots == 0)
            && (r.returned && !r.cancelled ==>
                  forall k | 0 <= k < queues :: Visits(Begin(queues), steps, k) == 1)
  {
    var r := Play(Begin(queues), steps);
    InFlight(r.stages);
    forall k | 0 <= k < queues && r.returned && !r.cancelled
      ensures Visits(Begin(queues), steps, k) == 1
    {
      VisitedOnce(Begin(queues), steps, k);
    }
    if queues > 0 {
      VisitedOnce(Begin(queues), steps, 0);
    }
  }

  lemma {:induction false} InFlight(stages: seq<Stage>)
    ensures Count(stages, MIGRATES) <= Count(stages, HOLDS)
  {
    if stages != [] {
      InFlight(stages[1..]);
    }
  }

  // ---- draining by passes ----

  /** What happens around a pass: a step of the daemon, with its clock, or a command of somebody else. */
  datatype Event = Daemon(step: Step, now: int) | Client(command: Command)

  function DaemonSteps(events: seq<Event>): seq<Step> {
    if events == [] then []
    else (if events[0].Daemon? then [events[0].step] else []) + DaemonSteps(events[1..])
  }

  /** The commands that reach Redis: those of others, and one script for each RunScript of the pass. */
  function Issued(names: seq<string>, p: Pass, events: seq<Event>): seq<Command>
    requires PassInv(p) && |p.stages| == |names|
    decreases |events|
  {
    if events == [] then []
    else
      match events[0]
      case Client(command) => [command] + Issued(names, p, events[1..])
      case Daemon(step, now) =>
        if !Enabled(p, step) then Issued(names, p, events[1..])
        else
          PassStep(p, step);
          (if step.RunScript? then [Command(names[step.k], Migrate(now))] else [])
          + Issued(names, Take(p, step), events[1..])
  }

  /** The commands of several passes one after the other. */
  function AllIssued(names: seq<string>, passes: seq<seq<Event>>): seq<Command> {
    if passes == [] then [] else Issued(names, Begin(|names|), passes[0]) + AllIssued(names, passes[1..])
  }

  /** Not a delayed push, or one that is due later. */
  predicate IsLate(c: Command, due: int) {
    c.op.PushDelayed? ==> c.op.due > due
  }

  /**
   * A pass that returns, was not cancelled, and ran its scripts with clocks from `due` on, while
   * others pushed delayed messages for later times only.
   */
  predicate Completes(names: seq<string>, events: seq<Event>, due: int) {
    var r := Play(Begin(|names|), DaemonSteps(events));
    && r.returned && !r.cancelled
    && forall e | e in events :: (e.Daemon? ==> e.now >= due) && (e.Client? ==> IsLate(e.command, due))
  }

  lemma {:induction false} OpsOfConcat(a: seq<Command>, b: seq<Command>, name: string, due: int)
    ensures OpsOn(a + b, name) == OpsOn(a, name) + OpsOn(b, name)
    ensures MigrationsFrom(OpsOn(a + b, name), due) ==
            MigrationsFrom(OpsOn(a, name), due) + MigrationsFrom(OpsOn(b, name), due)
  {
    if a == [] {
      assert a + b == b && OpsOn(a, name) + OpsOn(b, name) == OpsOn(b, name);
    } else {
      assert (a + b)[1..] == a[1..] + b;
      OpsOfConcat(a[1..], b, name, due);
      var head := if a[0].queue == name then [a[0].op] else [];
      assert head + (OpsOn(a[1..], name) + OpsOn(b, name)) == head + OpsOn(a[1..], name) + OpsOn(b, name);
      FirstMigration(head, OpsOn((a + b)[1..], name), due);
      FirstMigration(head, OpsOn(a[1..], name), due);
    }
  }

  lemma FirstMigration(head: seq<Op>, rest: seq<Op>, due: int)
    requires |head| <= 1
    ensures MigrationsFrom(head + rest, due) == MigrationsFrom(head, due) + MigrationsFrom(rest, due)
  {
    if head == [] {
      assert head + rest == rest;
    } else {
      assert (head + rest)[1..] == rest && head[1..] == [];
    }
  }

  /** Each visit of a queue is a migration that reaches it; others can only add to them. */
  lemma {:induction false} VisitsMigrate(names: seq<string>, p: Pass, events: seq<Event>, k: nat, due: int)
    requires PassInv(p) && |p.stages| == |names| && k < |names|
    requires forall e | e in events && e.Daemon? :: e.now >= due
    ensures Visits(p, DaemonSteps(events), k) <= MigrationsFrom(OpsOn(Issued(names, p, events), names[k]), due)
    decreases |events|
  {
    if events != [] {
      assert events[0] in events && forall e | e in events[1..] :: e in events;
      var steps := DaemonSteps(events[1..]);
      match events[0]
      case Client(command) =>
        VisitsMigrate(names, p, events[1..], k, due);
        assert [] + steps == steps;
        OpsOfConcat([command], Issued(names, p, events[1..]), names[k], due);
      case Daemon(step, now) =>
        assert ([step] + steps)[1..] == steps;
        if Enabled(p, step) {
          PassStep(p, step);
          VisitsMigrate(names, Take(p, step), events[1..], k, due);
          var script := if step.RunScript? then [Command(names[step.k], Migrate(now))] else [];
          OpsOfConcat(script, Issued(names, Take(p, step), events[1..]), names[k], due);
        } else {
          VisitsMigrate(names, p, events[1..], k, due);
        }
    }
  }

  predicate LateCommands(commands: seq<Command>, due: int) {
    forall c | c in commands :: IsLate(c, due)
  }

  lemma {:induction false} IssuedLate(names: seq<string>, p: Pass, events: seq<Event>, due: int)
    requires PassInv(p) && |p.stages| == |names|
    requires forall e | e in events && e.Client? :: IsLate(e.command, due)
    ensures LateCommands(Issued(names, p, events), due)
    decreases |events|
  {
    if events != [] {
      assert events[0] in events && forall e | e in events[1..] :: e in events;
      if events[0].Daemon? && Enabled(p, events[0].step) {
        PassStep(p, events[0].step);
        IssuedLate(names, Take(p, events[0].step), events[1..], due);
      } else {
        IssuedLate(names, p, events[1..], due);
      }
    }
  }

  lemma {:induction false} OpsAreCommands(commands: seq<Command>, name: string, due: int)
    requires LateCommands(commands, due)
    ensures LatePushes(OpsOn(commands, name), due)
  {
    if commands != [] {
      assert commands[0] in commands && forall c | c in commands[1..] :: c in commands;
      OpsAreCommands(commands[1..], name, due);
    }
  }

  /** A completed pass brings every known queue at least one migration. */
  lemma PassMigrates(names: seq<string>, events: seq<Event>, k: nat, due: int)
    requires Completes(names, events, due) && k < |names|
    ensures MigrationsFrom(OpsOn(Issued(names, Begin(|names|), events), names[k]), due) >= 1
    ensures LateCommands(Issued(names, Begin(|names|), events), due)
  {
    PassVisitsAll(|names|, DaemonSteps(events));
    VisitsMigrate(names, Begin(|names|), events, k, due);
    IssuedLate(names, Begin(|names|), events, due);
  }

  lemma {:induction false} PassesMigrate(names: seq<string>, passes: seq<seq<Event>>, k: nat, due: int)
    requires k < |names| && forall i | 0 <= i < |passes| :: Completes(names, passes[i], due)
    ensures MigrationsFrom(OpsOn(AllIssued(names, passes), names[k]), due) >= |passes|
    ensures LateCommands(AllIssued(names, passes), due)
  {
    if passes != [] {
      PassMigrates(names, passes[0], k, due);
      PassesMigrate(names, passes[1..], k, due);
      OpsOfConcat(Issued(names, Begin(|names|), passes[0]), AllIssued(names, passes[1..]), names[k], due);
    }
  }

  /**
   * After ceil(n / 100) uncancelled passes no known queue holds a message due by then, if none had
   * more than n of them: whatever is popped, pushed directly or for later, or migrated by others in between.
   */
  lemma DrainedByPasses(queues: map<string, Queue>, names: seq<string>, passes: seq<seq<Event>>, due: int, n: nat)
    requires forall i | 0 <= i < |passes| :: Completes(names, passes[i], due)
    requires forall k | 0 <= k < |names| :: DueCount(QueueOf(queues, names[k]).pending, due) <= n
    requires |passes| >= (n + BATCH - 1) / BATCH
    ensures var after := AllCommanded(queues, AllIssued(names, passes));
            forall k, e | 0 <= k < |names| && e in QueueOf(after, names[k]).pending :: e.score > due
  {
    var commands := AllIssued(names, passes);
    forall k | 0 <= k < |names|
      ensures forall e | e in QueueOf(AllCommanded(queues, commands), names[k]).pending :: e.score > due
    {
      PassesMigrate(names, passes, k, due);
      OpsAreCommands(commands, names[k], due);
      QueuesAreIndependent(queues, commands, names[k]);
      DrainedAfter(QueueOf(queues, names[k]), OpsOn(commands, names[k]), due);
    }
  }
}
