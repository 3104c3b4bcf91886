/**
 * Safety of the lease: with timely renewals the lock is exclusive in every run exactly when
 * LockTimeout plus the clock skew is at most a third of the stale threshold.
 */
module MigrationLease {
  import opened Strings
  import opened MigrationVersions
  import opened MigrationRunner
  import opened MigrationCluster

  predicate SkewAtMost(c: Config, skew: int) {
    forall i, j | 0 <= i < |c.offsets| && 0 <= j < |c.offsets| :: c.offsets[i] - c.offsets[j] <= skew
  }

  /** No two instances are past Lock and before Unlock at once. */
  predicate Exclusive(s: State) {
    forall i, j | 0 <= i < j < |s.instances| :: !(s.instances[i].Holding? && s.instances[j].Holding?)
  }

  /** A bound on how old a live holder's row can be by the holder's own clock. */
  predicate Fresh(c: Config, s: State, i: nat, r: Renewal)
    requires i < |c.offsets|
  {
    && s.lock.Some? && s.lock.value.lockedBy == i
    && !r.NoLease?
    && (r.Ticking? ==>
          s.now <= r.due && s.lock.value.lockedAt - c.offsets[i] >= r.due - c.third - c.timeout)
    && (r.Updating? ==>
          && r.since <= s.now <= r.since + c.third
          && s.lock.value.lockedAt - c.offsets[i] >= r.since - c.third - c.timeout)
  }

  predicate InstanceInv(c: Config, s: State, i: nat)
    requires i < |s.instances| == |c.offsets|
  {
    match s.instances[i]
    case Trying(t) => t <= s.now
    case Inserting(t, stamp) => t <= s.now && stamp >= t + c.offsets[i]
    case Reading(t) => t <= s.now
    case Judging(t, seen) => t <= s.now
    case Deleting(t, seen) => t <= s.now && Clock(c, s, i) - seen > 3 * c.third
    case Holding(r, w) => Fresh(c, s, i, r)
    case _ => true
  }

  predicate LeaseInv(c: Config, s: State) {
    && |s.instances| == |c.offsets|
    && forall i | 0 <= i < |s.instances| :: InstanceInv(c, s, i)
  }

  /** What a stale-lock delete is about to remove is no live holder's row. */
  lemma StaleIsDead(c: Config, s: State, i: nat, k: nat, skew: int)
    requires Valid(c) && c.registered && SkewAtMost(c, skew) && c.timeout + skew <= c.third
    requires LeaseInv(c, s) && i < |s.instances| && k < |s.instances|
    requires s.instances[i].Deleting? && s.instances[k].Holding?
    ensures s.lock.Some? && s.lock.value.lockedBy == k && s.lock.value.lockedAt > s.instances[i].seen
  {
    assert InstanceInv(c, s, i) && InstanceInv(c, s, k);
    assert c.offsets[i] - c.offsets[k] <= skew;
  }

  /** Two holders would both own the one lock row. */
  lemma OneHolder(c: Config, s: State)
    requires LeaseInv(c, s)
    ensures forall i, j | 0 <= i < |s.instances| && 0 <= j < |s.instances| && i != j ::
              !(s.instances[i].Holding? && s.instances[j].Holding?)
  {
    forall i, j | 0 <= i < |s.instances| && 0 <= j < |s.instances| && i != j
      ensures !(s.instances[i].Holding? && s.instances[j].Holding?)
    {
      assert InstanceInv(c, s, i) && InstanceInv(c, s, j);
    }
  }

  /** The acting instance keeps its own part of the invariant. */
  lemma OwnStep(c: Config, s: State, i: nat, e: Event)
    requires Valid(c) && c.registered && c.timely
    requires |s.instances| == |c.offsets| && i < |s.instances| && InstanceInv(c, s, i)
    requires Local(c, s, i, e).Some?
    ensures InstanceInv(c, Local(c, s, i, e).value, i)
  {
  }

  /** Every other instance keeps its part: the step leaves a live holder's row alone. */
  lemma OthersStep(c: Config, s: State, i: nat, e: Event, k: nat, skew: int)
    requires Valid(c) && c.registered && SkewAtMost(c, skew) && c.timeout + skew <= c.third
    requires LeaseInv(c, s) && i < |s.instances| && k < |s.instances| && k != i
    requires Local(c, s, i, e).Some?
    ensures InstanceInv(c, Local(c, s, i, e).value, k)
  {
    assert InstanceInv(c, s, k);
    var t := Local(c, s, i, e).value;
    assert t.instances[k] == s.instances[k] && t.now == s.now;
    if s.instances[k].Holding? {
      if t.lock != s.lock {
        ForeignRowsAreSafe(c, s, i, e);
        StaleIsDead(c, s, i, k, skew);
      }
    }
  }

  lemma LeaseStep(c: Config, s: State, a: Action, skew: int)
    requires Valid(c) && c.registered && c.timely && SkewAtMost(c, skew) && c.timeout + skew <= c.third
    requires LeaseInv(c, s) && Apply(c, s, a).Some?
    ensures LeaseInv(c, Apply(c, s, a).value)
  {
    var t := Apply(c, s, a).value;
    forall k | 0 <= k < |t.instances| ensures InstanceInv(c, t, k) {
      assert InstanceInv(c, s, k);
      if a.Act? {
        if k == a.i {
          OwnStep(c, s, k, a.event);
        } else {
          OthersStep(c, s, a.i, a.event, k, skew);
        }
      }
    }
  }

  lemma {:induction false} LeaseRun(c: Config, s: State, actions: seq<Action>, skew: int)
    requires Valid(c) && c.registered && c.timely && SkewAtMost(c, skew) && c.timeout + skew <= c.third
    requires LeaseInv(c, s) && Exec(c, s, actions).Some?
    ensures LeaseInv(c, Exec(c, s, actions).value)
    decreases |actions|
  {
    if actions != [] {
      LeaseStep(c, s, actions[0], skew);
      LeaseRun(c, Apply(c, s, actions[0]).value, actions[1..], skew);
    }
  }

  /**
   * In every run, at every point: one live holder at most, the row is its own, and by its
   * own clock the row is never older than LockTimeout plus two thirds of the threshold.
   */
  lemma LeaseSafety(c: Config, s: State, actions: seq<Action>, skew: int)
    requires Valid(c) && c.registered && c.timely && SkewAtMost(c, skew) && c.timeout + skew <= c.third
    requires Initial(c, s) && Exec(c, s, actions).Some?
    ensures var t := Exec(c, s, actions).value;
            && |t.instances| == |c.offsets|
            && Exclusive(t)
            && forall i | 0 <= i < |t.instances| && t.instances[i].Holding? ::
                 && t.lock.Some? && t.lock.value.lockedBy == i
                 && Clock(c, t, i) - t.lock.value.lockedAt <= c.timeout + 2 * c.third
  {
    LeaseRun(c, s, actions, skew);
    var t := Exec(c, s, actions).value;
    OneHolder(c, t);
    forall i | 0 <= i < |t.instances| && t.instances[i].Holding?
      ensures Fresh(c, t, i, t.instances[i].renewal)
    {
      assert InstanceInv(c, t, i);
    }
  }

  /**
   * Whatever the timing, only two statements of others can touch a row: a compare-and-delete
   * that names its locked_at and judged it stale. A former holder's own statements never do.
   */
  lemma ForeignRowsAreSafe(c: Config, s: State, i: nat, e: Event)
    requires i < |s.instances| == |c.offsets| && Local(c, s, i, e).Some?
    requires s.lock.Some? && s.lock.value.lockedBy != i
    requires Local(c, s, i, e).value.lock != s.lock
    ensures e.Delete? && s.instances[i].Deleting? && s.instances[i].seen == s.lock.value.lockedAt
    ensures Local(c, s, i, e).value.lock == None
  {
  }

  // ---- the bound is tight ----

  /** Two instances whose clocks differ by exactly `skew`, and no migration files. */
  function TwoInstances(third: int, timeout: int, skew: int): Config {
    Config(third, timeout, true, true, [0, skew], [], [], [])
  }

  /** Extends a run by one action. */
  lemma Then(c: Config, s: State, actions: seq<Action>, t: State, a: Action) returns (actions': seq<Action>, t': State)
    requires Exec(c, s, actions) == Some(t) && Apply(c, t, a).Some?
    ensures actions' == actions + [a] && Exec(c, s, actions') == Some(t') && Some(t') == Apply(c, t, a)
  {
    ExecSnoc(c, s, actions, a);
    actions', t' := actions + [a], Apply(c, t, a).value;
  }

  /** An INSERT that takes the whole LockTimeout, and a first renewal that takes a whole third. */
  lemma SlowHolder(third: int, timeout: int, skew: int) returns (s: State, actions: seq<Action>, t: State)
    requires third > 0 && timeout > 0
    ensures var c := TwoInstances(third, timeout, skew); Initial(c, s) && Exec(c, s, actions) == Some(t)
    ensures t == State(timeout + 2 * third, Some(LockRow(0, 0)), [],
                       [Holding(Updating(timeout + third), Starting(Ddl)), Down])
  {
    var c := TwoInstances(third, timeout, skew);
    s := State(0, None, [], [Down, Down]);
    t := s;
    actions := [];
    actions, t := Then(c, s, actions, t, Act(0, Start));
    actions, t := Then(c, s, actions, t, Act(0, Attempt));
    actions, t := Then(c, s, actions, t, Pass(timeout));
    actions, t := Then(c, s, actions, t, Act(0, Insert(true)));
    actions, t := Then(c, s, actions, t, Pass(third));
    actions, t := Then(c, s, actions, t, Act(0, RenewBegins));
    actions, t := Then(c, s, actions, t, Pass(third));
  }

  /** Just before that renewal commits, the second instance finds the row stale and takes the lock. */
  lemma Takeover(third: int, timeout: int, skew: int) returns (s: State, actions: seq<Action>)
    requires third > 0 && timeout > 0 && skew >= 0 && timeout + skew > third
    ensures var c := TwoInstances(third, timeout, skew);
            Initial(c, s) && Exec(c, s, actions).Some? && !Exclusive(Exec(c, s, actions).value)
  {
    var c := TwoInstances(third, timeout, skew);
    var t;
    s, actions, t := SlowHolder(third, timeout, skew);
    actions, t := Then(c, s, actions, t, Act(1, Start));
    actions, t := Then(c, s, actions, t, Act(1, Attempt));
    actions, t := Then(c, s, actions, t, Act(1, InsertRefused));
    actions, t := Then(c, s, actions, t, Act(1, Read));
    actions, t := Then(c, s, actions, t, Act(1, Judge));
    actions, t := Then(c, s, actions, t, Act(1, Delete));
    actions, t := Then(c, s, actions, t, Act(1, Attempt));
    actions, t := Then(c, s, actions, t, Act(1, Insert(true)));
    assert t.instances[0].Holding? && t.instances[1].Holding?;
  }

  /** Every run of every fleet with these settings keeps the lock exclusive. */
  ghost predicate AlwaysExclusive(third: int, timeout: int, skew: int) {
    forall c: Config, s: State, actions: seq<Action> |
      && c.third == third && c.timeout == timeout && c.registered && c.timely
      && Valid(c) && SkewAtMost(c, skew) && Initial(c, s) && Exec(c, s, actions).Some? ::
      Exclusive(Exec(c, s, actions).value)
  }

  lemma LeaseSafeIff(third: int, timeout: int, skew: int)
    requires third > 0 && timeout > 0 && skew >= 0
    ensures AlwaysExclusive(third, timeout, skew) <==> timeout + skew <= third
  {
    if timeout + skew <= third {
      forall c: Config, s: State, actions: seq<Action> |
        && c.third == third && c.timeout == timeout && c.registered && c.timely
        && Valid(c) && SkewAtMost(c, skew) && Initial(c, s) && Exec(c, s, actions).Some?
        ensures Exclusive(Exec(c, s, actions).value)
      {
        LeaseSafety(c, s, actions, skew);
      }
    } else {
      var s, actions := Takeover(third, timeout, skew);
      var c := TwoInstances(third, timeout, skew);
      assert Valid(c) && SkewAtMost(c, skew);
      assert Exec(c, s, actions).Some?;
    }
  }
}
