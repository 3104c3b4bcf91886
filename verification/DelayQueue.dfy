/**
 * The Redis delayed queue of goredis/queue.go: per queue a sorted set of pending messages
 * and a list of ready ones; an atomic script moves due messages over, in batches.
 */
module DelayQueue {
  import opened Strings

  const BATCH := 100

  datatype Entry = Entry(score: int, member: string)

  /** Redis orders a sorted set by score, then by member. */
  predicate Before(a: Entry, b: Entry) {
    a.score < b.score || (a.score == b.score && Less(a.member, b.member))
  }

  predicate IsSortedSet(z: seq<Entry>) {
    && (forall i, j | 0 <= i < j < |z| :: Before(z[i], z[j]))
    && (forall i, j | 0 <= i < j < |z| :: z[i].member != z[j].member)
  }

  type SortedSet = z: seq<Entry> | IsSortedSet(z) witness []

  datatype Queue = Queue(pending: SortedSet, ready: seq<string>)

  lemma BeforeTransitive(a: Entry, b: Entry, c: Entry)
    requires Before(a, b) && Before(b, c)
    ensures Before(a, c)
  {
    LessTransitive(a.member, b.member, c.member);
  }

  // ---- the commands ----

  lemma HeadIsFirst(z: SortedSet)
    requires z != []
    ensures z == [z[0]] + z[1..] && IsSortedSet(z[1..])
    ensures forall e | e in z[1..] :: Before(z[0], e) && e.member != z[0].member
  {
  }

  lemma Prepended(x: Entry, z: SortedSet)
    requires forall e | e in z :: Before(x, e) && e.member != x.member
    ensures IsSortedSet([x] + z)
  {
    var r := [x] + z;
    forall i, j | 0 <= i < j < |r| ensures Before(r[i], r[j]) && r[i].member != r[j].member {
      assert r[j] == z[j - 1] && z[j - 1] in z;
    }
  }

  function Remove(z: SortedSet, member: string): (r: SortedSet)
    ensures forall e :: e in r <==> e in z && e.member != member
  {
    if z == [] then []
    else
      HeadIsFirst(z);
      if z[0].member == member then z[1..]
      else
        var rest := Remove(z[1..], member);
        Prepended(z[0], rest);
        [z[0]] + rest
  }

  function Insert(z: SortedSet, x: Entry): (r: SortedSet)
    requires forall e | e in z :: e.member != x.member
    ensures forall e :: e in r <==> e == x || e in z
  {
    if z == [] then [x]
    else if Before(x, z[0]) then
      FirstOfAll(z, x);
      Prepended(x, z);
      [x] + z
    else
      HeadIsFirst(z);
      LessTotal(z[0].member, x.member);
      var rest := Insert(z[1..], x);
      Prepended(z[0], rest);
      [z[0]] + rest
  }

  lemma FirstOfAll(z: SortedSet, x: Entry)
    requires z != [] && Before(x, z[0])
    ensures forall i | 0 <= i < |z| :: Before(x, z[i])
  {
    forall i | 1 <= i < |z| ensures Before(x, z[i]) { BeforeTransitive(x, z[0], z[i]); }
  }

  predicate Has(z: SortedSet, member: string)
    ensures Has(z, member) <==> exists e :: e in z && e.member == member
  {
    if z == [] then false
    else
      assert z == [z[0]] + z[1..];
      z[0].member == member || Has(z[1..], member)
  }

  /** ZADD: one entry per member; adding a member again only moves it. */
  function ZAdd(z: SortedSet, member: string, score: int): (r: SortedSet)
    ensures forall e :: e in r <==> e == Entry(score, member) || (e in z && e.member != member)
  {
    Insert(Remove(z, member), Entry(score, member))
  }

  /** How many entries ZRANGEBYSCORE -inf now finds. */
  function DueCount(z: SortedSet, now: int): (n: nat)
    ensures n <= |z|
    ensures forall i | 0 <= i < |z| :: z[i].score <= now <==> i < n
  {
    if z == [] || z[0].score > now then 0
    else
      assert z == [z[0]] + z[1..];
      1 + DueCount(z[1..], now)
  }

  /** ZRANGEBYSCORE ... LIMIT 0 100 */
  function Batch(z: SortedSet, now: int): (n: nat)
    ensures n <= |z|
  {
    if DueCount(z, now) < BATCH then DueCount(z, now) else BATCH
  }

  function Members(z: seq<Entry>): (r: seq<string>)
    ensures |r| == |z| && forall i | 0 <= i < |z| :: r[i] == z[i].member
  {
    seq(|z|, i requires 0 <= i < |z| => z[i].member)
  }

  /** The script of migrateExpiredBody: ZRANGEBYSCORE, ZREM and RPUSH in one step. */
  function Migrated(q: Queue, now: int): Queue {
    var n := Batch(q.pending, now);
    Queue(q.pending[n..], q.ready + Members(q.pending[..n]))
  }

  /** The script moves exactly the smallest due entries, at most 100, in order, and nothing else. */
  lemma MovesSmallestDue(q: Queue, now: int)
    ensures var n, r := Batch(q.pending, now), Migrated(q, now);
            && r.ready == q.ready + Members(q.pending[..n])
            && r.pending == q.pending[n..]
            && n == (if DueCount(q.pending, now) <= 100 then DueCount(q.pending, now) else 100)
            && (forall i | 0 <= i < n :: q.pending[i].score <= now)
            && (forall e | e in r.pending :: n < BATCH ==> e.score > now)
            && (forall i, e | 0 <= i < n && e in r.pending :: Before(q.pending[i], e))
  {
    var n := Batch(q.pending, now);
    forall e | e in q.pending[n..]
      ensures n < BATCH ==> e.score > now
      ensures forall i | 0 <= i < n :: Before(q.pending[i], e)
    {
      var j :| 0 <= j < |q.pending[n..]| && q.pending[n..][j] == e;
      assert e == q.pending[n + j];
    }
  }

  // ---- runs: any interleaving of producers, consumers and daemons on one queue ----

  datatype Op = PushDelayed(msg: string, due: int) | Push(msg: string) | Pop | Migrate(now: int)

  function Apply(q: Queue, op: Op): Queue {
    match op
    case PushDelayed(msg, due) => q.(pending := ZAdd(q.pending, msg, due))
    case Push(msg) => q.(ready := q.ready + [msg])
    case Pop => if q.ready == [] then q else q.(ready := q.ready[1..])
    case Migrate(now) => Migrated(q, now)
  }

  function Run(q: Queue, ops: seq<Op>): Queue
    decreases |ops|
  {
    if ops == [] then q else Run(Apply(q, ops[0]), ops[1..])
  }

  /** What an operation adds to the queue; pushing a still-pending message again adds nothing. */
  function Added(q: Queue, op: Op): multiset<string> {
    match op
    case PushDelayed(msg, _) => if Has(q.pending, msg) then multiset{} else multiset{msg}
    case Push(msg) => multiset{msg}
    case _ => multiset{}
  }

  function Taken(q: Queue, op: Op): multiset<string> {
    if op.Pop? && q.ready != [] then multiset{q.ready[0]} else multiset{}
  }

  function AllAdded(q: Queue, ops: seq<Op>): multiset<string>
    decreases |ops|
  {
    if ops == [] then multiset{} else Added(q, ops[0]) + AllAdded(Apply(q, ops[0]), ops[1..])
  }

  function AllTaken(q: Queue, ops: seq<Op>): multiset<string>
    decreases |ops|
  {
    if ops == [] then multiset{} else Taken(q, ops[0]) + AllTaken(Apply(q, ops[0]), ops[1..])
  }

  function Contents(q: Queue): multiset<string> {
    multiset(Members(q.pending)) + multiset(q.ready)
  }

  lemma MembersOfConcat(a: seq<Entry>, b: seq<Entry>)
    ensures Members(a + b) == Members(a) + Members(b)
  {
  }

  lemma MembersOfCons(x: Entry, z: seq<Entry>)
    ensures multiset(Members([x] + z)) == multiset{x.member} + multiset(Members(z))
  {
    assert Members([x] + z) == [x.member] + Members(z);
  }

  /** What taking a member out of a sorted set takes from the multiset of its members. */
  function Removed(z: SortedSet, member: string): multiset<string> {
    if Has(z, member) then multiset{member} else multiset{}
  }

  lemma {:induction false} MembersOfRemove(z: SortedSet, member: string)
    ensures multiset(Members(z)) == multiset(Members(Remove(z, member))) + Removed(z, member)
  {
    if z != [] {
      HeadIsFirst(z);
      MembersOfCons(z[0], z[1..]);
      if z[0].member != member {
        MembersOfRemove(z[1..], member);
        MembersOfCons(z[0], Remove(z[1..], member));
      }
    }
  }

  lemma {:induction false} MembersOfInsert(z: SortedSet, x: Entry)
    requires forall e | e in z :: e.member != x.member
    ensures multiset(Members(Insert(z, x))) == multiset(Members(z)) + multiset{x.member}
  {
    if z == [] {
      MembersOfCons(x, []);
    } else {
      assert z == [z[0]] + z[1..];
      if Before(x, z[0]) {
        MembersOfCons(x, z);
      } else {
        MembersOfInsert(z[1..], x);
        MembersOfCons(z[0], z[1..]);
        MembersOfCons(z[0], Insert(z[1..], x));
      }
    }
  }

  lemma DelayedPushConserves(q: Queue, msg: string, due: int)
    ensures var op := PushDelayed(msg, due); Contents(q) + Added(q, op) == Contents(Apply(q, op))
  {
    MembersOfRemove(q.pending, msg);
    MembersOfInsert(Remove(q.pending, msg), Entry(due, msg));
  }

  lemma StepConserves(q: Queue, op: Op)
    ensures Contents(q) + Added(q, op) == Contents(Apply(q, op)) + Taken(q, op)
  {
    match op
    case PushDelayed(msg, due) => DelayedPushConserves(q, msg, due);
    case Push(msg) =>
    case Pop =>
      if q.ready != [] {
        assert q.ready == [q.ready[0]] + q.ready[1..];
      }
    case Migrate(now) => MigrationConserves(q, now);
  }

  lemma MigrationConserves(q: Queue, now: int)
    ensures Contents(Migrated(q, now)) == Contents(q)
  {
    var n := Batch(q.pending, now);
    assert q.pending == q.pending[..n] + q.pending[n..];
    MembersOfConcat(q.pending[..n], q.pending[n..]);
  }

  lemma Balance<T>(a: multiset<T>, added: multiset<T>, b: multiset<T>, taken: multiset<T>,
                   added': multiset<T>, c: multiset<T>, taken': multiset<T>)
    requires a + added == b + taken && b + added' == c + taken'
    ensures a + (added + added') == c + (taken + taken')
  {
    assert a + (added + added') == b + taken + added' == c + taken' + taken;
  }

  /** In every interleaving, pending + ready + popped is what was there plus what was pushed. */
  lemma {:induction false} RunConserves(q: Queue, ops: seq<Op>)
    ensures Contents(q) + AllAdded(q, ops) == Contents(Run(q, ops)) + AllTaken(q, ops)
    decreases |ops|
  {
    if ops != [] {
      var next := Apply(q, ops[0]);
      StepConserves(q, ops[0]);
      RunConserves(next, ops[1..]);
      Balance(Contents(q), Added(q, ops[0]), Contents(next), Taken(q, ops[0]),
              AllAdded(next, ops[1..]), Contents(Run(next, ops[1..])), AllTaken(next, ops[1..]));
    }
  }

  // ---- order ----

  function PoppedBy(q: Queue, op: Op): seq<string> {
    if op.Pop? && q.ready != [] then [q.ready[0]] else []
  }

  /** A direct push brings one message, a migration its whole batch. */
  function ArrivedBy(q: Queue, op: Op): seq<string> {
    match op
    case Push(msg) => [msg]
    case Migrate(now) => Members(q.pending[..Batch(q.pending, now)])
    case _ => []
  }

  /** The messages that a run pops, in order. */
  function Popped(q: Queue, ops: seq<Op>): seq<string>
    decreases |ops|
  {
    if ops == [] then [] else PoppedBy(q, ops[0]) + Popped(Apply(q, ops[0]), ops[1..])
  }

  /** The messages that become ready in a run, in order. */
  function Arrived(q: Queue, ops: seq<Op>): seq<string>
    decreases |ops|
  {
    if ops == [] then [] else ArrivedBy(q, ops[0]) + Arrived(Apply(q, ops[0]), ops[1..])
  }

  lemma Requeued<T>(popped: seq<T>, later: seq<T>, ready: seq<T>, came: seq<T>, rest: seq<T>, ready': seq<T>,
                    end: seq<T>)
    requires popped + ready' == ready + came && later + end == ready' + rest
    ensures (popped + later) + end == ready + (came + rest)
  {
    assert (popped + later) + end == popped + (later + end) == (popped + ready') + rest;
  }

  /** First in, first out: whatever was ready or came in is popped in that order, and the rest stays in that order. */
  lemma {:induction false} ReadyInOrder(q: Queue, ops: seq<Op>)
    ensures Popped(q, ops) + Run(q, ops).ready == q.ready + Arrived(q, ops)
    decreases |ops|
  {
    if ops != [] {
      var next := Apply(q, ops[0]);
      ReadyInOrder(next, ops[1..]);
      assert PoppedBy(q, ops[0]) + next.ready == q.ready + ArrivedBy(q, ops[0]);
      Requeued(PoppedBy(q, ops[0]), Popped(next, ops[1..]), q.ready, ArrivedBy(q, ops[0]), Arrived(next, ops[1..]),
               next.ready, Run(next, ops[1..]).ready);
    }
  }

  function MovedBy(q: Queue, op: Op): (n: nat)
    ensures n <= |q.pending|
  {
    if op.Migrate? then Batch(q.pending, op.now) else 0
  }

  /** The entries that migrations move over, in the order they reach the ready list. */
  function Moved(q: Queue, ops: seq<Op>): seq<Entry>
    decreases |ops|
  {
    if ops == [] then []
    else
      q.pending[..MovedBy(q, ops[0])] + Moved(Apply(q, ops[0]), ops[1..])
  }

  predicate Repushes(op: Op, member: string) {
    op.PushDelayed? && op.msg == member
  }

  ghost predicate MovedBefore(moved: seq<Entry>, a: Entry, j: nat) {
    exists i :: 0 <= i < j && i < |moved| && moved[i] == a
  }

  /** A pending message is never overtaken: if a later-due one is moved, it was moved before. */
  lemma {:induction false} NoOvertaking(q: Queue, ops: seq<Op>, a: Entry, b: Entry, j: nat)
    requires a in q.pending && b in q.pending && Before(a, b)
    requires forall op | op in ops :: !Repushes(op, a.member) && !Repushes(op, b.member)
    requires j < |Moved(q, ops)| && Moved(q, ops)[j] == b
    ensures MovedBefore(Moved(q, ops), a, j)
    decreases |ops|
  {
    var op, next := ops[0], Apply(q, ops[0]);
    var later := Moved(next, ops[1..]);
    var n := MovedBy(q, op);
    var k :| 0 <= k < |q.pending| && q.pending[k] == a;
    var m :| 0 <= m < |q.pending| && q.pending[m] == b;
    OrderedPositions(q.pending, k, m);
    assert op in ops && forall o | o in ops[1..] :: o in ops;
    if k < n {
      EarlierInBatch(q.pending, n, later, k, m, j);
    } else {
      StillPending(q, op, k);
      StillPending(q, op, m);
      LaterMove(q.pending, n, later, m, j);
      NoOvertaking(next, ops[1..], a, b, j - n);
      Shifted(q.pending[..n], later, a, j - n);
    }
  }

  lemma Shifted(first: seq<Entry>, later: seq<Entry>, a: Entry, j: nat)
    requires MovedBefore(later, a, j)
    ensures MovedBefore(first + later, a, |first| + j)
  {
    var i :| 0 <= i < j && i < |later| && later[i] == a;
    assert (first + later)[|first| + i] == a;
  }

  lemma LaterMove(z: SortedSet, n: nat, later: seq<Entry>, m: nat, j: nat)
    requires n <= m < |z| && j < n + |later| && (z[..n] + later)[j] == z[m]
    ensures n <= j && later[j - n] == z[m]
  {
    assert forall i | 0 <= i < n :: (z[..n] + later)[i] == z[i];
  }

  lemma EarlierInBatch(z: SortedSet, n: nat, later: seq<Entry>, k: nat, m: nat, j: nat)
    requires k < n <= |z| && k < m < |z| && j < n + |later| && (z[..n] + later)[j] == z[m]
    ensures MovedBefore(z[..n] + later, z[k], j)
  {
    assert forall i | 0 <= i < n :: (z[..n] + later)[i] == z[i];
    assert k < j;
  }

  /** An entry outside the batch, and not pushed again, stays pending. */
  lemma StillPending(q: Queue, op: Op, k: nat)
    requires k < |q.pending| && !Repushes(op, q.pending[k].member)
    requires k >= MovedBy(q, op)
    ensures q.pending[k] in Apply(q, op).pending
  {
    if op.Migrate? {
      var n := Batch(q.pending, op.now);
      assert q.pending[n..][k - n] == q.pending[k];
    }
  }

  lemma OrderedPositions(z: SortedSet, k: nat, m: nat)
    requires k < |z| && m < |z| && Before(z[k], z[m])
    ensures k < m
  {
    LessTotal(z[k].member, z[m].member);
  }

  /** A moved entry with the time that the script was given. */
  datatype Move = Move(entry: Entry, at: int)

  function Stamped(entries: seq<Entry>, at: int): (r: seq<Move>)
    ensures |r| == |entries| && forall i | 0 <= i < |r| :: r[i] == Move(entries[i], at)
  {
    seq(|entries|, i requires 0 <= i < |entries| => Move(entries[i], at))
  }

  /** The moves of a run, each with the clock of the daemon that made it. */
  function Moves(q: Queue, ops: seq<Op>): seq<Move>
    decreases |ops|
  {
    if ops == [] then []
    else
      var at := if ops[0].Migrate? then ops[0].now else 0;
      Stamped(q.pending[..MovedBy(q, ops[0])], at) + Moves(Apply(q, ops[0]), ops[1..])
  }

  /** No message becomes ready before it is due by the clock of the very script that moves it. */
  lemma {:induction false} NoneMovesEarly(q: Queue, ops: seq<Op>)
    ensures |Moves(q, ops)| == |Moved(q, ops)|
    ensures forall i | 0 <= i < |Moves(q, ops)| ::
              Moves(q, ops)[i].entry == Moved(q, ops)[i] && Moves(q, ops)[i].entry.score <= Moves(q, ops)[i].at
    decreases |ops|
  {
    if ops != [] {
      NoneMovesEarly(Apply(q, ops[0]), ops[1..]);
    }
  }

  // ---- draining ----

  lemma {:induction false} DueAfterDrop(z: SortedSet, now: int, n: nat)
    requires n <= |z|
    ensures DueCount(z[n..], now) == if DueCount(z, now) < n then 0 else DueCount(z, now) - n
  {
    var due, rest := DueCount(z, now), DueCount(z[n..], now);
    if rest > 0 {
      assert z[n..][rest - 1] == z[n + rest - 1];
    }
    if n + rest < |z| {
      assert z[n..][rest] == z[n + rest];
    }
  }

  /** How many migrations of a run come at or after a given time. */
  function MigrationsFrom(ops: seq<Op>, now: int): nat {
    if ops == [] then 0
    else (if ops[0].Migrate? && ops[0].now >= now then 1 else 0) + MigrationsFrom(ops[1..], now)
  }

  /** Delayed pushes are due after `now`. */
  predicate LatePushes(ops: seq<Op>, now: int) {
    forall op | op in ops && op.PushDelayed? :: op.due > now
  }

  /** A delayed push moves a message that is due by `now` to a later time. */
  predicate Postpones(q: Queue, op: Op, now: int) {
    op.PushDelayed? && exists e | e in q.pending :: e.member == op.msg && e.score <= now
  }

  lemma {:induction false} DueAfterRemove(z: SortedSet, member: string, now: int)
    ensures DueCount(Remove(z, member), now) <= DueCount(z, now)
    ensures (forall e | e in z :: e.member == member ==> e.score > now) ==>
              DueCount(Remove(z, member), now) == DueCount(z, now)
  {
    if z != [] {
      HeadIsFirst(z);
      if z[0].member != member {
        DueAfterRemove(z[1..], member, now);
        DueOfCons(z[0], Remove(z[1..], member), now);
      } else {
        DueAfterDrop(z, now, 1);
      }
    }
  }

  lemma {:induction false} DueAfterInsert(z: SortedSet, x: Entry, now: int)
    requires x.score > now && forall e | e in z :: e.member != x.member
    ensures DueCount(Insert(z, x), now) == DueCount(z, now)
  {
    if z != [] && !Before(x, z[0]) {
      HeadIsFirst(z);
      LessTotal(z[0].member, x.member);
      DueAfterInsert(z[1..], x, now);
      DueOfCons(z[0], Insert(z[1..], x), now);
    }
  }

  lemma DueOfCons(x: Entry, z: SortedSet, now: int)
    requires forall e | e in z :: Before(x, e) && e.member != x.member
    ensures IsSortedSet([x] + z)
    ensures DueCount([x] + z, now) == if x.score > now then 0 else 1 + DueCount(z, now)
  {
    Prepended(x, z);
    assert ([x] + z)[1..] == z;
  }

  /** A delayed push due after `now` adds nothing to the messages due by then. */
  lemma DueAfterPush(q: Queue, op: Op, now: int)
    requires op.PushDelayed? && op.due > now
    ensures var before, after := DueCount(q.pending, now), DueCount(Apply(q, op).pending, now);
            after <= before && (!Postpones(q, op, now) ==> after == before)
  {
    DueAfterRemove(q.pending, op.msg, now);
    DueAfterInsert(Remove(q.pending, op.msg), Entry(op.due, op.msg), now);
  }

  /** What one operation leaves of the messages due by a given time. */
  lemma DueAfterStep(q: Queue, op: Op, now: int)
    requires op.PushDelayed? ==> op.due > now
    ensures var before, after := DueCount(q.pending, now), DueCount(Apply(q, op).pending, now);
            && after <= before
            && (op.Migrate? && op.now >= now ==> after == if before <= BATCH then 0 else before - BATCH)
  {
    if op.Migrate? {
      DueAfterDrop(q.pending, now, Batch(q.pending, op.now));
      if op.now >= now {
        DueGrows(q.pending, now, op.now);
      }
    } else if op.PushDelayed? {
      DueAfterPush(q, op, now);
    }
  }

  /**
   * Among any pops, direct pushes, other migrations and delayed pushes due after `now`, each
   * migration from `now` on clears 100 of the messages due by `now`, or all that are left.
   */
  lemma {:induction false} DrainBound(q: Queue, ops: seq<Op>, now: int)
    requires LatePushes(ops, now)
    ensures DueCount(Run(q, ops).pending, now) <=
            var due, cleared := DueCount(q.pending, now), BATCH * MigrationsFrom(ops, now);
            if due <= cleared then 0 else due - cleared
    decreases |ops|
  {
    if ops != [] {
      assert ops[0] in ops && forall op | op in ops[1..] :: op in ops;
      DueAfterStep(q, ops[0], now);
      DrainBound(Apply(q, ops[0]), ops[1..], now);
    }
  }

  lemma DueStaysDue(q: Queue, op: Op, now: int)
    requires op.PushDelayed? ==> op.due > now
    ensures forall e | e in Apply(q, op).pending && e.score <= now :: e in q.pending
  {
  }

  /** The bound is met when nothing is migrated with an earlier clock and no due message is postponed. */
  lemma {:induction false} DrainExact(q: Queue, ops: seq<Op>, now: int)
    requires LatePushes(ops, now) && forall op | op in ops && op.Migrate? :: op.now >= now
    requires forall op | op in ops :: !Postpones(q, op, now)
    ensures DueCount(Run(q, ops).pending, now) ==
            var due, cleared := DueCount(q.pending, now), BATCH * MigrationsFrom(ops, now);
            if due <= cleared then 0 else due - cleared
    decreases |ops|
  {
    if ops != [] {
      assert ops[0] in ops && forall op | op in ops[1..] :: op in ops;
      DueAfterStep(q, ops[0], now);
      if ops[0].PushDelayed? {
        DueAfterPush(q, ops[0], now);
      }
      DueStaysDue(q, ops[0], now);
      DrainExact(Apply(q, ops[0]), ops[1..], now);
    }
  }

  lemma DueGrows(z: SortedSet, now: int, t: int)
    requires now <= t
    ensures DueCount(z, now) <= DueCount(z, t)
  {
    var k := DueCount(z, t);
    assert k < |z| ==> z[k].score > t;
  }

  /** n due messages are gone once ceil(n / 100) migrations have come, whatever else happens in between. */
  lemma DrainedAfter(q: Queue, ops: seq<Op>, now: int)
    requires LatePushes(ops, now)
    requires MigrationsFrom(ops, now) >= (DueCount(q.pending, now) + BATCH - 1) / BATCH
    ensures forall e | e in Run(q, ops).pending :: e.score > now
  {
    DrainBound(q, ops, now);
  }
}
