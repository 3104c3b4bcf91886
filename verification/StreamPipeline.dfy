/**
 * The worker pipeline behind Walk, Filter and Peek of the streams package: a dispatcher
 * goroutine starts one callback per source item through a pool of slots, callbacks send to
 * a shared channel and may panic, and the dispatcher closes the channel after wg.Wait.
 */
module StreamPipeline {
  import opened Counting

  /** outs[i] is what the callback of item i sends unless it panics first. */
  datatype Config<T> = Config(outs: seq<seq<T>>, workers: nat)

  /** A callback: its deferred function first calls wg.Done, then frees the slot. */
  datatype Task =
    | Idle
    | Running(sent: nat)
    | Ended(sent: nat, panicked: bool)
    | Gone(sent: nat, panicked: bool)

  /** `sentOnClosed` records the run-time panic of a send on a closed channel. */
  datatype State<T> = State(next: nat, tasks: seq<Task>, slots: nat, wg: int, pipe: seq<T>, closed: bool,
                            taken: seq<T>, sentOnClosed: bool)

  datatype Action = Spawn | Emit(i: nat) | Return(i: nat) | Panic(i: nat) | Free(i: nat) | Close | Take

  const IN_FLIGHT: Task -> bool := (t: Task) => t.Running?
  const HOLDS_SLOT: Task -> bool := (t: Task) => t.Running? || t.Ended?

  function Init<T>(c: Config<T>): State<T> {
    State(0, seq(|c.outs|, _ => Idle), 0, 0, [], false, [], false)
  }

  predicate Enabled<T>(c: Config<T>, s: State<T>, a: Action) {
    |s.tasks| == |c.outs| &&
    match a
    case Spawn => s.next < |c.outs| && s.slots < c.workers
    case Emit(i) =>
      i < |s.tasks| && s.tasks[i].Running? && s.tasks[i].sent < |c.outs[i]| && (s.closed || |s.pipe| < c.workers)
    case Return(i) => i < |s.tasks| && s.tasks[i].Running? && s.tasks[i].sent == |c.outs[i]|
    case Panic(i) => i < |s.tasks| && s.tasks[i].Running?
    case Free(i) => i < |s.tasks| && s.tasks[i].Ended?
    case Close => s.next == |c.outs| && s.wg == 0 && !s.closed
    case Take => s.pipe != []
  }

  function Apply<T>(c: Config<T>, s: State<T>, a: Action): State<T>
    requires Enabled(c, s, a)
  {
    match a
    case Spawn => s.(tasks := s.tasks[s.next := Running(0)], next := s.next + 1, slots := s.slots + 1, wg := s.wg + 1)
    case Emit(i) =>
      var k := s.tasks[i].sent;
      if s.closed then s.(sentOnClosed := true)
      else s.(tasks := s.tasks[i := Running(k + 1)], pipe := s.pipe + [c.outs[i][k]])
    case Return(i) => s.(tasks := s.tasks[i := Ended(s.tasks[i].sent, false)], wg := s.wg - 1)
    case Panic(i) => s.(tasks := s.tasks[i := Ended(s.tasks[i].sent, true)], wg := s.wg - 1)
    case Free(i) =>
      s.(tasks := s.tasks[i := Gone(s.tasks[i].sent, s.tasks[i].panicked)],
         slots := if s.slots > 0 then s.slots - 1 else 0)
    case Close => s.(closed := true)
    case Take => s.(pipe := s.pipe[1..], taken := s.taken + [s.pipe[0]])
  }

  /** Any schedule; actions that are not enabled when their turn comes are passed over. */
  function Play<T>(c: Config<T>, s: State<T>, actions: seq<Action>): State<T>
    decreases |actions|
  {
    if actions == [] then s
    else Play(c, if Enabled(c, s, actions[0]) then Apply(c, s, actions[0]) else s, actions[1..])
  }

  // ---- what has been sent ----

  function Sent(t: Task): nat {
    if t.Idle? then 0 else t.sent
  }

  predicate Fits<T>(outs: seq<seq<T>>, tasks: seq<Task>) {
    |tasks| == |outs| && forall i | 0 <= i < |tasks| :: Sent(tasks[i]) <= |outs[i]|
  }

  /** What the callbacks have sent, item after item. */
  function InOrder<T>(outs: seq<seq<T>>, tasks: seq<Task>): seq<T>
    requires Fits(outs, tasks)
  {
    if tasks == [] then []
    else
      assert Fits(outs[1..], tasks[1..]) by { assert forall i | 0 <= i < |tasks| - 1 :: tasks[1..][i] == tasks[i + 1]; }
      outs[0][..Sent(tasks[0])] + InOrder(outs[1..], tasks[1..])
  }

  lemma {:induction false} SameSent<T>(outs: seq<seq<T>>, tasks: seq<Task>, i: nat, t: Task)
    requires Fits(outs, tasks) && i < |tasks| && Sent(t) == Sent(tasks[i])
    ensures Fits(outs, tasks[i := t])
    ensures InOrder(outs, tasks[i := t]) == InOrder(outs, tasks)
  {
    if i == 0 {
      assert tasks[0 := t][1..] == tasks[1..];
    } else {
      assert tasks[i := t][1..] == tasks[1..][i - 1 := t];
      SameSent(outs[1..], tasks[1..], i - 1, t);
    }
  }

  lemma OneMoreFits<T>(outs: seq<seq<T>>, tasks: seq<Task>, i: nat)
    requires Fits(outs, tasks) && i < |tasks| && Sent(tasks[i]) < |outs[i]|
    ensures Fits(outs, tasks[i := Running(Sent(tasks[i]) + 1)])
  {
  }

  lemma Tails<T>(outs: seq<seq<T>>, tasks: seq<Task>)
    requires Fits(outs, tasks) && tasks != []
    ensures Fits(outs[1..], tasks[1..])
    ensures InOrder(outs, tasks) == outs[0][..Sent(tasks[0])] + InOrder(outs[1..], tasks[1..])
  {
  }

  /** One more send adds its value to what has been sent. */
  lemma {:induction false} OneMore<T>(outs: seq<seq<T>>, tasks: seq<Task>, i: nat)
    requires Fits(outs, tasks) && i < |tasks| && Sent(tasks[i]) < |outs[i]|
    requires Fits(outs, tasks[i := Running(Sent(tasks[i]) + 1)])
    ensures multiset(InOrder(outs, tasks[i := Running(Sent(tasks[i]) + 1)])) ==
            multiset(InOrder(outs, tasks)) + multiset{outs[i][Sent(tasks[i])]}
  {
    var k := Sent(tasks[i]);
    var t := Running(k + 1);
    Tails(outs, tasks);
    Tails(outs, tasks[i := t]);
    if i == 0 {
      assert tasks[0 := t][1..] == tasks[1..];
      assert outs[0][..k + 1] == outs[0][..k] + [outs[0][k]];
    } else {
      assert tasks[i := t][1..] == tasks[1..][i - 1 := t];
      OneMore(outs[1..], tasks[1..], i - 1);
    }
  }

  /** It comes last if all later items sent nothing. */
  lemma {:induction false} OneMoreLast<T>(outs: seq<seq<T>>, tasks: seq<Task>, i: nat)
    requires Fits(outs, tasks) && i < |tasks| && Sent(tasks[i]) < |outs[i]|
    requires Fits(outs, tasks[i := Running(Sent(tasks[i]) + 1)])
    requires forall j | i < j < |tasks| :: tasks[j].Idle?
    ensures InOrder(outs, tasks[i := Running(Sent(tasks[i]) + 1)]) ==
            InOrder(outs, tasks) + [outs[i][Sent(tasks[i])]]
  {
    var k := Sent(tasks[i]);
    var t := Running(k + 1);
    Tails(outs, tasks);
    Tails(outs, tasks[i := t]);
    if i == 0 {
      assert tasks[0 := t][1..] == tasks[1..];
      assert outs[0][..k + 1] == outs[0][..k] + [outs[0][k]];
      NothingSent(outs[1..], tasks[1..]);
    } else {
      assert tasks[i := t][1..] == tasks[1..][i - 1 := t];
      OneMoreLast(outs[1..], tasks[1..], i - 1);
    }
  }

  lemma {:induction false} NothingSent<T>(outs: seq<seq<T>>, tasks: seq<Task>)
    requires Fits(outs, tasks) && forall j | 0 <= j < |tasks| :: tasks[j].Idle?
    ensures InOrder(outs, tasks) == []
  {
    if tasks != [] {
      NothingSent(outs[1..], tasks[1..]);
    }
  }

  // ---- the invariant ----

  predicate Shape<T>(c: Config<T>, s: State<T>) {
    && Fits(c.outs, s.tasks)
    && s.next <= |s.tasks|
    && (forall i | 0 <= i < |s.tasks| :: s.tasks[i].Idle? <==> i >= s.next)
    && (forall i | 0 <= i < |s.tasks| && (s.tasks[i].Ended? || s.tasks[i].Gone?) && !s.tasks[i].panicked ::
          s.tasks[i].sent == |c.outs[i]|)
  }

  predicate Tally<T>(c: Config<T>, s: State<T>) {
    && s.wg == Count(s.tasks, IN_FLIGHT)
    && s.slots == Count(s.tasks, HOLDS_SLOT)
    && s.slots <= c.workers
    && |s.pipe| <= c.workers
    && (s.closed ==> s.next == |s.tasks| && s.wg == 0)
    && !s.sentOnClosed
  }

  ghost predicate Delivered<T>(c: Config<T>, s: State<T>) {
    Fits(c.outs, s.tasks) && multiset(s.taken + s.pipe) == multiset(InOrder(c.outs, s.tasks))
  }

  ghost predicate Inv<T>(c: Config<T>, s: State<T>) {
    Shape(c, s) && Tally(c, s) && Delivered(c, s)
  }

  lemma InitInv<T>(c: Config<T>)
    ensures Inv(c, Init(c))
  {
    CountZero(Init(c).tasks, IN_FLIGHT);
    CountZero(Init(c).tasks, HOLDS_SLOT);
    NothingSent(c.outs, Init(c).tasks);
  }

  lemma Counts<T>(c: Config<T>, s: State<T>, i: nat, t: Task)
    requires Tally(c, s) && i < |s.tasks|
    ensures Count(s.tasks[i := t], IN_FLIGHT) ==
            s.wg - (if s.tasks[i].Running? then 1 else 0) + (if t.Running? then 1 else 0)
    ensures Count(s.tasks[i := t], HOLDS_SLOT) ==
            s.slots - (if HOLDS_SLOT(s.tasks[i]) then 1 else 0) + (if HOLDS_SLOT(t) then 1 else 0)
    ensures s.tasks[i].Running? ==> s.wg > 0
    ensures HOLDS_SLOT(s.tasks[i]) ==> s.slots > 0
  {
    CountUpdate(s.tasks, IN_FLIGHT, i, t);
    CountUpdate(s.tasks, HOLDS_SLOT, i, t);
    CountZero(s.tasks, IN_FLIGHT);
    CountZero(s.tasks, HOLDS_SLOT);
  }

  /** The task that an action changes (|s.tasks| for none), and what it becomes. */
  function Changed<T>(c: Config<T>, s: State<T>, a: Action): (nat, Task)
    requires Enabled(c, s, a)
  {
    match a
    case Spawn => (s.next, Running(0))
    case Emit(i) => (i, if s.closed then s.tasks[i] else Running(s.tasks[i].sent + 1))
    case Return(i) => (i, Ended(s.tasks[i].sent, false))
    case Panic(i) => (i, Ended(s.tasks[i].sent, true))
    case Free(i) => (i, Gone(s.tasks[i].sent, s.tasks[i].panicked))
    case _ => (|s.tasks|, Idle)
  }

  lemma ShapeStep<T>(c: Config<T>, s: State<T>, a: Action)
    requires Shape(c, s) && Enabled(c, s, a)
    ensures Shape(c, Apply(c, s, a))
  {
  }

  lemma TallyStep<T>(c: Config<T>, s: State<T>, a: Action)
    requires Shape(c, s) && Tally(c, s) && Enabled(c, s, a)
    ensures Tally(c, Apply(c, s, a))
  {
    var (i, t) := Changed(c, s, a);
    if i < |s.tasks| {
      Counts(c, s, i, t);
    }
  }

  lemma DeliveredEmit<T>(c: Config<T>, s: State<T>, i: nat)
    requires Delivered(c, s) && Enabled(c, s, Emit(i)) && !s.closed
    ensures Delivered(c, Apply(c, s, Emit(i)))
  {
    OneMoreFits(c.outs, s.tasks, i);
    OneMore(c.outs, s.tasks, i);
    AtTheEnd(s.taken, s.pipe, c.outs[i][s.tasks[i].sent]);
  }

  lemma AtTheEnd<T>(a: seq<T>, b: seq<T>, x: T)
    ensures a + (b + [x]) == a + b + [x]
    ensures multiset(a + (b + [x])) == multiset(a + b) + multiset{x}
  {
    assert a + (b + [x]) == a + b + [x];
  }

  lemma DeliveredStep<T>(c: Config<T>, s: State<T>, a: Action)
    requires Delivered(c, s) && Shape(c, s) && Enabled(c, s, a) && !s.closed
    ensures Delivered(c, Apply(c, s, a))
  {
    var (i, t) := Changed(c, s, a);
    if a.Emit? {
      DeliveredEmit(c, s, a.i);
    } else if a.Take? {
      assert s.taken + [s.pipe[0]] + s.pipe[1..] == s.taken + s.pipe;
    } else if i < |s.tasks| {
      SameSent(c.outs, s.tasks, i, t);
    }
  }

  lemma DeliveredAfterClose<T>(c: Config<T>, s: State<T>, a: Action)
    requires Inv(c, s) && Enabled(c, s, a) && s.closed
    ensures Delivered(c, Apply(c, s, a))
  {
    CountZero(s.tasks, IN_FLIGHT);
    if a.Take? {
      assert s.taken + [s.pipe[0]] + s.pipe[1..] == s.taken + s.pipe;
    } else {
      SameSent(c.outs, s.tasks, a.i, Gone(s.tasks[a.i].sent, s.tasks[a.i].panicked));
    }
  }

  lemma Step<T>(c: Config<T>, s: State<T>, a: Action)
    requires Inv(c, s) && Enabled(c, s, a)
    ensures Inv(c, Apply(c, s, a))
  {
    ShapeStep(c, s, a);
    TallyStep(c, s, a);
    if s.closed {
      DeliveredAfterClose(c, s, a);
    } else {
      DeliveredStep(c, s, a);
    }
  }

  lemma {:induction false} PlayInv<T>(c: Config<T>, s: State<T>, actions: seq<Action>)
    requires Inv(c, s)
    ensures Inv(c, Play(c, s, actions))
    decreases |actions|
  {
    if actions != [] {
      if Enabled(c, s, actions[0]) {
        Step(c, s, actions[0]);
        PlayInv(c, Apply(c, s, actions[0]), actions[1..]);
      } else {
        PlayInv(c, s, actions[1..]);
      }
    }
  }

  predicate AllReturned<T>(s: State<T>) {
    forall i | 0 <= i < |s.tasks| :: s.tasks[i].Ended? || s.tasks[i].Gone?
  }

  /**
   * In every schedule: at most `workers` callbacks are in flight, nothing is sent on the
   * closed channel, it is closed only after every callback has ended, and what has come out
   * is the multiset of what the callbacks sent; only a panic cuts a callback's output short.
   */
  lemma PipelineSafety<T>(c: Config<T>, actions: seq<Action>)
    ensures var s := Play(c, Init(c), actions);
            && Fits(c.outs, s.tasks)
            && Count(s.tasks, IN_FLIGHT) <= c.workers && |s.pipe| <= c.workers
            && !s.sentOnClosed
            && (s.closed ==> AllReturned(s))
            && multiset(s.taken + s.pipe) == multiset(InOrder(c.outs, s.tasks))
            && (forall i | 0 <= i < |s.tasks| && (s.tasks[i].Ended? || s.tasks[i].Gone?) && !s.tasks[i].panicked ::
                  s.tasks[i].sent == |c.outs[i]|)
  {
    InitInv(c);
    PlayInv(c, Init(c), actions);
    var s := Play(c, Init(c), actions);
    CountZero(s.tasks, IN_FLIGHT);
    Fewer(s.tasks);
  }

  /** Wherever a schedule has come to: as long as a slot is free the next item gets its callback. */
  lemma WorkersAreUsed<T>(c: Config<T>, actions: seq<Action>)
    requires var s := Play(c, Init(c), actions); s.next < |c.outs| && Count(s.tasks, HOLDS_SLOT) < c.workers
    ensures var s := Play(c, Init(c), actions);
            Enabled(c, s, Spawn) && Apply(c, s, Spawn).tasks == s.tasks[s.next := Running(0)]
  {
    InitInv(c);
    PlayInv(c, Init(c), actions);
  }

  /**
   * Wherever a schedule has come to, a running callback may panic: it sends nothing more, its slot is
   * free again after its deferred calls, and the other callbacks and the channel do not notice.
   */
  lemma PanicIsContained<T>(c: Config<T>, actions: seq<Action>, i: nat)
    requires var s := Play(c, Init(c), actions); i < |s.tasks| && s.tasks[i].Running?
    ensures var s := Play(c, Init(c), actions);
            && Enabled(c, s, Panic(i)) && Enabled(c, Apply(c, s, Panic(i)), Free(i))
            && var t := Apply(c, Apply(c, s, Panic(i)), Free(i));
            && t == s.(tasks := s.tasks[i := Gone(s.tasks[i].sent, true)], wg := s.wg - 1, slots := t.slots)
            && Count(t.tasks, HOLDS_SLOT) == Count(s.tasks, HOLDS_SLOT) - 1 == t.slots
  {
    InitInv(c);
    PlayInv(c, Init(c), actions);
    var s := Play(c, Init(c), actions);
    Counts(c, s, i, Gone(s.tasks[i].sent, true));
    assert s.tasks[i := Ended(s.tasks[i].sent, true)][i := Gone(s.tasks[i].sent, true)] ==
           s.tasks[i := Gone(s.tasks[i].sent, true)];
  }

  lemma {:induction false} Fewer(tasks: seq<Task>)
    ensures Count(tasks, IN_FLIGHT) <= Count(tasks, HOLDS_SLOT)
  {
    if tasks != [] {
      Fewer(tasks[1..]);
    }
  }

  /** First in, first out: what has been sent keeps its place, and comes out in that order. */
  lemma {:induction false} PipeOrder<T>(c: Config<T>, s: State<T>, actions: seq<Action>)
    ensures var t := Play(c, s, actions); s.taken + s.pipe <= t.taken + t.pipe && s.taken <= t.taken
    decreases |actions|
  {
    if actions != [] {
      if Enabled(c, s, actions[0]) {
        PipeOrderStep(c, s, actions[0]);
      }
      PipeOrder(c, if Enabled(c, s, actions[0]) then Apply(c, s, actions[0]) else s, actions[1..]);
    }
  }

  lemma PipeOrderStep<T>(c: Config<T>, s: State<T>, a: Action)
    requires Enabled(c, s, a)
    ensures var t := Apply(c, s, a); s.taken + s.pipe <= t.taken + t.pipe && s.taken <= t.taken
  {
    if a.Take? {
      assert s.taken + [s.pipe[0]] + s.pipe[1..] == s.taken + s.pipe;
    } else if a.Emit? && !s.closed {
      AtTheEnd(s.taken, s.pipe, c.outs[a.i][s.tasks[a.i].sent]);
    }
  }

  function Flatten<T>(outs: seq<seq<T>>): seq<T> {
    if outs == [] then [] else outs[0] + Flatten(outs[1..])
  }

  lemma {:induction false} AllSent<T>(outs: seq<seq<T>>, tasks: seq<Task>)
    requires Fits(outs, tasks) && forall i | 0 <= i < |tasks| :: Sent(tasks[i]) == |outs[i]|
    ensures InOrder(outs, tasks) == Flatten(outs)
  {
    if tasks != [] {
      AllSent(outs[1..], tasks[1..]);
    }
  }

  /** Without panics a drained, closed pipeline has delivered exactly the flat map of its source. */
  lemma PipelineComplete<T>(c: Config<T>, actions: seq<Action>)
    requires var s := Play(c, Init(c), actions);
             && s.closed && s.pipe == []
             && forall i | 0 <= i < |s.tasks| && (s.tasks[i].Ended? || s.tasks[i].Gone?) :: !s.tasks[i].panicked
    ensures var s := Play(c, Init(c), actions);
            && multiset(s.taken) == multiset(Flatten(c.outs))
            && (c.workers == 1 ==> s.taken == Flatten(c.outs))
  {
    PipelineSafety(c, actions);
    var s := Play(c, Init(c), actions);
    AllSent(c.outs, s.tasks);
    assert s.taken + s.pipe == s.taken;
    if c.workers == 1 {
      SequentialOrder(c, actions);
    }
  }

  // ---- one worker ----

  ghost predicate InSequence<T>(c: Config<T>, s: State<T>) {
    Fits(c.outs, s.tasks) && s.taken + s.pipe == InOrder(c.outs, s.tasks)
  }

  predicate EarlierGone(s: State) {
    forall i | 0 <= i < |s.tasks| && i + 1 < s.next :: s.tasks[i].Gone?
  }

  lemma SequentialEmit<T>(c: Config<T>, s: State<T>, i: nat)
    requires c.workers == 1 && Inv(c, s) && InSequence(c, s) && EarlierGone(s) && Enabled(c, s, Emit(i)) && !s.closed
    ensures InSequence(c, Apply(c, s, Emit(i)))
  {
    CountZero(s.tasks, IN_FLIGHT);
    OneMoreFits(c.outs, s.tasks, i);
    OneMoreLast(c.outs, s.tasks, i);
    AtTheEnd(s.taken, s.pipe, c.outs[i][s.tasks[i].sent]);
  }

  lemma SequentialOther<T>(c: Config<T>, s: State<T>, a: Action)
    requires c.workers == 1 && Inv(c, s) && InSequence(c, s) && Enabled(c, s, a) && (a.Emit? ==> s.closed)
    ensures InSequence(c, Apply(c, s, a))
  {
    var (i, t) := Changed(c, s, a);
    CountZero(s.tasks, IN_FLIGHT);
    if a.Take? {
      assert s.taken + [s.pipe[0]] + s.pipe[1..] == s.taken + s.pipe;
    } else if i < |s.tasks| {
      SameSent(c.outs, s.tasks, i, t);
    }
  }

  lemma EarlierStayGone<T>(c: Config<T>, s: State<T>, a: Action)
    requires c.workers == 1 && Inv(c, s) && EarlierGone(s) && Enabled(c, s, a)
    ensures EarlierGone(Apply(c, s, a))
  {
    CountZero(s.tasks, HOLDS_SLOT);
    CountZero(s.tasks, IN_FLIGHT);
  }

  lemma SequentialStep<T>(c: Config<T>, s: State<T>, a: Action)
    requires c.workers == 1 && Inv(c, s) && InSequence(c, s) && EarlierGone(s) && Enabled(c, s, a)
    ensures InSequence(c, Apply(c, s, a)) && EarlierGone(Apply(c, s, a))
  {
    EarlierStayGone(c, s, a);
    if a.Emit? && !s.closed {
      SequentialEmit(c, s, a.i);
    } else {
      SequentialOther(c, s, a);
    }
  }

  lemma {:induction false} SequentialPlay<T>(c: Config<T>, s: State<T>, actions: seq<Action>)
    requires c.workers == 1 && Inv(c, s) && InSequence(c, s) && EarlierGone(s)
    ensures InSequence(c, Play(c, s, actions))
    decreases |actions|
  {
    if actions != [] {
      if Enabled(c, s, actions[0]) {
        Step(c, s, actions[0]);
        SequentialStep(c, s, actions[0]);
        SequentialPlay(c, Apply(c, s, actions[0]), actions[1..]);
      } else {
        SequentialPlay(c, s, actions[1..]);
      }
    }
  }

  /** A sequential stream keeps the order of its source, also past a callback that panicked. */
  lemma SequentialOrder<T>(c: Config<T>, actions: seq<Action>)
    requires c.workers == 1
    ensures var s := Play(c, Init(c), actions);
            Fits(c.outs, s.tasks) && s.taken + s.pipe == InOrder(c.outs, s.tasks)
  {
    InitInv(c);
    NothingSent(c.outs, Init(c).tasks);
    SequentialPlay(c, Init(c), actions);
  }

  // ---- it ends ----

  function TaskLeft<T>(out: seq<T>, t: Task): int {
    match t
    case Idle => 2 * |out| + 3
    case Running(sent) => 2 * (|out| - sent) + 2
    case Ended(_, _) => 1
    case Gone(_, _) => 0
  }

  function TasksLeft<T>(outs: seq<seq<T>>, tasks: seq<Task>): int
    requires |outs| == |tasks|
  {
    if tasks == [] then 0 else TaskLeft(outs[0], tasks[0]) + TasksLeft(outs[1..], tasks[1..])
  }

  lemma {:induction false} TasksLeftUpdate<T>(outs: seq<seq<T>>, tasks: seq<Task>, i: nat, t: Task)
    requires |outs| == |tasks| && i < |tasks|
    ensures TasksLeft(outs, tasks[i := t]) ==
            TasksLeft(outs, tasks) - TaskLeft(outs[i], tasks[i]) + TaskLeft(outs[i], t)
  {
    if i == 0 {
      assert tasks[0 := t][1..] == tasks[1..];
    } else {
      assert tasks[i := t][1..] == tasks[1..][i - 1 := t];
      TasksLeftUpdate(outs[1..], tasks[1..], i - 1, t);
    }
  }

  lemma {:induction false} TasksLeftNat<T>(outs: seq<seq<T>>, tasks: seq<Task>)
    requires Fits(outs, tasks)
    ensures TasksLeft(outs, tasks) >= 0
  {
    if tasks != [] {
      TasksLeftNat(outs[1..], tasks[1..]);
    }
  }

  function Left<T>(c: Config<T>, s: State<T>): int
    requires |c.outs| == |s.tasks|
  {
    TasksLeft(c.outs, s.tasks) + |s.pipe| + if s.closed then 0 else 1
  }

  /** Nothing is left to do: closed, drained, and every slot given back. */
  predicate Done(s: State) {
    s.closed && s.pipe == [] && forall i | 0 <= i < |s.tasks| :: s.tasks[i].Gone?
  }

  /** While the consumer keeps taking, a schedule can go on until it is done, and it cannot go on for ever. */
  lemma PipelineEnds<T>(c: Config<T>, s: State<T>)
    requires Inv(c, s) && c.workers > 0
    ensures !Done(s) ==> exists a: Action :: !a.Panic? && Enabled(c, s, a)
    ensures forall a | Enabled(c, s, a) :: 0 <= Left(c, Apply(c, s, a)) < Left(c, s)
  {
    CountZero(s.tasks, HOLDS_SLOT);
    CountZero(s.tasks, IN_FLIGHT);
    if !Done(s) {
      if s.pipe != [] {
        assert Enabled(c, s, Take);
      } else if i :| 0 <= i < |s.tasks| && s.tasks[i].Running? {
        assert Enabled(c, s, Emit(i)) || Enabled(c, s, Return(i));
      } else if i :| 0 <= i < |s.tasks| && s.tasks[i].Ended? {
        assert Enabled(c, s, Free(i));
      } else {
        assert Enabled(c, s, Spawn) || Enabled(c, s, Close);
      }
    }
    forall a | Enabled(c, s, a) ensures 0 <= Left(c, Apply(c, s, a)) < Left(c, s) {
      StepUsesUp(c, s, a);
    }
  }

  lemma StepUsesUp<T>(c: Config<T>, s: State<T>, a: Action)
    requires Inv(c, s) && Enabled(c, s, a)
    ensures 0 <= Left(c, Apply(c, s, a)) < Left(c, s)
  {
    ShapeStep(c, s, a);
    TasksLeftNat(c.outs, Apply(c, s, a).tasks);
    CountZero(s.tasks, IN_FLIGHT);
    var (i, t) := Changed(c, s, a);
    if i < |s.tasks| {
      TasksLeftUpdate(c.outs, s.tasks, i, t);
    }
  }
}
