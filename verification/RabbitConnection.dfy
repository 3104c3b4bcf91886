/**
 * The connection state machine of rabbitmqx: the reconnect daemon, on-demand reconnects by
 * pushes, and Close, over the fields isReady, closed, conn and closeConnNotify. Every read
 * or write of a field and every dial is one step; a connection may drop at any time.
 */
module RabbitConnection {

  /**
   * Whose dials can fail, how many threads run tryReConnect, of which thread 0 is the daemon, and
   * AttemptTimes.
   */
  datatype Config = Config(daemonDialMayFail: bool, demandDialMayFail: bool, threads: nat, attempts: int)

  /**
   * Program points of tryReConnect. From Checking to Releasing the thread holds connMu. `seen` says
   * that the thread got past the `if` because it read isReady as true.
   */
  datatype Thread =
    | Idle
    | Top
    | SawNotReady
    | WantLock
    | Checking
    | Dialing
    | Dialed
    | Registered
    | Releasing(failed: bool)
    | Backoff
    | AfterIf(seen: bool)
    | Watching(notify: nat)
    | Notified(notify: nat)
    | Exited(connected: bool, seen: bool)

  /**
   * What a call has come across since it began: `failures` is its count of failed dials, which the
   * daemon does not keep; `sawConn` says that conn was set when it saw isReady.
   */
  datatype Call = Call(failures: nat, foundClosed: bool, sawConn: bool)

  const NEW_CALL := Call(0, false, false)

  datatype Closer = NotCalled | Marked | Unready | Signalled | Closing | Closed | Returned

  datatype Owner = Nobody | ThreadOwner(i: nat) | CloserOwner

  /**
   * Connections are numbered; `open` are the live ones, and a notify channel is closed, and
   * so can be received from, exactly while the connection it was registered on is not live.
   * `hasConn` is false when conn is nil after a failed dial.
   */
  datatype State = State(ready: bool, closed: bool, closeCh: bool, owner: Owner, hasConn: bool, conn: nat,
                         notify: nat, open: set<nat>, nextId: nat, threads: seq<Thread>, closer: Closer,
                         calls: seq<Call>)

  datatype Action =
    | Begin(i: nat) | ReadReady(i: nat) | ReadClosed(i: nat) | Acquire(i: nat) | Recheck(i: nat)
    | DialOk(i: nat) | DialFails(i: nat) | Register(i: nat) | SetReady(i: nat) | Release(i: nat)
    | GiveUp(i: nat) | Tick(i: nat) | Leave(i: nat) | Watch(i: nat) | SeeCloseCh(i: nat)
    | Notice(i: nat) | SetNotReady(i: nat)
    | Close
    | Drop(id: nat)

  function Init(c: Config): State {
    State(true, false, false, Nobody, true, 0, 0, {0}, 1, seq(c.threads, i => if i == 0 then Top else Idle), NotCalled,
          seq(c.threads, _ => NEW_CALL))
  }

  predicate At(s: State, i: nat, p: Thread) {
    i < |s.threads| && s.threads[i] == p
  }

  /** Steps of a thread, as opposed to those of Close and of the network. */
  predicate OfThread(a: Action) {
    !a.Close? && !a.Drop?
  }

  /** An on-demand call has used up its attempts. */
  predicate UsedUp(c: Config, s: State, i: nat) {
    0 < i < |s.calls| && s.calls[i].failures >= c.attempts
  }

  /** Whether a thread at point p can take a step. */
  predicate Allowed(c: Config, s: State, a: Action, p: Thread)
    requires OfThread(a)
  {
    match a
    case Begin(i) => i > 0 && (p.Idle? || p.Exited?)
    case ReadReady(_) => p.Top?
    case ReadClosed(_) => p.SawNotReady?
    case Acquire(_) => p.WantLock? && s.owner.Nobody?
    case Recheck(_) => p.Checking?
    case DialOk(_) => p.Dialing?
    case DialFails(i) => p.Dialing? && if i == 0 then c.daemonDialMayFail else c.demandDialMayFail
    case Register(_) => p.Dialed?
    case SetReady(_) => p.Registered?
    case Release(_) => p.Releasing?
    case GiveUp(i) => p.Backoff? && UsedUp(c, s, i)
    case Tick(i) => p.Backoff? && !UsedUp(c, s, i)
    case Leave(i) => i > 0 && p.AfterIf?
    case Watch(i) => i == 0 && p.AfterIf?
    case SeeCloseCh(i) => s.closeCh && ((p.Backoff? && !UsedUp(c, s, i)) || p.Watching?)
    case Notice(_) => p.Watching? && p.notify !in s.open
    case SetNotReady(_) => p.Notified?
  }

  predicate Enabled(c: Config, s: State, a: Action) {
    if OfThread(a) then a.i < |s.threads| && Allowed(c, s, a, s.threads[a.i])
    else match a
      case Close => !s.closer.Returned? && (s.closer.Signalled? ==> s.owner.Nobody?)
      case Drop(id) => id in s.open
  }

  /** Where the step takes its thread. */
  function NextThread(c: Config, s: State, a: Action, p: Thread): Thread
    requires OfThread(a) && Allowed(c, s, a, p)
  {
    match a
    case Begin(_) => Top
    case ReadReady(_) => if s.ready then AfterIf(true) else SawNotReady
    case ReadClosed(_) => if s.closed then AfterIf(false) else WantLock
    case Acquire(_) => Checking
    case Recheck(_) => if s.ready || s.closed then Releasing(false) else Dialing
    case DialOk(_) => Dialed
    case DialFails(_) => Releasing(true)
    case Register(_) => Registered
    case SetReady(_) => Releasing(false)
    case Release(_) => if p.failed then Backoff else Top
    case GiveUp(_) => Exited(false, false)
    case Tick(_) => AfterIf(false)
    case Leave(_) => Exited(true, p.seen)
    case Watch(_) => Watching(s.notify)
    case SeeCloseCh(_) => Exited(false, false)
    case Notice(_) => Notified(p.notify)
    case SetNotReady(_) => Top
  }

  /** What a step does to the fields that all threads share. */
  function Shared(s: State, a: Action): State {
    match a
    case Acquire(i) => s.(owner := ThreadOwner(i))
    case DialOk(_) => s.(hasConn := true, conn := s.nextId, open := s.open + {s.nextId}, nextId := s.nextId + 1)
    case DialFails(_) => s.(hasConn := false)
    case Register(_) => s.(notify := s.conn)
    case SetReady(_) => s.(ready := true)
    case Release(_) => s.(owner := Nobody)
    case SetNotReady(_) => s.(ready := false)
    case Close => CloseStep(s)
    case Drop(id) => s.(open := s.open - {id})
    case _ => s
  }

  /** What the acting thread's call comes across. */
  function NextCall(s: State, a: Action, call: Call): Call {
    match a
    case Begin(_) => NEW_CALL
    case ReadReady(_) => if s.ready then call.(sawConn := s.hasConn) else call
    case ReadClosed(_) => if s.closed then call.(foundClosed := true) else call
    case DialFails(i) => if i == 0 then call else call.(failures := call.failures + 1)
    case _ => call
  }

  function NextCalls(s: State, a: Action): seq<Call> {
    if OfThread(a) && a.i < |s.calls| then s.calls[a.i := NextCall(s, a, s.calls[a.i])] else s.calls
  }

  function NextThreads(c: Config, s: State, a: Action): seq<Thread>
    requires Enabled(c, s, a)
  {
    if OfThread(a) then s.threads[a.i := NextThread(c, s, a, s.threads[a.i])] else s.threads
  }

  function Apply(c: Config, s: State, a: Action): State
    requires Enabled(c, s, a)
  {
    Shared(s, a).(threads := NextThreads(c, s, a), calls := NextCalls(s, a))
  }

  function CloseStep(s: State): State {
    match s.closer
    case NotCalled => s.(closed := true, closer := Marked)
    case Marked => s.(ready := false, closer := Unready)
    case Unready => s.(closeCh := true, closer := Signalled)
    case Signalled => s.(owner := CloserOwner, closer := Closing)
    case Closing => s.(open := if s.hasConn then s.open - {s.conn} else s.open, closer := Closed)
    case Closed => s.(owner := Nobody, closer := Returned)
    case Returned => s
  }

  function Play(c: Config, s: State, actions: seq<Action>): State
    decreases |actions|
  {
    if actions == [] then s
    else Play(c, if Enabled(c, s, actions[0]) then Apply(c, s, actions[0]) else s, actions[1..])
  }

  // ---- the lock, and what holds whatever happens ----

  predicate HoldsLock(p: Thread) {
    p.Checking? || p.Dialing? || p.Dialed? || p.Registered? || p.Releasing?
  }

  predicate Connecting(p: Thread) {
    p.Dialing? || p.Dialed? || p.Registered?
  }

  /** Exactly the owner of connMu is at a program point that holds it. */
  predicate OwnerInv(s: State) {
    && (s.owner.ThreadOwner? ==> s.owner.i < |s.threads|)
    && forall i | 0 <= i < |s.threads| :: HoldsLock(s.threads[i]) <==> s.owner == ThreadOwner(i)
  }

  function Holder(s: State): Thread {
    if s.owner.ThreadOwner? && s.owner.i < |s.threads| then s.threads[s.owner.i] else Idle
  }

  predicate CloseInv(s: State) {
    && (s.owner.CloserOwner? <==> s.closer.Closing? || s.closer.Closed?)
    && (s.closed <==> !s.closer.NotCalled?)
    && (s.closer.Closing? || s.closer.Closed? || s.closer.Returned? ==> !Connecting(Holder(s)))
  }

  predicate LockInv(s: State) {
    OwnerInv(s) && CloseInv(s)
  }

  /** The acting thread holds the lock exactly when it owns it. */
  lemma ActingThread(s: State, a: Action)
    requires OwnerInv(s)
    ensures OfThread(a) && a.i < |s.threads| ==> (HoldsLock(s.threads[a.i]) <==> s.owner == ThreadOwner(a.i))
  {
  }

  /** The acting thread takes or gives back only its own lock. */
  lemma OwnLock(c: Config, s: State, a: Action)
    requires OwnerInv(s) && Enabled(c, s, a) && OfThread(a)
    ensures var t := Apply(c, s, a);
            && t.threads == s.threads[a.i := t.threads[a.i]]
            && (HoldsLock(t.threads[a.i]) <==> t.owner == ThreadOwner(a.i))
            && (t.owner == s.owner || (s.owner.Nobody? && t.owner == ThreadOwner(a.i))
                || (s.owner == ThreadOwner(a.i) && t.owner.Nobody?))
  {
    ActingThread(s, a);
  }

  lemma OwnerStep(c: Config, s: State, a: Action)
    requires OwnerInv(s) && CloseInv(s) && Enabled(c, s, a)
    ensures OwnerInv(Apply(c, s, a))
  {
    if OfThread(a) {
      OwnLock(c, s, a);
      OwnerKept(s, Apply(c, s, a), a.i);
    }
  }

  lemma OwnerKept(s: State, t: State, i: nat)
    requires OwnerInv(s) && i < |s.threads| == |t.threads|
    requires t.threads == s.threads[i := t.threads[i]]
    requires HoldsLock(t.threads[i]) <==> t.owner == ThreadOwner(i)
    requires t.owner == s.owner || (s.owner.Nobody? && t.owner == ThreadOwner(i))
             || (s.owner == ThreadOwner(i) && t.owner.Nobody?)
    ensures OwnerInv(t)
  {
  }

  lemma CloserStepInside(c: Config, s: State, a: Action)
    requires OwnerInv(s) && CloseInv(s) && Enabled(c, s, a) && OfThread(a)
    ensures CloseInv(Apply(c, s, a))
  {
    ActingThread(s, a);
  }

  lemma CloserStep(c: Config, s: State, a: Action)
    requires OwnerInv(s) && CloseInv(s) && Enabled(c, s, a)
    ensures CloseInv(Apply(c, s, a))
  {
    if OfThread(a) {
      CloserStepInside(c, s, a);
    }
  }

  lemma LockStep(c: Config, s: State, a: Action)
    requires LockInv(s) && Enabled(c, s, a)
    ensures LockInv(Apply(c, s, a))
  {
    OwnerStep(c, s, a);
    CloserStep(c, s, a);
  }

  /** In every run connMu has one owner, and Close and its marks keep step. */
  lemma {:induction false} LockPlay(c: Config, s: State, actions: seq<Action>)
    requires LockInv(s)
    ensures LockInv(Play(c, s, actions))
    decreases |actions|
  {
    if actions != [] {
      if Enabled(c, s, actions[0]) {
        LockStep(c, s, actions[0]);
        LockPlay(c, Apply(c, s, actions[0]), actions[1..]);
      } else {
        LockPlay(c, s, actions[1..]);
      }
    }
  }

  lemma NothingOpens(c: Config, s: State, a: Action)
    requires LockInv(s) && s.closer.Returned? && Enabled(c, s, a)
    ensures var t := Apply(c, s, a); t.open <= s.open && t.nextId == s.nextId && t.closer.Returned?
  {
    ActingThread(s, a);
  }

  lemma {:induction false} NothingOpensAgain(c: Config, s: State, actions: seq<Action>)
    requires LockInv(s) && s.closer.Returned?
    ensures Play(c, s, actions).open <= s.open && Play(c, s, actions).nextId == s.nextId
    decreases |actions|
  {
    if actions != [] {
      if Enabled(c, s, actions[0]) {
        LockStep(c, s, actions[0]);
        NothingOpens(c, s, actions[0]);
        NothingOpensAgain(c, Apply(c, s, actions[0]), actions[1..]);
      } else {
        NothingOpensAgain(c, s, actions[1..]);
      }
    }
  }

  /** After Close has returned no connection is ever opened again: in any run, however it goes on. */
  lemma NeverReopened(c: Config, before: seq<Action>, after: seq<Action>)
    requires Play(c, Init(c), before).closer.Returned?
    ensures var s := Play(c, Init(c), before); var t := Play(c, s, after);
            t.open <= s.open && t.nextId == s.nextId
  {
    LockPlay(c, Init(c), before);
    NothingOpensAgain(c, Play(c, Init(c), before), after);
  }

  // ---- readiness, whatever dials fail ----

  /** isReady is true only over a connection, and never while somebody connects. */
  predicate ReadyMeansConnected(s: State) {
    s.ready ==> s.hasConn && !Connecting(Holder(s))
  }

  /** Only the daemon watches a notify channel. */
  predicate WatchInv(s: State) {
    forall i | 0 < i < |s.threads| :: !s.threads[i].Watching? && !s.threads[i].Notified?
  }

  predicate DialedInv(s: State) {
    Holder(s).Dialed? || Holder(s).Registered? ==> s.hasConn
  }

  predicate BaseInv(s: State) {
    LockInv(s) && ReadyMeansConnected(s) && WatchInv(s) && DialedInv(s)
  }

  lemma BaseStep(c: Config, s: State, a: Action)
    requires BaseInv(s) && Enabled(c, s, a)
    ensures BaseInv(Apply(c, s, a))
  {
    LockStep(c, s, a);
    ReadyStep(c, s, a);
    WatchStep(c, s, a);
    DialedStep(c, s, a);
  }

  lemma WatchStep(c: Config, s: State, a: Action)
    requires WatchInv(s) && Enabled(c, s, a)
    ensures WatchInv(Apply(c, s, a))
  {
  }

  lemma ReadyStep(c: Config, s: State, a: Action)
    requires BaseInv(s) && Enabled(c, s, a)
    ensures ReadyMeansConnected(Apply(c, s, a))
  {
    ActingThread(s, a);
  }

  lemma DialedStep(c: Config, s: State, a: Action)
    requires BaseInv(s) && Enabled(c, s, a)
    ensures DialedInv(Apply(c, s, a))
  {
    ActingThread(s, a);
  }

  lemma {:induction false} BasePlay(c: Config, s: State, actions: seq<Action>)
    requires BaseInv(s)
    ensures BaseInv(Play(c, s, actions))
    decreases |actions|
  {
    if actions != [] {
      if Enabled(c, s, actions[0]) {
        BaseStep(c, s, actions[0]);
        BasePlay(c, Apply(c, s, actions[0]), actions[1..]);
      } else {
        BasePlay(c, s, actions[1..]);
      }
    }
  }

  // ---- what a call reports ----

  predicate Untroubled(call: Call) {
    call.failures == 0 && !call.foundClosed
  }

  /** What a call that got past the `if` has come across: one failed dial at most, which it does not repeat. */
  predicate Passed(c: Config, call: Call, seen: bool) {
    && (seen <==> Untroubled(call)) && (seen <==> call.sawConn)
    && call.failures <= 1 && (call.failures == 1 ==> c.attempts > 1)
  }

  /** What a call has come across by each of its program points. */
  predicate CallInv(c: Config, s: State, i: nat)
    requires i < |s.threads| == |s.calls|
  {
    var call := s.calls[i];
    && (call.foundClosed ==> s.closed)
    && (call.failures > 0 ==> c.demandDialMayFail)
    && match s.threads[i]
       case Releasing(failed) => call == Call(if failed then 1 else 0, false, false)
       case Backoff => call == Call(1, false, false)
       case AfterIf(seen) => Passed(c, call, seen)
       case Exited(connected, seen) =>
         if connected then Passed(c, call, seen) else call.failures == 1 && (c.attempts <= 1 || s.closeCh)
       case Watching(_) => true
       case Notified(_) => true
       case _ => call == NEW_CALL
  }

  predicate CallsInv(c: Config, s: State) {
    |s.calls| == |s.threads| && forall i | 0 < i < |s.threads| :: CallInv(c, s, i)
  }

  /** The thread that takes a step; the daemon's number for Close and for the network. */
  function Actor(a: Action): nat {
    if OfThread(a) then a.i else 0
  }

  lemma OwnCallStep(c: Config, s: State, a: Action)
    requires CallsInv(c, s) && WatchInv(s) && ReadyMeansConnected(s) && Enabled(c, s, a) && Actor(a) > 0
    ensures CallInv(c, Apply(c, s, a), Actor(a))
  {
    assert CallInv(c, s, Actor(a));
  }

  predicate Untouched(s: State, t: State, i: nat) {
    && i < |s.threads| == |t.threads| && |s.calls| == |t.calls| == |s.threads|
    && t.threads[i] == s.threads[i] && t.calls[i] == s.calls[i]
    && (s.closed ==> t.closed) && (s.closeCh ==> t.closeCh)
  }

  lemma SameThread(c: Config, s: State, a: Action, i: nat)
    requires Enabled(c, s, a) && i < |s.threads| && (OfThread(a) ==> a.i != i)
    ensures var t := Apply(c, s, a); |t.threads| == |s.threads| && t.threads[i] == s.threads[i]
  {
  }

  lemma OthersUntouched(c: Config, s: State, a: Action, i: nat)
    requires Enabled(c, s, a) && 0 < i < |s.threads| == |s.calls| && i != Actor(a)
    ensures Untouched(s, Apply(c, s, a), i)
  {
    SameThread(c, s, a, i);
  }

  lemma SameCall(c: Config, s: State, t: State, i: nat)
    requires Untouched(s, t, i) && CallInv(c, s, i)
    ensures CallInv(c, t, i)
  {
  }

  lemma OtherCallStep(c: Config, s: State, a: Action, i: nat)
    requires CallsInv(c, s) && Enabled(c, s, a) && 0 < i < |s.threads| && i != Actor(a)
    ensures CallInv(c, Apply(c, s, a), i)
  {
    OthersUntouched(c, s, a, i);
    SameCall(c, s, Apply(c, s, a), i);
  }

  lemma CallsStep(c: Config, s: State, a: Action)
    requires CallsInv(c, s) && WatchInv(s) && ReadyMeansConnected(s) && Enabled(c, s, a)
    ensures CallsInv(c, Apply(c, s, a))
  {
    var t := Apply(c, s, a);
    forall i | 0 < i < |t.threads| ensures CallInv(c, t, i) {
      if i == Actor(a) { OwnCallStep(c, s, a); } else { OtherCallStep(c, s, a, i); }
    }
  }

  lemma {:induction false} CallsPlay(c: Config, s: State, actions: seq<Action>)
    requires CallsInv(c, s) && BaseInv(s)
    ensures CallsInv(c, Play(c, s, actions))
    decreases |actions|
  {
    if actions != [] {
      if Enabled(c, s, actions[0]) {
        BaseStep(c, s, actions[0]);
        CallsStep(c, s, actions[0]);
        CallsPlay(c, Apply(c, s, actions[0]), actions[1..]);
      } else {
        CallsPlay(c, s, actions[1..]);
      }
    }
  }

  /**
   * In every run a call that reports a connection saw isReady, with a connection in place, exactly
   * if none of its dials failed and it did not find the operator closed.
   */
  lemma ConnectedReport(c: Config, actions: seq<Action>, i: nat)
    requires var s := Play(c, Init(c), actions); 0 < i < |s.threads| && s.threads[i].Exited? && s.threads[i].connected
    ensures var s := Play(c, Init(c), actions);
            && |s.calls| == |s.threads|
            && (s.threads[i].seen <==> Untroubled(s.calls[i]))
            && (s.calls[i].sawConn <==> Untroubled(s.calls[i]))
            && (s.calls[i].foundClosed ==> s.closed)
  {
    BasePlay(c, Init(c), actions);
    CallsPlay(c, Init(c), actions);
    assert CallInv(c, Play(c, Init(c), actions), i);
  }

  /**
   * In every run a call has one failed dial at most; as long as closeCh is open, a call whose dial
   * failed reports a connection exactly if AttemptTimes is more than one.
   */
  lemma FailedDialReport(c: Config, actions: seq<Action>, i: nat)
    requires var s := Play(c, Init(c), actions); 0 < i < |s.threads| && s.threads[i].Exited?
    ensures var s := Play(c, Init(c), actions);
            && |s.calls| == |s.threads| && s.calls[i].failures <= 1
            && (!s.closeCh ==> (s.threads[i].connected <==> s.calls[i].failures == 0 || c.attempts > 1))
  {
    BasePlay(c, Init(c), actions);
    CallsPlay(c, Init(c), actions);
    assert CallInv(c, Play(c, Init(c), actions), i);
  }

  // ---- how a thread ends ----

  /** The daemon runs until closeCh is closed. */
  predicate DaemonStays(s: State) {
    s.threads != [] && s.threads[0].Exited? ==> s.closeCh
  }

  lemma {:induction false} DaemonPlay(c: Config, s: State, actions: seq<Action>)
    requires DaemonStays(s)
    ensures DaemonStays(Play(c, s, actions))
    decreases |actions|
  {
    if actions != [] {
      if Enabled(c, s, actions[0]) {
        DaemonStayStep(c, s, actions[0]);
        DaemonPlay(c, Apply(c, s, actions[0]), actions[1..]);
      } else {
        DaemonPlay(c, s, actions[1..]);
      }
    }
  }

  lemma DaemonStayStep(c: Config, s: State, a: Action)
    requires DaemonStays(s) && Enabled(c, s, a)
    ensures DaemonStays(Apply(c, s, a))
  {
  }

  /** Close has marked the operator closed and not ready before it closes closeCh. */
  predicate Signalling(p: Closer) {
    !p.NotCalled? && !p.Marked? && !p.Unready?
  }

  /** In every run, whatever connections drop and whatever dials fail, the daemon ends only after Close. */
  lemma DaemonEndsOnlyAfterClose(c: Config, actions: seq<Action>)
    requires var s := Play(c, Init(c), actions); s.threads != [] && s.threads[0].Exited?
    ensures var s := Play(c, Init(c), actions); s.closeCh && s.closed && Signalling(s.closer)
  {
    DaemonPlay(c, Init(c), actions);
    ChannelPlay(c, Init(c), actions);
  }

  lemma {:induction false} ChannelPlay(c: Config, s: State, actions: seq<Action>)
    requires (s.closeCh ==> Signalling(s.closer)) && (!s.closer.NotCalled? ==> s.closed)
    ensures var t := Play(c, s, actions); (t.closeCh ==> Signalling(t.closer)) && (!t.closer.NotCalled? ==> t.closed)
    decreases |actions|
  {
    if actions != [] {
      ChannelPlay(c, if Enabled(c, s, actions[0]) then Apply(c, s, actions[0]) else s, actions[1..]);
    }
  }

  /** Wherever a run has come to: once closeCh is closed, the daemon and every waiting call can end, with an error. */
  lemma WaitsEndOnClose(c: Config, before: seq<Action>, i: nat)
    requires var s := Play(c, Init(c), before);
             && s.closeCh && i < |s.threads|
             && (s.threads[i].Watching? || (s.threads[i].Backoff? && (i == 0 || c.attempts > 1)))
    ensures var s := Play(c, Init(c), before);
            Enabled(c, s, SeeCloseCh(i)) &&
            Apply(c, s, SeeCloseCh(i)).threads == s.threads[i := Exited(false, false)]
  {
    BasePlay(c, Init(c), before);
    CallsPlay(c, Init(c), before);
    if i > 0 {
      assert CallInv(c, Play(c, Init(c), before), i);
    }
  }

  /** Wherever a run has come to: a call whose dial failed returns the error if AttemptTimes is one, and else waits. */
  lemma CallGivesUp(c: Config, before: seq<Action>, i: nat)
    requires var s := Play(c, Init(c), before); 0 < i < |s.threads| && s.threads[i].Backoff?
    ensures var s := Play(c, Init(c), before);
            if c.attempts <= 1 then
              && Enabled(c, s, GiveUp(i)) && !Enabled(c, s, Tick(i)) && !Enabled(c, s, SeeCloseCh(i))
              && Apply(c, s, GiveUp(i)).threads == s.threads[i := Exited(false, false)]
            else
              !Enabled(c, s, GiveUp(i)) && Enabled(c, s, Tick(i))
  {
    BasePlay(c, Init(c), before);
    CallsPlay(c, Init(c), before);
    assert CallInv(c, Play(c, Init(c), before), i);
  }

  // ---- at most one live connection ----

  /** No dial while a connection is live, never two live connections, none left when Close has returned. */
  predicate Sound(s: State) {
    && |s.open| <= 1
    && (forall i | 0 <= i < |s.threads| && s.threads[i].Dialing? :: s.open == {})
    && (s.closer.Returned? ==> s.open == {})
  }

  /** The daemon clears isReady because of a connection that is no longer the registered one. */
  predicate Stale(s: State, a: Action) {
    a.SetNotReady? && a.i < |s.threads| && s.threads[a.i].Notified? && !s.closed && s.threads[a.i].notify != s.notify
  }

  /** Until Close, isReady is only ever cleared for the current closeConnNotify. */
  predicate Current(c: Config, s: State, actions: seq<Action>)
    decreases |actions|
  {
    actions == [] ||
    if !Enabled(c, s, actions[0]) then Current(c, s, actions[1..])
    else !Stale(s, actions[0]) && Current(c, Apply(c, s, actions[0]), actions[1..])
  }

  /** Which connection the fields talk about. */
  predicate FieldInv(s: State) {
    && s.conn < s.nextId && s.notify < s.nextId
    && s.open <= (if s.hasConn then {s.conn} else {})
    && var h := Holder(s);
    && (h.Registered? ==> s.notify == s.conn)
    && (h.Dialing? ==> s.open == {})
    && (s.closer.Closed? || s.closer.Returned? ==> s.open == {})
  }

  /** A notify channel that was received from belongs to a connection that is gone for good. */
  predicate NoticeInv(s: State) {
    forall i | 0 <= i < |s.threads| :: Noticed(s, i)
  }

  /** Until Close marks the operator, isReady tells whether a connection may be live. */
  predicate LiveInv(s: State) {
    !s.closed ==>
      && (!s.ready ==> s.open == {} || Holder(s).Dialed? || Holder(s).Registered?)
      && (s.ready ==> s.notify == s.conn)
  }

  predicate Inv(s: State) {
    BaseInv(s) && FieldInv(s) && NoticeInv(s) && LiveInv(s)
  }

  lemma FieldStepOutside(c: Config, s: State, a: Action)
    requires Inv(s) && Enabled(c, s, a) && !OfThread(a)
    ensures FieldInv(Apply(c, s, a))
  {
  }

  lemma FieldStepInside(c: Config, s: State, a: Action)
    requires Inv(s) && Enabled(c, s, a) && OfThread(a)
    ensures FieldInv(Apply(c, s, a))
  {
    ActingThread(s, a);
  }

  predicate Noticed(s: State, i: nat)
    requires i < |s.threads|
  {
    && (s.threads[i].Watching? ==> s.threads[i].notify < s.nextId)
    && (s.threads[i].Notified? ==> s.threads[i].notify < s.nextId && s.threads[i].notify !in s.open)
  }

  lemma OwnNotice(c: Config, s: State, a: Action)
    requires FieldInv(s) && NoticeInv(s) && Enabled(c, s, a) && OfThread(a)
    ensures Noticed(Apply(c, s, a), a.i)
  {
    assert Noticed(s, a.i);
  }

  lemma IdsGrow(s: State, a: Action)
    ensures var t := Shared(s, a); s.nextId <= t.nextId && t.open <= s.open + {s.nextId}
  {
  }

  lemma OtherNotice(c: Config, s: State, a: Action, i: nat)
    requires NoticeInv(s) && Enabled(c, s, a) && i < |s.threads| && (OfThread(a) ==> a.i != i)
    ensures i < |Apply(c, s, a).threads| && Noticed(Apply(c, s, a), i)
  {
    assert Noticed(s, i);
    IdsGrow(s, a);
    SameThread(c, s, a, i);
  }

  lemma NoticeStep(c: Config, s: State, a: Action)
    requires FieldInv(s) && NoticeInv(s) && Enabled(c, s, a)
    ensures NoticeInv(Apply(c, s, a))
  {
    var t := Apply(c, s, a);
    forall i | 0 <= i < |t.threads| ensures Noticed(t, i) {
      if OfThread(a) ==> a.i != i { OtherNotice(c, s, a, i); } else { OwnNotice(c, s, a); }
    }
  }

  lemma LiveStepOutside(c: Config, s: State, a: Action)
    requires Inv(s) && Enabled(c, s, a) && !OfThread(a)
    ensures LiveInv(Apply(c, s, a))
  {
  }

  lemma LiveStepInside(c: Config, s: State, a: Action)
    requires Inv(s) && Enabled(c, s, a) && OfThread(a) && !Stale(s, a)
    ensures LiveInv(Apply(c, s, a))
  {
    ActingThread(s, a);
    assert a.SetNotReady? ==> Noticed(s, a.i);
  }

  lemma Step(c: Config, s: State, a: Action)
    requires Inv(s) && Enabled(c, s, a) && !Stale(s, a)
    ensures Inv(Apply(c, s, a))
  {
    BaseStep(c, s, a);
    NoticeStep(c, s, a);
    if OfThread(a) {
      FieldStepInside(c, s, a);
      LiveStepInside(c, s, a);
    } else {
      FieldStepOutside(c, s, a);
      LiveStepOutside(c, s, a);
    }
  }

  lemma {:induction false} PlayInv(c: Config, s: State, actions: seq<Action>)
    requires Inv(s) && Current(c, s, actions)
    ensures Inv(Play(c, s, actions))
    decreases |actions|
  {
    if actions != [] {
      if Enabled(c, s, actions[0]) {
        Step(c, s, actions[0]);
        PlayInv(c, Apply(c, s, actions[0]), actions[1..]);
      } else {
        PlayInv(c, s, actions[1..]);
      }
    }
  }

  /** Whatever dials fail and however many threads reconnect: a run without a stale notification is sound. */
  lemma ConnectionSafety(c: Config, actions: seq<Action>)
    requires Current(c, Init(c), actions)
    ensures Sound(Play(c, Init(c), actions))
  {
    PlayInv(c, Init(c), actions);
    var s := Play(c, Init(c), actions);
    AtMostOne(s.open, s.conn);
    forall i | 0 <= i < |s.threads| && s.threads[i].Dialing? ensures s.open == {} {
      assert HoldsLock(s.threads[i]) <==> s.owner == ThreadOwner(i);
    }
  }

  lemma AtMostOne(open: set<nat>, id: nat)
    requires open <= {id}
    ensures |open| <= 1
  {
    if open != {} {
      assert open == {id};
    }
  }

  // ---- who can be stale ----

  /** The daemon's own dials never fail, or nobody else dials. */
  predicate Safe(c: Config) {
    !c.daemonDialMayFail || c.threads == 1
  }

  /** Until Close, a daemon on its way to its select or in it has the registered notify channel. */
  predicate DaemonInv(c: Config, s: State) {
    && |s.threads| == c.threads
    && (s.threads != [] && !s.closed ==>
          var p := s.threads[0];
          && (p.AfterIf? || p.Watching? || p.Notified? ==> s.ready || c.threads == 1)
          && (p.Watching? || p.Notified? ==> p.notify == s.notify)
          && (p.Backoff? || p == Releasing(true) ==> c.daemonDialMayFail))
  }

  lemma DaemonStep(c: Config, s: State, a: Action)
    requires Safe(c) && BaseInv(s) && DaemonInv(c, s) && Enabled(c, s, a)
    ensures DaemonInv(c, Apply(c, s, a))
  {
    ActingThread(s, a);
  }

  lemma {:induction false} CurrentByConfig(c: Config, s: State, actions: seq<Action>)
    requires Safe(c) && BaseInv(s) && DaemonInv(c, s)
    ensures Current(c, s, actions)
    decreases |actions|
  {
    if actions != [] {
      if Enabled(c, s, actions[0]) {
        BaseStep(c, s, actions[0]);
        DaemonStep(c, s, actions[0]);
        CurrentByConfig(c, Apply(c, s, actions[0]), actions[1..]);
      } else {
        CurrentByConfig(c, s, actions[1..]);
      }
    }
  }

  // ---- runs, action by action ----

  lemma {:induction false} PlaySnoc(c: Config, s: State, actions: seq<Action>, a: Action)
    ensures Play(c, s, actions + [a]) ==
            var t := Play(c, s, actions); if Enabled(c, t, a) then Apply(c, t, a) else t
    decreases |actions|
  {
    if actions == [] {
      assert [a][1..] == [];
    } else {
      assert (actions + [a])[1..] == actions[1..] + [a];
      PlaySnoc(c, if Enabled(c, s, actions[0]) then Apply(c, s, actions[0]) else s, actions[1..], a);
    }
  }

  lemma Then(c: Config, s: State, actions: seq<Action>, t: State, a: Action) returns (actions': seq<Action>, t': State)
    requires Play(c, s, actions) == t && Enabled(c, t, a)
    ensures Play(c, s, actions') == t' && t' == Apply(c, t, a)
  {
    PlaySnoc(c, s, actions, a);
    actions', t' := actions + [a], Apply(c, t, a);
  }

  function LockRank(p: Thread): nat {
    match p
    case Checking => 5
    case Dialing => 4
    case Dialed => 3
    case Registered => 2
    case Releasing(_) => 1
    case _ => 0
  }

  /** What the owner of connMu does next if its dial goes well. */
  function NextUnderLock(j: nat, p: Thread): Action {
    match p
    case Checking => Recheck(j)
    case Dialing => DialOk(j)
    case Dialed => Register(j)
    case Registered => SetReady(j)
    case _ => Release(j)
  }

  /** The owner of connMu can always get through to its Unlock. */
  lemma FreeLock(c: Config, s: State, actions: seq<Action>, t: State) returns (actions': seq<Action>, t': State)
    requires Play(c, s, actions) == t && BaseInv(t) && !t.closed
    ensures Play(c, s, actions') == t' && t'.owner.Nobody? && !t'.closed && |t'.threads| == |t.threads|
    ensures forall i | 0 <= i < |t.threads| && !HoldsLock(t.threads[i]) :: t'.threads[i] == t.threads[i]
    ensures t.ready ==> t'.ready && t'.open == t.open && t'.notify == t.notify
    decreases LockRank(Holder(t))
  {
    if t.owner.Nobody? {
      actions', t' := actions, t;
    } else {
      var a := NextUnderLock(t.owner.i, Holder(t));
      StepUnderLock(c, t);
      var actions1, t1 := Then(c, s, actions, t, a);
      BaseStep(c, t, a);
      actions', t' := FreeLock(c, s, actions1, t1);
    }
  }

  lemma StepUnderLock(c: Config, t: State)
    requires BaseInv(t) && !t.closed && !t.owner.Nobody?
    ensures t.owner.ThreadOwner? && HoldsLock(Holder(t))
    ensures var a := NextUnderLock(t.owner.i, Holder(t));
            && Enabled(c, t, a)
            && var t' := Apply(c, t, a);
            && LockRank(Holder(t')) < LockRank(Holder(t))
            && !t'.closed && t'.threads == t.threads[t.owner.i := t'.threads[t.owner.i]]
            && (t.ready ==> t'.ready && t'.open == t.open && t'.notify == t.notify)
  {
    assert t.owner.ThreadOwner?;
    assert HoldsLock(t.threads[t.owner.i]);
  }

  /** Thread i finds the operator unready and starts to dial under the lock. */
  lemma StartDialing(c: Config, s: State, actions: seq<Action>, t: State, i: nat)
    returns (actions': seq<Action>, t': State)
    requires Play(c, s, actions) == t && At(t, i, Top)
    requires !t.ready && !t.closed && t.owner.Nobody?
    ensures Play(c, s, actions') == t'
    ensures t' == t.(threads := t.threads[i := Dialing], owner := ThreadOwner(i))
  {
    actions', t' := Then(c, s, actions, t, ReadReady(i));
    actions', t' := Then(c, s, actions', t', ReadClosed(i));
    actions', t' := Then(c, s, actions', t', Acquire(i));
    actions', t' := Then(c, s, actions', t', Recheck(i));
    assert t'.calls == t.calls && t'.threads == t.threads[i := Dialing];
  }

  /**
   * Conversely: wherever a run has come to before Close, clearing isReady over a live, ready
   * connection can be followed by a dial beside it.
   */
  lemma StaleNoticeBreaks(c: Config, before: seq<Action>, i: nat) returns (after: seq<Action>)
    requires var s := Play(c, Init(c), before);
             Enabled(c, s, SetNotReady(i)) && !s.closed && s.ready && s.open != {}
    ensures !Sound(Play(c, Play(c, Init(c), before), after))
  {
    var s := Play(c, Init(c), before);
    BasePlay(c, Init(c), before);
    var t;
    after, t := FreeLock(c, s, [], s);
    after, t := Then(c, s, after, t, SetNotReady(i));
    after, t := StartDialing(c, s, after, t, i);
    assert t.threads[i].Dialing? && t.open == s.open;
  }

  /** One full, successful reconnect by thread i, from its loop top back to it. */
  lemma Reconnect(c: Config, s: State, actions: seq<Action>, t: State, i: nat)
    returns (actions': seq<Action>, t': State)
    requires Play(c, s, actions) == t && At(t, i, Top)
    requires !t.ready && !t.closed && t.owner.Nobody?
    ensures Play(c, s, actions') == t'
    ensures t' == t.(ready := true, hasConn := true, conn := t.nextId, notify := t.nextId,
                     open := t.open + {t.nextId}, nextId := t.nextId + 1)
  {
    actions', t' := StartDialing(c, s, actions, t, i);
    actions', t' := Then(c, s, actions', t', DialOk(i));
    actions', t' := Then(c, s, actions', t', Register(i));
    actions', t' := Then(c, s, actions', t', SetReady(i));
    actions', t' := Then(c, s, actions', t', Release(i));
    assert t'.calls == t.calls && t'.threads == t.threads;
  }

  /**
   * Wherever a run has come to, as long as the operator is not closed: when the connection that the
   * daemon watches is lost, the daemon can replace it and watch the new one.
   */
  lemma DaemonReconnects(c: Config, before: seq<Action>) returns (after: seq<Action>, t: State)
    requires var s := Play(c, Init(c), before); !s.closed && s.threads != [] && s.threads[0].Watching?
    ensures Play(c, Play(c, Init(c), before), after) == t
    ensures !t.closed && t.ready && t.hasConn && t.conn in t.open && t.notify == t.conn
    ensures At(t, 0, Watching(t.conn))
  {
    var s := Play(c, Init(c), before);
    BasePlay(c, Init(c), before);
    after, t := FreeLock(c, s, [], s);
    after, t := LossIsNoticed(c, s, after, t);
    after, t := Reconnect(c, s, after, t, 0);
    after, t := WatchBegins(c, s, after, t);
  }

  lemma LossIsNoticed(c: Config, s: State, actions: seq<Action>, t: State) returns (actions': seq<Action>, t': State)
    requires Play(c, s, actions) == t && !t.closed && t.owner.Nobody? && t.threads != [] && t.threads[0].Watching?
    ensures Play(c, s, actions') == t' && !t'.closed && t'.owner.Nobody? && !t'.ready && At(t', 0, Top)
  {
    actions', t' := actions, t;
    var n := t.threads[0].notify;
    if n in t.open {
      actions', t' := Then(c, s, actions', t', Drop(n));
    }
    actions', t' := Then(c, s, actions', t', Notice(0));
    actions', t' := Then(c, s, actions', t', SetNotReady(0));
  }

  /** A connection that is lost before isReady is set is not missed: isReady is set, and the daemon notices the loss. */
  lemma EarlyLossIsNoticed(c: Config, before: seq<Action>) returns (after: seq<Action>, t: State)
    requires var s := Play(c, Init(c), before);
             !s.closed && s.threads != [] && s.threads[0].Registered? && s.notify !in s.open
    ensures var s := Play(c, Init(c), before);
            Enabled(c, s, SetReady(0)) && Apply(c, s, SetReady(0)).ready && Play(c, s, after) == t
    ensures !t.ready && !t.closed && t.owner.Nobody? && At(t, 0, Top)
  {
    var s := Play(c, Init(c), before);
    BasePlay(c, Init(c), before);
    after, t := Then(c, s, [], s, SetReady(0));
    assert t.owner == ThreadOwner(0);
    after, t := Then(c, s, after, t, Release(0));
    after, t := WatchBegins(c, s, after, t);
    after, t := LossIsNoticed(c, s, after, t);
  }

  lemma WatchBegins(c: Config, s: State, actions: seq<Action>, t: State) returns (actions': seq<Action>, t': State)
    requires Play(c, s, actions) == t && t.ready && At(t, 0, Top)
    ensures Play(c, s, actions') == t'
    ensures t' == t.(threads := t.threads[0 := Watching(t.notify)], calls := t'.calls)
  {
    actions', t' := Then(c, s, actions, t, ReadReady(0));
    actions', t' := Then(c, s, actions', t', Watch(0));
    assert t'.threads == t.threads[0 := Watching(t.notify)];
  }

  // ---- the condition is exact ----

  lemma DialFailing(c: Config, s: State, actions: seq<Action>, t: State, i: nat)
    returns (actions': seq<Action>, t': State)
    requires (if i == 0 then c.daemonDialMayFail else c.demandDialMayFail)
    requires Play(c, s, actions) == t && At(t, i, Top) && !t.ready && !t.closed && t.owner.Nobody?
    ensures Play(c, s, actions') == t'
    ensures t' == t.(threads := t.threads[i := Backoff], hasConn := false, calls := t'.calls)
    ensures t'.calls == NextCalls(t, DialFails(i))
  {
    actions', t' := StartDialing(c, s, actions, t, i);
    actions', t' := Then(c, s, actions', t', DialFails(i));
    actions', t' := Then(c, s, actions', t', Release(i));
    assert t'.threads == t.threads[i := Backoff];
  }

  /** The connection drops and the daemon marks the operator not ready. */
  lemma LostConnection(c: Config) returns (actions: seq<Action>, t: State)
    requires c.threads > 0
    ensures Play(c, Init(c), actions) == t
    ensures t == Init(c).(ready := false, open := {}, calls := t.calls) && |t.calls| == c.threads
  {
    var s := Init(c);
    actions, t := Then(c, s, [], s, ReadReady(0));
    actions, t := Then(c, s, actions, t, Watch(0));
    actions, t := Then(c, s, actions, t, Drop(0));
    actions, t := Then(c, s, actions, t, Notice(0));
    actions, t := Then(c, s, actions, t, SetNotReady(0));
    assert t.threads == s.threads && t.open == {};
  }

  /** The daemon's own dial fails, and it goes back to watching the old, closed notify channel. */
  lemma StaleWatch(c: Config) returns (actions: seq<Action>, t: State)
    requires c.daemonDialMayFail && c.threads > 1
    ensures Play(c, Init(c), actions) == t
    ensures t == Init(c).(ready := false, hasConn := false, open := {}, calls := t.calls,
                          threads := Init(c).threads[0 := Notified(0)])
  {
    var s := Init(c);
    actions, t := LostConnection(c);
    actions, t := DialFailing(c, s, actions, t, 0);
    actions, t := Then(c, s, actions, t, Tick(0));
    actions, t := Then(c, s, actions, t, Watch(0));
    actions, t := Then(c, s, actions, t, Notice(0));
    assert t.threads == s.threads[0 := Notified(0)];
  }

  /**
   * With an on-demand reconnect in between, the stale notification marks the new connection
   * not ready, and the daemon dials again beside it; Close then leaves the first one open.
   */
  lemma LeakedConnection(c: Config) returns (actions: seq<Action>, t: State)
    requires c.daemonDialMayFail && c.threads > 1
    ensures Play(c, Init(c), actions) == t && |t.open| == 1 && t.closer.Returned?
    ensures !Sound(t)
  {
    var s := Init(c);
    actions, t := StaleWatch(c);
    actions, t := Then(c, s, actions, t, Begin(1));
    actions, t := Reconnect(c, s, actions, t, 1);
    actions, t := Then(c, s, actions, t, SetNotReady(0));
    actions, t := Reconnect(c, s, actions, t, 0);
    assert t.open == {1, 2} && t.conn == 2;
    actions, t := CloseRuns(c, s, actions, t);
    assert t.open == {1};
  }

  /** Close from start to end, with nothing else happening. */
  lemma CloseRuns(c: Config, s: State, actions: seq<Action>, t: State) returns (actions': seq<Action>, t': State)
    requires Play(c, s, actions) == t && t.closer.NotCalled? && t.owner.Nobody? && t.hasConn
    ensures Play(c, s, actions') == t' && t'.closer.Returned? && t'.open == t.open - {t.conn}
  {
    actions', t' := CloseSignals(c, s, actions, t);
    actions', t' := Then(c, s, actions', t', Close);
    actions', t' := Then(c, s, actions', t', Close);
    actions', t' := Then(c, s, actions', t', Close);
  }

  lemma CloseSignals(c: Config, s: State, actions: seq<Action>, t: State) returns (actions': seq<Action>, t': State)
    requires Play(c, s, actions) == t && t.closer.NotCalled?
    ensures Play(c, s, actions') == t'
    ensures t' == t.(closed := true, ready := false, closeCh := true, closer := Signalled)
  {
    actions', t' := Then(c, s, actions, t, Close);
    actions', t' := Then(c, s, actions', t', Close);
    actions', t' := Then(c, s, actions', t', Close);
  }

  /** Every interleaving is sound exactly when the daemon's dials do not fail or nobody else dials. */
  lemma SoundIff(c: Config)
    requires c.threads > 0
    ensures (forall actions :: Sound(Play(c, Init(c), actions))) <==> !c.daemonDialMayFail || c.threads == 1
  {
    if Safe(c) {
      forall actions ensures Sound(Play(c, Init(c), actions)) {
        CurrentByConfig(c, Init(c), actions);
        ConnectionSafety(c, actions);
      }
    } else {
      var actions, t := LeakedConnection(c);
    }
  }

  /** An on-demand call whose dial failed may still report a connection, with none in place. */
  lemma ConnectedWithoutConnection(c: Config) returns (actions: seq<Action>, t: State)
    requires c.demandDialMayFail && c.threads > 1 && c.attempts > 1
    ensures Play(c, Init(c), actions) == t
    ensures At(t, 1, Exited(true, false)) && !t.ready && !t.hasConn && t.open == {} && !t.closed
    ensures !Honest(t)
  {
    var s := Init(c);
    actions, t := LostConnection(c);
    actions, t := Then(c, s, actions, t, Begin(1));
    actions, t := DialFailing(c, s, actions, t, 1);
    assert t.calls[1].failures == 1;
    actions, t := Then(c, s, actions, t, Tick(1));
    actions, t := Then(c, s, actions, t, Leave(1));
  }

  /** Whoever was told of a connection, and did not find the operator closed, saw one. */
  predicate Honest(s: State) {
    forall i | 0 < i < |s.threads| == |s.calls| && s.threads[i].Exited? && s.threads[i].connected ::
      s.calls[i].foundClosed || (s.threads[i].seen && s.calls[i].sawConn)
  }

  /** Reports are honest in all runs exactly if no on-demand dial fails, nobody asks, or AttemptTimes is at most one. */
  lemma HonestIff(c: Config)
    ensures (forall actions :: Honest(Play(c, Init(c), actions))) <==>
            !c.demandDialMayFail || c.threads <= 1 || c.attempts <= 1
  {
    if c.demandDialMayFail && c.threads > 1 && c.attempts > 1 {
      var actions, t := ConnectedWithoutConnection(c);
    } else {
      forall actions ensures Honest(Play(c, Init(c), actions)) {
        CallsAreHonest(c, actions);
      }
    }
  }

  lemma CallsAreHonest(c: Config, actions: seq<Action>)
    requires !c.demandDialMayFail || c.threads <= 1 || c.attempts <= 1
    ensures Honest(Play(c, Init(c), actions))
  {
    BasePlay(c, Init(c), actions);
    CallsPlay(c, Init(c), actions);
    ThreadsStay(c, Init(c), actions);
    var s := Play(c, Init(c), actions);
    forall i | 0 < i < |s.threads| && s.threads[i].Exited? && s.threads[i].connected
      ensures s.calls[i].foundClosed || (s.threads[i].seen && s.calls[i].sawConn)
    {
      assert CallInv(c, s, i);
    }
  }

  lemma {:induction false} ThreadsStay(c: Config, s: State, actions: seq<Action>)
    ensures |Play(c, s, actions).threads| == |s.threads|
    decreases |actions|
  {
    if actions != [] {
      ThreadsStay(c, if Enabled(c, s, actions[0]) then Apply(c, s, actions[0]) else s, actions[1..]);
    }
  }
}
