/**
 * Closing a channel that has live senders (rocketmqx ConsumeWithChannel): any number of
 * handler calls send batches under a read lock, any number of closers call closeFn, the
 * consumer receives, and Close of the operator may close closeCh at any time.
 */
module RocketChannel {

  const CAPACITY := 10

  /** A handler call; from Locked to Answered it holds the read lock. */
  datatype Handler = Fresh | Locked | Selecting | Answered(success: bool) | Returned(success: bool)

  /** A call of closeFn; exactly one call gets past once.Do, the others wait for it. */
  datatype Closer = Idle | Waiting | AtDone | AtLock | WantLock | HasLock | Flagged | AtUnlock | Finished

  datatype Once = Unused | RunningBy(c: nat) | Complete

  /**
   * `closed` is the flag under the lock, `chClosed` the state of msgCh. A batch is named by
   * its handler call. `panicked` records a send on or a close of a closed channel.
   */
  datatype State = State(handlers: seq<Handler>, closers: seq<Closer>, once: Once, done: bool, opClosed: bool,
                         closed: bool, chClosed: bool, closes: nat, buffer: seq<nat>, received: seq<nat>,
                         panicked: bool)

  datatype Action =
    | RLock(h: nat) | Check(h: nat) | Send(h: nat) | SeeDone(h: nat) | SeeOpClosed(h: nat) | RUnlock(h: nat)
    | EnterOnce(c: nat) | CloseDone(c: nat) | CallLock(c: nat) | Lock(c: nat) | SetClosed(c: nat) | CloseCh(c: nat)
    | Unlock(c: nat) | LeaveOnce(c: nat) | OpClose | Receive

  predicate HoldsRead(h: Handler) {
    h.Locked? || h.Selecting? || h.Answered?
  }

  /** A writer that waits already keeps new readers out. */
  predicate WriterPresent(s: State) {
    exists c :: 0 <= c < |s.closers| &&
      (s.closers[c].WantLock? || s.closers[c].HasLock? || s.closers[c].Flagged? || s.closers[c].AtUnlock?)
  }

  predicate Init(s: State) {
    && (forall h | 0 <= h < |s.handlers| :: s.handlers[h] == Fresh)
    && (forall c | 0 <= c < |s.closers| :: s.closers[c] == Idle)
    && s == State(s.handlers, s.closers, Unused, false, s.opClosed, false, false, 0, [], [], false)
  }

  predicate HandlerAt(s: State, h: nat, p: Handler) {
    h < |s.handlers| && s.handlers[h] == p
  }

  predicate CloserAt(s: State, c: nat, p: Closer) {
    c < |s.closers| && s.closers[c] == p
  }

  predicate Enabled(s: State, a: Action) {
    match a
    case RLock(h) => HandlerAt(s, h, Fresh) && !WriterPresent(s)
    case Check(h) => HandlerAt(s, h, Locked)
    case Send(h) => HandlerAt(s, h, Selecting) && (s.chClosed || |s.buffer| < CAPACITY)
    case SeeDone(h) => HandlerAt(s, h, Selecting) && s.done
    case SeeOpClosed(h) => HandlerAt(s, h, Selecting) && s.opClosed
    case RUnlock(h) => h < |s.handlers| && s.handlers[h].Answered?
    case EnterOnce(c) => CloserAt(s, c, Idle)
    case CloseDone(c) => CloserAt(s, c, AtDone)
    case CallLock(c) => CloserAt(s, c, AtLock)
    case Lock(c) => CloserAt(s, c, WantLock) && forall h | 0 <= h < |s.handlers| :: !HoldsRead(s.handlers[h])
    case SetClosed(c) => CloserAt(s, c, HasLock)
    case CloseCh(c) => CloserAt(s, c, Flagged)
    case Unlock(c) => CloserAt(s, c, AtUnlock)
    case LeaveOnce(c) => CloserAt(s, c, Waiting) && s.once == Complete
    case OpClose => true
    case Receive => s.buffer != []
  }

  function SetHandler(s: State, h: nat, p: Handler): State
    requires h < |s.handlers|
  {
    s.(handlers := s.handlers[h := p])
  }

  function SetCloser(s: State, c: nat, p: Closer): State
    requires c < |s.closers|
  {
    s.(closers := s.closers[c := p])
  }

  function Apply(s: State, a: Action): State
    requires Enabled(s, a)
  {
    match a
    case RLock(h) => SetHandler(s, h, Locked)
    case Check(h) => SetHandler(s, h, if s.closed then Answered(false) else Selecting)
    case Send(h) =>
      if s.chClosed then s.(panicked := true)
      else SetHandler(s, h, Answered(true)).(buffer := s.buffer + [h])
    case SeeDone(h) => SetHandler(s, h, Answered(false))
    case SeeOpClosed(h) => SetHandler(s, h, Answered(false))
    case RUnlock(h) => SetHandler(s, h, Returned(s.handlers[h].success))
    case EnterOnce(c) =>
      if s.once.Unused? then SetCloser(s, c, AtDone).(once := RunningBy(c)) else SetCloser(s, c, Waiting)
    case CloseDone(c) =>
      if s.done then s.(panicked := true) else SetCloser(s, c, AtLock).(done := true)
    case CallLock(c) => SetCloser(s, c, WantLock)
    case Lock(c) => SetCloser(s, c, HasLock)
    case SetClosed(c) => SetCloser(s, c, Flagged).(closed := true)
    case CloseCh(c) =>
      if s.chClosed then s.(panicked := true)
      else SetCloser(s, c, AtUnlock).(chClosed := true, closes := s.closes + 1)
    case Unlock(c) => SetCloser(s, c, Finished).(once := Complete)
    case LeaveOnce(c) => SetCloser(s, c, Finished)
    case OpClose => s.(opClosed := true)
    case Receive => s.(received := s.received + [s.buffer[0]], buffer := s.buffer[1..])
  }

  function Play(s: State, actions: seq<Action>): State
    decreases |actions|
  {
    if actions == [] then s
    else Play(if Enabled(s, actions[0]) then Apply(s, actions[0]) else s, actions[1..])
  }

  // ---- the invariant ----

  predicate NoReaders(s: State) {
    forall h | 0 <= h < |s.handlers| :: !HoldsRead(s.handlers[h])
  }

  predicate InOnce(p: Closer) {
    p.AtDone? || p.AtLock? || p.WantLock? || p.HasLock? || p.Flagged? || p.AtUnlock?
  }

  /** How far the one closing call has come, and what it has done by then. */
  predicate CloseInv(s: State) {
    && (forall c | 0 <= c < |s.closers| :: InOnce(s.closers[c]) <==> s.once == RunningBy(c))
    && (s.once.RunningBy? ==> s.once.c < |s.closers|)
    && (s.once.Unused? ==> !s.done && !s.closed && !s.chClosed)
    && (s.once.Complete? ==> s.done && s.closed && s.chClosed)
    && (s.once.RunningBy? ==>
          var p := s.closers[s.once.c];
          && (s.done <==> !p.AtDone?)
          && (s.closed <==> p.Flagged? || p.AtUnlock?)
          && (s.chClosed <==> p.AtUnlock?)
          && (p.HasLock? || p.Flagged? || p.AtUnlock? ==> NoReaders(s)))
    && s.closes == (if s.chClosed then 1 else 0)
    && !s.panicked
  }

  predicate Distinct(batches: seq<nat>) {
    forall i, j | 0 <= i < j < |batches| :: batches[i] != batches[j]
  }

  predicate Succeeded(p: Handler) {
    (p.Answered? || p.Returned?) && p.success
  }

  /** A batch is in the channel, or has been received, exactly when its handler answers success. */
  ghost predicate SendInv(s: State) {
    && (forall h | 0 <= h < |s.handlers| && s.handlers[h].Selecting? :: !s.closed)
    && |s.buffer| <= CAPACITY
    && Distinct(s.received + s.buffer)
    && (forall h: nat :: h in s.received + s.buffer <==> h < |s.handlers| && Succeeded(s.handlers[h]))
  }

  ghost predicate Inv(s: State) {
    CloseInv(s) && SendInv(s)
  }

  predicate HandlerAction(a: Action) {
    a.RLock? || a.Check? || a.Send? || a.SeeDone? || a.SeeOpClosed? || a.RUnlock?
  }

  lemma CloseStepOfHandler(s: State, a: Action)
    requires Inv(s) && Enabled(s, a) && HandlerAction(a)
    ensures CloseInv(Apply(s, a))
  {
    if s.once.RunningBy? {
      var p := s.closers[s.once.c];
      assert InOnce(p);
      assert a.RLock? ==> !(p.HasLock? || p.Flagged? || p.AtUnlock?);
    }
  }

  lemma CloseStepOfCloser(s: State, a: Action)
    requires Inv(s) && Enabled(s, a) && !HandlerAction(a)
    ensures CloseInv(Apply(s, a))
  {
    if s.once.RunningBy? {
      assert InOnce(s.closers[s.once.c]);
    }
  }

  lemma CloseStep(s: State, a: Action)
    requires Inv(s) && Enabled(s, a)
    ensures CloseInv(Apply(s, a))
  {
    if HandlerAction(a) {
      CloseStepOfHandler(s, a);
    } else {
      CloseStepOfCloser(s, a);
    }
  }

  lemma StepOfSend(s: State, h: nat)
    requires Inv(s) && Enabled(s, Send(h))
    ensures SendInv(Apply(s, Send(h)))
  {
    var t := Apply(s, Send(h));
    if !s.chClosed {
      assert t.received + t.buffer == s.received + s.buffer + [h];
    }
  }

  lemma StepOfReceive(s: State)
    requires Inv(s) && Enabled(s, Receive)
    ensures SendInv(Apply(s, Receive))
  {
    var t := Apply(s, Receive);
    assert t.received + t.buffer == s.received + s.buffer;
  }

  /** Every other step leaves the batches and who succeeded alone. */
  lemma StepOfOthers(s: State, a: Action)
    requires Inv(s) && Enabled(s, a) && !a.Send? && !a.Receive?
    ensures SendInv(Apply(s, a))
  {
    var t := Apply(s, a);
    assert t.received == s.received && t.buffer == s.buffer;
    if a.SetClosed? {
      assert InOnce(s.closers[a.c]);
    }
  }

  lemma SendStep(s: State, a: Action)
    requires Inv(s) && Enabled(s, a)
    ensures SendInv(Apply(s, a))
  {
    if a.Send? {
      StepOfSend(s, a.h);
    } else if a.Receive? {
      StepOfReceive(s);
    } else {
      StepOfOthers(s, a);
    }
  }

  lemma {:induction false} PlayInv(s: State, actions: seq<Action>)
    requires Inv(s)
    ensures Inv(Play(s, actions))
    decreases |actions|
  {
    if actions != [] {
      if Enabled(s, actions[0]) {
        CloseStep(s, actions[0]);
        SendStep(s, actions[0]);
        PlayInv(Apply(s, actions[0]), actions[1..]);
      } else {
        PlayInv(s, actions[1..]);
      }
    }
  }

  /**
   * In every interleaving: no send on and no second close of a closed channel, at most one
   * close, and a batch is answered ConsumeSuccess exactly when it went into the channel, once.
   */
  lemma ChannelSafety(s: State, actions: seq<Action>)
    requires Init(s)
    ensures var t := Play(s, actions);
            && !t.panicked && t.closes <= 1 && |t.buffer| <= 10
            && (t.chClosed ==> forall h | 0 <= h < |t.handlers| :: !t.handlers[h].Selecting?)
            && Distinct(t.received + t.buffer)
            && (forall h | 0 <= h < |t.handlers| && t.handlers[h].Returned? ::
                  t.handlers[h].success <==> h in t.received + t.buffer)
  {
    PlayInv(s, actions);
  }

  // ---- refusals ----

  predicate Refused(p: Handler) {
    (p.Answered? || p.Returned?) && !p.success
  }

  /** A handler answers "retry" only when somebody closes the channel or the operator. */
  predicate RefusedForCause(s: State) {
    (exists h :: 0 <= h < |s.handlers| && Refused(s.handlers[h])) ==> s.done || s.opClosed
  }

  lemma RefusalStep(s: State, a: Action)
    requires Inv(s) && Enabled(s, a) && RefusedForCause(s)
    ensures RefusedForCause(Apply(s, a))
  {
    var t := Apply(s, a);
    if h :| 0 <= h < |t.handlers| && Refused(t.handlers[h]) {
      if a.Check? && a.h == h && !Refused(s.handlers[h]) {
        assert s.closed;
      } else {
        assert Refused(s.handlers[h]) || a.SeeDone? || a.SeeOpClosed?;
      }
    }
  }

  lemma {:induction false} RefusalPlay(s: State, actions: seq<Action>)
    requires Inv(s) && RefusedForCause(s)
    ensures RefusedForCause(Play(s, actions))
    decreases |actions|
  {
    if actions != [] {
      if Enabled(s, actions[0]) {
        CloseStep(s, actions[0]);
        SendStep(s, actions[0]);
        RefusalStep(s, actions[0]);
        RefusalPlay(Apply(s, actions[0]), actions[1..]);
      } else {
        RefusalPlay(s, actions[1..]);
      }
    }
  }

  /** In every interleaving a batch is refused, for a later retry, only after a close has begun. */
  lemma RefusedOnlyWhenClosing(s: State, actions: seq<Action>)
    requires Init(s)
    ensures RefusedForCause(Play(s, actions))
  {
    RefusalPlay(s, actions);
  }

  // ---- order ----

  /** What has gone into the channel, in order. */
  function Sent(s: State): seq<nat> {
    s.received + s.buffer
  }

  lemma OrderStep(s: State, a: Action)
    requires Enabled(s, a)
    ensures Sent(s) <= Sent(Apply(s, a)) && s.received <= Apply(s, a).received
  {
    if a.Receive? {
      assert s.buffer == [s.buffer[0]] + s.buffer[1..];
    } else if a.Send? && !s.chClosed {
      assert Sent(Apply(s, a)) == Sent(s) + [a.h];
    }
  }

  /** First in, first out: what went in keeps its place, and the consumer receives in that order. */
  lemma {:induction false} ChannelOrder(s: State, actions: seq<Action>)
    ensures Sent(s) <= Sent(Play(s, actions)) && s.received <= Play(s, actions).received
    decreases |actions|
  {
    if actions != [] {
      if Enabled(s, actions[0]) {
        OrderStep(s, actions[0]);
      }
      ChannelOrder(if Enabled(s, actions[0]) then Apply(s, actions[0]) else s, actions[1..]);
    }
  }

  // ---- the channel is of use ----

  lemma {:induction false} PlaySnoc(s: State, actions: seq<Action>, a: Action)
    ensures Play(s, actions + [a]) == var t := Play(s, actions); if Enabled(t, a) then Apply(t, a) else t
    decreases |actions|
  {
    if actions == [] {
      assert [a][1..] == [];
    } else {
      assert (actions + [a])[1..] == actions[1..] + [a];
      PlaySnoc(if Enabled(s, actions[0]) then Apply(s, actions[0]) else s, actions[1..], a);
    }
  }

  lemma Then(s: State, actions: seq<Action>, t: State, a: Action) returns (actions': seq<Action>, t': State)
    requires Play(s, actions) == t && Enabled(t, a)
    ensures Play(s, actions') == t' && t' == Apply(t, a)
  {
    PlaySnoc(s, actions, a);
    actions', t' := actions + [a], Apply(t, a);
  }

  /** While the channel is open and has room, a handler call delivers its batch and answers success. */
  lemma HandlerDelivers(s: State, h: nat) returns (actions: seq<Action>, t: State)
    requires HandlerAt(s, h, Fresh) && !WriterPresent(s) && !s.closed && !s.chClosed && |s.buffer| < 10
    ensures Play(s, actions) == t
    ensures t == SetHandler(s, h, Handler.Returned(true)).(buffer := s.buffer + [h])
  {
    actions, t := Then(s, [], s, RLock(h));
    actions, t := Then(s, actions, t, Check(h));
    actions, t := Then(s, actions, t, Send(h));
    actions, t := Then(s, actions, t, RUnlock(h));
    assert t.handlers == s.handlers[h := Handler.Returned(true)];
  }

  lemma FirstCloserLocks(s: State, c: nat) returns (actions: seq<Action>, t: State)
    requires CloserAt(s, c, Closer.Idle) && s.once.Unused? && !s.done && NoReaders(s)
    ensures Play(s, actions) == t
    ensures t == SetCloser(s, c, HasLock).(once := RunningBy(c), done := true)
  {
    actions, t := Then(s, [], s, EnterOnce(c));
    actions, t := Then(s, actions, t, CloseDone(c));
    actions, t := Then(s, actions, t, CallLock(c));
    actions, t := Then(s, actions, t, Lock(c));
    assert t.closers == s.closers[c := HasLock];
  }

  /** The first closer, once no reader is in the way, closes the channel. */
  lemma CloserCloses(s: State, c: nat) returns (actions: seq<Action>, t: State)
    requires CloserAt(s, c, Closer.Idle) && s.once.Unused? && !s.done && !s.chClosed && NoReaders(s)
    ensures Play(s, actions) == t
    ensures t == SetCloser(s, c, Closer.Finished).(once := Complete, done := true, closed := true, chClosed := true,
                                                   closes := s.closes + 1)
  {
    actions, t := FirstCloserLocks(s, c);
    actions, t := Then(s, actions, t, SetClosed(c));
    actions, t := Then(s, actions, t, CloseCh(c));
    actions, t := Then(s, actions, t, Unlock(c));
    assert t.closers == s.closers[c := Closer.Finished];
  }

  /** A call of closeFn that waits for another one returns only when the channel is closed. */
  predicate FinishedIsClosed(s: State) {
    (exists c :: 0 <= c < |s.closers| && s.closers[c].Finished?) ==> s.once.Complete?
  }

  lemma FinishStep(s: State, a: Action)
    requires Inv(s) && Enabled(s, a) && FinishedIsClosed(s)
    ensures FinishedIsClosed(Apply(s, a))
  {
    var t := Apply(s, a);
    if c :| 0 <= c < |t.closers| && t.closers[c].Finished? {
      assert s.closers[c].Finished? || a.Unlock? || a.LeaveOnce?;
    }
  }

  lemma {:induction false} FinishPlay(s: State, actions: seq<Action>)
    requires Inv(s) && FinishedIsClosed(s)
    ensures Inv(Play(s, actions)) && FinishedIsClosed(Play(s, actions))
    decreases |actions|
  {
    if actions != [] {
      if Enabled(s, actions[0]) {
        CloseStep(s, actions[0]);
        SendStep(s, actions[0]);
        FinishStep(s, actions[0]);
        FinishPlay(Apply(s, actions[0]), actions[1..]);
      } else {
        FinishPlay(s, actions[1..]);
      }
    }
  }

  /** In every interleaving: whichever call of closeFn returns first, done and the channel are closed by then. */
  lemma ClosersReturnAfterClose(s: State, actions: seq<Action>, c: nat)
    requires Init(s) && c < |Play(s, actions).closers| && Play(s, actions).closers[c].Finished?
    ensures var t := Play(s, actions); t.done && t.closed && t.chClosed && t.closes == 1
  {
    FinishPlay(s, actions);
  }

  /** Wherever a run has come to: once the channel is closed, every waiting call of closeFn can return. */
  lemma WaitingCloserReturns(s: State, before: seq<Action>, c: nat)
    requires Init(s) && CloserAt(Play(s, before), c, Waiting) && Play(s, before).chClosed
    requires !Play(s, before).once.RunningBy?
    ensures var t := Play(s, before); Play(t, [LeaveOnce(c)]) == SetCloser(t, c, Closer.Finished)
  {
    PlayInv(s, before);
    assert [LeaveOnce(c)][1..] == [];
  }

  /** A handler that waits for room is woken by either close, and answers that the batch is to be retried. */
  lemma WaitingHandlerIsWoken(s: State, h: nat) returns (actions: seq<Action>, t: State)
    requires HandlerAt(s, h, Selecting) && (s.done || s.opClosed)
    ensures Play(s, actions) == t && t == SetHandler(s, h, Handler.Returned(false))
  {
    actions, t := Then(s, [], s, if s.opClosed then SeeOpClosed(h) else SeeDone(h));
    actions, t := Then(s, actions, t, RUnlock(h));
    assert t.handlers == s.handlers[h := Handler.Returned(false)];
  }

  lemma OpCloseWakesHandler(s: State, h: nat) returns (actions: seq<Action>, t: State)
    requires HandlerAt(s, h, Selecting)
    ensures Play(s, actions) == t && t == SetHandler(s, h, Handler.Returned(false)).(opClosed := true)
  {
    actions, t := Then(s, [], s, OpClose);
    actions, t := Then(s, actions, t, SeeOpClosed(h));
    actions, t := Then(s, actions, t, RUnlock(h));
    assert t.handlers == s.handlers[h := Handler.Returned(false)];
  }

  // ---- the closer is not blocked ----

  function Rank(p: Handler): nat {
    match p
    case Locked => 3
    case Selecting => 2
    case Answered(_) => 1
    case _ => 0
  }

  function ReaderWork(handlers: seq<Handler>): nat {
    if handlers == [] then 0 else Rank(handlers[0]) + ReaderWork(handlers[1..])
  }

  lemma {:induction false} ReaderWorkUpdate(handlers: seq<Handler>, h: nat, p: Handler)
    requires h < |handlers|
    ensures ReaderWork(handlers[h := p]) == ReaderWork(handlers) - Rank(handlers[h]) + Rank(p)
  {
    if h == 0 {
      assert handlers[0 := p][1..] == handlers[1..];
    } else {
      assert handlers[h := p][1..] == handlers[1..][h - 1 := p];
      ReaderWorkUpdate(handlers[1..], h - 1, p);
    }
  }

  lemma {:induction false} NoWorkNoReaders(handlers: seq<Handler>)
    ensures ReaderWork(handlers) == 0 <==> forall h | 0 <= h < |handlers| :: !HoldsRead(handlers[h])
  {
    if handlers != [] {
      NoWorkNoReaders(handlers[1..]);
      assert forall h | 0 < h < |handlers| :: handlers[h] == handlers[1..][h - 1];
    }
  }

  /**
   * A closer waiting for the write lock waits for a bounded number of steps only: each reader
   * has a step that needs nobody else -- not even a receiver -- every handler step uses up some
   * of the readers' work, no step adds any, and without readers the lock is free.
   */
  lemma CloserIsNotBlocked(s: State, c: nat)
    requires Inv(s) && CloserAt(s, c, WantLock)
    ensures forall h | 0 <= h < |s.handlers| && HoldsRead(s.handlers[h]) ::
              Enabled(s, Check(h)) || Enabled(s, SeeDone(h)) || Enabled(s, RUnlock(h))
    ensures forall a | Enabled(s, a) && HandlerAction(a) ::
              ReaderWork(Apply(s, a).handlers) < ReaderWork(s.handlers)
    ensures forall a | Enabled(s, a) && !HandlerAction(a) :: Apply(s, a).handlers == s.handlers
    ensures ReaderWork(s.handlers) == 0 <==> Enabled(s, Lock(c))
  {
    NoWorkNoReaders(s.handlers);
    forall h | 0 <= h < |s.handlers| && HoldsRead(s.handlers[h])
      ensures Enabled(s, Check(h)) || Enabled(s, SeeDone(h)) || Enabled(s, RUnlock(h))
    {
      ReaderCanStep(s, c, h);
    }
    forall a | Enabled(s, a) && HandlerAction(a)
      ensures ReaderWork(Apply(s, a).handlers) < ReaderWork(s.handlers)
    {
      ReaderStep(s, c, a);
    }
    forall a | Enabled(s, a) && !HandlerAction(a) ensures Apply(s, a).handlers == s.handlers {
      HandlersStay(s, a);
    }
  }

  lemma ReaderCanStep(s: State, c: nat, h: nat)
    requires Inv(s) && CloserAt(s, c, WantLock) && h < |s.handlers| && HoldsRead(s.handlers[h])
    ensures Enabled(s, Check(h)) || Enabled(s, SeeDone(h)) || Enabled(s, RUnlock(h))
  {
    assert InOnce(s.closers[c]);
  }

  lemma HandlersStay(s: State, a: Action)
    requires Enabled(s, a) && !HandlerAction(a)
    ensures Apply(s, a).handlers == s.handlers
  {
    match a
    case EnterOnce(_) =>
    case CloseDone(_) =>
    case CallLock(_) =>
    case Lock(_) =>
    case SetClosed(_) =>
    case CloseCh(_) =>
    case Unlock(_) =>
    case LeaveOnce(_) =>
    case OpClose =>
    case Receive =>
  }

  lemma ReaderStep(s: State, c: nat, a: Action)
    requires Inv(s) && CloserAt(s, c, WantLock) && Enabled(s, a) && HandlerAction(a)
    ensures ReaderWork(Apply(s, a).handlers) < ReaderWork(s.handlers)
  {
    assert InOnce(s.closers[c]);
    assert !a.RLock? by { assert WriterPresent(s); }
    ReaderWorkUpdate(s.handlers, a.h, Apply(s, a).handlers[a.h]);
  }
}

/**
 * Registration against removal: ConsumeWithChannel stores the closer after its consumer is
 * registered, while CancelConsume or Close may remove the consumer at any moment in between.
 */
module RocketRegistration {

  /** ConsumeWithChannel after a successful Consume. */
  datatype Registrar = BeforeStore | Stored | SawNoConsumer | Finished

  /** CancelConsume gives up when the consumer is gone; Close goes on to the closers anyway. */
  datatype Remover = Cancel | Close | AtCloser | Left

  datatype State = State(consumer: bool, closer: bool, registrar: Registrar, removers: seq<Remover>, called: bool)

  datatype Action = Registrar | Remover(k: nat)

  predicate Init(s: State) {
    s.consumer && !s.closer && s.registrar == BeforeStore && !s.called
    && forall k | 0 <= k < |s.removers| :: s.removers[k].Cancel? || s.removers[k].Close?
  }

  function Apply(s: State, a: Action): State {
    match a
    case Registrar =>
      (match s.registrar
       case BeforeStore => s.(closer := true, registrar := Stored)
       case Stored => s.(registrar := if s.consumer then Finished else SawNoConsumer)
       case SawNoConsumer => s.(closer := false, called := s.called || s.closer, registrar := Finished)
       case Finished => s)
    case Remover(k) =>
      if k >= |s.removers| then s
      else
        match s.removers[k]
        case Cancel => s.(consumer := false, removers := s.removers[k := if s.consumer then AtCloser else Left])
        case Close => s.(consumer := false, removers := s.removers[k := AtCloser])
        case AtCloser => s.(closer := false, called := s.called || s.closer, removers := s.removers[k := Left])
        case Left => s
  }

  function Play(s: State, actions: seq<Action>): State
    decreases |actions|
  {
    if actions == [] then s else Play(Apply(s, actions[0]), actions[1..])
  }

  predicate Inv(s: State) {
    && (!s.registrar.BeforeStore? ==> s.closer || s.called)
    && (s.registrar.BeforeStore? ==> !s.closer && !s.called)
    && (s.called ==> !s.consumer)
    && (s.registrar.SawNoConsumer? ==> !s.consumer)
    && (forall k | 0 <= k < |s.removers| && s.removers[k].AtCloser? :: !s.consumer)
    && (s.called ==> !s.closer)
    && (!s.consumer && !s.called && s.registrar.Finished? ==>
          exists k :: 0 <= k < |s.removers| && s.removers[k].AtCloser?)
  }

  lemma Step(s: State, a: Action)
    requires Inv(s)
    ensures Inv(Apply(s, a))
  {
    var t := Apply(s, a);
    if a.Remover? && a.k < |s.removers| && t.removers[a.k].AtCloser? {
      assert 0 <= a.k < |t.removers| && t.removers[a.k].AtCloser?;
    } else if !s.consumer && !s.called && s.registrar.Finished? && !t.called {
      var k :| 0 <= k < |s.removers| && s.removers[k].AtCloser?;
      assert t.removers[k].AtCloser?;
    }
  }

  lemma {:induction false} PlayInv(s: State, actions: seq<Action>)
    requires Inv(s)
    ensures Inv(Play(s, actions))
    decreases |actions|
  {
    if actions != [] {
      Step(s, actions[0]);
      PlayInv(Apply(s, actions[0]), actions[1..]);
    }
  }

  /** Once everybody is through, the channel was closed exactly if the consumer was removed. */
  lemma ClosedIffRemoved(s: State, actions: seq<Action>)
    requires Init(s)
    requires var t := Play(s, actions);
             t.registrar.Finished? && forall k | 0 <= k < |t.removers| :: !t.removers[k].AtCloser?
    ensures var t := Play(s, actions); (t.called <==> !t.consumer) && (t.closer <==> t.consumer)
  {
    PlayInv(s, actions);
  }

  /** A CancelConsume that does not find the consumer leaves everything to the one who removed it. */
  lemma LateCancelDoesNothing(s: State, k: nat)
    requires k < |s.removers| && s.removers[k].Cancel? && !s.consumer
    ensures Apply(s, Remover(k)) == s.(removers := s.removers[k := Left])
  {
  }
}
