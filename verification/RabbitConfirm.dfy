/**
 * Publisher confirms on pooled channels (rabbitmqx): a push borrows a confirm-mode channel,
 * publishes, reads one confirmation from the channel's own queue, and gives the channel
 * back. Nothing in the code compares delivery tags; the pool discipline has to.
 */
module RabbitConfirm {

  datatype Confirmation = Confirmation(tag: nat, ack: bool)

  datatype Place = Pooled | Lent(p: nat) | Discarded

  /**
   * `sent` publishes so far, the tags the broker still has to confirm, and the confirmations
   * waiting to be read. A channel that recheck rebuilt is not in confirm mode.
   */
  datatype Channel = Channel(open: bool, confirming: bool, sent: nat, awaiting: set<nat>,
                             unread: seq<Confirmation>, place: Place)

  /** One call of a push core; `early` says that it borrowed while the operator was open. */
  datatype Push =
    | Idle
    | Holding(ch: nat, early: bool)
    | Waiting(ch: nat, early: bool, tag: nat)
    | Finishing(ch: nat, early: bool, tag: nat, seen: Seen)
    | Done(early: bool, tag: nat, seen: Seen)

  datatype Seen = Nothing | Got(c: Confirmation)

  datatype State = State(channels: seq<Channel>, pushes: seq<Push>, closed: bool)

  datatype Action =
    | Create
    | Borrow(p: nat, ch: nat) | Publish(p: nat) | Fail(p: nat)
    | Read(p: nat) | TimeOut(p: nat) | SeeDead(p: nat) | SeeCloseCh(p: nat) | GiveBack(p: nat)
    | Confirm(ch: nat, tag: nat, ack: bool) | Die(ch: nat)
    | Close

  /** Whether Close may be called, and the number of pushes. */
  datatype Config = Config(mayClose: bool, pushes: nat)

  function Init(c: Config): State {
    State([], seq(c.pushes, _ => Idle), false)
  }

  predicate Busy(x: Push) {
    x.Holding? || x.Waiting? || x.Finishing?
  }

  predicate Enabled(c: Config, s: State, a: Action) {
    match a
    case Create => true
    case Borrow(p, ch) => p < |s.pushes| && s.pushes[p].Idle? && ch < |s.channels| && s.channels[ch].place.Pooled?
    case Publish(p) =>
      p < |s.pushes| && s.pushes[p].Holding? && s.pushes[p].ch < |s.channels| && s.channels[s.pushes[p].ch].open
    case Fail(p) => p < |s.pushes| && s.pushes[p].Holding?
    case Read(p) =>
      p < |s.pushes| && s.pushes[p].Waiting? && s.pushes[p].ch < |s.channels| && s.channels[s.pushes[p].ch].unread != []
    case TimeOut(p) => p < |s.pushes| && s.pushes[p].Waiting? && s.pushes[p].ch < |s.channels|
    case SeeDead(p) =>
      p < |s.pushes| && s.pushes[p].Waiting? && s.pushes[p].ch < |s.channels|
      && !s.channels[s.pushes[p].ch].open && s.channels[s.pushes[p].ch].unread == []
    case SeeCloseCh(p) => p < |s.pushes| && s.pushes[p].Waiting? && s.closed
    case GiveBack(p) => p < |s.pushes| && s.pushes[p].Finishing? && s.pushes[p].ch < |s.channels|
    case Confirm(ch, tag, ack) => ch < |s.channels| && s.channels[ch].open && tag in s.channels[ch].awaiting
    case Die(ch) => ch < |s.channels| && s.channels[ch].open
    case Close => c.mayClose
  }

  function SetPush(s: State, p: nat, x: Push): State
    requires p < |s.pushes|
  {
    s.(pushes := s.pushes[p := x])
  }

  function SetChannel(s: State, ch: nat, x: Channel): State
    requires ch < |s.channels|
  {
    s.(channels := s.channels[ch := x])
  }

  /** Activation on borrow: a dead channel is replaced by a new one, without confirm mode. */
  function Activated(x: Channel, p: nat): Channel {
    if x.open then x.(place := Lent(p)) else Channel(true, false, 0, {}, [], Lent(p))
  }

  function Apply(c: Config, s: State, a: Action): State
    requires Enabled(c, s, a)
  {
    match a
    case Create => s.(channels := s.channels + [Channel(true, true, 0, {}, [], Pooled)])
    case Borrow(p, ch) =>
      SetPush(SetChannel(s, ch, Activated(s.channels[ch], p)), p, Holding(ch, !s.closed))
    case Publish(p) =>
      var ch := s.pushes[p].ch;
      var x := s.channels[ch];
      var tag := x.sent + 1;
      SetPush(SetChannel(s, ch, x.(sent := tag, awaiting := if x.confirming then x.awaiting + {tag} else x.awaiting)),
              p, Waiting(ch, s.pushes[p].early, tag))
    case Fail(p) => SetPush(s, p, Finishing(s.pushes[p].ch, s.pushes[p].early, 0, Nothing))
    case Read(p) =>
      var ch := s.pushes[p].ch;
      var x := s.channels[ch];
      SetPush(SetChannel(s, ch, x.(unread := x.unread[1..])),
              p, Finishing(ch, s.pushes[p].early, s.pushes[p].tag, Got(x.unread[0])))
    case TimeOut(p) =>
      var ch := s.pushes[p].ch;
      SetPush(SetChannel(s, ch, s.channels[ch].(open := false, awaiting := {})),
              p, Finishing(ch, s.pushes[p].early, s.pushes[p].tag, Nothing))
    case SeeDead(p) => SetPush(s, p, Finishing(s.pushes[p].ch, s.pushes[p].early, s.pushes[p].tag, Nothing))
    case SeeCloseCh(p) => SetPush(s, p, Finishing(s.pushes[p].ch, s.pushes[p].early, s.pushes[p].tag, Nothing))
    case GiveBack(p) =>
      var ch := s.pushes[p].ch;
      SetPush(SetChannel(s, ch, s.channels[ch].(place := if s.channels[ch].open then Pooled else Discarded)),
              p, Done(s.pushes[p].early, s.pushes[p].tag, s.pushes[p].seen))
    case Confirm(ch, tag, ack) =>
      var x := s.channels[ch];
      SetChannel(s, ch, x.(awaiting := x.awaiting - {tag}, unread := x.unread + [Confirmation(tag, ack)]))
    case Die(ch) => SetChannel(s, ch, s.channels[ch].(open := false, awaiting := {}))
    case Close => s.(closed := true)
  }

  function Play(c: Config, s: State, actions: seq<Action>): State
    decreases |actions|
  {
    if actions == [] then s
    else Play(c, if Enabled(c, s, actions[0]) then Apply(c, s, actions[0]) else s, actions[1..])
  }

  // ---- the invariant ----

  predicate Clean(x: Channel) {
    x.awaiting == {} && x.unread == []
  }

  /** While a push waits, the only confirmation due on its channel is its own. */
  predicate OnlyOwn(x: Channel, tag: nat) {
    || (x.awaiting <= {tag} && x.unread == [])
    || (x.awaiting == {} && |x.unread| == 1 && x.unread[0].tag == tag)
  }

  predicate Own(tag: nat, seen: Seen) {
    seen.Got? ==> seen.c.tag == tag
  }

  predicate PushInv(s: State, p: nat)
    requires p < |s.pushes|
  {
    var x := s.pushes[p];
    && (Busy(x) ==> x.ch < |s.channels| && s.channels[x.ch].place == Lent(p))
    && (x.Holding? && x.early ==> Clean(s.channels[x.ch]))
    && (x.Waiting? && x.early ==> OnlyOwn(s.channels[x.ch], x.tag))
    && (x.Finishing? && x.early ==>
          (s.closed || !s.channels[x.ch].open || Clean(s.channels[x.ch])) && Own(x.tag, x.seen))
    && (x.Done? && x.early ==> Own(x.tag, x.seen))
    && (Busy(x) && !x.early ==> s.closed)
    && (x.Done? && !x.early ==> s.closed)
  }

  predicate ChannelInv(s: State, ch: nat)
    requires ch < |s.channels|
  {
    s.channels[ch].place.Pooled? && s.channels[ch].open ==> s.closed || Clean(s.channels[ch])
  }

  predicate Inv(c: Config, s: State) {
    && (s.closed ==> c.mayClose)
    && (forall p | 0 <= p < |s.pushes| :: PushInv(s, p))
    && (forall ch | 0 <= ch < |s.channels| :: ChannelInv(s, ch))
  }

  /** The push an action belongs to, if any. */
  function Actor(a: Action): (who: int) {
    match a
    case Borrow(p, _) => p
    case Publish(p) => p
    case Fail(p) => p
    case Read(p) => p
    case TimeOut(p) => p
    case SeeDead(p) => p
    case SeeCloseCh(p) => p
    case GiveBack(p) => p
    case _ => 0 - 1
  }

  lemma ActorStep(c: Config, s: State, a: Action)
    requires Inv(c, s) && Enabled(c, s, a) && Actor(a) >= 0
    ensures PushInv(Apply(c, s, a), Actor(a))
  {
    assert PushInv(s, Actor(a));
    if a.Borrow? {
      assert ChannelInv(s, a.ch);
    }
  }

  /** Nobody else touches a lent channel, except the broker and the network. */
  lemma OtherStep(c: Config, s: State, a: Action, p: nat)
    requires Inv(c, s) && Enabled(c, s, a) && p < |s.pushes| && Actor(a) != p
    ensures PushInv(Apply(c, s, a), p)
  {
    assert PushInv(s, p);
    if Actor(a) >= 0 {
      assert PushInv(s, Actor(a));
    }
  }

  lemma ChannelStep(c: Config, s: State, a: Action, ch: nat)
    requires Inv(c, s) && Enabled(c, s, a) && ch < |Apply(c, s, a).channels|
    ensures ChannelInv(Apply(c, s, a), ch)
  {
    if ch < |s.channels| {
      assert ChannelInv(s, ch);
    }
    if Actor(a) >= 0 {
      assert PushInv(s, Actor(a));
    }
  }

  lemma Step(c: Config, s: State, a: Action)
    requires Inv(c, s) && Enabled(c, s, a)
    ensures Inv(c, Apply(c, s, a))
  {
    var t := Apply(c, s, a);
    forall p | 0 <= p < |t.pushes| ensures PushInv(t, p) {
      if Actor(a) == p { ActorStep(c, s, a); } else { OtherStep(c, s, a, p); }
    }
    forall ch | 0 <= ch < |t.channels| ensures ChannelInv(t, ch) {
      ChannelStep(c, s, a, ch);
    }
  }

  lemma {:induction false} PlayInv(c: Config, s: State, actions: seq<Action>)
    requires Inv(c, s)
    ensures Inv(c, Play(c, s, actions))
    decreases |actions|
  {
    if actions != [] {
      if Enabled(c, s, actions[0]) {
        Step(c, s, actions[0]);
        PlayInv(c, Apply(c, s, actions[0]), actions[1..]);
      } else {
        PlayInv(c, s, actions[1..]);
      }
    }
  }

  /** Every confirmation that a push has read is the one for its own publish. */
  predicate Matched(s: State) {
    forall p | 0 <= p < |s.pushes| && (s.pushes[p].Finishing? || s.pushes[p].Done?) ::
      Own(s.pushes[p].tag, s.pushes[p].seen)
  }

  predicate IdleClean(s: State) {
    forall ch | 0 <= ch < |s.channels| && s.channels[ch].place.Pooled? && s.channels[ch].open :: Clean(s.channels[ch])
  }

  /**
   * In every interleaving of pushes, timeouts, nacks, dying channels and Close: while the
   * operator is open, idle channels have no confirmation unread or outstanding; and a push
   * that borrowed its channel by then reads its own confirmation, whenever it reads.
   */
  lemma ConfirmsMatch(c: Config, actions: seq<Action>)
    ensures var s := Play(c, Init(c), actions);
            && (!s.closed ==> Matched(s) && IdleClean(s))
            && (forall p | 0 <= p < |s.pushes| && (s.pushes[p].Finishing? || s.pushes[p].Done?) && s.pushes[p].early ::
                  Own(s.pushes[p].tag, s.pushes[p].seen))
  {
    PlayInv(c, Init(c), actions);
    var s := Play(c, Init(c), actions);
    forall p | 0 <= p < |s.pushes| && (s.pushes[p].Finishing? || s.pushes[p].Done?)
      ensures !s.closed || s.pushes[p].early ==> Own(s.pushes[p].tag, s.pushes[p].seen)
    {
      assert PushInv(s, p);
    }
    forall ch | 0 <= ch < |s.channels| && s.channels[ch].place.Pooled? && s.channels[ch].open
      ensures !s.closed ==> Clean(s.channels[ch])
    {
      assert ChannelInv(s, ch);
    }
  }

  // ---- runs, action by action ----

  lemma {:induction false} PlaySnoc(c: Config, s: State, actions: seq<Action>, a: Action)
    ensures Play(c, s, actions + [a]) ==
            var t := Play(c, s, actions); if Enabled(c, t, a) then Apply(c, t, a) else t
    decreases |actions|
  {
    if actions == [] {
      assert [a][1..] == [];
    } else {
      assert (actions + [a])[1..] == actions[1..] + [a];
      PlaySnoc(c, if Enabled(c, s, actions[0]) then Apply(c, s, actions[0]) else s, actions[1..], a);
    }
  }

  lemma Then(c: Config, s: State, actions: seq<Action>, t: State, a: Action) returns (actions': seq<Action>, t': State)
    requires Play(c, s, actions) == t && Enabled(c, t, a)
    ensures Play(c, s, actions') == t' && t' == Apply(c, t, a) && actions' == actions + [a]
  {
    PlaySnoc(c, s, actions, a);
    actions', t' := actions + [a], Apply(c, t, a);
  }

  /**
   * Wherever a run has come to while the operator is open: a push that waits for an outstanding
   * confirmation can be answered, reads exactly that answer, and gives back a clean channel.
   */
  lemma PushIsAnswered(c: Config, before: seq<Action>, p: nat, ack: bool) returns (after: seq<Action>, t: State)
    requires var s := Play(c, Init(c), before);
             && !s.closed && p < |s.pushes| && s.pushes[p].Waiting? && s.pushes[p].ch < |s.channels|
             && s.channels[s.pushes[p].ch].open && s.pushes[p].tag in s.channels[s.pushes[p].ch].awaiting
    ensures Play(c, Play(c, Init(c), before), after) == t
    ensures var x := Play(c, Init(c), before).pushes[p];
            && p < |t.pushes| && t.pushes[p] == Done(x.early, x.tag, Got(Confirmation(x.tag, ack)))
            && x.ch < |t.channels| && t.channels[x.ch].place.Pooled? && Clean(t.channels[x.ch])
  {
    var s := Play(c, Init(c), before);
    PlayInv(c, Init(c), before);
    assert PushInv(s, p);
    var x := s.pushes[p];
    after, t := Then(c, s, [], s, Confirm(x.ch, x.tag, ack));
    assert t.channels[x.ch].unread == [Confirmation(x.tag, ack)] && t.channels[x.ch].awaiting == {};
    after, t := Then(c, s, after, t, Read(p));
    after, t := Then(c, s, after, t, GiveBack(p));
  }

  // ---- what comes back to the pool ----

  /** Nobody has this channel, and nobody will: it is out of the pool. */
  predicate Gone(s: State, ch: nat) {
    && ch < |s.channels| && s.channels[ch].place.Discarded?
    && forall p | 0 <= p < |s.pushes| && Busy(s.pushes[p]) :: s.pushes[p].ch != ch
  }

  lemma GoneStep(c: Config, s: State, a: Action, ch: nat)
    requires Gone(s, ch) && Enabled(c, s, a)
    ensures Gone(Apply(c, s, a), ch)
  {
  }

  lemma {:induction false} GonePlay(c: Config, s: State, actions: seq<Action>, ch: nat)
    requires Gone(s, ch)
    ensures Gone(Play(c, s, actions), ch)
    decreases |actions|
  {
    if actions != [] {
      if Enabled(c, s, actions[0]) {
        GoneStep(c, s, actions[0], ch);
        GonePlay(c, Apply(c, s, actions[0]), actions[1..], ch);
      } else {
        GonePlay(c, s, actions[1..], ch);
      }
    }
  }

  /**
   * Wherever a run has come to: a push that gives its channel back leaves it to the next one if it
   * is open, and otherwise takes it out of the pool for good.
   */
  lemma GivenBack(c: Config, before: seq<Action>, p: nat, after: seq<Action>)
    requires Enabled(c, Play(c, Init(c), before), GiveBack(p))
    ensures var s := Play(c, Init(c), before); var t := Apply(c, s, GiveBack(p)); var ch := s.pushes[p].ch;
            if s.channels[ch].open
            then t.channels[ch] == s.channels[ch].(place := Pooled) && t.pushes[p].Done?
            else Gone(t, ch) && Gone(Play(c, t, after), ch) && t.pushes[p].Done?
  {
    var s := Play(c, Init(c), before);
    var t := Apply(c, s, GiveBack(p));
    var ch := s.pushes[p].ch;
    PlayInv(c, Init(c), before);
    assert PushInv(s, p);
    if !s.channels[ch].open {
      forall i | 0 <= i < |t.pushes| && Busy(t.pushes[i]) ensures t.pushes[i].ch != ch {
        assert i != p && PushInv(s, i);
      }
      GonePlay(c, t, after, ch);
    }
  }

  /** A push that waited too long closes its channel, so that no late confirmation is read by another push. */
  lemma TimeOutClosesChannel(c: Config, before: seq<Action>, p: nat, after: seq<Action>)
    requires Enabled(c, Play(c, Init(c), before), TimeOut(p))
    ensures var s := Play(c, Init(c), before); var t := Apply(c, Apply(c, s, TimeOut(p)), GiveBack(p));
            Gone(Play(c, t, after), s.pushes[p].ch)
  {
    var s := Play(c, Init(c), before);
    PlaySnoc(c, Init(c), before, TimeOut(p));
    GivenBack(c, before + [TimeOut(p)], p, after);
  }

  // ---- pushes end ----

  /** A lent channel is in the hands of the push it was lent to. */
  predicate NoneLost(s: State) {
    forall ch | 0 <= ch < |s.channels| && s.channels[ch].place.Lent? ::
      var p := s.channels[ch].place.p;
      p < |s.pushes| && Busy(s.pushes[p]) && s.pushes[p].ch == ch
  }

  lemma LostStep(c: Config, s: State, a: Action)
    requires Inv(c, s) && NoneLost(s) && Enabled(c, s, a)
    ensures NoneLost(Apply(c, s, a))
  {
    if Actor(a) >= 0 {
      assert PushInv(s, Actor(a));
    }
  }

  lemma {:induction false} LostPlay(c: Config, s: State, actions: seq<Action>)
    requires Inv(c, s) && NoneLost(s)
    ensures NoneLost(Play(c, s, actions))
    decreases |actions|
  {
    if actions != [] {
      if Enabled(c, s, actions[0]) {
        Step(c, s, actions[0]);
        LostStep(c, s, actions[0]);
        LostPlay(c, Apply(c, s, actions[0]), actions[1..]);
      } else {
        LostPlay(c, s, actions[1..]);
      }
    }
  }

  /** In every interleaving, once no push is under way every channel is back in the pool or out of it for good. */
  lemma NoChannelIsLost(c: Config, actions: seq<Action>, ch: nat)
    requires var s := Play(c, Init(c), actions);
             ch < |s.channels| && forall p | 0 <= p < |s.pushes| :: !Busy(s.pushes[p])
    ensures !Play(c, Init(c), actions).channels[ch].place.Lent?
  {
    LostPlay(c, Init(c), actions);
  }

  function WayOut(s: State, p: nat): Action
    requires p < |s.pushes| && Busy(s.pushes[p]) && s.pushes[p].ch < |s.channels|
  {
    var x := s.channels[s.pushes[p].ch];
    if s.pushes[p].Holding? then Fail(p)
    else if s.closed then SeeCloseCh(p)
    else if !x.open && x.unread == [] then SeeDead(p)
    else TimeOut(p)
  }

  /**
   * Wherever a run has come to, a push that has a channel can end, whether its publish fails, its
   * time runs out, its channel dies or the operator is closed; it has read nothing then.
   */
  lemma PushCanEnd(c: Config, before: seq<Action>, p: nat, how: Action) returns (after: seq<Action>, t: State)
    requires var s := Play(c, Init(c), before);
             && p < |s.pushes| && (s.pushes[p].Holding? || s.pushes[p].Waiting?)
             && s.pushes[p].ch < |s.channels| && how == WayOut(s, p)
    ensures Play(c, Play(c, Init(c), before), after) == t && after == [how, GiveBack(p)]
    ensures p < |t.pushes| && t.pushes[p].Done? && t.pushes[p].seen == Nothing && !Busy(t.pushes[p])
  {
    var s := Play(c, Init(c), before);
    PlayInv(c, Init(c), before);
    assert PushInv(s, p);
    after, t := Then(c, s, [], s, how);
    after, t := Then(c, s, after, t, GiveBack(p));
  }

  /** A confirmation that has arrived is read even if the channel dies before. */
  lemma ArrivedIsRead(c: Config, s: State, p: nat)
    requires p < |s.pushes| && s.pushes[p].Waiting? && s.pushes[p].ch < |s.channels|
    requires s.channels[s.pushes[p].ch].open && s.channels[s.pushes[p].ch].unread != []
    ensures var x := s.pushes[p];
            && Enabled(c, s, Die(x.ch)) && Enabled(c, Apply(c, s, Die(x.ch)), Read(p))
            && Apply(c, Apply(c, s, Die(x.ch)), Read(p)).pushes[p] ==
               Finishing(x.ch, x.early, x.tag, Got(s.channels[x.ch].unread[0]))
  {
  }

  // ---- channels that can answer ----

  /** A channel that is not in confirm mode never has a confirmation due or unread. */
  predicate Mute(x: Channel) {
    !x.confirming ==> Clean(x)
  }

  /** A push that got a channel in no confirm mode has it to itself, and has read nothing. */
  predicate Unanswered(s: State, p: nat, ch: nat) {
    && p < |s.pushes| && ch < |s.channels| && !s.channels[ch].confirming
    && (forall i | 0 <= i < |s.channels| :: Mute(s.channels[i]))
    && match s.pushes[p]
       case Idle => false
       case Holding(x, _) => x == ch
       case Waiting(x, _, _) => x == ch
       case Finishing(x, _, _, seen) => x == ch && seen == Nothing
       case Done(_, _, seen) => seen == Nothing
  }

  lemma MuteStep(c: Config, s: State, a: Action)
    requires Enabled(c, s, a) && forall i | 0 <= i < |s.channels| :: Mute(s.channels[i])
    ensures forall i | 0 <= i < |Apply(c, s, a).channels| :: Mute(Apply(c, s, a).channels[i])
  {
  }

  lemma {:induction false} MutePlay(c: Config, s: State, actions: seq<Action>)
    requires forall i | 0 <= i < |s.channels| :: Mute(s.channels[i])
    ensures forall i | 0 <= i < |Play(c, s, actions).channels| :: Mute(Play(c, s, actions).channels[i])
    decreases |actions|
  {
    if actions != [] {
      if Enabled(c, s, actions[0]) {
        MuteStep(c, s, actions[0]);
        MutePlay(c, Apply(c, s, actions[0]), actions[1..]);
      } else {
        MutePlay(c, s, actions[1..]);
      }
    }
  }

  lemma UnansweredStep(c: Config, s: State, a: Action, p: nat, ch: nat)
    requires Unanswered(s, p, ch) && Enabled(c, s, a)
    ensures Unanswered(Apply(c, s, a), p, ch)
  {
    MuteStep(c, s, a);
    assert Mute(s.channels[ch]);
  }

  lemma {:induction false} UnansweredPlay(c: Config, s: State, actions: seq<Action>, p: nat, ch: nat)
    requires Unanswered(s, p, ch)
    ensures Unanswered(Play(c, s, actions), p, ch)
    decreases |actions|
  {
    if actions != [] {
      if Enabled(c, s, actions[0]) {
        UnansweredStep(c, s, actions[0], p, ch);
        UnansweredPlay(c, Apply(c, s, actions[0]), actions[1..], p, ch);
      } else {
        UnansweredPlay(c, s, actions[1..], p, ch);
      }
    }
  }

  predicate Answered(s: State, p: nat) {
    p < |s.pushes| && (s.pushes[p].Finishing? || s.pushes[p].Done?) && s.pushes[p].seen.Got?
  }

  ghost predicate MayBeAnswered(c: Config, s: State, p: nat) {
    exists after :: Answered(Play(c, s, after), p)
  }

  /** A push on an open channel in confirm mode can be answered. */
  lemma CanBeAnswered(c: Config, s: State, p: nat, ch: nat) returns (after: seq<Action>)
    requires p < |s.pushes| && s.pushes[p].Holding? && s.pushes[p].ch == ch && ch < |s.channels|
    requires s.channels[ch].open && s.channels[ch].confirming
    ensures Answered(Play(c, s, after), p)
  {
    var t;
    after, t := Then(c, s, [], s, Publish(p));
    after, t := Then(c, s, after, t, Confirm(ch, t.pushes[p].tag, true));
    after, t := Then(c, s, after, t, Read(p));
  }

  /**
   * Wherever a run has come to, a push that borrows a channel now can be answered exactly if the
   * channel is open and still in confirm mode: one that recheck has to rebuild is not.
   */
  lemma AnsweredIff(c: Config, before: seq<Action>, p: nat, ch: nat)
    requires Enabled(c, Play(c, Init(c), before), Borrow(p, ch))
    ensures var s := Play(c, Init(c), before);
            MayBeAnswered(c, Apply(c, s, Borrow(p, ch)), p) <==> s.channels[ch].open && s.channels[ch].confirming
  {
    var s := Play(c, Init(c), before);
    var t := Apply(c, s, Borrow(p, ch));
    MutePlay(c, Init(c), before);
    if s.channels[ch].open && s.channels[ch].confirming {
      var after := CanBeAnswered(c, t, p, ch);
    } else {
      MuteStep(c, s, Borrow(p, ch));
      forall after ensures !Answered(Play(c, t, after), p) {
        UnansweredPlay(c, t, after, p, ch);
      }
    }
  }

  // ---- after Close ----

  /** A push that gives up on closeCh returns an open channel whose confirmation is still due. */
  lemma ReturnedDirty(c: Config) returns (actions: seq<Action>, t: State)
    requires c.mayClose && c.pushes > 1
    ensures Play(c, Init(c), actions) == t
    ensures t == State([Channel(true, true, 1, {1}, [], Pooled)], Init(c).pushes[0 := Done(true, 1, Nothing)], true)
  {
    actions, t := Then(c, Init(c), [], Init(c), Create);
    actions, t := Then(c, Init(c), actions, t, Borrow(0, 0));
    assert t.channels == [Channel(true, true, 0, {}, [], Lent(0))];
    actions, t := Then(c, Init(c), actions, t, Publish(0));
    assert t.channels[0].awaiting == {1};
    assert t.channels == [Channel(true, true, 1, {1}, [], Lent(0))];
    actions, t := Then(c, Init(c), actions, t, Close);
    actions, t := Then(c, Init(c), actions, t, SeeCloseCh(0));
    assert t.pushes == Init(c).pushes[0 := Finishing(0, true, 1, Nothing)];
    actions, t := Then(c, Init(c), actions, t, GiveBack(0));
  }

  /** The next push on that channel reads the confirmation of the first. */
  lemma ConfirmationOfAnother(c: Config) returns (actions: seq<Action>, t: State)
    requires c.mayClose && c.pushes > 1
    ensures Play(c, Init(c), actions) == t && !Matched(t)
  {
    actions, t := ReturnedDirty(c);
    actions, t := Then(c, Init(c), actions, t, Borrow(1, 0));
    actions, t := Then(c, Init(c), actions, t, Publish(1));
    actions, t := Then(c, Init(c), actions, t, Confirm(0, 1, true));
    actions, t := Then(c, Init(c), actions, t, Read(1));
    assert t.pushes[1] == Finishing(0, false, 2, Got(Confirmation(1, true)));
  }

  /** Confirmations match in every interleaving exactly when the operator is not closed under way. */
  lemma MatchedIff(c: Config)
    requires c.pushes > 1
    ensures (forall actions :: Matched(Play(c, Init(c), actions))) <==> !c.mayClose
  {
    if c.mayClose {
      var actions, t := ConfirmationOfAnother(c);
    } else {
      forall actions ensures Matched(Play(c, Init(c), actions)) {
        PlayInv(c, Init(c), actions);
        ConfirmsMatch(c, actions);
      }
    }
  }
}
