/**
 * How consumers of one topic and group come by their reader (kafkax consume, getReader and
 * CancelConsume): the key's entries in the cancel-channel and reader maps, any number of
 * consume calls and of CancelConsume calls, one map operation at a time.
 */
module KafkaRegistry {

  datatype Option<T> = None | Some(value: T)

  /** A consume call; its cancel channel is named by its number. */
  datatype Consumer = Calling | Claimed | Looping(reader: nat) | Refused | Stopped(reader: nat)

  datatype Canceller = Calling | Seen | ReaderGone | Over

  /** `cancelled` holds the closed cancel channels, `closed` the closed readers. */
  datatype State = State(cancel: Option<nat>, reader: Option<nat>, nextReader: nat, cancelled: set<nat>,
                         closed: set<nat>, consumers: seq<Consumer>, cancellers: seq<Canceller>)

  datatype Action =
    | Claim(k: nat) | GetReader(k: nat) | NoReader(k: nat) | Stop(k: nat) | Panic(k: nat)
    | Look(j: nat) | CloseReader(j: nat) | CloseChannel(j: nat)
    | Crash

  function Init(consumers: nat, cancellers: nat): State {
    State(None, None, 0, {}, {}, seq(consumers, _ => Consumer.Calling), seq(cancellers, _ => Canceller.Calling))
  }

  predicate Enabled(s: State, a: Action) {
    match a
    case Claim(k) => k < |s.consumers| && s.consumers[k].Calling?
    case GetReader(k) => k < |s.consumers| && s.consumers[k].Claimed?
    case NoReader(k) => k < |s.consumers| && s.consumers[k].Claimed? && s.reader.None?
    case Stop(k) => k < |s.consumers| && s.consumers[k].Looping? && k in s.cancelled
    case Panic(k) => k < |s.consumers| && s.consumers[k].Looping?
    case Look(j) => j < |s.cancellers| && s.cancellers[j].Calling?
    case CloseReader(j) => j < |s.cancellers| && s.cancellers[j].Seen?
    case CloseChannel(j) => j < |s.cancellers| && s.cancellers[j].ReaderGone?
    case Crash => true
  }

  function SetConsumer(s: State, k: nat, x: Consumer): State
    requires k < |s.consumers|
  {
    s.(consumers := s.consumers[k := x])
  }

  function SetCanceller(s: State, j: nat, x: Canceller): State
    requires j < |s.cancellers|
  {
    s.(cancellers := s.cancellers[j := x])
  }

  /** The cancel channel is taken out only if it is the consumer's own. */
  function Freed(s: State, k: nat): Option<nat> {
    if s.cancel == Some(k) then None else s.cancel
  }

  /** A failing getReader frees the key; so does a loop that panics, which leaves its reader registered. */
  function Apply(s: State, a: Action): State
    requires Enabled(s, a)
  {
    match a
    case Claim(k) =>
      if s.cancel.Some? then SetConsumer(s, k, Refused) else SetConsumer(s, k, Claimed).(cancel := Some(k))
    case GetReader(k) =>
      if s.reader.Some? then SetConsumer(s, k, Looping(s.reader.value))
      else SetConsumer(s, k, Looping(s.nextReader)).(reader := Some(s.nextReader), nextReader := s.nextReader + 1)
    case NoReader(k) => SetConsumer(s, k, Refused).(cancel := Freed(s, k))
    case Stop(k) => SetConsumer(s, k, Stopped(s.consumers[k].reader)).(cancel := Freed(s, k))
    case Panic(k) => SetConsumer(s, k, Stopped(s.consumers[k].reader)).(cancel := Freed(s, k))
    case Look(j) => SetCanceller(s, j, if s.cancel.Some? then Seen else Over)
    case CloseReader(j) =>
      SetCanceller(s, j, ReaderGone).(
        reader := None, closed := if s.reader.Some? then s.closed + {s.reader.value} else s.closed)
    case CloseChannel(j) =>
      SetCanceller(s, j, Over).(
        cancel := None, cancelled := if s.cancel.Some? then s.cancelled + {s.cancel.value} else s.cancelled)
    case Crash => Crashed(s)
  }

  function Ended(x: Consumer): Consumer {
    match x
    case Claimed => Refused
    case Looping(reader) => Stopped(reader)
    case _ => x
  }

  /** The process is gone with its maps, its loops and its calls; later calls are those of the next process. */
  function Crashed(s: State): State {
    s.(cancel := None, reader := None,
       consumers := seq(|s.consumers|, k requires 0 <= k < |s.consumers| => Ended(s.consumers[k])),
       cancellers := seq(|s.cancellers|, j requires 0 <= j < |s.cancellers| =>
                           if s.cancellers[j].Calling? then Canceller.Calling else Over))
  }

  function Play(s: State, actions: seq<Action>): State
    decreases |actions|
  {
    if actions == [] then s else Play(if Enabled(s, actions[0]) then Apply(s, actions[0]) else s, actions[1..])
  }

  // ---- one live consumer ----

  /** Consumers that have claimed the key and were not cancelled. */
  predicate Live(s: State, k: nat) {
    k < |s.consumers| && (s.consumers[k].Claimed? || s.consumers[k].Looping?) && k !in s.cancelled
  }

  /** A consumer that has been given a reader, whether its loop still runs or not. */
  predicate Got(x: Consumer) {
    x.Looping? || x.Stopped?
  }

  /** The registered reader is open, and nobody reads from a reader that was never made. */
  predicate Inv(s: State) {
    && (forall k | 0 <= k < |s.consumers| && Live(s, k) :: s.cancel == Some(k))
    && (forall k | k in s.cancelled :: k < |s.consumers| && !s.consumers[k].Calling?)
    && (s.cancel.Some? ==> Live(s, s.cancel.value))
    && (s.reader.Some? ==> s.reader.value < s.nextReader && s.reader.value !in s.closed)
    && (forall r | r in s.closed :: r < s.nextReader)
    && (forall k | 0 <= k < |s.consumers| && Got(s.consumers[k]) :: s.consumers[k].reader < s.nextReader)
  }

  predicate OfConsumer(a: Action) {
    a.Claim? || a.GetReader? || a.NoReader? || a.Stop? || a.Panic?
  }

  lemma StepOfConsumer(s: State, a: Action)
    requires Inv(s) && Enabled(s, a) && OfConsumer(a)
    ensures Inv(Apply(s, a))
  {
  }

  lemma StepOfOthers(s: State, a: Action)
    requires Inv(s) && Enabled(s, a) && !OfConsumer(a)
    ensures Inv(Apply(s, a))
  {
  }

  lemma Step(s: State, a: Action)
    requires Inv(s) && Enabled(s, a)
    ensures Inv(Apply(s, a))
  {
    if OfConsumer(a) {
      StepOfConsumer(s, a);
    } else {
      StepOfOthers(s, a);
    }
  }

  lemma {:induction false} PlayInv(s: State, actions: seq<Action>)
    requires Inv(s)
    ensures Inv(Play(s, actions))
    decreases |actions|
  {
    if actions != [] {
      if Enabled(s, actions[0]) {
        Step(s, actions[0]);
        PlayInv(Apply(s, actions[0]), actions[1..]);
      } else {
        PlayInv(s, actions[1..]);
      }
    }
  }

  /**
   * In every interleaving a key has at most one consumer that was not cancelled, and a consumer
   * that asks for its reader now is given one that is open.
   */
  lemma OneLiveConsumer(consumers: nat, cancellers: nat, actions: seq<Action>)
    ensures var s := Play(Init(consumers, cancellers), actions);
            && (forall k: nat, l: nat | Live(s, k) && Live(s, l) :: k == l)
            && (forall k: nat | Enabled(s, GetReader(k)) :: Apply(s, GetReader(k)).consumers[k].reader !in s.closed)
  {
    PlayInv(Init(consumers, cancellers), actions);
  }

  // ---- one reader, one loop ----

  /** No two consumers were ever given the same reader, stopped ones included. */
  predicate OwnReaders(s: State) {
    forall k, l | 0 <= k < l < |s.consumers| && Got(s.consumers[k]) && Got(s.consumers[l]) ::
      s.consumers[k].reader != s.consumers[l].reader
  }

  /** Between the Load and the close of the channel in CancelConsume. */
  predicate Cancelling(x: Canceller) {
    x.Seen? || x.ReaderGone?
  }

  /** No cancel on the key overlaps another one, or a consume that has claimed the key but has no reader yet. */
  predicate Serial(s: State) {
    && (forall k, j | 0 <= k < |s.consumers| && 0 <= j < |s.cancellers| ::
          !(s.consumers[k].Claimed? && Cancelling(s.cancellers[j])))
    && (forall i, j | 0 <= i < j < |s.cancellers| :: !(Cancelling(s.cancellers[i]) && Cancelling(s.cancellers[j])))
  }

  /** A live consumer's loop that panics now would leave its reader registered. */
  predicate HoldsReader(s: State, k: nat) {
    Live(s, k) && s.consumers[k].Looping? && s.reader == Some(s.consumers[k].reader)
  }

  /** No step but a panic breaks the order; a panic does if it leaves a reader behind. */
  predicate Orderly(s: State, a: Action) {
    a.Panic? ==> !HoldsReader(s, a.k)
  }

  predicate SerialRun(s: State, actions: seq<Action>)
    decreases |actions|
  {
    && Serial(s)
    && (actions == [] ||
        (Orderly(s, actions[0]) &&
         SerialRun(if Enabled(s, actions[0]) then Apply(s, actions[0]) else s, actions[1..])))
  }

  /** A registered reader is the live consumer's own, and nobody who still needs one finds one. */
  predicate SerialInv(s: State) {
    && Inv(s) && Serial(s) && OwnReaders(s)
    && (s.reader.Some? ==> s.cancel.Some? && s.consumers[s.cancel.value] == Looping(s.reader.value))
    && (forall k | 0 <= k < |s.consumers| && s.consumers[k].Claimed? :: s.reader.None? && Live(s, k))
    && (forall j | 0 <= j < |s.cancellers| && s.cancellers[j].ReaderGone? :: s.reader.None?)
  }

  lemma SerialOwns(s: State, a: Action)
    requires SerialInv(s) && Enabled(s, a)
    ensures OwnReaders(Apply(s, a))
  {
    var t := Apply(s, a);
    assert forall k | 0 <= k < |s.consumers| && (a.GetReader? ==> k != a.k) ::
        && Got(t.consumers[k]) == Got(s.consumers[k])
        && (Got(s.consumers[k]) ==> t.consumers[k].reader == s.consumers[k].reader);
  }

  lemma SerialStep(s: State, a: Action)
    requires SerialInv(s) && Enabled(s, a) && Orderly(s, a) && Serial(Apply(s, a))
    ensures SerialInv(Apply(s, a))
  {
    Step(s, a);
    SerialOwns(s, a);
  }

  lemma {:induction false} SerialPlay(s: State, actions: seq<Action>)
    requires SerialInv(s) && SerialRun(s, actions)
    ensures SerialInv(Play(s, actions))
    decreases |actions|
  {
    if actions != [] {
      var t := if Enabled(s, actions[0]) then Apply(s, actions[0]) else s;
      assert Serial(t);
      if Enabled(s, actions[0]) {
        SerialStep(s, actions[0]);
      }
      SerialPlay(t, actions[1..]);
    }
  }

  /**
   * Any number of consumers, cancels, restarts and crashes: if no CancelConsume overlaps another
   * one, or a consume between its claim and its reader, and no live consumer's loop panics, no two
   * loops are ever given one reader.
   */
  lemma SerialRunsOwnReaders(consumers: nat, cancellers: nat, actions: seq<Action>)
    requires SerialRun(Init(consumers, cancellers), actions)
    ensures OwnReaders(Play(Init(consumers, cancellers), actions))
  {
    SerialPlay(Init(consumers, cancellers), actions);
  }

  // ---- readers are closed ----

  predicate NoCrash(actions: seq<Action>) {
    forall a | a in actions :: !a.Crash?
  }

  /** Every reader that was ever made is the registered one or closed. */
  predicate NoReaderLeaks(s: State) {
    forall r: nat | r < s.nextReader :: r in s.closed || s.reader == Some(r)
  }

  lemma LeakStep(s: State, a: Action)
    requires NoReaderLeaks(s) && Enabled(s, a) && !a.Crash?
    ensures NoReaderLeaks(Apply(s, a))
  {
  }

  lemma {:induction false} LeakPlay(s: State, actions: seq<Action>)
    requires NoReaderLeaks(s) && NoCrash(actions)
    ensures NoReaderLeaks(Play(s, actions))
    decreases |actions|
  {
    if actions != [] {
      assert actions[0] in actions && forall a | a in actions[1..] :: a in actions;
      if Enabled(s, actions[0]) {
        LeakStep(s, actions[0]);
        LeakPlay(Apply(s, actions[0]), actions[1..]);
      } else {
        LeakPlay(s, actions[1..]);
      }
    }
  }

  /** In every run of one process no reader is ever left open beside the registered one, whatever overlaps. */
  lemma NoReaderIsLost(consumers: nat, cancellers: nat, actions: seq<Action>)
    requires NoCrash(actions)
    ensures NoReaderLeaks(Play(Init(consumers, cancellers), actions))
  {
    LeakPlay(Init(consumers, cancellers), actions);
  }

  /** In a serial run a consumer that was cancelled has its reader closed. */
  lemma CancelClosesReader(consumers: nat, cancellers: nat, actions: seq<Action>, k: nat)
    requires SerialRun(Init(consumers, cancellers), actions) && NoCrash(actions)
    requires var s := Play(Init(consumers, cancellers), actions);
             k in s.cancelled && k < |s.consumers| && Got(s.consumers[k])
    ensures var s := Play(Init(consumers, cancellers), actions); s.consumers[k].reader in s.closed
  {
    SerialPlay(Init(consumers, cancellers), actions);
    NoReaderIsLost(consumers, cancellers, actions);
  }

  // ---- one cancel, from start to end ----

  /** CancelConsume of a key that nobody consumes does nothing. */
  lemma IdleCancelDoesNothing(s: State, j: nat)
    requires Enabled(s, Look(j)) && s.cancel.None?
    ensures Apply(s, Look(j)) == s.(cancellers := s.cancellers[j := Over])
  {
  }

  /**
   * Wherever a run has come to: a CancelConsume without interference cancels the consumer that holds
   * the key and closes the registered reader; the key is free, and the next consumer makes a reader.
   */
  lemma CancelThenConsume(consumers: nat, cancellers: nat, before: seq<Action>, k: nat, j: nat, l: nat)
    returns (after: seq<Action>, t: State)
    requires var s := Play(Init(consumers, cancellers), before);
             && s.cancel == Some(k) && Enabled(s, Look(j)) && l < |s.consumers| && s.consumers[l].Calling?
    ensures Play(Play(Init(consumers, cancellers), before), after) == t
    ensures var s := Play(Init(consumers, cancellers), before);
            && k in t.cancelled && (s.reader.Some? ==> s.reader.value in t.closed)
            && l < |t.consumers| && t.consumers[l] == Looping(s.nextReader) && t.cancel == Some(l)
            && t.cancellers == s.cancellers[j := Over]
  {
    var s := Play(Init(consumers, cancellers), before);
    PlayInv(Init(consumers, cancellers), before);
    after, t := Then(s, [], s, Look(j));
    after, t := Then(s, after, t, CloseReader(j));
    after, t := Then(s, after, t, CloseChannel(j));
    after, t := Then(s, after, t, Claim(l));
    after, t := Then(s, after, t, GetReader(l));
    assert t.cancellers == s.cancellers[j := Over];
  }

  // ---- every overlap and every panic can share ----

  predicate NoPanic(actions: seq<Action>) {
    forall a | a in actions :: !a.Panic?
  }

  lemma {:induction false} PlaySnoc(s: State, actions: seq<Action>, a: Action)
    ensures Play(s, actions + [a]) == var t := Play(s, actions); if Enabled(t, a) then Apply(t, a) else t
    decreases |actions|
  {
    if actions == [] {
      assert [a][1..] == [];
    } else {
      assert (actions + [a])[1..] == actions[1..] + [a];
      PlaySnoc(if Enabled(s, actions[0]) then Apply(s, actions[0]) else s, actions[1..], a);
    }
  }

  lemma Then(s: State, actions: seq<Action>, t: State, a: Action) returns (actions': seq<Action>, t': State)
    requires Play(s, actions) == t && Enabled(t, a)
    ensures Play(s, actions') == t' && t' == Apply(t, a) && actions' == actions + [a]
  {
    PlaySnoc(s, actions, a);
    actions', t' := actions + [a], Apply(t, a);
  }

  /** Canceller j gets to the point where it closes the channel. */
  lemma ReaderIsGone(s: State, actions: seq<Action>, t: State, j: nat) returns (actions': seq<Action>, t': State)
    requires Play(s, actions) == t && j < |t.cancellers| && Cancelling(t.cancellers[j])
    ensures Play(s, actions') == t' && t'.consumers == t.consumers && t'.cancel == t.cancel
    ensures t'.cancelled == t.cancelled && t'.cancellers == t.cancellers[j := ReaderGone]
    ensures NoPanic(actions) ==> NoPanic(actions')
  {
    actions', t' := actions, t;
    if t.cancellers[j].Seen? {
      actions', t' := Then(s, actions, t, CloseReader(j));
    }
  }

  /** A new consumer claims a free key and is given the registered reader. */
  lemma NextConsumer(s: State, actions: seq<Action>, t: State, l: nat) returns (actions': seq<Action>, t': State)
    requires Play(s, actions) == t && l < |t.consumers| && t.consumers[l].Calling? && t.cancel.None?
    ensures Play(s, actions') == t' && t'.reader.Some? && (t.reader.Some? ==> t'.reader == t.reader)
    ensures t'.consumers == t.consumers[l := Looping(t'.reader.value)] && t'.cancel == Some(l)
    ensures t'.cancellers == t.cancellers
    ensures NoPanic(actions) ==> NoPanic(actions')
  {
    actions', t' := Then(s, actions, t, Claim(l));
    actions', t' := Then(s, actions', t', GetReader(l));
    assert t'.consumers == t.consumers[l := Looping(t'.reader.value)];
  }

  /**
   * Wherever a run has come to: if a cancel is under way while a live consumer has claimed the key
   * and has no reader yet, the next consumer can be given that consumer's reader.
   */
  lemma ClaimOverlapShares(consumers: nat, cancellers: nat, before: seq<Action>, k: nat, j: nat, l: nat)
    returns (after: seq<Action>)
    requires var s := Play(Init(consumers, cancellers), before);
             && Live(s, k) && s.consumers[k].Claimed? && j < |s.cancellers| && Cancelling(s.cancellers[j])
             && l < |s.consumers| && s.consumers[l].Calling?
    ensures !OwnReaders(Play(Play(Init(consumers, cancellers), before), after)) && NoPanic(after)
  {
    var s := Play(Init(consumers, cancellers), before);
    PlayInv(Init(consumers, cancellers), before);
    var t;
    after, t := ReaderIsGone(s, [], s, j);
    after, t := Then(s, after, t, GetReader(k));
    after, t := Then(s, after, t, CloseChannel(j));
    after, t := NextConsumer(s, after, t, l);
    assert Got(t.consumers[k]) && Got(t.consumers[l]) && t.consumers[k].reader == t.consumers[l].reader;
  }

  /**
   * Wherever a run has come to: if two cancels overlap, the second of them can cancel a consumer
   * without closing its reader, and the consumer after that is given it.
   */
  lemma CancelOverlapShares(consumers: nat, cancellers: nat, before: seq<Action>, i: nat, j: nat, l: nat, m: nat)
    returns (after: seq<Action>)
    requires var s := Play(Init(consumers, cancellers), before);
             && i < |s.cancellers| && j < |s.cancellers| && i != j
             && Cancelling(s.cancellers[i]) && Cancelling(s.cancellers[j])
             && l < |s.consumers| && m < |s.consumers| && l != m && s.consumers[l].Calling? && s.consumers[m].Calling?
    ensures !OwnReaders(Play(Play(Init(consumers, cancellers), before), after)) && NoPanic(after)
  {
    var s := Play(Init(consumers, cancellers), before);
    var t;
    after, t := ReaderIsGone(s, [], s, i);
    after, t := ReaderIsGone(s, after, t, j);
    after, t := Then(s, after, t, CloseChannel(i));
    after, t := NextConsumer(s, after, t, l);
    var r := t.reader;
    after, t := Then(s, after, t, CloseChannel(j));
    after, t := NextConsumer(s, after, t, m);
    assert Got(t.consumers[l]) && Got(t.consumers[m]) && t.consumers[l].reader == t.consumers[m].reader;
  }

  /** Wherever a run has come to: if a live consumer's loop panics, the next consumer is given its reader. */
  lemma PanicShares(consumers: nat, cancellers: nat, before: seq<Action>, k: nat, l: nat) returns (after: seq<Action>)
    requires var s := Play(Init(consumers, cancellers), before);
             HoldsReader(s, k) && l < |s.consumers| && s.consumers[l].Calling?
    ensures !OwnReaders(Play(Play(Init(consumers, cancellers), before), after))
  {
    var s := Play(Init(consumers, cancellers), before);
    PlayInv(Init(consumers, cancellers), before);
    var t;
    after, t := Then(s, [], s, Panic(k));
    after, t := NextConsumer(s, after, t, l);
    assert Got(t.consumers[k]) && Got(t.consumers[l]) && t.consumers[k].reader == t.consumers[l].reader;
  }

  /** From the start, without a cancel: the first loop panics. */
  lemma PanickedReader(consumers: nat, cancellers: nat) returns (actions: seq<Action>, t: State)
    requires consumers > 1
    ensures Play(Init(consumers, cancellers), actions) == t && !OwnReaders(t)
  {
    var s := Init(consumers, cancellers);
    actions, t := Then(s, [], s, Claim(0));
    actions, t := Then(s, actions, t, GetReader(0));
    var after := PanicShares(consumers, cancellers, actions, 0, 1);
    PlayConcat(s, actions, after);
    actions := actions + after;
    t := Play(s, actions);
  }

  /** From the start: a cancel that looks for the reader before there is one. */
  lemma SharedReader(consumers: nat, cancellers: nat) returns (actions: seq<Action>, t: State)
    requires consumers > 1 && cancellers > 0
    ensures Play(Init(consumers, cancellers), actions) == t && !OwnReaders(t) && NoPanic(actions)
  {
    var s := Init(consumers, cancellers);
    actions, t := Then(s, [], s, Claim(0));
    actions, t := Then(s, actions, t, Look(0));
    var after := ClaimOverlapShares(consumers, cancellers, actions, 0, 0, 1);
    PlayConcat(s, actions, after);
    actions := actions + after;
    t := Play(s, actions);
  }

  lemma {:induction false} PlayConcat(s: State, a: seq<Action>, b: seq<Action>)
    ensures Play(s, a + b) == Play(Play(s, a), b)
    decreases |a|
  {
    if a == [] {
      assert a + b == b;
    } else {
      assert (a + b)[1..] == a[1..] + b;
      PlayConcat(if Enabled(s, a[0]) then Apply(s, a[0]) else s, a[1..], b);
    }
  }

  lemma {:induction false} SizesStay(s: State, actions: seq<Action>)
    ensures |Play(s, actions).consumers| == |s.consumers| && |Play(s, actions).cancellers| == |s.cancellers|
    decreases |actions|
  {
    if actions != [] {
      SizesStay(if Enabled(s, actions[0]) then Apply(s, actions[0]) else s, actions[1..]);
    }
  }

  /** Without CancelConsume there is nothing to overlap. */
  lemma {:induction false} NoCancelIsSerial(s: State, actions: seq<Action>)
    requires s.cancellers == [] && NoPanic(actions)
    ensures SerialRun(s, actions)
    decreases |actions|
  {
    if actions != [] {
      assert actions[0] in actions && forall a | a in actions[1..] :: a in actions;
      NoCancelIsSerial(if Enabled(s, actions[0]) then Apply(s, actions[0]) else s, actions[1..]);
    }
  }

  /**
   * Readers are owned in all interleavings exactly if there is one consume call at most, or nobody
   * cancels and no loop panics.
   */
  lemma OwnReadersIff(consumers: nat, cancellers: nat, mayPanic: bool)
    ensures (forall actions | mayPanic || NoPanic(actions) :: OwnReaders(Play(Init(consumers, cancellers), actions)))
            <==> consumers <= 1 || (cancellers == 0 && !mayPanic)
  {
    var s := Init(consumers, cancellers);
    if consumers > 1 && mayPanic {
      var actions, t := PanickedReader(consumers, cancellers);
    } else if consumers > 1 && cancellers > 0 {
      var actions, t := SharedReader(consumers, cancellers);
    } else {
      forall actions | mayPanic || NoPanic(actions) ensures OwnReaders(Play(s, actions)) {
        SizesStay(s, actions);
        if consumers > 1 {
          NoCancelIsSerial(s, actions);
          SerialRunsOwnReaders(consumers, cancellers, actions);
        }
      }
    }
  }
}
