/**
 * The consume loops of KafkaConsume started by the consumers of KafkaRegistry: each GetReader
 * starts a loop on the reader it was given, a cancelled consumer's loop exits, and a crash ends
 * all loops. The commit frontier then rests on how Consume and CancelConsume are called.
 */
module KafkaFrontier {
  import KafkaRegistry
  import KafkaConsume

  /** `loops` names the loop of each consumer that has one. */
  datatype State = State(registry: KafkaRegistry.State, topic: KafkaConsume.State, loops: map<nat, nat>)

  datatype Action = Call(call: KafkaRegistry.Action) | Loop(step: KafkaConsume.Action)

  function Init(consumers: nat, cancellers: nat): State {
    State(KafkaRegistry.Init(consumers, cancellers), KafkaConsume.INIT, map[])
  }

  /** Loops and readers come from the registry only; a closed reader may still yield what it has buffered. */
  predicate Enabled(c: KafkaConsume.Config, s: State, a: Action) {
    match a
    case Call(x) => KafkaRegistry.Enabled(s.registry, x)
    case Loop(x) =>
      !x.NewReader? && !x.Start? && KafkaConsume.Enabled(c, s.topic, x)
  }

  /** The reader that a consumer is given now. */
  function ReaderFor(s: KafkaRegistry.State): nat {
    if s.reader.Some? then s.reader.value else s.nextReader
  }

  /** A loop on that reader; a reader made for it starts at the committed offset. */
  function Started(s: State): KafkaConsume.State {
    var topic :=
      if s.registry.reader.Some? then s.topic else s.topic.(positions := s.topic.positions + [s.topic.committed]);
    topic.(loops := topic.loops + [KafkaConsume.Loop(ReaderFor(s.registry), KafkaConsume.Top)])
  }

  function AllExited(topic: KafkaConsume.State): KafkaConsume.State {
    topic.(loops := seq(|topic.loops|, l requires 0 <= l < |topic.loops| => topic.loops[l].(at := KafkaConsume.Exited)))
  }

  function Stopped(s: State, k: nat): KafkaConsume.State {
    if k in s.loops && s.loops[k] < |s.topic.loops| then KafkaConsume.Go(s.topic, s.loops[k], KafkaConsume.Exited)
    else s.topic
  }

  function Apply(c: KafkaConsume.Config, s: State, a: Action): State
    requires Enabled(c, s, a)
  {
    match a
    case Loop(x) => s.(topic := KafkaConsume.Apply(c, s.topic, x))
    case Call(x) =>
      var registry := KafkaRegistry.Apply(s.registry, x);
      match x
      case GetReader(k) => State(registry, Started(s), s.loops[k := |s.topic.loops|])
      case Stop(k) => State(registry, Stopped(s, k), s.loops)
      case Panic(k) => State(registry, Stopped(s, k), s.loops)
      case Crash => State(registry, AllExited(s.topic), s.loops)
      case _ => s.(registry := registry)
  }

  function Play(c: KafkaConsume.Config, s: State, actions: seq<Action>): State
    decreases |actions|
  {
    if actions == [] then s
    else Play(c, if Enabled(c, s, actions[0]) then Apply(c, s, actions[0]) else s, actions[1..])
  }

  predicate Orderly(s: State, a: Action) {
    a.Call? ==> KafkaRegistry.Orderly(s.registry, a.call)
  }

  /** At no point of the run do a cancel and a claim, or two cancels, overlap, and no panic leaves a reader behind. */
  predicate SerialRun(c: KafkaConsume.Config, s: State, actions: seq<Action>)
    decreases |actions|
  {
    && KafkaRegistry.Serial(s.registry)
    && (actions == [] ||
        (Orderly(s, actions[0]) &&
         SerialRun(c, if Enabled(c, s, actions[0]) then Apply(c, s, actions[0]) else s, actions[1..])))
  }

  // ---- the frontier, as long as new loops get unused readers ----

  /** Readers have the same numbers on both sides. */
  predicate Linked(s: State) {
    && |s.topic.positions| == s.registry.nextReader
    && (s.registry.reader.Some? ==> s.registry.reader.value < s.registry.nextReader)
    && forall l | 0 <= l < |s.topic.loops| :: s.topic.loops[l].reader < s.registry.nextReader
  }

  predicate Inv(c: KafkaConsume.Config, s: State) {
    Linked(s) && KafkaConsume.Inv(c, s.topic)
  }

  /** What the theorems need of a step: a loop that starts has its reader to itself. */
  predicate Owned(s: State, a: Action) {
    a.Call? && a.call.GetReader? ==> KafkaConsume.Unused(s.topic, ReaderFor(s.registry))
  }

  lemma StartKeeps(c: KafkaConsume.Config, s: State)
    requires Inv(c, s) && KafkaConsume.Unused(s.topic, ReaderFor(s.registry))
    ensures KafkaConsume.Inv(c, Started(s))
  {
    var topic := s.topic;
    if s.registry.reader.None? {
      KafkaConsume.Step(c, topic, KafkaConsume.NewReader);
      topic := KafkaConsume.Apply(c, topic, KafkaConsume.NewReader);
    }
    var start := KafkaConsume.Start(ReaderFor(s.registry));
    KafkaConsume.Step(c, topic, start);
    assert KafkaConsume.Apply(c, topic, start) == Started(s);
  }

  lemma ExitKeeps(c: KafkaConsume.Config, topic: KafkaConsume.State)
    requires KafkaConsume.Inv(c, topic)
    ensures KafkaConsume.Inv(c, AllExited(topic))
  {
    var t := AllExited(topic);
    forall l | 0 <= l < |t.loops| ensures KafkaConsume.LoopInv(c, t, l) {
      assert KafkaConsume.LoopInv(c, topic, l);
    }
    forall r | 0 <= r < |t.positions| && KafkaConsume.Unused(t, r) ensures KafkaConsume.Frontier(c, t, t.positions[r]) {
      assert forall l | 0 <= l < |topic.loops| :: topic.loops[l].reader == t.loops[l].reader;
      assert KafkaConsume.Unused(topic, r);
    }
  }

  lemma TopicStep(c: KafkaConsume.Config, s: State, a: Action)
    requires Inv(c, s) && Enabled(c, s, a) && Owned(s, a)
    ensures KafkaConsume.Inv(c, Apply(c, s, a).topic)
  {
    match a
    case Loop(x) => KafkaConsume.Step(c, s.topic, x);
    case Call(x) =>
      if x.GetReader? {
        StartKeeps(c, s);
      } else if (x.Stop? || x.Panic?) && x.k in s.loops && s.loops[x.k] < |s.topic.loops| {
        KafkaConsume.Step(c, s.topic, KafkaConsume.Exit(s.loops[x.k]));
      } else if x.Crash? {
        ExitKeeps(c, s.topic);
      }
  }

  lemma LinkStep(c: KafkaConsume.Config, s: State, a: Action)
    requires Linked(s) && Enabled(c, s, a)
    ensures Linked(Apply(c, s, a))
  {
  }

  lemma FrontierStep(c: KafkaConsume.Config, s: State, a: Action)
    requires Inv(c, s) && Enabled(c, s, a) && Owned(s, a)
    ensures Inv(c, Apply(c, s, a))
  {
    TopicStep(c, s, a);
    LinkStep(c, s, a);
  }

  // ---- serial calls ----

  /** In a serial run a consumer that still needs a reader finds none, so it makes a new one. */
  lemma SerialIsOwned(s: State, a: Action)
    requires Linked(s) && KafkaRegistry.SerialInv(s.registry) && (a.Call? ==> KafkaRegistry.Enabled(s.registry, a.call))
    ensures Owned(s, a)
  {
  }

  lemma RegistryStep(c: KafkaConsume.Config, s: State, a: Action)
    requires KafkaRegistry.SerialInv(s.registry) && Enabled(c, s, a) && Orderly(s, a)
    requires KafkaRegistry.Serial(Apply(c, s, a).registry)
    ensures KafkaRegistry.SerialInv(Apply(c, s, a).registry)
  {
    if a.Call? {
      KafkaRegistry.SerialStep(s.registry, a.call);
    }
  }

  lemma {:induction false} SerialPlay(c: KafkaConsume.Config, s: State, actions: seq<Action>)
    requires Inv(c, s) && KafkaRegistry.SerialInv(s.registry) && SerialRun(c, s, actions)
    ensures Inv(c, Play(c, s, actions))
    decreases |actions|
  {
    if actions != [] {
      var a := actions[0];
      var t := if Enabled(c, s, a) then Apply(c, s, a) else s;
      assert SerialRun(c, t, actions[1..]) && KafkaRegistry.Serial(t.registry);
      if Enabled(c, s, a) {
        SerialIsOwned(s, a);
        FrontierStep(c, s, a);
        RegistryStep(c, s, a);
      }
      SerialPlay(c, t, actions[1..]);
    }
  }

  /**
   * Any number of consumers, cancels, crashes, restarts, failed commits and rebalances: if cancels
   * overlap neither each other nor a claim and no live consumer's loop panics, every message with a
   * value below the committed offset has been written to a consumer channel.
   */
  lemma SerialFrontier(c: KafkaConsume.Config, consumers: nat, cancellers: nat, actions: seq<Action>)
    requires SerialRun(c, Init(consumers, cancellers), actions)
    ensures var topic := Play(c, Init(consumers, cancellers), actions).topic;
            KafkaConsume.Frontier(c, topic, topic.committed)
  {
    SerialPlay(c, Init(consumers, cancellers), actions);
  }

  /** After a crash all loops are gone, and a new consumer goes on at the committed offset. */
  lemma RestartResumes(c: KafkaConsume.Config, s: State, k: nat) returns (actions: seq<Action>, t: State)
    requires Linked(s) && k < |s.registry.consumers| && s.registry.consumers[k].Calling?
    ensures Play(c, s, actions) == t && |t.topic.loops| == |s.topic.loops| + 1
    ensures forall l | 0 <= l < |s.topic.loops| :: t.topic.loops[l].at.Exited?
    ensures t.topic.loops[|s.topic.loops|] == KafkaConsume.Loop(s.registry.nextReader, KafkaConsume.Top)
    ensures |t.topic.positions| == s.registry.nextReader + 1
    ensures t.topic.positions[s.registry.nextReader] == t.topic.committed == s.topic.committed
  {
    actions, t := Then(c, s, [], s, Call(KafkaRegistry.Crash));
    actions, t := Then(c, s, actions, t, Call(KafkaRegistry.Claim(k)));
    actions, t := Then(c, s, actions, t, Call(KafkaRegistry.GetReader(k)));
  }

  // ---- which programs are safe ----

  predicate NoPanic(actions: seq<Action>) {
    forall a | a in actions :: !(a.Call? && a.call.Panic?)
  }

  /** Nobody cancels and no loop panics. */
  lemma {:induction false} NoCancelIsSerial(c: KafkaConsume.Config, s: State, actions: seq<Action>)
    requires s.registry.cancellers == [] && NoPanic(actions)
    ensures SerialRun(c, s, actions)
    decreases |actions|
  {
    if actions != [] {
      assert actions[0] in actions && forall a | a in actions[1..] :: a in actions;
      NoCancelIsSerial(c, if Enabled(c, s, actions[0]) then Apply(c, s, actions[0]) else s, actions[1..]);
    }
  }

  /** There is one consumer at most, and it has no loop before it has its reader. */
  predicate Solo(s: State) {
    && |s.registry.consumers| <= 1
    && forall k | 0 <= k < |s.registry.consumers| ::
         s.registry.consumers[k].Calling? || s.registry.consumers[k].Claimed? ==> s.topic.loops == []
  }

  lemma SoloStep(c: KafkaConsume.Config, s: State, a: Action)
    requires Solo(s) && Enabled(c, s, a)
    ensures Solo(Apply(c, s, a)) && Owned(s, a)
  {
  }

  lemma {:induction false} SoloPlay(c: KafkaConsume.Config, s: State, actions: seq<Action>)
    requires Inv(c, s) && Solo(s)
    ensures Inv(c, Play(c, s, actions))
    decreases |actions|
  {
    if actions != [] {
      if Enabled(c, s, actions[0]) {
        SoloStep(c, s, actions[0]);
        FrontierStep(c, s, actions[0]);
        SoloPlay(c, Apply(c, s, actions[0]), actions[1..]);
      } else {
        SoloPlay(c, s, actions[1..]);
      }
    }
  }

  lemma {:induction false} PlaySnoc(c: KafkaConsume.Config, s: State, actions: seq<Action>, a: Action)
    ensures Play(c, s, actions + [a]) == var t := Play(c, s, actions); if Enabled(c, t, a) then Apply(c, t, a) else t
    decreases |actions|
  {
    if actions == [] {
      assert [a][1..] == [];
    } else {
      assert (actions + [a])[1..] == actions[1..] + [a];
      PlaySnoc(c, if Enabled(c, s, actions[0]) then Apply(c, s, actions[0]) else s, actions[1..], a);
    }
  }

  lemma Then(c: KafkaConsume.Config, s: State, actions: seq<Action>, t: State, a: Action)
    returns (actions': seq<Action>, t': State)
    requires Play(c, s, actions) == t && Enabled(c, t, a)
    ensures Play(c, s, actions') == t' && t' == Apply(c, t, a) && actions' == actions + [a]
  {
    PlaySnoc(c, s, actions, a);
    actions', t' := actions + [a], Apply(c, t, a);
  }

  /** A cancel looks for the reader before there is one; the cancelled loop fetches with it. */
  lemma CancelledFetch(c: KafkaConsume.Config, consumers: nat, cancellers: nat) returns (actions: seq<Action>, t: State)
    requires c.log == ["a", "b"] && consumers > 1 && cancellers > 0
    ensures Play(c, Init(consumers, cancellers), actions) == t
    ensures t.topic == KafkaConsume.State(0, {}, [1], [KafkaConsume.Loop(0, KafkaConsume.Fetched(0))])
    ensures t.loops == map[0 := 0]
    ensures var was := KafkaRegistry.Init(consumers, cancellers);
            t.registry == was.(reader := KafkaRegistry.Some(0), nextReader := 1, cancelled := {0},
                               consumers := was.consumers[0 := KafkaRegistry.Looping(0)],
                               cancellers := was.cancellers[0 := KafkaRegistry.Over])
    ensures NoPanic(actions)
  {
    var s := Init(consumers, cancellers);
    actions, t := Then(c, s, [], s, Call(KafkaRegistry.Claim(0)));
    actions, t := Then(c, s, actions, t, Call(KafkaRegistry.Look(0)));
    actions, t := Then(c, s, actions, t, Call(KafkaRegistry.CloseReader(0)));
    actions, t := Then(c, s, actions, t, Call(KafkaRegistry.GetReader(0)));
    actions, t := Then(c, s, actions, t, Loop(KafkaConsume.Fetch(0)));
    assert t.topic.positions == [1] && t.topic.loops == [KafkaConsume.Loop(0, KafkaConsume.Fetched(0))];
    actions, t := Then(c, s, actions, t, Call(KafkaRegistry.CloseChannel(0)));
    assert t.registry.consumers == s.registry.consumers[0 := KafkaRegistry.Looping(0)];
    assert t.registry.cancellers == s.registry.cancellers[0 := KafkaRegistry.Over];
  }

  /** Its successor gets the same reader and commits past the message that the cancelled loop then drops. */
  lemma LostMessage(c: KafkaConsume.Config, consumers: nat, cancellers: nat) returns (actions: seq<Action>, t: State)
    requires c.log == ["a", "b"] && consumers > 1 && cancellers > 0
    ensures Play(c, Init(consumers, cancellers), actions) == t
    ensures !KafkaConsume.Frontier(c, t.topic, t.topic.committed)
    ensures t.topic.loops == [KafkaConsume.Loop(0, KafkaConsume.Exited), KafkaConsume.Loop(0, KafkaConsume.Top)]
    ensures NoPanic(actions)
  {
    var s := Init(consumers, cancellers);
    actions, t := CancelledFetch(c, consumers, cancellers);
    actions, t := Then(c, s, actions, t, Call(KafkaRegistry.Claim(1)));
    actions, t := Then(c, s, actions, t, Call(KafkaRegistry.GetReader(1)));
    actions, t := Then(c, s, actions, t, Call(KafkaRegistry.Stop(0)));
    assert t.topic.positions == [1];
    assert t.topic.loops == [KafkaConsume.Loop(0, KafkaConsume.Exited), KafkaConsume.Loop(0, KafkaConsume.Top)];
    actions, t := SuccessorCommits(c, s, actions, t);
  }

  /** Without any cancel: the loop panics over a message, and its successor gets the same reader. */
  lemma PanickedMessage(c: KafkaConsume.Config, consumers: nat, cancellers: nat)
    returns (actions: seq<Action>, t: State)
    requires c.log == ["a", "b"] && consumers > 1
    ensures Play(c, Init(consumers, cancellers), actions) == t
    ensures !KafkaConsume.Frontier(c, t.topic, t.topic.committed)
  {
    var s := Init(consumers, cancellers);
    actions, t := Then(c, s, [], s, Call(KafkaRegistry.Claim(0)));
    actions, t := Then(c, s, actions, t, Call(KafkaRegistry.GetReader(0)));
    actions, t := Then(c, s, actions, t, Loop(KafkaConsume.Fetch(0)));
    assert t.topic == KafkaConsume.State(0, {}, [1], [KafkaConsume.Loop(0, KafkaConsume.Fetched(0))]);
    actions, t := Then(c, s, actions, t, Call(KafkaRegistry.Panic(0)));
    actions, t := Then(c, s, actions, t, Call(KafkaRegistry.Claim(1)));
    actions, t := Then(c, s, actions, t, Call(KafkaRegistry.GetReader(1)));
    actions, t := SuccessorCommits(c, s, actions, t);
  }

  /** The successor reads on behind the dropped message, and commits past it. */
  lemma SuccessorCommits(c: KafkaConsume.Config, s: State, actions: seq<Action>, t: State)
    returns (actions': seq<Action>, t': State)
    requires c.log == ["a", "b"] && Play(c, s, actions) == t
    requires t.topic == KafkaConsume.State(0, {}, [1], [KafkaConsume.Loop(0, KafkaConsume.Exited),
                                                        KafkaConsume.Loop(0, KafkaConsume.Top)])
    ensures Play(c, s, actions') == t' && !KafkaConsume.Frontier(c, t'.topic, t'.topic.committed)
    ensures t'.topic.loops == t.topic.loops && (NoPanic(actions) ==> NoPanic(actions'))
  {
    actions', t' := Then(c, s, actions, t, Loop(KafkaConsume.Fetch(1)));
    actions', t' := Then(c, s, actions', t', Loop(KafkaConsume.Write(1)));
    actions', t' := Then(c, s, actions', t', Loop(KafkaConsume.Commit(1)));
    assert 0 !in t'.topic.written && c.log[0] != "" && t'.topic.committed == 2;
  }

  ghost predicate AlwaysFrontier(consumers: nat, cancellers: nat, mayPanic: bool) {
    forall c: KafkaConsume.Config, actions: seq<Action> | mayPanic || NoPanic(actions) ::
      var topic := Play(c, Init(consumers, cancellers), actions).topic; KafkaConsume.Frontier(c, topic, topic.committed)
  }

  /**
   * The frontier holds on every partition and in every run exactly if there is one consume call at
   * most, or nobody cancels and no loop panics.
   */
  lemma FrontierIff(consumers: nat, cancellers: nat, mayPanic: bool)
    ensures AlwaysFrontier(consumers, cancellers, mayPanic) <==>
            consumers <= 1 || (cancellers == 0 && !mayPanic)
  {
    var s := Init(consumers, cancellers);
    if consumers > 1 && mayPanic {
      var c := KafkaConsume.Config(["a", "b"]);
      var actions, t := PanickedMessage(c, consumers, cancellers);
    } else if consumers > 1 && cancellers > 0 {
      var c := KafkaConsume.Config(["a", "b"]);
      var actions, t := LostMessage(c, consumers, cancellers);
    } else {
      forall c: KafkaConsume.Config, actions: seq<Action> | mayPanic || NoPanic(actions)
        ensures KafkaConsume.Frontier(c, Play(c, s, actions).topic, Play(c, s, actions).topic.committed)
      {
        if consumers > 1 {
          NoCancelIsSerial(c, s, actions);
          SerialFrontier(c, consumers, cancellers, actions);
        } else {
          SoloPlay(c, s, actions);
        }
      }
    }
  }
}
