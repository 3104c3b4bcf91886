/**
 * The consume loop of kafkax with autoCommit, on one partition: fetch, write to the consumer
 * channel, commit. Loops are cancelled, crash and are restarted, commits fail, and a reader
 * may be sent back to the committed offset by a rebalance.
 */
module KafkaConsume {

  /** The values of the partition's messages. */
  datatype Config = Config(log: seq<string>)

  datatype Point = Top | Fetched(o: nat) | Written(o: nat) | Empty(o: nat) | Exited

  datatype Loop = Loop(reader: nat, at: Point)

  /** `positions` holds the next offset of every reader, `written` what has reached a consumer channel. */
  datatype State = State(committed: nat, written: set<nat>, positions: seq<nat>, loops: seq<Loop>)

  datatype Action =
    | NewReader | Start(r: nat) | Fetch(l: nat) | Skip(l: nat) | Write(l: nat)
    | Commit(l: nat) | CommitFails(l: nat) | Exit(l: nat) | Rebalance(r: nat)

  const INIT := State(0, {}, [], [])

  predicate Unused(s: State, r: nat) {
    forall l | 0 <= l < |s.loops| :: s.loops[l].reader != r
  }

  predicate Enabled(c: Config, s: State, a: Action) {
    match a
    case NewReader => true
    case Start(r) => r < |s.positions|
    case Fetch(l) =>
      l < |s.loops| && s.loops[l].at.Top? && s.loops[l].reader < |s.positions|
      && s.positions[s.loops[l].reader] < |c.log|
    case Skip(l) =>
      l < |s.loops| && s.loops[l].at.Fetched? && s.loops[l].at.o < |c.log| && c.log[s.loops[l].at.o] == ""
    case Write(l) =>
      l < |s.loops| && s.loops[l].at.Fetched? && s.loops[l].at.o < |c.log| && c.log[s.loops[l].at.o] != ""
    case Commit(l) => l < |s.loops| && (s.loops[l].at.Written? || s.loops[l].at.Empty?)
    case CommitFails(l) => l < |s.loops| && (s.loops[l].at.Written? || s.loops[l].at.Empty?)
    case Exit(l) => l < |s.loops|
    case Rebalance(r) => r < |s.positions|
  }

  function Go(s: State, l: nat, p: Point): State
    requires l < |s.loops|
  {
    s.(loops := s.loops[l := s.loops[l].(at := p)])
  }

  function Apply(c: Config, s: State, a: Action): State
    requires Enabled(c, s, a)
  {
    match a
    case NewReader => s.(positions := s.positions + [s.committed])
    case Start(r) => s.(loops := s.loops + [Loop(r, Top)])
    case Fetch(l) =>
      var r := s.loops[l].reader;
      Go(s, l, Fetched(s.positions[r])).(positions := s.positions[r := s.positions[r] + 1])
    case Skip(l) => Go(s, l, Empty(s.loops[l].at.o))
    case Write(l) => Go(s, l, Written(s.loops[l].at.o)).(written := s.written + {s.loops[l].at.o})
    case Commit(l) => Go(s, l, Top).(committed := s.loops[l].at.o + 1)
    case CommitFails(l) => Go(s, l, Top)
    case Exit(l) => Go(s, l, Exited)
    case Rebalance(r) => s.(positions := s.positions[r := s.committed])
  }

  function Play(c: Config, s: State, actions: seq<Action>): State
    decreases |actions|
  {
    if actions == [] then s
    else Play(c, if Enabled(c, s, actions[0]) then Apply(c, s, actions[0]) else s, actions[1..])
  }

  /** Every message below n that has a value has been written to a consumer channel. */
  predicate Frontier(c: Config, s: State, n: nat) {
    n <= |c.log| && forall o | 0 <= o < n && c.log[o] != "" :: o in s.written
  }

  /** The same, but for the message the loop holds. */
  predicate FrontierBut(c: Config, s: State, n: nat, p: Point) {
    n <= |c.log| && forall o | 0 <= o < n && c.log[o] != "" :: o in s.written || p == Fetched(o)
  }

  predicate LoopInv(c: Config, s: State, l: nat)
    requires l < |s.loops|
  {
    var Loop(r, p) := s.loops[l];
    && r < |s.positions|
    && (!p.Exited? ==> FrontierBut(c, s, s.positions[r], p))
    && (p.Fetched? ==> p.o < |c.log| && Frontier(c, s, p.o))
    && (p.Written? || p.Empty? ==> Frontier(c, s, p.o + 1))
  }

  predicate OwnReaders(s: State) {
    forall k, l | 0 <= k < l < |s.loops| :: s.loops[k].reader != s.loops[l].reader
  }

  /** No loop starts on a reader that another one uses or has used. */
  predicate Owned(s: State, a: Action) {
    a.Start? ==> Unused(s, a.r)
  }

  predicate OwnedRun(c: Config, s: State, actions: seq<Action>)
    decreases |actions|
  {
    actions == [] ||
    if !Enabled(c, s, actions[0]) then OwnedRun(c, s, actions[1..])
    else Owned(s, actions[0]) && OwnedRun(c, Apply(c, s, actions[0]), actions[1..])
  }

  predicate Inv(c: Config, s: State) {
    && Frontier(c, s, s.committed)
    && OwnReaders(s)
    && (forall l | 0 <= l < |s.loops| :: LoopInv(c, s, l))
    && (forall r | 0 <= r < |s.positions| && Unused(s, r) :: Frontier(c, s, s.positions[r]))
  }

  predicate ByLoop(a: Action) {
    a.Fetch? || a.Skip? || a.Write? || a.Commit? || a.CommitFails? || a.Exit?
  }

  lemma OwnStep(c: Config, s: State, a: Action)
    requires Inv(c, s) && ByLoop(a) && Enabled(c, s, a)
    ensures LoopInv(c, Apply(c, s, a), a.l)
  {
    assert LoopInv(c, s, a.l);
    var position := s.positions[s.loops[a.l].reader];
    if a.Fetch? {
      assert Frontier(c, s, position);
    } else if a.Skip? || a.Write? {
      assert Frontier(c, s, s.loops[a.l].at.o);
    }
  }

  lemma OtherStep(c: Config, s: State, a: Action, l: nat)
    requires Inv(c, s) && Enabled(c, s, a) && l < |s.loops| && (ByLoop(a) ==> a.l != l)
    ensures LoopInv(c, Apply(c, s, a), l)
  {
    var r := s.loops[l].reader;
    assert LoopInv(c, s, l);
    if ByLoop(a) {
      assert s.loops[a.l].reader != r;
    }
    if a.Rebalance? && a.r == r {
      assert Frontier(c, s, s.committed);
    } else {
      LoopKept(c, s, Apply(c, s, a), l);
    }
  }

  lemma LoopKept(c: Config, s: State, t: State, l: nat)
    requires l < |s.loops| && l < |t.loops| && t.loops[l] == s.loops[l] && LoopInv(c, s, l)
    requires s.written <= t.written && |s.positions| <= |t.positions|
    requires t.positions[s.loops[l].reader] == s.positions[s.loops[l].reader]
    ensures LoopInv(c, t, l)
  {
  }

  lemma LoopStep(c: Config, s: State, a: Action, l: nat)
    requires Inv(c, s) && Enabled(c, s, a) && Owned(s, a) && l < |Apply(c, s, a).loops|
    ensures LoopInv(c, Apply(c, s, a), l)
  {
    if l < |s.loops| {
      if ByLoop(a) && a.l == l {
        OwnStep(c, s, a);
      } else {
        OtherStep(c, s, a, l);
      }
    }
  }

  lemma Step(c: Config, s: State, a: Action)
    requires Inv(c, s) && Enabled(c, s, a) && Owned(s, a)
    ensures Inv(c, Apply(c, s, a))
  {
    var t := Apply(c, s, a);
    forall l | 0 <= l < |t.loops| ensures LoopInv(c, t, l) { LoopStep(c, s, a, l); }
    if a.Commit? {
      assert LoopInv(c, s, a.l);
    }
    forall r | 0 <= r < |t.positions| && Unused(t, r) ensures Frontier(c, t, t.positions[r]) {
      assert forall l | 0 <= l < |s.loops| :: s.loops[l].reader == t.loops[l].reader;
      assert r < |s.positions| ==> Unused(s, r);
      if a.Fetch? { assert LoopInv(c, s, a.l) && s.loops[a.l].reader != r; }
    }
  }

  lemma {:induction false} PlayInv(c: Config, s: State, actions: seq<Action>)
    requires Inv(c, s) && OwnedRun(c, s, actions)
    ensures Inv(c, Play(c, s, actions))
    decreases |actions|
  {
    if actions != [] {
      if Enabled(c, s, actions[0]) {
        Step(c, s, actions[0]);
        PlayInv(c, Apply(c, s, actions[0]), actions[1..]);
      } else {
        PlayInv(c, s, actions[1..]);
      }
    }
  }

  /** Across cancels, crashes, failed commits, restarts and rebalances, nothing below the committed offset was lost. */
  lemma CommittedIsWritten(c: Config, actions: seq<Action>)
    requires OwnedRun(c, INIT, actions)
    ensures var s := Play(c, INIT, actions); Frontier(c, s, s.committed)
  {
    PlayInv(c, INIT, actions);
  }

  // ---- runs, action by action ----

  lemma {:induction false} PlaySnoc(c: Config, s: State, actions: seq<Action>, a: Action)
    ensures Play(c, s, actions + [a]) ==
            var t := Play(c, s, actions); if Enabled(c, t, a) then Apply(c, t, a) else t
    decreases |actions|
  {
    if actions == [] {
      assert [a][1..] == [];
    } else {
      assert (actions + [a])[1..] == actions[1..] + [a];
      PlaySnoc(c, if Enabled(c, s, actions[0]) then Apply(c, s, actions[0]) else s, actions[1..], a);
    }
  }

  lemma Then(c: Config, actions: seq<Action>, t: State, a: Action) returns (actions': seq<Action>, t': State)
    requires Play(c, INIT, actions) == t && Enabled(c, t, a)
    ensures Play(c, INIT, actions') == t' && t' == Apply(c, t, a)
  {
    PlaySnoc(c, INIT, actions, a);
    actions', t' := actions + [a], Apply(c, t, a);
  }

  /** The offset behind the last of the first n messages whose commit did not fail. */
  function CommittedUpTo(n: nat, fails: set<nat>): nat {
    if n == 0 then 0 else if n - 1 in fails then CommittedUpTo(n - 1, fails) else n
  }

  /**
   * One loop can write any prefix of the partition, message by message, whichever commits fail; the
   * next commit that succeeds covers the failed ones.
   */
  lemma {:induction false} DeliveredUpTo(c: Config, n: nat, fails: set<nat>) returns (actions: seq<Action>, t: State)
    requires n <= |c.log|
    ensures Play(c, INIT, actions) == t && Frontier(c, t, n)
    ensures t.committed == CommittedUpTo(n, fails) && t.positions == [n] && t.loops == [Loop(0, Top)]
  {
    if n == 0 {
      actions, t := Then(c, [], INIT, NewReader);
      actions, t := Then(c, actions, t, Start(0));
    } else {
      actions, t := DeliveredUpTo(c, n - 1, fails);
      actions, t := Then(c, actions, t, Fetch(0));
      actions, t := Then(c, actions, t, if c.log[n - 1] == "" then Skip(0) else Write(0));
      actions, t := Then(c, actions, t, if n - 1 in fails then CommitFails(0) else Commit(0));
    }
  }

  /** After a rebalance a reader goes on at the committed offset: everything from there is fetched again. */
  lemma FetchedAgain(c: Config, s: State, l: nat)
    requires l < |s.loops| && s.loops[l].at.Top? && s.loops[l].reader < |s.positions| && s.committed < |c.log|
    ensures var r := s.loops[l].reader;
            && Enabled(c, s, Rebalance(r)) && Enabled(c, Apply(c, s, Rebalance(r)), Fetch(l))
            && Apply(c, Apply(c, s, Rebalance(r)), Fetch(l)).loops == s.loops[l := Loop(r, Fetched(s.committed))]
  {
  }

  // ---- two loops on one reader ----

  /** A cancelled loop drops what it fetched; a second loop on the same reader goes on behind it. */
  lemma LostMessage() returns (c: Config, actions: seq<Action>, t: State)
    ensures Play(c, INIT, actions) == t && !Frontier(c, t, t.committed)
  {
    c := Config(["a", "b"]);
    actions, t := [], INIT;
    actions, t := Then(c, actions, t, NewReader);
    actions, t := Then(c, actions, t, Start(0));
    actions, t := Then(c, actions, t, Fetch(0));
    actions, t := Then(c, actions, t, Exit(0));
    actions, t := Then(c, actions, t, Start(0));
    actions, t := Then(c, actions, t, Fetch(1));
    actions, t := Then(c, actions, t, Write(1));
    actions, t := Then(c, actions, t, Commit(1));
    assert t.committed == 2 && 0 !in t.written && c.log[0] != "";
  }
}
