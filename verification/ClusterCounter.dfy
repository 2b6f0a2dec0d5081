/**
  The counter of a cluster's nodes under interleaving: a worker that creates a node waits for its
  deployment before it counts it, and nodes that are deleted notify the cluster in two steps, a
  check of the cluster's phase and a later update (src/cluster/cluster_hoprd.rs:277-303, 348-391,
  423-450; src/hoprd/hoprd_resource.rs:253-286, 386-404).
 */
module ClusterCounter {
  import opened Wrappers
  import opened Sets
  import Numbers = NodeNumbers
  import opened ClusterScaling

  /**
    `counted` and `uncounted` are the existing nodes; `waiting` is the node whose deployment the
    cluster's worker waits for; `notifying` are the nodes whose deletion has seen a cluster that
    is not being deleted and has not updated it yet.
   */
  datatype State = State(
    replicas: int,
    generation: int,
    status: Status,
    counted: set<nat>,
    uncounted: set<nat>,
    waiting: Option<nat>,
    notifying: set<nat>)

  datatype Action =
    | Begin               // a rescale creates the node with the next free number
    | Acknowledge         // the deployment became ready and the node is counted
    | GiveUp              // the deployment did not become ready
    | Check(number: nat)  // a node that is deleted looks at the phase of the cluster
    | Notify(number: nat) // it updates the cluster and disappears
    | Vanish(number: nat) // a node without a finalizer disappears at once; in a disabled cluster it may have been counted
    | Write(phase: Phase) // the reconciler writes any other phase
    | Edit(replicas: int) // the target changes

  ghost predicate Inv(s: State) {
    && s.counted !! s.uncounted
    && (s.waiting.Some? ==> s.waiting.value !in s.counted)
    && s.notifying <= s.counted + s.uncounted
    && 0 !in s.counted + s.uncounted
    && s.status.currentNodes >= 0
  }

  /** The number of nodes that exist and were counted. */
  predicate Exact(s: State) {
    s.status.currentNodes == |s.counted|
  }

  function Live(s: State): set<nat> {
    s.counted + s.uncounted
  }

  function Without(s: State, n: nat): State {
    s.(counted := s.counted - {n}, uncounted := s.uncounted - {n}, notifying := s.notifying - {n})
  }

  function Event(s: State, event: Phase): State {
    s.(status := NextStatus(s.status, s.generation, s.replicas, event))
  }

  /** The worker handles one reconciliation at a time; while the cluster is being deleted it only waits for its nodes. */
  predicate Idle(s: State) {
    s.waiting.None? && s.status.phase != Deleting
  }

  function Step(s: State, a: Action): State {
    match a
    case Begin =>
      if !Idle(s) then s
      else
        var next := Numbers.NextFree(Live(s));
        if next.None? || next.value in Live(s) then Event(s, Scaling)
        else Event(s, Scaling).(uncounted := s.uncounted + {next.value}, waiting := next)
    case Acknowledge =>
      if s.waiting.None? then s
      else
        var n := s.waiting.value;
        var t := Event(s, NodeCreated).(waiting := None);
        if n in s.uncounted then t.(uncounted := s.uncounted - {n}, counted := s.counted + {n}) else t
    case GiveUp =>
      s.(waiting := None)
    case Check(n) =>
      if n !in Live(s) || n in s.notifying then s
      else if s.status.phase != Deleting then s.(notifying := s.notifying + {n})
      else Without(s, n)
    case Notify(n) =>
      if n !in s.notifying then s else Without(Event(s, NodeDeleted), n)
    case Vanish(n) =>
      if n in Live(s) && n !in s.notifying then Without(s, n) else s
    case Write(phase) =>
      if !Idle(s) || phase == NodeCreated || phase == NodeDeleted then s else Event(s, phase)
    case Edit(replicas) =>
      s.(replicas := replicas, generation := s.generation + 1)
  }

  function Run(s: State, actions: seq<Action>): State
    decreases |actions|
  {
    if actions == [] then s else Run(Step(s, actions[0]), actions[1..])
  }

  /** How far a step moves the counter away from the number of counted nodes. */
  function Drift(s: State, a: Action): int {
    match a
    case Acknowledge =>
      if s.waiting.Some? && s.waiting.value !in s.uncounted then 1 else 0
    case Check(n) =>
      if n in s.counted && n !in s.notifying && s.status.phase == Deleting then 1 else 0
    case Notify(n) =>
      if n !in s.notifying then 0
      else if n in s.counted then (if s.status.currentNodes == 0 then 1 else 0)
      else if s.status.currentNodes == 0 then 0 else -1
    case Vanish(n) =>
      if n in s.counted && n !in s.notifying then 1 else 0
    case _ => 0
  }

  function TotalDrift(s: State, actions: seq<Action>): int
    decreases |actions|
  {
    if actions == [] then 0 else Drift(s, actions[0]) + TotalDrift(Step(s, actions[0]), actions[1..])
  }

  ghost predicate Lawful(s: State, a: Action) {
    var t := Step(s, a);
    Inv(t) && t.status.currentNodes - |t.counted| == s.status.currentNodes - |s.counted| + Drift(s, a)
  }

  lemma BeginLaw(s: State)
    requires Inv(s)
    ensures Lawful(s, Begin)
  {
    Numbers.MexIsLeast(Live(s), 1);
  }

  lemma VanishLaw(s: State, n: nat)
    requires Inv(s)
    ensures Lawful(s, Vanish(n))
  {
    if n in Live(s) && n !in s.notifying {
      Removal(s.counted, n);
    }
  }

  lemma AcknowledgeLaw(s: State)
    requires Inv(s)
    ensures Lawful(s, Acknowledge)
  {
    if s.waiting.Some? && s.waiting.value in s.uncounted {
      assert |s.counted + {s.waiting.value}| == |s.counted| + 1;
    }
  }

  lemma CheckLaw(s: State, n: nat)
    requires Inv(s)
    ensures Lawful(s, Check(n))
  {
    if n in Live(s) && n !in s.notifying && s.status.phase == Deleting {
      Removal(s.counted, n);
    }
  }

  lemma NotifyLaw(s: State, n: nat)
    requires Inv(s)
    ensures Lawful(s, Notify(n))
  {
    if n in s.notifying {
      var t := Step(s, Notify(n));
      Removal(s.counted, n);
      assert t.counted == s.counted - {n} && t.uncounted == s.uncounted - {n};
    }
  }

  lemma {:induction false} StepLaw(s: State, a: Action)
    requires Inv(s)
    ensures Lawful(s, a)
  {
    match a
    case Begin => BeginLaw(s);
    case Acknowledge => AcknowledgeLaw(s);
    case Check(n) => CheckLaw(s, n);
    case Notify(n) => NotifyLaw(s, n);
    case Vanish(n) => VanishLaw(s, n);
    case _ =>
  }

  /** In every run, the counter differs from the number of counted nodes by exactly the drifts of its steps. */
  lemma {:induction false} Conservation(s: State, actions: seq<Action>)
    requires Inv(s)
    ensures
      var t := Run(s, actions);
      Inv(t) && t.status.currentNodes - |t.counted| == s.status.currentNodes - |s.counted| + TotalDrift(s, actions)
    decreases |actions|
  {
    if actions != [] {
      StepLaw(s, actions[0]);
      Conservation(Step(s, actions[0]), actions[1..]);
    }
  }

  /**
    A step that keeps the counter exact: the counted node still exists, and a node whose deletion
    is notified was counted (or there is nothing to subtract), and a node that is deleted with
    its cluster, or disappears without a finalizer, was not.
   */
  predicate Clean(s: State, a: Action) {
    match a
    case Acknowledge => s.waiting.Some? ==> s.waiting.value in s.uncounted
    case Check(n) => s.status.phase == Deleting && n !in s.notifying ==> n !in s.counted
    case Notify(n) => n in s.notifying ==> n in s.counted || s.status.currentNodes == 0
    case Vanish(n) => n in s.notifying || n !in s.counted
    case _ => true
  }

  ghost predicate CleanRun(s: State, actions: seq<Action>)
    decreases |actions|
  {
    actions == [] || (Clean(s, actions[0]) && CleanRun(Step(s, actions[0]), actions[1..]))
  }

  ghost predicate ExactThroughout(s: State, actions: seq<Action>)
    decreases |actions|
  {
    Exact(s) && (actions == [] || ExactThroughout(Step(s, actions[0]), actions[1..]))
  }

  lemma CleanWithoutDrift(s: State, a: Action)
    requires Inv(s) && Exact(s)
    ensures Clean(s, a) <==> Drift(s, a) == 0
  {
    if a.Notify? && a.number in s.counted {
      assert s.counted != {};
    }
  }

  /** From an exact state, the counter is exact in every state of a run if and only if every step of the run is clean. */
  lemma {:induction false} ExactExactlyWhenClean(s: State, actions: seq<Action>)
    requires Inv(s) && Exact(s)
    ensures ExactThroughout(s, actions) <==> CleanRun(s, actions)
    decreases |actions|
  {
    if actions != [] {
      var a := actions[0];
      StepLaw(s, a);
      CleanWithoutDrift(s, a);
      if Clean(s, a) {
        ExactExactlyWhenClean(Step(s, a), actions[1..]);
      }
    }
  }

  /** While the counter is exact, the notification of a counted node finds a positive counter: nothing is clamped. */
  lemma ClampIsIdle(s: State, n: nat)
    requires Inv(s) && Exact(s) && n in s.notifying && n in s.counted
    ensures s.status.currentNodes > 0 && Step(s, Notify(n)).status.currentNodes == s.status.currentNodes - 1
  {
    assert s.counted != {};
  }

  /** With no notification under way, nothing that happens to a cluster being deleted changes its counter or its phase. */
  lemma {:induction false} DeletingFreezes(s: State, actions: seq<Action>)
    requires s.status.phase == Deleting && s.waiting.None? && s.notifying == {}
    ensures Run(s, actions).status == s.status && Live(Run(s, actions)) <= Live(s)
    decreases |actions|
  {
    if actions != [] {
      DeletingFreezes(Step(s, actions[0]), actions[1..]);
    }
  }

  /**
    A notification under way when the deletion starts takes the cluster out of phase Deleting; if
    the object still exists then, the controller chooses to delete it again.
   */
  lemma LateNotificationRestartsDeletion(s: State, n: nat, generation: int)
    requires s.status.phase == Deleting && n in s.notifying
    ensures Step(s, Notify(n)).status.phase != Deleting
    ensures DetermineAction(true, true, Some(Step(s, Notify(n)).status), generation) == Some(Delete)
    ensures DetermineAction(true, true, Some(s.status), generation) == Some(NoOp)
  {
  }

  function Empty(replicas: int): State {
    State(replicas, 0, Status(Initialized, 0, 0), {}, {}, None, {})
  }

  lemma RunSteps(s: State, first: Action, rest: seq<Action>)
    ensures Run(s, [first] + rest) == Run(Step(s, first), rest)
  {
    assert ([first] + rest)[1..] == rest;
  }

  function Contents(s: State): Cluster {
    Cluster(s.replicas, s.status.phase, s.status.currentNodes, Live(s))
  }

  lemma Run1(s: State, a: Action)
    ensures Run(s, [a]) == Step(s, a)
  {
    assert [a] == [a] + [];
    RunSteps(s, a, []);
  }

  lemma Run2(s: State, a: Action, b: Action)
    ensures Run(s, [a, b]) == Step(Step(s, a), b)
  {
    assert [a, b] == [a] + [b];
    RunSteps(s, a, [b]);
    Run1(Step(s, a), b);
  }

  /** Every rescale, which `ClusterScaling` takes as one step, is a run of the steps above. */
  lemma RescaleIsRun(s: State, answer: bool) returns (actions: seq<Action>)
    requires Inv(s) && s.waiting.None? && s.notifying == {} && s.status.phase == NotScaled
    ensures Contents(Run(s, actions)) == Rescaled(Contents(s), answer)
  {
    if s.replicas > s.status.currentNodes {
      actions := [Begin, if answer then Acknowledge else GiveUp];
      Run2(s, Begin, actions[1]);
      CreationIsRun(s, answer);
    } else if s.replicas == s.status.currentNodes {
      actions := [Write(Ready)];
      Run1(s, Write(Ready));
    } else if s.status.currentNodes !in Live(s) {
      actions := [Write(Scaling)];
      Run1(s, Write(Scaling));
    } else {
      var n := s.status.currentNodes;
      var scaling := Step(s, Write(Scaling));
      actions := if answer then [Write(Scaling)] + [Check(n), Notify(n)] else [Write(Scaling)] + [Vanish(n)];
      RunSteps(s, Write(Scaling), actions[1..]);
      DeletionIsRun(s, n, answer);
      if answer {
        assert actions[1..] == [Check(n), Notify(n)];
        Run2(scaling, Check(n), Notify(n));
      } else {
        assert actions[1..] == [Vanish(n)];
        Run1(scaling, Vanish(n));
      }
    }
  }

  lemma CreationIsRun(s: State, answer: bool)
    requires Inv(s) && s.waiting.None? && s.status.phase == NotScaled
    ensures Contents(Step(Step(s, Begin), if answer then Acknowledge else GiveUp)) == CreatedNode(Contents(s), answer)
  {
    var next := Numbers.NextFree(Live(s));
    if next.Some? && next.value !in Live(s) {
      var begun := Step(s, Begin);
      assert Live(begun) == Live(s) + {next.value};
      assert answer ==> Live(Step(begun, Acknowledge)) == Live(begun);
    }
  }

  lemma DeletionIsRun(s: State, n: nat, answer: bool)
    requires Inv(s) && s.waiting.None? && s.notifying == {} && s.status.phase == NotScaled && n in Live(s)
    ensures
      var scaling := Step(s, Write(Scaling));
      Contents(if answer then Step(Step(scaling, Check(n)), Notify(n)) else Step(scaling, Vanish(n))) == DeletedNode(Contents(s), n, answer)
  {
    var scaling := Step(s, Write(Scaling));
    assert Live(Without(scaling, n)) == Live(s) - {n};
    if answer {
      var checked := Step(scaling, Check(n));
      assert Live(Without(checked, n)) == Live(s) - {n};
    }
  }

  /** Such a notification occurs: in a clean run a cluster is deleted while its only node is between the two steps. */
  lemma LateNotificationOccurs(replicas: int) returns (actions: seq<Action>)
    ensures CleanRun(Empty(replicas), actions)
    ensures Run(Empty(replicas), actions).status.phase == Deleting && 1 in Run(Empty(replicas), actions).notifying
  {
    var s := Empty(replicas);
    actions := [Begin] + ([Acknowledge] + ([Check(1)] + ([Write(Deleting)] + [])));
    var a := Step(s, Begin);
    assert Numbers.NextFree({}) == Some(1);
    assert Live(s) == {};
    assert a.uncounted == {1} && a.waiting == Some(1);
    var b := Step(a, Acknowledge);
    assert b.counted == {1} && b.waiting.None? && b.status.phase != Deleting;
    var c := Step(b, Check(1));
    assert c.notifying == {1};
    var d := Step(c, Write(Deleting));
    RunSteps(s, Begin, [Acknowledge] + ([Check(1)] + ([Write(Deleting)] + [])));
    RunSteps(a, Acknowledge, [Check(1)] + ([Write(Deleting)] + []));
    RunSteps(b, Check(1), [Write(Deleting)] + []);
    RunSteps(c, Write(Deleting), []);
    CleanSteps(s, Begin, [Acknowledge] + ([Check(1)] + ([Write(Deleting)] + [])));
    CleanSteps(a, Acknowledge, [Check(1)] + ([Write(Deleting)] + []));
    CleanSteps(b, Check(1), [Write(Deleting)] + []);
    CleanSteps(c, Write(Deleting), []);
  }

  /** A counted node without a finalizer occurs in the modelled runs: after it disappeared the counter is still 1 and no node is left. */
  lemma SilentNodeStaysCounted(replicas: int) returns (actions: seq<Action>)
    ensures
      var s := Run(Empty(replicas), actions);
      s.status.currentNodes == 1 && Live(s) == {} && s.waiting.None? && s.notifying == {}
  {
    var s := Empty(replicas);
    actions := [Begin] + ([Acknowledge] + ([Vanish(1)] + []));
    assert Numbers.NextFree({}) == Some(1);
    assert Live(s) == {};
    var a := Step(s, Begin);
    assert a.uncounted == {1} && a.waiting == Some(1);
    var b := Step(a, Acknowledge);
    assert b.counted == {1} && b.uncounted == {} && b.waiting.None?;
    RunSteps(s, Begin, [Acknowledge] + ([Vanish(1)] + []));
    RunSteps(a, Acknowledge, [Vanish(1)] + []);
    RunSteps(b, Vanish(1), []);
    assert Live(Step(b, Vanish(1))) == {};
  }

  lemma CleanSteps(s: State, first: Action, rest: seq<Action>)
    ensures CleanRun(s, [first] + rest) <==> Clean(s, first) && CleanRun(Step(s, first), rest)
  {
    assert ([first] + rest)[1..] == rest;
  }

  /** A clean run from an empty cluster with no node left uncounted ends in a state from which scaling works as intended. */
  lemma CleanRunIsConsistent(replicas: int, actions: seq<Action>)
    requires CleanRun(Empty(replicas), actions) && Run(Empty(replicas), actions).uncounted == {}
    ensures
      var t := Run(Empty(replicas), actions);
      t.status.currentNodes == |Live(t)| && 0 !in Live(t)
  {
    var s := Empty(replicas);
    ExactExactlyWhenClean(s, actions);
    ExactAtTheEnd(s, actions);
    Conservation(s, actions);
    var t := Run(s, actions);
    assert Live(t) == t.counted;
  }

  lemma {:induction false} ExactAtTheEnd(s: State, actions: seq<Action>)
    requires ExactThroughout(s, actions)
    ensures Exact(Run(s, actions))
    decreases |actions|
  {
    if actions != [] {
      ExactAtTheEnd(Step(s, actions[0]), actions[1..]);
    }
  }
}
