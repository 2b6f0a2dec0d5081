/**
  The controller of clusters: what one reconciliation does, and what repeated reconciliations lead
  to (src/cluster/cluster_controller.rs:43-75, src/cluster/cluster_hoprd.rs:116-261).
 */
module ClusterControl {
  import opened Wrappers
  import opened Sets
  import Numbers = NodeNumbers
  import opened ClusterScaling

  /** The object of a cluster, with the numbers of its nodes. */
  datatype Managed = Managed(
    deletionRequested: bool,
    finalizer: bool,
    status: Option<Status>,
    generation: int,
    replicas: int,
    fixed: Fixed,
    lastConfiguration: LastConfiguration,
    nodes: set<nat>)

  /**
    What one reconciliation meets: whether the deployment of a new node becomes ready (or a
    deleted node notifies the cluster), and the nodes whose changed deployment does not.
   */
  datatype Answers = Answers(scaled: bool, slow: set<nat>)

  function InPhase(m: Managed, phase: Phase): Managed
    requires m.status.Some?
  {
    m.(status := Some(Status(phase, m.status.value.currentNodes, m.generation)))
  }

  function ScalingOf(m: Managed): Cluster
    requires m.status.Some?
  {
    Cluster(m.replicas, m.status.value.phase, m.status.value.currentNodes, m.nodes)
  }

  function Scaled(m: Managed, c: Cluster): Managed
    requires m.status.Some?
  {
    var observed := if m.status.value.phase == NotScaled then m.generation else m.status.value.observedGeneration;
    m.(nodes := c.nodes, status := Some(Status(c.phase, c.current, observed)))
  }

  function Begun(m: Managed): Managed {
    var current := if m.status.Some? then m.status.value.currentNodes else 0;
    m.(finalizer := true, status := Some(Status(if m.replicas > 0 then NotScaled else Ready, current, m.generation)))
  }

  function Modified(m: Managed, slow: set<nat>): Managed
    requires m.status.Some?
  {
    var record := m.(lastConfiguration := Recorded(m.fixed));
    if m.status.value.phase == Failed then InPhase(m, Ready)
    else if m.lastConfiguration.Absent? then InPhase(m, Failed)
    else if m.lastConfiguration != Recorded(m.fixed) then InPhase(record, Failed)
    else if slow !! m.nodes then InPhase(record, if m.replicas == m.status.value.currentNodes then Ready else NotScaled)
    else m
  }

  /** One reconciliation; it stops where the controller finds no status. */
  function Reconciled(m: Managed, answers: Answers): Managed {
    match DetermineAction(m.deletionRequested, m.finalizer, m.status, m.generation)
    case None => m
    case Some(Create) => Begun(m)
    case Some(Modify) => Modified(m, answers.slow)
    case Some(Rescale) => Scaled(m, Rescaled(ScalingOf(m), answers.scaled))
    case Some(Delete) => InPhase(m, Deleting).(nodes := {}, finalizer := false)
    case Some(NoOp) => m
  }

  function ObjectOf(c: ClusterHoprd): Managed
    reads c
  {
    Managed(c.deletionRequested, c.finalizer, if c.hasStatus then Some(c.status) else None, c.generation, c.replicas,
            Fixed(c.identityPool, c.serviceType), c.lastConfiguration, c.nodes.Keys)
  }

  /** `reconciler`: the chosen operation, performed on the cluster, is one step of the function above. */
  method Reconcile(c: ClusterHoprd, answers: Answers, finalized: set<nat>)
    requires !c.hasStatus ==> c.status.currentNodes == 0
    modifies c
    ensures ObjectOf(c) == Reconciled(old(ObjectOf(c)), answers)
    ensures c.config == old(c.config) && c.portsAllocation == old(c.portsAllocation)
    ensures old(c.IdentitiesMatch()) ==> c.IdentitiesMatch()
  {
    var status := if c.hasStatus then Some(c.status) else None;
    match DetermineAction(c.deletionRequested, c.finalizer, status, c.generation)
    case None =>
    case Some(Create) => c.Create();
    case Some(Modify) => c.Modify(answers.slow);
    case Some(Rescale) => c.RescaleCluster(answers.scaled);
    case Some(Delete) => c.DeleteCluster(finalized);
    case Some(NoOp) =>
  }

  /* What the controller chooses. */

  /**
    A cluster without a finalizer is created, unless its deletion has to begin; one with a finalizer
    that is not to be deleted is rescaled while it is NotScaled or Scaling, whatever its generation,
    and modified in any other phase but Deleting exactly when its generation was not observed.
   */
  lemma ChoiceExact(m: Managed)
    ensures
      var choice := DetermineAction(m.deletionRequested, m.finalizer, m.status, m.generation);
      var deletes := m.deletionRequested && m.status.Some? && m.status.value.phase != Deleting;
      && (choice == Some(Delete) <==> deletes)
      && (choice == Some(Create) <==> !m.finalizer && !deletes)
      && (m.finalizer && !deletes && m.status.Some? ==>
            var st := m.status.value;
            && (choice == Some(Rescale) <==> st.phase == NotScaled || st.phase == Scaling)
            && (choice == Some(Modify) <==>
                  st.phase != NotScaled && st.phase != Scaling && st.phase != Deleting && st.observedGeneration < m.generation)
            && (choice != Some(Rescale) && choice != Some(Modify) ==> choice == Some(NoOp)))
  {
  }

  /* Repeated reconciliations. */

  function Reconciliations(m: Managed, answers: seq<Answers>): Managed
    decreases |answers|
  {
    if answers == [] then m else Reconciliations(Reconciled(m, answers[0]), answers[1..])
  }

  function Verdicts(answers: seq<Answers>): seq<bool> {
    seq(|answers|, i requires 0 <= i < |answers| => answers[i].scaled)
  }

  /** The cluster exists and is not to be deleted. */
  predicate Kept(m: Managed) {
    m.finalizer && !m.deletionRequested && m.status.Some?
  }

  predicate InState(m: Managed, phase: Phase) {
    m.status.Some? && m.status.value.phase == phase
  }

  /** Nothing is left to do: a Ready or Failed cluster of the observed generation, or one that is stuck in Scaling. */
  predicate Settled(m: Managed) {
    && Kept(m)
    && (InState(m, Scaling) || ((InState(m, Ready) || InState(m, Failed)) && m.status.value.observedGeneration == m.generation))
  }

  lemma {:induction false} SettledStays(m: Managed, answers: seq<Answers>)
    requires Settled(m)
    ensures Reconciliations(m, answers) == m
    decreases |answers|
  {
    if answers != [] {
      assert Reconciled(m, answers[0]) == m;
      SettledStays(m, answers[1..]);
    }
  }

  lemma NotScaledIsRescaled(m: Managed, answers: Answers)
    requires Kept(m) && InState(m, NotScaled)
    ensures
      var c := Rescaled(ScalingOf(m), answers.scaled);
      Reconciled(m, answers) == m.(nodes := c.nodes, status := Some(Status(c.phase, c.current, m.generation)))
    ensures InState(Reconciled(m, answers), NotScaled) || Settled(Reconciled(m, answers))
  {
  }

  /**
    The controller carries a cluster that is NotScaled through its rescales, one in each
    reconciliation, and leaves it alone when it is settled.
   */
  lemma {:induction false} ControllerSettles(m: Managed, answers: seq<Answers>)
    requires Kept(m) && InState(m, NotScaled) && answers != []
    ensures
      var c := Settle(ScalingOf(m), Verdicts(answers));
      Reconciliations(m, answers) == m.(nodes := c.nodes, status := Some(Status(c.phase, c.current, m.generation)))
    decreases |answers|
  {
    var next := Reconciled(m, answers[0]);
    NotScaledIsRescaled(m, answers[0]);
    assert Verdicts(answers)[0] == answers[0].scaled && Verdicts(answers)[1..] == Verdicts(answers[1..]);
    if InState(next, NotScaled) {
      if answers[1..] != [] {
        ControllerSettles(next, answers[1..]);
      } else {
        assert Verdicts(answers[1..]) == [];
      }
    } else {
      SettledStays(next, answers[1..]);
      SettleStops(ScalingOf(next), Verdicts(answers[1..]));
    }
  }

  /** A cluster object as it is first stored. */
  function NewObject(replicas: int, generation: int, fixed: Fixed, lastConfiguration: LastConfiguration): Managed {
    Managed(false, false, None, generation, replicas, fixed, lastConfiguration, {})
  }

  function AtLeastZero(n: int): nat {
    if n > 0 then n else 0
  }

  /** The cluster has the wanted nodes, and the controller has seen its generation. */
  predicate HasNodes(m: Managed, n: nat) {
    m.nodes == UpTo(n) && m.status == Some(Status(Ready, n, m.generation))
  }

  /**
    From its first reconciliation on the controller leads a new cluster to Ready with the nodes
    1, ..., replicas, if and only if every deployment it waits for becomes ready; there it stays.
   */
  lemma {:induction false} NewClusterConverges(m: Managed, answers: seq<Answers>)
    requires m == NewObject(m.replicas, m.generation, m.fixed, m.lastConfiguration)
    requires m.replicas < Numbers.I32_LIMIT && AtLeastZero(m.replicas) < |answers|
    ensures
      var d, n := Reconciliations(m, answers), AtLeastZero(m.replicas);
      Kept(d) && (HasNodes(d, n) <==> forall i :: 1 <= i <= n ==> answers[i].scaled)
  {
    var begun, rest, n := Reconciled(m, answers[0]), answers[1..], AtLeastZero(m.replicas);
    if m.replicas > 0 {
      ControllerSettles(begun, rest);
      ScaleUp(ScalingOf(begun), Verdicts(rest));
      AllTrue(answers, n);
    } else {
      SettledStays(begun, rest);
    }
  }

  lemma AllTrue(answers: seq<Answers>, n: nat)
    requires n < |answers|
    ensures false !in Verdicts(answers[1..])[..n] <==> forall i :: 1 <= i <= n ==> answers[i].scaled
  {
    var v := Verdicts(answers[1..])[..n];
    assert forall i :: 0 <= i < n ==> v[i] == answers[i + 1].scaled;
    assert false in v ==> exists i :: 0 <= i < n && v[i] == false;
    forall i | 1 <= i <= n ensures answers[i].scaled == v[i - 1] {
    }
  }

  /* Edits. */

  function Edited(m: Managed, replicas: int): Managed {
    m.(replicas := replicas, generation := m.generation + 1)
  }

  /** A cluster with the nodes 1, ..., n that waits for an edit. */
  predicate Waits(m: Managed, n: nat) {
    Kept(m) && HasNodes(m, n) && n < Numbers.I32_LIMIT
  }

  /** While a node does not become ready again, the modification is tried once more, and nothing is written. */
  lemma SlowIsRetried(m: Managed, n: nat, replicas: int, answers: Answers)
    requires Waits(m, n) && m.lastConfiguration == Recorded(m.fixed) && !(answers.slow !! UpTo(n))
    ensures Reconciled(Edited(m, replicas), answers) == Edited(m, replicas)
  {
  }

  /**
    An edited number of replicas leads to Ready with exactly the nodes 1, ..., replicas if and only
    if the recorded configuration has the same fixed fields and every new deployment becomes ready
    and every deleted node notifies the cluster.
   */
  lemma {:induction false} EditConverges(m: Managed, n: nat, replicas: nat, answers: seq<Answers>)
    requires Waits(m, n) && replicas < Numbers.I32_LIMIT
    requires |answers| > 1 + Steps(n, replicas) && answers[0].slow !! UpTo(n)
    ensures
      HasNodes(Reconciliations(Edited(m, replicas), answers), replicas) <==>
        m.lastConfiguration == Recorded(m.fixed) && forall i :: 1 <= i <= Steps(n, replicas) ==> answers[i].scaled
  {
    var modified, rest := Reconciled(Edited(m, replicas), answers[0]), answers[1..];
    if m.lastConfiguration == Recorded(m.fixed) && replicas != n {
      ControllerSettles(modified, rest);
      ContiguousConverges(ScalingOf(modified), n, Verdicts(rest));
      SettleKeepsTarget(ScalingOf(modified), Verdicts(rest));
      AllTrue(answers, Steps(n, replicas));
    } else {
      SettledStays(modified, rest);
    }
  }

  lemma {:induction false} SettleKeepsTarget(c: Cluster, answers: seq<bool>)
    ensures Settle(c, answers).replicas == c.replicas
    decreases |answers|
  {
    if c.phase == NotScaled && answers != [] {
      SettleKeepsTarget(Rescaled(c, answers[0]), answers[1..]);
    }
  }

  /** How many nodes have to be created or deleted. */
  function Steps(n: nat, replicas: nat): nat {
    if replicas >= n then replicas - n else n - replicas
  }

  /**
    A rejected change of the fixed fields is accepted with the second further edit: the first
    edit ends in Failed and records the change, the second in Ready, and the third reaches the
    nodes, if and only if there was a record at all. `replicas` are those of the three edits.
   */
  lemma RejectedIsAcceptedLater(m: Managed, n: nat, replicas: seq<int>, answers: seq<Answers>)
    requires Waits(m, n) && m.lastConfiguration != Recorded(m.fixed) && |replicas| == |answers| == 3 && answers[2].slow !! UpTo(n)
    ensures
      var a := Reconciled(Edited(m, replicas[0]), answers[0]);
      var b := Reconciled(Edited(a, replicas[1]), answers[1]);
      var c := Reconciled(Edited(b, replicas[2]), answers[2]);
      && InState(a, Failed) && InState(b, Ready) && a.nodes == b.nodes == c.nodes == UpTo(n)
      && (if m.lastConfiguration.Absent? then InState(c, Failed)
          else InState(c, if replicas[2] == n then Ready else NotScaled) && c.lastConfiguration == Recorded(m.fixed))
  {
  }

  datatype Event = Edit(replicas: int) | Reconciliation(answers: Answers)

  function Run(m: Managed, events: seq<Event>): Managed
    decreases |events|
  {
    if events == [] then m
    else
      Run(match events[0] case Edit(replicas) => Edited(m, replicas) case Reconciliation(answers) => Reconciled(m, answers), events[1..])
  }

  /** Without a recorded configuration a cluster never changes its nodes again once it is Ready, whatever is edited. */
  lemma {:induction false} UnrecordedNeverScales(m: Managed, events: seq<Event>)
    requires Kept(m) && (InState(m, Ready) || InState(m, Failed)) && m.lastConfiguration.Absent?
    ensures
      var d := Run(m, events);
      d.nodes == m.nodes && d.status.Some? && d.status.value.currentNodes == m.status.value.currentNodes
      && (InState(d, Ready) || InState(d, Failed))
    decreases |events|
  {
    if events != [] {
      match events[0]
      case Edit(replicas) => UnrecordedNeverScales(Edited(m, replicas), events[1..]);
      case Reconciliation(answers) => UnrecordedNeverScales(Reconciled(m, answers), events[1..]);
    }
  }

  /** A cluster that is to be deleted loses its nodes and its finalizer at its next reconciliation, unless it already was in phase Deleting. */
  lemma DeletedExactly(m: Managed, answers: Answers)
    requires m.finalizer && m.status.Some? && m.deletionRequested
    ensures
      var d := Reconciled(m, answers);
      && (!d.finalizer <==> !InState(m, Deleting))
      && (!d.finalizer ==> d.nodes == {}) && InState(d, Deleting)
  {
  }
}
