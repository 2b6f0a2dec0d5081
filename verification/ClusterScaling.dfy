/**
  The scaling of a cluster of nodes (`update_status`, `rescale`, `create_node`, `delete_node`,
  `delete_nodes`, `modify`, `appply_modification` and `check_needs_rescale` of
  src/cluster/cluster_hoprd.rs, `determine_action` of src/cluster/cluster_controller.rs, and the
  notification a deleted node sends, src/hoprd/hoprd_resource.rs:279-282, 386-404).
 */
module ClusterScaling {
  import opened Wrappers
  import opened Text
  import opened Sets
  import Numbers = NodeNumbers

  datatype Phase = Initialized | NotScaled | Scaling | Failed | Ready | Deleting | NodeCreated | NodeDeleted

  datatype Status = Status(phase: Phase, currentNodes: int, observedGeneration: int)

  /** The status `update_status` stores; a counter that would become negative is clamped. */
  function NextStatus(status: Status, generation: int, replicas: int, event: Phase): Status {
    var current :=
      if event == NodeCreated then status.currentNodes + 1
      else if event == NodeDeleted then (if status.currentNodes - 1 < 0 then 0 else status.currentNodes - 1)
      else status.currentNodes;
    var phase :=
      if event == NodeCreated || event == NodeDeleted then (if current == replicas then Ready else NotScaled)
      else event;
    Status(phase, current, generation)
  }

  /* The action the controller takes. */

  datatype Action = Create | Modify | Rescale | Delete | NoOp

  /** `determine_action`; None where the source unwraps a missing status. */
  function DetermineAction(deletionRequested: bool, hasFinalizer: bool, status: Option<Status>, generation: int): Option<Action> {
    if deletionRequested && status.Some? && status.value.phase != Deleting then Some(Delete)
    else if !hasFinalizer then Some(Create)
    else
      match status
      case None => None
      case Some(st) =>
        if st.phase == NotScaled || st.phase == Scaling then Some(Rescale)
        else if st.phase == Deleting then Some(NoOp)
        else if st.observedGeneration < generation then Some(Modify)
        else Some(NoOp)
  }

  /* The state a rescale acts on. */

  /** Target, phase, counter and the numbers of the existing nodes. */
  datatype Cluster = Cluster(replicas: int, phase: Phase, current: int, nodes: set<nat>)

  /**
    A rescale that asks for a node. It stops when a node's number cannot be read or the name is
    taken; a node that is created is counted only if its deployment becomes ready.
   */
  function CreatedNode(c: Cluster, deployed: bool): Cluster {
    match Numbers.NextFree(c.nodes)
    case None => c.(phase := Scaling)
    case Some(number) =>
      if number in c.nodes then c.(phase := Scaling)
      else
        var nodes := c.nodes + {number};
        var current := c.current + 1;
        if deployed then Cluster(c.replicas, if current == c.replicas then Ready else NotScaled, current, nodes)
        else Cluster(c.replicas, Scaling, c.current, nodes)
  }

  /** A node that is deleted notifies its cluster only if it carries a finalizer. */
  function DeletedNode(c: Cluster, n: nat, notifies: bool): Cluster {
    var current := if c.current - 1 < 0 then 0 else c.current - 1;
    var nodes := c.nodes - {n};
    if notifies then Cluster(c.replicas, if current == c.replicas then Ready else NotScaled, current, nodes)
    else Cluster(c.replicas, Scaling, c.current, nodes)
  }

  /**
    One `rescale`. The answer says whether the deployment of a created node becomes ready, or
    whether a deleted node notifies the cluster.
   */
  function Rescaled(c: Cluster, answer: bool): Cluster {
    if c.phase != NotScaled then c
    else if c.replicas > c.current then CreatedNode(c, answer)
    else if c.replicas < c.current then
      if c.current >= 0 && c.current in c.nodes then DeletedNode(c, c.current, answer) else c.(phase := Scaling)
    else c.(phase := Ready)
  }

  /** The fields of a cluster's spec that must not change. */
  datatype Fixed = Fixed(identityPool: string, serviceType: string)

  /** The annotation with the last configuration: absent, not readable, or a spec. */
  datatype LastConfiguration = Absent | Unreadable | Recorded(fixed: Fixed)

  datatype NodeSpec = NodeSpec(identityName: string, config: string, portsAllocation: nat)

  /** An update of the nodes that stopped at a slow one: it and perhaps others are updated, none is changed otherwise. */
  ghost predicate Interrupted(before: map<nat, NodeSpec>, after: map<nat, NodeSpec>, slow: set<nat>, config: string, ports: nat) {
    && after.Keys == before.Keys
    && (forall k :: k in after ==> after[k] == before[k] || after[k] == NodeSpec(before[k].identityName, config, ports))
    && exists k :: k in slow && k in after && after[k] == NodeSpec(before[k].identityName, config, ports)
  }

  class ClusterHoprd {
    const name: string
    var identityPool: string
    var serviceType: string
    var replicas: int
    var generation: int
    var config: string
    var portsAllocation: nat
    var lastConfiguration: LastConfiguration
    var status: Status
    var nodes: map<nat, NodeSpec>
    var finalizer: bool
    var hasStatus: bool         // a status has been written
    var deletionRequested: bool

    constructor (name: string, identityPool: string, serviceType: string, replicas: int, config: string, portsAllocation: nat)
      ensures this.name == name && this.identityPool == identityPool && this.serviceType == serviceType
      ensures this.replicas == replicas && this.config == config && this.portsAllocation == portsAllocation
      ensures status == Status(Initialized, 0, 0) && nodes == map[] && lastConfiguration == Absent && generation == 0
      ensures !finalizer && !hasStatus && !deletionRequested
    {
      this.name, this.identityPool, this.serviceType := name, identityPool, serviceType;
      this.replicas, this.config, this.portsAllocation := replicas, config, portsAllocation;
      generation := 0;
      finalizer, hasStatus, deletionRequested := false, false, false;
      lastConfiguration := Absent;
      status := Status(Initialized, 0, 0);
      nodes := map[];
    }

    function Contents(): Cluster
      reads this
    {
      Cluster(replicas, status.phase, status.currentNodes, nodes.Keys)
    }

    /** Every node asks for the identity that carries its own number. */
    ghost predicate IdentitiesMatch()
      reads this
    {
      forall k :: k in nodes ==> nodes[k].identityName == Numbers.NodeName(identityPool, k)
    }

    method UpdateStatus(event: Phase)
      modifies `status
      ensures status == NextStatus(old(status), generation, replicas, event)
    {
      var next := status;
      next := next.(observedGeneration := generation);
      next := next.(phase := event);
      if event == NodeCreated {
        next := next.(currentNodes := next.currentNodes + 1);
      } else if event == NodeDeleted {
        next := next.(currentNodes := next.currentNodes - 1);
        if next.currentNodes < 0 {
          next := next.(currentNodes := 0);
        }
      }
      if event == NodeCreated || event == NodeDeleted {
        if next.currentNodes == replicas {
          next := next.(phase := Ready);
        } else {
          next := next.(phase := NotScaled);
        }
      }
      status := next;
    }

    /** Lists the names of the nodes and asks for the next free number; None stops the caller. */
    method NextFreeNode() returns (next: Option<nat>)
      ensures next == Numbers.NextFree(nodes.Keys)
    {
      var pending := nodes.Keys;
      var names: seq<string> := [];
      ghost var numbers: seq<nat> := [];
      while pending != {}
        invariant pending <= nodes.Keys
        invariant Numbers.Lists(name, names, numbers)
        invariant forall k :: k in numbers <==> k in nodes.Keys - pending
      {
        var k :| k in pending;
        assert k !in numbers;
        pending := pending - {k};
        names := names + [Numbers.NodeName(name, k)];
        numbers := numbers + [k];
      }
      Numbers.NextFreeExact(name, names, numbers);
      assert Numbers.ToSet(numbers) == nodes.Keys;
      var free := Numbers.GetNextFreeNode(name, names);
      if free.None? {
        return None;
      }
      return Some(free.value);
    }

    /** Creates the node with the next free number; it is counted only when its deployment becomes ready. */
    method CreateNode(deployed: bool)
      modifies `nodes, `status
      ensures
        var number := Numbers.NextFree(old(nodes).Keys);
        if number.Some? && number.value !in old(nodes) then
          && nodes == old(nodes)[number.value :=
               NodeSpec(Numbers.NodeName(identityPool, number.value), config, portsAllocation)]
          && status == (if deployed then NextStatus(old(status), generation, replicas, NodeCreated) else old(status))
        else nodes == old(nodes) && status == old(status)
      ensures old(IdentitiesMatch()) ==> IdentitiesMatch()
    {
      var number := NextFreeNode();
      if number.None? || number.value in nodes {
        return;
      }
      var identityName := identityPool + "-" + Decimal(number.value);
      nodes := nodes[number.value := NodeSpec(identityName, config, portsAllocation)];
      if deployed {
        UpdateStatus(NodeCreated);
      }
    }

    /** What the deletion of a node's object does: a node with a finalizer notifies its cluster before it disappears. */
    method DestroyNode(number: nat, hasFinalizer: bool)
      modifies `nodes, `status
      ensures nodes == old(nodes) - {number}
      ensures status == if hasFinalizer && old(status).phase != Deleting then NextStatus(old(status), generation, replicas, NodeDeleted)
                        else old(status)
    {
      if hasFinalizer && status.phase != Deleting {
        UpdateStatus(NodeDeleted);
      }
      nodes := nodes - {number};
    }

    /** Deletes the node whose number is the counter, if there is one. */
    method DeleteNode(hasFinalizer: bool)
      modifies `nodes, `status
      ensures
        var number := old(status).currentNodes;
        if number >= 0 && number in old(nodes) then
          && nodes == old(nodes) - {number}
          && status == (if hasFinalizer && old(status).phase != Deleting then NextStatus(old(status), generation, replicas, NodeDeleted)
                        else old(status))
        else nodes == old(nodes) && status == old(status)
    {
      var number := status.currentNodes;
      if number >= 0 && number in nodes {
        DestroyNode(number, hasFinalizer);
      }
    }

    /** One rescale is the step `Rescaled`. */
    method RescaleCluster(answer: bool)
      modifies `nodes, `status
      ensures Contents() == Rescaled(old(Contents()), answer)
      ensures status.observedGeneration == if old(status).phase == NotScaled then generation else old(status).observedGeneration
      ensures old(IdentitiesMatch()) ==> IdentitiesMatch()
    {
      if status.phase == NotScaled {
        UpdateStatus(Scaling);
        var unsynched := replicas - status.currentNodes;
        if unsynched >= 1 {
          CreateNode(answer);
        } else if unsynched <= -1 {
          DeleteNode(answer);
        } else {
          UpdateStatus(Ready);
        }
      }
    }

    /** Deleting the cluster removes every node and its own finalizer, and leaves the counter as it is. */
    method DeleteCluster(finalized: set<nat>)
      modifies `nodes, `status, `finalizer
      ensures nodes == map[] && status == Status(Deleting, old(status).currentNodes, generation) && !finalizer
    {
      UpdateStatus(Deleting);
      var pending := nodes.Keys;
      while pending != {}
        invariant nodes.Keys == pending
        invariant status == Status(Deleting, old(status).currentNodes, generation)
      {
        var k :| k in pending;
        pending := pending - {k};
        DestroyNode(k, k in finalized);
      }
      finalizer := false;
    }

    /** A node with the cluster's configuration and its own identity. */
    function Updated(node: NodeSpec): NodeSpec
      reads this
    {
      NodeSpec(node.identityName, config, portsAllocation)
    }

    /**
      Gives every node the cluster's configuration; nodes keep their identities. It stops at the
      first node whose deployment does not become ready again, which has then been changed.
     */
    method ApplyModification(slow: set<nat>) returns (completed: bool)
      modifies `nodes, `status
      ensures completed <==> slow !! old(nodes).Keys
      ensures completed ==>
                && nodes == (map k | k in old(nodes) :: Updated(old(nodes)[k]))
                && status == NextStatus(old(status), generation, replicas, Ready)
      ensures !completed ==>
                && status == old(status) && nodes.Keys == old(nodes).Keys
                && Interrupted(old(nodes), nodes, slow, config, portsAllocation)
      ensures old(IdentitiesMatch()) ==> IdentitiesMatch()
    {
      var listed := nodes;
      var pending := listed.Keys;
      while pending != {}
        invariant pending <= listed.Keys == nodes.Keys
        invariant status == old(status)
        invariant slow !! (listed.Keys - pending)
        invariant forall k :: k in pending ==> nodes[k] == listed[k]
        invariant forall k :: k in listed && k !in pending ==> nodes[k] == Updated(listed[k])
      {
        var k :| k in pending;
        pending := pending - {k};
        nodes := nodes[k := Updated(listed[k])];
        if k in slow {
          return false;
        }
      }
      UpdateStatus(Ready);
      return true;
    }

    /** After a modification the phase says whether the counter still differs from the target. */
    method CheckNeedsRescale()
      modifies `status
      ensures status == NextStatus(old(status), generation, replicas, if replicas == old(status).currentNodes then Ready else NotScaled)
    {
      if replicas - status.currentNodes != 0 {
        UpdateStatus(NotScaled);
      } else {
        UpdateStatus(Ready);
      }
    }

    /** A new cluster has to be scaled unless it asks for no node. */
    method Create()
      modifies `status, `finalizer, `hasStatus
      ensures finalizer && hasStatus
      ensures status == Status(if replicas > 0 then NotScaled else Ready, old(status).currentNodes, generation)
    {
      finalizer := true;
      hasStatus := true;
      UpdateStatus(Initialized);
      if replicas > 0 {
        UpdateStatus(NotScaled);
      } else {
        UpdateStatus(Ready);
      }
    }

    /** The recorded fixed fields are the present ones, and the cluster is not recovering from a failure. */
    predicate Accepts()
      reads this
    {
      status.phase != Failed && lastConfiguration == Recorded(Fixed(identityPool, serviceType))
    }

    /**
      A modification reaches the nodes exactly when the cluster is not Failed and the recorded
      configuration has the same fixed fields; a change of these fields is rejected once, and
      recorded all the same. A node that does not become ready again leaves status and record alone.
     */
    method Modify(slow: set<nat>)
      modifies `nodes, `status, `lastConfiguration
      ensures !old(Accepts()) ==>
                && nodes == old(nodes)
                && status == Status(if old(status).phase == Failed then Ready else Failed, old(status).currentNodes, generation)
      ensures old(Accepts()) && slow !! old(nodes).Keys ==>
                && nodes == (map k | k in old(nodes) :: Updated(old(nodes)[k]))
                && status == Status(if replicas == old(status).currentNodes then Ready else NotScaled, old(status).currentNodes, generation)
      ensures old(Accepts()) && !(slow !! old(nodes).Keys) ==>
                && status == old(status) && nodes.Keys == old(nodes).Keys
                && Interrupted(old(nodes), nodes, slow, config, portsAllocation)
      ensures lastConfiguration == if old(status).phase == Failed || old(lastConfiguration).Absent? then old(lastConfiguration)
                                   else Recorded(Fixed(identityPool, serviceType))
      ensures old(IdentitiesMatch()) ==> IdentitiesMatch()
    {
      if status.phase == Failed {
        UpdateStatus(Ready);
        return;
      }
      match lastConfiguration {
        case Absent =>
          UpdateStatus(Failed);
          return;
        case Unreadable =>
          UpdateStatus(Failed);
        case Recorded(fixed) =>
          if fixed.identityPool != identityPool || fixed.serviceType != serviceType {
            UpdateStatus(Failed);
          } else {
            var completed := ApplyModification(slow);
            if !completed {
              return;
            }
            CheckNeedsRescale();
          }
      }
      lastConfiguration := Recorded(Fixed(identityPool, serviceType));
    }
  }

  /**
    The modification for an edit and for two further edits that keep its fixed fields, as the
    controller performs them in a cluster it need not rescale. An edit whose fixed fields are not
    the recorded ones is rejected; the second one leads back to Ready, and the third is accepted,
    as the rejected fields have been recorded. Only without an annotation, or in a Failed cluster
    whose record differs, do the nodes keep their configuration; a node that does not become ready
    again interrupts the update of the others.
   */
  method ThreeModifications(c: ClusterHoprd, slow: set<nat>)
    modifies c`nodes, c`status, c`lastConfiguration, c`generation
    ensures
      var same := old(c.lastConfiguration) == Recorded(Fixed(c.identityPool, c.serviceType));
      var reached := !old(c.lastConfiguration).Absent? && (old(c.status).phase != Failed || same);
      && (!reached ==> c.nodes == old(c.nodes))
      && (reached && slow !! old(c.nodes).Keys ==> c.nodes == map k | k in old(c.nodes) :: c.Updated(old(c.nodes)[k]))
      && (reached && !(slow !! old(c.nodes).Keys) ==> Interrupted(old(c.nodes), c.nodes, slow, c.config, c.portsAllocation))
      && (reached && !same && slow !! old(c.nodes).Keys ==>
            && c.status.phase == (if c.replicas == c.status.currentNodes then Ready else NotScaled)
            && c.lastConfiguration == Recorded(Fixed(c.identityPool, c.serviceType)))
    ensures c.nodes.Keys == old(c.nodes).Keys && c.status.currentNodes == old(c.status).currentNodes
  {
    ghost var before := c.nodes;
    TwoModifications(c, slow);
    ghost var second := c.nodes;
    c.generation := c.generation + 1;
    c.Modify(slow);
    InterruptedTwice(before, second, c.nodes, slow, c.config, c.portsAllocation);
  }

  /** The first two of these: the nodes have the new configuration already if the record was right, and otherwise nothing but the record is. */
  method TwoModifications(c: ClusterHoprd, slow: set<nat>)
    modifies c`nodes, c`status, c`lastConfiguration, c`generation
    ensures
      var same := old(c.lastConfiguration) == Recorded(Fixed(c.identityPool, c.serviceType));
      && (!same ==> c.nodes == old(c.nodes))
      && (!same ==> (c.status.phase == Failed <==> old(c.status).phase == Failed))
      && (same && slow !! old(c.nodes).Keys ==> c.nodes == map k | k in old(c.nodes) :: c.Updated(old(c.nodes)[k]))
      && (same && !(slow !! old(c.nodes).Keys) ==> Interrupted(old(c.nodes), c.nodes, slow, c.config, c.portsAllocation))
      && (same ==> c.status.phase != Failed)
      && c.lastConfiguration == if old(c.lastConfiguration).Absent? then Absent else Recorded(Fixed(c.identityPool, c.serviceType))
    ensures c.nodes.Keys == old(c.nodes).Keys && c.status.currentNodes == old(c.status).currentNodes
  {
    ghost var before := c.nodes;
    c.Modify(slow);
    ghost var first := c.nodes;
    c.generation := c.generation + 1;
    c.Modify(slow);
    InterruptedTwice(before, first, c.nodes, slow, c.config, c.portsAllocation);
  }

  /** Repeating an interrupted update, or doing nothing, leaves an interrupted update. */
  lemma InterruptedTwice(a: map<nat, NodeSpec>, b: map<nat, NodeSpec>, c: map<nat, NodeSpec>, slow: set<nat>, config: string, ports: nat)
    ensures Interrupted(a, b, slow, config, ports) && (c == b || Interrupted(b, c, slow, config, ports)) ==> Interrupted(a, c, slow, config, ports)
  {
    if Interrupted(a, b, slow, config, ports) && Interrupted(b, c, slow, config, ports) {
      var k :| k in slow && k in c && c[k] == NodeSpec(b[k].identityName, config, ports);
      assert c[k] == NodeSpec(a[k].identityName, config, ports);
    }
  }

  /** A cluster that was rejected or has recovered waits for a further edit. */
  lemma WaitsForEdit(status: Status, generation: int)
    requires (status.phase == Failed || status.phase == Ready) && status.observedGeneration == generation
    ensures DetermineAction(false, true, Some(status), generation) == Some(NoOp)
    ensures DetermineAction(false, true, Some(status), generation + 1) == Some(Modify)
  {
  }

  /* Convergence. */

  function Distance(c: Cluster): nat {
    if c.replicas >= c.current then c.replicas - c.current else c.current - c.replicas
  }

  /** Rescales, with the given answers, until the phase is no longer NotScaled or the answers end. */
  function Settle(c: Cluster, answers: seq<bool>): Cluster
    decreases |answers|
  {
    if c.phase != NotScaled || answers == [] then c else Settle(Rescaled(c, answers[0]), answers[1..])
  }

  /** A rescale that is not the last one brings the counter closer to the target. */
  lemma RescaleApproaches(c: Cluster, answer: bool)
    requires 0 !in c.nodes && c.phase == NotScaled && Rescaled(c, answer).phase == NotScaled
    ensures 0 !in Rescaled(c, answer).nodes && Distance(Rescaled(c, answer)) == Distance(c) - 1
  {
    Numbers.MexIsLeast(c.nodes, 1);
  }

  /** The counter agrees with the nodes, whose numbers are positive and, like the target, in the range of an i32. */
  predicate Consistent(c: Cluster) {
    c.current == |c.nodes| && c.replicas < Numbers.I32_LIMIT && forall n :: n in c.nodes ==> 0 < n < Numbers.I32_LIMIT
  }

  predicate InRange(low: int, i: nat, high: int) {
    low < i <= high
  }

  /** The numbers low + 1, ..., high. */
  function Between(low: int, high: int): set<nat> {
    set i: nat | i <= high && InRange(low, i, high)
  }

  function UpTo(n: int): set<nat> {
    Between(0, n)
  }

  lemma {:induction false} UpToSize(n: nat)
    ensures |UpTo(n)| == n
  {
    if n == 0 {
      assert UpTo(0) == {};
    } else {
      UpToSize(n - 1);
      assert UpTo(n) == UpTo(n - 1) + {n};
    }
  }

  /** With fewer than r nodes the next free number is new and does not exceed r. */
  lemma NextFits(nodes: set<nat>, r: nat)
    requires |nodes| < r && forall n :: n in nodes ==> 0 < n < Numbers.I32_LIMIT
    ensures
      var next := Numbers.NextFree(nodes);
      next.Some? && 1 <= next.value <= r && next.value !in nodes
  {
    Numbers.MexIsLeast(nodes, 1);
    if Numbers.Mex(nodes, 1) > r {
      assert UpTo(r) <= nodes;
      SubsetSize(UpTo(r), nodes);
      UpToSize(r);
    }
  }

  /** What one rescale makes of a consistent cluster that has too few nodes. */
  lemma OneUp(c: Cluster, answer: bool)
    requires Consistent(c) && c.phase == NotScaled && c.current < c.replicas
    ensures
      var next := Numbers.NextFree(c.nodes);
      var d := Rescaled(c, answer);
      && next.Some? && 1 <= next.value <= c.replicas && next.value !in c.nodes
      && d.nodes == c.nodes + {next.value} && |d.nodes| == c.current + 1 && d.replicas == c.replicas
      && (answer ==> Consistent(d) && d.phase == (if d.current == d.replicas then Ready else NotScaled))
      && (!answer ==> d.phase == Scaling && d.current == c.current)
  {
    NextFits(c.nodes, c.replicas);
  }

  lemma SettleStops(c: Cluster, answers: seq<bool>)
    requires c.phase != NotScaled
    ensures Settle(c, answers) == c
  {
  }

  /**
    Scaling up with any answers ends in Ready if and only if every deployment it waits for becomes
    ready. It then has exactly the wanted number of nodes and keeps the old ones, and the nodes are
    1, ..., replicas if and only if no node had a larger number before. Otherwise the cluster stays
    in Scaling with one node that is not counted.
   */
  lemma {:induction false} ScaleUp(c: Cluster, answers: seq<bool>)
    requires Consistent(c) && c.phase == NotScaled && c.current < c.replicas <= c.current + |answers|
    ensures
      var d := Settle(c, answers);
      && d.replicas == c.replicas && c.nodes <= d.nodes
      && (d.phase == Ready <==> false !in answers[..c.replicas - c.current])
      && (d.phase == Ready ==>
            && Consistent(d) && d.current == c.replicas
            && (d.nodes == UpTo(c.replicas) <==> c.nodes <= UpTo(c.replicas)))
      && (d.phase != Ready ==> d.phase == Scaling && d.current < c.replicas && |d.nodes| == d.current + 1)
    decreases |answers|
  {
    OneUp(c, answers[0]);
    var next := Rescaled(c, answers[0]);
    var k := c.replicas - c.current;
    assert answers[..k] == [answers[0]] + answers[1..][..k - 1];
    if next.phase == NotScaled {
      ScaleUp(next, answers[1..]);
    } else {
      SettleStops(next, answers[1..]);
      UpToSize(c.replicas);
      if c.nodes <= UpTo(c.replicas) {
        SubsetSize(next.nodes, UpTo(c.replicas));
      }
    }
  }

  /**
    Scaling down deletes the nodes with the highest counters by number. It ends in Ready if and
    only if the nodes replicas + 1, ..., current all exist and all notify the cluster; exactly
    these are then deleted. Otherwise the cluster stays in Scaling.
   */
  lemma {:induction false} ScaleDown(c: Cluster, answers: seq<bool>)
    requires Consistent(c) && c.phase == NotScaled && c.replicas < c.current <= c.replicas + |answers|
    ensures
      var d := Settle(c, answers);
      && d.replicas == c.replicas
      && (d.phase == Ready <==> Between(c.replicas, c.current) <= c.nodes && false !in answers[..c.current - c.replicas])
      && (d.phase == Ready ==> Consistent(d) && d.current == c.replicas && d.nodes == c.nodes - Between(c.replicas, c.current))
      && (d.phase != Ready ==> d.phase == Scaling && d.current > c.replicas)
    decreases |answers|
  {
    var next := Rescaled(c, answers[0]);
    var k := c.current - c.replicas;
    assert answers[..k] == [answers[0]] + answers[1..][..k - 1];
    assert c.current in Between(c.replicas, c.current);
    assert Between(c.replicas, c.current) == Between(c.replicas, c.current - 1) + {c.current};
    if next.phase == NotScaled {
      assert next.nodes == c.nodes - {c.current};
      ScaleDown(next, answers[1..]);
    } else {
      SettleStops(next, answers[1..]);
      assert next.phase == Ready ==> Between(c.replicas, c.current - 1) == {};
    }
  }

  /** A cluster whose nodes are 1, ..., n ends in Ready with the nodes 1, ..., replicas if and only if every answer it uses is positive. */
  lemma ContiguousConverges(c: Cluster, n: nat, answers: seq<bool>)
    requires c.phase == NotScaled && c.nodes == UpTo(n) && c.current == n && 0 <= c.replicas
    requires c.replicas < Numbers.I32_LIMIT && n < Numbers.I32_LIMIT && Distance(c) < |answers|
    ensures Settle(c, answers) == Cluster(c.replicas, Ready, c.replicas, UpTo(c.replicas)) <==> false !in answers[..Distance(c)]
  {
    UpToSize(n);
    if n < c.replicas {
      ScaleUp(c, answers);
      assert c.nodes <= UpTo(c.replicas);
    } else if n > c.replicas {
      ScaleDown(c, answers);
      assert Between(c.replicas, n) <= UpTo(n);
      assert UpTo(n) - Between(c.replicas, n) == UpTo(c.replicas);
    } else {
      SettleStops(Rescaled(c, answers[0]), answers[1..]);
    }
  }

  /**
    A node whose deployment does not become ready stays uncounted, and the cluster stays in
    Scaling: every later reconciliation is a rescale, whatever the generation of the object, and
    such a rescale changes nothing.
   */
  lemma FailedDeploymentIsStuck(c: Cluster, status: Status, generation: int, answers: seq<bool>)
    requires Consistent(c) && c.phase == NotScaled && c.current < c.replicas
    requires status.phase == Rescaled(c, false).phase
    ensures
      var d := Rescaled(c, false);
      && |d.nodes| == d.current + 1
      && DetermineAction(false, true, Some(status), generation) == Some(Rescale)
      && Settle(d, answers) == d && Rescaled(d, true) == d && Rescaled(d, false) == d
  {
    OneUp(c, false);
    SettleStops(Rescaled(c, false), answers);
  }
}
