/**
  The life of one node as its controller drives it: what a reconciliation does, how often the
  release of a node's resources starts, and which modifications reach the ports of its
  deployment (src/hoprd/hoprd_controller.rs:47-65, src/hoprd/hoprd_resource.rs:106-286, 327-385,
  src/hoprd/hoprd_deployment.rs:123-142). Every reconciliation reads the node as the API has it.
 */
module NodeLifecycle {
  import opened Wrappers
  import PortSearch
  import Text
  import Views = PortViews

  datatype Phase = Initializing | Running | Stopped | Modified | Failed | Deleting

  datatype Spec = Spec(identityPool: string, identity: string, allocation: nat, enabled: Option<bool>, config: string)

  datatype Status = Status(phase: Phase, observedGeneration: int)

  /** The annotation with the last configuration: absent, not readable, or a spec. */
  datatype LastConfiguration = Absent | Unreadable | Recorded(spec: Spec)

  /** The first port and the last port (exclusive) the deployment was given. */
  datatype Block = Block(start: int, last: int)

  /** The host variable and the block of the deployment's container. */
  datatype Deployment = Deployment(hostVariable: string, block: Block)

  /**
    What the API server does with metadata that is sent to the status endpoint of a node. For
    custom resources with a status subresource, as charts/hoprd-crds/templates/hoprd.yaml:30-31
    declares it, Kubernetes takes only the status.
   */
  datatype StatusEndpoint = StatusOnly | WholeObject

  /** `releases` counts how often the release of ports, identity and counter was started. */
  datatype Node = Node(
    spec: Spec,
    generation: int,
    deletionRequested: bool,
    finalizer: bool,
    status: Option<Status>,
    lastConfiguration: LastConfiguration,
    deployed: Option<Deployment>,
    releases: nat,
    gone: bool)

  /** How far the creation of a node's resources gets. */
  datatype Creation = NoIdentity | NoPorts | NotReady(host: string, start: nat) | Ready(host: string, start: nat)

  /** What the cluster answers during one reconciliation. */
  datatype Environment = Environment(creation: Creation, identityExists: bool, deploymentReady: bool, releaseCompletes: bool)

  datatype Choice = Create | Modify | Delete | NoOp

  /** `determine_action`; None where the source unwraps a missing status. */
  function DetermineAction(n: Node): Option<Choice> {
    if n.deletionRequested && n.status.Some? && n.status.value.phase != Deleting then Some(Delete)
    else if !n.finalizer then Some(Create)
    else
      match n.status
      case None => None
      case Some(status) =>
        if status.phase == Failed then Some(Modify)
        else if status.phase == Deleting then Some(NoOp)
        else if status.observedGeneration < n.generation then Some(Modify)
        else Some(NoOp)
  }

  function InPhase(n: Node, phase: Phase): Node {
    n.(status := Some(Status(phase, n.generation)))
  }

  function ActivePhase(spec: Spec): Phase {
    if spec.enabled == Some(false) then Stopped else Running
  }

  /** `changed_inmutable_fields` */
  predicate ChangesFixedFields(spec: Spec, previous: Spec) {
    spec.identityPool != previous.identityPool || spec.identity != previous.identity || spec.allocation != previous.allocation
  }

  function BlockFrom(start: int, allocation: nat): Block {
    Block(start, PortSearch.Wrap(start + allocation))
  }

  /** The deployment that is created for a host and a starting port. */
  function DeploymentFor(host: string, start: nat, allocation: nat): Deployment {
    Deployment(Views.HostVariable(host, start), BlockFrom(start, allocation))
  }

  function Created(n: Node, creation: Creation): Node {
    var m := InPhase(n, Initializing);
    match creation
    case NoIdentity => m
    case NoPorts => m.(finalizer := true)
    case NotReady(host, start) => m.(finalizer := true, deployed := Some(DeploymentFor(host, start, n.spec.allocation)))
    case Ready(host, start) =>
      InPhase(m.(finalizer := true, deployed := Some(DeploymentFor(host, start, n.spec.allocation))), ActivePhase(n.spec))
  }

  /** `modify_deployment`: host and starting port come from the host variable; None where it cannot be read. */
  function Redeployment(d: Deployment, allocation: nat): Option<Deployment> {
    match Views.RecoverHost(d.hostVariable)
    case None => None
    case Some((host, start)) => Some(DeploymentFor(host, start, allocation))
  }

  /** `update_last_configuration`: the annotation is sent to the status endpoint. */
  function Annotated(server: StatusEndpoint, n: Node): Node {
    if server.WholeObject? then n.(lastConfiguration := Recorded(n.spec)) else n
  }

  /** `modify`; a deployment that is missing or whose host variable cannot be read stops it before anything is written. */
  function Altered(server: StatusEndpoint, n: Node, identityExists: bool, ready: bool): Node
    requires n.status.Some?
  {
    if n.status.value.phase == Failed then InPhase(n, ActivePhase(n.spec))
    else
      match n.lastConfiguration
      case Absent => InPhase(n, Failed)
      case Unreadable => Annotated(server, InPhase(n, Failed))
      case Recorded(previous) =>
        if ChangesFixedFields(n.spec, previous) || !identityExists then Annotated(server, InPhase(n, Failed))
        else
          var redeployed := if n.deployed.Some? then Redeployment(n.deployed.value, n.spec.allocation) else None;
          if redeployed.None? then n
          else
            var m := n.(deployed := redeployed);
            Annotated(server, if ready then InPhase(m, ActivePhase(n.spec)) else m)
  }

  /** `delete`: the phase is written before anything is released, and the finalizer is removed after all of it. */
  function Deleted(n: Node, completes: bool): Node {
    if n.status.Some? && n.status.value.phase == Deleting then n
    else
      var m := InPhase(n, Deleting).(releases := n.releases + 1);
      if completes then m.(finalizer := false, gone := true) else m
  }

  class Hoprd {
    const server: StatusEndpoint
    var node: Node

    constructor (server: StatusEndpoint, spec: Spec, lastConfiguration: LastConfiguration)
      ensures this.server == server && node == New(spec, lastConfiguration)
    {
      this.server := server;
      node := New(spec, lastConfiguration);
    }

    method UpdateStatus(phase: Phase)
      modifies `node
      ensures node == InPhase(old(node), phase)
    {
      var status := match node.status case Some(s) => s case None => Status(Initializing, 0);
      status := status.(phase := phase);
      status := status.(observedGeneration := node.generation);
      node := node.(status := Some(status));
    }

    method SetRunningStatus()
      modifies `node
      ensures node == InPhase(old(node), ActivePhase(old(node).spec))
    {
      var enabled := match node.spec.enabled case Some(b) => b case None => true;
      if enabled {
        UpdateStatus(Running);
      } else {
        UpdateStatus(Stopped);
      }
    }

    method CreateNode(creation: Creation)
      modifies `node
      ensures node == Created(old(node), creation)
    {
      UpdateStatus(Initializing);
      if creation.NoIdentity? {
        return;
      }
      node := node.(finalizer := true);
      if creation.NoPorts? {
        return;
      }
      var lastPort := PortSearch.Wrap(creation.start + node.spec.allocation);
      node := node.(deployed := Some(Deployment(Views.HostVariable(creation.host, creation.start), Block(creation.start, lastPort))));
      if creation.Ready? {
        SetRunningStatus();
      }
    }

    /** Rebuilds the deployment; it stops when there is none or when its host variable cannot be read. */
    method ApplyModification(ready: bool) returns (applied: bool)
      requires node.status.Some?
      modifies `node
      ensures applied <==> old(node).deployed.Some? && Redeployment(old(node).deployed.value, old(node).spec.allocation).Some?
      ensures !applied ==> node == old(node)
      ensures applied ==>
                var m := old(node).(deployed := Redeployment(old(node).deployed.value, old(node).spec.allocation));
                node == if ready then InPhase(m, ActivePhase(m.spec)) else m
    {
      if node.deployed.None? {
        return false;
      }
      var recovered := Views.RecoverHost(node.deployed.value.hostVariable);
      if recovered.None? {
        return false;
      }
      var (host, start) := recovered.value;
      var lastPort := PortSearch.Wrap(start + node.spec.allocation);
      node := node.(deployed := Some(Deployment(Views.HostVariable(host, start), Block(start, lastPort))));
      if ready {
        SetRunningStatus();
      }
      return true;
    }

    method UpdateLastConfiguration()
      modifies `node
      ensures node == Annotated(server, old(node))
    {
      if server == WholeObject {
        node := node.(lastConfiguration := Recorded(node.spec));
      }
    }

    method ModifyNode(identityExists: bool, ready: bool)
      requires node.status.Some?
      modifies `node
      ensures node == Altered(server, old(node), identityExists, ready)
    {
      if node.status.value.phase == Failed {
        SetRunningStatus();
        return;
      }
      match node.lastConfiguration {
        case Absent =>
          UpdateStatus(Failed);
          return;
        case Unreadable =>
          UpdateStatus(Failed);
        case Recorded(previous) =>
          if ChangesFixedFields(node.spec, previous) {
            UpdateStatus(Failed);
          } else if identityExists {
            var applied := ApplyModification(ready);
            if !applied {
              return;
            }
          } else {
            UpdateStatus(Failed);
          }
      }
      UpdateLastConfiguration();
    }

    method DeleteNode(completes: bool)
      modifies `node
      ensures node == Deleted(old(node), completes)
    {
      if node.status.Some? && node.status.value.phase == Deleting {
        return;
      }
      UpdateStatus(Deleting);
      node := node.(releases := node.releases + 1);
      if completes {
        node := node.(finalizer := false, gone := true);
      }
    }
  }

  /* Runs. */

  datatype Event =
    | Edit(spec: Spec)
    | RequestDeletion
    | Reconcile(environment: Environment)

  function New(spec: Spec, lastConfiguration: LastConfiguration): Node {
    Node(spec, 1, false, false, None, lastConfiguration, None, 0, false)
  }

  function Reconciled(server: StatusEndpoint, n: Node, e: Environment): Node {
    match DetermineAction(n)
    case None => n
    case Some(Create) => Created(n, e.creation)
    case Some(Modify) => Altered(server, n, e.identityExists, e.deploymentReady)
    case Some(Delete) => Deleted(n, e.releaseCompletes)
    case Some(NoOp) => n
  }

  /** An object without finalizers disappears as soon as its deletion is requested. */
  function Step(server: StatusEndpoint, n: Node, e: Event): Node {
    if n.gone then n
    else
      match e
      case Edit(spec) => n.(spec := spec, generation := n.generation + 1)
      case RequestDeletion => if n.finalizer then n.(deletionRequested := true) else n.(gone := true)
      case Reconcile(environment) => Reconciled(server, n, environment)
  }

  function Run(server: StatusEndpoint, n: Node, events: seq<Event>): Node
    decreases |events|
  {
    if events == [] then n else Run(server, Step(server, n, events[0]), events[1..])
  }

  /* The release. */

  predicate IsDeleting(n: Node) {
    n.status.Some? && n.status.value.phase == Deleting
  }

  ghost predicate Inv(n: Node) {
    && n.releases == (if IsDeleting(n) then 1 else 0)
    && (IsDeleting(n) && !n.gone ==> n.finalizer)
    && (n.finalizer ==> n.status.Some?)
    && (n.deletionRequested && !n.gone ==> n.finalizer)
  }

  /**
    In every run the release of a node is started at most once, exactly when the node enters phase
    Deleting; a node that was created does not disappear without it.
   */
  lemma {:induction false} ReleasedAtMostOnce(server: StatusEndpoint, n: Node, events: seq<Event>)
    requires Inv(n)
    ensures
      var m := Run(server, n, events);
      && m.releases <= 1
      && (m.releases == 1 <==> IsDeleting(m))
      && (n.finalizer && !n.gone && m.gone ==> m.releases == 1)
    decreases |events|
  {
    if events != [] {
      var next := Step(server, n, events[0]);
      ReleasedAtMostOnce(server, next, events[1..]);
      if next.gone {
        GoneForGood(server, next, events[1..]);
      }
    }
  }

  lemma {:induction false} GoneForGood(server: StatusEndpoint, n: Node, events: seq<Event>)
    requires n.gone
    ensures Run(server, n, events) == n
    decreases |events|
  {
    if events != [] {
      GoneForGood(server, n, events[1..]);
    }
  }

  /**
    A release that fails on the way is never resumed: no event changes the status of a node in
    phase Deleting, starts its release again or lets it disappear.
   */
  lemma {:induction false} AbortedReleaseIsStuck(server: StatusEndpoint, n: Node, events: seq<Event>)
    requires Inv(n) && IsDeleting(n) && !n.gone
    ensures
      var m := Run(server, n, events);
      m.status == n.status && m.finalizer && !m.gone && m.releases == n.releases && m.deployed == n.deployed
    decreases |events|
  {
    if events != [] {
      AbortedReleaseIsStuck(server, Step(server, n, events[0]), events[1..]);
    }
  }

  /**
    A created node whose deletion is requested disappears at its next reconciliation if and only
    if the release completes and was not started before.
   */
  lemma DeletionCompletes(server: StatusEndpoint, n: Node, e: Environment)
    requires Inv(n) && n.finalizer && !n.gone
    ensures Run(server, n, [RequestDeletion, Reconcile(e)]).gone <==> !IsDeleting(n) && e.releaseCompletes
  {
    var requested := Step(server, n, RequestDeletion);
    assert [RequestDeletion, Reconcile(e)][1..] == [Reconcile(e)];
    assert Run(server, requested, [Reconcile(e)]) == Run(server, Step(server, requested, Reconcile(e)), []);
  }

  /* The ports of a deployment. */

  /** A reconciliation that modifies the node and reads the recorded configuration. */
  predicate ReadsRecord(n: Node, e: Event) {
    && !n.gone && e.Reconcile? && DetermineAction(n) == Some(Modify)
    && n.status.value.phase != Failed && !n.lastConfiguration.Absent?
  }

  /** Rebuilding the deployment for the allocation would not change it. */
  predicate FitsAllocation(d: Deployment, allocation: nat) {
    var redeployed := Redeployment(d, allocation);
    redeployed.Some? ==> redeployed.value == d
  }

  /** The deployment is the one of the configuration that is recorded. */
  predicate FitsRecord(n: Node) {
    n.deployed.Some? && n.lastConfiguration.Recorded? ==> FitsAllocation(n.deployed.value, n.lastConfiguration.spec.allocation)
  }

  /** A new deployment is rebuilt as it is, for its own allocation, if and only if its host contains no ':'. */
  lemma CreationFits(host: string, start: nat, allocation: nat)
    requires start < 0x1_0000
    ensures Redeployment(DeploymentFor(host, start, allocation), allocation) == Some(DeploymentFor(host, start, allocation))
            <==> ':' !in host
  {
    var value := Views.HostVariable(host, start);
    Views.HostRoundTrip(host, start);
    Views.BeforeHasNo(value, ':');
    var recovered := Views.RecoverHost(value);
    if ':' in host && recovered.Some? {
      TwoColons(host, start, recovered.value.0, recovered.value.1);
    }
  }

  lemma TwoColons(host: string, start: nat, other: string, port: nat)
    requires ':' in host && ':' !in other
    ensures Views.HostVariable(host, start) != Views.HostVariable(other, port)
  {
    var a, b := Views.HostVariable(host, start), Views.HostVariable(other, port);
    Text.DecimalHasNo(port, ':');
    var i :| 0 <= i < |host| && host[i] == ':';
    assert a[i] == ':' && a[|host|] == ':';
    assert forall j :: 0 <= j < |b| && b[j] == ':' ==> j == |other|;
  }

  /** A host variable without further ':' gives the block of the allocation from its starting port, whatever was deployed before. */
  lemma RedeploysBlock(host: string, start: nat, allocation: nat, block: Block)
    requires start < 0x1_0000 && ':' !in host
    ensures
      var variable := host + ":" + Text.Decimal(start);
      Redeployment(Deployment(variable, block), allocation) == Some(Deployment(variable, Block(start, (start + allocation) % 0x1_0000)))
  {
    Views.HostRoundTrip(host, start);
    assert Views.HostVariable(host, start) == host + ":" + Text.Decimal(start);
  }

  /** Rebuilding a rebuilt deployment for the same allocation changes nothing. */
  lemma RedeploymentFits(d: Deployment, allocation: nat)
    requires Redeployment(d, allocation).Some?
    ensures FitsAllocation(Redeployment(d, allocation).value, allocation)
  {
    Views.RecoveredIsStable(d.hostVariable);
  }

  /** The exact condition under which a reconciliation of a created node changes its deployment. */
  lemma PortsChangeExactly(server: StatusEndpoint, n: Node, e: Environment)
    requires Inv(n) && n.finalizer && n.deployed.Some?
    ensures Step(server, n, Reconcile(e)).deployed != n.deployed <==>
              && ReadsRecord(n, Reconcile(e)) && e.identityExists && !FitsAllocation(n.deployed.value, n.spec.allocation)
              && n.lastConfiguration.Recorded? && !ChangesFixedFields(n.spec, n.lastConfiguration.spec)
  {
  }

  /** A step that would record an allocation other than the deployed one. */
  predicate RecordsOther(server: StatusEndpoint, n: Node, e: Event) {
    server.WholeObject? && ReadsRecord(n, e) && n.deployed.Some? && !FitsAllocation(n.deployed.value, n.spec.allocation)
  }

  ghost predicate Polite(server: StatusEndpoint, n: Node, events: seq<Event>)
    decreases |events|
  {
    events == [] || (!RecordsOther(server, n, events[0]) && Polite(server, Step(server, n, events[0]), events[1..]))
  }

  ghost predicate FitsThroughout(server: StatusEndpoint, n: Node, events: seq<Event>)
    decreases |events|
  {
    FitsRecord(n) && (events == [] || FitsThroughout(server, Step(server, n, events[0]), events[1..]))
  }

  /** One step of a created node whose deployment fits the record. */
  lemma OneStepFits(server: StatusEndpoint, n: Node, e: Event)
    requires Inv(n) && n.finalizer && n.deployed.Some? && FitsRecord(n)
    ensures
      var next := Step(server, n, e);
      && Inv(next) && (next.gone || next.finalizer) && next.deployed == n.deployed
      && (FitsRecord(next) <==> !RecordsOther(server, n, e))
      && (server.StatusOnly? ==> next.lastConfiguration == n.lastConfiguration)
  {
  }

  /**
    The deployment agrees with the recorded configuration all along a run if and only if no step
    of it records a changed allocation; it then never changes.
   */
  lemma {:induction false} PortsFitExactly(server: StatusEndpoint, n: Node, events: seq<Event>)
    requires Inv(n) && n.finalizer && n.deployed.Some? && FitsRecord(n)
    ensures FitsThroughout(server, n, events) <==> Polite(server, n, events)
    ensures Polite(server, n, events) ==> Run(server, n, events).deployed == n.deployed
    decreases |events|
  {
    if events != [] {
      var next := Step(server, n, events[0]);
      OneStepFits(server, n, events[0]);
      if next.gone {
        AllQuiet(server, next, events[1..]);
        GoneForGood(server, next, events[1..]);
      } else if !RecordsOther(server, n, events[0]) {
        PortsFitExactly(server, next, events[1..]);
      }
    }
  }

  lemma {:induction false} AllQuiet(server: StatusEndpoint, n: Node, events: seq<Event>)
    requires n.gone && FitsRecord(n)
    ensures Polite(server, n, events) && FitsThroughout(server, n, events)
    decreases |events|
  {
    if events != [] {
      AllQuiet(server, n, events[1..]);
    }
  }

  /** When the status endpoint takes only the status, no run of a created node changes its deployment or its recorded configuration. */
  lemma {:induction false} PortsNeverChange(n: Node, events: seq<Event>)
    requires Inv(n) && n.finalizer && n.deployed.Some? && FitsRecord(n)
    ensures
      var m := Run(StatusOnly, n, events);
      m.deployed == n.deployed && m.lastConfiguration == n.lastConfiguration
    decreases |events|
  {
    if events != [] {
      var next := Step(StatusOnly, n, events[0]);
      OneStepFits(StatusOnly, n, events[0]);
      if next.gone {
        GoneForGood(StatusOnly, next, events[1..]);
      } else {
        PortsNeverChange(next, events[1..]);
      }
    }
  }

  lemma {:induction false} CreationStays(spec: Spec, e: Environment, events: seq<Event>)
    requires (e.creation.NotReady? || e.creation.Ready?) && e.creation.start < 0x1_0000 && ':' !in e.creation.host
    ensures Run(StatusOnly, New(spec, Recorded(spec)), [Reconcile(e)] + events).deployed ==
            Some(DeploymentFor(e.creation.host, e.creation.start, spec.allocation))
  {
    var n := New(spec, Recorded(spec));
    CreationFits(e.creation.host, e.creation.start, spec.allocation);
    RunSteps(StatusOnly, n, Reconcile(e), events);
    PortsNeverChange(Step(StatusOnly, n, Reconcile(e)), events);
  }

  /**
    A node created with a recorded configuration and a host without ':' has, in every later run,
    the block of its allocation from the starting port of its creation, and the host variable of
    its creation, whatever is edited.
   */
  lemma {:induction false} PortsForLife(spec: Spec, e: Environment, events: seq<Event>)
    requires (e.creation.NotReady? || e.creation.Ready?) && e.creation.start < 0x1_0000 && ':' !in e.creation.host
    ensures Run(StatusOnly, New(spec, Recorded(spec)), [Reconcile(e)] + events).deployed ==
            Some(Deployment(e.creation.host + ":" + Text.Decimal(e.creation.start),
                            Block(e.creation.start, (e.creation.start + spec.allocation) % 0x1_0000)))
  {
    CreationStays(spec, e, events);
    DeploymentInWords(e.creation.host, e.creation.start, spec.allocation);
  }

  /** A block below the 16-bit limit does not wrap. */
  lemma CreatedBlock(n: Node, creation: Creation)
    requires creation.NotReady? || creation.Ready?
    requires creation.start + n.spec.allocation < 0x1_0000
    ensures
      var d := Created(n, creation).deployed;
      && d.Some? && d.value.block == Block(creation.start, creation.start + n.spec.allocation)
      && d.value.hostVariable == creation.host + ":" + Text.Decimal(creation.start)
  {
  }

  lemma DeploymentInWords(host: string, start: nat, allocation: nat)
    ensures DeploymentFor(host, start, allocation) ==
            Deployment(host + ":" + Text.Decimal(start), Block(start, (start + allocation) % 0x1_0000))
  {
  }

  /** A reconciliation that changes the deployment makes it fit the recorded configuration. */
  lemma ChangedPortsFit(server: StatusEndpoint, n: Node, e: Event)
    requires Inv(n) && n.finalizer && n.deployed.Some? && Step(server, n, e).deployed != n.deployed
    ensures
      var next := Step(server, n, e);
      && Inv(next) && next.finalizer && next.deployed.Some? && FitsRecord(next)
      && (server.StatusOnly? ==> next.lastConfiguration == n.lastConfiguration)
  {
    RedeploymentFits(n.deployed.value, n.spec.allocation);
  }

  /**
    When the status endpoint takes only the status, a run of a created node changes its deployment
    at most once, also when it did not fit the recorded configuration at the start.
   */
  lemma {:induction false} PortsChangeAtMostOnce(n: Node, before: seq<Event>, after: seq<Event>)
    requires Inv(n) && n.finalizer && n.deployed.Some? && Run(StatusOnly, n, before).deployed != n.deployed
    ensures Run(StatusOnly, n, before + after).deployed == Run(StatusOnly, n, before).deployed
    decreases |before|
  {
    var e := before[0];
    var next := Step(StatusOnly, n, e);
    assert (before + after)[1..] == before[1..] + after;
    if next.gone {
      GoneForGood(StatusOnly, next, before[1..]);
      GoneForGood(StatusOnly, next, before[1..] + after);
    } else if next.deployed != n.deployed {
      ChangedPortsFit(StatusOnly, n, e);
      PortsNeverChange(next, before[1..]);
      PortsNeverChange(next, before[1..] + after);
    } else {
      StaysCreated(n, e);
      PortsChangeAtMostOnce(next, before[1..], after);
    }
  }

  lemma StaysCreated(n: Node, e: Event)
    requires Inv(n) && n.finalizer && !Step(StatusOnly, n, e).gone
    ensures Inv(Step(StatusOnly, n, e)) && Step(StatusOnly, n, e).finalizer
  {
  }

  /** A created node that is neither failed nor being deleted, and whose status is not ahead of its spec. */
  predicate Active(n: Node) {
    && !n.gone && !n.deletionRequested && n.finalizer && n.deployed.Some? && n.status.Some?
    && n.status.value.phase != Failed && n.status.value.phase != Deleting && n.status.value.observedGeneration <= n.generation
  }

  /** Then the ports of an active node are constant in all runs if and only if they fit the recorded configuration at the start. */
  lemma PortsNeverChangeExactly(n: Node)
    requires Inv(n) && Active(n)
    ensures (forall events :: Run(StatusOnly, n, events).deployed == n.deployed) <==> FitsRecord(n)
  {
    if FitsRecord(n) {
      forall events ensures Run(StatusOnly, n, events).deployed == n.deployed {
        PortsNeverChange(n, events);
      }
    } else {
      var spec := n.lastConfiguration.spec;
      var e := Environment(NoIdentity, true, true, true);
      var edited := Step(StatusOnly, n, Edit(spec));
      RunSteps(StatusOnly, n, Edit(spec), [Reconcile(e)] + []);
      RunSteps(StatusOnly, edited, Reconcile(e), []);
      PortsChangeExactly(StatusOnly, edited, e);
      assert Run(StatusOnly, n, [Edit(spec)] + ([Reconcile(e)] + [])).deployed != n.deployed;
    }
  }

  ghost predicate NeverFails(server: StatusEndpoint, n: Node, events: seq<Event>)
    decreases |events|
  {
    && !(n.status.Some? && n.status.value.phase == Failed)
    && (events == [] || NeverFails(server, Step(server, n, events[0]), events[1..]))
  }

  /** Whatever the status endpoint does, in a run that never enters phase Failed the deployment stays as it was created. */
  lemma {:induction false} PortsConstantWithoutFailure(server: StatusEndpoint, n: Node, events: seq<Event>)
    requires Inv(n) && n.finalizer && n.deployed.Some? && FitsRecord(n) && NeverFails(server, n, events)
    ensures Run(server, n, events).deployed == n.deployed && FitsRecord(Run(server, n, events))
    decreases |events|
  {
    if events != [] {
      var next := Step(server, n, events[0]);
      OneStepFits(server, n, events[0]);
      if next.gone {
        GoneForGood(server, next, events[1..]);
      } else {
        assert ReadsRecord(n, events[0]) ==> !ChangesFixedFields(n.spec, n.lastConfiguration.spec);
        PortsConstantWithoutFailure(server, next, events[1..]);
      }
    }
  }

  /**
    Where the creation of a node stops: without an identity it has no finalizer and is tried again;
    without ports it has one and no deployment; and only a ready deployment leads to Running, or to
    Stopped for a node that is disabled.
   */
  lemma CreationOutcome(server: StatusEndpoint, n: Node, e: Environment)
    requires !n.gone && !n.finalizer && !n.deletionRequested
    ensures
      var m := Step(server, n, Reconcile(e));
      && (m.finalizer <==> !e.creation.NoIdentity?)
      && (m.deployed != n.deployed ==> e.creation.NotReady? || e.creation.Ready?)
      && (e.creation.NotReady? || e.creation.Ready? ==> m.deployed.Some?)
      && m.status.Some? && m.status.value.observedGeneration == n.generation
      && m.status.value.phase == (if !e.creation.Ready? then Initializing else if n.spec.enabled == Some(false) then Stopped else Running)
  {
  }

  /** A node whose creation stopped behind the finalizer and before its deployment never gets one, in any run. */
  lemma {:induction false} StoppedCreationIsFinal(server: StatusEndpoint, n: Node, events: seq<Event>)
    requires Inv(n) && (n.finalizer || n.gone) && n.deployed.None?
    ensures Run(server, n, events).deployed.None?
    decreases |events|
  {
    if events != [] {
      StoppedCreationIsFinal(server, Step(server, n, events[0]), events[1..]);
    }
  }

  /**
    An edit of an active node is accepted if and only if pool, identity and allocation are the
    recorded ones and its identity exists; otherwise the phase is Failed and the deployment stays.
    An accepted edit rebuilds the deployment, and the phase is Running, or Stopped for a disabled
    node, once it is ready; until then the status stays as it was. A deployment that cannot be
    rebuilt leaves the node as it is, so that the edit is tried again.
   */
  lemma ModificationExact(server: StatusEndpoint, n: Node, e: Environment)
    requires !n.gone && !n.deletionRequested && n.finalizer && n.status.Some?
    requires n.status.value.phase != Failed && n.status.value.phase != Deleting && n.status.value.observedGeneration < n.generation
    ensures
      var m := Step(server, n, Reconcile(e));
      var accepted :=
        && n.lastConfiguration.Recorded? && e.identityExists
        && n.spec.identityPool == n.lastConfiguration.spec.identityPool && n.spec.identity == n.lastConfiguration.spec.identity
        && n.spec.allocation == n.lastConfiguration.spec.allocation;
      var rebuilt := if n.deployed.Some? then Redeployment(n.deployed.value, n.spec.allocation) else None;
      && (!accepted ==> m.deployed == n.deployed && m.status == Some(Status(Failed, n.generation)))
      && (accepted && rebuilt.None? ==> m == n)
      && (accepted && rebuilt.Some? ==>
            && m.deployed == rebuilt
            && m.status == (if !e.deploymentReady then n.status
                            else Some(Status(if n.spec.enabled == Some(false) then Stopped else Running, n.generation))))
  {
  }

  /** A changed allocation is rejected: the deployment stays and the phase is Failed. */
  lemma ChangeIsRejected(server: StatusEndpoint, n: Node, e: Environment)
    requires Active(n) && n.status.value.observedGeneration < n.generation
    requires n.lastConfiguration.Recorded? && n.lastConfiguration.spec.allocation != n.spec.allocation
    ensures Step(server, n, Reconcile(e)) == Annotated(server, n.(status := Some(Status(Failed, n.generation))))
  {
  }

  /**
    After a rejected change the next reconciliation reports an active phase again, although the
    deployment still is the old one. A further edit that keeps the rejected spec's fixed fields is
    rejected in the same way, unless the status endpoint stores the annotation: then, and only
    then, it deploys the changed allocation.
   */
  lemma RejectedChange(server: StatusEndpoint, n: Node, changed: Spec, later: Spec, e: Environment)
    requires Active(n) && n.lastConfiguration == Recorded(n.spec) && FitsRecord(n)
    requires changed.allocation != n.spec.allocation && !ChangesFixedFields(later, changed)
    requires Redeployment(n.deployed.value, changed.allocation).Some? && e.identityExists && e.deploymentReady
    ensures
      var recovered := Run(server, n, [Edit(changed), Reconcile(e), Reconcile(e)]);
      var m := Run(server, recovered, [Edit(later), Reconcile(e)]);
      && recovered.deployed == n.deployed && recovered.status == Some(Status(ActivePhase(changed), recovered.generation))
      && m.deployed == (if server.WholeObject? then Redeployment(n.deployed.value, changed.allocation) else n.deployed)
      && m.status == Some(Status(if server.WholeObject? then ActivePhase(later) else Failed, m.generation))
  {
    var a := Step(server, n, Edit(changed));
    ChangeIsRejected(server, a, e);
    var b := Step(server, a, Reconcile(e));
    var c := Step(server, b, Reconcile(e));
    assert c == InPhase(b, ActivePhase(changed));
    assert [Edit(changed), Reconcile(e), Reconcile(e)] == [Edit(changed)] + ([Reconcile(e)] + ([Reconcile(e)] + []));
    RunSteps(server, n, Edit(changed), [Reconcile(e)] + ([Reconcile(e)] + []));
    RunSteps(server, a, Reconcile(e), [Reconcile(e)] + []);
    RunSteps(server, b, Reconcile(e), []);
    AfterRecovery(server, c, later, e);
  }

  /** The edit after a recovery. */
  lemma AfterRecovery(server: StatusEndpoint, c: Node, later: Spec, e: Environment)
    requires Active(c) && c.lastConfiguration.Recorded? && later.identityPool == c.spec.identityPool && later.identity == c.spec.identity
    requires later.allocation == c.spec.allocation && e.identityExists && e.deploymentReady
    requires c.lastConfiguration == Recorded(c.spec) || c.lastConfiguration.spec.allocation != c.spec.allocation
    requires Redeployment(c.deployed.value, c.spec.allocation).Some?
    ensures
      var m := Run(server, c, [Edit(later), Reconcile(e)]);
      var applied := c.lastConfiguration == Recorded(c.spec);
      && m.deployed == (if applied then Redeployment(c.deployed.value, c.spec.allocation) else c.deployed)
      && m.status == Some(Status(if applied then ActivePhase(later) else Failed, m.generation))
  {
    var d := Step(server, c, Edit(later));
    assert DetermineAction(d) == Some(Modify);
    assert [Edit(later), Reconcile(e)] == [Edit(later)] + ([Reconcile(e)] + []);
    RunSteps(server, c, Edit(later), [Reconcile(e)] + []);
    RunSteps(server, d, Reconcile(e), []);
  }

  lemma RunSteps(server: StatusEndpoint, n: Node, first: Event, rest: seq<Event>)
    ensures Run(server, n, [first] + rest) == Run(server, Step(server, n, first), rest)
  {
    assert ([first] + rest)[1..] == rest;
  }
}
