/**
  The parts put together: the numbers of a cluster's nodes give them distinct identities to ask
  for and, in small clusters, port blocks that can be opened and closed independently
  (src/cluster/cluster_hoprd.rs:348-391, src/hoprd/hoprd_resource.rs:106-138, 253-325,
  src/hoprd/hoprd_ingress.rs:125-264).
 */
module Composition {
  import opened Wrappers
  import opened Sets
  import opened Text
  import Numbers = NodeNumbers
  import Lock = IdentityLock
  import Theorems = IdentityTheorems
  import Scaling = ClusterScaling
  import Counter = ClusterCounter
  import Search = PortSearch
  import Nginx = NginxPorts
  import opened PortData
  import Runs = PortRuns
  import Views = PortViews
  import Bootstrap
  import Life = NodeLifecycle

  /* Identities. */

  /** The name of a node tells its cluster and its number. */
  lemma NodeNameInjective(c: string, k: nat, c': string, k': nat)
    requires Numbers.NodeName(c, k) == Numbers.NodeName(c', k')
    ensures c == c' && k == k'
  {
    DecimalHasNo(k, '-');
    DecimalHasNo(k', '-');
    LastDash(c, Decimal(k), c', Decimal(k'), Numbers.NodeName(c, k));
    DecimalInjective(k, k');
  }

  /** The last dash of a text splits it in one way only. */
  lemma LastDash(a: string, d: string, b: string, e: string, name: string)
    requires name == a + "-" + d && name == b + "-" + e && '-' !in d && '-' !in e
    ensures a == b && d == e
  {
    assert name[|a|] == '-' && name[|b|] == '-';
    assert forall i :: |a| < i < |name| ==> name[i] == d[i - |a| - 1];
    assert forall i :: |b| < i < |name| ==> name[i] == e[i - |b| - 1];
    assert a == name[..|a|] && b == name[..|b|];
    assert d == name[|a| + 1..] && e == name[|b| + 1..];
  }

  /** The nodes of the clusters, each with its numbers, are exactly the nodes that ask for an identity, and all use one pool. */
  ghost predicate AskFor(cfg: Lock.Config, clusters: map<string, set<nat>>, pool: string) {
    && (forall c, k :: c in clusters && k in clusters[c] ==>
          var node, identity := Numbers.NodeName(c, k), Numbers.NodeName(pool, k);
          && node in cfg.want && cfg.want[node] == Lock.Request(pool, identity)
          && identity in cfg.poolOf && cfg.poolOf[identity] == pool)
    && (forall n :: n in cfg.want ==> exists c, k :: c in clusters && k in clusters[c] && n == Numbers.NodeName(c, k))
  }

  /** A cluster has the name of the pool and a number in common with another cluster. */
  ghost predicate NamesakeShares(clusters: map<string, set<nat>>, pool: string) {
    pool in clusters && exists c, k :: c in clusters && c != pool && k in clusters[c] && k in clusters[pool]
  }

  lemma ClustersAreDisciplined(cfg: Lock.Config, clusters: map<string, set<nat>>, pool: string)
    requires AskFor(cfg, clusters, pool)
    ensures Lock.Disciplined(cfg) <==> !NamesakeShares(clusters, pool)
  {
    if NamesakeShares(clusters, pool) {
      var c, k :| c in clusters && c != pool && k in clusters[c] && k in clusters[pool];
      var x, n := Numbers.NodeName(pool, k), Numbers.NodeName(c, k);
      if x == n {
        NodeNameInjective(pool, k, c, k);
      }
      assert cfg.Proper(x) && cfg.Wanted(x) == x && cfg.Proper(n) && cfg.Wanted(n) == x;
    } else {
      forall x, n | cfg.Proper(x) && cfg.Wanted(x) == x && cfg.Proper(n) && cfg.Wanted(n) == x ensures n == x {
        var c, k :| c in clusters && k in clusters[c] && x == Numbers.NodeName(c, k);
        NodeNameInjective(c, k, pool, k);
        var c', k' :| c' in clusters && k' in clusters[c'] && n == Numbers.NodeName(c', k');
        NodeNameInjective(pool, k', pool, k);
      }
    }
  }

  /**
    Clusters that share a pool never hold an identity twice, in any interleaving without races, if
    and only if none of them has the pool's name and a node number in common with another. A
    single cluster is always safe.
   */
  lemma ClustersExclude(cfg: Lock.Config, clusters: map<string, set<nat>>, pool: string)
    requires AskFor(cfg, clusters, pool)
    ensures (forall actions :: !Theorems.Reached(cfg, actions).raced ==> Theorems.Exclusive(cfg, Theorems.Reached(cfg, actions)))
            <==> !NamesakeShares(clusters, pool)
    ensures |clusters| == 1 ==> !NamesakeShares(clusters, pool)
  {
    ClustersAreDisciplined(cfg, clusters, pool);
    Theorems.ExclusionExact(cfg);
    if |clusters| == 1 && pool in clusters {
      forall c | c in clusters ensures c == pool {
        Removal(clusters.Keys, pool);
        assert c != pool ==> c in clusters.Keys - {pool};
      }
    }
  }

  /* Numbers. */

  /** At no moment of the run does the cluster have more than `m` nodes. */
  ghost predicate AtMost(s: Counter.State, actions: seq<Counter.Action>, m: nat)
    decreases |actions|
  {
    && |Counter.Live(s)| <= m
    && (actions == [] || AtMost(Counter.Step(s, actions[0]), actions[1..], m))
  }

  /** While a cluster has at most `m` nodes, no node has a number above `m`. */
  lemma {:induction false} NumbersStaySmall(s: Counter.State, actions: seq<Counter.Action>, m: nat)
    requires Counter.Live(s) <= Scaling.UpTo(m) && AtMost(s, actions, m)
    ensures Counter.Live(Counter.Run(s, actions)) <= Scaling.UpTo(m)
    decreases |actions|
  {
    if actions != [] {
      var next := Counter.Step(s, actions[0]);
      if actions[0].Begin? && Counter.Idle(s) {
        BeginStaysSmall(s, m);
      }
      NumbersStaySmall(next, actions[1..], m);
    }
  }

  lemma BeginStaysSmall(s: Counter.State, m: nat)
    requires Counter.Live(s) <= Scaling.UpTo(m) && Counter.Idle(s)
    requires |Counter.Live(Counter.Step(s, Counter.Begin))| <= m
    ensures Counter.Live(Counter.Step(s, Counter.Begin)) <= Scaling.UpTo(m)
  {
    var live := Counter.Live(s);
    var next := Numbers.NextFree(live);
    if next.Some? && next.value !in live {
      assert Counter.Live(Counter.Step(s, Counter.Begin)) == live + {next.value};
      assert |live + {next.value}| == |live| + 1;
      assert forall n :: n in live ==> 0 < n < Numbers.I32_LIMIT;
      Scaling.NextFits(live, m);
    }
  }

  /**
    A cluster reached by a clean run, with no node left uncounted, scales up to the wanted number
    of nodes when the deployments become ready, and to 1, ..., replicas if and only if no node has
    a larger number.
   */
  lemma ReachedClusterScalesUp(replicas: int, actions: seq<Counter.Action>, m: nat, answers: seq<bool>)
    requires Counter.CleanRun(Counter.Empty(replicas), actions) && AtMost(Counter.Empty(replicas), actions, m)
    requires
      var t := Counter.Run(Counter.Empty(replicas), actions);
      && t.uncounted == {} && t.status.phase == Scaling.NotScaled
      && t.status.currentNodes < t.replicas <= t.status.currentNodes + |answers|
      && m < Numbers.I32_LIMIT && t.replicas < Numbers.I32_LIMIT
    ensures
      var t := Counter.Run(Counter.Empty(replicas), actions);
      var d := Scaling.Settle(Scaling.Cluster(t.replicas, t.status.phase, t.status.currentNodes, Counter.Live(t)), answers);
      && (d.phase == Scaling.Ready <==> false !in answers[..t.replicas - t.status.currentNodes])
      && (d.phase == Scaling.Ready ==>
            && d.current == |d.nodes| == t.replicas
            && (d.nodes == Scaling.UpTo(t.replicas) <==> Counter.Live(t) <= Scaling.UpTo(t.replicas)))
  {
    Counter.CleanRunIsConsistent(replicas, actions);
    NumbersStaySmall(Counter.Empty(replicas), actions, m);
    var t := Counter.Run(Counter.Empty(replicas), actions);
    Scaling.ScaleUp(Scaling.Cluster(t.replicas, t.status.phase, t.status.currentNodes, Counter.Live(t)), answers);
  }

  /* Modifications. */

  /**
    A cluster accepts a change of its allocation and copies it to its nodes, each of which rejects
    it: the cluster reports Ready (or that it has to be scaled), the node Failed, and the node's
    deployment is the old one. `e` is what the node's reconciliation finds.
   */
  method AllocationIsRejectedByNodes(c: Scaling.ClusterHoprd, number: nat, node: Life.Hoprd, e: Life.Environment)
    requires c.Accepts() && number in c.nodes
    requires Life.Active(node.node) && node.node.lastConfiguration.Recorded?
    requires node.node.lastConfiguration.spec.allocation != c.portsAllocation
    modifies c`nodes, c`status, c`lastConfiguration, node`node
    ensures c.nodes.Keys == old(c.nodes).Keys && c.nodes[number].portsAllocation == c.portsAllocation
    ensures c.status.phase == if c.replicas == c.status.currentNodes then Scaling.Ready else Scaling.NotScaled
    ensures node.node.spec.allocation == c.portsAllocation && node.node.deployed == old(node.node).deployed
    ensures node.node.status == Some(Life.Status(Life.Failed, node.node.generation))
  {
    c.Modify({});
    var copied := c.nodes[number];
    var spec := node.node.spec.(allocation := copied.portsAllocation, config := copied.config);
    node.node := node.node.(spec := spec, generation := node.node.generation + 1);
    Life.ChangeIsRejected(node.server, node.node, e);
    node.ModifyNode(e.identityExists, e.deploymentReady);
  }

  /* Ports. */

  function NodeServices(namespace: string, cluster: string, numbers: set<nat>): set<Service> {
    set k | k in numbers :: Runs.NodeService(namespace, cluster, k)
  }

  /** The services of a cluster that never has more than nine nodes can be opened and closed independently. */
  lemma SmallClusterIsCompatible(namespace: string, cluster: string, s: Counter.State, actions: seq<Counter.Action>)
    requires Service(namespace, cluster).WellFormed()
    requires Counter.Live(s) <= Scaling.UpTo(9) && AtMost(s, actions, 9)
    ensures NodeServices(namespace, cluster, Counter.Live(Counter.Run(s, actions))) <= Runs.ClusterServices(namespace, cluster, 9)
    ensures Runs.Compatible(Runs.ClusterServices(namespace, cluster, 9))
  {
    NumbersStaySmall(s, actions, 9);
    Runs.ClusterClashFree(namespace, cluster, 9);
    forall svc | svc in Runs.ClusterServices(namespace, cluster, 9) ensures svc.WellFormed() {
      var k: nat :| 1 <= k <= 9 && svc == Runs.NodeService(namespace, cluster, k);
      DecimalHasNo(k, '/');
      DecimalHasNo(k, ':');
    }
  }

  /** Closing the first node of a cluster removes every entry of the tenth, whatever its port. */
  lemma FirstNodeClosesTenth(namespace: string, cluster: string, data: Data, x: string, port: nat)
    requires Service(namespace, cluster).WellFormed()
    requires x in data && data[x] == Runs.NodeService(namespace, cluster, 10).Entry(port)
    ensures x !in Nginx.Without(data, Runs.NodeService(namespace, cluster, 1).Fqn())
  {
    var first, tenth := Runs.NodeService(namespace, cluster, 1), Runs.NodeService(namespace, cluster, 10);
    assert Decimal(10) == Decimal(1) + Decimal(0);
    Runs.NodePrefix(namespace, cluster, 1, 10);
    Runs.ClashOccurs(first, tenth, port);
  }

  function DataOf(maps: Nginx.Maps, protocol: Views.Protocol): Data
    requires maps.tcp.Some? && maps.udp.Some?
  {
    if protocol == Views.TCP then maps.tcp.value else maps.udp.value
  }

  /** The entry of a port mentions the service in the ConfigMap of the protocol. */
  predicate Mentions(maps: Nginx.Maps, protocol: Views.Protocol, svc: Service, port: nat)
    requires maps.tcp.Some? && maps.udp.Some?
  {
    var data := DataOf(maps, protocol);
    Decimal(port) in data && Contains(data[Decimal(port)], svc.Fqn())
  }

  /** The port leads to the same port of the service. */
  predicate Routed(maps: Nginx.Maps, protocol: Views.Protocol, svc: Service, port: nat)
    requires maps.tcp.Some? && maps.udp.Some?
  {
    var data := DataOf(maps, protocol);
    Decimal(port) in data && data[Decimal(port)] == svc.namespace + "/" + svc.name + ":" + Decimal(port)
  }

  /** What the views of a live service's block show in a world. */
  ghost predicate ViewsMatch(cfg: Nginx.Config, w: Runs.World, services: set<Service>, svc: Service, protocol: Views.Protocol, port: nat)
    requires w.maps.tcp.Some? && w.maps.udp.Some? && svc in w.live && 0 <= w.live[svc].start
  {
    var start, last := w.live[svc].start, w.live[svc].start + w.live[svc].k;
    && (Routed(w.maps, protocol, svc, port) <==> start < last && Views.Offers(Views.ServicePorts(start, last, None), protocol, port))
    && (Routed(w.maps, protocol, svc, port) <==> start < last && Views.Offers(Views.ContainerPorts(start, last), protocol, port))
    && (Routed(w.maps, protocol, svc, port) ==>
          && cfg.portMin <= port < cfg.portMax
          && forall other :: other in services && other != svc ==> !Mentions(w.maps, protocol, other, port))
  }

  /**
    After any allowed run, for a live service: nginx routes a port to the same port of it exactly
    when its ClusterIP Service offers the port, exactly when its container does, except that both
    offer one port of an empty block; the entry mentions no other service, and the nginx deployment
    opens the port exactly once.
   */
  lemma OneBlockManyViews(cfg: Nginx.Config, tcp: Data, udp: Data, services: set<Service>, ops: seq<Runs.Op>,
                          w: Runs.World, svc: Service, protocol: Views.Protocol, port: nat, deployment: seq<Views.NamedPort>)
    requires cfg.Valid() && Runs.Compatible(services) && Runs.GoodBase(cfg, tcp, udp, services)
    requires Runs.AllowedRun(cfg, Runs.Start(tcp, udp), ops, services)
    requires w == Runs.Run(cfg, Runs.Start(tcp, udp), ops)
    requires svc in services && svc in w.live
    ensures w.maps.tcp.Some? && w.maps.udp.Some? && 0 <= w.live[svc].start && w.live[svc].start + w.live[svc].k < 0x1_0000
    ensures ViewsMatch(cfg, w, services, svc, protocol, port)
    ensures Routed(w.maps, protocol, svc, port) ==>
              Bootstrap.Count(Bootstrap.Prepared(deployment, cfg.portMin, cfg.portMax), protocol, port) == 1
  {
    Runs.RunKeeps(cfg, tcp, udp, services, Runs.Start(tcp, udp), ops);
    WorldViews(cfg, tcp, udp, services, w, svc, protocol, port);
    Bootstrap.PreparedCounts(deployment, cfg.portMin, cfg.portMax, protocol, port);
  }

  /** For a block of at least one port, Service and container offer its ports. */
  lemma {:induction false} BlockViews(b: Runs.Block, protocol: Views.Protocol, port: nat)
    requires 0 <= b.start && b.start + b.k < 0x1_0000
    ensures b.k >= 1 ==> (Views.Offers(Views.ServicePorts(b.start, b.start + b.k, None), protocol, port) <==> b.Has(port))
    ensures b.k >= 1 ==> (Views.Offers(Views.ContainerPorts(b.start, b.start + b.k), protocol, port) <==> b.Has(port))
  {
    if b.k >= 1 {
      Views.ViewsAgree(b.start, b.start + b.k, protocol, port);
    }
  }

  lemma {:induction false} WorldViews(cfg: Nginx.Config, tcp: Data, udp: Data, services: set<Service>, w: Runs.World,
                                      svc: Service, protocol: Views.Protocol, port: nat)
    requires cfg.Valid() && Runs.Compatible(services) && Runs.GoodBase(cfg, tcp, udp, services)
    requires Runs.Inv(cfg, tcp, udp, services, w) && svc in services && svc in w.live
    ensures 0 <= w.live[svc].start && w.live[svc].start + w.live[svc].k < 0x1_0000
    ensures ViewsMatch(cfg, w, services, svc, protocol, port)
  {
    Runs.LiveBlockFits(cfg, tcp, udp, services, w, svc);
    ViewsFromBlock(w.live[svc], protocol, port);
    WorldRoutes(cfg, tcp, udp, services, w, svc, protocol, port);
  }

  /** Ports are routed to the block they lie in, and blocks are apart. */
  lemma {:induction false} WorldRoutes(cfg: Nginx.Config, tcp: Data, udp: Data, services: set<Service>, w: Runs.World,
                                       svc: Service, protocol: Views.Protocol, port: nat)
    requires cfg.Valid() && Runs.Compatible(services) && Runs.GoodBase(cfg, tcp, udp, services)
    requires Runs.Inv(cfg, tcp, udp, services, w) && svc in services && svc in w.live
    ensures Routed(w.maps, protocol, svc, port) <==> w.live[svc].Has(port)
    ensures w.live[svc].Has(port) ==>
              && cfg.portMin <= port < cfg.portMax
              && forall other :: other in services && other != svc ==> !Mentions(w.maps, protocol, other, port)
  {
    Runs.WorldOwnsBlocks(cfg, tcp, udp, services, w);
    RoutedIsOwned(w, svc, protocol, port);
    forall other | other in services && other != svc && w.live[svc].Has(port) ensures !Mentions(w.maps, protocol, other, port) {
      RoutedIsOwned(w, other, protocol, port);
    }
  }

  lemma {:induction false} ViewsFromBlock(b: Runs.Block, protocol: Views.Protocol, port: nat)
    requires 0 <= b.start && b.start + b.k < 0x1_0000
    ensures b.Has(port) <==> b.start < b.start + b.k && Views.Offers(Views.ServicePorts(b.start, b.start + b.k, None), protocol, port)
    ensures b.Has(port) <==> b.start < b.start + b.k && Views.Offers(Views.ContainerPorts(b.start, b.start + b.k), protocol, port)
  {
    BlockViews(b, protocol, port);
  }

  lemma RoutedIsOwned(w: Runs.World, svc: Service, protocol: Views.Protocol, port: nat)
    requires w.maps.tcp.Some? && w.maps.udp.Some?
    requires Runs.OwnsExactly(w.maps.tcp.value, w.live, svc) && Runs.OwnsExactly(w.maps.udp.value, w.live, svc)
    requires Runs.LeadsHome(w.maps.tcp.value, w.live, svc) && Runs.LeadsHome(w.maps.udp.value, w.live, svc)
    requires forall s :: s in w.live ==> w.live[s].start >= 0
    ensures Mentions(w.maps, protocol, svc, port) <==> svc in w.live && w.live[svc].Has(port)
    ensures Routed(w.maps, protocol, svc, port) <==> svc in w.live && w.live[svc].Has(port)
  {
    if svc in w.live && BlockKey(Decimal(port), w.live[svc].start, w.live[svc].k) {
      var p: nat :| w.live[svc].start <= p < w.live[svc].start + w.live[svc].k && Decimal(port) == Decimal(p);
      DecimalInjective(port, p);
    }
    if Routed(w.maps, protocol, svc, port) {
      Nginx.OwnEntryMatches(svc, port);
      assert svc.Entry(port) == svc.namespace + "/" + svc.name + ":" + Decimal(port);
    }
  }

  /* A node's deployment. */

  /** The container of a deployment with this block, and a Service for it, offer exactly the ports that nginx routes to the service. */
  ghost predicate OffersRouted(b: Life.Block, maps: Nginx.Maps, svc: Service)
    requires maps.tcp.Some? && maps.udp.Some? && b.start >= 0
  {
    forall protocol: Views.Protocol, port: nat :: OffersRoutedAt(b.start, b.last, maps, svc, protocol, port)
  }

  ghost predicate OffersRoutedAt(start: nat, last: int, maps: Nginx.Maps, svc: Service, protocol: Views.Protocol, port: nat)
    requires maps.tcp.Some? && maps.udp.Some?
  {
    && (Views.Offers(Views.ContainerPorts(start, last), protocol, port) <==> Routed(maps, protocol, svc, port))
    && (Views.Offers(Views.ServicePorts(start, last, None), protocol, port) <==> Routed(maps, protocol, svc, port))
  }

  lemma {:induction false} OffersAt(b: Runs.Block, maps: Nginx.Maps, svc: Service, protocol: Views.Protocol, port: nat)
    requires maps.tcp.Some? && maps.udp.Some? && 0 <= b.start && b.start + b.k < 0x1_0000 && b.k >= 1
    requires Routed(maps, protocol, svc, port) <==> b.Has(port)
    ensures OffersRoutedAt(b.start, b.start + b.k, maps, svc, protocol, port)
  {
    BlockViews(b, protocol, port);
  }

  lemma {:induction false} BlockIsRouted(cfg: Nginx.Config, tcp: Data, udp: Data, services: set<Service>, w: Runs.World, svc: Service)
    requires cfg.Valid() && Runs.Compatible(services) && Runs.GoodBase(cfg, tcp, udp, services)
    requires Runs.Inv(cfg, tcp, udp, services, w) && svc in services && svc in w.live && w.live[svc].k >= 1
    ensures 0 <= w.live[svc].start && w.live[svc].start + w.live[svc].k < 0x1_0000
    ensures OffersRouted(Life.Block(w.live[svc].start, w.live[svc].start + w.live[svc].k), w.maps, svc)
  {
    Runs.LiveBlockFits(cfg, tcp, udp, services, w, svc);
    var b, last := w.live[svc], w.live[svc].start + w.live[svc].k;
    forall protocol: Views.Protocol, port: nat ensures OffersRoutedAt(b.start, last, w.maps, svc, protocol, port) {
      WorldRoutes(cfg, tcp, udp, services, w, svc, protocol, port);
      OffersAt(b, w.maps, svc, protocol, port);
    }
  }

  /** The same for the world after some calls. */
  lemma {:induction false} RunBlockIsRouted(cfg: Nginx.Config, tcp: Data, udp: Data, services: set<Service>, ops: seq<Runs.Op>, svc: Service)
    requires cfg.Valid() && Runs.Compatible(services) && Runs.GoodBase(cfg, tcp, udp, services)
    requires Runs.AllowedRun(cfg, Runs.Start(tcp, udp), ops, services)
    requires var live := Runs.Run(cfg, Runs.Start(tcp, udp), ops).live; svc in services && svc in live && live[svc].k >= 1
    ensures
      var w := Runs.Run(cfg, Runs.Start(tcp, udp), ops);
      var b := w.live[svc];
      && w.maps.tcp.Some? && w.maps.udp.Some? && 0 <= b.start && b.start + b.k < 0x1_0000
      && OffersRouted(Life.Block(b.start, b.start + b.k), w.maps, svc)
  {
    Runs.RunKeeps(cfg, tcp, udp, services, Runs.Start(tcp, udp), ops);
    BlockIsRouted(cfg, tcp, udp, services, Runs.Run(cfg, Runs.Start(tcp, udp), ops), svc);
  }

  /** Opening a block in the ConfigMaps a run has led to. */
  lemma {:induction false} OpenedIsRouted(cfg: Nginx.Config, tcp: Data, udp: Data, services: set<Service>, ops: seq<Runs.Op>, svc: Service, k: nat)
    requires cfg.Valid() && Runs.Compatible(services) && Runs.GoodBase(cfg, tcp, udp, services)
    requires Runs.AllowedRun(cfg, Runs.Start(tcp, udp), ops, services)
    requires Runs.Allowed(cfg, Runs.Run(cfg, Runs.Start(tcp, udp), ops), Runs.OpenOp(svc, k), services) && k >= 1
    ensures
      var before := Runs.Run(cfg, Runs.Start(tcp, udp), ops).maps;
      var (after, r) := Nginx.Opened(cfg, before, svc, k);
      && before.tcp.Some? && after.tcp.Some? && after.udp.Some?
      && (r.Ok? <==> Nginx.BlockAvailable(cfg, before.tcp.value, k))
      && (r.Err? ==> after == before)
      && (r.Ok? ==> 0 <= r.value && r.value + k < 0x1_0000 && OffersRouted(Life.Block(r.value, r.value + k), after, svc))
  {
    var before, op := Runs.Run(cfg, Runs.Start(tcp, udp), ops), Runs.OpenOp(svc, k);
    OpenOutcome(cfg, tcp, udp, services, ops, svc, k);
    StepOpens(cfg, before, svc, k);
    Runs.RunAppend(cfg, Runs.Start(tcp, udp), ops, op, services);
    if Nginx.Opened(cfg, before.maps, svc, k).1.Ok? {
      RunBlockIsRouted(cfg, tcp, udp, services, ops + [op], svc);
    }
  }

  lemma {:induction false} OpenOutcome(cfg: Nginx.Config, tcp: Data, udp: Data, services: set<Service>, ops: seq<Runs.Op>, svc: Service, k: nat)
    requires cfg.Valid() && Runs.Compatible(services) && Runs.GoodBase(cfg, tcp, udp, services)
    requires Runs.AllowedRun(cfg, Runs.Start(tcp, udp), ops, services) && cfg.HasRoomFor(k) && k >= 1
    ensures
      var before := Runs.Run(cfg, Runs.Start(tcp, udp), ops).maps;
      var (after, r) := Nginx.Opened(cfg, before, svc, k);
      && before.tcp.Some? && after.tcp.Some? && after.udp.Some?
      && (r.Ok? <==> Nginx.BlockAvailable(cfg, before.tcp.value, k))
      && (r.Err? ==> after == before)
  {
    Runs.RunKeeps(cfg, tcp, udp, services, Runs.Start(tcp, udp), ops);
    var before := Runs.Run(cfg, Runs.Start(tcp, udp), ops).maps;
    Nginx.OpenIsExact(cfg, before, svc, k);
    OpenedHasMaps(cfg, before, svc, k);
  }

  lemma OpenedHasMaps(cfg: Nginx.Config, s: Nginx.Maps, svc: Service, k: nat)
    requires s.tcp.Some? && s.udp.Some?
    ensures Nginx.Opened(cfg, s, svc, k).0.tcp.Some? && Nginx.Opened(cfg, s, svc, k).0.udp.Some?
  {
  }

  lemma {:induction false} StepOpens(cfg: Nginx.Config, w: Runs.World, svc: Service, k: nat)
    ensures
      var (after, r) := Nginx.Opened(cfg, w.maps, svc, k);
      Runs.Step(cfg, w, Runs.OpenOp(svc, k)) == Runs.World(after, if r.Ok? then w.live[svc := Runs.Block(r.value, k)] else w.live)
  {
  }

  /** `create` from the ingress on: a block is opened, and the deployment is given its first port and the allocation. */
  method OpenAndCreate(maps: Nginx.NginxConfigMaps, node: Life.Hoprd, svc: Service, host: string, ready: bool) returns (created: bool)
    requires maps.config.Valid()
    modifies maps, node`node
    ensures
      var (after, r) := Nginx.Opened(maps.config, old(maps.Contents()), svc, old(node.node).spec.allocation);
      && maps.Contents() == after && created == r.Ok?
      && node.node.finalizer && node.node.spec == old(node.node).spec
      && (!created ==> node.node.deployed == old(node.node).deployed)
      && (created && r.value + node.node.spec.allocation < 0x1_0000 ==>
            && node.node.deployed.Some?
            && node.node.deployed.value.block == Life.Block(r.value, r.value + node.node.spec.allocation)
            && r.value >= 0 && node.node.deployed.value.hostVariable == host + ":" + Decimal(r.value))
  {
    var start := maps.OpenPort(svc, node.node.spec.allocation);
    if start.Err? {
      node.CreateNode(Life.NoPorts);
      return false;
    }
    StartIsNatural(maps.config, old(maps.Contents()), svc, node.node.spec.allocation);
    var creation := if ready then Life.Ready(host, start.value) else Life.NotReady(host, start.value);
    if start.value + node.node.spec.allocation < 0x1_0000 {
      Life.CreatedBlock(node.node, creation);
    }
    node.CreateNode(creation);
    return true;
  }

  lemma StartIsNatural(cfg: Nginx.Config, s: Nginx.Maps, svc: Service, k: nat)
    requires cfg.Valid()
    ensures Nginx.Opened(cfg, s, svc, k).1.Ok? ==> Nginx.Opened(cfg, s, svc, k).1.value >= 0
  {
    if s.tcp.Some? {
      Search.FitIsNatural(Scan(s.tcp.value, cfg.portMin, cfg.portMax), k, cfg.portMin);
    }
  }

  /**
    Creating a node opens a block of nginx ports for it and gives its deployment this block. It
    succeeds exactly when a block of its allocation is available; the deployment's container and
    the Service then offer exactly the ports that nginx routes to the node. `ops` are the calls
    that led to the ConfigMaps.
   */
  method CreateNodeWithPorts(maps: Nginx.NginxConfigMaps, node: Life.Hoprd, svc: Service, host: string, ready: bool,
                             ghost tcp: Data, ghost udp: Data, ghost services: set<Service>, ghost ops: seq<Runs.Op>)
    returns (created: bool)
    requires maps.config.Valid() && Runs.Compatible(services) && Runs.GoodBase(maps.config, tcp, udp, services)
    requires Runs.AllowedRun(maps.config, Runs.Start(tcp, udp), ops, services)
    requires maps.Contents() == Runs.Run(maps.config, Runs.Start(tcp, udp), ops).maps
    requires
      var op := Runs.OpenOp(svc, node.node.spec.allocation);
      Runs.Allowed(maps.config, Runs.Run(maps.config, Runs.Start(tcp, udp), ops), op, services) && op.k >= 1
    modifies maps, node`node
    ensures old(maps.tcp).Some? && maps.tcp.Some? && maps.udp.Some?
    ensures created <==> Nginx.BlockAvailable(maps.config, old(maps.tcp).value, node.node.spec.allocation)
    ensures created ==>
              && node.node.deployed.Some? && node.node.deployed.value.block.start >= 0
              && OffersRouted(node.node.deployed.value.block, maps.Contents(), svc)
              && node.node.deployed.value.hostVariable == host + ":" + Decimal(node.node.deployed.value.block.start)
    ensures !created ==> maps.Contents() == old(maps.Contents()) && node.node.deployed == old(node.node).deployed
    ensures node.node.finalizer && node.node.spec == old(node.node).spec
  {
    OpenedIsRouted(maps.config, tcp, udp, services, ops, svc, node.node.spec.allocation);
    created := OpenAndCreate(maps, node, svc, host, ready);
  }

  /**
    In every run of a node created with a recorded configuration and a host without ':', whatever
    is edited, its deployment offers exactly the ports that nginx routes to its service, as long
    as the service is live with the block of the creation.
   */
  lemma {:induction false} NodeOffersItsPorts(cfg: Nginx.Config, tcp: Data, udp: Data, services: set<Service>, ops: seq<Runs.Op>, svc: Service,
                                              spec: Life.Spec, e: Life.Environment, events: seq<Life.Event>)
    requires cfg.Valid() && Runs.Compatible(services) && Runs.GoodBase(cfg, tcp, udp, services)
    requires Runs.AllowedRun(cfg, Runs.Start(tcp, udp), ops, services)
    requires
      var live := Runs.Run(cfg, Runs.Start(tcp, udp), ops).live;
      && svc in services && svc in live && live[svc].k == spec.allocation >= 1
      && (e.creation.NotReady? || e.creation.Ready?) && e.creation.start == live[svc].start && ':' !in e.creation.host
    ensures
      var w := Runs.Run(cfg, Runs.Start(tcp, udp), ops);
      var d := Life.Run(Life.StatusOnly, Life.New(spec, Life.Recorded(spec)), [Life.Reconcile(e)] + events).deployed;
      && w.maps.tcp.Some? && w.maps.udp.Some?
      && d.Some? && d.value.block.start >= 0 && OffersRouted(d.value.block, w.maps, svc)
  {
    RunBlockIsRouted(cfg, tcp, udp, services, ops, svc);
    Life.PortsForLife(spec, e, events);
    NoWrap(Runs.Run(cfg, Runs.Start(tcp, udp), ops).live[svc]);
  }

  lemma NoWrap(b: Runs.Block)
    requires 0 <= b.start && b.start + b.k < 0x1_0000
    ensures Life.Block(b.start, (b.start + b.k) % 0x1_0000) == Life.Block(b.start, b.start + b.k)
  {
  }
}
