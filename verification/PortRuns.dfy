/**
  Runs of `open_port` and `close_port` for many services, each call one atomic step
  (src/hoprd/hoprd_ingress.rs:125-264), and the names for which closing is exact.
 */
module PortRuns {
  import opened Wrappers
  import opened PortSearch
  import opened PortData
  import opened NginxPorts
  import opened Text

  /* The substring test of `close_port`. */

  /** Closing `closing` also removes the entries of `other`. */
  predicate Clash(closing: Service, other: Service) {
    IsSuffix(closing.namespace, other.namespace) && IsPrefix(closing.name, other.name)
  }

  /** Where "ns/name" occurs in "ns'/name':port", the slashes coincide. */
  lemma OccurrenceAligns(closing: Service, other: Service, port: nat, i: nat)
    requires closing.WellFormed() && other.WellFormed()
    requires OccursAt(other.Entry(port), closing.Fqn(), i)
    ensures i + |closing.namespace| == |other.namespace|
  {
    var e := other.Entry(port);
    var f := closing.Fqn();
    var at := i + |closing.namespace|;
    assert e[i..i + |f|][|closing.namespace|] == f[|closing.namespace|] == '/';
    assert e[at] == '/';
    var tail := other.name + ":" + Decimal(port);
    assert e == other.namespace + "/" + tail;
    DecimalHasNo(port, '/');
    assert forall t :: 0 <= t < |tail| ==> e[|other.namespace| + 1 + t] == tail[t] && tail[t] != '/';
    assert forall t :: 0 <= t < |other.namespace| ==> e[t] != '/';
  }

  lemma OccurrenceIsClash(closing: Service, other: Service, port: nat, i: nat)
    requires closing.WellFormed() && other.WellFormed()
    requires OccursAt(other.Entry(port), closing.Fqn(), i)
    ensures Clash(closing, other)
  {
    var e := other.Entry(port);
    var f := closing.Fqn();
    OccurrenceAligns(closing, other, port, i);
    var a, n, at := |closing.namespace|, |closing.name|, |other.namespace| + 1;
    assert closing.namespace == f[..a] == e[i..i + a] == other.namespace[i..];
    assert closing.name == f[a + 1..] == e[at..at + n];
    assert e[at + |other.name|] == ':';
    BeforeColon(e, closing.name, at, at + |other.name|);
    assert e[at..at + n] == other.name[..n];
  }

  /** A text without ':' that occurs at `at` ends before the next ':'. */
  lemma BeforeColon(e: string, text: string, at: nat, colon: nat)
    requires at <= colon < |e| && e[colon] == ':' && ':' !in text
    requires at + |text| <= |e| && text == e[at..at + |text|]
    ensures at + |text| <= colon
  {
    assert forall t :: 0 <= t < |text| ==> e[at + t] == text[t] && text[t] != ':';
  }

  lemma ClashOccurs(closing: Service, other: Service, port: nat)
    requires Clash(closing, other)
    ensures Contains(other.Entry(port), closing.Fqn())
  {
    var i, n := |other.namespace| - |closing.namespace|, |closing.name|;
    assert closing.Fqn() == other.namespace[i..] + "/" + other.name[..n];
    assert OccursAt(other.Entry(port), closing.Fqn(), i);
  }

  /**
    The substring filter of `close_port` hits another service's entry if and only if the closed
    namespace is a suffix of its namespace and the closed name is a prefix of its name.
   */
  lemma ClashExact(closing: Service, other: Service, port: nat)
    requires closing.WellFormed() && other.WellFormed()
    ensures Contains(other.Entry(port), closing.Fqn()) <==> Clash(closing, other)
  {
    if i :| 0 <= i <= |other.Entry(port)| && OccursAt(other.Entry(port), closing.Fqn(), i) {
      OccurrenceIsClash(closing, other, port, i);
    }
    if Clash(closing, other) {
      ClashOccurs(closing, other, port);
    }
  }

  /** The services of the nodes 1, ..., n of a cluster ("cluster-1", "cluster-2", ...). */
  function NodeService(namespace: string, cluster: string, number: nat): Service {
    Service(namespace, cluster + "-" + Decimal(number))
  }

  ghost predicate ClashFree(services: set<Service>) {
    forall a, b :: a in services && b in services && a != b ==> !Clash(a, b)
  }

  function ClusterServices(namespace: string, cluster: string, n: nat): set<Service> {
    set i | 1 <= i <= n :: NodeService(namespace, cluster, i)
  }

  lemma NodePrefix(namespace: string, cluster: string, i: nat, j: nat)
    ensures Clash(NodeService(namespace, cluster, i), NodeService(namespace, cluster, j)) <==> IsPrefix(Decimal(i), Decimal(j))
  {
    var c := cluster + "-";
    var a, b := c + Decimal(i), c + Decimal(j);
    assert namespace[0..] == namespace;
    if |a| <= |b| {
      assert a[..|c|] == c && b[..|c|] == c;
      assert a[|c|..] == Decimal(i);
      assert b[..|a|][|c|..] == Decimal(j)[..|Decimal(i)|];
      assert b[..|a|] == c + Decimal(j)[..|Decimal(i)|];
    }
  }

  /** The nodes of a cluster can be closed independently if and only if there are at most nine. */
  lemma ClusterClashFree(namespace: string, cluster: string, n: nat)
    ensures ClashFree(ClusterServices(namespace, cluster, n)) <==> n <= 9
  {
    var services := ClusterServices(namespace, cluster, n);
    if n <= 9 {
      forall a, b | a in services && b in services && a != b ensures !Clash(a, b) {
        var i :| 1 <= i <= n && a == NodeService(namespace, cluster, i);
        var j :| 1 <= j <= n && b == NodeService(namespace, cluster, j);
        NodePrefix(namespace, cluster, i, j);
        DecimalInjective(i, j);
        assert Decimal(j)[..1] == Decimal(j);
      }
    } else {
      var a, b := NodeService(namespace, cluster, 1), NodeService(namespace, cluster, 10);
      assert a in services && b in services;
      NodePrefix(namespace, cluster, 1, 10);
      assert Decimal(10) == Decimal(1) + Decimal(0);
      assert Clash(a, b);
      DecimalInjective(1, 10);
      assert a.name[|cluster| + 1..] == Decimal(1) && b.name[|cluster| + 1..] == Decimal(10);
      assert a != b;
    }
  }

  /* Runs. */

  /** A block of k consecutive ports. */
  datatype Block = Block(start: int, k: nat) {
    predicate Has(port: int) {
      start <= port < start + k
    }
  }

  /** The two ConfigMaps and the services whose `open_port` has succeeded and that are not closed. */
  datatype World = World(maps: Maps, live: map<Service, Block>)

  datatype Op = OpenOp(svc: Service, k: nat) | CloseOp(svc: Service)

  ghost function Step(cfg: Config, w: World, op: Op): World {
    match op
    case OpenOp(svc, k) =>
      var (maps, r) := Opened(cfg, w.maps, svc, k);
      World(maps, if r.Ok? then w.live[svc := Block(r.value, k)] else w.live)
    case CloseOp(svc) =>
      World(Closed(w.maps, svc).0, w.live - {svc})
  }

  ghost function Run(cfg: Config, w: World, ops: seq<Op>): World
    decreases |ops|
  {
    if ops == [] then w else Run(cfg, Step(cfg, w, ops[0]), ops[1..])
  }

  /** A service is opened only while it is not live, with an allocation the range leaves room for. */
  ghost predicate Allowed(cfg: Config, w: World, op: Op, services: set<Service>) {
    && op.svc in services
    && (op.OpenOp? ==> op.svc !in w.live && cfg.HasRoomFor(op.k))
  }

  ghost predicate AllowedRun(cfg: Config, w: World, ops: seq<Op>, services: set<Service>)
    decreases |ops|
  {
    ops != [] ==> Allowed(cfg, w, ops[0], services) && AllowedRun(cfg, Step(cfg, w, ops[0]), ops[1..], services)
  }

  /** The services of a run have proper names, none of which makes closing hit another. */
  ghost predicate Compatible(services: set<Service>) {
    ClashFree(services) && forall svc :: svc in services ==> svc.WellFormed()
  }

  ghost predicate Mentions(data: Data, services: set<Service>) {
    exists x, svc :: x in data && svc in services && Contains(data[x], svc.Fqn())
  }

  /** What the run needs of the entries that were there before it. */
  ghost predicate GoodBase(cfg: Config, tcp: Data, udp: Data, services: set<Service>) {
    && DistinctPorts(tcp, cfg.portMin, cfg.portMax)
    && !Mentions(tcp, services) && !Mentions(udp, services)
    // an in-range UDP port is also taken in the TCP map, the only one the search reads
    && (forall port :: 0 <= cfg.portMin <= port < cfg.portMax && Decimal(port) in udp ==> Used(tcp, cfg.portMin, cfg.portMax, port))
  }

  /* Entries laid over a base. */

  type Layers = map<Service, Data>

  /** Some service's layer has the key. */
  ghost predicate Owned(layers: Layers, x: string) {
    exists svc :: svc in layers && x in layers[svc]
  }

  ghost predicate Covered(base: Data, data: Data, layers: Layers) {
    forall x :: x in data <==> x in base || Owned(layers, x)
  }

  ghost predicate BaseKept(base: Data, data: Data, layers: Layers) {
    forall x :: x in base ==> x in data && data[x] == base[x] && !Owned(layers, x)
  }

  ghost predicate LayersKept(data: Data, layers: Layers) {
    forall svc, x :: svc in layers && x in layers[svc] ==> x in data && data[x] == layers[svc][x]
  }

  ghost predicate LayersDisjoint(layers: Layers) {
    forall a, b, x :: a in layers && b in layers && x in layers[a] && x in layers[b] ==> a == b
  }

  /** `data` is `base` together with the layers; no key occurs twice. */
  ghost predicate Layered(base: Data, data: Data, layers: Layers) {
    && Covered(base, data, layers) && BaseKept(base, data, layers)
    && LayersKept(data, layers) && LayersDisjoint(layers)
  }

  lemma OwnedAfterAdd(layers: Layers, svc: Service, layer: Data, x: string)
    requires svc !in layers
    ensures Owned(layers[svc := layer], x) <==> Owned(layers, x) || x in layer
  {
    var layers' := layers[svc := layer];
    if x in layer {
      assert svc in layers' && x in layers'[svc];
    }
    if other :| other in layers && x in layers[other] {
      assert other in layers' && x in layers'[other];
    }
  }

  lemma LayersAfterAdd(data: Data, layers: Layers, svc: Service, layer: Data)
    requires LayersKept(data, layers) && LayersDisjoint(layers) && svc !in layers
    requires forall x :: x in layer ==> x !in data
    ensures LayersKept(MergePatch(data, layer), layers[svc := layer]) && LayersDisjoint(layers[svc := layer])
  {
    var data' := MergePatch(data, layer);
    var layers' := layers[svc := layer];
    forall a, x | a in layers' && x in layers'[a]
      ensures x in data' && data'[x] == layers'[a][x] && (a != svc ==> x !in layer)
    {
      if a != svc {
        assert a in layers && x in layers[a];
      }
    }
  }

  lemma LayerAdd(base: Data, data: Data, layers: Layers, svc: Service, layer: Data)
    requires Layered(base, data, layers) && svc !in layers
    requires forall x :: x in layer ==> x !in data
    ensures Layered(base, MergePatch(data, layer), layers[svc := layer])
  {
    LayersAfterAdd(data, layers, svc, layer);
    forall x ensures Owned(layers[svc := layer], x) <==> Owned(layers, x) || x in layer {
      OwnedAfterAdd(layers, svc, layer, x);
    }
  }

  /** Removing the entries that mention a service removes its layer, when only its layer does. */
  lemma {:induction false} LayerRemove(base: Data, data: Data, layers: Layers, svc: Service)
    requires Layered(base, data, layers)
    requires forall x :: x in base ==> !Contains(base[x], svc.Fqn())
    requires forall other, x :: other in layers && x in layers[other] ==>
               (Contains(layers[other][x], svc.Fqn()) <==> other == svc)
    ensures Layered(base, Without(data, svc.Fqn()), layers - {svc})
  {
    var data' := Without(data, svc.Fqn());
    var layers' := layers - {svc};
    forall x ensures Owned(layers', x) <==> Owned(layers, x) && x in data' {
      if other :| other in layers && x in layers[other] {
        assert data[x] == layers[other][x];
        if other != svc {
          assert other in layers' && x in layers'[other];
        }
      }
    }
    forall x | x in base ensures x in data' {
      assert data[x] == base[x];
    }
  }

  /* The layers of live services. */

  function LayerOf(svc: Service, b: Block): Data {
    Entries(svc, b.start, b.k)
  }

  function LayersOf(live: map<Service, Block>): Layers {
    map svc | svc in live :: LayerOf(svc, live[svc])
  }

  ghost predicate BlocksInRange(cfg: Config, live: map<Service, Block>) {
    forall svc :: svc in live ==>
      && cfg.portMin <= live[svc].start < 0x1_0000
      && (live[svc].k > 0 ==> live[svc].start + live[svc].k <= cfg.portMax)
  }

  ghost predicate BlocksDisjoint(live: map<Service, Block>) {
    forall a, b, port :: a in live && b in live && live[a].Has(port) && live[b].Has(port) ==> a == b
  }

  /** Every entry of a service's layer mentions another service exactly when closing that one clashes. */
  lemma {:induction false} LayerMentions(closing: Service, svc: Service, start: int, k: nat)
    requires closing.WellFormed() && svc.WellFormed()
    ensures forall x :: x in Entries(svc, start, k) ==>
              (Contains(Entries(svc, start, k)[x], closing.Fqn()) <==> Clash(closing, svc))
  {
    if k > 0 {
      LayerMentions(closing, svc, start, k - 1);
      ClashExact(closing, svc, Wrap(start + k - 1));
    }
  }

  lemma OnlyOwnLayerMentions(live: map<Service, Block>, services: set<Service>, svc: Service)
    requires Compatible(services) && live.Keys <= services && svc in services
    ensures forall other, x :: other in LayersOf(live) && x in LayersOf(live)[other] ==>
              (Contains(LayersOf(live)[other][x], svc.Fqn()) <==> other == svc)
  {
    forall other, x | other in LayersOf(live) && x in LayersOf(live)[other]
      ensures Contains(LayersOf(live)[other][x], svc.Fqn()) <==> other == svc
    {
      LayerMentions(svc, other, live[other].start, live[other].k);
      assert svc.name[..|svc.name|] == svc.name && svc.namespace[0..] == svc.namespace;
      assert Clash(svc, svc);
    }
  }

  /** Layers without common keys belong to blocks without common ports. */
  lemma LayersApart(cfg: Config, base: Data, data: Data, live: map<Service, Block>)
    requires cfg.Valid() && BlocksInRange(cfg, live) && Layered(base, data, LayersOf(live))
    ensures BlocksDisjoint(live)
  {
    var layers := LayersOf(live);
    forall a, b, port | a in live && b in live && live[a].Has(port) && live[b].Has(port) ensures a == b {
      EntriesKeys(a, live[a].start, live[a].k);
      EntriesKeys(b, live[b].start, live[b].k);
      assert Decimal(port) in layers[a] && Decimal(port) in layers[b];
    }
  }

  /* The invariant of a run. */

  ghost predicate Inv(cfg: Config, tcp: Data, udp: Data, services: set<Service>, w: World) {
    && w.live.Keys <= services && BlocksInRange(cfg, w.live)
    && w.maps.tcp.Some? && w.maps.udp.Some?
    && DistinctPorts(w.maps.tcp.value, cfg.portMin, cfg.portMax)
    && Layered(tcp, w.maps.tcp.value, LayersOf(w.live))
    && Layered(udp, w.maps.udp.value, LayersOf(w.live))
  }

  /** A key in the UDP map that is absent from the TCP map comes from before the run. */
  lemma UdpOnlyKeyIsOld(tcp: Data, udp: Data, maps: Maps, layers: Layers, x: string)
    requires maps.tcp.Some? && maps.udp.Some?
    requires Layered(tcp, maps.tcp.value, layers) && Layered(udp, maps.udp.value, layers)
    requires x !in maps.tcp.value && x in maps.udp.value
    ensures x in udp
  {
    assert !Owned(layers, x);
  }

  lemma UsedStaysUsed(cfg: Config, base: Data, data: Data, layers: Layers, port: int)
    requires Layered(base, data, layers) && Used(base, cfg.portMin, cfg.portMax, port)
    ensures Used(data, cfg.portMin, cfg.portMax, port)
  {
    var y :| y in base && PortOf(y, cfg.portMin, cfg.portMax) == Some(port);
    assert y in data;
  }

  /** A block of ports unused in the TCP map has no key in the UDP map either. */
  lemma FreshInUdp(cfg: Config, tcp: Data, udp: Data, services: set<Service>, w: World, b: Block)
    requires cfg.Valid() && GoodBase(cfg, tcp, udp, services) && Inv(cfg, tcp, udp, services, w)
    requires cfg.portMin <= b.start && b.start + b.k <= cfg.portMax
    requires Unused(w.maps.tcp.value, cfg, b.start, b.k)
    requires forall x :: BlockKey(x, b.start, b.k) ==> x !in w.maps.tcp.value
    ensures forall x :: BlockKey(x, b.start, b.k) ==> x !in w.maps.udp.value
  {
    forall x | BlockKey(x, b.start, b.k) ensures x !in w.maps.udp.value {
      var port :| 0 <= b.start <= port < b.start + b.k && x == Decimal(port);
      if x in w.maps.udp.value {
        UdpOnlyKeyIsOld(tcp, udp, w.maps, LayersOf(w.live), x);
        UsedStaysUsed(cfg, tcp, w.maps.tcp.value, LayersOf(w.live), port);
      }
    }
  }

  /** Canonical keys of unused ports keep the parsed ports distinct. */
  lemma StaysDistinct(cfg: Config, data: Data, svc: Service, b: Block)
    requires cfg.Valid() && DistinctPorts(data, cfg.portMin, cfg.portMax)
    requires 0 <= b.start && b.start + b.k <= 0x1_0000 && Unused(data, cfg, b.start, b.k)
    ensures DistinctPorts(MergePatch(data, LayerOf(svc, b)), cfg.portMin, cfg.portMax)
  {
    var layer := LayerOf(svc, b);
    EntriesNames(svc, b.start, b.k);
    forall x | x in layer ensures ParseU16(x).Some? && b.Has(ParseU16(x).value) && x == Decimal(ParseU16(x).value) {
      var port :| 0 <= b.start <= port < b.start + b.k && x == Decimal(port);
      ParseDecimal(port, 0x1_0000);
    }
    forall x, port | x in data && PortOf(x, cfg.portMin, cfg.portMax) == Some(port) ensures !b.Has(port) {
      assert Used(data, cfg.portMin, cfg.portMax, port);
    }
  }

  lemma {:induction false} AddLayer(base: Data, data: Data, live: map<Service, Block>, svc: Service, b: Block)
    requires Layered(base, data, LayersOf(live)) && svc !in live
    requires 0 <= b.start && b.start + b.k <= 0x1_0000
    requires forall x :: BlockKey(x, b.start, b.k) ==> x !in data
    ensures Layered(base, MergePatch(data, LayerOf(svc, b)), LayersOf(live[svc := b]))
  {
    EntriesNames(svc, b.start, b.k);
    LayerAdd(base, data, LayersOf(live), svc, LayerOf(svc, b));
    assert LayersOf(live[svc := b]) == LayersOf(live)[svc := LayerOf(svc, b)];
  }

  /** The world after laying a block. */
  function WithBlock(w: World, svc: Service, b: Block): World
    requires w.maps.tcp.Some? && w.maps.udp.Some?
  {
    var layer := LayerOf(svc, b);
    World(Maps(Some(MergePatch(w.maps.tcp.value, layer)), Some(MergePatch(w.maps.udp.value, layer))), w.live[svc := b])
  }

  lemma AddBlock(cfg: Config, tcp: Data, udp: Data, services: set<Service>, w: World, svc: Service, b: Block)
    requires cfg.Valid() && Inv(cfg, tcp, udp, services, w) && svc in services && svc !in w.live
    requires cfg.portMin <= b.start < 0x1_0000 && (b.k > 0 ==> b.start + b.k <= cfg.portMax)
    requires Unused(w.maps.tcp.value, cfg, b.start, b.k)
    requires forall x :: BlockKey(x, b.start, b.k) ==> x !in w.maps.tcp.value
    requires forall x :: BlockKey(x, b.start, b.k) ==> x !in w.maps.udp.value
    ensures Inv(cfg, tcp, udp, services, WithBlock(w, svc, b))
  {
    AddLayer(tcp, w.maps.tcp.value, w.live, svc, b);
    AddLayer(udp, w.maps.udp.value, w.live, svc, b);
    StaysDistinct(cfg, w.maps.tcp.value, svc, b);
  }

  /** A successful `open_port` of some ports lays the block it returns. */
  lemma OpenLaysBlock(cfg: Config, w: World, svc: Service, k: nat)
    requires w.maps.tcp.Some? && w.maps.udp.Some?
    ensures var r := Opened(cfg, w.maps, svc, k).1;
            Step(cfg, w, OpenOp(svc, k)) == if r.Ok? then WithBlock(w, svc, Block(r.value, k)) else w
  {
    if k == 0 {
      assert MergePatch(w.maps.tcp.value, map[]) == w.maps.tcp.value;
      assert MergePatch(w.maps.udp.value, map[]) == w.maps.udp.value;
    }
  }

  lemma OpenKeeps(cfg: Config, tcp: Data, udp: Data, services: set<Service>, w: World, svc: Service, k: nat)
    requires cfg.Valid() && GoodBase(cfg, tcp, udp, services) && Inv(cfg, tcp, udp, services, w)
    requires Allowed(cfg, w, OpenOp(svc, k), services)
    ensures Inv(cfg, tcp, udp, services, Step(cfg, w, OpenOp(svc, k)))
  {
    OpenLaysBlock(cfg, w, svc, k);
    var r := Opened(cfg, w.maps, svc, k).1;
    if r.Ok? {
      var b := Block(r.value, k);
      if k == 0 {
        EmptyBlock(cfg, w.maps.tcp.value, r.value);
      } else {
        OpenIsExact(cfg, w.maps, svc, k);
        FreshInUdp(cfg, tcp, udp, services, w, b);
      }
      AddBlock(cfg, tcp, udp, services, w, svc, b);
    }
  }

  /** An allocation of no ports yields a start that is not below the range. */
  lemma EmptyBlock(cfg: Config, data: Data, start: int)
    requires cfg.Valid() && cfg.HasRoomFor(0)
    requires start == SearchStart(cfg, data, 0)
    ensures cfg.portMin <= start < 0x1_0000
  {
    ScanFacts(data, cfg.portMin, cfg.portMax);
    EmptyFit(Scan(data, cfg.portMin, cfg.portMax), cfg.portMin);
  }

  lemma EmptyFit(ports: seq<int>, min: int)
    requires 0 <= min < 0xFFFF && (forall i :: 0 <= i < |ports| ==> min <= ports[i] < 0xFFFF)
    ensures min <= FirstFit(ports, 0, min) < 0x1_0000
  {
    EmptyAllocation(ports, min);
  }

  /** Closing takes the service's entries out of both maps, also where an empty map stops it. */
  lemma ClosedData(cfg: Config, tcp: Data, udp: Data, services: set<Service>, w: World, svc: Service)
    requires GoodBase(cfg, tcp, udp, services) && Inv(cfg, tcp, udp, services, w) && svc in services
    ensures Closed(w.maps, svc).0 ==
            Maps(Some(Without(w.maps.tcp.value, svc.Fqn())), Some(Without(w.maps.udp.value, svc.Fqn())))
  {
    var t, u := w.maps.tcp.value, w.maps.udp.value;
    if t == map[] {
      var layers := LayersOf(w.live);
      assert forall x :: !Owned(layers, x) by {
        assert forall other, x :: other in layers && x in layers[other] ==> x in t;
      }
      assert Without(u, svc.Fqn()) == u;
      assert Without(t, svc.Fqn()) == t;
    } else if u == map[] {
      assert Without(u, svc.Fqn()) == u;
    }
  }

  lemma {:induction false} CloseKeeps(cfg: Config, tcp: Data, udp: Data, services: set<Service>, w: World, svc: Service)
    requires cfg.Valid() && GoodBase(cfg, tcp, udp, services) && Inv(cfg, tcp, udp, services, w)
    requires Compatible(services) && svc in services
    ensures Inv(cfg, tcp, udp, services, Step(cfg, w, CloseOp(svc)))
  {
    ClosedData(cfg, tcp, udp, services, w, svc);
    OnlyOwnLayerMentions(w.live, services, svc);
    LayerRemove(tcp, w.maps.tcp.value, LayersOf(w.live), svc);
    LayerRemove(udp, w.maps.udp.value, LayersOf(w.live), svc);
    assert LayersOf(w.live - {svc}) == LayersOf(w.live) - {svc};
  }

  lemma {:induction false} RunKeeps(cfg: Config, tcp: Data, udp: Data, services: set<Service>, w: World, ops: seq<Op>)
    requires cfg.Valid() && Compatible(services) && GoodBase(cfg, tcp, udp, services)
    requires Inv(cfg, tcp, udp, services, w) && AllowedRun(cfg, w, ops, services)
    ensures Inv(cfg, tcp, udp, services, Run(cfg, w, ops))
    decreases |ops|
  {
    if ops != [] {
      match ops[0] {
        case OpenOp(svc, k) => OpenKeeps(cfg, tcp, udp, services, w, svc, k);
        case CloseOp(svc) => CloseKeeps(cfg, tcp, udp, services, w, svc);
      }
      RunKeeps(cfg, tcp, udp, services, Step(cfg, w, ops[0]), ops[1..]);
    }
  }

  function Start(tcp: Data, udp: Data): World {
    World(Maps(Some(tcp), Some(udp)), map[])
  }

  /** A run with one more call. */
  lemma {:induction false} RunAppend(cfg: Config, w: World, ops: seq<Op>, op: Op, services: set<Service>)
    ensures Run(cfg, w, ops + [op]) == Step(cfg, Run(cfg, w, ops), op)
    ensures AllowedRun(cfg, w, ops + [op], services) <==> AllowedRun(cfg, w, ops, services) && Allowed(cfg, Run(cfg, w, ops), op, services)
    decreases |ops|
  {
    if ops == [] {
      assert ops + [op] == [op] && [op][1..] == [];
    } else {
      assert (ops + [op])[0] == ops[0] && (ops + [op])[1..] == ops[1..] + [op];
      RunAppend(cfg, Step(cfg, w, ops[0]), ops[1..], op, services);
    }
  }

  /** The service owns `x` in `data` exactly as a key of one of its ports. */
  ghost predicate OwnsExactly(data: Data, live: map<Service, Block>, svc: Service) {
    forall x :: x in data && Contains(data[x], svc.Fqn()) <==>
                svc in live && BlockKey(x, live[svc].start, live[svc].k)
  }

  /** Every port of the service's block leads to the same port of the service. */
  ghost predicate LeadsHome(data: Data, live: map<Service, Block>, svc: Service) {
    svc in live ==>
      forall port: nat :: live[svc].Has(port) ==>
        Decimal(port) in data && data[Decimal(port)] == svc.namespace + "/" + svc.name + ":" + Decimal(port)
  }

  lemma LayerLeadsHome(cfg: Config, base: Data, data: Data, live: map<Service, Block>, svc: Service)
    requires cfg.Valid() && BlocksInRange(cfg, live) && Layered(base, data, LayersOf(live))
    ensures LeadsHome(data, live, svc)
  {
    if svc in live {
      var b, layers := live[svc], LayersOf(live);
      EntriesKeys(svc, b.start, b.k);
      forall port: nat | b.Has(port)
        ensures Decimal(port) in data && data[Decimal(port)] == svc.namespace + "/" + svc.name + ":" + Decimal(port)
      {
        assert Decimal(port) in layers[svc];
      }
    }
  }

  /**
    After any allowed run from given ConfigMaps, in both of them: the entries that mention a
    service are exactly those of its block of k consecutive ports while it is live, and none
    otherwise; blocks lie in [portMin, portMax) and are pairwise disjoint; and the entries from
    before the run are unchanged. Every port of a block leads to the same port of its service.
   */
  lemma RunOwnsBlocks(cfg: Config, tcp: Data, udp: Data, services: set<Service>, ops: seq<Op>)
    requires cfg.Valid() && Compatible(services) && GoodBase(cfg, tcp, udp, services)
    requires AllowedRun(cfg, Start(tcp, udp), ops, services)
    ensures
      var w := Run(cfg, Start(tcp, udp), ops);
      && w.maps.tcp.Some? && w.maps.udp.Some?
      && BlocksInRange(cfg, w.live) && BlocksDisjoint(w.live)
      && (forall svc :: svc in services ==> OwnsExactly(w.maps.tcp.value, w.live, svc) && OwnsExactly(w.maps.udp.value, w.live, svc))
      && (forall svc :: svc in services ==> LeadsHome(w.maps.tcp.value, w.live, svc) && LeadsHome(w.maps.udp.value, w.live, svc))
      && (forall x :: x in tcp ==> x in w.maps.tcp.value && w.maps.tcp.value[x] == tcp[x])
      && (forall x :: x in udp ==> x in w.maps.udp.value && w.maps.udp.value[x] == udp[x])
  {
    RunKeeps(cfg, tcp, udp, services, Start(tcp, udp), ops);
    WorldOwnsBlocks(cfg, tcp, udp, services, Run(cfg, Start(tcp, udp), ops));
  }

  lemma WorldOwnsBlocks(cfg: Config, tcp: Data, udp: Data, services: set<Service>, w: World)
    requires cfg.Valid() && Compatible(services) && GoodBase(cfg, tcp, udp, services) && Inv(cfg, tcp, udp, services, w)
    ensures BlocksInRange(cfg, w.live) && BlocksDisjoint(w.live)
    ensures forall svc :: svc in services ==> OwnsExactly(w.maps.tcp.value, w.live, svc) && OwnsExactly(w.maps.udp.value, w.live, svc)
    ensures forall svc :: svc in services ==> LeadsHome(w.maps.tcp.value, w.live, svc) && LeadsHome(w.maps.udp.value, w.live, svc)
    ensures forall x :: x in tcp ==> x in w.maps.tcp.value && w.maps.tcp.value[x] == tcp[x]
    ensures forall x :: x in udp ==> x in w.maps.udp.value && w.maps.udp.value[x] == udp[x]
  {
    LayersApart(cfg, tcp, w.maps.tcp.value, w.live);
    forall svc | svc in services
      ensures OwnsExactly(w.maps.tcp.value, w.live, svc) && OwnsExactly(w.maps.udp.value, w.live, svc)
      ensures LeadsHome(w.maps.tcp.value, w.live, svc) && LeadsHome(w.maps.udp.value, w.live, svc)
    {
      LayerOwns(cfg, tcp, w.maps.tcp.value, w.live, services, svc);
      LayerOwns(cfg, udp, w.maps.udp.value, w.live, services, svc);
      LayerLeadsHome(cfg, tcp, w.maps.tcp.value, w.live, svc);
      LayerLeadsHome(cfg, udp, w.maps.udp.value, w.live, svc);
    }
  }

  lemma LiveBlockFits(cfg: Config, tcp: Data, udp: Data, services: set<Service>, w: World, svc: Service)
    requires cfg.Valid() && Inv(cfg, tcp, udp, services, w) && svc in w.live
    ensures 0 <= w.live[svc].start && w.live[svc].start + w.live[svc].k < 0x1_0000
  {
  }

  lemma LayerOwns(cfg: Config, base: Data, data: Data, live: map<Service, Block>, services: set<Service>, svc: Service)
    requires cfg.Valid() && Layered(base, data, LayersOf(live)) && BlocksInRange(cfg, live) && Compatible(services)
    requires live.Keys <= services && svc in services && !Mentions(base, services)
    ensures OwnsExactly(data, live, svc)
  {
    var layers := LayersOf(live);
    OnlyOwnLayerMentions(live, services, svc);
    if svc in live {
      EntriesNames(svc, live[svc].start, live[svc].k);
      assert forall x :: x in layers[svc] <==> BlockKey(x, live[svc].start, live[svc].k);
    }
    forall x | x in data
      ensures Contains(data[x], svc.Fqn()) <==> svc in live && x in layers[svc]
    {
      if x in base {
        assert data[x] == base[x];
        assert !Owned(layers, x);
      } else {
        var other :| other in layers && x in layers[other];
      }
    }
  }

  /**
    Closing a service leaves the entries of another live one in place if and only if the names do
    not clash: the condition on the names that runs need cannot be weakened.
   */
  lemma CloseSparesExactly(cfg: Config, tcp: Data, udp: Data, services: set<Service>, w: World, closing: Service, other: Service)
    requires cfg.Valid() && Inv(cfg, tcp, udp, services, w) && closing.WellFormed() && other.WellFormed()
    requires other in w.live && w.live[other].k >= 1
    ensures
      var data := Step(cfg, w, CloseOp(closing)).maps.tcp.value;
      (forall port :: w.live[other].Has(port) ==> Decimal(port) in data) <==> !Clash(closing, other)
  {
    var b := w.live[other];
    EntriesKeys(other, b.start, b.k);
    var layers := LayersOf(w.live);
    assert other in layers && layers[other] == LayerOf(other, b);
    forall port | b.Has(port)
      ensures Decimal(port) in Step(cfg, w, CloseOp(closing)).maps.tcp.value <==> !Clash(closing, other)
    {
      assert Decimal(port) in layers[other];
      assert w.maps.tcp.value[Decimal(port)] == other.Entry(port);
      ClashExact(closing, other, port);
    }
    assert b.Has(b.start);
  }

  /** When every service has been closed again, both ConfigMaps are what they were at the start. */
  lemma RunRestores(cfg: Config, tcp: Data, udp: Data, services: set<Service>, ops: seq<Op>)
    requires cfg.Valid() && Compatible(services) && GoodBase(cfg, tcp, udp, services)
    requires AllowedRun(cfg, Start(tcp, udp), ops, services)
    requires Run(cfg, Start(tcp, udp), ops).live == map[]
    ensures Run(cfg, Start(tcp, udp), ops).maps == Maps(Some(tcp), Some(udp))
  {
    RunKeeps(cfg, tcp, udp, services, Start(tcp, udp), ops);
    NothingLive(cfg, tcp, udp, services, Run(cfg, Start(tcp, udp), ops));
  }

  lemma NothingLive(cfg: Config, tcp: Data, udp: Data, services: set<Service>, w: World)
    requires cfg.Valid() && Inv(cfg, tcp, udp, services, w) && w.live == map[]
    ensures w.maps == Maps(Some(tcp), Some(udp))
  {
    assert forall x :: !Owned(LayersOf(w.live), x);
    assert w.maps.tcp.value == tcp && w.maps.udp.value == udp;
  }
}
