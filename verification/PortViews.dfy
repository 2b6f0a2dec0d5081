/**
  The descriptions of a node's port block outside nginx: the Services, the container ports and
  the environment variables (src/hoprd/hoprd_service.rs:197-244, src/hoprd/hoprd_deployment.rs:123-142,
  234-241, 546-581), and the nginx deployment the operator prepares (src/bootstrap_operator.rs:20-55).
 */
module PortViews {
  import opened Wrappers
  import opened PortSearch
  import opened Text

  datatype Protocol = TCP | UDP {
    function Lower(): string {
      match this
      case TCP => "tcp"
      case UDP => "udp"
    }

    function Initial(): string {
      match this
      case TCP => "t"
      case UDP => "u"
    }
  }

  /** A named port of a Service or a container. */
  datatype NamedPort = NamedPort(name: string, port: int, protocol: Protocol)

  const API := NamedPort("api", 3001, TCP)
  const METRICS := NamedPort("metrics", 8080, TCP)

  function P2p(protocol: Protocol, port: int): NamedPort {
    NamedPort("p2p-" + protocol.Lower(), port, protocol)
  }

  function Session(protocol: Protocol, port: nat): NamedPort {
    NamedPort("session" + protocol.Initial() + "-" + Decimal(port), port, protocol)
  }

  /** The session entries of one protocol for ports from, ..., to - 1. */
  function Sessions(protocol: Protocol, from: nat, to: int): seq<NamedPort> {
    if to <= from then [] else Sessions(protocol, from, to - 1) + [Session(protocol, to - 1)]
  }

  function PortsOfProtocol(protocol: Protocol, startingPort: nat, lastPort: int): seq<NamedPort> {
    [P2p(protocol, startingPort)] + Sessions(protocol, Wrap(startingPort + 1), lastPort)
  }

  function PortsOfProtocols(protocols: seq<Protocol>, startingPort: nat, lastPort: int): seq<NamedPort> {
    if protocols == [] then []
    else PortsOfProtocols(protocols[..|protocols| - 1], startingPort, lastPort)
         + PortsOfProtocol(protocols[|protocols| - 1], startingPort, lastPort)
  }

  function Protocols(only: Option<Protocol>): seq<Protocol> {
    if only.Some? then [only.value] else [TCP, UDP]
  }

  /** The ports of a Service for one protocol, or for both when none is given. */
  function ServicePorts(startingPort: nat, lastPort: int, only: Option<Protocol>): seq<NamedPort> {
    (if TCP in Protocols(only) then [API, METRICS] else []) + PortsOfProtocols(Protocols(only), startingPort, lastPort)
  }

  /** One round of the outer loop: the peer port of a protocol and its session ports. */
  method PushProtocol(ports: seq<NamedPort>, protocol: Protocol, startingPort: nat, lastPort: int) returns (r: seq<NamedPort>)
    ensures r == ports + PortsOfProtocol(protocol, startingPort, lastPort)
  {
    r := ports + [P2p(protocol, startingPort)];
    var first := Wrap(startingPort + 1);
    var portNumber := first;
    while portNumber < lastPort
      invariant first <= portNumber && (portNumber <= lastPort || portNumber == first)
      invariant r == ports + PortsOfProtocol(protocol, startingPort, portNumber)
    {
      r := r + [Session(protocol, portNumber)];
      portNumber := portNumber + 1;
    }
    assert Sessions(protocol, first, portNumber) == Sessions(protocol, first, lastPort);
  }

  lemma OneProtocolMore(protocols: seq<Protocol>, i: nat, startingPort: nat, lastPort: int)
    requires i < |protocols|
    ensures PortsOfProtocols(protocols[..i + 1], startingPort, lastPort) ==
            PortsOfProtocols(protocols[..i], startingPort, lastPort) + PortsOfProtocol(protocols[i], startingPort, lastPort)
  {
    assert protocols[..i + 1][..i] == protocols[..i];
  }

  method BuildServicePorts(startingPort: nat, lastPort: int, only: Option<Protocol>) returns (ports: seq<NamedPort>)
    ensures ports == ServicePorts(startingPort, lastPort, only)
  {
    ports := [];
    var protocols := Protocols(only);
    if TCP in protocols {
      ports := ports + [API];
      ports := ports + [METRICS];
    }
    ghost var head := ports;
    for i := 0 to |protocols|
      invariant ports == head + PortsOfProtocols(protocols[..i], startingPort, lastPort)
    {
      ports := PushProtocol(ports, protocols[i], startingPort, lastPort);
      OneProtocolMore(protocols, i, startingPort, lastPort);
    }
    assert protocols[..|protocols|] == protocols;
  }

  /** The session entries of the container alternate between the protocols. */
  function ContainerSessions(from: nat, to: int): seq<NamedPort> {
    if to <= from then [] else ContainerSessions(from, to - 1) + [Session(TCP, to - 1), Session(UDP, to - 1)]
  }

  function ContainerPorts(startingPort: nat, lastPort: int): seq<NamedPort> {
    [API, P2p(TCP, startingPort), P2p(UDP, startingPort)] + ContainerSessions(startingPort + 1, lastPort)
  }

  method BuildContainerPorts(startingPort: nat, lastPort: int) returns (ports: seq<NamedPort>)
    ensures ports == ContainerPorts(startingPort, lastPort)
  {
    ports := [];
    ports := ports + [API];
    ports := ports + [P2p(TCP, startingPort)];
    ports := ports + [P2p(UDP, startingPort)];
    var sessionPort := startingPort + 1;
    while sessionPort < lastPort
      invariant startingPort + 1 <= sessionPort && (sessionPort <= lastPort || sessionPort == startingPort + 1)
      invariant ports == [API, P2p(TCP, startingPort), P2p(UDP, startingPort)] + ContainerSessions(startingPort + 1, sessionPort)
    {
      ports := ports + [Session(TCP, sessionPort)];
      ports := ports + [Session(UDP, sessionPort)];
      sessionPort := sessionPort + 1;
    }
  }

  /* One block, several views. */

  /** The ports and protocols a list offers to peers: all of it but the two management ports. */
  ghost predicate Offers(ports: seq<NamedPort>, protocol: Protocol, port: int) {
    exists p :: p in ports && p != API && p != METRICS && p.protocol == protocol && p.port == port
  }

  lemma {:induction false} SessionsContents(protocol: Protocol, from: nat, to: int)
    ensures forall p :: p in Sessions(protocol, from, to) <==> exists port: nat :: from <= port < to && p == Session(protocol, port)
  {
    if from < to {
      SessionsContents(protocol, from, to - 1);
      forall p ensures p in Sessions(protocol, from, to) <==> exists port: nat :: from <= port < to && p == Session(protocol, port) {
        if p == Session(protocol, to - 1) {
        }
      }
    }
  }

  lemma {:induction false} ContainerSessionsContents(from: nat, to: int)
    ensures forall p :: p in ContainerSessions(from, to) <==> p in Sessions(TCP, from, to) || p in Sessions(UDP, from, to)
  {
    if from < to {
      ContainerSessionsContents(from, to - 1);
    }
  }

  lemma ManagementNames(protocol: Protocol, port: nat)
    ensures Session(protocol, port).name[0] == 's' && P2p(protocol, port).name[0] == 'p'
  {
  }

  lemma ProtocolOffers(protocol: Protocol, startingPort: nat, lastPort: int, which: Protocol, port: int)
    ensures Offers(PortsOfProtocol(protocol, startingPort, lastPort), which, port) <==>
            which == protocol && (port == startingPort || Wrap(startingPort + 1) <= port < lastPort)
  {
    var ports := PortsOfProtocol(protocol, startingPort, lastPort);
    SessionsContents(protocol, Wrap(startingPort + 1), lastPort);
    ManagementNames(protocol, startingPort);
    if which == protocol && port == startingPort {
      assert P2p(protocol, port) in ports;
    }
    if which == protocol && Wrap(startingPort + 1) <= port < lastPort {
      ManagementNames(protocol, port);
      assert Session(protocol, port) in Sessions(protocol, Wrap(startingPort + 1), lastPort);
      assert Session(protocol, port) in ports;
    }
  }

  lemma OffersConcat(a: seq<NamedPort>, b: seq<NamedPort>, protocol: Protocol, port: int)
    ensures Offers(a + b, protocol, port) <==> Offers(a, protocol, port) || Offers(b, protocol, port)
  {
    assert forall p :: p in a + b <==> p in a || p in b;
  }

  /** The four lists in terms of the two protocols. */
  lemma ServicePortsExpanded(start: nat, last: int)
    ensures ServicePorts(start, last, None) == [API, METRICS] + PortsOfProtocol(TCP, start, last) + PortsOfProtocol(UDP, start, last)
    ensures ServicePorts(start, last, Some(TCP)) == [API, METRICS] + PortsOfProtocol(TCP, start, last)
    ensures ServicePorts(start, last, Some(UDP)) == PortsOfProtocol(UDP, start, last)
  {
    assert [TCP][..0] == [] && [UDP][..0] == [] && [TCP, UDP][..1] == [TCP];
    assert PortsOfProtocols([TCP], start, last) == PortsOfProtocol(TCP, start, last);
    assert PortsOfProtocols([UDP], start, last) == PortsOfProtocol(UDP, start, last);
    assert PortsOfProtocols([TCP, UDP], start, last) == PortsOfProtocols([TCP], start, last) + PortsOfProtocol(UDP, start, last);
  }

  lemma ServiceOffers(start: nat, last: int, protocol: Protocol, port: int)
    ensures
      var offered := port == start || Wrap(start + 1) <= port < last;
      && (Offers(ServicePorts(start, last, None), protocol, port) <==> offered)
      && (Offers(ServicePorts(start, last, Some(TCP)), protocol, port) <==> offered && protocol == TCP)
      && (Offers(ServicePorts(start, last, Some(UDP)), protocol, port) <==> offered && protocol == UDP)
  {
    ServicePortsExpanded(start, last);
    ProtocolOffers(TCP, start, last, protocol, port);
    ProtocolOffers(UDP, start, last, protocol, port);
    OffersConcat([API, METRICS], PortsOfProtocol(TCP, start, last), protocol, port);
    OffersConcat([API, METRICS] + PortsOfProtocol(TCP, start, last), PortsOfProtocol(UDP, start, last), protocol, port);
  }

  lemma {:induction false} ContainerOffers(start: nat, last: int, protocol: Protocol, port: int)
    ensures Offers(ContainerPorts(start, last), protocol, port) <==> port == start || start < port < last
  {
    ContainerOffersOnly(start, last, protocol, port);
    if port == start || start < port < last {
      ContainerOffersAll(start, last, protocol, port);
    }
  }

  lemma {:induction false} ContainerOffersOnly(start: nat, last: int, protocol: Protocol, port: int)
    ensures Offers(ContainerPorts(start, last), protocol, port) ==> port == start || start < port < last
  {
    ContainerSessionsContents(start + 1, last);
    SessionsContents(TCP, start + 1, last);
    SessionsContents(UDP, start + 1, last);
  }

  lemma {:induction false} ContainerOffersAll(start: nat, last: int, protocol: Protocol, port: nat)
    requires port == start || start < port < last
    ensures Offers(ContainerPorts(start, last), protocol, port)
  {
    var ports := ContainerPorts(start, last);
    if port == start {
      ManagementNames(protocol, start);
      assert P2p(protocol, port) in ports;
    } else {
      ContainerSessionsContents(start + 1, last);
      SessionsContents(protocol, start + 1, last);
      ManagementNames(protocol, port);
      assert Session(protocol, port) in Sessions(protocol, start + 1, last);
      assert Session(protocol, port) in ports;
    }
  }

  /**
    For a starting port below 65535 the ClusterIP Service and the container offer the same ports
    for each protocol: the starting port and the ports up to the last one. For a block of k >= 1
    ports these are the ports of the block; for an empty one the starting port is still offered,
    although nginx opens none.
   */
  lemma {:induction false} ViewsAgree(start: nat, last: nat, protocol: Protocol, port: int)
    requires start < 0xFFFF && last < 0x1_0000
    ensures Offers(ServicePorts(start, last, None), protocol, port) <==> port == start || start <= port < last
    ensures Offers(ContainerPorts(start, last), protocol, port) <==> port == start || start <= port < last
  {
    ServiceView(start, last, protocol, port);
    ContainerOffers(start, last, protocol, port);
  }

  lemma {:induction false} ServiceView(start: nat, last: nat, protocol: Protocol, port: int)
    requires start < 0xFFFF
    ensures Offers(ServicePorts(start, last, None), protocol, port) <==> port == start || start <= port < last
  {
    assert Wrap(start + 1) == start + 1;
    ServiceOffers(start, last, protocol, port);
  }

  /** The name of a peer port, and of a session port, of a protocol. */
  predicate IsPeer(p: NamedPort, start: nat) {
    p == NamedPort("p2p-tcp", start, TCP) || p == NamedPort("p2p-udp", start, UDP)
  }

  predicate IsSession(p: NamedPort) {
    p.port >= 0 && (p == NamedPort("sessiont-" + Decimal(p.port), p.port, TCP) || p == NamedPort("sessionu-" + Decimal(p.port), p.port, UDP))
  }

  /**
    The lists by name: the API port (3001) in both, the metrics port (8080) in the Service only,
    the peer ports at the starting port, and one session port of each protocol for the others.
   */
  lemma {:induction false} ListsExact(start: nat, last: int, p: NamedPort)
    ensures p in ServicePorts(start, last, None) <==>
              || p == NamedPort("api", 3001, TCP) || p == NamedPort("metrics", 8080, TCP) || IsPeer(p, start)
              || (IsSession(p) && (start + 1) % 0x1_0000 <= p.port < last)
    ensures p in ContainerPorts(start, last) <==>
              || p == NamedPort("api", 3001, TCP) || IsPeer(p, start)
              || (IsSession(p) && start + 1 <= p.port < last)
  {
    ServiceMembers(start, last, p);
    ContainerMembers(start, last, p);
    SessionsByName(Wrap(start + 1), last, p);
    SessionsByName(start + 1, last, p);
    PeerNames(start, p);
  }

  lemma PeerNames(start: nat, p: NamedPort)
    ensures IsPeer(p, start) <==> p == P2p(TCP, start) || p == P2p(UDP, start)
  {
    assert "p2p-" + TCP.Lower() == "p2p-tcp" && "p2p-" + UDP.Lower() == "p2p-udp";
  }

  lemma {:induction false} ProtocolMembers(protocol: Protocol, start: nat, last: int, p: NamedPort)
    ensures p in PortsOfProtocol(protocol, start, last) <==> p == P2p(protocol, start) || p in Sessions(protocol, Wrap(start + 1), last)
  {
  }

  lemma {:induction false} ServiceMembers(start: nat, last: int, p: NamedPort)
    ensures p in ServicePorts(start, last, None) <==>
              || p == API || p == METRICS || p == P2p(TCP, start) || p == P2p(UDP, start)
              || p in Sessions(TCP, Wrap(start + 1), last) || p in Sessions(UDP, Wrap(start + 1), last)
  {
    ServicePortsExpanded(start, last);
    ProtocolMembers(TCP, start, last, p);
    ProtocolMembers(UDP, start, last, p);
  }

  lemma {:induction false} ContainerMembers(start: nat, last: int, p: NamedPort)
    ensures p in ContainerPorts(start, last) <==>
              || p == API || p == P2p(TCP, start) || p == P2p(UDP, start)
              || p in Sessions(TCP, start + 1, last) || p in Sessions(UDP, start + 1, last)
  {
    ContainerSessionsContents(start + 1, last);
  }

  lemma SessionsByName(from: nat, to: int, p: NamedPort)
    ensures p in Sessions(TCP, from, to) || p in Sessions(UDP, from, to) <==> IsSession(p) && from <= p.port < to
  {
    SessionsContents(TCP, from, to);
    SessionsContents(UDP, from, to);
    if p.port >= 0 {
      assert Session(TCP, p.port) == NamedPort("sessiont-" + Decimal(p.port), p.port, TCP);
      assert Session(UDP, p.port) == NamedPort("sessionu-" + Decimal(p.port), p.port, UDP);
    }
  }

  /** The two LoadBalancer Services together offer what the ClusterIP Service does. */
  lemma {:induction false} BalancersOffer(start: nat, last: nat, protocol: Protocol, port: int)
    ensures Offers(ServicePorts(start, last, Some(TCP)) + ServicePorts(start, last, Some(UDP)), protocol, port) <==>
            Offers(ServicePorts(start, last, None), protocol, port)
  {
    ServiceOffers(start, last, protocol, port);
    OffersConcat(ServicePorts(start, last, Some(TCP)), ServicePorts(start, last, Some(UDP)), protocol, port);
  }

  ghost predicate SameOffers(start: nat, last: nat) {
    forall protocol, port :: Offers(ServicePorts(start, last, None), protocol, port) <==> Offers(ContainerPorts(start, last), protocol, port)
  }

  /** The Service counts ports in 16 bits and the container does not: they differ exactly at a starting port of 65535 with a last port above 0. */
  lemma {:induction false} ViewsAgreeExactly(start: nat, last: nat)
    requires start < 0x1_0000 && last < 0x1_0000
    ensures SameOffers(start, last) <==> start < 0xFFFF || last == 0
  {
    forall protocol, port
      ensures Offers(ServicePorts(start, last, None), protocol, port) <==> port == start || Wrap(start + 1) <= port < last
      ensures Offers(ContainerPorts(start, last), protocol, port) <==> port == start || start < port < last
    {
      ServiceOffers(start, last, protocol, port);
      ContainerOffers(start, last, protocol, port);
    }
    if start == 0xFFFF && last > 0 {
      assert Offers(ServicePorts(start, last, None), TCP, 0) && !Offers(ContainerPorts(start, last), TCP, 0);
    }
  }

  /* The environment variables. */

  /** HOPRD_HOST: "host:port". */
  function HostVariable(host: string, startingPort: nat): string {
    host + ":" + Decimal(startingPort)
  }

  /** HOPRD_SESSION_PORT_RANGE, absent when no ports are allocated. */
  function SessionRange(startingPort: nat, lastPort: int): Option<(int, int)> {
    if startingPort != lastPort then Some((Wrap(startingPort + 1), Wrap(lastPort - 1))) else None
  }

  /** How `modify_deployment` recovers host and port from the variable; None stops the caller. */
  function RecoverHost(value: string): Option<(string, nat)> {
    match After(value, ':')
    case None => None
    case Some(rest) =>
      match ParseU16(Before(rest, ':'))
      case None => None
      case Some(port) => Some((Before(value, ':'), port))
  }

  /** The printed variable gives back host and port if and only if the host contains no ':'. */
  lemma HostRoundTrip(host: string, port: nat)
    requires port < 0x1_0000
    ensures RecoverHost(HostVariable(host, port)) == Some((host, port)) <==> ':' !in host
  {
    if ':' !in host {
      SplitJoined(host, ':', Decimal(port));
      DecimalHasNo(port, ':');
      SplitAbsent(Decimal(port), ':');
      ParseDecimal(port, 0x1_0000);
    } else {
      BeforeHasNo(HostVariable(host, port), ':');
    }
  }

  /** What is recovered prints and parses again. */
  lemma RecoveredIsStable(value: string)
    requires RecoverHost(value).Some?
    ensures
      var (host, port) := RecoverHost(value).value;
      RecoverHost(HostVariable(host, port)) == RecoverHost(value)
  {
    BeforeHasNo(value, ':');
    HostRoundTrip(RecoverHost(value).value.0, RecoverHost(value).value.1);
  }

  lemma {:induction false} BeforeHasNo(s: string, c: char)
    ensures c !in Before(s, c)
  {
    if s != [] && s[0] != c {
      BeforeHasNo(s[1..], c);
    }
  }

  /** The session range is the block without its first port; for k == 1 it is printed inverted. */
  lemma SessionRangeIsTail(start: nat, k: nat, port: int)
    requires start + k < 0x1_0000
    ensures k == 0 <==> SessionRange(start, start + k) == None
    ensures k > 0 ==>
              var (from, to) := SessionRange(start, start + k).value;
              && (from <= port <= to <==> start <= port < start + k && port != start)
              && (from <= to <==> k >= 2)
  {
  }
}

module Bootstrap {
  import opened Wrappers
  import opened PortViews
  import opened Text

  datatype InputError = PortsOutOfRange | MinNotBelowMax

  function Opened(protocol: Protocol, port: nat): NamedPort {
    NamedPort(protocol.Lower() + "-" + Decimal(port), port, protocol)
  }

  /** The entries the loop pushes for ports from, ..., to - 1. */
  function Range(from: nat, to: int): seq<NamedPort> {
    if to <= from then [] else Range(from, to - 1) + [Opened(TCP, to - 1), Opened(UDP, to - 1)]
  }

  /** The entries outside [lo, hi], in order. */
  function Outside(ports: seq<NamedPort>, lo: int, hi: int): seq<NamedPort> {
    if ports == [] then []
    else
      var last := ports[|ports| - 1];
      var rest := Outside(ports[..|ports| - 1], lo, hi);
      if last.port < lo || last.port > hi then rest + [last] else rest
  }

  method KeepOutside(ports: seq<NamedPort>, minPort: int, maxPort: int) returns (newPorts: seq<NamedPort>)
    ensures newPorts == Outside(ports, minPort, maxPort)
  {
    newPorts := [];
    for i := 0 to |ports|
      invariant newPorts == Outside(ports[..i], minPort, maxPort)
    {
      assert ports[..i + 1][..i] == ports[..i];
      if ports[i].port < minPort || ports[i].port > maxPort {
        newPorts := newPorts + [ports[i]];
      }
    }
    assert ports[..|ports|] == ports;
  }

  /** The new port list of the nginx container; `portMax` is inclusive here. */
  method OpenNginxDeploymentPorts(portMin: nat, portMax: nat, ports: seq<NamedPort>) returns (r: Result<seq<NamedPort>, InputError>)
    ensures r.Ok? <==> 1024 <= portMin <= portMax < 65535
    ensures r.Ok? ==> r.value == Outside(ports, portMin, portMax + 1) + Range(portMin, portMax + 1)
  {
    var minPort: int := portMin;
    var maxPort: int := portMax + 1;
    if !(1024 <= minPort <= 65535) || !(1024 <= maxPort <= 65535) {
      return Err(PortsOutOfRange);
    }
    if minPort >= maxPort {
      return Err(MinNotBelowMax);
    }
    var newPorts := KeepOutside(ports, minPort, maxPort);
    ghost var kept := newPorts;
    for portNumber := minPort to maxPort
      invariant newPorts == kept + Range(minPort, portNumber)
    {
      newPorts := newPorts + [Opened(TCP, portNumber)];
      newPorts := newPorts + [Opened(UDP, portNumber)];
    }
    return Ok(newPorts);
  }

  function Prepared(ports: seq<NamedPort>, portMin: nat, portMax: nat): seq<NamedPort> {
    Outside(ports, portMin, portMax + 1) + Range(portMin, portMax + 1)
  }

  /** How often the list has an entry for a port and protocol. */
  function Count(ports: seq<NamedPort>, protocol: Protocol, port: int): nat {
    if ports == [] then 0
    else
      Count(ports[..|ports| - 1], protocol, port)
      + (if ports[|ports| - 1].protocol == protocol && ports[|ports| - 1].port == port then 1 else 0)
  }

  lemma {:induction false} CountConcat(a: seq<NamedPort>, b: seq<NamedPort>, protocol: Protocol, port: int)
    ensures Count(a + b, protocol, port) == Count(a, protocol, port) + Count(b, protocol, port)
  {
    if b == [] {
      assert a + b == a;
    } else {
      assert (a + b)[..|a + b| - 1] == a + b[..|b| - 1];
      CountConcat(a, b[..|b| - 1], protocol, port);
    }
  }

  lemma {:induction false} CountRange(from: nat, to: int, protocol: Protocol, port: int)
    ensures Count(Range(from, to), protocol, port) == if from <= port < to then 1 else 0
  {
    if from < to {
      CountRange(from, to - 1, protocol, port);
      var pair := [Opened(TCP, to - 1), Opened(UDP, to - 1)];
      CountConcat(Range(from, to - 1), pair, protocol, port);
      assert pair[..1] == [pair[0]] && [pair[0]][..0] == [];
      assert Count(pair, protocol, port) == Count(pair[..1], protocol, port)
                                            + (if pair[1].protocol == protocol && pair[1].port == port then 1 else 0);
    }
  }

  lemma {:induction false} RangeNames(from: nat, to: int, p: NamedPort)
    ensures p in Range(from, to) <==>
              from <= p.port < to && p.name == (if p.protocol == TCP then "tcp-" else "udp-") + Decimal(p.port)
  {
    if from < to {
      RangeNames(from, to - 1, p);
      PairNames(to - 1, p);
    }
  }

  lemma PairNames(port: nat, p: NamedPort)
    ensures p in [Opened(TCP, port), Opened(UDP, port)] <==>
              p.port == port && p.name == (if p.protocol == TCP then "tcp-" else "udp-") + Decimal(port)
  {
    assert TCP.Lower() + "-" == "tcp-" && UDP.Lower() + "-" == "udp-";
  }

  lemma {:induction false} CountOutside(ports: seq<NamedPort>, lo: int, hi: int, protocol: Protocol, port: int)
    ensures Count(Outside(ports, lo, hi), protocol, port) == if lo <= port <= hi then 0 else Count(ports, protocol, port)
  {
    if ports != [] {
      var rest := Outside(ports[..|ports| - 1], lo, hi);
      CountOutside(ports[..|ports| - 1], lo, hi, protocol, port);
      assert (rest + [ports[|ports| - 1]])[..|rest|] == rest;
    }
  }

  /**
    After bootstrap every port in [portMin, portMax] has exactly one TCP and one UDP entry, so in
    particular every port `open_port` may hand out; other ports keep their entries, except that
    entries for portMax + 1 are dropped.
   */
  lemma PreparedCounts(ports: seq<NamedPort>, portMin: nat, portMax: nat, protocol: Protocol, port: int)
    ensures Count(Prepared(ports, portMin, portMax), protocol, port) ==
            if portMin <= port <= portMax then 1
            else if port == portMax + 1 && portMin <= port then 0
            else Count(ports, protocol, port)
  {
    CountConcat(Outside(ports, portMin, portMax + 1), Range(portMin, portMax + 1), protocol, port);
    CountOutside(ports, portMin, portMax + 1, protocol, port);
    CountRange(portMin, portMax + 1, protocol, port);
  }

  lemma {:induction false} OutsideConcat(a: seq<NamedPort>, b: seq<NamedPort>, lo: int, hi: int)
    ensures Outside(a + b, lo, hi) == Outside(a, lo, hi) + Outside(b, lo, hi)
  {
    if b == [] {
      assert a + b == a;
    } else {
      assert (a + b)[..|a + b| - 1] == a + b[..|b| - 1];
      OutsideConcat(a, b[..|b| - 1], lo, hi);
    }
  }

  lemma {:induction false} OutsideTwice(ports: seq<NamedPort>, lo: int, hi: int)
    ensures Outside(Outside(ports, lo, hi), lo, hi) == Outside(ports, lo, hi)
  {
    if ports != [] {
      var rest := Outside(ports[..|ports| - 1], lo, hi);
      OutsideTwice(ports[..|ports| - 1], lo, hi);
      assert (rest + [ports[|ports| - 1]])[..|rest|] == rest;
    }
  }

  lemma {:induction false} OutsideOfRange(from: nat, to: int, lo: int, hi: int)
    requires lo <= from && to <= hi + 1
    ensures Outside(Range(from, to), lo, hi) == []
  {
    if from < to {
      OutsideOfRange(from, to - 1, lo, hi);
      var pair := [Opened(TCP, to - 1), Opened(UDP, to - 1)];
      OutsideConcat(Range(from, to - 1), pair, lo, hi);
      assert pair[..1] == [pair[0]] && [pair[0]][..0] == [];
      assert Outside(pair[..1], lo, hi) == [];
    }
  }

  /** Entries outside [portMin, portMax + 1] keep their order, and restarting the operator leaves the prepared list as it is. */
  lemma PreparedTwice(ports: seq<NamedPort>, portMin: nat, portMax: nat)
    ensures Outside(Prepared(ports, portMin, portMax), portMin, portMax + 1) == Outside(ports, portMin, portMax + 1)
    ensures Prepared(Prepared(ports, portMin, portMax), portMin, portMax) == Prepared(ports, portMin, portMax)
  {
    OutsideConcat(Outside(ports, portMin, portMax + 1), Range(portMin, portMax + 1), portMin, portMax + 1);
    OutsideTwice(ports, portMin, portMax + 1);
    OutsideOfRange(portMin, portMax + 1, portMin, portMax + 1);
  }
}
