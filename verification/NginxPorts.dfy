/**
  Opening and closing blocks of nginx ports for services
  (`open_port`, `get_available_ports` and `close_port` of src/hoprd/hoprd_ingress.rs).
  The two ConfigMaps are kept as fields; each call is one atomic step.
 */
module NginxPorts {
  import opened Wrappers
  import opened Ordering
  import opened PortSearch
  import opened PortData
  import opened Text

  /** The ports the operator may hand out: [portMin, portMax). */
  datatype Config = Config(portMin: int, portMax: int) {
    predicate Valid() {
      0 <= portMin <= portMax < 0x1_0000
    }

    /** The range leaves room for one more block of `k` ports below 65536. */
    predicate HasRoomFor(k: int) {
      portMax + k + 1 < 0x1_0000
    }
  }

  /**
    The data of the ConfigMaps ingress-nginx-tcp and ingress-nginx-udp; None when one does not
    exist. Kubernetes does not store an empty data field, so empty data is a missing field.
   */
  datatype Maps = Maps(tcp: Option<Data>, udp: Option<Data>)

  datatype OpenError = NoConfigMap | ExceedsMax | UdpPatchFailed

  /**
    `close_port` reads both maps with `unwrap`, so a missing one stops the caller; replacing the
    data fails where there is none (section 4.3 of RFC 6902).
   */
  datatype CloseError = TcpMissing | TcpReplaceFailed | UdpMissing | UdpReplaceFailed

  /** Merge patch of a string map without nulls (section 2 of RFC 7396). */
  function MergePatch(data: Data, patch: Data): Data {
    data + patch
  }

  /** The entries whose value does not mention `fqn`. */
  function Without(data: Data, fqn: string): Data {
    map x | x in data && !Contains(data[x], fqn) :: data[x]
  }

  ghost function SearchStart(cfg: Config, data: Data, k: int): int {
    FirstFit(Scan(data, cfg.portMin, cfg.portMax), k, cfg.portMin)
  }

  /** `open_port` from the end check on, with the start of the block and its entries. */
  function OpenedWith(cfg: Config, s: Maps, start: int, k: nat, entries: Data): (Maps, Result<int, OpenError>)
    requires s.tcp.Some?
  {
    if Wrap(start + k) > cfg.portMax then (s, Err(ExceedsMax))
    else if k == 0 then (s, Ok(start))
    else
      var tcp' := Some(MergePatch(s.tcp.value, entries));
      match s.udp
      case None => (s.(tcp := tcp'), Err(UdpPatchFailed))
      case Some(udp) => (Maps(tcp', Some(MergePatch(udp, entries))), Ok(start))
  }

  ghost function Opened(cfg: Config, s: Maps, svc: Service, k: nat): (Maps, Result<int, OpenError>) {
    match s.tcp
    case None => (s, Err(NoConfigMap))
    case Some(tcp) =>
      var start := SearchStart(cfg, tcp, k);
      OpenedWith(cfg, s, start, k, Entries(svc, start, k))
  }

  function Closed(s: Maps, svc: Service): (Maps, Result<(), CloseError>) {
    match s.tcp
    case None => (s, Err(TcpMissing))
    case Some(tcp) =>
      if tcp == map[] then (s, Err(TcpReplaceFailed))
      else
        var t := s.(tcp := Some(Without(tcp, svc.Fqn())));
        match s.udp
        case None => (t, Err(UdpMissing))
        case Some(udp) =>
          if udp == map[] then (t, Err(UdpReplaceFailed))
          else (t.(udp := Some(Without(udp, svc.Fqn()))), Ok(()))
  }

  lemma {:induction false} PortsOfAppend(keys: seq<string>, key: string, lo: int, hi: int)
    ensures PortsOf(keys + [key], lo, hi) ==
            PortsOf(keys, lo, hi) + (match PortOf(key, lo, hi) case Some(port) => [port] case None => [])
  {
    if keys == [] {
    } else {
      assert (keys + [key])[1..] == keys[1..] + [key];
      PortsOfAppend(keys[1..], key, lo, hi);
    }
  }

  class NginxConfigMaps {
    const config: Config
    var tcp: Option<Data>
    var udp: Option<Data>

    constructor (config: Config, maps: Maps)
      ensures this.config == config && Contents() == maps
    {
      this.config := config;
      tcp, udp := maps.tcp, maps.udp;
    }

    function Contents(): Maps
      reads this
    {
      Maps(tcp, udp)
    }

    /** Reads the used ports from the TCP map, sorts them and searches a block. */
    method GetAvailablePorts(k: nat) returns (r: Result<int, OpenError>)
      ensures tcp.None? ==> r == Err(NoConfigMap)
      ensures tcp.Some? ==> r == Ok(SearchStart(config, tcp.value, k))
    {
      if tcp.None? {
        return Err(NoConfigMap);
      }
      var data := tcp.value;
      var pending := data.Keys;
      var ports: seq<int> := [];
      ghost var keys: seq<string> := [];
      while pending != {}
        invariant pending <= data.Keys
        invariant Enumerates(keys, data.Keys - pending)
        invariant ports == PortsOf(keys, config.portMin, config.portMax)
      {
        var key :| key in pending;
        pending := pending - {key};
        var parsed := ParseU16(key);
        PortsOfAppend(keys, key, config.portMin, config.portMax);
        if parsed.Some? && parsed.value >= config.portMin && parsed.value <= config.portMax {
          ports := ports + [parsed.value];
        }
        keys := keys + [key];
      }
      ports := Sort(ports);
      ScanOrderIrrelevant(keys, Enumeration(data.Keys), data.Keys, config.portMin, config.portMax);
      var start := FindNextPort(ports, k, config.portMin);
      return Ok(start);
    }

    /** The loop of `open_port`. */
    static method NewPorts(svc: Service, startingPort: int, k: nat) returns (newPorts: Data)
      ensures newPorts == Entries(svc, startingPort, k)
    {
      newPorts := map[];
      for i := 0 to k
        invariant newPorts == Entries(svc, startingPort, i)
      {
        var currentPort := Wrap(startingPort + i);
        newPorts := newPorts[Decimal(currentPort) := svc.Entry(currentPort)];
      }
    }

    method OpenPort(svc: Service, k: nat) returns (r: Result<int, OpenError>)
      modifies this
      ensures (Contents(), r) == Opened(config, old(Contents()), svc, k)
    {
      var search := GetAvailablePorts(k);
      if search.Err? {
        return search;
      }
      var startingPort := search.value;
      if Wrap(startingPort + k) > config.portMax {
        return Err(ExceedsMax);
      }
      if k == 0 {
        return Ok(startingPort);
      }
      var newPorts := NewPorts(svc, startingPort, k);
      tcp := Some(MergePatch(tcp.value, newPorts));
      if udp.None? {
        return Err(UdpPatchFailed);
      }
      udp := Some(MergePatch(udp.value, newPorts));
      return Ok(startingPort);
    }

    method ClosePort(svc: Service) returns (r: Result<(), CloseError>)
      modifies this
      ensures (Contents(), r) == Closed(old(Contents()), svc)
    {
      if tcp.None? {
        return Err(TcpMissing);
      }
      if tcp.value == map[] {
        return Err(TcpReplaceFailed);
      }
      tcp := Some(Without(tcp.value, svc.Fqn()));
      if udp.None? {
        return Err(UdpMissing);
      }
      if udp.value == map[] {
        return Err(UdpReplaceFailed);
      }
      udp := Some(Without(udp.value, svc.Fqn()));
      return Ok(());
    }
  }

  /* What one call does. */

  /** No port of the block is used in `data`. */
  ghost predicate Unused(data: Data, cfg: Config, start: int, k: int) {
    forall port :: start <= port < start + k ==> !Used(data, cfg.portMin, cfg.portMax, port)
  }

  lemma {:induction false} FreeIsUnused(cfg: Config, data: Data, start: int, k: int)
    requires Free(Scan(data, cfg.portMin, cfg.portMax), start, k)
    ensures Unused(data, cfg, start, k)
  {
    ScanFacts(data, cfg.portMin, cfg.portMax);
    var scan := Scan(data, cfg.portMin, cfg.portMax);
    forall port | start <= port < start + k ensures !Used(data, cfg.portMin, cfg.portMax, port) {
      assert port !in scan;
    }
  }

  lemma UnusedIsFree(cfg: Config, data: Data, start: int, k: int)
    requires Unused(data, cfg, start, k)
    ensures Free(Scan(data, cfg.portMin, cfg.portMax), start, k)
  {
    ScanFacts(data, cfg.portMin, cfg.portMax);
    var scan := Scan(data, cfg.portMin, cfg.portMax);
    forall i | 0 <= i < |scan| ensures !(start <= scan[i] < start + k) {
      assert scan[i] in scan;
    }
  }

  /** An unused block of `k` ports exists inside [portMin, portMax). */
  ghost predicate BlockAvailable(cfg: Config, data: Data, k: int) {
    exists start :: cfg.portMin <= start && start + k <= cfg.portMax && Unused(data, cfg, start, k)
  }

  lemma UnusedKeysAreFresh(cfg: Config, data: Data, start: int, k: int)
    requires 0 <= cfg.portMin <= start && start + k <= cfg.portMax < 0x1_0000 && Unused(data, cfg, start, k)
    ensures forall x :: BlockKey(x, start, k) ==> x !in data
  {
    forall x | BlockKey(x, start, k) ensures x !in data {
      var port :| 0 <= start <= port < start + k && x == Decimal(port);
      if x in data {
        CanonicalKeyIsUsed(data, cfg.portMin, cfg.portMax, port);
      }
    }
  }

  lemma {:induction false} SearchOfData(cfg: Config, data: Data, k: nat)
    requires cfg.Valid() && k > 0 && cfg.HasRoomFor(k) && DistinctPorts(data, cfg.portMin, cfg.portMax)
    ensures
      var start := SearchStart(cfg, data, k);
      && cfg.portMin <= start && Unused(data, cfg, start, k) && Wrap(start + k) == start + k
      && (start + k <= cfg.portMax <==> BlockAvailable(cfg, data, k))
  {
    var scan := Scan(data, cfg.portMin, cfg.portMax);
    ScanFacts(data, cfg.portMin, cfg.portMax);
    SearchIsExact(scan, k, cfg.portMin, cfg.portMax);
    FreeIsUnused(cfg, data, SearchStart(cfg, data, k), k);
    if t :| cfg.portMin <= t && t + k <= cfg.portMax && Unused(data, cfg, t, k) {
      UnusedIsFree(cfg, data, t, k);
      assert FreeBlock(scan, t, k, cfg.portMin, cfg.portMax);
    }
  }

  /** With both ConfigMaps present, only the end check decides. */
  lemma OpenedAt(cfg: Config, s: Maps, start: int, k: nat, entries: Data)
    requires s.tcp.Some? && s.udp.Some? && k > 0
    ensures
      var (after, r) := OpenedWith(cfg, s, start, k, entries);
      if Wrap(start + k) <= cfg.portMax then
        r == Ok(start) && after == Maps(Some(MergePatch(s.tcp.value, entries)), Some(MergePatch(s.udp.value, entries)))
      else r == Err(ExceedsMax) && after == s
  {
  }

  /**
    With both ConfigMaps present, `open_port` succeeds exactly when the TCP map leaves a block of
    `k` consecutive unused ports in [portMin, portMax); the block it returns is such a block and
    none of its keys was present before.
   */
  lemma {:induction false} OpenIsExact(cfg: Config, s: Maps, svc: Service, k: nat)
    requires cfg.Valid() && k > 0 && cfg.HasRoomFor(k)
    requires s.tcp.Some? && s.udp.Some? && DistinctPorts(s.tcp.value, cfg.portMin, cfg.portMax)
    ensures var (_, r) := Opened(cfg, s, svc, k);
            && (r.Ok? <==> BlockAvailable(cfg, s.tcp.value, k))
            && (r.Ok? ==> && cfg.portMin <= r.value && r.value + k <= cfg.portMax
                          && Unused(s.tcp.value, cfg, r.value, k)
                          && forall x :: BlockKey(x, r.value, k) ==> x !in s.tcp.value)
            && (r.Err? ==> r.error == ExceedsMax && Opened(cfg, s, svc, k).0 == s)
  {
    var start := SearchStart(cfg, s.tcp.value, k);
    SearchOfData(cfg, s.tcp.value, k);
    OpenedAt(cfg, s, start, k, Entries(svc, start, k));
    if start + k <= cfg.portMax {
      UnusedKeysAreFresh(cfg, s.tcp.value, start, k);
    }
  }

  /** The keys of a port, of the same port with a leading zero, and of the port behind it. */
  function RepeatedKeys(port: nat): seq<string> {
    [Decimal(port), "0" + Decimal(port), Decimal(port + 1)]
  }

  /**
    Keys that repeat the first port of the range, followed by the next port, occur and trip the
    search: the block it returns begins with a port already in use.
   */
  lemma RepeatedKeysOverlap(data: Data, p: nat, max: int, k: nat)
    requires 0 < k < 0x1_0000 && p + 1 <= max < 0x1_0000 && Enumerates(RepeatedKeys(p), data.Keys)
    ensures
      var scan := Scan(data, p, max);
      TripsOnRepeat(scan, k, p) && FirstFit(scan, k, p) == p + 1 && p + 1 in scan
  {
    RepeatedScan(data, p, max);
    RepeatTrips(p, k);
  }

  /** A ConfigMap with these keys. */
  lemma RepeatedKeysOccur(p: nat, value: string) returns (data: Data)
    requires p + 1 < 0x1_0000
    ensures Enumerates(RepeatedKeys(p), data.Keys)
  {
    ParseDecimal(p, 0x1_0000);
    ParseDecimal(p + 1, 0x1_0000);
    ParseZeroInFront(p, 0x1_0000);
    data := ThreeKeys(Decimal(p), "0" + Decimal(p), Decimal(p + 1), value);
  }

  lemma ThreeKeys(x: string, y: string, z: string, value: string) returns (data: Data)
    requires x != y && x != z && y != z
    ensures Enumerates([x, y, z], data.Keys)
  {
    data := map[x := value, y := value, z := value];
  }

  lemma RepeatedScan(data: Data, p: nat, max: int)
    requires p + 1 <= max < 0x1_0000 && Enumerates(RepeatedKeys(p), data.Keys)
    ensures Scan(data, p, max) == [p, p, p + 1]
  {
    RepeatedPorts(p, max);
    ScanOrderIrrelevant(RepeatedKeys(p), Enumeration(data.Keys), data.Keys, p, max);
    SortThree(p);
  }

  lemma RepeatedPorts(p: nat, max: int)
    requires p + 1 <= max < 0x1_0000
    ensures PortsOf(RepeatedKeys(p), p, max) == [p, p, p + 1]
  {
    ParseDecimal(p, 0x1_0000);
    ParseDecimal(p + 1, 0x1_0000);
    ParseZeroInFront(p, 0x1_0000);
    ThreePorts(Decimal(p), "0" + Decimal(p), Decimal(p + 1), p, max, p, p, p + 1);
  }

  lemma ThreePorts(x: string, y: string, z: string, lo: int, hi: int, a: int, b: int, c: int)
    requires PortOf(x, lo, hi) == Some(a) && PortOf(y, lo, hi) == Some(b) && PortOf(z, lo, hi) == Some(c)
    ensures PortsOf([x, y, z], lo, hi) == [a, b, c]
  {
    assert [x, y, z][1..] == [y, z] && [y, z][1..] == [z] && [z][1..] == [];
    assert PortsOf([z], lo, hi) == [c];
    assert PortsOf([y, z], lo, hi) == [b, c];
  }

  lemma SortThree(p: int)
    ensures Sort([p, p, p + 1]) == [p, p, p + 1]
  {
    var s := [p, p, p + 1];
    assert s[1..] == [p, p + 1] && s[1..][1..] == [p + 1] && s[1..][1..][1..] == [];
    assert Sort([p + 1]) == [p + 1];
    assert Sort([p, p + 1]) == [p, p + 1];
  }

  lemma OwnEntryMatches(svc: Service, port: int)
    requires 0 <= port
    ensures Contains(svc.Entry(port), svc.Fqn())
  {
    assert OccursAt(svc.Entry(port), svc.Fqn(), 0);
  }

  /**
    Opening and then closing gives back a map if and only if no entry of it mentioned the
    service before, and none had the key of a port of the block.
   */
  lemma AddThenRemove(data: Data, svc: Service, start: int, k: nat)
    requires 0 <= start && start + k <= 0x1_0000
    ensures
      Without(MergePatch(data, Entries(svc, start, k)), svc.Fqn()) == data <==>
      && (forall x :: x in data ==> !Contains(data[x], svc.Fqn()))
      && (forall x :: BlockKey(x, start, k) ==> x !in data)
  {
    var added := MergePatch(data, Entries(svc, start, k));
    var back := Without(added, svc.Fqn());
    EntriesKeys(svc, start, k);
    forall x | BlockKey(x, start, k) ensures x in added && x !in back {
      var port :| 0 <= start <= port < start + k && x == Decimal(port);
      OwnEntryMatches(svc, port);
    }
    assert forall x :: x in data && !BlockKey(x, start, k) ==> x in added && added[x] == data[x];
    if (forall x :: x in data ==> !Contains(data[x], svc.Fqn())) && (forall x :: BlockKey(x, start, k) ==> x !in data) {
      assert back == data;
    } else if x :| x in data && Contains(data[x], svc.Fqn()) {
      assert x !in back;
    }
  }

  /**
    `open_port` followed by `close_port` restores the TCP map if and only if no prior entry
    mentioned the service, and the UDP map if and only if, in addition, no UDP entry
    already used a key of the block: the search only looks at the TCP map.
   */
  lemma {:induction false} OpenCloseRestores(cfg: Config, s: Maps, svc: Service, k: nat)
    requires cfg.Valid() && k > 0 && cfg.HasRoomFor(k)
    requires s.tcp.Some? && s.udp.Some? && DistinctPorts(s.tcp.value, cfg.portMin, cfg.portMax)
    requires Opened(cfg, s, svc, k).1.Ok?
    ensures
      var after := Opened(cfg, s, svc, k).0;
      var (closed, _) := Closed(after, svc);
      && (closed.tcp == s.tcp <==> forall x :: x in s.tcp.value ==> !Contains(s.tcp.value[x], svc.Fqn()))
      && (closed.udp == s.udp <==>
          && (forall x :: x in s.udp.value ==> !Contains(s.udp.value[x], svc.Fqn()))
          && (forall x :: BlockKey(x, SearchStart(cfg, s.tcp.value, k), k) ==> x !in s.udp.value))
  {
    OpenIsExact(cfg, s, svc, k);
    var start := SearchStart(cfg, s.tcp.value, k);
    AddedIsNotEmpty(s.tcp.value, svc, start, k);
    AddedIsNotEmpty(s.udp.value, svc, start, k);
    AddThenRemove(s.tcp.value, svc, start, k);
    AddThenRemove(s.udp.value, svc, start, k);
  }

  lemma AddedIsNotEmpty(data: Data, svc: Service, start: int, k: nat)
    requires 0 <= start && 0 < k && start + k <= 0x1_0000
    ensures Decimal(start) in MergePatch(data, Entries(svc, start, k))
    ensures MergePatch(data, Entries(svc, start, k))[Decimal(start)] == svc.Entry(start)
  {
    EntriesValue(svc, start, k, start);
  }

  /**
    An entry of the UDP map alone, at a port the search of the TCP map returns, is overwritten by
    opening and gone after closing. Such a map exists for every TCP map with room for a block.
   */
  lemma {:induction false} UdpEntryIsLost(cfg: Config, tcp: Data, svc: Service, k: nat, value: string) returns (udp: Data)
    requires cfg.Valid() && k > 0 && cfg.HasRoomFor(k)
    requires DistinctPorts(tcp, cfg.portMin, cfg.portMax) && BlockAvailable(cfg, tcp, k)
    ensures SearchStart(cfg, tcp, k) >= 0
    ensures
      var key := Decimal(SearchStart(cfg, tcp, k));
      var after := Opened(cfg, Maps(Some(tcp), Some(udp)), svc, k).0;
      && key !in tcp && key in udp && udp[key] == value
      && after.udp.Some? && key in after.udp.value && after.udp.value[key] == svc.Entry(SearchStart(cfg, tcp, k))
      && Closed(after, svc).0.udp.Some? && key !in Closed(after, svc).0.udp.value
  {
    SearchOfData(cfg, tcp, k);
    var start := SearchStart(cfg, tcp, k);
    udp := map[Decimal(start) := value];
    UnusedKeysAreFresh(cfg, tcp, start, k);
    assert BlockKey(Decimal(start), start, k);
    EntriesValue(svc, start, k, start);
    OwnEntryMatches(svc, start);
    Overwritten(tcp, Entries(svc, start, k), Decimal(start), svc.Fqn());
    Overwritten(udp, Entries(svc, start, k), Decimal(start), svc.Fqn());
    OpenedAt(cfg, Maps(Some(tcp), Some(udp)), start, k, Entries(svc, start, k));
  }

  /** An entry that mentions the service takes the place of any other and leaves none behind. */
  lemma Overwritten(data: Data, entries: Data, key: string, fqn: string)
    requires key in entries && Contains(entries[key], fqn)
    ensures key in MergePatch(data, entries) && MergePatch(data, entries)[key] == entries[key]
    ensures key !in Without(MergePatch(data, entries), fqn)
  {
  }

  /**
    Without the UDP map `open_port` fails after it has written the block to the TCP map, where the
    entries stay, and `close_port` fails after it has taken the service's entries out of the TCP
    map; without the TCP map neither call changes anything.
   */
  lemma {:induction false} MissingMaps(cfg: Config, s: Maps, svc: Service, k: nat)
    requires cfg.Valid() && k > 0 && cfg.HasRoomFor(k)
    ensures s.tcp.None? ==> Opened(cfg, s, svc, k).0 == s && Opened(cfg, s, svc, k).1.Err? && Closed(s, svc).0 == s && Closed(s, svc).1.Err?
    ensures s.tcp.Some? && s.udp.None? && s.tcp.value != map[] ==>
              var (after, r) := Closed(s, svc);
              && r.Err? && after.udp.None? && after.tcp.Some?
              && forall x :: x in after.tcp.value <==> x in s.tcp.value && !Contains(s.tcp.value[x], svc.namespace + "/" + svc.name)
    ensures s.tcp.Some? && s.udp.None? && DistinctPorts(s.tcp.value, cfg.portMin, cfg.portMax) && BlockAvailable(cfg, s.tcp.value, k) ==>
              var (after, r) := Opened(cfg, s, svc, k);
              var start := SearchStart(cfg, s.tcp.value, k);
              && r.Err? && after.udp.None? && after.tcp.Some?
              && (forall x :: x in after.tcp.value <==> x in s.tcp.value || BlockKey(x, start, k))
              && (forall x :: x in s.tcp.value ==> after.tcp.value[x] == s.tcp.value[x] && !BlockKey(x, start, k))
  {
    if s.tcp.Some? && s.udp.None? && DistinctPorts(s.tcp.value, cfg.portMin, cfg.portMax) && BlockAvailable(cfg, s.tcp.value, k) {
      var start := SearchStart(cfg, s.tcp.value, k);
      SearchOfData(cfg, s.tcp.value, k);
      UnusedKeysAreFresh(cfg, s.tcp.value, start, k);
      EntriesKeys(svc, start, k);
    }
  }

  /** A service cannot be closed any more once closing another one has emptied a ConfigMap. */
  lemma SecondCloseFails(s: Maps, first: Service, second: Service)
    requires s.tcp.Some? && s.udp.Some? && s.tcp.value != map[] && s.udp.value != map[]
    ensures Closed(Closed(s, first).0, second).1.Err? <==>
              Without(s.tcp.value, first.Fqn()) == map[] || Without(s.udp.value, first.Fqn()) == map[]
  {
  }
}
