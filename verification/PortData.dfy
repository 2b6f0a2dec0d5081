/**
  The ports recorded in an nginx ConfigMap: keys are decimal ports, values name the service
  (`get_available_ports` and the entries of `open_port`, src/hoprd/hoprd_ingress.rs).
 */
module PortData {
  import opened Wrappers
  import opened Ordering
  import opened PortSearch
  import opened Sets
  import opened Text

  type Data = map<string, string>

  /** The port a key stands for, when it parses and lies in [lo, hi]. */
  function PortOf(key: string, lo: int, hi: int): Option<int> {
    match ParseU16(key)
    case Some(port) => if lo <= port <= hi then Some(port) else None
    case None => None
  }

  /** The in-range ports of a list of keys, in the order of the list. */
  function PortsOf(keys: seq<string>, lo: int, hi: int): seq<int> {
    if keys == [] then []
    else
      match PortOf(keys[0], lo, hi)
      case Some(port) => [port] + PortsOf(keys[1..], lo, hi)
      case None => PortsOf(keys[1..], lo, hi)
  }

  /** `keys` lists every element of `s` once. */
  ghost predicate Enumerates(keys: seq<string>, s: set<string>) {
    && (forall i, j :: 0 <= i < j < |keys| ==> keys[i] != keys[j])
    && (forall x :: x in keys <==> x in s)
  }

  ghost function KeysAt(s: set<string>, lo: int, hi: int, port: int): set<string> {
    set x | x in s && PortOf(x, lo, hi) == Some(port)
  }

  lemma {:induction false} CountPorts(keys: seq<string>, s: set<string>, lo: int, hi: int, port: int)
    requires Enumerates(keys, s)
    ensures multiset(PortsOf(keys, lo, hi))[port] == |KeysAt(s, lo, hi, port)|
  {
    if keys == [] {
      assert KeysAt(s, lo, hi, port) == {};
    } else {
      var rest := s - {keys[0]};
      assert keys == [keys[0]] + keys[1..];
      assert Enumerates(keys[1..], rest);
      CountPorts(keys[1..], rest, lo, hi, port);
      if PortOf(keys[0], lo, hi) == Some(port) {
        assert KeysAt(s, lo, hi, port) == KeysAt(rest, lo, hi, port) + {keys[0]};
      } else {
        assert KeysAt(s, lo, hi, port) == KeysAt(rest, lo, hi, port);
      }
    }
  }

  /** The order in which the keys are read does not matter once the ports are sorted. */
  lemma ScanOrderIrrelevant(a: seq<string>, b: seq<string>, s: set<string>, lo: int, hi: int)
    requires Enumerates(a, s) && Enumerates(b, s)
    ensures Sort(PortsOf(a, lo, hi)) == Sort(PortsOf(b, lo, hi))
  {
    var p, q := PortsOf(a, lo, hi), PortsOf(b, lo, hi);
    forall port ensures multiset(p)[port] == multiset(q)[port] {
      CountPorts(a, s, lo, hi, port);
      CountPorts(b, s, lo, hi, port);
    }
    assert multiset(p) == multiset(q);
    SortCorrect(p);
    SortCorrect(q);
    SortedUnique(Sort(p), Sort(q));
  }

  ghost function Enumeration(s: set<string>): (keys: seq<string>)
    ensures Enumerates(keys, s)
  {
    if s == {} then []
    else
      var x :| x in s;
      [x] + Enumeration(s - {x})
  }

  /** The sorted in-range ports of a ConfigMap's data. */
  ghost function Scan(data: Data, lo: int, hi: int): seq<int> {
    Sort(PortsOf(Enumeration(data.Keys), lo, hi))
  }

  /** No two in-range keys stand for the same port. */
  ghost predicate DistinctPorts(data: Data, lo: int, hi: int) {
    forall x, y :: x in data && y in data && PortOf(x, lo, hi).Some? && PortOf(x, lo, hi) == PortOf(y, lo, hi) ==> x == y
  }

  ghost predicate Used(data: Data, lo: int, hi: int, port: int) {
    exists x :: x in data && PortOf(x, lo, hi) == Some(port)
  }

  /** How often a port occurs in the scan, and that it occurs exactly when it is used. */
  lemma ScanCounts(data: Data, lo: int, hi: int, port: int)
    ensures multiset(Scan(data, lo, hi))[port] == |KeysAt(data.Keys, lo, hi, port)|
    ensures port in Scan(data, lo, hi) <==> Used(data, lo, hi, port)
  {
    var keys := Enumeration(data.Keys);
    SortCorrect(PortsOf(keys, lo, hi));
    CountPorts(keys, data.Keys, lo, hi, port);
    assert port in Scan(data, lo, hi) <==> multiset(Scan(data, lo, hi))[port] > 0;
    if x :| x in data && PortOf(x, lo, hi) == Some(port) {
      assert x in KeysAt(data.Keys, lo, hi, port);
    }
    if |KeysAt(data.Keys, lo, hi, port)| > 0 {
      var x :| x in KeysAt(data.Keys, lo, hi, port);
    }
  }

  lemma ScanDistinct(data: Data, lo: int, hi: int)
    requires DistinctPorts(data, lo, hi)
    ensures forall port :: multiset(Scan(data, lo, hi))[port] <= 1
  {
    forall port ensures multiset(Scan(data, lo, hi))[port] <= 1 {
      ScanCounts(data, lo, hi, port);
      AtMostOne(KeysAt(data.Keys, lo, hi, port));
    }
  }

  lemma {:induction false} ScanFacts(data: Data, lo: int, hi: int)
    ensures Sorted(Scan(data, lo, hi)) && Within(Scan(data, lo, hi), lo, hi)
    ensures forall port :: port in Scan(data, lo, hi) <==> Used(data, lo, hi, port)
    ensures DistinctPorts(data, lo, hi) ==> StrictlySorted(Scan(data, lo, hi))
  {
    var scan := Scan(data, lo, hi);
    SortCorrect(PortsOf(Enumeration(data.Keys), lo, hi));
    forall port ensures port in scan <==> Used(data, lo, hi, port) {
      ScanCounts(data, lo, hi, port);
    }
    forall i | 0 <= i < |scan| ensures lo <= scan[i] <= hi {
      assert scan[i] in scan;
    }
    if DistinctPorts(data, lo, hi) {
      ScanDistinct(data, lo, hi);
      SortedWithoutRepeats(scan);
    }
  }

  /* The block of entries a service receives. */

  /** A Kubernetes object's namespace and name. */
  datatype Service = Service(namespace: string, name: string) {
    /** "namespace/name" */
    function Fqn(): string {
      namespace + "/" + name
    }

    /** "namespace/name:port", the value nginx forwards the port to. */
    function Entry(port: int): string
      requires 0 <= port
    {
      Fqn() + ":" + Decimal(port)
    }

    /** Kubernetes names contain neither '/' nor ':'. */
    predicate WellFormed() {
      && '/' !in namespace && ':' !in namespace
      && '/' !in name && ':' !in name
    }
  }

  /** The entries the loop of `open_port` inserts for ports start, ..., start + k - 1. */
  function Entries(svc: Service, start: int, k: nat): Data {
    if k == 0 then map[]
    else
      var port := Wrap(start + k - 1);
      Entries(svc, start, k - 1)[Decimal(port) := svc.Entry(port)]
  }

  /** `x` is the key of one of the ports start, ..., start + k - 1. */
  ghost predicate BlockKey(x: string, start: int, k: int) {
    exists port :: 0 <= start <= port < start + k && x == Decimal(port)
  }

  lemma BlockKeyGrows(x: string, start: int, k: nat)
    requires 0 <= start
    ensures BlockKey(x, start, k + 1) <==> x == Decimal(start + k) || BlockKey(x, start, k)
  {
    if x == Decimal(start + k) {
      assert 0 <= start <= start + k < start + k + 1 && x == Decimal(start + k);
    }
  }

  /** The last entry of a block. */
  lemma EntriesLast(svc: Service, start: int, k: nat)
    requires 0 <= start && start + k < 0x1_0000
    ensures Entries(svc, start, k + 1) == Entries(svc, start, k)[Decimal(start + k) := svc.Entry(start + k)]
  {
    assert Wrap(start + k) == start + k;
  }

  lemma AddedKey(data: Data, key: string, value: string, x: string)
    ensures x in data[key := value] <==> x in data || x == key
  {
  }

  lemma {:induction false} EntriesGrow(svc: Service, start: int, k: nat, x: string)
    requires 0 <= start && start + k < 0x1_0000
    ensures x in Entries(svc, start, k + 1) <==> x in Entries(svc, start, k) || x == Decimal(start + k)
  {
    EntriesLast(svc, start, k);
    AddedKey(Entries(svc, start, k), Decimal(start + k), svc.Entry(start + k), x);
  }

  lemma NoEntries(svc: Service, start: int, x: string)
    ensures x !in Entries(svc, start, 0) && !BlockKey(x, start, 0)
  {
  }

  lemma {:induction false} DomainGrows(svc: Service, start: int, k: nat, x: string)
    requires 0 <= start && start + k < 0x1_0000 && (x in Entries(svc, start, k) <==> BlockKey(x, start, k))
    ensures x in Entries(svc, start, k + 1) <==> BlockKey(x, start, k + 1)
  {
    BlockKeyGrows(x, start, k);
    EntriesGrow(svc, start, k, x);
  }

  lemma {:induction false} EntriesDomain(svc: Service, start: int, k: nat, x: string)
    requires 0 <= start && start + k <= 0x1_0000
    ensures x in Entries(svc, start, k) <==> BlockKey(x, start, k)
  {
    if k == 0 {
      NoEntries(svc, start, x);
    } else {
      var j := k - 1;
      EntriesDomain(svc, start, j, x);
      DomainGrows(svc, start, j, x);
    }
  }

  lemma KeptValue(data: Data, key: string, value: string, x: string)
    requires x in data && x != key
    ensures x in data[key := value] && data[key := value][x] == data[x]
  {
  }

  lemma {:induction false} LastValue(svc: Service, start: int, k: nat)
    requires 0 <= start && start + k < 0x1_0000
    ensures Decimal(start + k) in Entries(svc, start, k + 1) && Entries(svc, start, k + 1)[Decimal(start + k)] == svc.Entry(start + k)
  {
    EntriesLast(svc, start, k);
  }

  lemma {:induction false} EarlierValue(svc: Service, start: int, k: nat, port: int)
    requires 0 <= start <= port < start + k < 0x1_0000 && Decimal(port) in Entries(svc, start, k)
    ensures Decimal(port) in Entries(svc, start, k + 1) && Entries(svc, start, k + 1)[Decimal(port)] == Entries(svc, start, k)[Decimal(port)]
  {
    EntriesLast(svc, start, k);
    DecimalInjective(port, start + k);
    KeptValue(Entries(svc, start, k), Decimal(start + k), svc.Entry(start + k), Decimal(port));
  }

  lemma {:induction false} EntriesValue(svc: Service, start: int, k: nat, port: int)
    requires 0 <= start <= port < start + k <= 0x1_0000
    ensures Decimal(port) in Entries(svc, start, k) && Entries(svc, start, k)[Decimal(port)] == svc.Entry(port)
  {
    if port == start + k - 1 {
      LastValue(svc, start, k - 1);
    } else {
      EntriesValue(svc, start, k - 1, port);
      EarlierValue(svc, start, k - 1, port);
    }
  }

  lemma EntriesNames(svc: Service, start: int, k: nat)
    requires 0 <= start && start + k <= 0x1_0000
    ensures forall x :: x in Entries(svc, start, k) <==> BlockKey(x, start, k)
  {
    forall x ensures x in Entries(svc, start, k) <==> BlockKey(x, start, k) {
      EntriesDomain(svc, start, k, x);
    }
  }

  lemma EntriesKeys(svc: Service, start: int, k: nat)
    requires 0 <= start && start + k <= 0x1_0000
    ensures forall x :: x in Entries(svc, start, k) <==> BlockKey(x, start, k)
    ensures forall port :: start <= port < start + k ==>
              && Decimal(port) in Entries(svc, start, k)
              && Entries(svc, start, k)[Decimal(port)] == svc.namespace + "/" + svc.name + ":" + Decimal(port)
  {
    EntriesNames(svc, start, k);
    forall port | start <= port < start + k
      ensures Decimal(port) in Entries(svc, start, k)
      ensures Entries(svc, start, k)[Decimal(port)] == svc.namespace + "/" + svc.name + ":" + Decimal(port)
    {
      EntriesValue(svc, start, k, port);
    }
  }

  /** A port whose canonical key is present is used. */
  lemma CanonicalKeyIsUsed(data: Data, lo: int, hi: int, port: int)
    requires 0 <= lo <= port <= hi < 0x1_0000 && Decimal(port) in data
    ensures Used(data, lo, hi, port)
  {
    ParseDecimal(port, 0x1_0000);
    assert PortOf(Decimal(port), lo, hi) == Some(port);
  }
}
