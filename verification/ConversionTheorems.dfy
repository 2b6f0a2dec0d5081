/**
  What the conversions between v1alpha2 and v1alpha3 preserve, and what the webhook answers for a
  list of objects (src/webhook_server.rs:188-447).
 */
module ConversionTheorems {
  import opened Wrappers
  import opened Json
  import opened Webhook

  /* Specs. */

  /** A v1alpha3 spec after a round trip: the allocation is in the service, the v1alpha2 fields are gone. */
  function NormalSpecV3(kind: Kind, spec: Fields): Fields {
    match kind
    case ClusterHoprd => WithServicePorts(spec - {PORTS_ALLOCATION, SUPPORTED_RELEASE, FORCE_IDENTITY_NAME})
    case Hoprd => WithServicePorts(spec - {PORTS_ALLOCATION, SUPPORTED_RELEASE})
    case IdentityHoprd =>
      (spec - {NATIVE_ADDRESS, PEER_ID})[NODE_ADDRESS := OrDefault(spec, NODE_ADDRESS, Text("unknown"))]
    case IdentityPool => spec
  }

  function WithServicePorts(spec: Fields): Fields {
    if HasService(spec) then
      var service := spec[SERVICE].fields;
      spec[SERVICE := Object(service[PORTS_ALLOCATION := OrDefault(service, PORTS_ALLOCATION, Number("10"))])]
    else spec
  }

  lemma SpecDownUp(kind: Kind, spec: Fields)
    ensures SpecUp(kind, SpecDown(kind, spec)) == NormalSpecV3(kind, spec)
  {
    SpecKeysDiffer();
    if kind != IdentityHoprd && kind != IdentityPool && HasService(spec) {
      var service := spec[SERVICE].fields;
      assert SpecDown(kind, spec)[SERVICE].fields == service - {PORTS_ALLOCATION};
      var ports := OrDefault(service, PORTS_ALLOCATION, Number("10"));
      assert (service - {PORTS_ALLOCATION})[PORTS_ALLOCATION := ports] == service[PORTS_ALLOCATION := ports];
    }
    assert SpecUp(kind, SpecDown(kind, spec)) == NormalSpecV3(kind, spec);
  }

  /** A v1alpha2 spec after a round trip: the allocation is in the spec, and the fields v1alpha3 lacks have fixed values. */
  function NormalSpecV2(kind: Kind, spec: Fields): Fields {
    match kind
    case ClusterHoprd => WithSpecPorts(spec)[SUPPORTED_RELEASE := Text("kaunas")][FORCE_IDENTITY_NAME := Bool(true)]
    case Hoprd => WithSpecPorts(spec)[SUPPORTED_RELEASE := Text("kaunas")]
    case IdentityHoprd =>
      (spec - {NODE_ADDRESS})[NATIVE_ADDRESS := OrDefault(spec, NATIVE_ADDRESS, Text("lost"))][PEER_ID := Text("unknown")]
    case IdentityPool => spec
  }

  /** Without a service object there is no place for the allocation, and it is lost. */
  function WithSpecPorts(spec: Fields): Fields {
    if HasService(spec) then
      spec[SERVICE := Object(spec[SERVICE].fields - {PORTS_ALLOCATION})]
          [PORTS_ALLOCATION := OrDefault(spec, PORTS_ALLOCATION, Number("10"))]
    else spec - {PORTS_ALLOCATION}
  }

  lemma SpecUpDown(kind: Kind, spec: Fields)
    ensures SpecDown(kind, SpecUp(kind, spec)) == NormalSpecV2(kind, spec)
  {
    SpecKeysDiffer();
    if kind != IdentityHoprd && kind != IdentityPool && HasService(spec) {
      var service := spec[SERVICE].fields;
      var ports := OrDefault(spec, PORTS_ALLOCATION, Number("10"));
      assert SpecUp(kind, spec)[SERVICE].fields == service[PORTS_ALLOCATION := ports];
      assert service[PORTS_ALLOCATION := ports] - {PORTS_ALLOCATION} == service - {PORTS_ALLOCATION};
    }
    assert SpecDown(kind, SpecUp(kind, spec)) == NormalSpecV2(kind, spec);
  }

  /* Objects. */

  const V2 := "hoprnet.org/v1alpha2"
  const V3 := "hoprnet.org/v1alpha3"

  predicate Supported(version: string) {
    version == V2 || version == V3
  }

  /** A null value becomes an object when its version is written; any other value that is not an object stops the handler. */
  predicate Indexable(v: Value) {
    v.Object? || v.Null?
  }

  function Stamped(v: Value, version: string): Value
    requires Indexable(v)
  {
    if v.Null? then Object(map[API_VERSION := Text(version)]) else Set(v, API_VERSION, Text(version))
  }

  function Converted(checksum: Checksum, version: string, v: Value): Outcome
    requires Supported(version)
  {
    if version == V2 then Down(checksum, v) else Up(v)
  }

  lemma ConvertedKeepsShape(checksum: Checksum, version: string, v: Value)
    requires Supported(version)
    ensures Converted(checksum, version, v).value.Object? == v.Object?
    ensures !v.Object? ==> Converted(checksum, version, v).value == v
  {
  }

  /** What the webhook returns for one object; errors of the conversion leave no trace in it. */
  function Answered(checksum: Checksum, version: string, v: Value): Value
    requires Supported(version) && Indexable(v)
  {
    ConvertedKeepsShape(checksum, version, v);
    Stamped(Converted(checksum, version, v).value, version)
  }

  /** The kind has a spec the conversion rewrites. */
  predicate HasSpec(v: Value) {
    KindOf(v).Ok? && KindOf(v).value != IdentityPool && Get(v, SPEC).Some? && Get(v, SPEC).value.Object?
  }

  /** The conversion from v1alpha2 to v1alpha3 reaches an existing status. */
  predicate ReachesStatus(v: Value) {
    && KindOf(v).Ok? && (KindOf(v).value != IdentityPool ==> HasSpec(v))
    && Get(v, STATUS).Some? && Get(v, STATUS).value.Object?
  }

  /** The object with a new spec and a new status, where there is one, and a new version. */
  function Rewritten(v: Value, spec: Option<Fields>, status: Option<Fields>, version: string): Value
    requires v.Object?
  {
    var a := if spec.Some? then Set(v, SPEC, Object(spec.value)) else v;
    var b := if status.Some? then Set(a, STATUS, Object(status.value)) else a;
    Set(b, API_VERSION, Text(version))
  }

  lemma RewrittenFields(v: Value, spec: Option<Fields>, status: Option<Fields>, version: string)
    requires v.Object?
    ensures
      var w := Rewritten(v, spec, status, version);
      && Get(w, KIND) == Get(v, KIND) && Get(w, METADATA) == Get(v, METADATA)
      && Get(w, SPEC) == (if spec.Some? then Some(Object(spec.value)) else Get(v, SPEC))
      && Get(w, STATUS) == (if status.Some? then Some(Object(status.value)) else Get(v, STATUS))
      && Get(w, API_VERSION) == Some(Text(version))
  {
    RootKeysDiffer();
  }

  /** A later rewriting of the same parts replaces an earlier one. */
  lemma RewrittenTwice(v: Value, spec: Option<Fields>, status: Option<Fields>, version: string,
                       spec': Option<Fields>, status': Option<Fields>, version': string)
    requires v.Object?
    ensures Rewritten(Rewritten(v, spec, status, version), spec', status', version') ==
            Rewritten(v, if spec'.Some? then spec' else spec, if status'.Some? then status' else status, version')
  {
    RootKeysDiffer();
    var a := Rewritten(Rewritten(v, spec, status, version), spec', status', version').fields;
    var b := Rewritten(v, if spec'.Some? then spec' else spec, if status'.Some? then status' else status, version').fields;
    forall k ensures k in a <==> k in b {
    }
    forall k | k in a ensures a[k] == b[k] {
    }
    assert a == b;
  }

  function SpecOf(v: Value): Fields
    requires HasSpec(v)
  {
    Get(v, SPEC).value.fields
  }

  function StatusOf(v: Value): Fields
    requires ReachesStatus(v)
  {
    Get(v, STATUS).value.fields
  }

  function StatusV3(v: Value): Option<Fields> {
    if ReachesStatus(v) then Some(StatusOf(v)[OBSERVED_GENERATION := GenerationOf(v)] - {CHECKSUM}) else None
  }

  /** The status of the version v1alpha2, whose checksum is that of the given spec. */
  function StatusV2(checksum: Checksum, v: Value, spec: Option<Fields>): Option<Fields> {
    if ReachesStatus(v) && Get(v, SPEC).Some? then
      var hashed := if spec.Some? then Object(spec.value) else Get(v, SPEC).value;
      Some(StatusOf(v)[CHECKSUM := Text(checksum(hashed))] - {OBSERVED_GENERATION})
    else None
  }

  function SpecV2(v: Value): Option<Fields> {
    if HasSpec(v) then Some(SpecDown(KindOf(v).value, SpecOf(v))) else None
  }

  function SpecV3(v: Value): Option<Fields> {
    if HasSpec(v) then Some(SpecUp(KindOf(v).value, SpecOf(v))) else None
  }

  lemma UpRewrites(checksum: Checksum, v: Value)
    requires v.Object?
    ensures Answered(checksum, V3, v) == Rewritten(v, SpecV3(v), StatusV3(v), V3)
  {
    RootKeysDiffer();
    assert V3 != V2 by {
      assert V3[|V3| - 1] != V2[|V2| - 1];
    }
  }

  lemma DownRewrites(checksum: Checksum, v: Value)
    requires v.Object?
    ensures Answered(checksum, V2, v) == Rewritten(v, SpecV2(v), StatusV2(checksum, v, SpecV2(v)), V2)
  {
    RootKeysDiffer();
  }

  /** What a rewriting keeps of the facts the conversions look at. */
  lemma RewrittenKeeps(v: Value, spec: Option<Fields>, status: Option<Fields>, version: string)
    requires v.Object? && (spec.Some? ==> HasSpec(v)) && (status.Some? ==> ReachesStatus(v))
    ensures
      var w := Rewritten(v, spec, status, version);
      && KindOf(w) == KindOf(v) && GenerationOf(w) == GenerationOf(v)
      && HasSpec(w) == HasSpec(v) && ReachesStatus(w) == ReachesStatus(v)
      && (HasSpec(v) ==> SpecOf(w) == if spec.Some? then spec.value else SpecOf(v))
      && (ReachesStatus(v) ==> StatusOf(w) == if status.Some? then status.value else StatusOf(v))
      && Get(w, SPEC) == (if spec.Some? then Some(Object(spec.value)) else Get(v, SPEC))
  {
    RewrittenFields(v, spec, status, version);
  }

  /* Round trips of one object. */

  function NormalSpec3(v: Value): Option<Fields> {
    if HasSpec(v) then Some(NormalSpecV3(KindOf(v).value, SpecOf(v))) else None
  }

  function NormalSpec2(v: Value): Option<Fields> {
    if HasSpec(v) then Some(NormalSpecV2(KindOf(v).value, SpecOf(v))) else None
  }

  /** A v1alpha3 object with the placeholders a round trip fills in. */
  function NormalV3(v: Value): Value
    requires v.Object?
  {
    Rewritten(v, NormalSpec3(v), StatusV3(v), V3)
  }

  /** A v1alpha2 object with the placeholders a round trip fills in; a pool without a spec keeps the status of v1alpha3. */
  function NormalV2(checksum: Checksum, v: Value): Value
    requires v.Object?
  {
    Rewritten(v, NormalSpec2(v), if Get(v, SPEC).Some? then StatusV2(checksum, v, NormalSpec2(v)) else StatusV3(v), V2)
  }

  /** From v1alpha3 to v1alpha2 and back changes an object only by its placeholders. */
  lemma {:induction false} V3RoundTrip(checksum: Checksum, v: Value)
    requires v.Object?
    ensures Answered(checksum, V3, Answered(checksum, V2, v)) == NormalV3(v)
  {
    var spec, status := SpecV2(v), StatusV2(checksum, v, SpecV2(v));
    DownRewrites(checksum, v);
    var w := Rewritten(v, spec, status, V2);
    UpRewrites(checksum, w);
    RewrittenKeeps(v, spec, status, V2);
    RewrittenTwice(v, spec, status, V2, SpecV3(w), StatusV3(w), V3);
    if HasSpec(v) {
      SpecDownUp(KindOf(v).value, SpecOf(v));
    }
    SpecKeysDiffer();
    if ReachesStatus(v) {
      assert StatusV3(w).value == StatusV3(v).value;
    }
  }

  lemma {:induction false} V2RoundTrip(checksum: Checksum, v: Value)
    requires v.Object?
    ensures Answered(checksum, V2, Answered(checksum, V3, v)) == NormalV2(checksum, v)
  {
    var spec, status := SpecV3(v), StatusV3(v);
    UpRewrites(checksum, v);
    var w := Rewritten(v, spec, status, V3);
    DownRewrites(checksum, w);
    RewrittenKeeps(v, spec, status, V3);
    RewrittenTwice(v, spec, status, V3, SpecV2(w), StatusV2(checksum, w, SpecV2(w)), V2);
    if HasSpec(v) {
      SpecUpDown(KindOf(v).value, SpecOf(v));
    }
    assert SpecV2(w) == NormalSpec2(v);
    SpecKeysDiffer();
    if ReachesStatus(v) && Get(v, SPEC).Some? {
      assert StatusV2(checksum, w, SpecV2(w)).value == StatusV2(checksum, v, NormalSpec2(v)).value;
    }
  }

  lemma RewrittenIsSame(v: Value, spec: Option<Fields>, status: Option<Fields>, version: string)
    requires v.Object? && (spec.Some? ==> HasSpec(v)) && (status.Some? ==> ReachesStatus(v))
    ensures Rewritten(v, spec, status, version) == v <==>
              && Get(v, API_VERSION) == Some(Text(version))
              && (spec.Some? ==> SpecOf(v) == spec.value)
              && (status.Some? ==> StatusOf(v) == status.value)
  {
    RewrittenFields(v, spec, status, version);
    var w := Rewritten(v, spec, status, version);
    if && Get(v, API_VERSION) == Some(Text(version))
       && (spec.Some? ==> SpecOf(v) == spec.value)
       && (status.Some? ==> StatusOf(v) == status.value)
    {
      assert w.fields == v.fields;
    }
  }

  /* Which objects a round trip leaves alone. */

  predicate CanonicalSpecV3(kind: Kind, spec: Fields) {
    match kind
    case ClusterHoprd =>
      && PORTS_ALLOCATION !in spec && SUPPORTED_RELEASE !in spec && FORCE_IDENTITY_NAME !in spec
      && (HasService(spec) ==> PORTS_ALLOCATION in spec[SERVICE].fields)
    case Hoprd =>
      && PORTS_ALLOCATION !in spec && SUPPORTED_RELEASE !in spec
      && (HasService(spec) ==> PORTS_ALLOCATION in spec[SERVICE].fields)
    case IdentityHoprd => NATIVE_ADDRESS !in spec && PEER_ID !in spec && NODE_ADDRESS in spec
    case IdentityPool => true
  }

  predicate Holds(fields: Fields, key: string, v: Value) {
    key in fields && fields[key] == v
  }

  predicate CanonicalSpecV2(kind: Kind, spec: Fields) {
    match kind
    case ClusterHoprd => CanonicalPortsV2(spec) && Holds(spec, SUPPORTED_RELEASE, Text("kaunas")) && Holds(spec, FORCE_IDENTITY_NAME, Bool(true))
    case Hoprd => CanonicalPortsV2(spec) && Holds(spec, SUPPORTED_RELEASE, Text("kaunas"))
    case IdentityHoprd => NODE_ADDRESS !in spec && NATIVE_ADDRESS in spec && Holds(spec, PEER_ID, Text("unknown"))
    case IdentityPool => true
  }

  /** The allocation is in the spec exactly when there is a service, and not in the service. */
  predicate CanonicalPortsV2(spec: Fields) {
    if HasService(spec) then PORTS_ALLOCATION in spec && PORTS_ALLOCATION !in spec[SERVICE].fields
    else PORTS_ALLOCATION !in spec
  }

  lemma ServicePortsSame(spec: Fields)
    ensures WithServicePorts(spec) == spec <==> (HasService(spec) ==> PORTS_ALLOCATION in spec[SERVICE].fields)
  {
    if HasService(spec) {
      var service := spec[SERVICE].fields;
      assert WithServicePorts(spec)[SERVICE].fields == service[PORTS_ALLOCATION := OrDefault(service, PORTS_ALLOCATION, Number("10"))];
      if PORTS_ALLOCATION in service {
        assert service[PORTS_ALLOCATION := service[PORTS_ALLOCATION]] == service;
        assert WithServicePorts(spec) == spec;
      }
    }
  }

  lemma SpecPortsSame(spec: Fields)
    ensures WithSpecPorts(spec) == spec <==> CanonicalPortsV2(spec)
  {
    SpecKeysDiffer();
    if HasService(spec) {
      var service := spec[SERVICE].fields;
      assert WithSpecPorts(spec)[SERVICE].fields == service - {PORTS_ALLOCATION};
      assert PORTS_ALLOCATION in WithSpecPorts(spec);
      if CanonicalPortsV2(spec) {
        assert service - {PORTS_ALLOCATION} == service;
        assert WithSpecPorts(spec) == spec;
      }
    } else if PORTS_ALLOCATION !in spec {
      assert WithSpecPorts(spec) == spec;
    }
  }

  lemma NormalSpecV3Same(kind: Kind, spec: Fields)
    ensures NormalSpecV3(kind, spec) == spec <==> CanonicalSpecV3(kind, spec)
  {
    SpecKeysDiffer();
    var normal := NormalSpecV3(kind, spec);
    match kind
    case ClusterHoprd =>
      var rest := spec - {PORTS_ALLOCATION, SUPPORTED_RELEASE, FORCE_IDENTITY_NAME};
      assert PORTS_ALLOCATION !in normal && SUPPORTED_RELEASE !in normal && FORCE_IDENTITY_NAME !in normal;
      if PORTS_ALLOCATION !in spec && SUPPORTED_RELEASE !in spec && FORCE_IDENTITY_NAME !in spec {
        assert rest == spec;
        ServicePortsSame(spec);
      }
    case Hoprd =>
      var rest := spec - {PORTS_ALLOCATION, SUPPORTED_RELEASE};
      assert PORTS_ALLOCATION !in normal && SUPPORTED_RELEASE !in normal;
      if PORTS_ALLOCATION !in spec && SUPPORTED_RELEASE !in spec {
        assert rest == spec;
        ServicePortsSame(spec);
      }
    case IdentityHoprd =>
      assert NATIVE_ADDRESS !in normal && PEER_ID !in normal && NODE_ADDRESS in normal;
      if CanonicalSpecV3(kind, spec) {
        assert normal == spec;
      }
    case IdentityPool =>
  }

  lemma NormalSpecV2Same(kind: Kind, spec: Fields)
    ensures NormalSpecV2(kind, spec) == spec <==> CanonicalSpecV2(kind, spec)
  {
    SpecKeysDiffer();
    var normal := NormalSpecV2(kind, spec);
    SpecPortsSame(spec);
    match kind
    case ClusterHoprd =>
      assert Holds(normal, SUPPORTED_RELEASE, Text("kaunas")) && Holds(normal, FORCE_IDENTITY_NAME, Bool(true));
      if CanonicalSpecV2(kind, spec) {
        assert normal == spec;
      }
      if normal == spec {
        assert WithSpecPorts(spec) == spec;
      }
    case Hoprd =>
      assert Holds(normal, SUPPORTED_RELEASE, Text("kaunas"));
      if CanonicalSpecV2(kind, spec) {
        assert normal == spec;
      }
      if normal == spec {
        assert WithSpecPorts(spec) == spec;
      }
    case IdentityHoprd =>
      assert NODE_ADDRESS !in normal && NATIVE_ADDRESS in normal && Holds(normal, PEER_ID, Text("unknown"));
      if CanonicalSpecV2(kind, spec) {
        assert normal == spec;
      }
    case IdentityPool =>
  }

  predicate CanonicalV3(v: Value) {
    && Get(v, API_VERSION) == Some(Text(V3))
    && (HasSpec(v) ==> CanonicalSpecV3(KindOf(v).value, SpecOf(v)))
    && (ReachesStatus(v) ==> Holds(StatusOf(v), OBSERVED_GENERATION, GenerationOf(v)) && CHECKSUM !in StatusOf(v))
  }

  predicate CanonicalV2(checksum: Checksum, v: Value) {
    && Get(v, API_VERSION) == Some(Text(V2))
    && (HasSpec(v) ==> CanonicalSpecV2(KindOf(v).value, SpecOf(v)))
    && (ReachesStatus(v) ==>
         if Get(v, SPEC).Some? then
           Holds(StatusOf(v), CHECKSUM, Text(checksum(Get(v, SPEC).value))) && OBSERVED_GENERATION !in StatusOf(v)
         else Holds(StatusOf(v), OBSERVED_GENERATION, GenerationOf(v)) && CHECKSUM !in StatusOf(v))
  }

  lemma StampedSame(status: Fields, added: string, value: Value, removed: string)
    requires added != removed
    ensures status[added := value] - {removed} == status <==> Holds(status, added, value) && removed !in status
  {
    var stamped := status[added := value] - {removed};
    assert added in stamped && stamped[added] == value && removed !in stamped;
    if Holds(status, added, value) && removed !in status {
      assert stamped == status;
    }
  }

  /** The round trip of a v1alpha3 object gives the object back exactly when it has no v1alpha2 field and misses no v1alpha3 field. */
  lemma {:induction false} V3RoundTripExact(checksum: Checksum, v: Value)
    requires v.Object?
    ensures Answered(checksum, V3, Answered(checksum, V2, v)) == v <==> CanonicalV3(v)
  {
    V3RoundTrip(checksum, v);
    RewrittenIsSame(v, NormalSpec3(v), StatusV3(v), V3);
    SpecKeysDiffer();
    if HasSpec(v) {
      NormalSpecV3Same(KindOf(v).value, SpecOf(v));
    }
    if ReachesStatus(v) {
      StampedSame(StatusOf(v), OBSERVED_GENERATION, GenerationOf(v), CHECKSUM);
    }
  }

  lemma {:induction false} V2RoundTripExact(checksum: Checksum, v: Value)
    requires v.Object?
    ensures Answered(checksum, V2, Answered(checksum, V3, v)) == v <==> CanonicalV2(checksum, v)
  {
    V2RoundTrip(checksum, v);
    var status := if Get(v, SPEC).Some? then StatusV2(checksum, v, NormalSpec2(v)) else StatusV3(v);
    RewrittenIsSame(v, NormalSpec2(v), status, V2);
    SpecKeysDiffer();
    if HasSpec(v) {
      NormalSpecV2Same(KindOf(v).value, SpecOf(v));
    }
    if ReachesStatus(v) {
      StampedSame(StatusOf(v), OBSERVED_GENERATION, GenerationOf(v), CHECKSUM);
      if Get(v, SPEC).Some? {
        StampedSame(StatusOf(v), CHECKSUM, Text(checksum(Get(v, SPEC).value)), OBSERVED_GENERATION);
      }
    }
  }

  /** An allocation of a v1alpha3 spec without a service object, which no v1alpha2 object can carry through. */
  predicate StrayPorts(v: Value) {
    HasSpec(v) && KindOf(v).value != IdentityHoprd && !HasService(SpecOf(v)) && PORTS_ALLOCATION in SpecOf(v)
  }

  /** A pool without a spec, whose status is changed in one direction only. */
  predicate HalfConverted(v: Value) {
    && ReachesStatus(v) && Get(v, SPEC).None?
    && !(Holds(StatusOf(v), OBSERVED_GENERATION, GenerationOf(v)) && CHECKSUM !in StatusOf(v))
  }

  lemma SpecDownIsCanonical(kind: Kind, spec: Fields)
    ensures CanonicalSpecV2(kind, SpecDown(kind, spec)) <==>
              !((kind == ClusterHoprd || kind == Hoprd) && !HasService(spec) && PORTS_ALLOCATION in spec)
  {
    SpecKeysDiffer();
  }

  /** Converting down, up and down again equals converting down once, with exactly two exceptions. */
  lemma {:induction false} DownUpDown(checksum: Checksum, v: Value)
    requires v.Object?
    ensures
      var down := Answered(checksum, V2, v);
      Answered(checksum, V2, Answered(checksum, V3, down)) == down <==> !StrayPorts(v) && !HalfConverted(v)
  {
    var spec, status := SpecV2(v), StatusV2(checksum, v, SpecV2(v));
    DownRewrites(checksum, v);
    RewrittenKeeps(v, spec, status, V2);
    RewrittenFields(v, spec, status, V2);
    var down := Rewritten(v, spec, status, V2);
    V2RoundTripExact(checksum, down);
    SpecKeysDiffer();
    if HasSpec(v) {
      SpecDownIsCanonical(KindOf(v).value, SpecOf(v));
    }
  }

  /* The list of objects in one request. */

  datatype Response = Response(uid: string, objects: seq<Value>, status: string, message: Option<string>)

  predicate AllIndexable(objects: seq<Value>) {
    forall i :: 0 <= i < |objects| ==> Indexable(objects[i])
  }

  function AnswerAll(checksum: Checksum, version: string, objects: seq<Value>): (r: seq<Value>)
    requires Supported(version) && AllIndexable(objects)
    ensures |r| == |objects|
    ensures forall i :: 0 <= i < |r| ==> r[i] == Answered(checksum, version, objects[i])
  {
    if objects == [] then []
    else
      var last := |objects| - 1;
      AnswerAll(checksum, version, objects[..last]) + [Answered(checksum, version, objects[last])]
  }

  function UnsupportedVersion(version: string): string {
    "Unsupported desired API version: " + version
  }

  /** The handler's response; None where it stops on an object it cannot write a version into. */
  function Reply(checksum: Checksum, uid: string, version: string, objects: seq<Value>): Option<Response> {
    if !Supported(version) then
      if objects == [] then Some(Response(uid, [], "Success", None))
      else Some(Response(uid, [], "Failure", Some(UnsupportedVersion(version))))
    else if AllIndexable(objects) then Some(Response(uid, AnswerAll(checksum, version, objects), "Success", None))
    else None
  }

  lemma OneMore(checksum: Checksum, version: string, objects: seq<Value>, i: nat)
    requires Supported(version) && i < |objects| && AllIndexable(objects[..i]) && Indexable(objects[i])
    ensures AllIndexable(objects[..i + 1])
    ensures AnswerAll(checksum, version, objects[..i + 1]) ==
            AnswerAll(checksum, version, objects[..i]) + [Answered(checksum, version, objects[i])]
  {
    assert objects[..i + 1][..i] == objects[..i];
  }

  method Convert(checksum: Checksum, uid: string, version: string, objects: seq<Value>) returns (r: Option<Response>)
    ensures r == Reply(checksum, uid, version, objects)
  {
    var response := Response(uid, [], "Success", None);
    for i := 0 to |objects|
      invariant Supported(version) ==>
          AllIndexable(objects[..i]) && response == Response(uid, AnswerAll(checksum, version, objects[..i]), "Success", None)
      invariant !Supported(version) ==> Some(response) == Reply(checksum, uid, version, objects[..i])
    {
      var resource := new Document(objects[i]);
      if version == V2 {
        var ignored := resource.ConvertDown(checksum);
      } else if version == V3 {
        var ignored := resource.ConvertUp();
      } else {
        response := response.(status := "Failure", message := Some(UnsupportedVersion(version)));
        continue;
      }
      ConvertedKeepsShape(checksum, version, objects[i]);
      if !Indexable(resource.value) {
        return None;
      }
      OneMore(checksum, version, objects, i);
      response := response.(objects := response.objects + [Stamped(resource.value, version)]);
    }
    assert objects[..|objects|] == objects;
    return Some(response);
  }

  predicate AllObjects(objects: seq<Value>) {
    forall i :: 0 <= i < |objects| ==> objects[i].Object?
  }

  predicate AllCanonicalV3(objects: seq<Value>) {
    forall i :: 0 <= i < |objects| ==> CanonicalV3(objects[i])
  }

  /**
    A list of v1alpha3 objects converted down and up again keeps its length and its order; every
    object changes only by its placeholders, and the list comes back unchanged exactly when all
    its objects are complete v1alpha3 objects.
   */
  lemma {:induction false} BatchRoundTrip(checksum: Checksum, uid: string, objects: seq<Value>)
    requires AllObjects(objects)
    ensures
      var down := Reply(checksum, uid, V2, objects);
      && down.Some?
      && var back := Reply(checksum, uid, V3, down.value.objects);
         && back.Some? && |back.value.objects| == |objects|
         && (forall i :: 0 <= i < |objects| ==> back.value.objects[i] == NormalV3(objects[i]))
         && (back.value.objects == objects <==> AllCanonicalV3(objects))
  {
    var down := Reply(checksum, uid, V2, objects).value.objects;
    var back := Reply(checksum, uid, V3, down).value.objects;
    forall i | 0 <= i < |objects|
      ensures back[i] == NormalV3(objects[i]) && (back[i] == objects[i] <==> CanonicalV3(objects[i]))
    {
      V3RoundTrip(checksum, objects[i]);
      V3RoundTripExact(checksum, objects[i]);
    }
  }

  /**
    The response reports success whatever happens to the objects: an object whose conversion fails
    is returned under the new version like any other, and unchanged but for it when its kind is
    not one of the four.
   */
  lemma {:induction false} FailuresAreNotReported(checksum: Checksum, uid: string, version: string, objects: seq<Value>, i: nat)
    requires Supported(version) && AllIndexable(objects) && i < |objects|
    requires Converted(checksum, version, objects[i]).error.Some?
    ensures
      var reply := Reply(checksum, uid, version, objects);
      && reply.Some? && reply.value.status == "Success" && reply.value.message.None?
      && |reply.value.objects| == |objects|
      && Get(reply.value.objects[i], API_VERSION) == Some(Text(version))
      && (KindOf(objects[i]).Err? ==> reply.value.objects[i] == Stamped(objects[i], version))
  {
    ConvertedKeepsShape(checksum, version, objects[i]);
  }
}
