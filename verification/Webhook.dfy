/**
  The conversion of stored objects between the API versions v1alpha2 and v1alpha3
  (src/webhook_server.rs:133-163, 188-447). The hash of a spec is a parameter.
 */
module Webhook {
  import opened Wrappers
  import opened Json

  datatype Kind = ClusterHoprd | Hoprd | IdentityHoprd | IdentityPool

  datatype Error =
    | MissingKind | UnsupportedKind(kind: string)
    | MissingSpec | SpecNotObject | MissingStatus | StatusNotObject

  type Checksum = Value -> string

  function KindOf(v: Value): Result<Kind, Error> {
    match Get(v, KIND)
    case Some(Text(kind)) =>
      if kind == "ClusterHoprd" then Ok(ClusterHoprd)
      else if kind == "Hoprd" then Ok(Hoprd)
      else if kind == "IdentityHoprd" then Ok(IdentityHoprd)
      else if kind == "IdentityPool" then Ok(IdentityPool)
      else Err(UnsupportedKind(kind))
    case _ => Err(MissingKind)
  }

  /* What the conversions do, as functions. */

  function OrDefault(fields: Fields, key: string, default: Value): Value {
    if key in fields then fields[key] else default
  }

  predicate HasService(spec: Fields) {
    SERVICE in spec && spec[SERVICE].Object?
  }

  /** The allocation moves from the service to the spec; 10 stands for a missing one. */
  function PortsDown(spec: Fields): Fields {
    if HasService(spec) then
      var service := spec[SERVICE].fields;
      spec[SERVICE := Object(service - {PORTS_ALLOCATION})]
          [PORTS_ALLOCATION := OrDefault(service, PORTS_ALLOCATION, Number("10"))]
    else spec
  }

  /** The allocation moves from the spec to the service, if there is one. */
  function PortsUp(spec: Fields): Fields {
    var rest := spec - {PORTS_ALLOCATION};
    if HasService(rest) then
      rest[SERVICE := Object(rest[SERVICE].fields[PORTS_ALLOCATION := OrDefault(spec, PORTS_ALLOCATION, Number("10"))])]
    else rest
  }

  function SpecDown(kind: Kind, spec: Fields): Fields {
    match kind
    case ClusterHoprd => PortsDown(spec)[SUPPORTED_RELEASE := Text("kaunas")][FORCE_IDENTITY_NAME := Bool(true)]
    case Hoprd => PortsDown(spec)[SUPPORTED_RELEASE := Text("kaunas")]
    case IdentityHoprd =>
      (spec - {NODE_ADDRESS})[NATIVE_ADDRESS := OrDefault(spec, NODE_ADDRESS, Text("unknown"))][PEER_ID := Text("unknown")]
    case IdentityPool => spec
  }

  function SpecUp(kind: Kind, spec: Fields): Fields {
    match kind
    case ClusterHoprd => PortsUp(spec) - {SUPPORTED_RELEASE} - {FORCE_IDENTITY_NAME}
    case Hoprd => PortsUp(spec) - {SUPPORTED_RELEASE}
    case IdentityHoprd =>
      (spec - {NATIVE_ADDRESS})[NODE_ADDRESS := OrDefault(spec, NATIVE_ADDRESS, Text("lost"))] - {PEER_ID}
    case IdentityPool => spec
  }

  function GenerationOf(v: Value): Value {
    match Get(v, METADATA)
    case Some(metadata) => (match Get(metadata, GENERATION) case Some(g) => g case None => Number("0"))
    case None => Number("0")
  }

  /** A changed value together with the error that stopped the conversion, if any. */
  datatype Outcome = Outcome(value: Value, error: Option<Error>)

  function StatusUp(v: Value): Outcome {
    match Get(v, STATUS)
    case None => Outcome(v, Some(MissingStatus))
    case Some(Object(status)) =>
      Outcome(Set(v, STATUS, Object(status[OBSERVED_GENERATION := GenerationOf(v)] - {CHECKSUM})), None)
    case Some(_) => Outcome(v, Some(StatusNotObject))
  }

  function StatusDown(checksum: Checksum, v: Value): Outcome {
    match Get(v, SPEC)
    case None => Outcome(v, Some(MissingSpec))
    case Some(spec) =>
      match Get(v, STATUS)
      case None => Outcome(v, Some(MissingStatus))
      case Some(Object(status)) =>
        Outcome(Set(v, STATUS, Object(status[CHECKSUM := Text(checksum(spec))] - {OBSERVED_GENERATION})), None)
      case Some(_) => Outcome(v, Some(StatusNotObject))
  }

  function Up(v: Value): Outcome {
    match KindOf(v)
    case Err(e) => Outcome(v, Some(e))
    case Ok(IdentityPool) => StatusUp(v)
    case Ok(kind) =>
      match Get(v, SPEC)
      case None => Outcome(v, Some(MissingSpec))
      case Some(Object(spec)) => StatusUp(Set(v, SPEC, Object(SpecUp(kind, spec))))
      case Some(_) => Outcome(v, Some(SpecNotObject))
  }

  function Down(checksum: Checksum, v: Value): Outcome {
    match KindOf(v)
    case Err(e) => Outcome(v, Some(e))
    case Ok(IdentityPool) => StatusDown(checksum, v)
    case Ok(kind) =>
      match Get(v, SPEC)
      case None => Outcome(v, Some(MissingSpec))
      case Some(Object(spec)) => StatusDown(checksum, Set(v, SPEC, Object(SpecDown(kind, spec))))
      case Some(_) => Outcome(v, Some(SpecNotObject))
  }

  /* The conversions as the webhook performs them, one change of the value after another. */

  class Document {
    var value: Value

    constructor (value: Value)
      ensures this.value == value
    {
      this.value := value;
    }

    method AddObservedGeneration() returns (error: Option<Error>)
      modifies this
      ensures Outcome(value, error) == StatusUp(old(value))
    {
      var generation := GenerationOf(value);
      var status := Get(value, STATUS);
      if status.None? {
        return Some(MissingStatus);
      }
      if !status.value.Object? {
        return Some(StatusNotObject);
      }
      var fields := status.value.fields;
      fields := fields[OBSERVED_GENERATION := generation];
      fields := fields - {CHECKSUM};
      value := Set(value, STATUS, Object(fields));
      return None;
    }

    method AddStatusChecksum(checksum: Checksum) returns (error: Option<Error>)
      modifies this
      ensures Outcome(value, error) == StatusDown(checksum, old(value))
    {
      var spec := Get(value, SPEC);
      if spec.None? {
        return Some(MissingSpec);
      }
      var status := Get(value, STATUS);
      if status.None? {
        return Some(MissingStatus);
      }
      if !status.value.Object? {
        return Some(StatusNotObject);
      }
      var fields := status.value.fields;
      fields := fields[CHECKSUM := Text(checksum(spec.value))];
      fields := fields - {OBSERVED_GENERATION};
      value := Set(value, STATUS, Object(fields));
      return None;
    }

    /** The spec as an object, or the error of an object without one. */
    function SpecObject(): Result<Fields, Error>
      reads this
    {
      match Get(value, SPEC)
      case None => Err(MissingSpec)
      case Some(Object(spec)) => Ok(spec)
      case Some(_) => Err(SpecNotObject)
    }

    method ClusterHoprdUp() returns (error: Option<Error>)
      requires KindOf(value) == Ok(ClusterHoprd)
      modifies this
      ensures Outcome(value, error) == Up(old(value))
    {
      var found := SpecObject();
      if found.Err? {
        return Some(found.error);
      }
      var spec := found.value;
      spec := MovePortsUp(spec);
      spec := spec - {SUPPORTED_RELEASE};
      spec := spec - {FORCE_IDENTITY_NAME};
      value := Set(value, SPEC, Object(spec));
      error := AddObservedGeneration();
    }

    method ClusterHoprdDown(checksum: Checksum) returns (error: Option<Error>)
      requires KindOf(value) == Ok(ClusterHoprd)
      modifies this
      ensures Outcome(value, error) == Down(checksum, old(value))
    {
      var found := SpecObject();
      if found.Err? {
        return Some(found.error);
      }
      var spec := found.value;
      spec := MovePortsDown(spec);
      spec := spec[SUPPORTED_RELEASE := Text("kaunas")];
      spec := spec[FORCE_IDENTITY_NAME := Bool(true)];
      value := Set(value, SPEC, Object(spec));
      error := AddStatusChecksum(checksum);
    }

    method HoprdUp() returns (error: Option<Error>)
      requires KindOf(value) == Ok(Hoprd)
      modifies this
      ensures Outcome(value, error) == Up(old(value))
    {
      var found := SpecObject();
      if found.Err? {
        return Some(found.error);
      }
      var spec := found.value;
      spec := MovePortsUp(spec);
      spec := spec - {SUPPORTED_RELEASE};
      value := Set(value, SPEC, Object(spec));
      error := AddObservedGeneration();
    }

    method HoprdDown(checksum: Checksum) returns (error: Option<Error>)
      requires KindOf(value) == Ok(Hoprd)
      modifies this
      ensures Outcome(value, error) == Down(checksum, old(value))
    {
      var found := SpecObject();
      if found.Err? {
        return Some(found.error);
      }
      var spec := found.value;
      spec := MovePortsDown(spec);
      spec := spec[SUPPORTED_RELEASE := Text("kaunas")];
      value := Set(value, SPEC, Object(spec));
      error := AddStatusChecksum(checksum);
    }

    method IdentityHoprdUp() returns (error: Option<Error>)
      requires KindOf(value) == Ok(IdentityHoprd)
      modifies this
      ensures Outcome(value, error) == Up(old(value))
    {
      var found := SpecObject();
      if found.Err? {
        return Some(found.error);
      }
      var spec := found.value;
      if NATIVE_ADDRESS in spec {
        var address := spec[NATIVE_ADDRESS];
        spec := spec - {NATIVE_ADDRESS};
        spec := spec[NODE_ADDRESS := address];
      } else {
        spec := spec[NODE_ADDRESS := Text("lost")];
      }
      spec := spec - {PEER_ID};
      assert spec == SpecUp(IdentityHoprd, found.value);
      value := Set(value, SPEC, Object(spec));
      error := AddObservedGeneration();
    }

    method IdentityHoprdDown(checksum: Checksum) returns (error: Option<Error>)
      requires KindOf(value) == Ok(IdentityHoprd)
      modifies this
      ensures Outcome(value, error) == Down(checksum, old(value))
    {
      var found := SpecObject();
      if found.Err? {
        return Some(found.error);
      }
      var spec := found.value;
      if NODE_ADDRESS in spec {
        var address := spec[NODE_ADDRESS];
        spec := spec - {NODE_ADDRESS};
        spec := spec[NATIVE_ADDRESS := address];
      } else {
        spec := spec[NATIVE_ADDRESS := Text("unknown")];
      }
      spec := spec[PEER_ID := Text("unknown")];
      assert spec == SpecDown(IdentityHoprd, found.value);
      value := Set(value, SPEC, Object(spec));
      error := AddStatusChecksum(checksum);
    }

    method ConvertUp() returns (error: Option<Error>)
      modifies this
      ensures Outcome(value, error) == Up(old(value))
    {
      match KindOf(value)
      case Err(e) => return Some(e);
      case Ok(ClusterHoprd) => error := ClusterHoprdUp();
      case Ok(Hoprd) => error := HoprdUp();
      case Ok(IdentityHoprd) => error := IdentityHoprdUp();
      case Ok(IdentityPool) => error := AddObservedGeneration();
    }

    method ConvertDown(checksum: Checksum) returns (error: Option<Error>)
      modifies this
      ensures Outcome(value, error) == Down(checksum, old(value))
    {
      match KindOf(value)
      case Err(e) => return Some(e);
      case Ok(ClusterHoprd) => error := ClusterHoprdDown(checksum);
      case Ok(Hoprd) => error := HoprdDown(checksum);
      case Ok(IdentityHoprd) => error := IdentityHoprdDown(checksum);
      case Ok(IdentityPool) => error := AddStatusChecksum(checksum);
    }
  }

  method MovePortsUp(spec: Fields) returns (r: Fields)
    ensures r == PortsUp(spec)
  {
    r := spec - {PORTS_ALLOCATION};
    if HasService(r) {
      var service := r[SERVICE].fields;
      if PORTS_ALLOCATION in spec {
        service := service[PORTS_ALLOCATION := spec[PORTS_ALLOCATION]];
      } else {
        service := service[PORTS_ALLOCATION := Number("10")];
      }
      r := r[SERVICE := Object(service)];
    }
  }

  method MovePortsDown(spec: Fields) returns (r: Fields)
    ensures r == PortsDown(spec)
  {
    r := spec;
    if HasService(r) {
      var service := r[SERVICE].fields;
      r := r[SERVICE := Object(service - {PORTS_ALLOCATION})];
      if PORTS_ALLOCATION in service {
        r := r[PORTS_ALLOCATION := service[PORTS_ALLOCATION]];
      } else {
        r := r[PORTS_ALLOCATION := Number("10")];
      }
    }
  }
}
