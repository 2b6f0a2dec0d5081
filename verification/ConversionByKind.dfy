/**
  What the conversion webhook returns for an object, told from the text of its kind and by the
  names of its fields (src/webhook_server.rs:133-163, 188-447).
 */
module ConversionByKind {
  import opened Wrappers
  import opened Json
  import opened Webhook
  import opened ConversionTheorems

  /** The object is of the kind with this name. */
  predicate Is(v: Value, kind: string) {
    Get(v, "kind") == Some(Text(kind))
  }

  /** Both have the same value under the key, or none. */
  predicate SameAt(a: Fields, b: Fields, key: string) {
    (key in a <==> key in b) && (key in a ==> a[key] == b[key])
  }

  function ValueOr(fields: Fields, key: string, default: Value): Value {
    if key in fields then fields[key] else default
  }

  /** The fields of an object's service, when it is an object itself. */
  function ServiceOf(spec: Fields): Option<Fields> {
    if "service" in spec && spec["service"].Object? then Some(spec["service"].fields) else None
  }

  /** The allocation of a node or cluster has moved from its service to its spec. */
  predicate PortsMovedDown(before: Fields, after: Fields) {
    match ServiceOf(before)
    case None => SameAt(before, after, "service") && SameAt(before, after, "portsAllocation")
    case Some(service) =>
      && "service" in after && after["service"] == Object(service - {"portsAllocation"})
      && Holds(after, "portsAllocation", ValueOr(service, "portsAllocation", Number("10")))
  }

  /** The allocation has moved from the spec to the service, and is lost without one. */
  predicate PortsMovedUp(before: Fields, after: Fields) {
    && "portsAllocation" !in after
    && match ServiceOf(before)
       case None => SameAt(before, after, "service")
       case Some(service) =>
         "service" in after && after["service"] == Object(service["portsAllocation" := ValueOr(before, "portsAllocation", Number("10"))])
  }

  const CHANGED_KEYS :=
    {"service", "portsAllocation", "supportedRelease", "forceIdentityName", "nodeAddress", "nativeAddress", "peerId"}

  ghost predicate OthersKept(before: Fields, after: Fields) {
    forall key :: key !in CHANGED_KEYS ==> SameAt(before, after, key)
  }

  predicate AddressesKept(before: Fields, after: Fields) {
    SameAt(before, after, "nodeAddress") && SameAt(before, after, "nativeAddress") && SameAt(before, after, "peerId")
  }

  predicate PortsKept(before: Fields, after: Fields) {
    SameAt(before, after, "service") && SameAt(before, after, "portsAllocation")
  }

  /** A spec towards v1alpha2: what a cluster, a node, an identity and a pool gain and lose. */
  ghost predicate SpecForV2(cluster: bool, node: bool, identity: bool, before: Fields, after: Fields) {
    && (if cluster then Holds(after, "forceIdentityName", Bool(true)) else SameAt(before, after, "forceIdentityName"))
    && (if cluster || node then Holds(after, "supportedRelease", Text("kaunas")) else SameAt(before, after, "supportedRelease"))
    && (if cluster || node then PortsMovedDown(before, after) else PortsKept(before, after))
    && (if identity then
          && "nodeAddress" !in after && Holds(after, "nativeAddress", ValueOr(before, "nodeAddress", Text("unknown")))
          && Holds(after, "peerId", Text("unknown"))
        else AddressesKept(before, after))
    && OthersKept(before, after)
  }

  /** The same towards v1alpha3. */
  ghost predicate SpecForV3(cluster: bool, node: bool, identity: bool, before: Fields, after: Fields) {
    && (if cluster then "forceIdentityName" !in after else SameAt(before, after, "forceIdentityName"))
    && (if cluster || node then "supportedRelease" !in after else SameAt(before, after, "supportedRelease"))
    && (if cluster || node then PortsMovedUp(before, after) else PortsKept(before, after))
    && (if identity then
          && "nativeAddress" !in after && Holds(after, "nodeAddress", ValueOr(before, "nativeAddress", Text("lost")))
          && "peerId" !in after
        else AddressesKept(before, after))
    && OthersKept(before, after)
  }

  lemma SpecDownByKind(kind: Kind, spec: Fields)
    ensures SpecForV2(kind == ClusterHoprd, kind == Hoprd, kind == IdentityHoprd, spec, SpecDown(kind, spec))
  {
    SpecKeysDiffer();
  }

  lemma SpecUpByKind(kind: Kind, spec: Fields)
    ensures SpecForV3(kind == ClusterHoprd, kind == Hoprd, kind == IdentityHoprd, spec, SpecUp(kind, spec))
  {
    SpecKeysDiffer();
  }

  /** A text that is not one of the four kinds, or no text at all. */
  predicate OtherKind(v: Value) {
    !Is(v, "ClusterHoprd") && !Is(v, "Hoprd") && !Is(v, "IdentityHoprd") && !Is(v, "IdentityPool")
  }

  lemma KindFromText(v: Value)
    ensures KindOf(v).Ok? <==> !OtherKind(v)
    ensures KindOf(v).Ok? ==>
              var kind := KindOf(v).value;
              && (kind == ClusterHoprd <==> Is(v, "ClusterHoprd")) && (kind == Hoprd <==> Is(v, "Hoprd"))
              && (kind == IdentityHoprd <==> Is(v, "IdentityHoprd")) && (kind == IdentityPool <==> Is(v, "IdentityPool"))
  {
    assert |"ClusterHoprd"| == 12 && |"Hoprd"| == 5 && |"IdentityHoprd"| == 13 && |"IdentityPool"| == 12;
    assert "ClusterHoprd"[0] != "IdentityPool"[0];
  }

  predicate IsSpec(v: Value, spec: Fields) {
    Get(v, "spec") == Some(Object(spec))
  }

  predicate IsStatus(v: Value, status: Fields) {
    Get(v, "status") == Some(Object(status))
  }

  /** No other part of the object than these three has changed. */
  ghost predicate RestKept(v: Value, w: Value) {
    v.Object? && w.Object? && forall key :: key !in {"spec", "status", "apiVersion"} ==> SameAt(v.fields, w.fields, key)
  }

  lemma RewrittenRest(v: Value, spec: Option<Fields>, status: Option<Fields>, version: string)
    requires v.Object?
    ensures RestKept(v, Rewritten(v, spec, status, version))
  {
  }

  /** What is returned for one object in the version v1alpha2. */
  ghost predicate AnsweredInV2(checksum: Checksum, v: Value, w: Value) {
    && Get(w, "apiVersion") == Some(Text("hoprnet.org/v1alpha2"))
    && RestKept(v, w)
    && (OtherKind(v) ==> Get(w, "spec") == Get(v, "spec") && Get(w, "status") == Get(v, "status"))
    && (forall spec :: IsSpec(v, spec) && !OtherKind(v) ==>
          && Get(w, "spec").Some? && Get(w, "spec").value.Object?
          && SpecForV2(Is(v, "ClusterHoprd"), Is(v, "Hoprd"), Is(v, "IdentityHoprd"), spec, Get(w, "spec").value.fields))
    && (forall spec, status :: IsSpec(v, spec) && IsStatus(v, status) && !OtherKind(v) ==>
          Get(w, "status") == Some(Object(status["checksum" := Text(checksum(Get(w, "spec").value))] - {"observedGeneration"})))
  }

  /** The generation in the metadata, and 0 where there is none. */
  function Generation(v: Value): Value {
    match Get(v, "metadata")
    case Some(Object(fields)) => ValueOr(fields, "generation", Number("0"))
    case _ => Number("0")
  }

  /** What is returned for one object in the version v1alpha3. */
  ghost predicate AnsweredInV3(v: Value, w: Value) {
    && Get(w, "apiVersion") == Some(Text("hoprnet.org/v1alpha3"))
    && RestKept(v, w)
    && (OtherKind(v) ==> Get(w, "spec") == Get(v, "spec") && Get(w, "status") == Get(v, "status"))
    && (forall spec :: IsSpec(v, spec) && !OtherKind(v) ==>
          && Get(w, "spec").Some? && Get(w, "spec").value.Object?
          && SpecForV3(Is(v, "ClusterHoprd"), Is(v, "Hoprd"), Is(v, "IdentityHoprd"), spec, Get(w, "spec").value.fields))
    && (forall spec, status :: IsSpec(v, spec) && IsStatus(v, status) && !OtherKind(v) ==>
          Get(w, "status") == Some(Object(status["observedGeneration" := Generation(v)] - {"checksum"})))
  }

  lemma {:induction false} DownByKind(checksum: Checksum, v: Value)
    requires v.Object?
    ensures AnsweredInV2(checksum, v, Answered(checksum, V2, v))
  {
    KindFromText(v);
    DownRewrites(checksum, v);
    RewrittenRest(v, SpecV2(v), StatusV2(checksum, v, SpecV2(v)), V2);
    RewrittenFields(v, SpecV2(v), StatusV2(checksum, v, SpecV2(v)), V2);
    if HasSpec(v) {
      SpecDownByKind(KindOf(v).value, SpecOf(v));
    }
    forall spec | IsSpec(v, spec) && Is(v, "IdentityPool") ensures SpecForV2(false, false, false, spec, spec) {
    }
  }

  lemma {:induction false} UpByKind(checksum: Checksum, v: Value)
    requires v.Object?
    ensures AnsweredInV3(v, Answered(checksum, V3, v))
  {
    KindFromText(v);
    UpRewrites(checksum, v);
    RewrittenRest(v, SpecV3(v), StatusV3(v), V3);
    RewrittenFields(v, SpecV3(v), StatusV3(v), V3);
    if HasSpec(v) {
      SpecUpByKind(KindOf(v).value, SpecOf(v));
    }
    forall spec | IsSpec(v, spec) && Is(v, "IdentityPool") ensures SpecForV3(false, false, false, spec, spec) {
    }
  }

  /**
    What the handler returns for a list of objects: with a supported version, as many objects in
    the same order, each converted as the text of its kind says.
   */
  lemma {:induction false} ReplyByKind(checksum: Checksum, uid: string, objects: seq<Value>)
    requires AllObjects(objects)
    ensures
      var reply := Reply(checksum, uid, "hoprnet.org/v1alpha2", objects);
      && reply.Some? && reply.value.uid == uid && |reply.value.objects| == |objects|
      && forall i :: 0 <= i < |objects| ==> AnsweredInV2(checksum, objects[i], reply.value.objects[i])
    ensures
      var reply := Reply(checksum, uid, "hoprnet.org/v1alpha3", objects);
      && reply.Some? && reply.value.uid == uid && |reply.value.objects| == |objects|
      && forall i :: 0 <= i < |objects| ==> AnsweredInV3(objects[i], reply.value.objects[i])
  {
    forall i | 0 <= i < |objects|
      ensures AnsweredInV2(checksum, objects[i], Answered(checksum, V2, objects[i]))
      ensures AnsweredInV3(objects[i], Answered(checksum, V3, objects[i]))
    {
      DownByKind(checksum, objects[i]);
      UpByKind(checksum, objects[i]);
    }
  }

  /** Every other version is refused, without any object, unless there is none to convert. */
  lemma OtherVersionsAreRefused(checksum: Checksum, uid: string, version: string, objects: seq<Value>)
    requires version != "hoprnet.org/v1alpha2" && version != "hoprnet.org/v1alpha3"
    ensures
      var reply := Reply(checksum, uid, version, objects);
      && reply.Some? && reply.value.uid == uid && reply.value.objects == []
      && (reply.value.status == "Failure" <==> objects != []) && (reply.value.status == "Success" <==> objects == [])
  {
  }

  /**
    The handler stops exactly when an object of the list is neither an object nor null; a null
    becomes an object that has nothing but the version.
   */
  lemma StopsExactly(checksum: Checksum, uid: string, version: string, objects: seq<Value>)
    requires version == "hoprnet.org/v1alpha2" || version == "hoprnet.org/v1alpha3"
    ensures
      var reply := Reply(checksum, uid, version, objects);
      && (reply.None? <==> exists i :: 0 <= i < |objects| && !objects[i].Object? && objects[i] != Null)
      && (reply.Some? ==>
            && |reply.value.objects| == |objects|
            && forall i :: 0 <= i < |objects| && objects[i] == Null ==> reply.value.objects[i] == Object(map["apiVersion" := Text(version)]))
  {
    var reply := Reply(checksum, uid, version, objects);
    if reply.Some? {
      forall i | 0 <= i < |objects| && objects[i] == Null
        ensures Answered(checksum, version, objects[i]) == Object(map["apiVersion" := Text(version)])
      {
        ConvertedKeepsShape(checksum, version, objects[i]);
      }
    }
  }
}
