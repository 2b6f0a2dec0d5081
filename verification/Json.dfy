/** JSON values as the conversion webhook reads and changes them. */
module Json {
  import opened Wrappers

  type Fields = map<string, Value>

  /** A number is kept by its literal; the webhook never computes with one. */
  datatype Value =
    | Null
    | Bool(b: bool)
    | Number(literal: string)
    | Text(s: string)
    | Array(items: seq<Value>)
    | Object(fields: Fields)

  function Get(v: Value, key: string): Option<Value> {
    if v.Object? && key in v.fields then Some(v.fields[key]) else None
  }

  function Set(v: Value, key: string, w: Value): Value
    requires v.Object?
  {
    Object(v.fields[key := w])
  }

  const API_VERSION := "apiVersion"
  const CHECKSUM := "checksum"
  const FORCE_IDENTITY_NAME := "forceIdentityName"
  const GENERATION := "generation"
  const KIND := "kind"
  const METADATA := "metadata"
  const NATIVE_ADDRESS := "nativeAddress"
  const NODE_ADDRESS := "nodeAddress"
  const OBSERVED_GENERATION := "observedGeneration"
  const PEER_ID := "peerId"
  const PORTS_ALLOCATION := "portsAllocation"
  const SERVICE := "service"
  const SPEC := "spec"
  const STATUS := "status"
  const SUPPORTED_RELEASE := "supportedRelease"

  lemma RootKeysDiffer()
    ensures KIND != SPEC && KIND != STATUS && KIND != METADATA && KIND != API_VERSION
    ensures SPEC != STATUS && SPEC != METADATA && SPEC != API_VERSION
    ensures STATUS != METADATA && STATUS != API_VERSION && METADATA != API_VERSION
  {
    assert KIND[0] != SPEC[0];
  }

  lemma SpecKeysDiffer()
    ensures SERVICE != PORTS_ALLOCATION && SERVICE != SUPPORTED_RELEASE && SERVICE != FORCE_IDENTITY_NAME
    ensures PORTS_ALLOCATION != SUPPORTED_RELEASE && PORTS_ALLOCATION != FORCE_IDENTITY_NAME
    ensures SUPPORTED_RELEASE != FORCE_IDENTITY_NAME
    ensures NATIVE_ADDRESS != NODE_ADDRESS && NATIVE_ADDRESS != PEER_ID && NODE_ADDRESS != PEER_ID
    ensures OBSERVED_GENERATION != CHECKSUM
  {
  }
}
