/** Targets, lifecycle events and the Kubernetes objects they are derived from (pkg/prober/types.go). */
module Targets {
  import opened Bytes

  datatype Target = Target(name: Str, address: Str, scheme: Str, isStatic: bool, insecureSkipVerify: bool)

  datatype TargetEvent = TargetEvent(target: Target, isAdded: bool)

  /** A target of which only the address is filled in. */
  function Stub(address: Str): Target
  {
    Target([], address, [], false, false)
  }

  datatype Endpoint = Endpoint(addresses: seq<Str>, ready: Option<bool>)

  /** The parts of a discovery EndpointSlice the prober reads; a nil port is `None`. */
  datatype EndpointSlice = EndpointSlice(
    namespace: Str, name: Str, labels: map<Str, Str>, ports: seq<Option<int>>, endpoints: seq<Endpoint>)
  {
    function Key(): Str
    {
      namespace + Ascii("/") + name
    }
  }

  /** Slices of different namespaces or names have different keys: no namespace holds a '/'. */
  lemma KeysDiffer(slice: EndpointSlice, other: EndpointSlice)
    requires 47 !in slice.namespace && 47 !in other.namespace && slice.Key() == other.Key()
    ensures slice.namespace == other.namespace && slice.name == other.name
  {
    assert Ascii("/") == [47];
    SplitFirst(slice.namespace, 47, slice.name);
    SplitFirst(other.namespace, 47, other.name);
    CutKey(slice);
    CutKey(other);
  }

  lemma CutKey(slice: EndpointSlice)
    ensures var key, n := slice.Key(), |slice.namespace|;
      n < |key| && key[..n] == slice.namespace && key[n + 1..] == slice.name
  {
  }
}
