/** The container lookup endpoint built by `getContainerExecUrl`. */
module Locator {
  import opened Wrappers

  const ByNameQuery := "/containers?name="

  /**
   * The URL of the container listing filtered by name: the Cattle base URL, the path and
   * query "/containers?name=", and the container name, neither escaped.
   * In the source, `getContainerExecUrl` takes a `name` parameter but formats the
   * package-level `containerName` (the -name flag) instead; `main` passes that same
   * variable, so the name used is always the flag's value.
   */
  function ContainerLookupEndpoint(cattleUrl: string, containerName: string): string {
    cattleUrl + ByNameQuery + containerName
  }

  /** The container name a lookup endpoint for `cattleUrl` asks for, if it is one. */
  function LookupName(cattleUrl: string, endpoint: string): (r: Option<string>)
    ensures r.Some? ==> |r.value| + |cattleUrl| + |ByNameQuery| == |endpoint|
  {
    var prefix := cattleUrl + ByNameQuery;
    if |prefix| <= |endpoint| && endpoint[..|prefix|] == prefix then Some(endpoint[|prefix|..])
    else None
  }

  /** The endpoint carries the container name verbatim: reading it back gives the name. */
  lemma LookupEndpointRoundTrip(cattleUrl: string, containerName: string)
    ensures LookupName(cattleUrl, ContainerLookupEndpoint(cattleUrl, containerName)) == Some(containerName)
  {
    var prefix := cattleUrl + ByNameQuery;
    var e := ContainerLookupEndpoint(cattleUrl, containerName);
    assert e == prefix + containerName;
    assert e[..|prefix|] == prefix;
    assert e[|prefix|..] == containerName;
  }

  /** Every endpoint `LookupName` accepts is the lookup endpoint for the name it reads. */
  lemma LookupNameSound(cattleUrl: string, endpoint: string)
    requires LookupName(cattleUrl, endpoint).Some?
    ensures ContainerLookupEndpoint(cattleUrl, LookupName(cattleUrl, endpoint).value) == endpoint
  {
    var prefix := cattleUrl + ByNameQuery;
    assert endpoint == endpoint[..|prefix|] + endpoint[|prefix|..];
  }

  /** Different container names give different endpoints for the same base URL. */
  lemma LookupEndpointInjective(cattleUrl: string, a: string, b: string)
    ensures ContainerLookupEndpoint(cattleUrl, a) == ContainerLookupEndpoint(cattleUrl, b) <==> a == b
  {
    if ContainerLookupEndpoint(cattleUrl, a) == ContainerLookupEndpoint(cattleUrl, b) {
      LookupEndpointRoundTrip(cattleUrl, a);
      LookupEndpointRoundTrip(cattleUrl, b);
    }
  }
}
