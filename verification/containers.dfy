/**
 The records exchanged between the node agent, the control plane and the
 local container runtime. A container is identified by its hostname; every
 other attribute is carried along unchanged by the reconcilers.
 */
module Containers {

  /** A value that may be absent: a fetch that failed is `None`. */
  datatype Option<+T> = None | Some(value: T)

  /** Lifecycle state of a container as recorded by the control plane.
      Records listed by the runtime carry no state (`Unset`). */
  datatype Status =
    | Unset
    | Scheduled
    | Provisioned
    | BootstrapStarted
    | Bootstrapped
    | BootstrapError
    | ScheduleDeletion
    | Deleted

  /** Where a remote image is fetched from. */
  datatype Remote = Remote(server: string, protocol: string, authType: string)

  /** Origin of a container's image. */
  datatype Source = Source(sourceType: string, alias: string, mode: string, remote: Remote)

  const NoSource: Source := Source("", "", "", Remote("", "", ""))

  /** One container record. `bootstrappers` is the ordered list of
      bootstrap steps to run once the container exists; it may be empty. */
  datatype Container = Container(
    hostname: string,
    ipaddress: string,
    image: string,
    source: Source,
    bootstrappers: seq<string>,
    status: Status)

  /** The set of hostnames occurring in a list of containers: the only
      thing the reconcilers read from the runtime's own list. */
  function Hostnames(cs: seq<Container>): (hs: set<string>)
    ensures forall i :: 0 <= i < |cs| ==> cs[i].hostname in hs
    ensures forall h :: h in hs ==> exists i :: 0 <= i < |cs| && cs[i].hostname == h
  {
    set i | 0 <= i < |cs| :: cs[i].hostname
  }

  /** The hostnames of a list of containers, in list order. */
  function HostnameSeq(cs: seq<Container>): (hs: seq<string>)
    ensures |hs| == |cs|
    ensures forall i :: 0 <= i < |cs| ==> hs[i] == cs[i].hostname
  {
    if |cs| == 0 then [] else [cs[0].hostname] + HostnameSeq(cs[1..])
  }

  /** No two records of the list share a hostname. */
  predicate UniqueHostnames(cs: seq<Container>)
  {
    forall i, j :: 0 <= i < j < |cs| ==> cs[i].hostname != cs[j].hostname
  }
}
