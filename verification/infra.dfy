/**
 * The two hypervisor operations node allocation relies on: sampling one
 * hypervisor from a list, and reserving a port on a hypervisor. Their
 * implementation is not part of this model; what is written here is their
 * contract, with the random draw and the choice of port left open.
 */
module Infra {
  import opened Errors

  /** The key a port is reserved under: the cluster and node that asked for it. */
  datatype PortOwner = PortOwner(clusterName: string, nodeName: string)

  /** One call of RequestPort, with what it answered. */
  datatype PortRequest = PortRequest(owner: PortOwner, outcome: Result<int>)

  class Hypervisor {
    const name: string
    const portRangeLow: int
    const portRangeHigh: int
    /** The reserved ports, each with the one owner it was handed to. */
    var allocatedPorts: map<int, PortOwner>
    /** Every RequestPort call made on this hypervisor, oldest first. */
    ghost var portRequests: seq<PortRequest>

    /** Reserved ports lie in the hypervisor's range. */
    ghost predicate Valid()
      reads this
    {
      forall p :: p in allocatedPorts ==> portRangeLow <= p <= portRangeHigh
    }

    constructor (name: string, portRangeLow: int, portRangeHigh: int)
      ensures Valid()
      ensures this.name == name
      ensures this.portRangeLow == portRangeLow && this.portRangeHigh == portRangeHigh
      ensures allocatedPorts == map[] && portRequests == []
    {
      this.name := name;
      this.portRangeLow := portRangeLow;
      this.portRangeHigh := portRangeHigh;
      allocatedPorts := map[];
      portRequests := [];
    }

    /** Some port of the range is not reserved by anybody. */
    predicate HasFreePort()
      reads this
    {
      exists p :: portRangeLow <= p <= portRangeHigh && p !in allocatedPorts
    }

    /**
     * Reserves a port for (clusterName, nodeName). Which free port is taken
     * is left open; a held port is never handed to a second owner, ports the
     * owner already holds stay held, and a failure leaves the reservations
     * as they were.
     */
    method RequestPort(clusterName: string, nodeName: string) returns (r: Result<int>)
      modifies this
      ensures old(Valid()) ==> Valid()
      ensures portRequests == old(portRequests) + [PortRequest(PortOwner(clusterName, nodeName), r)]
      ensures r.Success? <==> old(HasFreePort())
      ensures r.Success? ==>
        && portRangeLow <= r.value <= portRangeHigh
        && r.value !in old(allocatedPorts)
        && allocatedPorts == old(allocatedPorts)[r.value := PortOwner(clusterName, nodeName)]
      ensures r.Failure? ==> r.error == PortExhausted(name) && allocatedPorts == old(allocatedPorts)
    {
      var owner := PortOwner(clusterName, nodeName);
      if HasFreePort() {
        var p :| portRangeLow <= p <= portRangeHigh && p !in allocatedPorts;
        allocatedPorts := allocatedPorts[p := owner];
        r := Success(p);
      } else {
        r := Failure(PortExhausted(name));
      }
      portRequests := portRequests + [PortRequest(owner, r)];
    }
  }

  /**
   * Picks one hypervisor of the list; `draw` is the random number that
   * decides which. An empty list is an error, never a default hypervisor.
   */
  function Sample(hypervisorList: seq<Hypervisor>, draw: nat): (r: Result<Hypervisor>)
    ensures r.Failure? <==> hypervisorList == []
    ensures r.Failure? ==> r.error == EmptyPool
    ensures r.Success? ==> r.value in hypervisorList
  {
    if hypervisorList == [] then Failure(EmptyPool)
    else Success(hypervisorList[draw % |hypervisorList|])
  }

  /** No hypervisor of the list is excluded: each is the outcome of some draw. */
  lemma SampleCoverage(hypervisorList: seq<Hypervisor>, h: Hypervisor)
    requires h in hypervisorList
    ensures exists draw: nat :: Sample(hypervisorList, draw) == Success(h)
  {
    var i :| 0 <= i < |hypervisorList| && hypervisorList[i] == h;
    assert Sample(hypervisorList, i) == Success(h);
  }
}
