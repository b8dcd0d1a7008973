/**
 * A control-plane node, its versioned (v1alpha1) record, the two conversions
 * between them, and creation of a node on a randomly sampled hypervisor.
 */
module Node {
  import opened Errors
  import Infra

  /** A node's role; like the Go type, any string, of which two are named. */
  type Role = string

  const CONTROL_PLANE_ROLE: Role := "control-plane"
  const CONTROL_PLANE_INGRESS_ROLE: Role := "control-plane-ingress"

  /** The role field of the versioned record. */
  type VersionedRole = string

  const V1ALPHA1_CONTROL_PLANE_ROLE: VersionedRole := "control-plane"
  const V1ALPHA1_CONTROL_PLANE_INGRESS_ROLE: VersionedRole := "control-plane-ingress"

  datatype Node = Node(
    name: string,
    role: Role,
    hypervisorName: string,
    clusterName: string,
    allocatedHostPorts: map<string, int>)

  // The versioned record: metadata.name, spec.{hypervisor, cluster, role},
  // status.allocatedHostPorts.
  datatype HostPortAllocation = HostPortAllocation(name: string, port: int)
  datatype ObjectMeta = ObjectMeta(name: string)
  datatype NodeSpec = NodeSpec(hypervisor: string, cluster: string, role: VersionedRole)
  datatype NodeStatus = NodeStatus(allocatedHostPorts: seq<HostPortAllocation>)
  datatype VersionedNode = VersionedNode(objectMeta: ObjectMeta, spec: NodeSpec, status: NodeStatus)

  predicate IsKnownRole(role: Role) {
    role == CONTROL_PLANE_ROLE || role == CONTROL_PLANE_INGRESS_ROLE
  }

  predicate IsKnownVersionedRole(r: VersionedRole) {
    r == V1ALPHA1_CONTROL_PLANE_ROLE || r == V1ALPHA1_CONTROL_PLANE_INGRESS_ROLE
  }

  /** The roles that survive an export followed by an import. */
  predicate IsRoundTrippableRole(role: Role) {
    IsKnownRole(role) || role == ""
  }

  /** Import of a role: the two known values translate, anything else is left unset. */
  function RoleFromVersioned(r: VersionedRole): (role: Role)
    ensures role == CONTROL_PLANE_ROLE <==> r == V1ALPHA1_CONTROL_PLANE_ROLE
    ensures role == CONTROL_PLANE_INGRESS_ROLE <==> r == V1ALPHA1_CONTROL_PLANE_INGRESS_ROLE
    ensures IsRoundTrippableRole(role)
    ensures role == "" <==> !IsKnownVersionedRole(r)
  {
    if r == V1ALPHA1_CONTROL_PLANE_ROLE then CONTROL_PLANE_ROLE
    else if r == V1ALPHA1_CONTROL_PLANE_INGRESS_ROLE then CONTROL_PLANE_INGRESS_ROLE
    else ""
  }

  /** Export of a role: the two known values translate, anything else becomes empty. */
  function RoleToVersioned(role: Role): (r: VersionedRole)
    ensures r == V1ALPHA1_CONTROL_PLANE_ROLE <==> role == CONTROL_PLANE_ROLE
    ensures r == V1ALPHA1_CONTROL_PLANE_INGRESS_ROLE <==> role == CONTROL_PLANE_INGRESS_ROLE
    ensures IsKnownVersionedRole(r) || r == ""
    ensures r == "" <==> !IsKnownRole(role)
  {
    if role == CONTROL_PLANE_ROLE then V1ALPHA1_CONTROL_PLANE_ROLE
    else if role == CONTROL_PLANE_INGRESS_ROLE then V1ALPHA1_CONTROL_PLANE_INGRESS_ROLE
    else ""
  }

  /** Exporting then importing a role gives it back exactly when it is known or unset. */
  lemma RoleRoundTrip(role: Role)
    ensures RoleFromVersioned(RoleToVersioned(role)) == role <==> IsRoundTrippableRole(role)
  {
  }

  /** Importing then exporting a versioned role gives it back exactly when it is known or empty. */
  lemma VersionedRoleRoundTrip(r: VersionedRole)
    ensures RoleToVersioned(RoleFromVersioned(r)) == r <==> IsKnownVersionedRole(r) || r == ""
  {
  }

  /** The resource names occurring in a port list. */
  function PortNames(ports: seq<HostPortAllocation>): set<string> {
    set p | p in ports :: p.name
  }

  /** No resource name occurs twice. */
  predicate DistinctNames(ports: seq<HostPortAllocation>) {
    forall i, j :: 0 <= i < j < |ports| ==> ports[i].name != ports[j].name
  }

  /** Entry i is the last entry carrying its name. */
  predicate IsLastOccurrence(ports: seq<HostPortAllocation>, i: int)
    requires 0 <= i < |ports|
  {
    forall j :: i < j < |ports| ==> ports[j].name != ports[i].name
  }

  /** The port list folded into a map, front to back, so a later entry overwrites an earlier one. */
  function PortMap(ports: seq<HostPortAllocation>): (m: map<string, int>)
    ensures m.Keys == PortNames(ports)
  {
    if ports == [] then map[]
    else
      var last := ports[|ports| - 1];
      assert ports == ports[..|ports| - 1] + [last];
      PortMap(ports[..|ports| - 1])[last.name := last.port]
  }

  /** For a name that occurs more than once, the port of its last occurrence wins. */
  lemma {:induction false} PortMapLastWins(ports: seq<HostPortAllocation>, i: int)
    requires 0 <= i < |ports| && IsLastOccurrence(ports, i)
    ensures ports[i].name in PortMap(ports) && PortMap(ports)[ports[i].name] == ports[i].port
  {
    if i < |ports| - 1 {
      var prefix := ports[..|ports| - 1];
      assert prefix[i] == ports[i];
      PortMapLastWins(prefix, i);
    }
  }

  /** The versioned node imported into a node (what NewNodeFromv1alpha1 computes). */
  function FromVersioned(v: VersionedNode): Node {
    Node(
      v.objectMeta.name,
      RoleFromVersioned(v.spec.role),
      v.spec.hypervisor,
      v.spec.cluster,
      PortMap(v.status.allocatedHostPorts))
  }

  /**
   * Imports a versioned node. Name, hypervisor and cluster are copied, the
   * role is translated (an unknown one is left unset, without error), and
   * the port list becomes a map in which the last entry for a name wins.
   */
  method NewNodeFromv1alpha1(v: VersionedNode) returns (n: Node, err: Option<Error>)
    ensures err == None
    ensures n == FromVersioned(v)
    ensures n.name == v.objectMeta.name
    ensures n.hypervisorName == v.spec.hypervisor && n.clusterName == v.spec.cluster
    ensures n.role == RoleFromVersioned(v.spec.role)
    ensures n.allocatedHostPorts.Keys == PortNames(v.status.allocatedHostPorts)
    ensures forall i :: 0 <= i < |v.status.allocatedHostPorts| && IsLastOccurrence(v.status.allocatedHostPorts, i) ==>
      n.allocatedHostPorts[v.status.allocatedHostPorts[i].name] == v.status.allocatedHostPorts[i].port
  {
    var ports := v.status.allocatedHostPorts;
    var hostPorts: map<string, int> := map[];
    for i := 0 to |ports|
      invariant hostPorts == PortMap(ports[..i])
    {
      assert ports[..i + 1][..i] == ports[..i];
      hostPorts := hostPorts[ports[i].name := ports[i].port];
    }
    assert ports[..|ports|] == ports;
    n := Node(v.objectMeta.name, RoleFromVersioned(v.spec.role), v.spec.hypervisor, v.spec.cluster, hostPorts);
    err := None;
    forall i | 0 <= i < |ports| && IsLastOccurrence(ports, i)
      ensures hostPorts[ports[i].name] == ports[i].port
    {
      PortMapLastWins(ports, i);
    }
  }

  /** `ports` lists the map `m`: one entry per key, each with that key's port, in some order. */
  predicate ListsPorts(ports: seq<HostPortAllocation>, m: map<string, int>) {
    && PortNames(ports) == m.Keys
    && DistinctNames(ports)
    && forall i :: 0 <= i < |ports| ==> ports[i].name in m && m[ports[i].name] == ports[i].port
  }

  /** `v` is an export of `n`; the order of the port list is not fixed. */
  predicate IsExportOf(v: VersionedNode, n: Node) {
    && v.objectMeta.name == n.name
    && v.spec.hypervisor == n.hypervisorName
    && v.spec.cluster == n.clusterName
    && v.spec.role == RoleToVersioned(n.role)
    && ListsPorts(v.status.allocatedHostPorts, n.allocatedHostPorts)
  }

  /**
   * Exports a node to its versioned record. The ports are visited in no
   * particular order (the next key is any one not yet visited), one
   * {name, port} entry per key.
   */
  method Export(node: Node) returns (v: VersionedNode)
    ensures IsExportOf(v, node)
    ensures |v.status.allocatedHostPorts| == |node.allocatedHostPorts|
  {
    var m := node.allocatedHostPorts;
    var ports: seq<HostPortAllocation> := [];
    var remaining := m.Keys;
    while remaining != {}
      invariant ExportProgress(ports, remaining, m)
      decreases remaining
    {
      var k :| k in remaining;
      ExportStep(ports, remaining, m, k);
      ports := ports + [HostPortAllocation(k, m[k])];
      remaining := remaining - {k};
    }
    v := VersionedNode(
      ObjectMeta(node.name),
      NodeSpec(node.hypervisorName, node.clusterName, RoleToVersioned(node.role)),
      NodeStatus(ports));
  }

  /**
   * Export's loop state: `ports` lists `m` minus the keys still `remaining`,
   * and both together have as many entries as `m`.
   */
  ghost predicate ExportProgress(ports: seq<HostPortAllocation>, remaining: set<string>, m: map<string, int>) {
    && remaining <= m.Keys
    && PortNames(ports) + remaining == m.Keys
    && (forall i :: 0 <= i < |ports| ==> ports[i].name !in remaining)
    && DistinctNames(ports)
    && (forall i :: 0 <= i < |ports| ==> ports[i].name in m && m[ports[i].name] == ports[i].port)
    && |ports| + |remaining| == |m|
  }

  /**
   * Visiting one more remaining key keeps Export's loop state. The three
   * append lemmas it calls have no proof of their own: stating each fact
   * separately is what keeps this step within the verifier's resource limit.
   */
  lemma ExportStep(ports: seq<HostPortAllocation>, remaining: set<string>, m: map<string, int>, k: string)
    requires ExportProgress(ports, remaining, m) && k in remaining
    ensures ExportProgress(ports + [HostPortAllocation(k, m[k])], remaining - {k}, m)
  {
    var entry := HostPortAllocation(k, m[k]);
    PortNamesAppend(ports, entry);
    DistinctNamesAppend(ports, entry, remaining);
    PortsAgreeAppend(ports, entry, m);
    assert |remaining - {k}| == |remaining| - 1;
  }

  lemma PortsAgreeAppend(ports: seq<HostPortAllocation>, entry: HostPortAllocation, m: map<string, int>)
    requires forall i :: 0 <= i < |ports| ==> ports[i].name in m && m[ports[i].name] == ports[i].port
    requires entry.name in m && m[entry.name] == entry.port
    ensures forall i :: 0 <= i < |ports| + 1 ==>
      (ports + [entry])[i].name in m && m[(ports + [entry])[i].name] == (ports + [entry])[i].port
  {
  }

  lemma PortNamesAppend(ports: seq<HostPortAllocation>, entry: HostPortAllocation)
    ensures PortNames(ports + [entry]) == PortNames(ports) + {entry.name}
  {
  }

  lemma DistinctNamesAppend(ports: seq<HostPortAllocation>, entry: HostPortAllocation, remaining: set<string>)
    requires DistinctNames(ports) && entry.name in remaining
    requires forall i :: 0 <= i < |ports| ==> ports[i].name !in remaining
    ensures DistinctNames(ports + [entry])
  {
  }

  /** A list that lists `m` folds back into exactly `m`. */
  lemma {:induction false} PortMapOfListing(ports: seq<HostPortAllocation>, m: map<string, int>)
    requires ListsPorts(ports, m)
    ensures PortMap(ports) == m
  {
    forall k | k in m ensures PortMap(ports)[k] == m[k] {
      assert k in PortNames(ports);
      var i :| 0 <= i < |ports| && ports[i].name == k;
      PortMapLastWins(ports, i);
    }
  }

  /**
   * Import of an export gives the node back, field for field, exactly when
   * its role is one of the two constants or unset.
   */
  lemma {:induction false} ExportImportRoundTrip(n: Node, v: VersionedNode)
    requires IsExportOf(v, n)
    ensures FromVersioned(v) == n <==> IsRoundTrippableRole(n.role)
  {
    PortMapOfListing(v.status.allocatedHostPorts, n.allocatedHostPorts);
    RoleRoundTrip(n.role);
  }

  /**
   * Samples a hypervisor, asks it for a port for the apiserver, and returns a
   * node bound to it whose only port is that one. A failed sample is returned
   * before any port is requested; a failed request is returned with no node.
   */
  method NewNodeWithRandomHypervisor(
    clusterName: string, nodeName: string, role: Role,
    hypervisorList: seq<Infra.Hypervisor>, draw: nat)
    returns (r: Result<Node>)
    modifies hypervisorList
    ensures forall h :: h in hypervisorList && old(h.Valid()) ==> h.Valid()
    ensures Infra.Sample(hypervisorList, draw).Failure? ==>
      r == Failure(Infra.Sample(hypervisorList, draw).error)
    ensures Infra.Sample(hypervisorList, draw).Success? ==>
      var h := Infra.Sample(hypervisorList, draw).value;
      && |h.portRequests| == |old(h.portRequests)| + 1
      && h.portRequests[..|old(h.portRequests)|] == old(h.portRequests)
      && var request := h.portRequests[|old(h.portRequests)|];
      && request.owner == Infra.PortOwner(clusterName, nodeName)
      && (request.outcome.Success? <==> old(h.HasFreePort()))
      && (request.outcome.Failure? ==> request.outcome.error == PortExhausted(h.name))
      && (request.outcome.Failure? ==>
            r == Failure(request.outcome.error) && h.allocatedPorts == old(h.allocatedPorts))
      && (request.outcome.Success? ==>
            && r == Success(Node(nodeName, role, h.name, clusterName, map["apiserver" := request.outcome.value]))
            && h.portRangeLow <= request.outcome.value <= h.portRangeHigh
            && request.outcome.value !in old(h.allocatedPorts)
            && h.allocatedPorts == old(h.allocatedPorts)[request.outcome.value := Infra.PortOwner(clusterName, nodeName)])
    ensures forall h :: h in hypervisorList && (Infra.Sample(hypervisorList, draw).Success? ==> h != Infra.Sample(hypervisorList, draw).value) ==>
      h.allocatedPorts == old(h.allocatedPorts) && h.portRequests == old(h.portRequests)
  {
    var sampled := Infra.Sample(hypervisorList, draw);
    if sampled.Failure? {
      return Failure(sampled.error);
    }
    var hypervisor := sampled.value;
    var node := Node(nodeName, role, hypervisor.name, clusterName, map[]);
    var apiserverHostPort := hypervisor.RequestPort(clusterName, nodeName);
    if apiserverHostPort.Failure? {
      return Failure(apiserverHostPort.error);
    }
    node := node.(allocatedHostPorts := node.allocatedHostPorts["apiserver" := apiserverHostPort.value]);
    r := Success(node);
  }
}
