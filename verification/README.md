# oneinfra node model and cluster reconciler, in Dafny

This project models two pieces of oneinfra, a system that places Kubernetes
control-plane nodes on hypervisors:

- **Nodes** (`internal/pkg/node/node.go`): a node has a name, a role, the
  name of the hypervisor hosting it, the name of its cluster and a map from
  resource name to allocated host port. A node is converted to and from its
  versioned `v1alpha1` record (`metadata.name`, `spec.hypervisor`,
  `spec.cluster`, `spec.role`, `status.allocatedHostPorts`). A fresh node is
  created by sampling a hypervisor and asking it for the `apiserver` port.
- **Cluster reconciler** (`internal/pkg/cluster/reconciler/reconciler.go`):
  an object holding the hypervisor map, the cluster map and the node list.
  `Reconcile` hands every node to the per-node reconciler. `Specs`
  concatenates the versioned documents of the three collections.

Files: `errors.dfy` (result and error types), `infra.dfy` (the hypervisor
operations node creation calls, stated by their contracts), `node.dfy`,
`reconciler.dfy`.

How the model is shaped:

- Roles are strings, as in Go. The two named roles have the same spelling in
  the internal and the versioned schema ("control-plane",
  "control-plane-ingress"). Any other string is possible in either schema.
- Import is the function `FromVersioned`. It is computed by the method
  `NewNodeFromv1alpha1` with a loop that fills the port map, so a repeated
  name keeps the port of its last entry. The unknown-role case is lenient:
  the role is left empty and no error is returned.
- `Export` walks the port map in no fixed order, as Go's map iteration does.
  The next key is any key not yet visited. Its result is therefore specified
  by a relation, `IsExportOf`, and not by a function. The round-trip lemma
  holds for every export the relation allows.
- The random draw of `Sample` is a parameter (`draw`). `RequestPort` picks any
  free port of the hypervisor's range. Reservations map each held port to its
  one owner, a (cluster, node) pair, so no port can have two owners. Each
  hypervisor keeps a ghost log of its port requests, so the contracts can say
  which requests were made.
- The per-node reconciler is `ReconcileNode`. It only appends its inquirer
  to a ghost log on the cluster reconciler. The three sub-`Specs` are
  stand-in methods on the reconciler (`HypervisorMapSpecs`, `ClusterMapSpecs`,
  `NodeListSpecs`). Each returns what a function parameter of `Specs` gives
  for its collection, and appends its collection to a second ghost log.
- `Specs` keeps the code's behaviour: a failing sub-document is swallowed, and
  the result is `("", nil)`. The call never reports an error.

## Model

| member | source | states |
|---|---|---|
| `Node.RoleFromVersioned` | internal/pkg/node/node.go:77-82 | Import of a role maps the versioned control-plane role to `CONTROL_PLANE_ROLE` and the ingress role to `CONTROL_PLANE_INGRESS_ROLE` (each if and only if); any other value yields the empty role |
| `Node.RoleToVersioned` | internal/pkg/node/node.go:101-106 | Export of a role maps `CONTROL_PLANE_ROLE` to the versioned control-plane role and `CONTROL_PLANE_INGRESS_ROLE` to the versioned ingress role (each if and only if); any other role exports as empty |
| `Node.RoleRoundTrip` | internal/pkg/node/node.go:101-106 | Exporting a role and importing it back gives the same role if and only if the role is a constant or empty |
| `Node.VersionedRoleRoundTrip` | internal/pkg/node/node.go:77-82 | Importing a versioned role and exporting it back gives the same value if and only if it is known or empty |
| `Node.PortMap` | internal/pkg/node/node.go:83-86 | Folding the port list into a map gives exactly the names of the list as keys |
| `Node.PortMapLastWins` | internal/pkg/node/node.go:84-86 | For each name, the map holds the port of the last list entry with that name |
| `Node.NewNodeFromv1alpha1` | internal/pkg/node/node.go:71-88 | Import never fails; it copies name, hypervisor and cluster; it translates the role leniently; its port map has exactly the listed names as keys, with the last occurrence's port |
| `Node.Export` | internal/pkg/node/node.go:91-118 | Export copies name, hypervisor and cluster and translates the role; its port list has one entry per map key, with that key's port and no repeated name, so its length is the map's size (empty for an empty map) |
| `Node.ExportStep` | internal/pkg/node/node.go:108-116 | Appending one not-yet-visited key keeps the export loop's state: the entries so far list the visited part of the map with distinct names |
| `Node.PortMapOfListing` | internal/pkg/node/node.go:83-86 | Folding any listing of a map (one entry per key, distinct names, matching ports) gives back that map |
| `Node.ExportImportRoundTrip` | internal/pkg/node/node.go:71-118 | Importing any export of a node gives back the same node (name, hypervisor, cluster, role, port map) if and only if its role is a constant or empty |
| `Node.NewNodeWithRandomHypervisor` | internal/pkg/node/node.go:50-68 | A failed sample is returned as is; otherwise exactly one port request is made on the sampled hypervisor for (cluster, node); the request succeeds exactly when the sampled hypervisor had a free port in its range; its failure is returned as `PortExhausted` of that hypervisor, with no node and no reservation change; on success the node has the arguments' name, cluster and role, the sampled hypervisor's name and exactly {"apiserver": port}, and that port, free before and within the hypervisor's range, is now reserved for (cluster, node) on the sampled hypervisor; other hypervisors are untouched |
| `Infra.Sample` | internal/pkg/node/node.go:51-54 | Sampling fails with EmptyPool exactly when the list is empty, and otherwise returns a member of the list |
| `Infra.SampleCoverage` | internal/pkg/node/node.go:51 | Every hypervisor of the list is the sample for some draw |
| `Infra.Hypervisor.RequestPort` | internal/pkg/node/node.go:62-65 | A request succeeds exactly when a port of the range is free; the port returned was held by nobody and is now held by (cluster, node), all earlier reservations staying as they were; a failure changes no reservation; the call is logged; reserved ports stay in the range |
| `Reconciler.ClusterReconciler.constructor` | internal/pkg/cluster/reconciler/reconciler.go:36-42 | The new reconciler holds the given hypervisor map, cluster map and node list unchanged |
| `Reconciler.ClusterReconciler.Reconcile` | internal/pkg/cluster/reconciler/reconciler.go:45-56 | The per-node reconciler is called once per list element, in list order, each with an inquirer bound to that element and to this reconciler; no error is returned and the three collections are not reassigned |
| `Reconciler.ReconcileNode` | internal/pkg/cluster/reconciler/reconciler.go:48-53 | A per-node call is recorded with the inquirer it was given |
| `Reconciler.ClusterReconciler.Specs` | internal/pkg/cluster/reconciler/reconciler.go:59-77 | When all three sub-documents succeed, the result is hypervisors + clusters + nodes; a failure stops at once, so the log written by the sub-`Specs` calls shows that later collections were not asked for, and yields the empty document; the error is always nil; the three collections are unchanged |
| `Reconciler.ClusterReconciler.HypervisorMapSpecs` | internal/pkg/cluster/reconciler/reconciler.go:61 | Returns the document of the hypervisor map and logs that it was asked for |
| `Reconciler.ClusterReconciler.ClusterMapSpecs` | internal/pkg/cluster/reconciler/reconciler.go:66 | Returns the document of the cluster map and logs that it was asked for |
| `Reconciler.ClusterReconciler.NodeListSpecs` | internal/pkg/cluster/reconciler/reconciler.go:71 | Returns the document of the node list and logs that it was asked for |

## Left out

- `Node.Specs` (internal/pkg/node/node.go:121-133) is not modelled. It encodes the export as YAML with the Kubernetes apimachinery codec, whose output is outside this model. Its error message names the node.
- The infra package (`HypervisorList.Sample`, `Hypervisor.RequestPort`) is not part of this model. `Infra.Sample` and `Infra.Hypervisor.RequestPort` state the behaviour node creation relies on: an empty list is an error, and a port is free before it is handed out. The uniform distribution of the draw is not modelled. The port range is a pair of bounds on each hypervisor. A second request by the same (cluster, node) adds one more port; earlier ones stay held.
- The per-node reconciler (`nodereconciler.Reconcile`) is not part of this model. Its effects on nodes, hypervisors and clusters are not represented. Only the call and its inquirer are recorded.
- The inquirer's lookup methods (node, hypervisor and cluster by name) are in a file that is not part of this model.
- The internals of `HypervisorMap.Specs`, `cluster.Map.Specs` and `node.List.Specs` are not part of this model. They are arbitrary functions of their collection that return a document or an error.
- Go pointers: the node list holds `*Node` in Go; here it holds node values. Aliasing between the list, the inquirer and the external reconciler is not modelled.
- Go's distinction between a nil and an empty slice or map is not modelled. Export's port list is a sequence, and it is empty for an empty map.
- Logging (`klog`) is not modelled.
- Port release, port uniqueness across hypervisors and concurrent allocation are not modelled. None of them is implemented in the modelled code.
