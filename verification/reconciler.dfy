/**
 * The cluster reconciler: it holds the hypervisors, clusters and nodes,
 * hands every node to the per-node reconciler, and concatenates the
 * versioned documents of the three collections.
 */
module Reconciler {
  import opened Errors
  import Infra
  import Node

  /** A cluster, addressed by name; its other contents play no part here. */
  datatype Cluster = Cluster(name: string)

  /** The handle given to the per-node reconciler: one node and the reconciler that owns it. */
  datatype Inquirer = Inquirer(node: Node.Node, clusterReconciler: ClusterReconciler)

  /** The three collections whose versioned documents Specs asks for. */
  datatype Collection = Hypervisors | Clusters | Nodes

  class ClusterReconciler {
    var hypervisorMap: map<string, Infra.Hypervisor>
    var clusterMap: map<string, Cluster>
    var nodeList: seq<Node.Node>
    /** Every inquirer handed to the per-node reconciler, oldest first. */
    ghost var visits: seq<Inquirer>
    /** Every collection whose versioned document was asked for, oldest first. */
    ghost var specsRequests: seq<Collection>

    /** Keeps the three collections exactly as given. */
    constructor (hypervisorMap: map<string, Infra.Hypervisor>, clusterMap: map<string, Cluster>, nodeList: seq<Node.Node>)
      ensures this.hypervisorMap == hypervisorMap
      ensures this.clusterMap == clusterMap
      ensures this.nodeList == nodeList
      ensures visits == [] && specsRequests == []
    {
      this.hypervisorMap := hypervisorMap;
      this.clusterMap := clusterMap;
      this.nodeList := nodeList;
      visits := [];
      specsRequests := [];
    }

    /**
     * Hands each node of the list, in order, to the per-node reconciler,
     * once each and without stopping early; always reports no error.
     */
    method Reconcile() returns (err: Option<Error>)
      modifies this`visits
      ensures err == None
      ensures |visits| == |old(visits)| + |nodeList|
      ensures visits[..|old(visits)|] == old(visits)
      ensures forall i :: 0 <= i < |nodeList| ==> visits[|old(visits)| + i] == Inquirer(nodeList[i], this)
      ensures hypervisorMap == old(hypervisorMap) && clusterMap == old(clusterMap) && nodeList == old(nodeList)
    {
      for i := 0 to |nodeList|
        invariant |visits| == |old(visits)| + i
        invariant visits[..|old(visits)|] == old(visits)
        invariant forall k :: 0 <= k < i ==> visits[|old(visits)| + k] == Inquirer(nodeList[k], this)
      {
        ReconcileNode(Inquirer(nodeList[i], this));
      }
      err := None;
    }

    /**
     * Concatenates the documents of the hypervisors, the clusters and the
     * nodes, in that order. The first collection whose document fails stops
     * the aggregation (later ones are not asked for), and the failure is
     * swallowed: the result is then the empty document with no error.
     */
    method Specs(
      hypervisorMapSpecs: map<string, Infra.Hypervisor> -> Result<string>,
      clusterMapSpecs: map<string, Cluster> -> Result<string>,
      nodeListSpecs: seq<Node.Node> -> Result<string>)
      returns (res: string, err: Option<Error>)
      modifies this`specsRequests
      ensures err == None
      ensures hypervisorMapSpecs(hypervisorMap).Failure? ==>
        res == "" && specsRequests == old(specsRequests) + [Hypervisors]
      ensures hypervisorMapSpecs(hypervisorMap).Success? && clusterMapSpecs(clusterMap).Failure? ==>
        res == "" && specsRequests == old(specsRequests) + [Hypervisors, Clusters]
      ensures hypervisorMapSpecs(hypervisorMap).Success? && clusterMapSpecs(clusterMap).Success? ==>
        && specsRequests == old(specsRequests) + [Hypervisors, Clusters, Nodes]
        && res == (if nodeListSpecs(nodeList).Failure? then ""
                   else hypervisorMapSpecs(hypervisorMap).value + clusterMapSpecs(clusterMap).value + nodeListSpecs(nodeList).value)
      ensures hypervisorMap == old(hypervisorMap) && clusterMap == old(clusterMap) && nodeList == old(nodeList)
    {
      res := "";
      var hypervisors := HypervisorMapSpecs(hypervisorMapSpecs);
      if hypervisors.Failure? {
        return "", None;
      }
      res := res + hypervisors.value;
      var clusters := ClusterMapSpecs(clusterMapSpecs);
      if clusters.Failure? {
        return "", None;
      }
      res := res + clusters.value;
      var nodes := NodeListSpecs(nodeListSpecs);
      if nodes.Failure? {
        return "", None;
      }
      res := res + nodes.value;
      err := None;
    }

    // The documents of the three collections. How they are produced is not
    // part of this model: `specs` stands for it, and the call is logged.

    method HypervisorMapSpecs(specs: map<string, Infra.Hypervisor> -> Result<string>) returns (r: Result<string>)
      modifies this`specsRequests
      ensures r == specs(hypervisorMap)
      ensures specsRequests == old(specsRequests) + [Hypervisors]
    {
      specsRequests := specsRequests + [Hypervisors];
      r := specs(hypervisorMap);
    }

    method ClusterMapSpecs(specs: map<string, Cluster> -> Result<string>) returns (r: Result<string>)
      modifies this`specsRequests
      ensures r == specs(clusterMap)
      ensures specsRequests == old(specsRequests) + [Clusters]
    {
      specsRequests := specsRequests + [Clusters];
      r := specs(clusterMap);
    }

    method NodeListSpecs(specs: seq<Node.Node> -> Result<string>) returns (r: Result<string>)
      modifies this`specsRequests
      ensures r == specs(nodeList)
      ensures specsRequests == old(specsRequests) + [Nodes]
    {
      specsRequests := specsRequests + [Nodes];
      r := specs(nodeList);
    }
  }

  /**
   * The per-node reconciler, whose work is not part of this model: all that
   * is recorded of a call is the inquirer it was given.
   */
  method ReconcileNode(inquirer: Inquirer)
    modifies inquirer.clusterReconciler`visits
    ensures inquirer.clusterReconciler.visits == old(inquirer.clusterReconciler.visits) + [inquirer]
  {
    inquirer.clusterReconciler.visits := inquirer.clusterReconciler.visits + [inquirer];
  }
}
