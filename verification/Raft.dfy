/** The shutdown check of the GoQuorum Raft consensus. */
module Raft {
  import opened Basics

  datatype Role = Minter | Learner | Verifier

  /** One entry of the reply of raft_cluster. */
  datatype ClusterEntry = ClusterEntry(nodeId: string, active: bool)

  datatype Error =
    | RoleFailed
    | MinterCannotStop
    | ClusterFailed
    | QuorumFailed(active: int, required: int)

  /** The indices of the entries reported active, and of the others. */
  ghost function Active(cluster: seq<ClusterEntry>): set<int> {
    set i | 0 <= i < |cluster| && cluster[i].active
  }

  ghost function Inactive(cluster: seq<ClusterEntry>): set<int> {
    set i | 0 <= i < |cluster| && !cluster[i].active
  }

  function MinActive(n: nat): nat {
    n / 2 + 1
  }

  /** When a node that is neither minter nor learner may hibernate. */
  ghost predicate Accepts(cluster: seq<ClusterEntry>) {
    |Active(cluster)| > MinActive(|cluster|)
  }

  method ValidateShutdown(role: Result<Role>, cluster: Result<seq<ClusterEntry>>)
    returns (member: bool, err: Option<Error>)
    ensures member <==> role == Ok(Minter) || role == Ok(Verifier)
    ensures role.Failed? ==> err == Some(RoleFailed)
    ensures role == Ok(Learner) ==> err == None
    ensures role == Ok(Minter) ==> err == Some(MinterCannotStop)
    ensures role == Ok(Verifier) && cluster.Failed? ==> err == Some(ClusterFailed)
    ensures role == Ok(Verifier) && cluster.Ok? ==> (err == None <==> Accepts(cluster.value))
    // one more down still leaves a majority
    ensures role == Ok(Verifier) && cluster.Ok? ==>
              (err == None <==>
               2 * (|set i | 0 <= i < |cluster.value| && !cluster.value[i].active| + 1) < |cluster.value|)
    ensures role == Ok(Verifier) && cluster.Ok? && err.Some? ==>
              err.value == QuorumFailed(|Active(cluster.value)|, MinActive(|cluster.value|))
  {
    if role.Failed? {
      return false, Some(RoleFailed);
    }
    if role.value == Learner {
      return false, None;
    }
    if role.value == Minter {
      return true, Some(MinterCannotStop);
    }
    if cluster.Failed? {
      return true, Some(ClusterFailed);
    }
    var activeNodes := ActiveNodes(cluster.value);
    CountsFillCluster(cluster.value);
    assert Inactive(cluster.value) == set i | 0 <= i < |cluster.value| && !cluster.value[i].active;
    var minActiveNodes := |cluster.value| / 2 + 1;
    if activeNodes <= minActiveNodes {
      return true, Some(QuorumFailed(activeNodes, minActiveNodes));
    }
    return true, None;
  }

  method ActiveNodes(entries: seq<ClusterEntry>) returns (activeNodes: nat)
    ensures activeNodes == |Active(entries)|
  {
    activeNodes := 0;
    for i := 0 to |entries|
      invariant activeNodes == |Active(entries[..i])|
    {
      assert entries[..i + 1][..i] == entries[..i];
      ActiveOfFront(entries[..i + 1], i);
      if entries[i].active {
        activeNodes := activeNodes + 1;
      }
    }
    assert entries[..|entries|] == entries;
  }

  lemma ActiveOfFront(cluster: seq<ClusterEntry>, n: nat)
    requires |cluster| == n + 1
    ensures Active(cluster) == Active(cluster[..n]) + if cluster[n].active then {n} else {}
  {
  }

  lemma InactiveOfFront(cluster: seq<ClusterEntry>, n: nat)
    requires |cluster| == n + 1
    ensures Inactive(cluster) == Inactive(cluster[..n]) + if cluster[n].active then {} else {n}
  {
  }

  /** Every entry is either active or not: the two counts fill the cluster. */
  lemma {:induction false} CountsFillCluster(cluster: seq<ClusterEntry>)
    ensures |Active(cluster)| + |Inactive(cluster)| == |cluster|
    decreases |cluster|
  {
    if cluster == [] {
      assert Active(cluster) == {} && Inactive(cluster) == {};
    } else {
      var n := |cluster| - 1;
      CountsFillCluster(cluster[..n]);
      ActiveOfFront(cluster, n);
      InactiveOfFront(cluster, n);
    }
  }
}
