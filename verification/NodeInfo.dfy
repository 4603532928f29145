/** Node filters and the discovery of node pools. */
module NodeInfo {
  import opened Iteration
  import opened Objects
  import opened Tolerations

  const OS_NAME := "feature.node.kubernetes.io/system-os_release.ID"
  const OS_VERSION := "feature.node.kubernetes.io/system-os_release.VERSION_ID"
  const KERNEL := "feature.node.kubernetes.io/kernel-version.full"
  const CPU_ARCH := "kubernetes.io/arch"
  const OSTREE_VERSION := "feature.node.kubernetes.io/system-os_release.OSTREE_VERSION"
  const MLNX_NIC := "feature.node.kubernetes.io/pci-15b3.present"

  datatype Node = Node(name: string, labels: Labels, taints: seq<Taint>, runtimeVersion: string)

  datatype NodePool = NodePool(name: string, osName: string, osVersion: string, rhcosVersion: string,
                               kernel: string, arch: string, containerRuntime: string)

  function PoolName(osName: string, osVersion: string, kernel: string): string {
    osName + osVersion + "-" + kernel
  }

  function ContainerRuntime(version: string): string {
    if "docker" <= version then "docker"
    else if "containerd" <= version then "containerd"
    else if "cri-o" <= version then "cri-o"
    else ""
  }

  /** The known runtime that the version string starts with, if any. */
  lemma ContainerRuntimeExact(version: string)
    ensures ContainerRuntime(version) == "docker" <==> "docker" <= version
    ensures ContainerRuntime(version) == "containerd" <==> "containerd" <= version
    ensures ContainerRuntime(version) == "cri-o" <==> "cri-o" <= version
    ensures ContainerRuntime(version) in {"docker", "containerd", "cri-o", ""}
  {
    assert "docker"[0] == 'd' && "containerd"[1] == 'o' && "cri-o"[1] == 'r';
  }

  /** The four labels a node must carry to join a pool. */
  predicate HasPoolLabels(n: Node) {
    OS_NAME in n.labels && OS_VERSION in n.labels && CPU_ARCH in n.labels && KERNEL in n.labels
  }

  function PoolOf(n: Node): NodePool
    requires HasPoolLabels(n)
  {
    NodePool(
      PoolName(n.labels[OS_NAME], n.labels[OS_VERSION], n.labels[KERNEL]),
      n.labels[OS_NAME], n.labels[OS_VERSION],
      if OSTREE_VERSION in n.labels then n.labels[OSTREE_VERSION] else "",
      n.labels[KERNEL], n.labels[CPU_ARCH], ContainerRuntime(n.runtimeVersion))
  }

  // ---- filters ------------------------------------------------------------------------------

  /** `kept` are the entries of `nodes` at the positions `at`, in order. */
  predicate Picks(kept: seq<Node>, nodes: seq<Node>, at: seq<nat>) {
    && |at| == |kept|
    && (forall i, j :: 0 <= i < j < |at| ==> at[i] < at[j])
    && forall i :: 0 <= i < |at| ==> at[i] < |nodes| && kept[i] == nodes[at[i]]
  }

  ghost predicate CarryingAt(labels: Labels, nodes: seq<Node>, at: seq<nat>) {
    forall i :: 0 <= i < |nodes| ==> (i in at <==> Matches(nodes[i].labels, labels))
  }

  /** `kept` are exactly the nodes that carry all labels, in their order and as often as they occur. */
  ghost predicate Carrying(labels: Labels, nodes: seq<Node>, kept: seq<Node>) {
    exists at :: Picks(kept, nodes, at) && CarryingAt(labels, nodes, at)
  }

  method LabelFilter(labels: Labels, nodes: seq<Node>) returns (filtered: seq<Node>)
    ensures Carrying(labels, nodes, filtered)
  {
    filtered := [];
    ghost var at: seq<nat> := [];
    for i := 0 to |nodes|
      invariant Picks(filtered, nodes[..i], at)
      invariant forall j :: 0 <= j < i ==> (j in at <==> Matches(nodes[j].labels, labels))
    {
      var matched := HasLabels(labels, nodes[i]);
      if matched {
        filtered, at := filtered + [nodes[i]], at + [i];
      }
    }
    assert nodes[..|nodes|] == nodes;
    assert Picks(filtered, nodes, at);
  }

  method HasLabels(labels: Labels, node: Node) returns (matched: bool)
    ensures matched <==> Matches(node.labels, labels)
  {
    var todo := labels.Keys;
    while todo != {}
      invariant todo <= labels.Keys
      invariant forall k :: k in labels && k !in todo ==> k in node.labels && node.labels[k] == labels[k]
      decreases |todo|
    {
      var k :| k in todo;
      if k !in node.labels || node.labels[k] != labels[k] {
        return false;
      }
      todo := todo - {k};
    }
    return true;
  }

  ghost predicate ToleratedAt(cmp: Comparison, tolerations: seq<Toleration>, nodes: seq<Node>, at: seq<nat>) {
    forall i :: 0 <= i < |nodes| ==> (i in at <==> AllTolerated(cmp, tolerations, nodes[i].taints))
  }

  /** `kept` are exactly the nodes all of whose taints are tolerated, in the same way. */
  ghost predicate Tolerated(cmp: Comparison, tolerations: seq<Toleration>, nodes: seq<Node>, kept: seq<Node>) {
    exists at :: Picks(kept, nodes, at) && ToleratedAt(cmp, tolerations, nodes, at)
  }

  method TaintFilter(cmp: Comparison, tolerations: seq<Toleration>, nodes: seq<Node>) returns (filtered: seq<Node>)
    ensures Tolerated(cmp, tolerations, nodes, filtered)
  {
    filtered := [];
    ghost var at: seq<nat> := [];
    for i := 0 to |nodes|
      invariant Picks(filtered, nodes[..i], at)
      invariant forall j :: 0 <= j < i ==> (j in at <==> AllTolerated(cmp, tolerations, nodes[j].taints))
    {
      var tolerated := ToleratesTaints(cmp, tolerations, nodes[i].taints);
      if tolerated {
        filtered, at := filtered + [nodes[i]], at + [i];
      }
    }
    assert nodes[..|nodes|] == nodes;
    assert Picks(filtered, nodes, at);
  }

  method ToleratesTaints(cmp: Comparison, tolerations: seq<Toleration>, taints: seq<Taint>) returns (ok: bool)
    ensures ok <==> AllTolerated(cmp, tolerations, taints)
  {
    for i := 0 to |taints|
      invariant AllTolerated(cmp, tolerations, taints[..i])
    {
      var tolerated := ToleratesTaint(cmp, tolerations, taints[i]);
      if !tolerated {
        return false;
      }
    }
    assert taints[..|taints|] == taints;
    return true;
  }

  method ToleratesTaint(cmp: Comparison, tolerations: seq<Toleration>, taint: Taint) returns (ok: bool)
    ensures ok <==> AnyTolerates(cmp, tolerations, taint)
  {
    for i := 0 to |tolerations|
      invariant !AnyTolerates(cmp, tolerations[..i], taint)
    {
      if Tolerates(cmp, tolerations[i], taint) {
        return true;
      }
    }
    assert tolerations[..|tolerations|] == tolerations;
    return false;
  }

  // ---- pools --------------------------------------------------------------------------------

  predicate DistinctNames(pools: seq<NodePool>) {
    forall i, j :: 0 <= i < j < |pools| ==> pools[i].name != pools[j].name
  }

  function Names(pools: seq<NodePool>): set<string> {
    set i | 0 <= i < |pools| :: pools[i].name
  }

  /** The names of the pools the nodes belong to; nodes without the four labels belong to none. */
  function PoolNames(nodes: seq<Node>): set<string> {
    set n | n in nodes && HasPoolLabels(n) :: PoolOf(n).name
  }

  predicate Joins(n: Node, name: string) {
    HasPoolLabels(n) && PoolOf(n).name == name
  }

  /** The pool's name and attributes are the node's. */
  predicate TakenFrom(n: Node, p: NodePool) {
    && HasPoolLabels(n) && p.name == n.labels[OS_NAME] + n.labels[OS_VERSION] + "-" + n.labels[KERNEL]
    && p.osName == n.labels[OS_NAME] && p.osVersion == n.labels[OS_VERSION]
    && p.kernel == n.labels[KERNEL] && p.arch == n.labels[CPU_ARCH]
    && p.rhcosVersion == (if OSTREE_VERSION in n.labels then n.labels[OSTREE_VERSION] else "")
    && p.containerRuntime == ContainerRuntime(n.runtimeVersion)
  }

  /** `p` is what the first of its nodes says about the pool. */
  predicate Describes(nodes: seq<Node>, p: NodePool) {
    exists i :: 0 <= i < |nodes| && TakenFrom(nodes[i], p)
                && forall j :: 0 <= j < i ==> !Joins(nodes[j], p.name)
  }

  /** `pools` are the pools of the nodes, in any order. */
  ghost predicate Partition(nodes: seq<Node>, pools: seq<NodePool>) {
    && DistinctNames(pools) && Names(pools) == PoolNames(nodes)
    && forall i :: 0 <= i < |pools| ==> Describes(nodes, pools[i])
  }

  method GetNodePools(nodes: seq<Node>) returns (pools: seq<NodePool>)
    ensures Partition(nodes, pools)
  {
    var byName := CollectPools(nodes);
    var names := Enumerate(byName.Keys);
    pools := seq(|names|, i requires 0 <= i < |names| => assert names[i] in names; byName[names[i]]);
    forall name ensures name in Names(pools) <==> name in names {
      if name in names {
        var i :| 0 <= i < |names| && names[i] == name;
        assert pools[i].name == name;
      }
    }
  }

  /** The first node of each pool decides the pool's attributes. */
  method CollectPools(nodes: seq<Node>) returns (byName: map<string, NodePool>)
    ensures byName.Keys == PoolNames(nodes)
    ensures forall name :: name in byName ==> byName[name].name == name && Describes(nodes, byName[name])
  {
    byName := map[];
    for i := 0 to |nodes|
      invariant forall j :: 0 <= j < i && HasPoolLabels(nodes[j]) ==> PoolOf(nodes[j]).name in byName
      invariant forall name :: name in byName ==> byName[name].name == name && Describes(nodes, byName[name])
    {
      var node := nodes[i];
      if HasPoolLabels(node) && PoolOf(node).name !in byName {
        assert forall j :: 0 <= j < i ==> !Joins(nodes[j], PoolOf(node).name);
        assert TakenFrom(nodes[i], PoolOf(node));
        byName := byName[PoolOf(node).name := PoolOf(node)];
      }
    }
    AllNamesCollected(nodes, byName);
  }

  lemma AllNamesCollected(nodes: seq<Node>, byName: map<string, NodePool>)
    requires forall j :: 0 <= j < |nodes| && HasPoolLabels(nodes[j]) ==> PoolOf(nodes[j]).name in byName
    requires forall name :: name in byName ==> byName[name].name == name && Describes(nodes, byName[name])
    ensures byName.Keys == PoolNames(nodes)
  {
    forall name ensures name in byName <==> name in PoolNames(nodes) {
      if name in byName {
        var i :| 0 <= i < |nodes| && TakenFrom(nodes[i], byName[name]);
        assert PoolOf(nodes[i]) == byName[name];
      }
    }
  }

  /** A node the OFED driver can be deployed to. */
  predicate Eligible(cmp: Comparison, crTolerations: seq<Toleration>, n: Node) {
    Matches(n.labels, map[MLNX_NIC := "true"]) && AllTolerated(cmp, SchedulableNodeTolerations(crTolerations), n.taints)
  }

  ghost predicate EligibleAt(cmp: Comparison, nodes: seq<Node>, crTolerations: seq<Toleration>, at: seq<nat>) {
    forall i :: 0 <= i < |nodes| ==> (i in at <==> Eligible(cmp, crTolerations, nodes[i]))
  }

  /** `kept` are exactly the eligible nodes, in the same way. */
  ghost predicate EligibleOf(cmp: Comparison, nodes: seq<Node>, crTolerations: seq<Toleration>, kept: seq<Node>) {
    exists at :: Picks(kept, nodes, at) && EligibleAt(cmp, nodes, crTolerations, at)
  }

  /** `pools` are the pools of the eligible nodes. */
  ghost predicate Discovered(cmp: Comparison, nodes: seq<Node>, crTolerations: seq<Toleration>, pools: seq<NodePool>) {
    exists eligible :: EligibleOf(cmp, nodes, crTolerations, eligible) && Partition(eligible, pools)
  }

  /** Pool discovery end to end. */
  method OfedNodePools(cmp: Comparison, nodes: seq<Node>, crTolerations: seq<Toleration>) returns (pools: seq<NodePool>)
    ensures Discovered(cmp, nodes, crTolerations, pools)
  {
    var nics := LabelFilter(map[MLNX_NIC := "true"], nodes);
    var driver := MergeTolerations(crTolerations, OPERATOR_TOLERATIONS);
    var schedulable := MergeTolerations(driver, DAEMON_SET_CONTROLLER_TOLERATIONS);
    var tolerated := TaintFilter(cmp, schedulable, nics);
    FiltersCompose(cmp, nodes, crTolerations, nics, tolerated);
    pools := GetNodePools(tolerated);
  }

  lemma FiltersComposeAt(cmp: Comparison, nodes: seq<Node>, crTolerations: seq<Toleration>, nics: seq<Node>,
                         outer: seq<nat>,
                         kept: seq<Node>, inner: seq<nat>)
    requires Picks(nics, nodes, outer) && CarryingAt(map[MLNX_NIC := "true"], nodes, outer)
    requires Picks(kept, nics, inner) && ToleratedAt(cmp, SchedulableNodeTolerations(crTolerations), nics, inner)
    ensures EligibleAt(cmp, nodes, crTolerations, Through(outer, inner))
  {
    PicksThrough(nodes, nics, outer, kept, inner);
    forall i | 0 <= i < |nodes| ensures i in Through(outer, inner) <==> Eligible(cmp, crTolerations, nodes[i]) {
      assert forall j :: 0 <= j < |outer| && outer[j] == i ==> nics[j] == nodes[i];
    }
  }

  lemma FiltersCompose(cmp: Comparison, nodes: seq<Node>, crTolerations: seq<Toleration>, nics: seq<Node>,
                       kept: seq<Node>)
    requires Carrying(map[MLNX_NIC := "true"], nodes, nics)
    requires Tolerated(cmp, SchedulableNodeTolerations(crTolerations), nics, kept)
    ensures EligibleOf(cmp, nodes, crTolerations, kept)
  {
    var outer :| Picks(nics, nodes, outer) && CarryingAt(map[MLNX_NIC := "true"], nodes, outer);
    var inner :| Picks(kept, nics, inner) && ToleratedAt(cmp, SchedulableNodeTolerations(crTolerations), nics, inner);
    PicksThrough(nodes, nics, outer, kept, inner);
    FiltersComposeAt(cmp, nodes, crTolerations, nics, outer, kept, inner);
  }

  ghost function Through(outer: seq<nat>, inner: seq<nat>): seq<nat>
    requires forall i :: 0 <= i < |inner| ==> inner[i] < |outer|
  {
    seq(|inner|, i requires 0 <= i < |inner| => outer[inner[i]])
  }

  lemma PicksThrough(nodes: seq<Node>, some: seq<Node>, outer: seq<nat>, kept: seq<Node>, inner: seq<nat>)
    requires Picks(some, nodes, outer) && Picks(kept, some, inner)
    ensures Picks(kept, nodes, Through(outer, inner))
    ensures forall i :: i in Through(outer, inner) <==> exists j :: 0 <= j < |outer| && outer[j] == i && j in inner
  {
    var at := Through(outer, inner);
    forall j | 0 <= j < |outer| && j in inner ensures outer[j] in at {
      var l :| 0 <= l < |inner| && inner[l] == j;
      assert at[l] == outer[j];
    }
    forall i | i in at ensures exists j :: 0 <= j < |outer| && outer[j] == i && j in inner {
      var l :| 0 <= l < |at| && at[l] == i;
      assert outer[inner[l]] == i && inner[l] in inner;
    }
  }

  /** The names of the discovered pools are those of the eligible nodes with the four labels. */
  lemma LivePools(cmp: Comparison, nodes: seq<Node>, crTolerations: seq<Toleration>, pools: seq<NodePool>)
    requires Discovered(cmp, nodes, crTolerations, pools)
    ensures Names(pools) == set n | n in nodes && Eligible(cmp, crTolerations, n) && HasPoolLabels(n) :: PoolOf(n).name
  {
    var eligible :| EligibleOf(cmp, nodes, crTolerations, eligible) && Partition(eligible, pools);
    var at :| Picks(eligible, nodes, at) && EligibleAt(cmp, nodes, crTolerations, at);
    forall n ensures n in eligible <==> n in nodes && Eligible(cmp, crTolerations, n) {
      if n in eligible {
        var i :| 0 <= i < |eligible| && eligible[i] == n;
        assert at[i] in at;
      }
      if n in nodes && Eligible(cmp, crTolerations, n) {
        var i :| 0 <= i < |nodes| && nodes[i] == n;
        var j :| 0 <= j < |at| && at[j] == i;
        assert eligible[j] == n;
      }
    }
  }

  /** Discovery is no stricter than scheduling: a NIC node whose taints the driver pod template
      tolerates is eligible. */
  lemma TemplateTolerationsSuffice(cmp: Comparison, crTolerations: seq<Toleration>, n: Node)
    requires Matches(n.labels, map[MLNX_NIC := "true"])
    requires AllTolerated(cmp, DriverPodTolerations(crTolerations), n.taints)
    ensures Eligible(cmp, crTolerations, n)
  {
    forall i | 0 <= i < |n.taints| ensures AnyTolerates(cmp, SchedulableNodeTolerations(crTolerations), n.taints[i]) {
      SchedulableMeansUnion(cmp, crTolerations, n.taints[i]);
    }
  }

  /** What eligibility comes to: the NIC label, and every taint tolerated by the policy, by the driver's
      own tolerations or by those the DaemonSet controller adds. */
  lemma EligibleExact(cmp: Comparison, crTolerations: seq<Toleration>, n: Node)
    ensures Eligible(cmp, crTolerations, n) <==>
            && MLNX_NIC in n.labels && n.labels[MLNX_NIC] == "true"
            && forall i :: 0 <= i < |n.taints| ==>
                 || AnyTolerates(cmp, crTolerations, n.taints[i])
                 || AnyTolerates(cmp, OPERATOR_TOLERATIONS, n.taints[i])
                 || AnyTolerates(cmp, DAEMON_SET_CONTROLLER_TOLERATIONS, n.taints[i])
  {
    forall i | 0 <= i < |n.taints|
      ensures AnyTolerates(cmp, SchedulableNodeTolerations(crTolerations), n.taints[i]) <==>
              || AnyTolerates(cmp, crTolerations, n.taints[i])
              || AnyTolerates(cmp, OPERATOR_TOLERATIONS, n.taints[i])
              || AnyTolerates(cmp, DAEMON_SET_CONTROLLER_TOLERATIONS, n.taints[i])
    {
      SchedulableMeansUnion(cmp, crTolerations, n.taints[i]);
    }
  }

  // ---- selectors ----------------------------------------------------------------------------

  /** The pool a rendered selector pins, if it pins one. */
  function PoolNameFromSelector(selector: Labels): Option<string> {
    if OS_NAME in selector && OS_VERSION in selector && KERNEL in selector
    then Some(PoolName(selector[OS_NAME], selector[OS_VERSION], selector[KERNEL]))
    else None
  }

  /** The policy asks for a label the rendered selector does not pin to the same value. */
  predicate Retargeted(rendered: Labels, policy: Labels) {
    exists k :: k in policy && (k !in rendered || rendered[k] != policy[k])
  }

  /** The manifest's selector: pool labels first, the policy's own entries over them. */
  function RenderedSelector(pool: NodePool, useDtk: bool, policy: Labels): Labels {
    map[MLNX_NIC := "true", OS_NAME := pool.osName, OS_VERSION := pool.osVersion, KERNEL := pool.kernel]
    + (if useDtk then map[OSTREE_VERSION := pool.rhcosVersion] else map[])
    + policy
  }

  /** Retargeting is about nodes: some node could run the old pods and is not the policy's any more. */
  lemma RetargetedMeansLostNode(rendered: Labels, policy: Labels)
    ensures Retargeted(rendered, policy) <==>
            exists labels: Labels :: Matches(labels, rendered) && !Matches(labels, policy)
  {
    if Retargeted(rendered, policy) {
      assert Matches(rendered, rendered) && !Matches(rendered, policy);
    }
    if labels: Labels :| Matches(labels, rendered) && !Matches(labels, policy) {
      var k :| k in policy && (k !in labels || labels[k] != policy[k]);
      assert k in rendered ==> labels[k] == rendered[k];
    }
  }

  lemma PoolLabelsDistinct()
    ensures MLNX_NIC != OS_NAME && MLNX_NIC != OS_VERSION && MLNX_NIC != KERNEL
    ensures OS_NAME != OS_VERSION && OS_NAME != KERNEL && OS_VERSION != KERNEL
    ensures OSTREE_VERSION != OS_NAME && OSTREE_VERSION != OS_VERSION && OSTREE_VERSION != KERNEL
  {
  }

  /** The selector rendered for a pool discovered among the policy's own nodes leads back to that
      pool, and the policy that rendered it has not retargeted it. */
  lemma RenderedSelectorRoundTrip(nodes: seq<Node>, policy: Labels, n: Node, useDtk: bool)
    requires forall m :: m in nodes ==> Matches(m.labels, policy)
    requires n in nodes && HasPoolLabels(n)
    ensures PoolNameFromSelector(RenderedSelector(PoolOf(n), useDtk, policy)) == Some(PoolOf(n).name)
    ensures !Retargeted(RenderedSelector(PoolOf(n), useDtk, policy), policy)
  {
    PoolLabelsDistinct();
    assert OS_NAME in policy ==> policy[OS_NAME] == n.labels[OS_NAME];
    assert OS_VERSION in policy ==> policy[OS_VERSION] == n.labels[OS_VERSION];
    assert KERNEL in policy ==> policy[KERNEL] == n.labels[KERNEL];
  }

  /** The pods of a pool's DaemonSet can run on the pool's nodes: a NIC node of the policy with the
      labels the pool was derived from matches the selector rendered for it. */
  lemma RenderedSelectorMatchesPool(policy: Labels, n: Node, m: Node, useDtk: bool)
    requires HasPoolLabels(n) && HasPoolLabels(m)
    requires Matches(m.labels, map[MLNX_NIC := "true"]) && Matches(m.labels, policy)
    requires m.labels[OS_NAME] == n.labels[OS_NAME] && m.labels[OS_VERSION] == n.labels[OS_VERSION]
    requires m.labels[KERNEL] == n.labels[KERNEL]
    requires useDtk ==> OSTREE_VERSION in n.labels && OSTREE_VERSION in m.labels
    requires useDtk ==> m.labels[OSTREE_VERSION] == n.labels[OSTREE_VERSION]
    ensures Matches(m.labels, RenderedSelector(PoolOf(n), useDtk, policy))
  {
    PoolLabelsDistinct();
    var selector := RenderedSelector(PoolOf(n), useDtk, policy);
    forall l | l in selector ensures l in m.labels && m.labels[l] == selector[l] {
      assert MLNX_NIC in map[MLNX_NIC := "true"];
    }
  }
}
