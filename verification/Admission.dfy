/** The admission webhooks' cross-policy checks, and what they keep true over every history of
    admitted writes. */
module Admission {
  import opened Objects
  import opened PolicyOverlap

  datatype ClusterPolicy = ClusterPolicy(name: string, sections: set<Section>)

  /** The listed policies with the incoming one in place of its namesake, or at the end. */
  function Replaced(ps: seq<NodePolicy>, incoming: NodePolicy): seq<NodePolicy> {
    Substituted(ps, incoming) + if HasName(ps, incoming.name) then [] else [incoming]
  }

  function Substituted(ps: seq<NodePolicy>, incoming: NodePolicy): seq<NodePolicy> {
    seq(|ps|, i requires 0 <= i < |ps| => if ps[i].name == incoming.name then incoming else ps[i])
  }

  predicate HasName(ps: seq<NodePolicy>, name: string) {
    exists i :: 0 <= i < |ps| && ps[i].name == name
  }

  ghost predicate Conflicting(clusterSections: set<Section>, ps: seq<NodePolicy>) {
    exists i :: 0 <= i < |ps| && ps[i].sections * clusterSections != {}
  }

  /** The decision on a NicClusterPolicy; `None` is a listing that failed, which admits. */
  ghost predicate ClusterPolicyRejected(incoming: ClusterPolicy, nodePolicies: Option<seq<NodePolicy>>) {
    nodePolicies.Some? && Conflicting(incoming.sections, nodePolicies.value)
  }

  /** The decision on a NicNodePolicy: the first listed cluster policy counts, and every listing
      must have succeeded to get as far as the next check. */
  ghost predicate NodePolicyRejected(incoming: NodePolicy, clusterPolicies: Option<seq<ClusterPolicy>>,
                                     nodePolicies: Option<seq<NodePolicy>>, view: View)
  {
    clusterPolicies.Some? &&
    ((clusterPolicies.value != [] && Conflicting(clusterPolicies.value[0].sections, [incoming]))
     || (nodePolicies.Some?
         && var all := Replaced(nodePolicies.value, incoming); Readable(all, view) && Overlapping(all, view)))
  }

  lemma ConflictsDecide(sections: set<Section>, ps: seq<NodePolicy>, conflicts: seq<SectionConflict>)
    requires forall c :: c in conflicts <==>
               exists i :: 0 <= i < |ps| && ps[i].name == c.policyName && c.section in ps[i].sections * sections
    ensures conflicts != [] <==> Conflicting(sections, ps)
  {
    if conflicts != [] {
      assert conflicts[0] in conflicts;
    }
    if i :| 0 <= i < |ps| && ps[i].sections * sections != {} {
      var s :| s in ps[i].sections * sections;
      assert SectionConflict(s, ps[i].name) in conflicts;
    }
  }

  method ValidateNicClusterPolicyOverlap(incoming: ClusterPolicy, nodePolicies: Option<seq<NodePolicy>>)
    returns (rejected: bool)
    ensures rejected <==> ClusterPolicyRejected(incoming, nodePolicies)
    ensures nodePolicies.None? ==> !rejected
  {
    if nodePolicies.None? {
      return false;
    }
    var conflicts := DetectSectionConflict(incoming.sections, nodePolicies.value);
    ConflictsDecide(incoming.sections, nodePolicies.value, conflicts);
    return |conflicts| > 0;
  }

  method ValidateNicNodePolicyOverlap(incoming: NodePolicy, clusterPolicies: Option<seq<ClusterPolicy>>,
                                      nodePolicies: Option<seq<NodePolicy>>, view: View)
    returns (rejected: bool)
    requires nodePolicies.Some? ==> DistinctPolicies(nodePolicies.value)
    ensures rejected <==> NodePolicyRejected(incoming, clusterPolicies, nodePolicies, view)
    ensures clusterPolicies.None? ==> !rejected
    ensures clusterPolicies.Some? && (nodePolicies.None? || !Readable(Replaced(nodePolicies.value, incoming), view)) ==>
      (rejected <==> clusterPolicies.value != [] && incoming.sections * clusterPolicies.value[0].sections != {})
  {
    if clusterPolicies.None? {
      return false;
    }
    assert [incoming][0] == incoming;
    if |clusterPolicies.value| > 0 {
      var conflicts := DetectSectionConflict(clusterPolicies.value[0].sections, [incoming]);
      ConflictsDecide(clusterPolicies.value[0].sections, [incoming], conflicts);
      if |conflicts| > 0 {
        return true;
      }
    }
    if nodePolicies.None? {
      return false;
    }
    var all := AllPolicies(nodePolicies.value, incoming);
    ReplacedDistinct(nodePolicies.value, incoming);
    if |all| < 2 {
      return false;
    }
    var overlaps, ok := DetectNodeOverlap(all, view);
    if !ok {
      return false;
    }
    ExactOverlapsDecide(all, view, overlaps);
    return |overlaps| > 0;
  }

  method AllPolicies(ps: seq<NodePolicy>, incoming: NodePolicy) returns (all: seq<NodePolicy>)
    ensures all == Replaced(ps, incoming)
  {
    all := [];
    var found := false;
    for n := 0 to |ps|
      invariant all == Substituted(ps[..n], incoming)
      invariant found <==> HasName(ps[..n], incoming.name)
    {
      if ps[n].name == incoming.name {
        all := all + [incoming];
        found := true;
      } else {
        all := all + [ps[n]];
      }
      HasNameSnoc(ps, n, incoming.name);
    }
    assert ps[..|ps|] == ps;
    if !found {
      all := all + [incoming];
    }
  }

  lemma HasNameSnoc(ps: seq<NodePolicy>, n: nat, name: string)
    requires n < |ps|
    ensures HasName(ps[..n + 1], name) <==> HasName(ps[..n], name) || ps[n].name == name
  {
  }

  lemma ReplacedDistinct(ps: seq<NodePolicy>, incoming: NodePolicy)
    requires DistinctPolicies(ps)
    ensures DistinctPolicies(Replaced(ps, incoming))
    ensures forall p :: p in Replaced(ps, incoming) <==> p == incoming || (p in ps && p.name != incoming.name)
  {
    var all := Replaced(ps, incoming);
    forall p | p in ps && p.name != incoming.name ensures p in all {
      var i :| 0 <= i < |ps| && ps[i] == p;
      assert all[i] == p;
    }
    assert incoming in all by {
      if i :| 0 <= i < |ps| && ps[i].name == incoming.name {
        assert all[i] == incoming;
      } else {
        assert all[|ps|] == incoming;
      }
    }
  }

  // ---- histories ----------------------------------------------------------------------------

  /** The policies in the cluster by name. */
  datatype Policies = Policies(cluster: map<string, ClusterPolicy>, node: map<string, NodePolicy>)

  const NO_POLICIES := Policies(map[], map[])

  datatype Write =
    | PutCluster(c: ClusterPolicy)
    | DeleteCluster(name: string)
    | PutNode(p: NodePolicy)
    | DeleteNode(name: string)

  /** Complete listings of both kinds, in any order. */
  datatype Listing = Listing(cluster: seq<ClusterPolicy>, node: seq<NodePolicy>)

  ghost predicate WellNamed(s: Policies) {
    && (forall name :: name in s.node ==> s.node[name].name == name)
    && (forall name :: name in s.cluster ==> s.cluster[name].name == name)
  }

  ghost predicate ListingOf(l: Listing, s: Policies) {
    && DistinctPolicies(l.node)
    && (forall p :: p in l.node <==> p.name in s.node && s.node[p.name] == p)
    && (forall c :: c in l.cluster <==> c.name in s.cluster && s.cluster[c.name] == c)
  }

  /** All node listings succeed and see the same nodes. */
  function Snapshot(nodes: seq<ClusterNode>): View {
    (p: NodePolicy) => Some(nodes)
  }

  /** What the webhook, with a readable API, lets through; deletions always pass. */
  ghost predicate Admitted(nodes: seq<ClusterNode>, l: Listing, w: Write) {
    match w
    case PutCluster(c) => !ClusterPolicyRejected(c, Some(l.node))
    case PutNode(p) => !NodePolicyRejected(p, Some(l.cluster), Some(l.node), Snapshot(nodes))
    case _ => true
  }

  function AfterWrite(s: Policies, w: Write): Policies {
    match w
    case PutCluster(c) => s.(cluster := s.cluster[c.name := c])
    case DeleteCluster(name) => s.(cluster := s.cluster - {name})
    case PutNode(p) => s.(node := s.node[p.name := p])
    case DeleteNode(name) => s.(node := s.node - {name})
  }

  /** No node has two node policies, and no section is defined by both kinds. */
  ghost predicate Exclusive(s: Policies, nodes: seq<ClusterNode>) {
    && (forall a, b, n ::
          a in s.node && b in s.node && a != b && n in nodes && Matches(n.labels, s.node[a].selector) ==>
            !Matches(n.labels, s.node[b].selector))
    && (forall c, a :: c in s.cluster && a in s.node ==> s.node[a].sections * s.cluster[c].sections == {})
  }

  /** The cluster policies that are not compared, all but the first listed, define no section of a
      node policy that is written. With at most one cluster policy this is always so. */
  ghost predicate FirstDecides(l: Listing, w: Write) {
    w.PutNode? ==> forall i :: 0 < i < |l.cluster| ==> w.p.sections * l.cluster[i].sections == {}
  }

  lemma NoOverlapMeansExclusive(s: Policies, nodes: seq<ClusterNode>, l: Listing, p: NodePolicy,
                                a: string, b: string, n: ClusterNode)
    requires WellNamed(s) && ListingOf(l, s) && !Overlapping(Replaced(l.node, p), Snapshot(nodes))
    requires
      var after := s.node[p.name := p];
      a in after && b in after && a != b && n in nodes && Matches(n.labels, after[a].selector)
    ensures !Matches(n.labels, s.node[p.name := p][b].selector)
  {
    var after, all := s.node[p.name := p], Replaced(l.node, p);
    ReplacedDistinct(l.node, p);
    SelectsMember(all, nodes, after[a], n);
    if Matches(n.labels, after[b].selector) {
      SelectsMember(all, nodes, after[b], n);
    }
  }

  lemma SelectsMember(ps: seq<NodePolicy>, nodes: seq<ClusterNode>, p: NodePolicy, n: ClusterNode)
    requires p in ps && n in nodes && Matches(n.labels, p.selector)
    ensures Selects(ps, Snapshot(nodes), p.name, n.name)
  {
    assert n.name in NodesOf(Snapshot(nodes), p);
  }

  lemma MemberSelects(ps: seq<NodePolicy>, nodes: seq<ClusterNode>, policy: string, node: string)
    returns (p: NodePolicy, n: ClusterNode)
    requires Selects(ps, Snapshot(nodes), policy, node)
    ensures p in ps && p.name == policy && n in nodes && n.name == node && Matches(n.labels, p.selector)
  {
    var i :| 0 <= i < |ps| && ps[i].name == policy && node in NodesOf(Snapshot(nodes), ps[i]);
    p := ps[i];
    n :| n in nodes && Matches(n.labels, p.selector) && n.name == node;
  }

  /** Neither the first nor another listed cluster policy defines a section of `p`. */
  lemma SectionsStayApart(s: Policies, nodes: seq<ClusterNode>, l: Listing, p: NodePolicy, c: string)
    requires ListingOf(l, s) && Admitted(nodes, l, PutNode(p)) && FirstDecides(l, PutNode(p))
    requires WellNamed(s) && c in s.cluster
    ensures p.sections * s.cluster[c].sections == {}
  {
    assert s.cluster[c] in l.cluster;
    var i :| 0 <= i < |l.cluster| && l.cluster[i] == s.cluster[c];
    if i == 0 {
      assert [p][0].sections * l.cluster[0].sections == {};
    }
  }

  lemma AdmittedKeepsExclusive(s: Policies, nodes: seq<ClusterNode>, l: Listing, w: Write)
    requires WellNamed(s) && Exclusive(s, nodes) && ListingOf(l, s) && Admitted(nodes, l, w) && FirstDecides(l, w)
    ensures WellNamed(AfterWrite(s, w)) && Exclusive(AfterWrite(s, w), nodes)
  {
    match w
    case PutCluster(c) =>
      forall a | a in s.node ensures s.node[a].sections * c.sections == {} {
        assert s.node[a] in l.node;
        var i :| 0 <= i < |l.node| && l.node[i] == s.node[a];
      }
    case PutNode(p) =>
      var after := s.node[p.name := p];
      forall a, b, n | a in after && b in after && a != b && n in nodes && Matches(n.labels, after[a].selector)
        ensures !Matches(n.labels, after[b].selector)
      {
        assert Readable(Replaced(l.node, p), Snapshot(nodes));
        NoOverlapMeansExclusive(s, nodes, l, p, a, b, n);
      }
      forall c | c in s.cluster ensures p.sections * s.cluster[c].sections == {} {
        SectionsStayApart(s, nodes, l, p, c);
      }
    case _ =>
  }

  ghost predicate History(states: seq<Policies>, nodes: seq<ClusterNode>, listings: seq<Listing>, writes: seq<Write>) {
    && |states| == |writes| + 1 && |listings| == |writes|
    && forall i :: 0 <= i < |writes| ==>
      && ListingOf(listings[i], states[i]) && Admitted(nodes, listings[i], writes[i])
      && states[i + 1] == AfterWrite(states[i], writes[i])
  }

  /** For every history of admitted creates, updates and deletes from an empty cluster in which the
      first cluster policy decides, in particular if there is never more than one. */
  lemma {:induction false} PoliciesStayExclusive(states: seq<Policies>, nodes: seq<ClusterNode>, listings: seq<Listing>,
                                                 writes: seq<Write>, n: nat)
    requires History(states, nodes, listings, writes) && states[0] == NO_POLICIES && n <= |writes|
    requires forall i :: 0 <= i < n ==> FirstDecides(listings[i], writes[i])
    ensures WellNamed(states[n]) && Exclusive(states[n], nodes)
  {
    if n > 0 {
      PoliciesStayExclusive(states, nodes, listings, writes, n - 1);
      AdmittedKeepsExclusive(states[n - 1], nodes, listings[n - 1], writes[n - 1]);
    }
  }

  /** The check rejects nothing but what would break exclusivity, and misses exactly the cluster
      policies after the first: the policies after a write to exclusive ones are exclusive if and
      only if it is admitted and the first cluster policy decides. */
  lemma AdmittedIffExclusive(s: Policies, nodes: seq<ClusterNode>, l: Listing, w: Write)
    requires WellNamed(s) && Exclusive(s, nodes) && ListingOf(l, s)
    requires forall m, n :: m in nodes && n in nodes && m.name == n.name ==> m == n
    ensures Admitted(nodes, l, w) && FirstDecides(l, w) <==> Exclusive(AfterWrite(s, w), nodes)
    ensures |l.cluster| <= 1 ==> (Admitted(nodes, l, w) <==> Exclusive(AfterWrite(s, w), nodes))
  {
    if Admitted(nodes, l, w) && FirstDecides(l, w) {
      AdmittedKeepsExclusive(s, nodes, l, w);
    } else if w.PutCluster? {
      var i :| 0 <= i < |l.node| && l.node[i].sections * w.c.sections != {};
      assert l.node[i] in l.node && AfterWrite(s, w).cluster[w.c.name] == w.c;
    } else {
      RejectedBreaksExclusive(s, nodes, l, w.p);
    }
  }

  lemma RejectedBreaksExclusive(s: Policies, nodes: seq<ClusterNode>, l: Listing, p: NodePolicy)
    requires WellNamed(s) && ListingOf(l, s)
    requires !Admitted(nodes, l, PutNode(p)) || !FirstDecides(l, PutNode(p))
    requires forall m, n :: m in nodes && n in nodes && m.name == n.name ==> m == n
    ensures !Exclusive(AfterWrite(s, PutNode(p)), nodes)
  {
    var after, all := s.node[p.name := p], Replaced(l.node, p);
    if Overlapping(all, Snapshot(nodes)) {
      ReplacedDistinct(l.node, p);
      var a, b, node :| a != b && Selects(all, Snapshot(nodes), a, node) && Selects(all, Snapshot(nodes), b, node);
      var pa, m := MemberSelects(all, nodes, a, node);
      var pb, m' := MemberSelects(all, nodes, b, node);
      assert m == m' && after[a] == pa && after[b] == pb;
    } else {
      var i :| 0 <= i < |l.cluster| && p.sections * l.cluster[i].sections != {};
      assert l.cluster[i] in l.cluster && after[p.name].sections * s.cluster[l.cluster[i].name].sections != {};
    }
  }

  const PLAIN := ClusterPolicy("nic-cluster-policy", {})
  const SECOND := ClusterPolicy("second", {OfedDriver})
  const OFED_NODE := NodePolicy("n", map[], {OfedDriver})

  /** Three admitted writes to an empty cluster after which the driver section is defined by a cluster
      policy and by a node policy, because the node policy is only compared with the first one listed. */
  lemma SecondClusterPolicyIsIgnored(nodes: seq<ClusterNode>)
    returns (states: seq<Policies>, listings: seq<Listing>, writes: seq<Write>)
    ensures History(states, nodes, listings, writes) && |writes| == 3 && states[0] == NO_POLICIES
    ensures states[3] == Policies(map[PLAIN.name := PLAIN, SECOND.name := SECOND], map[OFED_NODE.name := OFED_NODE])
    ensures !Exclusive(states[3], nodes)
  {
    var s1 := Policies(map[PLAIN.name := PLAIN], map[]);
    var s2 := Policies(map[PLAIN.name := PLAIN, SECOND.name := SECOND], map[]);
    var s3 := s2.(node := map[OFED_NODE.name := OFED_NODE]);
    states := [NO_POLICIES, s1, s2, s3];
    writes := [PutCluster(PLAIN), PutCluster(SECOND), PutNode(OFED_NODE)];
    listings := [Listing([], []), Listing([PLAIN], []), Listing([PLAIN, SECOND], [])];
    assert PLAIN.name != SECOND.name;
    assert OfedDriver in s3.node[OFED_NODE.name].sections * s3.cluster[SECOND.name].sections;
  }
}
