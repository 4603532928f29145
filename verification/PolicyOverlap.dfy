/** Node overlap between NicNodePolicies and section conflicts with the NicClusterPolicy. */
module PolicyOverlap {
  import opened Iteration
  import opened Objects
  import opened Sorting

  datatype Section = OfedDriver | RdmaSharedDevicePlugin | SriovDevicePlugin

  const SECTIONS: seq<Section> := [OfedDriver, RdmaSharedDevicePlugin, SriovDevicePlugin]

  datatype NodePolicy = NodePolicy(name: string, selector: Labels, sections: set<Section>)

  datatype ClusterNode = ClusterNode(name: string, labels: Labels)

  datatype NodeOverlap = NodeOverlap(nodeName: string, policyNames: seq<string>)

  datatype SectionConflict = SectionConflict(section: Section, policyName: string)

  predicate DistinctPolicies(ps: seq<NodePolicy>) {
    forall i, j :: 0 <= i < j < |ps| ==> ps[i].name != ps[j].name
  }

  /** The nodes in the cluster when they are listed for a policy; each policy has a listing of its
      own, which may fail. */
  type View = NodePolicy -> Option<seq<ClusterNode>>

  predicate Readable(ps: seq<NodePolicy>, view: View) {
    forall i :: 0 <= i < |ps| ==> view(ps[i]).Some?
  }

  /** The names of the nodes listed for a policy; an empty selector selects all. */
  function NodesOf(view: View, p: NodePolicy): set<string> {
    if view(p).None? then {} else set n | n in view(p).value && Matches(n.labels, p.selector) :: n.name
  }

  /** The policy called `policy` selects the node called `node`. */
  ghost predicate Selects(ps: seq<NodePolicy>, view: View, policy: string, node: string) {
    exists i :: 0 <= i < |ps| && ps[i].name == policy && node in NodesOf(view, ps[i])
  }

  /** The exact meaning of an overlap report: one entry per node that at least two policies select,
      ascending by node, each with all its policies in ascending order. */
  ghost predicate ExactOverlaps(ps: seq<NodePolicy>, view: View, overlaps: seq<NodeOverlap>) {
    && Ascending(overlaps, (o: NodeOverlap) => o.nodeName)
    && (forall o :: o in overlaps ==>
      && |o.policyNames| >= 2 && Ascending(o.policyNames, (s: string) => s)
      && forall p :: p in o.policyNames <==> Selects(ps, view, p, o.nodeName))
    && (forall p, q, node :: p != q && Selects(ps, view, p, node) && Selects(ps, view, q, node) ==>
      exists o :: o in overlaps && o.nodeName == node)
  }

  /** Some node is selected by two policies. */
  ghost predicate Overlapping(ps: seq<NodePolicy>, view: View) {
    exists p, q, node :: p != q && Selects(ps, view, p, node) && Selects(ps, view, q, node)
  }

  lemma ExactOverlapsDecide(ps: seq<NodePolicy>, view: View, overlaps: seq<NodeOverlap>)
    requires ExactOverlaps(ps, view, overlaps)
    ensures overlaps != [] <==> Overlapping(ps, view)
  {
    if overlaps != [] {
      var o := overlaps[0];
      var key := (s: string) => s;
      var p, q := o.policyNames[0], o.policyNames[1];
      Trichotomy(p, q);
      assert o in overlaps && Less(key(p), key(q));
      assert p in o.policyNames && q in o.policyNames;
      assert Selects(ps, view, p, o.nodeName) && Selects(ps, view, q, o.nodeName);
    }
  }

  /** Fails if and only if the listing for a policy that passes the filter does. */
  method ResolveNodesByPolicy(ps: seq<NodePolicy>, view: View, filter: NodePolicy -> bool)
    returns (byPolicy: map<string, set<string>>, ok: bool)
    requires DistinctPolicies(ps)
    ensures ok <==> forall i :: 0 <= i < |ps| && filter(ps[i]) ==> view(ps[i]).Some?
    ensures ok ==> forall name :: name in byPolicy <==> exists i :: 0 <= i < |ps| && ps[i].name == name && filter(ps[i])
    ensures ok ==> forall i :: 0 <= i < |ps| && filter(ps[i]) ==> byPolicy[ps[i].name] == NodesOf(view, ps[i])
  {
    byPolicy := map[];
    for n := 0 to |ps|
      invariant forall i :: 0 <= i < n && filter(ps[i]) ==> view(ps[i]).Some?
      invariant forall name :: name in byPolicy <==> exists i :: 0 <= i < n && ps[i].name == name && filter(ps[i])
      invariant forall i :: 0 <= i < n && filter(ps[i]) ==> byPolicy[ps[i].name] == NodesOf(view, ps[i])
    {
      if filter(ps[n]) {
        var listed := view(ps[n]);
        if listed.None? {
          return map[], false;
        }
        var names := set node | node in listed.value && Matches(node.labels, ps[n].selector) :: node.name;
        byPolicy := byPolicy[ps[n].name := names];
      }
    }
    ok := true;
  }

  /** `inverse` maps each node to the policies among `done` that select it. */
  ghost predicate Inverts(byPolicy: map<string, set<string>>, done: set<string>, inverse: map<string, seq<string>>)
    requires done <= byPolicy.Keys
  {
    && (forall p, node :: p in done && node in byPolicy[p] ==> node in inverse)
    && (forall node :: node in inverse ==> Distinct(inverse[node]))
    && (forall p, node :: node in inverse ==> (p in inverse[node] <==> p in done && node in byPolicy[p]))
  }

  function Extended(inverse: map<string, seq<string>>, policy: string, nodes: set<string>): map<string, seq<string>> {
    map node | node in inverse.Keys + nodes ::
      (if node in inverse then inverse[node] else []) + (if node in nodes then [policy] else [])
  }

  method AddPolicy(inverse: map<string, seq<string>>, policy: string, nodes: set<string>)
    returns (more: map<string, seq<string>>)
    ensures more == Extended(inverse, policy, nodes)
  {
    more := inverse;
    var order := Enumerate(nodes);
    ghost var seen: set<string> := {};
    assert forall node :: node in inverse ==> inverse[node] + [] == inverse[node];
    for n := 0 to |order|
      invariant forall i :: 0 <= i < |order| ==> (order[i] in seen <==> i < n)
      invariant seen <= nodes
      invariant more == Extended(inverse, policy, seen)
    {
      var node := order[n];
      assert node in order;
      more := more[node := (if node in more then more[node] else []) + [policy]];
      seen := seen + {node};
    }
    assert seen == nodes;
  }

  method Invert(byPolicy: map<string, set<string>>) returns (inverse: map<string, seq<string>>)
    ensures Inverts(byPolicy, byPolicy.Keys, inverse)
  {
    inverse := map[];
    var order := Enumerate(byPolicy.Keys);
    ghost var done: set<string> := {};
    for n := 0 to |order|
      invariant forall i :: 0 <= i < |order| ==> (order[i] in done <==> i < n)
      invariant done <= byPolicy.Keys && Inverts(byPolicy, done, inverse)
    {
      var policy := order[n];
      assert policy in order;
      InvertsMore(byPolicy, done, inverse, policy);
      inverse := AddPolicy(inverse, policy, byPolicy[policy]);
      done := done + {policy};
    }
    assert done == byPolicy.Keys;
  }

  lemma InvertsMore(byPolicy: map<string, set<string>>, done: set<string>, inverse: map<string, seq<string>>,
                    policy: string)
    requires done <= byPolicy.Keys && policy in byPolicy && policy !in done && Inverts(byPolicy, done, inverse)
    ensures Inverts(byPolicy, done + {policy}, Extended(inverse, policy, byPolicy[policy]))
  {
  }

  method DetectNodeOverlap(ps: seq<NodePolicy>, view: View) returns (overlaps: seq<NodeOverlap>, ok: bool)
    requires DistinctPolicies(ps)
    ensures ok <==> Readable(ps, view)
    ensures ok ==> ExactOverlaps(ps, view, overlaps)
  {
    var byPolicy;
    byPolicy, ok := ResolveNodesByPolicy(ps, view, _ => true);
    if !ok {
      return [], false;
    }
    var inverse := Invert(byPolicy);
    forall p, node ensures Selects(ps, view, p, node) <==> p in byPolicy && node in byPolicy[p] {
    }
    var found := CollectOverlaps(inverse);
    overlaps := SortBy(found, (o: NodeOverlap) => o.nodeName);
    InverseGivesExact(ps, view, byPolicy, inverse, overlaps);
  }

  ghost predicate Collected(inverse: map<string, seq<string>>, names: set<string>, found: seq<NodeOverlap>) {
    && (forall o :: o in found ==> o.nodeName in names && o.nodeName in inverse && Reports(o, inverse[o.nodeName]))
    && (forall node :: node in names && node in inverse && |inverse[node]| > 1 ==>
      exists o :: o in found && o.nodeName == node)
  }

  /** The entry lists exactly the policies of the node, ascending. */
  ghost predicate Reports(o: NodeOverlap, policies: seq<string>) {
    && |o.policyNames| == |policies| > 1 && Ascending(o.policyNames, (s: string) => s)
    && forall p :: p in o.policyNames <==> p in policies
  }

  method CollectOverlaps(inverse: map<string, seq<string>>) returns (found: seq<NodeOverlap>)
    requires forall node :: node in inverse ==> Distinct(inverse[node])
    ensures forall i, j :: 0 <= i < j < |found| ==> found[i].nodeName != found[j].nodeName
    ensures Collected(inverse, inverse.Keys, found)
  {
    found := [];
    var order := Enumerate(inverse.Keys);
    ghost var names: set<string> := {};
    for n := 0 to |order|
      invariant forall i :: 0 <= i < |order| ==> (order[i] in names <==> i < n)
      invariant forall i, j :: 0 <= i < j < |found| ==> found[i].nodeName != found[j].nodeName
      invariant names <= inverse.Keys && Collected(inverse, names, found)
    {
      var node := order[n];
      assert node in order;
      if |inverse[node]| > 1 {
        var policies := SortBy(inverse[node], (s: string) => s);
        var o := NodeOverlap(node, policies);
        assert Reports(o, inverse[node]);
        CollectedMore(inverse, names, found, o);
        found := found + [o];
      }
      names := names + {node};
    }
    assert names == inverse.Keys;
  }

  lemma CollectedMore(inverse: map<string, seq<string>>, names: set<string>, found: seq<NodeOverlap>, o: NodeOverlap)
    requires Collected(inverse, names, found) && o.nodeName in inverse && Reports(o, inverse[o.nodeName])
    ensures Collected(inverse, names + {o.nodeName}, found + [o])
  {
  }

  lemma InverseGivesExact(ps: seq<NodePolicy>, view: View, byPolicy: map<string, set<string>>,
                          inverse: map<string, seq<string>>, overlaps: seq<NodeOverlap>)
    requires forall p, node :: Selects(ps, view, p, node) <==> p in byPolicy && node in byPolicy[p]
    requires Inverts(byPolicy, byPolicy.Keys, inverse)
    requires Ascending(overlaps, (o: NodeOverlap) => o.nodeName) && Collected(inverse, inverse.Keys, overlaps)
    ensures ExactOverlaps(ps, view, overlaps)
  {
    forall p, q, node | p != q && Selects(ps, view, p, node) && Selects(ps, view, q, node)
      ensures exists o :: o in overlaps && o.nodeName == node
    {
      assert p in inverse[node] && q in inverse[node];
      var policies := inverse[node];
      var i, j :| 0 <= i < |policies| && 0 <= j < |policies| && policies[i] == p && policies[j] == q;
      assert i != j;
    }
  }

  // ---- sections -----------------------------------------------------------------------------

  /** Every section that both the cluster policy and the node policy define, and nothing else. */
  method DetectSectionConflict(clusterSections: set<Section>, ps: seq<NodePolicy>)
    returns (conflicts: seq<SectionConflict>)
    ensures forall c :: c in conflicts <==>
              exists i :: 0 <= i < |ps| && ps[i].name == c.policyName && c.section in ps[i].sections * clusterSections
  {
    conflicts := [];
    for n := 0 to |ps|
      invariant forall c :: c in conflicts <==>
                  exists i :: 0 <= i < n && ps[i].name == c.policyName && c.section in ps[i].sections * clusterSections
    {
      ghost var before := conflicts;
      for m := 0 to |SECTIONS|
        invariant forall c :: c in conflicts <==>
                    || c in before
                    || (c.policyName == ps[n].name && c.section in SECTIONS[..m]
                        && c.section in ps[n].sections * clusterSections)
      {
        assert SECTIONS[..m + 1] == SECTIONS[..m] + [SECTIONS[m]];
        if SECTIONS[m] in clusterSections && SECTIONS[m] in ps[n].sections {
          conflicts := conflicts + [SectionConflict(SECTIONS[m], ps[n].name)];
        }
      }
      AllSections();
      assert SECTIONS[..|SECTIONS|] == SECTIONS;
    }
  }

  lemma AllSections()
    ensures forall s: Section :: s in SECTIONS
  {
    forall s: Section ensures s in SECTIONS {
      match s
      case OfedDriver => assert SECTIONS[0] == s;
      case RdmaSharedDevicePlugin => assert SECTIONS[1] == s;
      case SriovDevicePlugin => assert SECTIONS[2] == s;
    }
  }
}
