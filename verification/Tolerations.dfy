/** Taints, tolerations, and the lists the driver pod and node discovery are built from. */
module Tolerations {

  datatype Taint = Taint(key: string, value: string, effect: string)

  datatype Toleration = Toleration(key: string, operator: string, value: string, effect: string)

  const EXISTS := "Exists"
  const NO_SCHEDULE := "NoSchedule"
  const NO_EXECUTE := "NoExecute"

  /** How the numeric operators compare a toleration's value with a taint's; any relation will do. */
  type Comparison = (string, string, string) -> bool

  /** Kubernetes' rule: an empty effect or key matches all of them, and `Exists` ignores values. */
  predicate Tolerates(cmp: Comparison, t: Toleration, taint: Taint) {
    && (t.effect == "" || t.effect == taint.effect)
    && (t.key == "" || t.key == taint.key)
    && (if t.operator == "" || t.operator == "Equal" then t.value == taint.value
        else if t.operator == EXISTS then true
        else if t.operator == "Lt" || t.operator == "Gt" then cmp(t.operator, t.value, taint.value)
        else false)
  }

  predicate AnyTolerates(cmp: Comparison, ts: seq<Toleration>, taint: Taint) {
    exists i :: 0 <= i < |ts| && Tolerates(cmp, ts[i], taint)
  }

  predicate AllTolerated(cmp: Comparison, ts: seq<Toleration>, taints: seq<Taint>) {
    forall i :: 0 <= i < |taints| ==> AnyTolerates(cmp, ts, taints[i])
  }

  const OPERATOR_TOLERATIONS: seq<Toleration> := [
    Toleration("nvidia.com/gpu", EXISTS, "", NO_SCHEDULE),
    Toleration("node.kubernetes.io/not-ready", EXISTS, "", NO_SCHEDULE),
    Toleration("node.kubernetes.io/unreachable", EXISTS, "", NO_SCHEDULE)]

  const DAEMON_SET_CONTROLLER_TOLERATIONS: seq<Toleration> := [
    Toleration("node.kubernetes.io/not-ready", EXISTS, "", NO_EXECUTE),
    Toleration("node.kubernetes.io/unreachable", EXISTS, "", NO_EXECUTE),
    Toleration("node.kubernetes.io/disk-pressure", EXISTS, "", NO_SCHEDULE),
    Toleration("node.kubernetes.io/memory-pressure", EXISTS, "", NO_SCHEDULE),
    Toleration("node.kubernetes.io/pid-pressure", EXISTS, "", NO_SCHEDULE),
    Toleration("node.kubernetes.io/unschedulable", EXISTS, "", NO_SCHEDULE),
    Toleration("node.kubernetes.io/network-unavailable", EXISTS, "", NO_SCHEDULE)]

  /** Key, effect and operator decide; the value is not compared. */
  predicate Covers(ts: seq<Toleration>, t: Toleration) {
    exists i :: 0 <= i < |ts| && ts[i].key == t.key && ts[i].effect == t.effect && ts[i].operator == t.operator
  }

  function Merge(base: seq<Toleration>, additions: seq<Toleration>): seq<Toleration> {
    if additions == [] then base
    else
      var merged := Merge(base, additions[..|additions| - 1]);
      var addition := additions[|additions| - 1];
      if Covers(merged, addition) then merged else merged + [addition]
  }

  function DriverPodTolerations(cr: seq<Toleration>): seq<Toleration> {
    Merge(cr, OPERATOR_TOLERATIONS)
  }

  function SchedulableNodeTolerations(cr: seq<Toleration>): seq<Toleration> {
    Merge(DriverPodTolerations(cr), DAEMON_SET_CONTROLLER_TOLERATIONS)
  }

  method MergeTolerations(base: seq<Toleration>, additions: seq<Toleration>) returns (merged: seq<Toleration>)
    ensures merged == Merge(base, additions)
  {
    merged := base;
    for n := 0 to |additions|
      invariant merged == Merge(base, additions[..n])
    {
      assert additions[..n + 1][..n] == additions[..n];
      var covered := CoversToleration(merged, additions[n]);
      if !covered {
        merged := merged + [additions[n]];
      }
    }
    assert additions[..|additions|] == additions;
  }

  method CoversToleration(ts: seq<Toleration>, t: Toleration) returns (covered: bool)
    ensures covered <==> Covers(ts, t)
  {
    for n := 0 to |ts|
      invariant !Covers(ts[..n], t)
    {
      if ts[n].key == t.key && ts[n].effect == t.effect && ts[n].operator == t.operator {
        return true;
      }
    }
    assert ts[..|ts|] == ts;
    return false;
  }

  lemma AnyToleratesAppend(cmp: Comparison, ts: seq<Toleration>, t: Toleration, taint: Taint)
    ensures AnyTolerates(cmp, ts + [t], taint) <==> AnyTolerates(cmp, ts, taint) || Tolerates(cmp, t, taint)
  {
    if AnyTolerates(cmp, ts, taint) {
      var i :| 0 <= i < |ts| && Tolerates(cmp, ts[i], taint);
      assert (ts + [t])[i] == ts[i];
    }
    if Tolerates(cmp, t, taint) {
      assert (ts + [t])[|ts|] == t;
    }
  }

  /** Merging additions that all use `Exists` keeps the base in front and tolerates exactly the
      taints that the base or some addition tolerates. */
  lemma {:induction false} MergeMeansUnion(cmp: Comparison, base: seq<Toleration>, additions: seq<Toleration>,
                                           taint: Taint)
    requires forall i :: 0 <= i < |additions| ==> additions[i].operator == EXISTS
    ensures base <= Merge(base, additions)
    ensures AnyTolerates(cmp, Merge(base, additions), taint) <==>
            AnyTolerates(cmp, base, taint) || AnyTolerates(cmp, additions, taint)
  {
    if additions != [] {
      var rest, last := additions[..|additions| - 1], additions[|additions| - 1];
      MergeMeansUnion(cmp, base, rest, taint);
      assert rest + [last] == additions;
      AnyToleratesAppend(cmp, rest, last, taint);
      var merged := Merge(base, rest);
      if Covers(merged, last) {
        var i :| 0 <= i < |merged| && merged[i].key == last.key && merged[i].effect == last.effect
                 && merged[i].operator == last.operator;
        assert Tolerates(cmp, last, taint) ==> Tolerates(cmp, merged[i], taint);
      } else {
        AnyToleratesAppend(cmp, merged, last, taint);
      }
    }
  }

  /** The `Exists` restriction is needed: an addition with another operator is dropped as covered
      although the value it tolerates is a different one. */
  lemma MergeDropsOtherValues(cmp: Comparison)
    ensures
      var base, extra := Toleration("dedicated", "Equal", "a", ""), Toleration("dedicated", "Equal", "b", "");
      var taint := Taint("dedicated", "b", NO_SCHEDULE);
      AnyTolerates(cmp, [extra], taint) && !AnyTolerates(cmp, Merge([base], [extra]), taint)
  {
    var base, extra := Toleration("dedicated", "Equal", "a", ""), Toleration("dedicated", "Equal", "b", "");
    assert [extra][0] == extra;
    assert [base][0] == base && Covers([base], extra);
    assert [extra][..0] == [];
    assert Merge([base], [extra]) == [base];
  }

  /** The taints discovery tolerates: the policy's, the operator's and the DaemonSet controller's. */
  lemma SchedulableMeansUnion(cmp: Comparison, cr: seq<Toleration>, taint: Taint)
    ensures cr <= DriverPodTolerations(cr) <= SchedulableNodeTolerations(cr)
    ensures AnyTolerates(cmp, DriverPodTolerations(cr), taint) <==>
            AnyTolerates(cmp, cr, taint) || AnyTolerates(cmp, OPERATOR_TOLERATIONS, taint)
    ensures AnyTolerates(cmp, SchedulableNodeTolerations(cr), taint) <==>
            || AnyTolerates(cmp, DriverPodTolerations(cr), taint)
            || AnyTolerates(cmp, DAEMON_SET_CONTROLLER_TOLERATIONS, taint)
  {
    MergeMeansUnion(cmp, cr, OPERATOR_TOLERATIONS, taint);
    MergeMeansUnion(cmp, DriverPodTolerations(cr), DAEMON_SET_CONTROLLER_TOLERATIONS, taint);
  }

  /** Which taints the driver's own tolerations cover: whatever the value, exactly these. */
  lemma OperatorTolerates(cmp: Comparison, taint: Taint)
    ensures AnyTolerates(cmp, OPERATOR_TOLERATIONS, taint) <==>
            && taint.effect == "NoSchedule"
            && taint.key in {"nvidia.com/gpu", "node.kubernetes.io/not-ready", "node.kubernetes.io/unreachable"}
  {
    var ts := OPERATOR_TOLERATIONS;
    assert AnyTolerates(cmp, ts, taint) <==>
           Tolerates(cmp, ts[0], taint) || Tolerates(cmp, ts[1], taint) || Tolerates(cmp, ts[2], taint);
  }

  /** Which taints the DaemonSet controller's tolerations cover. */
  lemma DaemonSetControllerTolerates(cmp: Comparison, taint: Taint)
    ensures AnyTolerates(cmp, DAEMON_SET_CONTROLLER_TOLERATIONS, taint) <==>
            || (taint.effect == "NoExecute"
                && taint.key in {"node.kubernetes.io/not-ready", "node.kubernetes.io/unreachable"})
            || (taint.effect == "NoSchedule"
                && taint.key in {"node.kubernetes.io/disk-pressure", "node.kubernetes.io/memory-pressure",
                                 "node.kubernetes.io/pid-pressure", "node.kubernetes.io/unschedulable",
                                 "node.kubernetes.io/network-unavailable"})
  {
    var ts := DAEMON_SET_CONTROLLER_TOLERATIONS;
    assert AnyTolerates(cmp, ts, taint) <==>
           || Tolerates(cmp, ts[0], taint) || Tolerates(cmp, ts[1], taint) || Tolerates(cmp, ts[2], taint)
           || Tolerates(cmp, ts[3], taint) || Tolerates(cmp, ts[4], taint) || Tolerates(cmp, ts[5], taint)
           || Tolerates(cmp, ts[6], taint);
  }
}
