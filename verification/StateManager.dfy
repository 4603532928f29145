/** The state manager's aggregation of all states' results, and the reconcile delay made of it. */
module StateManager {
  import opened Objects
  import opened Retention

  /** What syncing one state yields: its result and, if it provides one, its requested delay. */
  datatype Outcome = Outcome(name: string, status: SyncState, error: Option<string>, requeue: Option<int>)

  datatype StateResult = StateResult(name: string, status: SyncState, error: Option<string>)

  datatype Results = Results(status: SyncState, states: seq<StateResult>, requeueAfter: int)

  predicate Blocks(status: SyncState) {
    status == NotReady || status == Error
  }

  predicate Asks(o: Outcome) {
    o.requeue.Some? && o.requeue.value > 0
  }

  /** `d` is the shortest delay any state asked for, 0 when none did. */
  ghost predicate SoonestAsked(os: seq<Outcome>, d: int) {
    && (forall i :: 0 <= i < |os| && Asks(os[i]) ==> 0 < d <= os[i].requeue.value)
    && (d != 0 ==> exists i :: 0 <= i < |os| && Asks(os[i]) && os[i].requeue.value == d)
  }

  /** The results a manager reports for the outcomes of its states, in order. */
  ghost predicate Aggregates(os: seq<Outcome>, r: Results) {
    && |r.states| == |os|
    && (forall i :: 0 <= i < |os| ==> r.states[i] == StateResult(os[i].name, os[i].status, os[i].error))
    && (r.status == if exists i :: 0 <= i < |os| && Blocks(os[i].status) then NotReady else Ready)
    && SoonestAsked(os, r.requeueAfter)
  }

  method SyncStates(os: seq<Outcome>) returns (r: Results)
    ensures Aggregates(os, r)
  {
    var states, requeueAfter, ready := [], 0, true;
    for n := 0 to |os|
      invariant |states| == n
      invariant forall i :: 0 <= i < n ==> states[i] == StateResult(os[i].name, os[i].status, os[i].error)
      invariant ready <==> forall i :: 0 <= i < n ==> !Blocks(os[i].status)
      invariant SoonestAsked(os[..n], requeueAfter)
    {
      var o := os[n];
      ghost var before, was := os[..n], requeueAfter;
      assert os[..n + 1] == before + [o];
      states := states + [StateResult(o.name, o.status, o.error)];
      if o.status == NotReady || o.status == Error {
        ready := false;
      }
      if o.requeue.Some? && o.requeue.value > 0 && (requeueAfter == 0 || o.requeue.value < requeueAfter) {
        requeueAfter := o.requeue.value;
        assert Asks(os[..n + 1][n]);
      } else if was != 0 {
        var i :| 0 <= i < n && Asks(before[i]) && before[i].requeue.value == was;
        assert os[..n + 1][i] == before[i];
      }
    }
    assert os[..|os|] == os;
    r := Results(if ready then Ready else NotReady, states, requeueAfter);
  }

  /** The delay after which a policy is reconciled again, 0 for never. `busy` stands for the
      wait-label handling, `configured` for the operator's retry interval. */
  function ReconcileDelay(busy: bool, configured: int, r: Results): int {
    if busy || r.status != Ready then configured
    else if r.requeueAfter <= 0 then 0
    else r.requeueAfter
  }

  /** A Ready policy with a protected DaemonSet is always revisited, and no later than when the
      grace period of any protected DaemonSet ends. */
  lemma ReadyReconcileWakesInTime(os: seq<Outcome>, r: Results, ofed: nat, p: Plan, store: Store, configured: int,
                                  k: Key)
    requires Aggregates(os, r) && r.status == Ready
    requires ofed < |os| && os[ofed].requeue.Some? && Soonest(p, store, os[ofed].requeue.value)
    requires k in store && Protects(p, k, store[k])
    ensures 0 < ReconcileDelay(false, configured, r) <= Deferral(p, store[k].obj)
  {
    assert Asks(os[ofed]);
  }

  /** Without protected DaemonSets and without other requests, nothing is scheduled. */
  lemma NoDeadlineNoWakeUp(os: seq<Outcome>, r: Results, configured: int)
    requires Aggregates(os, r) && r.status == Ready
    ensures ReconcileDelay(false, configured, r) == 0 <==> forall i :: 0 <= i < |os| ==> !Asks(os[i])
  {
  }

  /** A policy that is not settled, because a state is not ready or in error or the wait labels are not
      done, is retried after the configured interval, whatever the states asked for. */
  lemma UnsettledIsRetried(os: seq<Outcome>, r: Results, busy: bool, configured: int)
    requires Aggregates(os, r)
    requires busy || exists i :: 0 <= i < |os| && os[i].status in {NotReady, Error}
    ensures ReconcileDelay(busy, configured, r) == configured
  {
    assert forall i :: 0 <= i < |os| && os[i].status in {NotReady, Error} ==> Blocks(os[i].status);
  }
}
