/** What one Sync, complete or cut short by an error, does to one object. */
module OfedSync {
  import opened Objects
  import opened StateSkels
  import opened NodeInfo
  import opened Retention
  import opened StateOfed

  // ---- one Sync, seen from one DaemonSet ----------------------------------------------------

  /** The Sync did not render `k`, and the DaemonSet's own pool is empty but still the policy's. */
  predicate Stale(i: SyncInput, k: Key, o: Object) {
    i.policy.ofedDriver && k.nn !in DesiredDaemonSets(i.rendered) && Deferrable(PlanOf(i), o)
  }

  /** The stores a Sync may leave behind. */
  ghost predicate SyncLeaves(env: Env, i: SyncInput, ok: bool, store: Store, left: Store) {
    if ok then left == AfterSync(env, i, store) else Interrupted(env, i, store, left)
  }

  lemma UndesiredNotRendered(rs: seq<Rendered>, k: Key)
    requires k.gvk == DAEMON_SET && k.nn !in DesiredDaemonSets(rs)
    ensures forall n :: 0 <= n <= |rs| ==> k !in KeysOf(rs[..n])
    ensures k !in KeysOf(rs)
  {
  }

  lemma ProtectedMeansProtects(p: Plan, store: Store, k: Key)
    requires k in store && k.gvk == DAEMON_SET
    ensures k.nn in Protected(p, store) <==> Protects(p, k, store[k])
  {
  }

  /** A complete Sync marks a DaemonSet it did not render, and deletes it when no grace is left. */
  lemma SyncAtUndesired(env: Env, i: SyncInput, store: Store, k: Key)
    requires i.policy.ofedDriver && k.gvk == DAEMON_SET && k in store
    requires k.nn !in DesiredDaemonSets(i.rendered) && Matches(store[k].obj.labels, SelectorOf(i.policy))
    ensures k in AfterApply(env, i, store) && AfterApply(env, i, store)[k] == store[k]
    ensures k in AfterPlan(env, i, store) && AfterPlan(env, i, store)[k] == PlannedObject(PlanOf(i), k, store[k])
    ensures AfterSync(env, i, store)[k] ==
            SweptObject(DAEMON_SET in env.served && Deferral(PlanOf(i), store[k].obj) == 0,
                        PlannedObject(PlanOf(i), k, store[k]))
  {
    UndesiredNotRendered(i.rendered, k);
    ApplyAllFrame(ConfigOf(env, i.policy), store, i.rendered, k);
    var applied := AfterApply(env, i, store);
    ProtectedMeansProtects(PlanOf(i), applied, k);
    RemainingExact(i.now, StaleSince(i.now, store[k].obj));
    assert DAEMON_SET == SUPPORTED_GVKS[2];
    assert SweepOf(env, i, store).retain(k) == Retains(Protected(PlanOf(i), applied), k);
  }

  /** Whatever cuts a Sync short, it leaves each object as one of its phases does. */
  lemma InterruptedAt(env: Env, i: SyncInput, store: Store, left: Store, k: Key) returns (n: nat)
    requires i.policy.ofedDriver && k in store && Interrupted(env, i, store, left)
    ensures n <= |i.rendered| && k in left
    ensures || Lookup(left, k) == Lookup(ApplyAll(ConfigOf(env, i.policy), store, i.rendered[..n]), k)
            || Lookup(left, k) == Lookup(AfterPlan(env, i, store), k)
            || Lookup(left, k) == Lookup(AfterSync(env, i, store), k)
  {
    var cfg := ConfigOf(env, i.policy);
    ApplyAllKeys(cfg, store, i.rendered);
    n := |i.rendered|;
    assert i.rendered[..n] == i.rendered;
    if m :| 0 <= m <= |i.rendered| && left == ApplyAll(cfg, store, i.rendered[..m]) {
      ApplyAllKeys(cfg, store, i.rendered[..m]);
      n := m;
    } else if Between(AfterApply(env, i, store), left, AfterPlan(env, i, store)) {
      assert k in AfterApply(env, i, store);
    } else {
      assert k in AfterPlan(env, i, store);
    }
  }

  /** The stored object after a complete Sync that found it stale. */
  function StaleOutcome(env: Env, i: SyncInput, s: Stored): Stored {
    SweptObject(DAEMON_SET in env.served && Deferral(PlanOf(i), s.obj) == 0, Marked(i.now, s))
  }

  /** A Sync that was cut short leaves such a DaemonSet at one of three stages. */
  ghost predicate StaleEffect(env: Env, i: SyncInput, ok: bool, s: Stored, s': Stored) {
    s' == StaleOutcome(env, i, s) || (!ok && (s' == s || s' == Marked(i.now, s)))
  }

  lemma StaleStages(env: Env, i: SyncInput, ok: bool, store: Store, left: Store, k: Key)
    requires k.gvk == DAEMON_SET && k in store && Stale(i, k, store[k].obj)
    requires Matches(store[k].obj.labels, SelectorOf(i.policy)) && SyncLeaves(env, i, ok, store, left)
    ensures k in left && StaleEffect(env, i, ok, store[k], left[k])
  {
    SyncAtUndesired(env, i, store, k);
    assert PlannedObject(PlanOf(i), k, store[k]) == Marked(i.now, store[k]);
    if !ok {
      var n := InterruptedAt(env, i, store, left, k);
      UndesiredNotRendered(i.rendered, k);
      ApplyAllFrame(ConfigOf(env, i.policy), store, i.rendered[..n], k);
    }
  }

  /** No manifest carries the marker itself. */
  predicate NoMarkers(rs: seq<Rendered>) {
    forall n :: 0 <= n < |rs| ==> STALE_SINCE_ANNOTATION !in rs[n].obj.annotations
  }

  /** Applying a rendered DaemonSet keeps it owned and brings no marker with it. */
  lemma AppliedAt(env: Env, i: SyncInput, store: Store, n: nat, rs: seq<Rendered>)
    requires rs <= i.rendered && n < |rs| && DistinctKeys(i.rendered) && NoMarkers(i.rendered)
    requires rs[n].key in store && Matches(store[rs[n].key].obj.labels, SelectorOf(i.policy))
    ensures
      var k, applied := rs[n].key, ApplyAll(ConfigOf(env, i.policy), store, rs);
      && k in applied && applied[k].terminating == store[k].terminating
      && Matches(applied[k].obj.labels, SelectorOf(i.policy))
      && (Marker(applied[k].obj) == Marker(store[k].obj) || Marker(applied[k].obj) == None)
  {
    var cfg, k := ConfigOf(env, i.policy), rs[n].key;
    assert DistinctKeys(rs);
    ApplyAllAt(cfg, store, rs, n);
    assert rs[n] == i.rendered[n];
    assert |STALE_SINCE_ANNOTATION| != |REVISION_ANNOTATION|;
    var labels := Prepared(cfg, rs[n]).labels;
    assert Matches(labels, SelectorOf(i.policy));
    assert Marker(Prepared(cfg, rs[n])) == None;
  }

  lemma UnmarkedHasNoMarker(s: Stored)
    ensures Marker(Unmarked(s).obj) == None && Unmarked(s).terminating == s.terminating
    ensures Unmarked(s).obj.labels == s.obj.labels
  {
  }

  /** A Sync that renders the DaemonSet never deletes it, and un-marks it if it completes. */
  ghost predicate DesiredEffect(i: SyncInput, ok: bool, s: Stored, s': Stored) {
    && s'.terminating == s.terminating && Matches(s'.obj.labels, SelectorOf(i.policy))
    && (Marker(s'.obj) == None || (!ok && Marker(s'.obj) == Marker(s.obj)))
  }

  lemma SyncAtDesired(env: Env, i: SyncInput, store: Store, k: Key)
    requires k.gvk == DAEMON_SET && k in KeysOf(i.rendered) && i.policy.ofedDriver
    requires k in AfterApply(env, i, store) && Matches(AfterApply(env, i, store)[k].obj.labels, SelectorOf(i.policy))
    ensures AfterPlan(env, i, store)[k] == Unmarked(AfterApply(env, i, store)[k])
    ensures k in AfterSync(env, i, store) && AfterSync(env, i, store)[k] == AfterPlan(env, i, store)[k]
  {
  }

  lemma DesiredApplied(env: Env, i: SyncInput, store: Store, k: Key, m: nat)
    requires k in store && k in KeysOf(i.rendered) && DistinctKeys(i.rendered) && NoMarkers(i.rendered)
    requires Matches(store[k].obj.labels, SelectorOf(i.policy)) && m <= |i.rendered|
    ensures
      var applied := ApplyAll(ConfigOf(env, i.policy), store, i.rendered[..m]);
      k in applied && DesiredEffect(i, false, store[k], applied[k])
  {
    var n :| 0 <= n < |i.rendered| && i.rendered[n].key == k;
    if n < m {
      AppliedAt(env, i, store, n, i.rendered[..m]);
    } else {
      assert k !in KeysOf(i.rendered[..m]);
      ApplyAllFrame(ConfigOf(env, i.policy), store, i.rendered[..m], k);
    }
  }

  lemma DesiredStages(env: Env, i: SyncInput, ok: bool, store: Store, left: Store, k: Key)
    requires k.gvk == DAEMON_SET && k in store && k in KeysOf(i.rendered) && i.policy.ofedDriver
    requires DistinctKeys(i.rendered) && NoMarkers(i.rendered)
    requires Matches(store[k].obj.labels, SelectorOf(i.policy)) && SyncLeaves(env, i, ok, store, left)
    ensures k in left && DesiredEffect(i, ok, store[k], left[k])
  {
    DesiredApplied(env, i, store, k, |i.rendered|);
    assert i.rendered[..|i.rendered|] == i.rendered;
    SyncAtDesired(env, i, store, k);
    UnmarkedHasNoMarker(AfterApply(env, i, store)[k]);
    if !ok {
      var m := InterruptedAt(env, i, store, left, k);
      DesiredApplied(env, i, store, k, m);
    }
  }

  /** The policy no longer wants some node that the DaemonSet's pods could run on. */
  ghost predicate LosesNode(p: Policy, o: Object) {
    && p.kind.NicNodePolicy?
    && exists labels: Labels :: Matches(labels, o.nodeSelector) && !Matches(labels, p.nodeSelector)
  }

  /** The DaemonSet's node selector does not say which pool it is for. */
  predicate NamesNoPool(o: Object) {
    OS_NAME !in o.nodeSelector || OS_VERSION !in o.nodeSelector || KERNEL !in o.nodeSelector
  }

  /** The pool that the node selector names has an eligible node. */
  predicate PoolIsLive(i: SyncInput, o: Object) {
    !NamesNoPool(o)
    && o.nodeSelector[OS_NAME] + o.nodeSelector[OS_VERSION] + "-" + o.nodeSelector[KERNEL] in i.live
  }

  lemma DeferrableExact(i: SyncInput, o: Object)
    ensures Deferrable(PlanOf(i), o) <==> !LosesNode(i.policy, o) && !NamesNoPool(o) && !PoolIsLive(i, o)
  {
    RetargetedMeansLostNode(o.nodeSelector, NodeSelectorOf(i.policy));
    if i.policy.kind.NicClusterPolicy? {
      assert forall labels: Labels :: Matches(labels, NodeSelectorOf(i.policy));
    }
  }

  /** Stated intent is never deferred: a DaemonSet the Sync did not render goes at once when the policy
      lost a node of it, when it names no pool or when its pool is live, and whenever the driver section
      is gone. */
  lemma IntentIsImmediate(env: Env, i: SyncInput, store: Store, k: Key)
    requires k.gvk == DAEMON_SET && DAEMON_SET in env.served
    requires k in store && Matches(store[k].obj.labels, SelectorOf(i.policy))
    requires i.policy.ofedDriver ==> k.nn !in DesiredDaemonSets(i.rendered)
    requires i.policy.ofedDriver ==>
      LosesNode(i.policy, store[k].obj) || NamesNoPool(store[k].obj) || PoolIsLive(i, store[k].obj)
    ensures k in AfterSync(env, i, store) && AfterSync(env, i, store)[k].terminating
  {
    if i.policy.ofedDriver {
      DeferrableExact(i, store[k].obj);
      SyncAtUndesired(env, i, store, k);
      assert k in AfterPlan(env, i, store);
    } else {
      assert DAEMON_SET == SUPPORTED_GVKS[2];
    }
  }

  /** And nothing else is immediate: in every other case a DaemonSet that is seen stale for the first
      time is marked and stays. */
  lemma OtherwiseDeferred(env: Env, i: SyncInput, store: Store, k: Key)
    requires i.policy.ofedDriver && k.gvk == DAEMON_SET && k in store && k.nn !in DesiredDaemonSets(i.rendered)
    requires Matches(store[k].obj.labels, SelectorOf(i.policy)) && Marker(store[k].obj) == None && !store[k].terminating
    requires !LosesNode(i.policy, store[k].obj) && !NamesNoPool(store[k].obj) && !PoolIsLive(i, store[k].obj)
    ensures k in AfterSync(env, i, store) && !AfterSync(env, i, store)[k].terminating
    ensures Marker(AfterSync(env, i, store)[k].obj) == Some(FloorToSecond(i.now))
  {
    DeferrableExact(i, store[k].obj);
    SyncAtUndesired(env, i, store, k);
    assert k in AfterPlan(env, i, store);
    RemainingExact(i.now, i.now);
  }

  /** Whatever kind of object it is, a Sync that renders it never deletes it. */
  lemma RenderedIsNeverDeleted(env: Env, i: SyncInput, ok: bool, store: Store, left: Store, k: Key)
    requires i.policy.ofedDriver && DistinctKeys(i.rendered) && k in KeysOf(i.rendered) && k in store
    requires SyncLeaves(env, i, ok, store, left)
    ensures k in left && left[k].terminating == store[k].terminating
  {
    RenderedStagesKeep(env, i, store, k, |i.rendered|);
    assert i.rendered[..|i.rendered|] == i.rendered;
    if !ok {
      var m := InterruptedAt(env, i, store, left, k);
      RenderedStagesKeep(env, i, store, k, m);
    }
  }

  lemma RenderedStagesKeep(env: Env, i: SyncInput, store: Store, k: Key, m: nat)
    requires i.policy.ofedDriver && DistinctKeys(i.rendered) && k in KeysOf(i.rendered)
    requires k in store && m <= |i.rendered|
    ensures
      var applied := ApplyAll(ConfigOf(env, i.policy), store, i.rendered[..m]);
      k in applied && applied[k].terminating == store[k].terminating
    ensures m == |i.rendered| ==>
      && k in AfterPlan(env, i, store) && AfterPlan(env, i, store)[k].terminating == store[k].terminating
      && k in AfterSync(env, i, store) && AfterSync(env, i, store)[k].terminating == store[k].terminating
  {
    var cfg := ConfigOf(env, i.policy);
    var n :| 0 <= n < |i.rendered| && i.rendered[n].key == k;
    if n < m {
      assert i.rendered[..m][n].key == k && DistinctKeys(i.rendered[..m]);
      ApplyAllAt(cfg, store, i.rendered[..m], n);
    } else {
      assert k !in KeysOf(i.rendered[..m]);
      ApplyAllFrame(cfg, store, i.rendered[..m], k);
    }
    assert i.rendered[..|i.rendered|] == i.rendered;
  }

  // ---- waking up in time --------------------------------------------------------------------

  /** Nobody meddled with the retention of the object: its labels, node selector, marker and deletion
      mark are the same. Its status, version and specification may have changed. */
  ghost predicate Undisturbed(s: Stored, s': Stored) {
    && s'.obj.labels == s.obj.labels && s'.obj.nodeSelector == s.obj.nodeSelector
    && Marker(s'.obj) == Marker(s.obj) && s'.terminating == s.terminating
  }

  /** The grace of a DaemonSet that was marked is over when the remaining one has passed. */
  lemma GraceRunsOut(p: Plan, s: Stored, s': Stored, later: int)
    requires Deferral(p, s.obj) > 0 && later >= p.now + Deferral(p, s.obj) && Undisturbed(Marked(p.now, s), s')
    ensures Deferral(p.(now := later), s'.obj) == 0
  {
    RemainingExact(p.now, StaleSince(p.now, s.obj));
    RemainingExact(later, StaleSince(later, s'.obj));
  }

  /** A protected DaemonSet is deleted by a Sync after its grace has run out. */
  lemma ReapedLater(env: Env, i: SyncInput, store: Store, later: int, mid: Store, k: Key)
    requires DAEMON_SET in env.served && i.policy.ofedDriver && k in AfterApply(env, i, store)
    requires Protects(PlanOf(i), k, AfterApply(env, i, store)[k])
    requires later >= i.now + Deferral(PlanOf(i), AfterApply(env, i, store)[k].obj)
    requires k in AfterSync(env, i, store) && k in mid && Undisturbed(AfterSync(env, i, store)[k], mid[k])
    ensures k in AfterSync(env, i.(now := later), mid) && AfterSync(env, i.(now := later), mid)[k].terminating
  {
    UndesiredNotRendered(i.rendered, k);
    ApplyAllFrame(ConfigOf(env, i.policy), store, i.rendered, k);
    SyncAtUndesired(env, i, store, k);
    assert AfterSync(env, i, store)[k] == Marked(i.now, store[k]);
    GraceRunsOut(PlanOf(i), store[k], mid[k], later);
    assert PlanOf(i.(now := later)) == PlanOf(i).(now := later);
    SyncAtUndesired(env, i.(now := later), mid, k);
  }

  /** The wake-up a complete Sync asks for comes at the right moment: there is a DaemonSet the Sync
      had to protect, and every Sync of the same policy, pools and manifests that runs no sooner than
      the requested delay deletes it, whatever happened in between to other objects and to what the
      retention does not depend on. */
  lemma RequeueReaps(env: Env, i: SyncInput, store: Store, delay: int) returns (k: Key)
    requires DAEMON_SET in env.served && i.policy.ofedDriver && delay > 0
    requires Soonest(PlanOf(i), AfterApply(env, i, store), delay)
    ensures k in AfterApply(env, i, store) && Protects(PlanOf(i), k, AfterApply(env, i, store)[k])
    ensures k in AfterSync(env, i, store)
    ensures forall later, mid: Store ::
      later >= i.now + delay && k in mid && Undisturbed(AfterSync(env, i, store)[k], mid[k]) ==>
        var left := AfterSync(env, i.(now := later), mid); k in left && left[k].terminating
  {
    var applied := AfterApply(env, i, store);
    k :| k in applied && Protects(PlanOf(i), k, applied[k]) && delay == Deferral(PlanOf(i), applied[k].obj);
    ProtectedSurvives(env, i, store, k);
    forall later, mid: Store | later >= i.now + delay && k in mid && Undisturbed(AfterSync(env, i, store)[k], mid[k])
      ensures var left := AfterSync(env, i.(now := later), mid); k in left && left[k].terminating
    {
      ReapedLater(env, i, store, later, mid, k);
    }
  }

  lemma ProtectedSurvives(env: Env, i: SyncInput, store: Store, k: Key)
    requires i.policy.ofedDriver && k in AfterApply(env, i, store)
    ensures k in AfterSync(env, i, store)
  {
    assert k in AfterPlan(env, i, store);
  }

  // ---- several policies ---------------------------------------------------------------------

  /** The ds-owner label separates the NicClusterPolicy and all NicNodePolicies. */
  lemma DsOwnerInjective(p: Policy, q: Policy)
    ensures DsOwner(p) == DsOwner(q) <==> p.kind == q.kind && (p.kind.NicNodePolicy? ==> p.name == q.name)
  {
    assert "NicClusterPolicy"[0] == 'N';
    if p.kind.NicNodePolicy? {
      assert DsOwner(p)[0] == 'n' && DsOwner(p)[4..] == p.name;
    }
    if q.kind.NicNodePolicy? {
      assert DsOwner(q)[0] == 'n' && DsOwner(q)[4..] == q.name;
    }
  }

  lemma OwnersExclude(p: Policy, q: Policy, labels: Labels)
    requires DsOwner(p) != DsOwner(q) && Matches(labels, SelectorOf(q))
    ensures !Matches(labels, SelectorOf(p))
  {
    assert |STATE_LABEL| != |DS_OWNER_LABEL|;
    DsOwnerNonEmpty(p);
    DsOwnerNonEmpty(q);
    assert SelectorOf(q)[DS_OWNER_LABEL] == DsOwner(q) && SelectorOf(p)[DS_OWNER_LABEL] == DsOwner(p);
  }

  lemma DsOwnerNonEmpty(p: Policy)
    ensures DsOwner(p) != ""
  {
  }

  /** Stale handling for one policy never marks, un-marks or deletes what is labelled for another,
      on any store. */
  lemma StaleHandlingIsScoped(env: Env, i: SyncInput, q: Policy, store: Store, keep: set<Key>, veto: Key -> bool,
                              k: Key)
    requires DsOwner(i.policy) != DsOwner(q) && k in store && Matches(store[k].obj.labels, SelectorOf(q))
    ensures Planned(PlanOf(i), store)[k] == store[k]
    ensures Swept(Cleanup(env.served, SelectorOf(i.policy), keep, veto), SUPPORTED_GVKS, store)[k] == store[k]
  {
    OwnersExclude(i.policy, q, store[k].obj.labels);
  }

  /** Hence the Syncs of other policies, complete or not, are foreign to a DaemonSet they do not
      render. */
  lemma OtherPolicySyncIsForeign(env: Env, i: SyncInput, ok: bool, q: Policy, store: Store, left: Store, k: Key)
    requires DsOwner(i.policy) != DsOwner(q) && k in store && Matches(store[k].obj.labels, SelectorOf(q))
    requires k !in KeysOf(i.rendered) && SyncLeaves(env, i, ok, store, left)
    ensures Lookup(left, k) == Lookup(store, k)
  {
    var cfg := ConfigOf(env, i.policy);
    ApplyAllFrame(cfg, store, i.rendered, k);
    OwnersExclude(i.policy, q, store[k].obj.labels);
    assert !Matches(store[k].obj.labels, SelectorOf(i.policy));
    if !ok && i.policy.ofedDriver {
      var n := InterruptedAt(env, i, store, left, k);
      assert k !in KeysOf(i.rendered[..n]);
      ApplyAllFrame(cfg, store, i.rendered[..n], k);
    }
  }

  // ---- shared objects -----------------------------------------------------------------------

  /** An object of the state, of a kind the cleanup covers, that the Sync did not render. */
  predicate Undesired(env: Env, i: SyncInput, k: Key, s: Stored) {
    && k.gvk in SUPPORTED_GVKS && k.gvk in env.served
    && Matches(s.obj.labels, SelectorOf(i.policy)) && k !in KeysOf(i.rendered)
  }

  /** While some DaemonSet is protected no shared object is deleted; once none is, nothing the
      state owns and did not render survives. */
  lemma SharedObjectsFollowDaemonSets(env: Env, i: SyncInput, store: Store, k: Key)
    requires i.policy.ofedDriver && k in AfterPlan(env, i, store)
    ensures k in AfterSync(env, i, store)
    ensures
      var protected := Protected(PlanOf(i), AfterApply(env, i, store));
      var before, after := AfterPlan(env, i, store)[k], AfterSync(env, i, store)[k];
      && (protected != {} && k.gvk.kind != "DaemonSet" ==> after == before)
      && (protected == {} && Undesired(env, i, k, before) ==> after.terminating)
  {
  }
}
