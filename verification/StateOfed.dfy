/** One Sync of the OFED state: render, apply, plan the retention, clean up. */
module StateOfed {
  import opened Objects
  import opened ApiServers
  import opened Revisions
  import opened StateSkels
  import opened Tolerations
  import opened NodeInfo
  import opened Retention

  const OFED_STATE := "state-OFED"

  datatype PolicyKind = NicClusterPolicy | NicNodePolicy

  datatype Policy = Policy(kind: PolicyKind, name: string, uid: string, ofedDriver: bool,
                           nodeSelector: Labels, tolerations: seq<Toleration>)

  /** A NicClusterPolicy has no node selector. */
  function NodeSelectorOf(p: Policy): Labels {
    if p.kind.NicClusterPolicy? then map[] else p.nodeSelector
  }

  function DsOwner(p: Policy): string {
    if p.kind.NicClusterPolicy? then "NicClusterPolicy" else "nnp-" + p.name
  }

  function SelectorOf(p: Policy): Labels {
    StateLabels(OFED_STATE, DsOwner(p))
  }

  /** What never changes while an operator runs. */
  datatype Env = Env(served: set<Gvk>, hash: (Key, Object) -> Revision)

  /** What one Sync sees: the policy, the names of the live pools, the rendered objects, the clock. */
  datatype SyncInput = SyncInput(policy: Policy, live: set<string>, rendered: seq<Rendered>, now: int)

  function ConfigOf(env: Env, p: Policy): Config {
    Config(OFED_STATE, DsOwner(p), p.uid, env.hash)
  }

  function PlanOf(i: SyncInput): Plan {
    Plan(SelectorOf(i.policy), DesiredDaemonSets(i.rendered), i.live, NodeSelectorOf(i.policy), i.now)
  }

  function AfterApply(env: Env, i: SyncInput, store: Store): Store {
    ApplyAll(ConfigOf(env, i.policy), store, i.rendered)
  }

  function AfterPlan(env: Env, i: SyncInput, store: Store): Store {
    Planned(PlanOf(i), AfterApply(env, i, store))
  }

  function SweepOf(env: Env, i: SyncInput, store: Store): Cleanup {
    if i.policy.ofedDriver then
      var protected := Protected(PlanOf(i), AfterApply(env, i, store));
      Cleanup(env.served, SelectorOf(i.policy), KeysOf(i.rendered), Veto(protected))
    else Cleanup(env.served, SelectorOf(i.policy), {}, NO_VETO)
  }

  /** The store after a Sync that met no error. */
  function AfterSync(env: Env, i: SyncInput, store: Store): Store {
    var planned := if i.policy.ofedDriver then AfterPlan(env, i, store) else store;
    Swept(SweepOf(env, i, store), SUPPORTED_GVKS, planned)
  }

  /** The stores an erring Sync may leave: each phase may stop half-way and ends the Sync. */
  ghost predicate Interrupted(env: Env, i: SyncInput, store: Store, left: Store) {
    if i.policy.ofedDriver then
      || (exists n :: 0 <= n <= |i.rendered| && left == ApplyAll(ConfigOf(env, i.policy), store, i.rendered[..n]))
      || Between(AfterApply(env, i, store), left, AfterPlan(env, i, store))
      || Between(AfterPlan(env, i, store), left, AfterSync(env, i, store))
    else Between(store, left, AfterSync(env, i, store))
  }

  /** At least one node wants a pod, and every one that does has an available pod of the newest form. */
  predicate DaemonSetReady(s: DsStatus) {
    s.desired != 0 && s.desired == s.available == s.updated
  }

  /** All rendered objects exist and the DaemonSets among them are ready. */
  predicate AllReady(rs: seq<Rendered>, store: Store) {
    forall n :: 0 <= n < |rs| ==>
      rs[n].key in store && (rs[n].key.gvk.kind == "DaemonSet" ==> DaemonSetReady(store[rs[n].key].status))
  }

  /** The renderings of the first `n` pools one after the other, if all of them succeed. */
  function Renderings(render: NodePool -> Result<seq<Rendered>>, pools: seq<NodePool>, n: nat): Option<seq<Rendered>>
    requires n <= |pools|
  {
    if n == 0 then Some([])
    else
      var init, last := Renderings(render, pools, n - 1), render(pools[n - 1]);
      if init.Some? && last.Ok? then Some(init.value + last.value) else None
  }

  /** Nothing is lost or added: the list has exactly the objects of the first `n` pools. */
  lemma {:induction false} RenderingsExact(render: NodePool -> Result<seq<Rendered>>, pools: seq<NodePool>, n: nat)
    requires n <= |pools| && Renderings(render, pools, n).Some?
    ensures forall i :: 0 <= i < n ==> render(pools[i]).Ok?
    ensures forall o :: o in Renderings(render, pools, n).value <==>
              exists i :: 0 <= i < n && o in render(pools[i]).value
  {
    if n > 0 {
      RenderingsExact(render, pools, n - 1);
    }
  }

  predicate IsFirst(rs: seq<Rendered>, i: nat)
    requires i < |rs|
  {
    forall j :: 0 <= j < i ==> rs[j].key != rs[i].key
  }

  /** Of the first `n` objects the first of each name, in order. */
  function FirstOfEach(rs: seq<Rendered>, n: nat): seq<Rendered>
    requires n <= |rs|
  {
    if n == 0 then [] else FirstOfEach(rs, n - 1) + if IsFirst(rs, n - 1) then [rs[n - 1]] else []
  }

  lemma KeysOfAppend(rs: seq<Rendered>, r: Rendered)
    ensures KeysOf(rs + [r]) == KeysOf(rs) + {r.key}
  {
    var all := rs + [r];
    assert all[..|all|] == all && all[..|rs|] == rs;
    KeysOfSnoc(all, |rs|);
  }

  lemma {:induction false} FirstOfEachKeys(rs: seq<Rendered>, n: nat, k: Key)
    requires n <= |rs|
    ensures k in KeysOf(FirstOfEach(rs, n)) <==> exists i :: 0 <= i < n && rs[i].key == k
  {
    if n > 0 {
      FirstOfEachKeys(rs, n - 1, k);
      if IsFirst(rs, n - 1) {
        KeysOfAppend(FirstOfEach(rs, n - 1), rs[n - 1]);
      } else {
        var j :| 0 <= j < n - 1 && rs[j].key == rs[n - 1].key;
        assert FirstOfEach(rs, n) == FirstOfEach(rs, n - 1);
      }
    }
  }

  lemma {:induction false} FirstOfEachDistinct(rs: seq<Rendered>, n: nat)
    requires n <= |rs|
    ensures DistinctKeys(FirstOfEach(rs, n))
  {
    if n > 0 {
      FirstOfEachDistinct(rs, n - 1);
      FirstOfEachKeys(rs, n - 1, rs[n - 1].key);
      var init := FirstOfEach(rs, n - 1);
      if IsFirst(rs, n - 1) {
        assert forall i :: 0 <= i < |init| ==> init[i].key in KeysOf(init);
      }
    }
  }

  lemma {:induction false} FirstOfEachMembers(rs: seq<Rendered>, n: nat, o: Rendered)
    requires n <= |rs|
    ensures o in FirstOfEach(rs, n) <==> exists i :: 0 <= i < n && rs[i] == o && IsFirst(rs, i)
  {
    if n > 0 {
      FirstOfEachMembers(rs, n - 1, o);
    }
  }

  function Manifest(rs: seq<Rendered>): seq<Rendered> {
    FirstOfEach(rs, |rs|)
  }

  /** What is applied: every name that was rendered once, as it was rendered first. */
  lemma ManifestExact(rs: seq<Rendered>)
    ensures DistinctKeys(Manifest(rs)) && KeysOf(Manifest(rs)) == KeysOf(rs)
    ensures forall o :: o in Manifest(rs) <==> exists i :: 0 <= i < |rs| && rs[i] == o && IsFirst(rs, i)
  {
    FirstOfEachDistinct(rs, |rs|);
    forall o ensures o in Manifest(rs) <==> exists i :: 0 <= i < |rs| && rs[i] == o && IsFirst(rs, i) {
      FirstOfEachMembers(rs, |rs|, o);
    }
    forall k ensures k in KeysOf(Manifest(rs)) <==> k in KeysOf(rs) {
      FirstOfEachKeys(rs, |rs|, k);
    }
  }

  lemma {:induction false} FirstOfEachPrefix(rs: seq<Rendered>, more: seq<Rendered>, n: nat)
    requires n <= |rs|
    ensures FirstOfEach(rs + more, n) == FirstOfEach(rs, n)
  {
    if n > 0 {
      FirstOfEachPrefix(rs, more, n - 1);
      assert forall j :: 0 <= j < n ==> (rs + more)[j] == rs[j];
    }
  }

  /** A Sync reports Ready when nothing is left to remove and what it rendered is ready. */
  ghost predicate Settled(env: Env, i: SyncInput, store: Store)
    requires i.policy.ofedDriver
  {
    && !AnyDoomed(SweepOf(env, i, store), SUPPORTED_GVKS, AfterPlan(env, i, store))
    && i.rendered != [] && AllReady(i.rendered, AfterSync(env, i, store))
  }

  /** What a Sync that met no error reports. */
  ghost function Reported(env: Env, i: SyncInput, store: Store): SyncState {
    if i.policy.ofedDriver then if Settled(env, i, store) then Ready else NotReady
    else if AnyDoomed(SweepOf(env, i, store), SUPPORTED_GVKS, store) then NotReady else Ignore
  }

  lemma {:induction false} RenderingsFail(render: NodePool -> Result<seq<Rendered>>, pools: seq<NodePool>, i: nat,
                                          n: nat)
    requires i <= n <= |pools| && Renderings(render, pools, i).None?
    ensures Renderings(render, pools, n).None?
    decreases n
  {
    if i < n {
      RenderingsFail(render, pools, i, n - 1);
    }
  }

  class StateOfed {
    const skel: StateSkel
    var staleRequeue: int

    constructor (client: ApiServer, hash: (Key, Object) -> Revision)
      ensures fresh(skel) && skel.name == OFED_STATE && skel.client == client && skel.hash == hash
      ensures staleRequeue == 0
    {
      skel := new StateSkel(OFED_STATE, client, hash);
      staleRequeue := 0;
    }

    function TheEnv(): Env {
      Env(skel.client.served, skel.hash)
    }

    /** The objects of all pools, each key once, the first rendering winning. */
    method GetManifestObjects(pools: seq<NodePool>, render: NodePool -> Result<seq<Rendered>>)
      returns (objs: seq<Rendered>, ok: bool)
      ensures ok <==> Renderings(render, pools, |pools|).Some?
      ensures ok ==> objs == Manifest(Renderings(render, pools, |pools|).value)
    {
      objs := [];
      ghost var all: seq<Rendered> := [];
      for i := 0 to |pools|
        invariant Renderings(render, pools, i) == Some(all) && objs == Manifest(all)
      {
        var rendered := render(pools[i]);
        if rendered.Err? {
          RenderingsFail(render, pools, i + 1, |pools|);
          return [], false;
        }
        objs := AddNew(objs, all, rendered.value);
        all := all + rendered.value;
      }
      ok := true;
    }

    method AddNew(objs: seq<Rendered>, ghost before: seq<Rendered>, more: seq<Rendered>) returns (all: seq<Rendered>)
      requires objs == Manifest(before)
      ensures all == Manifest(before + more)
    {
      all := objs;
      ghost var rs := before + more;
      FirstOfEachPrefix(before, more, |before|);
      for n := 0 to |more|
        invariant all == FirstOfEach(rs, |before| + n)
      {
        FirstOfEachKeys(rs, |before| + n, more[n].key);
        if more[n].key !in KeysOf(all) {
          all := all + [more[n]];
        }
      }
    }

    /** The object is missing, or a DaemonSet that wants no pod, lacks an available or an updated one. */
    predicate NotYet(k: Key, store: Store) {
      k !in store || (k.gvk.kind == "DaemonSet"
                      && (store[k].status.desired == 0 || store[k].status.available != store[k].status.desired
                          || store[k].status.updated != store[k].status.available))
    }

    method GetSyncState(objs: seq<Rendered>) returns (state: SyncState, ok: bool)
      modifies skel.client`faults
      ensures ok ==> state == if AllReady(objs, skel.client.objects) then Ready else NotReady
      ensures ok && state == Ready ==> forall n :: 0 <= n < |objs| ==> objs[n].key in skel.client.objects
      ensures ok && state == Ready ==>
        forall n :: 0 <= n < |objs| && objs[n].key.gvk.kind == "DaemonSet" ==>
          var s := skel.client.objects[objs[n].key].status; 0 != s.desired == s.available == s.updated
      ensures ok && state != Ready ==> exists n :: 0 <= n < |objs| && NotYet(objs[n].key, skel.client.objects)
      ensures !ok ==> state == NotReady
      ensures skel.client.faults >= old(skel.client.faults)
      ensures ok <==> skel.client.faults == old(skel.client.faults)
    {
      for n := 0 to |objs|
        invariant skel.client.faults == old(skel.client.faults)
        invariant AllReady(objs[..n], skel.client.objects)
      {
        var current := skel.client.Get(objs[n].key);
        if current.Err? {
          return NotReady, current.error == NotFound;
        }
        if objs[n].key.gvk.kind == "DaemonSet" && !DaemonSetReady(current.value.status) {
          return NotReady, true;
        }
      }
      assert objs[..|objs|] == objs;
      assert AllReady(objs, skel.client.objects);
      return Ready, true;
    }

    /** `input` is what the Sync saw, `pools` the node pools it rendered for. No clause speaks of the
        fields' values before the call: a restarted operator, with both fields at their initial
        values, does the same. */
    method Sync(policy: Policy, cmp: Comparison, nodes: seq<Node>, render: NodePool -> Result<seq<Rendered>>, now: int)
      returns (state: SyncState, ok: bool, ghost input: SyncInput, ghost pools: seq<NodePool>)
      requires skel.name == OFED_STATE
      modifies this`staleRequeue, skel`dsOwner, skel.client`objects, skel.client`faults
      ensures input.policy == policy && input.now == now && DistinctKeys(input.rendered)
      ensures policy.ofedDriver ==> Discovered(cmp, nodes, policy.tolerations, pools) && input.live == Names(pools)
      ensures policy.ofedDriver ==>
        input.live == set n | n in nodes && Eligible(cmp, policy.tolerations, n) && HasPoolLabels(n) :: PoolOf(n).name
      ensures policy.ofedDriver ==> (state == Error <==> Renderings(render, pools, |pools|).None?)
      ensures policy.ofedDriver && state != Error ==>
        input.rendered == Manifest(Renderings(render, pools, |pools|).value)
      ensures policy.ofedDriver && state == Error ==> !ok && skel.client.objects == old(skel.client.objects)
      ensures ok ==> skel.client.objects == AfterSync(TheEnv(), input, old(skel.client.objects))
      ensures !ok ==>
        Interrupted(TheEnv(), input, old(skel.client.objects), skel.client.objects)
      ensures ok && policy.ofedDriver ==>
        Soonest(PlanOf(input), AfterApply(TheEnv(), input, old(skel.client.objects)), staleRequeue)
      ensures !policy.ofedDriver ==> staleRequeue == 0
      ensures ok ==> state == Reported(TheEnv(), input, old(skel.client.objects))
      ensures !ok ==> state == Error || (state == NotReady && policy.ofedDriver)
      ensures skel.client.faults >= old(skel.client.faults)
      ensures !policy.ofedDriver ==> (ok <==> skel.client.faults == old(skel.client.faults))
      ensures policy.ofedDriver ==>
        (ok <==>
         && skel.client.faults == old(skel.client.faults) && Renderings(render, pools, |pools|).Some?
         && !AnyForeign(policy.uid, input.rendered) && DAEMON_SET in skel.client.served)
    {
      ghost var env := TheEnv();
      skel.dsOwner := DsOwner(policy);
      staleRequeue := 0;
      input, pools := SyncInput(policy, {}, [], now), [];
      if !policy.ofedDriver {
        state, ok := skel.HandleStateObjectsDeletion();
        return;
      }
      var found := OfedNodePools(cmp, nodes, policy.tolerations);
      LivePools(cmp, nodes, policy.tolerations, found);
      pools := found;
      input := input.(live := Names(found));
      var objs;
      objs, ok := GetManifestObjects(found, render);
      if !ok {
        assert skel.client.objects == ApplyAll(ConfigOf(env, policy), old(skel.client.objects), input.rendered[..0]);
        state := Error;
        return;
      }
      ManifestExact(Renderings(render, pools, |pools|).value);
      var seen := SyncInput(policy, Names(found), objs, now);
      input := seen;
      state, ok := SyncRendered(policy, seen);
    }

    /** The part of Sync that follows the rendering. */
    method SyncRendered(policy: Policy, input: SyncInput) returns (state: SyncState, ok: bool)
      requires skel.name == OFED_STATE && skel.dsOwner == DsOwner(policy) && staleRequeue == 0
      requires input.policy == policy && policy.ofedDriver && DistinctKeys(input.rendered)
      modifies this`staleRequeue, skel.client`objects, skel.client`faults
      ensures ok ==> skel.client.objects == AfterSync(TheEnv(), input, old(skel.client.objects))
      ensures !ok ==>
        Interrupted(TheEnv(), input, old(skel.client.objects), skel.client.objects)
      ensures ok ==>
        Soonest(PlanOf(input), AfterApply(TheEnv(), input, old(skel.client.objects)), staleRequeue)
      ensures ok ==> state == Reported(TheEnv(), input, old(skel.client.objects))
      ensures !ok ==> state == NotReady
      ensures skel.client.faults >= old(skel.client.faults)
      ensures ok <==>
        && skel.client.faults == old(skel.client.faults)
        && !AnyForeign(policy.uid, input.rendered) && DAEMON_SET in skel.client.served
    {
      var protected;
      protected, ok := ApplyAndPlan(policy, input);
      if !ok {
        return NotReady, false;
      }
      ghost var planned := skel.client.objects;
      state, ok := SweepAndReport(input.rendered, protected);
      assert skel.CleanupFor(KeysOf(input.rendered), Veto(protected)) ==
             SweepOf(TheEnv(), input, old(skel.client.objects));
    }

    method SweepAndReport(rendered: seq<Rendered>, protected: set<NsName>) returns (state: SyncState, ok: bool)
      modifies skel.client`objects, skel.client`faults
      ensures ok ==>
        var c := skel.CleanupFor(KeysOf(rendered), Veto(protected));
        && skel.client.objects == Swept(c, SUPPORTED_GVKS, old(skel.client.objects))
        && (state == Ready <==>
            && !AnyDoomed(c, SUPPORTED_GVKS, old(skel.client.objects))
            && rendered != [] && AllReady(rendered, skel.client.objects))
      ensures state == Ready || state == NotReady
      ensures !ok ==> state == NotReady
      ensures skel.client.faults >= old(skel.client.faults)
      ensures ok <==> skel.client.faults == old(skel.client.faults)
      ensures !ok ==>
        var c := skel.CleanupFor(KeysOf(rendered), Veto(protected));
        Between(old(skel.client.objects), skel.client.objects, Swept(c, SUPPORTED_GVKS, old(skel.client.objects)))
    {
      var found;
      found, ok := skel.HandleStaleStateObjects(rendered, Veto(protected));
      if !ok {
        return NotReady, false;
      }
      if found || |rendered| == 0 {
        return NotReady, true;
      }
      state, ok := GetSyncState(rendered);
    }

    method ApplyAndPlan(policy: Policy, input: SyncInput) returns (protected: set<NsName>, ok: bool)
      requires skel.name == OFED_STATE && skel.dsOwner == DsOwner(policy) && staleRequeue == 0
      requires input.policy == policy && policy.ofedDriver
      modifies this`staleRequeue, skel.client`objects, skel.client`faults
      ensures ok ==> skel.client.objects == AfterPlan(TheEnv(), input, old(skel.client.objects))
      ensures ok ==> protected == Protected(PlanOf(input), AfterApply(TheEnv(), input, old(skel.client.objects)))
      ensures ok ==> Soonest(PlanOf(input), AfterApply(TheEnv(), input, old(skel.client.objects)), staleRequeue)
      ensures !ok ==> Interrupted(TheEnv(), input, old(skel.client.objects), skel.client.objects)
      ensures skel.client.faults >= old(skel.client.faults)
      ensures ok <==>
        && skel.client.faults == old(skel.client.faults)
        && !AnyForeign(policy.uid, input.rendered) && DAEMON_SET in skel.client.served
    {
      ok := skel.CreateOrUpdateObjs(policy.uid, input.rendered);
      if !ok {
        return {}, false;
      }
      var retention;
      retention, ok := PlanStaleRetention(skel.client, PlanOf(input));
      if !ok {
        return {}, false;
      }
      staleRequeue := retention.nextDeadline;
      protected := retention.protected;
    }
  }
}
