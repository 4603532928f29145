/** The upgrade controller's map of per-policy state managers. */
module UpgradeController {
  import opened Iteration
  import opened Objects

  datatype Manager = Manager(requestor: string)

  /** `autoUpgrade` stands for the whole chain: driver section, upgrade policy and flag are set. */
  datatype UpgradePolicy = UpgradePolicy(name: string, autoUpgrade: bool)

  function PolicyKey(name: string): string {
    "nnp-" + name
  }

  ghost predicate DistinctNames(ps: seq<UpgradePolicy>) {
    forall i, j :: 0 <= i < j < |ps| ==> ps[i].name != ps[j].name
  }

  /** The keys of the active ones among the first `n` policies. */
  ghost function ActiveAmong(ps: seq<UpgradePolicy>, n: nat): set<string>
    requires n <= |ps|
  {
    set i | 0 <= i < n && ps[i].autoUpgrade :: PolicyKey(ps[i].name)
  }

  ghost function ActiveKeys(ps: seq<UpgradePolicy>): set<string> {
    ActiveAmong(ps, |ps|)
  }

  lemma PolicyKeyInjective(a: string, b: string)
    ensures PolicyKey(a) == PolicyKey(b) <==> a == b
  {
    assert PolicyKey(a)[4..] == a && PolicyKey(b)[4..] == b;
  }

  /** What was done for a policy, and whether it succeeded: cleaning up after it, creating its manager,
      or building and applying its upgrade state. */
  datatype Work =
    | Cleanup(key: string, done: bool)
    | Creation(key: string, done: bool)
    | Upgrade(key: string, done: bool)

  /** The keys some cleanup in the log succeeded for, or failed for. */
  ghost function KeysWith(log: seq<Work>, done: bool): set<string> {
    set c | c in log && c.Cleanup? && c.done == done :: c.key
  }

  lemma KeysWithMore(log: seq<Work>, c: Work)
    ensures c.Cleanup? ==> KeysWith(log + [c], c.done) == KeysWith(log, c.done) + {c.key}
    ensures c.Cleanup? ==> KeysWith(log + [c], !c.done) == KeysWith(log, !c.done)
    ensures !c.Cleanup? ==> forall done :: KeysWith(log + [c], done) == KeysWith(log, done)
  {
  }

  lemma KeysWithJoin(log: seq<Work>, more: seq<Work>, done: bool)
    ensures KeysWith(log + more, done) == KeysWith(log, done) + KeysWith(more, done)
  {
  }

  /** Managers are created and upgrades applied for active policies only, and managers only where there
      is none. */
  ghost predicate OnlyActive(before: map<string, Manager>, active: set<string>, ran: seq<Work>) {
    forall w :: w in ran && !w.Cleanup? ==> w.key in active && (w.Creation? ==> w.key !in before)
  }

  /** No creation or upgrade failed; a failed cleanup is retried and is no error. */
  ghost predicate NoError(ran: seq<Work>) {
    forall w :: w in ran && !w.Cleanup? ==> w.done
  }

  /** The upgrade state of every one of the first `n` policies, if active, was built and applied. */
  ghost predicate Upgraded(ps: seq<UpgradePolicy>, n: nat, ran: seq<Work>)
    requires n <= |ps|
  {
    forall i :: 0 <= i < n && ps[i].autoUpgrade ==> Upgrade(PolicyKey(ps[i].name), true) in ran
  }

  /** What one reconcile over a readable list may do; `ran` is what it did. */
  ghost predicate Reconciled(before: map<string, Manager>, active: set<string>, ran: seq<Work>, after: map<string,
                             Manager>)
  {
    && (forall k :: k in before && k !in after ==> k in KeysWith(ran, true))
    && (forall k :: k in after && k !in before ==> k in active)
    && (forall k :: k in before && k in after ==> after[k] == before[k])
    && KeysWith(ran, true) + KeysWith(ran, false) <= before.Keys - active
  }

  class UpgradeReconciler {
    var managers: map<string, Manager>
    ghost var log: seq<Work> // all that was ever done

    constructor ()
      ensures managers == map[] && log == []
    {
      managers := map[];
      log := [];
    }

    method ReconcileNodePolicyUpgrades(list: Result<seq<UpgradePolicy>>)
      returns (requeue: bool, ok: bool, ghost ran: seq<Work>)
      requires list.Ok? ==> DistinctNames(list.value)
      modifies this
      ensures log == old(log) + ran
      ensures list.Err? ==> managers == old(managers) && ran == [] && !requeue && (ok <==> list.error == NotFound)
      ensures list.Ok? ==> Reconciled(old(managers), ActiveKeys(list.value), ran, managers)
      ensures list.Ok? ==> OnlyActive(old(managers), ActiveKeys(list.value), ran) && (ok <==> NoError(ran))
      ensures list.Ok? && ok ==> Upgraded(list.value, |list.value|, ran)
      ensures list.Ok? && ok ==>
        ActiveKeys(list.value) <= managers.Keys <= ActiveKeys(list.value) + KeysWith(ran, false)
      ensures list.Ok? && ok ==> (requeue <==> ActiveKeys(list.value) != {} || KeysWith(ran, false) != {})
      ensures list.Ok? && ok && managers != map[] ==> requeue
    {
      requeue, ran := false, [];
      if list.Err? {
        ok := list.error == NotFound;
        return;
      }
      var ps := list.value;
      requeue, ok, ran := ReconcilePolicies(ps);
      if !ok {
        return;
      }
      ghost var first, mid := ran, managers;
      var activeKeys := set i | 0 <= i < |ps| && ps[i].autoUpgrade :: PolicyKey(ps[i].name);
      assert activeKeys == ActiveKeys(ps);
      var again;
      again, ran := CleanStale(activeKeys);
      requeue := requeue || again;
      KeysWithJoin(first, ran, true);
      KeysWithJoin(first, ran, false);
      ran := first + ran;
      assert forall k :: k in managers ==> k in mid;
    }

    /** The pass over the listed policies. */
    method ReconcilePolicies(ps: seq<UpgradePolicy>) returns (requeue: bool, ok: bool, ghost ran: seq<Work>)
      requires DistinctNames(ps)
      modifies this
      ensures log == old(log) + ran
      ensures Reconciled(old(managers), ActiveKeys(ps), ran, managers)
      ensures OnlyActive(old(managers), ActiveKeys(ps), ran) && (ok <==> NoError(ran))
      ensures ok ==> Upgraded(ps, |ps|, ran) && ActiveKeys(ps) <= managers.Keys
      ensures ok ==> (requeue <==> ActiveKeys(ps) != {} || KeysWith(ran, false) != {})
    {
      requeue, ran := false, [];
      for n := 0 to |ps|
        invariant log == old(log) + ran
        invariant Progress(old(managers), ps, n, ran, managers, requeue)
      {
        ghost var did;
        requeue, ok, did := ReconcilePolicy(ps, n, old(managers), ran, requeue);
        ran := ran + did;
        if !ok {
          return false, false, ran;
        }
      }
      ok := true;
    }

    method ReconcilePolicy(ps: seq<UpgradePolicy>, n: nat, ghost before: map<string, Manager>, ghost ran: seq<Work>,
                           requested: bool)
      returns (requeue: bool, ok: bool, ghost did: seq<Work>)
      requires DistinctNames(ps) && n < |ps| && Progress(before, ps, n, ran, managers, requested)
      modifies this
      ensures log == old(log) + did
      ensures Reconciled(before, ActiveKeys(ps), ran + did, managers) && OnlyActive(before, ActiveKeys(ps), ran + did)
      ensures ok <==> NoError(ran + did)
      ensures ok ==> Progress(before, ps, n + 1, ran + did, managers, requeue)
    {
      var key := PolicyKey(ps[n].name);
      ghost var mid := managers;
      if !ps[n].autoUpgrade {
        var done;
        done, did := CleanInactive(key);
        InactiveStep(before, ps, n, ran, mid, requested, key, done);
        return requested || !done, true, did;
      }
      ok, did := UpgradeActive(key);
      ActiveStep(before, ps, n, ran, mid, requested, key, did, managers);
      requeue := true;
    }

    /** A policy without auto-upgrade: its manager goes unless the cleanup fails. */
    method CleanInactive(key: string) returns (done: bool, ghost did: seq<Work>)
      modifies this
      ensures log == old(log) + did && did == (if key in old(managers) then [Cleanup(key, done)] else [])
      ensures key !in old(managers) ==> done
      ensures managers == if done then old(managers) - {key} else old(managers)
    {
      done, did := true, [];
      if key in managers {
        done := CleanupNodePolicyUpgradeResources(key);
        did := [Cleanup(key, done)];
        if !done {
          return;
        }
      }
      managers := managers - {key};
    }

    /** An active policy: its manager is created if need be, and its upgrade state built and applied. */
    method UpgradeActive(key: string) returns (ok: bool, ghost did: seq<Work>)
      modifies this
      ensures log == old(log) + did && WorksFor(key, old(managers), did, managers)
      ensures ok <==> NoError(did)
      ensures ok ==> Upgrade(key, true) in did && key in managers
    {
      did := [];
      if key !in managers {
        var created := GetOrCreateNodePolicyStateManager(key);
        did := [Creation(key, created)];
        if !created {
          assert did[0] in did;
          return false, did;
        }
        managers := managers[key := Manager(key)];
      }
      ok := BuildAndApplyState(key);
      did := did + [Upgrade(key, ok)];
      assert Upgrade(key, ok) in did;
    }

    /** The pass over the managers of policies that are not active any more. */
    method CleanStale(activeKeys: set<string>) returns (requeue: bool, ghost ran: seq<Work>)
      modifies this
      ensures log == old(log) + ran
      ensures forall k :: k in managers <==> k in old(managers) && k !in KeysWith(ran, true)
      ensures forall k :: k in managers ==> managers[k] == old(managers)[k]
      ensures KeysWith(ran, true) + KeysWith(ran, false) == old(managers).Keys - activeKeys
      ensures KeysWith(ran, true) !! KeysWith(ran, false)
      ensures requeue <==> KeysWith(ran, false) != {}
      ensures forall w :: w in ran ==> w.Cleanup?
    {
      requeue, ran := false, [];
      ghost var cleaned: set<string>, failed: set<string> := {}, {};
      var order := Enumerate(managers.Keys);
      for n := 0 to |order|
        invariant log == old(log) + ran && cleaned == KeysWith(ran, true) && failed == KeysWith(ran, false)
        invariant forall k :: k in managers <==> k in old(managers) && k !in cleaned
        invariant forall k :: k in managers ==> managers[k] == old(managers)[k]
        invariant cleaned !! failed && cleaned + failed <= old(managers).Keys - activeKeys
        invariant forall i :: 0 <= i < |order| && order[i] !in activeKeys ==> (order[i] in cleaned + failed <==> i < n)
        invariant requeue <==> failed != {}
        invariant forall w :: w in ran ==> w.Cleanup?
      {
        var key := order[n];
        assert key in order;
        if key !in activeKeys {
          var done := CleanupNodePolicyUpgradeResources(key);
          KeysWithMore(ran, Cleanup(key, done));
          ran := ran + [Cleanup(key, done)];
          if !done {
            failed := failed + {key};
            requeue := true;
            continue;
          }
          cleaned := cleaned + {key};
          managers := managers - {key};
        }
      }
      forall k | k in old(managers) && k !in activeKeys ensures k in cleaned + failed {
        assert k in order;
      }
    }

    /** Removes labels and NodeMaintenance objects; it may fail at any of its API calls. */
    method CleanupNodePolicyUpgradeResources(key: string) returns (done: bool)
      modifies this`log
      ensures log == old(log) + [Cleanup(key, done)]
    {
      done := *;
      log := log + [Cleanup(key, done)];
    }

    method GetOrCreateNodePolicyStateManager(key: string) returns (done: bool)
      modifies this`log
      ensures log == old(log) + [Creation(key, done)]
    {
      done := *;
      log := log + [Creation(key, done)];
    }

    /** The upstream upgrade library's BuildState and ApplyState, one after the other. */
    method BuildAndApplyState(key: string) returns (done: bool)
      modifies this`log
      ensures log == old(log) + [Upgrade(key, done)]
    {
      done := *;
      log := log + [Upgrade(key, done)];
    }
  }

  /** The first `n` policies are dealt with. */
  ghost predicate Progress(before: map<string, Manager>, ps: seq<UpgradePolicy>, n: nat, ran: seq<Work>,
                           now: map<string, Manager>, requeue: bool)
    requires n <= |ps|
  {
    && Reconciled(before, ActiveKeys(ps), ran, now) && OnlyActive(before, ActiveKeys(ps), ran)
    && NoError(ran) && Upgraded(ps, n, ran) && ActiveAmong(ps, n) <= now.Keys
    && (requeue <==> ActiveAmong(ps, n) != {} || KeysWith(ran, false) != {})
  }

  lemma InactiveStep(before: map<string, Manager>, ps: seq<UpgradePolicy>, n: nat, ran: seq<Work>,
                     mid: map<string, Manager>, requeue: bool, key: string, done: bool)
    requires DistinctNames(ps) && n < |ps| && !ps[n].autoUpgrade && key == PolicyKey(ps[n].name)
    requires Progress(before, ps, n, ran, mid, requeue) && (key !in mid ==> done)
    ensures Progress(before, ps, n + 1, ran + if key in mid then [Cleanup(key, done)] else [],
                     if done then mid - {key} else mid, requeue || !done)
  {
    InactiveKey(ps, n);
    assert ActiveAmong(ps, n + 1) == ActiveAmong(ps, n);
    if key in mid {
      KeysWithMore(ran, Cleanup(key, done));
    } else {
      assert ran + [] == ran && mid - {key} == mid;
    }
  }

  /** Work for one key that creates at most its manager. */
  ghost predicate WorksFor(key: string, mid: map<string, Manager>, did: seq<Work>, after: map<string, Manager>) {
    && (forall w :: w in did ==> !w.Cleanup? && w.key == key && (w.Creation? ==> key !in mid))
    && (after == mid || (key !in mid && after == mid[key := Manager(key)]))
  }

  lemma ActiveStep(before: map<string, Manager>, ps: seq<UpgradePolicy>, n: nat, ran: seq<Work>,
                   mid: map<string, Manager>, requeue: bool, key: string, did: seq<Work>, after: map<string, Manager>)
    requires n < |ps| && ps[n].autoUpgrade && key == PolicyKey(ps[n].name)
    requires Progress(before, ps, n, ran, mid, requeue) && WorksFor(key, mid, did, after)
    ensures Reconciled(before, ActiveKeys(ps), ran + did, after) && OnlyActive(before, ActiveKeys(ps), ran + did)
    ensures NoError(ran + did) <==> NoError(did)
    ensures NoError(did) && Upgrade(key, true) in did && key in after ==>
      Progress(before, ps, n + 1, ran + did, after, true)
  {
    KeysWithJoin(ran, did, true);
    KeysWithJoin(ran, did, false);
    assert key in ActiveKeys(ps) && ActiveAmong(ps, n + 1) == ActiveAmong(ps, n) + {key};
  }

  /** A policy without auto-upgrade never shares a key with one that has it. */
  lemma InactiveKey(ps: seq<UpgradePolicy>, n: nat)
    requires DistinctNames(ps) && n < |ps| && !ps[n].autoUpgrade
    ensures PolicyKey(ps[n].name) !in ActiveKeys(ps)
  {
    forall i | 0 <= i < |ps| && ps[i].autoUpgrade ensures PolicyKey(ps[i].name) != PolicyKey(ps[n].name) {
      PolicyKeyInjective(ps[i].name, ps[n].name);
    }
  }

  /** A reconcile, with the policies that were active and what it did, or an operator restart, which
      empties the map. */
  datatype Event = Reconcile(active: set<string>, ran: seq<Work>) | Restart

  ghost predicate Run(states: seq<map<string, Manager>>, events: seq<Event>) {
    && |states| == |events| + 1
    && forall i :: 0 <= i < |events| ==> Happens(states[i], events[i], states[i + 1])
  }

  ghost predicate Happens(before: map<string, Manager>, e: Event, after: map<string, Manager>) {
    match e
    case Reconcile(active, ran) => Reconciled(before, active, ran, after)
    case Restart => after == map[]
  }

  /** The event is a restart, or it ran a successful cleanup for the key at a time when its policy was
      not active. */
  ghost predicate Forgets(e: Event, key: string) {
    e.Restart? || (Cleanup(key, true) in e.ran && key !in e.active)
  }

  /** Over any number of reconciles, failed ones included, no manager is forgotten: if it is in the
      map at `m` and not at `n`, then in between the operator was restarted or a cleanup was run for
      it and succeeded, at a time when its policy was not active. */
  lemma {:induction false} ManagersAreNotForgotten(states: seq<map<string, Manager>>, events: seq<Event>, key: string,
                                                   m: nat, n: nat)
    requires Run(states, events) && m <= n <= |events| && key in states[m] && key !in states[n]
    ensures exists i :: m <= i < n && Forgets(events[i], key)
    decreases n
  {
    assert Happens(states[n - 1], events[n - 1], states[n]);
    if key in states[n - 1] {
      assert Forgets(events[n - 1], key);
    } else {
      ManagersAreNotForgotten(states, events, key, m, n - 1);
    }
  }

  /** What a restart forgets stays forgotten: for a key without a manager no cleanup is run for as long
      as its policy is not active. */
  lemma {:induction false} NoManagerNoCleanup(states: seq<map<string, Manager>>, events: seq<Event>, key: string,
                                              m: nat, n: nat)
    requires Run(states, events) && m <= n <= |events| && key !in states[m]
    requires forall i :: m <= i < n && events[i].Reconcile? ==> key !in events[i].active
    ensures key !in states[n]
    ensures forall i, c :: m <= i < n && events[i].Reconcile? && c in events[i].ran && c.Cleanup? ==> c.key != key
    decreases n
  {
    if m < n {
      NoManagerNoCleanup(states, events, key, m, n - 1);
      assert Happens(states[n - 1], events[n - 1], states[n]);
      if events[n - 1].Reconcile? {
        forall c | c in events[n - 1].ran && c.Cleanup? ensures c.key in states[n - 1] {
          assert c.key in KeysWith(events[n - 1].ran, c.done);
        }
      }
    }
  }
}
