/** The decision which DaemonSets a node pool left behind are kept, and for how long. */
module Retention {
  import opened Objects
  import opened ApiServers
  import opened StateSkels
  import opened NodeInfo

  // ---- time ---------------------------------------------------------------------------------

  const SECOND := 1_000_000_000
  const GRACE := 20 * 60 * SECOND
  const MAX_DURATION := 0x7FFF_FFFF_FFFF_FFFF

  /** What is left of an instant after it was formatted in RFC 3339 form, which has whole seconds. */
  function FloorToSecond(t: int): (s: int)
    ensures s % SECOND == 0 && s <= t < s + SECOND
  {
    t - t % SECOND
  }

  /** `Time.Sub`, which saturates at the ends of the 64-bit range. */
  function Elapsed(now: int, since: int): int {
    if now - since > MAX_DURATION then MAX_DURATION
    else if now - since < -MAX_DURATION - 1 then -MAX_DURATION - 1
    else now - since
  }

  /** The value of an integer expression after 64-bit wrap-around. */
  function Wrap64(n: int): int {
    (n + MAX_DURATION + 1) % 0x1_0000_0000_0000_0000 - MAX_DURATION - 1
  }

  function Remaining(now: int, since: int): int {
    var left := Wrap64(GRACE - Elapsed(now, since));
    if left <= 0 then 0 else left
  }

  /** The grace period as a caller counts it. A marker dated so far ahead that the subtraction
      overflows, some 292 years, is the one way to get no grace at all before the deadline. */
  lemma RemainingExact(now: int, since: int)
    ensures Remaining(now, since) > 0 <==> GRACE - MAX_DURATION <= now - since < GRACE
    ensures Remaining(now, since) > 0 ==> Remaining(now, since) == GRACE - (now - since)
  {
  }

  // ---- the plan of one reconcile ------------------------------------------------------------

  /** What one reconcile knows when it looks at the DaemonSets it did not render. */
  datatype Plan = Plan(selector: Labels, desired: set<NsName>, live: set<string>, policySelector: Labels, now: int)

  predicate Owned(p: Plan, k: Key, s: Stored) {
    k.gvk == DAEMON_SET && Matches(s.obj.labels, p.selector)
  }

  /** The pool is known, still the policy's, and has no eligible node. */
  predicate Deferrable(p: Plan, o: Object) {
    var pool := PoolNameFromSelector(o.nodeSelector);
    pool.Some? && !Retargeted(o.nodeSelector, p.policySelector) && pool.value !in p.live
  }

  /** The instant on the object, if there is a readable one. */
  function Marker(o: Object): Option<int> {
    if STALE_SINCE_ANNOTATION in o.annotations then
      match o.annotations[STALE_SINCE_ANNOTATION]
      case Instant(t) => Some(t)
      case Text(_) => None
    else None
  }

  function StaleSince(now: int, o: Object): int {
    match Marker(o)
    case Some(t) => t
    case None => now
  }

  function Marked(now: int, s: Stored): Stored {
    if Marker(s.obj).Some? then s
    else Annotated(s, STALE_SINCE_ANNOTATION, Some(Instant(FloorToSecond(now))))
  }

  function Unmarked(s: Stored): Stored {
    if STALE_SINCE_ANNOTATION in s.obj.annotations then Annotated(s, STALE_SINCE_ANNOTATION, None) else s
  }

  function Deferral(p: Plan, o: Object): int {
    if Deferrable(p, o) then Remaining(p.now, StaleSince(p.now, o)) else 0
  }

  predicate Protects(p: Plan, k: Key, s: Stored) {
    Owned(p, k, s) && k.nn !in p.desired && Deferral(p, s.obj) > 0
  }

  function PlannedObject(p: Plan, k: Key, s: Stored): Stored {
    if !Owned(p, k, s) then s
    else if k.nn in p.desired then Unmarked(s)
    else if Deferrable(p, s.obj) then Marked(p.now, s)
    else s
  }

  function Planned(p: Plan, store: Store): Store {
    map k | k in store :: PlannedObject(p, k, store[k])
  }

  function Protected(p: Plan, store: Store): set<NsName> {
    set k | k in store && Protects(p, k, store[k]) :: k.nn
  }

  /** `d` is the shortest grace period left among the protected DaemonSets, 0 for none. */
  ghost predicate Soonest(p: Plan, store: Store, d: int) {
    && (forall k :: k in store && Protects(p, k, store[k]) ==> 0 < d <= Deferral(p, store[k].obj))
    && (d != 0 ==> exists k :: k in store && Protects(p, k, store[k]) && d == Deferral(p, store[k].obj))
  }

  /** The veto on the generic cleanup: protected DaemonSets, and with them all shared objects. */
  predicate Retains(protected: set<NsName>, k: Key) {
    if k.gvk.kind == "DaemonSet" then k.nn in protected else protected != {}
  }

  function Veto(protected: set<NsName>): Key -> bool {
    k => Retains(protected, k)
  }

  function DesiredDaemonSets(rs: seq<Rendered>): set<NsName> {
    set i | 0 <= i < |rs| && rs[i].key.gvk.kind == "DaemonSet" :: rs[i].key.nn
  }

  class StaleRetention {
    var protected: set<NsName>
    var nextDeadline: int
    ghost var graces: set<int> // of all the DaemonSets protected so far

    /** The deadline is the shortest grace period, and 0 exactly when nothing is protected. */
    ghost predicate Valid()
      reads this
    {
      && (protected == {} <==> graces == {})
      && (if graces == {} then nextDeadline == 0
          else nextDeadline in graces && forall g :: g in graces ==> 0 < nextDeadline <= g)
    }

    constructor ()
      ensures Valid() && protected == {} && graces == {}
    {
      protected := {};
      nextDeadline := 0;
      graces := {};
    }

    method Protect(nn: NsName, remaining: int)
      requires Valid()
      modifies this
      ensures protected == old(protected) + {nn} && graces == old(graces) + {remaining}
      ensures remaining > 0 ==> Valid()
    {
      protected := protected + {nn};
      graces := graces + {remaining};
      if nextDeadline == 0 || remaining < nextDeadline {
        nextDeadline := remaining;
      }
    }
  }

  ghost function PlannedSeen(p: Plan, seen: set<Key>, store: Store): Store {
    map k | k in store :: if k in seen then PlannedObject(p, k, store[k]) else store[k]
  }

  ghost function ProtectedSeen(p: Plan, seen: set<Key>, store: Store): set<NsName> {
    set k | k in store && k in seen && Protects(p, k, store[k]) :: k.nn
  }

  ghost function GracesSeen(p: Plan, seen: set<Key>, store: Store): set<int> {
    set k | k in store && k in seen && Protects(p, k, store[k]) :: Deferral(p, store[k].obj)
  }

  lemma SeenMore(p: Plan, seen: set<Key>, store: Store, k: Key)
    requires k in store
    ensures ProtectedSeen(p, seen + {k}, store) ==
            ProtectedSeen(p, seen, store) + if Protects(p, k, store[k]) then {k.nn} else {}
    ensures GracesSeen(p, seen + {k}, store) ==
            GracesSeen(p, seen, store) + if Protects(p, k, store[k]) then {Deferral(p, store[k].obj)} else {}
  {
  }

  lemma SeenAll(p: Plan, seen: set<Key>, store: Store, retention: StaleRetention)
    requires forall k :: k in store && Owned(p, k, store[k]) ==> k in seen
    requires retention.Valid() && retention.graces == GracesSeen(p, seen, store)
    ensures PlannedSeen(p, seen, store) == Planned(p, store)
    ensures ProtectedSeen(p, seen, store) == Protected(p, store)
    ensures Soonest(p, store, retention.nextDeadline)
  {
    forall k | k in store && Protects(p, k, store[k]) ensures 0 < retention.nextDeadline <= Deferral(p, store[k].obj) {
      assert Deferral(p, store[k].obj) in GracesSeen(p, seen, store);
    }
  }

  /** The time the DaemonSet was first seen stale, stamping it on the first observation. */
  method MarkStaleSince(client: ApiServer, k: Key, s: Stored, now: int) returns (since: int, ok: bool)
    requires k in client.objects && client.objects[k] == s
    modifies client`objects, client`faults
    ensures since == StaleSince(now, s.obj)
    ensures ok ==> client.objects == old(client.objects)[k := Marked(now, s)]
    ensures !ok ==> client.objects == old(client.objects)
    ensures client.faults >= old(client.faults) && (ok <==> client.faults == old(client.faults))
  {
    if Marker(s.obj).Some? {
      assert client.objects == old(client.objects)[k := Marked(now, s)];
      return Marker(s.obj).value, true;
    }
    var patched := client.PatchAnnotation(k, STALE_SINCE_ANNOTATION, Some(Instant(FloorToSecond(now))));
    return now, patched.Ok?;
  }

  method ClearStaleSince(client: ApiServer, k: Key, s: Stored) returns (ok: bool)
    requires k in client.objects && client.objects[k] == s
    modifies client`objects, client`faults
    ensures ok ==> client.objects == old(client.objects)[k := Unmarked(s)]
    ensures !ok ==> client.objects == old(client.objects)
    ensures client.faults >= old(client.faults) && (ok <==> client.faults == old(client.faults))
  {
    if STALE_SINCE_ANNOTATION !in s.obj.annotations {
      assert client.objects == old(client.objects)[k := Unmarked(s)];
      return true;
    }
    var patched := client.PatchAnnotation(k, STALE_SINCE_ANNOTATION, None);
    return patched.Ok?;
  }

  /** How much longer an undesired DaemonSet has to be kept, 0 when it may go now. */
  method DeferralRemaining(client: ApiServer, p: Plan, k: Key, s: Stored) returns (remaining: int, ok: bool)
    requires k in client.objects && client.objects[k] == s && Owned(p, k, s) && k.nn !in p.desired
    modifies client`objects, client`faults
    ensures ok ==> remaining == Deferral(p, s.obj) && client.objects == old(client.objects)[k := PlannedObject(p, k, s)]
    ensures !ok ==> client.objects == old(client.objects)
    ensures client.faults >= old(client.faults) && (ok <==> client.faults == old(client.faults))
  {
    assert Owned(p, k, s);
    if !Deferrable(p, s.obj) {
      assert client.objects == old(client.objects)[k := PlannedObject(p, k, s)];
      return 0, true;
    }
    var since;
    since, ok := MarkStaleSince(client, k, s, p.now);
    remaining := Remaining(p.now, since);
  }

  method PlanOne(client: ApiServer, p: Plan, retention: StaleRetention, k: Key, s: Stored) returns (ok: bool)
    requires k in client.objects && client.objects[k] == s && Owned(p, k, s) && retention.Valid()
    modifies client`objects, client`faults, retention
    ensures retention.Valid()
    ensures ok ==> client.objects == old(client.objects)[k := PlannedObject(p, k, s)]
    ensures ok ==> retention.protected == old(retention.protected) + if Protects(p, k, s) then {k.nn} else {}
    ensures ok ==> retention.graces == old(retention.graces) + if Protects(p, k, s) then {Deferral(p, s.obj)} else {}
    ensures !ok ==> client.objects == old(client.objects)
    ensures client.faults >= old(client.faults) && (ok <==> client.faults == old(client.faults))
  {
    if k.nn in p.desired {
      ok := ClearStaleSince(client, k, s);
      return;
    }
    var remaining;
    remaining, ok := DeferralRemaining(client, p, k, s);
    if ok && remaining > 0 {
      retention.Protect(k.nn, remaining);
    }
  }

  /** Marks, un-marks and protects; an error leaves each object untouched or fully dealt with. */
  method PlanStaleRetention(client: ApiServer, p: Plan) returns (retention: StaleRetention, ok: bool)
    modifies client`objects, client`faults
    ensures fresh(retention)
    ensures ok ==> client.objects == Planned(p, old(client.objects))
    ensures ok ==> retention.protected == Protected(p, old(client.objects))
    ensures ok ==> Soonest(p, old(client.objects), retention.nextDeadline)
    ensures !ok ==> Between(old(client.objects), client.objects, Planned(p, old(client.objects)))
    ensures client.faults >= old(client.faults)
    ensures ok <==> client.faults == old(client.faults) && DAEMON_SET in client.served
  {
    retention := new StaleRetention();
    var listing := client.List(DAEMON_SET, p.selector);
    if listing.Err? {
      return retention, false;
    }
    ghost var seen;
    ok, seen := PlanItems(client, p, retention, listing.value);
    if ok {
      forall k | k in old(client.objects) && Owned(p, k, old(client.objects)[k]) ensures k in seen {
        assert Listed(k, old(client.objects), DAEMON_SET, p.selector);
      }
      SeenAll(p, seen, old(client.objects), retention);
    }
  }

  method PlanItems(client: ApiServer, p: Plan, retention: StaleRetention, items: seq<(Key, Stored)>)
    returns (ok: bool, ghost seen: set<Key>)
    requires IsListing(items, client.objects, DAEMON_SET, p.selector)
    requires retention.Valid() && retention.protected == {} && retention.graces == {}
    modifies client`objects, client`faults, retention
    ensures retention.Valid() && client.objects == PlannedSeen(p, seen, old(client.objects))
    ensures ok ==> retention.protected == ProtectedSeen(p, seen, old(client.objects))
    ensures ok ==> retention.graces == GracesSeen(p, seen, old(client.objects))
    ensures ok ==> forall i :: 0 <= i < |items| ==> items[i].0 in seen
    ensures client.faults >= old(client.faults) && (ok <==> client.faults == old(client.faults))
  {
    ghost var before := client.objects;
    seen := {};
    for n := 0 to |items|
      invariant retention.Valid() && client.faults == old(client.faults)
      invariant forall i :: 0 <= i < |items| ==> (items[i].0 in seen <==> i < n)
      invariant client.objects == PlannedSeen(p, seen, before)
      invariant retention.protected == ProtectedSeen(p, seen, before)
      invariant retention.graces == GracesSeen(p, seen, before)
    {
      var k, s := items[n].0, items[n].1;
      assert Listed(k, before, DAEMON_SET, p.selector) && before[k] == s;
      assert Owned(p, k, s);
      SeenMore(p, seen, before, k);
      ok := PlanOne(client, p, retention, k, s);
      if !ok {
        return;
      }
      seen := seen + {k};
      assert client.objects == PlannedSeen(p, seen, before);
    }
    ok := true;
  }
}
