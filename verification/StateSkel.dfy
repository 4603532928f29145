/** The create, update and delete engine every state shares. The functions say what one pass does
    to the store, the class does it call by call. */
module StateSkels {
  import opened Objects
  import opened ApiServers
  import opened Revisions

  /** What a pass depends on besides the objects: the state's labels, the controller reference it
      sets, and the revision hash, which may be any function of a prepared object. */
  datatype Config = Config(name: string, dsOwner: string, uid: string, hash: (Key, Object) -> Revision)

  // ---- create and update --------------------------------------------------------------------

  function StateLabels(name: string, dsOwner: string): Labels {
    if dsOwner != "" then map[STATE_LABEL := name, DS_OWNER_LABEL := dsOwner] else map[STATE_LABEL := name]
  }

  /** The rendered object with controller reference and state labels, as it is hashed. */
  function Labelled(cfg: Config, r: Rendered): Object {
    r.obj.(owner := Some(cfg.uid), labels := r.obj.labels + StateLabels(cfg.name, cfg.dsOwner))
  }

  function DesiredRevision(cfg: Config, r: Rendered): Revision {
    cfg.hash(r.key, Labelled(cfg, r))
  }

  function Prepared(cfg: Config, r: Rendered): Object {
    SetRevision(Labelled(cfg, r), DesiredRevision(cfg, r))
  }

  /** A ServiceAccount keeps the secrets the cluster put on it. */
  function Merged(gvk: Gvk, updated: Object, current: Object): Object {
    if gvk.group == "" && gvk.kind == "ServiceAccount" then
      updated.(
        secrets := if current.secrets.Some? then current.secrets else updated.secrets,
        imagePullSecrets :=
          if current.imagePullSecrets.Some? then current.imagePullSecrets else updated.imagePullSecrets)
    else updated
  }

  predicate InSync(cfg: Config, r: Rendered, current: Object) {
    GetRevision(current) != 0 && GetRevision(current) == DesiredRevision(cfg, r)
  }

  function Applied(cfg: Config, r: Rendered, current: Option<Stored>): Stored {
    match current
    case None => Stored(Prepared(cfg, r), 1, false, NO_STATUS)
    case Some(c) =>
      if InSync(cfg, r, c.obj) then c else Written(c, Merged(r.key.gvk, Prepared(cfg, r), c.obj))
  }

  function Lookup(store: Store, k: Key): Option<Stored> {
    if k in store then Some(store[k]) else None
  }

  function ApplyOne(cfg: Config, store: Store, r: Rendered): Store {
    store[r.key := Applied(cfg, r, Lookup(store, r.key))]
  }

  function ApplyAll(cfg: Config, store: Store, rs: seq<Rendered>): Store {
    if rs == [] then store
    else ApplyOne(cfg, ApplyAll(cfg, store, rs[..|rs| - 1]), rs[|rs| - 1])
  }

  /** A pass touches the rendered objects only. */
  lemma {:induction false} ApplyAllFrame(cfg: Config, store: Store, rs: seq<Rendered>, k: Key)
    requires k !in KeysOf(rs)
    ensures Lookup(ApplyAll(cfg, store, rs), k) == Lookup(store, k)
  {
    if rs != [] {
      var rest := rs[..|rs| - 1];
      assert rs[|rs| - 1].key in KeysOf(rs);
      assert KeysOf(rest) <= KeysOf(rs) by {
        forall i | 0 <= i < |rest| ensures rest[i].key in KeysOf(rs) {
          assert rest[i] == rs[i];
        }
      }
      ApplyAllFrame(cfg, store, rest, k);
    }
  }

  /** With distinct names, what a pass does to one object depends on that object alone. */
  lemma {:induction false} ApplyAllAt(cfg: Config, store: Store, rs: seq<Rendered>, i: nat)
    requires DistinctKeys(rs) && i < |rs|
    ensures Lookup(ApplyAll(cfg, store, rs), rs[i].key) == Some(Applied(cfg, rs[i], Lookup(store, rs[i].key)))
  {
    var rest := rs[..|rs| - 1];
    if i == |rs| - 1 {
      assert rs[i].key !in KeysOf(rest);
      ApplyAllFrame(cfg, store, rest, rs[i].key);
    } else {
      ApplyAllAt(cfg, store, rest, i);
    }
  }

  lemma {:induction false} ApplyAllKeys(cfg: Config, store: Store, rs: seq<Rendered>)
    ensures ApplyAll(cfg, store, rs).Keys == store.Keys + KeysOf(rs)
  {
    if rs != [] {
      var rest := rs[..|rs| - 1];
      ApplyAllKeys(cfg, store, rest);
      forall k ensures k in KeysOf(rs) <==> k in KeysOf(rest) || k == rs[|rs| - 1].key {
        if k in KeysOf(rs) {
          var i :| 0 <= i < |rs| && rs[i].key == k;
          assert i < |rest| ==> rest[i].key == k;
        }
        if k in KeysOf(rest) {
          var i :| 0 <= i < |rest| && rest[i].key == k;
          assert rs[i].key == k;
        }
      }
    }
  }

  /** After a pass every rendered object is stored and carries the desired revision. */
  lemma AppliedCarriesRevision(cfg: Config, store: Store, rs: seq<Rendered>, i: nat)
    requires DistinctKeys(rs) && i < |rs|
    ensures rs[i].key in ApplyAll(cfg, store, rs)
    ensures GetRevision(ApplyAll(cfg, store, rs)[rs[i].key].obj) == DesiredRevision(cfg, rs[i])
  {
    var k := rs[i].key;
    ApplyAllAt(cfg, store, rs, i);
    RevisionRoundTrip(Labelled(cfg, rs[i]), DesiredRevision(cfg, rs[i]));
    var cur := Lookup(store, k);
    if cur.Some? && !InSync(cfg, rs[i], cur.value.obj) {
      assert Merged(k.gvk, Prepared(cfg, rs[i]), cur.value.obj).annotations == Prepared(cfg, rs[i]).annotations;
    }
  }

  /** The rendered object under the state's labels and controller reference, with nothing but the
      state's labels and the revision added. */
  ghost predicate CarriesRendering(cfg: Config, o: Object, stored: Object) {
    && stored.body == o.body && stored.nodeSelector == o.nodeSelector && stored.owner == Some(cfg.uid)
    && Matches(stored.labels, StateLabels(cfg.name, cfg.dsOwner))
    && (forall l :: l !in StateLabels(cfg.name, cfg.dsOwner) ==>
          (l in stored.labels <==> l in o.labels) && (l in o.labels ==> stored.labels[l] == o.labels[l]))
    && (forall a :: a != REVISION_ANNOTATION ==>
          && (a in stored.annotations <==> a in o.annotations)
          && (a in o.annotations ==> stored.annotations[a] == o.annotations[a]))
  }

  lemma PreparedCarries(cfg: Config, r: Rendered)
    ensures CarriesRendering(cfg, r.obj, Prepared(cfg, r))
  {
  }

  /** What a pass stores: an object it left alone had the desired revision already, and one it wrote
      is the rendered object, with the rendered secrets unless it is a ServiceAccount that has some. */
  lemma AppliedContent(cfg: Config, store: Store, rs: seq<Rendered>, i: nat)
    requires DistinctKeys(rs) && i < |rs|
    ensures
      var k, o := rs[i].key, rs[i].obj;
      var after := ApplyAll(cfg, store, rs);
      && k in after
      && ((Lookup(store, k) == Some(after[k]) && GetRevision(after[k].obj) == DesiredRevision(cfg, rs[i]))
          || (CarriesRendering(cfg, o, after[k].obj)
              && (after[k].obj.secrets != o.secrets || after[k].obj.imagePullSecrets != o.imagePullSecrets ==>
                    k in store && k.gvk.group == "" && k.gvk.kind == "ServiceAccount")
              && after[k].version > if k in store then store[k].version else 0))
  {
    ApplyAllAt(cfg, store, rs, i);
    PreparedCarries(cfg, rs[i]);
    var current, prepared := Lookup(store, rs[i].key), Prepared(cfg, rs[i]);
    if current.Some? && !InSync(cfg, rs[i], current.value.obj) {
      MergedCarries(cfg, rs[i], prepared, current.value.obj);
    }
  }

  lemma MergedCarries(cfg: Config, r: Rendered, updated: Object, current: Object)
    requires CarriesRendering(cfg, r.obj, updated)
    ensures CarriesRendering(cfg, r.obj, Merged(r.key.gvk, updated, current))
  {
  }

  /** A pass never takes the cluster's secrets from a ServiceAccount, nor revives or deletes anything. */
  lemma ApplyKeepsClusterState(cfg: Config, store: Store, rs: seq<Rendered>, i: nat)
    requires DistinctKeys(rs) && i < |rs| && rs[i].key in store
    ensures
      var before, after := store[rs[i].key], Lookup(ApplyAll(cfg, store, rs), rs[i].key);
      && after.Some? && after.value.terminating == before.terminating && after.value.status == before.status
      && (rs[i].key.gvk == SERVICE_ACCOUNT && before.obj.secrets.Some? ==>
            after.value.obj.secrets == before.obj.secrets)
      && (rs[i].key.gvk == SERVICE_ACCOUNT && before.obj.imagePullSecrets.Some? ==>
            after.value.obj.imagePullSecrets == before.obj.imagePullSecrets)
  {
    ApplyAllAt(cfg, store, rs, i);
  }

  /** `touched` is `store` after other writers changed nothing but stale markers on its objects. */
  ghost predicate OnlyMarkersDiffer(store: Store, touched: Store) {
    && store.Keys == touched.Keys
    && forall k :: k in store ==>
      && touched[k].obj.annotations - {STALE_SINCE_ANNOTATION} == store[k].obj.annotations - {STALE_SINCE_ANNOTATION}
      && touched[k].obj == store[k].obj.(annotations := touched[k].obj.annotations)
  }

  lemma SecondPassAt(cfg: Config, store: Store, rs: seq<Rendered>, touched: Store, i: nat)
    requires DistinctKeys(rs) && i < |rs| && OnlyMarkersDiffer(ApplyAll(cfg, store, rs), touched)
    ensures rs[i].key in touched
    ensures Applied(cfg, rs[i], Lookup(touched, rs[i].key)) == touched[rs[i].key] <==> DesiredRevision(cfg, rs[i]) != 0
  {
    AppliedCarriesRevision(cfg, store, rs, i);
    var k := rs[i].key;
    var first := ApplyAll(cfg, store, rs)[k];
    MarkerKeepsRevision(first.obj, touched[k].obj.annotations);
    assert first.obj.(annotations := touched[k].obj.annotations) == touched[k].obj;
  }

  lemma {:induction false} ApplyAllIsNoOp(cfg: Config, store: Store, rs: seq<Rendered>)
    requires forall i :: 0 <= i < |rs| ==> rs[i].key in store && InSync(cfg, rs[i], store[rs[i].key].obj)
    ensures ApplyAll(cfg, store, rs) == store
  {
    if rs != [] {
      ApplyAllIsNoOp(cfg, store, rs[..|rs| - 1]);
      assert rs[|rs| - 1].key in store;
    }
  }

  /** A second pass over equal fresh renders writes nothing, whatever happened to stale markers in
      between, if and only if none of the revisions is the reserved value zero. */
  lemma SecondPassWritesNothing(cfg: Config, store: Store, rs: seq<Rendered>, touched: Store)
    requires DistinctKeys(rs) && OnlyMarkersDiffer(ApplyAll(cfg, store, rs), touched)
    ensures ApplyAll(cfg, touched, rs) == touched <==> forall i :: 0 <= i < |rs| ==> DesiredRevision(cfg, rs[i]) != 0
  {
    forall i | 0 <= i < |rs|
      ensures rs[i].key in touched
      ensures InSync(cfg, rs[i], touched[rs[i].key].obj) <==> DesiredRevision(cfg, rs[i]) != 0
      ensures ApplyAll(cfg, touched, rs) == touched ==> DesiredRevision(cfg, rs[i]) != 0
    {
      SecondPassAt(cfg, store, rs, touched, i);
      ApplyAllAt(cfg, touched, rs, i);
    }
    if forall i :: 0 <= i < |rs| ==> DesiredRevision(cfg, rs[i]) != 0 {
      ApplyAllIsNoOp(cfg, touched, rs);
    }
  }

  // ---- stale cleanup ------------------------------------------------------------------------

  /** What one cleanup is about: the kinds the API server serves, the state's label selector, the
      desired objects, and the state's veto on deletions. */
  datatype Cleanup = Cleanup(served: set<Gvk>, selector: Labels, keep: set<Key>, retain: Key -> bool)

  const NO_VETO: Key -> bool := _ => false

  /** An object of one of the given kinds that the cleanup must get rid of. */
  predicate Doomed(c: Cleanup, kinds: seq<Gvk>, k: Key, s: Stored) {
    k.gvk in kinds && k.gvk in c.served && Matches(s.obj.labels, c.selector) && k !in c.keep && !c.retain(k)
  }

  ghost predicate AnyDoomed(c: Cleanup, kinds: seq<Gvk>, store: Store) {
    exists k :: k in store && Doomed(c, kinds, k, store[k])
  }

  function SweptObject(doomed: bool, s: Stored): Stored {
    if doomed && !s.terminating then Terminated(s) else s
  }

  function Swept(c: Cleanup, kinds: seq<Gvk>, store: Store): Store {
    map k | k in store :: SweptObject(Doomed(c, kinds, k, store[k]), store[k])
  }

  /** A pass that was cut short: each object is as before or as the whole pass leaves it. */
  ghost predicate Between(before: Store, now: Store, after: Store) {
    && now.Keys == before.Keys == after.Keys
    && forall k :: k in before ==> now[k] == before[k] || now[k] == after[k]
  }

  lemma SweptInTurn(c: Cleanup, done: seq<Gvk>, more: seq<Gvk>, store: Store)
    ensures Swept(c, more, Swept(c, done, store)) == Swept(c, done + more, store)
    ensures AnyDoomed(c, done + more, store) <==> AnyDoomed(c, done, store) || AnyDoomed(c, more, Swept(c, done, store))
  {
    var mid := Swept(c, done, store);
    forall k | k in store
      ensures mid[k].obj == store[k].obj
      ensures Doomed(c, done + more, k, store[k]) <==> Doomed(c, done, k, store[k]) || Doomed(c, more, k, mid[k])
      ensures Swept(c, more, mid)[k] == Swept(c, done + more, store)[k]
    {
    }
    if AnyDoomed(c, done, store) {
      var k :| k in store && Doomed(c, done, k, store[k]);
      assert Doomed(c, done + more, k, store[k]);
    }
    if AnyDoomed(c, more, mid) {
      var k :| k in mid && Doomed(c, more, k, mid[k]);
      assert Doomed(c, done + more, k, store[k]);
    }
  }

  lemma SweptInPart(c: Cleanup, done: seq<Gvk>, gvk: Gvk, rest: seq<Gvk>, store: Store, now: Store)
    requires Between(Swept(c, done, store), now, Swept(c, [gvk], Swept(c, done, store)))
    ensures Between(store, now, Swept(c, done + [gvk] + rest, store))
  {
  }

  /** The part of a cleanup that has dealt with the objects in `seen`. */
  ghost function SweptSeen(c: Cleanup, gvk: Gvk, seen: set<Key>, store: Store): Store {
    map k | k in store :: SweptObject(k in seen && Doomed(c, [gvk], k, store[k]), store[k])
  }

  lemma SweptSeenMore(c: Cleanup, gvk: Gvk, seen: set<Key>, store: Store, k: Key)
    requires k in store && k !in seen
    ensures SweptSeen(c, gvk, seen + {k}, store) ==
            SweptSeen(c, gvk, seen, store)[k := SweptObject(Doomed(c, [gvk], k, store[k]), store[k])]
  {
  }

  lemma SweptSeenAll(c: Cleanup, gvk: Gvk, seen: set<Key>, store: Store)
    requires forall k :: Listed(k, store, gvk, c.selector) ==> k in seen
    ensures SweptSeen(c, gvk, seen, store) == Swept(c, [gvk], store)
  {
  }

  /** The kind-indexed name sets of `stateObjects`. */
  type StateObjects = map<Gvk, set<NsName>>

  function Add(m: StateObjects, k: Key): StateObjects {
    m[k.gvk := (if k.gvk in m then m[k.gvk] else {}) + {k.nn}]
  }

  predicate Exist(m: StateObjects, k: Key) {
    k.gvk in m && k.nn in m[k.gvk]
  }

  /** Setting the controller reference fails on a rendered object that names another controller. */
  predicate ControlledByAnother(uid: string, r: Rendered) {
    r.obj.owner.Some? && r.obj.owner.value != uid
  }

  predicate AnyForeign(uid: string, rs: seq<Rendered>) {
    exists i :: 0 <= i < |rs| && ControlledByAnother(uid, rs[i])
  }

  class StateSkel {
    const name: string
    const client: ApiServer
    const hash: (Key, Object) -> Revision
    var dsOwner: string

    constructor (name: string, client: ApiServer, hash: (Key, Object) -> Revision)
      ensures this.name == name && this.client == client && this.hash == hash && dsOwner == ""
    {
      this.name := name;
      this.client := client;
      this.hash := hash;
      dsOwner := "";
    }

    function Cfg(uid: string): Config
      reads this`dsOwner
    {
      Config(name, dsOwner, uid, hash)
    }

    function Selector(): Labels
      reads this`dsOwner
    {
      StateLabels(name, dsOwner)
    }

    /** Creates, updates or leaves alone each object in turn and stops at the first error. */
    method CreateOrUpdateObjs(uid: string, objs: seq<Rendered>) returns (ok: bool)
      modifies client`objects, client`faults
      ensures ok ==> client.objects == ApplyAll(Cfg(uid), old(client.objects), objs)
      ensures !ok ==>
        exists n :: 0 <= n < |objs| && client.objects == ApplyAll(Cfg(uid), old(client.objects), objs[..n])
      ensures client.faults >= old(client.faults)
      ensures ok <==> client.faults == old(client.faults) && !AnyForeign(uid, objs)
    {
      var cfg := Cfg(uid);
      ghost var start := client.objects;
      for n := 0 to |objs|
        invariant cfg == Cfg(uid)
        invariant client.objects == ApplyAll(cfg, start, objs[..n])
        invariant client.faults == old(client.faults)
        invariant forall i :: 0 <= i < n ==> !ControlledByAnother(uid, objs[i])
      {
        ok := CreateOrUpdate(cfg, objs[n]);
        if !ok {
          return;
        }
        assert objs[..n + 1][..n] == objs[..n];
      }
      assert objs[..|objs|] == objs;
      ok := true;
    }

    method CreateOrUpdate(cfg: Config, r: Rendered) returns (ok: bool)
      modifies client`objects, client`faults
      ensures ok ==> client.objects == ApplyOne(cfg, old(client.objects), r)
      ensures !ok ==> client.objects == old(client.objects)
      ensures client.faults >= old(client.faults)
      ensures ok <==> client.faults == old(client.faults) && !ControlledByAnother(cfg.uid, r)
    {
      if r.obj.owner.Some? && r.obj.owner.value != cfg.uid {
        return false; // another controller owns the object
      }
      var desired := Prepared(cfg, r);
      var current := client.Get(r.key);
      if current.Err? {
        if current.error != NotFound {
          return false;
        }
        var created := client.Create(r.key, desired);
        return created.Ok?;
      }
      if InSync(cfg, r, current.value.obj) {
        assert client.objects == ApplyOne(cfg, old(client.objects), r);
        return true;
      }
      var updated := client.Update(r.key, Merged(r.key.gvk, desired, current.value.obj), current.value.version);
      return updated.Ok?;
    }

    function CleanupFor(keep: set<Key>, retain: Key -> bool): Cleanup
      reads this`dsOwner
    {
      Cleanup(client.served, Selector(), keep, retain)
    }

    /** Sends Delete to every doomed object that is not already terminating. */
    method DeleteStateRelatedObjects(toKeep: StateObjects, keep: set<Key>, retain: Key -> bool)
      returns (found: bool, ok: bool)
      requires forall k :: k in keep <==> Exist(toKeep, k)
      modifies client`objects, client`faults
      ensures ok ==> client.objects == Swept(CleanupFor(keep, retain), SUPPORTED_GVKS, old(client.objects))
      ensures ok ==> (found <==> AnyDoomed(CleanupFor(keep, retain), SUPPORTED_GVKS, old(client.objects)))
      ensures !ok ==> Between(old(client.objects), client.objects,
                              Swept(CleanupFor(keep, retain), SUPPORTED_GVKS, old(client.objects)))
      ensures client.faults >= old(client.faults) && (ok <==> client.faults == old(client.faults))
    {
      found, ok := DeleteKinds(SUPPORTED_GVKS, toKeep, keep, retain);
    }

    method DeleteKinds(kinds: seq<Gvk>, toKeep: StateObjects, keep: set<Key>, retain: Key -> bool)
      returns (found: bool, ok: bool)
      requires forall k :: k in keep <==> Exist(toKeep, k)
      modifies client`objects, client`faults
      ensures ok ==> client.objects == Swept(CleanupFor(keep, retain), kinds, old(client.objects))
      ensures ok ==> (found <==> AnyDoomed(CleanupFor(keep, retain), kinds, old(client.objects)))
      ensures !ok ==> Between(old(client.objects), client.objects,
                              Swept(CleanupFor(keep, retain), kinds, old(client.objects)))
      ensures client.faults >= old(client.faults) && (ok <==> client.faults == old(client.faults))
    {
      found := false;
      ghost var c := CleanupFor(keep, retain);
      ghost var start := client.objects;
      for n := 0 to |kinds|
        invariant c == CleanupFor(keep, retain)
        invariant client.objects == Swept(c, kinds[..n], start) && client.faults == old(client.faults)
        invariant found <==> AnyDoomed(c, kinds[..n], start)
      {
        var f;
        f, ok := DeleteKind(kinds[n], toKeep, keep, retain);
        if !ok {
          SweptInPart(c, kinds[..n], kinds[n], kinds[n + 1..], start, client.objects);
          assert kinds[..n] + [kinds[n]] + kinds[n + 1..] == kinds;
          return found || f, false;
        }
        SweptInTurn(c, kinds[..n], [kinds[n]], start);
        assert kinds[..n] + [kinds[n]] == kinds[..n + 1];
        found := found || f;
      }
      assert kinds[..|kinds|] == kinds;
      ok := true;
    }

    method DeleteKind(gvk: Gvk, toKeep: StateObjects, keep: set<Key>, retain: Key -> bool)
      returns (found: bool, ok: bool)
      requires forall k :: k in keep <==> Exist(toKeep, k)
      modifies client`objects, client`faults
      ensures ok ==> client.objects == Swept(CleanupFor(keep, retain), [gvk], old(client.objects))
      ensures ok ==> (found <==> AnyDoomed(CleanupFor(keep, retain), [gvk], old(client.objects)))
      ensures !ok ==> Between(old(client.objects), client.objects,
                              Swept(CleanupFor(keep, retain), [gvk], old(client.objects)))
      ensures client.faults >= old(client.faults) && (ok <==> client.faults == old(client.faults))
    {
      found := false;
      ghost var c := CleanupFor(keep, retain);
      ghost var before := client.objects;
      var listing := client.List(gvk, Selector());
      if listing.Err? {
        return false, listing.error == NoMatch;
      }
      var items := listing.value;
      ghost var seen: set<Key> := {};
      for n := 0 to |items|
        invariant c == CleanupFor(keep, retain)
        invariant forall i :: 0 <= i < |items| ==> (items[i].0 in seen <==> i < n)
        invariant client.objects == SweptSeen(c, gvk, seen, before) && client.faults == old(client.faults)
        invariant found <==> exists k :: k in seen && k in before && Doomed(c, [gvk], k, before[k])
      {
        var k, s := items[n].0, items[n].1;
        assert Listed(k, before, gvk, c.selector) && before[k] == s;
        var f;
        f, ok := DeleteOne(k, s, toKeep, retain);
        if !ok {
          return true, false;
        }
        SweptSeenMore(c, gvk, seen, before, k);
        assert f <==> Doomed(c, [gvk], k, before[k]);
        found := found || f;
        seen := seen + {k};
      }
      ok := true;
      forall k | Listed(k, before, gvk, c.selector) ensures k in seen {
        var i :| 0 <= i < |items| && items[i].0 == k;
      }
      SweptSeenAll(c, gvk, seen, before);
    }

    /** Deletes a listed object unless it is desired, retained or already terminating. */
    method DeleteOne(k: Key, s: Stored, toKeep: StateObjects, retain: Key -> bool) returns (found: bool, ok: bool)
      requires k in client.objects && client.objects[k] == s
      modifies client`objects, client`faults
      ensures found <==> !Exist(toKeep, k) && !retain(k)
      ensures ok ==> client.objects == old(client.objects)[k := SweptObject(found, s)]
      ensures !ok ==> client.objects == old(client.objects)
      ensures client.faults >= old(client.faults) && (ok <==> client.faults == old(client.faults))
    {
      found, ok := !Exist(toKeep, k) && !retain(k), true;
      if found && !s.terminating {
        var deleted := client.Delete(k);
        ok := deleted.Ok?;
      } else {
        assert client.objects == old(client.objects)[k := SweptObject(found, s)];
      }
    }

    /** The cleanup of a reconcile that rendered `desired`. */
    method HandleStaleStateObjects(desired: seq<Rendered>, retain: Key -> bool) returns (found: bool, ok: bool)
      modifies client`objects, client`faults
      ensures ok ==> client.objects == Swept(CleanupFor(KeysOf(desired), retain), SUPPORTED_GVKS, old(client.objects))
      ensures ok ==> (found <==> AnyDoomed(CleanupFor(KeysOf(desired), retain), SUPPORTED_GVKS, old(client.objects)))
      ensures !ok ==> Between(old(client.objects), client.objects,
                              Swept(CleanupFor(KeysOf(desired), retain), SUPPORTED_GVKS, old(client.objects)))
      ensures client.faults >= old(client.faults) && (ok <==> client.faults == old(client.faults))
    {
      var toKeep: StateObjects := map[];
      for n := 0 to |desired|
        invariant client.objects == old(client.objects) && client.faults == old(client.faults)
        invariant forall k :: Exist(toKeep, k) <==> k in KeysOf(desired[..n])
      {
        toKeep := Add(toKeep, desired[n].key);
        KeysOfSnoc(desired, n);
      }
      assert desired[..|desired|] == desired;
      found, ok := DeleteStateRelatedObjects(toKeep, KeysOf(desired), retain);
    }

    /** The cleanup of a state whose section was removed from the policy: everything goes. */
    method HandleStateObjectsDeletion() returns (state: SyncState, ok: bool)
      modifies client`objects, client`faults
      ensures ok ==> client.objects == Swept(CleanupFor({}, NO_VETO), SUPPORTED_GVKS, old(client.objects))
      ensures ok ==>
        state == if AnyDoomed(CleanupFor({}, NO_VETO), SUPPORTED_GVKS, old(client.objects)) then NotReady else Ignore
      ensures !ok ==> state == Error
      ensures !ok ==> Between(old(client.objects), client.objects,
                              Swept(CleanupFor({}, NO_VETO), SUPPORTED_GVKS, old(client.objects)))
      ensures client.faults >= old(client.faults) && (ok <==> client.faults == old(client.faults))
    {
      var found;
      found, ok := DeleteStateRelatedObjects(map[], {}, NO_VETO);
      if !ok {
        return Error, false;
      }
      return if found then NotReady else Ignore, true;
    }
  }

  lemma KeysOfSnoc(rs: seq<Rendered>, n: nat)
    requires n < |rs|
    ensures KeysOf(rs[..n + 1]) == KeysOf(rs[..n]) + {rs[n].key}
  {
  }
}
