/** What the OFED state guarantees over whole runs: any sequence of Syncs of any policies, complete
    or cut short by an error, of operator restarts, and of foreign activity. */
module OfedRuns {
  import opened Objects
  import opened StateSkels
  import opened Retention
  import opened StateOfed
  import opened OfedSync

  /** `Foreign` is anything that leaves the watched DaemonSet's labels, node selector, marker and
      deletion mark alone; it may write its status and specification and do anything to other objects.
      `Restart` drops all that the operator holds in memory, which no Sync reads. */
  datatype Event = Sync(input: SyncInput, ok: bool) | Restart | Foreign

  ghost predicate Step(env: Env, k: Key, before: Store, e: Event, after: Store) {
    match e
    case Sync(i, ok) => SyncLeaves(env, i, ok, before, after)
    case Restart => after == before
    case Foreign => k in before ==> k in after && Undisturbed(before[k], after[k])
  }

  ghost predicate Run(env: Env, k: Key, stores: seq<Store>, events: seq<Event>) {
    && |stores| == |events| + 1
    && forall j :: 0 <= j < |events| ==> Step(env, k, stores[j], events[j], stores[j + 1])
  }

  /** A Sync of policy `q`, which the watched DaemonSet belongs to. */
  predicate Own(q: Policy, e: Event) {
    e.Sync? && DsOwner(e.input.policy) == DsOwner(q)
  }

  /** The clock of the policy's successive Syncs never goes back. */
  ghost predicate Monotone(q: Policy, events: seq<Event>) {
    forall i, j :: 0 <= i <= j < |events| && Own(q, events[i]) && Own(q, events[j]) ==>
      events[i].input.now <= events[j].input.now
  }

  /** A Sync of the policy itself renders the DaemonSet or finds it stale, so that it does not state
      the intent to remove it, and one of another policy does not render it. */
  ghost predicate NotUnwanted(k: Key, q: Policy, i: SyncInput, o: Object) {
    if DsOwner(i.policy) == DsOwner(q) then
      && i.policy.ofedDriver && DistinctKeys(i.rendered) && NoMarkers(i.rendered)
      && (k in KeysOf(i.rendered) || Stale(i, k, o))
    else k !in KeysOf(i.rendered)
  }

  ghost predicate NeverUnwanted(k: Key, q: Policy, stores: seq<Store>, events: seq<Event>)
    requires |stores| == |events| + 1
  {
    forall j :: 0 <= j < |events| && events[j].Sync? && k in stores[j] ==>
      NotUnwanted(k, q, events[j].input, stores[j][k].obj)
  }

  // ---- the run of one DaemonSet -------------------------------------------------------------

  /** What an event does to the watched DaemonSet. */
  ghost predicate Effect(env: Env, k: Key, q: Policy, e: Event, s: Stored, s': Stored) {
    if !Own(q, e) then Undisturbed(s, s')
    else if k in KeysOf(e.input.rendered) then DesiredEffect(e.input, e.ok, s, s')
    else StaleEffect(env, e.input, e.ok, s, s') && Stale(e.input, k, s.obj)
  }

  ghost predicate History(env: Env, k: Key, q: Policy, events: seq<Event>, h: seq<Stored>) {
    |h| == |events| + 1 && forall j :: 0 <= j < |events| ==> Effect(env, k, q, events[j], h[j], h[j + 1])
  }

  lemma StepEffect(env: Env, k: Key, q: Policy, before: Store, e: Event, after: Store)
    requires k.gvk == DAEMON_SET && k in before && Matches(before[k].obj.labels, SelectorOf(q))
    requires e.Sync? ==> NotUnwanted(k, q, e.input, before[k].obj)
    requires Step(env, k, before, e, after)
    ensures k in after && Effect(env, k, q, e, before[k], after[k]) && Matches(after[k].obj.labels, SelectorOf(q))
  {
    match e
    case Sync(i, ok) =>
      if DsOwner(i.policy) != DsOwner(q) {
        OtherPolicySyncIsForeign(env, i, ok, q, before, after, k);
      } else if k in KeysOf(i.rendered) {
        DesiredStages(env, i, ok, before, after, k);
      } else {
        StaleStages(env, i, ok, before, after, k);
      }
    case Restart =>
    case Foreign =>
  }

  lemma {:induction false} StillThere(env: Env, k: Key, q: Policy, stores: seq<Store>, events: seq<Event>, j: nat)
    requires k.gvk == DAEMON_SET && Run(env, k, stores, events) && NeverUnwanted(k, q, stores, events)
    requires k in stores[0] && Matches(stores[0][k].obj.labels, SelectorOf(q)) && j <= |events|
    ensures k in stores[j] && Matches(stores[j][k].obj.labels, SelectorOf(q))
  {
    if j > 0 {
      StillThere(env, k, q, stores, events, j - 1);
      StepEffect(env, k, q, stores[j - 1], events[j - 1], stores[j]);
    }
  }

  lemma HistoryOf(env: Env, k: Key, q: Policy, stores: seq<Store>, events: seq<Event>) returns (h: seq<Stored>)
    requires k.gvk == DAEMON_SET && Run(env, k, stores, events) && NeverUnwanted(k, q, stores, events)
    requires k in stores[0] && Matches(stores[0][k].obj.labels, SelectorOf(q))
    ensures History(env, k, q, events, h)
    ensures forall j :: 0 <= j <= |events| ==> k in stores[j] && stores[j][k] == h[j]
  {
    forall j | 0 <= j <= |events| ensures k in stores[j] && Matches(stores[j][k].obj.labels, SelectorOf(q)) {
      StillThere(env, k, q, stores, events, j);
    }
    h := seq(|stores|, j requires 0 <= j < |stores| => stores[j][k]);
    forall j | 0 <= j < |events| ensures Effect(env, k, q, events[j], h[j], h[j + 1]) {
      StepEffect(env, k, q, stores[j], events[j], stores[j + 1]);
    }
  }

  // ---- no early reaping ---------------------------------------------------------------------

  /** The marker `t` was put there by the stale Sync `m`, and no complete Sync from there up to
      event `j` found the DaemonSet desired. */
  ghost predicate MarkedBy(k: Key, q: Policy, events: seq<Event>, m: nat, j: nat, t: int) {
    && m < j <= |events| && Own(q, events[m]) && k !in KeysOf(events[m].input.rendered)
    && t == FloorToSecond(events[m].input.now)
    && forall l :: m < l < j && Own(q, events[l]) && events[l].ok ==> k !in KeysOf(events[l].input.rendered)
  }

  ghost predicate MarkerExplained(k: Key, q: Policy, events: seq<Event>, j: nat, o: Object) {
    Marker(o).Some? ==> exists m: nat :: MarkedBy(k, q, events, m, j, Marker(o).value)
  }

  lemma MarkerStays(k: Key, q: Policy, events: seq<Event>, j: nat, o: Object, o': Object)
    requires j < |events| && MarkerExplained(k, q, events, j, o) && Marker(o') == Marker(o)
    requires Own(q, events[j]) && events[j].ok ==> k !in KeysOf(events[j].input.rendered)
    ensures MarkerExplained(k, q, events, j + 1, o')
  {
    if Marker(o').Some? {
      var m: nat :| MarkedBy(k, q, events, m, j, Marker(o).value);
      assert MarkedBy(k, q, events, m, j + 1, Marker(o').value);
    }
  }

  lemma MarkedMarker(now: int, s: Stored)
    ensures Marker(Marked(now, s).obj) == if Marker(s.obj).Some? then Marker(s.obj) else Some(FloorToSecond(now))
  {
  }

  lemma {:induction false} MarkersExplained(env: Env, k: Key, q: Policy, events: seq<Event>, h: seq<Stored>, j: nat)
    requires History(env, k, q, events, h) && Marker(h[0].obj) == None && j <= |events|
    ensures MarkerExplained(k, q, events, j, h[j].obj)
  {
    if j > 0 {
      var e, s, s' := events[j - 1], h[j - 1], h[j];
      MarkersExplained(env, k, q, events, h, j - 1);
      assert Effect(env, k, q, e, s, s');
      if Marker(s'.obj) == Marker(s.obj) && (Own(q, e) && e.ok ==> k !in KeysOf(e.input.rendered)) {
        MarkerStays(k, q, events, j - 1, s.obj, s'.obj);
      } else if Marker(s'.obj).Some? {
        MarkedMarker(e.input.now, s);
        assert MarkedBy(k, q, events, j - 1, j, FloorToSecond(e.input.now));
      }
    }
  }

  /** Only a stale Sync that computes no grace deletes. */
  lemma ReapingEvent(env: Env, k: Key, q: Policy, e: Event, s: Stored, s': Stored)
    requires Effect(env, k, q, e, s, s') && !s.terminating && s'.terminating
    ensures Own(q, e) && Marker(s.obj).Some?
    ensures e.input.now - Marker(s.obj).value < GRACE - MAX_DURATION || e.input.now - Marker(s.obj).value >= GRACE
  {
  }

  /** In any run, mixing Syncs of any policies, in which nobody asks for the DaemonSet's removal: if
      event `j` deletes it, some earlier Sync of its policy found it stale, no complete Sync found it
      desired since, and the grace period counted from that earlier Sync's whole second has passed. */
  lemma ReapedOnlyAfterGrace(env: Env, k: Key, q: Policy, stores: seq<Store>, events: seq<Event>, j: nat)
    requires k.gvk == DAEMON_SET && Run(env, k, stores, events) && Monotone(q, events) && j < |events|
    requires NeverUnwanted(k, q, stores, events)
    requires k in stores[0] && Matches(stores[0][k].obj.labels, SelectorOf(q)) && Marker(stores[0][k].obj) == None
    ensures k in stores[j] && k in stores[j + 1]
    ensures !stores[j][k].terminating && stores[j + 1][k].terminating ==>
      && Own(q, events[j])
      && exists m: nat, since: int :: MarkedBy(k, q, events, m, j, since) && events[j].input.now >= since + GRACE
  {
    var h := HistoryOf(env, k, q, stores, events);
    if !stores[j][k].terminating && stores[j + 1][k].terminating {
      MarkersExplained(env, k, q, events, h, j);
      ReapingEvent(env, k, q, events[j], h[j], h[j + 1]);
      var since := Marker(h[j].obj).value;
      var m: nat :| MarkedBy(k, q, events, m, j, since);
      assert events[m].input.now <= events[j].input.now;
    }
  }

  // ---- the exact deadline -------------------------------------------------------------------

  /** A marker stays as it is. */
  lemma StaleStepKeeps(env: Env, i: SyncInput, ok: bool, s: Stored, s': Stored)
    requires StaleEffect(env, i, ok, s, s')
    ensures Marker(s.obj).Some? ==> Marker(s'.obj) == Marker(s.obj)
  {
  }

  /** The history of a DaemonSet that every Sync finds stale. */
  ghost predicate StaleRun(env: Env, k: Key, q: Policy, events: seq<Event>, h: seq<Stored>) {
    && |h| == |events| + 1
    && forall j :: 0 <= j < |events| ==>
      if Own(q, events[j]) then
        StaleEffect(env, events[j].input, events[j].ok, h[j], h[j + 1]) && Stale(events[j].input, k, h[j].obj)
      else Undisturbed(h[j], h[j + 1])
  }

  lemma {:induction false} StaleInvariant(env: Env, k: Key, q: Policy, events: seq<Event>, h: seq<Stored>,
                                          since: int, j: nat)
    requires StaleRun(env, k, q, events, h) && 1 <= j <= |events|
    requires !h[1].terminating && Marker(h[1].obj) == Some(since)
    requires forall l :: 0 <= l < |events| && Own(q, events[l]) ==> since <= events[l].input.now
    ensures Marker(h[j].obj) == Some(since)
    ensures h[j].terminating ==> exists l :: 0 <= l < j && Own(q, events[l]) && events[l].input.now >= since + GRACE
  {
    if j > 1 {
      StaleInvariant(env, k, q, events, h, since, j - 1);
      var e := events[j - 1];
      if Own(q, e) {
        StaleStepKeeps(env, e.input, e.ok, h[j - 1], h[j]);
        RemainingExact(e.input.now, since);
        if h[j].terminating && !h[j - 1].terminating {
          assert Deferral(PlanOf(e.input), h[j - 1].obj) == 0;
        }
      }
    }
  }

  lemma ReapedAtDeadlineInHistory(env: Env, k: Key, q: Policy, events: seq<Event>, h: seq<Stored>, j: nat)
    requires DAEMON_SET in env.served && StaleRun(env, k, q, events, h) && Monotone(q, events)
    requires 1 <= j < |events| && Own(q, events[0]) && Own(q, events[j])
    requires !h[0].terminating && Marker(h[0].obj) == None && Marker(h[1].obj).Some?
    ensures events[j].input.now < FloorToSecond(events[0].input.now) + GRACE ==> !h[j + 1].terminating
    ensures events[j].ok && events[j].input.now >= FloorToSecond(events[0].input.now) + GRACE ==> h[j + 1].terminating
  {
    var t0, i := events[0].input.now, events[j].input;
    var since := FloorToSecond(t0);
    RemainingExact(t0, t0);
    MarkedMarker(t0, h[0]);
    assert StaleEffect(env, events[0].input, events[0].ok, h[0], h[1]);
    assert Deferral(PlanOf(events[0].input), h[0].obj) > 0;
    StaleInvariant(env, k, q, events, h, since, j);
    assert StaleEffect(env, i, events[j].ok, h[j], h[j + 1]);
    RemainingExact(i.now, since);
    assert Deferral(PlanOf(i), h[j].obj) == Remaining(i.now, since);
  }

  ghost predicate NeverRendered(k: Key, q: Policy, events: seq<Event>) {
    forall j :: 0 <= j < |events| && Own(q, events[j]) ==> k !in KeysOf(events[j].input.rendered)
  }

  /** In a run whose Syncs of the DaemonSet's policy all find it stale, the first one stamping the
      marker at time `t0`, among Syncs of any other policies: no Sync before floor(t0) + 20 minutes
      deletes the DaemonSet and every complete Sync at or after that instant leaves it deleted. */
  lemma ReapedExactlyAtDeadline(env: Env, k: Key, q: Policy, stores: seq<Store>, events: seq<Event>, j: nat)
    requires k.gvk == DAEMON_SET && DAEMON_SET in env.served && Run(env, k, stores, events) && Monotone(q, events)
    requires NeverUnwanted(k, q, stores, events) && NeverRendered(k, q, events)
    requires 1 <= j < |events| && Own(q, events[0]) && Own(q, events[j])
    requires k in stores[0] && Matches(stores[0][k].obj.labels, SelectorOf(q))
    requires !stores[0][k].terminating && Marker(stores[0][k].obj) == None
    requires k in stores[1] && Marker(stores[1][k].obj).Some?
    ensures k in stores[j + 1]
    ensures events[j].input.now < FloorToSecond(events[0].input.now) + GRACE ==> !stores[j + 1][k].terminating
    ensures events[j].ok && events[j].input.now >= FloorToSecond(events[0].input.now) + GRACE ==>
      stores[j + 1][k].terminating
  {
    var h := HistoryOf(env, k, q, stores, events);
    forall l | 0 <= l < |events| ensures Effect(env, k, q, events[l], h[l], h[l + 1]) {
    }
    assert StaleRun(env, k, q, events, h);
    ReapedAtDeadlineInHistory(env, k, q, events, h, j);
  }

  /** The first complete Sync that finds an unmarked DaemonSet stale is such a Sync: it stamps the
      marker and protects the DaemonSet for the whole grace period. */
  lemma FirstObservation(env: Env, k: Key, i: SyncInput, store: Store)
    requires k.gvk == DAEMON_SET && k in store && Matches(store[k].obj.labels, SelectorOf(i.policy))
    requires Stale(i, k, store[k].obj) && Marker(store[k].obj) == None
    ensures k in AfterSync(env, i, store) && Marker(AfterSync(env, i, store)[k].obj) == Some(FloorToSecond(i.now))
    ensures AfterSync(env, i, store)[k].terminating == store[k].terminating
    ensures Deferral(PlanOf(i), store[k].obj) == GRACE
  {
    StaleStages(env, i, true, store, AfterSync(env, i, store), k);
    RemainingExact(i.now, i.now);
    MarkedMarker(i.now, store[k]);
  }
}
