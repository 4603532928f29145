/** The drain controller on top of the requestor: one Reconcile step by step, and sequences of them. */
module DrainController {
  import opened Objects
  import opened DrainProtocol
  import opened DrainRequestors

  /** The drain annotations' values. */
  datatype Mark = Idle | DrainRequired | RebootRequired | Draining | DrainComplete | Other(text: string)

  /** The number of nodes, the node (its request) and its SriovNetworkNodeState, as far as the
      controller is concerned. */
  datatype Cluster = Cluster(
    nodes: nat, nodeExists: bool, request: Option<Mark>,
    stateExists: bool, externalDrainer: bool, current: Option<Mark>, desired: Option<Mark>)

  datatype Outcome = Finished | Requeue | RequeueLater | Erred

  /** The drainer call a Reconcile made, with its answer. */
  datatype DrainerCall = NoCall | DrainCall(full: bool, single: bool, drained: bool) | CompleteCall(completed: bool)

  predicate WantsDrain(request: Option<Mark>) {
    request == Some(DrainRequired) || request == Some(RebootRequired)
  }

  /** The only ways a Reconcile may change the current drain annotation. */
  ghost predicate CurrentMoves(before: Cluster, call: DrainerCall, after: Cluster) {
    || (before.current == None && after.current == Some(Idle) && call == NoCall)
    || (before.current.Some? && before.current != Some(DrainComplete) && after.current == Some(DrainComplete)
        && WantsDrain(before.request) && call.DrainCall? && call.drained)
    || ((before.current == Some(Draining) || before.current == Some(DrainComplete)) && after.current == Some(Idle)
        && before.request == Some(Idle) && call.CompleteCall? && call.completed)
  }

  /** What a Reconcile may do at all. */
  ghost predicate Reconciles(before: Cluster, call: DrainerCall, after: Cluster) {
    && after == before.(request := after.request, current := after.current, desired := after.desired)
    && (after.request == before.request || (before.request == None && after.request == Some(Idle)))
    && (after.desired == before.desired || (before.desired == None && after.desired == Some(Idle)))
    && (after.current == before.current || CurrentMoves(before, call, after))
    && (after != before || call != NoCall ==> before.nodeExists && before.stateExists && before.externalDrainer)
    && (call.DrainCall? ==>
      && before.current != Some(DrainComplete) && WantsDrain(before.request)
      && call.full == (before.request == Some(RebootRequired)))
    && (call.DrainCall? ==> call.single == (call.full && before.nodes == 1))
    && (call.CompleteCall? ==>
      before.request == Some(Idle) && (before.current == Some(Draining) || before.current == Some(DrainComplete)))
  }

  /** The call of the drainer that took the history and the request log of the NodeMaintenance object
      from `v` and `calls` to `v'` and `calls'`: none at all, or the requestor's call with that trace,
      whose decision and the orchestrator's answer make the reported one. */
  ghost predicate Called(d: DrainRequestor, call: DrainerCall, answer: Option<bool>, trace: Option<Trace>,
                         v: Versions, calls: seq<Call>, v': Versions, calls': seq<Call>)
  {
    match call
    case NoCall => trace.None? && v' == v && calls' == calls
    case DrainCall(full, single, drained) =>
      if answer != Some(true) || (full && single) then
        trace.None? && v' == v && calls' == calls && (drained <==> answer == Some(true))
      else
        && trace.Some? && Drains(v, calls, d.id, d.shared, trace.value, v', calls')
        && (Replied(trace.value) ==> DrainDecision(d.id, d.shared, trace.value).Done?)
        && (drained <==> Replied(trace.value) && DrainDecision(d.id, d.shared, trace.value).result)
    case CompleteCall(completed) =>
      && trace.Some? && Follows(v, calls, d.id, Complete, trace.value, v', calls')
      && (Replied(trace.value) ==> Decision(d.id, Complete, trace.value).Done?)
      && (completed <==> Replied(trace.value) && answer == Some(true) && Decision(d.id, Complete, trace.value).result)
  }

  predicate Managed(c: Cluster) {
    c.nodeExists && c.stateExists && c.externalDrainer
  }

  predicate Annotated(c: Cluster) {
    c.current.Some? && c.desired.Some? && c.request.Some?
  }

  /** The drainer's call, if any, ended without error. */
  ghost predicate Answered(call: DrainerCall, answer: Option<bool>, trace: Option<Trace>) {
    call != NoCall ==> answer.Some? && (trace.Some? ==> Replied(trace.value))
  }

  /** A request the controller does not know, or Idle in a state it does not know. */
  predicate Unexpected(c: Cluster) {
    && Managed(c) && Annotated(c) && !WantsDrain(c.request)
    && (c.request != Some(Idle) || c.current !in {Some(Idle), Some(Draining), Some(DrainComplete)})
  }

  /** `faults` counts the failed calls to the API server other than the drainer's. */
  class DrainReconcile {
    var cluster: Cluster
    ghost var faults: nat
    const drainer: DrainRequestor

    constructor (cluster: Cluster, drainer: DrainRequestor)
      ensures this.cluster == cluster && this.drainer == drainer && faults == 0
    {
      this.cluster := cluster;
      faults := 0;
      this.drainer := drainer;
    }

    /** Any call to the API server may fail; `answer` is the orchestrator's, none on error. */
    method Reconcile(answer: Option<bool>) returns (outcome: Outcome, call: DrainerCall, ghost trace: Option<Trace>)
      modifies this, drainer.api
      ensures Reconciles(old(cluster), call, cluster)
      ensures Called(drainer, call, answer, trace,
                     old(drainer.api.versions), old(drainer.api.calls), drainer.api.versions, drainer.api.calls)
      ensures faults >= old(faults)
      ensures outcome == Erred <==>
        faults > old(faults) || !Answered(call, answer, trace) || Unexpected(old(cluster))
      ensures outcome != Erred && Managed(old(cluster)) && Annotated(old(cluster)) ==>
        && (call.DrainCall? <==> WantsDrain(cluster.request) && old(cluster.current) != Some(DrainComplete))
        && (call.CompleteCall? <==> cluster.request == Some(Idle) && old(cluster.current) != Some(Idle))
      ensures outcome == RequeueLater ==> (call.DrainCall? && !call.drained) || (call.CompleteCall? && !call.completed)
      ensures outcome == Finished && call.DrainCall? ==> call.drained && cluster.current == Some(DrainComplete)
      ensures outcome == Finished && call.CompleteCall? ==> call.completed && cluster.current == Some(Idle)
      ensures outcome == Finished && call == NoCall && Managed(old(cluster)) ==>
        || (cluster.request == Some(Idle) && cluster.current == Some(Idle))
        || (WantsDrain(cluster.request) && cluster.current == Some(DrainComplete))
    {
      call, trace := NoCall, None;
      var unreadable: bool := *;
      if unreadable {
        faults := faults + 1;
        outcome := Erred;
        return;
      }
      if !cluster.nodeExists || !cluster.stateExists || !cluster.externalDrainer {
        outcome := Finished;
        return;
      }
      var present;
      outcome, present := EnsureAnnotations();
      if outcome == Erred || !present {
        return;
      }
      var request, current := cluster.request.value, cluster.current.value;
      if request == Idle {
        if current == Idle {
          outcome := Finished;
          return;
        }
        if current == DrainComplete || current == Draining {
          ghost var t;
          outcome, call, t := HandleNodeIdle(answer);
          trace := Some(t);
          return;
        }
      }
      if request == DrainRequired || request == RebootRequired {
        var unlistable: bool := *;
        outcome, call, trace := HandleNodeDrainOrReboot(request, current, !unlistable, answer);
        return;
      }
      outcome := Erred;
    }

    /** Adds the missing annotations in the code's order; an error keeps the ones added so far. */
    method EnsureAnnotations() returns (outcome: Outcome, present: bool)
      requires Managed(cluster)
      modifies this
      ensures Reconciles(old(cluster), NoCall, cluster)
      ensures outcome == Requeue || outcome == Erred
      ensures present ==> outcome != Erred && cluster == old(cluster)
      ensures faults >= old(faults) && (outcome == Erred <==> faults > old(faults))
      ensures outcome == Requeue ==> Annotated(cluster) && (present <==> Annotated(old(cluster)))
      ensures old(cluster.current).Some? ==> cluster.current == old(cluster.current)
    {
      present := cluster.current.Some? && cluster.desired.Some? && cluster.request.Some?;
      var fail1, fail2, fail3 := *, *, *;
      if cluster.current.None? {
        if fail1 {
          faults := faults + 1;
          return Erred, false;
        }
        cluster := cluster.(current := Some(Idle));
      }
      if cluster.desired.None? {
        if fail2 {
          faults := faults + 1;
          return Erred, false;
        }
        cluster := cluster.(desired := Some(Idle));
      }
      if cluster.request.None? {
        if fail3 {
          faults := faults + 1;
          return Erred, false;
        }
        cluster := cluster.(request := Some(Idle));
      }
      outcome := Requeue;
    }

    method HandleNodeIdle(unpaused: Option<bool>) returns (outcome: Outcome, call: DrainerCall, ghost t: Trace)
      requires Managed(cluster) && cluster.request == Some(Idle)
      requires cluster.current == Some(Draining) || cluster.current == Some(DrainComplete)
      modifies this, drainer.api
      ensures Reconciles(old(cluster), call, cluster) && call.CompleteCall?
      ensures Called(drainer, call, unpaused, Some(t),
                     old(drainer.api.versions), old(drainer.api.calls), drainer.api.versions, drainer.api.calls)
      ensures outcome == Finished || outcome == RequeueLater || outcome == Erred
      ensures outcome == Finished <==> call.completed && cluster.current == Some(Idle)
      ensures outcome == RequeueLater <==> Replied(t) && unpaused.Some? && !call.completed
      ensures faults >= old(faults)
      ensures outcome == Erred <==> faults > old(faults) || !Answered(call, unpaused, Some(t))
      ensures outcome != Finished ==> cluster == old(cluster)
    {
      var completed, ok;
      completed, ok, t := drainer.CompleteDrainNode(unpaused);
      call := CompleteCall(completed);
      if !ok {
        return Erred, call, t;
      }
      if !completed {
        return RequeueLater, call, t;
      }
      if cluster.current == Some(Idle) {
        return Finished, call, t;
      }
      var refused: bool := *;
      if refused {
        faults := faults + 1;
        return Erred, call, t;
      }
      cluster := cluster.(current := Some(Idle));
      outcome := Finished;
    }

    /** `listed` says whether the nodes can be listed, which only a reboot needs. */
    method HandleNodeDrainOrReboot(request: Mark, current: Mark, listed: bool, paused: Option<bool>)
      returns (outcome: Outcome, call: DrainerCall, ghost trace: Option<Trace>)
      requires Managed(cluster) && WantsDrain(cluster.request)
      requires cluster.request == Some(request) && cluster.current == Some(current)
      modifies this, drainer.api
      ensures Reconciles(old(cluster), call, cluster) && !call.CompleteCall?
      ensures Called(drainer, call, paused, trace,
                     old(drainer.api.versions), old(drainer.api.calls), drainer.api.versions, drainer.api.calls)
      ensures faults >= old(faults) && (outcome == Erred <==> faults > old(faults) || !Answered(call, paused, trace))
      ensures call == NoCall <==> current == DrainComplete || (request == RebootRequired && !listed)
      ensures call == NoCall ==> outcome == if current == DrainComplete then Finished else Erred
      ensures call.DrainCall? ==> outcome == Finished || outcome == RequeueLater || outcome == Erred
      ensures call.DrainCall? ==> (outcome == Finished <==> call.drained && cluster.current == Some(DrainComplete))
      ensures call.DrainCall? ==>
        (outcome == RequeueLater <==> paused.Some? && (trace.Some? ==> Replied(trace.value)) && !call.drained)
      ensures outcome != Finished ==> cluster == old(cluster)
    {
      call, trace := NoCall, None;
      if current == DrainComplete {
        return Finished, call, trace;
      }
      var full, single := request == RebootRequired, false;
      if full {
        if !listed {
          faults := faults + 1;
          return Erred, call, trace;
        }
        single := cluster.nodes == 1;
      }
      var drained, ok;
      drained, ok, trace := drainer.DrainNode(full, single, paused);
      call := DrainCall(full, single, drained);
      if !ok {
        return Erred, call, trace;
      }
      if !drained {
        return RequeueLater, call, trace;
      }
      var refused: bool := *;
      if refused {
        faults := faults + 1;
        return Erred, call, trace;
      }
      cluster := cluster.(current := Some(DrainComplete));
      outcome := Finished;
    }
  }

  // ---- runs ---------------------------------------------------------------------------------

  /** The cluster with the history of the node's NodeMaintenance object and the requests sent to it. */
  datatype World = World(cluster: Cluster, versions: Versions, calls: seq<Call>)

  /** `Others` is any write to the NodeMaintenance object, to the nodes, or to the node state except
      its current annotation, which is the controller's own. */
  datatype Event = Reconcile(call: DrainerCall, answer: Option<bool>, trace: Option<Trace>) | Others

  ghost predicate Run(d: DrainRequestor, states: seq<World>, events: seq<Event>) {
    && |states| == |events| + 1
    && forall i :: 0 <= i < |events| ==> Happens(d, states[i], events[i], states[i + 1])
  }

  ghost predicate Happens(d: DrainRequestor, w: World, e: Event, w': World) {
    match e
    case Reconcile(call, answer, trace) =>
      && Reconciles(w.cluster, call, w'.cluster)
      && Called(d, call, answer, trace, w.versions, w.calls, w'.versions, w'.calls)
    case Others => w.versions <= w'.versions && w.calls <= w'.calls && w'.cluster.current == w.cluster.current
  }

  /** Version `ver` was current at some moment from `w` to `w'`. */
  predicate CurrentBetween(w: World, ver: nat, w': World) {
    |w.versions| - 1 <= ver < |w'.versions|
  }

  /** The call between `w` and `w'` sent the read of the trace, and the version decided on was current
      in between if the version read was. */
  ghost predicate ReadsFor(w: World, t: Trace, w': World, decided: nat) {
    && t.served.Some? && w.calls + [GetCall(t.served)] <= w'.calls
    && (CurrentBetween(w, t.served.value, w') ==> CurrentBetween(w, decided, w'))
  }

  /** Between `w` and `w'` the requestor decided that the node is drained: on a version that was ready
      with the requestor on it, and current during the Reconcile if the version it read was. */
  ghost predicate Drained(d: DrainRequestor, w: World, e: Event, w': World) {
    && e.Reconcile? && e.call.DrainCall? && e.call.drained && e.trace.Some?
    && var t := e.trace.value;
    && t.served.Some? && t.served.value < |t.before|
    && var decision := DrainDecision(d.id, d.shared, t);
    && decision.Done? && decision.result && ReadyAt(w'.versions, d.id, d.shared, decision.ver)
    && ReadsFor(w, t, w', decision.ver)
  }

  /** Between `w` and `w'` the requestor decided that it is done with the node: it read a version
      without the object or with its own, and decided on a version in which no live object was left,
      and which was current during the Reconcile if the version it read was. */
  ghost predicate Undrained(d: DrainRequestor, w: World, e: Event, w': World) {
    && e.Reconcile? && e.call.CompleteCall? && e.call.completed && e.trace.Some?
    && var t := e.trace.value;
    && t.served.Some? && t.served.value < |t.before|
    && (t.before[t.served.value].None? || t.before[t.served.value].value.owner == d.id)
    && var decision := Decision(d.id, Complete, t);
    && decision.Done? && decision.result && GoneAt(w'.versions, decision.ver)
    && ReadsFor(w, t, w', decision.ver)
  }

  lemma DrainHasGrounds(d: DrainRequestor, w: World, e: Event, w': World)
    requires Happens(d, w, e, w') && e.Reconcile? && e.call.DrainCall? && e.call.drained
    ensures (w.cluster.request == Some(RebootRequired) && w.cluster.nodes == 1) || Drained(d, w, e, w')
  {
    if e.trace.Some? {
      DrainRestsOn(w.versions, w.calls, d.id, d.shared, e.trace.value, w'.versions, w'.calls);
    }
  }

  lemma CompletionHasGrounds(d: DrainRequestor, w: World, e: Event, w': World)
    requires Happens(d, w, e, w') && e.Reconcile? && e.call.CompleteCall? && e.call.completed
    ensures Undrained(d, w, e, w')
  {
    CompletionRestsOn(w.versions, w.calls, d.id, e.trace.value, w'.versions, w'.calls);
  }

  /** Event `i` reported the drain that is in force up to state `n`, and had grounds for it. */
  ghost predicate DrainedAt(d: DrainRequestor, states: seq<World>, events: seq<Event>, i: nat, n: nat)
    requires Run(d, states, events)
  {
    && i < n <= |events| && WantsDrain(states[i].cluster.request) && states[i].cluster.externalDrainer
    && ((states[i].cluster.request == Some(RebootRequired) && states[i].cluster.nodes == 1)
        || Drained(d, states[i], events[i], states[i + 1]))
    && forall l :: i < l <= n ==> states[l].cluster.current == Some(DrainComplete)
  }

  /** Event `i` reported that the drain which was in force at state `m` is over. */
  ghost predicate UndrainedAt(d: DrainRequestor, states: seq<World>, events: seq<Event>, m: nat, i: nat, n: nat)
    requires Run(d, states, events)
  {
    && m <= i < n <= |events| && states[i].cluster.request == Some(Idle) && states[i].cluster.externalDrainer
    && states[i].cluster.current == Some(DrainComplete)
    && Undrained(d, states[i], events[i], states[i + 1])
  }

  /** In every run that starts before the controller's first write, the annotation is absent, Idle
      or DrainComplete, and DrainComplete means that a drain was requested and decided, on the reboot
      of a single-node cluster or by a call that found or left the requestor on a ready maintenance,
      and has been in force since. */
  lemma {:induction false} DrainCompleteIsEarned(d: DrainRequestor, states: seq<World>, events: seq<Event>, n: nat)
    requires Run(d, states, events) && states[0].cluster.current == None && n <= |events|
    ensures states[n].cluster.current in {None, Some(Idle), Some(DrainComplete)}
    ensures states[n].cluster.current == Some(DrainComplete) ==> exists i: nat :: DrainedAt(d, states, events, i, n)
  {
    if n > 0 {
      DrainCompleteIsEarned(d, states, events, n - 1);
      assert Happens(d, states[n - 1], events[n - 1], states[n]);
      if states[n].cluster.current == Some(DrainComplete) {
        if states[n - 1].cluster.current == Some(DrainComplete) {
          var i: nat :| DrainedAt(d, states, events, i, n - 1);
          assert DrainedAt(d, states, events, i, n);
        } else {
          DrainHasGrounds(d, states[n - 1], events[n - 1], states[n]);
          assert DrainedAt(d, states, events, n - 1, n);
        }
      }
    }
  }

  /** A drain ends only when the node asks for Idle and the requestor decides that it is done with it. */
  lemma {:induction false} DrainEndsByCompletion(d: DrainRequestor, states: seq<World>, events: seq<Event>, m: nat,
                                                 n: nat)
    requires Run(d, states, events) && m <= n <= |events|
    requires states[m].cluster.current == Some(DrainComplete) && states[n].cluster.current != Some(DrainComplete)
    ensures exists i: nat :: UndrainedAt(d, states, events, m, i, n)
    decreases n
  {
    assert Happens(d, states[n - 1], events[n - 1], states[n]);
    if states[n - 1].cluster.current == Some(DrainComplete) {
      CompletionHasGrounds(d, states[n - 1], events[n - 1], states[n]);
      assert UndrainedAt(d, states, events, m, n - 1, n);
    } else {
      DrainEndsByCompletion(d, states, events, m, n - 1);
      var i: nat :| UndrainedAt(d, states, events, m, i, n - 1);
      assert UndrainedAt(d, states, events, m, i, n);
    }
  }
}
