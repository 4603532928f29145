/** The enqueuer that maps cluster-wide Proxy events onto NicNodePolicies: the event handler, the
    background retry and everything around them as interleaving steps. */
module ProxyEnqueuer {

  /** Where a background retry stands: waiting for a successful listing, holding the listed
      policies, or about to clear the flag. */
  datatype Phase = Polling | Listed(requests: set<string>) | Queued

  /** Where the event handler stands; events of one watch are handled one at a time. */
  datatype Handler = Waiting | Got(requests: set<string>) | MustRetry

  /** `policies` are the OFED policies that exist right now. */
  datatype State = State(handler: Handler, retrying: bool, retries: seq<Phase>, policies: set<string>,
                         queue: set<string>, cancelled: bool)

  datatype Step =
    | EventList(ok: bool)
    | EventAdd
    | EventRetry
    | RetryList(i: nat, ok: bool)
    | RetryAdd(i: nat)
    | RetryExit(i: nat)
    | Cancel
    | PoliciesChange(policies: set<string>)
    | Consume(policy: string)

  predicate Enabled(s: State, step: Step) {
    match step
    case EventList(_) => s.handler.Waiting?
    case EventAdd => s.handler.Got?
    case EventRetry => s.handler.MustRetry?
    case RetryList(i, _) => i < |s.retries| && s.retries[i].Polling? && !s.cancelled
    case RetryAdd(i) => i < |s.retries| && s.retries[i].Listed?
    case RetryExit(i) => i < |s.retries| && (s.retries[i].Queued? || (s.retries[i].Polling? && s.cancelled))
    case _ => true
  }

  function Next(s: State, step: Step): State
    requires Enabled(s, step)
  {
    match step
    case EventList(ok) => s.(handler := if ok then Got(s.policies) else MustRetry)
    case EventAdd => s.(handler := Waiting, queue := s.queue + s.handler.requests)
    case EventRetry => // compare-and-swap of the flag, and on success a new goroutine
      if s.retrying then s.(handler := Waiting)
      else s.(handler := Waiting, retrying := true, retries := s.retries + [Polling])
    case RetryList(i, ok) => if ok then s.(retries := s.retries[i := Listed(s.policies)]) else s
    case RetryAdd(i) => s.(queue := s.queue + s.retries[i].requests, retries := s.retries[i := Queued])
    case RetryExit(i) => s.(retrying := false, retries := s.retries[..i] + s.retries[i + 1..])
    case Cancel => s.(cancelled := true)
    case PoliciesChange(policies) => s.(policies := policies)
    case Consume(policy) => s.(queue := s.queue - {policy})
  }

  ghost predicate Run(states: seq<State>, steps: seq<Step>) {
    && |states| == |steps| + 1
    && forall i :: 0 <= i < |steps| ==> Enabled(states[i], steps[i]) && states[i + 1] == Next(states[i], steps[i])
  }

  ghost predicate Inv(s: State) {
    |s.retries| == if s.retrying then 1 else 0
  }

  /** At most one retry is in flight, in every interleaving. */
  lemma {:induction false} OneRetryInFlight(states: seq<State>, steps: seq<Step>, n: nat)
    requires Run(states, steps) && Inv(states[0]) && n <= |steps|
    ensures Inv(states[n]) && |states[n].retries| <= 1
  {
    if n > 0 {
      OneRetryInFlight(states, steps, n - 1);
      assert Enabled(states[n - 1], steps[n - 1]) && states[n] == Next(states[n - 1], steps[n - 1]);
    }
  }

  lemma {:induction false} HandlerHolds(states: seq<State>, steps: seq<Step>, from: nat, n: nat)
    requires Run(states, steps) && from < n <= |steps| && steps[from] == EventList(true)
    requires forall l :: from < l < n ==> steps[l] != EventAdd
    ensures states[n].handler == Got(states[from].policies)
  {
    assert Enabled(states[n - 1], steps[n - 1]) && states[n] == Next(states[n - 1], steps[n - 1]);
    if n > from + 1 {
      HandlerHolds(states, steps, from, n - 1);
    }
  }

  /** An event whose own listing succeeds queues every policy that existed at that listing, whatever
      happens before the handler gets to queueing. */
  lemma ListedEventIsServed(states: seq<State>, steps: seq<Step>, from: nat, k: nat)
    requires Run(states, steps) && from < k < |steps| && steps[from] == EventList(true) && steps[k] == EventAdd
    requires forall l :: from < l < k ==> steps[l] != EventAdd
    ensures states[k + 1].queue == states[k].queue + states[from].policies && states[k + 1].handler.Waiting?
  {
    HandlerHolds(states, steps, from, k);
    assert states[k + 1] == Next(states[k], steps[k]);
  }

  /** After step `from`, step `j` listed the policies and step `k` queued all of them. */
  ghost predicate Served(states: seq<State>, steps: seq<Step>, from: nat, j: nat, k: nat)
    requires Run(states, steps)
  {
    && from < j < k < |steps| && steps[j] == RetryList(0, true) && steps[k] == RetryAdd(0)
    && states[j].policies <= states[k + 1].queue
  }

  ghost predicate ServedBefore(states: seq<State>, steps: seq<Step>, from: nat, n: nat)
    requires Run(states, steps)
  {
    exists j: nat, k: nat :: k < n && Served(states, steps, from, j, k)
  }

  /** The retry in flight holds what step `j` listed. */
  ghost predicate Holding(states: seq<State>, steps: seq<Step>, from: nat, j: nat, n: nat)
    requires Run(states, steps) && n <= |steps|
  {
    && from < j < n && steps[j] == RetryList(0, true) && states[n].retries == [Listed(states[j].policies)]
  }

  ghost predicate InProgress(states: seq<State>, steps: seq<Step>, from: nat, n: nat)
    requires Run(states, steps) && n <= |steps|
  {
    || states[n].retries == [Polling]
    || (exists j: nat :: Holding(states, steps, from, j, n))
    || ServedBefore(states, steps, from, n)
  }

  lemma ProgressStep(states: seq<State>, steps: seq<Step>, from: nat, n: nat)
    requires Run(states, steps) && from < n < |steps| && Inv(states[n]) && !states[n].cancelled
    requires InProgress(states, steps, from, n)
    ensures InProgress(states, steps, from, n + 1)
  {
    var s, step := states[n], steps[n];
    assert Enabled(s, step) && states[n + 1] == Next(s, step);
    if ServedBefore(states, steps, from, n) {
      var j: nat, k: nat :| k < n && Served(states, steps, from, j, k);
    } else if j: nat :| Holding(states, steps, from, j, n) {
      if step.RetryAdd? {
        assert Served(states, steps, from, j, n);
      } else {
        assert Holding(states, steps, from, j, n + 1);
      }
    } else if step.RetryList? && step.ok {
      assert Holding(states, steps, from, n, n + 1);
    }
  }

  lemma {:induction false} ProgressKept(states: seq<State>, steps: seq<Step>, from: nat, n: nat)
    requires Run(states, steps) && Inv(states[0]) && from < n <= |steps|
    requires states[from + 1].retries == [Polling]
    requires forall l :: 0 <= l < n ==> !states[l].cancelled
    ensures InProgress(states, steps, from, n)
  {
    if n > from + 1 {
      ProgressKept(states, steps, from, n - 1);
      OneRetryInFlight(states, steps, n - 1);
      ProgressStep(states, steps, from, n - 1);
    }
  }

  /** An event handed to a retry that has not listed yet, whether it started the retry or was
      coalesced with it, is served: by the time no retry is in flight, unless the context was
      cancelled, the policies existing at a later listing have all been queued. */
  lemma EventBeforeListingIsServed(states: seq<State>, steps: seq<Step>, from: nat, n: nat)
    requires Run(states, steps) && Inv(states[0]) && from < n <= |steps|
    requires steps[from] == EventRetry && states[from + 1].retries == [Polling]
    requires forall l :: 0 <= l < n ==> !states[l].cancelled
    requires states[n].retries == []
    ensures exists j: nat, k: nat :: k < n && Served(states, steps, from, j, k)
  {
    ProgressKept(states, steps, from, n);
  }

  /** After step `from`, step `k` queued exactly `requests`, with no listing and no queueing by a
      retry in between. */
  ghost predicate QueuedAt(states: seq<State>, steps: seq<Step>, requests: set<string>, from: nat, k: nat)
    requires Run(states, steps)
  {
    && from < k < |steps| && steps[k] == RetryAdd(0) && states[k + 1].queue == states[k].queue + requests
    && forall j :: from < j < k ==> !steps[j].RetryList? && !steps[j].RetryAdd?
  }

  lemma {:induction false} HeldUntilQueued(states: seq<State>, steps: seq<Step>, requests: set<string>, from: nat,
                                           n: nat)
    requires Run(states, steps) && Inv(states[0]) && from < n <= |steps|
    requires states[from + 1].retries == [Listed(requests)]
    ensures || (states[n].retries == [Listed(requests)]
                && forall j :: from < j < n ==> !steps[j].RetryList? && !steps[j].RetryAdd?)
            || exists k: nat :: k < n && QueuedAt(states, steps, requests, from, k)
  {
    if n > from + 1 {
      HeldUntilQueued(states, steps, requests, from, n - 1);
      OneRetryInFlight(states, steps, n - 1);
      assert Enabled(states[n - 1], steps[n - 1]) && states[n] == Next(states[n - 1], steps[n - 1]);
      if states[n - 1].retries == [Listed(requests)] && steps[n - 1].RetryAdd? {
        if forall j :: from < j < n - 1 ==> !steps[j].RetryList? && !steps[j].RetryAdd? {
          assert QueuedAt(states, steps, requests, from, n - 1);
        }
      }
    }
  }

  /** An event coalesced with a retry that has listed but not yet queued is followed by queueing what
      was listed before it, and only that: policies that appeared in between are not in it. */
  lemma EventAfterListingGetsOldList(states: seq<State>, steps: seq<Step>, requests: set<string>, from: nat, n: nat)
    requires Run(states, steps) && Inv(states[0]) && from < n <= |steps|
    requires steps[from] == EventRetry && states[from].retries == [Listed(requests)] && states[n].retries == []
    ensures exists k: nat :: k < n && QueuedAt(states, steps, requests, from, k)
  {
    OneRetryInFlight(states, steps, from);
    HeldUntilQueued(states, steps, requests, from, n);
  }

  /** A retry that has listed never lists again. */
  lemma {:induction false} ListsOnce(states: seq<State>, steps: seq<Step>, from: nat, n: nat)
    requires Run(states, steps) && Inv(states[0]) && from < n <= |steps|
    requires |states[from + 1].retries| == 1 && !states[from + 1].retries[0].Polling?
    requires forall l :: from < l < n ==> states[l].retries != []
    ensures states[n].retries != [] ==> !states[n].retries[0].Polling?
    ensures forall j :: from < j < n ==> !steps[j].RetryList?
  {
    if n > from + 1 {
      ListsOnce(states, steps, from, n - 1);
      OneRetryInFlight(states, steps, n - 1);
      assert Enabled(states[n - 1], steps[n - 1]) && states[n] == Next(states[n - 1], steps[n - 1]);
    }
  }

  /** An event coalesced with a retry is followed by a successful listing of that retry, before the
      retry is gone at state `n`, if and only if the retry was still polling; and then everything
      listed is queued. */
  lemma CoalescedIsServedIffPolling(states: seq<State>, steps: seq<Step>, from: nat, n: nat)
    requires Run(states, steps) && Inv(states[0]) && from < n <= |steps|
    requires steps[from] == EventRetry && states[from].retrying
    requires states[n].retries == [] && forall l :: from < l < n ==> states[l].retries != []
    requires forall l :: 0 <= l < n ==> !states[l].cancelled
    ensures (exists j: nat :: from < j < n && steps[j] == RetryList(0, true)) <==> states[from].retries == [Polling]
    ensures states[from].retries == [Polling] ==> ServedBefore(states, steps, from, n)
  {
    OneRetryInFlight(states, steps, from);
    assert states[from + 1] == Next(states[from], steps[from]);
    if states[from].retries == [Polling] {
      EventBeforeListingIsServed(states, steps, from, n);
    } else {
      ListsOnce(states, steps, from, n);
    }
  }

  /** Neither the handler nor a retry is about to queue anything. */
  predicate Quiet(s: State) {
    s.handler.Waiting? && forall i :: 0 <= i < |s.retries| ==> s.retries[i].Queued?
  }

  /** An event coalesced with a retry that has queued its policies but not yet cleared the flag is
      lost: without a further event nothing is ever queued for it. */
  lemma {:induction false} EventAfterQueueingIsLost(states: seq<State>, steps: seq<Step>, from: nat, n: nat)
    requires Run(states, steps) && from < n <= |steps|
    requires steps[from] == EventRetry && states[from].retrying && states[from].retries == [Queued]
    requires forall l :: from < l < n ==> !steps[l].EventList?
    ensures Quiet(states[n]) && states[n].queue <= states[from].queue
  {
    assert Enabled(states[n - 1], steps[n - 1]) && states[n] == Next(states[n - 1], steps[n - 1]);
    if n > from + 1 {
      EventAfterQueueingIsLost(states, steps, from, n - 1);
    }
  }

  lemma RunConcat(states1: seq<State>, steps1: seq<Step>, states2: seq<State>, steps2: seq<Step>)
    requires Run(states1, steps1) && Run(states2, steps2) && states1[|steps1|] == states2[0]
    ensures Run(states1 + states2[1..], steps1 + steps2)
  {
    var states, steps := states1 + states2[1..], steps1 + steps2;
    forall i | 0 <= i < |steps| ensures Enabled(states[i], steps[i]) && states[i + 1] == Next(states[i], steps[i]) {
      if i >= |steps1| {
        assert states[i] == states2[i - |steps1|] && steps[i] == steps2[i - |steps1|];
      }
    }
  }

  /** An event whose own listing fails. */
  lemma FailedEvent(s: State) returns (states: seq<State>, steps: seq<Step>)
    requires s.handler.Waiting?
    ensures Run(states, steps) && steps == [EventList(false), EventRetry]
    ensures states[0] == s && states[1] == s.(handler := MustRetry)
    ensures states[2] == if s.retrying then s else s.(retrying := true, retries := s.retries + [Polling])
  {
    steps := [EventList(false), EventRetry];
    var s1 := s.(handler := MustRetry);
    states := [s, s1, Next(s1, EventRetry)];
  }

  const EMPTY := State(Waiting, false, [], {}, {}, false)
  const ONE := EMPTY.(policies := {"p"})

  const WORKED := ONE.(retrying := true, retries := [Queued])
  const LATE := EMPTY.(retrying := true, retries := [Listed({})], policies := {"p"})

  /** A retry has queued its policy, which was worked off, and not cleared its flag. */
  lemma WorkedOff() returns (states: seq<State>, steps: seq<Step>)
    ensures Run(states, steps) && |steps| == 5 && states[0] == ONE && states[5] == WORKED
  {
    states, steps := FailedEvent(ONE);
    var s2 := ONE.(retrying := true, retries := [Polling]);
    var s3, s4 := s2.(retries := [Listed({"p"})]), WORKED.(queue := {"p"});
    assert Next(s3, RetryAdd(0)) == s4 && Next(s4, Consume("p")) == WORKED;
    RunConcat(states, steps, [s2, s3, s4, WORKED], [RetryList(0, true), RetryAdd(0), Consume("p")]);
    states, steps := states + [s2, s3, s4, WORKED][1..], steps + [RetryList(0, true), RetryAdd(0), Consume("p")];
  }

  /** A retry has listed before the policy came. */
  lemma ListedEarly() returns (states: seq<State>, steps: seq<Step>)
    ensures Run(states, steps) && |steps| == 4 && states[0] == EMPTY && states[4] == LATE
  {
    states, steps := FailedEvent(EMPTY);
    var s2 := EMPTY.(retrying := true, retries := [Polling]);
    var s3 := s2.(retries := [Listed({})]);
    RunConcat(states, steps, [s2, s3, LATE], [RetryList(0, true), PoliciesChange({"p"})]);
    states, steps := states + [s2, s3, LATE][1..], steps + [RetryList(0, true), PoliciesChange({"p"})];
  }

  /** The state in which one event was dropped and nothing remembers it is reachable: the second
      event arrives when the retry of the first has queued its policies and not cleared its flag. */
  lemma LostEvent() returns (states: seq<State>, steps: seq<Step>)
    ensures Run(states, steps) && |steps| == 8 && states[0] == ONE
    ensures steps[6] == EventRetry && states[6].retrying && states[6].retries == [Queued] && states[6].queue == {}
    ensures states[8] == ONE
  {
    var states1, steps1 := WorkedOff();
    var states2, steps2 := FailedEvent(WORKED);
    assert Next(WORKED, RetryExit(0)) == ONE;
    var last := [WORKED, ONE];
    RunConcat(states2, steps2, last, [RetryExit(0)]);
    RunConcat(states1, steps1, states2 + last[1..], steps2 + [RetryExit(0)]);
    states, steps := states1 + (states2 + last[1..])[1..], steps1 + (steps2 + [RetryExit(0)]);
    assert states[6] == states2[1] && steps[6] == steps2[1];
  }

  /** So is the state in which an event got the list from before it: a policy that came in between
      the listing and the event is not queued. */
  lemma StaleListing() returns (states: seq<State>, steps: seq<Step>)
    ensures Run(states, steps) && |steps| == 8 && states[0] == EMPTY
    ensures steps[5] == EventRetry && states[5].retrying
    ensures states[5].retries == [Listed({})] && states[5].policies == {"p"}
    ensures states[8] == ONE
  {
    var states1, steps1 := ListedEarly();
    var states2, steps2 := FailedEvent(LATE);
    assert Next(LATE, RetryAdd(0)) == WORKED && Next(WORKED, RetryExit(0)) == ONE;
    var last, lastSteps := [LATE, WORKED, ONE], [RetryAdd(0), RetryExit(0)];
    RunConcat(states2, steps2, last, lastSteps);
    RunConcat(states1, steps1, states2 + last[1..], steps2 + lastSteps);
    states, steps := states1 + (states2 + last[1..])[1..], steps1 + (steps2 + lastSteps);
    assert states[5] == states2[1] && steps[5] == steps2[1];
  }
}
