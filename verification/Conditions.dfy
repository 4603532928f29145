/** The status conditions derived from a sync's results. */
module Conditions {
  import opened Iteration
  import opened Objects
  import opened StateManager

  datatype Condition = Condition(ctype: string, status: string, reason: string, message: string, generation: int,
                                 transition: int)

  const READY := "Ready"
  const TRUE := "True"
  const FALSE := "False"

  /** Component state names to condition types. */
  type Mapping = map<string, string>

  const STATE_NAME_TO_CONDITION_TYPE: Mapping := map[
    "state-OFED" := "OFEDDriverReady",
    "state-RDMA-device-plugin" := "RDMASharedDevicePluginReady",
    "state-SRIOV-device-plugin" := "SRIOVDevicePluginReady",
    "state-ib-kubernetes" := "IBKubernetesReady",
    "state-multus-cni" := "MultusCNIReady",
    "state-container-networking-plugins" := "CNIPluginsReady",
    "state-ipoib-cni" := "IPoIBCNIReady",
    "state-nv-ipam-cni" := "NVIPAMReady",
    "state-nic-feature-discovery" := "NICFeatureDiscoveryReady",
    "state-doca-telemetry-service" := "DOCATelemetryServiceReady",
    "state-nic-configuration-operator" := "NICConfigurationOperatorReady",
    "state-spectrum-x-operator" := "SpectrumXOperatorReady"]

  ghost predicate Injective(m: Mapping) {
    (forall a, b :: a in m && b in m && m[a] == m[b] ==> a == b) && (forall a :: a in m ==> m[a] != READY)
  }

  /** The entry of a state name, told apart by the name's length and, for two of them, a letter. */
  ghost function Entry(name: string): int {
    if |name| == 25 then (if name[6] == 'S' then 1 else 2) else |name|
  }

  /** The same entry, told apart by its condition type. */
  ghost function EntryOfType(t: string): int {
    if |t| == 15 then (if t[0] == 'O' then 10 else 34)
    else if |t| == 22 then (if t[1] == 'R' then 1 else 2)
    else if |t| == 27 then 24 else if |t| == 17 then 19 else if |t| == 14 then 16 else if |t| == 13 then 15
    else if |t| == 11 then 17 else if |t| == 24 then 27 else if |t| == 25 then 28 else if |t| == 29 then 32 else 0
  }

  lemma EntryMatches(name: string)
    requires name in STATE_NAME_TO_CONDITION_TYPE
    ensures EntryOfType(STATE_NAME_TO_CONDITION_TYPE[name]) == Entry(name) != 0
  {
  }

  lemma EntryDetermines(a: string, b: string)
    requires a in STATE_NAME_TO_CONDITION_TYPE && b in STATE_NAME_TO_CONDITION_TYPE && Entry(a) == Entry(b)
    ensures a == b
  {
  }

  /** The operator's own table has the two properties the results below ask of a mapping. */
  lemma TableIsInjective()
    ensures Injective(STATE_NAME_TO_CONDITION_TYPE)
  {
    var m := STATE_NAME_TO_CONDITION_TYPE;
    forall a | a in m ensures m[a] != READY {
      EntryMatches(a);
    }
    forall a, b | a in m && b in m && m[a] == m[b] ensures a == b {
      EntryMatches(a);
      EntryMatches(b);
      EntryDetermines(a, b);
    }
  }

  // ---- the condition list -------------------------------------------------------------------

  function Get(cs: seq<Condition>, t: string): Option<Condition> {
    if cs == [] then None
    else if cs[0].ctype == t then Some(cs[0])
    else Get(cs[1..], t)
  }

  ghost predicate UniqueTypes(cs: seq<Condition>) {
    forall i, j :: 0 <= i < j < |cs| ==> cs[i].ctype != cs[j].ctype
  }

  /** The new condition keeps the old transition time while the status stays the same. */
  function Updated(before: Option<Condition>, c: Condition, now: int): Condition {
    c.(transition := if before.Some? && before.value.status == c.status then before.value.transition else now)
  }

  /** `SetStatusCondition`. */
  function Set(cs: seq<Condition>, c: Condition, now: int): seq<Condition> {
    if cs == [] then [Updated(None, c, now)]
    else if cs[0].ctype == c.ctype then [Updated(Some(cs[0]), c, now)] + cs[1..]
    else [cs[0]] + Set(cs[1..], c, now)
  }

  /** `RemoveStatusCondition`. */
  function Remove(cs: seq<Condition>, t: string): seq<Condition> {
    if cs == [] then []
    else if cs[0].ctype == t then Remove(cs[1..], t)
    else [cs[0]] + Remove(cs[1..], t)
  }

  lemma {:induction false} GetPresent(cs: seq<Condition>, t: string)
    ensures Get(cs, t).Some? <==> exists i :: 0 <= i < |cs| && cs[i].ctype == t
    ensures Get(cs, t).Some? ==> Get(cs, t).value.ctype == t
  {
    if cs != [] && cs[0].ctype != t {
      GetPresent(cs[1..], t);
      if i :| 0 <= i < |cs[1..]| && cs[1..][i].ctype == t {
        assert cs[i + 1].ctype == t;
      }
      if i :| 0 <= i < |cs| && cs[i].ctype == t {
        assert cs[1..][i - 1].ctype == t;
      }
    }
  }

  lemma UniqueCons(head: Condition, tail: seq<Condition>)
    ensures UniqueTypes([head] + tail) <==> UniqueTypes(tail) && Get(tail, head.ctype) == None
  {
    GetPresent(tail, head.ctype);
    if UniqueTypes([head] + tail) {
      forall i, j | 0 <= i < j < |tail| ensures tail[i].ctype != tail[j].ctype {
        assert ([head] + tail)[i + 1] == tail[i] && ([head] + tail)[j + 1] == tail[j];
      }
      forall i | 0 <= i < |tail| ensures tail[i].ctype != head.ctype {
        assert ([head] + tail)[0] == head && ([head] + tail)[i + 1] == tail[i];
      }
    }
  }

  lemma {:induction false} SetGet(cs: seq<Condition>, c: Condition, now: int, t: string)
    ensures Get(Set(cs, c, now), t) == if t == c.ctype then Some(Updated(Get(cs, t), c, now)) else Get(cs, t)
  {
    if cs != [] {
      SetGet(cs[1..], c, now, t);
      assert ([cs[0]] + Set(cs[1..], c, now))[1..] == Set(cs[1..], c, now);
      assert ([Updated(Some(cs[0]), c, now)] + cs[1..])[1..] == cs[1..];
    }
  }

  lemma {:induction false} SetUnique(cs: seq<Condition>, c: Condition, now: int)
    requires UniqueTypes(cs)
    ensures UniqueTypes(Set(cs, c, now))
  {
    if cs != [] {
      var head, tail := cs[0], cs[1..];
      assert cs == [head] + tail;
      UniqueCons(head, tail);
      if head.ctype == c.ctype {
        UniqueCons(Updated(Some(head), c, now), tail);
      } else {
        SetUnique(tail, c, now);
        SetGet(tail, c, now, head.ctype);
        UniqueCons(head, Set(tail, c, now));
      }
    }
  }

  lemma {:induction false} RemoveGet(cs: seq<Condition>, t: string, u: string)
    ensures Get(Remove(cs, t), u) == if u == t then None else Get(cs, u)
  {
    if cs != [] {
      RemoveGet(cs[1..], t, u);
      assert ([cs[0]] + Remove(cs[1..], t))[1..] == Remove(cs[1..], t);
    }
  }

  lemma {:induction false} RemoveUnique(cs: seq<Condition>, t: string)
    requires UniqueTypes(cs)
    ensures UniqueTypes(Remove(cs, t))
  {
    if cs != [] {
      var head, tail := cs[0], cs[1..];
      assert cs == [head] + tail;
      UniqueCons(head, tail);
      RemoveUnique(tail, t);
      RemoveGet(tail, t, head.ctype);
      UniqueCons(head, Remove(tail, t));
    }
  }

  // ---- what the conditions should be --------------------------------------------------------

  function Message(error: Option<string>): string {
    if error.Some? then error.value else ""
  }

  /** The component condition a result stands for; an ignored component has none. */
  function ComponentCondition(m: Mapping, r: StateResult, generation: int): Option<Condition>
    requires r.name in m
  {
    match r.status
    case Ready => Some(Condition(m[r.name], TRUE, "ComponentReady", "", generation, 0))
    case Ignore => None
    case Error => Some(Condition(m[r.name], FALSE, "ComponentError", Message(r.error), generation, 0))
    case _ => Some(Condition(m[r.name], FALSE, "ComponentNotReady", Message(r.error), generation, 0))
  }

  /** One of the first `n` results is a mapped component in error. */
  ghost predicate HasError(m: Mapping, rs: seq<StateResult>, n: nat)
    requires n <= |rs|
  {
    exists i :: 0 <= i < n && rs[i].name in m && rs[i].status == Error
  }

  ghost predicate HasNotReady(m: Mapping, rs: seq<StateResult>, n: nat)
    requires n <= |rs|
  {
    exists i :: 0 <= i < n && rs[i].name in m && (rs[i].status == NotReady || rs[i].status == Reset)
  }

  function ReadyCondition(error: bool, notReady: bool, generation: int): Condition {
    if error then Condition(READY, FALSE, "ComponentError", "One or more components are in error state", generation, 0)
    else if notReady then
      Condition(READY, FALSE, "ComponentsNotReady", "One or more components are not yet ready", generation, 0)
    else Condition(READY, TRUE, "AllComponentsReady", "", generation, 0)
  }

  ghost predicate DistinctStates(rs: seq<StateResult>) {
    forall i, j :: 0 <= i < j < |rs| ==> rs[i].name != rs[j].name
  }

  /** Type `t` belongs to a component among the first `n` results. */
  ghost predicate Reported(m: Mapping, rs: seq<StateResult>, n: nat, t: string)
    requires n <= |rs|
  {
    exists i :: 0 <= i < n && rs[i].name in m && m[rs[i].name] == t
  }

  /** The entry of type `t` is what result `i` makes of the existing one. */
  ghost predicate Reflects(m: Mapping, existing: seq<Condition>, r: StateResult, generation: int, now: int,
                           cs: seq<Condition>)
    requires r.name in m
  {
    var c, t := ComponentCondition(m, r, generation), m[r.name];
    Get(cs, t) == if c.None? then None else Some(Updated(Get(existing, t), c.value, now))
  }

  /** The first `n` results are dealt with: their types reflect them, all others are as they were. */
  ghost predicate ComponentsApplied(m: Mapping, existing: seq<Condition>, rs: seq<StateResult>, n: nat,
                                    generation: int, now: int, cs: seq<Condition>)
    requires n <= |rs|
  {
    && UniqueTypes(cs)
    && (forall i :: 0 <= i < n && rs[i].name in m ==> Reflects(m, existing, rs[i], generation, now, cs))
    && (forall t :: !Reported(m, rs, n, t) ==> Get(cs, t) == Get(existing, t))
  }

  /** The whole specification of the computed conditions. */
  ghost predicate Computed(m: Mapping, existing: seq<Condition>, rs: seq<StateResult>, generation: int, now: int,
                           cs: seq<Condition>)
  {
    && UniqueTypes(cs)
    && (forall i :: 0 <= i < |rs| && rs[i].name in m ==> Reflects(m, existing, rs[i], generation, now, cs))
    && (forall s :: s in m && !Reported(m, rs, |rs|, m[s]) ==> Get(cs, m[s]) == None)
    && (forall t :: t != READY && !Mapped(m, t) ==> Get(cs, t) == Get(existing, t))
    && var ready := ReadyCondition(HasError(m, rs, |rs|), HasNotReady(m, rs, |rs|), generation);
       Get(cs, READY) == Some(Updated(Get(existing, READY), ready, now))
  }

  method ComputePolicyConditions(m: Mapping, existing: seq<Condition>, rs: seq<StateResult>, generation: int, now: int)
    returns (cs: seq<Condition>)
    requires Injective(m) && DistinctStates(rs) && UniqueTypes(existing)
    ensures Computed(m, existing, rs, generation, now, cs)
  {
    var applied, seen, error, notReady := ApplyComponents(m, existing, rs, generation, now);
    var pruned := Prune(m, seen, applied);
    CompletedByReady(m, existing, rs, generation, now, applied, seen, pruned);
    cs := Set(pruned, ReadyCondition(error, notReady, generation), now);
  }

  method ApplyComponents(m: Mapping, existing: seq<Condition>, rs: seq<StateResult>, generation: int, now: int)
    returns (cs: seq<Condition>, seen: set<string>, error: bool, notReady: bool)
    requires Injective(m) && DistinctStates(rs) && UniqueTypes(existing)
    ensures ComponentsApplied(m, existing, rs, |rs|, generation, now, cs)
    ensures forall t :: t in seen <==> Reported(m, rs, |rs|, t)
    ensures (error <==> HasError(m, rs, |rs|)) && (notReady <==> HasNotReady(m, rs, |rs|))
  {
    cs, error, notReady, seen := existing, false, false, {};
    for n := 0 to |rs|
      invariant ComponentsApplied(m, existing, rs, n, generation, now, cs)
      invariant error <==> HasError(m, rs, n)
      invariant notReady <==> HasNotReady(m, rs, n)
      invariant forall t :: t in seen <==> Reported(m, rs, n, t)
    {
      var r := rs[n];
      if r.name !in m {
        continue;
      }
      seen := seen + {m[r.name]};
      var c := ComponentCondition(m, r, generation);
      ComponentStep(m, existing, rs, n, generation, now, cs);
      cs := if c.None? then Remove(cs, m[r.name]) else Set(cs, c.value, now);
      error := error || r.status == Error;
      notReady := notReady || r.status == NotReady || r.status == Reset;
    }
  }

  predicate Mapped(m: Mapping, t: string) {
    exists s :: s in m && m[s] == t
  }

  /** Drops the component conditions of states that were not reported. */
  method Prune(m: Mapping, seen: set<string>, before: seq<Condition>) returns (cs: seq<Condition>)
    requires UniqueTypes(before)
    ensures UniqueTypes(cs)
    ensures forall t :: Get(cs, t) == if t !in seen && Mapped(m, t) then None else Get(before, t)
  {
    cs := before;
    var order := Enumerate(m.Keys);
    ghost var gone: set<string> := {};
    for n := 0 to |order|
      invariant UniqueTypes(cs)
      invariant forall t :: t in gone ==> t !in seen && Mapped(m, t)
      invariant forall i :: 0 <= i < n && order[i] in m ==> m[order[i]] in seen + gone
      invariant forall t :: Get(cs, t) == if t in gone then None else Get(before, t)
    {
      assert order[n] in order;
      var t := m[order[n]];
      if t !in seen {
        RemoveUnique(cs, t);
        forall u ensures Get(Remove(cs, t), u) == if u == t then None else Get(cs, u) {
          RemoveGet(cs, t, u);
        }
        cs := Remove(cs, t);
        gone := gone + {t};
      }
    }
    forall s | s in m ensures m[s] in seen + gone {
      assert s in order;
    }
  }

  lemma CompletedByReady(m: Mapping, existing: seq<Condition>, rs: seq<StateResult>, generation: int, now: int,
                         applied: seq<Condition>, seen: set<string>, pruned: seq<Condition>)
    requires Injective(m) && ComponentsApplied(m, existing, rs, |rs|, generation, now, applied) && UniqueTypes(pruned)
    requires forall t :: t in seen <==> Reported(m, rs, |rs|, t)
    requires forall t :: Get(pruned, t) == if t !in seen && Mapped(m, t) then None else Get(applied, t)
    ensures Computed(m, existing, rs, generation, now,
                     Set(pruned, ReadyCondition(HasError(m, rs, |rs|), HasNotReady(m, rs, |rs|), generation), now))
  {
    var ready := ReadyCondition(HasError(m, rs, |rs|), HasNotReady(m, rs, |rs|), generation);
    var cs := Set(pruned, ready, now);
    SetUnique(pruned, ready, now);
    forall t ensures Get(cs, t) == if t == READY then Some(Updated(Get(pruned, t), ready, now)) else Get(pruned, t) {
      SetGet(pruned, ready, now, t);
    }
    assert !Mapped(m, READY) && READY !in seen;
    forall i | 0 <= i < |rs| && rs[i].name in m ensures Reflects(m, existing, rs[i], generation, now, cs) {
      var t := m[rs[i].name];
      assert Reflects(m, existing, rs[i], generation, now, applied);
      assert Reported(m, rs, |rs|, t) && t in seen && t != READY;
      assert Get(cs, t) == Get(applied, t);
    }
    forall t | t != READY && !Mapped(m, t) ensures Get(cs, t) == Get(existing, t) {
      assert !Reported(m, rs, |rs|, t);
    }
  }

  lemma ComponentStep(m: Mapping, existing: seq<Condition>, rs: seq<StateResult>, n: nat, generation: int, now: int,
                      cs: seq<Condition>)
    requires Injective(m) && DistinctStates(rs) && n < |rs| && rs[n].name in m
    requires ComponentsApplied(m, existing, rs, n, generation, now, cs)
    ensures
      var c := ComponentCondition(m, rs[n], generation);
      var cs' := if c.None? then Remove(cs, m[rs[n].name]) else Set(cs, c.value, now);
      ComponentsApplied(m, existing, rs, n + 1, generation, now, cs')
  {
    var r, c := rs[n], ComponentCondition(m, rs[n], generation);
    var t := m[r.name];
    assert !Reported(m, rs, n, t);
    var cs' := if c.None? then Remove(cs, t) else Set(cs, c.value, now);
    forall u
      ensures Get(cs', u) ==
              if u != t then Get(cs, u) else if c.None? then None else Some(Updated(Get(existing, t), c.value, now))
    {
      if c.None? {
        RemoveGet(cs, t, u);
      } else {
        SetGet(cs, c.value, now, u);
      }
    }
    if c.None? {
      RemoveUnique(cs, t);
    } else {
      SetUnique(cs, c.value, now);
    }
    forall i | 0 <= i < n && rs[i].name in m ensures Reflects(m, existing, rs[i], generation, now, cs') {
      assert m[rs[i].name] != t;
    }
  }

  // ---- consequences -------------------------------------------------------------------------

  /** A component's condition is present exactly when its state was reported and not ignored. */
  lemma PresentIffReported(m: Mapping, existing: seq<Condition>, rs: seq<StateResult>, generation: int, now: int,
                           cs: seq<Condition>, s: string)
    requires Injective(m) && DistinctStates(rs) && Computed(m, existing, rs, generation, now, cs) && s in m
    ensures Get(cs, m[s]).Some? <==> exists i :: 0 <= i < |rs| && rs[i].name == s && rs[i].status != Ignore
  {
  }

  /** What a component's condition says: True exactly for a ready state, else False, with the reason
      that tells an error from anything else, the error's text unless the state is ready, and the
      policy's generation. */
  lemma ConditionTellsResult(m: Mapping, existing: seq<Condition>, rs: seq<StateResult>, generation: int, now: int,
                             cs: seq<Condition>, i: nat)
    requires Computed(m, existing, rs, generation, now, cs) && i < |rs| && rs[i].name in m && rs[i].status != Ignore
    ensures Get(cs, m[rs[i].name]).Some?
    ensures
      var c, r := Get(cs, m[rs[i].name]).value, rs[i];
      && c.ctype == m[r.name] && c.generation == generation
      && c.status == (if r.status == Ready then "True" else "False")
      && c.reason == (if r.status == Ready then "ComponentReady"
                      else if r.status == Error then "ComponentError" else "ComponentNotReady")
      && c.message == (if r.status == Ready || r.error.None? then "" else r.error.value)
  {
    assert Reflects(m, existing, rs[i], generation, now, cs);
  }

  /** What the Ready condition says: an error of any component outweighs components that are merely
      not ready, and True means that neither occurs. */
  lemma ReadyTellsWorst(m: Mapping, existing: seq<Condition>, rs: seq<StateResult>, generation: int, now: int,
                        cs: seq<Condition>)
    requires Computed(m, existing, rs, generation, now, cs)
    ensures Get(cs, READY).Some?
    ensures
      var c := Get(cs, READY).value;
      var error := exists i :: 0 <= i < |rs| && rs[i].name in m && rs[i].status == Error;
      var waiting := exists i :: 0 <= i < |rs| && rs[i].name in m && rs[i].status in {NotReady, Reset};
      && c.ctype == "Ready" && c.generation == generation && c.status == (if error || waiting then "False" else "True")
      && c.reason == (if error then "ComponentError"
                      else if waiting then "ComponentsNotReady" else "AllComponentsReady")
  {
    assert HasError(m, rs, |rs|) <==> exists i :: 0 <= i < |rs| && rs[i].name in m && rs[i].status == Error;
    assert HasNotReady(m, rs, |rs|) <==>
           exists i :: 0 <= i < |rs| && rs[i].name in m && rs[i].status in {NotReady, Reset};
  }

  /** A transition time is the existing one if the status is, and else the time of the call. */
  lemma TransitionFollowsStatus(m: Mapping, existing: seq<Condition>, rs: seq<StateResult>, generation: int, now: int,
                                cs: seq<Condition>, t: string)
    requires Injective(m) && Computed(m, existing, rs, generation, now, cs) && Get(cs, t).Some?
    ensures
      var before, c := Get(existing, t), Get(cs, t).value;
      c.transition == if before.Some? && before.value.status == c.status then before.value.transition else now
  {
  }

  /** For the results of a manager all of whose states are mapped, the Ready condition and the
      overall status agree unless the status is ready while some state reports a reset. */
  lemma ReadyAgreesWithStatus(m: Mapping, existing: seq<Condition>, os: seq<Outcome>, r: Results, generation: int,
                              now: int,
                              cs: seq<Condition>)
    requires Aggregates(os, r) && Computed(m, existing, r.states, generation, now, cs)
    requires forall i :: 0 <= i < |os| ==> os[i].name in m
    ensures Get(cs, READY).Some?
    ensures (Get(cs, READY).value.status == TRUE <==> r.status == Ready) <==>
            !(r.status == Ready && exists i :: 0 <= i < |os| && os[i].status == Reset)
  {
  }

  /** Results that were put together by hand carry a status and no states, as on a node overlap. They
      remove every component's condition and set Ready to true, whatever the status is. */
  lemma HandBuiltResultsReadReady(m: Mapping, existing: seq<Condition>, r: Results, generation: int, now: int,
                                  cs: seq<Condition>)
    requires r.states == [] && Computed(m, existing, r.states, generation, now, cs)
    ensures forall s :: s in m ==> Get(cs, m[s]) == None
    ensures Get(cs, READY).Some? && Get(cs, READY).value.status == TRUE
  {
    assert forall t :: !Reported(m, r.states, 0, t);
    assert !HasError(m, r.states, 0) && !HasNotReady(m, r.states, 0);
  }
}
