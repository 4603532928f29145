/** The requestor's calls as code, with the rest of the world acting before every API call. Each
    call is proved to make exactly the requests and the one write of the protocol's call, so that
    what DrainProtocol and DrainCompletion prove over all interleavings is about this code. */
module DrainRequestors {
  import opened Objects
  import opened DrainProtocol

  /** A request as it was sent, with what came back: the version served, or the error of the reply. */
  datatype Call =
    | GetCall(served: Option<nat>)
    | CreateCall(who: string, error: Option<ApiError>)
    | PatchCall(ver: nat, list: seq<string>, error: Option<ApiError>)
    | DeleteCall(error: Option<ApiError>)

  function Fault<T>(r: Result<T>): Option<ApiError> {
    if r.Ok? then None else Some(r.error)
  }

  /** The server; `before` is always the object's history right before the write. */
  class MaintenanceApi {
    var versions: Versions
    ghost var calls: seq<Call>

    constructor ()
      ensures versions == [None] && calls == []
    {
      versions := [None];
      calls := [];
    }

    /** Everyone else's writes: any number of new versions. */
    method Interfere()
      modifies this`versions
      ensures old(versions) <= versions
    {
      var writes: int := *;
      while writes > 0
        invariant old(versions) <= versions
      {
        var gone: bool, nm: Maintenance := *, *;
        versions := versions + [if gone then None else Some(nm)];
        writes := writes - 1;
      }
    }

    /** The object, or none, with its resource version; the cache may lag behind. */
    method Get() returns (r: Result<Option<Maintenance>>, ver: nat)
      modifies this
      ensures old(versions) <= versions
      ensures r.Ok? ==> ver < |versions| && versions[ver] == r.value
      ensures calls == old(calls) + [GetCall(if r.Ok? then Some(ver) else None)]
    {
      Interfere();
      var refused: bool, lag: nat := *, *;
      if refused || lag >= |versions| {
        calls := calls + [GetCall(None)];
        return Err(Unavailable), 0;
      }
      ver := |versions| - 1 - lag;
      r := Ok(versions[ver]);
      calls := calls + [GetCall(Some(ver))];
    }

    /** The merge patch with optimistic lock on version `ver`. */
    method Patch(ver: nat, list: seq<string>) returns (r: Result<Maintenance>, ghost before: Versions)
      modifies this
      ensures old(versions) <= before <= versions
      ensures calls == old(calls) + [PatchCall(ver, list, Fault(r))]
      ensures r.Ok? ==> PatchAccepted(before, ver) && versions == Patched(before, list)
      ensures r.Ok? ==> Current(versions) == Some(r.value)
      ensures r.Err? ==> r.error == Conflict || r.error == Unavailable
      ensures r == Err(Conflict) ==> !PatchAccepted(before, ver)
      ensures r.Err? ==>
        || versions == before
        || (r.error == Unavailable && PatchAccepted(before, ver) && versions == Patched(before, list))
    {
      Interfere();
      before := versions;
      var refused, lost := *, *;
      if refused {
        r := Err(Unavailable);
      } else if !PatchAccepted(versions, ver) {
        r := Err(Conflict);
      } else {
        versions := Patched(versions, list);
        r := if lost then Err(Unavailable) else Ok(Current(versions).value);
      }
      calls := calls + [PatchCall(ver, list, Fault(r))];
    }

    method Create(who: string) returns (r: Result<()>, ghost before: Versions)
      modifies this
      ensures old(versions) <= before <= versions
      ensures calls == old(calls) + [CreateCall(who, Fault(r))]
      ensures r.Ok? ==> Current(before).None? && versions == Created(before, who)
      ensures r.Err? ==> r.error == AlreadyExists || r.error == Unavailable
      ensures r == Err(AlreadyExists) ==> Current(before).Some?
      ensures r.Err? ==>
        || versions == before
        || (r.error == Unavailable && Current(before).None? && versions == Created(before, who))
    {
      Interfere();
      before := versions;
      var refused, lost := *, *;
      if refused {
        r := Err(Unavailable);
      } else if Current(versions).Some? {
        r := Err(AlreadyExists);
      } else {
        versions := Created(versions, who);
        r := if lost then Err(Unavailable) else Ok(());
      }
      calls := calls + [CreateCall(who, Fault(r))];
    }

    method Delete() returns (r: Result<()>, ghost before: Versions, ghost finalizer: bool)
      modifies this
      ensures old(versions) <= before <= versions
      ensures calls == old(calls) + [DeleteCall(Fault(r))]
      ensures r.Ok? ==> Current(before).Some? && versions == Deleted(before, finalizer)
      ensures r.Err? ==> r.error == NotFound || r.error == Unavailable
      ensures r == Err(NotFound) ==> Current(before).None?
      ensures r.Err? ==>
        || versions == before
        || (r.error == Unavailable && Current(before).Some? && versions == Deleted(before, finalizer))
    {
      Interfere();
      before := versions;
      var refused, lost, kept := *, *, *;
      finalizer := kept;
      if refused {
        r := Err(Unavailable);
      } else if Current(versions).None? {
        r := Err(NotFound);
      } else {
        versions := Deleted(versions, kept);
        r := if lost then Err(Unavailable) else Ok(());
      }
      calls := calls + [DeleteCall(Fault(r))];
    }
  }

  // ---- one call as a step of the protocol ---------------------------------------------------

  /** What happened in a call: the version served, the history right before the write (or at the
      return, without one), whether a deleted object had a finalizer, and the write's error. */
  datatype Trace = Trace(served: Option<nat>, before: Versions, finalizer: bool, error: Option<ApiError>)

  predicate Replied(t: Trace) {
    t.served.Some? && (t.error.None? || t.error == Some(AlreadyExists))
  }

  /** The one request the protocol's action stands for. */
  function Request(v: Versions, op: Op, error: Option<ApiError>): seq<Call>
    requires op.pc.Read? && op.pc.ver < |v|
  {
    var ver := op.pc.ver;
    match NextAction(op.kind, op.who, v[ver])
    case Finish(_) => []
    case CreateOwn => [CreateCall(op.who, error)]
    case Append => [PatchCall(ver, v[ver].value.additional + [op.who], error)]
    case Remove => [PatchCall(ver, Without(v[ver].value.additional, op.who), error)]
    case DeleteOwn => [DeleteCall(error)]
  }

  /** The write had the protocol's effect, or the server could not be reached and it either had that
      effect or none. */
  ghost predicate Committed(t: Trace, op: Op, after: Versions)
    requires op.pc.Read? && op.pc.ver < |t.before|
  {
    var action := NextAction(op.kind, op.who, t.before[op.pc.ver]);
    var (v, pc) := Effect(t.before, op, t.finalizer);
    && (action.Finish? ==> t.error.None?)
    && if t.error == Some(Unavailable) then after == t.before || after == v
       else
         && after == v && (pc == Failed <==> !Replied(t))
         && (t.error == Some(AlreadyExists) <==> action == CreateOwn && Current(t.before).Some?)
  }

  ghost function OpAt(who: string, kind: Kind, t: Trace): Op
    requires t.served.Some?
  {
    Op(who, kind, Read(t.served.value))
  }

  /** From history `v` and log `calls` to `v'` and `calls'` happened one call of the protocol: one
      read and the one write it decides on. */
  ghost predicate Follows(v: Versions, calls: seq<Call>, who: string, kind: Kind, t: Trace, v': Versions,
                          calls': seq<Call>)
  {
    && v <= t.before <= v'
    && (if t.served.None? then v' == t.before && calls' == calls + [GetCall(None)]
        else
          && t.served.value < |t.before|
          && Committed(t, OpAt(who, kind, t), v')
          && calls' == calls + [GetCall(t.served)] + Request(t.before, OpAt(who, kind, t), t.error))
  }

  /** What the call that replied decided, and on which version. */
  ghost function Decision(who: string, kind: Kind, t: Trace): Pc
    requires t.served.Some? && t.served.value < |t.before|
  {
    Effect(t.before, OpAt(who, kind, t), t.finalizer).1
  }

  /** The read of a call is a step of the protocol: it decides the call when nothing is to be written,
      and then the decision is the code's; otherwise the call goes on to its write. */
  lemma ReadIsStep(s: System, k: nat, t: Trace) returns (step: Step)
    requires k in s.ops && s.ops[k].pc.Start?
    requires t.served.Some? ==> t.served.value < |s.versions| && s.versions <= t.before
    ensures Enabled(s, step) && Next(s, step).versions == s.versions
    ensures t.served.None? ==> Next(s, step).ops == WithPc(s, k, Failed)
    ensures t.served.Some? ==>
      var who, kind := s.ops[k].who, s.ops[k].kind;
      var finished := NextAction(kind, who, t.before[t.served.value]).Finish?;
      Next(s, step).ops == WithPc(s, k, if finished then Decision(who, kind, t) else Read(t.served.value))
  {
    step := if t.served.Some? then Get(k, t.served.value) else Abort(k);
  }

  /** Whenever the code's write happens in a state of the protocol, the protocol takes a step to the
      state the write leaves; the call replied if and only if the step decided it. */
  lemma WriteIsStep(s: System, k: nat, t: Trace, after: Versions) returns (step: Step)
    requires k in s.ops && s.ops[k].pc.Read? && s.versions == t.before && t.served == Some(s.ops[k].pc.ver)
    requires s.ops[k].pc.ver < |s.versions| && Committed(t, s.ops[k], after)
    ensures Enabled(s, step) && Next(s, step).versions == after
    ensures var pc := if Replied(t) then Effect(s.versions, s.ops[k], t.finalizer).1 else Failed;
      Next(s, step).ops == WithPc(s, k, pc)
    ensures Replied(t) ==> Next(s, step).ops[k].pc.Done?
  {
    if t.error == Some(Unavailable) {
      step := if after == t.before then Abort(k) else Commit(k, false, t.finalizer);
    } else {
      step := Commit(k, true, t.finalizer);
    }
  }

  /** What a completion that replied has sent besides its read, by the object it read: a delete for a
      live object of its own, the list without itself for one it was listed on, otherwise nothing. */
  ghost predicate Withdrawn(calls: seq<Call>, who: string, t: Trace, calls': seq<Call>)
    requires t.served.Some? && t.served.value < |t.before|
  {
    var read, start := t.before[t.served.value], calls + [GetCall(t.served)];
    if read.Some? && read.value.owner == who && !read.value.terminating then calls' == start + [DeleteCall(None)]
    else if read.Some? && read.value.owner != who && who in read.value.additional then
      exists list ::
        && calls' == start + [PatchCall(t.served.value, list, None)] && who !in list
        && forall x :: x != who ==> multiset(list)[x] == multiset(read.value.additional)[x]
    else calls' == start
  }

  lemma {:induction false} WithoutKeepsOthers(list: seq<string>, who: string)
    ensures who !in Without(list, who)
    ensures forall x :: x != who ==> multiset(Without(list, who))[x] == multiset(list)[x]
  {
    if list != [] {
      WithoutKeepsOthers(list[1..], who);
      assert list == [list[0]] + list[1..];
    }
  }

  // ---- drains in both modes, and what an answer rests on ------------------------------------

  /** Without sharing, an object that is there is taken as it is. */
  ghost predicate Adopts(shared: bool, t: Trace) {
    !shared && t.served.Some? && t.served.value < |t.before| && t.before[t.served.value].Some?
  }

  /** One drain call: the protocol's, or the read alone. */
  ghost predicate Drains(v: Versions, calls: seq<Call>, who: string, shared: bool, t: Trace, v': Versions,
                         calls': seq<Call>)
  {
    if Adopts(shared, t) then v <= t.before == v' && t.error.None? && calls' == calls + [GetCall(t.served)]
    else Follows(v, calls, who, Drain, t, v', calls')
  }

  ghost function DrainDecision(who: string, shared: bool, t: Trace): Pc
    requires t.served.Some? && t.served.value < |t.before|
  {
    if Adopts(shared, t) then Done(DrainDone(t.before[t.served.value].value), t.served.value)
    else Decision(who, Drain, t)
  }

  /** At version `ver` the maintenance was ready, and in shared mode the requestor was on it. */
  ghost predicate ReadyAt(v: Versions, who: string, shared: bool, ver: nat) {
    && ver < |v| && v[ver].Some? && v[ver].value.readyReason == Some("Ready")
    && (shared ==> v[ver].value.owner == who || who in v[ver].value.additional)
  }

  /** At version `ver` the object was gone or on its way out. */
  ghost predicate GoneAt(v: Versions, ver: nat) {
    ver < |v| && (v[ver].None? || v[ver].value.terminating)
  }

  /** A drain is decided on a ready version that the call read or wrote itself. */
  lemma DrainRestsOn(v: Versions, calls: seq<Call>, who: string, shared: bool, t: Trace, v': Versions,
                     calls': seq<Call>)
    requires Drains(v, calls, who, shared, t, v', calls') && Replied(t)
    requires DrainDecision(who, shared, t).Done? && DrainDecision(who, shared, t).result
    ensures ReadyAt(v', who, shared, DrainDecision(who, shared, t).ver)
    ensures t.served.value <= DrainDecision(who, shared, t).ver
  {
  }

  /** A completion is decided on a version without a live object that the call read or wrote itself,
      and the version it read had no object or the requestor's own. */
  lemma CompletionRestsOn(v: Versions, calls: seq<Call>, who: string, t: Trace, v': Versions, calls': seq<Call>)
    requires Follows(v, calls, who, Complete, t, v', calls') && Replied(t)
    requires Decision(who, Complete, t).Done? && Decision(who, Complete, t).result
    ensures GoneAt(v', Decision(who, Complete, t).ver) && t.served.value <= Decision(who, Complete, t).ver
    ensures t.served.value < |v'| && (v'[t.served.value].None? || v'[t.served.value].value.owner == who)
  {
  }

  class DrainRequestor {
    const id: string
    const shared: bool // the default name prefix is in use, so requestors share the object
    const api: MaintenanceApi

    constructor (id: string, shared: bool, api: MaintenanceApi)
      ensures this.id == id && this.shared == shared && this.api == api
    {
      this.id := id;
      this.shared := shared;
      this.api := api;
    }

    /** The object is the version the call decided on; when a creation lost the race it is the
        caller's own unsent copy. */
    method CreateOrUpdateNodeMaintenance() returns (nm: Maintenance, ok: bool, ghost t: Trace)
      modifies api
      ensures ok <==> Replied(t)
      ensures Drains(old(api.versions), old(api.calls), id, shared, t, api.versions, api.calls)
      ensures ok ==> var d := DrainDecision(id, shared, t);
                && d.Done? && (d.result <==> nm.readyReason == Some("Ready"))
                && if t.error.Some? then nm == Fresh(id) else d.ver < |api.versions| && api.versions[d.ver] == Some(nm)
      ensures ok && shared ==> Registered(nm, id)
    {
      nm, ok := Fresh(id), false;
      var read, at := api.Get();
      t := Trace(if read.Ok? then Some(at) else None, api.versions, false, None);
      if read.Err? {
        return;
      }
      if read.value.None? {
        var created, before := api.Create(id);
        t := t.(before := before, error := Fault(created));
        ok := created.Ok? || created.error == AlreadyExists;
        return;
      }
      nm, ok := read.value.value, true;
      if !shared || nm.owner == id || id in nm.additional {
        return;
      }
      var patched, before := api.Patch(at, nm.additional + [id]);
      t, ok := t.(before := before, error := Fault(patched)), patched.Ok?;
      if ok {
        nm := patched.value;
      }
    }

    method DeleteOrUpdateNodeMaintenance() returns (deleted: bool, ok: bool, ghost t: Trace)
      modifies api
      ensures ok <==> Replied(t)
      ensures Follows(old(api.versions), old(api.calls), id, Complete, t, api.versions, api.calls)
      ensures ok ==> Decision(id, Complete, t).Done?
      ensures deleted <==> ok && Decision(id, Complete, t).result
      ensures deleted && NextAction(Complete, id, t.before[t.served.value]) == DeleteOwn ==>
                Current(t.before).Some? && (Current(api.versions).None? || Current(api.versions).value.terminating)
      ensures ok ==> Withdrawn(old(api.calls), id, t, api.calls)
      ensures ok ==> var read := t.before[t.served.value]; deleted <==> read.None? || read.value.owner == id
    {
      deleted, ok := false, false;
      var read, at := api.Get();
      t := Trace(if read.Ok? then Some(at) else None, api.versions, false, None);
      if read.Err? {
        return;
      }
      ok := true;
      if read.value.None? {
        deleted := true;
        return;
      }
      var nm := read.value.value;
      if nm.owner == id {
        if !nm.terminating {
          var gone, before, finalizer := api.Delete();
          t, ok := t.(before := before, finalizer := finalizer, error := Fault(gone)), gone.Ok?;
        }
        deleted := ok;
        return;
      }
      if id in nm.additional {
        var patched, before := api.Patch(at, Without(nm.additional, id));
        WithoutKeepsOthers(nm.additional, id);
        t, ok := t.(before := before, error := Fault(patched)), patched.Ok?;
      }
    }

    /** `paused` is the orchestrator's answer before the drain, none on error. A drain is reported
        exactly for the reboot of a single-node cluster and when the call decides so. */
    method DrainNode(fullNodeDrain: bool, singleNode: bool, paused: Option<bool>)
      returns (drained: bool, ok: bool, ghost trace: Option<Trace>)
      modifies api
      ensures trace.Some? <==> paused == Some(true) && !(fullNodeDrain && singleNode)
      ensures trace.None? ==> unchanged(api) && (drained <==> paused == Some(true)) && (ok <==> paused.Some?)
      ensures trace.Some? ==>
        Drains(old(api.versions), old(api.calls), id, shared, trace.value, api.versions, api.calls)
      ensures trace.Some? ==> (ok <==> Replied(trace.value))
      ensures trace.Some? && ok ==> DrainDecision(id, shared, trace.value).Done?
      ensures trace.Some? ==> (drained <==> ok && DrainDecision(id, shared, trace.value).result)
    {
      drained, ok, trace := false, paused.Some?, None;
      if paused != Some(true) {
        return;
      }
      if fullNodeDrain && singleNode {
        return true, true, None;
      }
      var nm;
      ghost var t;
      nm, ok, t := CreateOrUpdateNodeMaintenance();
      trace := Some(t);
      drained := ok && nm.readyReason.Some? && nm.readyReason.value == READY_REASON;
    }

    /** `unpaused` is the orchestrator's answer after the deletion, none on error. A completion is
        reported exactly when the protocol lets the requestor go and the orchestrator is done. */
    method CompleteDrainNode(unpaused: Option<bool>) returns (completed: bool, ok: bool, ghost t: Trace)
      modifies api
      ensures Follows(old(api.versions), old(api.calls), id, Complete, t, api.versions, api.calls)
      ensures ok <==> Replied(t) && unpaused.Some?
      ensures ok ==> Decision(id, Complete, t).Done?
      ensures completed <==> ok && unpaused == Some(true) && Decision(id, Complete, t).result
    {
      var deleted;
      deleted, ok, t := DeleteOrUpdateNodeMaintenance();
      if !ok {
        return false, false, t;
      }
      return unpaused == Some(true) && deleted, unpaused.Some?, t;
    }
  }
}
