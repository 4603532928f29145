/** The shared-requestor drain protocol: any number of requestors, each with any number of drain
    and completion calls in flight, work on one NodeMaintenance object through single API calls
    that interleave freely with each other and with the maintenance operator. */
module DrainProtocol {
  import opened Objects

  const READY_REASON := "Ready"

  /** `readyReason` is the reason of the Ready condition, if the condition is present. */
  datatype Maintenance = Maintenance(owner: string, additional: seq<string>, readyReason: Option<string>,
                                     terminating: bool)

  /** All states the object went through; the index is the resource version, the last is current. */
  type Versions = v: seq<Option<Maintenance>> | |v| > 0 witness [None]

  function Current(v: Versions): Option<Maintenance> {
    v[|v| - 1]
  }

  predicate Registered(nm: Maintenance, who: string) {
    nm.owner == who || who in nm.additional
  }

  predicate DrainDone(nm: Maintenance) {
    nm.readyReason == Some(READY_REASON)
  }

  function Fresh(who: string): Maintenance {
    Maintenance(who, [], None, false)
  }

  /** `slices.DeleteFunc` with equality to `who`. */
  function Without(list: seq<string>, who: string): seq<string> {
    if list == [] then []
    else if list[0] == who then Without(list[1..], who)
    else [list[0]] + Without(list[1..], who)
  }

  // ---- the API server's answers -------------------------------------------------------------

  /** A merge patch with optimistic lock replaces the whole list, on top of version `ver` only. */
  predicate PatchAccepted(v: Versions, ver: nat) {
    Current(v).Some? && ver == |v| - 1
  }

  function Patched(v: Versions, list: seq<string>): Versions
    requires Current(v).Some?
  {
    v + [Some(Current(v).value.(additional := list))]
  }

  function Created(v: Versions, who: string): Versions {
    v + [Some(Fresh(who))]
  }

  /** A delete names the object only: it hits whatever is there. A finalizer keeps the object. */
  function Deleted(v: Versions, finalizer: bool): Versions
    requires Current(v).Some?
  {
    if Current(v).value.terminating then v
    else v + [if finalizer then Some(Current(v).value.(terminating := true)) else None]
  }

  // ---- the calls ----------------------------------------------------------------------------

  datatype Kind = Drain | Complete

  datatype Action = Finish(result: bool) | CreateOwn | Append | Remove | DeleteOwn

  /** What a call does once it has read the object. */
  function NextAction(kind: Kind, who: string, read: Option<Maintenance>): Action {
    match (kind, read)
    case (Drain, None) => CreateOwn
    case (Drain, Some(nm)) => if Registered(nm, who) then Finish(DrainDone(nm)) else Append
    case (Complete, None) => Finish(true)
    case (Complete, Some(nm)) =>
      if nm.owner == who then if nm.terminating then Finish(true) else DeleteOwn
      else if who in nm.additional then Remove else Finish(false)
  }

  /** `Read` remembers the version read, `Done` the version the result was decided on. */
  datatype Pc = Start | Read(ver: nat) | Done(result: bool, ver: nat) | Failed

  datatype Op = Op(who: string, kind: Kind, pc: Pc)

  datatype System = System(versions: Versions, ops: map<nat, Op>)

  predicate Active(op: Op) {
    op.pc.Start? || op.pc.Read?
  }

  /** `Get` may be served from a cache, so it may return an old version. `Commit` is the one write
      of a call; its reply may get lost after the write took effect. */
  datatype Step =
    | Begin(id: nat, who: string, kind: Kind)
    | Get(id: nat, ver: nat)
    | Commit(id: nat, delivered: bool, finalizer: bool)
    | Abort(id: nat)
    | SetReady(reason: Option<string>)
    | Finalize

  predicate Enabled(s: System, step: Step) {
    match step
    case Begin(id, _, _) => id in s.ops ==> !Active(s.ops[id])
    case Get(id, ver) => id in s.ops && s.ops[id].pc.Start? && ver < |s.versions|
    case Commit(id, _, _) => id in s.ops && s.ops[id].pc.Read? && s.ops[id].pc.ver < |s.versions|
    case Abort(id) => id in s.ops && Active(s.ops[id])
    case SetReady(_) => Current(s.versions).Some?
    case Finalize => Current(s.versions).Some? && Current(s.versions).value.terminating
  }

  function WithPc(s: System, id: nat, pc: Pc): map<nat, Op>
    requires id in s.ops
  {
    s.ops[id := s.ops[id].(pc := pc)]
  }

  /** The write of one call: the object's versions afterwards and how the call goes on. */
  function Effect(v: Versions, op: Op, finalizer: bool): (Versions, Pc)
    requires op.pc.Read? && op.pc.ver < |v|
  {
    var ver := op.pc.ver;
    match NextAction(op.kind, op.who, v[ver])
    case Finish(b) => (v, Done(b, ver))
    case CreateOwn =>
      if Current(v).None? then (Created(v, op.who), Done(false, |v|)) else (v, Done(false, ver))
    case Append =>
      if PatchAccepted(v, ver) then
        var v' := Patched(v, v[ver].value.additional + [op.who]);
        (v', Done(DrainDone(Current(v').value), |v|))
      else (v, Failed)
    case Remove =>
      if PatchAccepted(v, ver) then (Patched(v, Without(v[ver].value.additional, op.who)), Done(false, |v|))
      else (v, Failed)
    case DeleteOwn =>
      if Current(v).Some? then (Deleted(v, finalizer), Done(true, |Deleted(v, finalizer)| - 1)) else (v, Failed)
  }

  function Next(s: System, step: Step): System
    requires Enabled(s, step)
  {
    match step
    case Begin(id, who, kind) => s.(ops := s.ops[id := Op(who, kind, Start)])
    case Get(id, ver) =>
      var action := NextAction(s.ops[id].kind, s.ops[id].who, s.versions[ver]);
      s.(ops := WithPc(s, id, if action.Finish? then Done(action.result, ver) else Read(ver)))
    case Commit(id, delivered, finalizer) =>
      var (versions, pc) := Effect(s.versions, s.ops[id], finalizer);
      System(versions, WithPc(s, id, if delivered then pc else Failed))
    case Abort(id) => s.(ops := WithPc(s, id, Failed))
    case SetReady(reason) => s.(versions := s.versions + [Some(Current(s.versions).value.(readyReason := reason))])
    case Finalize => s.(versions := s.versions + [None])
  }

  ghost predicate Run(states: seq<System>, steps: seq<Step>) {
    && |states| == |steps| + 1
    && forall i :: 0 <= i < |steps| ==> Enabled(states[i], steps[i]) && states[i + 1] == Next(states[i], steps[i])
  }

  const INITIAL := System([None], map[])

  // ---- the requestor list -------------------------------------------------------------------

  ghost predicate NoDuplicates(list: seq<string>) {
    forall i, j :: 0 <= i < j < |list| ==> list[i] != list[j]
  }

  lemma {:induction false} WithoutExact(list: seq<string>, who: string)
    requires NoDuplicates(list)
    ensures NoDuplicates(Without(list, who))
    ensures forall x :: x in Without(list, who) <==> x in list && x != who
  {
    if list != [] {
      var head, rest := list[0], list[1..];
      assert list == [head] + rest;
      assert head !in rest;
      WithoutExact(rest, who);
    }
  }

  ghost predicate WellFormed(nm: Maintenance) {
    NoDuplicates(nm.additional) && nm.owner !in nm.additional
  }

  /** What a finished drain call rests on. */
  ghost predicate Justified(v: Versions, op: Op) {
    op.kind == Drain && op.pc.Done? && op.pc.result ==>
      op.pc.ver < |v| && v[op.pc.ver].Some? && Registered(v[op.pc.ver].value, op.who) && DrainDone(v[op.pc.ver].value)
  }

  ghost predicate Inv(s: System) {
    && (forall i :: 0 <= i < |s.versions| && s.versions[i].Some? ==> WellFormed(s.versions[i].value))
    && (forall id :: id in s.ops && s.ops[id].pc.Read? ==>
          var op := s.ops[id];
          op.pc.ver < |s.versions| && !NextAction(op.kind, op.who, s.versions[op.pc.ver]).Finish?)
    && (forall id :: id in s.ops ==> Justified(s.versions, s.ops[id]))
  }

  /** The requestor list before and after a step, when the same object is there before and after:
      untouched, or exactly the committing requestor added or removed. */
  ghost predicate ListStep(s: System, step: Step, s': System) {
    Current(s.versions).Some? && Current(s'.versions).Some? ==>
      var before, after := Current(s.versions).value, Current(s'.versions).value;
      && after.owner == before.owner
      && (after.additional != before.additional ==>
        && step.Commit? && step.id in s.ops
        && var who := s.ops[step.id].who;
        if s.ops[step.id].kind == Drain then
          who !in before.additional && who != before.owner && after.additional == before.additional + [who]
        else
          who in before.additional && after.additional == Without(before.additional, who))
  }

  lemma EffectKeeps(v: Versions, op: Op, finalizer: bool)
    requires op.pc.Read? && op.pc.ver < |v|
    requires forall i :: 0 <= i < |v| && v[i].Some? ==> WellFormed(v[i].value)
    ensures var (v', pc) := Effect(v, op, finalizer);
      && v <= v' && (forall i :: 0 <= i < |v'| && v'[i].Some? ==> WellFormed(v'[i].value))
      && Justified(v', op.(pc := pc)) && !pc.Read?
  {
    var (v', pc) := Effect(v, op, finalizer);
    if PatchAccepted(v, op.pc.ver) {
      WithoutExact(v[op.pc.ver].value.additional, op.who);
    }
  }

  lemma StepKeepsInv(s: System, step: Step)
    requires Inv(s) && Enabled(s, step)
    ensures Inv(Next(s, step)) && s.versions <= Next(s, step).versions
  {
    if step.Commit? {
      EffectKeeps(s.versions, s.ops[step.id], step.finalizer);
    }
  }

  lemma StepChangesList(s: System, step: Step)
    requires Inv(s) && Enabled(s, step)
    ensures ListStep(s, step, Next(s, step))
  {
  }

  /** Over every interleaving, with lagging reads and lost replies: no version of the object ever
      lists a requestor twice or lists its owner, every change of the list is the one requestor's
      own, and a drain call that returns true rests on a version in which its requestor was the
      owner or registered and the maintenance was ready. */
  lemma {:induction false} ListSafety(states: seq<System>, steps: seq<Step>, n: nat)
    requires Run(states, steps) && Inv(states[0]) && n <= |steps|
    ensures Inv(states[n])
    ensures forall i :: 0 <= i < n ==> ListStep(states[i], steps[i], states[i + 1])
  {
    if n > 0 {
      ListSafety(states, steps, n - 1);
      StepKeepsInv(states[n - 1], steps[n - 1]);
      StepChangesList(states[n - 1], steps[n - 1]);
    }
  }

  /** In particular of every run that starts without an object and without calls in flight. */
  lemma SafeFromStart(states: seq<System>, steps: seq<Step>, n: nat)
    requires Run(states, steps) && states[0] == INITIAL && n <= |steps|
    ensures Inv(states[n])
    ensures forall i :: 0 <= i < n ==> ListStep(states[i], steps[i], states[i + 1])
  {
    assert Inv(INITIAL);
    ListSafety(states, steps, n);
  }

  /** The step is the removal of `who` from the list on its own behalf. */
  ghost predicate Deregisters(s: System, step: Step, who: string) {
    step.Commit? && step.id in s.ops && s.ops[step.id].who == who && s.ops[step.id].kind == Complete
  }

  /** No registration is lost: as long as the object is there and the requestor does not withdraw,
      it stays registered, whatever everyone else does. */
  lemma {:induction false} NoLostRegistration(states: seq<System>, steps: seq<Step>, who: string, n: nat)
    requires Run(states, steps) && Inv(states[0]) && n <= |steps|
    requires forall i :: 0 <= i <= n ==> Current(states[i].versions).Some?
    requires forall i :: 0 <= i < n ==> !Deregisters(states[i], steps[i], who)
    requires Registered(Current(states[0].versions).value, who)
    ensures Registered(Current(states[n].versions).value, who)
  {
    if n > 0 {
      NoLostRegistration(states, steps, who, n - 1);
      ListSafety(states, steps, n - 1);
      StepKeepsInv(states[n - 1], steps[n - 1]);
      StepChangesList(states[n - 1], steps[n - 1]);
      var s, step := states[n - 1], steps[n - 1];
      if step.Commit? && s.ops[step.id].kind == Complete {
        WithoutExact(Current(s.versions).value.additional, s.ops[step.id].who);
      }
    }
  }

  /** Drain call `id` is past a read that found no object. */
  ghost predicate Creating(s: System, id: nat) {
    && id in s.ops && s.ops[id].kind == Drain
    && match s.ops[id].pc
       case Start => false
       case Read(ver) => ver < |s.versions| && s.versions[ver].None?
       case Done(result, _) => !result
       case Failed => true
  }

  /** In every interleaving, a drain call that found no object and set out to create it never reports
      the node drained, whether its creation won or lost the race and whatever became of the object
      meanwhile; to do so takes another call. */
  lemma {:induction false} CreatorNeverReportsDrained(states: seq<System>, steps: seq<Step>, id: nat, i: nat, n: nat)
    requires Run(states, steps) && Inv(states[0]) && i < n <= |steps|
    requires steps[i].Get? && steps[i].id == id
    requires states[i].ops[id].kind == Drain && states[i].versions[steps[i].ver].None?
    requires forall l :: i < l < n ==> !(steps[l].Begin? && steps[l].id == id)
    ensures Creating(states[n], id)
    ensures !(states[n].ops[id].pc.Done? && states[n].ops[id].pc.result)
  {
    assert Enabled(states[n - 1], steps[n - 1]) && states[n] == Next(states[n - 1], steps[n - 1]);
    if n > i + 1 {
      CreatorNeverReportsDrained(states, steps, id, i, n - 1);
      ListSafety(states, steps, n - 1);
      StepKeepsInv(states[n - 1], steps[n - 1]);
    }
  }
}
