/** When a requestor's completion call may return true, and what it can rely on then. */
module DrainCompletion {
  import opened Objects
  import opened DrainProtocol

  predicate Completing(s: System, id: nat) {
    id in s.ops && s.ops[id].kind == Complete && Active(s.ops[id])
  }

  /** No requestor has two completions in flight on the node; drains may overlap anything. */
  ghost predicate OneCompletion(s: System) {
    forall i, j :: Completing(s, i) && Completing(s, j) && i != j ==> s.ops[i].who != s.ops[j].who
  }

  /** A completion reads the current version; a drain may read any. */
  predicate CurrentRead(s: System, step: Step) {
    step.Get? && Completing(s, step.id) ==> step.ver == |s.versions| - 1
  }

  /** The discipline under which completion is safe. */
  ghost predicate Disciplined(states: seq<System>, steps: seq<Step>) {
    Run(states, steps) && forall i :: 0 <= i < |steps| ==> OneCompletion(states[i]) && CurrentRead(states[i], steps[i])
  }

  ghost predicate OwnsLive(v: Versions, who: string) {
    Current(v).Some? && Current(v).value.owner == who && !Current(v).value.terminating
  }

  predicate AboutToDelete(s: System, id: nat)
    requires id in s.ops
  {
    var op := s.ops[id];
    op.pc.Read? && op.pc.ver < |s.versions| && NextAction(op.kind, op.who, s.versions[op.pc.ver]).DeleteOwn?
  }

  /** A pending delete is always about the requestor's own, live object. */
  ghost predicate DeletesOwn(s: System) {
    forall id :: id in s.ops && AboutToDelete(s, id) ==> OwnsLive(s.versions, s.ops[id].who)
  }

  lemma OthersLeaveOwner(s: System, step: Step, id: nat)
    requires Inv(s) && Enabled(s, step) && OneCompletion(s) && DeletesOwn(s)
    requires Completing(s, id) && OwnsLive(s.versions, s.ops[id].who)
    requires step.Commit? ==> step.id != id
    ensures OwnsLive(Next(s, step).versions, s.ops[id].who)
  {
  }

  lemma StepKeepsDeletesOwn(s: System, step: Step)
    requires Inv(s) && Enabled(s, step) && OneCompletion(s) && CurrentRead(s, step) && DeletesOwn(s)
    ensures DeletesOwn(Next(s, step))
  {
    var s' := Next(s, step);
    StepKeepsInv(s, step);
    forall id | id in s'.ops && AboutToDelete(s', id) ensures OwnsLive(s'.versions, s'.ops[id].who) {
      if !(step.Get? && step.id == id) {
        assert s'.ops[id] == s.ops[id] && AboutToDelete(s, id);
        OthersLeaveOwner(s, step, id);
      }
    }
  }

  lemma {:induction false} DisciplineKeeps(states: seq<System>, steps: seq<Step>, n: nat)
    requires Disciplined(states, steps) && Inv(states[0]) && DeletesOwn(states[0]) && n <= |steps|
    ensures Inv(states[n]) && DeletesOwn(states[n])
  {
    if n > 0 {
      DisciplineKeeps(states, steps, n - 1);
      StepKeepsInv(states[n - 1], steps[n - 1]);
      StepKeepsDeletesOwn(states[n - 1], steps[n - 1]);
    }
  }

  /** The step decides that the completion call `id` returns true. */
  ghost predicate Completes(s: System, step: Step, s': System, id: nat) {
    && Completing(s, id)
    && id in s'.ops && s'.ops[id].pc.Done? && s'.ops[id].pc.result
    && (step.Get? || step.Commit?) && step.id == id
  }

  /** In every disciplined run, at the API call that lets a completion return true the object is
      gone, or it is the requestor's own and terminating; so nobody completes while another
      requestor's object exists, and the requestor is in no list. If that call is the delete, it hit
      the requestor's own live object. */
  lemma CompletionPoint(states: seq<System>, steps: seq<Step>, n: nat, id: nat)
    requires Disciplined(states, steps) && Inv(states[0]) && DeletesOwn(states[0]) && n < |steps|
    requires Completes(states[n], steps[n], states[n + 1], id)
    ensures
      var now, who := Current(states[n + 1].versions), states[n].ops[id].who;
      now.None? || (now.value.owner == who && now.value.terminating && who !in now.value.additional)
    ensures steps[n].Commit? ==> OwnsLive(states[n].versions, states[n].ops[id].who)
  {
    DisciplineKeeps(states, steps, n);
    DisciplineKeeps(states, steps, n + 1);
    var s, step := states[n], steps[n];
    assert Enabled(s, step) && states[n + 1] == Next(s, step);
    if step.Commit? {
      assert s.ops[id].pc.ver < |s.versions|;
      assert AboutToDelete(s, id) ==> OwnsLive(s.versions, s.ops[id].who);
    }
  }

  /** The step decides the completion call `id`, whatever its answer. */
  ghost predicate Decides(s: System, step: Step, s': System, id: nat) {
    && Completing(s, id) && id in s'.ops && s'.ops[id].pc.Done?
    && (step.Get? || step.Commit?) && step.id == id
  }

  /** In every disciplined run a completion that is decided, whatever it answers, leaves the requestor
      out of the list: it was not in it, or it has just withdrawn. */
  lemma CompletionWithdraws(states: seq<System>, steps: seq<Step>, n: nat, id: nat)
    requires Disciplined(states, steps) && Inv(states[0]) && DeletesOwn(states[0]) && n < |steps|
    requires Decides(states[n], steps[n], states[n + 1], id)
    ensures
      var now := Current(states[n + 1].versions);
      now.Some? ==> states[n].ops[id].who !in now.value.additional
  {
    DisciplineKeeps(states, steps, n);
    DisciplineKeeps(states, steps, n + 1);
    var s, step := states[n], steps[n];
    assert Enabled(s, step) && states[n + 1] == Next(s, step);
    if step.Commit? {
      assert s.ops[id].pc.ver < |s.versions|;
      assert AboutToDelete(s, id) ==> OwnsLive(s.versions, s.ops[id].who);
      if Current(s.versions).Some? {
        WithoutExact(Current(s.versions).value.additional, s.ops[id].who);
      }
    }
  }

  /** The requestor has nothing at stake in the object that is there, if there is one. */
  ghost predicate Released(v: Versions, who: string) {
    Current(v).Some? ==>
      var nm := Current(v).value; who !in nm.additional && (nm.owner == who ==> nm.terminating)
  }

  ghost predicate NotDraining(s: System, who: string) {
    forall id :: id in s.ops && Active(s.ops[id]) && s.ops[id].kind == Drain ==> s.ops[id].who != who
  }

  /** What was true at that point stays true for as long as the requestor has no drain in flight. */
  lemma {:induction false} ReleasedStays(states: seq<System>, steps: seq<Step>, who: string, n: nat)
    requires Run(states, steps) && Inv(states[0]) && n <= |steps|
    requires forall i :: 0 <= i < n ==> NotDraining(states[i], who)
    requires Released(states[0].versions, who)
    ensures Released(states[n].versions, who)
  {
    if n > 0 {
      ReleasedStays(states, steps, who, n - 1);
      ListSafety(states, steps, n - 1);
      var s, step := states[n - 1], steps[n - 1];
      StepKeepsInv(s, step);
      StepChangesList(s, step);
      if step.Commit? {
        if Current(s.versions).Some? {
          WithoutExact(Current(s.versions).value.additional, s.ops[step.id].who);
        }
      }
    }
  }

  // ---- why each part of the discipline is there ---------------------------------------------

  lemma RunConcat(states: seq<System>, steps: seq<Step>, states': seq<System>, steps': seq<Step>)
    requires Run(states, steps) && Run(states', steps') && states[|steps|] == states'[0]
    ensures Run(states + states'[1..], steps + steps')
  {
    var all, moves := states + states'[1..], steps + steps';
    forall i | 0 <= i < |moves| ensures Enabled(all[i], moves[i]) && all[i + 1] == Next(all[i], moves[i]) {
      if i >= |steps| {
        assert all[i] == states'[i - |steps|] && moves[i] == steps'[i - |steps|];
      }
    }
  }

  const A_DRAIN := Op("A", Drain, Done(false, 1))
  const A_LATE := Op("A", Complete, Read(1))
  const A_FIRST := Op("A", Complete, Done(true, 2))
  const GONE: Versions := [None, Some(Fresh("A")), None]

  const CREATED := System([None, Some(Fresh("A"))], map[0 := A_DRAIN])
  const OVERLAP := CREATED.(ops := map[0 := A_DRAIN, 1 := A_LATE, 2 := A_LATE])

  /** A creates its object. */
  lemma Creation() returns (states: seq<System>, steps: seq<Step>)
    ensures Run(states, steps) && |steps| == 3 && states[0] == INITIAL && states[3] == CREATED
    ensures forall i, id :: 0 <= i < |steps| ==> !Completing(states[i], id)
  {
    var s1 := System([None], map[0 := Op("A", Drain, Start)]);
    var s2 := System([None], map[0 := Op("A", Drain, Read(0))]);
    steps := [Begin(0, "A", Drain), Get(0, 0), Commit(0, true, true)];
    assert Next(INITIAL, steps[0]) == s1;
    assert Next(s1, steps[1]) == s2;
    assert Next(s2, steps[2]) == CREATED;
    states := [INITIAL, s1, s2, CREATED];
  }

  /** Two completions of A read it. */
  lemma TwoReads() returns (states: seq<System>, steps: seq<Step>)
    ensures Run(states, steps) && |steps| == 4 && states[0] == CREATED && states[4] == OVERLAP
    ensures forall i :: 0 <= i < |steps| ==> CurrentRead(states[i], steps[i])
  {
    var start := Op("A", Complete, Start);
    var s1 := CREATED.(ops := map[0 := A_DRAIN, 1 := start]);
    var s2 := CREATED.(ops := map[0 := A_DRAIN, 1 := start, 2 := start]);
    var s3 := CREATED.(ops := map[0 := A_DRAIN, 1 := A_LATE, 2 := start]);
    steps := [Begin(1, "A", Complete), Begin(2, "A", Complete), Get(1, 1), Get(2, 1)];
    assert Next(CREATED, steps[0]) == s1;
    assert Next(s1, steps[1]) == s2;
    assert Next(s2, steps[2]) == s3;
    assert Next(s3, steps[3]) == OVERLAP;
    states := [CREATED, s1, s2, s3, OVERLAP];
  }

  /** One completion deletes A's object, B creates its own, the other completion deletes that one. */
  lemma TwoDeletes() returns (states: seq<System>, steps: seq<Step>)
    ensures Run(states, steps) && |steps| == 5 && states[0] == OVERLAP
    ensures forall i :: 0 <= i < |steps| ==> CurrentRead(states[i], steps[i])
    ensures Completes(states[4], steps[4], states[5], 2) && states[4].ops[2].who == "A"
    ensures OwnsLive(states[4].versions, "B") && Current(states[5].versions) == Some(Fresh("B").(terminating := true))
  {
    var s1 := System(GONE, map[0 := A_DRAIN, 1 := A_FIRST, 2 := A_LATE]);
    var s2 := System(GONE, map[0 := A_DRAIN, 1 := A_FIRST, 2 := A_LATE, 3 := Op("B", Drain, Start)]);
    var s3 := System(GONE, map[0 := A_DRAIN, 1 := A_FIRST, 2 := A_LATE, 3 := Op("B", Drain, Read(2))]);
    var s4 := System(GONE + [Some(Fresh("B"))],
                     map[0 := A_DRAIN, 1 := A_FIRST, 2 := A_LATE, 3 := Op("B", Drain, Done(false, 3))]);
    steps := [Commit(1, true, false), Begin(3, "B", Drain), Get(3, 2), Commit(3, true, true), Commit(2, true, true)];
    assert Next(OVERLAP, steps[0]) == s1;
    assert Next(s1, steps[1]) == s2;
    assert Next(s2, steps[2]) == s3;
    assert Next(s3, steps[3]) == s4;
    states := [OVERLAP, s1, s2, s3, s4, Next(s4, steps[4])];
  }

  /** With overlapping completions and current reads: A's second completion deletes B's live object
      and reports success on it. */
  lemma OverlapDeletesForeignObject() returns (states: seq<System>, steps: seq<Step>)
    ensures Run(states, steps) && states[0] == INITIAL && |steps| == 12
    ensures forall i :: 0 <= i < |steps| ==> CurrentRead(states[i], steps[i])
    ensures Completes(states[11], steps[11], states[12], 2) && states[11].ops[2].who == "A"
    ensures OwnsLive(states[11].versions, "B") && Current(states[12].versions) == Some(Fresh("B").(terminating := true))
  {
    var states1, steps1 := Creation();
    var states2, steps2 := TwoReads();
    var states3, steps3 := TwoDeletes();
    RunConcat(states2, steps2, states3, steps3);
    RunConcat(states1, steps1, states2 + states3[1..], steps2 + steps3);
    states, steps := states1 + (states2 + states3[1..])[1..], steps1 + (steps2 + steps3);
    forall i | 0 <= i < |steps| ensures CurrentRead(states[i], steps[i]) {
      if 3 <= i < 7 {
        assert states[i] == states2[i - 3] && steps[i] == steps2[i - 3];
      } else if i >= 7 {
        assert states[i] == states3[i - 7] && steps[i] == steps3[i - 7];
      }
    }
    assert states[11] == states3[4] && states[12] == states3[5];
  }

  /** With a lagging completion read and no overlap: A's completion succeeds while A's own object is
      live. */
  lemma LaggingReadCompletesEarly() returns (states: seq<System>, steps: seq<Step>)
    ensures Run(states, steps) && states[0] == INITIAL && |steps| == 5
    ensures forall i :: 0 <= i < |steps| ==> OneCompletion(states[i])
    ensures Completes(states[4], steps[4], states[5], 1) && states[4].ops[1].who == "A"
    ensures OwnsLive(states[5].versions, "A")
  {
    var states1, steps1 := Creation();
    var begun := CREATED.(ops := map[0 := A_DRAIN, 1 := Op("A", Complete, Start)]);
    var done := CREATED.(ops := map[0 := A_DRAIN, 1 := Op("A", Complete, Done(true, 0))]);
    assert Next(CREATED, Begin(1, "A", Complete)) == begun;
    assert Next(begun, Get(1, 0)) == done;
    var states2, steps2 := [CREATED, begun, done], [Begin(1, "A", Complete), Get(1, 0)];
    RunConcat(states1, steps1, states2, steps2);
    states, steps := states1 + states2[1..], steps1 + steps2;
    assert states[3] == CREATED && states[4] == begun && states[5] == done;
  }

  const A_DONE := System([None], map[0 := Op("A", Complete, Done(true, 0))])

  /** B creates its object after A's completion was decided. */
  lemma LaterCreation() returns (states: seq<System>, steps: seq<Step>)
    ensures Run(states, steps) && |steps| == 3 && states[0] == A_DONE
    ensures forall i, id :: 0 <= i < |steps| ==> !Completing(states[i], id)
    ensures OwnsLive(states[3].versions, "B") && Released(states[3].versions, "A")
  {
    var a := A_DONE.ops[0];
    var s1 := System([None], map[0 := a, 1 := Op("B", Drain, Start)]);
    var s2 := System([None], map[0 := a, 1 := Op("B", Drain, Read(0))]);
    var s3 := System([None, Some(Fresh("B"))], map[0 := a, 1 := Op("B", Drain, Done(false, 1))]);
    steps := [Begin(1, "B", Drain), Get(1, 0), Commit(1, true, true)];
    assert Next(A_DONE, steps[0]) == s1;
    assert Next(s1, steps[1]) == s2;
    assert Next(s2, steps[2]) == s3;
    states := [A_DONE, s1, s2, s3];
  }

  /** Even in a disciplined run, another requestor may create the object between the deciding read
      and the return: A's completion is decided at step 1, and B's live object is there at the end.
      What A keeps is that it is released. */
  lemma CompletionDoesNotExcludeOthers() returns (states: seq<System>, steps: seq<Step>)
    ensures Disciplined(states, steps) && states[0] == INITIAL && |steps| == 5
    ensures Completes(states[1], steps[1], states[2], 0) && states[1].ops[0].who == "A"
    ensures OwnsLive(states[5].versions, "B") && Released(states[5].versions, "A")
  {
    var begun := System([None], map[0 := Op("A", Complete, Start)]);
    assert Next(INITIAL, Begin(0, "A", Complete)) == begun;
    assert Next(begun, Get(0, 0)) == A_DONE;
    var states1, steps1 := [INITIAL, begun, A_DONE], [Begin(0, "A", Complete), Get(0, 0)];
    var states2, steps2 := LaterCreation();
    RunConcat(states1, steps1, states2, steps2);
    states, steps := states1 + states2[1..], steps1 + steps2;
    forall i | 0 <= i < |steps| ensures OneCompletion(states[i]) && CurrentRead(states[i], steps[i]) {
      if i >= 2 {
        assert states[i] == states2[i - 2] && steps[i] == steps2[i - 2];
      }
    }
    assert states[5] == states2[3];
  }
}
