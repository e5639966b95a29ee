/**
 What a write call's result says of its batch (src/db.rs:775-807).  A group is refused, applied, or applied with a
 failed flush at its end; in the last case every call of the group reports the error of the flush.
 */
module GroupOutcomes {
  import opened Keys
  import opened GroupCommit

  /** How the group of a leader ended in a run so far. */
  function FateOf(steps: seq<Step>, leader: Id): Option<Fate> {
    if steps == [] then None
    else
      var last := steps[|steps| - 1];
      if last.Apply? && last.id == leader then Some(last.fate) else FateOf(steps[..|steps| - 1], leader)
  }

  /** What is known of a drained request whose group ended like this, or has not yet. */
  ghost predicate OutcomeOf(s: State, g: Id, f: Option<Fate>) {
    && (InLog(s, g) <==> f == Some(Applied) || f == Some(FlushFailed))
    && (g in s.result ==> f.Some? && s.result[g] == f.value.Applied?)
    && (g in s.phase && s.phase[g].Returned? ==> f.Some? && s.phase[g].ok == f.value.Applied?)
  }

  ghost predicate LeaderOutcome(s: State, id: Id, f: Option<Fate>) {
    && (id in s.decided <==> f.Some?)
    && (id in s.phase && s.phase[id].Completing? ==> f.Some? && s.phase[id].ok == f.value.Applied?)
  }

  /** Log, results and returns agree with how the groups ended. */
  ghost predicate Outcomes(s: State, steps: seq<Step>) {
    && (forall id :: LeaderOutcome(s, id, FateOf(steps, id)))
    && (forall g :: g in s.owner ==> OutcomeOf(s, g, FateOf(steps, s.owner[g])))
  }

  lemma FateSnoc(steps: seq<Step>, step: Step, leader: Id)
    ensures FateOf(steps + [step], leader) == if step.Apply? && step.id == leader then Some(step.fate) else FateOf(steps, leader)
  {
    assert (steps + [step])[..|steps|] == steps;
  }

  lemma UndrainedNotLogged(s: State, g: Id)
    requires LogOk(s) && g !in s.owner
    ensures !InLog(s, g)
  {
    hide Contiguous;
  }

  lemma SameLogSame(s: State, t: State, g: Id)
    requires t.log == s.log && t.size == s.size
    ensures InLog(t, g) == InLog(s, g)
  {
  }

  /** Ranges added for a group are of its members. */
  lemma OnlyMembersLogged(s: State, t: State, group: seq<Id>, g: Id)
    requires forall x :: x in group ==> x in s.size
    requires t.size == s.size && t.log == s.log + RangesOf(group, s.size, s.last)
    requires g !in group
    ensures InLog(t, g) == InLog(s, g)
  {
    AppliedInLog(s, t, group);
    if InLog(t, g) {
      var r :| r in t.log && r == Range(Some(g), r.start, s.size[g]);
      var i :| 0 <= i < |t.log| && t.log[i] == r;
      if i >= |s.log| {
        RangesLength(group, s.size, s.last);
        RangesAre(group, s.size, s.last, i - |s.log|);
      }
      assert r in s.log;
    }
  }

  lemma {:induction false} RangesLength(group: seq<Id>, size: map<Id, nat>, last: nat)
    requires forall g :: g in group ==> g in size
    ensures |RangesOf(group, size, last)| == |group|
    decreases |group|
  {
    if group != [] { RangesLength(group[1..], size, last + size[group[0]]); }
  }

  // ----- every step keeps the outcomes

  /** What a step other than `Apply` leaves alone. */
  lemma QuietStep(s: State, step: Step)
    requires Enabled(s, step) && !step.Apply?
    ensures var t := Do(s, step);
            && t.size == s.size && t.decided == s.decided
            && (step.OtherCommit? || t.log == s.log)
            && (step.Drain? || t.owner == s.owner)
            && (step.Complete? || step.Return? || t.result == s.result)
            && (step.OtherCommit? ==> t.phase == s.phase && t.log == s.log + [Range(None, s.last + 1, step.len)])
            && (forall id :: id in s.phase && s.phase[id].Completing? && id in t.phase && t.phase[id].Completing? ==> t.phase[id].ok == s.phase[id].ok)
            && (forall id :: id in t.phase && t.phase[id].Completing? ==> id in s.phase && s.phase[id].Completing?)
            && (forall id :: id in t.phase && t.phase[id].Returned? ==>
                  id in s.phase && ((s.phase[id].Returned? && t.phase[id] == s.phase[id]) || (step.Enqueue? && step.id == id) || (step.Return? && step.id == id)))
  {
    hide RangesOf, EndOf;
  }

  lemma QuietLog(s: State, step: Step, g: Id)
    requires Enabled(s, step) && !step.Apply?
    ensures InLog(Do(s, step), g) == InLog(s, g)
  {
    QuietStep(s, step);
    var t := Do(s, step);
    hide Enabled, Do;
    if step.OtherCommit? {
      assert forall r :: r in s.log ==> r in t.log;
      assert forall r :: r in t.log ==> r in s.log || r == Range(None, s.last + 1, step.len);
    }
  }

  lemma QuietOutcome(s: State, steps: seq<Step>, step: Step, g: Id)
    requires Inv(s) && Outcomes(s, steps) && Enabled(s, step) && !step.Apply? && g in Do(s, step).owner
    ensures OutcomeOf(Do(s, step), g, FateOf(steps, Do(s, step).owner[g]))
  {
    hide Inv, InLog, FateOf, Outcomes, OutcomeOf, RangesOf, EndOf;
    QuietStep(s, step);
    match step {
      case Drain(id) => DrainOutcome(s, steps, id, g);
      case Complete(id) => CompleteOutcome(s, steps, id, g);
      case Return(id) => ReturnOutcome(s, steps, id, g);
      case _ => PlainOutcome(s, steps, step, g);
    }
  }

  lemma PlainOutcome(s: State, steps: seq<Step>, step: Step, g: Id)
    requires Inv(s) && Outcomes(s, steps) && Enabled(s, step) && g in s.owner
    requires !step.Apply? && !step.Drain? && !step.Complete? && !step.Return?
    ensures OutcomeOf(Do(s, step), g, FateOf(steps, s.owner[g]))
  {
    hide Inv, InLog, FateOf;
    QuietLog(s, step, g);
    QuietStep(s, step);
    KnownQueue(s);
    KnownPhase(s, g);
    assert step.Enqueue? ==> step.id != g;
    assert OutcomeOf(s, g, FateOf(steps, s.owner[g]));
    hide Do, Enabled, QueueOk;
  }

  lemma ReturnOutcome(s: State, steps: seq<Step>, id: Id, g: Id)
    requires Inv(s) && Outcomes(s, steps) && Enabled(s, Return(id)) && g in s.owner
    ensures OutcomeOf(Do(s, Return(id)), g, FateOf(steps, s.owner[g]))
  {
    hide Inv, InLog, FateOf;
    SameLogSame(s, Do(s, Return(id)), g);
    assert OutcomeOf(s, g, FateOf(steps, s.owner[g]));
  }

  lemma DrainOutcome(s: State, steps: seq<Step>, id: Id, g: Id)
    requires Inv(s) && Outcomes(s, steps) && Enabled(s, Drain(id)) && g in Do(s, Drain(id)).owner
    ensures OutcomeOf(Do(s, Drain(id)), g, FateOf(steps, Do(s, Drain(id)).owner[g]))
  {
    hide Inv, FateOf;
    var t := Do(s, Drain(id));
    KnownQueue(s);
    KnownLog(s);
    DrainFacts(s, t, id);
    SameLogSame(s, t, g);
    if g in s.queue {
      QueuedFacts(s, id, g);
      QueuedFacts(s, id, id);
      UndrainedNotLogged(s, g);
      hide Do, QueueOk, Enabled, InLog, LogOk;
      assert LeaderOutcome(s, id, FateOf(steps, id));
    } else {
      OwnerStays(s, t, id, g);
      hide Do, QueueOk, Enabled, InLog, LogOk;
      assert OutcomeOf(s, g, FateOf(steps, s.owner[g]));
    }
  }

  lemma CompleteOutcome(s: State, steps: seq<Step>, id: Id, g: Id)
    requires Inv(s) && Outcomes(s, steps) && Enabled(s, Complete(id)) && g in s.owner
    ensures OutcomeOf(Do(s, Complete(id)), g, FateOf(steps, s.owner[g]))
  {
    hide Inv, InLog, FateOf;
    var t, p := Do(s, Complete(id)), s.phase[id];
    SameLogSame(s, t, g);
    KnownPhase(s, id);
    assert p.left[0] in p.done + p.left;
    assert LeaderOutcome(s, id, FateOf(steps, id));
    assert OutcomeOf(s, g, FateOf(steps, s.owner[g]));
  }

  lemma ApplyOutcome(s: State, steps: seq<Step>, id: Id, fate: Fate, g: Id)
    requires Inv(s) && Outcomes(s, steps) && Enabled(s, Apply(id, fate)) && g in s.owner
    ensures OutcomeOf(Do(s, Apply(id, fate)), g, if s.owner[g] == id then Some(fate) else FateOf(steps, s.owner[g]))
  {
    hide Inv, FateOf;
    var t, group := Do(s, Apply(id, fate)), s.phase[id].taken;
    ApplyPhases(s, t, id, fate);
    KnownPhase(s, id);
    KnownDrained(s, g);
    KnownPhase(s, g);
    assert group + [] == group;
    assert LeaderOutcome(s, id, FateOf(steps, id)) && OutcomeOf(s, g, FateOf(steps, s.owner[g]));
    assert s.owner[g] == id <==> g in group;
    assert s.owner[g] == id ==> g !in s.completed;
    ApplyLogged(s, t, id, fate, g);
    hide Do, Enabled, InLog, DrainedOk, LogOk;
  }

  lemma ApplyLogged(s: State, t: State, id: Id, fate: Fate, g: Id)
    requires Enabled(s, Apply(id, fate)) && t == Do(s, Apply(id, fate))
    ensures InLog(t, g) <==> InLog(s, g) || (!fate.Refused? && g in s.phase[id].taken)
  {
    var group := s.phase[id].taken;
    hide InLog;
    if fate.Refused? {
      SameLogSame(s, t, g);
    } else if g in group {
      AppliedInLog(s, t, group);
    } else {
      OnlyMembersLogged(s, t, group, g);
    }
  }

  lemma LeaderStep(s: State, steps: seq<Step>, step: Step, id: Id)
    requires Inv(s) && Outcomes(s, steps) && Enabled(s, step)
    ensures LeaderOutcome(Do(s, step), id, FateOf(steps + [step], id))
  {
    hide Inv, FateOf, OutcomeOf;
    FateSnoc(steps, step, id);
    assert LeaderOutcome(s, id, FateOf(steps, id));
    if step.Apply? {
      ApplyPhases(s, Do(s, step), step.id, step.fate);
    } else {
      QuietStep(s, step);
    }
    hide Enabled, Do;
  }

  lemma StepOutcomes(s: State, steps: seq<Step>, step: Step)
    requires Inv(s) && Outcomes(s, steps) && Enabled(s, step)
    ensures Outcomes(Do(s, step), steps + [step])
  {
    hide Inv, FateOf, OutcomeOf, LeaderOutcome, Enabled, Do;
    var t := Do(s, step);
    forall id ensures LeaderOutcome(t, id, FateOf(steps + [step], id)) {
      LeaderStep(s, steps, step, id);
    }
    forall g | g in t.owner ensures OutcomeOf(t, g, FateOf(steps + [step], t.owner[g])) {
      FateSnoc(steps, step, t.owner[g]);
      if step.Apply? {
        ApplyPhases(s, t, step.id, step.fate);
        ApplyOutcome(s, steps, step.id, step.fate, g);
      } else {
        QuietOutcome(s, steps, step, g);
      }
    }
  }

  lemma StartOutcomes(s: State)
    requires Starts(s)
    ensures Outcomes(s, [])
  {
  }

  lemma {:induction false} RunOutcomes(states: seq<State>, steps: seq<Step>, i: nat)
    requires IsRun(states, steps) && Starts(states[0]) && i < |states|
    ensures Outcomes(states[i], steps[..i])
  {
    hide Outcomes, Enabled, Do, Starts, Inv;
    if i == 0 {
      assert steps[..0] == [];
      StartOutcomes(states[0]);
    } else {
      RunOutcomes(states, steps, i - 1);
      RunInv(states, steps, i - 1);
      StepOutcomes(states[i - 1], steps[..i - 1], steps[i - 1]);
      assert steps[..i - 1] + [steps[i - 1]] == steps[..i];
    }
  }

  // ----- a group ends once

  lemma {:induction false} FateIsAStep(steps: seq<Step>, leader: Id) returns (j: nat)
    requires FateOf(steps, leader).Some?
    ensures j < |steps| && steps[j] == Apply(leader, FateOf(steps, leader).value)
  {
    var n := |steps| - 1;
    if steps[n].Apply? && steps[n].id == leader {
      j := n;
    } else {
      j := FateIsAStep(steps[..n], leader);
    }
  }

  lemma AppliesOnce(s: State, steps: seq<Step>, step: Step, leader: Id)
    requires Inv(s) && Outcomes(s, steps) && Enabled(s, step) && FateOf(steps, leader).Some?
    ensures FateOf(steps + [step], leader) == FateOf(steps, leader)
  {
    hide Inv, FateOf, OutcomeOf;
    FateSnoc(steps, step, leader);
    assert LeaderOutcome(s, leader, FateOf(steps, leader));
    if step.Apply? { KnownPhase(s, step.id); }
  }

  lemma {:induction false} FateStays(states: seq<State>, steps: seq<Step>, j: nat, i: nat)
    requires IsRun(states, steps) && Starts(states[0]) && j < i < |states| && steps[j].Apply?
    ensures FateOf(steps[..i], steps[j].id) == Some(steps[j].fate)
  {
    hide Outcomes, Enabled, Do, Starts, Inv, FateOf;
    assert steps[..i] == steps[..i - 1] + [steps[i - 1]];
    if j == i - 1 {
      FateSnoc(steps[..j], steps[j], steps[j].id);
    } else {
      FateStays(states, steps, j, i - 1);
      RunInv(states, steps, i - 1);
      RunOutcomes(states, steps, i - 1);
      AppliesOnce(states[i - 1], steps[..i - 1], steps[i - 1], steps[j].id);
    }
  }

  // ----- what an error says

  /**
   In every run, a call that returned an error has its batch in the log if and only if its group was applied and
   the flush at the end failed; a call that returned Ok and wrote something has it there always.
   */
  lemma ErrorAppliedIff(states: seq<State>, steps: seq<Step>, i: nat, id: Id)
    requires IsRun(states, steps) && Starts(states[0]) && i < |states|
    requires id in states[i].phase && states[i].phase[id] == Returned(false)
    ensures id in states[i].owner
    ensures InLog(states[i], id) <==>
            exists j :: 0 <= j < i && steps[j] == Apply(states[i].owner[id], FlushFailed)
    ensures !InLog(states[i], id) <==>
            exists j :: 0 <= j < i && steps[j] == Apply(states[i].owner[id], Refused)
  {
    hide Enabled, Do, Starts, Inv, FateOf, InLog;
    var s := states[i];
    RunInv(states, steps, i);
    RunOutcomes(states, steps, i);
    KnownPhase(s, id);
    assert OutcomeOf(s, id, FateOf(steps[..i], s.owner[id]));
    var k := FateIsAStep(steps[..i], s.owner[id]);
    forall j | 0 <= j < i && steps[j].Apply? && steps[j].id == s.owner[id] ensures FateOf(steps[..i], s.owner[id]) == Some(steps[j].fate) {
      FateStays(states, steps, j, i);
    }
    assert steps[k] == Apply(s.owner[id], FateOf(steps[..i], s.owner[id]).value);
  }

  // ----- one call shows it

  /** One call with one record, alone; its flush fails. */
  function Alone(phase: Phase, queue: seq<Id>, taken: bool, decided: bool, completed: bool, finished: bool, result: map<Id, bool>): State {
    State(map[0 := 1], map[0 := phase], queue, if taken then {0} else {}, result,
          if phase.Fresh? || phase.Leading? then map[] else map[0 := 0],
          if decided then {0} else {}, if completed then {0} else {}, if finished then {0} else {},
          if decided then [Range(Some(0), 1, 1)] else [], 0, if decided then 1 else 0)
  }

  lemma AloneQueued()
    ensures Init(map[0 := 1], 0) == Alone(Fresh, [], false, false, false, false, map[])
    ensures var s := Alone(Fresh, [], false, false, false, false, map[]);
            Enabled(s, Enqueue(0)) && Do(s, Enqueue(0)) == Alone(Leading, [0], false, false, false, false, map[])
    ensures var s := Alone(Leading, [0], false, false, false, false, map[]);
            Enabled(s, Drain(0)) && Do(s, Drain(0)) == Alone(Applying([], [0]), [], false, false, false, false, map[])
  {
    assert Init(map[0 := 1], 0).phase == map[0 := Fresh];
  }

  lemma OneLeft()
    ensures var one: seq<Id>, none: seq<Id> := [0], [];
            one[1..] == none && none + [0] == one
  {
  }

  lemma AloneTaken()
    ensures var s := Alone(Applying([], [0]), [], false, false, false, false, map[]);
            Enabled(s, Take(0)) && Do(s, Take(0)) == Alone(Applying([0], []), [], true, false, false, false, map[])
  {
    OneLeft();
  }

  lemma AloneApplied()
    ensures var s := Alone(Applying([0], []), [], true, false, false, false, map[]);
            && Enabled(s, Apply(0, FlushFailed))
            && Do(s, Apply(0, FlushFailed)) == Alone(Completing(false, [], [0]), [], true, true, false, false, map[])
  {
    OneLeft();
    var one: seq<Id>, none: seq<Id> := [0], [];
    assert RangesOf(none, map[0 := 1], 1) == [] && EndOf(none, map[0 := 1], 1) == 1;
    assert RangesOf(one, map[0 := 1], 0) == [Range(Some(0), 1, 1)] && EndOf(one, map[0 := 1], 0) == 1;
  }

  lemma AloneCompleted()
    ensures var s := Alone(Completing(false, [], [0]), [], true, true, false, false, map[]);
            Enabled(s, Complete(0)) && Do(s, Complete(0)) == Alone(Completing(false, [0], []), [], true, true, true, false, map[0 := false])
    ensures var s := Alone(Completing(false, [0], []), [], true, true, true, false, map[0 := false]);
            Enabled(s, Finish(0)) && Do(s, Finish(0)) == Alone(Waiting, [], true, true, true, true, map[0 := false])
  {
    OneLeft();
  }

  lemma AloneReturned()
    ensures var s := Alone(Waiting, [], true, true, true, true, map[0 := false]);
            Enabled(s, Return(0)) && Do(s, Return(0)) == Alone(Returned(false), [], true, true, true, true, map[])
  {
    var failed: map<Id, bool> := map[0 := false];
    assert failed - {0} == map[];
  }

  /** A run from the start in which a call returns an error although its batch is applied. */
  lemma ErrorMayBeApplied() returns (states: seq<State>, steps: seq<Step>)
    ensures IsRun(states, steps) && Starts(states[0])
    ensures states[|steps|].phase == map[0 := Returned(false)] && InLog(states[|steps|], 0)
  {
    AloneQueued();
    AloneTaken();
    AloneApplied();
    AloneCompleted();
    AloneReturned();
    AloneLogged();
    hide Enabled, Do, Alone, InLog, Init;
    var none: map<Id, bool>, failed: map<Id, bool> := map[], map[0 := false];
    states := [
      Alone(Fresh, [], false, false, false, false, none),
      Alone(Leading, [0], false, false, false, false, none),
      Alone(Applying([], [0]), [], false, false, false, false, none),
      Alone(Applying([0], []), [], true, false, false, false, none),
      Alone(Completing(false, [], [0]), [], true, true, false, false, none),
      Alone(Completing(false, [0], []), [], true, true, true, false, failed),
      Alone(Waiting, [], true, true, true, true, failed),
      Alone(Returned(false), [], true, true, true, true, none)];
    steps := [Enqueue(0), Drain(0), Take(0), Apply(0, FlushFailed), Complete(0), Finish(0), Return(0)];
    assert states[0] == Init(map[0 := 1], 0);
  }

  lemma AloneLogged()
    ensures var s := Alone(Returned(false), [], true, true, true, true, map[]);
            s.phase == map[0 := Returned(false)] && InLog(s, 0)
  {
    var s := Alone(Returned(false), [], true, true, true, true, map[]);
    assert s.log[0] in s.log;
  }
}
