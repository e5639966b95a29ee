/**
 The order in which a group is applied (src/db.rs:229, 246, 815-819): the order in which its calls arrived.

 Everything is said in terms of the steps of a run, so it does not depend on how the queue is kept.
 */
module GroupOrder {
  import opened Keys
  import opened GroupCommit

  /** Call `a` arrived before call `b`. */
  ghost predicate ArrivedBefore(steps: seq<Step>, a: Id, b: Id) {
    exists p, q :: 0 <= p < q < |steps| && steps[p] == Enqueue(a) && steps[q] == Enqueue(b)
  }

  ghost predicate InOrder(steps: seq<Step>, ids: seq<Id>) {
    forall i, j :: 0 <= i < j < |ids| ==> ArrivedBefore(steps, ids[i], ids[j])
  }

  /** Since the last drain. */
  ghost predicate ArrivedSince(steps: seq<Step>, id: Id) {
    exists p :: 0 <= p < |steps| && steps[p] == Enqueue(id) && forall d :: p < d < |steps| ==> !steps[d].Drain?
  }

  /** A leader's whole group, the part it has worked through included. */
  function GroupOf(p: Phase): seq<Id> {
    match p
    case Applying(taken, left) => taken + left
    case Completing(_, done, left) => done + left
    case _ => []
  }

  ghost predicate LogInOrder(s: State, steps: seq<Step>) {
    forall i, j ::
      0 <= i < j < |s.log| && s.log[i].owner.Some? && s.log[j].owner.Some?
      && s.log[i].owner.value in s.owner && s.log[j].owner.value in s.owner
      && s.owner[s.log[i].owner.value] == s.owner[s.log[j].owner.value]
      ==> ArrivedBefore(steps, s.log[i].owner.value, s.log[j].owner.value)
  }

  ghost predicate QueueInOrder(s: State, steps: seq<Step>) {
    && InOrder(steps, s.queue)
    && (forall id :: id in s.size ==> (id in s.queue <==> s.size[id] > 0 && ArrivedSince(steps, id)))
  }

  ghost predicate GroupsInOrder(s: State, steps: seq<Step>) {
    forall id :: id in s.phase ==> InOrder(steps, GroupOf(s.phase[id]))
  }

  ghost predicate Ordered(s: State, steps: seq<Step>) {
    QueueInOrder(s, steps) && GroupsInOrder(s, steps) && LogInOrder(s, steps)
  }

  // ----- one more step

  lemma StillBefore(steps: seq<Step>, step: Step, a: Id, b: Id)
    requires ArrivedBefore(steps, a, b)
    ensures ArrivedBefore(steps + [step], a, b)
  {
    var p, q :| 0 <= p < q < |steps| && steps[p] == Enqueue(a) && steps[q] == Enqueue(b);
    assert (steps + [step])[p] == Enqueue(a) && (steps + [step])[q] == Enqueue(b);
  }

  lemma StillInOrder(steps: seq<Step>, step: Step, ids: seq<Id>)
    requires InOrder(steps, ids)
    ensures InOrder(steps + [step], ids)
  {
    forall i, j | 0 <= i < j < |ids| ensures ArrivedBefore(steps + [step], ids[i], ids[j]) {
      StillBefore(steps, step, ids[i], ids[j]);
    }
  }

  lemma LastArrives(steps: seq<Step>, ids: seq<Id>, id: Id)
    requires InOrder(steps, ids) && forall x :: x in ids ==> ArrivedSince(steps, x)
    ensures InOrder(steps + [Enqueue(id)], ids + [id])
  {
    var after := steps + [Enqueue(id)];
    StillInOrder(steps, Enqueue(id), ids);
    forall i | 0 <= i < |ids| ensures ArrivedBefore(after, ids[i], id) {
      assert ids[i] in ids;
      var p :| 0 <= p < |steps| && steps[p] == Enqueue(ids[i]);
      assert after[p] == Enqueue(ids[i]) && after[|steps|] == Enqueue(id);
    }
  }

  lemma SinceSnoc(steps: seq<Step>, step: Step, id: Id)
    ensures ArrivedSince(steps + [step], id) <==> step == Enqueue(id) || (!step.Drain? && ArrivedSince(steps, id))
  {
    var after := steps + [step];
    if step == Enqueue(id) {
      assert after[|steps|] == Enqueue(id);
    }
    if !step.Drain? && ArrivedSince(steps, id) {
      var p :| 0 <= p < |steps| && steps[p] == Enqueue(id) && forall d :: p < d < |steps| ==> !steps[d].Drain?;
      assert after[p] == Enqueue(id);
    }
    if ArrivedSince(after, id) && step != Enqueue(id) {
      var p :| 0 <= p < |after| && after[p] == Enqueue(id) && forall d :: p < d < |after| ==> !after[d].Drain?;
      assert p < |steps| && steps[p] == Enqueue(id) && after[|steps|] == step;
      assert forall d :: p < d < |steps| ==> after[d] == steps[d];
    }
  }

  lemma QueueStep(s: State, steps: seq<Step>, step: Step)
    requires Inv(s) && Enabled(s, step) && QueueInOrder(s, steps)
    ensures QueueInOrder(Do(s, step), steps + [step])
  {
    var t := Do(s, step);
    hide Inv, InOrder, ArrivedSince, RangesOf, EndOf;
    KnownQueue(s);
    hide QueueOk;
    SameCalls(s, step);
    forall id | id in s.size ensures id in t.queue <==> s.size[id] > 0 && ArrivedSince(steps + [step], id) {
      SinceSnoc(steps, step, id);
    }
    if step.Enqueue? && s.size[step.id] > 0 {
      LastArrives(steps, s.queue, step.id);
    } else if step.Drain? {
      assert InOrder(steps + [step], []) by { EmptyInOrder(steps + [step]); }
    } else {
      StillInOrder(steps, step, s.queue);
    }
  }

  lemma EmptyInOrder(steps: seq<Step>)
    ensures InOrder(steps, [])
  {
  }

  lemma GroupsStep(s: State, steps: seq<Step>, step: Step)
    requires Enabled(s, step) && QueueInOrder(s, steps) && GroupsInOrder(s, steps)
    ensures GroupsInOrder(Do(s, step), steps + [step])
  {
    var t := Do(s, step);
    hide InOrder, ArrivedSince, RangesOf, EndOf;
    EmptyInOrder(steps);
    forall id | id in t.phase ensures InOrder(steps + [step], GroupOf(t.phase[id])) {
      GroupFrom(s, step, id);
      hide Enabled, Do, GroupOf;
      if id in s.phase { assert InOrder(steps, GroupOf(s.phase[id])); }
      StillInOrder(steps, step, GroupOf(t.phase[id]));
    }
  }

  /** A group is kept as it is, or is the queue just drained. */
  lemma GroupFrom(s: State, step: Step, id: Id)
    requires Enabled(s, step) && id in Do(s, step).phase
    ensures var g := GroupOf(Do(s, step).phase[id]);
            g == [] || g == s.queue || (id in s.phase && g == GroupOf(s.phase[id]))
  {
    hide RangesOf, EndOf;
    match step {
      case Take(x) => KeepsGroup(s.phase[x].taken, s.phase[x].left);
      case Complete(x) => KeepsGroup(s.phase[x].done, s.phase[x].left);
      case Apply(x, _) => assert s.phase[x].taken + [] == [] + s.phase[x].taken;
      case Drain(_) => assert [] + s.queue == s.queue;
      case _ =>
    }
  }

  lemma KeepsGroup(done: seq<Id>, left: seq<Id>)
    requires left != []
    ensures (done + [left[0]]) + left[1..] == done + left
  {
  }

  // ----- the log

  lemma LogStep(s: State, steps: seq<Step>, step: Step)
    requires Inv(s) && Enabled(s, step) && GroupsInOrder(s, steps) && LogInOrder(s, steps)
    ensures LogInOrder(Do(s, step), steps + [step])
  {
    var t := Do(s, step);
    hide Inv, ArrivedBefore, InOrder;
    forall i, j | 0 <= i < j < |t.log| && t.log[i].owner.Some? && t.log[j].owner.Some?
                  && t.log[i].owner.value in t.owner && t.log[j].owner.value in t.owner
                  && t.owner[t.log[i].owner.value] == t.owner[t.log[j].owner.value]
      ensures ArrivedBefore(steps + [step], t.log[i].owner.value, t.log[j].owner.value)
    {
      if step.Apply? && !step.fate.Refused? {
        AppliedPair(s, steps, step, i, j);
      } else {
        OtherPair(s, steps, step, i, j);
      }
      StillBefore(steps, step, t.log[i].owner.value, t.log[j].owner.value);
    }
  }

  /** Outside an application no owned range is added, and no owner of a range changes. */
  lemma OtherPair(s: State, steps: seq<Step>, step: Step, i: nat, j: nat)
    requires Inv(s) && Enabled(s, step) && LogInOrder(s, steps) && !(step.Apply? && !step.fate.Refused?)
    requires var t := Do(s, step);
             && i < j < |t.log| && t.log[i].owner.Some? && t.log[j].owner.Some?
             && t.log[i].owner.value in t.owner && t.log[j].owner.value in t.owner
             && t.owner[t.log[i].owner.value] == t.owner[t.log[j].owner.value]
    ensures ArrivedBefore(steps, Do(s, step).log[i].owner.value, Do(s, step).log[j].owner.value)
  {
    hide ArrivedBefore;
    KnownQueue(s);
    LoggedOwned(s);
    hide Inv;
  }

  lemma LoggedOwned(s: State)
    requires Inv(s)
    ensures forall i :: 0 <= i < |s.log| && s.log[i].owner.Some? ==>
              s.log[i].owner.value in s.owner && s.owner[s.log[i].owner.value] in s.decided
  {
    assert LogOk(s);
  }

  lemma AppliedPair(s: State, steps: seq<Step>, step: Step, i: nat, j: nat)
    requires Inv(s) && Enabled(s, step) && GroupsInOrder(s, steps) && LogInOrder(s, steps) && step.Apply? && !step.fate.Refused?
    requires var t := Do(s, step);
             && i < j < |t.log| && t.log[i].owner.Some? && t.log[j].owner.Some?
             && t.log[i].owner.value in t.owner && t.log[j].owner.value in t.owner
             && t.owner[t.log[i].owner.value] == t.owner[t.log[j].owner.value]
    ensures ArrivedBefore(steps, Do(s, step).log[i].owner.value, Do(s, step).log[j].owner.value)
  {
    var t, group, n := Do(s, step), s.phase[step.id].taken, |s.log|;
    NotLoggedYet(s, step);
    AppliedOwner(s, step, i);
    AppliedOwner(s, step, j);
    hide Inv, ArrivedBefore, Do, Enabled;
    if n <= i {
      assert InOrder(steps, GroupOf(s.phase[step.id]));
    }
  }

  /** A leader about to apply owns no range yet. */
  lemma NotLoggedYet(s: State, step: Step)
    requires Inv(s) && Enabled(s, step) && step.Apply? && !step.fate.Refused?
    ensures var group, t := s.phase[step.id].taken, Do(s, step);
            && GroupOf(s.phase[step.id]) == group && t.owner == s.owner
            && t.log == s.log + RangesOf(group, s.size, s.last)
            && (forall g :: g in group ==> g in s.owner && s.owner[g] == step.id)
            && (forall i :: 0 <= i < |s.log| && s.log[i].owner.Some? ==>
                  s.log[i].owner.value in s.owner && s.owner[s.log[i].owner.value] != step.id)
  {
    var group := s.phase[step.id].taken;
    KnownPhase(s, step.id);
    LoggedOwned(s);
    assert group + [] == group;
    hide Inv, RangesOf, EndOf;
  }

  lemma AppliedOwner(s: State, step: Step, i: nat)
    requires Inv(s) && Enabled(s, step) && step.Apply? && !step.fate.Refused? && i < |Do(s, step).log|
    ensures i < |s.log| ==> Do(s, step).log[i] == s.log[i]
    ensures |s.log| <= i ==>
              i - |s.log| < |s.phase[step.id].taken| && Do(s, step).log[i].owner == Some(s.phase[step.id].taken[i - |s.log|])
  {
    var group := s.phase[step.id].taken;
    NotLoggedYet(s, step);
    hide Inv, Do;
    if |s.log| <= i {
      RangeOwner(group, s.size, s.last, i - |s.log|);
    }
  }

  lemma RangeOwner(group: seq<Id>, size: map<Id, nat>, last: nat, i: nat)
    requires (forall g :: g in group ==> g in size) && i < |RangesOf(group, size, last)|
    ensures i < |group| && RangesOf(group, size, last)[i].owner == Some(group[i])
  {
    if group != [] {
      RangesAre(group, size, last, 0);
      RangesAre(group, size, last, i);
    }
  }

  // ----- runs

  lemma StartsOrdered(s: State)
    requires Starts(s)
    ensures Ordered(s, [])
  {
  }

  lemma {:induction false} RunOrdered(states: seq<State>, steps: seq<Step>, i: nat)
    requires IsRun(states, steps) && Starts(states[0]) && i < |states|
    ensures Ordered(states[i], steps[..i])
  {
    hide Enabled, Do, Starts, Inv, QueueInOrder, GroupsInOrder, LogInOrder;
    if i == 0 {
      assert steps[..0] == [];
      StartsOrdered(states[0]);
    } else {
      RunOrdered(states, steps, i - 1);
      RunInv(states, steps, i - 1);
      var s, before, step := states[i - 1], steps[..i - 1], steps[i - 1];
      QueueStep(s, before, step);
      GroupsStep(s, before, step);
      LogStep(s, before, step);
      assert before + [step] == steps[..i];
    }
  }

  lemma {:induction false} StaysArrived(states: seq<State>, steps: seq<Step>, i: nat, j: nat, id: Id)
    requires IsRun(states, steps) && Starts(states[0]) && i <= j < |states| && id in Arrived(states[i])
    ensures id in Arrived(states[j])
    decreases j - i
  {
    hide Enabled, Do, Starts, Inv, Arrived;
    if i < j {
      StaysArrived(states, steps, i, j - 1, id);
      RunInv(states, steps, j - 1);
      StepGrows(states[j - 1], steps[j - 1]);
    }
  }

  /** A call arrives once. */
  lemma ArrivesOnce(states: seq<State>, steps: seq<Step>, p: nat, q: nat, id: Id)
    requires IsRun(states, steps) && Starts(states[0]) && p < |steps| && q < |steps|
    requires steps[p] == Enqueue(id) && steps[q] == Enqueue(id)
    ensures p == q
  {
    var first, second := if p < q then p else q, if p < q then q else p;
    assert Enabled(states[first], steps[first]) && states[first + 1] == Do(states[first], steps[first]);
    assert Enabled(states[second], steps[second]);
    hide Starts, IsRun;
    if first < second {
      StaysArrived(states, steps, first + 1, second, id);
    }
  }

  /**
   A drain takes the requests that arrived since the drain before it, all of them, in the order of their arrival;
   and as long as its leader works on the group, the part already taken included, it stays in that order.
   */
  lemma GroupIsArrivals(states: seq<State>, steps: seq<Step>, i: nat, id: Id)
    requires IsRun(states, steps) && Starts(states[0]) && i < |steps|
    ensures steps[i] == Drain(id) ==>
              && id in states[i + 1].phase && states[i + 1].phase[id].Applying? && states[i + 1].phase[id].taken == []
              && forall g :: g in states[i].size ==>
                   (g in states[i + 1].phase[id].left <==> states[i].size[g] > 0 && ArrivedSince(steps[..i], g))
    ensures id in states[i].phase && states[i].phase[id].Applying? ==>
              InOrder(steps[..i], states[i].phase[id].taken + states[i].phase[id].left)
    ensures id in states[i].phase && states[i].phase[id].Completing? ==>
              InOrder(steps[..i], states[i].phase[id].done + states[i].phase[id].left)
  {
    hide ArrivedSince, InOrder, Starts;
    RunOrdered(states, steps, i);
    assert states[i + 1] == Do(states[i], steps[i]);
  }

  /**
   In every run, of two calls drained by one leader the one that arrived first has the lower sequence numbers,
   whenever both have been applied.
   */
  lemma AppliedInArrivalOrder(states: seq<State>, steps: seq<Step>, k: nat, p: nat, q: nat, a: Id, b: Id, i: nat, j: nat)
    requires IsRun(states, steps) && Starts(states[0]) && k < |states|
    requires p < q < |steps| && steps[p] == Enqueue(a) && steps[q] == Enqueue(b)
    requires a in states[k].owner && b in states[k].owner && states[k].owner[a] == states[k].owner[b]
    requires i < |states[k].log| && states[k].log[i].owner == Some(a)
    requires j < |states[k].log| && states[k].log[j].owner == Some(b)
    ensures i < j && states[k].log[i].start + states[k].log[i].len <= states[k].log[j].start
  {
    hide Starts, IsRun;
    var s := states[k];
    Shorter(states, steps, k);
    RunOrdered(states, steps, k);
    RangesPartition(states, steps, k);
    if j <= i {
      if a == b {
        ArrivesOnce(states, steps, p, q, a);
      } else {
        assert ArrivedBefore(steps[..k], b, a);
        var p', q' :| 0 <= p' < q' < |steps[..k]| && steps[..k][p'] == Enqueue(b) && steps[..k][q'] == Enqueue(a);
        ArrivesOnce(states, steps, p', q, b);
        ArrivesOnce(states, steps, q', p, a);
      }
      assert false;
    }
  }

  lemma Shorter(states: seq<State>, steps: seq<Step>, k: nat)
    requires IsRun(states, steps) && k < |states|
    ensures k <= |steps|
  {
  }
}
