/**
 The group-commit protocol (src/db.rs:69-118, 214-253, 775-852) as interleaved steps of write calls.

 A call pushes its request; the one that finds the queue empty leads, drains the queue, takes the
 batches, applies them under the state lock and completes every request of its group.  Several
 leaders may have drained groups at once and apply them in any order; transaction commits take
 sequence numbers in between.
 */
module GroupCommit {
  import opened Keys

  type Id = nat

  /** Where a write call is.  A leader's group is the part it has worked through plus the part left. */
  datatype Phase =
    | Fresh
    | Following
    | Leading
    | Applying(taken: seq<Id>, left: seq<Id>)
    | Completing(ok: bool, done: seq<Id>, left: seq<Id>)
    | Waiting
    | Returned(ok: bool)

  /** A block of consecutive sequence numbers; a commit outside the queue has no owner. */
  datatype Range = Range(owner: Option<Id>, start: nat, len: nat)

  /** How a drained group ends: refused before it is applied, applied, or applied but with a failed flush. */
  datatype Fate = Refused | Applied | FlushFailed

  /**
   `size` is the record count of each call's batch.  A batch cell is empty once its id is in `emptied`;
   a result cell is full while its id is in `result`.  `owner` remembers which leader drained a request,
   `decided` the leaders whose group was applied or refused, `completed` the requests completed,
   `finished` the leaders done completing.
   */
  datatype State = State(
    size: map<Id, nat>, phase: map<Id, Phase>, queue: seq<Id>, emptied: set<Id>, result: map<Id, bool>,
    owner: map<Id, Id>, decided: set<Id>, completed: set<Id>, finished: set<Id>,
    log: seq<Range>, first: nat, last: nat)

  datatype Step =
    | Enqueue(id: Id)
    | Drain(id: Id)
    | Take(id: Id)
    | Apply(id: Id, fate: Fate)
    | Complete(id: Id)
    | Finish(id: Id)
    | Return(id: Id)
    | OtherCommit(len: nat)

  /** Consecutive ranges for the requests of a group, from `last + 1`. */
  function RangesOf(group: seq<Id>, size: map<Id, nat>, last: nat): seq<Range>
    requires forall g :: g in group ==> g in size
  {
    if group == [] then []
    else [Range(Some(group[0]), last + 1, size[group[0]])] + RangesOf(group[1..], size, last + size[group[0]])
  }

  function EndOf(group: seq<Id>, size: map<Id, nat>, last: nat): nat
    requires forall g :: g in group ==> g in size
  {
    if group == [] then last else EndOf(group[1..], size, last + size[group[0]])
  }

  predicate Enabled(s: State, step: Step) {
    match step
    case Enqueue(id) => id in s.phase && id in s.size && s.phase[id].Fresh?
    case Drain(id) => id in s.phase && s.phase[id].Leading?
    case Take(id) => id in s.phase && s.phase[id].Applying? && s.phase[id].left != []
    case Apply(id, _) =>
      && id in s.phase && s.phase[id].Applying? && s.phase[id].left == []
      && forall g :: g in s.phase[id].taken ==> g in s.size
    case Complete(id) => id in s.phase && s.phase[id].Completing? && s.phase[id].left != []
    case Finish(id) => id in s.phase && s.phase[id].Completing? && s.phase[id].left == []
    case Return(id) => id in s.phase && (s.phase[id].Following? || s.phase[id].Waiting?) && id in s.result
    case OtherCommit(len) => true
  }

  function DrainedBy(group: seq<Id>, leader: Id): map<Id, Id> {
    map g | g in group :: leader
  }

  function Do(s: State, step: Step): State
    requires Enabled(s, step)
  {
    match step
    case Enqueue(id) =>
      if s.size[id] == 0 then s.(phase := s.phase[id := Returned(true)])
      else s.(queue := s.queue + [id], phase := s.phase[id := if s.queue == [] then Leading else Following])
    case Drain(id) =>
      s.(queue := [], phase := s.phase[id := Applying([], s.queue)], owner := s.owner + DrainedBy(s.queue, id))
    case Take(id) =>
      var p := s.phase[id];
      s.(phase := s.phase[id := Applying(p.taken + [p.left[0]], p.left[1..])], emptied := s.emptied + {p.left[0]})
    case Apply(id, fate) =>
      var group := s.phase[id].taken;
      var s1 := s.(phase := s.phase[id := Completing(fate.Applied?, [], group)], decided := s.decided + {id});
      if fate.Refused? then s1
      else s1.(log := s.log + RangesOf(group, s.size, s.last), last := EndOf(group, s.size, s.last))
    case Complete(id) =>
      var p := s.phase[id];
      s.(phase := s.phase[id := Completing(p.ok, p.done + [p.left[0]], p.left[1..])],
      result := s.result[p.left[0] := p.ok], completed := s.completed + {p.left[0]})
    case Finish(id) =>
      s.(phase := s.phase[id := Waiting], finished := s.finished + {id})
    case Return(id) =>
      s.(phase := s.phase[id := Returned(s.result[id])], result := s.result - {id})
    case OtherCommit(len) =>
      s.(log := s.log + [Range(None, s.last + 1, len)], last := s.last + len)
  }

  function Init(size: map<Id, nat>, last: nat): State {
    State(size, map id | id in size :: Fresh, [], {}, map[], map[], {}, {}, {}, [], last, last)
  }

  // ----- invariant

  ghost predicate Distinct(s: seq<Id>) {
    forall i, j :: 0 <= i < j < |s| ==> s[i] != s[j]
  }

  /** The queue's head is its undrained leader, and there is no other; the rest follow. */
  ghost predicate QueueOk(s: State) {
    && Distinct(s.queue)
    && (forall i :: 0 <= i < |s.queue| ==>
          && s.queue[i] in s.phase && s.queue[i] !in s.owner
          && s.phase[s.queue[i]] == (if i == 0 then Leading else Following))
    && (forall id :: id in s.phase && s.phase[id].Leading? ==> s.queue != [] && s.queue[0] == id)
  }

  /** Everything that is known of a request refers to a drained request, except its place in the queue. */
  ghost predicate DomainsOk(s: State) {
    && s.phase.Keys == s.size.Keys
    && s.owner.Keys <= s.phase.Keys
    && s.emptied <= s.owner.Keys && s.completed <= s.owner.Keys
    && s.decided <= s.owner.Keys && s.finished <= s.owner.Keys
    && s.result.Keys <= s.completed
  }

  ghost predicate GroupOk(s: State, id: Id, group: seq<Id>) {
    && Distinct(group)
    && id in group
    && forall g :: g in group ==> g in s.owner && s.owner[g] == id
  }

  ghost predicate PhaseOk(s: State, id: Id)
    requires id in s.phase && id in s.size
  {
    match s.phase[id]
    case Fresh => id !in s.owner && id !in s.queue
    case Following => s.size[id] > 0 && (id in s.owner || id in s.queue)
    case Leading => s.size[id] > 0
    case Applying(taken, left) => s.size[id] > 0 && GroupOk(s, id, taken + left) && id !in s.decided && id !in s.finished
    case Completing(_, done, left) => s.size[id] > 0 && GroupOk(s, id, done + left) && id in s.decided && id !in s.finished
    case Waiting => s.size[id] > 0 && id in s.owner && s.owner[id] == id && id in s.finished && id in s.decided
    case Returned(ok) => if id in s.owner then s.size[id] > 0 && id in s.completed else s.size[id] == 0 && ok && id !in s.queue
  }

  /** The batch of `g` holds a range of its own in the log. */
  ghost predicate InLog(s: State, g: Id) {
    g in s.size && exists r :: r in s.log && r == Range(Some(g), r.start, s.size[g])
  }

  /** A drained request is where its leader's progress says it is. */
  ghost predicate ProgressOk(s: State, g: Id, leader: Id, p: Phase) {
    match p
    case Applying(taken, left) => g in taken + left && (g in s.emptied <==> g in taken) && g !in s.completed
    case Completing(ok, done, left) =>
      g in done + left && g in s.emptied && (g in s.completed <==> g in done) && (ok ==> InLog(s, g))
    case Waiting => g in s.emptied && g in s.completed
    case Returned(_) => g in s.emptied && g in s.completed
    case _ => false
  }

  ghost predicate DrainedOk(s: State, g: Id)
    requires g in s.owner
  {
    var leader := s.owner[g];
    && g in s.phase && leader in s.phase
    && leader in s.owner && s.owner[leader] == leader
    && ProgressOk(s, g, leader, s.phase[leader])
    && (g == leader || s.phase[g].Following? || s.phase[g].Returned?)
  }

  /** A completed request holds its result until its call returns it; a true one is for an applied batch. */
  ghost predicate ResultOk(s: State, g: Id)
    requires g in s.owner && g in s.phase
  {
    && (g in s.result ==> g in s.completed && !s.phase[g].Returned?)
    && (g in s.completed ==> g in s.result || s.phase[g].Returned?)
    && (g in s.result && s.result[g] ==> InLog(s, g))
    && (s.phase[g] == Returned(true) ==> InLog(s, g))
  }

  /** Ranges follow one another without gap from `from + 1` to `to`. */
  ghost predicate Contiguous(log: seq<Range>, from: nat, to: nat)
    decreases |log|
  {
    if log == [] then from == to
    else log[0].start == from + 1 && Contiguous(log[1..], from + log[0].len, to)
  }

  /** A range is for one request only, drained and decided. */
  ghost predicate LogOk(s: State) {
    && Contiguous(s.log, s.first, s.last)
    && (forall i, j :: 0 <= i < j < |s.log| && s.log[i].owner.Some? ==> s.log[i].owner != s.log[j].owner)
    && (forall i :: 0 <= i < |s.log| && s.log[i].owner.Some? ==>
          s.log[i].owner.value in s.owner && s.owner[s.log[i].owner.value] in s.decided)
  }

  ghost predicate Inv(s: State) {
    && DomainsOk(s)
    && QueueOk(s)
    && (forall id :: id in s.phase ==> PhaseOk(s, id))
    && (forall g :: g in s.owner ==> DrainedOk(s, g) && ResultOk(s, g))
    && LogOk(s)
  }

  lemma InitInv(size: map<Id, nat>, last: nat)
    ensures Inv(Init(size, last))
  {
  }

  // ----- every step keeps the invariant

  lemma Pack(s: State)
    requires DomainsOk(s) && QueueOk(s) && LogOk(s)
    requires forall id :: id in s.phase ==> PhaseOk(s, id)
    requires forall g :: g in s.owner ==> DrainedOk(s, g) && ResultOk(s, g)
    ensures Inv(s)
  {
    hide QueueOk, LogOk, PhaseOk, DrainedOk, ResultOk;
  }

  lemma KnownPhase(s: State, id: Id)
    requires Inv(s) && id in s.phase
    ensures id in s.size && PhaseOk(s, id)
  {
    hide QueueOk, LogOk, PhaseOk, DrainedOk, ResultOk;
  }

  lemma KnownDrained(s: State, g: Id)
    requires Inv(s) && g in s.owner
    ensures g in s.phase && s.owner[g] in s.phase && s.owner[g] in s.owner && s.owner[s.owner[g]] == s.owner[g]
    ensures DrainedOk(s, g) && ResultOk(s, g)
  {
    hide QueueOk, LogOk, PhaseOk, ResultOk, ProgressOk;
  }

  lemma KnownQueue(s: State)
    requires Inv(s)
    ensures DomainsOk(s) && QueueOk(s)
  {
    hide QueueOk, LogOk, PhaseOk, ResultOk, DrainedOk;
  }

  /** A request none of whose cells changed, nor its leader. */
  lemma Untouched(s: State, t: State, g: Id)
    requires g in s.owner && g in t.owner && t.owner[g] == s.owner[g]
    requires DrainedOk(s, g) && ResultOk(s, g)
    requires s.owner[s.owner[g]] == s.owner[g] ==> s.owner[g] in t.owner && t.owner[s.owner[g]] == s.owner[g]
    requires g in t.phase && t.phase[g] == s.phase[g]
    requires s.owner[g] in t.phase && t.phase[s.owner[g]] == s.phase[s.owner[g]]
    requires (g in s.emptied <==> g in t.emptied) && (g in s.completed <==> g in t.completed)
    requires (g in s.result <==> g in t.result) && (g in s.result ==> s.result[g] == t.result[g])
    requires InLog(s, g) ==> InLog(t, g)
    ensures DrainedOk(t, g) && ResultOk(t, g)
  {
    hide InLog;
  }

  lemma Moved(done: seq<Id>, left: seq<Id>)
    requires left != [] && Distinct(done + left)
    ensures (done + [left[0]]) + left[1..] == done + left
    ensures left[0] !in done
    ensures forall g :: g in done + left ==> (g in done + [left[0]] <==> g in done || g == left[0])
  {
    assert (done + left)[|done|] == left[0];
    forall i | 0 <= i < |done| ensures done[i] != left[0] {
      assert (done + left)[i] == done[i];
    }
  }

  lemma {:induction false} RangesExtend(log: seq<Range>, from: nat, last: nat, group: seq<Id>, size: map<Id, nat>)
    requires Contiguous(log, from, last)
    requires forall g :: g in group ==> g in size
    ensures Contiguous(log + RangesOf(group, size, last), from, EndOf(group, size, last))
    decreases |log| + |group|
  {
    var added := RangesOf(group, size, last);
    if log != [] {
      RangesExtend(log[1..], from + log[0].len, last, group, size);
      assert (log + added)[1..] == log[1..] + added;
    } else {
      assert log + added == added;
      if group != [] {
        RangesExtend([], last + size[group[0]], last + size[group[0]], group[1..], size);
        assert [] + added[1..] == RangesOf(group[1..], size, last + size[group[0]]);
      }
    }
  }

  lemma {:induction false} RangesAre(group: seq<Id>, size: map<Id, nat>, last: nat, i: nat)
    requires forall g :: g in group ==> g in size
    requires i < |group|
    ensures |RangesOf(group, size, last)| == |group|
    ensures RangesOf(group, size, last)[i].owner == Some(group[i])
    ensures RangesOf(group, size, last)[i].len == size[group[i]]
    decreases |group|
  {
    if |group| > 1 {
      RangesAre(group[1..], size, last + size[group[0]], if i == 0 then 0 else i - 1);
    }
  }

  lemma AppliedInLog(s: State, t: State, group: seq<Id>)
    requires forall g :: g in group ==> g in s.size
    requires t.size == s.size && t.log == s.log + RangesOf(group, s.size, s.last)
    ensures forall g :: g in group ==> InLog(t, g)
    ensures forall g :: InLog(s, g) ==> InLog(t, g)
  {
    forall g | g in group ensures InLog(t, g) {
      var i :| 0 <= i < |group| && group[i] == g;
      RangesAre(group, s.size, s.last, i);
      assert t.log[|s.log| + i] in t.log;
    }
    forall g | InLog(s, g) ensures InLog(t, g) {
      var r :| r in s.log && r == Range(Some(g), r.start, s.size[g]);
      assert r in t.log;
    }
  }

  lemma LogExtended(s: State, t: State, id: Id, group: seq<Id>)
    requires LogOk(s) && GroupOk(s, id, group) && id !in s.decided
    requires forall g :: g in group ==> g in s.size
    requires t.owner == s.owner && t.decided == s.decided + {id} && t.first == s.first
    requires t.log == s.log + RangesOf(group, s.size, s.last) && t.last == EndOf(group, s.size, s.last)
    ensures LogOk(t)
  {
    RangesExtend(s.log, s.first, s.last, group, s.size);
    var n := |s.log|;
    forall i | n <= i < |t.log| ensures |t.log| == n + |group| && t.log[i].owner == Some(group[i - n]) {
      if group == [] {
      } else {
        RangesAre(group, s.size, s.last, 0);
        RangesAre(group, s.size, s.last, i - n);
      }
    }
  }

  lemma ApplyLog(s: State, t: State, id: Id, fate: Fate)
    requires Inv(s) && Enabled(s, Apply(id, fate)) && t == Do(s, Apply(id, fate))
    ensures LogOk(t)
    ensures forall g :: InLog(s, g) ==> InLog(t, g)
    ensures fate.Applied? ==> forall g :: g in s.phase[id].taken ==> InLog(t, g)
  {
    hide Contiguous;
    var group := s.phase[id].taken;
    assert PhaseOk(s, id);
    assert group + [] == group;
    if !fate.Refused? {
      LogExtended(s, t, id, group);
      AppliedInLog(s, t, group);
    }
  }

  lemma {:induction false} CommitExtends(log: seq<Range>, from: nat, last: nat, r: Range)
    requires Contiguous(log, from, last) && r.start == last + 1
    ensures Contiguous(log + [r], from, last + r.len)
    decreases |log|
  {
    if log != [] {
      CommitExtends(log[1..], from + log[0].len, last, r);
      assert (log + [r])[1..] == log[1..] + [r];
    } else {
      assert ([] + [r])[1..] == [];
    }
  }

  lemma KnownLog(s: State)
    requires Inv(s)
    ensures LogOk(s)
  {
    hide QueueOk, LogOk, PhaseOk, ResultOk, DrainedOk;
  }

  /** A step that leaves the log alone, and drains nothing twice. */
  lemma SameLog(s: State, t: State)
    requires LogOk(s) && t.log == s.log && t.first == s.first && t.last == s.last && t.size == s.size
    requires t.owner == s.owner && s.decided <= t.decided
    ensures LogOk(t) && forall g :: InLog(s, g) ==> InLog(t, g)
  {
    hide Contiguous;
  }

  lemma EnqueuePhase(s: State, t: State, id: Id, x: Id)
    requires Inv(s) && Enabled(s, Enqueue(id)) && t == Do(s, Enqueue(id)) && x in t.phase
    ensures x in t.size && PhaseOk(t, x)
  {
    hide Inv, RangesOf, EndOf;
    KnownQueue(s);
    KnownPhase(s, x);
    KnownPhase(s, id);
    if s.size[id] > 0 {
      assert t.queue[|s.queue|] == id;
      assert forall q :: q in s.queue ==> q in t.queue;
    }
  }

  lemma EnqueueDrained(s: State, t: State, id: Id, g: Id)
    requires Inv(s) && Enabled(s, Enqueue(id)) && t == Do(s, Enqueue(id)) && g in t.owner
    requires InLog(s, g) ==> InLog(t, g)
    ensures g in t.phase && DrainedOk(t, g) && ResultOk(t, g)
  {
    hide Inv, InLog, RangesOf, EndOf;
    KnownQueue(s);
    KnownPhase(s, id);
    KnownDrained(s, g);
    Untouched(s, t, g);
  }

  lemma EnqueueQueue(s: State, t: State, id: Id)
    requires Inv(s) && Enabled(s, Enqueue(id)) && t == Do(s, Enqueue(id))
    ensures DomainsOk(t) && QueueOk(t)
  {
    hide Inv, LogOk, InLog, RangesOf, EndOf, DrainedOk, ResultOk;
    KnownQueue(s);
    KnownPhase(s, id);
  }

  lemma EnqueueKeeps(s: State, id: Id)
    requires Inv(s) && Enabled(s, Enqueue(id))
    ensures Inv(Do(s, Enqueue(id)))
  {
    hide Inv, DomainsOk, QueueOk, LogOk, PhaseOk, DrainedOk, ResultOk, InLog, RangesOf, EndOf;
    var t := Do(s, Enqueue(id));
    EnqueueQueue(s, t, id);
    KnownLog(s);
    SameLog(s, t);
    forall g | g in t.owner ensures g in t.phase && DrainedOk(t, g) && ResultOk(t, g) {
      EnqueueDrained(s, t, id, g);
    }
    forall x | x in t.phase ensures x in t.size && PhaseOk(t, x) {
      EnqueuePhase(s, t, id, x);
    }
    Pack(t);
  }

  lemma DrainFacts(s: State, t: State, id: Id)
    requires Enabled(s, Drain(id)) && t == Do(s, Drain(id))
    ensures t.phase == s.phase[id := Applying([], s.queue)]
    ensures t.emptied == s.emptied && t.completed == s.completed && t.result == s.result
    ensures t.decided == s.decided && t.finished == s.finished && t.size == s.size && t.queue == []
    ensures forall g :: g in s.queue ==> g in t.owner && t.owner[g] == id
    ensures forall g :: g in s.owner && g !in s.queue ==> g in t.owner && t.owner[g] == s.owner[g]
    ensures forall g :: g in t.owner ==> g in s.owner || g in s.queue
  {
  }

  lemma QueuedFacts(s: State, id: Id, g: Id)
    requires DomainsOk(s) && QueueOk(s) && Enabled(s, Drain(id)) && g in s.queue
    ensures id in s.queue && id in s.phase && g in s.phase
    ensures g !in s.owner && g !in s.emptied && g !in s.completed && g !in s.result && g !in s.decided && g !in s.finished
    ensures g == id || s.phase[g].Following?
  {
    var i :| 0 <= i < |s.queue| && s.queue[i] == g;
    assert i == 0 ==> g == id;
  }

  lemma QueueHead(s: State, id: Id)
    requires QueueOk(s) && Enabled(s, Drain(id))
    ensures Distinct(s.queue) && s.queue != [] && s.queue[0] == id
  {
  }

  lemma DrainedLeaderPhase(s: State, t: State, id: Id)
    requires DomainsOk(s) && QueueOk(s) && Enabled(s, Drain(id)) && t == Do(s, Drain(id))
    requires id in s.size && PhaseOk(s, id)
    ensures id in t.size && PhaseOk(t, id)
  {
    hide Do, DomainsOk, QueueOk, Distinct, GroupOk, PhaseOk;
    DrainFacts(s, t, id);
    QueueHead(s, id);
    QueuedFacts(s, id, id);
    GroupStarts(t, id, s.queue);
    LeadsWithRecords(s, id);
    WorkingPhase(t, id, s.queue);
  }

  lemma LeadsWithRecords(s: State, id: Id)
    requires Enabled(s, Drain(id)) && id in s.size && PhaseOk(s, id)
    ensures s.size[id] > 0
  {
  }

  lemma WorkingPhase(t: State, id: Id, queue: seq<Id>)
    requires id in t.size && id in t.phase && t.phase[id] == Applying([], queue) && t.size[id] > 0
    requires GroupOk(t, id, queue) && id !in t.decided && id !in t.finished
    ensures PhaseOk(t, id)
  {
    hide GroupOk;
    assert [] + queue == queue;
  }

  lemma GroupStarts(t: State, id: Id, queue: seq<Id>)
    requires Distinct(queue) && id in queue && forall g :: g in queue ==> g in t.owner && t.owner[g] == id
    ensures GroupOk(t, id, queue)
  {
    hide Distinct;
  }

  lemma DrainPhase(s: State, t: State, id: Id, x: Id)
    requires Inv(s) && Enabled(s, Drain(id)) && t == Do(s, Drain(id)) && x in t.phase
    ensures x in t.size && PhaseOk(t, x)
  {
    hide Inv, Do;
    KnownQueue(s);
    DrainFacts(s, t, id);
    KnownPhase(s, x);
    if x == id {
      DrainedLeaderPhase(s, t, id);
    } else {
      DrainKeepsGroups(s, t, id, x);
      hide QueueOk, DomainsOk, Enabled, GroupOk;
    }
  }

  /** A drain takes nothing from a group at work. */
  lemma DrainKeepsGroups(s: State, t: State, id: Id, x: Id)
    requires QueueOk(s) && Enabled(s, Drain(id)) && t == Do(s, Drain(id))
    ensures forall group :: GroupOk(s, x, group) ==> GroupOk(t, x, group)
    ensures x in s.owner ==> x in t.owner && t.owner[x] == s.owner[x]
    ensures x in t.owner <==> x in s.owner || x in s.queue
  {
    DrainFacts(s, t, id);
    hide Do;
    assert forall g :: g in s.owner ==> g !in s.queue;
  }

  /** A leader at work is not the one draining. */
  lemma OwnerStays(s: State, t: State, id: Id, leader: Id)
    requires QueueOk(s) && Enabled(s, Drain(id)) && t == Do(s, Drain(id))
    requires leader in s.owner && leader in s.phase
    ensures leader != id && leader !in s.queue
    ensures leader in t.owner && t.owner[leader] == s.owner[leader] && t.phase[leader] == s.phase[leader]
  {
  }

  lemma WorkStarts(t: State, g: Id, id: Id, queue: seq<Id>)
    requires g in queue && g !in t.emptied && g !in t.completed
    ensures ProgressOk(t, g, id, Applying([], queue))
  {
    assert [] + queue == queue;
  }

  lemma QueuedDrained(s: State, t: State, id: Id, g: Id)
    requires DomainsOk(s) && QueueOk(s) && Enabled(s, Drain(id)) && t == Do(s, Drain(id)) && g in s.queue
    ensures g in t.phase && g in t.owner && DrainedOk(t, g) && ResultOk(t, g)
  {
    hide InLog, DomainsOk, QueueOk, Do, ProgressOk;
    QueuedFacts(s, id, g);
    DrainFacts(s, t, id);
    WorkStarts(t, g, id, s.queue);
    hide Enabled;
  }

  lemma DrainDrained(s: State, t: State, id: Id, g: Id)
    requires Inv(s) && Enabled(s, Drain(id)) && t == Do(s, Drain(id)) && g in t.owner
    requires InLog(s, g) ==> InLog(t, g)
    ensures g in t.phase && DrainedOk(t, g) && ResultOk(t, g)
  {
    hide Inv, InLog, RangesOf, EndOf, DomainsOk, QueueOk, PhaseOk, ResultOk, DrainedOk;
    KnownQueue(s);
    if g in s.queue {
      QueuedDrained(s, t, id, g);
    } else {
      KnownDrained(s, g);
      KnownDrained(s, s.owner[g]);
      OwnerStays(s, t, id, s.owner[g]);
      OwnerStays(s, t, id, g);
      Untouched(s, t, g);
    }
  }

  lemma DrainQueue(s: State, t: State, id: Id)
    requires DomainsOk(s) && QueueOk(s) && Enabled(s, Drain(id)) && t == Do(s, Drain(id))
    ensures DomainsOk(t) && QueueOk(t)
  {
    forall g | g in t.owner ensures g in t.phase {
      if g !in s.owner { var i :| 0 <= i < |s.queue| && s.queue[i] == g; }
    }
  }

  lemma DrainLog(s: State, t: State, id: Id)
    requires Inv(s) && Enabled(s, Drain(id)) && t == Do(s, Drain(id))
    ensures LogOk(t) && forall g :: InLog(s, g) ==> InLog(t, g)
  {
    hide Inv, Contiguous, PhaseOk, DrainedOk, ResultOk;
    KnownQueue(s);
    KnownLog(s);
    assert t.log == s.log && t.size == s.size;
    forall g | g in s.owner ensures g in t.owner && t.owner[g] == s.owner[g] {
    }
  }

  lemma DrainKeeps(s: State, id: Id)
    requires Inv(s) && Enabled(s, Drain(id))
    ensures Inv(Do(s, Drain(id)))
  {
    hide Inv, DomainsOk, QueueOk, LogOk, PhaseOk, DrainedOk, ResultOk, InLog, RangesOf, EndOf;
    var t := Do(s, Drain(id));
    KnownQueue(s);
    DrainQueue(s, t, id);
    DrainLog(s, t, id);
    forall g | g in t.owner ensures g in t.phase && DrainedOk(t, g) && ResultOk(t, g) {
      DrainDrained(s, t, id, g);
    }
    forall x | x in t.phase ensures x in t.size && PhaseOk(t, x) {
      DrainPhase(s, t, id, x);
    }
    Pack(t);
  }

  lemma TakePhase(s: State, t: State, id: Id, x: Id)
    requires Inv(s) && Enabled(s, Take(id)) && t == Do(s, Take(id)) && x in t.phase
    ensures x in t.size && PhaseOk(t, x)
  {
    hide Inv, RangesOf, EndOf;
    KnownQueue(s);
    KnownPhase(s, x);
    KnownPhase(s, id);
    Moved(s.phase[id].taken, s.phase[id].left);
  }

  lemma TakeDrained(s: State, t: State, id: Id, g: Id)
    requires Inv(s) && Enabled(s, Take(id)) && t == Do(s, Take(id)) && g in t.owner
    requires InLog(s, g) ==> InLog(t, g)
    ensures g in t.phase && DrainedOk(t, g) && ResultOk(t, g)
  {
    hide Inv, InLog, RangesOf, EndOf;
    KnownQueue(s);
    KnownPhase(s, id);
    Moved(s.phase[id].taken, s.phase[id].left);
    assert s.phase[id].left[0] in s.phase[id].taken + s.phase[id].left;
    KnownDrained(s, g);
  }

  lemma TakeQueue(s: State, t: State, id: Id)
    requires Inv(s) && Enabled(s, Take(id)) && t == Do(s, Take(id))
    ensures DomainsOk(t) && QueueOk(t)
  {
    hide Inv, LogOk, InLog, RangesOf, EndOf, DrainedOk, ResultOk;
    KnownQueue(s);
    KnownPhase(s, id);
    assert s.phase[id].left[0] in s.phase[id].taken + s.phase[id].left;
  }

  lemma TakeKeeps(s: State, id: Id)
    requires Inv(s) && Enabled(s, Take(id))
    ensures Inv(Do(s, Take(id)))
  {
    hide Inv, DomainsOk, QueueOk, LogOk, PhaseOk, DrainedOk, ResultOk, InLog, RangesOf, EndOf;
    var t := Do(s, Take(id));
    TakeQueue(s, t, id);
    KnownLog(s);
    SameLog(s, t);
    forall g | g in t.owner ensures g in t.phase && DrainedOk(t, g) && ResultOk(t, g) {
      TakeDrained(s, t, id, g);
    }
    forall x | x in t.phase ensures x in t.size && PhaseOk(t, x) {
      TakePhase(s, t, id, x);
    }
    Pack(t);
  }

  /** The leader whose group is decided, and nobody else, moves on. */
  lemma ApplyPhases(s: State, t: State, id: Id, fate: Fate)
    requires Enabled(s, Apply(id, fate)) && t == Do(s, Apply(id, fate))
    ensures t.phase == s.phase[id := Completing(fate.Applied?, [], s.phase[id].taken)]
    ensures t.owner == s.owner && t.emptied == s.emptied && t.completed == s.completed && t.result == s.result
    ensures t.decided == s.decided + {id} && t.finished == s.finished && t.queue == s.queue && t.size == s.size
  {
    hide RangesOf, EndOf;
  }

  lemma ApplyPhase(s: State, t: State, id: Id, fate: Fate, x: Id)
    requires Inv(s) && Enabled(s, Apply(id, fate)) && t == Do(s, Apply(id, fate)) && x in t.phase
    ensures x in t.size && PhaseOk(t, x)
  {
    hide Inv, RangesOf, EndOf, Do, QueueOk;
    KnownQueue(s);
    ApplyPhases(s, t, id, fate);
    KnownPhase(s, x);
    KnownPhase(s, id);
    assert s.phase[id].taken + [] == s.phase[id].taken && [] + s.phase[id].taken == s.phase[id].taken;
  }

  /** Once its group is decided, a member has still to be completed. */
  lemma ApplyProgress(s: State, t: State, id: Id, ok: bool, group: seq<Id>, g: Id)
    requires ProgressOk(s, g, id, Applying(group, []))
    requires t.emptied == s.emptied && t.completed == s.completed && (ok ==> forall x :: x in group ==> InLog(t, x))
    ensures ProgressOk(t, g, id, Completing(ok, [], group))
  {
    hide InLog;
    assert group + [] == group && [] + group == group;
  }

  lemma ApplyDrained(s: State, t: State, id: Id, fate: Fate, g: Id)
    requires Inv(s) && Enabled(s, Apply(id, fate)) && t == Do(s, Apply(id, fate)) && g in t.owner
    requires InLog(s, g) ==> InLog(t, g)
    ensures g in t.phase && DrainedOk(t, g) && ResultOk(t, g)
  {
    var group := s.phase[id].taken;
    assert s.phase[id] == Applying(group, []);
    hide Inv, InLog, RangesOf, EndOf, Do, QueueOk, LogOk, ProgressOk, PhaseOk, DomainsOk;
    ApplyPhases(s, t, id, fate);
    ApplyLog(s, t, id, fate);
    KnownDrained(s, g);
    hide Enabled;
    if s.owner[g] == id {
      hide ResultOk;
      ApplyProgress(s, t, id, fate.Applied?, group, g);
      ApplyResult(s, t, id, fate, g);
    } else {
      LeaderIsNotMember(s, id, g);
      Untouched(s, t, g);
    }
  }

  lemma ApplyResult(s: State, t: State, id: Id, fate: Fate, g: Id)
    requires g in s.owner && g in s.phase && ResultOk(s, g) && id in s.phase && s.phase[id].Applying?
    requires t.phase == s.phase[id := Completing(fate.Applied?, [], s.phase[id].taken)] && t.owner == s.owner
    requires t.completed == s.completed && t.result == s.result && (InLog(s, g) ==> InLog(t, g))
    ensures ResultOk(t, g)
  {
    hide InLog;
  }

  /** A leader at work owns itself. */
  lemma LeaderIsNotMember(s: State, id: Id, g: Id)
    requires Inv(s) && id in s.phase && s.phase[id].Applying? && g in s.owner && s.owner[g] != id
    ensures g != id
  {
    hide Inv, Distinct;
    KnownPhase(s, id);
  }

  lemma ApplyQueue(s: State, t: State, id: Id, fate: Fate)
    requires Inv(s) && Enabled(s, Apply(id, fate)) && t == Do(s, Apply(id, fate))
    ensures DomainsOk(t) && QueueOk(t)
  {
    hide Inv, LogOk, InLog, RangesOf, EndOf, DrainedOk, ResultOk;
    KnownQueue(s);
    KnownPhase(s, id);
  }

  lemma ApplyKeeps(s: State, id: Id, fate: Fate)
    requires Inv(s) && Enabled(s, Apply(id, fate))
    ensures Inv(Do(s, Apply(id, fate)))
  {
    hide Inv, DomainsOk, QueueOk, LogOk, PhaseOk, DrainedOk, ResultOk, InLog, RangesOf, EndOf;
    var t := Do(s, Apply(id, fate));
    ApplyQueue(s, t, id, fate);
    ApplyLog(s, t, id, fate);
    forall g | g in t.owner ensures g in t.phase && DrainedOk(t, g) && ResultOk(t, g) {
      ApplyDrained(s, t, id, fate, g);
    }
    forall x | x in t.phase ensures x in t.size && PhaseOk(t, x) {
      ApplyPhase(s, t, id, fate, x);
    }
    Pack(t);
  }

  lemma CompletePhase(s: State, t: State, id: Id, x: Id)
    requires Inv(s) && Enabled(s, Complete(id)) && t == Do(s, Complete(id)) && x in t.phase
    ensures x in t.size && PhaseOk(t, x)
  {
    hide Inv, RangesOf, EndOf;
    KnownQueue(s);
    KnownPhase(s, x);
    KnownPhase(s, id);
    Moved(s.phase[id].done, s.phase[id].left);
  }

  lemma CompleteDrained(s: State, t: State, id: Id, g: Id)
    requires Inv(s) && Enabled(s, Complete(id)) && t == Do(s, Complete(id)) && g in t.owner
    requires InLog(s, g) ==> InLog(t, g)
    ensures g in t.phase && DrainedOk(t, g) && ResultOk(t, g)
  {
    hide Inv, InLog, RangesOf, EndOf;
    KnownQueue(s);
    KnownPhase(s, id);
    Moved(s.phase[id].done, s.phase[id].left);
    assert s.phase[id].left[0] in s.phase[id].done + s.phase[id].left;
    KnownDrained(s, s.phase[id].left[0]);
    KnownPhase(s, s.phase[id].left[0]);
    KnownDrained(s, g);
  }

  lemma CompleteQueue(s: State, t: State, id: Id)
    requires Inv(s) && Enabled(s, Complete(id)) && t == Do(s, Complete(id))
    ensures DomainsOk(t) && QueueOk(t)
  {
    hide Inv, LogOk, InLog, RangesOf, EndOf, DrainedOk, ResultOk;
    KnownQueue(s);
    KnownPhase(s, id);
    assert s.phase[id].left[0] in s.phase[id].done + s.phase[id].left;
  }

  lemma CompleteKeeps(s: State, id: Id)
    requires Inv(s) && Enabled(s, Complete(id))
    ensures Inv(Do(s, Complete(id)))
  {
    hide Inv, DomainsOk, QueueOk, LogOk, PhaseOk, DrainedOk, ResultOk, InLog, RangesOf, EndOf;
    var t := Do(s, Complete(id));
    CompleteQueue(s, t, id);
    KnownLog(s);
    SameLog(s, t);
    forall g | g in t.owner ensures g in t.phase && DrainedOk(t, g) && ResultOk(t, g) {
      CompleteDrained(s, t, id, g);
    }
    forall x | x in t.phase ensures x in t.size && PhaseOk(t, x) {
      CompletePhase(s, t, id, x);
    }
    Pack(t);
  }

  lemma FinishPhase(s: State, t: State, id: Id, x: Id)
    requires Inv(s) && Enabled(s, Finish(id)) && t == Do(s, Finish(id)) && x in t.phase
    ensures x in t.size && PhaseOk(t, x)
  {
    hide Inv, RangesOf, EndOf;
    KnownQueue(s);
    KnownPhase(s, x);
    KnownPhase(s, id);
    assert s.phase[id].done + [] == s.phase[id].done;
  }

  lemma FinishDrained(s: State, t: State, id: Id, g: Id)
    requires Inv(s) && Enabled(s, Finish(id)) && t == Do(s, Finish(id)) && g in t.owner
    requires InLog(s, g) ==> InLog(t, g)
    ensures g in t.phase && DrainedOk(t, g) && ResultOk(t, g)
  {
    hide Inv, InLog, RangesOf, EndOf;
    KnownQueue(s);
    KnownPhase(s, id);
    assert s.phase[id].done + [] == s.phase[id].done;
    KnownDrained(s, g);
  }

  lemma FinishQueue(s: State, t: State, id: Id)
    requires Inv(s) && Enabled(s, Finish(id)) && t == Do(s, Finish(id))
    ensures DomainsOk(t) && QueueOk(t)
  {
    hide Inv, LogOk, InLog, RangesOf, EndOf, DrainedOk, ResultOk;
    KnownQueue(s);
    KnownPhase(s, id);
    assert s.phase[id].done + [] == s.phase[id].done;
  }

  lemma FinishKeeps(s: State, id: Id)
    requires Inv(s) && Enabled(s, Finish(id))
    ensures Inv(Do(s, Finish(id)))
  {
    hide Inv, DomainsOk, QueueOk, LogOk, PhaseOk, DrainedOk, ResultOk, InLog, RangesOf, EndOf;
    var t := Do(s, Finish(id));
    FinishQueue(s, t, id);
    KnownLog(s);
    SameLog(s, t);
    forall g | g in t.owner ensures g in t.phase && DrainedOk(t, g) && ResultOk(t, g) {
      FinishDrained(s, t, id, g);
    }
    forall x | x in t.phase ensures x in t.size && PhaseOk(t, x) {
      FinishPhase(s, t, id, x);
    }
    Pack(t);
  }

  lemma ReturnPhase(s: State, t: State, id: Id, x: Id)
    requires Inv(s) && Enabled(s, Return(id)) && t == Do(s, Return(id)) && x in t.phase
    ensures x in t.size && PhaseOk(t, x)
  {
    hide Inv, RangesOf, EndOf;
    KnownQueue(s);
    KnownPhase(s, x);
    KnownPhase(s, id);
  }

  lemma ReturnDrained(s: State, t: State, id: Id, g: Id)
    requires Inv(s) && Enabled(s, Return(id)) && t == Do(s, Return(id)) && g in t.owner
    requires InLog(s, g) ==> InLog(t, g)
    ensures g in t.phase && DrainedOk(t, g) && ResultOk(t, g)
  {
    hide Inv, InLog, RangesOf, EndOf;
    KnownQueue(s);
    KnownPhase(s, id);
    KnownDrained(s, id);
    KnownDrained(s, g);
  }

  lemma ReturnQueue(s: State, t: State, id: Id)
    requires Inv(s) && Enabled(s, Return(id)) && t == Do(s, Return(id))
    ensures DomainsOk(t) && QueueOk(t)
  {
    hide Inv, LogOk, InLog, RangesOf, EndOf, DrainedOk, ResultOk;
    KnownQueue(s);
    KnownPhase(s, id);
    assert id in s.owner;
  }

  lemma ReturnKeeps(s: State, id: Id)
    requires Inv(s) && Enabled(s, Return(id))
    ensures Inv(Do(s, Return(id)))
  {
    hide Inv, DomainsOk, QueueOk, LogOk, PhaseOk, DrainedOk, ResultOk, InLog, RangesOf, EndOf;
    var t := Do(s, Return(id));
    ReturnQueue(s, t, id);
    KnownLog(s);
    SameLog(s, t);
    forall g | g in t.owner ensures g in t.phase && DrainedOk(t, g) && ResultOk(t, g) {
      ReturnDrained(s, t, id, g);
    }
    forall x | x in t.phase ensures x in t.size && PhaseOk(t, x) {
      ReturnPhase(s, t, id, x);
    }
    Pack(t);
  }

  lemma OtherPhase(s: State, t: State, len: nat, x: Id)
    requires Inv(s) && Enabled(s, OtherCommit(len)) && t == Do(s, OtherCommit(len)) && x in t.phase
    ensures x in t.size && PhaseOk(t, x)
  {
    hide Inv, RangesOf, EndOf;
    KnownQueue(s);
    KnownPhase(s, x);
  }

  lemma OtherDrained(s: State, t: State, len: nat, g: Id)
    requires Inv(s) && Enabled(s, OtherCommit(len)) && t == Do(s, OtherCommit(len)) && g in t.owner
    requires InLog(s, g) ==> InLog(t, g)
    ensures g in t.phase && DrainedOk(t, g) && ResultOk(t, g)
  {
    hide Inv, InLog, RangesOf, EndOf;
    KnownQueue(s);
    KnownDrained(s, g);
    Untouched(s, t, g);
  }

  lemma OtherQueue(s: State, t: State, len: nat)
    requires Inv(s) && Enabled(s, OtherCommit(len)) && t == Do(s, OtherCommit(len))
    ensures DomainsOk(t) && QueueOk(t)
  {
    hide Inv, LogOk, InLog, RangesOf, EndOf, DrainedOk, ResultOk;
    KnownQueue(s);
  }

  lemma OtherLog(s: State, t: State, len: nat)
    requires Inv(s) && t == Do(s, OtherCommit(len))
    ensures LogOk(t) && forall g :: InLog(s, g) ==> InLog(t, g)
  {
    hide Inv, Contiguous;
    KnownLog(s);
    CommitExtends(s.log, s.first, s.last, Range(None, s.last + 1, len));
    assert forall r :: r in s.log ==> r in t.log;
  }

  lemma OtherKeeps(s: State, len: nat)
    requires Inv(s) && Enabled(s, OtherCommit(len))
    ensures Inv(Do(s, OtherCommit(len)))
  {
    hide Inv, DomainsOk, QueueOk, LogOk, PhaseOk, DrainedOk, ResultOk, InLog, RangesOf, EndOf;
    var t := Do(s, OtherCommit(len));
    OtherQueue(s, t, len);
    OtherLog(s, t, len);
    forall g | g in t.owner ensures g in t.phase && DrainedOk(t, g) && ResultOk(t, g) {
      OtherDrained(s, t, len, g);
    }
    forall x | x in t.phase ensures x in t.size && PhaseOk(t, x) {
      OtherPhase(s, t, len, x);
    }
    Pack(t);
  }

  lemma StepKeepsInv(s: State, step: Step)
    requires Inv(s) && Enabled(s, step)
    ensures Inv(Do(s, step))
  {
    hide Inv, Enabled, Do;
    match step
    case Enqueue(id) => EnqueueKeeps(s, id);
    case Drain(id) => DrainKeeps(s, id);
    case Take(id) => TakeKeeps(s, id);
    case Apply(id, fate) => ApplyKeeps(s, id, fate);
    case Complete(id) => CompleteKeeps(s, id);
    case Finish(id) => FinishKeeps(s, id);
    case Return(id) => ReturnKeeps(s, id);
    case OtherCommit(len) => OtherKeeps(s, len);
  }

  // ----- runs

  /** The states of a run: each follows from the one before by the step between them. */
  ghost predicate IsRun(states: seq<State>, steps: seq<Step>) {
    && |states| == |steps| + 1
    && forall i :: 0 <= i < |steps| ==> Enabled(states[i], steps[i]) && states[i + 1] == Do(states[i], steps[i])
  }

  ghost predicate Starts(s: State) {
    exists size: map<Id, nat>, last: nat :: s == Init(size, last)
  }

  lemma {:induction false} RunInv(states: seq<State>, steps: seq<Step>, i: nat)
    requires IsRun(states, steps) && Starts(states[0]) && i < |states|
    ensures Inv(states[i])
  {
    hide Inv, Enabled, Do;
    if i == 0 {
      var size: map<Id, nat>, last: nat :| states[0] == Init(size, last);
      InitInv(size, last);
    } else {
      RunInv(states, steps, i - 1);
      assert states[i] == Do(states[i - 1], steps[i - 1]);
      StepKeepsInv(states[i - 1], steps[i - 1]);
    }
  }

  // ----- what the invariant means

  /** The head of the queue is the one undrained leader, in every state of every run. */
  lemma UniqueLeader(states: seq<State>, steps: seq<Step>, i: nat)
    requires IsRun(states, steps) && Starts(states[0]) && i < |states|
    ensures forall id :: id in states[i].phase ==>
              (states[i].phase[id].Leading? <==> states[i].queue != [] && states[i].queue[0] == id)
  {
    RunInv(states, steps, i);
    assert QueueOk(states[i]);
  }

  /** A drain takes requests no one drained before; a take finds the batch still there; a result is set once. */
  lemma OnceEach(states: seq<State>, steps: seq<Step>, i: nat)
    requires IsRun(states, steps) && Starts(states[0]) && i < |steps|
    ensures steps[i].Drain? ==>
              && steps[i].id in states[i].queue
              && forall g :: g in states[i].queue ==> g !in states[i].owner
    ensures steps[i].Take? ==> states[i].phase[steps[i].id].left[0] !in states[i].emptied
    ensures steps[i].Complete? ==>
              && states[i].phase[steps[i].id].left[0] !in states[i].completed
              && states[i].phase[steps[i].id].left[0] !in states[i].result
  {
    hide LogOk;
    RunInv(states, steps, i);
    var s := states[i];
    match steps[i]
    case Drain(id) => assert QueueOk(s);
    case Take(id) =>
      assert PhaseOk(s, id);
      var p := s.phase[id];
      Moved(p.taken, p.left);
      assert p.left[0] in p.taken + p.left;
      assert DrainedOk(s, p.left[0]);
    case Complete(id) =>
      assert PhaseOk(s, id);
      var p := s.phase[id];
      Moved(p.done, p.left);
      assert p.left[0] in p.done + p.left;
      assert DrainedOk(s, p.left[0]);
    case _ =>
  }

  /** A call that returned Ok had its batch applied, with a range of exactly its size in the log. */
  lemma OkIsApplied(states: seq<State>, steps: seq<Step>, i: nat, id: Id)
    requires IsRun(states, steps) && Starts(states[0]) && i < |states|
    requires id in states[i].phase && states[i].phase[id] == Returned(true)
    ensures id in states[i].size
    ensures states[i].size[id] > 0 ==> InLog(states[i], id)
  {
    hide LogOk, QueueOk, InLog;
    RunInv(states, steps, i);
    var s := states[i];
    assert PhaseOk(s, id);
    if id in s.owner {
      assert ResultOk(s, id);
    }
  }

  lemma {:induction false} ContiguousOrdered(log: seq<Range>, from: nat, to: nat, i: nat, j: nat)
    requires Contiguous(log, from, to) && i <= j < |log|
    ensures from < log[i].start && log[j].start + log[j].len <= to + 1
    ensures i < j ==> log[i].start + log[i].len <= log[j].start
    decreases |log|
  {
    var rest := log[1..];
    if j > 0 {
      ContiguousOrdered(rest, from + log[0].len, to, if i == 0 then 0 else i - 1, j - 1);
      if i == 0 {
        assert log[j] == rest[j - 1] && rest[0] == log[1];
        ContiguousOrdered(rest, from + log[0].len, to, j - 1, j - 1);
      }
    } else {
      ContiguousEnds(rest, from + log[0].len, to);
    }
  }

  lemma {:induction false} ContiguousEnds(log: seq<Range>, from: nat, to: nat)
    requires Contiguous(log, from, to)
    ensures from <= to
    decreases |log|
  {
    if log != [] { ContiguousEnds(log[1..], from + log[0].len, to); }
  }

  lemma {:induction false} ContiguousCovers(log: seq<Range>, from: nat, to: nat, n: nat) returns (i: nat)
    requires Contiguous(log, from, to) && from < n <= to
    ensures i < |log| && log[i].start <= n < log[i].start + log[i].len
    decreases |log|
  {
    if n < log[0].start + log[0].len {
      i := 0;
    } else {
      var k := ContiguousCovers(log[1..], from + log[0].len, to, n);
      i := k + 1;
    }
  }

  ghost predicate HandedOut(log: seq<Range>, n: nat) {
    exists i :: 0 <= i < |log| && log[i].start <= n < log[i].start + log[i].len
  }

  /**
   The sequence numbers handed out so far are exactly those after `first` up to `last`, each in one range;
   no two ranges share one, and no request has two.
   */
  lemma RangesPartition(states: seq<State>, steps: seq<Step>, k: nat)
    requires IsRun(states, steps) && Starts(states[0]) && k < |states|
    ensures forall i, j :: 0 <= i < j < |states[k].log| ==>
              && states[k].log[i].start + states[k].log[i].len <= states[k].log[j].start
              && (states[k].log[i].owner.Some? ==> states[k].log[i].owner != states[k].log[j].owner)
    ensures forall n: nat :: states[k].first < n <= states[k].last <==> HandedOut(states[k].log, n)
  {
    hide IsRun, Starts, DrainedOk, ResultOk, PhaseOk, QueueOk, DomainsOk, Contiguous;
    RunInv(states, steps, k);
    var s := states[k];
    forall i, j | 0 <= i < j < |s.log| ensures s.log[i].start + s.log[i].len <= s.log[j].start {
      ContiguousOrdered(s.log, s.first, s.last, i, j);
    }
    forall n: nat ensures s.first < n <= s.last <==> HandedOut(s.log, n) {
      if s.first < n <= s.last {
        var i := ContiguousCovers(s.log, s.first, s.last, n);
      }
      if HandedOut(s.log, n) {
        var i :| 0 <= i < |s.log| && s.log[i].start <= n < s.log[i].start + s.log[i].len;
        ContiguousOrdered(s.log, s.first, s.last, i, i);
      }
    }
  }

  // ----- no call is stranded

  predicate Pending(s: State, id: Id) {
    id in s.phase && !s.phase[id].Fresh? && !s.phase[id].Returned?
  }

  /** The next step of a leader at work. */
  lemma LeaderCanMove(s: State, leader: Id) returns (step: Step)
    requires Inv(s) && leader in s.phase
    requires s.phase[leader].Leading? || s.phase[leader].Applying? || s.phase[leader].Completing?
    ensures Enabled(s, step) && !step.OtherCommit? && !step.Enqueue?
  {
    hide LogOk, QueueOk, DrainedOk, ResultOk;
    assert PhaseOk(s, leader);
    match s.phase[leader]
    case Leading => step := Drain(leader);
    case Applying(taken, left) =>
      if left != [] {
        step := Take(leader);
      } else {
        assert taken + left == taken;
        step := Apply(leader, Applied);
      }
    case Completing(_, _, left) =>
      step := if left != [] then Complete(leader) else Finish(leader);
  }

  /** Whenever some call waits, some call can move: no follower is left behind. */
  lemma NotStuck(s: State, id: Id) returns (step: Step)
    requires Inv(s) && Pending(s, id)
    ensures Enabled(s, step) && !step.OtherCommit? && !step.Enqueue?
  {
    hide LogOk;
    assert PhaseOk(s, id);
    var p := s.phase[id];
    if p.Leading? || p.Applying? || p.Completing? {
      step := LeaderCanMove(s, id);
    } else if id in s.result {
      step := Return(id);
    } else if id in s.owner {
      assert DrainedOk(s, id) && ResultOk(s, id);
      step := LeaderCanMove(s, s.owner[id]);
    } else {
      assert QueueOk(s);
      step := LeaderCanMove(s, s.queue[0]);
    }
  }

  ghost function ReturnedCalls(s: State): set<Id> {
    set id | id in s.phase && s.phase[id].Returned?
  }

  ghost function Arrived(s: State): set<Id> {
    set id | id in s.phase && !s.phase[id].Fresh?
  }

  /** How far all calls have come together. */
  ghost function Work(s: State): nat {
    |Arrived(s)| + |s.owner| + |s.emptied| + |s.decided| + |s.completed| + |s.finished| + |ReturnedCalls(s)|
  }

  lemma Grows<T>(a: set<T>, b: set<T>, x: T)
    requires a <= b && x !in a && x in b
    ensures |a| < |b|
  {
    var rest := b - a;
    assert b == a + rest;
    assert x in rest;
    assert |b| == |a| + |rest|;
  }

  lemma NotLess<T>(a: set<T>, b: set<T>)
    requires a <= b
    ensures |a| <= |b|
  {
    assert b == a + (b - a);
  }

  /** What never goes backwards. */
  ghost predicate Grown(s: State, t: State) {
    && Arrived(s) <= Arrived(t) && s.owner.Keys <= t.owner.Keys && s.emptied <= t.emptied && s.decided <= t.decided
    && s.completed <= t.completed && s.finished <= t.finished && ReturnedCalls(s) <= ReturnedCalls(t)
  }

  lemma StepGrows(s: State, step: Step)
    requires Inv(s) && Enabled(s, step)
    ensures Grown(s, Do(s, step))
  {
    hide LogOk, QueueOk, DrainedOk, ResultOk, RangesOf, EndOf, PhaseOk;
  }

  lemma GrownWork(s: State, t: State)
    requires Grown(s, t)
    ensures Work(s) <= Work(t)
    ensures (exists id :: id in Arrived(t) && id !in Arrived(s)) || (exists id :: id in t.owner && id !in s.owner)
            || (exists id :: id in t.emptied && id !in s.emptied) || (exists id :: id in t.decided && id !in s.decided)
            || (exists id :: id in t.completed && id !in s.completed) || (exists id :: id in t.finished && id !in s.finished)
            || (exists id :: id in ReturnedCalls(t) && id !in ReturnedCalls(s))
            ==> Work(s) < Work(t)
  {
    hide Arrived, ReturnedCalls;
    NotLess(Arrived(s), Arrived(t));
    NotLess(s.owner.Keys, t.owner.Keys);
    NotLess(s.emptied, t.emptied);
    NotLess(s.decided, t.decided);
    NotLess(s.completed, t.completed);
    NotLess(s.finished, t.finished);
    NotLess(ReturnedCalls(s), ReturnedCalls(t));
    assert |s.owner| == |s.owner.Keys| && |t.owner| == |t.owner.Keys|;
    forall id | id in Arrived(t) && id !in Arrived(s) ensures |Arrived(s)| < |Arrived(t)| { Grows(Arrived(s), Arrived(t), id); }
    forall id | id in t.owner && id !in s.owner ensures |s.owner| < |t.owner| { Grows(s.owner.Keys, t.owner.Keys, id); }
    forall id | id in t.emptied && id !in s.emptied ensures |s.emptied| < |t.emptied| { Grows(s.emptied, t.emptied, id); }
    forall id | id in t.decided && id !in s.decided ensures |s.decided| < |t.decided| { Grows(s.decided, t.decided, id); }
    forall id | id in t.completed && id !in s.completed ensures |s.completed| < |t.completed| { Grows(s.completed, t.completed, id); }
    forall id | id in t.finished && id !in s.finished ensures |s.finished| < |t.finished| { Grows(s.finished, t.finished, id); }
    forall id | id in ReturnedCalls(t) && id !in ReturnedCalls(s) ensures |ReturnedCalls(s)| < |ReturnedCalls(t)| {
      Grows(ReturnedCalls(s), ReturnedCalls(t), id);
    }
  }

  /** Every step of a write call brings the whole forward. */
  lemma StepWorks(s: State, step: Step)
    requires Inv(s) && Enabled(s, step)
    ensures Work(s) <= Work(Do(s, step))
    ensures !step.OtherCommit? ==> Work(s) < Work(Do(s, step))
  {
    hide Work, Inv, RangesOf, EndOf, Grown, InLog;
    KnownQueue(s);
    var t := Do(s, step);
    StepGrows(s, step);
    GrownWork(s, t);
    match step
    case Enqueue(id) => assert id in Arrived(t) && id !in Arrived(s);
    case Drain(id) =>
      assert id in t.owner && id !in s.owner;
    case Take(id) =>
      var p := s.phase[id];
      KnownPhase(s, id);
      Moved(p.taken, p.left);
      assert p.left[0] in p.taken + p.left;
      KnownDrained(s, p.left[0]);
      assert p.left[0] in t.emptied && p.left[0] !in s.emptied;
    case Apply(id, fate) =>
      KnownPhase(s, id);
      assert id in t.decided && id !in s.decided;
    case Complete(id) =>
      var p := s.phase[id];
      KnownPhase(s, id);
      Moved(p.done, p.left);
      assert p.left[0] in p.done + p.left;
      KnownDrained(s, p.left[0]);
      assert p.left[0] in t.completed && p.left[0] !in s.completed;
    case Finish(id) =>
      KnownPhase(s, id);
      assert id in t.finished && id !in s.finished;
    case Return(id) => assert id in ReturnedCalls(t) && id !in ReturnedCalls(s);
    case OtherCommit(_) =>
  }

  lemma WorkBounded(s: State)
    requires Inv(s)
    ensures Work(s) <= 7 * |s.size|
  {
    var calls := s.size.Keys;
    assert |s.size| == |calls| && |s.owner| == |s.owner.Keys|;
    NotLess(Arrived(s), calls);
    NotLess(s.owner.Keys, calls);
    NotLess(s.emptied, calls);
    NotLess(s.decided, calls);
    NotLess(s.completed, calls);
    NotLess(s.finished, calls);
    NotLess(ReturnedCalls(s), calls);
  }

  ghost function CallSteps(steps: seq<Step>): nat {
    if steps == [] then 0
    else CallSteps(steps[..|steps| - 1]) + if steps[|steps| - 1].OtherCommit? then 0 else 1
  }

  lemma SameCalls(s: State, step: Step)
    requires Enabled(s, step)
    ensures Do(s, step).size == s.size
  {
    hide RangesOf, EndOf, DrainedBy;
  }

  lemma {:induction false} RunWorks(states: seq<State>, steps: seq<Step>)
    requires IsRun(states, steps) && Starts(states[0])
    ensures CallSteps(steps) <= Work(states[|steps|])
    ensures states[|steps|].size == states[0].size
    decreases |steps|
  {
    hide Inv, Work, Enabled, Do, Starts;
    if steps != [] {
      var n := |steps| - 1;
      assert IsRun(states[..n + 1], steps[..n]);
      RunWorks(states[..n + 1], steps[..n]);
      RunInv(states, steps, n);
      StepWorks(states[n], steps[n]);
      SameCalls(states[n], steps[n]);
    }
  }

  /**
   Every run of n write calls makes at most 7n steps of theirs, and as long as a call that arrived has not
   returned some call can still step: so every schedule that keeps stepping returns every call.
   */
  lemma NoCallStranded(states: seq<State>, steps: seq<Step>)
    requires IsRun(states, steps) && Starts(states[0])
    ensures CallSteps(steps) <= 7 * |states[0].size|
    ensures (forall id :: Pending(states[|steps|], id) ==>
               exists step :: Enabled(states[|steps|], step) && !step.OtherCommit? && !step.Enqueue?)
  {
    assert |states| == |steps| + 1;
    hide Inv, Work, Enabled, Starts, Pending, IsRun;
    var s := states[|steps|];
    RunWorks(states, steps);
    RunInv(states, steps, |steps|);
    WorkBounded(s);
    forall id | Pending(s, id) ensures exists step :: Enabled(s, step) && !step.OtherCommit? && !step.Enqueue? {
      var step := NotStuck(s, id);
    }
  }
}
