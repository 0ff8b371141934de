/**
 * The flush cycles never block each other: with at least one permit, or none needed, some write, response,
 * permit or hand-over can always proceed while a cycle is under way, and every such step brings both cycles
 * nearer to their end.
 */
module FlushProgress {
  import opened Strings
  import opened Revisions
  import opened PendingCache
  import opened FlushProtocol

  /** A step that a cycle makes by itself: it neither starts a cycle nor queues, and no permit is refused. */
  predicate Works(step: Step) {
    !step.QueueRev? && !step.Snapshot? && !step.Refuse?
  }

  /** How far a revision is from being settled. */
  function Distance(status: Status): nat {
    match status
    case Waiting => 5
    case Writing => 4
    case Answered(_) => 3
    case Received(_) => 1
    case Written => 0
    case Failed => 0
  }

  function Distances(items: seq<Item>): nat {
    if |items| == 0 then 0 else Distances(items[..|items| - 1]) + Distance(items[|items| - 1].status)
  }

  function Effort(c: Cycle): nat {
    match c
    case Idle => 0
    case Flushing(items, _, failed) => 2 * Distances(items) + |failed| + 2
    case HandingOver(failed) => |failed| + 1
  }

  function Work(s: State): nat { Effort(s.main) + Effort(s.retrying) + s.releasing }

  lemma {:induction false} DistancesUpdate(items: seq<Item>, i: nat, item: Item)
    requires i < |items|
    ensures Distances(items[i := item]) == Distances(items) - Distance(items[i].status) + Distance(item.status)
  {
    var n := |items| - 1;
    var items' := items[i := item];
    if i == n {
      assert items'[..n] == items[..n];
    } else {
      assert items'[..n] == items[..n][i := item];
      DistancesUpdate(items[..n], i, item);
    }
  }

  lemma {:induction false} AllSettled(items: seq<Item>)
    requires forall i :: 0 <= i < |items| ==> items[i].status == Written || items[i].status == Failed
    ensures Distances(items) == 0
  {
    if |items| > 0 {
      AllSettled(items[..|items| - 1]);
    }
  }

  /** Marking an item brings its cycle nearer to its end by at least what it gives up in permits. */
  lemma MarkProgress(async: bool, s: State, step: Step, w: Which)
    requires Enabled(async, s, step) && CycleOk(s.Of(w), s.stored) && MarkOf(s, step, w).Some?
    ensures Effort(Next(async, s, step).Of(w)) + (if step.Receive? then 1 else 0) < Effort(s.Of(w))
  {
    MarkEffect(async, s, step, w);
    hide Next, Distances;
    var (i, status) := MarkOf(s, step, w).value;
    DistancesUpdate(s.Of(w).items, i, Item(s.Of(w).items[i].rev, status));
  }

  /** Other steps leave a cycle as far as it was, or nearer, unless they start it. */
  lemma OtherProgress(async: bool, s: State, step: Step, w: Which)
    requires Enabled(async, s, step) && !step.Snapshot? && MarkOf(s, step, w) == None
    ensures Effort(Next(async, s, step).Of(w)) <= Effort(s.Of(w))
    ensures (step == Return(w) || step == HandOver(w)) ==> Effort(Next(async, s, step).Of(w)) < Effort(s.Of(w))
  {
    hide Revision.ResourceKey, Revision.Key, Cycle.Mark;
    if step == Return(w) {
      AllSettled(s.Of(w).items);
    }
  }

  lemma CycleProgress(async: bool, s: State, step: Step, w: Which)
    requires Enabled(async, s, step) && CycleOk(s.Of(w), s.stored) && !step.Snapshot?
    ensures Effort(Next(async, s, step).Of(w)) <= Effort(s.Of(w))
    ensures !step.QueueRev? && !step.Release? && step.w == w ==>
      Effort(Next(async, s, step).Of(w)) < Effort(s.Of(w))
    ensures step.Receive? && step.w == w ==> Effort(Next(async, s, step).Of(w)) + 1 < Effort(s.Of(w))
  {
    hide Next, Effort, CycleOk;
    if MarkOf(s, step, w).Some? {
      MarkProgress(async, s, step, w);
    } else {
      OtherProgress(async, s, step, w);
    }
  }

  lemma Releasing(async: bool, s: State, step: Step)
    requires Enabled(async, s, step)
    ensures Next(async, s, step).releasing ==
            s.releasing + if step.Receive? then 1 else if step.Release? then -1 else 0
  {
    hide Revision.ResourceKey, Revision.Key, Cycle.Mark;
  }

  /** Every step but queueing and the start of a cycle leaves less to do. */
  lemma WorkDecreases(async: bool, s: State, step: Step)
    requires CyclesOk(s) && Enabled(async, s, step) && !step.QueueRev? && !step.Snapshot?
    ensures Work(Next(async, s, step)) < Work(s)
  {
    hide Next, Enabled, Effort, CycleOk;
    CycleProgress(async, s, step, Main);
    CycleProgress(async, s, step, Retry);
    Releasing(async, s, step);
  }

  // ---- no deadlock ----

  /** A permit is held by a write that can proceed. */
  lemma {:induction false} HolderOf(items: seq<Item>) returns (i: nat)
    requires Holding(items) > 0
    ensures i < |items| && HoldsPermit(items[i].status)
  {
    var n := |items| - 1;
    if HoldsPermit(items[n].status) {
      i := n;
    } else {
      i := HolderOf(items[..n]);
    }
  }

  lemma InFlightWorks(async: bool, s: State, w: Which, i: nat) returns (step: Step)
    requires s.Of(w).Flushing? && i < |s.Of(w).items| && InFlight(s.Of(w).items[i].status)
    ensures Works(step) && Enabled(async, s, step)
  {
    match s.Of(w).items[i].status {
      case Writing => step := Answer(w, i, true);
      case Answered(ok) => step := Receive(w, i, ok);
      case Received(ok) => step := Complete(w, i, ok);
    }
  }

  /** A permit is free, about to be, or held by a write that can proceed. */
  lemma PermitWorks(s: State) returns (step: Step)
    requires Permits(s) > 0 && s.free == 0
    ensures Works(step) && Enabled(true, s, step)
  {
    hide Enabled, Holding;
    if s.releasing > 0 {
      step := Release;
      assert Enabled(true, s, step) by { ReleaseAnyway(true, s); }
    } else {
      var w := if Outstanding(s.main) > 0 then Main else Retry;
      var i := HolderOf(s.Of(w).items);
      step := InFlightWorks(true, s, w, i);
    }
  }

  lemma CycleWorks(async: bool, s: State, w: Which) returns (step: Step)
    requires CycleOk(s.Of(w), s.stored) && !s.Of(w).Idle? && (async ==> Permits(s) > 0)
    ensures Works(step) && Enabled(async, s, step)
  {
    hide Revision.ResourceKey, Revision.Key, Permits;
    var c := s.Of(w);
    if c.HandingOver? {
      step := HandOver(w);
    } else if i :| 0 <= i < |c.items| && InFlight(c.items[i].status) {
      step := InFlightWorks(async, s, w, i);
    } else if !c.HasNext() {
      step := Return(w);
    } else if !async {
      step := WriteNow(w, true);
    } else if s.free > 0 {
      step := Submit(w);
    } else {
      step := PermitWorks(s);
    }
  }

  /** No cycle is under way and no writer still holds a permit. */
  predicate Quiet(s: State) { s.main.Idle? && s.retrying.Idle? && s.releasing == 0 }

  /** In every reachable state that is not quiet some cycle or writer can proceed. */
  lemma NeverStuck(capacity: Option<nat>, steps: seq<Step>) returns (step: Step)
    requires Exec(capacity, steps).Some? && capacity != Some(0) && !Quiet(Exec(capacity, steps).value)
    ensures Works(step) && Exec(capacity, steps + [step]).Some?
  {
    hide Exec, CycleOk, Enabled, Permits, Next, AllCovered, FromQueue, Keyed;
    Reachable(capacity, steps);
    var s := Exec(capacity, steps).value;
    if !s.main.Idle? {
      step := CycleWorks(capacity.Some?, s, Main);
    } else if !s.retrying.Idle? {
      step := CycleWorks(capacity.Some?, s, Retry);
    } else {
      step := Release;
      assert Enabled(capacity.Some?, s, step) by { ReleaseAnyway(capacity.Some?, s); }
    }
    Extends(capacity, steps, step);
  }

  lemma ReleaseAnyway(async: bool, s: State)
    ensures s.releasing > 0 ==> Enabled(async, s, Release)
  {
  }

  lemma Extends(capacity: Option<nat>, steps: seq<Step>, step: Step)
    requires Exec(capacity, steps).Some?
    ensures Enabled(capacity.Some?, Exec(capacity, steps).value, step) ==>
      Exec(capacity, steps + [step]) == Some(Next(capacity.Some?, Exec(capacity, steps).value, step))
    ensures Exec(capacity, steps + [step]).Some? ==> Enabled(capacity.Some?, Exec(capacity, steps).value, step)
  {
    hide Next, Enabled;
    assert (steps + [step])[..|steps|] == steps;
  }

  /** From every reachable state both cycles can run to their end, and all permits return. */
  lemma {:induction false} CyclesFinish(capacity: Option<nat>, steps: seq<Step>) returns (more: seq<Step>)
    requires Exec(capacity, steps).Some? && capacity != Some(0)
    ensures forall step :: step in more ==> Works(step)
    ensures Exec(capacity, steps + more).Some? && Quiet(Exec(capacity, steps + more).value)
    ensures Exec(capacity, steps + more).value.free == if capacity.Some? then capacity.value else 0
    decreases if Exec(capacity, steps).Some? then Work(Exec(capacity, steps).value) else 0
  {
    hide Exec, Enabled, Next, CycleOk, AllCovered, FromQueue, Keyed, Effort;
    var s := Exec(capacity, steps).value;
    Reachable(capacity, steps);
    if Quiet(s) {
      more := [];
      assert steps + more == steps;
    } else {
      var step := NeverStuck(capacity, steps);
      Extends(capacity, steps, step);
      WorkDecreases(capacity.Some?, s, step);
      var rest := CyclesFinish(capacity, steps + [step]);
      more := [step] + rest;
      assert steps + [step] + rest == steps + more;
    }
  }

  // ---- what is up to the environment ----

  /**
   * In every reachable state anything may be queued, an idle cycle may take any listing of its cache, the
   * semaphore may refuse a permit and may grant one that is free, and a write may end either way.
   */
  lemma EnvironmentIsFree(capacity: Option<nat>, steps: seq<Step>, w: Which)
    requires Exec(capacity, steps).Some?
    ensures
      var s := Exec(capacity, steps).value;
      var c := s.Of(w);
      && (forall rev: Revision :: rev.WellFormed() ==> Exec(capacity, steps + [QueueRev(rev)]).Some?)
      && (c.Idle? ==> forall copy, keys :: Lists(copy, keys, if w == Main then s.pending else s.retry) ==>
            Exec(capacity, steps + [Snapshot(w, copy, keys)]).Some?)
      && (c.Flushing? && c.next < |c.items| ==>
            if capacity.Some? then
              Exec(capacity, steps + [Refuse(w)]).Some? && (s.free > 0 ==> Exec(capacity, steps + [Submit(w)]).Some?)
            else
              forall ok :: Exec(capacity, steps + [WriteNow(w, ok)]).Some?)
      && (c.Flushing? ==> forall i: nat, ok :: i < |c.items| && c.items[i].status == Writing ==>
            Exec(capacity, steps + [Answer(w, i, ok)]).Some?)
  {
    hide Exec, Next, Revision.WellFormed, Lists;
    forall step
      ensures Enabled(capacity.Some?, Exec(capacity, steps).value, step) ==> Exec(capacity, steps + [step]).Some?
    {
      Extends(capacity, steps, step);
    }
  }
}
