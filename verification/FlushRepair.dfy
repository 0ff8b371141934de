/** What the retry cycle is for: it repairs the failures of the main cycle before it. */
module FlushRepair {
  import opened Strings
  import opened Revisions
  import opened FlushProtocol

  predicate InItems(c: Cycle, r: Revision) {
    c.Flushing? && exists i :: 0 <= i < |c.items| && c.items[i].rev == r
  }

  /** Out of the main cycle's hands: stored, or with the retry cycle. */
  predicate Kept(s: State, r: Revision) {
    r in s.stored || InRetry(s, r) || r in s.retrying.Failures()
  }

  lemma KeptStep(async: bool, s: State, step: Step, r: Revision) returns (r': Revision)
    requires Structure(s) && Enabled(async, s, step) && Kept(s, r)
    ensures Kept(Next(async, s, step), r') && Covers(r', r)
  {
    hide Revision.ResourceKey, Revision.Key, Structure;
    r' := r;
    if r in s.stored {
      StoredStep(async, s, step);
    } else if InRetry(s, r) {
      r' := RetryStays(async, s, step, r);
    } else {
      r' := FailureStays(async, s, step, Retry, r);
    }
  }

  lemma StoredStep(async: bool, s: State, step: Step)
    requires Enabled(async, s, step)
    ensures s.stored <= Next(async, s, step).stored
  {
    hide Revision.ResourceKey, Revision.Key;
  }

  /** What a cycle has taken stays in its items until it returns, and is then stored or on its failed list. */
  lemma ItemStep(async: bool, s: State, step: Step, w: Which, r: Revision)
    requires CycleOk(s.Of(w), s.stored) && Enabled(async, s, step) && InItems(s.Of(w), r)
    ensures
      var s' := Next(async, s, step);
      if step == Return(w) then r in s'.stored || r in s'.Of(w).Failures() else InItems(s'.Of(w), r)
  {
    hide Revision.ResourceKey, Revision.Key, CycleOk, Next, Enabled;
    var c := s.Of(w);
    var i :| 0 <= i < |c.items| && c.items[i].rev == r;
    if step == Return(w) {
      ReturnEffect(async, s, w);
      DoneItem(c, s.stored, i);
    } else if MarkOf(s, step, w).Some? {
      MarkEffect(async, s, step, w);
      assert Next(async, s, step).Of(w).items[i].rev == r;
    } else {
      NoReturnEffect(async, s, step, w);
    }
  }

  lemma ReturnEffect(async: bool, s: State, w: Which)
    requires Enabled(async, s, Return(w))
    ensures s.Of(w).Done()
    ensures Next(async, s, Return(w)) == s.With(w, HandingOver(s.Of(w).failed))
  {
  }

  lemma NoReturnEffect(async: bool, s: State, step: Step, w: Which)
    requires Enabled(async, s, step) && s.Of(w).Flushing?
    requires step != Return(w) && MarkOf(s, step, w) == None
    ensures Next(async, s, step).Of(w) == s.Of(w)
  {
    hide Revision.ResourceKey, Revision.Key, Cycle.Mark;
  }

  lemma DoneItem(c: Cycle, stored: set<Revision>, i: nat)
    requires CycleOk(c, stored) && c.Done() && i < |c.items|
    ensures c.items[i].rev in stored || c.items[i].rev in c.failed
  {
  }

  /** In the main cycle's hands, or out of them. */
  predicate Carried(s: State, r: Revision) {
    Kept(s, r) || r in s.main.Failures() || InItems(s.main, r)
  }

  lemma CarriedStep(async: bool, s: State, step: Step, r: Revision) returns (r': Revision)
    requires Structure(s) && Enabled(async, s, step) && Carried(s, r)
    ensures Carried(Next(async, s, step), r') && Covers(r', r)
  {
    hide Revision.ResourceKey, Revision.Key, CycleOk, Kept, InItems, Next, Enabled, CycleFromQueue;
    r' := r;
    if Kept(s, r) {
      r' := KeptStep(async, s, step, r);
    } else if InItems(s.main, r) {
      ItemStep(async, s, step, Main, r);
      KeptWays(Next(async, s, step), r);
    } else {
      r' := FailureStays(async, s, step, Main, r);
      KeptWays(Next(async, s, step), r');
    }
  }

  lemma KeptWays(s: State, r: Revision)
    ensures r in s.stored || InRetry(s, r) ==> Kept(s, r)
  {
  }

  /** From a main snapshot on, what was queued before it is covered without the pending cache. */
  lemma {:induction false} MainHolds(capacity: Option<nat>, steps: seq<Step>, a: nat, q: Revision)
    returns (r: Revision)
    requires Exec(capacity, steps).Some? && a < |steps| && steps[a].Snapshot? && steps[a].w == Main
    requires Exec(capacity, steps[..a]).Some? && q in Exec(capacity, steps[..a]).value.queued
    ensures Carried(Exec(capacity, steps).value, r) && Covers(r, q)
  {
    hide Revision.ResourceKey, Revision.Key, Next, Enabled, Carried, AllCovered;
    var before := steps[..|steps| - 1];
    var s, step := Exec(capacity, before).value, steps[|steps| - 1];
    Reachable(capacity, before);
    if a == |steps| - 1 {
      r := SnapshotHolds(capacity.Some?, s, step, q);
    } else {
      assert before[..a] == steps[..a];
      r := MainHolds(capacity, before, a, q);
      r := CarriedStep(capacity.Some?, s, step, r);
    }
  }

  lemma SnapshotHolds(async: bool, s: State, step: Step, q: Revision) returns (r: Revision)
    requires Structure(s) && AllCovered(s) && q in s.queued
    requires Enabled(async, s, step) && step.Snapshot? && step.w == Main
    ensures Carried(Next(async, s, step), r) && Covers(r, q)
  {
    hide Revision.ResourceKey, Revision.Key, Structure;
    r :| InPlay(s, r) && Covers(r, q);
    var s' := Next(async, s, step);
    var key := r.ResourceKey();
    if key in s.pending && s.pending[key] == r {
      var i :| 0 <= i < |step.keys| && step.keys[i] == key;
      assert s'.main.items[i].rev == r;
    } else {
      assert Kept(s', r);
    }
  }

  lemma {:induction false} KeptFrom(capacity: Option<nat>, steps: seq<Step>, b: nat, q: Revision)
    returns (r: Revision)
    requires Exec(capacity, steps).Some? && b <= |steps|
    requires Exec(capacity, steps[..b]).Some? && Kept(Exec(capacity, steps[..b]).value, q)
    ensures Kept(Exec(capacity, steps).value, r) && Covers(r, q)
  {
    hide Revision.ResourceKey, Revision.Key, Next, Enabled, Kept;
    if b == |steps| {
      assert steps[..b] == steps;
      r := q;
    } else {
      var before := steps[..|steps| - 1];
      assert before[..b] == steps[..b];
      r := KeptFrom(capacity, before, b, q);
      Reachable(capacity, before);
      r := KeptStep(capacity.Some?, Exec(capacity, before).value, steps[|steps| - 1], r);
    }
  }

  /** Until the retry cycle returns, what it took from the retry cache is among its items. */
  lemma {:induction false} RetryTakes(capacity: Option<nat>, steps: seq<Step>, c: nat, r: Revision)
    requires Exec(capacity, steps).Some? && c < |steps| && steps[c].Snapshot? && steps[c].w == Retry
    requires forall i :: c < i < |steps| ==> steps[i] != Return(Retry)
    requires Exec(capacity, steps[..c]).Some? && Kept(Exec(capacity, steps[..c]).value, r)
    ensures r in Exec(capacity, steps).value.stored || InItems(Exec(capacity, steps).value.retrying, r)
  {
    hide Revision.ResourceKey, Revision.Key, Next, Enabled, Kept, InItems, CycleOk, FromQueue, Keyed, AllCovered;
    var before := steps[..|steps| - 1];
    var s, step := Exec(capacity, before).value, steps[|steps| - 1];
    if c == |steps| - 1 {
      SnapshotTakes(capacity.Some?, s, step, r);
    } else {
      assert before[..c] == steps[..c];
      RetryTakes(capacity, before, c, r);
      Reachable(capacity, before);
      StoredStep(capacity.Some?, s, step);
      if r !in s.stored {
        ItemStep(capacity.Some?, s, step, Retry, r);
      }
    }
  }

  lemma SnapshotTakes(async: bool, s: State, step: Step, r: Revision)
    requires Enabled(async, s, step) && step.Snapshot? && step.w == Retry && Kept(s, r)
    ensures var s' := Next(async, s, step); r in s'.stored || InItems(s'.retrying, r)
  {
    hide Revision.ResourceKey, Revision.Key;
    if r !in s.stored {
      var i :| 0 <= i < |step.keys| && step.keys[i] == r.Key();
      assert Next(async, s, step).retrying.items[i].rev == r;
    }
  }

  /**
   * A main cycle followed by a retry cycle whose writes all succeed repairs every failure so far: of each
   * object queued before the main cycle's snapshot, and not queued anew since, the greatest version is stored.
   */
  lemma RetryRepairs(capacity: Option<nat>, steps: seq<Step>, a: nat, b: nat, c: nat, q: Revision)
    returns (r: Revision)
    requires Exec(capacity, steps).Some? && a < b <= c < |steps|
    requires steps[a].Snapshot? && steps[a].w == Main
    requires Exec(capacity, steps[..b]).Some? && Exec(capacity, steps[..b]).value.main.Idle?
    requires steps[c].Snapshot? && steps[c].w == Retry && forall i :: c < i < |steps| ==> steps[i] != Return(Retry)
    requires Exec(capacity, steps).value.retrying.Done() && Exec(capacity, steps).value.retrying.failed == []
    requires Exec(capacity, steps[..a]).Some? && q in Exec(capacity, steps[..a]).value.queued
    requires NewestQueued(Exec(capacity, steps).value, q)
    ensures
      r in Exec(capacity, steps).value.stored && SameObject(r, q) && r.resourceVersion == q.resourceVersion
  {
    hide Revision.ResourceKey, Revision.Key, Exec, CycleOk, Keyed, CycleFromQueue, AllCovered;
    RetryNeverDrains(capacity, steps, c);
    assert steps[..b][..a] == steps[..a] && steps[..c][..b] == steps[..b];
    r := MainHolds(capacity, steps[..b], a, q);
    r := KeptFrom(capacity, steps[..c], b, r);
    RetryTakes(capacity, steps, c, r);
    Reachable(capacity, steps);
    var s := Exec(capacity, steps).value;
    if r !in s.stored {
      var i :| 0 <= i < |s.retrying.items| && s.retrying.items[i].rev == r;
      DoneItem(s.retrying, s.stored, i);
    }
    ResourceKeyInjective(r, q);
  }
}
