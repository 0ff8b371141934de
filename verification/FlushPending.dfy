/**
 * What a flush does to the pending cache: handling a response takes the flushed version out, whether its write
 * succeeded or not, and a refused permit leaves it in.
 */
module FlushPending {
  import opened Strings
  import opened Revisions
  import opened PendingCache
  import opened FlushProtocol

  /** In step `m` of the run cycle `w` handles the outcome of a write of `r`, at once or as a response. */
  ghost predicate Handles(capacity: Option<nat>, steps: seq<Step>, m: nat, w: Which, r: Revision) {
    && m < |steps| && Exec(capacity, steps[..m]).Some?
    && var c := Exec(capacity, steps[..m]).value.Of(w);
       && c.Flushing?
       && match steps[m]
          case WriteNow(v, _) => v == w && c.next < |c.items| && c.items[c.next].rev == r
          case Complete(v, i, _) => v == w && i < |c.items| && c.items[i].rev == r
          case _ => false
  }

  /** In step `m` the semaphore refuses cycle `w` a permit for `r`. */
  ghost predicate Refuses(capacity: Option<nat>, steps: seq<Step>, m: nat, w: Which, r: Revision) {
    && m < |steps| && Exec(capacity, steps[..m]).Some?
    && var c := Exec(capacity, steps[..m]).value.Of(w);
       steps[m] == Refuse(w) && c.Flushing? && c.next < |c.items| && c.items[c.next].rev == r
  }

  /** In step `m` some cycle handles the outcome of a write of this version. */
  ghost predicate HandledAt(capacity: Option<nat>, steps: seq<Step>, m: nat, r: Revision) {
    exists w, q :: Handles(capacity, steps, m, w, q) && SameVersion(q, r)
  }

  predicate SameVersion(a: Revision, b: Revision) {
    SameObject(a, b) && a.resourceVersion == b.resourceVersion
  }

  lemma LastStep(capacity: Option<nat>, steps: seq<Step>)
    requires |steps| > 0 && Exec(capacity, steps).Some?
    ensures
      var before, last := Exec(capacity, steps[..|steps| - 1]), steps[|steps| - 1];
      before.Some? && Enabled(capacity.Some?, before.value, last) &&
      Exec(capacity, steps) == Some(Next(capacity.Some?, before.value, last))
  {
    hide Enabled, Next;
  }

  // ---- what is handled leaves ----

  /** Handling the outcome of a write, whatever it was, leaves nothing of that version pending. */
  lemma HandledLeaves(capacity: Option<nat>, steps: seq<Step>, w: Which, r: Revision)
    requires Exec(capacity, steps).Some? && |steps| > 0
    requires Handles(capacity, steps, |steps| - 1, w, r)
    ensures forall k :: k in Exec(capacity, steps).value.pending ==>
      !SameVersion(Exec(capacity, steps).value.pending[k], r)
  {
    hide Exec, Revision.ResourceKey, Revision.Key, Structure, AllCovered;
    LastStep(capacity, steps);
    Reachable(capacity, steps[..|steps| - 1]);
    Reachable(capacity, steps);
    HandledStep(capacity.Some?, Exec(capacity, steps[..|steps| - 1]).value, steps[|steps| - 1], w, r);
  }

  lemma HandledStep(async: bool, s: State, step: Step, w: Which, r: Revision)
    requires Enabled(async, s, step) && Structure(s) && Structure(Next(async, s, step))
    requires s.Of(w).Flushing?
    requires
      var c := s.Of(w);
      || (step.WriteNow? && step.w == w && c.next < |c.items| && c.items[c.next].rev == r)
      || (step.Complete? && step.w == w && step.i < |c.items| && c.items[step.i].rev == r)
    ensures forall k :: k in Next(async, s, step).pending ==> !SameVersion(Next(async, s, step).pending[k], r)
  {
    hide Revision.ResourceKey, Revision.Key, FromQueue, CycleOk, Cycle.Mark;
    var s' := Next(async, s, step);
    forall k | k in s'.pending
      ensures !SameVersion(s'.pending[k], r)
    {
      if SameObject(s'.pending[k], r) {
        SameObjectKey(s'.pending[k], r);
      }
    }
  }

  lemma SameObjectKey(a: Revision, b: Revision)
    requires SameObject(a, b)
    ensures a.ResourceKey() == b.ResourceKey()
  {
  }

  // ---- what is not handled stays ----

  /** A pending revision whose version is not handled stays, unless something is queued. */
  lemma UnhandledStays(capacity: Option<nat>, steps: seq<Step>, r: Revision)
    requires Exec(capacity, steps).Some? && |steps| > 0 && !steps[|steps| - 1].QueueRev?
    requires Exec(capacity, steps[..|steps| - 1]).Some?
    requires r in Exec(capacity, steps[..|steps| - 1]).value.pending.Values
    requires !HandledAt(capacity, steps, |steps| - 1, r)
    ensures r in Exec(capacity, steps).value.pending.Values
  {
    hide Exec, Revision.ResourceKey, Revision.Key, CyclesOk, AllCovered, Next, Enabled, Handles, CycleFromQueue;
    var before, last := steps[..|steps| - 1], steps[|steps| - 1];
    var s := Exec(capacity, before).value;
    LastStep(capacity, steps);
    Reachable(capacity, before);
    var k :| k in s.pending && s.pending[k] == r;
    PendingStep(capacity.Some?, s, last, k);
    if k !in Next(capacity.Some?, s, last).pending {
      var q := Settled(s, last).value;
      SettledHandles(capacity, steps, last.w);
      SettledQueued(capacity.Some?, s, last);
      ResourceKeyInjective(q, r);
    }
  }

  lemma SettledHandles(capacity: Option<nat>, steps: seq<Step>, w: Which)
    requires |steps| > 0 && Exec(capacity, steps[..|steps| - 1]).Some?
    requires
      var s, last := Exec(capacity, steps[..|steps| - 1]).value, steps[|steps| - 1];
      (last.WriteNow? || last.Complete?) && last.w == w && Settled(s, last).Some?
    ensures Handles(capacity, steps, |steps| - 1, w,
                    Settled(Exec(capacity, steps[..|steps| - 1]).value, steps[|steps| - 1]).value)
  {
    hide Exec;
  }

  lemma SettledQueued(async: bool, s: State, step: Step)
    requires FromQueue(s) && Enabled(async, s, step) && Settled(s, step).Some?
    ensures Settled(s, step).value.WellFormed()
  {
    hide Revision.WellFormed, Revision.ResourceKey, Revision.Key;
  }

  /** Nothing enters the pending cache but by queueing. */
  lemma NothingEnters(async: bool, s: State, step: Step)
    requires Enabled(async, s, step) && !step.QueueRev?
    ensures Next(async, s, step).pending.Values <= s.pending.Values
  {
    hide Revision.ResourceKey, Revision.Key, Cycle.Mark;
  }

  /** From step `a` on some cycle handles the version. */
  ghost predicate HandledSince(capacity: Option<nat>, steps: seq<Step>, a: nat, r: Revision) {
    exists m :: a <= m < |steps| && HandledAt(capacity, steps, m, r)
  }

  ghost predicate NoQueueing(steps: seq<Step>, a: nat) {
    forall i :: a <= i < |steps| ==> !steps[i].QueueRev?
  }

  lemma HandlesPrefix(capacity: Option<nat>, steps: seq<Step>, n: nat, m: nat, w: Which, q: Revision)
    requires m < n <= |steps|
    ensures Handles(capacity, steps[..n], m, w, q) == Handles(capacity, steps, m, w, q)
    ensures Refuses(capacity, steps[..n], m, w, q) == Refuses(capacity, steps, m, w, q)
  {
    hide Exec, Cycle.Mark;
    assert steps[..n][..m] == steps[..m];
  }

  lemma HandledPrefix(capacity: Option<nat>, steps: seq<Step>, n: nat, m: nat, r: Revision)
    requires m < n <= |steps|
    ensures HandledAt(capacity, steps[..n], m, r) == HandledAt(capacity, steps, m, r)
  {
    hide Exec, Handles, Refuses;
    forall w, q
      ensures Handles(capacity, steps[..n], m, w, q) == Handles(capacity, steps, m, w, q)
    {
      HandlesPrefix(capacity, steps, n, m, w, q);
    }
  }

  /** While nothing is queued, a pending revision leaves exactly when its version is handled. */
  lemma {:induction false} LeavesIff(capacity: Option<nat>, steps: seq<Step>, a: nat, r: Revision)
    requires Exec(capacity, steps).Some? && a <= |steps| && NoQueueing(steps, a) && Exec(capacity, steps[..a]).Some?
    requires r in Exec(capacity, steps[..a]).value.pending.Values
    ensures r in Exec(capacity, steps).value.pending.Values <==> !HandledSince(capacity, steps, a, r)
  {
    hide Exec, Handles, Revision.ResourceKey, Revision.Key;
    if a == |steps| {
      assert steps[..a] == steps;
    } else {
      var n := |steps| - 1;
      var before := steps[..n];
      LastStep(capacity, steps);
      assert before[..a] == steps[..a];
      LeavesIff(capacity, before, a, r);
      forall m: nat | m < n
        ensures HandledAt(capacity, before, m, r) == HandledAt(capacity, steps, m, r)
      {
        HandledPrefix(capacity, steps, n, m, r);
      }
      NothingEnters(capacity.Some?, Exec(capacity, before).value, steps[n]);
      if w, q :| Handles(capacity, steps, n, w, q) && SameVersion(q, r) {
        HandledLeaves(capacity, steps, w, q);
        assert HandledAt(capacity, steps, n, r);
        assert r !in Exec(capacity, steps).value.pending.Values by {
          SameVersionTransfers(Exec(capacity, steps).value.pending, q, r);
        }
      } else if r in Exec(capacity, before).value.pending.Values {
        UnhandledStays(capacity, steps, r);
      }
    }
  }

  lemma SameVersionTransfers(pending: Pending, q: Revision, r: Revision)
    requires SameVersion(q, r) && forall k :: k in pending ==> !SameVersion(pending[k], q)
    ensures r !in pending.Values
  {
  }

  // ---- a main cycle's accounts ----

  /** From step `a` on the main cycle handles the outcome of a write of `r`. */
  ghost predicate MainHandles(capacity: Option<nat>, steps: seq<Step>, a: nat, r: Revision) {
    exists m :: a <= m < |steps| && Handles(capacity, steps, m, Main, r)
  }

  /** From step `a` on the main cycle is refused a permit for `r`. */
  ghost predicate MainRefused(capacity: Option<nat>, steps: seq<Step>, a: nat, r: Revision) {
    exists m :: a <= m < |steps| && Refuses(capacity, steps, m, Main, r)
  }

  ghost predicate Accounted(status: Status, handled: bool, refused: bool) {
    match status
    case Written => handled && !refused
    case Failed => handled != refused
    case _ => !handled && !refused
  }

  /** The main cycle that took its snapshot in step `a` is under way. */
  ghost predicate Underway(capacity: Option<nat>, steps: seq<Step>, a: nat) {
    && Exec(capacity, steps).Some? && a < |steps| && steps[a].Snapshot? && steps[a].w == Main
    && forall i :: a < i < |steps| ==> steps[i] != Return(Main)
  }

  lemma LastHandles(capacity: Option<nat>, steps: seq<Step>, a: nat, r: Revision)
    requires a < |steps|
    ensures
      var n := |steps| - 1;
      && MainHandles(capacity, steps, a, r) ==
         ((a < n && MainHandles(capacity, steps[..n], a, r)) || Handles(capacity, steps, n, Main, r))
      && MainRefused(capacity, steps, a, r) ==
         ((a < n && MainRefused(capacity, steps[..n], a, r)) || Refuses(capacity, steps, n, Main, r))
  {
    hide Exec, Handles, Refuses;
    var n := |steps| - 1;
    forall m: nat | m < n
      ensures Handles(capacity, steps[..n], m, Main, r) == Handles(capacity, steps, m, Main, r)
      ensures Refuses(capacity, steps[..n], m, Main, r) == Refuses(capacity, steps, m, Main, r)
    {
      HandlesPrefix(capacity, steps, n, m, Main, r);
    }
  }

  /** The outcome that a step handles for an item, and the refusal it brings it. */
  ghost predicate StepHandles(c: Cycle, step: Step, r: Revision) {
    || (step.WriteNow? && step.w == Main && c.HasNext() && c.items[c.next].rev == r)
    || (step.Complete? && step.w == Main && c.Flushing? && step.i < |c.items| && c.items[step.i].rev == r)
  }

  ghost predicate StepRefuses(c: Cycle, step: Step, r: Revision) {
    step == Refuse(Main) && c.HasNext() && c.items[c.next].rev == r
  }

  /** A cycle under way keeps its revisions until it returns. */
  lemma KeepsItems(async: bool, s: State, step: Step)
    requires Enabled(async, s, step) && s.main.Flushing? && step != Return(Main)
    ensures
      var c, c' := s.main, Next(async, s, step).main;
      c'.Flushing? && |c'.items| == |c.items| && forall i :: 0 <= i < |c.items| ==> c'.items[i].rev == c.items[i].rev
  {
    hide Revision.ResourceKey, Revision.Key;
    if MarkOf(s, step, Main).Some? {
      MarkEffect(async, s, step, Main);
      hide Next, Enabled;
    } else {
      NothingMarked(async, s, step);
      hide Next, Enabled;
    }
  }

  /** The marked item's account. */
  lemma MarkAccounts(async: bool, s: State, step: Step, handled: bool, refused: bool)
    requires Enabled(async, s, step) && CycleOk(s.main, s.stored) && MarkOf(s, step, Main).Some?
    requires MarkOf(s, step, Main).value.0 < |s.main.items|
    requires Accounted(s.main.items[MarkOf(s, step, Main).value.0].status, handled, refused)
    ensures
      var (j, status) := MarkOf(s, step, Main).value;
      var r := s.main.items[j].rev;
      Accounted(status, handled || StepHandles(s.main, step, r), refused || StepRefuses(s.main, step, r))
  {
  }

  /** A step does not concern the items it does not mark. */
  lemma Unmarked(async: bool, s: State, step: Step, i: nat)
    requires Enabled(async, s, step) && CycleOk(s.main, s.stored) && s.main.Flushing? && i < |s.main.items|
    requires MarkOf(s, step, Main).Some? ==> MarkOf(s, step, Main).value.0 != i
    ensures !StepHandles(s.main, step, s.main.items[i].rev) && !StepRefuses(s.main, step, s.main.items[i].rev)
  {
  }

  /** One step of a cycle under way, for one of its items. */
  lemma ItemStep(async: bool, s: State, step: Step, i: nat, handled: bool, refused: bool)
    requires Enabled(async, s, step) && CycleOk(s.main, s.stored) && s.main.Flushing? && i < |s.main.items|
    requires step != Return(Main) && Accounted(s.main.items[i].status, handled, refused)
    ensures
      var c' := Next(async, s, step).main;
      c'.Flushing? && i < |c'.items| &&
      Accounted(c'.items[i].status, handled || StepHandles(s.main, step, s.main.items[i].rev),
                refused || StepRefuses(s.main, step, s.main.items[i].rev))
  {
    hide Revision.ResourceKey, Revision.Key, StepHandles, StepRefuses, Next, Enabled, CycleOk, Accounted, MarkOf;
    KeepsItems(async, s, step);
    if MarkOf(s, step, Main).Some? {
      MarkEffect(async, s, step, Main);
      if MarkOf(s, step, Main).value.0 == i {
        MarkAccounts(async, s, step, handled, refused);
      } else {
        Unmarked(async, s, step, i);
      }
    } else {
      Unmarked(async, s, step, i);
      NothingMarked(async, s, step);
    }
  }

  lemma NothingMarked(async: bool, s: State, step: Step)
    requires Enabled(async, s, step) && s.main.Flushing? && step != Return(Main) && MarkOf(s, step, Main) == None
    ensures Next(async, s, step).main == s.main
  {
    hide Revision.ResourceKey, Revision.Key, Cycle.Mark;
  }

  /** Each item of a cycle under way is one of its snapshot's, and accounted for. */
  ghost predicate Accounts(capacity: Option<nat>, steps: seq<Step>, a: nat)
    requires Underway(capacity, steps, a)
  {
    && var c := Exec(capacity, steps).value.main;
    && c.Flushing? && |c.items| == |steps[a].copy|
    && forall i :: 0 <= i < |c.items| ==>
         c.items[i].rev == steps[a].copy[i] && AccountedAt(capacity, steps, a, c.items[i])
  }

  ghost predicate AccountedAt(capacity: Option<nat>, steps: seq<Step>, a: nat, item: Item) {
    Accounted(item.status, MainHandles(capacity, steps, a, item.rev), MainRefused(capacity, steps, a, item.rev))
  }

  lemma {:induction false} AlwaysAccounts(capacity: Option<nat>, steps: seq<Step>, a: nat)
    requires Underway(capacity, steps, a)
    ensures Accounts(capacity, steps, a)
  {
    hide Exec, Next, Enabled, CycleOk, FromQueue, Keyed, AllCovered, Accounted, MainHandles, MainRefused;
    var n := |steps| - 1;
    LastStep(capacity, steps);
    if a == n {
      SnapshotAccounts(capacity, steps);
    } else {
      var before := steps[..n];
      PrefixUnderway(capacity, steps, a);
      AlwaysAccounts(capacity, before, a);
      Reachable(capacity, before);
      var s := Exec(capacity, before).value;
      KeepsItems(capacity.Some?, s, steps[n]);
      forall i | 0 <= i < |s.main.items|
        ensures AccountedAt(capacity, steps, a, Exec(capacity, steps).value.main.items[i])
      {
        assert AccountedAt(capacity, before, a, s.main.items[i]);
        var r := s.main.items[i].rev;
        ItemStep(capacity.Some?, s, steps[n], i,
                 MainHandles(capacity, before, a, r), MainRefused(capacity, before, a, r));
        LastHandles(capacity, steps, a, r);
        StepIsHandling(capacity, steps, r);
      }
    }
  }

  lemma PrefixUnderway(capacity: Option<nat>, steps: seq<Step>, a: nat)
    requires Underway(capacity, steps, a) && a < |steps| - 1 && Exec(capacity, steps[..|steps| - 1]).Some?
    ensures Underway(capacity, steps[..|steps| - 1], a)
  {
    hide Exec;
  }

  lemma StepIsHandling(capacity: Option<nat>, steps: seq<Step>, r: Revision)
    requires |steps| > 0 && Exec(capacity, steps[..|steps| - 1]).Some?
    requires Exec(capacity, steps[..|steps| - 1]).value.main.Flushing?
    ensures
      var n := |steps| - 1;
      var c := Exec(capacity, steps[..n]).value.main;
      && Handles(capacity, steps, n, Main, r) == StepHandles(c, steps[n], r)
      && Refuses(capacity, steps, n, Main, r) == StepRefuses(c, steps[n], r)
  {
    hide Exec;
  }

  lemma SnapshotAccounts(capacity: Option<nat>, steps: seq<Step>)
    requires |steps| > 0 && Underway(capacity, steps, |steps| - 1)
    ensures Accounts(capacity, steps, |steps| - 1)
  {
    hide Exec, Revision.ResourceKey, Revision.Key, Lists;
    LastStep(capacity, steps);
    hide Enabled;
  }

  lemma {:induction false} PendingShrinks(capacity: Option<nat>, steps: seq<Step>, a: nat)
    requires Exec(capacity, steps).Some? && a <= |steps| && NoQueueing(steps, a)
    ensures Exec(capacity, steps[..a]).Some?
    ensures Exec(capacity, steps).value.pending.Values <= Exec(capacity, steps[..a]).value.pending.Values
  {
    hide Exec;
    if a == |steps| {
      assert steps[..a] == steps;
    } else {
      var n := |steps| - 1;
      LastStep(capacity, steps);
      assert steps[..n][..a] == steps[..a];
      PendingShrinks(capacity, steps[..n], a);
      NothingEnters(capacity.Some?, Exec(capacity, steps[..n]).value, steps[n]);
    }
  }

  /** From step `a` on the retry cycle handles the version. */
  ghost predicate RetryHandles(capacity: Option<nat>, steps: seq<Step>, a: nat, r: Revision) {
    exists m :: a <= m < |steps| && RetryHandlesAt(capacity, steps, m, r)
  }

  ghost predicate RetryHandlesAt(capacity: Option<nat>, steps: seq<Step>, m: nat, r: Revision) {
    exists q :: Handles(capacity, steps, m, Retry, q) && SameVersion(q, r)
  }

  /** What the main cycle handles or is refused is of its snapshot. */
  lemma OfSnapshot(capacity: Option<nat>, steps: seq<Step>, a: nat, m: nat, q: Revision)
    requires Underway(capacity, steps, a) && a <= m < |steps|
    requires Handles(capacity, steps, m, Main, q) || Refuses(capacity, steps, m, Main, q)
    ensures q in steps[a].copy
  {
    hide Exec, AccountedAt;
    if m > a {
      RetryNeverDrains(capacity, steps, m);
      assert Underway(capacity, steps[..m], a);
      AlwaysAccounts(capacity, steps[..m], a);
    }
  }

  lemma SnapshotLists(capacity: Option<nat>, steps: seq<Step>, a: nat)
    requires Underway(capacity, steps, a)
    ensures Exec(capacity, steps[..a]).Some?
    ensures forall r :: r in steps[a].copy <==> r in Exec(capacity, steps[..a]).value.pending.Values
  {
    hide Exec;
    RetryNeverDrains(capacity, steps, a);
    RetryNeverDrains(capacity, steps, a + 1);
    assert steps[..a + 1][..a] == steps[..a];
    LastStep(capacity, steps[..a + 1]);
    ListsValues(steps[a].copy, steps[a].keys, Exec(capacity, steps[..a]).value.pending);
  }

  lemma ListsValues(copy: seq<Revision>, keys: seq<string>, m: Pending)
    requires Lists(copy, keys, m)
    ensures forall r :: r in copy <==> r in m.Values
  {
  }

  /** Two pending revisions of one version are one. */
  lemma OnePending(s: State, q: Revision, r: Revision)
    requires Keyed(s) && q in s.pending.Values && r in s.pending.Values && SameObject(q, r)
    ensures q == r
  {
    hide Revision.ResourceKey, Revision.Key;
    SameObjectKey(q, r);
  }

  /** Of a main cycle's snapshot, what was handled since is a version that a main or a retry response names. */
  lemma HandledByMain(capacity: Option<nat>, steps: seq<Step>, a: nat, r: Revision)
    requires Underway(capacity, steps, a) && r in steps[a].copy
    ensures HandledSince(capacity, steps, a, r) <==>
            MainHandles(capacity, steps, a, r) || RetryHandles(capacity, steps, a, r)
  {
    hide Exec, Handles, AllCovered, FromQueue, CyclesOk, Keyed;
    SnapshotLists(capacity, steps, a);
    Reachable(capacity, steps[..a]);
    if HandledSince(capacity, steps, a, r) {
      var m :| a <= m < |steps| && HandledAt(capacity, steps, m, r);
      var w, q :| Handles(capacity, steps, m, w, q) && SameVersion(q, r);
      if w == Main {
        OfSnapshot(capacity, steps, a, m, q);
        OnePending(Exec(capacity, steps[..a]).value, q, r);
      } else {
        assert RetryHandlesAt(capacity, steps, m, r);
      }
    }
    if m :| a <= m < |steps| && Handles(capacity, steps, m, Main, r) {
      assert HandledAt(capacity, steps, m, r);
    }
    if m :| a <= m < |steps| && RetryHandlesAt(capacity, steps, m, r) {
      assert HandledAt(capacity, steps, m, r);
    }
  }

  /**
   * When the main cycle has nothing left to do, and nothing was queued since its snapshot, exactly the
   * revisions that it was refused a permit for are still pending, but for those of a version that the retry
   * cycle handled meanwhile.
   */
  lemma RefusedStay(capacity: Option<nat>, steps: seq<Step>, a: nat, r: Revision)
    requires Underway(capacity, steps, a) && NoQueueing(steps, a) && Exec(capacity, steps).value.main.Done()
    ensures r in Exec(capacity, steps).value.pending.Values <==>
            MainRefused(capacity, steps, a, r) && !RetryHandles(capacity, steps, a, r)
  {
    hide Exec, Handles, Refuses, RetryHandles, HandledSince;
    PendingShrinks(capacity, steps, a);
    SnapshotLists(capacity, steps, a);
    AlwaysAccounts(capacity, steps, a);
    if m :| a <= m < |steps| && Refuses(capacity, steps, m, Main, r) {
      OfSnapshot(capacity, steps, a, m, r);
    }
    if r in steps[a].copy {
      HandledByMain(capacity, steps, a, r);
      LeavesIff(capacity, steps, a, r);
      var c := Exec(capacity, steps).value.main;
      var i :| 0 <= i < |steps[a].copy| && steps[a].copy[i] == r;
      hide MainHandles, MainRefused;
      assert AccountedAt(capacity, steps, a, c.items[i]) && c.items[i].rev == r;
    }
  }
}
