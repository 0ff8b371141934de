/**
 * The order of the flusher's writes. If the queue takes each object's versions in order, the main cycle never
 * writes an older version over a newer one; the retry cycle, which rewrites for ever, can.
 */
module WriteOrder {
  import opened Strings
  import opened Revisions
  import opened PendingCache
  import opened FlushProtocol
  import opened FlushRepair

  /** The revision that a step writes to the store. */
  function Writes(s: State, step: Step): Option<Revision> {
    match step
    case WriteNow(w, ok) => if ok && s.Of(w).HasNext() then Some(s.Of(w).items[s.Of(w).next].rev) else None
    case Answer(w, i, ok) => if ok && s.Of(w).At(i, Writing) then Some(s.Of(w).items[i].rev) else None
    case _ => None
  }

  predicate WrittenBy(step: Step, w: Which) {
    (step.WriteNow? || step.Answer?) && step.ok && step.w == w
  }

  /** The store's writes in the order in which it takes them. */
  ghost function Log(capacity: Option<nat>, steps: seq<Step>): seq<Revision>
    requires Exec(capacity, steps).Some?
  {
    if |steps| == 0 then []
    else
      var before := steps[..|steps| - 1];
      match Writes(Exec(capacity, before).value, steps[|steps| - 1])
      case None => Log(capacity, before)
      case Some(r) => Log(capacity, before) + [r]
  }

  /** No object's version is written after a newer one. */
  ghost predicate Rises(log: seq<Revision>) {
    forall i, j :: 0 <= i < j < |log| && SameObject(log[i], log[j]) ==>
      log[i].resourceVersion <= log[j].resourceVersion
  }

  /** The queue takes each object's versions in order. */
  ghost predicate RisingQueue(steps: seq<Step>) {
    forall i, j ::
      0 <= i < j < |steps| && steps[i].QueueRev? && steps[j].QueueRev? && SameObject(steps[i].rev, steps[j].rev) ==>
        steps[i].rev.resourceVersion <= steps[j].rev.resourceVersion
  }

  /** The store has nothing newer of the revision's object. */
  ghost predicate Fresh(stored: set<Revision>, r: Revision) {
    forall p :: p in stored && SameObject(p, r) ==> p.resourceVersion <= r.resourceVersion
  }

  /** Whenever the retry cycle writes, the store has nothing newer. */
  ghost predicate RetriesFresh(capacity: Option<nat>, steps: seq<Step>)
    requires Exec(capacity, steps).Some?
  {
    if |steps| == 0 then true
    else
      var before, last := steps[..|steps| - 1], steps[|steps| - 1];
      var s := Exec(capacity, before).value;
      RetriesFresh(capacity, before) &&
      (WrittenBy(last, Retry) && Writes(s, last).Some? ==> Fresh(s.stored, Writes(s, last).value))
  }

  // ---- what is written is stored ----

  lemma WriteStored(async: bool, s: State, step: Step)
    requires Enabled(async, s, step)
    ensures Next(async, s, step).stored ==
            s.stored + match Writes(s, step) case None => {} case Some(r) => {r}
    ensures Writes(s, step).Some? <==> WrittenBy(step, Main) || WrittenBy(step, Retry)
  {
    hide Revision.ResourceKey, Revision.Key;
  }

  lemma {:induction false} LogIsStored(capacity: Option<nat>, steps: seq<Step>)
    requires Exec(capacity, steps).Some?
    ensures forall r :: r in Log(capacity, steps) <==> r in Exec(capacity, steps).value.stored
  {
    hide Next, Enabled, Revision.ResourceKey, Revision.Key, Writes;
    if |steps| > 0 {
      var before := steps[..|steps| - 1];
      LogIsStored(capacity, before);
      WriteStored(capacity.Some?, Exec(capacity, before).value, steps[|steps| - 1]);
    }
  }

  // ---- the main cycle is ahead ----

  /** Stored, or on its way through the retry cycle. */
  predicate Out(s: State, r: Revision) {
    r in s.stored || r in s.retry.Values || r in s.main.Failures() || r in s.retrying.Failures() ||
    InItems(s.retrying, r)
  }

  /** A pending entry is the newest queued of its object. */
  ghost predicate PendingAhead(s: State) {
    forall k, q :: k in s.pending && q in s.queued && q.ResourceKey() == k ==>
      q.resourceVersion <= s.pending[k].resourceVersion
  }

  ghost predicate NoneNewerOut(s: State, rev: Revision) {
    forall r :: Out(s, r) && r.ResourceKey() == rev.ResourceKey() ==> r.resourceVersion <= rev.resourceVersion
  }

  /** The main cycle's items are of different objects, and nothing that left it is newer. */
  ghost predicate MainAhead(s: State) {
    s.main.Flushing? ==>
      && (forall i, j :: 0 <= i < j < |s.main.items| ==>
            s.main.items[i].rev.ResourceKey() != s.main.items[j].rev.ResourceKey())
      && (forall i :: 0 <= i < |s.main.items| ==> NoneNewerOut(s, s.main.items[i].rev))
  }

  /** Everything the revision's object had queued so far is at most as new. */
  ghost predicate Latest(s: State, rev: Revision) {
    forall q :: q in s.queued && q.ResourceKey() == rev.ResourceKey() ==> q.resourceVersion <= rev.resourceVersion
  }

  lemma PendingAheadStep(async: bool, s: State, step: Step)
    requires Enabled(async, s, step) && PendingAhead(s)
    requires step.QueueRev? ==> Latest(s, step.rev)
    ensures PendingAhead(Next(async, s, step))
  {
    hide Revision.ResourceKey, Revision.Key;
  }

  lemma OutStored(async: bool, s: State, step: Step, r: Revision)
    requires Enabled(async, s, step) && r in Next(async, s, step).stored
    ensures r in s.stored || InItems(s.main, r) || InItems(s.retrying, r)
  {
    WriteStored(async, s, step);
    hide Next, Enabled;
  }

  lemma OutRetry(async: bool, s: State, step: Step, r: Revision)
    requires Enabled(async, s, step) && r in Next(async, s, step).retry.Values
    ensures r in s.retry.Values || r in s.main.Failures() || r in s.retrying.Failures()
  {
    hide Revision.ResourceKey, Revision.Key, Cycle.Mark;
    if !step.HandOver? {
      RetryOtherwise(async, s, step);
    }
  }

  lemma OutFailures(async: bool, s: State, step: Step, w: Which, r: Revision)
    requires Enabled(async, s, step) && r in Next(async, s, step).Of(w).Failures()
    ensures r in s.Of(w).Failures() || InItems(s.Of(w), r)
  {
    hide Revision.ResourceKey, Revision.Key;
    if MarkOf(s, step, w).Some? {
      MarkEffect(async, s, step, w);
      hide Next, Enabled;
    } else {
      OtherEffect(async, s, step, w);
      hide Next, Enabled;
    }
  }

  /** A cycle's items stay the same revisions until it returns, unless it takes a snapshot. */
  lemma ItemsStep(async: bool, s: State, step: Step, w: Which)
    requires Enabled(async, s, step) && Next(async, s, step).Of(w).Flushing?
    ensures
      var c, c' := s.Of(w), Next(async, s, step).Of(w);
      if step.Snapshot? && step.w == w then
        c.Idle? && c' == Flushing(Items(step.copy), 0, [])
      else
        c.Flushing? && |c'.items| == |c.items| && forall i :: 0 <= i < |c.items| ==> c'.items[i].rev == c.items[i].rev
  {
    hide Revision.ResourceKey, Revision.Key;
    if MarkOf(s, step, w).Some? {
      MarkEffect(async, s, step, w);
      hide Next, Enabled;
    } else {
      OtherEffect(async, s, step, w);
      if !step.Snapshot? {
        hide Next, Enabled;
      }
    }
  }

  lemma OutItems(async: bool, s: State, step: Step, r: Revision)
    requires Enabled(async, s, step) && InItems(Next(async, s, step).retrying, r)
    ensures InItems(s.retrying, r) || r in s.retry.Values
  {
    hide Revision.ResourceKey, Revision.Key, Next, Cycle.Mark;
    ItemsStep(async, s, step, Retry);
  }

  /** What leaves the main cycle was among its items. */
  lemma OutStep(async: bool, s: State, step: Step, r: Revision)
    requires Enabled(async, s, step) && Out(Next(async, s, step), r)
    ensures Out(s, r) || InItems(s.main, r)
  {
    hide Next, Enabled, InItems;
    var s' := Next(async, s, step);
    if r in s'.stored { OutStored(async, s, step, r); }
    if r in s'.retry.Values { OutRetry(async, s, step, r); }
    if r in s'.main.Failures() { OutFailures(async, s, step, Main, r); }
    if r in s'.retrying.Failures() { OutFailures(async, s, step, Retry, r); }
    if InItems(s'.retrying, r) { OutItems(async, s, step, r); }
  }

  lemma OutQueued(s: State, r: Revision)
    requires FromQueue(s) && Out(s, r)
    ensures r in s.queued && r.WellFormed()
  {
    hide Revision.WellFormed;
  }

  lemma MainAheadStep(async: bool, s: State, step: Step)
    requires Structure(s) && Enabled(async, s, step) && PendingAhead(s) && MainAhead(s)
    ensures MainAhead(Next(async, s, step))
  {
    hide Next, Enabled, Out, Structure, PendingAhead, Revision.ResourceKey, Revision.WellFormed;
    var s' := Next(async, s, step);
    if s'.main.Flushing? {
      ItemsStep(async, s, step, Main);
      if step.Snapshot? && step.w == Main {
        SnapshotAhead(async, s, step);
      } else {
        forall i | 0 <= i < |s'.main.items|
          ensures NoneNewerOut(s', s'.main.items[i].rev)
        {
          SameItemsAhead(async, s, step, i);
        }
      }
    }
  }

  lemma SameItemsAhead(async: bool, s: State, step: Step, i: nat)
    requires Enabled(async, s, step) && s.main.Flushing? && MainAhead(s) && i < |s.main.items|
    ensures NoneNewerOut(Next(async, s, step), s.main.items[i].rev)
  {
    hide Next, Enabled, Out, Revision.ResourceKey;
    assert NoneNewerOut(s, s.main.items[i].rev);
    forall r | Out(Next(async, s, step), r) && r.ResourceKey() == s.main.items[i].rev.ResourceKey()
      ensures r.resourceVersion <= s.main.items[i].rev.resourceVersion
    {
      OutStep(async, s, step, r);
    }
  }

  lemma SnapshotAhead(async: bool, s: State, step: Step)
    requires Structure(s) && Enabled(async, s, step) && PendingAhead(s) && step.Snapshot? && step.w == Main
    ensures MainAhead(Next(async, s, step))
  {
    hide Out, Revision.ResourceKey, Revision.Key, Revision.WellFormed, FromQueue, CycleOk;
    var s' := Next(async, s, step);
    assert s'.main.items == Items(step.copy);
    forall i | 0 <= i < |step.copy|
      ensures NoneNewerOut(s', step.copy[i])
    {
      forall r | Out(s', r) && r.ResourceKey() == step.copy[i].ResourceKey()
        ensures r.resourceVersion <= step.copy[i].resourceVersion
      {
        OutStep(async, s, step, r);
        OutQueued(s, r);
        assert step.keys[i] in s.pending && s.pending[step.keys[i]] == step.copy[i];
      }
    }
  }

  // ---- over whole runs ----

  lemma QueuedStep(async: bool, s: State, step: Step)
    requires Enabled(async, s, step)
    ensures Next(async, s, step).queued == s.queued + if step.QueueRev? then {step.rev} else {}
  {
    hide Revision.ResourceKey, Revision.Key, Cycle.Mark;
  }

  lemma {:induction false} QueuedAt(capacity: Option<nat>, steps: seq<Step>, q: Revision)
    requires Exec(capacity, steps).Some? && q in Exec(capacity, steps).value.queued
    ensures QueueRev(q) in steps
  {
    hide Next, Enabled, Revision.ResourceKey, Revision.Key;
    if |steps| > 0 {
      var before := steps[..|steps| - 1];
      QueuedStep(capacity.Some?, Exec(capacity, before).value, steps[|steps| - 1]);
      if q in Exec(capacity, before).value.queued {
        QueuedAt(capacity, before, q);
      }
    }
  }

  lemma LatestQueued(capacity: Option<nat>, steps: seq<Step>, rev: Revision)
    requires Exec(capacity, steps).Some? && RisingQueue(steps + [QueueRev(rev)]) && rev.WellFormed()
    ensures Latest(Exec(capacity, steps).value, rev)
  {
    hide Exec, Revision.ResourceKey, Revision.Key, Revision.WellFormed, CyclesOk, Keyed, CycleFromQueue, AllCovered;
    var s := Exec(capacity, steps).value;
    Reachable(capacity, steps);
    forall q | q in s.queued && q.ResourceKey() == rev.ResourceKey()
      ensures q.resourceVersion <= rev.resourceVersion
    {
      QueuedAt(capacity, steps, q);
      ResourceKeyInjective(q, rev);
      var i :| 0 <= i < |steps| && steps[i] == QueueRev(q);
      var longer := steps + [QueueRev(rev)];
      assert longer[i] == QueueRev(q) && longer[|steps|] == QueueRev(rev);
    }
  }

  lemma RisingPrefix(steps: seq<Step>, n: nat)
    requires RisingQueue(steps) && n <= |steps|
    ensures RisingQueue(steps[..n])
  {
  }

  lemma {:induction false} AlwaysAhead(capacity: Option<nat>, steps: seq<Step>)
    requires Exec(capacity, steps).Some? && RisingQueue(steps)
    ensures PendingAhead(Exec(capacity, steps).value) && MainAhead(Exec(capacity, steps).value)
  {
    hide Next, Revision.ResourceKey, Revision.Key, Structure, RisingQueue, Latest;
    if |steps| > 0 {
      var before, last := steps[..|steps| - 1], steps[|steps| - 1];
      assert before + [last] == steps;
      RisingPrefix(steps, |before|);
      AlwaysAhead(capacity, before);
      Reachable(capacity, before);
      if last.QueueRev? {
        LatestQueued(capacity, before, last.rev);
      }
      hide Enabled;
      PendingAheadStep(capacity.Some?, Exec(capacity, before).value, last);
      MainAheadStep(capacity.Some?, Exec(capacity, before).value, last);
    }
  }

  lemma MainWritesFresh(async: bool, s: State, step: Step)
    requires Enabled(async, s, step) && MainAhead(s)
    requires WrittenBy(step, Main) && Writes(s, step).Some?
    ensures Fresh(s.stored, Writes(s, step).value)
  {
    hide Revision.ResourceKey, Revision.Key;
    var rev := Writes(s, step).value;
    forall p | p in s.stored && SameObject(p, rev)
      ensures p.resourceVersion <= rev.resourceVersion
    {
      SameObjectKey(p, rev);
      assert Out(s, p);
    }
  }

  lemma SameObjectKey(a: Revision, b: Revision)
    requires SameObject(a, b)
    ensures a.ResourceKey() == b.ResourceKey()
  {
  }

  lemma RisesLast(log: seq<Revision>, r: Revision, stored: set<Revision>)
    requires forall p :: p in log <==> p in stored
    ensures Rises(log + [r]) <==> Rises(log) && Fresh(stored, r)
  {
    var longer := log + [r];
    if Rises(longer) {
      forall i, j | 0 <= i < j < |log| && SameObject(log[i], log[j])
        ensures log[i].resourceVersion <= log[j].resourceVersion
      {
        assert longer[i] == log[i] && longer[j] == log[j];
      }
      forall p | p in stored && SameObject(p, r)
        ensures p.resourceVersion <= r.resourceVersion
      {
        var i :| 0 <= i < |log| && log[i] == p;
        assert longer[i] == p && longer[|log|] == r;
      }
    }
  }

  /**
   * If the queue takes each object's versions in order, then the store's writes rise in version exactly when
   * the store has nothing newer whenever the retry cycle writes.
   */
  lemma {:induction false} WritesRiseIff(capacity: Option<nat>, steps: seq<Step>)
    requires Exec(capacity, steps).Some? && RisingQueue(steps)
    ensures Rises(Log(capacity, steps)) <==> RetriesFresh(capacity, steps)
  {
    hide Next, Enabled, Revision.ResourceKey, Revision.Key, RisingQueue, MainAhead, PendingAhead, Writes, Fresh, Rises;
    if |steps| == 0 {
      assert Rises([]) by { NothingRises(); }
    } else {
      var before, last := steps[..|steps| - 1], steps[|steps| - 1];
      var s := Exec(capacity, before).value;
      RisingPrefix(steps, |before|);
      WritesRiseIff(capacity, before);
      AlwaysAhead(capacity, before);
      LogIsStored(capacity, before);
      WriteStored(capacity.Some?, s, last);
      if Writes(s, last).Some? {
        RisesLast(Log(capacity, before), Writes(s, last).value, s.stored);
        if WrittenBy(last, Main) {
          MainWritesFresh(capacity.Some?, s, last);
        }
      }
    }
  }

  lemma NothingRises()
    ensures Rises([])
  {
  }

  // ---- when nothing fails ----

  /** The retry cycle has nothing to write. */
  ghost predicate NoRetries(s: State) {
    NothingFailed(s) && (s.retrying.Flushing? ==> s.retrying.items == [])
  }

  lemma NoRetriesStep(async: bool, s: State, step: Step)
    requires Enabled(async, s, step) && NoRetries(s) && !Fails(step)
    ensures NoRetries(Next(async, s, step))
    ensures !(WrittenBy(step, Retry) && Writes(s, step).Some?)
  {
    NothingFailedStep(async, s, step);
    hide Revision.ResourceKey, Revision.Key;
    if Next(async, s, step).retrying.Flushing? {
      ItemsStep(async, s, step, Retry);
    }
    if step.Snapshot? && step.w == Retry {
      NothingListed(step.copy, step.keys, s.retry);
    }
  }

  lemma NothingListed(copy: seq<Revision>, keys: seq<string>, m: Pending)
    requires Lists(copy, keys, m)
    ensures m == map[] ==> copy == []
  {
    if |keys| > 0 {
      assert keys[0] in m;
    }
  }

  /** A run without failures writes each object's versions in the order in which they were queued. */
  lemma NoFailureRises(capacity: Option<nat>, steps: seq<Step>)
    requires Exec(capacity, steps).Some? && RisingQueue(steps) && NoFailure(steps)
    ensures Rises(Log(capacity, steps))
  {
    NoFailureRetries(capacity, steps);
    WritesRiseIff(capacity, steps);
  }

  lemma {:induction false} NoFailureRetries(capacity: Option<nat>, steps: seq<Step>)
    requires Exec(capacity, steps).Some? && NoFailure(steps)
    ensures RetriesFresh(capacity, steps) && NoRetries(Exec(capacity, steps).value)
  {
    hide Next, Enabled, Revision.ResourceKey, Revision.Key, Fails, Writes;
    if |steps| > 0 {
      var before, last := steps[..|steps| - 1], steps[|steps| - 1];
      assert before + [last] == steps;
      NoFailureLast(before, last);
      NoFailureRetries(capacity, before);
      NoRetriesStep(capacity.Some?, Exec(capacity, before).value, last);
    }
  }
}
