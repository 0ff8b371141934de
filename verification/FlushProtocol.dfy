/**
 * The flusher's two concurrent cycles as a step relation: the main cycle flushes the pending cache, the
 * retry cycle flushes the revisions whose writes failed, and both hand their failures to the retry cache.
 * A write goes through a semaphore when there is one. The end of a write, the taking of its response, the
 * handling of that response and the release of its permit are separate steps; handling one response is a
 * single step.
 */
module FlushProtocol {
  import opened Strings
  import opened Revisions
  import opened PendingCache

  /** How far one revision of a cycle's snapshot has come. */
  datatype Status =
    | Waiting                // not yet submitted
    | Writing                // permit held, write not finished
    | Answered(ok: bool)     // permit held, the writer is blocked on its response channel
    | Received(ok: bool)     // the response was taken, its handling is still to come
    | Written
    | Failed

  datatype Item = Item(rev: Revision, status: Status)

  datatype Cycle =
    | Idle
    | Flushing(items: seq<Item>, next: nat, failed: seq<Revision>)
    | HandingOver(failed: seq<Revision>)
  {
    /** Item `i` reaches a status; a failure joins the failed list, and submitting the next item moves on. */
    function Mark(i: nat, status: Status): (c: Cycle)
      requires Flushing? && i < |items|
      ensures c.Flushing?
    {
      Flushing(items[i := Item(items[i].rev, status)],
               if i == next then next + 1 else next,
               if status == Failed then failed + [items[i].rev] else failed)
    }

    predicate At(i: nat, status: Status) {
      Flushing? && i < |items| && items[i].status == status
    }

    predicate HasNext() { Flushing? && next < |items| }

    predicate Done() {
      Flushing? && next == |items| &&
      forall i :: 0 <= i < |items| ==> items[i].status == Written || items[i].status == Failed
    }

    function Failures(): seq<Revision> { if Idle? then [] else failed }
  }

  datatype Which = Main | Retry

  /** `queued` and `stored` record every revision ever queued and ever written to the store. */
  datatype State = State(
    pending: Pending,
    retry: Pending,
    main: Cycle,
    retrying: Cycle,
    free: nat,
    releasing: nat,
    queued: set<Revision>,
    stored: set<Revision>)
  {
    function Of(w: Which): Cycle { if w == Main then main else retrying }

    function With(w: Which, c: Cycle): State {
      if w == Main then this.(main := c) else this.(retrying := c)
    }

    function Source(w: Which): Pending { if w == Main then pending else retry }
  }

  datatype Step =
    | QueueRev(rev: Revision)
    | Snapshot(w: Which, copy: seq<Revision>, keys: seq<string>)
    | Submit(w: Which)                        // acquire a permit and start the write
    | Refuse(w: Which)                        // Acquire fails: no write and no completion
    | WriteNow(w: Which, ok: bool)            // without a semaphore: write and complete at once
    | Answer(w: Which, i: nat, ok: bool)      // the write ends
    | Receive(w: Which, i: nat, ok: bool)     // its response is taken
    | Release                                 // a finished writer gives its permit back
    | Complete(w: Which, i: nat, ok: bool)    // the response is handled
    | Return(w: Which)                        // every write is handled: flush returns
    | HandOver(w: Which)                      // one failed revision enters the retry cache

  function Init(capacity: Option<nat>): State {
    State(map[], map[], Idle, Idle, if capacity.Some? then capacity.value else 0, 0, {}, {})
  }

  ghost predicate Enabled(async: bool, s: State, step: Step) {
    match step
    case QueueRev(rev) => rev.WellFormed()
    case Snapshot(w, copy, keys) => s.Of(w).Idle? && Lists(copy, keys, s.Source(w))
    case Submit(w) => async && s.Of(w).HasNext() && s.free > 0
    case Refuse(w) => async && s.Of(w).HasNext()
    case WriteNow(w, _) => !async && s.Of(w).HasNext()
    case Answer(w, i, _) => s.Of(w).At(i, Writing)
    case Receive(w, i, ok) => s.Of(w).At(i, Answered(ok))
    case Release => s.releasing > 0
    case Complete(w, i, ok) => s.Of(w).At(i, Received(ok))
    case Return(w) => s.Of(w).Done()
    case HandOver(w) => s.Of(w).HandingOver?
  }

  /** The response for item `i` is handled: the cycle settles it, and the main cache is cleared of it. */
  function Handled(s: State, w: Which, i: nat, ok: bool): State
    requires s.Of(w).Flushing? && i < |s.Of(w).items|
  {
    var rev := s.Of(w).items[i].rev;
    s.With(w, s.Of(w).Mark(i, if ok then Written else Failed))
     .(pending := Evict(s.pending, rev.ResourceKey(), rev))
  }

  function Store(s: State, rev: Revision, ok: bool): State {
    if ok then s.(stored := s.stored + {rev}) else s
  }

  function Items(copy: seq<Revision>): seq<Item> {
    seq(|copy|, i requires 0 <= i < |copy| => Item(copy[i], Waiting))
  }

  ghost function Next(async: bool, s: State, step: Step): State
    requires Enabled(async, s, step)
  {
    match step
    case QueueRev(rev) =>
      s.(pending := Put(s.pending, rev.ResourceKey(), rev), queued := s.queued + {rev})
    case Snapshot(w, copy, _) => s.With(w, Flushing(Items(copy), 0, []))
    case Submit(w) => s.With(w, s.Of(w).Mark(s.Of(w).next, Writing)).(free := s.free - 1)
    case Refuse(w) => s.With(w, s.Of(w).Mark(s.Of(w).next, Failed))
    case WriteNow(w, ok) =>
      var i := s.Of(w).next;
      Handled(Store(s, s.Of(w).items[i].rev, ok), w, i, ok)
    case Answer(w, i, ok) =>
      Store(s.With(w, s.Of(w).Mark(i, Answered(ok))), s.Of(w).items[i].rev, ok)
    case Receive(w, i, ok) =>
      s.With(w, s.Of(w).Mark(i, Received(ok))).(releasing := s.releasing + 1)
    case Release => s.(releasing := s.releasing - 1, free := s.free + 1)
    case Complete(w, i, ok) => Handled(s, w, i, ok)
    case Return(w) => s.With(w, HandingOver(s.Of(w).failed))
    case HandOver(w) =>
      var failed := s.Of(w).failed;
      if failed == [] then s.With(w, Idle)
      else
        s.With(w, HandingOver(failed[1..])).(retry := Put(s.retry, failed[0].Key(), failed[0]))
  }

  /** The state after a run, or None when some step of it is not enabled. */
  ghost function Exec(capacity: Option<nat>, steps: seq<Step>): Option<State> {
    if |steps| == 0 then Some(Init(capacity))
    else
      var before := Exec(capacity, steps[..|steps| - 1]);
      var step := steps[|steps| - 1];
      if before.Some? && Enabled(capacity.Some?, before.value, step)
      then Some(Next(capacity.Some?, before.value, step))
      else None
  }

  // ---- the cycles ----

  /** The snapshot's revisions are distinct, and the failed list holds exactly those that failed. */
  ghost predicate CycleOk(c: Cycle, stored: set<Revision>) {
    c.Flushing? ==>
      && c.next <= |c.items|
      && (forall i :: 0 <= i < |c.items| ==> (c.items[i].status == Waiting <==> c.next <= i))
      && (forall i, j :: 0 <= i < j < |c.items| ==> c.items[i].rev != c.items[j].rev)
      && (forall i :: 0 <= i < |c.items| ==> (c.items[i].status == Failed <==> c.items[i].rev in c.failed))
      && (forall r :: r in c.failed ==> exists i :: 0 <= i < |c.items| && c.items[i].rev == r)
      && (forall i, j :: 0 <= i < j < |c.failed| ==> c.failed[i] != c.failed[j])
      && (forall i :: 0 <= i < |c.items| && Succeeded(c.items[i].status) ==> c.items[i].rev in stored)
  }

  predicate InFlight(status: Status) {
    status.Writing? || status.Answered? || status.Received?
  }

  predicate Succeeded(status: Status) {
    status == Answered(true) || status == Received(true) || status == Written
  }

  /** The caches' entries lie under their own keys. */
  ghost predicate Keyed(s: State) {
    && (forall k :: k in s.pending ==> s.pending[k].ResourceKey() == k)
    && (forall k :: k in s.retry ==> s.retry[k].Key() == k)
  }

  /** Every revision the flusher holds was queued. */
  ghost predicate FromQueue(s: State) {
    CachesFromQueue(s) && CycleFromQueue(s.main, s.queued) && CycleFromQueue(s.retrying, s.queued)
  }

  ghost predicate CachesFromQueue(s: State) {
    && (forall r :: r in s.queued ==> r.WellFormed())
    && (forall k :: k in s.pending ==> s.pending[k] in s.queued)
    && (forall k :: k in s.retry ==> s.retry[k] in s.queued)
    && s.stored <= s.queued
  }

  ghost predicate CycleFromQueue(c: Cycle, queued: set<Revision>) {
    && (forall r :: r in c.Failures() ==> r in queued)
    && (c.Flushing? ==> forall i :: 0 <= i < |c.items| ==> c.items[i].rev in queued)
  }

  ghost predicate CyclesOk(s: State) {
    CycleOk(s.main, s.stored) && CycleOk(s.retrying, s.stored)
  }

  ghost predicate Structure(s: State) {
    Keyed(s) && FromQueue(s) && CyclesOk(s)
  }

  lemma MarkOk(c: Cycle, stored: set<Revision>, i: nat, status: Status)
    requires CycleOk(c, stored) && c.Flushing? && i < |c.items|
    requires i == c.next || InFlight(c.items[i].status)
    requires status != Waiting
    requires Succeeded(status) ==> Succeeded(c.items[i].status) || c.items[i].rev in stored
    ensures CycleOk(c.Mark(i, status), stored)
  {
    var c' := c.Mark(i, status);
    var rev := c.items[i].rev;
    assert rev !in c.failed;
    assert forall j :: 0 <= j < |c.items| ==> c'.items[j].rev == c.items[j].rev;
    forall r | r in c'.failed
      ensures exists j :: 0 <= j < |c'.items| && c'.items[j].rev == r
    {
      if r in c.failed {
        var j :| 0 <= j < |c.items| && c.items[j].rev == r;
        assert c'.items[j].rev == r;
      } else {
        assert c'.items[i].rev == r;
      }
    }
  }

  lemma MoreStored(c: Cycle, stored: set<Revision>, stored': set<Revision>)
    requires CycleOk(c, stored) && stored <= stored'
    ensures CycleOk(c, stored')
  {
  }

  lemma NotFlushingOk(c: Cycle, stored: set<Revision>)
    ensures c.Flushing? || CycleOk(c, stored)
  {
  }

  lemma SnapshotOk(copy: seq<Revision>, keys: seq<string>, s: State, w: Which)
    requires Keyed(s) && Lists(copy, keys, s.Source(w))
    ensures CycleOk(Flushing(Items(copy), 0, []), s.stored)
  {
    forall i, j | 0 <= i < j < |copy|
      ensures copy[i] != copy[j]
    {
      assert keys[i] != keys[j];
    }
  }

  /** The item of cycle `w` that a step marks, and with what. */
  function MarkOf(s: State, step: Step, w: Which): Option<(nat, Status)> {
    match step
    case Submit(v) => if v == w && s.Of(w).Flushing? then Some((s.Of(w).next, Writing)) else None
    case Refuse(v) => if v == w && s.Of(w).Flushing? then Some((s.Of(w).next, Failed)) else None
    case WriteNow(v, ok) =>
      if v == w && s.Of(w).Flushing? then Some((s.Of(w).next, if ok then Written else Failed)) else None
    case Answer(v, i, ok) => if v == w then Some((i, Answered(ok))) else None
    case Receive(v, i, ok) => if v == w then Some((i, Received(ok))) else None
    case Complete(v, i, ok) => if v == w then Some((i, if ok then Written else Failed)) else None
    case _ => None
  }

  /** A marking step marks its item, and only what was stored is marked as having succeeded. */
  lemma MarkEffect(async: bool, s: State, step: Step, w: Which)
    requires Enabled(async, s, step) && MarkOf(s, step, w).Some?
    ensures
      var (i, status) := MarkOf(s, step, w).value;
      var c, s' := s.Of(w), Next(async, s, step);
      && c.Flushing? && i < |c.items| && s'.Of(w) == c.Mark(i, status)
      && (i == c.next || InFlight(c.items[i].status)) && status != Waiting
      && (Succeeded(status) ==> Succeeded(c.items[i].status) || c.items[i].rev in s'.stored)
  {
    hide Revision.ResourceKey, Revision.Key, Cycle.Mark;
  }

  /** The other steps leave the cycle alone, start it on a snapshot, return it, or hand over a failure. */
  lemma OtherEffect(async: bool, s: State, step: Step, w: Which)
    requires Enabled(async, s, step) && MarkOf(s, step, w) == None
    ensures
      var c, c' := s.Of(w), Next(async, s, step).Of(w);
      || c' == c
      || (step.Snapshot? && step.w == w && c' == Flushing(Items(step.copy), 0, []))
      || (c.Done() && c' == HandingOver(c.failed))
      || (c.HandingOver? && (c' == Idle || (c.failed != [] && c' == HandingOver(c.failed[1..]))))
  {
    hide Revision.ResourceKey, Revision.Key;
  }

  lemma CycleStep(async: bool, s: State, step: Step, w: Which)
    requires Keyed(s) && CycleOk(s.Of(w), s.stored) && Enabled(async, s, step)
    ensures CycleOk(Next(async, s, step).Of(w), Next(async, s, step).stored)
  {
    var s' := Next(async, s, step);
    MoreStored(s.Of(w), s.stored, s'.stored);
    if step.Snapshot? && step.w == w {
      SnapshotOk(step.copy, step.keys, s, w);
      MoreStored(Flushing(Items(step.copy), 0, []), s.stored, s'.stored);
    }
    hide Next, Enabled, Keyed, CycleOk, Cycle.Mark, MarkOf;
    if MarkOf(s, step, w).Some? {
      MarkEffect(async, s, step, w);
      var (i, status) := MarkOf(s, step, w).value;
      MarkOk(s.Of(w), s'.stored, i, status);
    } else {
      OtherEffect(async, s, step, w);
      NotFlushingOk(s'.Of(w), s'.stored);
    }
  }

  lemma KeyedStep(async: bool, s: State, step: Step)
    requires Keyed(s) && Enabled(async, s, step)
    ensures Keyed(Next(async, s, step))
  {
    hide Revision.ResourceKey, Revision.Key, Cycle.Mark;
  }

  lemma MarkFromQueue(c: Cycle, queued: set<Revision>, i: nat, status: Status)
    requires CycleFromQueue(c, queued) && c.Flushing? && i < |c.items|
    ensures CycleFromQueue(c.Mark(i, status), queued)
  {
  }

  lemma CycleFromQueueStep(async: bool, s: State, step: Step, w: Which)
    requires FromQueue(s) && Enabled(async, s, step)
    ensures CycleFromQueue(Next(async, s, step).Of(w), Next(async, s, step).queued)
  {
    var s' := Next(async, s, step);
    assert s.queued <= s'.queued && CycleFromQueue(s.Of(w), s'.queued);
    if step.Snapshot? && step.w == w {
      SnapshotFromQueue(s, w, step.copy, step.keys);
    }
    hide Next, Enabled, FromQueue, Cycle.Mark, MarkOf, Revision.WellFormed;
    if MarkOf(s, step, w).Some? {
      MarkEffect(async, s, step, w);
      var (i, status) := MarkOf(s, step, w).value;
      MarkFromQueue(s.Of(w), s'.queued, i, status);
    } else {
      OtherEffect(async, s, step, w);
    }
  }

  lemma SnapshotFromQueue(s: State, w: Which, copy: seq<Revision>, keys: seq<string>)
    requires CachesFromQueue(s) && Lists(copy, keys, s.Source(w))
    ensures CycleFromQueue(Flushing(Items(copy), 0, []), s.queued)
  {
    hide Revision.WellFormed;
  }

  lemma CachesFromQueueStep(async: bool, s: State, step: Step)
    requires FromQueue(s) && Enabled(async, s, step)
    ensures CachesFromQueue(Next(async, s, step))
  {
    hide Revision.ResourceKey, Revision.Key, Revision.WellFormed, Cycle.Mark;
  }

  lemma FromQueueStep(async: bool, s: State, step: Step)
    requires FromQueue(s) && Enabled(async, s, step)
    ensures FromQueue(Next(async, s, step))
  {
    CachesFromQueueStep(async, s, step);
    CycleFromQueueStep(async, s, step, Main);
    CycleFromQueueStep(async, s, step, Retry);
    hide Next, CachesFromQueue, CycleFromQueue;
  }

  // ---- permits ----

  predicate HoldsPermit(status: Status) { status.Writing? || status.Answered? }

  function Held(status: Status): nat { if HoldsPermit(status) then 1 else 0 }

  function Holding(items: seq<Item>): nat {
    if |items| == 0 then 0
    else Holding(items[..|items| - 1]) + Held(items[|items| - 1].status)
  }

  /** The writes of a cycle that hold a permit. */
  function Outstanding(c: Cycle): nat { if c.Flushing? then Holding(c.items) else 0 }

  lemma {:induction false} HoldingUpdate(items: seq<Item>, i: nat, item: Item)
    requires i < |items|
    ensures Holding(items[i := item]) ==
            Holding(items) - Held(items[i].status) + Held(item.status)
  {
    var n := |items| - 1;
    var items' := items[i := item];
    if i == n {
      assert items'[..n] == items[..n];
    } else {
      assert items'[..n] == items[..n][i := item];
      HoldingUpdate(items[..n], i, item);
    }
  }

  lemma {:induction false} NoneHolding(items: seq<Item>)
    requires forall i :: 0 <= i < |items| ==> !HoldsPermit(items[i].status)
    ensures Holding(items) == 0
  {
    if |items| > 0 {
      NoneHolding(items[..|items| - 1]);
    }
  }

  lemma MarkOutstanding(c: Cycle, i: nat, status: Status)
    requires c.Flushing? && i < |c.items|
    ensures Outstanding(c.Mark(i, status)) ==
            Outstanding(c) - Held(c.items[i].status) + Held(status)
  {
    HoldingUpdate(c.items, i, Item(c.items[i].rev, status));
  }

  /** The permits that are free, held by unfinished writes, or about to be given back. */
  function Permits(s: State): nat {
    s.free + Outstanding(s.main) + Outstanding(s.retrying) + s.releasing
  }

  /** Submitting takes a permit into a cycle, and taking a response moves it out to its writer. */
  function Taken(step: Step, w: Which): int {
    match step
    case Submit(v) => if v == w then 1 else 0
    case Receive(v, _, _) => if v == w then -1 else 0
    case _ => 0
  }

  lemma MarkTakes(async: bool, s: State, step: Step, w: Which)
    requires s.Of(w).HasNext() ==> s.Of(w).items[s.Of(w).next].status == Waiting
    requires Enabled(async, s, step) && MarkOf(s, step, w).Some?
    ensures
      var (i, status) := MarkOf(s, step, w).value;
      s.Of(w).Flushing? && i < |s.Of(w).items| && Held(status) - Held(s.Of(w).items[i].status) == Taken(step, w)
  {
  }

  lemma OutstandingStep(async: bool, s: State, step: Step, w: Which)
    requires s.Of(w).HasNext() ==> s.Of(w).items[s.Of(w).next].status == Waiting
    requires Enabled(async, s, step)
    ensures Outstanding(Next(async, s, step).Of(w)) == Outstanding(s.Of(w)) + Taken(step, w)
  {
    if MarkOf(s, step, w).Some? {
      MarkTakes(async, s, step, w);
      MarkEffect(async, s, step, w);
      hide Next, Enabled, Cycle.Mark, Holding, MarkOf, Taken;
      var (i, status) := MarkOf(s, step, w).value;
      MarkOutstanding(s.Of(w), i, status);
    } else {
      OtherEffect(async, s, step, w);
      hide Next, Enabled, Cycle.Mark, Holding;
      if s.Of(w).Done() {
        NoneHolding(s.Of(w).items);
      }
      if step.Snapshot? {
        NoneHolding(Items(step.copy));
      }
    }
  }

  lemma PermitsStep(async: bool, s: State, step: Step)
    requires CyclesOk(s) && Enabled(async, s, step)
    ensures Permits(Next(async, s, step)) == Permits(s)
  {
    hide Revision.ResourceKey, Revision.Key;
    OutstandingStep(async, s, step, Main);
    OutstandingStep(async, s, step, Retry);
    hide CycleOk, Outstanding, Cycle.Mark, Evict, Put;
  }

  // ---- nothing is lost ----

  predicate InRetry(s: State, r: Revision) { r.Key() in s.retry && s.retry[r.Key()] == r }

  /** The revision is pending, failed and not yet handed over, waiting for a retry, or stored. */
  predicate InPlay(s: State, r: Revision) {
    || (r.ResourceKey() in s.pending && s.pending[r.ResourceKey()] == r)
    || InRetry(s, r)
    || r in s.main.Failures()
    || r in s.retrying.Failures()
    || r in s.stored
  }

  /** `r` is a revision of the same object, and at least as new. */
  predicate Covers(r: Revision, q: Revision) {
    r.ResourceKey() == q.ResourceKey() && q.resourceVersion <= r.resourceVersion
  }

  ghost predicate Covered(s: State, q: Revision) {
    exists r :: InPlay(s, r) && Covers(r, q)
  }

  /** The revision whose write a step settles. */
  function Settled(s: State, step: Step): Option<Revision> {
    match step
    case WriteNow(w, _) => if s.Of(w).HasNext() then Some(s.Of(w).items[s.Of(w).next].rev) else None
    case Complete(w, i, _) =>
      if s.Of(w).Flushing? && i < |s.Of(w).items| then Some(s.Of(w).items[i].rev) else None
    case _ => None
  }

  /** A step leaves a pending entry, replaces it by a newer one, or settles a write of exactly its version. */
  lemma PendingStep(async: bool, s: State, step: Step, key: string)
    requires Enabled(async, s, step) && key in s.pending
    ensures
      var pending' := Next(async, s, step).pending;
      if key in pending' then
        pending'[key] == s.pending[key] ||
        (step.QueueRev? && step.rev.ResourceKey() == key && pending'[key] == step.rev &&
         s.pending[key].resourceVersion < step.rev.resourceVersion)
      else
        Settled(s, step).Some? && Settled(s, step).value.ResourceKey() == key &&
        Settled(s, step).value.resourceVersion == s.pending[key].resourceVersion
  {
    hide Revision.ResourceKey, Revision.Key;
  }

  /** What a step settles is listed as failed or stored from then on. */
  lemma SettledInPlay(async: bool, s: State, step: Step)
    requires CyclesOk(s) && Enabled(async, s, step) && Settled(s, step).Some?
    ensures InPlay(Next(async, s, step), Settled(s, step).value)
  {
    hide Revision.ResourceKey, Revision.Key;
  }

  lemma StaysInPlay(async: bool, s: State, step: Step, r: Revision) returns (r': Revision)
    requires Structure(s) && Enabled(async, s, step) && InPlay(s, r)
    ensures InPlay(Next(async, s, step), r') && Covers(r', r)
  {
    hide Revision.ResourceKey, Revision.Key, CycleOk, CycleFromQueue;
    r' := r;
    var key := r.ResourceKey();
    if key in s.pending && s.pending[key] == r {
      PendingStep(async, s, step, key);
      if Settled(s, step).Some? {
        SettledInPlay(async, s, step);
        if key !in Next(async, s, step).pending {
          r' := Settled(s, step).value;
        }
      } else {
        r' := Next(async, s, step).pending[key];
      }
    } else {
      r' := AwayFromPending(async, s, step, r);
    }
  }

  lemma AwayFromPending(async: bool, s: State, step: Step, r: Revision) returns (r': Revision)
    requires Structure(s) && Enabled(async, s, step)
    requires InPlay(s, r) && !(r.ResourceKey() in s.pending && s.pending[r.ResourceKey()] == r)
    ensures InPlay(Next(async, s, step), r') && Covers(r', r)
  {
    hide Revision.ResourceKey, Revision.Key, CycleOk, CycleFromQueue;
    var s' := Next(async, s, step);
    r' := r;
    if r in s.main.Failures() {
      r' := FailureStays(async, s, step, Main, r);
      RetryInPlay(s', Main, r');
    } else if r in s.retrying.Failures() {
      r' := FailureStays(async, s, step, Retry, r);
      RetryInPlay(s', Retry, r');
    } else if r in s.stored {
      assert s.stored <= s'.stored;
    } else {
      r' := RetryStays(async, s, step, r);
      RetryInPlay(s', Main, r');
    }
  }

  /** A failed revision stays listed, or is handed over to the retry cache, which may hold its key already. */
  lemma FailureStays(async: bool, s: State, step: Step, w: Which, r: Revision) returns (r': Revision)
    requires Structure(s) && Enabled(async, s, step) && r in s.Of(w).Failures()
    ensures r' in Next(async, s, step).Of(w).Failures() || InRetry(Next(async, s, step), r')
    ensures Covers(r', r)
  {
    hide Revision.ResourceKey, Revision.Key, CycleOk, InPlay, Cycle.Mark;
    var s' := Next(async, s, step);
    r' := r;
    if step == HandOver(w) && r == s.Of(w).failed[0] {
      assert r.Key() in s'.retry && CycleFromQueue(s.Of(w), s.queued);
      r' := s'.retry[r.Key()];
      SameKey(r', r);
    } else {
      FailureListed(async, s, step, w, r);
    }
  }

  lemma FailureListed(async: bool, s: State, step: Step, w: Which, r: Revision)
    requires Enabled(async, s, step) && r in s.Of(w).Failures()
    ensures r in Next(async, s, step).Of(w).Failures() || (step == HandOver(w) && r == s.Of(w).failed[0])
  {
    if MarkOf(s, step, w).Some? {
      MarkEffect(async, s, step, w);
      hide Next;
    } else {
      OtherEffect(async, s, step, w);
      hide Revision.ResourceKey, Revision.Key, Cycle.Mark;
    }
  }

  lemma RetryInPlay(s: State, w: Which, r: Revision)
    ensures r in s.Of(w).Failures() ==> InPlay(s, r)
    ensures InRetry(s, r) ==> InPlay(s, r)
  {
    hide Revision.ResourceKey, Revision.Key;
  }

  lemma RetryStays(async: bool, s: State, step: Step, r: Revision) returns (r': Revision)
    requires Structure(s) && Enabled(async, s, step) && InRetry(s, r)
    ensures InRetry(Next(async, s, step), r') && Covers(r', r)
  {
    hide Revision.ResourceKey, Revision.Key, CycleOk, InPlay, Cycle.Mark;
    var s' := Next(async, s, step);
    assert r.Key() in s'.retry;
    r' := s'.retry[r.Key()];
    if r' != r {
      assert step.HandOver? && r' == s.Of(step.w).failed[0];
      assert r' in s.Of(step.w).Failures() && CycleFromQueue(s.Of(step.w), s.queued);
    }
    SameKey(r', r);
  }

  lemma SameKey(a: Revision, b: Revision)
    requires a.WellFormed() && b.WellFormed() && a.Key() == b.Key()
    ensures a.ResourceKey() == b.ResourceKey() && a.resourceVersion == b.resourceVersion
  {
    KeyInjective(a, b);
    ResourceKeyInjective(a, b);
  }

  ghost predicate AllCovered(s: State) {
    forall q :: q in s.queued ==> Covered(s, q)
  }

  lemma CoveredStep(async: bool, s: State, step: Step)
    requires Structure(s) && AllCovered(s) && Enabled(async, s, step)
    ensures AllCovered(Next(async, s, step))
  {
    hide Revision.ResourceKey, Revision.Key, CycleOk, CycleFromQueue, InPlay;
    var s' := Next(async, s, step);
    forall q | q in s'.queued
      ensures Covered(s', q)
    {
      if q in s.queued {
        var r :| InPlay(s, r) && Covers(r, q);
        var r' := StaysInPlay(async, s, step, r);
        assert Covers(r', q);
      } else {
        QueuedInPlay(async, s, step);
        assert Covers(s'.pending[q.ResourceKey()], q);
      }
    }
  }

  lemma QueuedInPlay(async: bool, s: State, step: Step)
    requires Keyed(s) && step.QueueRev? && Enabled(async, s, step)
    ensures
      var s', key := Next(async, s, step), step.rev.ResourceKey();
      key in s'.pending && InPlay(s', s'.pending[key]) && Covers(s'.pending[key], step.rev)
  {
    hide Revision.ResourceKey, Revision.Key;
  }

  // ---- what holds over every run ----

  /** Everything that every reachable state satisfies. */
  lemma {:induction false} Reachable(capacity: Option<nat>, steps: seq<Step>)
    requires Exec(capacity, steps).Some?
    ensures
      var s := Exec(capacity, steps).value;
      Structure(s) && AllCovered(s) && Permits(s) == if capacity.Some? then capacity.value else 0
  {
    if |steps| > 0 {
      var before := Exec(capacity, steps[..|steps| - 1]).value;
      var step := steps[|steps| - 1];
      Reachable(capacity, steps[..|steps| - 1]);
      CycleStep(capacity.Some?, before, step, Main);
      CycleStep(capacity.Some?, before, step, Retry);
      KeyedStep(capacity.Some?, before, step);
      FromQueueStep(capacity.Some?, before, step);
      CoveredStep(capacity.Some?, before, step);
      PermitsStep(capacity.Some?, before, step);
      hide Next, Enabled, Keyed, FromQueue, AllCovered, Permits, CycleOk;
    }
  }

  /**
   * Nothing queued is ever lost: in every reachable state some revision of the same object, at least as new,
   * is pending, in a cycle's failed list, in the retry cache, or stored.
   */
  lemma NothingLost(capacity: Option<nat>, steps: seq<Step>, q: Revision) returns (r: Revision)
    requires Exec(capacity, steps).Some? && q in Exec(capacity, steps).value.queued
    ensures
      var s := Exec(capacity, steps).value;
      InPlay(s, r) && r in s.queued && SameObject(r, q) && q.resourceVersion <= r.resourceVersion
  {
    hide Revision.ResourceKey, Revision.Key, CycleOk, CycleFromQueue, Exec;
    Reachable(capacity, steps);
    var s := Exec(capacity, steps).value;
    assert Covered(s, q);
    r :| InPlay(s, r) && Covers(r, q);
    InPlayQueued(s, r);
    ResourceKeyInjective(r, q);
  }

  lemma InPlayQueued(s: State, r: Revision)
    requires FromQueue(s) && InPlay(s, r)
    ensures r in s.queued
  {
    hide Revision.ResourceKey, Revision.Key;
  }

  ghost predicate NewestQueued(s: State, q: Revision) {
    q in s.queued && forall p :: p in s.queued && SameObject(p, q) ==> p.resourceVersion <= q.resourceVersion
  }

  /** Of every object, the greatest version ever queued is in play. */
  lemma NewestInPlay(capacity: Option<nat>, steps: seq<Step>, q: Revision) returns (r: Revision)
    requires Exec(capacity, steps).Some? && NewestQueued(Exec(capacity, steps).value, q)
    ensures
      InPlay(Exec(capacity, steps).value, r) && SameObject(r, q) && r.resourceVersion == q.resourceVersion
  {
    r := NothingLost(capacity, steps, q);
  }

  /** No cycle is under way and nothing is pending. */
  ghost predicate AtRest(s: State) {
    s.pending == map[] && s.main.Idle? && s.retrying.Idle?
  }

  /** At rest, the greatest version queued of every object is stored or in the retry cache. */
  lemma RestAccounts(capacity: Option<nat>, steps: seq<Step>, q: Revision) returns (r: Revision)
    requires Exec(capacity, steps).Some?
    requires AtRest(Exec(capacity, steps).value) && NewestQueued(Exec(capacity, steps).value, q)
    ensures
      var s := Exec(capacity, steps).value;
      && SameObject(r, q) && r.resourceVersion == q.resourceVersion
      && (r in s.stored || InRetry(s, r))
  {
    hide Exec, Revision.Key, Revision.ResourceKey;
    r := NewestInPlay(capacity, steps, q);
  }

  /** At rest after a run in which nothing failed, the greatest version queued of every object is stored. */
  lemma QuietMeansStored(capacity: Option<nat>, steps: seq<Step>, q: Revision) returns (r: Revision)
    requires Exec(capacity, steps).Some? && NoFailure(steps)
    requires AtRest(Exec(capacity, steps).value) && NewestQueued(Exec(capacity, steps).value, q)
    ensures
      r in Exec(capacity, steps).value.stored && SameObject(r, q) && r.resourceVersion == q.resourceVersion
  {
    hide Exec, Revision.Key, Revision.ResourceKey;
    NothingFailedIff(capacity, steps);
    r := RestAccounts(capacity, steps, q);
  }

  /**
   * The permits: those free, those held by unfinished writes of the two cycles, and those of finished
   * writers add up to the semaphore's capacity, in every reachable state.
   */
  lemma PermitsConserved(capacity: nat, steps: seq<Step>)
    requires Exec(Some(capacity), steps).Some?
    ensures
      var s := Exec(Some(capacity), steps).value;
      s.free + Outstanding(s.main) + Outstanding(s.retrying) + s.releasing == capacity
  {
    Reachable(Some(capacity), steps);
  }

  function SnapshotOf(c: Cycle): set<Revision>
    requires c.Flushing?
  {
    set i | 0 <= i < |c.items| :: c.items[i].rev
  }

  function WrittenBy(c: Cycle): set<Revision>
    requires c.Flushing?
  {
    set i | 0 <= i < |c.items| && c.items[i].status == Written :: c.items[i].rev
  }

  /** When flush returns, its snapshot is the disjoint union of the revisions written and the failed list. */
  lemma FlushAccounts(capacity: Option<nat>, steps: seq<Step>, w: Which)
    requires Exec(capacity, steps).Some? && Exec(capacity, steps).value.Of(w).Done()
    ensures
      var s := Exec(capacity, steps).value;
      var c := s.Of(w);
      var failed := set r | r in c.failed;
      && SnapshotOf(c) == WrittenBy(c) + failed && WrittenBy(c) !! failed && WrittenBy(c) <= s.stored
      && |c.items| == |SnapshotOf(c)| && |c.failed| == |failed|
  {
    hide Exec, FromQueue, Keyed, AllCovered, CycleOk, SnapshotOf, WrittenBy, Cycle.Done;
    Reachable(capacity, steps);
    CycleAccounts(Exec(capacity, steps).value.Of(w), Exec(capacity, steps).value.stored);
  }

  lemma CycleAccounts(c: Cycle, stored: set<Revision>)
    requires CycleOk(c, stored) && c.Done()
    ensures
      var failed := set r | r in c.failed;
      && SnapshotOf(c) == WrittenBy(c) + failed && WrittenBy(c) !! failed && WrittenBy(c) <= stored
      && |c.items| == |SnapshotOf(c)| && |c.failed| == |failed|
  {
    SnapshotSize(c, stored);
    Distinct(c.failed);
    forall r | r in SnapshotOf(c)
      ensures r in WrittenBy(c) || r in c.failed
    {
      var i :| 0 <= i < |c.items| && c.items[i].rev == r;
      assert c.items[i].status == Written || c.items[i].status == Failed;
    }
  }

  lemma SnapshotSize(c: Cycle, stored: set<Revision>)
    requires CycleOk(c, stored) && c.Flushing?
    ensures |c.items| == |SnapshotOf(c)|
  {
    var revs := seq(|c.items|, i requires 0 <= i < |c.items| => c.items[i].rev);
    Distinct(revs);
    assert (set r | r in revs) == SnapshotOf(c) by {
      assert forall i :: 0 <= i < |c.items| ==> revs[i] == c.items[i].rev;
    }
  }

  /** A list without repetitions has as many members as places. */
  lemma {:induction false} Distinct(list: seq<Revision>)
    requires forall i, j :: 0 <= i < j < |list| ==> list[i] != list[j]
    ensures |set r | r in list| == |list|
  {
    if |list| > 0 {
      var n := |list| - 1;
      Distinct(list[..n]);
      assert (set r | r in list) == (set r | r in list[..n]) + {list[n]};
    }
  }

  /** No step takes an entry out of the retry cache: a revision that failed once is rewritten every cycle. */
  lemma {:induction false} RetryNeverDrains(capacity: Option<nat>, steps: seq<Step>, n: nat)
    requires n <= |steps| && Exec(capacity, steps).Some?
    ensures Exec(capacity, steps[..n]).Some?
    ensures Exec(capacity, steps[..n]).value.retry.Keys <= Exec(capacity, steps).value.retry.Keys
  {
    if n == |steps| {
      assert steps[..n] == steps;
    } else {
      var before := steps[..|steps| - 1];
      RetryNeverDrains(capacity, before, n);
      assert before[..n] == steps[..n];
      RetryStep(capacity.Some?, Exec(capacity, before).value, steps[|steps| - 1]);
    }
  }

  lemma RetryStep(async: bool, s: State, step: Step)
    requires Enabled(async, s, step)
    ensures s.retry.Keys <= Next(async, s, step).retry.Keys
  {
    hide Revision.ResourceKey, Revision.Key;
  }

  /** The step puts a revision on a failed list. */
  predicate Fails(step: Step) {
    match step
    case Refuse(_) => true
    case WriteNow(_, ok) => !ok
    case Complete(_, _, ok) => !ok
    case _ => false
  }

  ghost predicate NoFailure(steps: seq<Step>) {
    forall step :: step in steps ==> !Fails(step)
  }

  ghost predicate NothingFailed(s: State) {
    s.retry == map[] && s.main.Failures() == [] && s.retrying.Failures() == []
  }

  /** Nothing is on a failed list or in the retry cache exactly when no permit was refused and no write failed. */
  lemma {:induction false} NothingFailedIff(capacity: Option<nat>, steps: seq<Step>)
    requires Exec(capacity, steps).Some?
    ensures NothingFailed(Exec(capacity, steps).value) <==> NoFailure(steps)
  {
    hide Next, Enabled, Fails, Revision.ResourceKey, Revision.Key;
    if |steps| > 0 {
      var before, last := steps[..|steps| - 1], steps[|steps| - 1];
      NothingFailedIff(capacity, before);
      NothingFailedStep(capacity.Some?, Exec(capacity, before).value, last);
      NoFailureLast(before, last);
      assert before + [last] == steps;
    }
  }

  lemma NoFailureLast(before: seq<Step>, last: Step)
    ensures NoFailure(before + [last]) <==> NoFailure(before) && !Fails(last)
  {
    hide Fails;
    assert last in before + [last];
  }

  lemma NothingFailedStep(async: bool, s: State, step: Step)
    requires Enabled(async, s, step)
    ensures NothingFailed(Next(async, s, step)) <==> NothingFailed(s) && !Fails(step)
  {
    hide Revision.ResourceKey, Revision.Key, Lists, Evict;
    if step.HandOver? {
      if s.Of(step.w).failed != [] {
        assert s.Of(step.w).failed[0].Key() in Next(async, s, step).retry;
      }
    } else {
      hide Put;
      OtherwiseFails(async, s, step, Main);
      OtherwiseFails(async, s, step, Retry);
      RetryOtherwise(async, s, step);
      hide Next, Enabled;
    }
  }

  /** Only a failing step adds to a failed list, and only handing over takes from it. */
  lemma OtherwiseFails(async: bool, s: State, step: Step, w: Which)
    requires Enabled(async, s, step) && !step.HandOver?
    ensures Next(async, s, step).Of(w).Failures() == [] <==>
            s.Of(w).Failures() == [] && !(Fails(step) && step.w == w)
  {
    hide Revision.ResourceKey, Revision.Key, Lists, Evict, Put;
  }

  lemma RetryOtherwise(async: bool, s: State, step: Step)
    requires Enabled(async, s, step) && !step.HandOver?
    ensures Next(async, s, step).retry == s.retry
  {
    hide Revision.ResourceKey, Revision.Key, Lists, Evict, Put, Cycle.Mark;
  }
}
