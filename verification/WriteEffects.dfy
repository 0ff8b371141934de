/**
 * What the order of the flusher's writes does to the stores that take them: rising writes keep the index's
 * latest marks and the backend's memo right, and one late retry spoils both.
 */
module WriteEffects {
  import opened Strings
  import opened Revisions
  import opened PendingCache
  import opened FlushProtocol
  import opened WriteOrder
  import InMemory
  import B = BackendStore

  // ---- the index ----

  function Sets(log: seq<Revision>): seq<InMemory.Op> {
    seq(|log|, i requires 0 <= i < |log| => InMemory.SetOp(log[i]))
  }

  lemma RisingSets(log: seq<Revision>, key: string)
    requires Rises(log) && forall r :: r in log ==> r.WellFormed()
    ensures InMemory.Rising(Sets(log), key)
  {
    hide Revision.ResourceKey, Revision.WellFormed;
    forall i, j | 0 <= i < j < |log| && log[i].ResourceKey() == key && log[j].ResourceKey() == key
      ensures log[i].resourceVersion <= log[j].resourceVersion
    {
      ResourceKeyInjective(log[i], log[j]);
    }
  }

  lemma LogWellFormed(capacity: Option<nat>, steps: seq<Step>)
    requires Exec(capacity, steps).Some?
    ensures forall r :: r in Log(capacity, steps) ==> r.WellFormed()
  {
    hide Exec, Log, Revision.WellFormed, CyclesOk, Keyed, CycleFromQueue, AllCovered;
    LogIsStored(capacity, steps);
    Reachable(capacity, steps);
  }

  lemma {:induction false} LastOf(log: seq<Revision>, r: Revision) returns (i: nat)
    requires r in log
    ensures InMemory.LastSet(Sets(log), r.ResourceKey(), i)
  {
    hide Revision.ResourceKey;
    var n := |log| - 1;
    if log[n].ResourceKey() == r.ResourceKey() {
      i := n;
    } else {
      i := LastOf(log[..n], r);
      assert forall j :: 0 <= j < n ==> Sets(log)[j] == Sets(log[..n])[j];
    }
  }

  /**
   * The index that takes a flush run's writes answers, for every object stored, a revision of the greatest
   * version stored of it, if the queue takes versions in order and the retry cycle writes over nothing newer.
   */
  lemma FlushedIndexIsNewest(capacity: Option<nat>, steps: seq<Step>, q: Revision) returns (r: Revision)
    requires Exec(capacity, steps).Some? && RisingQueue(steps) && RetriesFresh(capacity, steps)
    requires q in Exec(capacity, steps).value.stored
    ensures InMemory.GetRev(InMemory.Run(Sets(Log(capacity, steps))), q.ResourceKey()) == Some(r)
    ensures r in Exec(capacity, steps).value.stored && SameObject(r, q)
    ensures Fresh(Exec(capacity, steps).value.stored, r)
  {
    hide Exec, Log, RisingQueue, RetriesFresh, Revision.ResourceKey, Revision.WellFormed, InMemory.Run,
         InMemory.GetRev, Rises;
    var log := Log(capacity, steps);
    var ops := Sets(log);
    LogWellFormed(capacity, steps);
    LogIsStored(capacity, steps);
    WritesRiseIff(capacity, steps);
    RisingSets(log, q.ResourceKey());
    var i := LastOf(log, q);
    InMemory.GetIsLastSet(ops, q.ResourceKey(), i);
    InMemory.GetIsNewest(ops, q.ResourceKey(), i);
    r := log[i];
    assert r in log;
    ResourceKeyInjective(r, q);
    forall p | p in Exec(capacity, steps).value.stored && SameObject(p, r)
      ensures p.resourceVersion <= r.resourceVersion
    {
      SameObjectKey(p, r);
      var j :| 0 <= j < |log| && log[j] == p;
      assert InMemory.Sets(ops[j], q.ResourceKey());
    }
  }

  // ---- the backend's memo ----

  /** The store call that writes a revision. */
  function Call(r: Revision): B.Op { if r.deleted then B.DeleteOp(r, true) else B.UpdateOp(r, true) }

  function After(s: B.Store, r: Revision): B.Store {
    var keys := s.keys + {r.Key()};
    if r.deleted then s.(keys := keys) else B.Store(keys, s.latest[r.ResourceKey() := r.RevisionKey()])
  }

  /** The backend after the log's writes on an empty one. */
  function StoreOf(log: seq<Revision>): B.Store {
    if |log| == 0 then B.Store({}, map[]) else After(StoreOf(log[..|log| - 1]), log[|log| - 1])
  }

  /** Two live revisions of one object and version are the same, up to the fraction of a second. */
  ghost predicate OneLivePerVersion(revs: set<Revision>) {
    forall a, b ::
      a in revs && b in revs && !a.deleted && !b.deleted &&
      SameObject(a, b) && a.resourceVersion == b.resourceVersion ==>
        a.Seconds() == b.Seconds()
  }

  lemma CallStep(s: B.Store, r: Revision)
    ensures B.Next(s, Call(r), After(s, r))
  {
    hide Revision.Key, Revision.ResourceKey, Revision.RevisionKey;
    assert r.deleted ==> B.Deleted(r) == r;
  }

  lemma {:induction false} LiveInLog(log: seq<Revision>, q: Revision) returns (p: Revision)
    requires B.Live(StoreOf(log).keys, q) && forall r :: r in log ==> r.WellFormed()
    ensures p in log && !p.deleted && p.Seconds() == q && SameObject(p, q) && p.resourceVersion == q.resourceVersion
  {
    hide Revision.Key, Revision.ResourceKey, Revision.RevisionKey, Revision.WellFormed, Revision.Seconds, B.Live;
    if |log| == 0 {
      B.LiveFacts(StoreOf(log).keys, q);
    } else {
      var before, last := log[..|log| - 1], log[|log| - 1];
      assert forall r :: r in before ==> r in log;
      B.LiveAfterAdd(StoreOf(before).keys, last, q);
      B.SecondsFields(last);
      p := last;
      if B.Live(StoreOf(before).keys, q) {
        p := LiveInLog(before, q);
      }
    }
  }

  lemma CallLegitimate(log: seq<Revision>, n: nat, stored: set<Revision>)
    requires n < |log| && Rises(log) && forall r :: r in log ==> r.WellFormed() && r in stored
    requires OneLivePerVersion(stored)
    ensures B.Legitimate(StoreOf(log[..n]), Call(log[n]))
  {
    hide Revision.Key, Revision.ResourceKey, Revision.RevisionKey, Revision.WellFormed, Revision.Seconds, B.Live;
    assert log[n] in log;
    assert forall r :: r in log[..n] ==> r in log;
    if !log[n].deleted {
      forall q | B.Live(StoreOf(log[..n]).keys, q) && SameObject(q, log[n])
        ensures q == log[n].Seconds() || q.resourceVersion < log[n].resourceVersion
      {
        var p := LiveInLog(log[..n], q);
        var i :| 0 <= i < n && log[i] == p;
        assert p.resourceVersion <= log[n].resourceVersion;
      }
    }
  }

  lemma LogIsLegitimate(log: seq<Revision>, stored: set<Revision>)
    requires Rises(log) && forall r :: r in log ==> r.WellFormed() && r in stored
    requires OneLivePerVersion(stored)
    ensures
      B.LegitimateRun(seq(|log| + 1, n requires 0 <= n <= |log| => StoreOf(log[..n])),
                      seq(|log|, n requires 0 <= n < |log| => Call(log[n])))
  {
    hide Revision.Key, Revision.ResourceKey, Revision.RevisionKey, Revision.WellFormed, Rises, OneLivePerVersion,
         B.Legitimate, B.Next, Call, After;
    forall n | 0 <= n < |log|
      ensures B.Legitimate(StoreOf(log[..n]), Call(log[n]))
      ensures B.Next(StoreOf(log[..n]), Call(log[n]), StoreOf(log[..n + 1]))
    {
      CallLegitimate(log, n, stored);
      CallStep(StoreOf(log[..n]), log[n]);
      assert log[..n + 1][..n] == log[..n];
    }
    assert StoreOf(log[..0]) == B.Store({}, map[]);
  }

  /** The memo of a backend that takes a flush run's writes names each object's newest live revision. */
  lemma FlushedMemoIsRight(capacity: Option<nat>, steps: seq<Step>, k: string) returns (r: Revision)
    requires Exec(capacity, steps).Some? && RisingQueue(steps) && RetriesFresh(capacity, steps)
    requires OneLivePerVersion(Exec(capacity, steps).value.stored)
    requires k in StoreOf(Log(capacity, steps)).latest
    ensures
      var s := StoreOf(Log(capacity, steps));
      B.NewestLive(s.keys, r) && r.ResourceKey() == k && s.latest[k] == r.RevisionKey()
  {
    hide Exec, Log, RisingQueue, RetriesFresh, Revision.Key, Revision.ResourceKey, Revision.RevisionKey,
         Revision.WellFormed, Revision.Seconds, Rises, OneLivePerVersion, B.LegitimateRun, B.NewestLive;
    var log := Log(capacity, steps);
    LogWellFormed(capacity, steps);
    LogIsStored(capacity, steps);
    WritesRiseIff(capacity, steps);
    LogIsLegitimate(log, Exec(capacity, steps).value.stored);
    assert log[..|log|] == log;
    var states := seq(|log| + 1, n requires 0 <= n <= |log| => StoreOf(log[..n]));
    r := B.MemoRefinesScan(states, seq(|log|, n requires 0 <= n < |log| => Call(log[n])), |log|, k);
  }

  // ---- a late retry ----

  /** A revision is queued and the main cycle writes it, with or without success. */
  function QueueAndWrite(r: Revision, ok: bool): seq<Step> {
    [QueueRev(r), Snapshot(Main, [r], [r.ResourceKey()]), WriteNow(Main, ok)]
  }

  /** The write of `a` fails, `b` is written, and then the retry cycle writes `a`. */
  function LateRetry(a: Revision, b: Revision): seq<Step> {
    QueueAndWrite(a, false) + [Return(Main), HandOver(Main), HandOver(Main)] +
    QueueAndWrite(b, true) + [Snapshot(Retry, [a], [a.Key()]), WriteNow(Retry, true)]
  }

  /** The run ends in `s`, and its log is `log`. */
  ghost predicate Ends(steps: seq<Step>, s: State, log: seq<Revision>) {
    Exec(None, steps) == Some(s) && Log(None, steps) == log
  }

  lemma Extends(steps: seq<Step>, s: State, log: seq<Revision>, step: Step)
    requires Ends(steps, s, log) && Enabled(false, s, step)
    ensures Ends(steps + [step], Next(false, s, step),
                 log + match Writes(s, step) case None => [] case Some(r) => [r])
  {
    hide Next, Enabled, Writes;
    assert (steps + [step])[..|steps|] == steps;
    assert log + [] == log;
  }

  lemma Queued(s: State, r: Revision)
    requires s.pending == map[] && r.WellFormed()
    ensures Enabled(false, s, QueueRev(r))
    ensures Next(false, s, QueueRev(r)) == s.(pending := map[r.ResourceKey() := r], queued := s.queued + {r})
  {
    hide Revision.ResourceKey, Revision.WellFormed;
  }

  function One(r: Revision, status: Status, next: nat, failed: seq<Revision>): Cycle {
    Flushing([Item(r, status)], next, failed)
  }

  lemma Taken(s: State, w: Which, r: Revision, key: string)
    requires s.Of(w).Idle? && s.Source(w) == map[key := r]
    ensures Enabled(false, s, Snapshot(w, [r], [key]))
    ensures Next(false, s, Snapshot(w, [r], [key])) == s.With(w, One(r, Waiting, 0, []))
  {
    hide Revision.ResourceKey, Revision.Key;
    assert Items([r]) == [Item(r, Waiting)];
  }

  lemma Wrote(s: State, w: Which, r: Revision, ok: bool)
    requires s.Of(w) == One(r, Waiting, 0, [])
    ensures Enabled(false, s, WriteNow(w, ok))
    ensures Next(false, s, WriteNow(w, ok)) ==
            s.With(w, if ok then One(r, Written, 1, []) else One(r, Failed, 1, [r]))
             .(pending := Evicted(s.pending, r), stored := s.stored + if ok then {r} else {})
    ensures Writes(s, WriteNow(w, ok)) == if ok then Some(r) else None
  {
    hide Revision.ResourceKey, Revision.Key;
    assert [Item(r, Waiting)][0 := Item(r, Written)] == [Item(r, Written)];
    assert [Item(r, Waiting)][0 := Item(r, Failed)] == [Item(r, Failed)];
    assert s.stored + {} == s.stored;
  }

  function Evicted(pending: Pending, r: Revision): Pending { Evict(pending, r.ResourceKey(), r) }

  lemma QueuesAndWrites(steps: seq<Step>, s: State, log: seq<Revision>, r: Revision, ok: bool)
    requires Ends(steps, s, log) && s.pending == map[] && s.main.Idle? && r.WellFormed()
    ensures Ends(steps + QueueAndWrite(r, ok),
                 s.(main := if ok then One(r, Written, 1, []) else One(r, Failed, 1, [r]),
                    queued := s.queued + {r}, stored := s.stored + if ok then {r} else {}),
                 log + if ok then [r] else [])
  {
    hide Next, Enabled, Ends, Revision.ResourceKey, Revision.WellFormed;
    var step0, step1, step2 := QueueRev(r), Snapshot(Main, [r], [r.ResourceKey()]), WriteNow(Main, ok);
    Queued(s, r);
    Extends(steps, s, log, step0);
    var s1 := Next(false, s, step0);
    Taken(s1, Main, r, r.ResourceKey());
    assert log + [] == log;
    Extends(steps + [step0], s1, log, step1);
    var s2 := Next(false, s1, step1);
    Wrote(s2, Main, r, ok);
    assert s2.pending - {r.ResourceKey()} == map[];
    Extends(steps + [step0] + [step1], s2, log, step2);
    assert steps + QueueAndWrite(r, ok) == steps + [step0] + [step1] + [step2];
  }

  lemma HandsOver(steps: seq<Step>, s: State, log: seq<Revision>, r: Revision)
    requires Ends(steps, s, log) && s.main == One(r, Failed, 1, [r]) && s.retry == map[]
    ensures Ends(steps + [Return(Main), HandOver(Main), HandOver(Main)],
                 s.(main := Idle, retry := map[r.Key() := r]), log)
  {
    hide Ends, Revision.ResourceKey, Revision.Key;
    assert log + [] == log;
    Extends(steps, s, log, Return(Main));
    var s1 := Next(false, s, Return(Main));
    Extends(steps + [Return(Main)], s1, log, HandOver(Main));
    var s2 := Next(false, s1, HandOver(Main));
    Extends(steps + [Return(Main)] + [HandOver(Main)], s2, log, HandOver(Main));
    assert steps + [Return(Main), HandOver(Main), HandOver(Main)] ==
           steps + [Return(Main)] + [HandOver(Main)] + [HandOver(Main)];
  }

  /** Whatever two versions an object has, the retry cycle can write the older one after the newer one. */
  lemma LateRetryFalls(a: Revision, b: Revision)
    requires a.WellFormed() && b.WellFormed() && SameObject(a, b) && a.resourceVersion < b.resourceVersion
    ensures Exec(None, LateRetry(a, b)).Some? && RisingQueue(LateRetry(a, b))
    ensures Log(None, LateRetry(a, b)) == [b, a] && !Rises([b, a])
  {
    hide Exec, Log, Next, Enabled, Revision.ResourceKey, Revision.Key, Revision.WellFormed;
    EmptyRun();
    var s0, first := Init(None), QueueAndWrite(a, false);
    QueuesAndWrites([], s0, [], a, false);
    var none: seq<Revision> := [];
    assert [] + first == first && none + none == none && none + [b] == [b];
    var s1 := s0.(main := One(a, Failed, 1, [a]), queued := s0.queued + {a}, stored := s0.stored + {});
    HandsOver(first, s1, [], a);
    var second := first + [Return(Main), HandOver(Main), HandOver(Main)];
    var s2 := s1.(main := Idle, retry := map[a.Key() := a]);
    QueuesAndWrites(second, s2, [], b, true);
    var s3 := s2.(main := One(b, Written, 1, []), queued := s2.queued + {b}, stored := s2.stored + {b});
    var third := second + QueueAndWrite(b, true);
    var taking := Snapshot(Retry, [a], [a.Key()]);
    Taken(s3, Retry, a, a.Key());
    Extends(third, s3, [b], taking);
    var s4 := s3.(retrying := One(a, Waiting, 0, []));
    Wrote(s4, Retry, a, true);
    assert [b] + [] == [b] && [b] + [a] == [b, a];
    Extends(third + [taking], s4, [b], WriteNow(Retry, true));
    assert LateRetry(a, b) == third + [taking] + [WriteNow(Retry, true)];
    assert [b, a][0] == b && [b, a][1] == a;
  }

  lemma EmptyRun()
    ensures Ends([], Init(None), [])
  {
  }

  /** Then the index answers the older version, and the memo names it though the newer one is stored. */
  lemma LateRetrySpoils(a: Revision, b: Revision)
    requires a.WellFormed() && b.WellFormed() && SameObject(a, b) && a.resourceVersion < b.resourceVersion
    requires !a.deleted && !b.deleted
    ensures Exec(None, LateRetry(a, b)).Some?
    ensures
      var key, log := a.ResourceKey(), Log(None, LateRetry(a, b));
      InMemory.GetRev(InMemory.Run(Sets(log)), key) == Some(a) && !B.Agrees(StoreOf(log), key)
  {
    hide Exec, Log, Revision.ResourceKey, Revision.RevisionKey, Revision.Key, Revision.WellFormed, Revision.Seconds,
         B.Live, B.Agrees, InMemory.Run, InMemory.GetRev;
    LateRetryFalls(a, b);
    var log := [b, a];
    assert InMemory.LastSet(Sets(log), a.ResourceKey(), 1);
    InMemory.GetIsLastSet(Sets(log), a.ResourceKey(), 1);
    StoredFirst(b);
    assert log[..1] == [b];
    CallStep(StoreOf([b]), a);
    B.UpdateAgreesIff(StoreOf([b]), a, StoreOf(log));
    B.SecondsFields(b);
  }

  lemma StoredFirst(b: Revision)
    requires b.WellFormed() && !b.deleted
    ensures B.Live(StoreOf([b]).keys, b.Seconds())
  {
    hide Revision.Key, Revision.WellFormed, Revision.Seconds, B.Live;
    assert [b][..0] == [];
    B.LiveAfterAdd({}, b, b.Seconds());
    assert StoreOf([b]).keys == {} + {b.Key()};
  }
}
