/**
 * The operator's cached store, reaper and purger together: each of their calls is proved to be a run of the
 * retention steps, so that what retention promises holds of the objects themselves.
 */
module Operator {
  import opened Strings
  import opened Revisions
  import opened PendingCache
  import opened Handlers
  import opened InMemory
  import opened ReadWrite
  import SyncWalk
  import opened Reaper
  import opened Purger
  import R = Retention
  import B = BackendStore

  /** The run from a bucket's first keys ends in `s`. */
  ghost predicate Ends(keys: set<string>, trace: seq<R.Step>, s: R.State) {
    R.Exec(keys, trace) == Some(s)
  }

  lemma OneMoreStep(keys: set<string>, trace: seq<R.Step>, s: R.State, step: R.Step)
    requires Ends(keys, trace, s) && R.Enabled(s, step)
    ensures Ends(keys, trace + [step], R.Apply(s, step))
  {
    hide R.Enabled, R.Apply;
    assert (trace + [step])[..|trace|] == trace;
  }

  // ---- the calls as runs ----

  /** An accepted write reaches the backend and then the index. */
  lemma WriteRun(keys: set<string>, trace: seq<R.Step>, s: R.State, rev: Revision)
    requires Ends(keys, trace, s) && rev.WellFormed() && s.landing == {}
    ensures Ends(keys, trace + [R.Write(rev), R.Index(rev)],
                 s.(keys := s.keys + {rev.Key()}, written := s.written + {rev.Key()}, mem := SetRev(s.mem, rev)))
  {
    hide R.Exec, Revision.Key, Revision.WellFormed, SetRev;
    OneMoreStep(keys, trace, s, R.Write(rev));
    OneMoreStep(keys, trace + [R.Write(rev)], R.Apply(s, R.Write(rev)), R.Index(rev));
    assert trace + [R.Write(rev)] + [R.Index(rev)] == trace + [R.Write(rev), R.Index(rev)];
    assert s.landing + {rev} - {rev} == {};
  }

  lemma {:induction false} LoadRun(keys: set<string>, trace: seq<R.Step>, s: R.State, loaded: seq<Revision>)
    returns (trace': seq<R.Step>)
    requires Ends(keys, trace, s) && forall r :: r in loaded ==> Stored(s.keys, r)
    ensures trace <= trace' && Ends(keys, trace', s.(mem := SetAll(s.mem, loaded)))
  {
    hide R.Exec, Stored, SetRev;
    trace' := trace;
    if |loaded| > 0 {
      var before, last := loaded[..|loaded| - 1], loaded[|loaded| - 1];
      assert forall r :: r in before ==> r in loaded;
      trace' := LoadRun(keys, trace, s, before);
      OneMoreStep(keys, trace', s.(mem := SetAll(s.mem, before)), R.Load(last));
      trace' := trace' + [R.Load(last)];
    }
  }

  function SetOf(revs: seq<Revision>): set<Revision> { set r | r in revs }

  /** Queueing a revision again changes nothing. */
  lemma {:induction false} PutAgain(queue: Pending, revs: seq<Revision>, r: Revision)
    requires r in revs
    ensures Put(PutAll(queue, PurgeKey(), revs), PurgeKey()(r), r) == PutAll(queue, PurgeKey(), revs)
  {
    hide PurgeKey;
    var before, last := revs[..|revs| - 1], revs[|revs| - 1];
    assert revs == before + [last];
    if r != last {
      PutAgain(queue, before, r);
    }
  }

  /** What a reap selected enters the purge queue. */
  lemma {:induction false} QueueRun(keys: set<string>, trace: seq<R.Step>, s: R.State, revs: seq<Revision>)
    returns (trace': seq<R.Step>)
    requires Ends(keys, trace, s) && SetOf(revs) <= s.reaped
    ensures trace <= trace'
    ensures Ends(keys, trace',
                 s.(reaped := s.reaped - SetOf(revs), queue := PutAll(s.queue, PurgeKey(), revs)))
  {
    hide R.Exec, Revision.Key, Put;
    trace' := trace;
    if |revs| == 0 {
      assert s.reaped - SetOf(revs) == s.reaped;
    } else {
      var before, last := revs[..|revs| - 1], revs[|revs| - 1];
      assert revs == before + [last] && SetOf(revs) == SetOf(before) + {last};
      trace' := QueueRun(keys, trace, s, before);
      var s' := s.(reaped := s.reaped - SetOf(before), queue := PutAll(s.queue, PurgeKey(), before));
      assert s'.reaped - {last} == s.reaped - SetOf(revs);
      if last in before {
        PutAgain(s.queue, before, last);
        assert s'.reaped - {last} == s'.reaped;
      } else {
        OneMoreStep(keys, trace', s', R.QueueForPurge(last));
        trace' := trace' + [R.QueueForPurge(last)];
      }
    }
  }

  lemma ReapRun(keys: set<string>, trace: seq<R.Step>, s: R.State, threshold: Threshold, revs: seq<Revision>)
    returns (trace': seq<R.Step>)
    requires Ends(keys, trace, s) && s.reaped == {}
    requires forall r :: r in revs <==> Selected(s.mem, threshold, r)
    ensures trace <= trace' && Ends(keys, trace', s.(queue := PutAll(s.queue, PurgeKey(), revs)))
  {
    hide R.Exec, Selected, PutAll;
    var step := R.Reap(threshold, SetOf(revs));
    OneMoreStep(keys, trace, s, step);
    trace' := QueueRun(keys, trace + [step], R.Apply(s, step), revs);
    assert s.reaped + SetOf(revs) - SetOf(revs) == {};
  }

  /** The state once the backend has been asked for the whole snapshot. */
  function Tried(s: R.State, accepts: string -> bool): R.State {
    s.(keys := s.keys - AcceptedKeys(s.purging, accepts), purging := {},
       removed := s.removed + AcceptedRevs(s.purging, accepts))
  }

  /** The purge cycle's snapshot is tried key by key. */
  lemma {:induction false} TryRun(keys: set<string>, trace: seq<R.Step>, s: R.State, accepts: string -> bool)
    returns (trace': seq<R.Step>)
    requires Ends(keys, trace, s)
    ensures trace <= trace' && Ends(keys, trace', Tried(s, accepts))
    decreases |s.purging|
  {
    hide Ends, Tried, Revision.Key, Revision.Seconds;
    trace' := trace;
    if s.purging == {} {
      NothingTried(s, accepts);
    } else {
      var r :| r in s.purging;
      var step := if accepts(r.Key()) then R.RemoveKey(r) else R.KeepKey(r);
      OneMoreStep(keys, trace, s, step);
      TriedOne(s, r, accepts);
      trace' := TryRun(keys, trace + [step], R.Apply(s, step), accepts);
    }
  }

  lemma NothingTried(s: R.State, accepts: string -> bool)
    requires s.purging == {}
    ensures Tried(s, accepts) == s
  {
  }

  function AcceptedKeys(revs: set<Revision>, accepts: string -> bool): set<string> {
    set r | r in revs && accepts(r.Key()) :: r.Key()
  }

  function AcceptedRevs(revs: set<Revision>, accepts: string -> bool): set<Revision> {
    set r | r in revs && accepts(r.Key()) :: r.Seconds()
  }

  lemma TriedOne(s: R.State, r: Revision, accepts: string -> bool)
    requires r in s.purging
    ensures Tried(R.Apply(s, if accepts(r.Key()) then R.RemoveKey(r) else R.KeepKey(r)), accepts) == Tried(s, accepts)
  {
    hide Revision.Key, Revision.Seconds;
    var left := s.purging - {r};
    assert AcceptedKeys(s.purging, accepts) ==
           AcceptedKeys(left, accepts) + if accepts(r.Key()) then {r.Key()} else {};
    assert AcceptedRevs(s.purging, accepts) ==
           AcceptedRevs(left, accepts) + if accepts(r.Key()) then {r.Seconds()} else {};
    hide AcceptedKeys, AcceptedRevs;
  }

  /** The index drops what the backend reported removed. */
  lemma {:induction false} DropRun(keys: set<string>, trace: seq<R.Step>, s: R.State, revs: seq<Revision>)
    returns (trace': seq<R.Step>)
    requires Ends(keys, trace, s) && s.purging == {} && SetOf(revs) <= s.removed
    requires forall i, j :: 0 <= i < j < |revs| ==> revs[i] != revs[j]
    ensures trace <= trace'
    ensures Ends(keys, trace', s.(mem := DeleteAll(s.mem, revs), removed := s.removed - SetOf(revs),
                                  dropped := s.dropped + SetOf(revs)))
  {
    hide R.Exec, DeleteRev;
    trace' := trace;
    if |revs| == 0 {
      assert s.removed - SetOf(revs) == s.removed && s.dropped + SetOf(revs) == s.dropped;
    } else {
      var before, last := revs[..|revs| - 1], revs[|revs| - 1];
      LastIsNew(before, last, revs);
      trace' := DropRun(keys, trace, s, before);
      var s' := s.(mem := DeleteAll(s.mem, before), removed := s.removed - SetOf(before),
                   dropped := s.dropped + SetOf(before));
      OneMoreStep(keys, trace', s', R.DropFromIndex(last));
      trace' := trace' + [R.DropFromIndex(last)];
      assert s'.removed - {last} == s.removed - SetOf(revs);
      assert s'.dropped + {last} == s.dropped + SetOf(revs);
    }
  }

  lemma LastIsNew(before: seq<Revision>, last: Revision, revs: seq<Revision>)
    requires revs == before + [last] && forall i, j :: 0 <= i < j < |revs| ==> revs[i] != revs[j]
    ensures SetOf(revs) == SetOf(before) + {last} && last !in SetOf(before)
  {
    assert forall i :: 0 <= i < |before| ==> before[i] == revs[i];
    assert revs[|before|] == last;
  }

  /** And the purge queue drops it too. */
  lemma {:induction false} UnqueueRun(keys: set<string>, trace: seq<R.Step>, s: R.State, revs: seq<Revision>)
    returns (trace': seq<R.Step>)
    requires Ends(keys, trace, s) && s.purging == {} && s.removed == {} && SetOf(revs) <= s.dropped
    requires forall i, j :: 0 <= i < j < |revs| ==> revs[i] != revs[j]
    ensures trace <= trace'
    ensures Ends(keys, trace', s.(queue := EvictAll(s.queue, revs), dropped := s.dropped - SetOf(revs)))
  {
    hide R.Exec, Evict;
    trace' := trace;
    if |revs| == 0 {
      assert s.dropped - SetOf(revs) == s.dropped;
    } else {
      var before, last := revs[..|revs| - 1], revs[|revs| - 1];
      LastIsNew(before, last, revs);
      trace' := UnqueueRun(keys, trace, s, before);
      var s' := s.(queue := EvictAll(s.queue, before), dropped := s.dropped - SetOf(before));
      OneMoreStep(keys, trace', s', R.Unqueue(last));
      trace' := trace' + [R.Unqueue(last)];
      assert s'.dropped - {last} == s.dropped - SetOf(revs);
    }
  }

  /** No phase of a call is under way. */
  ghost predicate Settled(s: R.State) {
    s.landing == {} && s.reaped == {} && s.purging == {} && s.removed == {} && s.dropped == {}
  }

  /** A purge cycle removes the accepted keys of its queue from all three places. */
  lemma PurgeRun(keys: set<string>, trace: seq<R.Step>, s: R.State, accepts: string -> bool, revs: seq<Revision>)
    returns (trace': seq<R.Step>)
    requires Ends(keys, trace, s) && Settled(s) && Keyed(s.queue) && Reports(revs, s.queue, accepts)
    ensures trace <= trace'
    ensures Ends(keys, trace',
                 s.(keys := s.keys - (set k | k in s.queue && accepts(k)), mem := DeleteAll(s.mem, revs),
                    queue := EvictAll(s.queue, revs)))
  {
    hide R.Exec, R.Apply, Revision.Key, Revision.Seconds, Revision.WellFormed, EvictAll, DeleteAll, AcceptedKeys,
         AcceptedRevs;
    assert R.Apply(s, R.StartPurge) == s.(purging := s.queue.Values) by { Started(s); }
    OneMoreStep(keys, trace, s, R.StartPurge);
    var s1 := s.(purging := s.queue.Values);
    trace' := TryRun(keys, trace + [R.StartPurge], s1, accepts);
    QueueAccepted(s.queue, accepts, revs);
    var s2 := s.(keys := s.keys - AcceptedKeys(s1.purging, accepts), removed := SetOf(revs));
    assert {} + SetOf(revs) == SetOf(revs) && SetOf(revs) - SetOf(revs) == {};
    trace' := DropRun(keys, trace', s2, revs);
    var s3 := s2.(mem := DeleteAll(s.mem, revs), removed := {}, dropped := SetOf(revs));
    trace' := UnqueueRun(keys, trace', s3, revs);
  }

  lemma Started(s: R.State)
    ensures R.Apply(s, R.StartPurge) == s.(purging := s.queue.Values)
  {
  }

  lemma QueueAccepted(queue: Pending, accepts: string -> bool, revs: seq<Revision>)
    requires Keyed(queue) && Reports(revs, queue, accepts)
    ensures AcceptedKeys(queue.Values, accepts) == set k | k in queue && accepts(k)
    ensures AcceptedRevs(queue.Values, accepts) == SetOf(revs)
  {
    hide Revision.Key, Revision.Seconds, Revision.WellFormed;
    forall k | k in queue && accepts(k)
      ensures k in AcceptedKeys(queue.Values, accepts)
    {
      assert queue[k] in queue.Values && queue[k].Key() == k;
    }
  }

  // ---- what a reap and a purge do ----

  /** A reap's selection is what the index holds that is aged and expendable; whatever is not queued yet is queued. */
  ghost predicate ReapEffect(mem: Memory, queue: Pending, threshold: Threshold, revs: seq<Revision>, queue': Pending) {
    && (forall r :: r in revs <==> Selected(mem, threshold, r))
    && (forall k :: k in queue' <==> k in queue || exists r :: r in revs && r.Key() == k)
    && (forall k :: k in queue' ==>
          if k in queue then queue'[k] == queue[k] else queue'[k] in revs && queue'[k].Key() == k)
  }

  /** The index keeps exactly the places that no removed revision names. */
  ghost predicate IndexLoses(mem: Memory, removed: seq<Revision>, mem': Memory) {
    forall k, v ::
      && (In(mem', k, v) <==>
            In(mem, k, v) && !exists r :: r in removed && r.ResourceKey() == k && r.resourceVersion == v)
      && (In(mem', k, v) ==> mem'.m[k][v] == mem.m[k][v])
  }

  predicate In(mem: Memory, k: string, v: int) { k in mem.m && v in mem.m[k] }

  /** A purge takes the accepted keys of its queue from bucket and queue, and their places from the index. */
  ghost predicate PurgeEffect(cached: Cached, queue: Pending, accepts: string -> bool, removed: seq<Revision>,
                              cached': Cached, queue': Pending) {
    && (forall k :: k in cached'.keys <==> k in cached.keys && !(k in queue && accepts(k)))
    && (forall k :: k in queue' <==> k in queue && !accepts(k))
    && (forall k :: k in queue' ==> queue'[k] == queue[k])
    && (forall r :: r in removed <==> exists k :: k in queue && accepts(k) && queue[k].Seconds() == r)
    && (forall i, j :: 0 <= i < j < |removed| ==> removed[i] != removed[j])
    && IndexLoses(cached.mem, removed, cached'.mem)
  }

  lemma {:induction false} DeleteAllLoses(mem: Memory, revs: seq<Revision>)
    ensures IndexLoses(mem, revs, DeleteAll(mem, revs))
  {
    hide Revision.ResourceKey;
    if |revs| > 0 {
      var before, last := revs[..|revs| - 1], revs[|revs| - 1];
      DeleteAllLoses(mem, before);
      assert revs == before + [last];
      DeleteLoses(DeleteAll(mem, before), last);
    }
  }

  lemma DeleteLoses(mem: Memory, rev: Revision)
    ensures forall k, v :: In(DeleteRev(mem, rev), k, v) <==>
      In(mem, k, v) && !(rev.ResourceKey() == k && rev.resourceVersion == v)
    ensures forall k, v :: In(DeleteRev(mem, rev), k, v) ==> DeleteRev(mem, rev).m[k][v] == mem.m[k][v]
  {
    hide Revision.ResourceKey;
  }

  /** Queueing revisions under their keys keeps what is queued, for a key names one version. */
  lemma {:induction false} PutAllQueues(queue: Pending, revs: seq<Revision>)
    requires Keyed(queue) && forall r :: r in revs ==> r.WellFormed()
    ensures
      var queue' := PutAll(queue, PurgeKey(), revs);
      && Keyed(queue')
      && (forall k :: k in queue' <==> k in queue || exists r :: r in revs && r.Key() == k)
      && (forall k :: k in queue' ==>
            if k in queue then queue'[k] == queue[k] else queue'[k] in revs && queue'[k].Key() == k)
  {
    hide Revision.Key, Revision.WellFormed;
    if |revs| > 0 {
      var before, last := revs[..|revs| - 1], revs[|revs| - 1];
      assert revs == before + [last] && last in revs && forall r :: r in before ==> r in revs;
      PutAllQueues(queue, before);
      PutQueues(PutAll(queue, PurgeKey(), before), last);
    }
  }

  lemma PutQueues(queue: Pending, rev: Revision)
    requires Keyed(queue) && rev.WellFormed()
    ensures Put(queue, PurgeKey()(rev), rev) == if rev.Key() in queue then queue else queue[rev.Key() := rev]
  {
    hide Revision.Key, Revision.WellFormed;
    if rev.Key() in queue {
      var q := queue[rev.Key()];
      KeyInjective(q, rev);
      B.SecondsFields(q);
      B.SecondsFields(rev);
    }
  }

  // ---- the objects ----

  /** The run from the bucket's first keys ends, settled, in what the objects hold. */
  ghost predicate Stands(keys0: set<string>, trace: seq<R.Step>, cached: Cached, queue: Pending) {
    && R.Exec(keys0, trace).Some?
    && var s := R.Exec(keys0, trace).value;
       s.keys == cached.keys && s.mem == cached.mem && s.queue == queue && Settled(s)
  }

  ghost function WrittenBy(keys0: set<string>, trace: seq<R.Step>): set<string> {
    var s := R.Exec(keys0, trace);
    if s.Some? then s.value.written else {}
  }

  lemma StandsKeyed(keys0: set<string>, trace: seq<R.Step>, cached: Cached, queue: Pending)
    requires Stands(keys0, trace, cached, queue)
    ensures Keyed(queue)
  {
    hide R.Exec, Revision.Key, Revision.WellFormed, R.IndexWritten, R.GoneExpendable;
    R.Reachable(keys0, trace);
    forall k | k in queue
      ensures queue[k].WellFormed() && queue[k].Key() == k
    {
      assert queue[k] in queue.Values;
    }
  }

  /** One accepted write. */
  lemma Written(keys0: set<string>, trace: seq<R.Step>, cached: Cached, queue: Pending, rev: Revision)
    returns (trace': seq<R.Step>)
    requires Stands(keys0, trace, cached, queue) && rev.WellFormed()
    ensures trace <= trace' && WrittenBy(keys0, trace') == WrittenBy(keys0, trace) + {rev.Key()}
    ensures Stands(keys0, trace', Cached(cached.keys + {rev.Key()}, SetRev(cached.mem, rev)), queue)
  {
    hide R.Exec, Revision.Key, Revision.WellFormed, SetRev;
    WriteRun(keys0, trace, R.Exec(keys0, trace).value, rev);
    trace' := trace + [R.Write(rev), R.Index(rev)];
  }

  lemma Loaded(keys0: set<string>, trace: seq<R.Step>, cached: Cached, queue: Pending, loaded: seq<Revision>)
    returns (trace': seq<R.Step>)
    requires Stands(keys0, trace, cached, queue) && forall r :: r in loaded ==> Stored(cached.keys, r)
    ensures trace <= trace' && WrittenBy(keys0, trace') == WrittenBy(keys0, trace)
    ensures Stands(keys0, trace', cached.(mem := SetAll(cached.mem, loaded)), queue)
  {
    hide R.Exec, Stored, SetAll;
    trace' := LoadRun(keys0, trace, R.Exec(keys0, trace).value, loaded);
  }

  lemma Reaped(keys0: set<string>, trace: seq<R.Step>, cached: Cached, queue: Pending,
               threshold: Threshold, revs: seq<Revision>)
    returns (trace': seq<R.Step>)
    requires Stands(keys0, trace, cached, queue) && forall r :: r in revs <==> Selected(cached.mem, threshold, r)
    ensures trace <= trace' && WrittenBy(keys0, trace') == WrittenBy(keys0, trace)
    ensures Stands(keys0, trace', cached, PutAll(queue, PurgeKey(), revs))
  {
    hide R.Exec, Selected, PutAll;
    trace' := ReapRun(keys0, trace, R.Exec(keys0, trace).value, threshold, revs);
  }

  lemma Purged(keys0: set<string>, trace: seq<R.Step>, cached: Cached, queue: Pending,
               accepts: string -> bool, revs: seq<Revision>)
    returns (trace': seq<R.Step>)
    requires Stands(keys0, trace, cached, queue) && Keyed(queue) && Reports(revs, queue, accepts)
    ensures trace <= trace' && WrittenBy(keys0, trace') == WrittenBy(keys0, trace)
    ensures Stands(keys0, trace',
                   Cached(cached.keys - (set k | k in queue && accepts(k)), DeleteAll(cached.mem, revs)),
                   EvictAll(queue, revs))
  {
    hide R.Exec, Keyed, Reports, EvictAll, DeleteAll;
    trace' := PurgeRun(keys0, trace, R.Exec(keys0, trace).value, accepts, revs);
  }

  /** The index and the queue hold well-formed revisions in their places. */
  lemma StandsFiled(keys0: set<string>, trace: seq<R.Step>, cached: Cached, queue: Pending)
    requires Stands(keys0, trace, cached, queue)
    ensures Filed(cached.mem) && forall k, v :: In(cached.mem, k, v) ==> cached.mem.m[k][v].WellFormed()
  {
    hide R.Exec, Revision.Key, Revision.ResourceKey, Revision.WellFormed, R.PurgesExpendable, R.GoneExpendable;
    R.Reachable(keys0, trace);
  }

  lemma SelectedWellFormed(keys0: set<string>, trace: seq<R.Step>, cached: Cached, queue: Pending,
                           threshold: Threshold)
    requires Stands(keys0, trace, cached, queue)
    ensures forall r :: Selected(cached.mem, threshold, r) ==> r.WellFormed()
  {
    hide Stands, Revision.Key, Revision.ResourceKey, Revision.WellFormed, Aged;
    StandsFiled(keys0, trace, cached, queue);
    forall r | Selected(cached.mem, threshold, r)
      ensures r.WellFormed()
    {
      assert In(cached.mem, r.ResourceKey(), r.resourceVersion);
    }
  }

  /**
   * A reap followed by a purge whose removals are all accepted leaves no aged expendable revision of the index
   * in the bucket, and nothing in the index for a further reap to select.
   */
  lemma ReapedArePurged(keys0: set<string>, trace: seq<R.Step>, cached: Cached, queue0: Pending,
                        threshold: Threshold, revs: seq<Revision>, queue1: Pending,
                        accepts: string -> bool, removed: seq<Revision>, cached': Cached, queue2: Pending)
    requires Stands(keys0, trace, cached, queue0)
    requires ReapEffect(cached.mem, queue0, threshold, revs, queue1)
    requires PurgeEffect(cached, queue1, accepts, removed, cached', queue2) && forall k :: accepts(k)
    ensures forall r :: Selected(cached.mem, threshold, r) ==> r.Key() !in cached'.keys
    ensures forall r :: !Selected(cached'.mem, threshold, r)
  {
    hide Stands, Revision.Key, Revision.ResourceKey, Revision.WellFormed, Revision.Seconds, Aged, IndexLoses;
    StandsKeyed(keys0, trace, cached, queue0);
    SelectedWellFormed(keys0, trace, cached, queue0, threshold);
    forall r | Selected(cached.mem, threshold, r)
      ensures r.Key() !in cached'.keys && !In(cached'.mem, r.ResourceKey(), r.resourceVersion)
    {
      assert r in revs;
      PlaceRemoved(queue1[r.Key()], r);
      LosesPlace(cached.mem, removed, cached'.mem, queue1[r.Key()].Seconds());
    }
    forall r
      ensures Selected(cached'.mem, threshold, r) ==>
        Selected(cached.mem, threshold, r) && In(cached'.mem, r.ResourceKey(), r.resourceVersion)
    {
      StillSelected(cached.mem, removed, cached'.mem, threshold, r);
    }
  }

  lemma PlaceRemoved(q: Revision, r: Revision)
    requires q.WellFormed() && r.WellFormed() && q.Key() == r.Key()
    ensures q.Seconds().ResourceKey() == r.ResourceKey() && q.Seconds().resourceVersion == r.resourceVersion
  {
    KeyInjective(q, r);
    ResourceKeyInjective(q, r);
  }

  lemma LosesPlace(mem: Memory, removed: seq<Revision>, mem': Memory, r: Revision)
    requires IndexLoses(mem, removed, mem') && r in removed
    ensures !In(mem', r.ResourceKey(), r.resourceVersion)
  {
    hide Revision.ResourceKey;
  }

  /** What is selected after a purge was selected before it. */
  lemma StillSelected(mem: Memory, removed: seq<Revision>, mem': Memory, threshold: Threshold, r: Revision)
    requires IndexLoses(mem, removed, mem')
    ensures Selected(mem', threshold, r) ==>
      Selected(mem, threshold, r) && In(mem', r.ResourceKey(), r.resourceVersion)
  {
    hide Revision.ResourceKey, Aged;
    if Selected(mem', threshold, r) {
      var k := r.ResourceKey();
      assert In(mem', k, r.resourceVersion);
      if v :| v in mem'.m[k] && r.resourceVersion < v {
        assert In(mem', k, v);
      }
    }
  }

  class Operator {
    const store: ReadWriteStore
    const purger: Purge
    const reaper: Reap
    /** The bucket's keys when the operator started, and the retention steps made since. */
    ghost const keys0: set<string>
    ghost var trace: seq<R.Step>

    ghost predicate Valid()
      reads this, store, store.store, store.store.backend, store.reader, purger, purger.s, purger.s.store,
            purger.s.store.backend, purger.s.reader, purger.c, reaper
    {
      && purger.s == store && reaper.s == store && reaper.p == purger.c && purger.Valid()
      && Stands(keys0, trace, store.View(), purger.c.m)
    }

    /** Every key the bucket ever had. */
    ghost function EverWritten(): set<string>
      reads this
    {
      WrittenBy(keys0, trace)
    }

    constructor (store: ReadWriteStore)
      requires store.Valid() && store.reader.View() == EMPTY
      ensures Valid() && this.store == store && EverWritten() == store.store.backend.keys
      ensures fresh(purger) && fresh(purger.c) && fresh(reaper)
    {
      this.store := store;
      var purge := new Purge(store);
      purger := purge;
      reaper := new Reap(store, purge.c);
      keys0 := store.store.backend.keys;
      trace := [];
    }

    method Update(rev: Revision, accept: bool) returns (ok: bool)
      requires Valid() && rev.WellFormed()
      modifies this`trace, store.store, store.store.backend, store.reader
      ensures Valid() && old(trace) <= trace && ok == accept
      ensures EverWritten() == old(EverWritten()) + if accept then {rev.Key()} else {}
      ensures ReadWrite.Next(map[], old(store.View()), WriteOp(rev, accept), store.View())
    {
      hide Stands, WrittenBy, Revision.Key, Revision.WellFormed, SetRev;
      ghost var cached := store.View();
      ok := store.Update(rev, accept);
      if ok {
        trace := Written(keys0, trace, cached, purger.c.m, rev);
      }
    }

    method Delete(rev: Revision, accept: bool) returns (ok: bool)
      requires Valid() && rev.WellFormed()
      modifies this`trace, store.store.backend, store.reader
      ensures Valid() && old(trace) <= trace && ok == accept
      ensures EverWritten() == old(EverWritten()) + if accept then {B.Deleted(rev).Key()} else {}
      ensures ReadWrite.Next(map[], old(store.View()), WriteOp(B.Deleted(rev), accept), store.View())
    {
      B.DeletedWellFormed(rev);
      hide Stands, WrittenBy, Revision.Key, Revision.WellFormed, SetRev, B.Deleted;
      ghost var cached := store.View();
      ok := store.Delete(rev, accept);
      if ok {
        trace := Written(keys0, trace, cached, purger.c.m, B.Deleted(rev));
      }
    }

    method Sync(handlers: ResourceHandlers, deleteUntracked: bool, cut: Option<nat>)
      returns (toDelete: seq<Revision>, ok: bool, ghost loaded: seq<Revision>)
      requires Valid()
      modifies this`trace, store.reader
      ensures Valid() && old(trace) <= trace && EverWritten() == old(EverWritten())
      ensures ok == !(cut.Some? && cut.value <= |store.store.backend.keys|)
      ensures ok ==> ReadWrite.Next(handlers, old(store.View()), SyncOp(loaded), store.View())
      ensures ok ==> forall r :: r in toDelete <==>
        Stored(store.store.backend.keys, r) && SyncWalk.Stale(handlers, deleteUntracked, r)
      ensures !ok ==> store.View() == old(store.View()) && toDelete == []
    {
      hide Stands, WrittenBy, Revision.Key, Revision.WellFormed, SetAll, Stored;
      ghost var cached := store.View();
      toDelete, ok, loaded := store.Sync(handlers, deleteUntracked, cut);
      if ok {
        trace := Loaded(keys0, trace, cached, purger.c.m, loaded);
      }
    }

    /** One cycle of the reaper. */
    method ReapCycle(threshold: Threshold) returns (revsToReap: seq<Revision>)
      requires Valid()
      modifies this`trace, purger.c
      ensures Valid() && old(trace) <= trace && EverWritten() == old(EverWritten())
      ensures ReapEffect(store.reader.View(), old(purger.c.m), threshold, revsToReap, purger.c.m)
    {
      hide Stands, WrittenBy, Selected, PutAll, Keyed, PurgeKey, Revision.Key;
      ghost var queue := purger.c.m;
      SelectedWellFormed(keys0, trace, store.View(), queue, threshold);
      revsToReap := reaper.Run(threshold);
      PutAllQueues(queue, revsToReap);
      trace := Reaped(keys0, trace, store.View(), queue, threshold, revsToReap);
      StandsKeyed(keys0, trace, store.View(), purger.c.m);
    }

    /** One cycle of the purger. */
    method PurgeCycle(accepts: string -> bool) returns (deletedRevs: seq<Revision>)
      requires Valid()
      modifies this`trace, purger.c, store.store.backend, store.reader
      ensures Valid() && old(trace) <= trace && EverWritten() == old(EverWritten())
      ensures PurgeEffect(old(store.View()), old(purger.c.m), accepts, deletedRevs, store.View(), purger.c.m)
    {
      hide Stands, WrittenBy, Keyed, EvictAll, DeleteAll, KeysOf, PurgeKey, IndexLoses;
      ghost var cached, queue := store.View(), purger.c.m;
      deletedRevs := purger.PurgeCycle(accepts);
      trace := Purged(keys0, trace, cached, queue, accepts, deletedRevs);
      EvictAllReparsed(queue, deletedRevs);
      DeleteAllLoses(cached.mem, deletedRevs);
    }
  }

  /** Of every object ever written, the newest live revision is in the bucket and not queued for purging. */
  lemma NewestStands(o: Operator, r: Revision)
    requires o.Valid() && R.NewestEver(o.EverWritten(), r)
    ensures r.Key() in o.store.store.backend.keys && r.Key() !in o.purger.c.m
  {
    hide R.Exec, R.NewestEver, Revision.Key;
    R.NewestIsRetained(o.keys0, o.trace, r);
  }
}
