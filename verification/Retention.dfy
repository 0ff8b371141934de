/**
 * Retention on the cached store, as a step relation: writes, index updates, reaps and purges interleave step
 * by step, and every backend call may fail. A live revision of the greatest version ever written for its
 * object is never queued for purging and never removed.
 */
module Retention {
  import opened Strings
  import opened Revisions
  import opened PendingCache
  import opened InMemory
  import opened ReadWrite
  import opened Reaper
  import B = BackendStore

  /** `written` records every key the backend ever had. */
  datatype State = State(
    keys: set<string>,
    written: set<string>,
    mem: Memory,
    landing: set<Revision>,   // in the backend, not yet in the index
    reaped: set<Revision>,    // selected by the reaper, not yet queued
    queue: Pending,           // the purge queue
    purging: set<Revision>,   // the purge cycle's snapshot, not yet tried
    removed: set<Revision>,   // removed from the backend, not yet from the index
    dropped: set<Revision>)   // removed from both, not yet from the queue

  datatype Step =
    | Write(rev: Revision)                                  // the backend takes a write; a refused one is no step
    | Index(rev: Revision)                                  // the index follows
    | Load(rev: Revision)                                   // Sync loads a stored revision
    | Reap(threshold: Threshold, selected: set<Revision>)
    | QueueForPurge(rev: Revision)
    | StartPurge
    | RemoveKey(rev: Revision)                              // the backend removes a key
    | KeepKey(rev: Revision)                                // the backend refuses to
    | DropFromIndex(rev: Revision)
    | Unqueue(rev: Revision)

  function Init(keys: set<string>): State {
    State(keys, keys, EMPTY, {}, {}, map[], {}, {}, {})
  }

  ghost predicate Enabled(s: State, step: Step) {
    match step
    case Write(rev) => rev.WellFormed()
    case Index(rev) => rev in s.landing
    case Load(rev) => Stored(s.keys, rev)
    case Reap(threshold, selected) => forall r :: r in selected <==> Selected(s.mem, threshold, r)
    case QueueForPurge(rev) => rev in s.reaped
    case StartPurge => s.purging == {} && s.removed == {} && s.dropped == {}
    case RemoveKey(rev) => rev in s.purging
    case KeepKey(rev) => rev in s.purging
    case DropFromIndex(rev) => s.purging == {} && rev in s.removed
    case Unqueue(rev) => s.purging == {} && s.removed == {} && rev in s.dropped
  }

  function Apply(s: State, step: Step): State {
    match step
    case Write(rev) =>
      s.(keys := s.keys + {rev.Key()}, written := s.written + {rev.Key()}, landing := s.landing + {rev})
    case Index(rev) => s.(mem := SetRev(s.mem, rev), landing := s.landing - {rev})
    case Load(rev) => s.(mem := SetRev(s.mem, rev))
    case Reap(_, selected) => s.(reaped := s.reaped + selected)
    case QueueForPurge(rev) => s.(reaped := s.reaped - {rev}, queue := Put(s.queue, rev.Key(), rev))
    case StartPurge => s.(purging := s.queue.Values)
    case RemoveKey(rev) =>
      s.(keys := s.keys - {rev.Key()}, purging := s.purging - {rev}, removed := s.removed + {rev.Seconds()})
    case KeepKey(rev) => s.(purging := s.purging - {rev})
    case DropFromIndex(rev) =>
      s.(mem := DeleteRev(s.mem, rev), removed := s.removed - {rev}, dropped := s.dropped + {rev})
    case Unqueue(rev) => s.(dropped := s.dropped - {rev}, queue := Evict(s.queue, rev.Key(), rev))
  }

  ghost function Exec(keys: set<string>, steps: seq<Step>): Option<State> {
    if |steps| == 0 then Some(Init(keys))
    else
      var before, step := Exec(keys, steps[..|steps| - 1]), steps[|steps| - 1];
      if before.Some? && Enabled(before.value, step) then Some(Apply(before.value, step)) else None
  }

  /** A well-formed revision whose key was written at some time. */
  ghost predicate Ever(written: set<string>, r: Revision) {
    r.WellFormed() && r.Key() in written
  }

  /** The revision is deleted, or a newer one of its object was written. */
  ghost predicate Expendable(written: set<string>, r: Revision) {
    r.WellFormed() &&
    (r.deleted || exists p :: Ever(written, p) && SameObject(p, r) && r.resourceVersion < p.resourceVersion)
  }

  ghost predicate AllExpendable(written: set<string>, revs: set<Revision>) {
    forall r :: r in revs ==> Expendable(written, r)
  }

  /** The index, and what is on its way there, was once written. */
  ghost predicate IndexWritten(s: State) {
    && Filed(s.mem)
    && (forall k, v :: k in s.mem.m && v in s.mem.m[k] ==> Ever(s.written, s.mem.m[k][v]))
    && (forall r :: r in s.landing ==> Ever(s.written, r))
  }

  /** Whatever is on its way to be purged is expendable. */
  ghost predicate PurgesExpendable(s: State) {
    && (forall k :: k in s.queue ==> s.queue[k].Key() == k)
    && AllExpendable(s.written, s.reaped) && AllExpendable(s.written, s.queue.Values)
    && AllExpendable(s.written, s.purging)
  }

  /** A key that is gone was the key of an expendable revision. */
  ghost predicate GoneExpendable(s: State) {
    && s.keys <= s.written
    && forall k :: k in s.written && k !in s.keys ==> exists r :: Expendable(s.written, r) && r.Key() == k
  }

  ghost predicate Inv(s: State) {
    IndexWritten(s) && PurgesExpendable(s) && GoneExpendable(s)
  }

  /** A reaped revision is expendable: if live, the index has a newer version of its object. */
  lemma ReapedAreExpendable(s: State, threshold: Threshold, r: Revision)
    requires IndexWritten(s) && Selected(s.mem, threshold, r)
    ensures Expendable(s.written, r)
  {
    hide Revision.Key, Revision.ResourceKey, Revision.WellFormed;
    assert Ever(s.written, r);
    if !r.deleted {
      var key := r.ResourceKey();
      var v :| v in s.mem.m[key] && r.resourceVersion < v;
      var p := s.mem.m[key][v];
      assert Ever(s.written, p) && p.ResourceKey() == key && p.resourceVersion == v;
      ResourceKeyInjective(p, r);
    }
  }

  lemma MoreWritten(written: set<string>, written': set<string>, revs: set<Revision>)
    requires AllExpendable(written, revs) && written <= written'
    ensures AllExpendable(written', revs)
  {
    hide Revision.Key, Revision.WellFormed;
    forall r | r in revs
      ensures Expendable(written', r)
    {
      assert Expendable(written, r);
      if !r.deleted {
        var p :| Ever(written, p) && SameObject(p, r) && r.resourceVersion < p.resourceVersion;
        assert Ever(written', p);
      }
    }
  }

  lemma SetIndexWritten(written: set<string>, mem: Memory, rev: Revision)
    requires Filed(mem) && Ever(written, rev)
    requires forall k, v :: k in mem.m && v in mem.m[k] ==> Ever(written, mem.m[k][v])
    ensures Filed(SetRev(mem, rev))
    ensures
      var m := SetRev(mem, rev).m;
      forall k, v :: k in m && v in m[k] ==> Ever(written, m[k][v])
  {
    hide Revision.Key, Revision.ResourceKey, Revision.WellFormed;
  }

  lemma IndexWrittenStep(s: State, step: Step)
    requires Inv(s) && Enabled(s, step)
    ensures IndexWritten(Apply(s, step))
  {
    hide Revision.Key, Revision.ResourceKey, Revision.WellFormed, Revision.Seconds, SetRev, PurgesExpendable;
    match step {
      case Index(rev) => SetIndexWritten(s.written, s.mem, rev);
      case Load(rev) => SetIndexWritten(s.written, s.mem, rev);
      case DropFromIndex(rev) => DeleteKeepsFiled(s.mem, rev);
      case _ =>
    }
  }

  lemma PurgesExpendableStep(s: State, step: Step)
    requires Inv(s) && Enabled(s, step)
    ensures PurgesExpendable(Apply(s, step))
  {
    hide Revision.Key, Revision.ResourceKey, Revision.WellFormed, Revision.Seconds, SetRev, DeleteRev, Expendable,
         GoneExpendable, Selected, IndexWritten;
    var s' := Apply(s, step);
    MoreWritten(s.written, s'.written, s.reaped);
    MoreWritten(s.written, s'.written, s.queue.Values);
    MoreWritten(s.written, s'.written, s.purging);
    match step {
      case Reap(threshold, selected) =>
        forall r | r in selected
          ensures Expendable(s.written, r)
        {
          ReapedAreExpendable(s, threshold, r);
        }
      case _ =>
    }
  }

  lemma GoneExpendableStep(s: State, step: Step)
    requires Inv(s) && Enabled(s, step)
    ensures GoneExpendable(Apply(s, step))
  {
    hide Revision.Key, Revision.ResourceKey, Revision.WellFormed, Revision.Seconds, SetRev, DeleteRev, Expendable,
         Selected, IndexWritten;
    var s' := Apply(s, step);
    forall k | k in s'.written && k !in s'.keys
      ensures exists r :: Expendable(s'.written, r) && r.Key() == k
    {
      if k !in s.keys {
        var r :| Expendable(s.written, r) && r.Key() == k;
        MoreWritten(s.written, s'.written, {r});
      } else {
        assert step.RemoveKey? && step.rev.Key() == k;
        assert Expendable(s.written, step.rev);
      }
    }
  }

  lemma {:induction false} Reachable(keys: set<string>, steps: seq<Step>)
    requires Exec(keys, steps).Some?
    ensures Inv(Exec(keys, steps).value)
  {
    if |steps| > 0 {
      var before, step := Exec(keys, steps[..|steps| - 1]).value, steps[|steps| - 1];
      Reachable(keys, steps[..|steps| - 1]);
      IndexWrittenStep(before, step);
      PurgesExpendableStep(before, step);
      GoneExpendableStep(before, step);
    }
  }

  /** A live revision of the greatest version ever written for its object. */
  ghost predicate NewestEver(written: set<string>, r: Revision) {
    && Ever(written, r) && !r.deleted
    && forall p :: Ever(written, p) && SameObject(p, r) ==> p.resourceVersion <= r.resourceVersion
  }

  lemma NewestIsNotExpendable(written: set<string>, r: Revision, q: Revision)
    requires NewestEver(written, r) && Expendable(written, q)
    ensures q.Key() != r.Key()
  {
    if q.Key() == r.Key() {
      KeyInjective(q, r);
      B.SecondsFields(q);
      B.SecondsFields(r);
    }
  }

  /** The newest live revision of an object is never queued for purging and never leaves the backend. */
  lemma NewestIsRetained(keys: set<string>, steps: seq<Step>, r: Revision)
    requires Exec(keys, steps).Some?
    requires NewestEver(Exec(keys, steps).value.written, r)
    ensures
      var s := Exec(keys, steps).value;
      r.Key() in s.keys && r.Key() !in s.queue && forall q :: q in s.reaped + s.purging ==> q.Key() != r.Key()
  {
    hide Revision.Key, Revision.ResourceKey, Revision.WellFormed, Expendable, NewestEver, IndexWritten;
    Reachable(keys, steps);
    var s := Exec(keys, steps).value;
    assert r.Key() in s.written by {
      NewestWasWritten(s.written, r);
    }
    if r.Key() !in s.keys {
      var q :| Expendable(s.written, q) && q.Key() == r.Key();
      NewestIsNotExpendable(s.written, r, q);
    }
    if r.Key() in s.queue {
      assert s.queue[r.Key()] in s.queue.Values;
      NewestIsNotExpendable(s.written, r, s.queue[r.Key()]);
    }
    forall q | q in s.reaped + s.purging
      ensures q.Key() != r.Key()
    {
      NewestIsNotExpendable(s.written, r, q);
    }
  }

  lemma NewestWasWritten(written: set<string>, r: Revision)
    requires NewestEver(written, r)
    ensures r.Key() in written
  {
  }

  /** The steps interleave freely: each is possible in every state of a run that has what it needs. */
  lemma StepsAreFree(keys: set<string>, steps: seq<Step>)
    requires Exec(keys, steps).Some?
    ensures
      var s := Exec(keys, steps).value;
      && (forall rev: Revision :: rev.WellFormed() ==> Exec(keys, steps + [Write(rev)]).Some?)
      && (forall rev :: rev in s.landing ==> Exec(keys, steps + [Index(rev)]).Some?)
      && (forall rev :: Stored(s.keys, rev) ==> Exec(keys, steps + [Load(rev)]).Some?)
      && (forall threshold, selected :: (forall r :: r in selected <==> Selected(s.mem, threshold, r)) ==>
            Exec(keys, steps + [Reap(threshold, selected)]).Some?)
      && (forall rev :: rev in s.reaped ==> Exec(keys, steps + [QueueForPurge(rev)]).Some?)
      && (s.purging + s.removed + s.dropped == {} ==> Exec(keys, steps + [StartPurge]).Some?)
      && (forall rev :: rev in s.purging ==>
            Exec(keys, steps + [RemoveKey(rev)]).Some? && Exec(keys, steps + [KeepKey(rev)]).Some?)
      && (forall rev :: rev in s.removed && s.purging == {} ==> Exec(keys, steps + [DropFromIndex(rev)]).Some?)
      && (forall rev :: rev in s.dropped && s.purging + s.removed == {} ==> Exec(keys, steps + [Unqueue(rev)]).Some?)
  {
    hide Exec, Apply, Stored, Selected, Revision.WellFormed;
    forall step
      ensures Enabled(Exec(keys, steps).value, step) ==> Exec(keys, steps + [step]).Some?
    {
      Extends(keys, steps, step);
    }
  }

  lemma Extends(keys: set<string>, steps: seq<Step>, step: Step)
    requires Exec(keys, steps).Some?
    ensures Enabled(Exec(keys, steps).value, step) ==> Exec(keys, steps + [step]).Some?
  {
    hide Enabled, Apply;
    assert (steps + [step])[..|steps|] == steps;
  }
}
