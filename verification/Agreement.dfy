/**
 * What the cached store keeps over every run of its calls: the index only holds what the backend holds, and,
 * unless two keys share an object and a version, all that it holds of the tracked objects.
 */
module Agreement {
  import opened Revisions
  import opened Handlers
  import SyncWalk
  import opened InMemory
  import opened ReadWrite
  import B = BackendStore

  /** Every indexed revision sits under its own resource key and version, and its key is in the backend. */
  ghost predicate Mirrors(s: Cached) {
    Filed(s.mem) && forall k, v :: k in s.mem.m && v in s.mem.m[k] ==> Backed(s.keys, s.mem.m[k][v])
  }

  ghost predicate Backed(keys: set<string>, r: Revision) {
    r.WellFormed() && r.Key() in keys
  }

  /** The index has a revision with this key where the key's revision belongs. */
  ghost predicate Indexed(mem: Memory, r: Revision) {
    && r.ResourceKey() in mem.m && r.resourceVersion in mem.m[r.ResourceKey()]
    && mem.m[r.ResourceKey()][r.resourceVersion].Key() == r.Key()
  }

  /** Every stored revision of a tracked object is indexed. */
  ghost predicate Full(handlers: ResourceHandlers, s: Cached) {
    forall r :: Stored(s.keys, r) && SyncWalk.Tracked(handlers, r) ==> Indexed(s.mem, r)
  }

  predicate SamePlace(a: Revision, b: Revision) {
    SameObject(a, b) && a.resourceVersion == b.resourceVersion
  }

  /** No two keys share an object and a version. */
  ghost predicate NoConflict(keys: set<string>) {
    forall a, b :: Stored(keys, a) && Stored(keys, b) && SamePlace(a, b) ==> a == b
  }

  // ---- the index's updates, by place ----

  lemma SetPlaces(mem: Memory, rev: Revision, k: string, v: int)
    requires k in SetRev(mem, rev).m && v in SetRev(mem, rev).m[k]
    ensures
      var r := SetRev(mem, rev).m[k][v];
      if k == rev.ResourceKey() && v == rev.resourceVersion then r == rev
      else k in mem.m && v in mem.m[k] && r == mem.m[k][v]
  {
    hide Revision.ResourceKey;
  }

  lemma SetMirrors(s: Cached, rev: Revision)
    requires Mirrors(s) && rev.WellFormed()
    ensures Mirrors(Cached(s.keys + {rev.Key()}, SetRev(s.mem, rev)))
  {
    hide Revision.ResourceKey, Revision.Key, Revision.WellFormed, SetRev;
    var s' := Cached(s.keys + {rev.Key()}, SetRev(s.mem, rev));
    SetKeepsFiled(s.mem, rev);
    forall k, v | k in s'.mem.m && v in s'.mem.m[k]
      ensures Backed(s'.keys, s'.mem.m[k][v])
    {
      SetPlaces(s.mem, rev, k, v);
    }
  }

  lemma DeleteMirrors(s: Cached, rev: Revision)
    requires Mirrors(s) && rev.WellFormed()
    ensures Mirrors(Cached(s.keys - {rev.Key()}, DeleteRev(s.mem, rev)))
  {
    hide Revision.ResourceKey, Revision.Key, Revision.WellFormed;
    var s' := Cached(s.keys - {rev.Key()}, DeleteRev(s.mem, rev));
    DeleteKeepsFiled(s.mem, rev);
    forall k, v | k in s'.mem.m && v in s'.mem.m[k]
      ensures Backed(s'.keys, s'.mem.m[k][v])
    {
      var r := s'.mem.m[k][v];
      assert r == s.mem.m[k][v] && Backed(s.keys, r);
      assert r.ResourceKey() == k && r.resourceVersion == v;
      if r.Key() == rev.Key() {
        SameKeyPlace(r, rev);
      }
    }
  }

  /** A key determines where the index keeps its revision. */
  lemma SameKeyPlace(a: Revision, b: Revision)
    requires a.WellFormed() && b.WellFormed() && a.Key() == b.Key()
    ensures a.ResourceKey() == b.ResourceKey() && SamePlace(a, b)
  {
    KeyInjective(a, b);
    ResourceKeyInjective(a, b);
  }

  lemma {:induction false} DeleteAllMirrors(s: Cached, revs: seq<Revision>)
    requires Mirrors(s) && forall r :: r in revs ==> r.WellFormed()
    ensures Mirrors(Cached(s.keys - KeysOf(revs), DeleteAll(s.mem, revs)))
  {
    hide Revision.ResourceKey, Revision.Key, Revision.WellFormed, DeleteRev, Mirrors;
    if |revs| == 0 {
      assert s.keys - KeysOf(revs) == s.keys;
    } else {
      var before, last := revs[..|revs| - 1], revs[|revs| - 1];
      assert forall r :: r in before ==> r in revs;
      assert last in revs && before + [last] == revs;
      DeleteAllMirrors(s, before);
      var mid := Cached(s.keys - KeysOf(before), DeleteAll(s.mem, before));
      DeleteMirrors(mid, last);
      KeysOfLast(before, last);
      assert s.keys - KeysOf(revs) == mid.keys - {last.Key()};
    }
  }

  lemma {:induction false} SetAllMirrors(s: Cached, revs: seq<Revision>)
    requires Mirrors(s) && forall r :: r in revs ==> Stored(s.keys, r)
    ensures Mirrors(Cached(s.keys, SetAll(s.mem, revs)))
  {
    hide Revision.ResourceKey, Revision.Key, Revision.WellFormed, Revision.Seconds, SetRev, Mirrors;
    if |revs| > 0 {
      var before, last := revs[..|revs| - 1], revs[|revs| - 1];
      assert forall r :: r in before ==> r in revs;
      assert last in revs;
      SetAllMirrors(s, before);
      SetMirrors(Cached(s.keys, SetAll(s.mem, before)), last);
      assert s.keys + {last.Key()} == s.keys;
    }
  }

  /** The index holds only what the backend holds: no call changes that, whatever fails. */
  lemma StepMirrors(handlers: ResourceHandlers, s: Cached, op: ReadWrite.Op, s': Cached)
    requires Mirrors(s) && Next(handlers, s, op, s')
    ensures Mirrors(s')
  {
    hide Revision.ResourceKey, Revision.Key, Revision.WellFormed, Revision.Seconds, SetRev, SetAll, DeleteAll, Mirrors;
    match op {
      case WriteOp(rev, accept) => if accept { SetMirrors(s, rev); }
      case PurgeOp(revs) => DeleteAllMirrors(s, revs);
      case SyncOp(loaded) => SetAllMirrors(s, loaded);
    }
  }

  // ---- completeness ----

  lemma TrackedByObject(handlers: ResourceHandlers, a: Revision, b: Revision)
    requires SameObject(a, b)
    ensures SyncWalk.Tracked(handlers, a) == SyncWalk.Tracked(handlers, b)
  {
  }

  lemma StoredAfterAdd(keys: set<string>, rev: Revision, q: Revision)
    requires rev.WellFormed()
    ensures Stored(keys + {rev.Key()}, q) <==> Stored(keys, q) || q == rev.Seconds()
  {
    hide Revision.Key;
    B.SecondsKeys(rev);
    if q.WellFormed() && q.Key() == rev.Key() {
      KeyInjective(q, rev);
    }
  }

  lemma SetIndexed(mem: Memory, rev: Revision, q: Revision)
    requires rev.WellFormed() && q.WellFormed()
    ensures Indexed(SetRev(mem, rev), q) <==>
      if SamePlace(q, rev) then q.Key() == rev.Key() else Indexed(mem, q)
  {
    ResourceKeyInjective(q, rev);
    hide Revision.ResourceKey, Revision.Key, Revision.WellFormed;
  }

  lemma DeleteIndexed(mem: Memory, rev: Revision, q: Revision)
    requires rev.WellFormed() && q.WellFormed()
    ensures Indexed(DeleteRev(mem, rev), q) <==> !SamePlace(q, rev) && Indexed(mem, q)
  {
    ResourceKeyInjective(q, rev);
    hide Revision.ResourceKey, Revision.Key, Revision.WellFormed;
  }

  /**
   * From an index that has all of the tracked objects' keys, an accepted write leaves one that has them all
   * exactly when no other key shares the written revision's object and version.
   */
  lemma WriteStaysFullIff(handlers: ResourceHandlers, s: Cached, rev: Revision, s': Cached)
    requires Full(handlers, s) && SyncWalk.Tracked(handlers, rev)
    requires Next(handlers, s, WriteOp(rev, true), s')
    ensures Full(handlers, s') <==>
      forall q :: Stored(s.keys, q) && SamePlace(q, rev) ==> q == rev.Seconds()
  {
    hide Revision.ResourceKey, Revision.Key, Revision.WellFormed, Revision.Seconds, SetRev, Indexed, SyncWalk.Tracked;
    forall q
      ensures Stored(s'.keys, q) <==> Stored(s.keys, q) || q == rev.Seconds()
      ensures Stored(s'.keys, q) ==>
        (Indexed(s'.mem, q) <==> if SamePlace(q, rev) then q == rev.Seconds() else Indexed(s.mem, q))
    {
      StoredAfterAdd(s.keys, rev, q);
      if Stored(s'.keys, q) {
        SetIndexed(s.mem, rev, q);
        SameSeconds(q, rev);
      }
    }
    B.SecondsFields(rev);
    if Full(handlers, s') {
      forall q | Stored(s.keys, q) && SamePlace(q, rev)
        ensures q == rev.Seconds()
      {
        TrackedByObject(handlers, q, rev);
        assert Indexed(s'.mem, q);
      }
    }
  }

  lemma SameSeconds(q: Revision, rev: Revision)
    requires q.WellFormed() && rev.WellFormed() && q.Seconds() == q
    ensures q.Key() == rev.Key() <==> q == rev.Seconds()
  {
    KeyInjective(q, rev);
  }

  /** Likewise a removal, exactly when no key is left that shares the removed revision's object and version. */
  lemma PurgeStaysFullIff(handlers: ResourceHandlers, s: Cached, rev: Revision, s': Cached)
    requires Full(handlers, s) && SyncWalk.Tracked(handlers, rev)
    requires Next(handlers, s, PurgeOp([rev]), s')
    ensures Full(handlers, s') <==> forall q :: Stored(s'.keys, q) ==> !SamePlace(q, rev)
  {
    hide Revision.ResourceKey, Revision.Key, Revision.Seconds, DeleteRev, Indexed, SyncWalk.Tracked;
    OneDeleted(s.mem, rev);
    assert rev in [rev];
    hide Revision.WellFormed;
    forall q | Stored(s'.keys, q)
      ensures Indexed(s'.mem, q) <==> !SamePlace(q, rev) && Indexed(s.mem, q)
      ensures SamePlace(q, rev) ==> SyncWalk.Tracked(handlers, q)
      ensures Stored(s.keys, q)
    {
      DeleteIndexed(s.mem, rev, q);
      if SamePlace(q, rev) {
        TrackedByObject(handlers, q, rev);
      }
    }
  }

  lemma OneDeleted(mem: Memory, rev: Revision)
    ensures DeleteAll(mem, [rev]) == DeleteRev(mem, rev)
  {
    assert [rev][..0] == [];
  }

  lemma {:induction false} SetAllIndexes(mem: Memory, revs: seq<Revision>, keys: set<string>, q: Revision)
    requires NoConflict(keys) && (forall r :: r in revs ==> Stored(keys, r)) && Stored(keys, q)
    requires q in revs || Indexed(mem, q)
    ensures Indexed(SetAll(mem, revs), q)
  {
    hide Revision.ResourceKey, Revision.Key, Revision.WellFormed, Revision.Seconds, SetRev, Indexed;
    if |revs| > 0 {
      var before, last := revs[..|revs| - 1], revs[|revs| - 1];
      assert forall r :: r in before ==> r in revs;
      assert last in revs && before + [last] == revs;
      SetIndexed(SetAll(mem, before), last, q);
      if !SamePlace(q, last) {
        SetAllIndexes(mem, before, keys, q);
      }
    }
  }

  lemma {:induction false} DeleteAllIndexes(mem: Memory, revs: seq<Revision>, q: Revision)
    requires (forall r :: r in revs ==> r.WellFormed() && !SamePlace(q, r)) && q.WellFormed() && Indexed(mem, q)
    ensures Indexed(DeleteAll(mem, revs), q)
  {
    hide Revision.ResourceKey, Revision.Key, Revision.WellFormed, Revision.Seconds, DeleteRev, Indexed;
    if |revs| > 0 {
      var before, last := revs[..|revs| - 1], revs[|revs| - 1];
      assert forall r :: r in before ==> r in revs;
      assert last in revs;
      DeleteAllIndexes(mem, before, q);
      DeleteIndexed(DeleteAll(mem, before), last, q);
    }
  }

  /** Loading leaves an index that has all of the tracked objects' keys, whatever it held before. */
  lemma SyncFills(handlers: ResourceHandlers, s: Cached, loaded: seq<Revision>, s': Cached)
    requires NoConflict(s.keys) && Next(handlers, s, SyncOp(loaded), s')
    ensures Full(handlers, s')
  {
    hide Revision.ResourceKey, Revision.Key, Revision.WellFormed, Revision.Seconds, SetAll, Indexed, SyncWalk.Tracked;
    forall q | Stored(s'.keys, q) && SyncWalk.Tracked(handlers, q)
      ensures Indexed(s'.mem, q)
    {
      SetAllIndexes(s.mem, loaded, s.keys, q);
    }
  }

  /** The keys that a call names: the written one, the purged ones, or none. */
  ghost function Named(op: ReadWrite.Op): set<string> {
    match op
    case WriteOp(rev, _) => {rev.Key()}
    case PurgeOp(revs) => KeysOf(revs)
    case SyncOp(_) => {}
  }

  lemma NoConflictBelow(keys: set<string>, universe: set<string>)
    requires keys <= universe && NoConflict(universe)
    ensures NoConflict(keys)
  {
    hide Revision.Key, Revision.WellFormed, Revision.Seconds;
  }

  lemma StepFull(handlers: ResourceHandlers, s: Cached, op: ReadWrite.Op, s': Cached, universe: set<string>)
    requires Full(handlers, s) && Next(handlers, s, op, s')
    requires NoConflict(universe) && s.keys <= universe && Named(op) <= universe
    ensures Full(handlers, s')
  {
    hide Revision.ResourceKey, Revision.Key, Revision.WellFormed, Revision.Seconds, SetAll, DeleteAll, SetRev, Indexed,
         SyncWalk.Tracked;
    match op {
      case WriteOp(rev, accept) =>
        if accept {
          forall q | Stored(s'.keys, q) && SyncWalk.Tracked(handlers, q)
            ensures Indexed(s'.mem, q)
          {
            StoredAfterAdd(s.keys, rev, q);
            SetIndexed(s.mem, rev, q);
            B.SecondsFields(rev);
            if SamePlace(q, rev) {
              assert q.Key() in universe;
              OnePlaceOneKey(universe, q, rev);
            }
          }
        }
      case PurgeOp(revs) =>
        forall q | Stored(s'.keys, q) && SyncWalk.Tracked(handlers, q)
          ensures Indexed(s'.mem, q)
        {
          forall r | r in revs
            ensures !SamePlace(q, r)
          {
            assert r.Key() in KeysOf(revs) && q.Key() !in KeysOf(revs);
            if SamePlace(q, r) {
              OnePlaceOneKey(universe, q, r);
            }
          }
          DeleteAllIndexes(s.mem, revs, q);
        }
      case SyncOp(loaded) =>
        NoConflictBelow(s.keys, universe);
        SyncFills(handlers, s, loaded, s');
    }
  }

  lemma OnePlaceOneKey(universe: set<string>, q: Revision, r: Revision)
    requires NoConflict(universe) && q.WellFormed() && q.Seconds() == q && q.Key() in universe
    requires r.WellFormed() && r.Key() in universe && SamePlace(q, r)
    ensures q.Key() == r.Key()
  {
    B.SecondsKeys(r);
    B.SecondsFields(r);
    hide Revision.Key, Revision.WellFormed, Revision.Seconds;
    assert Stored(universe, q) && Stored(universe, r.Seconds());
  }

  // ---- runs ----

  ghost predicate Runs(handlers: ResourceHandlers, states: seq<Cached>, ops: seq<ReadWrite.Op>) {
    && |states| == |ops| + 1
    && forall i :: 0 <= i < |ops| ==> Next(handlers, states[i], ops[i], states[i + 1])
  }

  /** Over every run from an empty index, the index holds only what the backend holds. */
  lemma {:induction false} RunMirrors(handlers: ResourceHandlers, states: seq<Cached>, ops: seq<ReadWrite.Op>, n: nat)
    requires Runs(handlers, states, ops) && n < |states| && states[0].mem == EMPTY
    ensures Mirrors(states[n])
  {
    if n > 0 {
      RunMirrors(handlers, states, ops, n - 1);
      StepMirrors(handlers, states[n - 1], ops[n - 1], states[n]);
    }
  }

  /** All keys that a run starts with, writes or purges lie in a universe without conflicts. */
  ghost predicate ConflictFree(states: seq<Cached>, ops: seq<ReadWrite.Op>, universe: set<string>) {
    && NoConflict(universe)
    && |states| > 0 && states[0].keys <= universe
    && forall i :: 0 <= i < |ops| ==> Named(ops[i]) <= universe
  }

  lemma {:induction false} KeysStayBelow(
    handlers: ResourceHandlers, states: seq<Cached>, ops: seq<ReadWrite.Op>, universe: set<string>, n: nat)
    requires Runs(handlers, states, ops) && ConflictFree(states, ops, universe) && n < |states|
    ensures states[n].keys <= universe
  {
    hide Revision.Key, NoConflict, Stored;
    if n > 0 {
      KeysStayBelow(handlers, states, ops, universe, n - 1);
      assert Next(handlers, states[n - 1], ops[n - 1], states[n]) && Named(ops[n - 1]) <= universe;
    }
  }

  /**
   * Once the index was loaded, and if no two keys share an object and a version, it holds of the tracked
   * objects exactly the backend's keys, in every later state of every run.
   */
  lemma {:induction false} AgreementAfterSync(
    handlers: ResourceHandlers, states: seq<Cached>, ops: seq<ReadWrite.Op>, universe: set<string>, i: nat, n: nat)
    requires Runs(handlers, states, ops) && ConflictFree(states, ops, universe)
    requires i < n < |states| && ops[i].SyncOp?
    ensures Full(handlers, states[n])
  {
    hide Next, Full, NoConflict, Named;
    KeysStayBelow(handlers, states, ops, universe, n - 1);
    if i == n - 1 {
      NoConflictBelow(states[i].keys, universe);
      SyncFills(handlers, states[i], ops[i].loaded, states[n]);
    } else {
      AgreementAfterSync(handlers, states, ops, universe, i, n - 1);
      StepFull(handlers, states[n - 1], ops[n - 1], states[n], universe);
    }
  }

  ghost predicate InMemoryKey(mem: Memory, key: string) {
    exists k, v :: k in mem.m && v in mem.m[k] && mem.m[k][v].Key() == key
  }

  /** The two halves together: a tracked revision's key is in the index if and only if it is in the backend. */
  lemma IndexEqualsBackend(
    handlers: ResourceHandlers, states: seq<Cached>, ops: seq<ReadWrite.Op>, universe: set<string>, i: nat, n: nat,
    r: Revision)
    requires Runs(handlers, states, ops) && ConflictFree(states, ops, universe) && states[0].mem == EMPTY
    requires i < n < |states| && ops[i].SyncOp?
    requires r.WellFormed() && r.Seconds() == r && SyncWalk.Tracked(handlers, r)
    ensures InMemoryKey(states[n].mem, r.Key()) <==> r.Key() in states[n].keys
  {
    hide Revision.ResourceKey, Revision.Key, Revision.WellFormed, Revision.Seconds, SyncWalk.Tracked, Runs,
         ConflictFree;
    RunMirrors(handlers, states, ops, n);
    AgreementAfterSync(handlers, states, ops, universe, i, n);
    var s := states[n];
    if r.Key() in s.keys {
      assert Stored(s.keys, r);
      assert Indexed(s.mem, r);
    }
    if InMemoryKey(s.mem, r.Key()) {
      var k, v :| k in s.mem.m && v in s.mem.m[k] && s.mem.m[k][v].Key() == r.Key();
      assert Backed(s.keys, s.mem.m[k][v]);
    }
  }

  /**
   * A tombstone written at the version of a stored live revision breaks the agreement: the backend has both
   * keys, and the index only the tombstone's.
   */
  lemma TombstoneHidesLiveKey(handlers: ResourceHandlers, s: Cached, rev: Revision, s': Cached)
    requires Full(handlers, s) && SyncWalk.Tracked(handlers, rev)
    requires !rev.deleted && Stored(s.keys, rev) && Next(handlers, s, WriteOp(B.Deleted(rev), true), s')
    ensures rev.Key() in s'.keys && !Indexed(s'.mem, rev) && !Full(handlers, s')
  {
    var tombstone := B.Deleted(rev);
    TrackedByObject(handlers, tombstone, rev);
    KeyInjective(rev, tombstone);
    SetIndexed(s.mem, tombstone, rev);
    hide Revision.ResourceKey, Revision.Key, Revision.WellFormed, Revision.Seconds, SyncWalk.Tracked, SetRev, Indexed;
    assert Stored(s'.keys, rev);
  }
}
