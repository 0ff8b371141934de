/** The controller's start: what the store no longer finds in the cluster is queued as tombstones. */
module Controller {
  import opened Strings
  import opened Revisions
  import opened PendingCache
  import opened Handlers
  import opened ReadWrite
  import opened Flusher
  import FlushProtocol
  import SyncWalk
  import B = BackendStore

  /** The calls that queue the list's revisions as tombstones. */
  function Tombstones(revs: seq<Revision>): seq<PendingCache.Op> {
    seq(|revs|, i requires 0 <= i < |revs| => CacheOp(B.Deleted(revs[i])))
  }

  /** `m` holds one tombstone for each object of the list, carrying the object's greatest version in it. */
  ghost predicate Coalesced(m: Pending, toDelete: seq<Revision>) {
    && (forall k :: k in m <==> exists r :: r in toDelete && r.ResourceKey() == k)
    && (forall k :: k in m ==> m[k].deleted && m[k].ResourceKey() == k)
    && (forall k :: k in m ==> exists r :: r in toDelete && m[k] == r.(deleted := true))
    && (forall r :: r in toDelete ==>
          r.ResourceKey() in m && r.resourceVersion <= m[r.ResourceKey()].resourceVersion)
  }

  lemma TombstoneCalls(toDelete: seq<Revision>)
    ensures forall op :: op in Tombstones(toDelete) <==>
      op.CacheOp? && exists r :: r in toDelete && op.rev == B.Deleted(r)
  {
    hide B.Deleted;
    var ops := Tombstones(toDelete);
    forall op
      ensures op in ops <==> op.CacheOp? && exists r :: r in toDelete && op.rev == B.Deleted(r)
    {
      if op in ops {
        var i :| 0 <= i < |ops| && ops[i] == op;
        assert toDelete[i] in toDelete;
      }
      if op.CacheOp? && exists r :: r in toDelete && op.rev == B.Deleted(r) {
        var r :| r in toDelete && op.rev == B.Deleted(r);
        var i :| 0 <= i < |toDelete| && toDelete[i] == r;
        assert ops[i] == op;
      }
    }
  }

  /** One object's tombstone. */
  lemma Tombstone(toDelete: seq<Revision>, k: string)
    ensures
      var m := Run(FlushKey(), Tombstones(toDelete));
      && (k in m <==> exists r :: r in toDelete && r.ResourceKey() == k)
      && (k in m ==> exists r :: r in toDelete && m[k] == B.Deleted(r) && r.ResourceKey() == k)
      && (forall r :: r in toDelete && r.ResourceKey() == k ==> k in m && r.resourceVersion <= m[k].resourceVersion)
  {
    forall r: Revision
      ensures FlushKey()(B.Deleted(r)) == r.ResourceKey() && B.Deleted(r).resourceVersion == r.resourceVersion
    {
      SameResource(r);
    }
    hide Revision.ResourceKey, Run, FlushKey, B.Deleted, Tombstones;
    var ops := Tombstones(toDelete);
    TombstoneCalls(toDelete);
    HoldsMaximum(FlushKey(), ops, k);
    forall r | r in toDelete && r.ResourceKey() == k
      ensures k in Run(FlushKey(), ops) && r.resourceVersion <= Run(FlushKey(), ops)[k].resourceVersion
    {
      assert CacheOp(B.Deleted(r)) in ops;
    }
  }

  lemma TombstonesCoalesce(toDelete: seq<Revision>)
    ensures Coalesced(Run(FlushKey(), Tombstones(toDelete)), toDelete)
  {
    hide Revision.ResourceKey, Run, FlushKey, Tombstones, B.Deleted;
    var m := Run(FlushKey(), Tombstones(toDelete));
    forall r: Revision
      ensures B.Deleted(r) == r.(deleted := true) && B.Deleted(r).ResourceKey() == r.ResourceKey()
    {
      SameResource(r);
    }
    forall k
      ensures k in m <==> exists r :: r in toDelete && r.ResourceKey() == k
      ensures k in m ==> m[k].deleted && m[k].ResourceKey() == k && exists r :: r in toDelete && m[k] == B.Deleted(r)
    {
      Tombstone(toDelete, k);
      if k in m {
        var r :| r in toDelete && m[k] == B.Deleted(r) && r.ResourceKey() == k;
      }
    }
    forall r | r in toDelete
      ensures r.ResourceKey() in m && r.resourceVersion <= m[r.ResourceKey()].resourceVersion
    {
      Tombstone(toDelete, r.ResourceKey());
    }
  }

  lemma SameResource(r: Revision)
    ensures B.Deleted(r).ResourceKey() == r.ResourceKey() && B.Deleted(r) == r.(deleted := true)
  {
  }

  /**
   * syncStore, on an empty pending cache: afterwards it holds, for each object that has a stored revision the
   * cluster no longer backs, one tombstone of the greatest such version, and nothing else. If the bucket's
   * listing fails, nothing is queued or loaded.
   */
  method SyncStore(store: ReadWriteStore, flusher: Flush, handlers: ResourceHandlers, deleteUntracked: bool,
                   cut: Option<nat>)
    returns (revsToDelete: seq<Revision>, ok: bool)
    requires store.Valid() && flusher.Valid() && flusher.c.m == map[]
    modifies store.reader, flusher, flusher.c
    ensures store.Valid() && flusher.Valid()
    ensures ok == !(cut.Some? && cut.value <= |store.store.backend.keys|)
    ensures ok ==> forall r :: r in revsToDelete <==>
      Stored(store.store.backend.keys, r) && SyncWalk.Stale(handlers, deleteUntracked, r)
    ensures ok ==> forall shown :: SyncWalk.AllShow(handlers, shown) ==> forall r :: r in revsToDelete <==>
      Stored(store.store.backend.keys, r) &&
      match HandlerFor(handlers, r.apiVersion, r.kind, r.namespace)
      case None => deleteUntracked
      case Some(h) => (r.namespace, r.name) !in shown(h)
    ensures ok ==> exists loaded :: Next(handlers, old(store.View()), SyncOp(loaded), store.View())
    ensures !ok ==> revsToDelete == [] && store.View() == old(store.View())
    ensures Coalesced(flusher.c.m, revsToDelete)
  {
    hide Revision.ResourceKey, Revision.Key, Revision.WellFormed, Revision.Seconds, FlushKey, FlushProtocol.Exec, Run,
         Coalesced, B.Deleted, Put, SyncWalk.Stale, SyncWalk.AllShow, HandlerFor;
    ghost var loaded;
    revsToDelete, ok, loaded := store.Sync(handlers, deleteUntracked, cut);
    if !ok {
      TombstonesCoalesce([]);
      EmptyRun(FlushKey());
      return;
    }
    EmptyRun(FlushKey());
    for n := 0 to |revsToDelete|
      modifies flusher, flusher.c
      invariant store.Valid() && flusher.Valid()
      invariant flusher.c.m == Run(FlushKey(), Tombstones(revsToDelete[..n]))
    {
      var rev := revsToDelete[n];
      assert rev in revsToDelete;
      B.DeletedWellFormed(rev);
      SameResource(rev);
      flusher.Queue(rev.(deleted := true));
      OneMoreTombstone(revsToDelete[..n], rev);
      assert revsToDelete[..n] + [rev] == revsToDelete[..n + 1];
    }
    assert revsToDelete[..|revsToDelete|] == revsToDelete;
    TombstonesCoalesce(revsToDelete);
    StaleByObject(store.store.backend.keys, handlers, deleteUntracked);
  }

  lemma StaleByObject(keys: set<string>, handlers: ResourceHandlers, deleteUntracked: bool)
    ensures forall shown, r :: SyncWalk.AllShow(handlers, shown) && Stored(keys, r) ==>
      (SyncWalk.Stale(handlers, deleteUntracked, r) <==>
         match HandlerFor(handlers, r.apiVersion, r.kind, r.namespace)
         case None => deleteUntracked
         case Some(h) => (r.namespace, r.name) !in shown(h))
  {
    hide SyncWalk.AllShow, SyncWalk.Stale, Revision.Key, Revision.WellFormed, Revision.Seconds;
    forall shown, r | SyncWalk.AllShow(handlers, shown) && Stored(keys, r)
      ensures SyncWalk.Stale(handlers, deleteUntracked, r) <==>
        match HandlerFor(handlers, r.apiVersion, r.kind, r.namespace)
        case None => deleteUntracked
        case Some(h) => (r.namespace, r.name) !in shown(h)
    {
      SyncWalk.StaleIff(handlers, shown, deleteUntracked, r);
    }
  }

  lemma EmptyRun(keyFunc: KeyFunc)
    ensures Run(keyFunc, Tombstones([])) == map[]
  {
  }

  lemma OneMoreTombstone(revs: seq<Revision>, rev: Revision)
    ensures Run(FlushKey(), Tombstones(revs + [rev])) ==
            Put(Run(FlushKey(), Tombstones(revs)), FlushKey()(B.Deleted(rev)), B.Deleted(rev))
  {
    hide FlushKey, B.Deleted;
    var ops := Tombstones(revs + [rev]);
    assert ops[..|ops| - 1] == Tombstones(revs);
  }
}
