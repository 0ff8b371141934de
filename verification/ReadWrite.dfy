/**
 * The cached store: every write and purge goes to the backend first and then to the in-memory index, and
 * Sync loads the index from the backend.
 */
module ReadWrite {
  import opened Strings
  import opened Revisions
  import opened Buckets
  import opened Walk
  import opened Handlers
  import SyncWalk
  import opened InMemory
  import B = BackendStore

  /** The backend's keys and the in-memory index. */
  datatype Cached = Cached(keys: set<string>, mem: Memory)

  datatype Op =
    | WriteOp(rev: Revision, accept: bool)   // Create, Update and, for a tombstone, Delete
    | PurgeOp(revs: seq<Revision>)           // the removals that the backend reported
    | SyncOp(loaded: seq<Revision>)          // the revisions in the order they were loaded

  /** A revision as a stored key gives it back. */
  ghost predicate Stored(keys: set<string>, r: Revision) {
    r.WellFormed() && r.Seconds() == r && r.Key() in keys
  }

  function KeysOf(revs: seq<Revision>): set<string> {
    set r | r in revs :: r.Key()
  }

  function SetAll(mem: Memory, revs: seq<Revision>): Memory {
    if |revs| == 0 then mem else SetRev(SetAll(mem, revs[..|revs| - 1]), revs[|revs| - 1])
  }

  ghost predicate Next(handlers: ResourceHandlers, s: Cached, op: Op, s': Cached) {
    match op
    case WriteOp(rev, accept) =>
      rev.WellFormed() && s' == if accept then Cached(s.keys + {rev.Key()}, SetRev(s.mem, rev)) else s
    case PurgeOp(revs) =>
      (forall r :: r in revs ==> r.WellFormed()) &&
      s' == Cached(s.keys - KeysOf(revs), DeleteAll(s.mem, revs))
    case SyncOp(loaded) =>
      (forall r :: r in loaded <==> Stored(s.keys, r) && SyncWalk.Tracked(handlers, r)) &&
      s' == Cached(s.keys, SetAll(s.mem, loaded))
  }

  // ---- the store's methods ----

  function AllKeys(revs: seq<Revision>): seq<string> {
    seq(|revs|, i requires 0 <= i < |revs| => revs[i].Key())
  }

  /** The revisions re-parsed from removed keys. */
  function Parsed(keys: seq<string>): seq<Revision> {
    if |keys| == 0 then []
    else
      var n := |keys| - 1;
      match Parse(keys[n])
      case None => Parsed(keys[..n])
      case Some(r) => Parsed(keys[..n]) + [r]
  }

  class ReadWriteStore {
    const store: B.RevisionStore
    const reader: Cache

    ghost predicate Valid()
      reads this, store, store.backend, reader
    {
      store.Valid() && Filed(reader.View())
    }

    ghost function View(): Cached
      reads this, store, store.backend, reader
    {
      Cached(store.backend.keys, reader.View())
    }

    constructor (store: B.RevisionStore)
      requires store.Valid()
      ensures Valid() && this.store == store && fresh(reader) && reader.View() == EMPTY
    {
      this.store := store;
      reader := new Cache();
    }

    method Update(rev: Revision, accept: bool) returns (ok: bool)
      requires Valid() && rev.WellFormed()
      modifies store, store.backend, reader
      ensures Valid() && ok == accept
      ensures Next(map[], old(View()), WriteOp(rev, accept), View())
    {
      hide Revision.Key, Revision.ResourceKey, Revision.RevisionKey, Revision.WellFormed, SetRev;
      ok := store.Update(rev, accept);
      if ok {
        SetKeepsFiled(reader.View(), rev);
        reader.Set(rev);
      }
    }

    /** Delete marks the revision deleted and writes it, to the backend and then to the index. */
    method Delete(rev: Revision, accept: bool) returns (ok: bool)
      requires Valid() && rev.WellFormed()
      modifies store.backend, reader
      ensures Valid() && ok == accept
      ensures Next(map[], old(View()), WriteOp(B.Deleted(rev), accept), View())
    {
      B.DeletedWellFormed(rev);
      hide Revision.Key, Revision.ResourceKey, Revision.RevisionKey, Revision.WellFormed, SetRev;
      ok := store.Delete(rev, accept);
      if ok {
        var tombstone := rev.(deleted := true);
        SetKeepsFiled(reader.View(), tombstone);
        reader.Set(tombstone);
      }
    }

    method PurgeRevision(rev: Revision, accept: bool) returns (ok: bool)
      requires Valid() && rev.WellFormed()
      modifies store.backend, reader
      ensures Valid() && ok == accept
      ensures Next(map[], old(View()), PurgeOp(if accept then [rev] else []), View())
    {
      hide Revision.Key, Revision.ResourceKey, Revision.RevisionKey, Revision.WellFormed, DeleteRev;
      ok := store.PurgeRevision(rev, accept);
      if ok {
        DeleteKeepsFiled(reader.View(), rev);
        reader.Delete(rev);
        assert [rev][..0] == [];
        assert DeleteAll(old(reader.View()), [rev]) == DeleteRev(DeleteAll(old(reader.View()), []), rev);
        assert KeysOf([rev]) == {rev.Key()};
      } else {
        assert KeysOf([]) == {};
      }
    }

    /** Bulk purge through a provider that removes key by key: what the index drops is re-parsed from the keys. */
    method PurgeRevisions(revs: seq<Revision>, accepts: string -> bool) returns (deletedRevs: seq<Revision>, ok: bool)
      requires Valid() && forall r :: r in revs ==> r.WellFormed()
      modifies store.backend, reader
      ensures Valid() && deletedRevs == Removed(revs, accepts)
      ensures ok == (revs == [] || accepts(revs[|revs| - 1].Key()))
      ensures Next(map[], old(View()), PurgeOp(deletedRevs), View())
    {
      hide Revision.Key, Revision.ResourceKey, Revision.RevisionKey, Revision.WellFormed, DeleteRev, Parse, Removed,
           KeysOf, DeleteAll, Accepted, Printed;
      RemovedParsed(revs, accepts);
      if |revs| == 0 {
        RemovedNothing(reader.View(), accepts);
        return [], true;
      }
      var keys := AllKeys(revs);
      var deletedKeys;
      deletedKeys, ok := store.backend.RemoveAll(keys, accepts);
      deletedRevs := [];
      for n := 0 to |deletedKeys|
        invariant deletedRevs == Parsed(deletedKeys[..n])
      {
        assert deletedKeys[..n + 1][..n] == deletedKeys[..n];
        var parsed := Parse(deletedKeys[n]);
        if parsed.Some? {
          deletedRevs := deletedRevs + [parsed.value];
        }
      }
      assert deletedKeys[..|deletedKeys|] == deletedKeys;
      DeleteAllKeepsFiled(reader.View(), deletedRevs);
      reader.PurgeRevisions(deletedRevs);
    }

    /**
     * Sync: the tracked revisions of the backend are loaded into the index, in an arbitrary order of objects.
     * If the bucket's listing fails at call `cut`, nothing is loaded and nothing is to be deleted.
     */
    method Sync(handlers: ResourceHandlers, deleteUntracked: bool, cut: Option<nat>)
      returns (toDelete: seq<Revision>, ok: bool, ghost loaded: seq<Revision>)
      requires Valid()
      modifies reader
      ensures Valid() && ok == !(cut.Some? && cut.value <= |store.backend.keys|)
      ensures ok ==> Next(handlers, old(View()), SyncOp(loaded), View())
      ensures ok ==> forall r :: r in toDelete <==>
        Stored(store.backend.keys, r) && SyncWalk.Stale(handlers, deleteUntracked, r)
      ensures !ok ==> View() == old(View()) && toDelete == []
    {
      hide Revision.Key, Revision.ResourceKey, Revision.RevisionKey, Revision.WellFormed, Revision.Seconds, Parse,
           SetRev, SyncWalk.Tracked, SyncWalk.Stale, HandlerFor, SyncWalk.Kept, WalkKeys, SyncWalk.Answers;
      var listing := store.backend.Listing();
      var state;
      state, toDelete, ok := SyncWalk.Sync(listing, cut, handlers, deleteUntracked);
      loaded := [];
      if !ok {
        toDelete := [];
        return;
      }
      forall r
        ensures r in toDelete <==> Stored(store.backend.keys, r) && SyncWalk.Stale(handlers, deleteUntracked, r)
      {
        SyncWalk.KeptMembers(listing, SyncWalk.IsStale(handlers, deleteUntracked), r);
      }
      var left := state.Keys;
      while left != {}
        invariant left <= state.Keys
        invariant Filed(reader.View()) && reader.View() == SetAll(old(reader.View()), loaded)
        invariant forall r :: r in loaded <==> exists k :: k in state && k !in left && r in state[k]
      {
        var k :| k in left;
        ghost var before := loaded;
        for n := 0 to |state[k]|
          invariant Filed(reader.View()) && reader.View() == SetAll(old(reader.View()), loaded)
          invariant loaded == before + state[k][..n]
        {
          SetKeepsFiled(reader.View(), state[k][n]);
          assert (loaded + [state[k][n]])[..|loaded|] == loaded;
          reader.Set(state[k][n]);
          loaded := loaded + [state[k][n]];
        }
        left := left - {k};
        assert loaded == before + state[k];
      }
      SyncLoads(listing, handlers, deleteUntracked, state, toDelete, loaded);
    }
  }

  lemma SyncLoads(listing: seq<string>, handlers: ResourceHandlers, deleteUntracked: bool, state: SyncWalk.Revs,
                  toDelete: seq<Revision>, loaded: seq<Revision>)
    requires StoreListing(listing)
    requires forall key :: SyncWalk.Answers(handlers, deleteUntracked, SyncWalk.Synced(state, toDelete), key,
                                            SyncWalk.Kept(listing, SyncWalk.OfResource(handlers, key)), toDelete)
    requires forall r :: r in loaded <==> exists k :: k in state && r in state[k]
    ensures forall r :: r in loaded <==>
      r.WellFormed() && r.Seconds() == r && r.Key() in listing && SyncWalk.Tracked(handlers, r)
  {
    hide Revision.Key, Revision.ResourceKey, Revision.RevisionKey, Revision.WellFormed, Revision.Seconds,
         SyncWalk.Tracked, SyncWalk.Kept;
    forall r
      ensures r in loaded <==>
        r.WellFormed() && r.Seconds() == r && r.Key() in listing && SyncWalk.Tracked(handlers, r)
    {
      var key := r.ResourceKey();
      SyncWalk.KeptMembers(listing, SyncWalk.OfResource(handlers, key), r);
      assert SyncWalk.Answers(handlers, deleteUntracked, SyncWalk.Synced(state, toDelete), key,
                              SyncWalk.Kept(listing, SyncWalk.OfResource(handlers, key)), toDelete);
      if r in loaded {
        var k :| k in state && r in state[k];
        SyncWalk.KeptMembers(listing, SyncWalk.OfResource(handlers, k), r);
        assert SyncWalk.Answers(handlers, deleteUntracked, SyncWalk.Synced(state, toDelete), k,
                                SyncWalk.Kept(listing, SyncWalk.OfResource(handlers, k)), toDelete);
      }
    }
  }

  lemma {:induction false} DeleteAllKeepsFiled(s: Memory, revs: seq<Revision>)
    requires Filed(s)
    ensures Filed(DeleteAll(s, revs))
  {
    if |revs| > 0 {
      DeleteAllKeepsFiled(s, revs[..|revs| - 1]);
      DeleteKeepsFiled(DeleteAll(s, revs[..|revs| - 1]), revs[|revs| - 1]);
    }
  }

  /** The revisions whose removal the backend reports, as re-parsed: cut to whole seconds. */
  function Removed(revs: seq<Revision>, accepts: string -> bool): seq<Revision> {
    if |revs| == 0 then []
    else
      var n := |revs| - 1;
      Removed(revs[..n], accepts) + if accepts(revs[n].Key()) then [revs[n].Seconds()] else []
  }

  lemma ParsedLast(keys: seq<string>, last: string, r: Revision)
    requires Parse(last) == Some(r)
    ensures Parsed(keys + [last]) == Parsed(keys) + [r]
  {
    hide Parse;
    assert (keys + [last])[..|keys|] == keys;
  }

  lemma KeysOfLast(revs: seq<Revision>, r: Revision)
    ensures KeysOf(revs + [r]) == KeysOf(revs) + {r.Key()}
  {
    hide Revision.Key;
  }

  lemma {:induction false} RemovedParsed(revs: seq<Revision>, accepts: string -> bool)
    requires forall r :: r in revs ==> r.WellFormed()
    ensures Parsed(Accepted(AllKeys(revs), accepts)) == Removed(revs, accepts)
    ensures (set k | k in Accepted(AllKeys(revs), accepts)) == KeysOf(Removed(revs, accepts))
    ensures forall r :: r in Removed(revs, accepts) ==> r.WellFormed()
  {
    hide Revision.ResourceKey, Revision.RevisionKey, Revision.WellFormed, Revision.Key, Revision.Seconds, Parse, Parsed,
         KeysOf;
    if |revs| == 0 {
      assert Parsed([]) == [] by { NothingParsed(); }
      assert KeysOf([]) == {} by { NothingParsed(); }
    } else {
      var n := |revs| - 1;
      var before, last := revs[..n], revs[n];
      assert forall r :: r in before ==> r in revs;
      assert last in revs;
      RemovedParsed(before, accepts);
      RoundTrip(last);
      B.SecondsKeys(last);
      assert AllKeys(revs)[..n] == AllKeys(before) && AllKeys(revs)[n] == last.Key();
      var accepted := Accepted(AllKeys(before), accepts);
      ParsedLast(accepted, last.Key(), last.Seconds());
      KeysOfLast(Removed(before, accepts), last.Seconds());
      assert accepted + [] == accepted && Removed(before, accepts) + [] == Removed(before, accepts);
    }
  }

  lemma RemovedNothing(mem: Memory, accepts: string -> bool)
    ensures Removed([], accepts) == [] && KeysOf([]) == {} && DeleteAll(mem, []) == mem
  {
  }

  lemma NothingParsed()
    ensures Parsed([]) == [] && KeysOf([]) == {}
  {
  }
}
