/** The purger: a queue of revisions, by key, and the cycle that removes them from the store. */
module Purger {
  import opened Revisions
  import opened PendingCache
  import opened InMemory
  import opened ReadWrite
  import B = BackendStore

  function PurgeKey(): KeyFunc { (r: Revision) => r.Key() }

  /** The queue holds well-formed revisions under their own keys. */
  ghost predicate Keyed(queue: Pending) {
    forall k :: k in queue ==> queue[k].WellFormed() && queue[k].Key() == k
  }

  function EvictAll(queue: Pending, revs: seq<Revision>): Pending {
    if |revs| == 0 then queue
    else
      var n := |revs| - 1;
      Evict(EvictAll(queue, revs[..n]), PurgeKey()(revs[n]), revs[n])
  }

  /** Evicting a re-parsed revision drops exactly the entry of its key. */
  lemma EvictReparsed(queue: Pending, r: Revision)
    requires Keyed(queue) && r.WellFormed()
    ensures Evict(queue, PurgeKey()(r), r) == queue - {r.Key()}
  {
    hide Revision.Key, Revision.WellFormed;
    if r.Key() in queue {
      var q := queue[r.Key()];
      KeyInjective(q, r);
      assert q.resourceVersion == r.resourceVersion by {
        B.SecondsFields(q);
        B.SecondsFields(r);
      }
    }
  }

  lemma {:induction false} EvictAllReparsed(queue: Pending, revs: seq<Revision>)
    requires Keyed(queue) && forall r :: r in revs ==> r.WellFormed()
    ensures EvictAll(queue, revs) == queue - KeysOf(revs)
  {
    hide Revision.Key, Revision.WellFormed, Evict, PurgeKey;
    if |revs| > 0 {
      var before, last := revs[..|revs| - 1], revs[|revs| - 1];
      assert forall r :: r in before ==> r in revs;
      assert last in revs && before + [last] == revs;
      EvictAllReparsed(queue, before);
      EvictReparsed(queue - KeysOf(before), last);
      KeysOfLast(before, last);
    } else {
      assert queue - KeysOf(revs) == queue;
    }
  }

  lemma RemovedLast(before: seq<Revision>, last: Revision, accepts: string -> bool)
    ensures KeysOf(Removed(before + [last], accepts)) ==
            KeysOf(Removed(before, accepts)) + if accepts(last.Key()) then {last.Key()} else {}
  {
    B.SecondsKeys(last);
    KeysOfLast(Removed(before, accepts), last.Seconds());
    hide Revision.Key, Revision.Seconds, KeysOf;
    assert (before + [last])[..|before|] == before;
    assert Removed(before, accepts) + [] == Removed(before, accepts);
  }

  lemma {:induction false} RemovedKeys(revs: seq<Revision>, accepts: string -> bool)
    ensures forall k :: k in KeysOf(Removed(revs, accepts)) <==> accepts(k) && exists r :: r in revs && r.Key() == k
  {
    hide Revision.Key, Revision.Seconds;
    if |revs| > 0 {
      var before, last := revs[..|revs| - 1], revs[|revs| - 1];
      RemovedKeys(before, accepts);
      RemovedLast(before, last, accepts);
      assert before + [last] == revs;
      hide KeysOf, Removed;
    }
  }

  /** What is removed of revisions with different keys has different keys. */
  lemma {:induction false} RemovedDistinct(revs: seq<Revision>, accepts: string -> bool)
    requires forall i, j :: 0 <= i < j < |revs| ==> revs[i].Key() != revs[j].Key()
    ensures
      var removed := Removed(revs, accepts);
      forall i, j :: 0 <= i < j < |removed| ==> removed[i] != removed[j]
  {
    hide Revision.Key, Revision.Seconds, KeysOf;
    if |revs| > 0 {
      var before, last := revs[..|revs| - 1], revs[|revs| - 1];
      RemovedDistinct(before, accepts);
      NotRemovedBefore(before, last, accepts);
    }
  }

  lemma NotRemovedBefore(before: seq<Revision>, last: Revision, accepts: string -> bool)
    requires forall i :: 0 <= i < |before| ==> before[i].Key() != last.Key()
    ensures last.Seconds() !in Removed(before, accepts)
  {
    hide Revision.Key, Revision.Seconds, Removed;
    RemovedKeys(before, accepts);
    B.SecondsKeys(last);
    forall r | r in Removed(before, accepts)
      ensures r != last.Seconds()
    {
      assert r.Key() in KeysOf(Removed(before, accepts));
    }
  }

  lemma {:induction false} RemovedMembers(revs: seq<Revision>, accepts: string -> bool)
    ensures forall r :: r in Removed(revs, accepts) <==> exists q :: q in revs && accepts(q.Key()) && q.Seconds() == r
  {
    hide Revision.Key, Revision.Seconds;
    if |revs| > 0 {
      var before, last := revs[..|revs| - 1], revs[|revs| - 1];
      RemovedMembers(before, accepts);
      assert revs == before + [last];
    }
  }

  class Purge {
    const s: ReadWriteStore
    const c: RevisionCache

    ghost predicate Valid()
      reads this, c, s, s.store, s.store.backend, s.reader
    {
      s.Valid() && c.keyFunc == PurgeKey() && Keyed(c.m)
    }

    constructor (s: ReadWriteStore)
      requires s.Valid()
      ensures Valid() && this.s == s && fresh(c) && c.m == map[]
    {
      this.s := s;
      c := new RevisionCache(PurgeKey());
    }

    method Queue(rev: Revision)
      requires Valid() && rev.WellFormed()
      modifies c
      ensures Valid() && c.m == Put(old(c.m), PurgeKey()(rev), rev)
    {
      c.Cache(rev);
    }

    /**
     * One cycle, without queueing in between: the queue loses exactly the entries whose keys the backend
     * reports removed, and the backend and the index lose the same.
     */
    method PurgeCycle(accepts: string -> bool) returns (deletedRevs: seq<Revision>)
      requires Valid()
      modifies c, s.store.backend, s.reader
      ensures Valid()
      ensures c.m == old(c.m) - set k | k in old(c.m) && accepts(k)
      ensures s.store.backend.keys == old(s.store.backend.keys) - set k | k in old(c.m) && accepts(k)
      ensures Next(map[], old(s.View()), PurgeOp(deletedRevs), s.View())
      ensures KeysOf(deletedRevs) == set k | k in old(c.m) && accepts(k)
      ensures Reports(deletedRevs, old(c.m), accepts)
    {
      hide Revision.Key, Revision.WellFormed, Revision.Seconds, Evict, Removed, DeleteAll, PurgeKey, KeysOf, Reports,
           B.StoreKeys, Filed;
      ghost var queue := c.m;
      var toPurge;
      ghost var keys;
      toPurge, keys := c.SafeCopy();
      if |toPurge| == 0 {
        deletedRevs := [];
        EmptyPurge(s.reader.View(), queue, keys, accepts);
        return;
      }
      Reported(queue, toPurge, keys, accepts);
      var revsToPurge := new Revision[|toPurge|];
      for i := 0 to |toPurge|
        modifies revsToPurge
        invariant forall j :: 0 <= j < i ==> revsToPurge[j] == toPurge[j]
      {
        revsToPurge[i] := toPurge[i];
      }
      var revs := revsToPurge[..];
      assert revs == toPurge;
      var ok;
      deletedRevs, ok := s.PurgeRevisions(revs, accepts);
      for n := 0 to |deletedRevs|
        modifies c
        invariant c.m == EvictAll(queue, deletedRevs[..n])
      {
        assert deletedRevs[..n + 1][..n] == deletedRevs[..n];
        c.Delete(deletedRevs[n]);
      }
      assert deletedRevs[..|deletedRevs|] == deletedRevs;
      EvictAllReparsed(queue, deletedRevs);
    }
  }

  lemma EmptyPurge(mem: Memory, queue: Pending, keys: seq<string>, accepts: string -> bool)
    requires Lists([], keys, queue)
    ensures KeysOf([]) == {} && DeleteAll(mem, []) == mem && Reports([], queue, accepts)
  {
  }

  /** The list has, once each and cut to whole seconds, the queue's revisions whose keys are accepted. */
  ghost predicate Reports(removed: seq<Revision>, queue: Pending, accepts: string -> bool) {
    && (forall i, j :: 0 <= i < j < |removed| ==> removed[i] != removed[j])
    && (forall r :: r in removed <==> exists k :: k in queue && accepts(k) && queue[k].Seconds() == r)
  }

  /** What the store reports removed are the accepted keys of the queue. */
  lemma Reported(queue: Pending, copy: seq<Revision>, keys: seq<string>, accepts: string -> bool)
    requires Keyed(queue) && Lists(copy, keys, queue)
    ensures KeysOf(Removed(copy, accepts)) == set k | k in queue && accepts(k)
    ensures Reports(Removed(copy, accepts), queue, accepts)
    ensures forall r :: r in copy ==> r.WellFormed()
  {
    hide Revision.Key, Revision.WellFormed, Revision.Seconds, Removed, KeysOf;
    RemovedKeys(copy, accepts);
    RemovedMembers(copy, accepts);
    RemovedDistinct(copy, accepts);
    ListedMembers(queue, copy, keys);
    forall k
      ensures k in queue <==> exists r :: r in copy && r.Key() == k
    {
      if k in queue {
        var i :| 0 <= i < |keys| && keys[i] == k;
        assert copy[i] in copy && copy[i].Key() == k;
      }
    }
  }

  lemma ListedMembers(queue: Pending, copy: seq<Revision>, keys: seq<string>)
    requires Keyed(queue) && Lists(copy, keys, queue)
    ensures forall k :: k in queue ==> queue[k] in copy && queue[k].Key() == k
    ensures forall r :: r in copy ==> r.Key() in queue && queue[r.Key()] == r
  {
    hide Revision.Key, Revision.WellFormed;
  }
}
