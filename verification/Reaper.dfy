/** The reaper: it queues for purging the aged revisions of every object, but never an object's last live one. */
module Reaper {
  import opened Strings
  import opened Revisions
  import opened PendingCache
  import opened InMemory
  import opened ReadWrite

  /** For each revision, the time before which it is too old; None when no rule of the policy applies to it. */
  type Threshold = Revision -> Option<int>

  predicate Aged(threshold: Threshold, r: Revision) {
    threshold(r).Some? && r.nanos < threshold(r).value
  }

  /** The reaper's condition on the i-th of an object's revisions. */
  predicate ReapsAt(revs: seq<Revision>, threshold: Threshold, i: nat)
    requires i < |revs|
  {
    !(i == |revs| - 1 && !revs[i].deleted) && Aged(threshold, revs[i])
  }

  /** The same condition without lists: the revision is aged, and deleted or older than an indexed version. */
  ghost predicate Selected(mem: Memory, threshold: Threshold, r: Revision) {
    && Holds(mem, r)
    && Aged(threshold, r)
    && (r.deleted || exists v :: v in mem.m[r.ResourceKey()] && r.resourceVersion < v)
  }

  function PutAll(queue: Pending, keyFunc: KeyFunc, revs: seq<Revision>): Pending {
    if |revs| == 0 then queue
    else
      var n := |revs| - 1;
      Put(PutAll(queue, keyFunc, revs[..n]), keyFunc(revs[n]), revs[n])
  }

  lemma SelectedInList(mem: Memory, threshold: Threshold, k: string, revs: seq<Revision>, i: nat)
    requires Filed(mem) && k in mem.m && SortedVersions(revs, mem.m[k]) && i < |revs|
    ensures revs[i].ResourceKey() == k && Holds(mem, revs[i])
    ensures ReapsAt(revs, threshold, i) <==> Selected(mem, threshold, revs[i])
  {
    hide Revision.ResourceKey;
    var r := revs[i];
    assert r in revs;
    if i < |revs| - 1 {
      assert revs[|revs| - 1] in revs;
      assert revs[|revs| - 1].resourceVersion in mem.m[k];
    } else {
      forall v | v in mem.m[k]
        ensures v <= r.resourceVersion
      {
        assert mem.m[k][v] in revs;
      }
    }
  }

  /** The i-th of an object's revisions in a state, selected. */
  ghost predicate SelectedAt(state: map<string, seq<Revision>>, threshold: Threshold, r: Revision, k: string, i: int) {
    k in state && 0 <= i < |state[k]| && state[k][i] == r && ReapsAt(state[k], threshold, i)
  }

  /** The reaper's loop over the answer of a store, cached or plain. */
  method SelectRevisions(state: map<string, seq<Revision>>, threshold: Threshold) returns (revsToReap: seq<Revision>)
    ensures forall r :: r in revsToReap <==> exists k, i :: SelectedAt(state, threshold, r, k, i)
  {
    revsToReap := [];
    var left := state.Keys;
    while left != {}
      invariant left <= state.Keys
      invariant forall r :: r in revsToReap <==> exists k, i :: SelectedAt(state, threshold, r, k, i) && k !in left
    {
      var k :| k in left;
      var revisions := state[k];
      ghost var before := revsToReap;
      for i := 0 to |revisions|
        invariant forall r :: r in revsToReap <==>
          r in before || exists j :: 0 <= j < i && revisions[j] == r && ReapsAt(revisions, threshold, j)
      {
        var rev := revisions[i];
        if i == |revisions| - 1 && !rev.deleted {
          continue;
        }
        var rule := threshold(rev);
        if rule == None {
          continue;
        }
        if rev.nanos < rule.value {
          revsToReap := revsToReap + [rev];
        }
      }
      left := left - {k};
      forall r
        ensures r in revsToReap <==> exists k, i :: SelectedAt(state, threshold, r, k, i) && k !in left
      {
        if j :| 0 <= j < |revisions| && revisions[j] == r && ReapsAt(revisions, threshold, j) {
          assert SelectedAt(state, threshold, r, k, j);
        }
      }
    }
  }

  /** Every selected revision is queued for purging. */
  method QueueAll(p: RevisionCache, revs: seq<Revision>)
    modifies p
    ensures p.m == PutAll(old(p.m), p.keyFunc, revs)
  {
    for n := 0 to |revs|
      invariant p.m == PutAll(old(p.m), p.keyFunc, revs[..n])
    {
      assert revs[..n + 1][..n] == revs[..n];
      p.Cache(revs[n]);
    }
    assert revs[..|revs|] == revs;
  }

  class Reap {
    const s: ReadWriteStore
    /** The purger's queue. */
    const p: RevisionCache

    constructor (s: ReadWriteStore, p: RevisionCache)
      ensures this.s == s && this.p == p
    {
      this.s, this.p := s, p;
    }

    /** One cycle; it selects exactly the aged revisions that are deleted or not their object's last version. */
    method Run(threshold: Threshold) returns (revsToReap: seq<Revision>)
      requires s.Valid()
      modifies p
      ensures forall r :: r in revsToReap <==> Selected(s.reader.View(), threshold, r)
      ensures p.m == PutAll(old(p.m), p.keyFunc, revsToReap)
    {
      hide Revision.ResourceKey, Selected, SelectedAt;
      var state := s.reader.State();
      revsToReap := SelectRevisions(state, threshold);
      forall r
        ensures r in revsToReap <==> Selected(s.reader.View(), threshold, r)
      {
        InState(s.reader.View(), threshold, state, r);
      }
      QueueAll(p, revsToReap);
    }
  }

  lemma InState(mem: Memory, threshold: Threshold, state: map<string, seq<Revision>>, r: Revision)
    requires Filed(mem) && forall k :: k in state <==> k in mem.m && mem.m[k] != map[]
    requires forall k :: k in state ==> SortedVersions(state[k], mem.m[k])
    ensures Selected(mem, threshold, r) <==> exists k, i :: SelectedAt(state, threshold, r, k, i)
  {
    hide Revision.ResourceKey, ReapsAt;
    if Selected(mem, threshold, r) {
      var k := r.ResourceKey();
      assert mem.m[k][r.resourceVersion] in state[k];
      var i :| 0 <= i < |state[k]| && state[k][i] == r;
      SelectedInList(mem, threshold, k, state[k], i);
      assert SelectedAt(state, threshold, r, k, i);
    }
    if k, i :| SelectedAt(state, threshold, r, k, i) {
      SelectedInList(mem, threshold, k, state[k], i);
    }
  }
}
