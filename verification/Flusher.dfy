/**
 * The flusher itself, on its path without a semaphore: its caches are updated in place, and each of its
 * methods is proved to be a run of the protocol.
 */
module Flusher {
  import opened Strings
  import opened Revisions
  import opened PendingCache
  import opened FlushProtocol

  function FlushKey(): KeyFunc { (r: Revision) => r.ResourceKey() }
  function ErrorKey(): KeyFunc { (r: Revision) => r.Key() }

  lemma OneMoreStep(trace: seq<Step>, step: Step)
    requires Exec(None, trace).Some? && Enabled(false, Exec(None, trace).value, step)
    ensures Exec(None, trace + [step]) == Some(Next(false, Exec(None, trace).value, step))
  {
    hide Next, Enabled;
    assert (trace + [step])[..|trace|] == trace;
  }

  /** The protocol's state at the end of `trace`, told by its caches and by cycle `w`, the other being idle. */
  ghost predicate Stands(trace: seq<Step>, pending: Pending, retry: Pending, w: Which, c: Cycle) {
    && Exec(None, trace).Some?
    && var s := Exec(None, trace).value;
       s.pending == pending && s.retry == retry && s.Of(w) == c && s.Of(Other(w)).Idle?
  }

  /** The revisions stored in the course of a run. */
  ghost function StoredBy(trace: seq<Step>): set<Revision> {
    var s := Exec(None, trace);
    if s.Some? then s.value.stored else {}
  }

  lemma WrittenStored(trace: seq<Step>, pending: Pending, retry: Pending, w: Which,
                      items: seq<Item>, n: nat, failed: seq<Revision>)
    requires Stands(trace, pending, retry, w, Flushing(items, n, failed))
    ensures forall i :: 0 <= i < |items| && items[i].status == Written ==> items[i].rev in StoredBy(trace)
  {
    Reachable(None, trace);
    hide Exec, FromQueue, Keyed, AllCovered;
  }

  function Other(w: Which): Which { if w == Main then Retry else Main }

  lemma StartStep(trace: seq<Step>, pending: Pending, retry: Pending, w: Which, copy: seq<Revision>, keys: seq<string>)
    requires Stands(trace, pending, retry, w, Idle) && Lists(copy, keys, if w == Main then pending else retry)
    ensures Stands(trace + [Snapshot(w, copy, keys)], pending, retry, w, Flushing(Items(copy), 0, []))
  {
    hide Exec;
    OneMoreStep(trace, Snapshot(w, copy, keys));
  }

  lemma WriteStep(trace: seq<Step>, pending: Pending, retry: Pending, w: Which,
                  items: seq<Item>, n: nat, failed: seq<Revision>, ok: bool)
    requires n < |items| && Stands(trace, pending, retry, w, Flushing(items, n, failed))
    ensures
      var rev := items[n].rev;
      Stands(trace + [WriteNow(w, ok)], Evict(pending, FlushKey()(rev), rev), retry, w,
             Flushing(items[n := Item(rev, if ok then Written else Failed)], n + 1,
                      if ok then failed else failed + [rev]))
  {
    hide Exec, Revision.ResourceKey;
    OneMoreStep(trace, WriteNow(w, ok));
  }

  lemma ReturnStep(trace: seq<Step>, pending: Pending, retry: Pending, w: Which, c: Cycle)
    requires c.Done() && Stands(trace, pending, retry, w, c)
    ensures Stands(trace + [Return(w)], pending, retry, w, HandingOver(c.failed))
    ensures StoredBy(trace + [Return(w)]) == StoredBy(trace)
  {
    hide Exec;
    OneMoreStep(trace, Return(w));
  }

  lemma HandOverStep(trace: seq<Step>, pending: Pending, retry: Pending, w: Which, failed: seq<Revision>)
    requires Stands(trace, pending, retry, w, HandingOver(failed))
    ensures StoredBy(trace + [HandOver(w)]) == StoredBy(trace)
    ensures failed == [] ==> Stands(trace + [HandOver(w)], pending, retry, w, Idle)
    ensures failed != [] ==>
      Stands(trace + [HandOver(w)], pending, Put(retry, ErrorKey()(failed[0]), failed[0]), w, HandingOver(failed[1..]))
  {
    hide Exec, Revision.Key;
    OneMoreStep(trace, HandOver(w));
  }

  lemma ListedValues(copy: seq<Revision>, keys: seq<string>, m: Pending)
    requires Lists(copy, keys, m)
    ensures forall r :: r in m.Values <==> r in copy
  {
  }

  lemma BothIdle(trace: seq<Step>, pending: Pending, retry: Pending)
    ensures Stands(trace, pending, retry, Main, Idle) <==> Stands(trace, pending, retry, Retry, Idle)
  {
    hide Exec;
  }

  /** Of the map's listing, the entries from `n` on are left. */
  ghost predicate Remaining(m: Pending, listed: seq<Revision>, keys: seq<string>, n: nat) {
    && n <= |listed| == |keys|
    && (forall i, j :: 0 <= i < j < |keys| ==> keys[i] != keys[j])
    && (forall i :: 0 <= i < |keys| ==> FlushKey()(listed[i]) == keys[i])
    && (forall k :: k in m ==> exists i :: n <= i < |keys| && keys[i] == k)
    && (forall i :: n <= i < |keys| ==> keys[i] in m && m[keys[i]] == listed[i])
  }

  lemma KeyedPending(trace: seq<Step>, m: Pending, retry: Pending, w: Which, c: Cycle)
    requires Stands(trace, m, retry, w, c)
    ensures forall k :: k in m ==> FlushKey()(m[k]) == k
  {
    Reachable(None, trace);
    hide Exec, Revision.ResourceKey, FromQueue, CyclesOk, AllCovered, Permits;
  }

  lemma AllRemain(trace: seq<Step>, m: Pending, retry: Pending, listed: seq<Revision>, keys: seq<string>)
    requires Stands(trace, m, retry, Main, Idle) && Lists(listed, keys, m)
    ensures Remaining(m, listed, keys, 0)
  {
    hide Stands, FlushKey;
    KeyedPending(trace, m, retry, Main, Idle);
  }

  lemma OneFewer(m: Pending, listed: seq<Revision>, keys: seq<string>, n: nat)
    requires n < |listed| && Remaining(m, listed, keys, n)
    ensures Remaining(Evict(m, FlushKey()(listed[n]), listed[n]), listed, keys, n + 1)
  {
    hide FlushKey;
  }

  lemma NoneRemain(m: Pending, listed: seq<Revision>, keys: seq<string>)
    requires Remaining(m, listed, keys, |listed|)
    ensures m == map[]
  {
  }

  class Flush {
    const c: RevisionCache
    const retryCache: RevisionCache
    /** The run of the protocol made so far. */
    ghost var trace: seq<Step>

    ghost predicate Follows(w: Which, cycle: Cycle)
      reads this, c, retryCache
    {
      && c != retryCache && c.keyFunc == FlushKey() && retryCache.keyFunc == ErrorKey()
      && Stands(trace, c.m, retryCache.m, w, cycle)
    }

    ghost predicate Valid()
      reads this, c, retryCache
    {
      Follows(Main, Idle)
    }

    constructor ()
      ensures Valid() && fresh(c) && fresh(retryCache) && c.m == map[] && retryCache.m == map[] && trace == []
    {
      c := new RevisionCache(FlushKey());
      retryCache := new RevisionCache(ErrorKey());
      trace := [];
    }

    method Queue(rev: Revision)
      requires Valid() && rev.WellFormed()
      modifies this`trace, c
      ensures Valid() && trace == old(trace) + [QueueRev(rev)]
      ensures c.m == Put(old(c.m), FlushKey()(rev), rev)
    {
      hide Exec, Revision.ResourceKey, Revision.Key, Revision.WellFormed;
      c.Cache(rev);
      OneMoreStep(trace, QueueRev(rev));
      trace := trace + [QueueRev(rev)];
    }

    /** The first `n` revisions of the listing were written or have failed. */
    ghost predicate Midway(w: Which, toFlush: seq<Revision>, keys: seq<string>, write: Revision -> bool,
                           items: seq<Item>, n: nat, failed: seq<Revision>)
      reads this, c, retryCache
    {
      && n <= |toFlush| == |items|
      && Follows(w, Flushing(items, n, failed))
      && (forall i :: 0 <= i < |items| ==> items[i].rev == toFlush[i])
      && (forall i :: 0 <= i < n ==> items[i].status == if write(toFlush[i]) then Written else Failed)
      && (forall r :: r in failed <==> r in toFlush[..n] && !write(r))
      && (w == Main ==> Remaining(c.m, toFlush, keys, n))
    }

    /** The body of flush's loop. */
    method FlushOne(w: Which, toFlush: seq<Revision>, ghost keys: seq<string>, write: Revision -> bool,
                    ghost items: seq<Item>, n: nat, failed: seq<Revision>)
      returns (failed': seq<Revision>, ghost items': seq<Item>)
      requires Midway(w, toFlush, keys, write, items, n, failed) && n < |toFlush|
      modifies this`trace, c
      ensures Midway(w, toFlush, keys, write, items', n + 1, failed')
      ensures old(trace) <= trace && retryCache.m == old(retryCache.m)
    {
      hide Exec, Stands, FlushKey, ErrorKey, Evict, Put, Remaining;
      var rev := toFlush[n];
      var ok := write(rev);
      WriteStep(trace, c.m, retryCache.m, w, items, n, failed, ok);
      if w == Main {
        OneFewer(c.m, toFlush, keys, n);
      }
      failed' := failed;
      if !ok {
        failed' := failed' + [rev];
      }
      c.Delete(rev);
      trace := trace + [WriteNow(w, ok)];
      items' := items[n := Item(rev, if ok then Written else Failed)];
    }

    /** `flush` on one of the two caches; `write` says which writes the store accepts. */
    method FlushCache(w: Which, write: Revision -> bool) returns (failed: seq<Revision>)
      requires Valid()
      modifies this`trace, c
      ensures Follows(w, HandingOver(failed))
      ensures old(trace) <= trace && retryCache.m == old(retryCache.m)
      ensures forall r :: r in failed <==> r in old(Source(w)).Values && !write(r)
      ensures w == Main ==> c.m == map[]
      ensures forall r :: r in old(Source(w)).Values && write(r) ==> r in StoredBy(trace)
    {
      hide Exec, Stands, FlushKey, ErrorKey, Evict, Put, Remaining, StoredBy, Lists;
      var toFlush: seq<Revision>;
      ghost var keys: seq<string>;
      if w == Main {
        toFlush, keys := c.SafeCopy();
      } else {
        toFlush, keys := retryCache.SafeCopy();
      }
      failed := [];
      ghost var items := Items(toFlush);
      ListedValues(toFlush, keys, Source(w));
      BothIdle(trace, c.m, retryCache.m);
      if w == Main {
        AllRemain(trace, c.m, retryCache.m, toFlush, keys);
      }
      StartStep(trace, c.m, retryCache.m, w, toFlush, keys);
      trace := trace + [Snapshot(w, toFlush, keys)];
      for n := 0 to |toFlush|
        invariant Midway(w, toFlush, keys, write, items, n, failed)
        invariant old(trace) <= trace && retryCache.m == old(retryCache.m)
      {
        failed, items := FlushOne(w, toFlush, keys, write, items, n, failed);
      }
      if w == Main {
        NoneRemain(c.m, toFlush, keys);
      }
      WrittenStored(trace, c.m, retryCache.m, w, items, |toFlush|, failed);
      ReturnStep(trace, c.m, retryCache.m, w, Flushing(items, |toFlush|, failed));
      trace := trace + [Return(w)];
    }

    /** One tick of either cycle: flush, then hand the failures over to the retry cache. */
    method Tick(w: Which, write: Revision -> bool)
      requires Valid()
      modifies this`trace, c, retryCache
      ensures Valid() && old(trace) <= trace
      ensures w == Main ==> c.m == map[]
      ensures forall k :: k in retryCache.m ==>
        k in old(retryCache.m) || exists r :: r in old(Source(w)).Values && !write(r) && ErrorKey()(r) == k
      ensures forall k :: k in old(retryCache.m) ==> k in retryCache.m
      ensures forall r :: r in old(Source(w)).Values && !write(r) ==> ErrorKey()(r) in retryCache.m
      ensures forall r :: r in old(Source(w)).Values && write(r) ==> r in StoredBy(trace)
    {
      hide Exec, Stands, FlushKey, ErrorKey, StoredBy;
      var failed := FlushCache(w, write);
      ghost var flushed, stored := trace, StoredBy(trace);
      for n := 0 to |failed|
        invariant Follows(w, HandingOver(failed[n..]))
        invariant flushed <= trace && StoredBy(trace) == stored
        invariant w == Main ==> c.m == map[]
        invariant forall k :: k in retryCache.m ==>
          k in old(retryCache.m) || exists i :: 0 <= i < n && ErrorKey()(failed[i]) == k
        invariant forall k :: k in old(retryCache.m) ==> k in retryCache.m
        invariant forall i :: 0 <= i < n ==> ErrorKey()(failed[i]) in retryCache.m
      {
        HandOverStep(trace, c.m, retryCache.m, w, failed[n..]);
        trace := trace + [HandOver(w)];
        retryCache.Cache(failed[n]);
        assert failed[n..][1..] == failed[n + 1..];
      }
      HandOverStep(trace, c.m, retryCache.m, w, failed[|failed|..]);
      trace := trace + [HandOver(w)];
      BothIdle(trace, c.m, retryCache.m);
    }

    ghost function Source(w: Which): Pending
      reads this, c, retryCache
    {
      if w == Main then c.m else retryCache.m
    }
  }
}
