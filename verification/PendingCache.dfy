/**
 * The cache that revisions wait in before they are flushed or purged: one revision a key, the newest,
 * and a delete that only removes the version it names.
 */
module PendingCache {
  import opened Revisions

  type KeyFunc = Revision -> string
  type Pending = map<string, Revision>

  function Put(m: Pending, key: string, rev: Revision): Pending {
    if key !in m || m[key].resourceVersion < rev.resourceVersion then m[key := rev] else m
  }

  function Evict(m: Pending, key: string, rev: Revision): Pending {
    if key in m && m[key].resourceVersion == rev.resourceVersion then m - {key} else m
  }

  /** `copy` lists the map's values once for each key, in the order of `keys`. */
  ghost predicate Lists(copy: seq<Revision>, keys: seq<string>, m: Pending) {
    && |copy| == |keys|
    && (forall i :: 0 <= i < |keys| ==> keys[i] in m && copy[i] == m[keys[i]])
    && (forall i, j :: 0 <= i < j < |keys| ==> keys[i] != keys[j])
    && (forall k :: k in m ==> k in keys)
  }

  class RevisionCache {
    var m: Pending
    const keyFunc: KeyFunc

    constructor (keyFunc: KeyFunc)
      ensures m == map[] && this.keyFunc == keyFunc
    {
      m := map[];
      this.keyFunc := keyFunc;
    }

    method Cache(rev: Revision)
      modifies this
      ensures m == Put(old(m), keyFunc(rev), rev)
      ensures m.Keys == old(m).Keys + {keyFunc(rev)}
      ensures m[keyFunc(rev)] ==
        if keyFunc(rev) in old(m) && rev.resourceVersion <= old(m)[keyFunc(rev)].resourceVersion
        then old(m)[keyFunc(rev)] else rev
      ensures forall k :: k in old(m) && k != keyFunc(rev) ==> m[k] == old(m)[k]
    {
      var key := keyFunc(rev);
      if key !in m {
        m := m[key := rev];
        return;
      }
      if m[key].resourceVersion < rev.resourceVersion {
        m := m[key := rev];
      }
    }

    method Delete(rev: Revision)
      modifies this
      ensures m == Evict(old(m), keyFunc(rev), rev)
      ensures forall k :: k in m <==>
        k in old(m) && !(k == keyFunc(rev) && old(m)[k].resourceVersion == rev.resourceVersion)
      ensures forall k :: k in m ==> m[k] == old(m)[k]
    {
      var key := keyFunc(rev);
      if key in m && m[key].resourceVersion == rev.resourceVersion {
        m := m - {key};
      }
    }

    /** The order of the copy is that of a map iteration: any. */
    method SafeCopy() returns (copy: seq<Revision>, ghost keys: seq<string>)
      ensures Lists(copy, keys, m)
    {
      copy, keys := [], [];
      var left := m.Keys;
      while left != {}
        invariant left <= m.Keys
        invariant |copy| == |keys|
        invariant forall i :: 0 <= i < |keys| ==> keys[i] in m && keys[i] !in left && copy[i] == m[keys[i]]
        invariant forall i, j :: 0 <= i < j < |keys| ==> keys[i] != keys[j]
        invariant forall k :: k in m ==> k in left || k in keys
      {
        var k :| k in left;
        copy, keys, left := copy + [m[k]], keys + [k], left - {k};
      }
    }
  }

  // ---- the cache as a function of its history ----

  datatype Op = CacheOp(rev: Revision) | DeleteOp(rev: Revision)

  function Apply(m: Pending, keyFunc: KeyFunc, op: Op): Pending {
    match op
    case CacheOp(rev) => Put(m, keyFunc(rev), rev)
    case DeleteOp(rev) => Evict(m, keyFunc(rev), rev)
  }

  /** The cache after a sequence of calls on an empty one. */
  function Run(keyFunc: KeyFunc, ops: seq<Op>): Pending {
    if |ops| == 0 then map[]
    else Apply(Run(keyFunc, ops[..|ops| - 1]), keyFunc, ops[|ops| - 1])
  }

  predicate Queues(op: Op, keyFunc: KeyFunc, key: string) {
    op.CacheOp? && keyFunc(op.rev) == key
  }

  /** The call at `i` removed the key's entry. */
  predicate Removes(keyFunc: KeyFunc, ops: seq<Op>, key: string, i: nat)
    requires i < |ops|
  {
    key in Run(keyFunc, ops[..i]) && key !in Run(keyFunc, ops[..i + 1])
  }

  /** No call from `from` on removed the key's entry, and the one before `from`, if any, did. */
  ghost predicate SinceRemoval(keyFunc: KeyFunc, ops: seq<Op>, key: string, from: nat) {
    && from <= |ops|
    && (from > 0 ==> Removes(keyFunc, ops, key, from - 1))
    && forall i :: from <= i < |ops| ==> !Removes(keyFunc, ops, key, i)
  }

  /** Call `i` is the first, among those from `from` on, to queue the greatest version of the key. */
  ghost predicate EarliestNewest(keyFunc: KeyFunc, ops: seq<Op>, key: string, from: nat, i: nat) {
    && from <= i < |ops|
    && Queues(ops[i], keyFunc, key)
    && forall j :: from <= j < |ops| && Queues(ops[j], keyFunc, key) ==>
        && ops[j].rev.resourceVersion <= ops[i].rev.resourceVersion
        && (j < i ==> ops[j].rev.resourceVersion < ops[i].rev.resourceVersion)
  }

  /** What the cache holds for the key, told by the calls from `from` on. */
  ghost predicate Tells(keyFunc: KeyFunc, ops: seq<Op>, key: string, from: nat, i: nat) {
    && (key in Run(keyFunc, ops) <==> exists j :: from <= j < |ops| && Queues(ops[j], keyFunc, key))
    && (key in Run(keyFunc, ops) ==>
          EarliestNewest(keyFunc, ops, key, from, i) && Run(keyFunc, ops)[key] == ops[i].rev)
  }

  lemma OneMoreCall(keyFunc: KeyFunc, before: seq<Op>, last: Op, key: string, from: nat, i: nat) returns (i': nat)
    requires from <= |before| && Tells(keyFunc, before, key, from, i)
    requires key in Run(keyFunc, before) ==> key in Apply(Run(keyFunc, before), keyFunc, last)
    ensures Tells(keyFunc, before + [last], key, from, i')
  {
    var ops, m := before + [last], Run(keyFunc, before);
    assert ops[..|ops| - 1] == before;
    assert Run(keyFunc, ops) == Apply(m, keyFunc, last);
    assert forall j :: 0 <= j < |before| ==> ops[j] == before[j];
    assert ops[|before|] == last;
    i' := i;
    if Queues(last, keyFunc, key) && (key !in m || m[key].resourceVersion < last.rev.resourceVersion) {
      i' := |before|;
    }
  }

  lemma RemovesPrefix(keyFunc: KeyFunc, ops: seq<Op>, n: nat, key: string, i: nat)
    requires i < n <= |ops|
    ensures Removes(keyFunc, ops[..n], key, i) == Removes(keyFunc, ops, key, i)
  {
    assert ops[..n][..i] == ops[..i] && ops[..n][..i + 1] == ops[..i + 1];
  }

  /** Each key holds the earliest-queued revision of greatest version since its last effective removal. */
  lemma {:induction false} HoldsEarliestNewest(keyFunc: KeyFunc, ops: seq<Op>, key: string, from: nat)
    returns (i: nat)
    requires SinceRemoval(keyFunc, ops, key, from)
    ensures key in Run(keyFunc, ops) <==> exists j :: from <= j < |ops| && Queues(ops[j], keyFunc, key)
    ensures key in Run(keyFunc, ops) ==>
      EarliestNewest(keyFunc, ops, key, from, i) && Run(keyFunc, ops)[key] == ops[i].rev
  {
    var n := |ops|;
    assert ops[..n] == ops;
    if from == n {
      i := 0;
    } else {
      var before, last := ops[..n - 1], ops[n - 1];
      forall j: nat | j < n - 1
        ensures Removes(keyFunc, before, key, j) == Removes(keyFunc, ops, key, j)
      {
        RemovesPrefix(keyFunc, ops, n - 1, key, j);
      }
      assert !Removes(keyFunc, ops, key, n - 1);
      i := HoldsEarliestNewest(keyFunc, before, key, from);
      i := OneMoreCall(keyFunc, before, last, key, from, i);
      assert before + [last] == ops;
    }
  }

  lemma SinceRemovalExtends(keyFunc: KeyFunc, ops: seq<Op>, key: string, from: nat)
    requires |ops| > 0 && SinceRemoval(keyFunc, ops[..|ops| - 1], key, from)
    requires !Removes(keyFunc, ops, key, |ops| - 1)
    ensures SinceRemoval(keyFunc, ops, key, from)
  {
    var n := |ops| - 1;
    forall i: nat | i < n
      ensures Removes(keyFunc, ops[..n], key, i) == Removes(keyFunc, ops, key, i)
    {
      RemovesPrefix(keyFunc, ops, n, key, i);
    }
    hide Removes;
  }

  /** Every history has a last removal to count from. */
  function LastRemoval(keyFunc: KeyFunc, ops: seq<Op>, key: string): (from: nat)
    ensures SinceRemoval(keyFunc, ops, key, from)
  {
    if |ops| == 0 then 0
    else if Removes(keyFunc, ops, key, |ops| - 1) then |ops|
    else
      var from := LastRemoval(keyFunc, ops[..|ops| - 1], key);
      SinceRemovalExtends(keyFunc, ops, key, from);
      from
  }

  ghost predicate OnlyQueues(ops: seq<Op>) {
    forall op :: op in ops ==> op.CacheOp?
  }

  lemma {:induction false} NothingRemoved(keyFunc: KeyFunc, ops: seq<Op>, key: string, i: nat)
    requires OnlyQueues(ops) && i < |ops|
    ensures !Removes(keyFunc, ops, key, i)
  {
    assert ops[..i + 1][..i] == ops[..i];
    assert ops[i] in ops;
  }

  /** Without removals the cache holds each key's greatest version, that of some queued revision. */
  lemma HoldsMaximum(keyFunc: KeyFunc, ops: seq<Op>, key: string)
    requires OnlyQueues(ops)
    ensures key in Run(keyFunc, ops) <==> exists op :: op in ops && keyFunc(op.rev) == key
    ensures key in Run(keyFunc, ops) ==>
      && CacheOp(Run(keyFunc, ops)[key]) in ops && keyFunc(Run(keyFunc, ops)[key]) == key
      && forall op :: op in ops && keyFunc(op.rev) == key ==>
          op.rev.resourceVersion <= Run(keyFunc, ops)[key].resourceVersion
  {
    forall i: nat | i < |ops|
      ensures !Removes(keyFunc, ops, key, i)
    {
      NothingRemoved(keyFunc, ops, key, i);
    }
    var i := HoldsEarliestNewest(keyFunc, ops, key, 0);
    forall op | op in ops && keyFunc(op.rev) == key
      ensures key in Run(keyFunc, ops) && op.rev.resourceVersion <= Run(keyFunc, ops)[key].resourceVersion
    {
      var j :| 0 <= j < |ops| && ops[j] == op;
      assert Queues(ops[j], keyFunc, key);
    }
    if key in Run(keyFunc, ops) {
      assert ops[i] in ops && ops[i] == CacheOp(ops[i].rev);
    }
  }

  /** Queueing the same revisions in any order, any number of times, leaves the same versions pending. */
  lemma OrderIrrelevant(keyFunc: KeyFunc, ops: seq<Op>, ops': seq<Op>)
    requires OnlyQueues(ops) && OnlyQueues(ops')
    requires forall op :: op in ops <==> op in ops'
    ensures Run(keyFunc, ops).Keys == Run(keyFunc, ops').Keys
    ensures forall k :: k in Run(keyFunc, ops) ==>
      Run(keyFunc, ops)[k].resourceVersion == Run(keyFunc, ops')[k].resourceVersion
  {
    forall k
      ensures k in Run(keyFunc, ops) <==> k in Run(keyFunc, ops')
      ensures k in Run(keyFunc, ops) ==>
        Run(keyFunc, ops)[k].resourceVersion == Run(keyFunc, ops')[k].resourceVersion
    {
      HoldsMaximum(keyFunc, ops, k);
      HoldsMaximum(keyFunc, ops', k);
    }
  }
}
