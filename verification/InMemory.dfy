/** The in-memory index of a cached store: every version of every object, and the version set last. */
module InMemory {
  import opened Strings
  import opened Revisions
  import opened RevisionLists

  type Versions = map<int, Revision>

  datatype Memory = Memory(m: map<string, Versions>, latest: map<string, int>)

  const EMPTY := Memory(map[], map[])

  function SetRev(s: Memory, rev: Revision): Memory {
    var key := rev.ResourceKey();
    var versions := if key in s.m then s.m[key] else map[];
    Memory(s.m[key := versions[rev.resourceVersion := rev]], s.latest[key := rev.resourceVersion])
  }

  function DeleteRev(s: Memory, rev: Revision): Memory {
    var key := rev.ResourceKey();
    if key in s.m then s.(m := s.m[key := s.m[key] - {rev.resourceVersion}]) else s
  }

  /** What Get answers for the object with this resource key. */
  function GetRev(s: Memory, key: string): Option<Revision> {
    if key !in s.m then None
    else
      var latest := if key in s.latest then s.latest[key] else 0;
      if latest in s.m[key] then Some(s.m[key][latest]) else None
  }

  /** Every revision sits under its own resource key and version. */
  ghost predicate Filed(s: Memory) {
    forall k, v :: k in s.m && v in s.m[k] ==> s.m[k][v].ResourceKey() == k && s.m[k][v].resourceVersion == v
  }

  ghost predicate Holds(s: Memory, r: Revision) {
    r.ResourceKey() in s.m && r.resourceVersion in s.m[r.ResourceKey()] &&
    s.m[r.ResourceKey()][r.resourceVersion] == r
  }

  /** The list holds exactly the versions, in ascending order. */
  ghost predicate SortedVersions(revs: seq<Revision>, versions: Versions) {
    && StrictlyAscending(revs)
    && (forall r :: r in revs ==> r.resourceVersion in versions && versions[r.resourceVersion] == r)
    && (forall v :: v in versions ==> versions[v] in revs)
  }

  /** The list holds exactly the versions, each once. */
  ghost predicate ListsVersions(revs: seq<Revision>, versions: Versions) {
    && (forall i, j :: 0 <= i < j < |revs| ==> revs[i] != revs[j])
    && (forall r :: r in revs ==> r.resourceVersion in versions && versions[r.resourceVersion] == r)
    && (forall v :: v in versions ==> versions[v] in revs)
  }

  lemma SetKeepsFiled(s: Memory, rev: Revision)
    requires Filed(s)
    ensures Filed(SetRev(s, rev))
  {
    hide Revision.ResourceKey;
  }

  lemma DeleteKeepsFiled(s: Memory, rev: Revision)
    requires Filed(s)
    ensures Filed(DeleteRev(s, rev))
  {
    hide Revision.ResourceKey;
  }

  class Cache {
    var m: map<string, Versions>
    var latestCache: map<string, int>

    function View(): Memory
      reads this
    {
      Memory(m, latestCache)
    }

    constructor ()
      ensures View() == EMPTY
    {
      m, latestCache := map[], map[];
    }

    method Set(rev: Revision)
      modifies this
      ensures View() == SetRev(old(View()), rev)
    {
      hide Revision.ResourceKey;
      var resource := rev.ResourceKey();
      if resource !in m {
        m := m[resource := map[]];
      }
      m := m[resource := m[resource][rev.resourceVersion := rev]];
      latestCache := latestCache[resource := rev.resourceVersion];
    }

    method Get(rev: Revision) returns (found: Option<Revision>)
      ensures found == GetRev(View(), rev.ResourceKey())
    {
      hide Revision.ResourceKey;
      found := None;
      var key := rev.ResourceKey();
      if key in m {
        var latest := if key in latestCache then latestCache[key] else 0;
        found := if latest in m[key] then Some(m[key][latest]) else None;
      }
    }

    method Delete(rev: Revision)
      modifies this
      ensures View() == DeleteRev(old(View()), rev)
    {
      hide Revision.ResourceKey;
      if rev.ResourceKey() in m {
        m := m[rev.ResourceKey() := m[rev.ResourceKey()] - {rev.resourceVersion}];
      }
    }

    /** All revisions under a resource key, in any order. */
    method List(key: string) returns (revs: seq<Revision>)
      requires Filed(View())
      ensures ListsVersions(revs, if key in m then m[key] else map[])
    {
      hide Revision.ResourceKey;
      revs := [];
      if key in m {
        var versions := m[key];
        assert forall v :: v in versions ==> versions[v].resourceVersion == v;
        var left := versions.Keys;
        while left != {}
          invariant left <= versions.Keys
          invariant forall i, j :: 0 <= i < j < |revs| ==> revs[i] != revs[j]
          invariant forall r :: r in revs ==>
            r.resourceVersion in versions && r.resourceVersion !in left && versions[r.resourceVersion] == r
          invariant forall v :: v in versions ==> v in left || versions[v] in revs
        {
          var v :| v in left;
          revs, left := revs + [versions[v]], left - {v};
        }
      }
    }

    /** The reaper's query: every revision of every object, each object's sorted by version. */
    method State() returns (state: map<string, seq<Revision>>)
      requires Filed(View())
      ensures forall k :: k in state <==> k in m && m[k] != map[]
      ensures forall k :: k in state ==> SortedVersions(state[k], m[k])
    {
      hide Revision.ResourceKey;
      state := map[];
      var left := m.Keys;
      while left != {}
        invariant left <= m.Keys
        invariant forall k :: k in state <==> k in m && k !in left && m[k] != map[]
        invariant forall k :: k in state ==> SortedVersions(state[k], m[k])
      {
        var k :| k in left;
        left := left - {k};
        if m[k] != map[] {
          var revs := List(k);
          var sorted := Sort(revs);
          SortedList(revs, sorted, m[k]);
          state := state[k := sorted];
        }
      }
    }

    method PurgeRevisions(revs: seq<Revision>)
      modifies this
      ensures View() == DeleteAll(old(View()), revs)
    {
      for n := 0 to |revs|
        invariant View() == DeleteAll(old(View()), revs[..n])
      {
        assert revs[..n + 1][..n] == revs[..n];
        Delete(revs[n]);
      }
      assert revs[..|revs|] == revs;
    }
  }

  function DeleteAll(s: Memory, revs: seq<Revision>): Memory {
    if |revs| == 0 then s else DeleteRev(DeleteAll(s, revs[..|revs| - 1]), revs[|revs| - 1])
  }

  lemma {:induction false} CountOne(revs: seq<Revision>, r: Revision)
    requires forall i, j :: 0 <= i < j < |revs| ==> revs[i] != revs[j]
    ensures multiset(revs)[r] <= 1
  {
    if |revs| > 0 {
      var n := |revs| - 1;
      CountOne(revs[..n], r);
      assert revs == revs[..n] + [revs[n]];
      assert r == revs[n] ==> r !in multiset(revs[..n]);
    }
  }

  lemma Repeated(revs: seq<Revision>, i: nat, j: nat)
    requires i < j < |revs| && revs[i] == revs[j]
    ensures multiset(revs)[revs[i]] > 1
  {
    assert revs == revs[..i] + [revs[i]] + revs[i + 1..j] + [revs[j]] + revs[j + 1..];
  }

  lemma SortedList(revs: seq<Revision>, sorted: seq<Revision>, versions: Versions)
    requires Ascending(sorted) && multiset(sorted) == multiset(revs)
    requires ListsVersions(revs, versions)
    ensures SortedVersions(sorted, versions)
  {
    SameMembers(sorted, revs);
    forall i, j | 0 <= i < j < |sorted|
      ensures sorted[i].resourceVersion < sorted[j].resourceVersion
    {
      var r := sorted[i];
      assert r in sorted && sorted[j] in sorted;
      if r == sorted[j] {
        Repeated(sorted, i, j);
        CountOne(revs, r);
      }
    }
  }

  // ---- the index as a function of its history ----

  datatype Op = SetOp(rev: Revision) | DeleteOp(rev: Revision)

  function Run(ops: seq<Op>): Memory {
    if |ops| == 0 then EMPTY
    else
      var before, last := Run(ops[..|ops| - 1]), ops[|ops| - 1];
      if last.SetOp? then SetRev(before, last.rev) else DeleteRev(before, last.rev)
  }

  predicate Sets(op: Op, key: string) { op.SetOp? && op.rev.ResourceKey() == key }

  predicate Purges(op: Op, rev: Revision) {
    op.DeleteOp? && op.rev.ResourceKey() == rev.ResourceKey() && op.rev.resourceVersion == rev.resourceVersion
  }

  /** Call `i` is the last to set a revision of the object. */
  ghost predicate LastSet(ops: seq<Op>, key: string, i: nat) {
    i < |ops| && Sets(ops[i], key) && forall j :: i < j < |ops| ==> !Sets(ops[j], key)
  }

  ghost predicate PurgedSince(ops: seq<Op>, i: nat)
    requires i < |ops|
  {
    exists j :: i < j < |ops| && Purges(ops[j], ops[i].rev)
  }

  lemma LatestIsLastSet(ops: seq<Op>, key: string, i: nat)
    requires LastSet(ops, key, i)
    ensures
      var s := Run(ops);
      key in s.m && key in s.latest && s.latest[key] == ops[i].rev.resourceVersion
    decreases |ops|
  {
    hide Revision.ResourceKey;
    if i < |ops| - 1 {
      var before := ops[..|ops| - 1];
      assert forall j :: 0 <= j < |before| ==> before[j] == ops[j];
      LatestIsLastSet(before, key, i);
      assert !Sets(ops[|ops| - 1], key);
    }
  }

  /** Get answers the revision set last, unless that version was purged since, and then nothing. */
  lemma {:induction false} GetIsLastSet(ops: seq<Op>, key: string, i: nat)
    requires LastSet(ops, key, i)
    ensures GetRev(Run(ops), key) == if PurgedSince(ops, i) then None else Some(ops[i].rev)
    decreases |ops|
  {
    hide Revision.ResourceKey;
    LatestIsLastSet(ops, key, i);
    if i < |ops| - 1 {
      var before, last := ops[..|ops| - 1], ops[|ops| - 1];
      assert forall j :: 0 <= j < |before| ==> before[j] == ops[j];
      LatestIsLastSet(before, key, i);
      GetIsLastSet(before, key, i);
      assert !Sets(last, key);
      assert PurgedSince(ops, i) <==> PurgedSince(before, i) || Purges(last, ops[i].rev);
    }
  }

  lemma {:induction false} GetOfUnset(ops: seq<Op>, key: string)
    requires forall op :: op in ops ==> !Sets(op, key)
    ensures GetRev(Run(ops), key) == None && key !in Run(ops).m
  {
    hide Revision.ResourceKey;
    if |ops| > 0 {
      assert forall op :: op in ops[..|ops| - 1] ==> op in ops;
      assert ops[|ops| - 1] in ops;
      GetOfUnset(ops[..|ops| - 1], key);
    }
  }

  /** The object's revisions are set in the order of their versions. */
  ghost predicate Rising(ops: seq<Op>, key: string) {
    forall i, j :: 0 <= i < j < |ops| && Sets(ops[i], key) && Sets(ops[j], key) ==>
      ops[i].rev.resourceVersion <= ops[j].rev.resourceVersion
  }

  /** If sets rise in version, Get answers a greatest version whenever it answers. */
  lemma GetIsNewest(ops: seq<Op>, key: string, i: nat)
    requires LastSet(ops, key, i) && Rising(ops, key)
    ensures GetRev(Run(ops), key) == None <==> PurgedSince(ops, i)
    ensures !PurgedSince(ops, i) ==>
      var r := GetRev(Run(ops), key).value;
      forall j :: 0 <= j < |ops| && Sets(ops[j], key) ==> ops[j].rev.resourceVersion <= r.resourceVersion
  {
    hide Revision.ResourceKey, Run, GetRev;
    GetIsLastSet(ops, key, i);
  }
}
