/**
 * The store over a bucket, without the in-memory index: writes, the memo of each object's latest revision,
 * listing an object's directory, and purging.
 */
module BackendStore {
  import opened Strings
  import opened Paths
  import opened Revisions
  import opened RevisionLists
  import opened Buckets
  import opened Walk

  /** Go's zero time, 1 January of year 1. */
  const ZERO_TIME := -62_135_596_800 * NANOS_PER_SECOND

  /** It lies as many days before 1970 as 1969 years of the Gregorian calendar have. */
  lemma ZeroTimeIsYearOne()
    ensures ZERO_TIME == -(1969 * 365 + 1969 / 4 - 1969 / 100 + 1969 / 400) * 24 * 60 * 60 * 1_000_000_000
  {
  }

  /** A store's keys are printed keys and files at its root. */
  ghost predicate StoreKeys(keys: set<string>) {
    forall k :: k in keys ==> '/' !in k || Printed(k)
  }

  /** A revision as a stored key gives it back, not deleted. */
  ghost predicate Live(keys: set<string>, r: Revision) {
    r.WellFormed() && r.Seconds() == r && !r.deleted && r.Key() in keys
  }

  /** No stored live revision of the object is newer. */
  ghost predicate NewestLive(keys: set<string>, r: Revision) {
    Live(keys, r) && forall q :: Live(keys, q) && SameObject(q, r) ==> q.resourceVersion <= r.resourceVersion
  }

  /** The bucket's keys and the memo: each object's latest revision key, by resource key. */
  datatype Store = Store(keys: set<string>, latest: map<string, string>)

  datatype Op =
    | UpdateOp(rev: Revision, accept: bool)
    | DeleteOp(rev: Revision, accept: bool)
    | GetOp(rev: Revision)
    | PurgeOp(rev: Revision, accept: bool)

  function Deleted(rev: Revision): Revision { rev.(deleted := true) }

  ghost predicate Next(s: Store, op: Op, s': Store) {
    match op
    case UpdateOp(rev, accept) =>
      s' == if accept then Store(s.keys + {rev.Key()}, s.latest[rev.ResourceKey() := rev.RevisionKey()]) else s
    case DeleteOp(rev, accept) =>
      s' == if accept then s.(keys := s.keys + {Deleted(rev).Key()}) else s
    case PurgeOp(rev, accept) =>
      s' == if accept then s.(keys := s.keys - {rev.Key()}) else s
    case GetOp(rev) =>
      if rev.ResourceKey() in s.latest then s' == s
      else Remembers(s, rev, s') || (s' == s && !exists r :: Live(s.keys, r) && SameObject(r, rev))
  }

  /** The memo gains the object's newest live revision. */
  ghost predicate Remembers(s: Store, rev: Revision, s': Store) {
    exists r :: NewestLive(s.keys, r) && SameObject(r, rev) &&
      s' == s.(latest := s.latest[rev.ResourceKey() := r.RevisionKey()])
  }

  // ---- the store's methods ----

  /** A file directly in an object's directory is one of its revisions. */
  lemma DirectoryEntry(rev: Revision, name: string) returns (r: Revision)
    requires rev.WellFormed() && '/' !in name && Printed(rev.ResourceKey() + "/" + name)
    ensures
      var key := rev.ResourceKey() + "/" + name;
      JoinPath([rev.ResourceKey(), name]) == key && Parse(key) == Some(r) && r.Key() == key &&
      r.WellFormed() && r.Seconds() == r && SameObject(r, rev) && r.ResourceKey() == rev.ResourceKey()
  {
    var dir := rev.ResourceKey();
    var key := dir + "/" + name;
    r := PrintedParses(key);
    KeyIsJoin(r);
    ResourceKeyIsJoin(r);
    SplitAtSeparator(dir, name, '/');
    SplitWithoutSeparator(name, '/');
    JoinSplit(dir, '/');
    var split := Split(key, '/');
    assert split[..|split| - 1] == Split(dir, '/') == r.ResourceElements();
    ResourceKeyInjective(r, rev);
  }

  class RevisionStore {
    const backend: Bucket
    var latestCache: map<string, string>

    ghost function View(): Store
      reads this, backend
    {
      Store(backend.keys, latestCache)
    }

    ghost predicate Valid()
      reads this, backend
    {
      StoreKeys(backend.keys)
    }

    constructor (backend: Bucket)
      ensures this.backend == backend && latestCache == map[]
    {
      this.backend := backend;
      latestCache := map[];
    }

    method Update(rev: Revision, accept: bool) returns (ok: bool)
      requires Valid() && rev.WellFormed()
      modifies this, backend
      ensures Valid() && ok == accept && Next(old(View()), UpdateOp(rev, accept), View())
    {
      hide Revision.Key, Revision.ResourceKey, Revision.RevisionKey, Revision.WellFormed;
      ok := backend.Create(rev.Key(), accept);
      if ok {
        latestCache := latestCache[rev.ResourceKey() := rev.RevisionKey()];
      }
    }

    /** Writes a tombstone; the memo keeps what it holds. */
    method Delete(rev: Revision, accept: bool) returns (ok: bool)
      requires Valid() && rev.WellFormed()
      modifies backend
      ensures Valid() && ok == accept && Next(old(View()), DeleteOp(rev, accept), View())
    {
      assert Deleted(rev).WellFormed();
      hide Revision.Key, Revision.ResourceKey, Revision.RevisionKey, Revision.WellFormed;
      var tombstone := rev.(deleted := true);
      ok := backend.Create(tombstone.Key(), accept);
    }

    method PurgeRevision(rev: Revision, accept: bool) returns (ok: bool)
      requires Valid()
      modifies backend
      ensures Valid() && ok == accept && Next(old(View()), PurgeOp(rev, accept), View())
    {
      hide Revision.Key, Revision.ResourceKey, Revision.RevisionKey, Revision.WellFormed;
      ok := backend.Remove(rev.Key(), accept);
    }

    /** The object's live revisions by ascending version. */
    method List(rev: Revision) returns (revisions: seq<Revision>)
      requires Valid() && rev.WellFormed()
      ensures Ascending(revisions)
      ensures forall r :: r in revisions <==> Live(backend.keys, r) && SameObject(r, rev)
    {
      hide Revision.Key, Revision.ResourceKey, Revision.RevisionKey, Revision.WellFormed, Revision.Seconds, Parse,
           JoinPath;
      var resourceKey := rev.ResourceKey();
      var names := backend.ReadDir(resourceKey);
      var live := [];
      for n := 0 to |names|
        invariant forall r :: r in live <==>
          Live(backend.keys, r) && SameObject(r, rev) &&
          exists i :: 0 <= i < n && r.Key() == resourceKey + "/" + names[i]
      {
        assert names[n] in names;
        var r := DirectoryEntry(rev, names[n]);
        var parsed := Parse(JoinPath([resourceKey, names[n]]));
        if !parsed.value.deleted {
          live := live + [parsed.value];
        }
        KeyAtMostOne(resourceKey + "/" + names[n]);
      }
      forall r | Live(backend.keys, r) && SameObject(r, rev)
        ensures r in live
      {
        InDirectory(r, rev);
        var i :| 0 <= i < |names| && names[i] == r.RevisionKey();
      }
      revisions := Sort(live);
      SameMembers(revisions, live);
    }

    /** latestRevision: the last of the list, for no time is earlier than the zero time it compares with. */
    method LatestRevision(rev: Revision) returns (latest: Option<Revision>)
      requires Valid() && rev.WellFormed()
      ensures latest.Some? ==> NewestLive(backend.keys, latest.value) && SameObject(latest.value, rev)
      ensures latest.None? ==> !exists r :: Live(backend.keys, r) && SameObject(r, rev)
    {
      hide Revision.Key, Revision.ResourceKey, Revision.RevisionKey, Revision.WellFormed, Revision.Seconds;
      var revisions := List(rev);
      var latestTS := ZERO_TIME;
      latest := None;
      for n := 0 to |revisions|
        invariant latest == if n == 0 then None else Some(revisions[n - 1])
      {
        assert revisions[n] in revisions;
        AfterZeroTime(revisions[n]);
        if latestTS < revisions[n].nanos {
          latest := Some(revisions[n]);
        }
      }
      LastIsNewest(backend.keys, revisions, rev);
    }

    /** Get: the key of the revision it opens, if there is one; opening a key fails if it is gone or refused. */
    method Get(rev: Revision, accept: bool) returns (key: Option<string>, ok: bool)
      requires Valid() && rev.WellFormed()
      modifies this
      ensures Valid() && Next(old(View()), GetOp(rev), View())
      ensures key.Some? <==> rev.ResourceKey() in latestCache
      ensures key.Some? ==> key.value == JoinPath([rev.ResourceKey(), latestCache[rev.ResourceKey()]])
      ensures ok == (key.Some? ==> accept && key.value in backend.keys)
    {
      hide Revision.Key, Revision.ResourceKey, Revision.RevisionKey, Revision.WellFormed, JoinPath;
      var resourceKey := rev.ResourceKey();
      if resourceKey in latestCache {
        key := Some(JoinPath([resourceKey, latestCache[resourceKey]]));
        ok := backend.Open(key.value, accept);
        return;
      }
      var latest := LatestRevision(rev);
      if latest.None? {
        return None, true;
      }
      latestCache := latestCache[resourceKey := latest.value.RevisionKey()];
      key := Some(JoinPath([resourceKey, latest.value.RevisionKey()]));
      ok := backend.Open(key.value, accept);
    }
  }

  lemma AfterZeroTime(r: Revision)
    requires r.WellFormed()
    ensures ZERO_TIME < r.nanos
  {
  }

  lemma LastIsNewest(keys: set<string>, revs: seq<Revision>, rev: Revision)
    requires Ascending(revs) && forall r :: r in revs <==> Live(keys, r) && SameObject(r, rev)
    ensures revs != [] ==> NewestLive(keys, revs[|revs| - 1]) && SameObject(revs[|revs| - 1], rev)
    ensures revs == [] ==> !exists r :: Live(keys, r) && SameObject(r, rev)
  {
    hide Live;
    if revs != [] {
      var last := revs[|revs| - 1];
      assert last in revs;
      forall q | Live(keys, q) && SameObject(q, last)
        ensures q.resourceVersion <= last.resourceVersion
      {
        assert q in revs;
      }
    }
  }

  lemma KeyAtMostOne(key: string)
    ensures forall a: Revision, b: Revision ::
      a.WellFormed() && b.WellFormed() && a.Seconds() == a && b.Seconds() == b && a.Key() == key && b.Key() == key
      ==> a == b
  {
    hide Revision.Key, Revision.WellFormed, Revision.Seconds;
    forall a: Revision, b: Revision |
      a.WellFormed() && b.WellFormed() && a.Seconds() == a && b.Seconds() == b && a.Key() == key && b.Key() == key
      ensures a == b
    {
      KeyInjective(a, b);
    }
  }

  lemma InDirectory(r: Revision, rev: Revision)
    requires r.WellFormed() && rev.WellFormed() && SameObject(r, rev)
    ensures r.Key() == rev.ResourceKey() + "/" + r.RevisionKey() && '/' !in r.RevisionKey()
  {
    ResourceKeyInjective(r, rev);
    KeyIsJoin(r);
    FileNameOrdinary(r.resourceVersion, r.Unix(), r.deleted);
  }

  // ---- the memo ----

  /** The memo's entry, if any, is what a scan of the directory finds: a newest live revision. */
  ghost predicate Agrees(s: Store, resourceKey: string) {
    resourceKey in s.latest ==>
      exists r :: NewestLive(s.keys, r) && r.ResourceKey() == resourceKey && r.RevisionKey() == s.latest[resourceKey]
  }

  ghost predicate AllAgree(s: Store) {
    forall k :: k in s.latest ==> Agrees(s, k)
  }

  lemma SecondsKeys(r: Revision)
    ensures r.Seconds().Seconds() == r.Seconds() && r.Seconds().Key() == r.Key()
    ensures r.Seconds().ResourceKey() == r.ResourceKey() && r.Seconds().RevisionKey() == r.RevisionKey()
    ensures r.WellFormed() ==> r.Seconds().WellFormed()
  {
    assert r.Seconds().Unix() == r.Unix();
  }

  /** Adding a key makes no other revision live. */
  lemma LiveAfterAdd(keys: set<string>, rev: Revision, q: Revision)
    requires rev.WellFormed()
    ensures Live(keys + {rev.Key()}, q) <==> Live(keys, q) || (q == rev.Seconds() && !rev.deleted)
  {
    hide Revision.Key;
    SecondsKeys(rev);
    if q.WellFormed() && q.Key() == rev.Key() {
      KeyInjective(q, rev);
    }
  }

  /** The memo's names determine the revision: same object, same revision key, same revision. */
  lemma SameNames(a: Revision, b: Revision)
    requires a.WellFormed() && b.WellFormed()
    requires a.ResourceKey() == b.ResourceKey() && a.RevisionKey() == b.RevisionKey()
    ensures a.Seconds() == b.Seconds()
  {
    KeyInjective(a, b);
  }

  /**
   * An accepted update leaves the memo right for its object exactly when the revision is live and no stored
   * live revision of the object is newer.
   */
  lemma UpdateAgreesIff(s: Store, rev: Revision, s': Store)
    requires rev.WellFormed() && Next(s, UpdateOp(rev, true), s')
    ensures Agrees(s', rev.ResourceKey()) <==>
      !rev.deleted && forall q :: Live(s.keys, q) && SameObject(q, rev) ==> q.resourceVersion <= rev.resourceVersion
  {
    hide Revision.Key, Revision.ResourceKey, Revision.RevisionKey, Revision.WellFormed, Revision.Seconds, Live;
    var w := rev.Seconds();
    SecondsKeys(rev);
    assert SameObject(w, rev) && w.resourceVersion == rev.resourceVersion && w.deleted == rev.deleted by {
      SecondsFields(rev);
    }
    forall q
      ensures Live(s'.keys, q) <==> Live(s.keys, q) || (q == w && !rev.deleted)
    {
      LiveAfterAdd(s.keys, rev, q);
    }
    if Agrees(s', rev.ResourceKey()) {
      var r :| NewestLive(s'.keys, r) && r.ResourceKey() == rev.ResourceKey() && r.RevisionKey() == rev.RevisionKey();
      LiveFacts(s'.keys, r);
      SameNames(r, rev);
      assert r == w;
    }
    if !rev.deleted && forall q :: Live(s.keys, q) && SameObject(q, rev) ==> q.resourceVersion <= rev.resourceVersion {
      assert Live(s'.keys, w);
      assert NewestLive(s'.keys, w);
    }
  }

  lemma SecondsFields(r: Revision)
    ensures SameObject(r.Seconds(), r) && r.Seconds().resourceVersion == r.resourceVersion
    ensures r.Seconds().deleted == r.deleted
  {
  }

  lemma LiveFacts(keys: set<string>, r: Revision)
    requires Live(keys, r)
    ensures r.WellFormed() && r.Seconds() == r && !r.deleted && r.Key() in keys
  {
  }

  /** An accepted removal leaves a right memo entry right exactly when it spares the entry's own key. */
  lemma PurgeAgreesIff(s: Store, rev: Revision, s': Store, k: string)
    requires Next(s, PurgeOp(rev, true), s') && k in s.latest && Agrees(s, k)
    ensures Agrees(s', k) <==> rev.Key() != JoinPath([k, s.latest[k]])
  {
    hide Revision.ResourceKey, Revision.RevisionKey, Revision.WellFormed, Revision.Seconds, JoinPath;
    var r :| NewestLive(s.keys, r) && r.ResourceKey() == k && r.RevisionKey() == s.latest[k];
    assert r.Key() == JoinPath([k, s.latest[k]]);
    if rev.Key() != r.Key() {
      assert NewestLive(s'.keys, r);
    }
  }

  /** No two live revisions of an object share a version. */
  ghost predicate DistinctLive(keys: set<string>) {
    forall a, b :: Live(keys, a) && Live(keys, b) && SameObject(a, b) && a.resourceVersion == b.resourceVersion ==>
      a == b
  }

  /** Updates are live, and newer than all that is stored but themselves; no purge removes a newest live revision. */
  ghost predicate Legitimate(s: Store, op: Op) {
    match op
    case UpdateOp(rev, accept) =>
      && rev.WellFormed()
      && (accept ==> !rev.deleted)
      && (accept ==> forall q :: Live(s.keys, q) && SameObject(q, rev) ==>
            q == rev.Seconds() || q.resourceVersion < rev.resourceVersion)
    case DeleteOp(rev, _) => rev.WellFormed()
    case GetOp(rev) => rev.WellFormed()
    case PurgeOp(rev, accept) => accept ==> forall r :: NewestLive(s.keys, r) ==> r.Key() != rev.Key()
  }

  lemma OtherObjectAgrees(s: Store, rev: Revision, s': Store, k: string)
    requires rev.WellFormed() && AllAgree(s) && k in s.latest
    requires s'.keys == s.keys + {rev.Key()} && k in s'.latest && s'.latest[k] == s.latest[k]
    requires rev.deleted || k != rev.ResourceKey()
    ensures Agrees(s', k)
  {
    hide Revision.Key, Revision.ResourceKey, Revision.RevisionKey, Revision.WellFormed, Revision.Seconds, Live;
    assert Agrees(s, k);
    var r :| NewestLive(s.keys, r) && r.ResourceKey() == k && r.RevisionKey() == s.latest[k];
    LiveFacts(s.keys, r);
    SecondsFields(rev);
    SecondsKeys(rev);
    ResourceKeyInjective(rev, r);
    forall q | Live(s'.keys, q)
      ensures Live(s.keys, q) || (q == rev.Seconds() && !rev.deleted)
    {
      LiveAfterAdd(s.keys, rev, q);
    }
    LiveAfterAdd(s.keys, rev, r);
    assert NewestLive(s'.keys, r);
  }

  lemma StepAgrees(s: Store, op: Op, s': Store)
    requires AllAgree(s) && Legitimate(s, op) && Next(s, op, s')
    ensures AllAgree(s')
  {
    hide Revision.Key, Revision.ResourceKey, Revision.RevisionKey, Revision.WellFormed, Revision.Seconds, Live, Agrees,
         NewestLive, JoinPath;
    if s' != s {
      forall k | k in s'.latest
        ensures Agrees(s', k)
      {
        match op {
          case UpdateOp(rev, _) =>
            SecondsFields(rev);
            if k == rev.ResourceKey() { UpdateAgreesIff(s, rev, s'); } else { OtherObjectAgrees(s, rev, s', k); }
          case DeleteOp(rev, _) => assert Deleted(rev).WellFormed() by { DeletedWellFormed(rev); }
                                   OtherObjectAgrees(s, Deleted(rev), s', k);
          case PurgeOp(rev, _) => assert Agrees(s, k); PurgeSparesNewest(s, rev, s', k);
          case GetOp(rev) => GetAgrees(s, rev, s', k);
        }
      }
    }
  }

  lemma DeletedWellFormed(rev: Revision)
    requires rev.WellFormed()
    ensures Deleted(rev).WellFormed()
  {
  }

  lemma PurgeSparesNewest(s: Store, rev: Revision, s': Store, k: string)
    requires k in s.latest && Agrees(s, k) && Next(s, PurgeOp(rev, true), s')
    requires forall r :: NewestLive(s.keys, r) ==> r.Key() != rev.Key()
    ensures Agrees(s', k)
  {
    hide Revision.ResourceKey, Revision.RevisionKey, Revision.WellFormed, Revision.Seconds, JoinPath;
    PurgeAgreesIff(s, rev, s', k);
    var r :| NewestLive(s.keys, r) && r.ResourceKey() == k && r.RevisionKey() == s.latest[k];
    assert r.Key() == JoinPath([k, s.latest[k]]);
  }

  lemma GetAgrees(s: Store, rev: Revision, s': Store, k: string)
    requires AllAgree(s) && rev.WellFormed() && rev.ResourceKey() !in s.latest
    requires Remembers(s, rev, s') && k in s'.latest
    ensures Agrees(s', k)
  {
    hide Revision.Key, Revision.ResourceKey, Revision.RevisionKey, Revision.WellFormed, Revision.Seconds, Live;
    if k == rev.ResourceKey() {
      var r :| NewestLive(s.keys, r) && SameObject(r, rev) &&
        s' == s.(latest := s.latest[rev.ResourceKey() := r.RevisionKey()]);
      LiveFacts(s.keys, r);
      ResourceKeyInjective(r, rev);
    } else {
      assert Agrees(s, k);
    }
  }

  lemma StepDistinct(s: Store, op: Op, s': Store)
    requires DistinctLive(s.keys) && Legitimate(s, op) && Next(s, op, s')
    ensures DistinctLive(s'.keys)
  {
    hide Revision.Key, Revision.ResourceKey, Revision.RevisionKey, Revision.WellFormed, Revision.Seconds;
    if s' != s && (op.UpdateOp? || op.DeleteOp?) {
      var rev := if op.UpdateOp? then op.rev else Deleted(op.rev);
      assert rev.WellFormed() by { DeletedWellFormed(op.rev); }
      SecondsFields(rev);
      forall q
        ensures Live(s'.keys, q) <==> Live(s.keys, q) || (q == rev.Seconds() && !rev.deleted)
      {
        LiveAfterAdd(s.keys, rev, q);
      }
    }
  }

  /** A run of legitimate calls on a store that starts without a memo. */
  ghost predicate LegitimateRun(states: seq<Store>, ops: seq<Op>) {
    && |states| == |ops| + 1
    && states[0].latest == map[] && DistinctLive(states[0].keys)
    && forall i :: 0 <= i < |ops| ==> Legitimate(states[i], ops[i]) && Next(states[i], ops[i], states[i + 1])
  }

  lemma {:induction false} RunAgrees(states: seq<Store>, ops: seq<Op>, n: nat)
    requires LegitimateRun(states, ops) && n < |states|
    ensures AllAgree(states[n]) && DistinctLive(states[n].keys)
  {
    hide Next, Legitimate, AllAgree, DistinctLive;
    if n == 0 {
      EmptyMemo(states[0]);
    } else {
      RunAgrees(states, ops, n - 1);
      StepAgrees(states[n - 1], ops[n - 1], states[n]);
      StepDistinct(states[n - 1], ops[n - 1], states[n]);
    }
  }

  lemma EmptyMemo(s: Store)
    requires s.latest == map[]
    ensures AllAgree(s)
  {
  }

  /**
   * In every state of a legitimate run, each memo entry is the revision key that a scan of the object's
   * directory finds, that of the live revision of greatest version.
   */
  lemma MemoRefinesScan(states: seq<Store>, ops: seq<Op>, n: nat, k: string) returns (r: Revision)
    requires LegitimateRun(states, ops) && n < |states| && k in states[n].latest
    ensures
      var s := states[n];
      && NewestLive(s.keys, r) && r.ResourceKey() == k && s.latest[k] == r.RevisionKey()
      && forall q :: NewestLive(s.keys, q) && SameObject(q, r) ==> q == r
  {
    hide Revision.Key, Revision.ResourceKey, Revision.RevisionKey, Revision.WellFormed, Revision.Seconds;
    RunAgrees(states, ops, n);
    var s := states[n];
    assert Agrees(s, k);
    r :| NewestLive(s.keys, r) && r.ResourceKey() == k && r.RevisionKey() == s.latest[k];
  }
}
