/** The store's Sync: a walk over the whole bucket that sorts its keys by what the handlers track. */
module SyncWalk {
  import opened Strings
  import opened Paths
  import opened Revisions
  import opened Walk
  import opened Handlers

  type Revs = map<string, seq<Revision>>

  datatype Synced = Synced(state: Revs, toDelete: seq<Revision>)

  function VisitRevision(handlers: ResourceHandlers, deleteUntracked: bool, s: Synced, rev: Revision): Visit<Synced> {
    match HandlerFor(handlers, rev.apiVersion, rev.kind, rev.namespace)
    case None =>
      if deleteUntracked then Visit(s.(toDelete := s.toDelete + [rev]), Continue) else Visit(s, SkipDir)
    case Some(h) =>
      var key := rev.ResourceKey();
      var s' := s.(state := s.state[key := (if key in s.state then s.state[key] else []) + [rev]]);
      if StoreKey(rev.namespace, rev.name) in h.objects then Visit(s', Continue)
      else Visit(s'.(toDelete := s'.toDelete + [rev]), Continue)
  }

  function VisitPath(handlers: ResourceHandlers, deleteUntracked: bool, s: Synced, path: string): Visit<Synced> {
    var dir := Dir(path);
    if dir == "" || dir == "." then Visit(s, Continue)
    else
      match Parse(TrimSlash(path))
      case None => Visit(s, Fail)
      case Some(rev) => VisitRevision(handlers, deleteUntracked, s, rev)
  }

  function Visitor(handlers: ResourceHandlers, deleteUntracked: bool): Walk.Visitor<Synced> {
    (s: Synced, path: string) => VisitPath(handlers, deleteUntracked, s, path)
  }

  // ---- what the answer means ----

  predicate Tracked(handlers: ResourceHandlers, r: Revision) {
    HandlerFor(handlers, r.apiVersion, r.kind, r.namespace).Some?
  }

  /** The informer that tracks the revision's object still has the object. */
  predicate Lives(handlers: ResourceHandlers, r: Revision) {
    var h := HandlerFor(handlers, r.apiVersion, r.kind, r.namespace);
    h.Some? && StoreKey(r.namespace, r.name) in h.value.objects
  }

  predicate Stale(handlers: ResourceHandlers, deleteUntracked: bool, r: Revision) {
    if Tracked(handlers, r) then !Lives(handlers, r) else deleteUntracked
  }

  /** The revisions of all keys that satisfy `keep`, in listing order. */
  function Kept(listing: seq<string>, keep: Revision -> bool): seq<Revision> {
    if |listing| == 0 then []
    else
      var rest, key := Kept(listing[..|listing| - 1], keep), listing[|listing| - 1];
      if '/' !in key then rest
      else
        match Parse(key)
        case None => rest
        case Some(r) => if keep(r) then rest + [r] else rest
  }

  /** What the filter keeps, told without the listing's order. */
  lemma {:induction false} KeptMembers(listing: seq<string>, keep: Revision -> bool, r: Revision)
    requires StoreListing(listing)
    ensures r in Kept(listing, keep) <==> keep(r) && r.WellFormed() && r.Seconds() == r && r.Key() in listing
  {
    if |listing| > 0 {
      hide Revision.Key, Revision.Seconds, Revision.WellFormed, Parse, Kept;
      var before, last := listing[..|listing| - 1], listing[|listing| - 1];
      assert forall k :: k in before ==> k in listing;
      assert last in listing && before + [last] == listing;
      KeptMembers(before, keep, r);
      KeptLast(before, last, keep);
      if '/' in last {
        KeyNames(last, r);
      } else if r.WellFormed() {
        KeyDirectory(r);
      }
    } else {
      assert Kept(listing, keep) == [];
    }
  }

  function OfResource(handlers: ResourceHandlers, resourceKey: string): Revision -> bool {
    (r: Revision) => Tracked(handlers, r) && r.ResourceKey() == resourceKey
  }

  function IsStale(handlers: ResourceHandlers, deleteUntracked: bool): Revision -> bool {
    (r: Revision) => Stale(handlers, deleteUntracked, r)
  }

  /** One object's entry of the state, and the delete list. */
  ghost predicate Answers(handlers: ResourceHandlers, deleteUntracked: bool, s: Synced,
                          resourceKey: string, revs: seq<Revision>, stale: seq<Revision>) {
    && (resourceKey in s.state <==> revs != [])
    && (resourceKey in s.state ==> s.state[resourceKey] == revs)
    && s.toDelete == stale
  }

  // ---- skipping ----

  lemma VisitStoreKey(handlers: ResourceHandlers, deleteUntracked: bool, s: Synced, key: string)
    requires '/' !in key || Printed(key)
    ensures '/' !in key ==> VisitPath(handlers, deleteUntracked, s, key) == Visit(s, Continue)
    ensures Printed(key) ==>
      Parse(key).Some? &&
      VisitPath(handlers, deleteUntracked, s, key) == VisitRevision(handlers, deleteUntracked, s, Parse(key).value)
  {
    hide VisitRevision;
    if '/' !in key {
      DirOfRootFile(key);
    }
    if Printed(key) {
      var r := PrintedParses(key);
    }
  }

  /** A skipped key's whole directory belongs to the same, untracked object. */
  lemma SkippedIsUntracked(handlers: ResourceHandlers, deleteUntracked: bool, s: Synced, s': Synced,
                           p: string, q: string)
    requires ('/' !in p || Printed(p)) && ('/' !in q || Printed(q))
    requires VisitPath(handlers, deleteUntracked, s, p).signal == SkipDir && Dir(p) == Dir(q)
    ensures Idle(Visitor(handlers, deleteUntracked), s', q)
  {
    VisitStoreKey(handlers, deleteUntracked, s, p);
    VisitStoreKey(handlers, deleteUntracked, s', q);
    var a := PrintedParses(p);
    if Printed(q) {
      var b := PrintedParses(q);
      ResourceKeyInjective(a, b);
    } else {
      DirOfRootFile(q);
    }
  }

  lemma {:induction false} ListedAll(listing: seq<string>)
    ensures Listed(listing, "") == listing
  {
    if |listing| > 0 {
      ListedAll(listing[..|listing| - 1]);
      assert "" <= listing[|listing| - 1];
    }
  }

  lemma SkipsOnlyUntracked(listing: seq<string>, handlers: ResourceHandlers, deleteUntracked: bool)
    requires StoreListing(listing)
    ensures SkipsWholeDirectories(listing, Visitor(handlers, deleteUntracked))
  {
    hide VisitPath, Dir, Idle;
    forall s, p, s', q | p in listing && q in listing &&
        Visitor(handlers, deleteUntracked)(s, p).signal == SkipDir && Dir(p) == Dir(q)
      ensures Idle(Visitor(handlers, deleteUntracked), s', q)
    {
      SkippedIsUntracked(handlers, deleteUntracked, s, s', p, q);
    }
  }

  // ---- the answer ----

  lemma KeptLast(listing: seq<string>, key: string, keep: Revision -> bool)
    requires '/' !in key || Printed(key)
    ensures Printed(key) ==> Parse(key).Some?
    ensures Kept(listing + [key], keep) ==
      Kept(listing, keep) + if '/' in key && keep(Parse(key).value) then [Parse(key).value] else []
  {
    assert (listing + [key])[..|listing|] == listing;
    if Printed(key) {
      var r := PrintedParses(key);
    }
  }

  lemma AnswerGrows(handlers: ResourceHandlers, deleteUntracked: bool, s: Synced, rev: Revision,
                    resourceKey: string, revs: seq<Revision>, stale: seq<Revision>)
    requires Answers(handlers, deleteUntracked, s, resourceKey, revs, stale)
    ensures
      var v := VisitRevision(handlers, deleteUntracked, s, rev);
      v.signal != Fail &&
      Answers(handlers, deleteUntracked, v.state, resourceKey,
              revs + (if OfResource(handlers, resourceKey)(rev) then [rev] else []),
              stale + (if IsStale(handlers, deleteUntracked)(rev) then [rev] else []))
  {
    hide Revision.ResourceKey, HandlerFor;
    assert revs + [] == revs && stale + [] == stale;
  }

  lemma {:induction false} ScanAnswers(listing: seq<string>, handlers: ResourceHandlers, deleteUntracked: bool,
                                       resourceKey: string)
    requires StoreListing(listing)
    ensures
      var (s, ok) := Scan(listing, Synced(map[], []), Visitor(handlers, deleteUntracked));
      ok && Answers(handlers, deleteUntracked, s, resourceKey,
                    Kept(listing, OfResource(handlers, resourceKey)),
                    Kept(listing, IsStale(handlers, deleteUntracked)))
  {
    hide VisitPath, VisitRevision, OfResource, IsStale, Printed, Parse, Revision.ResourceKey, Revision.Key,
         Revision.WellFormed, Revision.Seconds;
    if |listing| > 0 {
      hide Kept, Answers;
      var before, last := listing[..|listing| - 1], listing[|listing| - 1];
      assert forall k :: k in before ==> k in listing;
      assert last in listing && before + [last] == listing;
      ScanAnswers(before, handlers, deleteUntracked, resourceKey);
      var s := Scan(before, Synced(map[], []), Visitor(handlers, deleteUntracked)).0;
      VisitStoreKey(handlers, deleteUntracked, s, last);
      KeptLast(before, last, OfResource(handlers, resourceKey));
      KeptLast(before, last, IsStale(handlers, deleteUntracked));
      if Printed(last) {
        var r := PrintedParses(last);
        AnswerGrows(handlers, deleteUntracked, s, r, resourceKey,
                    Kept(before, OfResource(handlers, resourceKey)),
                    Kept(before, IsStale(handlers, deleteUntracked)));
      }
    }
  }

  /**
   * Sync over a store's bucket: skipping changes nothing, every tracked revision is in the state, and the
   * delete list is, in listing order, the tracked revisions of vanished objects and, if asked, all untracked
   * ones.
   */
  method Sync(listing: seq<string>, cut: Option<nat>, handlers: ResourceHandlers, deleteUntracked: bool)
    returns (state: Revs, toDelete: seq<Revision>, ok: bool)
    ensures
      var end := WalkKeys(Yielded(listing, cut), Synced(map[], []), Visitor(handlers, deleteUntracked));
      state == end.state.state && toDelete == end.state.toDelete && ok == (end.ok && !Breaks(listing, cut))
    ensures StoreListing(listing) && !Breaks(listing, cut) ==>
      ok && toDelete == Kept(listing, IsStale(handlers, deleteUntracked)) &&
      forall key :: Answers(handlers, deleteUntracked, Synced(state, toDelete), key,
                            Kept(listing, OfResource(handlers, key)), toDelete)
  {
    hide Kept, WalkKeys, SkipsWholeDirectories;
    var synced;
    ListedAll(listing);
    synced, ok := WalkBucket(listing, cut, "", Synced(map[], []), Visitor(handlers, deleteUntracked));
    state, toDelete := synced.state, synced.toDelete;
    if StoreListing(listing) && !Breaks(listing, cut) {
      SkipsOnlyUntracked(listing, handlers, deleteUntracked);
      SkippingIsTransparent(listing, Synced(map[], []), Visitor(handlers, deleteUntracked));
      ScanAnswers(listing, handlers, deleteUntracked, "");
      forall key
        ensures Answers(handlers, deleteUntracked, synced, key, Kept(listing, OfResource(handlers, key)),
                              Kept(listing, IsStale(handlers, deleteUntracked)))
      {
        ScanAnswers(listing, handlers, deleteUntracked, key);
      }
    }
  }

  /**
   * Every stored key is sorted into one place: a tracked revision is in the state, and also in the delete list
   * if its object is gone; an untracked one is in the delete list or, unless asked for, in neither.
   */
  lemma SyncPartitions(listing: seq<string>, handlers: ResourceHandlers, deleteUntracked: bool, s: Synced, key: string)
    returns (r: Revision)
    requires StoreListing(listing) && key in listing && '/' in key
    requires s.toDelete == Kept(listing, IsStale(handlers, deleteUntracked))
    requires forall k :: Answers(handlers, deleteUntracked, s, k, Kept(listing, OfResource(handlers, k)), s.toDelete)
    ensures Parse(key) == Some(r)
    ensures Tracked(handlers, r) <==> exists k :: k in s.state && r in s.state[k]
    ensures Tracked(handlers, r) ==> r.ResourceKey() in s.state && r in s.state[r.ResourceKey()]
    ensures r in s.toDelete <==> if Tracked(handlers, r) then !Lives(handlers, r) else deleteUntracked
  {
    r := PrintedParses(key);
    hide Revision.ResourceKey, Revision.Key, Revision.WellFormed, Revision.Seconds, Kept, Tracked, Lives, Parse;
    KeptMembers(listing, IsStale(handlers, deleteUntracked), r);
    var own := r.ResourceKey();
    KeptMembers(listing, OfResource(handlers, own), r);
    assert Answers(handlers, deleteUntracked, s, own, Kept(listing, OfResource(handlers, own)), s.toDelete);
    if k :| k in s.state && r in s.state[k] {
      KeptMembers(listing, OfResource(handlers, k), r);
      assert Answers(handlers, deleteUntracked, s, k, Kept(listing, OfResource(handlers, k)), s.toDelete);
    }
  }

  // ---- the informers' objects ----

  /** The informer's store holds the objects, each under "namespace/name" or, cluster-wide, under its name. */
  ghost predicate Shows(h: Handler, objects: set<(string, string)>) {
    h.objects == set o | o in objects :: if o.0 == "" then o.1 else o.0 + "/" + o.1
  }

  /** Every handler's informer shows the objects it is said to; their names are single path elements. */
  ghost predicate AllShow(handlers: ResourceHandlers, shown: Handler -> set<(string, string)>) {
    forall k :: k in handlers ==>
      Shows(handlers[k], shown(handlers[k])) && forall o :: o in shown(handlers[k]) ==> '/' !in o.0 && '/' !in o.1
  }

  /** A revision's object is under its key in an informer's store exactly when it is among the objects shown. */
  lemma ShownIff(h: Handler, objects: set<(string, string)>, r: Revision)
    requires Shows(h, objects) && (forall o :: o in objects ==> '/' !in o.0 && '/' !in o.1) && r.WellFormed()
    ensures StoreKey(r.namespace, r.name) in h.objects <==> (r.namespace, r.name) in objects
  {
    assert '/' !in r.namespace && '/' !in r.name;
    assert "" + r.name == r.name;
    if (r.namespace, r.name) in objects {
      var o := (r.namespace, r.name);
      assert (if o.0 == "" then o.1 else o.0 + "/" + o.1) in h.objects;
    }
    if StoreKey(r.namespace, r.name) in h.objects {
      var o :| o in objects && StoreKey(r.namespace, r.name) == if o.0 == "" then o.1 else o.0 + "/" + o.1;
      PairText(o.0, o.1, r.namespace, r.name);
      assert o == (r.namespace, r.name);
    }
  }

  lemma PairText(ns: string, name: string, ns': string, name': string)
    requires '/' !in ns && '/' !in name && '/' !in ns' && '/' !in name'
    requires (if ns == "" then name else ns + "/" + name) == (if ns' == "" then name' else ns' + "/" + name')
    ensures ns == ns' && name == name'
  {
    SplitPair(ns, name);
    SplitPair(ns', name');
    hide Split;
  }

  lemma SplitPair(ns: string, name: string)
    requires '/' !in ns && '/' !in name
    ensures Split(if ns == "" then name else ns + "/" + name, '/') == if ns == "" then [name] else [ns, name]
  {
    SplitWithoutSeparator(ns, '/');
    SplitWithoutSeparator(name, '/');
    SplitAtSeparator(ns, name, '/');
  }

  /** A tracked revision is stale exactly when its object is none of those its informer shows. */
  lemma StaleIff(handlers: ResourceHandlers, shown: Handler -> set<(string, string)>, deleteUntracked: bool,
                 r: Revision)
    requires AllShow(handlers, shown) && r.WellFormed()
    ensures Stale(handlers, deleteUntracked, r) <==>
      match HandlerFor(handlers, r.apiVersion, r.kind, r.namespace)
      case None => deleteUntracked
      case Some(h) => (r.namespace, r.name) !in shown(h)
  {
    hide StoreKey, Shows, Revision.WellFormed, HandlerKey;
    var h := HandlerFor(handlers, r.apiVersion, r.kind, r.namespace);
    if h.Some? {
      ShownIff(h.value, shown(h.value), r);
    }
  }

  /**
   * What Sync wants deleted: the stored revisions whose object the informer of their resource does not show,
   * and, if asked, those that no informer tracks.
   */
  lemma VanishedIff(listing: seq<string>, handlers: ResourceHandlers, shown: Handler -> set<(string, string)>,
                    deleteUntracked: bool, r: Revision)
    requires StoreListing(listing) && AllShow(handlers, shown)
    ensures
      var end := WalkKeys(listing, Synced(map[], []), Visitor(handlers, deleteUntracked));
      && end.ok
      && (r in end.state.toDelete <==>
            && r.WellFormed() && r.Seconds() == r && r.Key() in listing
            && match HandlerFor(handlers, r.apiVersion, r.kind, r.namespace)
               case None => deleteUntracked
               case Some(h) => (r.namespace, r.name) !in shown(h))
  {
    hide Revision.Key, Revision.Seconds, Revision.WellFormed, HandlerFor, WalkKeys, Kept, SkipsWholeDirectories,
         Visitor, Stale, AllShow;
    SkipsOnlyUntracked(listing, handlers, deleteUntracked);
    SkippingIsTransparent(listing, Synced(map[], []), Visitor(handlers, deleteUntracked));
    ScanAnswers(listing, handlers, deleteUntracked, "");
    KeptMembers(listing, IsStale(handlers, deleteUntracked), r);
    if r.WellFormed() {
      StaleIff(handlers, shown, deleteUntracked, r);
    }
  }

  /** The walk skips a printed key's directory exactly when no informer tracks it and untracked ones stay. */
  lemma SkipsIff(handlers: ResourceHandlers, deleteUntracked: bool, s: Synced, r: Revision)
    requires r.WellFormed()
    ensures VisitPath(handlers, deleteUntracked, s, r.Key()).signal == SkipDir <==>
      !deleteUntracked && HandlerFor(handlers, r.apiVersion, r.kind, r.namespace).None?
  {
    RoundTrip(r);
    hide Parse, Revision.Key, Revision.ResourceKey, Revision.WellFormed, HandlerFor;
    VisitStoreKey(handlers, deleteUntracked, s, r.Key());
  }

  /** A leading slash makes no difference to a printed key. */
  lemma SlashIsTrimmed(handlers: ResourceHandlers, deleteUntracked: bool, s: Synced, key: string)
    requires Printed(key)
    ensures VisitPath(handlers, deleteUntracked, s, "/" + key) == VisitPath(handlers, deleteUntracked, s, key)
  {
    hide VisitRevision, Parse;
    VisitStoreKey(handlers, deleteUntracked, s, key);
    DirOfRooted(key);
    assert ("/" + key)[1..] == key;
  }

  /** A key that is none of a revision fails Sync, unless it is at the root or in a directory maybe skipped. */
  lemma MalformedFails(before: seq<string>, bad: string, after: seq<string>, handlers: ResourceHandlers,
                       deleteUntracked: bool)
    requires StoreListing(before)
    requires bad != "" && bad[0] != '/' && '/' in bad && Parse(bad) == None
    requires forall k :: k in before ==> Dir(k) != Dir(bad)
    requires Dir(bad) != "" && Dir(bad) != "."
    ensures !WalkKeys(before + [bad] + after, Synced(map[], []), Visitor(handlers, deleteUntracked)).ok
  {
    hide Parse, Dir, VisitRevision, Printed, HandlerFor, Scan, SkipsWholeDirectories, TrimSlash;
    assert TrimSlash(bad) == bad by { SlashFree(bad); }
    SkipsOnlyUntracked(before, handlers, deleteUntracked);
    SkippingIsTransparent(before, Synced(map[], []), Visitor(handlers, deleteUntracked));
    var keys := before + [bad];
    var walked := WalkKeys(before, Synced(map[], []), Visitor(handlers, deleteUntracked));
    assert keys[..|keys| - 1] == before;
    assert VisitPath(handlers, deleteUntracked, walked.state, bad).signal == Fail;
    assert !WalkKeys(keys, Synced(map[], []), Visitor(handlers, deleteUntracked)).ok;
    var all := keys + after;
    assert all[..|keys|] == keys;
    FailureStays(all, Synced(map[], []), Visitor(handlers, deleteUntracked), |keys|);
  }

  lemma SlashFree(path: string)
    requires path != "" && path[0] != '/'
    ensures TrimSlash(path) == path
  {
  }
}
