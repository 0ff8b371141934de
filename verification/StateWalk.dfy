/** The store's State query: a walk from a narrowed prefix that skips directories of other objects. */
module StateWalk {
  import opened Strings
  import opened Paths
  import opened Revisions
  import opened Walk

  /** A label selector, told by what it says of a revision's content; None when the content cannot be loaded. */
  datatype Selector = Everything | Malformed | Labelled(says: Revision -> Option<bool>)

  /** The query's options; a missing time is Go's zero time. */
  datatype StateOptions = StateOptions(
    apiVersion: string,
    kind: string,
    namespace: string,
    allNamespaces: bool,
    name: string,
    time: Option<int>,
    allRevisions: bool,
    onlyDeleted: bool,
    selector: Selector)

  type Revs = map<string, seq<Revision>>

  /** Where the walk starts. */
  function Root(o: StateOptions): string {
    var oneNamespace := o.namespace != "" && !o.allNamespaces;
    if o.apiVersion != "" && o.kind != "" && oneNamespace && o.name != "" then
      JoinPath([o.apiVersion, o.kind, o.namespace, o.name])
    else if o.apiVersion != "" && o.kind != "" && oneNamespace then
      JoinPath([o.apiVersion, o.kind, o.namespace])
    else if o.apiVersion != "" && o.kind != "" then JoinPath([o.apiVersion, o.kind])
    else o.apiVersion
  }

  function LabelMatch(o: StateOptions, r: Revision): Option<bool> {
    match o.selector
    case Everything => Some(true)
    case Malformed => None
    case Labelled(says) => says(r)
  }

  function VisitRevision(o: StateOptions, res: Revs, rev: Revision): Visit<Revs> {
    if !o.allNamespaces && o.namespace != "" && rev.namespace != o.namespace then Visit(res, SkipDir)
    else if o.name != "" && rev.name != o.name then Visit(res, SkipDir)
    else if o.kind != "" && rev.kind != o.kind then Visit(res, SkipDir)
    else if o.apiVersion != "" && rev.apiVersion != o.apiVersion then Visit(res, SkipDir)
    else if o.onlyDeleted && !rev.deleted then Visit(res, Continue)
    else if o.time.Some? && !(rev.nanos < o.time.value) then Visit(res, Continue)
    else
      var key := rev.ResourceKey();
      var missing := key !in res || |res[key]| == 0;
      if o.allRevisions || missing || res[key][0].nanos < rev.nanos then
        match LabelMatch(o, rev)
        case None => Visit(res, Fail)
        case Some(matches) =>
          if !matches then Visit(res, Continue)
          else if !o.allRevisions then Visit(res[key := [rev]], Continue)
          else Visit(res[key := (if missing then [] else res[key]) + [rev]], Continue)
      else Visit(res, Continue)
  }

  function VisitPath(o: StateOptions, res: Revs, path: string): Visit<Revs> {
    var dir := Dir(path);
    if dir == "" || dir == "." then Visit(res, Continue)
    else
      match Parse(TrimSlash(path))
      case None => Visit(res, Fail)
      case Some(rev) => VisitRevision(o, res, rev)
  }

  function Visitor(o: StateOptions): Walk.Visitor<Revs> {
    (res: Revs, path: string) => VisitPath(o, res, path)
  }

  // ---- what the query means ----

  /** The options name the revision's object. */
  predicate Selects(o: StateOptions, r: Revision) {
    && (o.apiVersion == "" || r.apiVersion == o.apiVersion)
    && (o.kind == "" || r.kind == o.kind)
    && (o.allNamespaces || o.namespace == "" || r.namespace == o.namespace)
    && (o.name == "" || r.name == o.name)
  }

  predicate Candidate(o: StateOptions, r: Revision) {
    Selects(o, r) && (o.onlyDeleted ==> r.deleted) && (o.time.Some? ==> r.nanos < o.time.value)
  }

  predicate Matches(o: StateOptions, r: Revision) {
    Candidate(o, r) && LabelMatch(o, r) == Some(true)
  }

  /** The content of every candidate can be loaded, if the selector asks for it. */
  ghost predicate Loads(listing: seq<string>, o: StateOptions) {
    forall k :: k in listing && '/' in k && Parse(k).Some? && Candidate(o, Parse(k).value) ==>
      LabelMatch(o, Parse(k).value).Some?
  }

  /** The matching revisions of one object, in listing order, found by looking at every key. */
  function Matching(listing: seq<string>, o: StateOptions, resourceKey: string): seq<Revision> {
    if |listing| == 0 then []
    else
      var rest := Matching(listing[..|listing| - 1], o, resourceKey);
      var key := listing[|listing| - 1];
      if '/' !in key then rest
      else
        match Parse(key)
        case None => rest
        case Some(r) => if Matches(o, r) && r.ResourceKey() == resourceKey then rest + [r] else rest
  }

  /** `r` is the first of those with the greatest timestamp. */
  ghost predicate FirstNewest(revs: seq<Revision>, r: Revision) {
    exists i :: 0 <= i < |revs| && revs[i] == r &&
      forall j :: 0 <= j < |revs| ==> revs[j].nanos <= r.nanos && (j < i ==> revs[j].nanos < r.nanos)
  }

  /** One object's entry of the answer. */
  ghost predicate Answers(o: StateOptions, res: Revs, resourceKey: string, revs: seq<Revision>) {
    && (resourceKey in res <==> revs != [])
    && (resourceKey in res ==>
          if o.allRevisions then res[resourceKey] == revs
          else |res[resourceKey]| == 1 && FirstNewest(revs, res[resourceKey][0]))
  }

  // ---- pruning ----

  lemma SelectedAreUnderRoot(o: StateOptions, r: Revision)
    requires r.WellFormed() && Selects(o, r)
    ensures Root(o) <= r.ResourceKey()
  {
    ResourceKeyIsJoin(r);
    ResourceElementsOrdinary(r);
    var api := Split(r.apiVersion, '/');
    var elems := r.ResourceElements();
    JoinSplit(r.apiVersion, '/');
    if o.apiVersion != "" {
      PrefixOfJoin(elems, |api|);
      assert elems[..|api|] == api;
      if o.kind != "" {
        KindPrefix(r);
        PrefixOfJoin(elems, |api| + 1);
        NamespacePrefix(r);
        PrefixOfJoin(elems, |api| + 1 + |Elements(r.namespace)|);
      }
    }
  }

  lemma PrefixOfJoin(elems: seq<string>, n: nat)
    requires 0 < n <= |elems|
    ensures Join(elems[..n], '/') <= Join(elems, '/')
  {
    hide Join;
    if n < |elems| {
      JoinConcat(elems[..n], elems[n..], '/');
      assert elems[..n] + elems[n..] == elems;
    } else {
      assert elems[..n] == elems;
    }
  }

  /** The elements of a well-formed revision's API version and kind. */
  lemma FirstElements(r: Revision)
    requires r.WellFormed()
    ensures Elements(r.apiVersion) == Split(r.apiVersion, '/') && Elements(r.kind) == [r.kind]
    ensures r.ResourceElements() == Elements(r.apiVersion) + Elements(r.kind) + Elements(r.namespace) + [r.name]
    ensures AllOrdinary(r.ResourceElements())
  {
    ResourceElementsOrdinary(r);
    SplitWithoutSeparator(r.kind, '/');
  }

  lemma FlatTwo(a: string, b: string)
    ensures FlatElements([a, b]) == Elements(a) + Elements(b)
  {
    hide Elements;
    assert [a, b][1..] == [b] && [b][1..] == [];
    assert FlatElements([b]) == Elements(b);
  }

  lemma FlatThree(a: string, b: string, c: string)
    ensures FlatElements([a, b, c]) == Elements(a) + Elements(b) + Elements(c)
  {
    hide Elements;
    FlatTwo(b, c);
    assert [a, b, c][1..] == [b, c];
    assert FlatElements([a, b, c]) == Elements(a) + FlatElements([b, c]);
  }

  lemma KindPrefix(r: Revision)
    requires r.WellFormed()
    ensures
      var n := |Split(r.apiVersion, '/')|;
      JoinPath([r.apiVersion, r.kind]) == Join(r.ResourceElements()[..n + 1], '/')
  {
    hide Revision.WellFormed, Revision.ResourceElements, Split, Join, JoinPath, Elements, FlatElements, Ordinary;
    FirstElements(r);
    FlatTwo(r.apiVersion, r.kind);
    var first := Elements(r.apiVersion) + Elements(r.kind);
    assert first == r.ResourceElements()[..|Split(r.apiVersion, '/')| + 1];
    assert AllOrdinary(first);
    JoinPathPlain([r.apiVersion, r.kind]);
  }

  lemma NamespacePrefix(r: Revision)
    requires r.WellFormed()
    ensures
      var n := |Split(r.apiVersion, '/')| + 1 + |Elements(r.namespace)|;
      JoinPath([r.apiVersion, r.kind, r.namespace]) == Join(r.ResourceElements()[..n], '/')
  {
    hide Revision.WellFormed, Revision.ResourceElements, Split, Join, JoinPath, Elements, FlatElements, Ordinary;
    FirstElements(r);
    FlatThree(r.apiVersion, r.kind, r.namespace);
    var first := Elements(r.apiVersion) + Elements(r.kind) + Elements(r.namespace);
    assert first == r.ResourceElements()[..|Split(r.apiVersion, '/')| + 1 + |Elements(r.namespace)|];
    assert AllOrdinary(first);
    JoinPathPlain([r.apiVersion, r.kind, r.namespace]);
  }

  lemma VisitStoreKey(o: StateOptions, res: Revs, key: string)
    requires '/' !in key || Printed(key)
    ensures '/' !in key ==> VisitPath(o, res, key) == Visit(res, Continue)
    ensures Printed(key) ==> Parse(key).Some? && VisitPath(o, res, key) == VisitRevision(o, res, Parse(key).value)
  {
    hide VisitRevision;
    if '/' !in key {
      DirOfRootFile(key);
    }
    if Printed(key) {
      var r := PrintedParses(key);
    }
  }

  /** The revision a key stands for is not of the objects asked for. */
  ghost predicate Unselected(o: StateOptions, key: string) {
    '/' !in key || (Printed(key) && Parse(key).Some? && !Selects(o, Parse(key).value))
  }

  lemma UnselectedIsIdle(o: StateOptions, key: string, res: Revs)
    requires Unselected(o, key)
    ensures Idle(Visitor(o), res, key)
  {
    VisitStoreKey(o, res, key);
  }

  lemma OutsideRootIsUnselected(o: StateOptions, key: string)
    requires '/' !in key || Printed(key)
    requires !(Root(o) <= key)
    ensures Unselected(o, key)
  {
    if Printed(key) {
      var r := PrintedParses(key);
      if Selects(o, r) {
        SelectedAreUnderRoot(o, r);
      }
    }
  }

  /** A skipped key's whole directory belongs to the same, unselected object. */
  lemma SkippedIsUnselected(o: StateOptions, res: Revs, p: string, q: string)
    requires ('/' !in p || Printed(p)) && ('/' !in q || Printed(q))
    requires VisitPath(o, res, p).signal == SkipDir && Dir(p) == Dir(q)
    ensures Unselected(o, q)
  {
    hide VisitPath, VisitRevision, Selects, Dir, Parse, Revision.Key, Revision.ResourceKey, Revision.WellFormed,
         Revision.Seconds, Printed;
    VisitStoreKey(o, res, p);
    var a := PrintedParses(p);
    SkipMeansUnselected(o, res, a);
    if Printed(q) {
      var b := PrintedParses(q);
      ResourceKeyInjective(a, b);
      SelectsObject(o, a, b);
    } else {
      DirOfRootFile(q);
    }
  }

  lemma SkipMeansUnselected(o: StateOptions, res: Revs, rev: Revision)
    requires VisitRevision(o, res, rev).signal == SkipDir
    ensures !Selects(o, rev)
  {
    hide Revision.ResourceKey;
  }

  lemma RevisionSkipsIff(o: StateOptions, res: Revs, r: Revision)
    ensures VisitRevision(o, res, r).signal == SkipDir <==>
      || (o.apiVersion != "" && r.apiVersion != o.apiVersion)
      || (o.kind != "" && r.kind != o.kind)
      || (o.namespace != "" && !o.allNamespaces && r.namespace != o.namespace)
      || (o.name != "" && r.name != o.name)
  {
    hide Revision.ResourceKey;
  }

  /** The walk skips a printed key's directory exactly when the options do not name the key's object. */
  lemma SkipsIff(o: StateOptions, res: Revs, r: Revision)
    requires r.WellFormed()
    ensures VisitPath(o, res, r.Key()).signal == SkipDir <==>
      || (o.apiVersion != "" && r.apiVersion != o.apiVersion)
      || (o.kind != "" && r.kind != o.kind)
      || (o.namespace != "" && !o.allNamespaces && r.namespace != o.namespace)
      || (o.name != "" && r.name != o.name)
  {
    hide Parse, Revision.Key, Revision.WellFormed, VisitPath, VisitRevision;
    RoundTrip(r);
    VisitStoreKey(o, res, r.Key());
    RevisionSkipsIff(o, res, r.Seconds());
  }

  lemma SelectsObject(o: StateOptions, a: Revision, b: Revision)
    requires SameObject(a, b)
    ensures Selects(o, a) == Selects(o, b)
  {
  }

  lemma SkipsOnlyUnselected(listing: seq<string>, o: StateOptions)
    requires StoreListing(listing)
    ensures SkipsWholeDirectories(Listed(listing, Root(o)), Visitor(o))
  {
    hide VisitPath, Dir, Unselected;
    forall s, p, s', q | p in Listed(listing, Root(o)) && q in Listed(listing, Root(o)) &&
        Visitor(o)(s, p).signal == SkipDir && Dir(p) == Dir(q)
      ensures Idle(Visitor(o), s', q)
    {
      SkippedIsUnselected(o, s, p, q);
      UnselectedIsIdle(o, q, s');
    }
  }

  /** Starting at the prefix and skipping directories changes nothing. */
  lemma PruningIsTransparent(listing: seq<string>, o: StateOptions)
    requires StoreListing(listing)
    ensures
      var end := WalkKeys(Listed(listing, Root(o)), map[], Visitor(o));
      (end.state, end.ok) == Scan(listing, map[], Visitor(o))
  {
    hide VisitPath, Dir, Unselected, Idle, WalkKeys, Scan, Root;
    SkipsOnlyUnselected(listing, o);
    SkippingIsTransparent(Listed(listing, Root(o)), map[], Visitor(o));
    forall k, s' | k in listing && !(Root(o) <= k)
      ensures Idle(Visitor(o), s', k)
    {
      OutsideRootIsUnselected(o, k);
      UnselectedIsIdle(o, k, s');
    }
    NarrowingIsTransparent(listing, Root(o), map[], Visitor(o));
  }

  // ---- the scan's answer ----

  lemma MatchingLast(listing: seq<string>, key: string, o: StateOptions, resourceKey: string)
    requires '/' !in key || Printed(key)
    ensures Printed(key) ==> Parse(key).Some?
    ensures Matching(listing + [key], o, resourceKey) ==
      Matching(listing, o, resourceKey) +
        if '/' in key && Matches(o, Parse(key).value) && Parse(key).value.ResourceKey() == resourceKey
        then [Parse(key).value] else []
  {
    assert (listing + [key])[..|listing|] == listing;
    if Printed(key) {
      var r := PrintedParses(key);
    }
  }

  lemma FirstNewestLast(revs: seq<Revision>, best: Revision, r: Revision)
    requires FirstNewest(revs, best)
    ensures FirstNewest(revs + [r], if best.nanos < r.nanos then r else best)
  {
    var i :| 0 <= i < |revs| && revs[i] == best &&
      forall j :: 0 <= j < |revs| ==> revs[j].nanos <= best.nanos && (j < i ==> revs[j].nanos < best.nanos);
    var k := if best.nanos < r.nanos then |revs| else i;
    assert (revs + [r])[k] == if best.nanos < r.nanos then r else best;
  }

  lemma AnswerGrows(o: StateOptions, res: Revs, rev: Revision, resourceKey: string, revs: seq<Revision>)
    requires Answers(o, res, resourceKey, revs)
    ensures
      var v := VisitRevision(o, res, rev);
      v.signal != Fail ==>
        Answers(o, v.state, resourceKey,
                revs + if Matches(o, rev) && rev.ResourceKey() == resourceKey then [rev] else [])
  {
    hide Revision.ResourceKey;
    assert revs + [] == revs;
    if Matches(o, rev) && rev.ResourceKey() == resourceKey && !o.allRevisions {
      if revs == [] {
        assert (revs + [rev])[0] == rev;
      } else {
        FirstNewestLast(revs, res[resourceKey][0], rev);
      }
    }
  }

  /** Only a candidate whose content does not load fails the walk, and in all-revisions mode any such does. */
  lemma VisitFails(o: StateOptions, res: Revs, rev: Revision)
    ensures VisitRevision(o, res, rev).signal == Fail ==> Candidate(o, rev) && LabelMatch(o, rev) == None
    ensures o.allRevisions && Candidate(o, rev) && LabelMatch(o, rev) == None ==>
      VisitRevision(o, res, rev).signal == Fail
  {
    hide Revision.ResourceKey;
  }

  lemma LoadsLast(before: seq<string>, last: string, o: StateOptions)
    ensures Loads(before + [last], o) <==> Loads(before, o) && Loads([last], o)
  {
    hide Parse, Candidate, LabelMatch;
    forall k
      ensures k in before + [last] <==> k in before || k in [last]
    {
    }
  }

  lemma NothingAnswered(o: StateOptions, resourceKey: string)
    ensures Answers(o, map[], resourceKey, Matching([], o, resourceKey))
  {
  }

  lemma {:induction false} ScanAnswers(listing: seq<string>, o: StateOptions, resourceKey: string)
    requires StoreListing(listing)
    ensures
      var (res, ok) := Scan(listing, map[], Visitor(o));
      ok ==> Answers(o, res, resourceKey, Matching(listing, o, resourceKey))
  {
    hide VisitPath, VisitRevision, Matching, Answers, Matches, Parse, Printed, Revision.Key, Revision.ResourceKey,
         Revision.WellFormed, Revision.Seconds;
    if |listing| == 0 {
      NothingAnswered(o, resourceKey);
      assert listing == [];
    } else {
      var before, last := listing[..|listing| - 1], listing[|listing| - 1];
      assert forall k :: k in before ==> k in listing;
      assert last in listing && before + [last] == listing;
      ScanAnswers(before, o, resourceKey);
      var res := Scan(before, map[], Visitor(o)).0;
      VisitStoreKey(o, res, last);
      MatchingLast(before, last, o, resourceKey);
      assert Matching(before, o, resourceKey) + [] == Matching(before, o, resourceKey);
      if Scan(before, map[], Visitor(o)).1 && Printed(last) {
        var r := PrintedParses(last);
        AnswerGrows(o, res, r, resourceKey, Matching(before, o, resourceKey));
      }
    }
  }

  /** The scan succeeds if every candidate's content loads, and in all-revisions mode only then. */
  lemma {:induction false} ScanSucceeds(listing: seq<string>, o: StateOptions)
    requires StoreListing(listing)
    ensures Loads(listing, o) ==> Scan(listing, map[], Visitor(o)).1
    ensures o.allRevisions && Scan(listing, map[], Visitor(o)).1 ==> Loads(listing, o)
  {
    hide VisitPath, VisitRevision, Candidate, LabelMatch, Parse, Printed, Revision.Key, Revision.ResourceKey,
         Revision.WellFormed, Revision.Seconds;
    if |listing| > 0 {
      hide Loads;
      var before, last := listing[..|listing| - 1], listing[|listing| - 1];
      assert forall k :: k in before ==> k in listing;
      assert last in listing && before + [last] == listing;
      ScanSucceeds(before, o);
      var res := Scan(before, map[], Visitor(o)).0;
      VisitStoreKey(o, res, last);
      LoadsLast(before, last, o);
      OneLoads(last, o);
      if Printed(last) {
        var r := PrintedParses(last);
        VisitFails(o, res, r);
      }
    } else {
      assert Loads(listing, o);
    }
  }

  lemma OneLoads(key: string, o: StateOptions)
    requires '/' !in key || Printed(key)
    ensures Printed(key) ==> Parse(key).Some? && '/' in key
    ensures Loads([key], o) <==>
      '/' !in key || !Candidate(o, Parse(key).value) || LabelMatch(o, Parse(key).value).Some?
  {
    hide Parse, Candidate, LabelMatch;
    if Printed(key) {
      var r := PrintedParses(key);
    }
    assert key in [key];
  }

  /**
   * State's pruned walk answers like a filter over all keys: in all-revisions mode every match in listing
   * order, in single mode the first-listed match of greatest timestamp, and nothing for other objects. It
   * fails only if a candidate's content does not load, and in all-revisions mode exactly then.
   */
  lemma StateIsFilter(listing: seq<string>, o: StateOptions, resourceKey: string)
    requires StoreListing(listing)
    ensures
      var end := WalkKeys(Listed(listing, Root(o)), map[], Visitor(o));
      && (end.ok ==> Answers(o, end.state, resourceKey, Matching(listing, o, resourceKey)))
      && (Loads(listing, o) ==> end.ok) && (o.allRevisions && end.ok ==> Loads(listing, o))
  {
    hide Loads, Answers, Matching, Scan, WalkKeys;
    PruningIsTransparent(listing, o);
    ScanAnswers(listing, o, resourceKey);
    ScanSucceeds(listing, o);
  }

  // ---- what is asked for ----

  /** A stored revision that fits the options but for the selector, by their fields. */
  ghost predicate Fits(listing: seq<string>, o: StateOptions, r: Revision) {
    && r.WellFormed() && r.Seconds() == r && r.Key() in listing
    && (o.apiVersion != "" ==> r.apiVersion == o.apiVersion)
    && (o.kind != "" ==> r.kind == o.kind)
    && (o.namespace != "" && !o.allNamespaces ==> r.namespace == o.namespace)
    && (o.name != "" ==> r.name == o.name)
    && (o.onlyDeleted ==> r.deleted)
    && (o.time.Some? ==> r.nanos < o.time.value)
  }

  /** A stored revision that is asked for: it fits, and the selector, if there is one, says yes to it. */
  ghost predicate Asked(listing: seq<string>, o: StateOptions, r: Revision) {
    Fits(listing, o, r) &&
    (o.selector.Everything? || (o.selector.Labelled? && o.selector.says(r) == Some(true)))
  }

  lemma {:induction false} MatchingMembers(listing: seq<string>, o: StateOptions, resourceKey: string, r: Revision)
    requires StoreListing(listing)
    ensures r in Matching(listing, o, resourceKey) <==>
      && r.WellFormed() && r.Seconds() == r && r.Key() in listing
      && Matches(o, r) && r.ResourceKey() == resourceKey
  {
    hide Revision.Key, Revision.ResourceKey, Revision.Seconds, Revision.WellFormed, Parse, Matching, Matches, Printed;
    if |listing| == 0 {
      NothingMatching(o, resourceKey);
      assert listing == [];
    } else {
      var before, last := listing[..|listing| - 1], listing[|listing| - 1];
      assert forall k :: k in before ==> k in listing;
      assert last in listing && before + [last] == listing;
      MatchingMembers(before, o, resourceKey, r);
      MatchingLast(before, last, o, resourceKey);
      if '/' in last {
        KeyNames(last, r);
      } else {
        NoRootFile(last);
      }
    }
  }

  lemma NothingMatching(o: StateOptions, resourceKey: string)
    ensures Matching([], o, resourceKey) == []
  {
  }

  lemma AskedIff(listing: seq<string>, o: StateOptions, r: Revision)
    ensures Asked(listing, o, r) <==>
      r.WellFormed() && r.Seconds() == r && r.Key() in listing && Matches(o, r)
  {
    hide Revision.Key, Revision.Seconds, Revision.WellFormed;
  }

  lemma LoadsIff(listing: seq<string>, o: StateOptions)
    requires StoreListing(listing)
    ensures o.selector.Everything? ==> Loads(listing, o)
    ensures o.selector.Labelled? ==>
      (Loads(listing, o) <==> forall r :: Fits(listing, o, r) ==> o.selector.says(r).Some?)
  {
    hide Parse, Revision.Key, Revision.Seconds, Revision.WellFormed, Printed;
    forall k | k in listing && '/' in k
      ensures Parse(k).Some? ==> (Fits(listing, o, Parse(k).value) <==> Candidate(o, Parse(k).value))
    {
      var r := PrintedParses(k);
      KeyNames(k, r);
    }
    forall r | Fits(listing, o, r)
      ensures '/' in r.Key() && Parse(r.Key()) == Some(r)
    {
      KeyParses(r);
    }
  }

  lemma KeyParses(r: Revision)
    requires r.WellFormed() && r.Seconds() == r
    ensures '/' in r.Key() && Parse(r.Key()) == Some(r)
  {
    RoundTrip(r);
    KeyDirectory(r);
  }

  /**
   * The query has an entry for an object exactly when a stored revision of it is asked for. The entry holds
   * only such revisions: all of them, or one than which none is later. Without a selector the query cannot
   * fail; with one it succeeds if the content of whatever fits loads, and in all-revisions mode only then.
   */
  lemma EntryIff(listing: seq<string>, o: StateOptions, resourceKey: string)
    requires StoreListing(listing)
    ensures
      var end := WalkKeys(Listed(listing, Root(o)), map[], Visitor(o));
      && (o.selector.Everything? ==> end.ok)
      && (o.selector.Labelled? && (forall r :: Fits(listing, o, r) ==> o.selector.says(r).Some?) ==> end.ok)
      && (o.selector.Labelled? && o.allRevisions && end.ok ==>
            forall r :: Fits(listing, o, r) ==> o.selector.says(r).Some?)
      && (end.ok ==>
            && (resourceKey in end.state <==> exists r :: Asked(listing, o, r) && r.ResourceKey() == resourceKey)
            && (resourceKey in end.state ==> EntryAsked(listing, o, resourceKey, end.state[resourceKey])))
  {
    hide Revision.Key, Revision.ResourceKey, Revision.Seconds, Revision.WellFormed, Parse, Matching, WalkKeys, Listed,
         FirstNewest, Root, Visitor, Matches, Loads, Asked, Fits;
    StateIsFilter(listing, o, resourceKey);
    LoadsIff(listing, o);
    forall r
      ensures r in Matching(listing, o, resourceKey) <==> Asked(listing, o, r) && r.ResourceKey() == resourceKey
    {
      MatchingMembers(listing, o, resourceKey, r);
      AskedIff(listing, o, r);
    }
    var end := WalkKeys(Listed(listing, Root(o)), map[], Visitor(o));
    if end.ok {
      AnswerMembers(o, end.state, resourceKey, Matching(listing, o, resourceKey));
    }
  }

  ghost predicate EntryAsked(listing: seq<string>, o: StateOptions, resourceKey: string, entry: seq<Revision>) {
    && (forall r :: r in entry ==> Asked(listing, o, r) && r.ResourceKey() == resourceKey)
    && (if o.allRevisions then
          forall r :: Asked(listing, o, r) && r.ResourceKey() == resourceKey ==> r in entry
        else
          |entry| == 1 &&
          forall r :: Asked(listing, o, r) && r.ResourceKey() == resourceKey ==> r.nanos <= entry[0].nanos)
  }

  /** An entry of the answer, told by its members. */
  lemma AnswerMembers(o: StateOptions, res: Revs, resourceKey: string, revs: seq<Revision>)
    requires Answers(o, res, resourceKey, revs)
    ensures resourceKey in res <==> exists r :: r in revs
    ensures resourceKey in res ==> forall r :: r in res[resourceKey] ==> r in revs
    ensures resourceKey in res && o.allRevisions ==> forall r :: r in revs ==> r in res[resourceKey]
    ensures resourceKey in res && !o.allRevisions ==>
      |res[resourceKey]| == 1 && forall r :: r in revs ==> r.nanos <= res[resourceKey][0].nanos
  {
    if revs != [] {
      assert revs[0] in revs;
    }
  }

  // ---- other keys ----

  /** A leading slash makes no difference to a printed key. */
  lemma SlashIsTrimmed(o: StateOptions, res: Revs, key: string)
    requires Printed(key)
    ensures VisitPath(o, res, "/" + key) == VisitPath(o, res, key)
  {
    hide VisitRevision, Parse;
    VisitStoreKey(o, res, key);
    DirOfRooted(key);
    assert ("/" + key)[1..] == key;
  }

  /**
   * A key that is none of a revision fails the query, unless it lies at the bucket's root, outside the prefix,
   * or in a directory that may have been skipped.
   */
  lemma MalformedFails(before: seq<string>, bad: string, after: seq<string>, o: StateOptions)
    requires StoreListing(before) && Root(o) <= bad
    requires bad != "" && bad[0] != '/' && '/' in bad && Parse(bad) == None
    requires forall k :: k in before ==> Dir(k) != Dir(bad)
    requires Dir(bad) != "" && Dir(bad) != "."
    ensures !WalkKeys(Listed(before + [bad] + after, Root(o)), map[], Visitor(o)).ok
  {
    hide Parse, Dir, VisitRevision, Root;
    SkipsOnlyUnselected(before, o);
    SkippingIsTransparent(Listed(before, Root(o)), map[], Visitor(o));
    ListedConcat(before, [bad], Root(o));
    ListedConcat(before + [bad], after, Root(o));
    assert Listed([bad], Root(o)) == [bad];
    var keys := Listed(before, Root(o)) + [bad];
    assert keys[..|keys| - 1] == Listed(before, Root(o));
    assert VisitPath(o, WalkKeys(Listed(before, Root(o)), map[], Visitor(o)).state, bad).signal == Fail;
    assert !WalkKeys(keys, map[], Visitor(o)).ok;
    var all := keys + Listed(after, Root(o));
    assert all[..|keys|] == keys;
    FailureStays(all, map[], Visitor(o), |keys|);
  }

  /** The walk that State makes over a bucket. */
  method State(listing: seq<string>, cut: Option<nat>, o: StateOptions) returns (res: Revs, ok: bool)
    ensures
      var keys := Listed(listing, Root(o));
      var end := WalkKeys(Yielded(keys, cut), map[], Visitor(o));
      && ok == (!o.selector.Malformed? && !Breaks(keys, cut) && end.ok)
      && res == if o.selector.Malformed? then map[] else end.state
    ensures StoreListing(listing) && ok ==>
      (o.allRevisions ==> Loads(listing, o)) && forall key :: Answers(o, res, key, Matching(listing, o, key))
    ensures
      StoreListing(listing) && !o.selector.Malformed? && !Breaks(Listed(listing, Root(o)), cut) && Loads(listing, o)
      ==> ok
  {
    hide Answers, Matching, WalkKeys, Loads;
    if o.selector.Malformed? {
      return map[], false;
    }
    res, ok := WalkBucket(listing, cut, Root(o), map[], Visitor(o));
    if StoreListing(listing) && !Breaks(Listed(listing, Root(o)), cut) {
      StateIsFilter(listing, o, "");
      forall key
        ensures ok ==> Answers(o, res, key, Matching(listing, o, key))
      {
        StateIsFilter(listing, o, key);
      }
    }
  }
}
