/**
 * The reaper on the plain store, which lists an object's revisions in the textual order of their keys, so the
 * last one listed need not be the newest: exactly what it reaps, and exactly when it spares the newest.
 */
module Uncached {
  import opened Strings
  import opened TextOrder
  import opened Revisions
  import opened PendingCache
  import opened Walk
  import opened StateWalk
  import opened Reaper
  import B = BackendStore

  /** The reaper's query. */
  const REAP_OPTIONS := StateOptions("", "", "", true, "", None, true, false, Everything)

  /** The answer of the plain store to the reaper's query. */
  function PlainState(listing: seq<string>): Revs {
    WalkKeys(Listed(listing, Root(REAP_OPTIONS)), map[], StateWalk.Visitor(REAP_OPTIONS)).state
  }

  /** The object's revisions in the answer. */
  function Entry(listing: seq<string>, resourceKey: string): seq<Revision> {
    Matching(listing, REAP_OPTIONS, resourceKey)
  }

  ghost predicate PlainReaps(listing: seq<string>, threshold: Threshold, r: Revision) {
    exists k, i :: SelectedAt(PlainState(listing), threshold, r, k, i)
  }

  /** One cycle on the plain store; an error of its State query ends the cycle. */
  method RunPlain(listing: seq<string>, cut: Option<nat>, p: RevisionCache, threshold: Threshold)
    returns (revsToReap: seq<Revision>, ok: bool)
    modifies p
    ensures StoreListing(listing) && !Breaks(Listed(listing, Root(REAP_OPTIONS)), cut) ==> ok
    ensures ok ==> forall r :: r in revsToReap <==> PlainReaps(listing, threshold, r)
    ensures p.m == if ok then PutAll(old(p.m), p.keyFunc, revsToReap) else old(p.m)
  {
    hide SelectedAt, WalkKeys;
    revsToReap := [];
    var state;
    state, ok := State(listing, cut, REAP_OPTIONS);
    if !ok {
      return;
    }
    assert state == PlainState(listing);
    revsToReap := SelectRevisions(state, threshold);
    QueueAll(p, revsToReap);
  }

  // ---- what is reaped, by the listing ----

  ghost predicate StoredIn(listing: seq<string>, r: Revision) {
    r.WellFormed() && r.Seconds() == r && r.Key() in listing
  }

  /** A key of the same object is listed after the revision's. */
  ghost predicate Superseded(listing: seq<string>, r: Revision) {
    exists i, j, q: Revision ::
      0 <= i < j < |listing| && listing[i] == r.Key() && listing[j] == q.Key() && q.WellFormed() && SameObject(q, r)
  }

  ghost predicate KeyOfObject(key: string, r: Revision) {
    exists q: Revision :: q.Key() == key && q.WellFormed() && SameObject(q, r)
  }

  lemma SupersededLast(before: seq<string>, last: string, r: Revision)
    ensures Superseded(before + [last], r) <==>
            Superseded(before, r) || (r.Key() in before && KeyOfObject(last, r))
  {
    hide Revision.Key, Revision.WellFormed;
    var listing := before + [last];
    if Superseded(listing, r) {
      var i, j, q: Revision :| 0 <= i < j < |listing| && listing[i] == r.Key() && listing[j] == q.Key() &&
        q.WellFormed() && SameObject(q, r);
      assert listing[i] == before[i];
      assert j < |before| ==> listing[j] == before[j];
    }
    if Superseded(before, r) {
      var i, j, q: Revision :| 0 <= i < j < |before| && before[i] == r.Key() && before[j] == q.Key() &&
        q.WellFormed() && SameObject(q, r);
      assert listing[i] == before[i] && listing[j] == before[j];
    }
    if r.Key() in before && KeyOfObject(last, r) {
      var i :| 0 <= i < |before| && before[i] == r.Key();
      assert listing[i] == before[i] && listing[|before|] == last;
    }
  }

  /** The key adds to the object's entry exactly when it is a key of the object. */
  lemma EntryLast(before: seq<string>, last: string, r: Revision)
    requires '/' !in last || Printed(last)
    requires r.WellFormed() && r.Seconds() == r
    ensures
      var entry, longer := Entry(before, r.ResourceKey()), Entry(before + [last], r.ResourceKey());
      if KeyOfObject(last, r) then
        exists q: Revision :: longer == entry + [q] && (q == r <==> last == r.Key())
      else longer == entry && last != r.Key()
  {
    hide Revision.Key, Revision.ResourceKey, Revision.Seconds, Revision.WellFormed, Parse, Matching;
    MatchingLast(before, last, REAP_OPTIONS, r.ResourceKey());
    if '/' in last {
      var q := PrintedParses(last);
      ResourceKeyInjective(q, r);
      KeyNames(last, r);
      if p: Revision :| p.Key() == last && p.WellFormed() && SameObject(p, r) {
        KeyInjective(p, q);
        B.SecondsFields(p);
      }
    } else {
      NoRootFile(last);
      assert r.Key() != last;
      assert Entry(before, r.ResourceKey()) + [] == Entry(before, r.ResourceKey());
    }
  }

  /** The entry holds a stored revision, and holds it before its end exactly when it is superseded. */
  lemma {:induction false} EntryHolds(listing: seq<string>, r: Revision)
    requires StoreListing(listing) && r.WellFormed() && r.Seconds() == r
    ensures
      var entry := Entry(listing, r.ResourceKey());
      && (r in entry <==> r.Key() in listing)
      && (entry != [] && r in entry[..|entry| - 1] <==> Superseded(listing, r))
  {
    hide Revision.Key, Revision.ResourceKey, Revision.Seconds, Revision.WellFormed, Entry, Superseded, KeyOfObject;
    if |listing| == 0 {
      NothingListed(r);
      assert listing == [];
    } else {
      var before, last := listing[..|listing| - 1], listing[|listing| - 1];
      assert forall k :: k in before ==> k in listing;
      assert last in listing && before + [last] == listing;
      EntryHolds(before, r);
      EntryLast(before, last, r);
      SupersededLast(before, last, r);
      var entry := Entry(before, r.ResourceKey());
      if KeyOfObject(last, r) {
        var q: Revision :| Entry(listing, r.ResourceKey()) == entry + [q] && (q == r <==> last == r.Key());
        assert (entry + [q])[..|entry|] == entry;
      }
    }
  }

  lemma NothingListed(r: Revision)
    ensures Entry([], r.ResourceKey()) == [] && !Superseded([], r)
  {
  }

  /** What the reaper's condition makes of one object's list. */
  lemma ReapsIff(revs: seq<Revision>, threshold: Threshold, r: Revision)
    ensures (exists i :: 0 <= i < |revs| && revs[i] == r && ReapsAt(revs, threshold, i)) <==>
            Aged(threshold, r) && if r.deleted then r in revs else revs != [] && r in revs[..|revs| - 1]
  {
    if Aged(threshold, r) && r.deleted && r in revs {
      var i :| 0 <= i < |revs| && revs[i] == r;
      assert ReapsAt(revs, threshold, i);
    }
    if Aged(threshold, r) && !r.deleted && revs != [] && r in revs[..|revs| - 1] {
      var i :| 0 <= i < |revs| - 1 && revs[..|revs| - 1][i] == r;
      assert revs[i] == r && ReapsAt(revs, threshold, i);
    }
  }

  lemma {:induction false} EntryMembers(listing: seq<string>, resourceKey: string, r: Revision)
    requires StoreListing(listing) && r in Entry(listing, resourceKey)
    ensures r.WellFormed() && r.Seconds() == r && r.ResourceKey() == resourceKey
  {
    hide Revision.Key, Revision.ResourceKey, Revision.Seconds, Revision.WellFormed, Parse;
    if |listing| > 0 {
      var before, last := listing[..|listing| - 1], listing[|listing| - 1];
      assert forall k :: k in before ==> k in listing;
      assert last in listing && before + [last] == listing;
      MatchingLast(before, last, REAP_OPTIONS, resourceKey);
      if r in Entry(before, resourceKey) {
        EntryMembers(before, resourceKey, r);
      } else {
        var p := PrintedParses(last);
      }
    }
  }

  /** The answer's entries are those of the objects that have keys. */
  lemma EntryOf(listing: seq<string>, k: string)
    requires StoreListing(listing)
    ensures k in PlainState(listing) <==> Entry(listing, k) != []
    ensures k in PlainState(listing) ==> PlainState(listing)[k] == Entry(listing, k)
  {
    StateIsFilter(listing, REAP_OPTIONS, k);
  }

  /**
   * Of any store listing the reaper selects exactly the aged stored revisions that are deleted or have a key of
   * their object listed after them.
   */
  lemma PlainReapsIff(listing: seq<string>, threshold: Threshold, r: Revision)
    requires StoreListing(listing)
    ensures PlainReaps(listing, threshold, r) <==>
            StoredIn(listing, r) && Aged(threshold, r) && (r.deleted || Superseded(listing, r))
  {
    hide Revision.Key, Revision.ResourceKey, Revision.Seconds, Revision.WellFormed, PlainState, Entry, Superseded,
         ReapsAt, Aged;
    var key := r.ResourceKey();
    EntryOf(listing, key);
    ReapsIff(Entry(listing, key), threshold, r);
    if r.WellFormed() && r.Seconds() == r {
      EntryHolds(listing, r);
    }
    if k, i :| SelectedAt(PlainState(listing), threshold, r, k, i) {
      EntryOf(listing, k);
      EntryMembers(listing, k, r);
    }
    var entry := Entry(listing, key);
    if i :| 0 <= i < |entry| && entry[i] == r && ReapsAt(entry, threshold, i) {
      EntryMembers(listing, key, r);
      assert SelectedAt(PlainState(listing), threshold, r, key, i);
    }
  }

  // ---- what is reaped, by the numbers printed ----

  /** The listing is in textual order, as a bucket's is. */
  ghost predicate InOrder(listing: seq<string>) {
    forall i, j :: 0 <= i < j < |listing| ==> Before(listing[i], listing[j])
  }

  ghost predicate PrintedLater(listing: seq<string>, r: Revision)
    requires r.WellFormed()
  {
    exists q: Revision :: q.WellFormed() && q.Key() in listing && SameObject(q, r) && PrintsBefore(r, q)
  }

  lemma SupersededIff(listing: seq<string>, r: Revision)
    requires InOrder(listing) && StoredIn(listing, r)
    ensures Superseded(listing, r) <==> PrintedLater(listing, r)
  {
    hide Revision.Key, Revision.Seconds, Revision.WellFormed, PrintsBefore, Before;
    if Superseded(listing, r) {
      var i, j, q: Revision :| 0 <= i < j < |listing| && listing[i] == r.Key() && listing[j] == q.Key() &&
        q.WellFormed() && SameObject(q, r);
      assert Before(listing[i], listing[j]);
      KeyOrder(r, q);
    }
    if q: Revision :| q.WellFormed() && q.Key() in listing && SameObject(q, r) && PrintsBefore(r, q) {
      KeyOrder(r, q);
      var i, j :| 0 <= i < |listing| && 0 <= j < |listing| && listing[i] == r.Key() && listing[j] == q.Key();
      BeforeIsTotal(listing[i], listing[j]);
      assert i < j;
    }
  }

  /**
   * Of a listing in textual order the reaper selects exactly the aged stored revisions that are deleted or come
   * before another of their object in the order of the numbers as printed: by version, then by second.
   */
  lemma PlainReapsByNumber(listing: seq<string>, threshold: Threshold, r: Revision)
    requires StoreListing(listing) && InOrder(listing)
    ensures PlainReaps(listing, threshold, r) <==>
            StoredIn(listing, r) && Aged(threshold, r) && (r.deleted || PrintedLater(listing, r))
  {
    hide PlainReaps, Superseded, PrintedLater, Revision.Key, Revision.Seconds, Revision.WellFormed, Aged;
    PlainReapsIff(listing, threshold, r);
    if StoredIn(listing, r) {
      SupersededIff(listing, r);
    }
  }

  /** The revision has the greatest version stored of its object, and is the only one of it. */
  ghost predicate NewestAlone(listing: seq<string>, r: Revision) {
    StoredIn(listing, r) && !r.deleted &&
    forall q: Revision :: q.WellFormed() && q.Key() in listing && SameObject(q, r) && q.Key() != r.Key() ==>
      q.resourceVersion < r.resourceVersion
  }

  /** `q`'s version has fewer digits than `r`'s and comes textually after it. */
  predicate PrintsShorterAfter(r: Revision, q: Revision)
    requires r.WellFormed() && q.WellFormed()
  {
    |Digits(q.resourceVersion)| < |Digits(r.resourceVersion)| &&
    Before(Digits(r.resourceVersion), Digits(q.resourceVersion))
  }

  /** A stored version of the object has fewer digits and comes textually after this revision's. */
  ghost predicate ShorterAfter(listing: seq<string>, r: Revision)
    requires r.WellFormed()
  {
    exists q: Revision :: q.WellFormed() && q.Key() in listing && SameObject(q, r) && PrintsShorterAfter(r, q)
  }

  /**
   * The plain store breaks the promise never to purge the last live revision exactly when the newest has aged
   * and an older version with fewer digits is textually after it.
   */
  lemma NewestReapedIff(listing: seq<string>, threshold: Threshold, r: Revision)
    requires StoreListing(listing) && InOrder(listing) && NewestAlone(listing, r)
    ensures PlainReaps(listing, threshold, r) <==> Aged(threshold, r) && ShorterAfter(listing, r)
  {
    hide PlainReaps, Revision.Key, Revision.Seconds, Revision.WellFormed, Before, Aged, Digits, PrintsBefore,
         PrintsShorterAfter;
    PlainReapsByNumber(listing, threshold, r);
    if q: Revision :| q.WellFormed() && q.Key() in listing && SameObject(q, r) && PrintsBefore(r, q) {
      OlderPrintsAfter(r, q);
      KeyOrder(r, q);
      BeforeIsTotal(r.Key(), q.Key());
    }
    if q: Revision :| q.WellFormed() && q.Key() in listing && SameObject(q, r) && PrintsShorterAfter(r, q) {
      OlderPrintsAfter(r, q);
    }
  }

  lemma OlderPrintsAfter(r: Revision, q: Revision)
    requires r.WellFormed() && q.WellFormed()
    ensures PrintsShorterAfter(r, q) ==> PrintsBefore(r, q)
    ensures q.resourceVersion < r.resourceVersion && PrintsBefore(r, q) ==> PrintsShorterAfter(r, q)
  {
    hide Digits, Before;
    if q.resourceVersion < r.resourceVersion {
      DigitsGrow(q.resourceVersion, r.resourceVersion);
      if |Digits(q.resourceVersion)| == |Digits(r.resourceVersion)| {
        EquallyManyDigits(r.resourceVersion, q.resourceVersion);
      }
    }
  }

  /** As long as an object's versions have equally many digits, the plain store spares the newest one. */
  lemma EqualDigitsSpared(listing: seq<string>, threshold: Threshold, r: Revision)
    requires StoreListing(listing) && InOrder(listing) && NewestAlone(listing, r)
    requires forall q: Revision :: q.WellFormed() && q.Key() in listing && SameObject(q, r) ==>
      |Digits(q.resourceVersion)| == |Digits(r.resourceVersion)|
    ensures !PlainReaps(listing, threshold, r)
  {
    hide PlainReaps, Revision.Key, Revision.Seconds, Revision.WellFormed, Before, Aged, Digits;
    NewestReapedIff(listing, threshold, r);
  }

  // ---- versions 9 and 10 ----

  function Pod(version: nat, seconds: nat): Revision {
    Revision("v1", "Pod", "ns", "a", version, seconds * NANOS_PER_SECOND, false)
  }

  lemma PodWellFormed(version: nat, seconds: nat)
    requires IsInt64(version) && IsInt64(seconds)
    ensures Pod(version, seconds).WellFormed() && Pod(version, seconds).Seconds() == Pod(version, seconds)
  {
    SplitWithoutSeparator("v1", '/');
  }

  /** "10" is textually before "9". */
  lemma TenBeforeNine()
    ensures Before(Digits(10), Digits(9)) && |Digits(9)| < |Digits(10)|
  {
    assert Digits(10) == Digits(1) + [DigitChar(0)];
    assert Digits(1) == ['1'] && Digits(9) == ['9'];
  }

  lemma TwoKeys(a: Revision, b: Revision)
    requires a.WellFormed() && b.WellFormed()
    ensures StoreListing([a.Key(), b.Key()])
    ensures forall q: Revision :: q.WellFormed() && q.Key() in [a.Key(), b.Key()] ==>
      q.resourceVersion == a.resourceVersion || q.resourceVersion == b.resourceVersion
  {
    hide Revision.Key, Revision.WellFormed, Revision.Seconds;
    forall q: Revision | q.WellFormed() && q.Key() in [a.Key(), b.Key()]
      ensures q.resourceVersion == a.resourceVersion || q.resourceVersion == b.resourceVersion
    {
      B.SecondsFields(q);
      B.SecondsFields(a);
      B.SecondsFields(b);
      if q.Key() == a.Key() { KeyInjective(q, a); } else { KeyInjective(q, b); }
    }
  }

  /** On the plain store the reaper selects the newest live revision of an object once it has aged. */
  lemma NewestIsReaped(threshold: Threshold)
    requires forall r :: threshold(r) == Some(1000 * NANOS_PER_SECOND)
    ensures
      var ten, nine := Pod(10, 100), Pod(9, 90);
      var listing := [ten.Key(), nine.Key()];
      && StoreListing(listing) && InOrder(listing)
      && B.NewestLive({ten.Key(), nine.Key()}, ten) && PlainReaps(listing, threshold, ten)
  {
    hide Revision.Key, Revision.WellFormed, Revision.Seconds, PlainReaps, Before, Digits, PrintsBefore,
         PrintsShorterAfter;
    var ten, nine := Pod(10, 100), Pod(9, 90);
    PodWellFormed(10, 100);
    PodWellFormed(9, 90);
    TwoKeys(ten, nine);
    TenPrintsBefore(ten, nine);
    KeyOrder(ten, nine);
    assert [ten.Key(), nine.Key()][1] == nine.Key();
    PlainReapsByNumber([ten.Key(), nine.Key()], threshold, ten);
  }

  lemma TenPrintsBefore(ten: Revision, nine: Revision)
    requires ten.WellFormed() && nine.WellFormed() && ten.resourceVersion == 10 && nine.resourceVersion == 9
    ensures PrintsBefore(ten, nine)
  {
    hide Revision.WellFormed, Digits, Before;
    TenBeforeNine();
  }
}
