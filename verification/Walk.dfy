/**
 * The blob backend's Walk: it visits a bucket's keys in listing order and leaves out the rest of a
 * directory once the visitor asked to skip it.
 */
module Walk {
  import opened Strings
  import opened Paths
  import opened Revisions

  datatype Signal = Continue | SkipDir | Fail

  datatype Visit<S> = Visit(state: S, signal: Signal)

  type Visitor<!S> = (S, string) -> Visit<S>

  datatype Progress<S> = Progress(state: S, skipped: set<string>, ok: bool)

  /** The bucket's keys with the given prefix, in listing order. */
  function Listed(listing: seq<string>, root: string): (keys: seq<string>)
    ensures forall k :: k in keys <==> k in listing && root <= k
  {
    if |listing| == 0 then []
    else
      var n := |listing| - 1;
      Listed(listing[..n], root) + (if root <= listing[n] then [listing[n]] else [])
  }

  function Advance<S>(p: Progress<S>, key: string, visit: Visitor<S>): Progress<S> {
    if !p.ok || Dir(key) in p.skipped then p
    else
      var v := visit(p.state, key);
      match v.signal
      case Continue => p.(state := v.state)
      case SkipDir => p.(state := v.state, skipped := p.skipped + {Dir(key)})
      case Fail => p.(state := v.state, ok := false)
  }

  function WalkKeys<S>(keys: seq<string>, s: S, visit: Visitor<S>): Progress<S> {
    if |keys| == 0 then Progress(s, {}, true)
    else Advance(WalkKeys(keys[..|keys| - 1], s, visit), keys[|keys| - 1], visit)
  }

  /** The walk without any skipping: every key is visited. */
  function Scan<S>(keys: seq<string>, s: S, visit: Visitor<S>): (S, bool) {
    if |keys| == 0 then (s, true)
    else
      var before := Scan(keys[..|keys| - 1], s, visit);
      if !before.1 then before
      else
        var v := visit(before.0, keys[|keys| - 1]);
        (v.state, v.signal != Fail)
  }

  lemma {:induction false} FailureStays<S>(keys: seq<string>, s: S, visit: Visitor<S>, n: nat)
    requires n <= |keys| && !WalkKeys(keys[..n], s, visit).ok
    ensures WalkKeys(keys, s, visit) == WalkKeys(keys[..n], s, visit)
  {
    if n == |keys| {
      assert keys[..n] == keys;
    } else {
      var before := keys[..|keys| - 1];
      assert before[..n] == keys[..n];
      FailureStays(before, s, visit, n);
    }
  }

  /** The listing's call number `cut`, if any, fails; the call after the last key is the one that ends it. */
  predicate Breaks(keys: seq<string>, cut: Option<nat>) { cut.Some? && cut.value <= |keys| }

  /** The keys listed before the failure. */
  function Yielded(keys: seq<string>, cut: Option<nat>): seq<string> {
    if Breaks(keys, cut) then keys[..cut.value] else keys
  }

  method WalkBucket<S>(listing: seq<string>, cut: Option<nat>, root: string, s0: S, visit: Visitor<S>)
    returns (s: S, ok: bool)
    ensures
      var keys := Listed(listing, root);
      var end := WalkKeys(Yielded(keys, cut), s0, visit);
      s == end.state && ok == (end.ok && !Breaks(keys, cut))
  {
    hide Dir, Listed;
    var keys := Listed(listing, root);
    var skippedDirs := {};
    s := s0;
    for n := 0 to |keys|
      invariant cut.Some? ==> n <= cut.value
      invariant WalkKeys(keys[..n], s0, visit) == Progress(s, skippedDirs, true)
    {
      if cut == Some(n) {
        return s, false;
      }
      assert keys[..n + 1][..n] == keys[..n];
      var dir := Dir(keys[n]);
      if dir in skippedDirs {
        continue;
      }
      var v := visit(s, keys[n]);
      s := v.state;
      if v.signal == Fail {
        var yielded := Yielded(keys, cut);
        assert yielded[..n + 1] == keys[..n + 1];
        FailureStays(yielded, s0, visit, n + 1);
        return s, false;
      }
      if v.signal == SkipDir {
        skippedDirs := skippedDirs + {dir};
      }
    }
    assert keys[..|keys|] == keys;
    ok := !Breaks(keys, cut);
  }

  /** When a visitor skips a directory, it does nothing for any of the directory's keys. */
  ghost predicate SkipsWholeDirectories<S(!new)>(keys: seq<string>, visit: Visitor<S>) {
    forall s, p, s', q :: p in keys && q in keys && visit(s, p).signal == SkipDir && Dir(p) == Dir(q) ==>
      Idle(visit, s', q)
  }

  ghost predicate Idle<S>(visit: Visitor<S>, s: S, key: string) {
    visit(s, key).state == s && visit(s, key).signal != Fail
  }

  /** Then skipping directories changes nothing: the walk is the plain scan. */
  lemma {:induction false} SkippingIsTransparent<S(!new)>(keys: seq<string>, s: S, visit: Visitor<S>)
    requires SkipsWholeDirectories(keys, visit)
    ensures
      var end := WalkKeys(keys, s, visit);
      (end.state, end.ok) == Scan(keys, s, visit) &&
      forall d :: d in end.skipped ==> exists s', p :: p in keys && Dir(p) == d && visit(s', p).signal == SkipDir
  {
    if |keys| > 0 {
      var before, last := keys[..|keys| - 1], keys[|keys| - 1];
      SkippingIsTransparent(before, s, visit);
      var walked := WalkKeys(before, s, visit);
      assert last in keys;
      if Dir(last) in walked.skipped {
        var s', p :| p in before && Dir(p) == Dir(last) && visit(s', p).signal == SkipDir;
        assert Idle(visit, walked.state, last);
      }
    }
  }

  /** Keys that the visitor does nothing for may be left out of a scan. */
  lemma {:induction false} NarrowingIsTransparent<S(!new)>(
    listing: seq<string>, root: string, s: S, visit: Visitor<S>)
    requires forall k, s' :: k in listing && !(root <= k) ==> Idle(visit, s', k)
    ensures Scan(Listed(listing, root), s, visit) == Scan(listing, s, visit)
  {
    if |listing| > 0 {
      var before, last := listing[..|listing| - 1], listing[|listing| - 1];
      assert forall k :: k in before ==> k in listing;
      NarrowingIsTransparent(before, root, s, visit);
      var narrowed := Scan(Listed(before, root), s, visit);
      assert last in listing;
      if root <= last {
        ScanLast(Listed(before, root), last, s, visit);
      } else {
        assert Listed(before, root) + [] == Listed(before, root);
        assert Idle(visit, narrowed.0, last);
      }
    }
  }

  lemma ScanLast<S(!new)>(keys: seq<string>, last: string, s: S, visit: Visitor<S>)
    ensures Scan(keys + [last], s, visit) ==
      var before := Scan(keys, s, visit);
      if !before.1 then before
      else (visit(before.0, last).state, visit(before.0, last).signal != Fail)
  {
    assert (keys + [last])[..|keys|] == keys;
  }

  // ---- what a store's bucket holds ----

  /** A key that Key() prints for a well-formed revision. */
  ghost predicate Printed(key: string) {
    exists r: Revision :: r.WellFormed() && r.Key() == key
  }

  /** A store's bucket holds printed keys and files at its root, such as the config file. */
  ghost predicate StoreListing(listing: seq<string>) {
    forall k :: k in listing ==> '/' !in k || Printed(k)
  }

  lemma PrintedParses(key: string) returns (r: Revision)
    requires Printed(key)
    ensures Parse(key) == Some(r) && r.WellFormed() && r.Key() == key && r.Seconds() == r
    ensures '/' in key && Dir(key) == r.ResourceKey() && Dir(key) != "." && Dir(key) != "" && TrimSlash(key) == key
    ensures r.ResourceKey() <= key
  {
    var w: Revision :| w.WellFormed() && w.Key() == key;
    r := w.Seconds();
    RoundTrip(w);
    assert r.Unix() == w.Unix();
    assert r.WellFormed() && r.Key() == key;
    KeyDirectory(r);
    ResourceKeyIsJoin(r);
    OrdinaryJoin(r.ResourceElements());
  }

  /** A printed key names exactly one whole-second revision. */
  lemma KeyNames(key: string, r: Revision)
    requires Printed(key)
    ensures Parse(key) == Some(r) <==> r.WellFormed() && r.Seconds() == r && r.Key() == key
  {
    var p := PrintedParses(key);
    if r.WellFormed() && r.Key() == key {
      KeyInjective(r, p);
    }
  }

  /** A file at the bucket's root is no revision. */
  lemma NoRootFile(key: string)
    requires '/' !in key
    ensures forall q: Revision :: q.WellFormed() ==> q.Key() != key
  {
    forall q: Revision | q.WellFormed()
      ensures q.Key() != key
    {
      KeyDirectory(q);
    }
  }

  lemma {:induction false} ListedConcat(a: seq<string>, b: seq<string>, root: string)
    ensures Listed(a + b, root) == Listed(a, root) + Listed(b, root)
  {
    if |b| == 0 {
      assert a + b == a;
    } else {
      var n := |b| - 1;
      assert (a + b)[..|a + b| - 1] == a + b[..n];
      ListedConcat(a, b[..n], root);
    }
  }
}
