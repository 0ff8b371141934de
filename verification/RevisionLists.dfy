/** Lists of revisions and sorting them by resource version. */
module RevisionLists {
  import opened Revisions

  ghost predicate Ascending(revs: seq<Revision>) {
    forall i, j :: 0 <= i < j < |revs| ==> revs[i].resourceVersion <= revs[j].resourceVersion
  }

  ghost predicate StrictlyAscending(revs: seq<Revision>) {
    forall i, j :: 0 <= i < j < |revs| ==> revs[i].resourceVersion < revs[j].resourceVersion
  }

  lemma InsertKeepsOrder(sorted: seq<Revision>, i: nat, r: Revision)
    requires i <= |sorted| && Ascending(sorted)
    requires i > 0 ==> sorted[i - 1].resourceVersion <= r.resourceVersion
    requires i < |sorted| ==> r.resourceVersion < sorted[i].resourceVersion
    ensures Ascending(sorted[..i] + [r] + sorted[i..])
  {
    var longer := sorted[..i] + [r] + sorted[i..];
    forall j, k | 0 <= j < k < |longer|
      ensures longer[j].resourceVersion <= longer[k].resourceVersion
    {
      var j', k' := if j < i then j else j - 1, if k < i then k else k - 1;
      assert j != i ==> longer[j] == sorted[j'];
      assert k != i ==> longer[k] == sorted[k'];
    }
  }

  lemma InsertAddsOne(sorted: seq<Revision>, i: nat, r: Revision)
    requires i <= |sorted|
    ensures multiset(sorted[..i] + [r] + sorted[i..]) == multiset(sorted) + multiset{r}
  {
    assert sorted == sorted[..i] + sorted[i..];
  }

  /** sort.Sort of a RevisionList: ascending versions, ties in any order. */
  method Sort(revs: seq<Revision>) returns (sorted: seq<Revision>)
    ensures Ascending(sorted)
    ensures multiset(sorted) == multiset(revs)
  {
    sorted := [];
    for n := 0 to |revs|
      invariant Ascending(sorted)
      invariant multiset(sorted) == multiset(revs[..n])
    {
      var i := |sorted|;
      while i > 0 && revs[n].resourceVersion < sorted[i - 1].resourceVersion
        invariant 0 <= i <= |sorted|
        invariant i < |sorted| ==> revs[n].resourceVersion < sorted[i].resourceVersion
      {
        i := i - 1;
      }
      InsertKeepsOrder(sorted, i, revs[n]);
      InsertAddsOne(sorted, i, revs[n]);
      assert revs[..n + 1] == revs[..n] + [revs[n]];
      sorted := sorted[..i] + [revs[n]] + sorted[i..];
    }
    assert revs[..|revs|] == revs;
  }

  lemma SameMembers(a: seq<Revision>, b: seq<Revision>)
    requires multiset(a) == multiset(b)
    ensures |a| == |b| && forall r :: r in a <==> r in b
  {
    forall r
      ensures r in a <==> r in b
    {
      assert r in multiset(a) <==> r in a;
      assert r in multiset(b) <==> r in b;
    }
    assert |multiset(a)| == |a| && |multiset(b)| == |b|;
  }
}
