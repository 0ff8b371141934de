/** The very text of a key: what is printed for a revision, and what is read from it. */
module KeyText {
  import opened Strings
  import opened Paths
  import opened Revisions
  import opened Numerals
  import StateWalk

  /** The object's path: API version, kind, the namespace if there is one, and name. */
  function ObjectText(r: Revision): string {
    r.apiVersion + "/" + r.kind + (if r.namespace == "" then "" else "/" + r.namespace) + "/" + r.name
  }

  /** The name of the revision's file, its version and its time given as numerals. */
  function FileText(version: string, seconds: string, deleted: bool): string {
    version + "-" + seconds + ".json" + if deleted then ".deleted" else ""
  }

  /** `q` counts the whole seconds in the revision's timestamp. */
  predicate WholeSeconds(r: Revision, q: int) {
    q * 1_000_000_000 <= r.nanos < (q + 1) * 1_000_000_000
  }

  lemma SecondsAre(r: Revision, q: int)
    requires WholeSeconds(r, q)
    ensures r.Unix() == q && r.Seconds() == r.(nanos := q * 1_000_000_000)
  {
  }

  lemma ObjectTextIs(r: Revision)
    requires r.WellFormed()
    ensures r.ResourceKey() == ObjectText(r)
  {
    ResourceKeyIsJoin(r);
    assert r.namespace == "" || '/' !in r.namespace;
    hide Revision.WellFormed, Revision.ResourceKey, Join, Revision.ResourceElements;
    ElementsText(r);
  }

  lemma ElementsText(r: Revision)
    requires r.namespace == "" || '/' !in r.namespace
    ensures Join(r.ResourceElements(), '/') == ObjectText(r)
  {
    hide Join, Split;
    var api := Split(r.apiVersion, '/');
    var ns := if r.namespace == "" then [] else [r.namespace];
    JoinSplit(r.apiVersion, '/');
    if r.namespace != "" {
      SplitWithoutSeparator(r.namespace, '/');
    }
    assert Elements(r.namespace) == ns;
    var rest := [r.kind] + ns + [r.name];
    assert r.ResourceElements() == api + rest;
    JoinConcat(api, rest, '/');
    JoinRest(r.kind, r.namespace, r.name);
  }

  lemma JoinRest(kind: string, namespace: string, name: string)
    ensures Join([kind] + (if namespace == "" then [] else [namespace]) + [name], '/') ==
            kind + (if namespace == "" then "" else "/" + namespace) + "/" + name
  {
    assert [kind, name][1..] == [name];
    assert Join([kind, name], '/') == kind + "/" + name;
    assert [namespace, name][1..] == [name];
    assert Join([namespace, name], '/') == namespace + "/" + name;
    assert [kind, namespace, name][1..] == [namespace, name];
    assert Join([kind, namespace, name], '/') == kind + "/" + Join([namespace, name], '/');
    assert [kind] + [] + [name] == [kind, name];
    assert [kind] + [namespace] + [name] == [kind, namespace, name];
    hide Join;
    if namespace != "" {
      assert kind + "/" + (namespace + "/" + name) == kind + ("/" + namespace) + "/" + name;
    } else {
      assert kind + "" + "/" + name == kind + "/" + name;
    }
  }

  /**
   * A key is the object's path and a file whose name is the version, a dash, the timestamp in whole seconds
   * and ".json", with ".deleted" after it for a tombstone.
   */
  lemma KeyIsText(r: Revision, q: int, version: string, seconds: string)
    requires r.WellFormed() && WholeSeconds(r, q)
    requires Numeral(version, r.resourceVersion) && Numeral(seconds, q)
    ensures r.Key() == ObjectText(r) + "/" + FileText(version, seconds, r.deleted)
  {
    hide Digits, ObjectText, Revision.ResourceKey, Revision.Key, Revision.Shaped, Revision.CoreGroupOnlyV1, Numeral,
         Split, Join;
    SecondsAre(r, q);
    KeyIsJoin(r);
    ObjectTextIs(r);
    NumeralIff(version, r.resourceVersion);
    NumeralIff(seconds, q);
    assert r.RevisionKey() == FileText(version, seconds, r.deleted);
  }

  /** Reading such a text gives the fields back, and the time as so many whole seconds. */
  lemma TextIsParsed(r: Revision, q: int, version: string, seconds: string)
    requires r.WellFormed() && WholeSeconds(r, q)
    requires Numeral(version, r.resourceVersion) && Numeral(seconds, q)
    ensures Parse(ObjectText(r) + "/" + FileText(version, seconds, r.deleted)) ==
            Some(Revision(r.apiVersion, r.kind, r.namespace, r.name, r.resourceVersion, q * 1_000_000_000, r.deleted))
  {
    hide Parse, Revision.Key, Revision.WellFormed, ObjectText, FileText, Numeral;
    KeyIsText(r, q, version, seconds);
    SecondsAre(r, q);
    RoundTrip(r);
  }

  /**
   * What the parsers make of any file name with a dash: the version stands before the first dash, the time
   * between it and the next dot, a tombstone is told by the end of the part up to the second dash, and
   * whatever follows a second dash is ignored.
   */
  lemma FileIsParsed(version: string, seconds: string, rest: string, ignored: string)
    requires '-' !in version && '-' !in seconds && '.' !in seconds && '-' !in rest
    requires (rest != "" ==> rest[0] == '.') && (ignored != "" ==> ignored[0] == '-')
    ensures
      var file, part := version + "-" + seconds + rest + ignored, seconds + rest;
      ParseFileName(file) ==
      if Atoi(version) == None || Atoi(seconds) == None then None
      else Some(FileParts(Atoi(version).value, Atoi(seconds).value,
                          |part| >= 7 && part[|part| - 7..] == "deleted"))
  {
    hide Atoi;
    var part := seconds + rest;
    assert version + "-" + seconds + rest + ignored == version + ['-'] + (part + ignored);
    SplitFirst(version, part + ignored, '-');
    FirstPart(part, ignored, '-');
    FirstPart(seconds, rest, '.');
    hide Split;
  }

  /** Splitting cuts what stands before the first separator off. */
  lemma FirstPart(head: string, tail: string, sep: char)
    requires sep !in head && (tail != "" ==> tail[0] == sep)
    ensures Split(head + tail, sep)[0] == head
  {
    if tail == "" {
      assert head + tail == head;
      SplitWithoutSeparator(head, sep);
    } else {
      assert head + tail == head + [sep] + tail[1..];
      SplitFirst(head, tail[1..], sep);
    }
  }

  lemma NoDash(file: string)
    requires '-' !in file
    ensures ParseFileName(file) == None
  {
    SplitWithoutSeparator(file, '-');
  }

  /** Only paths of four to six elements are parsed: one fewer after "v1" than after a group. */
  lemma DepthDecides(path: string)
    requires Parse(path).Some?
    ensures
      var elems := Split(path, '/');
      if elems[0] == "v1" then |elems| == 4 || |elems| == 5 else |elems| == 5 || |elems| == 6
  {
    hide ParseFileName, JoinPath;
  }

  /**
   * The prefix that a State query walks under: the object's path as far as the options name it, each part only
   * after the ones before it, and the namespace only if not all are asked for.
   */
  lemma RootIsText(o: StateWalk.StateOptions, r: Revision)
    requires r.WellFormed() && StateWalk.Selects(o, r)
    ensures StateWalk.Root(o) ==
      if o.apiVersion == "" then ""
      else if o.kind == "" then r.apiVersion
      else if o.namespace == "" || o.allNamespaces then r.apiVersion + "/" + r.kind
      else if o.name == "" then r.apiVersion + "/" + r.kind + "/" + r.namespace
      else r.apiVersion + "/" + r.kind + "/" + r.namespace + "/" + r.name
  {
    StateWalk.KindPrefix(r);
    StateWalk.NamespacePrefix(r);
    ObjectTextIs(r);
    PrefixTexts(r);
    hide Split, Join, Revision.ResourceElements, JoinPath, Revision.WellFormed;
  }

  lemma PrefixTexts(r: Revision)
    requires r.WellFormed()
    ensures
      var n, elems := |Split(r.apiVersion, '/')| + 1, r.ResourceElements();
      && Join(elems[..n], '/') == r.apiVersion + "/" + r.kind
      && (r.namespace != "" ==>
            Join(elems[..n + |Elements(r.namespace)|], '/') == r.apiVersion + "/" + r.kind + "/" + r.namespace)
  {
    assert r.namespace == "" || '/' !in r.namespace;
    hide Join, Split, Revision.WellFormed;
    var api, elems := Split(r.apiVersion, '/'), r.ResourceElements();
    JoinSplit(r.apiVersion, '/');
    assert elems[..|api| + 1] == api + [r.kind];
    JoinConcat(api, [r.kind], '/');
    OneJoined(r.kind);
    if r.namespace != "" {
      SplitWithoutSeparator(r.namespace, '/');
      assert elems[..|api| + 1 + 1] == api + [r.kind] + [r.namespace];
      JoinConcat(api + [r.kind], [r.namespace], '/');
      OneJoined(r.namespace);
    }
  }

  lemma OneJoined(s: string)
    ensures Join([s], '/') == s
  {
  }
}
