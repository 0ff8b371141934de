/** Revisions, the keys they are stored under, and the parser that recovers revisions from keys. */
module Revisions {
  import opened Strings
  import opened Paths

  const NANOS_PER_SECOND := 1_000_000_000

  /** A stored version of a cluster object; `nanos` is its timestamp in nanoseconds since 1970. */
  datatype Revision = Revision(
    apiVersion: string,
    kind: string,
    namespace: string,
    name: string,
    resourceVersion: int,
    nanos: int,
    deleted: bool)
  {
    function Unix(): int { nanos / NANOS_PER_SECOND }

    function ResourceKey(): string {
      JoinPath([apiVersion, kind, namespace, name])
    }

    function RevisionKey(): string { FileName(resourceVersion, Unix(), deleted) }

    function Key(): string {
      JoinPath([ResourceKey(), RevisionKey()])
    }

    /** The revision with its timestamp cut to whole seconds. */
    function Seconds(): Revision { this.(nanos := Unix() * NANOS_PER_SECOND) }

    /** The path elements of the resource key. */
    function ResourceElements(): seq<string> {
      Split(apiVersion, '/') + [kind] + Elements(namespace) + [name]
    }

    /**
     * What the API server guarantees of any object: its names are single path elements, its apiVersion
     * is one element or "group/version", and the numbers fit the machine's words.
     */
    predicate Shaped() {
      && AllOrdinary(Split(apiVersion, '/'))
      && |Split(apiVersion, '/')| <= 2
      && Ordinary(kind) && Ordinary(name) && (namespace == "" || Ordinary(namespace))
      && IsInt64(resourceVersion) && IsInt64(Unix())
    }

    /** The core group is called "v1" and no other group is; versions and seconds are not negative. */
    predicate WellFormed() {
      && Shaped()
      && CoreGroupOnlyV1()
      && 0 <= resourceVersion
      && 0 <= Unix()
    }

    /** "v1" stands first in apiVersion exactly when it is all of it. */
    predicate CoreGroupOnlyV1() {
      var segs := Split(apiVersion, '/');
      segs[0] == "v1" <==> |segs| == 1
    }
  }

  function FileName(version: int, seconds: int, deleted: bool): string {
    FormatInt(version) + "-" + FormatInt(seconds) + Extension(deleted)
  }

  function Extension(deleted: bool): string { if deleted then ".json.deleted" else ".json" }

  datatype FileParts = FileParts(version: int, seconds: int, deleted: bool)

  /** The file-name half of the two parsers; None is any of their errors. */
  function ParseFileName(file: string): Option<FileParts> {
    var fileSplit := Split(file, '-');
    if |fileSplit| < 2 then None
    else
      var suffix := fileSplit[1];
      var seconds := Atoi(Split(suffix, '.')[0]);
      var version := Atoi(fileSplit[0]);
      if seconds == None || version == None then None
      else Some(FileParts(version.value, seconds.value, HasSuffix(suffix, "deleted")))
  }

  function ParseClusterScoped(split: seq<string>): Option<Revision>
    requires |split| == 5
  {
    match ParseFileName(split[4])
    case None => None
    case Some(f) =>
      Some(Revision(JoinPath([split[0], split[1]]), split[2], "", split[3],
                    f.version, f.seconds * NANOS_PER_SECOND, f.deleted))
  }

  function ParseNamespaced(split: seq<string>): Option<Revision>
    requires |split| == 6
  {
    match ParseFileName(split[5])
    case None => None
    case Some(f) =>
      Some(Revision(JoinPath([split[0], split[1]]), split[2], split[3], split[4],
                    f.version, f.seconds * NANOS_PER_SECOND, f.deleted))
  }

  /** ParseLazyLoadingRevision; the revision's content is not part of this model. */
  function Parse(path: string): Option<Revision> {
    var elems := Split(path, '/');
    var split := if elems[0] == "v1" then [""] + elems else elems;
    if |split| == 5 then ParseClusterScoped(split)
    else if |split| == 6 then ParseNamespaced(split)
    else None
  }

  // ---- the file name ----

  lemma DigitsLackSeparators(n: nat)
    ensures '-' !in Digits(n) && '.' !in Digits(n) && '/' !in Digits(n)
  {
  }

  lemma SplitFirst(a: string, b: string, sep: char)
    requires sep !in a
    ensures Split(a + [sep] + b, sep) == [a] + Split(b, sep)
  {
    SplitAtSeparator(a, b, sep);
    SplitWithoutSeparator(a, sep);
  }

  lemma ExtensionChars(deleted: bool)
    ensures '-' !in Extension(deleted) && '/' !in Extension(deleted)
    ensures |Extension(deleted)| > 0 && Extension(deleted)[0] == '.'
  {
  }

  lemma ExtensionSuffix(stem: string, deleted: bool)
    ensures HasSuffix(stem + Extension(deleted), "deleted") == deleted
  {
    var s := stem + Extension(deleted);
    if deleted {
      assert s[|s| - 7..] == ".json.deleted"[6..];
    } else {
      assert s[|s| - 1] == 'n';
    }
  }

  lemma ParseSuffix(seconds: nat, deleted: bool)
    ensures '-' !in Digits(seconds) + Extension(deleted)
    ensures Split(Digits(seconds) + Extension(deleted), '.')[0] == Digits(seconds)
  {
    DigitsLackSeparators(seconds);
    ExtensionChars(deleted);
    var digits, extension := Digits(seconds), Extension(deleted);
    hide Digits, Extension;
    assert digits + extension == digits + ['.'] + extension[1..];
    SplitFirst(digits, extension[1..], '.');
  }

  /** The part of a file name before its first dash is empty when the version is negative. */
  lemma SplitVersion(version: int, rest: string)
    ensures
      Split(FormatInt(version) + "-" + rest, '-') ==
      if version < 0 then [""] + Split(Digits(-version) + "-" + rest, '-')
      else [Digits(version)] + Split(rest, '-')
  {
    if version < 0 {
      assert FormatInt(version) + "-" + rest == "" + ['-'] + (Digits(-version) + "-" + rest);
      SplitFirst("", Digits(-version) + "-" + rest, '-');
    } else {
      DigitsLackSeparators(version);
      SplitFirst(Digits(version), rest, '-');
    }
  }

  /** What follows the version's dash: a timestamp before 1970 starts with a dash of its own. */
  lemma SplitTail(seconds: int, extension: string)
    requires '-' !in extension
    ensures Split(FormatInt(seconds) + extension, '-')[0] ==
            if seconds < 0 then "" else FormatInt(seconds) + extension
  {
    var tail := FormatInt(seconds) + extension;
    if seconds < 0 {
      assert tail == "" + ['-'] + (Digits(-seconds) + extension);
      SplitFirst("", Digits(-seconds) + extension, '-');
    } else {
      DigitsLackSeparators(seconds);
      SplitWithoutSeparator(tail, '-');
    }
  }

  /** The two parts of a file name that the parsers look at. */
  lemma FileNameParts(version: int, seconds: int, deleted: bool)
    requires 0 <= version
    ensures
      var parts := Split(FileName(version, seconds, deleted), '-');
      |parts| >= 2 && parts[0] == FormatInt(version) &&
      parts[1] == if seconds < 0 then "" else FormatInt(seconds) + Extension(deleted)
  {
    var tail := FormatInt(seconds) + Extension(deleted);
    assert FileName(version, seconds, deleted) == FormatInt(version) + "-" + tail;
    SplitVersion(version, tail);
    assert '-' !in Extension(deleted) by {
      ExtensionChars(deleted);
    }
    SplitTail(seconds, Extension(deleted));
  }

  lemma NegativeVersion(version: int, seconds: int, deleted: bool)
    requires version < 0
    ensures ParseFileName(FileName(version, seconds, deleted)) == None
  {
    var tail := FormatInt(seconds) + Extension(deleted);
    assert FileName(version, seconds, deleted) == FormatInt(version) + "-" + tail;
    SplitVersion(version, tail);
    assert Atoi("") == None;
  }

  /** A printed file name parses back exactly when neither number is negative. */
  lemma FileNameRoundTrip(version: int, seconds: int, deleted: bool)
    requires IsInt64(version) && IsInt64(seconds)
    ensures ParseFileName(FileName(version, seconds, deleted)) ==
            if 0 <= version && 0 <= seconds then Some(FileParts(version, seconds, deleted)) else None
  {
    if version < 0 {
      NegativeVersion(version, seconds, deleted);
    } else {
      FileNameParts(version, seconds, deleted);
      AtoiFormatInt(version);
      if seconds < 0 {
        assert Atoi(Split("", '.')[0]) == None;
      } else {
        AtoiFormatInt(seconds);
        ParseSuffix(seconds, deleted);
        ExtensionSuffix(Digits(seconds), deleted);
      }
    }
  }

  lemma FileNameOrdinary(version: int, seconds: int, deleted: bool)
    ensures Ordinary(FileName(version, seconds, deleted))
  {
    var v, s := FormatInt(version), FormatInt(seconds);
    DigitsLackSeparators(if version < 0 then -version else version);
    DigitsLackSeparators(if seconds < 0 then -seconds else seconds);
    assert '/' !in v && '/' !in s && |v| > 0 && '/' !in Extension(deleted);
    assert FileName(version, seconds, deleted)[|v|] == '-';
    assert |FileName(version, seconds, deleted)| > 2;
  }

  // ---- keys as paths ----

  lemma ResourceElementsOrdinary(r: Revision)
    requires r.Shaped()
    ensures AllOrdinary(r.ResourceElements()) && |r.ResourceElements()| >= 3
    ensures r.apiVersion != ""
    ensures FlatElements([r.apiVersion, r.kind, r.namespace, r.name]) == r.ResourceElements()
  {
    var api, ns := Split(r.apiVersion, '/'), Elements(r.namespace);
    assert api[0] in api;
    JoinSplit(r.apiVersion, '/');
    OrdinaryJoin(api);
    SplitWithoutSeparator(r.kind, '/');
    SplitWithoutSeparator(r.name, '/');
    if r.namespace != "" {
      SplitWithoutSeparator(r.namespace, '/');
    }
    assert FlatElements([r.name]) == [r.name];
    assert [r.namespace, r.name][1..] == [r.name];
    assert FlatElements([r.namespace, r.name]) == ns + [r.name];
    assert [r.kind, r.namespace, r.name][1..] == [r.namespace, r.name];
    assert FlatElements([r.kind, r.namespace, r.name]) == [r.kind] + (ns + [r.name]);
    assert [r.apiVersion, r.kind, r.namespace, r.name][1..] == [r.kind, r.namespace, r.name];
    assert api + ([r.kind] + (ns + [r.name])) == r.ResourceElements();
  }

  /** filepath.Join of well-shaped parts is their plain join by slashes. */
  lemma ResourceKeyIsJoin(r: Revision)
    requires r.Shaped()
    ensures r.ResourceKey() == Join(r.ResourceElements(), '/')
    ensures AllOrdinary(r.ResourceElements()) && |r.ResourceElements()| >= 3
  {
    ResourceElementsOrdinary(r);
    JoinPathPlain([r.apiVersion, r.kind, r.namespace, r.name]);
  }

  lemma KeyIsJoin(r: Revision)
    requires r.Shaped()
    ensures r.Key() == r.ResourceKey() + "/" + r.RevisionKey()
    ensures r.Key() == Join(r.ResourceElements() + [r.RevisionKey()], '/')
    ensures Split(r.Key(), '/') == r.ResourceElements() + [r.RevisionKey()]
  {
    var elems, file := r.ResourceElements(), r.RevisionKey();
    var dir := r.ResourceKey();
    ResourceKeyIsJoin(r);
    FileNameOrdinary(r.resourceVersion, r.Unix(), r.deleted);
    OrdinaryJoin(elems);
    AllOrdinaryConcat(elems, [file]);
    OrdinaryJoin(elems + [file]);
    JoinConcat(elems, [file], '/');
    SplitWithoutSeparator(file, '/');
    assert FlatElements([file]) == [file];
    assert [dir, file][1..] == [file];
    assert FlatElements([dir, file]) == elems + [file];
    JoinPathPlain([dir, file]);
    assert Join([file], '/') == file;
  }

  /** A key's directory is its resource key and its base name the revision key. */
  lemma KeyDirectory(r: Revision)
    requires r.Shaped()
    ensures Dir(r.Key()) == r.ResourceKey()
    ensures Base(r.Key()) == r.RevisionKey()
    ensures r.ResourceKey() + "/" <= r.Key()
    ensures '/' in r.Key() && r.Key()[0] != '/' && TrimSlash(r.Key()) == r.Key()
    ensures Dir(r.Key()) != "."
  {
    ResourceKeyIsJoin(r);
    KeyIsJoin(r);
    FileNameOrdinary(r.resourceVersion, r.Unix(), r.deleted);
    DirOfFile(r.ResourceElements(), r.RevisionKey());
    BaseOfFile(r.ResourceKey(), r.RevisionKey());
    var elems := r.ResourceElements();
    OrdinaryJoin(elems);
    JoinConcat(elems[..1], elems[1..], '/');
    assert elems[..1] + elems[1..] == elems;
    assert '/' in r.ResourceKey();
  }

  // ---- the round trip ----

  lemma ParseApiVersion(apiVersion: string)
    requires AllOrdinary(Split(apiVersion, '/'))
    ensures
      var segs := Split(apiVersion, '/');
      (|segs| == 1 ==> JoinPath(["", segs[0]]) == apiVersion) &&
      (|segs| == 2 ==> JoinPath([segs[0], segs[1]]) == apiVersion)
  {
    var segs := Split(apiVersion, '/');
    JoinSplit(apiVersion, '/');
    OrdinaryJoin(segs);
    if |segs| == 1 {
      assert ["", segs[0]][1..] == segs;
      assert segs[0] in segs;
    } else if |segs| == 2 {
      assert [segs[0], segs[1]] == segs;
      assert segs[0] in segs;
    }
  }

  lemma ResourceElementsAre(r: Revision)
    requires r.Shaped()
    ensures
      var segs := Split(r.apiVersion, '/');
      r.ResourceElements() ==
      if |segs| == 1 && r.namespace == "" then [segs[0], r.kind, r.name]
      else if |segs| == 1 then [segs[0], r.kind, r.namespace, r.name]
      else if r.namespace == "" then [segs[0], segs[1], r.kind, r.name]
      else [segs[0], segs[1], r.kind, r.namespace, r.name]
  {
    if r.namespace != "" {
      SplitWithoutSeparator(r.namespace, '/');
    }
  }

  lemma RoundTrip(r: Revision)
    requires r.WellFormed()
    ensures Parse(r.Key()) == Some(r.Seconds())
  {
    var segs := Split(r.apiVersion, '/');
    KeyIsJoin(r);
    FileNameRoundTrip(r.resourceVersion, r.Unix(), r.deleted);
    ParseApiVersion(r.apiVersion);
    ResourceElementsAre(r);
    var split := if |segs| == 1 then [""] + Split(r.Key(), '/') else Split(r.Key(), '/');
    if r.namespace == "" {
      assert ParseClusterScoped(split) == Some(r.Seconds());
    } else {
      assert ParseNamespaced(split) == Some(r.Seconds());
    }
  }

  lemma JoinPathTwo(a: string, b: string)
    requires Ordinary(a) && Ordinary(b)
    ensures JoinPath([a, b]) == a + "/" + b
  {
    OrdinaryJoin([a, b]);
    assert [a, b][1..] == [b];
    assert Join([a, b], '/') == a + "/" + b;
  }

  /** Of a shaped revision outside the well-formed ones, the parser errs or recovers a different one. */
  lemma NoRoundTrip(r: Revision)
    requires r.Shaped() && !r.WellFormed()
    ensures Parse(r.Key()) != Some(r.Seconds())
  {
    KeyIsJoin(r);
    FileNameRoundTrip(r.resourceVersion, r.Unix(), r.deleted);
    ResourceElementsAre(r);
    if !r.CoreGroupOnlyV1() {
      WrongGroup(r);
    } else {
      var segs := Split(r.apiVersion, '/');
      var split := if |segs| == 1 then [""] + Split(r.Key(), '/') else Split(r.Key(), '/');
      if r.namespace == "" {
        assert ParseClusterScoped(split) == None;
      } else {
        assert ParseNamespaced(split) == None;
      }
    }
  }

  lemma LoneGroup(r: Revision)
    requires r.Shaped() && |Split(r.apiVersion, '/')| == 1 && Split(r.apiVersion, '/')[0] != "v1"
    ensures Parse(r.Key()) != Some(r.Seconds())
  {
    var segs := Split(r.apiVersion, '/');
    KeyIsJoin(r);
    ResourceElementsAre(r);
    JoinSplit(r.apiVersion, '/');
    assert segs[0] in segs;
    hide Split, Join, Ordinary, ParseFileName, Revision.Key, Revision.ResourceElements;
    if r.namespace != "" {
      JoinPathTwo(segs[0], r.kind);
    }
  }

  lemma GroupV1(r: Revision)
    requires r.Shaped() && |Split(r.apiVersion, '/')| == 2 && Split(r.apiVersion, '/')[0] == "v1"
    ensures Parse(r.Key()) != Some(r.Seconds())
  {
    var segs := Split(r.apiVersion, '/');
    KeyIsJoin(r);
    ResourceElementsAre(r);
    SplitWithoutSeparator("v1", '/');
    ParseApiVersion("v1");
    hide Split, Join, Ordinary, ParseFileName, Revision.Key, Revision.ResourceElements;
    if r.namespace == "" {
      var split := [""] + Split(r.Key(), '/');
      assert split[0] == "" && split[1] == "v1";
      assert JoinPath([split[0], split[1]]) == "v1";
    }
  }

  lemma WrongGroup(r: Revision)
    requires r.Shaped() && !r.CoreGroupOnlyV1()
    ensures Parse(r.Key()) != Some(r.Seconds())
  {
    hide Parse, Revision.Key, Revision.Seconds;
    if |Split(r.apiVersion, '/')| == 1 {
      LoneGroup(r);
    } else {
      GroupV1(r);
    }
  }

  /**
   * Parsing a printed key gives the revision back, with its timestamp cut to whole seconds, if and only if
   * the revision is well-formed.
   */
  lemma RoundTripIff(r: Revision)
    requires r.Shaped()
    ensures Parse(r.Key()) == Some(r.Seconds()) <==> r.WellFormed()
  {
    if r.WellFormed() {
      RoundTrip(r);
    } else {
      NoRoundTrip(r);
    }
  }

  /** Two well-formed revisions share a key exactly when they agree on everything but the second's fraction. */
  lemma KeyInjective(a: Revision, b: Revision)
    requires a.WellFormed() && b.WellFormed()
    ensures a.Key() == b.Key() <==> a.Seconds() == b.Seconds()
  {
    RoundTrip(a);
    RoundTrip(b);
    if a.Seconds() == b.Seconds() {
      assert a.Unix() == b.Unix();
    }
  }

  predicate SameObject(a: Revision, b: Revision) {
    a.apiVersion == b.apiVersion && a.kind == b.kind && a.namespace == b.namespace && a.name == b.name
  }

  /** A resource key names one object. */
  lemma ResourceKeyInjective(a: Revision, b: Revision)
    requires a.WellFormed() && b.WellFormed()
    ensures a.ResourceKey() == b.ResourceKey() <==> SameObject(a, b)
  {
    if a.ResourceKey() == b.ResourceKey() {
      var b' := b.(resourceVersion := a.resourceVersion, nanos := a.nanos, deleted := a.deleted);
      assert b'.ResourceKey() == b.ResourceKey();
      KeyInjective(a, b');
    }
  }
}
