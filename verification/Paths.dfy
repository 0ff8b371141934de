/** Go's path/filepath on a Unix system: Clean, Join, Dir and Base. */
module Paths {
  import opened Strings

  /** The loop of filepath.Clean over the path's elements. */
  function CleanSegments(segs: seq<string>, rooted: bool, out: seq<string>): seq<string> {
    if |segs| == 0 then out
    else if segs[0] == "" || segs[0] == "." then CleanSegments(segs[1..], rooted, out)
    else if segs[0] == ".." then
      var out' :=
        if |out| > 0 && out[|out| - 1] != ".." then out[..|out| - 1]
        else if rooted then out
        else out + [".."];
      CleanSegments(segs[1..], rooted, out')
    else CleanSegments(segs[1..], rooted, out + [segs[0]])
  }

  function Clean(path: string): string {
    if path == "" then "."
    else
      var rooted := path[0] == '/';
      var body := Join(CleanSegments(Split(path, '/'), rooted, []), '/');
      if rooted then "/" + body else if body == "" then "." else body
  }

  /** filepath.Join: leading empty elements are dropped, the rest joined and cleaned. */
  function JoinPath(elems: seq<string>): string {
    if |elems| == 0 then ""
    else if elems[0] == "" then JoinPath(elems[1..])
    else Clean(Join(elems, '/'))
  }

  /** The part of a path up to and including its last slash. */
  function UpToLastSlash(path: string): string {
    if path == "" then ""
    else if path[|path| - 1] == '/' then path
    else UpToLastSlash(path[..|path| - 1])
  }

  function Dir(path: string): string { Clean(UpToLastSlash(path)) }

  /** filepath.Base for a path that does not end in a slash. */
  function Base(path: string): string {
    var segs := Split(path, '/');
    segs[|segs| - 1]
  }

  /** A path element that Clean neither drops nor resolves. */
  predicate Ordinary(s: string) {
    s != "" && s != "." && s != ".." && '/' !in s
  }

  predicate AllOrdinary(segs: seq<string>) {
    forall s :: s in segs ==> Ordinary(s)
  }

  /** The non-empty elements of a path. */
  function Elements(path: string): seq<string> {
    if path == "" then [] else Split(path, '/')
  }

  function FlatElements(elems: seq<string>): seq<string> {
    if |elems| == 0 then [] else Elements(elems[0]) + FlatElements(elems[1..])
  }

  lemma {:induction false} CleanSegmentsPlain(segs: seq<string>, rooted: bool, out: seq<string>)
    requires AllOrdinary(segs)
    ensures CleanSegments(segs, rooted, out) == out + segs
  {
    if |segs| > 0 {
      CleanSegmentsPlain(segs[1..], rooted, out + [segs[0]]);
      assert segs[0] in segs;
      assert out + [segs[0]] + segs[1..] == out + segs;
    } else {
      assert out + segs == out;
    }
  }

  /** Cleaning a list that starts with ordinary elements keeps these and goes on. */
  lemma {:induction false} CleanSegmentsAppend(a: seq<string>, b: seq<string>, rooted: bool, out: seq<string>)
    requires AllOrdinary(a)
    ensures CleanSegments(a + b, rooted, out) == CleanSegments(b, rooted, out + a)
  {
    if |a| == 0 {
      assert a + b == b && out + a == out;
    } else {
      assert a[0] in a;
      assert (a + b)[1..] == a[1..] + b;
      CleanSegmentsAppend(a[1..], b, rooted, out + [a[0]]);
      assert out + [a[0]] + a[1..] == out + a;
    }
  }

  /** Cleaning one joined element, empty or ordinary, and whatever follows it. */
  lemma CleanSegmentsElement(elem: string, rest: seq<string>, out: seq<string>)
    requires AllOrdinary(Elements(elem))
    ensures CleanSegments(Split(elem, '/') + rest, false, out) == CleanSegments(rest, false, out + Elements(elem))
  {
    if elem == "" {
      assert ([""] + rest)[1..] == rest;
      assert out + [] == out;
    } else {
      CleanSegmentsAppend(Split(elem, '/'), rest, false, out);
    }
  }

  lemma AllOrdinaryConcat(a: seq<string>, b: seq<string>)
    ensures AllOrdinary(a + b) <==> AllOrdinary(a) && AllOrdinary(b)
  {
    assert forall s :: s in a + b <==> s in a || s in b;
  }

  /** Splitting a join of two or more elements splits the first and the join of the rest. */
  lemma SplitJoined(head: string, rest: seq<string>)
    requires |rest| > 0
    ensures Split(Join([head] + rest, '/'), '/') == Split(head, '/') + Split(Join(rest, '/'), '/')
  {
    assert ([head] + rest)[1..] == rest;
    assert Join([head] + rest, '/') == head + ['/'] + Join(rest, '/');
    SplitAtSeparator(head, Join(rest, '/'), '/');
  }

  lemma CleanOneElement(head: string, out: seq<string>)
    requires AllOrdinary(Elements(head))
    ensures CleanSegments(Split(Join([head], '/'), '/'), false, out) == out + Elements(head)
  {
    assert Split(head, '/') + [] == Split(head, '/');
    CleanSegmentsElement(head, [], out);
  }

  lemma CleanFirstElement(head: string, rest: seq<string>, out: seq<string>)
    requires AllOrdinary(Elements(head)) && |rest| > 0
    ensures CleanSegments(Split(Join([head] + rest, '/'), '/'), false, out) ==
            CleanSegments(Split(Join(rest, '/'), '/'), false, out + Elements(head))
  {
    SplitJoined(head, rest);
    CleanSegmentsElement(head, Split(Join(rest, '/'), '/'), out);
  }

  lemma {:induction false} CleanSegmentsJoined(elems: seq<string>, out: seq<string>)
    requires |elems| > 0
    requires AllOrdinary(FlatElements(elems))
    ensures CleanSegments(Split(Join(elems, '/'), '/'), false, out) == out + FlatElements(elems)
  {
    hide Split, Join, Elements, CleanSegments, Ordinary;
    var head, rest := elems[0], elems[1..];
    var first, flat := Elements(head), FlatElements(rest);
    assert FlatElements(elems) == first + flat;
    AllOrdinaryConcat(first, flat);
    if |rest| == 0 {
      assert elems == [head] && first + flat == first;
      CleanOneElement(head, out);
    } else {
      assert elems == [head] + rest;
      CleanFirstElement(head, rest, out);
      CleanSegmentsJoined(rest, out + first);
      assert out + first + flat == out + (first + flat);
    }
  }

  lemma OrdinaryJoin(segs: seq<string>)
    requires |segs| > 0 && AllOrdinary(segs)
    ensures Join(segs, '/') != "" && Join(segs, '/')[0] != '/'
    ensures Split(Join(segs, '/'), '/') == segs
    ensures Clean(Join(segs, '/')) == Join(segs, '/')
  {
    assert segs[0] in segs;
    assert segs[0][0] in segs[0];
    SplitJoin(segs, '/');
    CleanSegmentsPlain(segs, false, []);
    assert [] + segs == segs;
  }

  lemma JoinPathNonEmpty(elems: seq<string>)
    requires |elems| > 0 && elems[0] != ""
    requires AllOrdinary(FlatElements(elems))
    ensures JoinPath(elems) == Join(FlatElements(elems), '/')
  {
    var flat := FlatElements(elems);
    CleanSegmentsJoined(elems, []);
    assert [] + flat == flat;
    var first := Split(elems[0], '/');
    assert forall s :: s in first ==> s in flat;
    assert first[0] in first;
    JoinSplit(elems[0], '/');
    OrdinaryJoin(first);
    OrdinaryJoin(flat);
  }

  /** filepath.Join of elements made of ordinary parts drops the empty ones and joins the rest. */
  lemma {:induction false} JoinPathPlain(elems: seq<string>)
    requires AllOrdinary(FlatElements(elems))
    ensures JoinPath(elems) == Join(FlatElements(elems), '/')
  {
    if |elems| > 0 {
      if elems[0] == "" {
        assert [] + FlatElements(elems[1..]) == FlatElements(elems[1..]);
        JoinPathPlain(elems[1..]);
      } else {
        JoinPathNonEmpty(elems);
      }
    }
  }

  lemma {:induction false} UpToLastSlashOfFile(dir: string, file: string)
    requires '/' !in file
    ensures UpToLastSlash(dir + "/" + file) == dir + "/"
  {
    var path := dir + "/" + file;
    if file == "" {
      assert path == dir + "/";
    } else {
      assert file[|file| - 1] in file;
      assert path[..|path| - 1] == dir + "/" + file[..|file| - 1];
      UpToLastSlashOfFile(dir, file[..|file| - 1]);
    }
  }

  lemma CleanTrailingSlash(segs: seq<string>)
    requires |segs| > 0 && AllOrdinary(segs)
    ensures Clean(Join(segs, '/') + "/") == Join(segs, '/')
  {
    var dir := Join(segs, '/');
    OrdinaryJoin(segs);
    assert dir + ['/'] + "" == dir + "/";
    SplitAtSeparator(dir, "", '/');
    CleanSegmentsAppend(segs, [""], false, []);
    assert [] + segs == segs;
    assert CleanSegments([""], false, segs) == segs;
  }

  /** filepath.Dir of a path with a directory part is that directory. */
  lemma DirOfFile(segs: seq<string>, file: string)
    requires |segs| > 0 && AllOrdinary(segs) && '/' !in file
    ensures Dir(Join(segs, '/') + "/" + file) == Join(segs, '/')
  {
    UpToLastSlashOfFile(Join(segs, '/'), file);
    CleanTrailingSlash(segs);
  }

  lemma BaseOfFile(dir: string, file: string)
    requires '/' !in file
    ensures Base(dir + "/" + file) == file
  {
    SplitAtSeparator(dir, file, '/');
    SplitWithoutSeparator(file, '/');
  }

  lemma {:induction false} NoSlashUpTo(file: string)
    requires '/' !in file
    ensures UpToLastSlash(file) == ""
  {
    if file != "" {
      assert file[|file| - 1] in file;
      NoSlashUpTo(file[..|file| - 1]);
    }
  }

  lemma DirOfRootFile(file: string)
    requires '/' !in file
    ensures Dir(file) == "."
  {
    NoSlashUpTo(file);
  }

  lemma {:induction false} UpToRooted(path: string)
    ensures UpToLastSlash("/" + path) == "/" + UpToLastSlash(path)
  {
    var rooted := "/" + path;
    if path == "" {
      assert rooted == "/";
    } else if path[|path| - 1] != '/' {
      assert rooted[..|rooted| - 1] == "/" + path[..|path| - 1];
      UpToRooted(path[..|path| - 1]);
    }
  }

  lemma DirOfRooted(path: string)
    ensures Dir("/" + path) != "" && Dir("/" + path) != "."
  {
    hide CleanSegments, Split, Join, UpToLastSlash;
    UpToRooted(path);
    var up := "/" + UpToLastSlash(path);
    var dir := "/" + Join(CleanSegments(Split(up, '/'), true, []), '/');
    assert up[0] == '/' && dir[0] == '/' && Dir("/" + path) == dir;
  }

  // ---- what cleaning means ----

  /** Where a path leads from a directory; the root is its own parent. */
  function Resolve(at: seq<string>, segs: seq<string>): seq<string>
    decreases |segs|
  {
    if |segs| == 0 then at
    else if segs[0] == "" || segs[0] == "." then Resolve(at, segs[1..])
    else if segs[0] == ".." then Resolve(if |at| == 0 then [] else at[..|at| - 1], segs[1..])
    else Resolve(at + [segs[0]], segs[1..])
  }

  lemma {:induction false} ResolveConcat(at: seq<string>, a: seq<string>, b: seq<string>)
    ensures Resolve(at, a + b) == Resolve(Resolve(at, a), b)
    decreases |a|
  {
    if |a| == 0 {
      assert a + b == b;
    } else {
      assert (a + b)[1..] == a[1..] + b;
      var next :=
        if a[0] == "" || a[0] == "." then at
        else if a[0] == ".." then (if |at| == 0 then [] else at[..|at| - 1])
        else at + [a[0]];
      ResolveConcat(next, a[1..], b);
    }
  }

  /** No element is empty or a dot, and parents come first, or not at all below the root. */
  predicate Cleaned(segs: seq<string>, rooted: bool) {
    && (forall s :: s in segs ==> s != "" && s != ".")
    && (forall i :: 0 <= i < |segs| && segs[i] == ".." ==> !rooted && forall j :: 0 <= j < i ==> segs[j] == "..")
  }

  /** The loop's body: what one element does to the elements kept so far. */
  function CleanOne(seg: string, rooted: bool, out: seq<string>): seq<string> {
    if seg == "" || seg == "." then out
    else if seg != ".." then out + [seg]
    else if |out| > 0 && out[|out| - 1] != ".." then out[..|out| - 1]
    else if rooted then out
    else out + [".."]
  }

  /** Cleaning one element leaves the path clean, and leading where it led. */
  lemma CleanOneKeepsPlace(at: seq<string>, seg: string, rooted: bool, out: seq<string>)
    requires Cleaned(out, rooted) && (rooted ==> at == [])
    ensures Cleaned(CleanOne(seg, rooted, out), rooted)
    ensures Resolve(at, CleanOne(seg, rooted, out)) == Resolve(Resolve(at, out), [seg])
  {
    var out' := CleanOne(seg, rooted, out);
    assert [seg][1..] == [];
    if seg == "" || seg == "." {
    } else if seg == ".." && |out| > 0 && out[|out| - 1] != ".." {
      var name := out[|out| - 1];
      assert name in out && out == out' + [name];
      ResolveConcat(at, out', [name]);
      assert [name][1..] == [];
      var place := Resolve(at, out');
      assert Resolve(at, out) == place + [name];
      assert (place + [name])[..|place + [name]| - 1] == place;
      ShorterCleaned(rooted, out);
    } else if seg == ".." && rooted {
      NoParents(out);
    } else {
      ResolveConcat(at, out, [seg]);
      LongerCleaned(seg, rooted, out);
    }
  }

  lemma NoParents(out: seq<string>)
    ensures Cleaned(out, true) ==> ".." !in out
  {
  }

  lemma ShorterCleaned(rooted: bool, out: seq<string>)
    requires Cleaned(out, rooted) && |out| > 0
    ensures Cleaned(out[..|out| - 1], rooted)
  {
    var out' := out[..|out| - 1];
    assert forall s :: s in out' ==> s in out;
    assert forall i :: 0 <= i < |out'| ==> out'[i] == out[i];
  }

  lemma LongerCleaned(seg: string, rooted: bool, out: seq<string>)
    requires Cleaned(out, rooted) && seg != "" && seg != "."
    requires seg == ".." ==> !rooted && (|out| > 0 ==> out[|out| - 1] == "..")
    ensures Cleaned(out + [seg], rooted)
  {
  }

  lemma {:induction false} CleanKeepsPlace(at: seq<string>, segs: seq<string>, rooted: bool, out: seq<string>)
    requires Cleaned(out, rooted) && (rooted ==> at == [])
    ensures Cleaned(CleanSegments(segs, rooted, out), rooted)
    ensures Resolve(at, CleanSegments(segs, rooted, out)) == Resolve(Resolve(at, out), segs)
    decreases |segs|
  {
    if |segs| > 0 {
      var seg := segs[0];
      var out' := CleanOne(seg, rooted, out);
      CleanOneKeepsPlace(at, seg, rooted, out);
      CleanKeepsPlace(at, segs[1..], rooted, out');
      assert [seg] + segs[1..] == segs;
      ResolveConcat(Resolve(at, out), [seg], segs[1..]);
      hide Resolve;
    }
  }

  /**
   * A cleaned path leads where the path led, from the root if it starts there and else from any directory,
   * and has no element that could be left out.
   */
  lemma CleanMeansTheSame(path: string, at: seq<string>)
    requires path != "" && (path[0] == '/' ==> at == [])
    ensures
      var rooted := path[0] == '/';
      var segs := CleanSegments(Split(path, '/'), rooted, []);
      && Cleaned(segs, rooted) && Resolve(at, segs) == Resolve(at, Split(path, '/'))
      && Clean(path) == if rooted then "/" + Join(segs, '/') else if segs == [] then "." else Join(segs, '/')
  {
    CleanKeepsPlace(at, Split(path, '/'), path[0] == '/', []);
    var segs := CleanSegments(Split(path, '/'), path[0] == '/', []);
    if segs != [] {
      assert segs[0] in segs;
    }
    hide Split, Resolve;
  }
}
