/** Which watches the controller plans for a policy, and how it finds the handler of a delivered object. */
module Watches {
  import opened Strings
  import opened Paths
  import opened Revisions
  import opened Handlers
  import opened Policy
  import StateWalk

  /** `supported` says that the resource has all the verbs the controller requires. */
  datatype APIResource = APIResource(name: string, kind: string, supported: bool)

  datatype APIResourceList = APIResourceList(groupVersion: string, resources: seq<APIResource>)

  /** A client that watches a resource in one namespace, or in all when that is empty. */
  datatype Dynamic = Dynamic(groupVersion: string, resource: APIResource, namespace: string)

  predicate Applies(rule: BackupRule, gv: string, a: APIResource) {
    Admits(rule.apiGroups, gv) && Admits(rule.resources, a.name)
  }

  predicate Unrestricted(rule: BackupRule) {
    |rule.namespaces| == 0 || rule.namespaces[0] == "*"
  }

  /** Where to watch a resource: everywhere if an applying rule is unrestricted, else where the rules say. */
  ghost predicate Watched(rules: seq<BackupRule>, gv: string, a: APIResource, namespace: string) {
    if exists i :: 0 <= i < |rules| && Applies(rules[i], gv, a) && Unrestricted(rules[i]) then namespace == ""
    else exists i :: 0 <= i < |rules| && Applies(rules[i], gv, a) && namespace in rules[i].namespaces
  }

  ghost predicate Discovered(lists: seq<APIResourceList>, gv: string, a: APIResource) {
    exists i :: 0 <= i < |lists| && lists[i].groupVersion == gv && a in lists[i].resources
  }

  ghost predicate Supported(lists: seq<APIResourceList>, gv: string, a: APIResource) {
    Discovered(lists, gv, a) && a.supported
  }

  /** Discovered names are single path elements, and a group-version has one resource of each name. */
  ghost predicate DistinctNames(lists: seq<APIResourceList>) {
    && (forall gv, a :: Supported(lists, gv, a) ==> '/' !in a.name)
    && (forall gv, a, b :: Supported(lists, gv, a) && Supported(lists, gv, b) && a.name == b.name ==> a == b)
  }

  function PlanKey(gv: string, name: string): string { gv + "/" + name }

  lemma PlanKeyInjective(gv: string, name: string, gv': string, name': string)
    requires '/' !in name && '/' !in name' && PlanKey(gv, name) == PlanKey(gv', name')
    ensures gv == gv' && name == name'
  {
    SplitAtSeparator(gv, name, '/');
    SplitAtSeparator(gv', name', '/');
    SplitWithoutSeparator(name, '/');
    SplitWithoutSeparator(name', '/');
    assert Split(gv, '/') == (Split(gv, '/') + [name])[..|Split(gv, '/')|];
    assert Split(gv', '/') == (Split(gv', '/') + [name'])[..|Split(gv', '/')|];
    JoinSplit(gv, '/');
    JoinSplit(gv', '/');
  }

  type Plan = map<string, seq<Dynamic>>

  /** A resource of a group-version. */
  type Target = (string, APIResource)

  /** The clients planned for one resource. */
  ghost predicate Clients(rules: seq<BackupRule>, gv: string, a: APIResource, clients: seq<Dynamic>) {
    forall d :: d in clients <==> d.groupVersion == gv && d.resource == a && Watched(rules, gv, a, d.namespace)
  }

  /** The rules up to n, none of them unrestricted, name the clients' namespaces. */
  ghost predicate Named(rules: seq<BackupRule>, n: nat, gv: string, a: APIResource,
                        before: seq<Dynamic>, clients: seq<Dynamic>)
    requires n <= |rules|
  {
    && (forall i :: 0 <= i < n ==> !(Applies(rules[i], gv, a) && Unrestricted(rules[i])))
    && (forall d :: d in clients <==>
          d in before || (d.groupVersion == gv && d.resource == a &&
            exists i :: 0 <= i < n && Applies(rules[i], gv, a) && d.namespace in rules[i].namespaces))
  }

  /** The rule loop for one resource; `before` are the clients planned for the same resource earlier. */
  method PlanResource(rules: seq<BackupRule>, gv: string, a: APIResource, before: seq<Dynamic>)
    returns (clients: seq<Dynamic>)
    requires before == [] || Clients(rules, gv, a, before)
    ensures Clients(rules, gv, a, clients)
  {
    clients := before;
    for n := 0 to |rules|
      invariant Named(rules, n, gv, a, before, clients)
    {
      var rule := rules[n];
      var groupMatch := |rule.apiGroups| == 0 || gv in rule.apiGroups || rule.apiGroups[0] == "*";
      if groupMatch && (|rule.resources| == 0 || a.name in rule.resources || rule.resources[0] == "*") {
        if |rule.namespaces| == 0 || rule.namespaces[0] == "*" {
          clients := [Dynamic(gv, a, "")];
          return;
        }
        ghost var c0 := clients;
        for i := 0 to |rule.namespaces|
          invariant forall d :: d in clients <==>
            d in c0 || (d.groupVersion == gv && d.resource == a && d.namespace in rule.namespaces[..i])
        {
          clients := clients + [Dynamic(gv, a, rule.namespaces[i])];
        }
        assert rule.namespaces[..|rule.namespaces|] == rule.namespaces;
      }
    }
  }

  /** The plan so far: each done resource's clients under its key, and nothing else. */
  ghost predicate Planned(rules: seq<BackupRule>, done: set<Target>, dynamics: Plan) {
    && (forall t :: t in done ==>
          PlanKey(t.0, t.1.name) in dynamics && Clients(rules, t.0, t.1, dynamics[PlanKey(t.0, t.1.name)]))
    && (forall k :: k in dynamics ==> exists t :: t in done && PlanKey(t.0, t.1.name) == k)
  }

  /** A key in the plan belongs to one resource only. */
  lemma PlannedBefore(rules: seq<BackupRule>, lists: seq<APIResourceList>, done: set<Target>,
                      dynamics: Plan, gv: string, a: APIResource)
    requires DistinctNames(lists) && Supported(lists, gv, a) && forall t :: t in done ==> Supported(lists, t.0, t.1)
    requires Planned(rules, done, dynamics) && PlanKey(gv, a.name) in dynamics
    ensures Clients(rules, gv, a, dynamics[PlanKey(gv, a.name)])
  {
    hide Clients, PlanKey;
    var t :| t in done && PlanKey(t.0, t.1.name) == PlanKey(gv, a.name);
    PlanKeyInjective(t.0, t.1.name, gv, a.name);
  }

  lemma PlanOne(rules: seq<BackupRule>, lists: seq<APIResourceList>, done: set<Target>, dynamics: Plan,
                gv: string, a: APIResource, clients: seq<Dynamic>)
    requires DistinctNames(lists) && Supported(lists, gv, a) && forall t :: t in done ==> Supported(lists, t.0, t.1)
    requires Planned(rules, done, dynamics) && Clients(rules, gv, a, clients)
    ensures Planned(rules, done + {(gv, a)}, dynamics[PlanKey(gv, a.name) := clients])
  {
    hide Clients, PlanKey;
    forall t | t in done && PlanKey(t.0, t.1.name) == PlanKey(gv, a.name)
      ensures t == (gv, a)
    {
      PlanKeyInjective(t.0, t.1.name, gv, a.name);
    }
  }

  /** The supported resources of the first lists. */
  ghost predicate DoneLists(lists: seq<APIResourceList>, n: nat, done: set<Target>) {
    n <= |lists| && forall t :: t in done <==> Supported(lists[..n], t.0, t.1)
  }

  ghost predicate DoneOne(r: APIResourceList, i: nat, earlier: set<Target>, done: set<Target>) {
    i <= |r.resources| &&
    forall t :: t in done <==> t in earlier || (t.0 == r.groupVersion && t.1 in r.resources[..i] && t.1.supported)
  }

  lemma DoneMore(lists: seq<APIResourceList>, n: nat, i: nat, earlier: set<Target>, done: set<Target>)
    requires n < |lists| && DoneLists(lists, n, earlier) && DoneOne(lists[n], i, earlier, done)
    ensures forall t :: t in done ==> Supported(lists, t.0, t.1)
    ensures i == |lists[n].resources| ==> DoneLists(lists, n + 1, done)
  {
    var r := lists[n];
    assert r.resources[..|r.resources|] == r.resources;
    forall gv, a
      ensures Discovered(lists[..n + 1], gv, a) <==>
        Discovered(lists[..n], gv, a) || (gv == r.groupVersion && a in r.resources)
      ensures Discovered(lists[..n], gv, a) ==> Discovered(lists, gv, a)
    {
      assert forall j :: 0 <= j < n ==> lists[..n + 1][j] == lists[..n][j] == lists[j];
      assert lists[..n + 1][n] == r;
    }
    forall t | t in done
      ensures Supported(lists, t.0, t.1)
    {
      if t !in earlier {
        assert Discovered(lists, t.0, t.1);
      }
    }
  }

  /** The first half of getDynamics: every supported resource's clients. */
  method PlanAll(rules: seq<BackupRule>, lists: seq<APIResourceList>)
    returns (dynamics: Plan, ok: bool, ghost done: set<Target>)
    requires DistinctNames(lists)
    ensures ok <==> forall i :: 0 <= i < |lists| ==> |Split(lists[i].groupVersion, '/')| <= 2
    ensures ok ==> DoneLists(lists, |lists|, done) && Planned(rules, done, dynamics)
  {
    hide DistinctNames, PlanKey, Watched, Clients, Planned, Split;
    dynamics, done := map[], {};
    NothingPlanned(rules, lists);
    for n := 0 to |lists|
      invariant forall i :: 0 <= i < n ==> |Split(lists[i].groupVersion, '/')| <= 2
      invariant DoneLists(lists, n, done) && Planned(rules, done, dynamics)
    {
      var r := lists[n];
      if |Split(r.groupVersion, '/')| > 2 {
        ok := false;
        return;
      }
      ghost var earlier := done;
      for i := 0 to |r.resources|
        invariant DoneOne(r, i, earlier, done) && Planned(rules, done, dynamics)
      {
        var a := r.resources[i];
        if !a.supported {
          continue;
        }
        DoneMore(lists, n, i, earlier, done);
        assert Discovered(lists, r.groupVersion, a);
        var key := PlanKey(r.groupVersion, a.name);
        var before := [];
        if key in dynamics {
          PlannedBefore(rules, lists, done, dynamics, r.groupVersion, a);
          before := dynamics[key];
        }
        var clients := PlanResource(rules, r.groupVersion, a, before);
        PlanOne(rules, lists, done, dynamics, r.groupVersion, a, clients);
        dynamics, done := dynamics[key := clients], done + {(r.groupVersion, a)};
      }
      DoneMore(lists, n, |r.resources|, earlier, done);
    }
    ok := true;
  }

  lemma NothingPlanned(rules: seq<BackupRule>, lists: seq<APIResourceList>)
    ensures DoneLists(lists, 0, {}) && Planned(rules, {}, map[])
  {
    assert lists[..0] == [];
  }

  /** The second half: one client for each namespace of a resource. */
  method OncePerNamespace(clients: seq<Dynamic>) returns (ret: seq<Dynamic>)
    requires forall c, d :: c in clients && d in clients ==>
      c.groupVersion == d.groupVersion && c.resource == d.resource
    ensures forall d :: d in ret <==> d in clients
    ensures forall i, j :: 0 <= i < j < |ret| ==> ret[i] != ret[j]
  {
    ret := [];
    var namespaces: set<string> := {};
    for n := 0 to |clients|
      invariant forall d :: d in ret <==> d in clients[..n]
      invariant forall s :: s in namespaces <==> exists d :: d in ret && d.namespace == s
      invariant forall i, j :: 0 <= i < j < |ret| ==> ret[i] != ret[j]
    {
      var client := clients[n];
      assert client in clients && forall d :: d in ret ==> d in clients;
      if client.namespace !in namespaces {
        ret, namespaces := ret + [client], namespaces + {client.namespace};
      }
    }
    assert clients[..|clients|] == clients;
  }

  /** A client in the plan lies under its resource's key. */
  lemma ClientsKey(rules: seq<BackupRule>, done: set<Target>, dynamics: Plan, k: string)
    requires Planned(rules, done, dynamics) && k in dynamics
    ensures forall d :: d in dynamics[k] ==> PlanKey(d.groupVersion, d.resource.name) == k
    ensures forall c, d :: c in dynamics[k] && d in dynamics[k] ==>
      c.groupVersion == d.groupVersion && c.resource == d.resource
  {
    hide PlanKey, Watched;
    var t :| t in done && PlanKey(t.0, t.1.name) == k;
    assert Clients(rules, t.0, t.1, dynamics[k]);
  }

  lemma ClientsOf(rules: seq<BackupRule>, lists: seq<APIResourceList>, done: set<Target>, dynamics: Plan, d: Dynamic)
    requires DoneLists(lists, |lists|, done) && Planned(rules, done, dynamics)
    ensures (exists k :: k in dynamics && d in dynamics[k]) <==>
      Supported(lists, d.groupVersion, d.resource) && Watched(rules, d.groupVersion, d.resource, d.namespace)
  {
    hide PlanKey, Watched;
    assert lists[..|lists|] == lists;
    if exists k :: k in dynamics && d in dynamics[k] {
      var k :| k in dynamics && d in dynamics[k];
      var t :| t in done && PlanKey(t.0, t.1.name) == k;
      assert Clients(rules, t.0, t.1, dynamics[k]);
      assert Supported(lists, t.0, t.1);
    }
    if Supported(lists, d.groupVersion, d.resource) && Watched(rules, d.groupVersion, d.resource, d.namespace) {
      var t := (d.groupVersion, d.resource);
      assert t in done;
      assert Clients(rules, t.0, t.1, dynamics[PlanKey(t.0, t.1.name)]);
    }
  }

  /**
   * getDynamics: each supported resource is watched in exactly the namespaces the policy asks for, each once;
   * None is the error of a malformed group-version.
   */
  method GetDynamics(rules: seq<BackupRule>, lists: seq<APIResourceList>) returns (ret: Option<seq<Dynamic>>)
    requires DistinctNames(lists)
    ensures ret.None? <==> exists i :: 0 <= i < |lists| && |Split(lists[i].groupVersion, '/')| > 2
    ensures ret.Some? ==>
      && (forall d :: d in ret.value <==>
            Supported(lists, d.groupVersion, d.resource) && Watched(rules, d.groupVersion, d.resource, d.namespace))
      && forall i, j :: 0 <= i < j < |ret.value| ==> ret.value[i] != ret.value[j]
  {
    hide DistinctNames, PlanKey, Watched, Clients, Planned, Split, Supported;
    var dynamics, ok;
    ghost var done;
    dynamics, ok, done := PlanAll(rules, lists);
    if !ok {
      return None;
    }
    var all: seq<Dynamic> := [];
    var left := dynamics.Keys;
    while left != {}
      invariant left <= dynamics.Keys
      invariant forall d :: d in all <==> exists k :: k in dynamics && k !in left && d in dynamics[k]
      invariant forall d :: d in all ==> PlanKey(d.groupVersion, d.resource.name) !in left
      invariant forall i, j :: 0 <= i < j < |all| ==> all[i] != all[j]
    {
      var k :| k in left;
      ClientsKey(rules, done, dynamics, k);
      var clients := OncePerNamespace(dynamics[k]);
      ghost var before := all;
      AppendDistinct(before, clients, k);
      all := all + clients;
      left := left - {k};
    }
    forall d: Dynamic
      ensures d in all <==>
        Supported(lists, d.groupVersion, d.resource) && Watched(rules, d.groupVersion, d.resource, d.namespace)
    {
      ClientsOf(rules, lists, done, dynamics, d);
    }
    ret := Some(all);
  }

  lemma AppendDistinct(a: seq<Dynamic>, b: seq<Dynamic>, k: string)
    requires forall i, j :: 0 <= i < j < |a| ==> a[i] != a[j]
    requires forall i, j :: 0 <= i < j < |b| ==> b[i] != b[j]
    requires forall d :: d in a ==> PlanKey(d.groupVersion, d.resource.name) != k
    requires forall d :: d in b ==> PlanKey(d.groupVersion, d.resource.name) == k
    ensures forall i, j :: 0 <= i < j < |a + b| ==> (a + b)[i] != (a + b)[j]
  {
    hide PlanKey;
    forall i, j | 0 <= i < j < |a + b|
      ensures (a + b)[i] != (a + b)[j]
    {
      if i < |a| <= j {
        assert a[i] in a && b[j - |a|] in b;
      }
    }
  }

  // ---- the handlers ----

  /** The names are ones that the API server allows. */
  ghost predicate ValidObject(gv: string, kind: string, namespace: string) {
    Anything(gv, kind, namespace).WellFormed()
  }

  /** Some revision of some object of the kind in the namespace. */
  function Anything(gv: string, kind: string, namespace: string): Revision {
    Revision(gv, kind, namespace, "x", 0, 0, false)
  }

  lemma HandlerKeyPrefix(gv: string, kind: string, namespace: string)
    requires ValidObject(gv, kind, namespace)
    ensures Anything(gv, kind, namespace).ResourceKey() == HandlerKey(gv, kind, namespace) + "/" + "x"
  {
    var r := Anything(gv, kind, namespace);
    var n := |Split(gv, '/')| + 1 + |Elements(namespace)|;
    StateWalk.NamespacePrefix(r);
    ResourceKeyIsJoin(r);
    var elems := r.ResourceElements();
    assert elems[n..] == ["x"] && elems[..n] + elems[n..] == elems;
    JoinConcat(elems[..n], elems[n..], '/');
    assert Join(["x"], '/') == "x";
  }

  lemma HandlerKeyInjective(gv: string, kind: string, namespace: string, gv': string, kind': string, namespace': string)
    requires ValidObject(gv, kind, namespace) && ValidObject(gv', kind', namespace')
    requires HandlerKey(gv, kind, namespace) == HandlerKey(gv', kind', namespace')
    ensures gv == gv' && kind == kind' && namespace == namespace'
  {
    HandlerKeyPrefix(gv, kind, namespace);
    HandlerKeyPrefix(gv', kind', namespace');
    ResourceKeyInjective(Anything(gv, kind, namespace), Anything(gv', kind', namespace'));
  }

  /** Each handler is that of a planned client, and lies under the client's key. */
  ghost predicate HandlersOf(handlers: ResourceHandlers, clients: seq<Dynamic>) {
    && (forall d :: d in clients ==> HandlerKey(d.groupVersion, d.resource.kind, d.namespace) in handlers)
    && (forall k :: k in handlers ==> exists d :: d in clients && IsHandlerOf(k, handlers[k], d))
  }

  predicate IsHandlerOf(key: string, h: Handler, d: Dynamic) {
    && key == HandlerKey(d.groupVersion, d.resource.kind, d.namespace)
    && h.apiVersion == d.groupVersion && h.kind == d.resource.kind
    && h.resource == d.resource.name && h.namespace == d.namespace
  }

  /** watchDynamic on every planned client. */
  method WatchAll(clients: seq<Dynamic>) returns (handlers: ResourceHandlers)
    ensures HandlersOf(handlers, clients)
  {
    hide HandlerKey;
    handlers := map[];
    for n := 0 to |clients|
      invariant HandlersOf(handlers, clients[..n])
    {
      var d := clients[n];
      var h := Handler(d.groupVersion, d.resource.kind, d.resource.name, d.namespace, {});
      ghost var before, earlier := clients[..n], handlers;
      handlers := Set(handlers, d.groupVersion, d.resource.kind, d.namespace, h);
      assert clients[..n + 1] == before + [d];
      forall k | k in handlers
        ensures exists c :: c in clients[..n + 1] && IsHandlerOf(k, handlers[k], c)
      {
        if k == HandlerKey(d.groupVersion, d.resource.kind, d.namespace) {
          assert IsHandlerOf(k, handlers[k], d);
        } else {
          var c :| c in before && IsHandlerOf(k, earlier[k], c);
          assert c in clients[..n + 1];
        }
      }
    }
    assert clients[..|clients|] == clients;
  }

  /** A handler that is found lies under the key of the namespace or of all namespaces. */
  lemma HandlerKeyChosen(handlers: ResourceHandlers, gv: string, kind: string, namespace: string) returns (ns: string)
    requires HandlerFor(handlers, gv, kind, namespace).Some?
    ensures ns == namespace || ns == ""
    ensures HandlerKey(gv, kind, ns) in handlers
    ensures HandlerFor(handlers, gv, kind, namespace).value == handlers[HandlerKey(gv, kind, ns)]
  {
    hide HandlerKey;
    ns := if HandlerKey(gv, kind, namespace) in handlers then namespace else "";
  }

  /** The client whose handler lies under a key is a client of the key's kind and namespace. */
  lemma ClientOfKey(handlers: ResourceHandlers, clients: seq<Dynamic>, gv: string, kind: string, ns: string)
    returns (c: Dynamic)
    requires HandlersOf(handlers, clients) && HandlerKey(gv, kind, ns) in handlers && ValidObject(gv, kind, ns)
    requires forall c :: c in clients ==> ValidObject(c.groupVersion, c.resource.kind, c.namespace)
    ensures c in clients && c.groupVersion == gv && c.resource.kind == kind && c.namespace == ns
    ensures IsHandlerOf(HandlerKey(gv, kind, ns), handlers[HandlerKey(gv, kind, ns)], c)
  {
    hide HandlerKey, ValidObject, IsHandlerOf;
    var key := HandlerKey(gv, kind, ns);
    c :| c in clients && IsHandlerOf(key, handlers[key], c);
    HandlerOfKey(key, handlers[key], c);
    HandlerKeyInjective(gv, kind, ns, c.groupVersion, c.resource.kind, c.namespace);
  }

  lemma HandlerOfKey(key: string, h: Handler, c: Dynamic)
    requires IsHandlerOf(key, h, c)
    ensures key == HandlerKey(c.groupVersion, c.resource.kind, c.namespace)
  {
    hide HandlerKey;
  }

  lemma ValidInAll(gv: string, kind: string, namespace: string)
    requires ValidObject(gv, kind, namespace)
    ensures ValidObject(gv, kind, "")
  {
  }

  /** The handler found for an object is that of a client of the object's kind, for a fitting namespace. */
  lemma HandlerFound(handlers: ResourceHandlers, clients: seq<Dynamic>, gv: string, kind: string, namespace: string)
    returns (c: Dynamic)
    requires HandlersOf(handlers, clients) && ValidObject(gv, kind, namespace)
    requires forall c :: c in clients ==> ValidObject(c.groupVersion, c.resource.kind, c.namespace)
    requires HandlerFor(handlers, gv, kind, namespace).Some?
    ensures c in clients && c.groupVersion == gv && c.resource.kind == kind
    ensures c.namespace == "" || c.namespace == namespace
    ensures
      var h := HandlerFor(handlers, gv, kind, namespace).value;
      h.apiVersion == gv && h.kind == kind && h.resource == c.resource.name && h.namespace == c.namespace
  {
    hide HandlerKey, ValidObject, HandlersOf, HandlerFor;
    ValidInAll(gv, kind, namespace);
    var ns := HandlerKeyChosen(handlers, gv, kind, namespace);
    c := ClientOfKey(handlers, clients, gv, kind, ns);
  }

  /** A client's watch that delivers an object has left a handler to be found. */
  lemma HandlerExists(handlers: ResourceHandlers, clients: seq<Dynamic>, d: Dynamic, namespace: string)
    requires HandlersOf(handlers, clients) && d in clients && (d.namespace == "" || d.namespace == namespace)
    ensures HandlerFor(handlers, d.groupVersion, d.resource.kind, namespace).Some?
  {
    hide HandlerKey;
  }

  /** A group-version has one watched resource of each kind. */
  ghost predicate DistinctKinds(clients: seq<Dynamic>) {
    forall c, d :: c in clients && d in clients && SameKind(c, d) ==> c.resource == d.resource
  }

  predicate SameKind(c: Dynamic, d: Dynamic) {
    c.groupVersion == d.groupVersion && c.resource.kind == d.resource.kind
  }

  /** For every object a watch delivers, the handler found is one of the watched resource and covers its namespace. */
  lemma HandlerCovers(handlers: ResourceHandlers, clients: seq<Dynamic>, d: Dynamic, namespace: string)
    requires HandlersOf(handlers, clients) && d in clients && DistinctKinds(clients)
    requires forall c :: c in clients ==> ValidObject(c.groupVersion, c.resource.kind, c.namespace)
    requires d.namespace == "" || d.namespace == namespace
    requires ValidObject(d.groupVersion, d.resource.kind, namespace)
    ensures
      var h := HandlerFor(handlers, d.groupVersion, d.resource.kind, namespace);
      && h.Some? && h.value.apiVersion == d.groupVersion && h.value.kind == d.resource.kind
      && h.value.resource == d.resource.name
      && (h.value.namespace == "" || h.value.namespace == namespace)
  {
    hide HandlersOf, ValidObject, HandlerFor;
    HandlerExists(handlers, clients, d, namespace);
    var c := HandlerFound(handlers, clients, d.groupVersion, d.resource.kind, namespace);
  }

  // ---- from discovery and policy to the handler ----

  /** Discovered names are valid, and a group-version has one supported resource of each kind. */
  ghost predicate ValidKinds(lists: seq<APIResourceList>) {
    && (forall gv, a :: Supported(lists, gv, a) ==> ValidObject(gv, a.kind, ""))
    && (forall gv, a, b :: Supported(lists, gv, a) && Supported(lists, gv, b) && a.kind == b.kind ==> a == b)
  }

  /** The policy's namespaces are names that a namespace can have, or empty. */
  ghost predicate ValidNamespaces(rules: seq<BackupRule>) {
    forall i, ns :: 0 <= i < |rules| && ns in rules[i].namespaces ==> ns == "" || Ordinary(ns)
  }

  ghost predicate ClientsFor(rules: seq<BackupRule>, lists: seq<APIResourceList>, clients: seq<Dynamic>) {
    forall d :: d in clients <==>
      Supported(lists, d.groupVersion, d.resource) && Watched(rules, d.groupVersion, d.resource, d.namespace)
  }

  lemma ClientsValid(rules: seq<BackupRule>, lists: seq<APIResourceList>, clients: seq<Dynamic>)
    requires ValidKinds(lists) && ValidNamespaces(rules) && ClientsFor(rules, lists, clients)
    ensures forall c :: c in clients ==> ValidObject(c.groupVersion, c.resource.kind, c.namespace)
  {
    hide Supported;
    forall c | c in clients
      ensures ValidObject(c.groupVersion, c.resource.kind, c.namespace)
    {
      assert ValidObject(c.groupVersion, c.resource.kind, "");
      WatchedIsValid(rules, c);
    }
  }

  lemma WatchedIsValid(rules: seq<BackupRule>, d: Dynamic)
    requires ValidNamespaces(rules) && Watched(rules, d.groupVersion, d.resource, d.namespace)
    ensures d.namespace == "" || Ordinary(d.namespace)
  {
    hide Ordinary;
  }

  /**
   * For an object of a supported resource, a handler is found if and only if the policy watches the resource
   * in all namespaces or in the object's; and then it is the handler of that resource and such a watch.
   */
  lemma HandlerFoundIff(rules: seq<BackupRule>, lists: seq<APIResourceList>, clients: seq<Dynamic>,
                        handlers: ResourceHandlers, gv: string, a: APIResource, namespace: string)
    requires ValidKinds(lists) && ValidNamespaces(rules)
    requires ClientsFor(rules, lists, clients) && HandlersOf(handlers, clients)
    requires Supported(lists, gv, a) && (namespace == "" || Ordinary(namespace))
    ensures
      var h := HandlerFor(handlers, gv, a.kind, namespace);
      && (h.Some? <==> Watched(rules, gv, a, "") || Watched(rules, gv, a, namespace))
      && (h.Some? ==> HandlesFor(h.value, rules, gv, a, namespace))
  {
    assert ValidObject(gv, a.kind, "") && ValidObject(gv, a.kind, namespace);
    hide HandlersOf, ValidObject, HandlerFor, Supported, Watched, Ordinary;
    ClientsValid(rules, lists, clients);
    if HandlerFor(handlers, gv, a.kind, namespace).Some? {
      var c := HandlerFound(handlers, clients, gv, a.kind, namespace);
      assert c.resource == a;
    }
    if Watched(rules, gv, a, "") {
      HandlerExists(handlers, clients, Dynamic(gv, a, ""), namespace);
    }
    if Watched(rules, gv, a, namespace) {
      HandlerExists(handlers, clients, Dynamic(gv, a, namespace), namespace);
    }
  }

  /** A handler of the resource's watch that covers the namespace. */
  ghost predicate HandlesFor(h: Handler, rules: seq<BackupRule>, gv: string, a: APIResource, namespace: string) {
    && h.apiVersion == gv && h.kind == a.kind && h.resource == a.name
    && (h.namespace == "" || h.namespace == namespace) && Watched(rules, gv, a, h.namespace)
  }

  /** The controller's start, from the discovery lists and the policy's rules to the handlers. */
  method StartWatches(rules: seq<BackupRule>, lists: seq<APIResourceList>) returns (handlers: Option<ResourceHandlers>)
    requires DistinctNames(lists)
    ensures handlers.None? <==> exists i :: 0 <= i < |lists| && |Split(lists[i].groupVersion, '/')| > 2
    ensures handlers.Some? && ValidKinds(lists) && ValidNamespaces(rules) ==>
      forall gv, a, namespace :: Supported(lists, gv, a) && (namespace == "" || Ordinary(namespace)) ==>
        var h := HandlerFor(handlers.value, gv, a.kind, namespace);
        && (h.Some? <==> Watched(rules, gv, a, "") || Watched(rules, gv, a, namespace))
        && (h.Some? ==> HandlesFor(h.value, rules, gv, a, namespace))
  {
    hide DistinctNames, Supported, Watched, HandlerFor, HandlesFor, HandlersOf, Split, Ordinary, ValidKinds,
         ValidNamespaces;
    var clients := GetDynamics(rules, lists);
    if clients.None? {
      return None;
    }
    var watched := WatchAll(clients.value);
    handlers := Some(watched);
    if ValidKinds(lists) && ValidNamespaces(rules) {
      forall gv, a, namespace | Supported(lists, gv, a) && (namespace == "" || Ordinary(namespace))
        ensures
          var h := HandlerFor(watched, gv, a.kind, namespace);
          && (h.Some? <==> Watched(rules, gv, a, "") || Watched(rules, gv, a, namespace))
          && (h.Some? ==> HandlesFor(h.value, rules, gv, a, namespace))
      {
        HandlerFoundIff(rules, lists, clients.value, watched, gv, a, namespace);
      }
    }
  }
}
