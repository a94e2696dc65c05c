/**
 The global map of actions, as start-up fills it: first with the merged actions (internal/auth/action.go), then
 with the endpoints their routes stand for, after which every named route must have been assigned
 (internal/api/v1/router.go).
 */
module ActionRegistry {
  import opened Actions
  import opened Sorting
  import opened Wrappers

  type NamedRoutes = map<string, Route>

  // ---- What start-up computes

  /** The endpoint of a route identifier.  Go reads an unknown identifier as the empty route. */
  function EndpointFor(kind: Kind, named: NamedRoutes, id: string): Endpoint {
    var route := if id in named then named[id] else Route("", "");
    Endpoint(route.verb, if kind.Http? then "/api/v1" else "/wapi/v1", route.path)
  }

  function EndpointsFor(kind: Kind, named: NamedRoutes, ids: seq<string>): seq<Endpoint> {
    seq(|ids|, i requires 0 <= i < |ids| => EndpointFor(kind, named, ids[i]))
  }

  function Exposed(a: Action, routes: NamedRoutes, wsRoutes: NamedRoutes): Action {
    a.(endpoints := a.endpoints + EndpointsFor(Http, routes, a.routes) + EndpointsFor(WebSocket, wsRoutes, a.wsRoutes))
  }

  function Publish(m: map<string, Action>, done: seq<Action>, routes: NamedRoutes,
      wsRoutes: NamedRoutes): map<string, Action> {
    if done == [] then m
    else
      var last := done[|done| - 1];
      Publish(m, done[..|done| - 1], routes, wsRoutes)[last.id := Exposed(last, routes, wsRoutes)]
  }

  function Assigned(kind: Kind, done: seq<Action>): set<string> {
    if done == [] then {}
    else Assigned(kind, done[..|done| - 1]) + Elements(RouteIDs(kind, done[|done| - 1]))
  }

  /** Start-up succeeds. */
  predicate Starts(m: map<string, Action>, actions: seq<Action>, routes: NamedRoutes, wsRoutes: NamedRoutes) {
    var p := ProcessAll(LoadMap(m, actions), actions);
    p.ok && routes.Keys <= Assigned(Http, p.done) && wsRoutes.Keys <= Assigned(WebSocket, p.done)
  }

  /** The map start-up leaves behind. */
  function Started(m: map<string, Action>, actions: seq<Action>, routes: NamedRoutes,
      wsRoutes: NamedRoutes): map<string, Action> {
    var p := ProcessAll(LoadMap(m, actions), actions);
    if p.ok then Publish(p.actionsMap, p.done, routes, wsRoutes) else p.actionsMap
  }

  predicate Matches(e: Endpoint, verb: string, fullpath: string) {
    e.verb == verb && e.base + e.path == fullpath
  }

  ghost predicate Allows(a: Action, verb: string, fullpath: string) {
    exists e :: e in a.endpoints && Matches(e, verb, fullpath)
  }

  // ---- Start-up as the source performs it

  /** mergeAndSort and Merge. */
  method Merge(a: Action, dependency: Action) returns (r: Action)
    ensures r == Merged(a, dependency)
  {
    var routes := UniqueAndSort(a.routes + dependency.routes);
    var wsRoutes := UniqueAndSort(a.wsRoutes + dependency.wsRoutes);
    r := a.(routes := routes, wsRoutes := wsRoutes);
  }

  method IsAllowed(a: Action, verb: string, fullpath: string) returns (allowed: bool)
    ensures allowed <==> Allows(a, verb, fullpath)
    ensures allowed <==> exists e :: e in a.endpoints && e.verb == verb && e.base + e.path == fullpath
  {
    for i := 0 to |a.endpoints|
      invariant forall k :: 0 <= k < i ==> !Matches(a.endpoints[k], verb, fullpath)
    {
      if Matches(a.endpoints[i], verb, fullpath) {
        return true;
      }
    }
    return false;
  }

  /** validateActionRoutes. */
  method ValidateActionRoutes(available: NamedRoutes, covered: set<string>) returns (ok: bool)
    ensures ok <==> available.Keys <= covered
  {
    var rest := available.Keys;
    while rest != {}
      invariant rest <= available.Keys && available.Keys - rest <= covered
    {
      var id :| id in rest;
      if id !in covered {
        return false;
      }
      rest := rest - {id};
    }
    return true;
  }

  class Registry {
    var actionsMap: map<string, Action>

    constructor ()
      ensures actionsMap == map[]
    {
      actionsMap := map[];
    }

    method Load(list: seq<Action>)
      modifies this
      ensures actionsMap == LoadMap(old(actionsMap), list)
    {
      for i := 0 to |list|
        invariant actionsMap == LoadMap(old(actionsMap), list[..i])
      {
        actionsMap := actionsMap[list[i].id := list[i]];
        assert list[..i + 1][..i] == list[..i];
      }
      assert list[..|list|] == list;
    }

    /** The inner loop of InitActions. */
    method MergeDependencies(a: Action) returns (ok: bool, merged: Action)
      ensures ok <==> MergeAll(a, a.dependsOn, actionsMap).Ok?
      ensures ok ==> merged == MergeAll(a, a.dependsOn, actionsMap).value
    {
      merged := a;
      for k := 0 to |a.dependsOn|
        invariant MergeAll(a, a.dependsOn[..k], actionsMap) == Ok(merged)
      {
        MergeAllNext(a, a.dependsOn, actionsMap, k);
        if a.dependsOn[k] !in actionsMap {
          return false, merged;
        }
        merged := Merge(merged, actionsMap[a.dependsOn[k]]);
      }
      assert a.dependsOn[..|a.dependsOn|] == a.dependsOn;
      ok := true;
    }

    /** InitActions: the actions come back merged as far as it got. */
    method InitActions(list: seq<Action>) returns (ok: bool, actions: seq<Action>)
      modifies this
      ensures var p := ProcessAll(LoadMap(old(actionsMap), list), list);
        ok == p.ok && actionsMap == p.actionsMap && actions == p.done + list[|p.done|..]
    {
      actions := list;
      Load(list);
      ghost var loaded := actionsMap;
      for i := 0 to |list|
        invariant |actions| == |list| && actions[i..] == list[i..]
        invariant ProcessAll(loaded, list[..i]) == Progress(true, actionsMap, actions[..i])
      {
        ProcessNext(loaded, list, i);
        var found, merged := MergeDependencies(actions[i]);
        if !found {
          FailureStays(loaded, list, i + 1);
          return false, actions;
        }
        actionsMap := actionsMap[merged.id := merged];
        MergeAllSucceeds(list[i], list[i].dependsOn, ProcessAll(loaded, list[..i]).actionsMap);
        actions := actions[i := merged];
      }
      assert list[..|list|] == list && actions[..|list|] == actions;
      ok := true;
    }

    /** The loop of InitAuth that gives the actions their endpoints, and the routes they cover. */
    method AddEndpoints(actions: seq<Action>, routes: NamedRoutes, wsRoutes: NamedRoutes)
      returns (covered: set<string>, coveredWs: set<string>)
      modifies this
      ensures actionsMap == Publish(old(actionsMap), actions, routes, wsRoutes)
      ensures covered == Assigned(Http, actions) && coveredWs == Assigned(WebSocket, actions)
    {
      covered, coveredWs := {}, {};
      for i := 0 to |actions|
        invariant actionsMap == Publish(old(actionsMap), actions[..i], routes, wsRoutes)
        invariant covered == Assigned(Http, actions[..i]) && coveredWs == Assigned(WebSocket, actions[..i])
      {
        var a := actions[i];
        var endpoints, ids := Expose(Http, routes, a.routes);
        var wsEndpoints, wsIds := Expose(WebSocket, wsRoutes, a.wsRoutes);
        actionsMap := actionsMap[a.id := a.(endpoints := a.endpoints + endpoints + wsEndpoints)];
        covered, coveredWs := covered + ids, coveredWs + wsIds;
        assert actions[..i + 1][..i] == actions[..i];
      }
      assert actions[..|actions|] == actions;
    }

    method InitAuth(list: seq<Action>, routes: NamedRoutes, wsRoutes: NamedRoutes) returns (ok: bool)
      modifies this
      ensures ok <==> Starts(old(actionsMap), list, routes, wsRoutes)
      ensures actionsMap == Started(old(actionsMap), list, routes, wsRoutes)
      ensures var p := ProcessAll(LoadMap(old(actionsMap), list), list);
        !p.ok ==> !ok && actionsMap == p.actionsMap
    {
      var actions;
      ok, actions := InitActions(list);
      if !ok {
        return;
      }
      assert list[|list|..] == [] && actions == ProcessAll(LoadMap(old(actionsMap), list), list).done;
      var covered, coveredWs := AddEndpoints(actions, routes, wsRoutes);
      ok := ValidateActionRoutes(routes, covered);
      if ok {
        ok := ValidateActionRoutes(wsRoutes, coveredWs);
      }
    }
  }

  /** One of the two inner loops of InitAuth. */
  method Expose(kind: Kind, named: NamedRoutes, ids: seq<string>) returns (endpoints: seq<Endpoint>,
      covered: set<string>)
    ensures endpoints == EndpointsFor(kind, named, ids) && covered == Elements(ids)
    ensures |endpoints| == |ids| && forall k :: 0 <= k < |ids| ==>
      && endpoints[k].base == (if kind.Http? then "/api/v1" else "/wapi/v1")
      && (ids[k] in named ==> endpoints[k].verb == named[ids[k]].verb && endpoints[k].path == named[ids[k]].path)
      && (ids[k] !in named ==> endpoints[k].verb == endpoints[k].path == "")
  {
    endpoints, covered := [], {};
    for i := 0 to |ids|
      invariant endpoints == EndpointsFor(kind, named, ids[..i]) && covered == Elements(ids[..i])
    {
      endpoints, covered := endpoints + [EndpointFor(kind, named, ids[i])], covered + {ids[i]};
      ElementsSnoc(ids[..i], ids[i]);
      assert ids[..i + 1] == ids[..i] + [ids[i]];
    }
    assert ids[..|ids|] == ids;
  }

  lemma ProcessNext(m: map<string, Action>, actions: seq<Action>, i: nat)
    requires i < |actions| && ProcessAll(m, actions[..i]).ok
    ensures var p, a := ProcessAll(m, actions[..i]), actions[i];
      ProcessAll(m, actions[..i + 1]) ==
      match MergeAll(a, a.dependsOn, p.actionsMap)
      case Err => p.(ok := false)
      case Ok(b) => Progress(true, p.actionsMap[a.id := b], p.done + [b])
  {
    assert actions[..i + 1][..i] == actions[..i];
  }

  lemma {:induction false} FailureStays(m: map<string, Action>, actions: seq<Action>, n: nat)
    requires n <= |actions| && !ProcessAll(m, actions[..n]).ok
    ensures ProcessAll(m, actions) == ProcessAll(m, actions[..n])
    decreases |actions|
  {
    if n < |actions| {
      assert actions[..|actions| - 1][..n] == actions[..n];
      FailureStays(m, actions[..|actions| - 1], n);
    } else {
      assert actions[..n] == actions;
    }
  }

  // ---- When start-up succeeds, and what it leaves behind

  lemma {:induction false} AssignedMeans(kind: Kind, done: seq<Action>, r: string)
    ensures r in Assigned(kind, done) <==> exists i :: 0 <= i < |done| && r in RouteIDs(kind, done[i])
  {
    if done != [] {
      var n := |done| - 1;
      AssignedMeans(kind, done[..n], r);
      if i :| 0 <= i < |done[..n]| && r in RouteIDs(kind, done[..n][i]) {
        assert done[i] == done[..n][i];
      }
      if i :| 0 <= i < |done| && r in RouteIDs(kind, done[i]) {
        assert i < n ==> done[..n][i] == done[i];
      }
    }
  }

  ghost predicate Listed(kind: Kind, actions: seq<Action>, r: string) {
    exists i: nat :: Owns(kind, actions, i, r)
  }

  /** Merging assigns no route that nobody lists, and loses none. */
  lemma AssignedIffListed(kind: Kind, actions: seq<Action>, r: string)
    requires Resolved(actions).ok
    ensures r in Assigned(kind, Resolved(actions).done) <==> Listed(kind, actions, r)
  {
    var done := Resolved(actions).done;
    AssignedMeans(kind, done, r);
    if i: nat :| Owns(kind, actions, i, r) {
      BetweenDirectAndClosure(kind, actions, i, i, r);
    }
    if i: nat :| i < |done| && r in RouteIDs(kind, done[i]) {
      BetweenDirectAndClosure(kind, actions, i, i, r);
      var path: seq<nat> :| Leads(kind, actions, i, r, path);
      assert Owns(kind, actions, path[|path| - 1], r);
    }
  }

  /** Start-up succeeds exactly when every dependency is in the list and every named route is listed by an action. */
  lemma StartsIffAllListed(actions: seq<Action>, routes: NamedRoutes, wsRoutes: NamedRoutes)
    ensures Starts(map[], actions, routes, wsRoutes) <==>
      DependenciesKnown(actions, |actions|) &&
      (forall r :: r in routes ==> Listed(Http, actions, r)) && (forall r :: r in wsRoutes ==> Listed(WebSocket, actions, r))
  {
    ResolvedSucceeds(actions);
    if Resolved(actions).ok {
      forall kind, r ensures r in Assigned(kind, Resolved(actions).done) <==> Listed(kind, actions, r) {
        AssignedIffListed(kind, actions, r);
      }
    }
  }

  lemma {:induction false} PublishedAt(m: map<string, Action>, done: seq<Action>, routes: NamedRoutes,
      wsRoutes: NamedRoutes, n: nat, id: string)
    requires n <= |done| && LastWith(done, n, id).Some?
    ensures var m' := Publish(m, done[..n], routes, wsRoutes);
      id in m' && m'[id] == Exposed(done[LastWith(done, n, id).value], routes, wsRoutes)
  {
    assert done[..n][..n - 1] == done[..n - 1];
    if done[n - 1].id != id {
      PublishedAt(m, done, routes, wsRoutes, n - 1, id);
    }
  }

  lemma {:induction false} LastWithSameIDs(a: seq<Action>, b: seq<Action>, n: nat, id: string)
    requires n <= |a| == |b| && forall k :: 0 <= k < |a| ==> a[k].id == b[k].id
    ensures LastWith(a, n, id) == LastWith(b, n, id)
  {
    if n > 0 {
      LastWithSameIDs(a, b, n - 1, id);
    }
  }

  /** The route is one that the action reaches, and its endpoint is the one called. */
  ghost predicate Grants(kind: Kind, actions: seq<Action>, i: nat, named: NamedRoutes, verb: string, fullpath: string) {
    exists r :: ReachedBackwards(kind, actions, i, r) && Matches(EndpointFor(kind, named, r), verb, fullpath)
  }

  /** After start-up an identifier allows exactly its last action's own endpoints and those of the routes it reaches. */
  lemma AllowedAfterStart(actions: seq<Action>, routes: NamedRoutes, wsRoutes: NamedRoutes, id: string, verb: string,
      fullpath: string)
    requires Starts(map[], actions, routes, wsRoutes) && LastWith(actions, |actions|, id).Some?
    ensures var m, i := Started(map[], actions, routes, wsRoutes), LastWith(actions, |actions|, id).value;
      id in m &&
      (Allows(m[id], verb, fullpath) <==>
       || Allows(actions[i], verb, fullpath)
       || Grants(Http, actions, i, routes, verb, fullpath) || Grants(WebSocket, actions, i, wsRoutes, verb, fullpath))
  {
    var p := Resolved(actions);
    var i := LastWith(actions, |actions|, id).value;
    forall k | 0 <= k < |actions| ensures p.done[k].id == actions[k].id {
      RoutesAreReachedBackwards(Http, actions, k, "");
    }
    LastWithSameIDs(p.done, actions, |actions|, id);
    PublishedAt(p.actionsMap, p.done, routes, wsRoutes, |actions|, id);
    assert p.done[..|actions|] == p.done;
    OwnEndpoints(actions, i);
    ExposedAllows(p.done[i], routes, wsRoutes, verb, fullpath);
    GrantsMeans(Http, actions, i, routes, verb, fullpath);
    GrantsMeans(WebSocket, actions, i, wsRoutes, verb, fullpath);
  }

  /** After start-up a call is allowed exactly when an action reaches a route with its verb, and its path is that of the
      route behind "/api/v1", or behind "/wapi/v1" for a web socket.  A route that nobody named has neither. */
  lemma CallAllowedIff(actions: seq<Action>, routes: NamedRoutes, wsRoutes: NamedRoutes, id: string, verb: string,
      fullpath: string)
    requires Starts(map[], actions, routes, wsRoutes) && LastWith(actions, |actions|, id).Some?
    requires forall a :: a in actions ==> a.endpoints == []
    ensures id in Started(map[], actions, routes, wsRoutes)
    ensures var a, i := Started(map[], actions, routes, wsRoutes)[id], LastWith(actions, |actions|, id).value;
      (exists e :: e in a.endpoints && e.verb == verb && e.base + e.path == fullpath) <==>
      || (exists r :: ReachedBackwards(Http, actions, i, r) && r in routes &&
           routes[r].verb == verb && "/api/v1" + routes[r].path == fullpath)
      || (exists r :: ReachedBackwards(WebSocket, actions, i, r) && r in wsRoutes &&
           wsRoutes[r].verb == verb && "/wapi/v1" + wsRoutes[r].path == fullpath)
      || (verb == "" && fullpath == "/api/v1" && exists r :: ReachedBackwards(Http, actions, i, r) && r !in routes)
      || (verb == "" && fullpath == "/wapi/v1" && exists r :: ReachedBackwards(WebSocket, actions, i, r) && r !in wsRoutes)
  {
    var i := LastWith(actions, |actions|, id).value;
    AllowedAfterStart(actions, routes, wsRoutes, id, verb, fullpath);
    assert actions[i] in actions;
    GrantsIff(Http, "/api/v1", actions, i, routes, verb, fullpath);
    GrantsIff(WebSocket, "/wapi/v1", actions, i, wsRoutes, verb, fullpath);
  }

  lemma GrantsIff(kind: Kind, base: string, actions: seq<Action>, i: nat, named: NamedRoutes, verb: string,
      fullpath: string)
    requires base == if kind.Http? then "/api/v1" else "/wapi/v1"
    ensures Grants(kind, actions, i, named, verb, fullpath) <==>
      || (exists r :: ReachedBackwards(kind, actions, i, r) && r in named &&
           named[r].verb == verb && base + named[r].path == fullpath)
      || (verb == "" && fullpath == base && exists r :: ReachedBackwards(kind, actions, i, r) && r !in named)
  {
    assert base + "" == base;
    if r :| ReachedBackwards(kind, actions, i, r) && r in named && named[r].verb == verb && base + named[r].path == fullpath {
      assert Matches(EndpointFor(kind, named, r), verb, fullpath);
    }
    if verb == "" && fullpath == base {
      if r :| ReachedBackwards(kind, actions, i, r) && r !in named {
        assert Matches(EndpointFor(kind, named, r), verb, fullpath);
      }
    }
  }

  /** A call is denied when no route the action reaches has its verb, whatever paths they have. */
  lemma OtherVerbDenied(actions: seq<Action>, routes: NamedRoutes, wsRoutes: NamedRoutes, id: string, verb: string,
      fullpath: string)
    requires Starts(map[], actions, routes, wsRoutes) && LastWith(actions, |actions|, id).Some?
    requires (forall a :: a in actions ==> a.endpoints == []) && verb != ""
    requires forall r :: ReachedBackwards(Http, actions, LastWith(actions, |actions|, id).value, r) && r in routes ==>
      routes[r].verb != verb
    requires forall r :: ReachedBackwards(WebSocket, actions, LastWith(actions, |actions|, id).value, r) && r in wsRoutes ==>
      wsRoutes[r].verb != verb
    ensures id in Started(map[], actions, routes, wsRoutes)
    ensures forall e :: e in Started(map[], actions, routes, wsRoutes)[id].endpoints && e.verb == verb ==>
      e.base + e.path != fullpath
  {
    CallAllowedIff(actions, routes, wsRoutes, id, verb, fullpath);
  }

  ghost predicate Offers(kind: Kind, a: Action, named: NamedRoutes, verb: string, fullpath: string) {
    exists r :: r in RouteIDs(kind, a) && Matches(EndpointFor(kind, named, r), verb, fullpath)
  }

  lemma EndpointsForMeans(kind: Kind, named: NamedRoutes, ids: seq<string>, e: Endpoint)
    ensures e in EndpointsFor(kind, named, ids) <==> exists id :: id in ids && e == EndpointFor(kind, named, id)
  {
    var all := EndpointsFor(kind, named, ids);
    if id :| id in ids && e == EndpointFor(kind, named, id) {
      var i :| 0 <= i < |ids| && ids[i] == id;
      assert all[i] == e;
    }
  }

  lemma ExposedAllows(a: Action, routes: NamedRoutes, wsRoutes: NamedRoutes, verb: string, fullpath: string)
    ensures Allows(Exposed(a, routes, wsRoutes), verb, fullpath) <==>
      || Allows(a, verb, fullpath)
      || Offers(Http, a, routes, verb, fullpath) || Offers(WebSocket, a, wsRoutes, verb, fullpath)
  {
    var http, ws := EndpointsFor(Http, routes, a.routes), EndpointsFor(WebSocket, wsRoutes, a.wsRoutes);
    forall e ensures e in Exposed(a, routes, wsRoutes).endpoints <==> e in a.endpoints || e in http || e in ws {
    }
    OffersMeans(Http, a, routes, verb, fullpath);
    OffersMeans(WebSocket, a, wsRoutes, verb, fullpath);
  }

  lemma OffersMeans(kind: Kind, a: Action, named: NamedRoutes, verb: string, fullpath: string)
    ensures Offers(kind, a, named, verb, fullpath) <==>
      exists e :: e in EndpointsFor(kind, named, RouteIDs(kind, a)) && Matches(e, verb, fullpath)
  {
    forall e ensures e in EndpointsFor(kind, named, RouteIDs(kind, a)) <==>
      exists id :: id in RouteIDs(kind, a) && e == EndpointFor(kind, named, id)
    {
      EndpointsForMeans(kind, named, RouteIDs(kind, a), e);
    }
  }

  lemma GrantsMeans(kind: Kind, actions: seq<Action>, i: nat, named: NamedRoutes, verb: string, fullpath: string)
    requires Resolved(actions).ok && i < |actions|
    ensures Grants(kind, actions, i, named, verb, fullpath) <==> Offers(kind, Resolved(actions).done[i], named, verb, fullpath)
  {
    forall r ensures ReachedBackwards(kind, actions, i, r) <==> r in RouteIDs(kind, Resolved(actions).done[i]) {
      RoutesAreReachedBackwards(kind, actions, i, r);
    }
  }

  lemma {:induction false} MergeKeepsEndpoints(a: Action, deps: seq<string>, m: map<string, Action>)
    requires MergeAll(a, deps, m).Ok?
    ensures MergeAll(a, deps, m).value.endpoints == a.endpoints
  {
    if deps != [] {
      MergeKeepsEndpoints(a, deps[..|deps| - 1], m);
    }
  }

  lemma {:induction false} ProcessKeepsEndpoints(m: map<string, Action>, actions: seq<Action>, n: nat, i: nat)
    requires i < n <= |actions| && ProcessAll(m, actions[..n]).ok
    ensures ProcessAll(m, actions[..n]).done[i].endpoints == actions[i].endpoints
  {
    assert actions[..n][..n - 1] == actions[..n - 1];
    if i < n - 1 {
      ProcessKeepsEndpoints(m, actions, n - 1, i);
    } else {
      MergeKeepsEndpoints(actions[i], actions[i].dependsOn, ProcessAll(m, actions[..n - 1]).actionsMap);
    }
  }

  lemma OwnEndpoints(actions: seq<Action>, i: nat)
    requires i < |actions| && Resolved(actions).ok
    ensures Resolved(actions).done[i].endpoints == actions[i].endpoints
  {
    assert actions[..|actions|] == actions;
    ProcessKeepsEndpoints(LoadMap(map[], actions), actions, |actions|, i);
  }

  // ---- Which routes can be called

  ghost predicate Reachable(m: map<string, Action>, e: Endpoint) {
    exists id :: id in m && Allows(m[id], e.verb, e.base + e.path)
  }

  /** The action is the last one with its identifier. */
  predicate IsLast(actions: seq<Action>, i: nat) {
    i < |actions| && LastWith(actions, |actions|, actions[i].id) == Some(i)
  }

  /** The action reaches a route with the endpoint. */
  ghost predicate GrantedBy(actions: seq<Action>, i: nat, routes: NamedRoutes, wsRoutes: NamedRoutes, e: Endpoint) {
    || Grants(Http, actions, i, routes, e.verb, e.base + e.path)
    || Grants(WebSocket, actions, i, wsRoutes, e.verb, e.base + e.path)
  }

  ghost predicate GrantedByLast(actions: seq<Action>, routes: NamedRoutes, wsRoutes: NamedRoutes, e: Endpoint) {
    exists i: nat :: IsLast(actions, i) && GrantedBy(actions, i, routes, wsRoutes, e)
  }

  lemma {:induction false} PublishedKeys(m: map<string, Action>, done: seq<Action>, routes: NamedRoutes,
      wsRoutes: NamedRoutes, n: nat, id: string)
    requires n <= |done|
    ensures id in Publish(m, done[..n], routes, wsRoutes) <==> id in m || LastWith(done, n, id).Some?
  {
    if n > 0 {
      assert done[..n][..n - 1] == done[..n - 1];
      PublishedKeys(m, done, routes, wsRoutes, n - 1, id);
    }
  }

  /** After start-up the map has exactly the identifiers of the list. */
  lemma StartedKeys(actions: seq<Action>, routes: NamedRoutes, wsRoutes: NamedRoutes, id: string)
    requires Starts(map[], actions, routes, wsRoutes)
    ensures id in Started(map[], actions, routes, wsRoutes) <==> LastWith(actions, |actions|, id).Some?
  {
    var p := Resolved(actions);
    assert actions[..|actions|] == actions && p.done[..|actions|] == p.done;
    ProcessHolds(actions, |actions|, id);
    forall k | 0 <= k < |actions| ensures p.done[k].id == actions[k].id {
      RoutesAreReachedBackwards(Http, actions, k, "");
    }
    LastWithSameIDs(p.done, actions, |actions|, id);
    PublishedKeys(p.actionsMap, p.done, routes, wsRoutes, |actions|, id);
  }

  /** After start-up an endpoint can be called exactly when an action that is the last with its identifier reaches
      a route with it. */
  lemma ReachableIff(actions: seq<Action>, routes: NamedRoutes, wsRoutes: NamedRoutes, e: Endpoint)
    requires Starts(map[], actions, routes, wsRoutes) && forall a :: a in actions ==> a.endpoints == []
    ensures Reachable(Started(map[], actions, routes, wsRoutes), e) <==> GrantedByLast(actions, routes, wsRoutes, e)
  {
    var m := Started(map[], actions, routes, wsRoutes);
    if id :| id in m && Allows(m[id], e.verb, e.base + e.path) {
      StartedKeys(actions, routes, wsRoutes, id);
      AllowedAfterStart(actions, routes, wsRoutes, id, e.verb, e.base + e.path);
      var i := LastWith(actions, |actions|, id).value;
      assert actions[i] in actions && IsLast(actions, i);
    }
    if i: nat :| IsLast(actions, i) && GrantedBy(actions, i, routes, wsRoutes, e) {
      AllowedAfterStart(actions, routes, wsRoutes, actions[i].id, e.verb, e.base + e.path);
    }
  }

  function Named(kind: Kind, routes: NamedRoutes, wsRoutes: NamedRoutes): NamedRoutes {
    if kind.Http? then routes else wsRoutes
  }

  /** Every named route can be called through some action. */
  ghost predicate AllReachable(m: map<string, Action>, routes: NamedRoutes, wsRoutes: NamedRoutes) {
    forall kind, r :: r in Named(kind, routes, wsRoutes) ==>
      Reachable(m, EndpointFor(kind, Named(kind, routes, wsRoutes), r))
  }

  ghost predicate DistinctIDs(actions: seq<Action>) {
    forall i, j :: 0 <= i < j < |actions| ==> actions[i].id != actions[j].id
  }

  lemma LastOfDistinct(actions: seq<Action>, i: nat)
    requires DistinctIDs(actions) && i < |actions|
    ensures IsLast(actions, i)
  {
  }

  lemma OwnerGrants(kind: Kind, actions: seq<Action>, i: nat, named: NamedRoutes, r: string)
    requires Resolved(actions).ok && Owns(kind, actions, i, r)
    ensures var e := EndpointFor(kind, named, r); Grants(kind, actions, i, named, e.verb, e.base + e.path)
  {
    BetweenDirectAndClosure(kind, actions, i, i, r);
    RoutesAreReachedBackwards(kind, actions, i, r);
  }

  /** Every named route can be called after start-up exactly when for each of them an action that is the last with
      its identifier reaches a route with its endpoint. */
  lemma EveryRouteReachable(actions: seq<Action>, routes: NamedRoutes, wsRoutes: NamedRoutes)
    requires Starts(map[], actions, routes, wsRoutes) && forall a :: a in actions ==> a.endpoints == []
    ensures AllReachable(Started(map[], actions, routes, wsRoutes), routes, wsRoutes) <==>
      forall kind, r :: r in Named(kind, routes, wsRoutes) ==>
        GrantedByLast(actions, routes, wsRoutes, EndpointFor(kind, Named(kind, routes, wsRoutes), r))
  {
    forall kind, r | r in Named(kind, routes, wsRoutes)
      ensures var e := EndpointFor(kind, Named(kind, routes, wsRoutes), r);
        Reachable(Started(map[], actions, routes, wsRoutes), e) <==> GrantedByLast(actions, routes, wsRoutes, e)
    {
      ReachableIff(actions, routes, wsRoutes, EndpointFor(kind, Named(kind, routes, wsRoutes), r));
    }
  }

  /** It is enough that each is listed by an action that is the last with its identifier, so all can be called when
      no identifier is repeated. */
  lemma ListedByLastSuffices(actions: seq<Action>, routes: NamedRoutes, wsRoutes: NamedRoutes, kind: Kind, r: string)
    requires Starts(map[], actions, routes, wsRoutes) && forall a :: a in actions ==> a.endpoints == []
    requires r in Named(kind, routes, wsRoutes)
    requires DistinctIDs(actions) || exists i: nat :: Owns(kind, actions, i, r) && IsLast(actions, i)
    ensures Reachable(Started(map[], actions, routes, wsRoutes), EndpointFor(kind, Named(kind, routes, wsRoutes), r))
  {
    StartsIffAllListed(actions, routes, wsRoutes);
    var i: nat;
    if DistinctIDs(actions) {
      assert Listed(kind, actions, r);
      i :| Owns(kind, actions, i, r);
      LastOfDistinct(actions, i);
    } else {
      i :| Owns(kind, actions, i, r) && IsLast(actions, i);
    }
    OwnerGrants(kind, actions, i, Named(kind, routes, wsRoutes), r);
    ReachableIff(actions, routes, wsRoutes, EndpointFor(kind, Named(kind, routes, wsRoutes), r));
  }

  /** With a repeated identifier start-up can succeed and a route still be out of reach: the later action hides it. */
  lemma RepeatedIDHidesRoute() returns (actions: seq<Action>, routes: NamedRoutes)
    ensures Starts(map[], actions, routes, map[]) && "Apps" in routes
    ensures !Reachable(Started(map[], actions, routes, map[]), EndpointFor(Http, routes, "Apps"))
  {
    var first, second := Action("app", [], ["Apps"], [], []), Action("app", [], [], [], []);
    actions, routes := [first, second], map["Apps" := Route("GET", "/apps")];
    var one, m := [first], map["app" := second];
    assert actions[..1] == one && one[..0] == [];
    assert LoadMap(map[], one) == map["app" := first];
    assert LoadMap(map[], actions) == m;
    assert ProcessAll(m, one) == Progress(true, map["app" := first], one);
    assert Resolved(actions) == Progress(true, m, actions);
    assert Publish(m, one, routes, map[]) == m["app" := Exposed(first, routes, map[])];
    assert Publish(m, actions, routes, map[]) == m["app" := Exposed(second, routes, map[])];
    assert Exposed(second, routes, map[]) == second;
    assert Listed(Http, actions, "Apps") by {
      assert Owns(Http, actions, 0, "Apps");
    }
    StartsIffAllListed(actions, routes, map[]);
  }
}
