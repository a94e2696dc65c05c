/**
 The actions a role can grant, the routes they inherit from the actions they depend on, and the endpoints they
 allow (internal/auth/action.go, internal/api/v1/router.go).

 An action list stands for the embedded actions.yaml.  Nothing is asked of it: identifiers may repeat, and
 dependencies may name actions that come later, or none at all.
 */
module Actions {
  import opened Sorting
  import opened Wrappers

  datatype Kind = Http | WebSocket

  datatype Route = Route(verb: string, path: string)

  datatype Endpoint = Endpoint(verb: string, base: string, path: string)

  datatype Action = Action(id: string, dependsOn: seq<string>, routes: seq<string>, wsRoutes: seq<string>,
      endpoints: seq<Endpoint>)

  function RouteIDs(kind: Kind, a: Action): seq<string> {
    if kind.Http? then a.routes else a.wsRoutes
  }

  // ---- What loading and merging compute

  function Merged(a: Action, dependency: Action): Action {
    a.(routes := SortUnique(a.routes + dependency.routes), wsRoutes := SortUnique(a.wsRoutes + dependency.wsRoutes))
  }

  function LoadMap(m: map<string, Action>, actions: seq<Action>): map<string, Action> {
    if actions == [] then m
    else var last := actions[|actions| - 1]; LoadMap(m, actions[..|actions| - 1])[last.id := last]
  }

  /** The action merged with what the map holds for each dependency; an error when one is missing. */
  function MergeAll(a: Action, deps: seq<string>, m: map<string, Action>): Result<Action> {
    if deps == [] then Ok(a)
    else
      match MergeAll(a, deps[..|deps| - 1], m)
      case Err => Err
      case Ok(b) => if deps[|deps| - 1] in m then Ok(Merged(b, m[deps[|deps| - 1]])) else Err
  }

  /** How far the merging has come: the map, and the actions that have been merged. */
  datatype Progress = Progress(ok: bool, actionsMap: map<string, Action>, done: seq<Action>)

  function ProcessAll(m: map<string, Action>, actions: seq<Action>): (p: Progress)
    ensures p.ok ==> |p.done| == |actions|
    ensures |p.done| <= |actions|
  {
    if actions == [] then Progress(true, m, [])
    else
      var p := ProcessAll(m, actions[..|actions| - 1]);
      var a := actions[|actions| - 1];
      if !p.ok then p
      else match MergeAll(a, a.dependsOn, p.actionsMap)
        case Err => p.(ok := false)
        case Ok(b) => Progress(true, p.actionsMap[a.id := b], p.done + [b])
  }

  /** InitActions on a map that is still empty. */
  function Resolved(actions: seq<Action>): Progress {
    ProcessAll(LoadMap(map[], actions), actions)
  }

  // ---- What they mean

  /** The last of the first `n` actions with this identifier. */
  function LastWith(actions: seq<Action>, n: nat, id: string): (r: Option<nat>)
    requires n <= |actions|
    ensures r.Some? ==> r.value < n && actions[r.value].id == id
    ensures r.None? ==> forall k :: 0 <= k < n ==> actions[k].id != id
  {
    if n == 0 then None else if actions[n - 1].id == id then Some(n - 1) else LastWith(actions, n - 1, id)
  }

  /** The action an identifier stands for while action `n` is merged: the last one before, or else the last of all. */
  function Lookup(actions: seq<Action>, n: nat, id: string): Option<nat>
    requires n <= |actions|
  {
    if LastWith(actions, n, id).Some? then LastWith(actions, n, id) else LastWith(actions, |actions|, id)
  }

  predicate DependsOn(actions: seq<Action>, i: nat, j: nat) {
    i < |actions| && j < |actions| && actions[j].id in actions[i].dependsOn && Lookup(actions, i, actions[j].id) == Some(j)
  }

  predicate Owns(kind: Kind, actions: seq<Action>, i: nat, r: string) {
    i < |actions| && r in RouteIDs(kind, actions[i])
  }

  /** A chain of dependencies. */
  ghost predicate IsPath(actions: seq<Action>, path: seq<nat>) {
    path != [] && forall k :: 0 <= k < |path| - 1 ==> DependsOn(actions, path[k], path[k + 1])
  }

  /** A chain that goes backwards in the list, except perhaps in its last step. */
  ghost predicate Descends(path: seq<nat>) {
    forall k :: 0 <= k < |path| - 2 ==> path[k] > path[k + 1]
  }

  /** The chain leads from action `i` to an owner of the route. */
  ghost predicate Leads(kind: Kind, actions: seq<Action>, i: nat, r: string, path: seq<nat>) {
    IsPath(actions, path) && path[0] == i && Owns(kind, actions, path[|path| - 1], r)
  }

  /** The route is owned by an action in the transitive dependency closure of action `i`. */
  ghost predicate InClosure(kind: Kind, actions: seq<Action>, i: nat, r: string) {
    exists path: seq<nat> :: Leads(kind, actions, i, r, path)
  }

  ghost predicate ReachedBackwards(kind: Kind, actions: seq<Action>, i: nat, r: string) {
    exists path: seq<nat> :: Leads(kind, actions, i, r, path) && Descends(path)
  }

  /** What merging the dependency `j` into action `i` brings: all of an earlier action, a later one's own routes. */
  ghost predicate Brings(kind: Kind, actions: seq<Action>, i: nat, j: nat, r: string)
    decreases i, 0
  {
    if j < i then Gains(kind, actions, j, r) else Owns(kind, actions, j, r)
  }

  /** The routes action `i` comes to have, by recursion. */
  ghost predicate Gains(kind: Kind, actions: seq<Action>, i: nat, r: string)
    decreases i, 1
  {
    Owns(kind, actions, i, r) || exists j: nat :: DependsOn(actions, i, j) && Brings(kind, actions, i, j, r)
  }

  // ---- The recursion and the chains say the same

  lemma {:induction false} GainsOfPath(kind: Kind, actions: seq<Action>, i: nat, r: string, path: seq<nat>)
    requires Leads(kind, actions, i, r, path) && Descends(path)
    ensures Gains(kind, actions, i, r)
    decreases |path|
  {
    if |path| > 1 {
      var j, rest := path[1], path[1..];
      assert DependsOn(actions, path[0], path[1]);
      assert rest[|rest| - 1] == path[|path| - 1];
      assert |path| > 2 ==> path[0] > path[1];
      if j < i {
        GainsOfPath(kind, actions, j, r, rest);
      }
      assert Brings(kind, actions, i, j, r);
    }
  }

  lemma {:induction false} PathOfGains(kind: Kind, actions: seq<Action>, i: nat, r: string) returns (path: seq<nat>)
    requires Gains(kind, actions, i, r)
    ensures Leads(kind, actions, i, r, path) && Descends(path)
    decreases i
  {
    path := [i];
    if !Owns(kind, actions, i, r) {
      var j: nat :| DependsOn(actions, i, j) && Brings(kind, actions, i, j, r);
      var rest := [j];
      if j < i {
        rest := PathOfGains(kind, actions, j, r);
      }
      path := [i] + rest;
      assert forall k :: 0 < k < |path| ==> path[k] == rest[k - 1];
    }
  }

  lemma GainsIffReachedBackwards(kind: Kind, actions: seq<Action>, i: nat, r: string)
    ensures Gains(kind, actions, i, r) <==> ReachedBackwards(kind, actions, i, r)
  {
    if Gains(kind, actions, i, r) {
      var path := PathOfGains(kind, actions, i, r);
    }
    if ReachedBackwards(kind, actions, i, r) {
      var path: seq<nat> :| Leads(kind, actions, i, r, path) && Descends(path);
      GainsOfPath(kind, actions, i, r, path);
    }
  }

  // ---- Merging as sets of routes

  lemma MergedRoutes(kind: Kind, a: Action, d: Action, r: string)
    ensures r in RouteIDs(kind, Merged(a, d)) <==> r in RouteIDs(kind, a) || r in RouteIDs(kind, d)
  {
    var all := RouteIDs(kind, a) + RouteIDs(kind, d);
    assert r in Elements(SortUnique(all)) <==> r in Elements(all);
  }

  /** Merging sorts the routes of both, each once, and changes nothing else. */
  lemma MergedMeans(a: Action, d: Action)
    ensures var r := Merged(a, d);
      && r == a.(routes := r.routes, wsRoutes := r.wsRoutes)
      && StrictlySorted(r.routes) && (forall x :: x in r.routes <==> x in a.routes || x in d.routes)
      && StrictlySorted(r.wsRoutes) && (forall x :: x in r.wsRoutes <==> x in a.wsRoutes || x in d.wsRoutes)
  {
    forall x
      ensures x in Merged(a, d).routes <==> x in a.routes || x in d.routes
      ensures x in Merged(a, d).wsRoutes <==> x in a.wsRoutes || x in d.wsRoutes
    {
      MergedRoutes(Http, a, d, x);
      MergedRoutes(WebSocket, a, d, x);
    }
    SortUniqueSorted(a.routes + d.routes);
    SortUniqueSorted(a.wsRoutes + d.wsRoutes);
  }

  ghost predicate OneBrings(kind: Kind, deps: seq<string>, m: map<string, Action>, r: string) {
    exists d :: d in deps && d in m && r in RouteIDs(kind, m[d])
  }

  lemma OneBringsSnoc(kind: Kind, deps: seq<string>, m: map<string, Action>, r: string)
    requires deps != [] && deps[|deps| - 1] in m
    ensures OneBrings(kind, deps, m, r) <==>
      OneBrings(kind, deps[..|deps| - 1], m, r) || r in RouteIDs(kind, m[deps[|deps| - 1]])
  {
    assert deps == deps[..|deps| - 1] + [deps[|deps| - 1]];
  }

  ghost predicate AllIn(deps: seq<string>, m: map<string, Action>) {
    forall d :: d in deps ==> d in m
  }

  lemma AllInSnoc(deps: seq<string>, m: map<string, Action>)
    requires deps != []
    ensures AllIn(deps, m) <==> AllIn(deps[..|deps| - 1], m) && deps[|deps| - 1] in m
  {
    assert deps == deps[..|deps| - 1] + [deps[|deps| - 1]];
  }

  lemma {:induction false} MergeAllSucceeds(a: Action, deps: seq<string>, m: map<string, Action>)
    ensures MergeAll(a, deps, m).Ok? <==> AllIn(deps, m)
    ensures MergeAll(a, deps, m).Ok? ==> MergeAll(a, deps, m).value.id == a.id
  {
    if deps != [] {
      MergeAllSucceeds(a, deps[..|deps| - 1], m);
      AllInSnoc(deps, m);
    }
  }

  lemma MergeAllNext(a: Action, deps: seq<string>, m: map<string, Action>, k: nat)
    requires k < |deps| && MergeAll(a, deps[..k], m).Ok?
    ensures deps[k] in m ==> MergeAll(a, deps[..k + 1], m) == Ok(Merged(MergeAll(a, deps[..k], m).value, m[deps[k]]))
    ensures deps[k] !in m ==> MergeAll(a, deps, m).Err?
  {
    if deps[k] in m {
      assert deps[..k + 1][..k] == deps[..k];
    } else {
      assert deps[k] in deps && !AllIn(deps, m);
      MergeAllSucceeds(a, deps, m);
    }
  }

  lemma {:induction false} MergeAllRoutes(kind: Kind, a: Action, deps: seq<string>, m: map<string, Action>, r: string)
    requires MergeAll(a, deps, m).Ok?
    ensures r in RouteIDs(kind, MergeAll(a, deps, m).value) <==> r in RouteIDs(kind, a) || OneBrings(kind, deps, m, r)
  {
    if deps != [] {
      var front, last := deps[..|deps| - 1], deps[|deps| - 1];
      MergeAllRoutes(kind, a, front, m, r);
      MergedRoutes(kind, MergeAll(a, front, m).value, m[last], r);
      OneBringsSnoc(kind, deps, m, r);
    }
  }

  // ---- The map while the actions are merged

  function Entry(actions: seq<Action>, done: seq<Action>, j: nat): Action
    requires j < |actions|
  {
    if j < |done| then done[j] else actions[j]
  }

  /** Before action `|done|` is merged, the map holds for every identifier the action it stands for. */
  ghost predicate Holds(actions: seq<Action>, m: map<string, Action>, done: seq<Action>, id: string) {
    |done| <= |actions| &&
    match Lookup(actions, |done|, id)
    case None => id !in m
    case Some(j) => id in m && m[id] == Entry(actions, done, j)
  }

  lemma {:induction false} LoadMapHolds(actions: seq<Action>, n: nat, id: string)
    requires n <= |actions|
    ensures match LastWith(actions, n, id)
      case None => id !in LoadMap(map[], actions[..n])
      case Some(j) => id in LoadMap(map[], actions[..n]) && LoadMap(map[], actions[..n])[id] == actions[j]
  {
    if n > 0 {
      assert actions[..n][..n - 1] == actions[..n - 1];
      LoadMapHolds(actions, n - 1, id);
    }
  }

  lemma {:induction false} ProcessHolds(actions: seq<Action>, n: nat, id: string)
    requires n <= |actions| && ProcessAll(LoadMap(map[], actions), actions[..n]).ok
    ensures var p := ProcessAll(LoadMap(map[], actions), actions[..n]); Holds(actions, p.actionsMap, p.done, id)
  {
    if n == 0 {
      LoadMapHolds(actions, |actions|, id);
      assert actions[..|actions|] == actions;
    } else {
      assert actions[..n][..n - 1] == actions[..n - 1];
      ProcessHolds(actions, n - 1, id);
    }
  }

  // ---- Which routes the actions end up with

  /** Merging action `n` brings the routes it gains, when the merged ones before it have gained theirs. */
  lemma MergeOne(kind: Kind, actions: seq<Action>, m: map<string, Action>, done: seq<Action>, r: string)
    requires |done| < |actions| && forall id :: Holds(actions, m, done, id)
    requires forall j :: 0 <= j < |done| ==> (r in RouteIDs(kind, done[j]) <==> Gains(kind, actions, j, r))
    ensures OneBrings(kind, actions[|done|].dependsOn, m, r) <==>
      exists j: nat :: DependsOn(actions, |done|, j) && Brings(kind, actions, |done|, j, r)
  {
    var n, deps := |done|, actions[|done|].dependsOn;
    if OneBrings(kind, deps, m, r) {
      var d :| d in deps && d in m && r in RouteIDs(kind, m[d]);
      assert Holds(actions, m, done, d);
      var j := Lookup(actions, n, d).value;
      assert DependsOn(actions, n, j) && Brings(kind, actions, n, j, r);
    }
    if j: nat :| DependsOn(actions, n, j) && Brings(kind, actions, n, j, r) {
      var d := actions[j].id;
      assert Holds(actions, m, done, d);
      assert d in deps && d in m && r in RouteIDs(kind, m[d]);
    }
  }

  /** The merged actions have the routes they gain. */
  ghost predicate Gained(kind: Kind, actions: seq<Action>, done: seq<Action>, r: string) {
    |done| <= |actions| &&
    forall j :: 0 <= j < |done| ==> done[j].id == actions[j].id && (r in RouteIDs(kind, done[j]) <==> Gains(kind, actions, j, r))
  }

  lemma MergeNext(kind: Kind, actions: seq<Action>, m: map<string, Action>, done: seq<Action>, r: string)
    requires |done| < |actions| && (forall id :: Holds(actions, m, done, id)) && Gained(kind, actions, done, r)
    requires MergeAll(actions[|done|], actions[|done|].dependsOn, m).Ok?
    ensures Gained(kind, actions, done + [MergeAll(actions[|done|], actions[|done|].dependsOn, m).value], r)
  {
    var a := actions[|done|];
    var b := MergeAll(a, a.dependsOn, m).value;
    assert b.id == a.id by {
      MergeAllSucceeds(a, a.dependsOn, m);
    }
    assert r in RouteIDs(kind, b) <==> Gains(kind, actions, |done|, r) by {
      MergeAllRoutes(kind, a, a.dependsOn, m, r);
      MergeOne(kind, actions, m, done, r);
    }
  }

  lemma {:induction false} ProcessGains(kind: Kind, actions: seq<Action>, n: nat, r: string)
    requires n <= |actions| && ProcessAll(LoadMap(map[], actions), actions[..n]).ok
    ensures Gained(kind, actions, ProcessAll(LoadMap(map[], actions), actions[..n]).done, r)
  {
    if n > 0 {
      assert actions[..n][..n - 1] == actions[..n - 1];
      ProcessGains(kind, actions, n - 1, r);
      var p := ProcessAll(LoadMap(map[], actions), actions[..n - 1]);
      forall id ensures Holds(actions, p.actionsMap, p.done, id) {
        ProcessHolds(actions, n - 1, id);
      }
      MergeNext(kind, actions, p.actionsMap, p.done, r);
    }
  }

  /** Whatever the order of the list, an action ends up with exactly the routes owned along the dependency chains
      that go backwards in the list, except perhaps in their last step. */
  lemma RoutesAreReachedBackwards(kind: Kind, actions: seq<Action>, i: nat, r: string)
    requires Resolved(actions).ok && i < |actions|
    ensures Resolved(actions).done[i].id == actions[i].id
    ensures r in RouteIDs(kind, Resolved(actions).done[i]) <==> ReachedBackwards(kind, actions, i, r)
  {
    assert actions[..|actions|] == actions;
    ProcessGains(kind, actions, |actions|, r);
    GainsIffReachedBackwards(kind, actions, i, r);
  }

  /** In any order, the result lies between the direct dependencies' own routes and the transitive closure. */
  lemma BetweenDirectAndClosure(kind: Kind, actions: seq<Action>, i: nat, j: nat, r: string)
    requires Resolved(actions).ok && i < |actions|
    ensures (i == j || DependsOn(actions, i, j)) && Owns(kind, actions, j, r) ==> r in RouteIDs(kind, Resolved(actions).done[i])
    ensures r in RouteIDs(kind, Resolved(actions).done[i]) ==> InClosure(kind, actions, i, r)
  {
    RoutesAreReachedBackwards(kind, actions, i, r);
    if Owns(kind, actions, j, r) {
      if i == j {
        assert Leads(kind, actions, i, r, [i]);
      } else if DependsOn(actions, i, j) {
        assert Leads(kind, actions, i, r, [i, j]);
      }
    }
  }

  /** Every action ends up with exactly the routes of its whole transitive closure. */
  ghost predicate ClosuresReached(actions: seq<Action>)
    requires Resolved(actions).ok
  {
    forall kind, i: nat, r :: i < |actions| ==>
      (r in RouteIDs(kind, Resolved(actions).done[i]) <==> InClosure(kind, actions, i, r))
  }

  /** What a chain of dependencies leads to, a chain that goes backwards leads to as well. */
  ghost predicate BackwardsSuffices(actions: seq<Action>) {
    forall kind, i: nat, r :: i < |actions| && InClosure(kind, actions, i, r) ==> ReachedBackwards(kind, actions, i, r)
  }

  /** All actions of a list end up with their closures exactly when chains that go backwards suffice. */
  lemma ClosuresReachedIff(actions: seq<Action>)
    requires Resolved(actions).ok
    ensures ClosuresReached(actions) <==> BackwardsSuffices(actions)
  {
    forall kind, i: nat, r | i < |actions|
      ensures r in RouteIDs(kind, Resolved(actions).done[i]) <==> ReachedBackwards(kind, actions, i, r)
      ensures ReachedBackwards(kind, actions, i, r) ==> InClosure(kind, actions, i, r)
    {
      RoutesAreReachedBackwards(kind, actions, i, r);
    }
  }

  /** Every dependency names an action that comes earlier in the list. */
  ghost predicate DependenciesFirst(actions: seq<Action>) {
    forall i, d :: 0 <= i < |actions| && d in actions[i].dependsOn ==> LastWith(actions, i, d).Some?
  }

  /** So it is when dependencies come first. */
  lemma RoutesAreClosure(actions: seq<Action>)
    requires DependenciesFirst(actions)
    ensures Resolved(actions).ok && ClosuresReached(actions)
  {
    ResolvedSucceeds(actions);
    forall kind, i: nat, r | i < |actions| && InClosure(kind, actions, i, r) ensures ReachedBackwards(kind, actions, i, r) {
      var path: seq<nat> :| Leads(kind, actions, i, r, path);
      forall k | 0 <= k < |path| - 2 ensures path[k] > path[k + 1] {
        assert DependsOn(actions, path[k], path[k + 1]);
      }
      assert Descends(path);
    }
    ClosuresReachedIff(actions);
  }

  /** It can be so in another order, too. */
  lemma OtherOrdersCanDo() returns (actions: seq<Action>)
    ensures Resolved(actions).ok && !DependenciesFirst(actions) && ClosuresReached(actions)
  {
    var a, b := Action("a", ["b"], ["A"], [], []), Action("b", [], ["B"], [], []);
    actions := [a, b];
    assert LastWith(actions, 0, "b") == None;
    assert DependenciesKnown(actions, 2) by {
      assert actions[1].id == "b" && Known(actions, "b");
    }
    ResolvedSucceeds(actions);
    assert forall i: nat, j: nat :: DependsOn(actions, i, j) ==> i == 0 && j == 1 by {
      assert a.id[0] != b.id[0];
    }
    forall kind, i: nat, r | i < 2 && InClosure(kind, actions, i, r) ensures ReachedBackwards(kind, actions, i, r) {
      var path: seq<nat> :| Leads(kind, actions, i, r, path);
      if |path| > 2 {
        LongChain(actions, path);
      }
      assert Descends(path);
    }
    ClosuresReachedIff(actions);
  }

  lemma LongChain(actions: seq<Action>, path: seq<nat>)
    requires IsPath(actions, path) && |path| > 2
    ensures DependsOn(actions, path[0], path[1]) && DependsOn(actions, path[1], path[2])
  {
  }

  // ---- When loading succeeds

  ghost predicate Known(actions: seq<Action>, id: string) {
    exists j :: 0 <= j < |actions| && actions[j].id == id
  }

  ghost predicate DependenciesKnown(actions: seq<Action>, n: nat)
    requires n <= |actions|
  {
    forall i, d :: 0 <= i < n && d in actions[i].dependsOn ==> Known(actions, d)
  }

  lemma {:induction false} ProcessSucceeds(actions: seq<Action>, n: nat)
    requires n <= |actions|
    ensures ProcessAll(LoadMap(map[], actions), actions[..n]).ok <==> DependenciesKnown(actions, n)
  {
    if n > 0 {
      assert actions[..n][..n - 1] == actions[..n - 1];
      ProcessSucceeds(actions, n - 1);
      var a, p := actions[n - 1], ProcessAll(LoadMap(map[], actions), actions[..n - 1]);
      if p.ok {
        forall d ensures d in p.actionsMap <==> Known(actions, d) {
          ProcessHolds(actions, n - 1, d);
        }
        MergeAllSucceeds(a, a.dependsOn, p.actionsMap);
      }
    }
  }

  /** Loading succeeds exactly when every dependency names an action of the list. */
  lemma ResolvedSucceeds(actions: seq<Action>)
    ensures Resolved(actions).ok <==> DependenciesKnown(actions, |actions|)
    ensures DependenciesFirst(actions) ==> Resolved(actions).ok
  {
    assert actions[..|actions|] == actions;
    ProcessSucceeds(actions, |actions|);
    if DependenciesFirst(actions) {
      forall i, d | 0 <= i < |actions| && d in actions[i].dependsOn ensures Known(actions, d) {
        assert LastWith(actions, i, d).Some?;
      }
    }
  }

  /** The order matters: an action listed before its dependency misses what that dependency inherits.  The
      repository's own list has `app` before `app_read`, which depends on `chart_read`. */
  lemma OrderMatters() returns (actions: seq<Action>)
    ensures Resolved(actions).ok && !ClosuresReached(actions)
    ensures InClosure(Http, actions, 0, "ChartShow") && "ChartShow" !in Resolved(actions).done[0].routes
    ensures actions[0].id == "app"
  {
    var app := Action("app", ["app_read"], ["Apps"], [], []);
    var appRead := Action("app_read", ["chart_read"], ["AppShow"], [], []);
    var chartRead := Action("chart_read", [], ["ChartShow"], [], []);
    actions := [app, appRead, chartRead];
    assert actions[0] == app && actions[1] == appRead && actions[2] == chartRead;
    assert DependenciesKnown(actions, 3) by {
      assert Known(actions, "app_read") && Known(actions, "chart_read");
    }
    ResolvedSucceeds(actions);
    assert app.id != appRead.id && app.id != chartRead.id && appRead.id != chartRead.id by {
      assert |app.id| == 3 && |appRead.id| == 8 && |chartRead.id| == 10;
    }
    assert DependsOn(actions, 0, 1) && DependsOn(actions, 1, 2);
    assert Leads(Http, actions, 0, "ChartShow", [0, 1, 2]);
    RoutesAreReachedBackwards(Http, actions, 0, "ChartShow");
    GainsIffReachedBackwards(Http, actions, 0, "ChartShow");
    forall j: nat | DependsOn(actions, 0, j) ensures !Brings(Http, actions, 0, j, "ChartShow") {
      assert j == 1;
    }
  }
}
