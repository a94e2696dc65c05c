/**
 The check whether a user has to be saved again because its roles or namespaces have changed
 (internal/auth/user.go).
 */
module UserUpdate {
  import opened Sorting
  import opened Strings
  import opened Users
  import opened Wrappers

  /** Sorts in place, as sort.Strings does. */
  method SortStrings(a: array<string>)
    modifies a
    ensures a[..] == Sort(old(a[..]))
  {
    SortArrayBy(Itself, a);
  }

  /** What the role check leaves as the user's role identifiers. */
  function CheckedIDs(previous: seq<string>, actual: seq<string>): seq<string> {
    if |previous| != |actual| then actual else Sort(actual)
  }

  /** isUpdateUserRoleNeeded: an update is reported exactly when the two lists differ as multisets.  Both lists may
      come out sorted. */
  method IsUpdateUserRoleNeeded(previous: array<string>, actual: array<string>) returns (roles: array<string>,
      needed: bool)
    requires previous != actual
    modifies previous, actual
    ensures needed <==> multiset(old(previous[..])) != multiset(old(actual[..]))
    ensures roles == if needed then actual else previous
    ensures roles[..] == CheckedIDs(old(previous[..]), old(actual[..]))
    ensures multiset(roles[..]) == multiset(old(actual[..]))
    ensures previous.Length == actual.Length ==> Sorted(roles[..])
    ensures previous.Length != actual.Length ==> roles[..] == old(actual[..])
    ensures !needed ==> previous[..] == Sort(old(previous[..]))
  {
    if previous.Length != actual.Length {
      assert |multiset(previous[..])| != |multiset(actual[..])|;
      return actual, true;
    }
    SameSort(previous[..], actual[..]);
    SortSorted(actual[..]);
    SortStrings(previous);
    SortStrings(actual);
    for i := 0 to previous.Length
      invariant previous[..i] == actual[..i]
    {
      if previous[i] != actual[i] {
        assert previous[..] != actual[..];
        return actual, true;
      }
    }
    assert previous[..] == previous[..previous.Length] == actual[..];
    return previous, false;
  }

  /** The namespaces the roles are bound to. */
  function RoleNamespaces(roles: seq<Role>): seq<string> {
    if roles == [] then []
    else
      var last := roles[|roles| - 1].namespace;
      RoleNamespaces(roles[..|roles| - 1]) + if last != "" then [last] else []
  }

  function Merged(namespaces: seq<string>, roles: seq<Role>): set<string> {
    Elements(namespaces + RoleNamespaces(roles))
  }

  /** The check goes by the numbers alone. */
  predicate NamespacesDiffer(namespaces: seq<string>, roles: seq<Role>) {
    |namespaces| != |Merged(namespaces, roles)|
  }

  function CheckedNamespaces(namespaces: seq<string>, roles: seq<Role>): seq<string> {
    if NamespacesDiffer(namespaces, roles) then SortUnique(namespaces + RoleNamespaces(roles)) else namespaces
  }

  ghost predicate Bound(roles: seq<Role>, ns: string) {
    exists role :: role in roles && role.namespace == ns
  }

  lemma {:induction false} RoleNamespacesMeans(roles: seq<Role>, ns: string)
    ensures ns in RoleNamespaces(roles) <==> ns != "" && Bound(roles, ns)
  {
    if roles != [] {
      RoleNamespacesMeans(roles[..|roles| - 1], ns);
      assert roles == roles[..|roles| - 1] + [roles[|roles| - 1]];
    }
  }

  /** The namespaces of the user and of the roles, each once. */
  ghost function All(namespaces: seq<string>, roles: seq<Role>): set<string> {
    (set ns | ns in namespaces) + (set role | role in roles && role.namespace != "" :: role.namespace)
  }

  /** The user keeps every namespace, and when the numbers differ gets those of the roles, all of them sorted. */
  lemma CheckedNamespacesMean(namespaces: seq<string>, roles: seq<Role>)
    ensures Merged(namespaces, roles) == All(namespaces, roles)
    ensures var result := CheckedNamespaces(namespaces, roles);
      && (forall ns :: ns in namespaces ==> ns in result)
      && (|namespaces| == |All(namespaces, roles)| ==> result == namespaces)
      && (|namespaces| != |All(namespaces, roles)| ==>
        StrictlySorted(result) && forall ns :: ns in result <==> ns in namespaces || (ns != "" && Bound(roles, ns)))
  {
    var merged := namespaces + RoleNamespaces(roles);
    forall ns ensures ns in merged <==> ns in namespaces || (ns != "" && Bound(roles, ns)) {
      RoleNamespacesMeans(roles, ns);
    }
    assert forall ns :: ns in SortUnique(merged) <==> ns in Elements(SortUnique(merged));
    SortUniqueSorted(merged);
  }

  method IsUpdateUserNamespacesNeeded(namespaces: seq<string>, roles: seq<Role>) returns (result: seq<string>,
      needed: bool)
    ensures needed <==> NamespacesDiffer(namespaces, roles)
    ensures result == CheckedNamespaces(namespaces, roles)
    ensures var all := (set ns | ns in namespaces) + (set role | role in roles && role.namespace != "" :: role.namespace);
      needed <==> |namespaces| != |all|
    ensures forall ns :: ns in namespaces ==> ns in result
    ensures !needed ==> result == namespaces
    ensures needed ==>
      StrictlySorted(result) && forall ns :: ns in result <==> ns in namespaces || (ns != "" && Bound(roles, ns))
  {
    var merged := MergeNamespaces(namespaces, roles);
    CheckedNamespacesMean(namespaces, roles);
    if |namespaces| != |merged| {
      result := SortedKeys(merged);
      SortUniqueIsCanonical(namespaces + RoleNamespaces(roles), result);
      return result, true;
    }
    return namespaces, false;
  }

  /** The two loops that fill the set. */
  method MergeNamespaces(namespaces: seq<string>, roles: seq<Role>) returns (merged: set<string>)
    ensures merged == Merged(namespaces, roles)
  {
    merged := {};
    for i := 0 to |namespaces|
      invariant merged == Elements(namespaces[..i])
    {
      ElementsSnoc(namespaces[..i], namespaces[i]);
      assert namespaces[..i + 1] == namespaces[..i] + [namespaces[i]];
      merged := merged + {namespaces[i]};
    }
    assert namespaces[..|namespaces|] == namespaces;
    for i := 0 to |roles|
      invariant merged == Elements(namespaces + RoleNamespaces(roles[..i]))
    {
      assert roles[..i + 1][..i] == roles[..i];
      if roles[i].namespace != "" {
        NamespacesSnoc(namespaces, roles[..i], roles[i]);
        merged := merged + {roles[i].namespace};
      }
    }
    assert roles[..|roles|] == roles;
  }

  lemma NamespacesSnoc(namespaces: seq<string>, roles: seq<Role>, role: Role)
    requires role.namespace != ""
    ensures Elements(namespaces + RoleNamespaces(roles + [role])) == Elements(namespaces + RoleNamespaces(roles)) + {role.namespace}
  {
    assert (roles + [role])[..|roles|] == roles;
    ElementsSnoc(namespaces + RoleNamespaces(roles), role.namespace);
    assert namespaces + (RoleNamespaces(roles) + [role.namespace]) == namespaces + RoleNamespaces(roles) + [role.namespace];
  }

  // ---- The whole check

  predicate Needed(user: User) {
    multiset(user.roleIDs) != multiset(IDs(user.roles)) || NamespacesDiffer(user.namespaces, user.roles)
  }

  function Checked(user: User): User {
    user.(roleIDs := CheckedIDs(user.roleIDs, IDs(user.roles)), namespaces := CheckedNamespaces(user.namespaces, user.roles))
  }

  /** IsUpdateUserNeeded.  The identifiers kept in the user are sorted in place even when nothing is reported. */
  method IsUpdateUserNeeded(user: User) returns (updated: User, needed: bool)
    ensures updated == Checked(user)
    ensures needed <==> Needed(user)
    ensures needed <==>
      multiset(user.roleIDs) != multiset(IDs(user.roles)) || |user.namespaces| != |All(user.namespaces, user.roles)|
    ensures updated == user.(roleIDs := updated.roleIDs, namespaces := updated.namespaces)
    ensures multiset(updated.roleIDs) == multiset(IDs(user.roles))
    ensures forall ns :: ns in user.namespaces ==> ns in updated.namespaces
    ensures if |user.namespaces| == |All(user.namespaces, user.roles)| then updated.namespaces == user.namespaces
      else StrictlySorted(updated.namespaces) && forall ns :: ns in updated.namespaces <==>
        ns in user.namespaces || (ns != "" && Bound(user.roles, ns))
  {
    var ids := RoleIDs(user.roles);
    var previous := new string[|user.roleIDs|](i requires 0 <= i < |user.roleIDs| => user.roleIDs[i]);
    var actual := new string[|ids|](i requires 0 <= i < |ids| => ids[i]);
    assert previous[..] == user.roleIDs && actual[..] == ids;
    var roleIDs, rolesNeeded := IsUpdateUserRoleNeeded(previous, actual);
    var namespaces, namespacesNeeded := IsUpdateUserNamespacesNeeded(user.namespaces, user.roles);
    updated := user.(roleIDs := roleIDs[..], namespaces := namespaces);
    needed := rolesNeeded || namespacesNeeded;
  }

  // ---- Convergence

  lemma StrictlySortedKept(namespaces: seq<string>, roles: seq<Role>)
    ensures var r := SortUnique(namespaces + RoleNamespaces(roles));
      |r| == |Merged(namespaces, roles)| && Elements(r) == Merged(namespaces, roles) && Merged(r, roles) == Elements(r)
  {
    var r := SortUnique(namespaces + RoleNamespaces(roles));
    SortUniqueSorted(namespaces + RoleNamespaces(roles));
    StrictlySortedLength(r);
    forall ns ensures ns in Merged(r, roles) <==> ns in Elements(r) {
      assert ns in RoleNamespaces(roles) ==> ns in namespaces + RoleNamespaces(roles);
      assert ns in Elements(r) <==> ns in r;
    }
  }

  lemma CheckedNamespacesSettle(namespaces: seq<string>, roles: seq<Role>)
    ensures !NamespacesDiffer(CheckedNamespaces(namespaces, roles), roles)
  {
    StrictlySortedKept(namespaces, roles);
  }

  /** Applied to its own result the check reports nothing, and changes no more than the order of the identifiers. */
  lemma CheckConverges(user: User)
    ensures !Needed(Checked(user))
    ensures Checked(Checked(user)) == Checked(user).(roleIDs := Sort(IDs(user.roles)))
    ensures Checked(Checked(Checked(user))) == Checked(Checked(user))
  {
    CheckedNamespacesSettle(user.namespaces, user.roles);
    var ids := IDs(user.roles);
    SortByLength(Itself, ids);
  }

  /** The namespaces the roles are bound to are all in the list. */
  ghost predicate Covers(namespaces: seq<string>, roles: seq<Role>) {
    forall role :: role in roles && role.namespace != "" ==> role.namespace in namespaces
  }

  /** The role namespaces that the user's own list lacks. */
  function Missing(namespaces: seq<string>, roles: seq<Role>): set<string> {
    Elements(RoleNamespaces(roles)) - Elements(namespaces)
  }

  function Repeats(namespaces: seq<string>): int {
    |namespaces| - |Elements(namespaces)|
  }

  lemma CoversMeans(namespaces: seq<string>, roles: seq<Role>)
    ensures Covers(namespaces, roles) <==> Missing(namespaces, roles) == {}
  {
    forall ns ensures ns in Missing(namespaces, roles) <==>
      ns !in namespaces && ns != "" && Bound(roles, ns)
    {
      RoleNamespacesMeans(roles, ns);
    }
    if Missing(namespaces, roles) != {} {
      var ns :| ns in Missing(namespaces, roles);
    }
  }

  lemma MergedSize(namespaces: seq<string>, roles: seq<Role>)
    ensures |Merged(namespaces, roles)| == |Elements(namespaces)| + |Missing(namespaces, roles)|
  {
    assert Merged(namespaces, roles) == Elements(namespaces) + Missing(namespaces, roles);
  }

  /** The checked namespaces cover those of the roles exactly when none is missing, or their number is not that of
      the repetitions in the list: one missing namespace and one repetition cancel out. */
  lemma CoversIff(namespaces: seq<string>, roles: seq<Role>)
    ensures Covers(CheckedNamespaces(namespaces, roles), roles) <==>
      Missing(namespaces, roles) == {} || |Missing(namespaces, roles)| != Repeats(namespaces)
  {
    MergedSize(namespaces, roles);
    StrictlySortedKept(namespaces, roles);
    var result := CheckedNamespaces(namespaces, roles);
    CoversMeans(result, roles);
    if NamespacesDiffer(namespaces, roles) {
      assert Missing(result, roles) == {} by {
        assert Elements(RoleNamespaces(roles)) <= Merged(namespaces, roles);
      }
    }
  }

  /** Without repetitions the checked namespaces cover those of the roles. */
  lemma CoversWithoutRepeats(namespaces: seq<string>, roles: seq<Role>)
    requires Repeats(namespaces) == 0
    ensures Covers(CheckedNamespaces(namespaces, roles), roles)
  {
    CoversIff(namespaces, roles);
  }

  /** A repetition can hide a missing namespace for good. */
  lemma RepeatHidesMissing() returns (user: User)
    ensures !Needed(user) && Checked(user).namespaces == user.namespaces && !Covers(user.namespaces, user.roles)
  {
    var role := ADMIN_ROLE.(namespace := "b");
    user := User("joe", "", [role], ["a", "a"], [], ["admin:b"]);
    assert FullID(role) == "admin" + ":" + "b" == "admin:b";
    assert IDs(user.roles) == ["admin:b"];
    assert [role][..0] == [] && RoleNamespaces([role]) == ["b"];
    assert Merged(["a", "a"], [role]) == {"a", "b"};
    assert role in user.roles;
  }

  // ---- The check followed by saving and loading, as the middleware does it

  lemma SameNamespaces(a: seq<Role>, b: seq<Role>)
    requires forall ns :: Bound(a, ns) <==> Bound(b, ns)
    ensures Elements(RoleNamespaces(a)) == Elements(RoleNamespaces(b))
  {
    forall ns ensures ns in RoleNamespaces(a) <==> ns in RoleNamespaces(b) {
      RoleNamespacesMeans(a, ns);
      RoleNamespacesMeans(b, ns);
    }
  }

  /** Loading the sorted identifiers gives roles bound to the same namespaces. */
  lemma LoadedNamespaces(catalogue: seq<Role>, roles: seq<Role>)
    requires ProperRoles(catalogue, roles)
    ensures Elements(RoleNamespaces(RolesFor(catalogue, SortUnique(IDs(roles))))) == Elements(RoleNamespaces(roles))
  {
    var ids := SortUnique(IDs(roles));
    var loaded := RolesFor(catalogue, ids);
    SortedIDsProper(catalogue, roles);
    ProperEntriesLoad(catalogue, ids);
    assert |loaded| == |IDs(loaded)| == |ids|;
    forall ns ensures Bound(loaded, ns) <==> Bound(roles, ns) {
      if r :| r in loaded && r.namespace == ns {
        var k :| 0 <= k < |loaded| && loaded[k] == r;
        assert IDs(loaded)[k] == ids[k] && ids[k] in Elements(ids) && ids[k] in Elements(IDs(roles));
        var i :| 0 <= i < |roles| && IDs(roles)[i] == ids[k];
        LoadedNamespace(catalogue, ids, k, roles[i]);
      }
      if r :| r in roles && r.namespace == ns {
        var i :| 0 <= i < |roles| && roles[i] == r;
        assert IDs(roles)[i] in Elements(IDs(roles)) && IDs(roles)[i] in Elements(ids);
        var k :| 0 <= k < |ids| && ids[k] == IDs(roles)[i];
        LoadedNamespace(catalogue, ids, k, r);
        assert loaded[k] in loaded;
      }
    }
    SameNamespaces(loaded, roles);
  }

  lemma {:induction false} LoadedNamespace(catalogue: seq<Role>, entries: seq<string>, k: nat, role: Role)
    requires ProperEntries(catalogue, entries) && k < |entries| && ProperRole(catalogue, role) && FullID(role) == entries[k]
    ensures |RolesFor(catalogue, entries)| == |entries| && RolesFor(catalogue, entries)[k].namespace == role.namespace
  {
    var n := |entries| - 1;
    ProperEntriesLoad(catalogue, entries);
    ProperEntriesLoad(catalogue, entries[..n]);
    assert |IDs(RolesFor(catalogue, entries))| == |entries| && |IDs(RolesFor(catalogue, entries[..n]))| == n;
    if k < n {
      LoadedNamespace(catalogue, entries[..n], k, role);
    } else {
      ParseOfFullID(role);
    }
  }

  lemma CheckedLinesProper(namespaces: seq<string>, roles: seq<Role>)
    requires forall n :: n in namespaces ==> ProperLine(n)
    requires forall role :: role in roles && role.namespace != "" ==> ProperLine(role.namespace)
    ensures forall n :: n in CheckedNamespaces(namespaces, roles) ==> ProperLine(n)
  {
    var all := namespaces + RoleNamespaces(roles);
    forall n | n in CheckedNamespaces(namespaces, roles) ensures ProperLine(n) {
      assert n in SortUnique(all) ==> n in Elements(SortUnique(all)) && n in Elements(all);
      RoleNamespacesMeans(roles, n);
    }
  }

  lemma MergedOfSame(namespaces: seq<string>, a: seq<Role>, b: seq<Role>)
    requires Elements(RoleNamespaces(a)) == Elements(RoleNamespaces(b))
    ensures NamespacesDiffer(namespaces, a) == NamespacesDiffer(namespaces, b)
  {
    assert Merged(namespaces, a) == Elements(namespaces) + Elements(RoleNamespaces(a));
    assert Merged(namespaces, b) == Elements(namespaces) + Elements(RoleNamespaces(b));
  }

  /** After one round of check, save and load, the next check reports nothing. */
  lemma OneRoundSettles(catalogue: seq<Role>, user: User, s: Stored)
    requires ProperUser(catalogue, user) && s.annotations.Some?
    requires forall role :: role in user.roles && role.namespace != "" ==> ProperLine(role.namespace)
    ensures !Needed(Loaded(catalogue, Saved(Checked(user), s)))
    ensures Loaded(catalogue, Saved(Checked(user), s)).namespaces == CheckedNamespaces(user.namespaces, user.roles)
  {
    var checked := Checked(user);
    assert ProperUser(catalogue, checked) by {
      CheckedLinesProper(user.namespaces, user.roles);
    }
    var loaded := Loaded(catalogue, Saved(checked, s));
    RoundTrip(catalogue, checked, s);
    LoadedNamespaces(catalogue, user.roles);
    MergedOfSame(checked.namespaces, loaded.roles, user.roles);
    CheckedNamespacesSettle(user.namespaces, user.roles);
  }

  // ---- The panic on absent annotations

  /** How a request is authenticated: with a token, with user name and password, or by a provider whose groups map
      to roles. */
  datatype Login = Token | Credentials | Provider(roles: seq<Role>)

  function DefaultRole(catalogue: seq<Role>): Option<Role> {
    if catalogue == [] then None
    else if catalogue[0].isDefault then Some(catalogue[0])
    else DefaultRole(catalogue[1..])
  }

  /** The user with the roles the middleware gives it: those of the provider, or else the default role when there
      are none. */
  function LoggedIn(catalogue: seq<Role>, login: Login, user: User): User {
    if login.Provider? && login.roles != [] then user.(roles := login.roles)
    else if !login.Token? && user.roles == [] && DefaultRole(catalogue).Some? then
      user.(roles := [DefaultRole(catalogue).value])
    else user
  }

  /** Nothing before the default role is one, and there is none only if no role is. */
  lemma {:induction false} DefaultRoleIsFirst(catalogue: seq<Role>) returns (i: nat)
    ensures i <= |catalogue| && (forall j :: 0 <= j < i ==> !catalogue[j].isDefault)
    ensures i < |catalogue| ==> catalogue[i].isDefault && DefaultRole(catalogue) == Some(catalogue[i])
    ensures i == |catalogue| ==> DefaultRole(catalogue) == None
  {
    i := 0;
    if catalogue != [] && !catalogue[0].isDefault {
      var k := DefaultRoleIsFirst(catalogue[1..]);
      assert forall j :: 0 < j < |catalogue| ==> catalogue[j] == catalogue[1..][j - 1];
      i := k + 1;
    }
  }

  /** The roles of a provider replace all others; the default role is for those who have none and came without a
      token.  Nothing else about the user changes. */
  lemma LoggedInMeans(catalogue: seq<Role>, login: Login, user: User)
    ensures var u := LoggedIn(catalogue, login, user);
      && u.username == user.username && u.password == user.password && u.roleIDs == user.roleIDs
      && u.namespaces == user.namespaces && u.gitconfigs == user.gitconfigs
      && (user.roles != [] && (login.Provider? ==> login.roles == []) ==> u.roles == user.roles)
      && (login.Provider? && login.roles != [] ==> u.roles == login.roles)
      && (login.Token? ==> u.roles == user.roles)
      && (login.Credentials? && user.roles == [] ==> FirstDefault(catalogue, u.roles))
      && (login.Provider? && login.roles == [] && user.roles == [] ==> FirstDefault(catalogue, u.roles))
  {
    var i := DefaultRoleIsFirst(catalogue);
  }

  /** The roles are the first default role of the catalogue, or none when it has none. */
  ghost predicate FirstDefault(catalogue: seq<Role>, roles: seq<Role>) {
    if roles == [] then forall role :: role in catalogue ==> !role.isDefault
    else exists i :: 0 <= i < |catalogue| && roles == [catalogue[i]] && IsFirstDefault(catalogue, i)
  }

  ghost predicate IsFirstDefault(catalogue: seq<Role>, i: nat)
    requires i < |catalogue|
  {
    catalogue[i].isDefault && forall j :: 0 <= j < i ==> !catalogue[j].isDefault
  }

  method GetDefaultRole(catalogue: seq<Role>) returns (role: Option<Role>)
    ensures role == DefaultRole(catalogue)
  {
    for i := 0 to |catalogue|
      invariant DefaultRole(catalogue) == DefaultRole(catalogue[i..])
    {
      if catalogue[i].isDefault {
        return Some(catalogue[i]);
      }
    }
    return None;
  }

  lemma NamespacesSaved(user: User, s: Stored)
    requires s.annotations.Some?
    ensures LinesAt(Saved(user, s).data, "namespaces") == Lines(Join(user.namespaces, "\n"))
  {
    UserDataAt(user, s.data);
  }

  lemma ProperLinesSurvive(names: seq<string>)
    ensures forall ns :: ns in names && ProperLine(ns) ==> ns in Lines(Join(names, "\n"))
    ensures (forall ns :: ns in names ==> ProperLine(ns)) ==> Lines(Join(names, "\n")) == names
  {
    forall ns | ns in names && ProperLine(ns) ensures ns in Lines(Join(names, "\n")) {
      ProperLineSurvives(names, ns);
    }
    LinesRoundTrip(names);
  }

  /** The names of the roles' namespaces can be written one a line. */
  ghost predicate ProperlyBound(roles: seq<Role>) {
    forall ns :: ns != "" && Bound(roles, ns) ==> ProperLine(ns)
  }

  lemma CheckedLines(namespaces: seq<string>, roles: seq<Role>)
    requires forall ns :: ns in namespaces ==> ProperLine(ns)
    ensures var names := CheckedNamespaces(namespaces, roles);
      && (forall ns :: ns in namespaces ==> ns in Lines(Join(names, "\n")))
      && (|namespaces| != |All(namespaces, roles)| ==>
        forall ns :: ProperLine(ns) && Bound(roles, ns) ==> ns in Lines(Join(names, "\n")))
      && (ProperlyBound(roles) ==> Lines(Join(names, "\n")) == names)
  {
    CheckedNamespacesMean(namespaces, roles);
    ProperLinesSurvive(CheckedNamespaces(namespaces, roles));
  }

  /** What is saved still lists every namespace the secret listed, and when the check adds to them those of the roles,
      too, as far as a line can hold their name. */
  lemma SavedLines(u: User, s: Stored)
    requires s.annotations.Some? && u.namespaces == LinesAt(s.data, "namespaces")
    ensures var lines := LinesAt(Saved(Checked(u), s).data, "namespaces");
      && (forall ns :: ns in LinesAt(s.data, "namespaces") ==> ns in lines)
      && (|u.namespaces| != |All(u.namespaces, u.roles)| ==>
        forall ns :: ProperLine(ns) && Bound(u.roles, ns) ==> ns in lines)
      && (ProperlyBound(u.roles) ==> lines == Checked(u).namespaces)
  {
    LinesAtProper(s.data, "namespaces");
    NamespacesSaved(Checked(u), s);
    CheckedLines(u.namespaces, u.roles);
  }

  /** The middleware on a user's secret: load, assign roles, check, and save when an update is asked for. */
  method Authenticate(catalogue: seq<Role>, login: Login, secret: UserSecret) returns (user: User, panicked: bool)
    requires secret.stringData == map[]
    modifies secret
    ensures var u := LoggedIn(catalogue, login, Loaded(catalogue, old(secret.Value())));
      && (panicked <==> Needed(u) && old(secret.annotations).None?)
      && (panicked || !Needed(u) ==> secret.Value() == old(secret.Value()))
      && (!panicked && Needed(u) ==> secret.Value() == Saved(Checked(u), old(secret.Value())))
      && (!panicked ==> user == if Needed(u) then Loaded(catalogue, secret.Value()) else Checked(u))
    ensures forall ns :: ns in LinesAt(old(secret.Value()).data, "namespaces") ==>
      ns in LinesAt(secret.Value().data, "namespaces")
  {
    ghost var was := secret.Value();
    user := secret.ToUser(catalogue);
    if login.Provider? && login.roles != [] {
      user := user.(roles := login.roles);
    } else if !login.Token? && user.roles == [] {
      var role := GetDefaultRole(catalogue);
      if role.Some? {
        user := user.(roles := [role.value]);
      }
    }
    var updated, needed := IsUpdateUserNeeded(user);
    if !needed {
      return updated, false;
    }
    panicked := secret.Update(updated);
    if !panicked {
      SavedLines(LoggedIn(catalogue, login, Loaded(catalogue, was)), was);
      var stored := new UserSecret(secret.Value());
      user := stored.ToUser(catalogue);
    }
  }

  /** The label of old releases gives the user a role. */
  predicate LabelGivesRole(catalogue: seq<Role>, s: Stored) {
    ROLE_LABEL in s.labels &&
    (Find(catalogue, s.labels[ROLE_LABEL], "").Some? ||
     (s.labels[ROLE_LABEL] == "user" && LinesAt(s.data, "namespaces") != []))
  }

  lemma NoRolesNoNamespaces(namespaces: seq<string>)
    ensures NamespacesDiffer(namespaces, []) <==> Repeats(namespaces) != 0
  {
    assert namespaces + RoleNamespaces([]) == namespaces;
  }

  /** Without annotations an update is asked for, which then panics, exactly when the user gets a role from the
      provider, from the label or by default, or lists a namespace twice. */
  lemma UpdatePanicsIff(catalogue: seq<Role>, login: Login, s: Stored)
    requires s.annotations.None?
    ensures Needed(LoggedIn(catalogue, login, Loaded(catalogue, s))) <==>
      || (login.Provider? && login.roles != [])
      || LabelGivesRole(catalogue, s)
      || (!login.Token? && DefaultRole(catalogue).Some?)
      || Repeats(LinesAt(s.data, "namespaces")) != 0
  {
    var loaded := Loaded(catalogue, s);
    var user := LoggedIn(catalogue, login, loaded);
    assert user.roleIDs == [] && user.namespaces == LinesAt(s.data, "namespaces");
    assert loaded.roles != [] <==> LabelGivesRole(catalogue, s) by {
      assert loaded.roles == LegacyRoles(catalogue, s.labels, user.namespaces);
    }
    assert |IDs(user.roles)| == |user.roles| == |multiset(IDs(user.roles))|;
    NoRolesNoNamespaces(user.namespaces);
  }

  /** The secret of a user "joe" of an old release: logging in panics. */
  lemma UnannotatedUserPanics(catalogue: seq<Role>, login: Login) returns (s: Stored)
    requires Find(catalogue, "user", "").Some?
    ensures s.annotations.None? && Needed(LoggedIn(catalogue, login, Loaded(catalogue, s)))
  {
    s := Stored(map[ROLE_LABEL := "user"], None, map["username" := "joe"]);
    UpdatePanicsIff(catalogue, login, s);
  }
}
