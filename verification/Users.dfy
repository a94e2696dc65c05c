/**
 Epinio users and the secrets they are kept in (internal/auth/user.go, internal/auth/role.go).
 */
module Users {
  import opened Picking
  import opened Sorting
  import opened Strings
  import opened Wrappers

  const ROLES_ANNOTATION := "epinio.io/roles"
  const ROLE_LABEL := "epinio.io/role"

  datatype Role = Role(id: string, name: string, namespace: string, actions: seq<string>, isDefault: bool)

  const ADMIN_ROLE := Role("admin", "Admin Role", "", [], false)

  datatype User = User(username: string, password: string, roles: seq<Role>, namespaces: seq<string>,
      gitconfigs: seq<string>, roleIDs: seq<string>)

  /** A secret as the cluster stores it.  Annotations can be absent altogether. */
  datatype Stored = Stored(labels: map<string, string>, annotations: Option<map<string, string>>,
      data: map<string, string>)

  // ---- Roles

  function FullID(role: Role): string {
    if role.namespace != "" then role.id + ":" + role.namespace else role.id
  }

  function IDs(roles: seq<Role>): seq<string> {
    seq(|roles|, i requires 0 <= i < |roles| => FullID(roles[i]))
  }

  function ParseRoleID(id: string): (string, string) {
    var parts := Split(id, ":");
    (parts[0], if |parts| > 1 then parts[1] else "")
  }

  /** The first role with this identifier and namespace. */
  function Find(roles: seq<Role>, id: string, namespace: string): (r: Option<Role>)
    ensures r.Some? ==> r.value in roles && r.value.id == id && r.value.namespace == namespace
    ensures r.None? ==> forall role :: role in roles ==> role.id != id || role.namespace != namespace
  {
    if roles == [] then None
    else if roles[0].id == id && roles[0].namespace == namespace then Some(roles[0])
    else Find(roles[1..], id, namespace)
  }

  predicate Is(role: Role, id: string, namespace: string) {
    role.id == id && role.namespace == namespace
  }

  /** No role before the one found is one, and nothing is found only if there is none. */
  lemma {:induction false} FindIsFirst(roles: seq<Role>, id: string, namespace: string) returns (i: nat)
    ensures i <= |roles| && forall j :: 0 <= j < i ==> !Is(roles[j], id, namespace)
    ensures i < |roles| ==> Is(roles[i], id, namespace)
    ensures Find(roles, id, namespace) == if i < |roles| then Some(roles[i]) else None
  {
    i := 0;
    if roles != [] && !Is(roles[0], id, namespace) {
      var k := FindIsFirst(roles[1..], id, namespace);
      assert forall j :: 0 < j < |roles| ==> roles[j] == roles[1..][j - 1];
      i := k + 1;
    }
  }

  // ---- What loading computes

  /** The role behind one entry of the annotation, if the catalogue has it. */
  function RoleFor(catalogue: seq<Role>, entry: string): seq<Role> {
    var (id, namespace) := ParseRoleID(entry);
    match Find(catalogue, id, "")
    case Some(role) => [role.(namespace := namespace)]
    case None => []
  }

  function RolesFor(catalogue: seq<Role>, entries: seq<string>): seq<Role> {
    if entries == [] then []
    else RolesFor(catalogue, entries[..|entries| - 1]) + RoleFor(catalogue, entries[|entries| - 1])
  }

  function AnnotatedRoles(annotations: Option<map<string, string>>): string {
    if annotations.Some? then Get(annotations.value, ROLES_ANNOTATION) else ""
  }

  function RoleEntries(annotation: string): seq<string> {
    var text := TrimSpace(annotation);
    if text == "" then [] else Split(text, ",")
  }

  function NonEmpty(lines: seq<string>): seq<string> {
    if lines == [] then []
    else
      var last := TrimSpace(lines[|lines| - 1]);
      NonEmpty(lines[..|lines| - 1]) + if last != "" then [last] else []
  }

  /** The names in a text with one name a line. */
  function Lines(text: string): seq<string> {
    NonEmpty(Split(TrimSpace(text), "\n"))
  }

  function LinesAt(data: map<string, string>, key: string): seq<string> {
    if key in data then Lines(data[key]) else []
  }

  function AdminFor(namespaces: seq<string>): seq<Role> {
    seq(|namespaces|, i requires 0 <= i < |namespaces| => ADMIN_ROLE.(namespace := namespaces[i]))
  }

  /** The roles that the label of old releases stands for. */
  function LegacyRoles(catalogue: seq<Role>, labels: map<string, string>, namespaces: seq<string>): seq<Role> {
    if ROLE_LABEL !in labels then []
    else
      var found := Find(catalogue, labels[ROLE_LABEL], "");
      (if found.Some? then [found.value] else []) + (if labels[ROLE_LABEL] == "user" then AdminFor(namespaces) else [])
  }

  function Loaded(catalogue: seq<Role>, s: Stored): User {
    var entries := RoleEntries(AnnotatedRoles(s.annotations));
    var namespaces := LinesAt(s.data, "namespaces");
    User(Get(s.data, "username"), Get(s.data, "password"),
         RolesFor(catalogue, entries) + LegacyRoles(catalogue, s.labels, namespaces),
         namespaces, LinesAt(s.data, "gitconfigs"), entries)
  }

  // ---- What saving computes

  function UserData(user: User): map<string, string> {
    map["username" := user.username,
        "namespaces" := Join(user.namespaces, "\n"),
        "gitconfigs" := Join(user.gitconfigs, "\n")]
  }

  function RolesAnnotation(user: User): string {
    Join(SortUnique(IDs(user.roles)), ",")
  }

  /** The secret after saving a user into it: its string data has been merged into its data. */
  function Saved(user: User, s: Stored): Stored
    requires s.annotations.Some?
  {
    Stored(s.labels - {ROLE_LABEL},
           Some(s.annotations.value[ROLES_ANNOTATION := RolesAnnotation(user)]),
           s.data + UserData(user))
  }

  /** The secret of a new user. */
  const FRESH_SECRET := Stored(map["epinio.io/api-user-credentials" := "true"], Some(map[]), map[])

  // ---- Loading and saving as the source performs them

  method FindByIDAndNamespace(roles: seq<Role>, id: string, namespace: string) returns (found: Option<Role>)
    ensures found == Find(roles, id, namespace)
  {
    for i := 0 to |roles|
      invariant Find(roles, id, namespace) == Find(roles[i..], id, namespace)
    {
      if roles[i].id == id && roles[i].namespace == namespace {
        return Some(roles[i]);
      }
    }
    return None;
  }

  method RoleIDs(roles: seq<Role>) returns (ids: seq<string>)
    ensures ids == IDs(roles)
    ensures |ids| == |roles| && forall i :: 0 <= i < |ids| ==>
      ids[i] == roles[i].id + (if roles[i].namespace == "" then "" else ":" + roles[i].namespace)
  {
    ids := [];
    for i := 0 to |roles|
      invariant ids == IDs(roles)[..i]
    {
      var id := roles[i].id;
      if roles[i].namespace != "" {
        id := roles[i].id + ":" + roles[i].namespace;
      }
      ids := ids + [id];
    }
  }

  method LoadRoles(catalogue: seq<Role>, entries: seq<string>) returns (roles: seq<Role>)
    ensures roles == RolesFor(catalogue, entries)
  {
    roles := [];
    for i := 0 to |entries|
      invariant roles == RolesFor(catalogue, entries[..i])
    {
      assert entries[..i + 1][..i] == entries[..i];
      var (id, namespace) := ParseRoleID(entries[i]);
      var found := FindByIDAndNamespace(catalogue, id, "");
      if found.Some? {
        roles := roles + [found.value.(namespace := namespace)];
      }
    }
    assert entries[..|entries|] == entries;
  }

  method LoadLines(text: string) returns (names: seq<string>)
    ensures names == Lines(text)
  {
    var lines := Split(TrimSpace(text), "\n");
    names := [];
    for i := 0 to |lines|
      invariant names == NonEmpty(lines[..i])
    {
      assert lines[..i + 1][..i] == lines[..i];
      var name := TrimSpace(lines[i]);
      if name != "" {
        names := names + [name];
      }
    }
    assert lines[..|lines|] == lines;
  }

  class UserSecret {
    var labels: map<string, string>
    var annotations: Option<map<string, string>>
    var data: map<string, string>
    var stringData: map<string, string>

    /** What the cluster stores when it is handed the object. */
    function Value(): Stored
      reads this
    {
      Stored(labels, annotations, data + stringData)
    }

    constructor (stored: Stored)
      ensures Value() == stored && stringData == map[] && annotations == stored.annotations
    {
      labels, annotations, data, stringData := stored.labels, stored.annotations, stored.data, map[];
    }

    method LoadNames(key: string) returns (names: seq<string>)
      ensures names == LinesAt(data, key)
    {
      names := [];
      if key in data {
        names := LoadLines(data[key]);
      }
    }

    method LoadLegacyRoles(catalogue: seq<Role>, namespaces: seq<string>) returns (roles: seq<Role>)
      ensures roles == LegacyRoles(catalogue, labels, namespaces)
    {
      roles := [];
      if ROLE_LABEL in labels {
        var found := FindByIDAndNamespace(catalogue, labels[ROLE_LABEL], "");
        if found.Some? {
          roles := [found.value];
        }
        if labels[ROLE_LABEL] == "user" {
          ghost var before := roles;
          for i := 0 to |namespaces|
            invariant roles == before + AdminFor(namespaces)[..i]
          {
            roles := roles + [ADMIN_ROLE.(namespace := namespaces[i])];
          }
        }
      }
    }

    /** newUserFromSecret. */
    method ToUser(catalogue: seq<Role>) returns (user: User)
      requires stringData == map[]
      ensures user == Loaded(catalogue, Value())
      ensures user.username == Get(data, "username") && user.password == Get(data, "password")
      ensures user.namespaces == LinesAt(data, "namespaces") && user.gitconfigs == LinesAt(data, "gitconfigs")
      ensures user.roleIDs == RoleEntries(AnnotatedRoles(annotations))
      ensures user.roles == RolesFor(catalogue, user.roleIDs) + LegacyRoles(catalogue, labels, user.namespaces)
    {
      assert Value().data == data;
      var entries, roles := [], [];
      var text := TrimSpace(AnnotatedRoles(annotations));
      if text != "" {
        entries := Split(text, ",");
        roles := LoadRoles(catalogue, entries);
      }
      var namespaces := LoadNames("namespaces");
      var gitconfigs := LoadNames("gitconfigs");
      var legacy := LoadLegacyRoles(catalogue, namespaces);
      user := User(Get(data, "username"), Get(data, "password"), roles + legacy, namespaces, gitconfigs, entries);
    }

    /** updateUserSecretData.  Assigning to absent annotations panics, before anything has changed. */
    method Update(user: User) returns (panicked: bool)
      requires stringData == map[]
      modifies this
      ensures panicked <==> old(annotations).None?
      ensures panicked ==> Value() == old(Value()) && stringData == map[]
      ensures !panicked ==> Value() == Saved(user, old(Value()))
      ensures data == old(data)
    {
      assert Value().data == data;
      var ids := RoleIDs(user.roles);
      var unique := UniqueAndSort(ids);
      if annotations.None? {
        return true;
      }
      annotations := Some(annotations.value[ROLES_ANNOTATION := Join(unique, ",")]);
      stringData := UserData(user);
      labels := labels - {ROLE_LABEL};
      panicked := false;
    }
  }

  /** newSecretFromUser. */
  method NewSecretFromUser(user: User) returns (secret: UserSecret)
    ensures fresh(secret) && secret.Value() == Saved(user, FRESH_SECRET)
    ensures secret.Value().labels == map["epinio.io/api-user-credentials" := "true"]
    ensures secret.Value().annotations == Some(map["epinio.io/roles" := Join(SortUnique(IDs(user.roles)), ",")])
    ensures secret.Value().data == map["username" := user.username, "namespaces" := Join(user.namespaces, "\n"),
                                       "gitconfigs" := Join(user.gitconfigs, "\n")]
  {
    secret := new UserSecret(FRESH_SECRET);
    var panicked := secret.Update(user);
  }

  // ---- Names, one a line

  predicate ProperLine(name: string) {
    name != "" && '\n' !in name && Trimmed(name)
  }

  lemma {:induction false} NonEmptyOfProper(lines: seq<string>)
    requires forall l :: l in lines ==> ProperLine(l)
    ensures NonEmpty(lines) == lines
  {
    if lines != [] {
      var front, last := lines[..|lines| - 1], lines[|lines| - 1];
      assert lines == front + [last] && last in lines;
      assert forall l :: l in front ==> l in lines;
      NonEmptyOfProper(front);
      TrimSpaceOfTrimmed(last);
    }
  }

  lemma {:induction false} TrimKeepsOut(s: string, c: char)
    requires c !in s
    ensures c !in TrimSpace(s)
  {
    TrimLeftKeepsOut(s, c);
  }

  lemma {:induction false} TrimLeftKeepsOut(s: string, c: char)
    requires c !in s
    ensures c !in TrimLeft(s, IsSpace)
    decreases |s|
  {
    if s != "" && IsSpace(s[0]) {
      TrimLeftKeepsOut(s[1..], c);
    }
  }

  lemma {:induction false} NonEmptyIsProper(lines: seq<string>, name: string)
    requires (forall l :: l in lines ==> '\n' !in l) && name in NonEmpty(lines)
    ensures ProperLine(name)
  {
    var last := lines[|lines| - 1];
    TrimKeepsOut(last, '\n');
    if name in NonEmpty(lines[..|lines| - 1]) {
      NonEmptyIsProper(lines[..|lines| - 1], name);
    }
  }

  /** Parts with no space at their ends join to a text with no space at its ends. */
  lemma {:induction false} JoinTrimmed(parts: seq<string>, sep: string)
    requires forall p :: p in parts ==> p != "" && Trimmed(p)
    ensures Trimmed(Join(parts, sep)) && (parts != [] ==> Join(parts, sep) != "" && parts[0] <= Join(parts, sep))
  {
    if parts != [] {
      assert parts[0] in parts;
      if |parts| > 1 {
        assert forall p :: p in parts[1..] ==> p in parts;
        JoinTrimmed(parts[1..], sep);
        var rest := Join(parts[1..], sep);
        assert Join(parts, sep)[|Join(parts, sep)| - 1] == rest[|rest| - 1];
      }
    }
  }

  /** A list of names survives saving and loading exactly when every name is proper: not empty, free of newlines,
      no space at its ends. */
  lemma LinesRoundTrip(names: seq<string>)
    ensures Lines(Join(names, "\n")) == names <==> forall n :: n in names ==> ProperLine(n)
  {
    var text := Join(names, "\n");
    if forall n :: n in names ==> ProperLine(n) {
      JoinTrimmed(names, "\n");
      TrimSpaceOfTrimmed(text);
      if names == [] {
        IndexOfAbsent("", '\n');
        assert Lines(text) == [];
      } else {
        SplitOfJoin(names, '\n');
        NonEmptyOfProper(names);
      }
    }
    LinesAreProper(text);
  }

  lemma LinesAreProper(text: string)
    ensures forall n :: n in Lines(text) ==> ProperLine(n)
  {
    JoinOfSplit(TrimSpace(text), '\n');
    forall n | n in Lines(text) ensures ProperLine(n) {
      NonEmptyIsProper(Split(TrimSpace(text), "\n"), n);
    }
  }

  /** One of the lines is this name, between white space. */
  ghost predicate TrimsTo(lines: seq<string>, name: string) {
    exists line :: line in lines && TrimSpace(line) == name
  }

  ghost predicate HasLine(text: string, name: string) {
    TrimsTo(Split(text, "\n"), name)
  }

  lemma {:induction false} NonEmptyMeans(lines: seq<string>, name: string)
    ensures name in NonEmpty(lines) <==> name != "" && TrimsTo(lines, name)
  {
    if lines != [] {
      NonEmptyMeans(lines[..|lines| - 1], name);
      assert lines == lines[..|lines| - 1] + [lines[|lines| - 1]];
    }
  }

  lemma HasLinePadded(text: string, d: char, name: string)
    requires IsSpace(d) && name != ""
    ensures HasLine([d] + text, name) <==> HasLine(text, name)
    ensures HasLine(text + [d], name) <==> HasLine(text, name)
  {
    if d == '\n' {
      HasLineNewline(text, name);
    } else {
      HasLinePaddedLeft(text, d, name);
      HasLinePaddedRight(text, d, name);
    }
  }

  lemma HasLinePaddedLeft(text: string, d: char, name: string)
    requires IsSpace(d) && d != '\n'
    ensures HasLine([d] + text, name) <==> HasLine(text, name)
  {
    var lines := Split(text, "\n");
    SplitPaddedLeft(text, '\n', d);
    TrimPadded(lines[0], d);
    TrimmedAt(lines, 0, [d] + lines[0], name);
  }

  lemma HasLinePaddedRight(text: string, d: char, name: string)
    requires IsSpace(d) && d != '\n'
    ensures HasLine(text + [d], name) <==> HasLine(text, name)
  {
    var lines := Split(text, "\n");
    var last := |lines| - 1;
    SplitPaddedRight(text, '\n', d);
    TrimPadded(lines[last], d);
    TrimmedAt(lines, last, lines[last] + [d], name);
  }

  lemma HasLineNewline(text: string, name: string)
    requires name != ""
    ensures HasLine(['\n'] + text, name) <==> HasLine(text, name)
    ensures HasLine(text + ['\n'], name) <==> HasLine(text, name)
  {
    assert "" + "\n" + text == ['\n'] + text && text + "\n" + "" == text + ['\n'];
    SplitConcat("", '\n', text);
    SplitConcat(text, '\n', "");
    IndexOfAbsent("", '\n');
    assert TrimSpace("") == "";
  }

  lemma TrimmedAt(lines: seq<string>, k: nat, line: string, name: string)
    requires k < |lines| && TrimSpace(line) == TrimSpace(lines[k])
    ensures TrimsTo(lines[k := line], name) <==> TrimsTo(lines, name)
  {
    if TrimsTo(lines, name) {
      var i :| 0 <= i < |lines| && TrimSpace(lines[i]) == name;
      assert lines[k := line][i] in lines[k := line];
    }
    if TrimsTo(lines[k := line], name) {
      var i :| 0 <= i < |lines| && TrimSpace(lines[k := line][i]) == name;
      assert lines[i] in lines;
    }
  }

  lemma {:induction false} HasLineBetween(before: string, text: string, after: string, name: string)
    requires (forall c :: c in before ==> IsSpace(c)) && (forall c :: c in after ==> IsSpace(c)) && name != ""
    ensures HasLine(before + text + after, name) <==> HasLine(text, name)
    decreases |before| + |after|
  {
    if before != "" {
      assert before[0] in before && forall c :: c in before[1..] ==> c in before;
      assert before + text + after == [before[0]] + (before[1..] + text + after);
      HasLineBetween(before[1..], text, after, name);
      HasLinePadded(before[1..] + text + after, before[0], name);
    } else if after != "" {
      var n := |after| - 1;
      assert after[n] in after && forall c :: c in after[..n] ==> c in after;
      assert before + text + after == (before + text + after[..n]) + [after[n]];
      HasLineBetween(before, text, after[..n], name);
      HasLinePadded(before + text + after[..n], after[n], name);
    } else {
      assert before + text + after == text;
    }
  }

  /** The names of a text are exactly its non-empty lines, without the white space around them. */
  lemma LinesMean(text: string, name: string)
    ensures name in Lines(text) <==> name != "" && HasLine(text, name)
  {
    var before, after := TrimSpaceMeans(text);
    NonEmptyMeans(Split(TrimSpace(text), "\n"), name);
    if name != "" {
      HasLineBetween(before, TrimSpace(text), after, name);
    }
  }

  /** A proper name is found again whatever names it is saved with. */
  lemma ProperLineSurvives(names: seq<string>, name: string)
    requires name in names && ProperLine(name)
    ensures name in Lines(Join(names, "\n"))
  {
    JoinHasParts(names, '\n', name);
    TrimSpaceOfTrimmed(name);
    LinesMean(Join(names, "\n"), name);
  }

  function LinePick(): string -> Option<string> {
    line => if TrimSpace(line) != "" then Some(TrimSpace(line)) else None
  }

  /** The lines that are not blank, in order, without the white space around them. */
  lemma {:induction false} NonEmptyPicks(lines: seq<string>)
    ensures NonEmpty(lines) == Pick(LinePick(), lines)
  {
    if lines != [] {
      NonEmptyPicks(lines[..|lines| - 1]);
    }
  }

  // ---- Roles through the annotation

  /** The role can be written down and found again. */
  ghost predicate ProperRole(catalogue: seq<Role>, role: Role) {
    && Find(catalogue, role.id, "").Some?
    && role.id != "" && Trimmed(FullID(role))
    && ',' !in role.id && ':' !in role.id && ',' !in role.namespace && ':' !in role.namespace
  }

  ghost predicate ProperRoles(catalogue: seq<Role>, roles: seq<Role>) {
    forall role :: role in roles ==> ProperRole(catalogue, role)
  }

  lemma ParseOfFullID(role: Role)
    requires ':' !in role.id && ':' !in role.namespace
    ensures ParseRoleID(FullID(role)) == (role.id, role.namespace)
  {
    if role.namespace == "" {
      IndexOfAbsent(role.id, ':');
    } else {
      SplitOfJoin([role.id, role.namespace], ':');
    }
  }

  /** An entry that stands for a role of the catalogue and is written as its identifier would be. */
  ghost predicate ProperEntry(catalogue: seq<Role>, entry: string) {
    exists role :: ProperRole(catalogue, role) && FullID(role) == entry
  }

  lemma ProperEntryLoads(catalogue: seq<Role>, entry: string)
    requires ProperEntry(catalogue, entry)
    ensures |RoleFor(catalogue, entry)| == 1 && FullID(RoleFor(catalogue, entry)[0]) == entry
    ensures RoleFor(catalogue, entry)[0].namespace == ParseRoleID(entry).1
    ensures entry != "" && Trimmed(entry) && ',' !in entry
  {
    var role :| ProperRole(catalogue, role) && FullID(role) == entry;
    ParseOfFullID(role);
  }

  ghost predicate ProperEntries(catalogue: seq<Role>, entries: seq<string>) {
    forall k :: 0 <= k < |entries| ==> ProperEntry(catalogue, entries[k])
  }

  lemma {:induction false} ProperEntriesLoad(catalogue: seq<Role>, entries: seq<string>)
    requires ProperEntries(catalogue, entries)
    ensures IDs(RolesFor(catalogue, entries)) == entries
  {
    if entries != [] {
      var n := |entries| - 1;
      ProperEntriesLoad(catalogue, entries[..n]);
      LastEntryLoads(catalogue, entries);
    }
  }

  lemma LastEntryLoads(catalogue: seq<Role>, entries: seq<string>)
    requires entries != [] && ProperEntry(catalogue, entries[|entries| - 1])
    requires IDs(RolesFor(catalogue, entries[..|entries| - 1])) == entries[..|entries| - 1]
    ensures IDs(RolesFor(catalogue, entries)) == entries
  {
    var front, last := entries[..|entries| - 1], entries[|entries| - 1];
    assert entries == front + [last];
    var role := RoleFor(catalogue, last);
    assert |role| == 1 && FullID(role[0]) == last by {
      ProperEntryLoads(catalogue, last);
    }
    assert role == [role[0]];
    IDsSnoc(RolesFor(catalogue, front), role[0]);
  }

  lemma IDsSnoc(roles: seq<Role>, role: Role)
    ensures IDs(roles + [role]) == IDs(roles) + [FullID(role)]
  {
  }

  lemma SortedIDsProper(catalogue: seq<Role>, roles: seq<Role>)
    requires ProperRoles(catalogue, roles)
    ensures ProperEntries(catalogue, SortUnique(IDs(roles)))
  {
    var ids := SortUnique(IDs(roles));
    forall k | 0 <= k < |ids| ensures ProperEntry(catalogue, ids[k]) {
      var e := ids[k];
      assert e in Elements(ids) && e in Elements(IDs(roles));
      var i :| 0 <= i < |roles| && IDs(roles)[i] == e;
      assert ProperRole(catalogue, roles[i]);
    }
  }

  lemma EntriesRoundTrip(catalogue: seq<Role>, entries: seq<string>)
    requires ProperEntries(catalogue, entries)
    ensures RoleEntries(Join(entries, ",")) == entries
  {
    forall e | e in entries ensures e != "" && Trimmed(e) && ',' !in e {
      ProperEntryLoads(catalogue, e);
    }
    JoinTrimmed(entries, ",");
    TrimSpaceOfTrimmed(Join(entries, ","));
    if entries != [] {
      SplitOfJoin(entries, ',');
    }
  }

  /** One entry of the annotation stands for the first role of the catalogue that has its identifier and no namespace,
      bound to the namespace of the entry; what follows a second colon is ignored. */
  lemma RoleForMeans(catalogue: seq<Role>, id: string, ns: string, more: string) returns (i: nat)
    requires ':' !in id && ':' !in ns
    ensures i <= |catalogue| && forall j :: 0 <= j < i ==> catalogue[j].id != id || catalogue[j].namespace != ""
    ensures i < |catalogue| ==> catalogue[i].id == id && catalogue[i].namespace == ""
    ensures i == |catalogue| ==> RoleFor(catalogue, id) == RoleFor(catalogue, id + ":" + ns) == []
    ensures i < |catalogue| ==> RoleFor(catalogue, id) == [catalogue[i]]
    ensures i < |catalogue| ==> RoleFor(catalogue, id + ":" + ns) == [catalogue[i].(namespace := ns)]
    ensures RoleFor(catalogue, id + ":" + ns + ":" + more) == RoleFor(catalogue, id + ":" + ns)
  {
    i := FindIsFirst(catalogue, id, "");
    assert Is(Role(id, "", "", [], false), id, "");
    IndexOfAbsent(id, ':');
    SplitOfJoin([id, ns], ':');
    SplitConcat(id + ":" + ns, ':', more);
    assert Split(id + ":" + ns, ":") == [id, ns];
  }

  /** The entries are looked up one by one, in order. */
  lemma {:induction false} RolesForDistributes(catalogue: seq<Role>, a: seq<string>, b: seq<string>)
    ensures RolesFor(catalogue, a + b) == RolesFor(catalogue, a) + RolesFor(catalogue, b)
  {
    if b == [] {
      assert a + b == a;
    } else {
      var n := |b| - 1;
      var last := RoleFor(catalogue, b[n]);
      assert RolesFor(catalogue, a + b) == RolesFor(catalogue, a + b[..n]) + last by {
        assert (a + b)[..|a + b| - 1] == a + b[..n] && (a + b)[|a + b| - 1] == b[n];
      }
      RolesForDistributes(catalogue, a, b[..n]);
      assert RolesFor(catalogue, b) == RolesFor(catalogue, b[..n]) + last;
    }
  }

  lemma RolesForOne(catalogue: seq<Role>, entry: string)
    ensures RolesFor(catalogue, [entry]) == RoleFor(catalogue, entry)
  {
    assert [entry][..0] == [];
  }

  /** The entries are what the commas of the annotation separate; a blank annotation has none. */
  lemma RoleEntriesMean(annotation: string)
    ensures (forall c :: c in annotation ==> IsSpace(c)) ==> RoleEntries(annotation) == []
    ensures RoleEntries(annotation) == [] ==> TrimSpace(annotation) == ""
    ensures Join(RoleEntries(annotation), ",") == TrimSpace(annotation)
    ensures forall e :: e in RoleEntries(annotation) ==> ',' !in e
  {
    var before, after := TrimSpaceMeans(annotation);
    var text := TrimSpace(annotation);
    if text != "" {
      assert annotation[|before|] == text[0];
    }
    JoinOfSplit(text, ',');
  }

  /** The label of old releases stands for the first role of that name; the label "user" also for the admin role in
      each of the user's namespaces. */
  lemma LegacyRolesMean(catalogue: seq<Role>, labels: map<string, string>, namespaces: seq<string>) returns (i: nat)
    ensures "epinio.io/role" !in labels ==> LegacyRoles(catalogue, labels, namespaces) == []
    ensures "epinio.io/role" in labels ==>
      var id := labels["epinio.io/role"];
      && i <= |catalogue| && (forall j :: 0 <= j < i ==> catalogue[j].id != id || catalogue[j].namespace != "")
      && (i < |catalogue| ==> catalogue[i].id == id && catalogue[i].namespace == "")
      && LegacyRoles(catalogue, labels, namespaces) ==
        (if i < |catalogue| then [catalogue[i]] else []) + (if id == "user" then AdminFor(namespaces) else [])
  {
    i := 0;
    if ROLE_LABEL in labels {
      i := FindIsFirst(catalogue, labels[ROLE_LABEL], "");
      assert forall j :: 0 <= j < |catalogue| ==>
        (Is(catalogue[j], labels[ROLE_LABEL], "") <==> catalogue[j].id == labels[ROLE_LABEL] && catalogue[j].namespace == "");
    }
  }

  lemma AdminForMeans(namespaces: seq<string>)
    ensures |AdminFor(namespaces)| == |namespaces|
    ensures forall k :: 0 <= k < |namespaces| ==>
      AdminFor(namespaces)[k] == Role("admin", "Admin Role", namespaces[k], [], false)
  {
  }

  /** Saving writes one annotation and three keys of the data, takes the old label away, and keeps everything else. */
  lemma SavedMeans(user: User, s: Stored)
    requires s.annotations.Some?
    ensures var after := Saved(user, s);
      && after.labels == s.labels - {"epinio.io/role"}
      && after.annotations.Some?
      && after.annotations.value - {"epinio.io/roles"} == s.annotations.value - {"epinio.io/roles"}
      && after.data - {"username", "namespaces", "gitconfigs"} == s.data - {"username", "namespaces", "gitconfigs"}
  {
    UserDataAt(user, s.data);
  }

  // ---- The round trip of a user

  ghost predicate ProperUser(catalogue: seq<Role>, user: User) {
    && ProperRoles(catalogue, user.roles)
    && (forall n :: n in user.namespaces ==> ProperLine(n))
    && (forall g :: g in user.gitconfigs ==> ProperLine(g))
  }

  lemma UserDataAt(user: User, data: map<string, string>)
    ensures var d := data + UserData(user);
      && "namespaces" in d && d["namespaces"] == Join(user.namespaces, "\n")
      && "gitconfigs" in d && d["gitconfigs"] == Join(user.gitconfigs, "\n")
      && Get(d, "username") == user.username && Get(d, "password") == Get(data, "password")
  {
    assert |"username"| == 8 && |"password"| == 8 && |"namespaces"| == 10 && |"gitconfigs"| == 10;
    assert "username"[0] != "password"[0] && "namespaces"[0] != "gitconfigs"[0];
  }

  /** What comes back of a proper user. */
  ghost predicate ComesBack(user: User, password: string, u: User) {
    && u.username == user.username && u.namespaces == user.namespaces && u.gitconfigs == user.gitconfigs
    && u.password == password
    && IDs(u.roles) == u.roleIDs == SortUnique(IDs(user.roles))
  }

  lemma RolesComeBack(catalogue: seq<Role>, user: User, s: Stored)
    requires ProperRoles(catalogue, user.roles) && s.annotations.Some?
    ensures var ids := SortUnique(IDs(user.roles));
      RoleEntries(AnnotatedRoles(Saved(user, s).annotations)) == ids && IDs(RolesFor(catalogue, ids)) == ids
  {
    var ids := SortUnique(IDs(user.roles));
    SortedIDsProper(catalogue, user.roles);
    EntriesRoundTrip(catalogue, ids);
    ProperEntriesLoad(catalogue, ids);
  }

  lemma LinesComeBack(catalogue: seq<Role>, user: User, s: Stored)
    requires ProperUser(catalogue, user) && s.annotations.Some?
    ensures LinesAt(Saved(user, s).data, "namespaces") == user.namespaces
    ensures LinesAt(Saved(user, s).data, "gitconfigs") == user.gitconfigs
  {
    LinesRoundTrip(user.namespaces);
    LinesRoundTrip(user.gitconfigs);
    UserDataAt(user, s.data);
  }

  lemma LoadedFrom(catalogue: seq<Role>, s: Stored, user: User)
    requires ROLE_LABEL !in s.labels && user.roleIDs == RoleEntries(AnnotatedRoles(s.annotations))
    requires user.roles == RolesFor(catalogue, user.roleIDs)
    requires user.namespaces == LinesAt(s.data, "namespaces") && user.gitconfigs == LinesAt(s.data, "gitconfigs")
    requires user.username == Get(s.data, "username") && user.password == Get(s.data, "password")
    ensures Loaded(catalogue, s) == user
  {
    assert user.roles + [] == user.roles;
  }

  /** Saving a user and loading it gives the name, the namespaces and the gitconfigs back in order, and the role
      identifiers sorted and without duplicates; the password is the one the secret had. */
  lemma RoundTrip(catalogue: seq<Role>, user: User, s: Stored)
    requires ProperUser(catalogue, user) && s.annotations.Some?
    ensures ComesBack(user, Get(s.data, "password"), Loaded(catalogue, Saved(user, s)))
    ensures Loaded(catalogue, Saved(user, s)).roles == RolesFor(catalogue, SortUnique(IDs(user.roles)))
  {
    var ids := SortUnique(IDs(user.roles));
    var u := user.(password := Get(s.data, "password"), roles := RolesFor(catalogue, ids), roleIDs := ids);
    RolesComeBack(catalogue, user, s);
    LoadedFrom(catalogue, Saved(user, s), u) by {
      LinesComeBack(catalogue, user, s);
      UserDataAt(user, s.data);
    }
  }

  lemma PutTwice(m: map<string, string>, d: map<string, string>)
    ensures (m + d) + d == m + d
  {
  }

  /** A secret shows no difference between two users with the same names and the same role identifiers. */
  lemma SavedAgain(u: User, user: User, s: Stored)
    requires s.annotations.Some? && UserData(u) == UserData(user) && RolesAnnotation(u) == RolesAnnotation(user)
    ensures Saved(u, Saved(user, s)) == Saved(user, s)
  {
    var data, m, ids := UserData(user), s.annotations.value, RolesAnnotation(user);
    PutTwice(s.data, data);
    assert m[ROLES_ANNOTATION := ids][ROLES_ANNOTATION := ids] == m[ROLES_ANNOTATION := ids];
    assert s.labels - {ROLE_LABEL} - {ROLE_LABEL} == s.labels - {ROLE_LABEL};
  }

  /** Saving the loaded user once more changes nothing in the secret, and so loads the same user again. */
  lemma SecondSaveChangesNothing(catalogue: seq<Role>, user: User, s: Stored)
    requires ProperUser(catalogue, user) && s.annotations.Some?
    ensures Saved(Loaded(catalogue, Saved(user, s)), Saved(user, s)) == Saved(user, s)
  {
    var u := Loaded(catalogue, Saved(user, s));
    assert UserData(u) == UserData(user) && IDs(u.roles) == SortUnique(IDs(user.roles)) by {
      RoundTrip(catalogue, user, s);
    }
    assert RolesAnnotation(u) == RolesAnnotation(user) by {
      SortUniqueSorted(IDs(user.roles));
      SortUniqueIsCanonical(IDs(user.roles), SortUnique(IDs(user.roles)));
    }
    SavedAgain(u, user, s);
  }

  // ---- Users of old releases

  predicate Unseparated(name: string) {
    ',' !in name && ':' !in name
  }

  lemma LegacyRoleProper(catalogue: seq<Role>, role: Role, namespace: string)
    requires Find(catalogue, role.id, "").Some? && role.id in ["user", "admin"] && role.namespace == namespace
    requires namespace == "" || (ProperLine(namespace) && Unseparated(namespace))
    ensures ProperRole(catalogue, role)
    ensures FullID(role) == if namespace == "" then role.id else role.id + ":" + namespace
  {
    assert "user"[0] == 'u' && "user"[3] == 'r' && "admin"[0] == 'a' && "admin"[4] == 'n';
    var id := FullID(role);
    assert id[0] == role.id[0];
    assert namespace != "" ==> id[|id| - 1] == namespace[|namespace| - 1];
  }

  /** A user with the old label and no roles annotation: the role of the label, and admin in every namespace. */
  ghost predicate OldUser(catalogue: seq<Role>, s: Stored) {
    && s.annotations.Some? && ROLES_ANNOTATION !in s.annotations.value
    && ROLE_LABEL in s.labels && s.labels[ROLE_LABEL] == "user"
    && Find(catalogue, "user", "").Some? && Find(catalogue, "admin", "").Some?
    && (forall n :: n in LinesAt(s.data, "namespaces") ==> Unseparated(n))
  }

  lemma AdminsProper(catalogue: seq<Role>, namespaces: seq<string>)
    requires Find(catalogue, "admin", "").Some?
    requires forall n :: n in namespaces ==> ProperLine(n) && Unseparated(n)
    ensures ProperRoles(catalogue, AdminFor(namespaces))
  {
    var admins := AdminFor(namespaces);
    forall role | role in admins ensures ProperRole(catalogue, role) {
      var i :| 0 <= i < |namespaces| && admins[i] == role;
      assert namespaces[i] in namespaces;
      LegacyRoleProper(catalogue, role, namespaces[i]);
    }
  }

  lemma IDsCons(role: Role, roles: seq<Role>)
    ensures IDs([role] + roles) == [FullID(role)] + IDs(roles)
  {
  }

  lemma LinesAtProper(data: map<string, string>, key: string)
    ensures forall n :: n in LinesAt(data, key) ==> ProperLine(n)
  {
    if key in data {
      LinesAreProper(data[key]);
    }
  }

  lemma OldUserProper(catalogue: seq<Role>, s: Stored)
    requires OldUser(catalogue, s)
    ensures ProperUser(catalogue, Loaded(catalogue, s))
    ensures IDs(Loaded(catalogue, s).roles) == ["user"] + IDs(AdminFor(LinesAt(s.data, "namespaces")))
  {
    var namespaces := LinesAt(s.data, "namespaces");
    LinesAtProper(s.data, "namespaces");
    LinesAtProper(s.data, "gitconfigs");
    var found := Find(catalogue, "user", "").value;
    LegacyRoleProper(catalogue, found, "");
    AdminsProper(catalogue, namespaces);
    IDsCons(found, AdminFor(namespaces));
    assert Loaded(catalogue, s).roles == [found] + AdminFor(namespaces);
  }

  lemma OldRoleIDs(user: User, u: User)
    requires IDs(user.roles) == ["user"] + IDs(AdminFor(user.namespaces)) && u.roleIDs == SortUnique(IDs(user.roles))
    ensures Elements(u.roleIDs) == {"user"} + Elements(IDs(AdminFor(user.namespaces)))
  {
    var admins := IDs(AdminFor(user.namespaces));
    assert Elements(["user"] + admins) == {"user"} + Elements(admins);
  }

  /** Saving such a user moves its roles from the label into the annotation: loading gives the same roles. */
  lemma OldUserMigrates(catalogue: seq<Role>, s: Stored)
    requires OldUser(catalogue, s)
    ensures ROLE_LABEL !in Saved(Loaded(catalogue, s), s).labels
    ensures var before := Loaded(catalogue, s);
      var after := Loaded(catalogue, Saved(before, s));
      ComesBack(before, before.password, after) && Elements(after.roleIDs) == {"user"} + Elements(IDs(AdminFor(before.namespaces)))
  {
    var before := Loaded(catalogue, s);
    assert before.password == Get(s.data, "password");
    OldUserProper(catalogue, s);
    assert before.namespaces == LinesAt(s.data, "namespaces");
    var after := Loaded(catalogue, Saved(before, s));
    assert ComesBack(before, before.password, after) by {
      RoundTrip(catalogue, before, s);
    }
    OldRoleIDs(before, after);
  }
}
