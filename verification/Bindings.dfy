/**
 Which applications are bound to which configurations and services
 (internal/application/configurations.go, services.go, secret.go).

 An application has one secret for its configurations and one for its services; the keys of the secret's data are
 the names bound.  The index inverts this: from a configuration or service to the applications.  The code for the
 two is the same but for the area label, which is a parameter here.
 */
module Bindings {
  import opened AppKeys
  import opened Picking
  import opened SecretData
  import opened Strings
  import opened Wrappers

  type Index = map<string, seq<string>>

  datatype Binding = Binding(namespace: string, labels: map<string, string>, data: Data)

  function App(b: Binding): string {
    Get(b.labels, NAME_LABEL)
  }

  function PartOf(b: Binding): string {
    Get(b.labels, PART_OF_LABEL)
  }

  function BoundNames(b: Binding): set<string> {
    if b.data.Nil? then {} else b.data.entries.Keys
  }

  // ---- Selecting binding secrets

  predicate Has(b: Binding, key: string, value: string) {
    key in b.labels && b.labels[key] == value
  }

  /** The label selector for an area, with `part-of in (...)` when there are namespaces. */
  datatype Selector = Selector(area: string, namespaces: Option<seq<string>>)

  predicate Selected(b: Binding, select: Selector) {
    && Has(b, AREA_LABEL, select.area) && Has(b, COMPONENT_LABEL, "application") && Has(b, MANAGED_BY_LABEL, "epinio")
    && (select.namespaces.Some? ==> PART_OF_LABEL in b.labels && b.labels[PART_OF_LABEL] in select.namespaces.value)
  }

  /** What the cluster lists for a namespace, or for all when it is empty, under a selector. */
  function List(secrets: seq<Binding>, namespace: string, select: Selector): seq<Binding> {
    if secrets == [] then []
    else
      var last := secrets[|secrets| - 1];
      var front := List(secrets[..|secrets| - 1], namespace, select);
      if (namespace == "" || last.namespace == namespace) && Selected(last, select) then front + [last] else front
  }

  function Listed(secrets: seq<Binding>, namespace: string, area: string): seq<Binding> {
    List(secrets, namespace, Selector(area, None))
  }

  function ListedIn(secrets: seq<Binding>, namespaces: seq<string>, area: string): seq<Binding> {
    List(secrets, "", Selector(area, Some(namespaces)))
  }

  /** makeSecret, with the data put into it. */
  function MakeSecret(app: string, namespace: string, area: string, data: Data): Binding {
    Binding(namespace,
            map[NAME_LABEL := app, PART_OF_LABEL := namespace, MANAGED_BY_LABEL := "epinio",
                COMPONENT_LABEL := "application", AREA_LABEL := area],
            data)
  }

  /** The secrets Epinio makes are found under their area and no other, with the names they were made for. */
  lemma MadeSecretIsSelected(app: string, namespace: string, area: string, other: string, data: Data)
    ensures var b := MakeSecret(app, namespace, area, data);
      App(b) == app && PartOf(b) == namespace == b.namespace && (Selected(b, Selector(other, None)) <==> other == area)
  {
  }

  // ---- The index as a function of the key

  /** One of the binding's names has this key. */
  predicate HasKey(b: Binding, key: string) {
    var suffix := [NUL] + PartOf(b);
    HasSuffix(key, suffix) && key[..|key| - |suffix|] in BoundNames(b)
  }

  function Under(bindings: seq<Binding>, key: string): seq<string> {
    if bindings == [] then []
    else
      var last := bindings[|bindings| - 1];
      var front := Under(bindings[..|bindings| - 1], key);
      if HasKey(last, key) then front + [App(last)] else front
  }

  /** The index holds exactly the keys with applications under them. */
  ghost predicate IsIndex(index: Index, bindings: seq<Binding>) {
    forall key :: Entry(index, key) == Under(bindings, key) && (key in index ==> index[key] != [])
  }

  function Entry(index: Index, key: string): seq<string> {
    if key in index then index[key] else []
  }

  lemma HasKeyMeans(b: Binding, name: string, key: string)
    requires key == Encode(name, PartOf(b))
    ensures HasKey(b, key) <==> name in BoundNames(b)
  {
    assert key[|key| - |[NUL] + PartOf(b)|..] == [NUL] + PartOf(b);
    assert key[..|key| - |[NUL] + PartOf(b)|] == name;
  }

  lemma KeyOf(b: Binding, key: string) returns (name: string)
    requires HasKey(b, key)
    ensures name in BoundNames(b) && key == Encode(name, PartOf(b))
  {
    var suffix := [NUL] + PartOf(b);
    name := key[..|key| - |suffix|];
    assert key == name + suffix == Encode(name, PartOf(b));
  }

  // ---- The index as the source builds it

  /** After some of a binding's names have been entered. */
  ghost predicate Entered(index: Index, before: Index, b: Binding, entered: set<string>) {
    forall key :: Entry(index, key) == Entry(before, key) + (if InKeys(b, entered, key) then [App(b)] else []) &&
                  (key in index ==> index[key] != [])
  }

  ghost predicate InKeys(b: Binding, names: set<string>, key: string) {
    exists name :: name in names && key == Encode(name, PartOf(b))
  }

  lemma InKeysNext(b: Binding, names: set<string>, name: string, key: string)
    requires name !in names
    ensures InKeys(b, names + {name}, key) <==> InKeys(b, names, key) || key == Encode(name, PartOf(b))
    ensures key == Encode(name, PartOf(b)) ==> !InKeys(b, names, key)
  {
    assert Encode(name, PartOf(b))[..|name|] == name;
    if other :| other in names && key == Encode(other, PartOf(b)) {
      assert Encode(other, PartOf(b))[..|other|] == other;
      assert other in names + {name};
    }
  }

  /** The inner loop over one secret's keys, in whatever order the map gives them. */
  method EnterBinding(before: Index, b: Binding) returns (index: Index)
    requires forall key :: key in before ==> before[key] != []
    ensures Entered(index, before, b, BoundNames(b))
  {
    var rest := BoundNames(b);
    index := before;
    while rest != {}
      invariant rest <= BoundNames(b)
      invariant Entered(index, before, b, BoundNames(b) - rest)
    {
      var name :| name in rest;
      var key := Encode(name, PartOf(b));
      ghost var done, previous := BoundNames(b) - rest, index;
      index := index[key := Entry(index, key) + [App(b)]];
      rest := rest - {name};
      assert BoundNames(b) - rest == done + {name};
      forall k ensures Entry(index, k) == Entry(before, k) + (if InKeys(b, done + {name}, k) then [App(b)] else []) {
        InKeysNext(b, done, name, k);
      }
    }
  }

  lemma EnteredAll(index: Index, before: Index, bindings: seq<Binding>, b: Binding)
    requires IsIndex(before, bindings) && Entered(index, before, b, BoundNames(b))
    ensures IsIndex(index, bindings + [b])
  {
    assert (bindings + [b])[..|bindings|] == bindings;
    forall key ensures InKeys(b, BoundNames(b), key) <==> HasKey(b, key) {
      InAllKeys(b, key);
    }
  }

  lemma InAllKeys(b: Binding, key: string)
    ensures InKeys(b, BoundNames(b), key) <==> HasKey(b, key)
  {
    if HasKey(b, key) {
      var name := KeyOf(b, key);
    }
    if name :| name in BoundNames(b) && key == Encode(name, PartOf(b)) {
      HasKeyMeans(b, name, key);
    }
  }

  method Invert(bindings: seq<Binding>) returns (index: Index)
    ensures IsIndex(index, bindings)
  {
    index := map[];
    for i := 0 to |bindings|
      invariant IsIndex(index, bindings[..i])
    {
      var next := EnterBinding(index, bindings[i]);
      EnteredAll(next, index, bindings[..i], bindings[i]);
      assert bindings[..i + 1] == bindings[..i] + [bindings[i]];
      index := next;
    }
    assert bindings[..|bindings|] == bindings;
  }

  /** BoundAppsNames and ServicesBoundAppsNames. */
  method BoundAppsNames(secrets: seq<Binding>, namespace: string, area: string) returns (index: Index)
    ensures IsIndex(index, Listed(secrets, namespace, area))
  {
    index := Invert(Listed(secrets, namespace, area));
  }

  /** BoundAppsNamesForNamespaces and ServicesBoundAppsNamesForNamespaces. */
  method BoundAppsNamesForNamespaces(secrets: seq<Binding>, namespaces: seq<string>,
      area: string) returns (index: Index)
    ensures IsIndex(index, ListedIn(secrets, namespaces, area))
  {
    if namespaces == [] {
      NothingListedIn(secrets, area);
      return map[];
    }
    index := Invert(ListedIn(secrets, namespaces, area));
  }

  lemma {:induction false} NothingListedIn(secrets: seq<Binding>, area: string)
    ensures ListedIn(secrets, [], area) == []
  {
    if secrets != [] {
      NothingListedIn(secrets[..|secrets| - 1], area);
    }
  }

  /** The applications whose secret in the list has the name. */
  function With(bindings: seq<Binding>, name: string): seq<string> {
    if bindings == [] then []
    else
      var last := bindings[|bindings| - 1];
      var front := With(bindings[..|bindings| - 1], name);
      if name in BoundNames(last) then front + [App(last)] else front
  }

  /** BoundAppsNamesFor and ServicesBoundAppsNamesFor. */
  method BoundAppsNamesFor(secrets: seq<Binding>, namespace: string, name: string,
      area: string) returns (apps: seq<string>)
    ensures apps == With(Listed(secrets, namespace, area), name)
  {
    var bindings := Listed(secrets, namespace, area);
    apps := [];
    for i := 0 to |bindings|
      invariant apps == With(bindings[..i], name)
    {
      assert bindings[..i + 1][..i] == bindings[..i];
      var rest, found := BoundNames(bindings[i]), false;
      while rest != {} && !found
        invariant rest <= BoundNames(bindings[i])
        invariant apps == With(bindings[..i], name) + if found then [App(bindings[i])] else []
        invariant found || (name in BoundNames(bindings[i]) ==> name in rest)
        invariant found ==> name in BoundNames(bindings[i])
        decreases rest
      {
        var bound :| bound in rest;
        if bound == name {
          apps, found := apps + [App(bindings[i])], true;
        }
        rest := rest - {bound};
      }
    }
    assert bindings[..|bindings|] == bindings;
  }

  // ---- The index is the inverse of the bindings

  /** The application has a secret in the list that binds the name. */
  ghost predicate IsBound(bindings: seq<Binding>, app: string, namespace: string, name: string) {
    exists b :: b in bindings && App(b) == app && PartOf(b) == namespace && name in BoundNames(b)
  }

  /** The applications of the namespace that bind the name, in the order of their secrets. */
  function BoundTo(bindings: seq<Binding>, name: string, namespace: string): seq<string> {
    if bindings == [] then []
    else
      var last := bindings[|bindings| - 1];
      var front := BoundTo(bindings[..|bindings| - 1], name, namespace);
      if PartOf(last) == namespace && name in BoundNames(last) then front + [App(last)] else front
  }

  ghost predicate NulFree(bindings: seq<Binding>) {
    forall b, name :: b in bindings && name in BoundNames(b) ==> NUL !in name
  }

  ghost predicate OneSecretPerApp(bindings: seq<Binding>) {
    forall i, j :: 0 <= i < j < |bindings| ==> (App(bindings[i]), PartOf(bindings[i])) != (App(bindings[j]), PartOf(bindings[j]))
  }

  lemma {:induction false} UnderMeans(bindings: seq<Binding>, name: string, namespace: string)
    requires NulFree(bindings) && NUL !in name
    ensures Under(bindings, Encode(name, namespace)) == BoundTo(bindings, name, namespace)
  {
    if bindings != [] {
      var n := |bindings| - 1;
      assert forall b :: b in bindings[..n] ==> b in bindings;
      UnderMeans(bindings[..n], name, namespace);
      var last := bindings[n];
      assert last in bindings;
      if HasKey(last, Encode(name, namespace)) {
        var other := KeyOf(last, Encode(name, namespace));
        EncodeInjective(name, namespace, other, PartOf(last));
      } else if PartOf(last) == namespace {
        HasKeyMeans(last, name, Encode(name, namespace));
      }
    }
  }

  lemma {:induction false} BoundToHolds(bindings: seq<Binding>, name: string, namespace: string, app: string)
    ensures app in BoundTo(bindings, name, namespace) <==> IsBound(bindings, app, namespace, name)
  {
    if bindings != [] {
      var n := |bindings| - 1;
      BoundToHolds(bindings[..n], name, namespace, app);
      assert bindings == bindings[..n] + [bindings[n]];
    }
  }

  lemma {:induction false} BoundToOnce(bindings: seq<Binding>, name: string, namespace: string, app: string)
    requires OneSecretPerApp(bindings)
    ensures multiset(BoundTo(bindings, name, namespace))[app] <= 1
  {
    if bindings != [] {
      var n, last := |bindings| - 1, bindings[|bindings| - 1];
      BoundToOnce(bindings[..n], name, namespace, app);
      BoundToHolds(bindings[..n], name, namespace, app);
      assert forall b :: b in bindings[..n] ==> (App(b), PartOf(b)) != (App(last), PartOf(last));
    }
  }

  /** An application is listed under a name and namespace once if it binds the name there, and not at all if not. */
  lemma IndexIsInverse(index: Index, bindings: seq<Binding>, name: string, namespace: string, app: string)
    requires IsIndex(index, bindings) && NulFree(bindings) && NUL !in name && OneSecretPerApp(bindings)
    ensures multiset(Entry(index, Encode(name, namespace)))[app] == if IsBound(bindings, app, namespace, name) then 1 else 0
    ensures Encode(name, namespace) in index <==> exists a :: IsBound(bindings, a, namespace, name)
  {
    var key := Encode(name, namespace);
    var listed := BoundTo(bindings, name, namespace);
    UnderMeans(bindings, name, namespace);
    assert Entry(index, key) == listed;
    BoundToHolds(bindings, name, namespace, app);
    BoundToOnce(bindings, name, namespace, app);
    assert app in listed <==> app in multiset(listed);
    if key in index {
      BoundToHolds(bindings, name, namespace, listed[0]);
    }
    if a :| IsBound(bindings, a, namespace, name) {
      BoundToHolds(bindings, name, namespace, a);
    }
  }

  // ---- Picking from the cluster's secrets

  /** The secrets of an area, in a namespace or in any when that is empty, as the labels tell; and of some namespaces,
      when they are given. */
  function Labelled(namespace: string, area: string, namespaces: Option<seq<string>>): Binding -> Option<Binding> {
    (b: Binding) =>
      if (namespace == "" || b.namespace == namespace)
        && "epinio.io/area" in b.labels && b.labels["epinio.io/area"] == area
        && "app.kubernetes.io/component" in b.labels && b.labels["app.kubernetes.io/component"] == "application"
        && "app.kubernetes.io/managed-by" in b.labels && b.labels["app.kubernetes.io/managed-by"] == "epinio"
        && (namespaces.Some? ==>
            "app.kubernetes.io/part-of" in b.labels && b.labels["app.kubernetes.io/part-of"] in namespaces.value)
      then Some(b) else None
  }

  /** The listed secrets are those so labelled, in the order of the cluster. */
  lemma {:induction false} ListPicks(secrets: seq<Binding>, namespace: string, area: string,
      namespaces: Option<seq<string>>)
    ensures List(secrets, namespace, Selector(area, namespaces)) == Pick(Labelled(namespace, area, namespaces), secrets)
  {
    if secrets != [] {
      ListPicks(secrets[..|secrets| - 1], namespace, area, namespaces);
    }
  }

  /** The application a secret belongs to, if it is part of the namespace and its data has the name. */
  function Binder(name: string, partOf: string): Binding -> Option<string> {
    (b: Binding) =>
      if Get(b.labels, "app.kubernetes.io/part-of") == partOf && b.data.Entries? && name in b.data.entries
      then Some(Get(b.labels, "app.kubernetes.io/name")) else None
  }

  lemma {:induction false} BoundToPicks(bindings: seq<Binding>, name: string, partOf: string)
    ensures BoundTo(bindings, name, partOf) == Pick(Binder(name, partOf), bindings)
  {
    if bindings != [] {
      BoundToPicks(bindings[..|bindings| - 1], name, partOf);
    }
  }

  function LabelledBinder(namespace: string, area: string, namespaces: Option<seq<string>>, name: string,
      partOf: string): Binding -> Option<string> {
    (b: Binding) => if Labelled(namespace, area, namespaces)(b).Some? then Binder(name, partOf)(b) else None
  }

  lemma BoundToOfList(secrets: seq<Binding>, namespace: string, area: string, namespaces: Option<seq<string>>,
      name: string, partOf: string)
    ensures BoundTo(List(secrets, namespace, Selector(area, namespaces)), name, partOf) ==
      Pick(LabelledBinder(namespace, area, namespaces, name, partOf), secrets)
  {
    BoundToPicks(List(secrets, namespace, Selector(area, namespaces)), name, partOf);
    ListPicks(secrets, namespace, area, namespaces);
    PickTwice(Labelled(namespace, area, namespaces), Binder(name, partOf),
              LabelledBinder(namespace, area, namespaces, name, partOf), secrets);
  }

  // ---- The single-name and the namespace-scoped variants

  /** Every secret selected for the area lies in the namespace its label names, as those Epinio makes do. */
  ghost predicate Located(secrets: seq<Binding>, area: string) {
    forall b :: b in secrets && Selected(b, Selector(area, None)) ==>
      PART_OF_LABEL in b.labels && b.labels[PART_OF_LABEL] == b.namespace != ""
  }

  /** No name bound by a secret selected for the area contains the separator of the keys. */
  ghost predicate NulFreeIn(secrets: seq<Binding>, area: string) {
    forall b, name :: b in secrets && Selected(b, Selector(area, None)) && name in BoundNames(b) ==> NUL !in name
  }

  lemma {:induction false} WithIsBoundTo(secrets: seq<Binding>, name: string, namespace: string, area: string)
    requires Located(secrets, area) && namespace != ""
    ensures With(Listed(secrets, namespace, area), name) == BoundTo(Listed(secrets, namespace, area), name, namespace)
  {
    if secrets != [] {
      var n, last := |secrets| - 1, secrets[|secrets| - 1];
      assert forall b :: b in secrets[..n] ==> b in secrets;
      WithIsBoundTo(secrets[..n], name, namespace, area);
      var front := Listed(secrets[..n], namespace, area);
      assert (front + [last])[..|front|] == front;
      assert last in secrets;
    }
  }

  lemma ScopeKeepsBoundTo(secrets: seq<Binding>, name: string, namespace: string, area: string)
    requires Located(secrets, area) && namespace != ""
    ensures BoundTo(Listed(secrets, namespace, area), name, namespace) == BoundTo(Listed(secrets, "", area), name, namespace)
  {
    BoundToOfList(secrets, namespace, area, None, name, namespace);
    BoundToOfList(secrets, "", area, None, name, namespace);
    var some, all := LabelledBinder(namespace, area, None, name, namespace), LabelledBinder("", area, None, name, namespace);
    forall b | b in secrets ensures some(b) == all(b) {
      LocatedBinds(b, name, namespace, area, []);
    }
    PickAgrees(some, all, secrets);
  }

  /** For a located secret the label tells the namespace. */
  lemma LocatedBinds(b: Binding, name: string, namespace: string, area: string, namespaces: seq<string>)
    requires Located([b], area)
    ensures var all := LabelledBinder("", area, None, name, namespace)(b);
      && LabelledBinder(namespace, area, None, name, namespace)(b) == all
      && LabelledBinder("", area, Some(namespaces), name, namespace)(b) == if namespace in namespaces then all else None
  {
    assert b in [b];
    assert Labelled("", area, None)(b).Some? <==> Selected(b, Selector(area, None));
    if Labelled("", area, None)(b).Some? && Binder(name, namespace)(b).Some? {
      assert b.namespace == namespace && PART_OF_LABEL in b.labels && b.labels[PART_OF_LABEL] == namespace;
      assert Labelled(namespace, area, None)(b).Some?;
      assert Labelled("", area, Some(namespaces))(b).Some? <==> namespace in namespaces;
    } else if Labelled("", area, None)(b).None? {
      assert Labelled(namespace, area, None)(b).None? && Labelled("", area, Some(namespaces))(b).None?;
    }
  }

  lemma {:induction false} ListedNulFree(secrets: seq<Binding>, namespace: string, select: Selector)
    requires NulFreeIn(secrets, select.area)
    ensures NulFree(List(secrets, namespace, select))
  {
    if secrets != [] {
      var n, last := |secrets| - 1, secrets[|secrets| - 1];
      assert last in secrets && forall b :: b in secrets[..n] ==> b in secrets;
      ListedNulFree(secrets[..n], namespace, select);
      assert Selected(last, select) ==> Selected(last, Selector(select.area, None));
    }
  }

  /** The list for a single name is the entry of the namespace's index, and that of the index of all namespaces. */
  lemma SingleNameIsLookup(secrets: seq<Binding>, name: string, namespace: string, area: string, index: Index,
      all: Index)
    requires Located(secrets, area) && NulFreeIn(secrets, area) && NUL !in name && namespace != ""
    requires IsIndex(index, Listed(secrets, namespace, area)) && IsIndex(all, Listed(secrets, "", area))
    ensures With(Listed(secrets, namespace, area), name) == Entry(index, Encode(name, namespace))
    ensures Entry(index, Encode(name, namespace)) == Entry(all, Encode(name, namespace))
  {
    ListedNulFree(secrets, namespace, Selector(area, None));
    ListedNulFree(secrets, "", Selector(area, None));
    UnderMeans(Listed(secrets, namespace, area), name, namespace);
    UnderMeans(Listed(secrets, "", area), name, namespace);
    WithIsBoundTo(secrets, name, namespace, area);
    ScopeKeepsBoundTo(secrets, name, namespace, area);
  }

  lemma RestrictedBoundTo(secrets: seq<Binding>, namespaces: seq<string>, name: string, namespace: string, area: string)
    requires Located(secrets, area)
    ensures BoundTo(ListedIn(secrets, namespaces, area), name, namespace) ==
      if namespace in namespaces then BoundTo(Listed(secrets, "", area), name, namespace) else []
  {
    BoundToOfList(secrets, "", area, Some(namespaces), name, namespace);
    BoundToOfList(secrets, "", area, None, name, namespace);
    var some := LabelledBinder("", area, Some(namespaces), name, namespace);
    var all := LabelledBinder("", area, None, name, namespace);
    forall b | b in secrets ensures some(b) == if namespace in namespaces then all(b) else None {
      LocatedBinds(b, name, namespace, area, namespaces);
    }
    if namespace in namespaces {
      PickAgrees(some, all, secrets);
    } else {
      PickNone(some, secrets);
    }
  }

  /** The index scoped to some namespaces is the restriction of the index of all. */
  lemma ScopedIsRestriction(secrets: seq<Binding>, namespaces: seq<string>, name: string, namespace: string,
      area: string, scoped: Index, all: Index)
    requires Located(secrets, area) && NulFreeIn(secrets, area) && NUL !in name
    requires IsIndex(scoped, ListedIn(secrets, namespaces, area)) && IsIndex(all, Listed(secrets, "", area))
    ensures Entry(scoped, Encode(name, namespace)) == if namespace in namespaces then Entry(all, Encode(name, namespace)) else []
  {
    ListedNulFree(secrets, "", Selector(area, None));
    ListedNulFree(secrets, "", Selector(area, Some(namespaces)));
    UnderMeans(ListedIn(secrets, namespaces, area), name, namespace);
    UnderMeans(Listed(secrets, "", area), name, namespace);
    RestrictedBoundTo(secrets, namespaces, name, namespace, area);
  }

  // ---- The index and the cluster's secrets

  /** The entry for a name and a namespace lists, in the order of the cluster, the applications of the secrets of the
      area that are part of the namespace and have the name. */
  lemma EntryMeans(secrets: seq<Binding>, namespace: string, area: string, namespaces: Option<seq<string>>, index: Index,
      name: string, partOf: string)
    requires IsIndex(index, List(secrets, namespace, Selector(area, namespaces)))
    requires NulFreeIn(secrets, area) && NUL !in name
    ensures Entry(index, name + [NUL] + partOf) ==
      Pick(LabelledBinder(namespace, area, namespaces, name, partOf), secrets)
  {
    var listed := List(secrets, namespace, Selector(area, namespaces));
    ListedNulFree(secrets, namespace, Selector(area, namespaces));
    UnderMeans(listed, name, partOf);
    BoundToOfList(secrets, namespace, area, namespaces, name, partOf);
    assert Encode(name, partOf) == name + [NUL] + partOf;
  }

  /** The index has no other keys than those of names bound by the listed secrets, and none without an application. */
  lemma KeysMean(index: Index, bindings: seq<Binding>, key: string) returns (b: Binding, name: string)
    requires IsIndex(index, bindings) && key in index
    ensures b in bindings && b.data.Entries? && name in b.data.entries
    ensures key == name + [NUL] + Get(b.labels, "app.kubernetes.io/part-of") && index[key] != []
  {
    assert Entry(index, key) == Under(bindings, key) != [];
    b := UnderHas(bindings, key);
    name := KeyOf(b, key);
  }

  lemma {:induction false} UnderHas(bindings: seq<Binding>, key: string) returns (b: Binding)
    requires Under(bindings, key) != []
    ensures b in bindings && HasKey(b, key)
  {
    b := bindings[|bindings| - 1];
    if !HasKey(b, key) {
      b := UnderHas(bindings[..|bindings| - 1], key);
    }
  }

  /** No application has two secrets of the area. */
  ghost predicate OneSecretIn(secrets: seq<Binding>, area: string) {
    forall i, j :: 0 <= i < j < |secrets| && InArea(secrets[i], area) && InArea(secrets[j], area) ==>
      Get(secrets[i].labels, "app.kubernetes.io/name") != Get(secrets[j].labels, "app.kubernetes.io/name") ||
      Get(secrets[i].labels, "app.kubernetes.io/part-of") != Get(secrets[j].labels, "app.kubernetes.io/part-of")
  }

  predicate InArea(b: Binding, area: string) {
    Labelled("", area, None)(b).Some?
  }

  /** So an application is listed once when a secret of the cluster binds the name for it, and otherwise not at all. */
  lemma IndexInvertsCluster(secrets: seq<Binding>, namespace: string, area: string, index: Index, name: string,
      partOf: string, app: string)
    requires IsIndex(index, Listed(secrets, namespace, area))
    requires NulFreeIn(secrets, area) && NUL !in name && OneSecretIn(secrets, area)
    ensures multiset(Entry(index, name + [NUL] + partOf))[app] <= 1
    ensures app in Entry(index, name + [NUL] + partOf) <==>
      exists b :: b in secrets && Lists(b, namespace, area, name, partOf, app)
  {
    var pick := LabelledBinder(namespace, area, None, name, partOf);
    EntryMeans(secrets, namespace, area, None, index, name, partOf);
    PickMembers(pick, secrets, app);
    forall b ensures pick(b) == Some(app) <==> Lists(b, namespace, area, name, partOf, app) {
      ListsMeans(b, namespace, area, name, partOf, app);
    }
    PickOnce(pick, secrets, app);
    assert forall b :: b in secrets && Lists(b, namespace, area, name, partOf, app) ==> pick(b) == Some(app);
  }

  /** The secret binds the name for the application. */
  predicate Lists(b: Binding, namespace: string, area: string, name: string, partOf: string, app: string) {
    && InArea(b, area) && (namespace == "" || b.namespace == namespace)
    && Get(b.labels, "app.kubernetes.io/name") == app && Get(b.labels, "app.kubernetes.io/part-of") == partOf
    && b.data.Entries? && name in b.data.entries
  }

  lemma ListsMeans(b: Binding, namespace: string, area: string, name: string, partOf: string, app: string)
    ensures LabelledBinder(namespace, area, None, name, partOf)(b) == Some(app) <==>
      Lists(b, namespace, area, name, partOf, app)
  {
    assert Labelled(namespace, area, None)(b).Some? <==> InArea(b, area) && (namespace == "" || b.namespace == namespace);
    assert Binder(name, partOf)(b) == Some(app) <==>
      Get(b.labels, "app.kubernetes.io/name") == app && Get(b.labels, "app.kubernetes.io/part-of") == partOf &&
      b.data.Entries? && name in b.data.entries;
  }

  function Holder(name: string): Binding -> Option<string> {
    (b: Binding) =>
      if b.data.Entries? && name in b.data.entries then Some(Get(b.labels, "app.kubernetes.io/name")) else None
  }

  /** The single-name variant lists the applications of the listed secrets that have the name, in order. */
  lemma {:induction false} WithPicks(bindings: seq<Binding>, name: string)
    ensures With(bindings, name) == Pick(Holder(name), bindings)
  {
    if bindings != [] {
      WithPicks(bindings[..|bindings| - 1], name);
    }
  }

  // ---- Updates and the index

  /** The secrets after a modification of the one at `i`. */
  function Updated(bindings: seq<Binding>, i: nat, mod: Modifier): seq<Binding>
    requires i < |bindings|
  {
    bindings[i := bindings[i].(data := Modified(mod, bindings[i].data))]
  }

  lemma UpdatedAt(bindings: seq<Binding>, i: nat, mod: Modifier, k: nat)
    requires i < |bindings| && k < |bindings|
    ensures App(Updated(bindings, i, mod)[k]) == App(bindings[k]) && PartOf(Updated(bindings, i, mod)[k]) == PartOf(bindings[k])
    ensures k != i ==> Updated(bindings, i, mod)[k] == bindings[k]
  {
  }

  /** A modification of one application's secret changes which names that application binds, and nothing else. */
  lemma UpdateShowsInBindings(bindings: seq<Binding>, i: nat, mod: Modifier, app: string, namespace: string,
      name: string)
    requires i < |bindings| && OneSecretPerApp(bindings)
    ensures IsBound(Updated(bindings, i, mod), app, namespace, name) <==>
      if app == App(bindings[i]) && namespace == PartOf(bindings[i])
      then ApplyEffect(EffectOn(mod, name), At(bindings[i].data, name)).Some?
      else IsBound(bindings, app, namespace, name)
  {
    var after := Updated(bindings, i, mod);
    ModifiedAt(mod, bindings[i].data, name);
    if app == App(bindings[i]) && namespace == PartOf(bindings[i]) {
      assert after[i] in after && (name in BoundNames(after[i]) <==> At(after[i].data, name).Some?);
      if c :| c in after && App(c) == app && PartOf(c) == namespace && name in BoundNames(c) {
        var k :| 0 <= k < |after| && after[k] == c;
        UpdatedAt(bindings, i, mod, k);
        assert k == i;
      }
    } else {
      if c :| c in after && App(c) == app && PartOf(c) == namespace && name in BoundNames(c) {
        var k :| 0 <= k < |after| && after[k] == c;
        UpdatedAt(bindings, i, mod, k);
        assert bindings[k] == c;
      }
      if c :| c in bindings && App(c) == app && PartOf(c) == namespace && name in BoundNames(c) {
        var k :| 0 <= k < |bindings| && bindings[k] == c;
        UpdatedAt(bindings, i, mod, k);
        assert after[k] == c;
      }
    }
  }

  /** In the index built afterwards, an entry lists the modified application once or not at all, as the modification
      puts, keeps or drops the name, and every other application as before. */
  lemma UpdateShowsInIndex(bindings: seq<Binding>, i: nat, mod: Modifier, before: Index, after: Index, app: string,
      namespace: string, name: string)
    requires i < |bindings| && OneSecretPerApp(bindings) && NUL !in name
    requires NulFree(bindings) && NulFree(Updated(bindings, i, mod))
    requires IsIndex(before, bindings) && IsIndex(after, Updated(bindings, i, mod))
    ensures var key, b := Encode(name, namespace), bindings[i];
      multiset(Entry(after, key))[app] ==
      if app == App(b) && namespace == PartOf(b)
      then (if ApplyEffect(EffectOn(mod, name), At(b.data, name)).Some? then 1 else 0)
      else multiset(Entry(before, key))[app]
  {
    var updated := Updated(bindings, i, mod);
    assert OneSecretPerApp(updated) by {
      forall j, k | 0 <= j < k < |updated| ensures (App(updated[j]), PartOf(updated[j])) != (App(updated[k]), PartOf(updated[k])) {
        UpdatedAt(bindings, i, mod, j);
        UpdatedAt(bindings, i, mod, k);
      }
    }
    IndexIsInverse(before, bindings, name, namespace, app);
    IndexIsInverse(after, updated, name, namespace, app);
    UpdateShowsInBindings(bindings, i, mod, app, namespace, name);
  }
}
