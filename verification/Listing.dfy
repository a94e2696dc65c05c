/**
 The three ways to list applications: all of them, page by page, and page by page for every namespace
 (internal/application/application.go).
 */
module Listing {
  import opened AppKeys
  import opened Enrichment
  import SecretData
  import opened Strings
  import opened Wrappers

  /** Number parsing and lower case, from the Go library. */
  datatype Library = Library(parseInt: string -> Result<int>, lower: string -> string)

  datatype Status = Created | InStaging | Running

  /** The deployment is made from the pods, the routes and the number of instances, and nothing else. */
  datatype Workload = Workload(pods: seq<Pod>, routes: seq<string>, desired: int)

  datatype App = App(
    name: string, namespace: string, core: string, instances: int, configurations: set<string>,
    environment: SecretData.Data, services: set<string>, workload: Option<Workload>, staging: Staging, status: Status)

  // ---- Fusion

  /** ScalingFromSecret. */
  function Instances(lib: Library, data: SecretData.Data): Result<int> {
    var desired := if data.Entries? && SecretData.INSTANCE_KEY in data.entries then data.entries[SecretData.INSTANCE_KEY] else "";
    if desired == "" then Ok(1)
    else match lib.parseInt(desired)
      case Err => Err
      case Ok(n) => Ok(if n < 0 then 1 else n)
  }

  function Keys(s: Option<AppSecret>): set<string> {
    if s.Some? && s.value.body.Entries? then s.value.body.entries.Keys else {}
  }

  /** An application without all of its three secrets is not there. */
  function Aggregate(lib: Library, cr: AppResource, d: AppData): Result<Option<App>> {
    if d.env.None? || d.bound.None? || d.scaling.None? then Ok(None)
    else
      match (Instances(lib, d.scaling.value.body), cr.core)
      case (Ok(instances), Ok(core)) =>
        var workload := if d.pods == [] then None else Some(Workload(d.pods, d.routes, instances));
        var status := if d.staging.Active? then InStaging else if workload.None? then Created else Running;
        Ok(Some(App(cr.name, cr.namespace, core, instances, Keys(d.bound), d.env.value.body, Keys(d.services),
                    workload, d.staging, status)))
      case _ => Err
  }

  function DataOf(c: Cluster, namespace: string, names: seq<string>, cr: AppResource): AppData {
    DataAt(c, namespace, names, Encode(cr.name, cr.namespace))
  }

  function Map<A, B>(f: A -> B, s: seq<A>): (r: seq<B>)
    ensures |r| == |s|
  {
    seq(|s|, i requires 0 <= i < |s| => f(s[i]))
  }

  lemma MapConcat<A, B>(f: A -> B, a: seq<A>, b: seq<A>)
    ensures Map(f, a + b) == Map(f, a) + Map(f, b)
  {
  }

  /** What a resource gives, with what was loaded under the given restrictions. */
  function Fusion(lib: Library, c: Cluster, namespace: string, names: seq<string>): AppResource -> Result<Option<App>> {
    cr => Aggregate(lib, cr, DataOf(c, namespace, names, cr))
  }

  function Fused(lib: Library, c: Cluster, namespace: string, names: seq<string>,
      crs: seq<AppResource>): seq<Result<Option<App>>> {
    Map(Fusion(lib, c, namespace, names), crs)
  }

  /** Those that are there, unless one is an error. */
  function Combine<A>(results: seq<Result<Option<A>>>): Result<seq<A>> {
    if results == [] then Ok([])
    else
      match (Combine(results[..|results| - 1]), results[|results| - 1])
      case (Ok(front), Ok(None)) => Ok(front)
      case (Ok(front), Ok(Some(app))) => Ok(front + [app])
      case _ => Err
  }

  function Collect(lib: Library, c: Cluster, namespace: string, names: seq<string>,
      crs: seq<AppResource>): Result<seq<App>> {
    Combine(Fused(lib, c, namespace, names, crs))
  }

  // ---- What is listed

  predicate Found(lib: Library, cr: AppResource, search: string) {
    var lowered := lib.lower(search);
    search == "" || lowered == "" || Contains(lib.lower(cr.name), lowered)
  }

  function Matching(lib: Library, crs: seq<AppResource>, namespace: string, search: string): seq<AppResource> {
    if crs == [] then []
    else
      var last := crs[|crs| - 1];
      var front := Matching(lib, crs[..|crs| - 1], namespace, search);
      if (namespace == "" || last.namespace == namespace) && Found(lib, last, search) then front + [last] else front
  }

  // ---- Pages, in the 64-bit integers of the source

  type Int64 = x: int | -0x8000_0000_0000_0000 <= x < 0x8000_0000_0000_0000

  /** What a sum or product comes to in 64 bits. */
  function Wrap(x: int): Int64 {
    (x + 0x8000_0000_0000_0000) % 0x1_0000_0000_0000_0000 - 0x8000_0000_0000_0000
  }

  function PageNumber(page: Int64): Int64 {
    if page < 1 then 1 else page
  }

  function PageSize(size: Int64): Int64 {
    if size < 1 then 25 else size
  }

  /** How many resources come before the page. */
  function Before(page: Int64, size: Int64): int {
    (PageNumber(page) - 1) * PageSize(size)
  }

  /** The resources from `start` on, `length` at most.  A slice expression with a negative bound, or bounds in the
      wrong order, panics. */
  function SliceAt(crs: seq<AppResource>, start: int, length: int): Attempt<seq<AppResource>> {
    if start >= |crs| then Returns([])
    else
      var end := if Wrap(start + length) > |crs| then |crs| else Wrap(start + length);
      if 0 <= start <= end then Returns(crs[start..end]) else Panics
  }

  /** The page's part of the resources. */
  function Slice(crs: seq<AppResource>, page: Int64, size: Int64): Attempt<seq<AppResource>> {
    SliceAt(crs, Wrap(Before(page, size)), PageSize(size))
  }

  function Upto(crs: seq<AppResource>, n: nat): seq<AppResource> {
    if n < |crs| then crs[..n] else crs
  }

  /** The part meant by a page of a size, both positive. */
  function PageOf(crs: seq<AppResource>, start: nat, size: nat): seq<AppResource> {
    if start >= |crs| then [] else Upto(crs, start + size)[start..]
  }

  function Names(crs: seq<AppResource>): seq<string> {
    seq(|crs|, i requires 0 <= i < |crs| => crs[i].name)
  }

  function All(lib: Library, c: Cluster, namespace: string): Attempt<Result<seq<App>>> {
    if AllHttp(IngressesIn(c, namespace, []))
    then Returns(Collect(lib, c, namespace, [], Matching(lib, c.apps, namespace, "")))
    else Panics
  }

  function WithTotal(apps: Result<seq<App>>, total: nat): Result<(seq<App>, nat)> {
    if apps.Ok? then Ok((apps.value, total)) else Err
  }

  /** One page, and the number of applications on all pages. */
  function Page(lib: Library, c: Cluster, namespace: string, page: Int64, size: Int64, search: string)
      : Attempt<Result<(seq<App>, nat)>> {
    var crs := Matching(lib, c.apps, namespace, search);
    match Slice(crs, page, size)
    case Panics => Panics
    case Returns(slice) =>
      if slice == [] then Returns(Ok(([], |crs|)))
      else if !AllHttp(IngressesIn(c, namespace, Names(slice))) then Panics
      else Returns(WithTotal(Collect(lib, c, namespace, Names(slice), slice), |crs|))
  }

  // ---- Listing as the source performs it

  /** The loop over the results of the fusion: the first error ends it. */
  method Gather<A>(results: seq<Result<Option<A>>>) returns (r: Result<seq<A>>)
    ensures r == Combine(results)
  {
    var found := [];
    for i := 0 to |results|
      invariant Combine(results[..i]) == Ok(found)
    {
      assert results[..i + 1][..i] == results[..i];
      match results[i]
      case Err =>
        CombineFails(results, i + 1);
        return Err;
      case Ok(None) =>
      case Ok(Some(app)) => found := found + [app];
    }
    assert results[..|results|] == results;
    return Ok(found);
  }

  /** The fusion of every resource with what was loaded for it. */
  method Fuse(lib: Library, ghost c: Cluster, ghost namespace: string, ghost names: seq<string>, aux: Auxiliary,
      crs: seq<AppResource>)
    returns (results: seq<Result<Option<App>>>)
    requires forall key :: At(aux, key) == DataAt(c, namespace, names, key)
    ensures results == Fused(lib, c, namespace, names, crs)
  {
    results := seq(|crs|, i requires 0 <= i < |crs| => Aggregate(lib, crs[i], At(aux, Encode(crs[i].name, crs[i].namespace))));
  }

  method Assemble(lib: Library, ghost c: Cluster, ghost namespace: string, ghost names: seq<string>, aux: Auxiliary,
      crs: seq<AppResource>)
    returns (r: Result<seq<App>>)
    requires forall key :: At(aux, key) == DataAt(c, namespace, names, key)
    ensures r == Collect(lib, c, namespace, names, crs)
  {
    var results := Fuse(lib, c, namespace, names, aux, crs);
    r := Gather(results);
  }

  lemma {:induction false} CombineFails<A>(results: seq<Result<Option<A>>>, n: nat)
    requires n <= |results| && Combine(results[..n]).Err?
    ensures Combine(results).Err?
    decreases |results|
  {
    if n < |results| {
      assert results[..|results| - 1][..n] == results[..n];
      CombineFails(results[..|results| - 1], n);
    } else {
      assert results[..n] == results;
    }
  }

  method Filter(lib: Library, crs: seq<AppResource>, namespace: string,
      search: string) returns (matched: seq<AppResource>)
    ensures matched == Matching(lib, crs, namespace, search)
  {
    matched := [];
    for i := 0 to |crs|
      invariant matched == Matching(lib, crs[..i], namespace, search)
    {
      assert crs[..i + 1][..i] == crs[..i];
      if (namespace == "" || crs[i].namespace == namespace) && Found(lib, crs[i], search) {
        matched := matched + [crs[i]];
      }
    }
    assert crs[..|crs|] == crs;
  }

  method List(lib: Library, c: Cluster, namespace: string) returns (r: Attempt<Result<seq<App>>>)
    ensures r == All(lib, c, namespace)
  {
    var crs := Filter(lib, c.apps, namespace, "");
    var aux := LoadEnrichmentData(c, namespace, []);
    if aux.Panics? {
      return Panics;
    }
    var apps := Assemble(lib, c, namespace, [], aux.value, crs);
    return Returns(apps);
  }

  method SlicePage(crs: seq<AppResource>, page: Int64, size: Int64) returns (slice: Attempt<seq<AppResource>>)
    ensures slice == Slice(crs, page, size)
  {
    var number: int, length: int := page, size;
    if number < 1 {
      number := 1;
    }
    if length < 1 {
      length := 25;
    }
    assert (number - 1) * length == Before(page, size);
    var start: int := Wrap((number - 1) * length);
    if start >= |crs| {
      return Returns([]);
    }
    var end: int := Wrap(start + length);
    if end > |crs| {
      end := |crs|;
    }
    if 0 <= start <= end {
      return Returns(crs[start..end]);
    }
    return Panics;
  }

  method NamesOf(crs: seq<AppResource>) returns (names: seq<string>)
    ensures names == Names(crs)
  {
    names := [];
    for i := 0 to |crs|
      invariant names == Names(crs)[..i]
    {
      names := names + [crs[i].name];
    }
  }

  method ListPaginated(lib: Library, c: Cluster, namespace: string, page: Int64, size: Int64, search: string)
    returns (r: Attempt<Result<(seq<App>, nat)>>)
    ensures r == Page(lib, c, namespace, page, size, search)
  {
    var crs := Filter(lib, c.apps, namespace, search);
    var slice := SlicePage(crs, page, size);
    if slice.Panics? {
      return Panics;
    }
    if slice.value == [] {
      return Returns(Ok(([], |crs|)));
    }
    var names := NamesOf(slice.value);
    var aux := LoadEnrichmentData(c, namespace, names);
    if aux.Panics? {
      return Panics;
    }
    var apps := Assemble(lib, c, namespace, names, aux.value, slice.value);
    return Returns(WithTotal(apps, |crs|));
  }

  // ---- Loading through narrower selectors

  lemma SelectUnderNext<T>(items: seq<Object<T>>, q: Query, scope: Scope, key: string)
    requires items != []
    ensures var n, last := |items| - 1, items[|items| - 1];
      var front := Under(Select(items[..n], q), scope, key);
      Under(Select(items, q), scope, key) == if Matches(last, q) && KeyOf(last, scope) == key then front + [last] else front
  {
    var front := Select(items[..|items| - 1], q);
    assert (front + [items[|items| - 1]])[..|front|] == front;
  }

  /** Two queries that agree on the objects under a key find the same objects there. */
  lemma {:induction false} SelectAgrees<T>(items: seq<Object<T>>, q1: Query, q2: Query, scope: Scope, key: string)
    requires forall o :: o in items && KeyOf(o, scope) == key ==> (Matches(o, q1) <==> Matches(o, q2))
    ensures Under(Select(items, q1), scope, key) == Under(Select(items, q2), scope, key)
  {
    if items != [] {
      var n := |items| - 1;
      assert items[n] in items && forall o :: o in items[..n] ==> o in items;
      SelectAgrees(items[..n], q1, q2, scope, key);
      SelectUnderNext(items, q1, scope, key);
      SelectUnderNext(items, q2, scope, key);
    }
  }

  /** No label that names an application contains the separator of the keys. */
  ghost predicate NulFreeNames<T>(items: seq<Object<T>>) {
    forall o :: o in items ==> NUL !in Get(o.labels, NAME_LABEL)
  }

  ghost predicate ProperCluster(c: Cluster) {
    && NulFreeNames(c.secrets) && NulFreeNames(c.pods) && NulFreeNames(c.ingresses) && NulFreeNames(c.jobs)
    && (forall cr :: cr in c.apps ==> cr.name != "" && NUL !in cr.name && cr.namespace != "")
  }

  lemma NamesAgree<T>(items: seq<Object<T>>, q: Query, names: seq<string>, scope: Scope, app: string, namespace: string)
    requires NulFreeNames(items) && NUL !in app && app != "" && app in names && q.names == []
    ensures var key := Encode(app, namespace);
      Under(Select(items, q.(names := names)), scope, key) == Under(Select(items, q), scope, key)
  {
    forall o | o in items && KeyOf(o, scope) == Encode(app, namespace)
      ensures Matches(o, q) <==> Matches(o, q.(names := names))
    {
      EncodeInjective(Get(o.labels, NAME_LABEL), ScopeOf(o, scope), app, namespace);
    }
    SelectAgrees(items, q.(names := names), q, scope, Encode(app, namespace));
  }

  /** What is loaded for named applications is what is loaded without names, for each of them. */
  lemma NameScopeAgrees(c: Cluster, namespace: string, names: seq<string>, cr: AppResource)
    requires ProperCluster(c) && cr in c.apps && cr.name in names
    ensures DataOf(c, namespace, names, cr) == DataOf(c, namespace, [], cr)
  {
    NamesAgree(c.pods, Query(namespace, APP_COMPONENTS, []), names, ByPartOf, cr.name, cr.namespace);
    NamesAgree(c.ingresses, Query(namespace, APP_COMPONENTS, []), names, ByPartOf, cr.name, cr.namespace);
    var partOf := if namespace == "" then map[] else map[PART_OF_LABEL := namespace];
    NamesAgree(c.jobs, Query(JOB_NAMESPACE, partOf, []), names, ByPartOf, cr.name, cr.namespace);
  }

  /** The application's components are labelled as part of the namespace they are in. */
  ghost predicate InPlace<T>(items: seq<Object<T>>) {
    forall o :: o in items && Matches(o, Query("", APP_COMPONENTS, [])) ==> Get(o.labels, PART_OF_LABEL) == o.namespace
  }

  lemma NamespaceAgrees<T>(items: seq<Object<T>>, q: Query, scope: Scope, app: string, namespace: string)
    requires NulFreeNames(items) && NUL !in app && q.namespace == ""
    requires forall o :: o in items && Matches(o, q) && ScopeOf(o, scope) == namespace ==> o.namespace == namespace
    ensures var key := Encode(app, namespace);
      Under(Select(items, q.(namespace := namespace)), scope, key) == Under(Select(items, q), scope, key)
  {
    forall o | o in items && KeyOf(o, scope) == Encode(app, namespace)
      ensures Matches(o, q) <==> Matches(o, q.(namespace := namespace))
    {
      EncodeInjective(Get(o.labels, NAME_LABEL), ScopeOf(o, scope), app, namespace);
    }
    SelectAgrees(items, q.(namespace := namespace), q, scope, Encode(app, namespace));
  }

  lemma JobsAgree(c: Cluster, app: string, namespace: string)
    requires NulFreeNames(c.jobs) && NUL !in app && namespace != ""
    ensures var key := Encode(app, namespace);
      Under(JobsIn(c, namespace, []), ByPartOf, key) == Under(JobsIn(c, "", []), ByPartOf, key)
  {
    var some, all := Query(JOB_NAMESPACE, map[PART_OF_LABEL := namespace], []), Query(JOB_NAMESPACE, map[], []);
    forall o | o in c.jobs && KeyOf(o, ByPartOf) == Encode(app, namespace) ensures Matches(o, some) <==> Matches(o, all) {
      EncodeInjective(Get(o.labels, NAME_LABEL), ScopeOf(o, ByPartOf), app, namespace);
    }
    SelectAgrees(c.jobs, some, all, ByPartOf, Encode(app, namespace));
  }

  /** What is loaded across all namespaces is what is loaded for the application's own namespace. */
  lemma NamespaceScopeAgrees(c: Cluster, cr: AppResource)
    requires ProperCluster(c) && cr in c.apps && InPlace(c.pods) && InPlace(c.ingresses)
    ensures DataOf(c, "", [], cr) == DataOf(c, cr.namespace, [], cr)
  {
    NamespaceAgrees(c.secrets, Query("", EPINIO_SECRETS, []), ByNamespace, cr.name, cr.namespace);
    NamespaceAgrees(c.pods, Query("", APP_COMPONENTS, []), ByPartOf, cr.name, cr.namespace);
    NamespaceAgrees(c.ingresses, Query("", APP_COMPONENTS, []), ByPartOf, cr.name, cr.namespace);
    JobsAgree(c, cr.name, cr.namespace);
  }

  // ---- Pages make up the list

  lemma CollectAgrees(lib: Library, c: Cluster, ns1: string, names1: seq<string>, ns2: string, names2: seq<string>,
      crs: seq<AppResource>)
    requires forall cr :: cr in crs ==> DataOf(c, ns1, names1, cr) == DataOf(c, ns2, names2, cr)
    ensures Collect(lib, c, ns1, names1, crs) == Collect(lib, c, ns2, names2, crs)
  {
    var one, two := Fused(lib, c, ns1, names1, crs), Fused(lib, c, ns2, names2, crs);
    forall i | 0 <= i < |crs| ensures one[i] == two[i] {
      assert crs[i] in crs;
      assert DataOf(c, ns1, names1, crs[i]) == DataOf(c, ns2, names2, crs[i]);
    }
    assert one == two;
  }

  function Concat<A>(a: Result<seq<A>>, b: Result<seq<A>>): Result<seq<A>> {
    if a.Ok? && b.Ok? then Ok(a.value + b.value) else Err
  }

  lemma {:induction false} CombineConcat<A>(a: seq<Result<Option<A>>>, b: seq<Result<Option<A>>>)
    ensures Combine(a + b) == Concat(Combine(a), Combine(b))
  {
    if b == [] {
      assert a + b == a;
      assert Combine(a).Ok? ==> Combine(a).value + [] == Combine(a).value;
    } else {
      var n := |b| - 1;
      CombineConcat(a, b[..n]);
      assert (a + b)[..|a + b| - 1] == a + b[..n] && (a + b)[|a + b| - 1] == b[n];
      if Combine(a).Ok? && Combine(b).Ok? && b[n].value.Some? {
        var front, app := Combine(b[..n]).value, b[n].value.value;
        assert Combine(a).value + (front + [app]) == (Combine(a).value + front) + [app];
      }
    }
  }

  lemma CollectConcat(lib: Library, c: Cluster, namespace: string, names: seq<string>, a: seq<AppResource>,
      b: seq<AppResource>)
    ensures Collect(lib, c, namespace, names, a + b) ==
      Concat(Collect(lib, c, namespace, names, a), Collect(lib, c, namespace, names, b))
  {
    MapConcat(Fusion(lib, c, namespace, names), a, b);
    CombineConcat(Fused(lib, c, namespace, names, a), Fused(lib, c, namespace, names, b));
  }

  lemma {:induction false} MatchingMeans(lib: Library, crs: seq<AppResource>, namespace: string, search: string,
      cr: AppResource)
    ensures cr in Matching(lib, crs, namespace, search) <==>
      cr in crs && (namespace == "" || cr.namespace == namespace) && Found(lib, cr, search)
  {
    if crs != [] {
      MatchingMeans(lib, crs[..|crs| - 1], namespace, search, cr);
      assert crs == crs[..|crs| - 1] + [crs[|crs| - 1]];
    }
  }

  lemma {:induction false} AllHttpNarrower(items: seq<Ingress>, q: Query, narrower: Query)
    requires AllHttp(Select(items, q))
    requires forall o :: o in items && Matches(o, narrower) ==> Matches(o, q)
    ensures AllHttp(Select(items, narrower))
  {
    if items != [] {
      var n, last := |items| - 1, items[|items| - 1];
      var all := Select(items[..n], q);
      assert last in items && forall o :: o in items[..n] ==> o in items;
      assert forall o :: o in all ==> o in Select(items, q);
      assert Matches(last, q) ==> last in Select(items, q);
      AllHttpNarrower(items[..n], q, narrower);
    }
  }

  lemma SliceFrom(crs: seq<AppResource>, page: Int64, size: Int64)
    requires Slice(crs, page, size).Returns?
    ensures forall cr :: cr in Slice(crs, page, size).value ==> cr in crs
  {
  }

  /** A page loaded for its names alone is the page loaded without names. */
  lemma PageUnscoped(lib: Library, c: Cluster, namespace: string, page: Int64, size: Int64, search: string)
    requires ProperCluster(c) && AllHttp(IngressesIn(c, namespace, []))
    ensures var crs := Matching(lib, c.apps, namespace, search);
      Page(lib, c, namespace, page, size, search) ==
      match Slice(crs, page, size)
      case Panics => Panics
      case Returns(slice) => Returns(WithTotal(Collect(lib, c, namespace, [], slice), |crs|))
  {
    var crs := Matching(lib, c.apps, namespace, search);
    if Slice(crs, page, size).Returns? {
      var slice := Slice(crs, page, size).value;
      var names := Names(slice);
      AllHttpNarrower(c.ingresses, Query(namespace, APP_COMPONENTS, []), Query(namespace, APP_COMPONENTS, names));
      forall cr | cr in slice ensures DataOf(c, namespace, names, cr) == DataOf(c, namespace, [], cr) {
        var i :| 0 <= i < |slice| && slice[i] == cr;
        assert names[i] == cr.name;
        SliceFrom(crs, page, size);
        MatchingMeans(lib, c.apps, namespace, search, cr);
        NameScopeAgrees(c, namespace, names, cr);
      }
      CollectAgrees(lib, c, namespace, names, namespace, [], slice);
    }
  }

  // ---- Pages that are what they are meant to be

  /** The start of the page can be told in 64 bits. */
  predicate Fits(page: Int64, size: Int64) {
    Before(page, size) < 0x8000_0000_0000_0000
  }

  lemma BeforeBounds(page: Int64, size: Int64)
    ensures Before(page, size) >= 0
    ensures PageNumber(page) > 1 ==> Before(page, size) >= PageSize(size)
  {
    var p, s := PageNumber(page) - 1, PageSize(size);
    assert p * s >= 0;
    assert p > 1 ==> p * s == (p - 1) * s + s && (p - 1) * s >= 0;
  }

  lemma WrapMeans(x: int)
    ensures -0x8000_0000_0000_0000 <= x < 0x8000_0000_0000_0000 ==> Wrap(x) == x
    ensures 0x8000_0000_0000_0000 <= x < 0x1_0000_0000_0000_0000 ==> Wrap(x) == x - 0x1_0000_0000_0000_0000
  {
  }

  /** From a start inside the list a slice is never empty. */
  lemma SliceAtNotEmpty(crs: seq<AppResource>, start: Int64, length: Int64)
    requires 0 <= start < |crs| && length >= 1
    ensures SliceAt(crs, start, length) != Returns([])
  {
    WrapMeans(start + length);
    var r := SliceAt(crs, start, length);
    assert r.Returns? ==> |r.value| > 0;
  }

  lemma SliceAtIsPage(crs: seq<AppResource>, start: Int64, length: Int64)
    requires 0 <= start && length >= 1 && start + length < 0x8000_0000_0000_0000
    ensures SliceAt(crs, start, length) == Returns(PageOf(crs, start, length))
  {
    WrapMeans(start + length);
    if start < |crs| {
      var end := if start + length > |crs| then |crs| else start + length;
      assert crs[start..end] == Upto(crs, start + length)[start..];
    }
  }

  /** The slice taken is the page that is meant exactly when its start fits, or wraps to somewhere behind the end.
      Otherwise the request panics, or gets resources of another page. */
  lemma SliceIsPageIff(crs: seq<AppResource>, page: Int64, size: Int64)
    requires |crs| <= 0x4000_0000_0000_0000
    ensures Before(page, size) >= 0
    ensures Slice(crs, page, size) == Returns(PageOf(crs, Before(page, size), PageSize(size))) <==>
      Fits(page, size) || Wrap(Before(page, size)) >= |crs|
  {
    BeforeBounds(page, size);
    var before, length := Before(page, size), PageSize(size);
    if Fits(page, size) {
      WrapMeans(before);
      if before < |crs| {
        SliceAtIsPage(crs, before, length);
      }
    } else if 0 <= Wrap(before) < |crs| {
      SliceAtNotEmpty(crs, Wrap(before), length);
    }
  }

  /** Page 3074457345618258604 of size 3 starts at 2^63 + 1, which wraps to a negative number. */
  lemma FarPagePanics(crs: seq<AppResource>)
    ensures Slice(crs, 3074457345618258604, 3).Panics?
  {
  }

  function Items(r: Result<(seq<App>, nat)>): Result<seq<App>> {
    if r.Ok? then Ok(r.value.0) else Err
  }

  function Both(a: Attempt<Result<seq<App>>>, b: Attempt<Result<(seq<App>, nat)>>): Attempt<Result<seq<App>>> {
    if a.Returns? && b.Returns? then Returns(Concat(a.value, Items(b.value))) else Panics
  }

  /** The first pages, put together. */
  function FirstPages(lib: Library, c: Cluster, namespace: string, size: Int64, n: nat): Attempt<Result<seq<App>>>
    requires n < 0x8000_0000_0000_0000
  {
    if n == 0 then Returns(Ok([]))
    else Both(FirstPages(lib, c, namespace, size, n - 1), Page(lib, c, namespace, n, size, ""))
  }

  /** How many resources come before page `n + 1`. */
  function Offset(size: Int64, n: nat): nat {
    if n == 0 then 0 else Offset(size, n - 1) + PageSize(size)
  }

  lemma {:induction false} OffsetIsProduct(size: Int64, n: nat)
    ensures Offset(size, n) == n * PageSize(size)
  {
    if n > 0 {
      OffsetIsProduct(size, n - 1);
      assert n * PageSize(size) == (n - 1) * PageSize(size) + PageSize(size);
    }
  }

  lemma PagesAdjoin(crs: seq<AppResource>, size: Int64, n: nat)
    requires 0 < n < 0x8000_0000_0000_0000 && |crs| <= 0x4000_0000_0000_0000 && Fits(n, size)
    ensures Slice(crs, n, size).Returns?
    ensures Upto(crs, Offset(size, n - 1)) + Slice(crs, n, size).value == Upto(crs, Offset(size, n))
  {
    OffsetIsProduct(size, n - 1);
    SliceIsPageIff(crs, n, size);
  }

  lemma FitsBefore(size: Int64, n: nat)
    requires 1 < n < 0x8000_0000_0000_0000 && Fits(n, size)
    ensures Fits(n - 1, size)
  {
    OffsetIsProduct(size, n - 1);
    OffsetIsProduct(size, n - 2);
  }

  lemma FirstPagesNext(lib: Library, c: Cluster, namespace: string, size: Int64, n: nat)
    requires 0 < n < 0x8000_0000_0000_0000
    ensures FirstPages(lib, c, namespace, size, n) ==
      Both(FirstPages(lib, c, namespace, size, n - 1), Page(lib, c, namespace, n, size, ""))
  {
  }

  lemma BothReturn(apps: Result<seq<App>>, more: Result<seq<App>>, total: nat)
    ensures Both(Returns(apps), Returns(WithTotal(more, total))) == Returns(Concat(apps, more))
  {
  }

  lemma {:induction false} FirstPagesCollect(lib: Library, c: Cluster, namespace: string, size: Int64, n: nat)
    requires ProperCluster(c) && AllHttp(IngressesIn(c, namespace, [])) && |c.apps| <= 0x4000_0000_0000_0000
    requires n < 0x8000_0000_0000_0000 && (n > 0 ==> Fits(n, size))
    ensures FirstPages(lib, c, namespace, size, n) ==
      Returns(Collect(lib, c, namespace, [], Upto(Matching(lib, c.apps, namespace, ""), Offset(size, n))))
  {
    var crs := Matching(lib, c.apps, namespace, "");
    if n == 0 {
      assert Upto(crs, 0) == [];
    } else {
      if n > 1 {
        FitsBefore(size, n);
      }
      MatchingNoLonger(lib, c.apps, namespace, "");
      PagesAdjoin(crs, size, n);
      var front, slice := Upto(crs, Offset(size, n - 1)), Slice(crs, n, size).value;
      FirstPagesCollect(lib, c, namespace, size, n - 1);
      FirstPagesNext(lib, c, namespace, size, n);
      assert Page(lib, c, namespace, n, size, "") == Returns(WithTotal(Collect(lib, c, namespace, [], slice), |crs|)) by {
        PageUnscoped(lib, c, namespace, n, size, "");
      }
      BothReturn(Collect(lib, c, namespace, [], front), Collect(lib, c, namespace, [], slice), |crs|);
      CollectConcat(lib, c, namespace, [], front, slice);
    }
  }

  lemma {:induction false} MatchingNoLonger(lib: Library, crs: seq<AppResource>, namespace: string, search: string)
    ensures |Matching(lib, crs, namespace, search)| <= |crs|
  {
    if crs != [] {
      MatchingNoLonger(lib, crs[..|crs| - 1], namespace, search);
    }
  }

  /** On one snapshot of the cluster the pages, put together, are the list, for every page size and with every
      error; the list panics besides on a rule without HTTP part in any ingress of the namespace. */
  lemma PagesMakeList(lib: Library, c: Cluster, namespace: string, size: Int64, n: nat)
    requires ProperCluster(c) && |c.apps| <= 0x4000_0000_0000_0000
    requires n < 0x8000_0000_0000_0000 && (n > 0 ==> Fits(n, size))
    requires n * PageSize(size) >= |Matching(lib, c.apps, namespace, "")|
    ensures All(lib, c, namespace) ==
      if AllHttp(IngressesIn(c, namespace, [])) then FirstPages(lib, c, namespace, size, n) else Panics
  {
    if AllHttp(IngressesIn(c, namespace, [])) {
      FirstPagesCollect(lib, c, namespace, size, n);
      OffsetIsProduct(size, n);
    }
  }

  // ---- When listing panics

  /** An ingress of the namespace, for one of the names if there are any, has a rule without HTTP part. */
  ghost predicate Broken(c: Cluster, namespace: string, names: seq<string>) {
    exists i :: i in c.ingresses && Matches(i, Query(namespace, APP_COMPONENTS, names)) && !HasHttp(i.body)
  }

  lemma BrokenMeans(c: Cluster, namespace: string, names: seq<string>)
    ensures AllHttp(IngressesIn(c, namespace, names)) <==> !Broken(c, namespace, names)
  {
    var q := Query(namespace, APP_COMPONENTS, names);
    forall i ensures i in IngressesIn(c, namespace, names) <==> i in c.ingresses && Matches(i, q) {
      SelectMeans(c.ingresses, q, i);
    }
  }

  /** The list panics exactly when an ingress of the namespace has a rule without HTTP part; a page exactly when its
      slice does, or one of the ingresses of its own applications has such a rule. */
  lemma PanicsIff(lib: Library, c: Cluster, namespace: string, page: Int64, size: Int64, search: string)
    ensures All(lib, c, namespace).Panics? <==> Broken(c, namespace, [])
    ensures var slice := Slice(Matching(lib, c.apps, namespace, search), page, size);
      Page(lib, c, namespace, page, size, search).Panics? <==>
      slice.Panics? || (slice.value != [] && Broken(c, namespace, Names(slice.value)))
  {
    BrokenMeans(c, namespace, []);
    var slice := Slice(Matching(lib, c.apps, namespace, search), page, size);
    if slice.Returns? {
      BrokenMeans(c, namespace, Names(slice.value));
    }
  }

  /** An application's ingress has a rule without HTTP part. */
  ghost predicate BrokenFor(c: Cluster, namespace: string, crs: seq<AppResource>) {
    crs != [] && Broken(c, namespace, Names(crs))
  }

  lemma BrokenForEither(c: Cluster, namespace: string, a: seq<AppResource>, b: seq<AppResource>)
    ensures BrokenFor(c, namespace, a + b) <==> BrokenFor(c, namespace, a) || BrokenFor(c, namespace, b)
  {
    forall i | i in c.ingresses
      ensures a + b != [] && Matches(i, Query(namespace, APP_COMPONENTS, Names(a + b))) <==>
        || (a != [] && Matches(i, Query(namespace, APP_COMPONENTS, Names(a))))
        || (b != [] && Matches(i, Query(namespace, APP_COMPONENTS, Names(b))))
    {
      assert Names(a + b) == Names(a) + Names(b);
      assert a == [] ==> Names(a) == [];
    }
  }

  /** Going through the pages panics exactly when an ingress of an application on them has such a rule. */
  lemma {:induction false} FirstPagesPanicIff(lib: Library, c: Cluster, namespace: string, size: Int64, n: nat)
    requires |c.apps| <= 0x4000_0000_0000_0000 && n < 0x8000_0000_0000_0000 && (n > 0 ==> Fits(n, size))
    ensures FirstPages(lib, c, namespace, size, n).Panics? <==>
      BrokenFor(c, namespace, Upto(Matching(lib, c.apps, namespace, ""), Offset(size, n)))
  {
    if n == 0 {
      assert Upto(Matching(lib, c.apps, namespace, ""), 0) == [];
    } else {
      if n > 1 {
        FitsBefore(size, n);
      }
      FirstPagesPanicIff(lib, c, namespace, size, n - 1);
      FirstPagesNext(lib, c, namespace, size, n);
      NextPagePanics(lib, c, namespace, size, n);
    }
  }

  lemma NextPagePanics(lib: Library, c: Cluster, namespace: string, size: Int64, n: nat)
    requires |c.apps| <= 0x4000_0000_0000_0000 && 0 < n < 0x8000_0000_0000_0000 && Fits(n, size)
    ensures var crs := Matching(lib, c.apps, namespace, "");
      BrokenFor(c, namespace, Upto(crs, Offset(size, n))) <==>
      BrokenFor(c, namespace, Upto(crs, Offset(size, n - 1))) || Page(lib, c, namespace, n, size, "").Panics?
  {
    var crs := Matching(lib, c.apps, namespace, "");
    MatchingNoLonger(lib, c.apps, namespace, "");
    PagesAdjoin(crs, size, n);
    PanicsIff(lib, c, namespace, n, size, "");
    BrokenForEither(c, namespace, Upto(crs, Offset(size, n - 1)), Slice(crs, n, size).value);
  }

  /** A cluster with an application and a stray ingress, whose name no application has. */
  const APP := AppResource("app", "workspace", Ok("core"))
  const STRAY: Ingress := Object("workspace", map[COMPONENT_LABEL := "application", NAME_LABEL := "stray"], [Rule("host", None)])
  const STRAYED := Cluster([APP], [], [], [STRAY], [])

  lemma StrayIsBroken()
    ensures Broken(STRAYED, "", []) && !Broken(STRAYED, "", ["app"])
  {
    assert STRAY in STRAYED.ingresses && Matches(STRAY, Query("", APP_COMPONENTS, [])) && !HasHttp(STRAY.body) by {
      assert Rule("host", None) in STRAY.body;
    }
    assert |"app"| == 3 && |"stray"| == 5;
    assert STRAY.labels[NAME_LABEL] == "stray";
  }

  lemma StrayPage(lib: Library, size: Int64)
    ensures Slice(Matching(lib, STRAYED.apps, "", ""), 1, size) == Returns([APP])
  {
    assert STRAYED.apps[..0] == [] && Matching(lib, STRAYED.apps, "", "") == [APP];
    SliceAtIsPage([APP], 0, PageSize(size));
    assert PageOf([APP], 0, PageSize(size)) == [APP];
  }

  /** It makes the list panic and no page. */
  lemma StrayIngressPanics(lib: Library, size: Int64)
    ensures All(lib, STRAYED, "").Panics? && !Page(lib, STRAYED, "", 1, size, "").Panics?
  {
    StrayIsBroken();
    StrayPage(lib, size);
    assert Names([APP]) == ["app"];
    PanicsIff(lib, STRAYED, "", 1, size, "");
  }

  // ---- Page by page for every namespace

  /** The resources of one namespace that the search finds. */
  function InNamespace(lib: Library, crs: seq<AppResource>, namespace: string, search: string): seq<AppResource> {
    if crs == [] then []
    else
      var last := crs[|crs| - 1];
      var front := InNamespace(lib, crs[..|crs| - 1], namespace, search);
      if last.namespace == namespace && Found(lib, last, search) then front + [last] else front
  }

  /** One namespace's page, with what was loaded across all namespaces. */
  function BulkPage(lib: Library, c: Cluster, namespace: string, page: Int64, size: Int64, search: string)
      : Attempt<Result<(seq<App>, nat)>> {
    var crs := InNamespace(lib, c.apps, namespace, search);
    match Slice(crs, page, size)
    case Panics => Panics
    case Returns(slice) => Returns(WithTotal(Collect(lib, c, "", [], slice), |crs|))
  }

  type Groups = map<string, seq<AppResource>>

  function Group(groups: Groups, namespace: string): seq<AppResource> {
    if namespace in groups then groups[namespace] else []
  }

  ghost predicate IsGrouped(groups: Groups, lib: Library, crs: seq<AppResource>, search: string) {
    forall ns :: Group(groups, ns) == InNamespace(lib, crs, ns, search) && (ns in groups ==> groups[ns] != [])
  }

  lemma GroupedNext(groups: Groups, lib: Library, crs: seq<AppResource>, i: nat, search: string)
    requires i < |crs| && IsGrouped(groups, lib, crs[..i], search)
    ensures var cr := crs[i];
      var next := if Found(lib, cr, search) then groups[cr.namespace := Group(groups, cr.namespace) + [cr]] else groups;
      IsGrouped(next, lib, crs[..i + 1], search)
  {
    assert crs[..i + 1][..i] == crs[..i];
  }

  method GroupByNamespace(lib: Library, crs: seq<AppResource>, search: string) returns (groups: Groups)
    ensures IsGrouped(groups, lib, crs, search)
  {
    groups := map[];
    for i := 0 to |crs|
      invariant IsGrouped(groups, lib, crs[..i], search)
    {
      GroupedNext(groups, lib, crs, i, search);
      if Found(lib, crs[i], search) {
        groups := groups[crs[i].namespace := Group(groups, crs[i].namespace) + [crs[i]]];
      }
    }
    assert crs[..|crs|] == crs;
  }

  /** The slice of every group, with the size of the group; a panic if taking one panics. */
  method SliceGroups(groups: Groups, page: Int64, size: Int64)
    returns (slices: Attempt<map<string, (seq<AppResource>, nat)>>)
    ensures slices.Panics? <==> exists ns :: ns in groups && Slice(groups[ns], page, size).Panics?
    ensures slices.Returns? ==> slices.value.Keys == groups.Keys
    ensures slices.Returns? ==>
      forall ns :: ns in groups ==> Returns(slices.value[ns].0) == Slice(groups[ns], page, size) && slices.value[ns].1 == |groups[ns]|
  {
    var found: map<string, (seq<AppResource>, nat)> := map[];
    var rest := groups.Keys;
    while rest != {}
      invariant rest <= groups.Keys && found.Keys == groups.Keys - rest
      invariant forall ns :: ns in found ==> Returns(found[ns].0) == Slice(groups[ns], page, size) && found[ns].1 == |groups[ns]|
    {
      var ns :| ns in rest;
      var slice := SlicePage(groups[ns], page, size);
      if slice.Panics? {
        return Panics;
      }
      found := found[ns := (slice.value, |groups[ns]|)];
      rest := rest - {ns};
    }
    return Returns(found);
  }

  ghost predicate BulkPanics(lib: Library, c: Cluster, page: Int64, size: Int64, search: string) {
    || !AllHttp(IngressesIn(c, "", []))
    || exists ns :: InNamespace(lib, c.apps, ns, search) != [] && BulkPage(lib, c, ns, page, size, search).Panics?
  }

  ghost predicate BulkFails(lib: Library, c: Cluster, page: Int64, size: Int64, search: string) {
    exists ns :: InNamespace(lib, c.apps, ns, search) != [] && BulkPage(lib, c, ns, page, size, search) == Returns(Err)
  }

  /** The pages of all namespaces in which the search finds something. */
  ghost predicate IsBulk(result: map<string, (seq<App>, nat)>, lib: Library, c: Cluster, page: Int64, size: Int64,
      search: string) {
    forall ns ::
      && (ns in result <==> InNamespace(lib, c.apps, ns, search) != [])
      && (ns in result ==> BulkPage(lib, c, ns, page, size, search) == Returns(Ok(result[ns])))
  }

  method ListPaginatedByNamespace(lib: Library, c: Cluster, namespaces: seq<string>, page: Int64, size: Int64,
      search: string)
    returns (r: Attempt<Result<map<string, (seq<App>, nat)>>>)
    ensures namespaces == [] ==> r == Returns(Ok(map[]))
    ensures namespaces != [] ==> (r.Panics? <==> BulkPanics(lib, c, page, size, search))
    ensures namespaces != [] && r.Returns? ==> (r.value.Err? <==> BulkFails(lib, c, page, size, search))
    ensures namespaces != [] && r.Returns? && r.value.Ok? ==> IsBulk(r.value.value, lib, c, page, size, search)
  {
    if namespaces == [] {
      return Returns(Ok(map[]));
    }
    var groups := GroupByNamespace(lib, c.apps, search);
    var slices := SliceGroups(groups, page, size);
    GroupsMean(groups, lib, c, page, size, search);
    if slices.Panics? {
      return Panics;
    }
    var aux := LoadEnrichmentData(c, "", []);
    if aux.Panics? {
      return Panics;
    }
    r := AssembleGroups(lib, c, groups, slices.value, aux.value, page, size, search);
  }

  lemma GroupsMean(groups: Groups, lib: Library, c: Cluster, page: Int64, size: Int64, search: string)
    requires IsGrouped(groups, lib, c.apps, search)
    ensures forall ns :: ns in groups <==> InNamespace(lib, c.apps, ns, search) != []
    ensures forall ns :: ns in groups ==> groups[ns] == InNamespace(lib, c.apps, ns, search)
    ensures (exists ns :: ns in groups && Slice(groups[ns], page, size).Panics?) <==>
      exists ns :: InNamespace(lib, c.apps, ns, search) != [] && BulkPage(lib, c, ns, page, size, search).Panics?
  {
    forall ns ensures ns in groups <==> InNamespace(lib, c.apps, ns, search) != [] {
      assert Group(groups, ns) == InNamespace(lib, c.apps, ns, search);
    }
    forall ns | ns in groups ensures groups[ns] == InNamespace(lib, c.apps, ns, search) {
      assert Group(groups, ns) == InNamespace(lib, c.apps, ns, search);
    }
    if ns :| ns in groups && Slice(groups[ns], page, size).Panics? {
      assert BulkPage(lib, c, ns, page, size, search).Panics?;
    }
  }

  /** The loop over the slices: the first error ends it. */
  method AssembleGroups(lib: Library, ghost c: Cluster, ghost groups: Groups,
      slices: map<string, (seq<AppResource>, nat)>, aux: Auxiliary, ghost page: Int64, ghost size: Int64, ghost search: string)
    returns (r: Attempt<Result<map<string, (seq<App>, nat)>>>)
    requires forall key :: At(aux, key) == DataAt(c, "", [], key)
    requires slices.Keys == groups.Keys
    requires forall ns :: ns in groups <==> InNamespace(lib, c.apps, ns, search) != []
    requires forall ns :: ns in groups ==> groups[ns] == InNamespace(lib, c.apps, ns, search)
    requires forall ns :: ns in groups ==> Returns(slices[ns].0) == Slice(groups[ns], page, size) && slices[ns].1 == |groups[ns]|
    ensures r.Returns? && (r.value.Err? <==> BulkFails(lib, c, page, size, search))
    ensures r.value.Ok? ==> IsBulk(r.value.value, lib, c, page, size, search)
  {
    var result: map<string, (seq<App>, nat)> := map[];
    var rest := slices.Keys;
    while rest != {}
      invariant rest <= slices.Keys && result.Keys == slices.Keys - rest
      invariant forall ns :: ns in result ==> BulkPage(lib, c, ns, page, size, search) == Returns(Ok(result[ns]))
    {
      var ns :| ns in rest;
      assert ns in groups && Slice(groups[ns], page, size) == Returns(slices[ns].0);
      var apps := Assemble(lib, c, "", [], aux, slices[ns].0);
      assert BulkPage(lib, c, ns, page, size, search) == Returns(WithTotal(apps, slices[ns].1));
      if apps.Err? {
        return Returns(Err);
      }
      result := result[ns := (apps.value, slices[ns].1)];
      rest := rest - {ns};
    }
    return Returns(Ok(result));
  }

  lemma {:induction false} InNamespaceIsMatching(lib: Library, crs: seq<AppResource>, namespace: string, search: string)
    requires namespace != ""
    ensures InNamespace(lib, crs, namespace, search) == Matching(lib, crs, namespace, search)
  {
    if crs != [] {
      InNamespaceIsMatching(lib, crs[..|crs| - 1], namespace, search);
    }
  }

  /** One namespace's share of the bulk listing is the listing of that namespace. */
  lemma BulkPageIsPage(lib: Library, c: Cluster, namespace: string, page: Int64, size: Int64, search: string)
    requires ProperCluster(c) && InPlace(c.pods) && InPlace(c.ingresses)
    requires AllHttp(IngressesIn(c, "", [])) && namespace != ""
    ensures BulkPage(lib, c, namespace, page, size, search) == Page(lib, c, namespace, page, size, search)
  {
    InNamespaceIsMatching(lib, c.apps, namespace, search);
    AllHttpNarrower(c.ingresses, Query("", APP_COMPONENTS, []), Query(namespace, APP_COMPONENTS, []));
    PageUnscoped(lib, c, namespace, page, size, search);
    var crs := Matching(lib, c.apps, namespace, search);
    if Slice(crs, page, size).Returns? {
      var slice := Slice(crs, page, size).value;
      forall cr | cr in slice ensures DataOf(c, "", [], cr) == DataOf(c, namespace, [], cr) {
        SliceFrom(crs, page, size);
        MatchingMeans(lib, c.apps, namespace, search, cr);
        NamespaceScopeAgrees(c, cr);
      }
      CollectAgrees(lib, c, "", [], namespace, [], slice);
    }
  }

  /** When pods and ingresses are labelled with their own namespace, the bulk listing gives every namespace with a
      match the items and the total that the paged listing of that namespace gives, and no other namespace. */
  lemma BulkAgreesWithPages(lib: Library, c: Cluster, page: Int64, size: Int64, search: string,
      result: map<string, (seq<App>, nat)>, namespace: string)
    requires ProperCluster(c) && InPlace(c.pods) && InPlace(c.ingresses) && AllHttp(IngressesIn(c, "", []))
    requires IsBulk(result, lib, c, page, size, search) && namespace != ""
    ensures namespace in result <==> Matching(lib, c.apps, namespace, search) != []
    ensures namespace in result ==> Page(lib, c, namespace, page, size, search) == Returns(Ok(result[namespace]))
  {
    InNamespaceIsMatching(lib, c.apps, namespace, search);
    BulkPageIsPage(lib, c, namespace, page, size, search);
    assert namespace in result <==> InNamespace(lib, c.apps, namespace, search) != [];
  }

  /** The page of some namespace with a match comes to this. */
  ghost predicate SomePageIs(lib: Library, c: Cluster, page: Int64, size: Int64, search: string, panics: bool) {
    exists ns :: ns != "" && Matching(lib, c.apps, ns, search) != [] &&
                 if panics then Page(lib, c, ns, page, size, search).Panics? else Page(lib, c, ns, page, size, search) == Returns(Err)
  }

  /** The bulk listing panics exactly when an ingress has a rule without HTTP part or the page of some namespace with
      a match panics; otherwise it fails exactly when one of those pages fails. */
  lemma BulkFailsWithPages(lib: Library, c: Cluster, page: Int64, size: Int64, search: string)
    requires ProperCluster(c) && InPlace(c.pods) && InPlace(c.ingresses)
    ensures BulkPanics(lib, c, page, size, search) <==> Broken(c, "", []) || SomePageIs(lib, c, page, size, search, true)
    ensures !BulkPanics(lib, c, page, size, search) ==>
      (BulkFails(lib, c, page, size, search) <==> SomePageIs(lib, c, page, size, search, false))
  {
    BrokenMeans(c, "", []);
    if AllHttp(IngressesIn(c, "", [])) {
      forall ns | ns != ""
        ensures InNamespace(lib, c.apps, ns, search) == Matching(lib, c.apps, ns, search)
        ensures BulkPage(lib, c, ns, page, size, search) == Page(lib, c, ns, page, size, search)
      {
        InNamespaceIsMatching(lib, c.apps, ns, search);
        BulkPageIsPage(lib, c, ns, page, size, search);
      }
      NobodyOutside(lib, c.apps, search);
    }
  }

  lemma {:induction false} NobodyOutside(lib: Library, crs: seq<AppResource>, search: string)
    requires forall cr :: cr in crs ==> cr.namespace != ""
    ensures InNamespace(lib, crs, "", search) == []
  {
    if crs != [] {
      var n := |crs| - 1;
      assert crs[n] in crs && forall cr :: cr in crs[..n] ==> cr in crs;
      NobodyOutside(lib, crs[..n], search);
    }
  }

  // ---- When an application is there, and its status

  /** The secret holds data of the area for the application with this key. */
  predicate Holds(s: AppSecret, area: string, key: string) {
    NAME_LABEL in s.labels && AREA_LABEL in s.labels && s.labels[AREA_LABEL] == area && KeyOf(s, ByNamespace) == key
  }

  function AreaOf(d: AppData, area: string): Option<AppSecret> {
    match area
    case "scaling" => d.scaling
    case "configuration" => d.bound
    case "environment" => d.env
    case "service" => d.services
    case _ => None
  }

  const AREAS := ["scaling", "configuration", "environment", "service"]

  lemma AssignSetsArea(d: AppData, s: AppSecret, area: string)
    requires area in AREAS
    ensures AreaOf(Assign(d, s), area) ==
      if NAME_LABEL in s.labels && AREA_LABEL in s.labels && s.labels[AREA_LABEL] == area then Some(s) else AreaOf(d, area)
  {
  }

  /** The last secret of an area for a key. */
  function LastHolding(secrets: seq<AppSecret>, area: string, key: string): (r: Option<AppSecret>)
    ensures r.Some? ==> r.value in secrets && Holds(r.value, area, key)
    ensures r.None? ==> forall s :: s in secrets ==> !Holds(s, area, key)
  {
    if secrets == [] then None
    else if Holds(secrets[|secrets| - 1], area, key) then Some(secrets[|secrets| - 1])
    else
      assert secrets == secrets[..|secrets| - 1] + [secrets[|secrets| - 1]];
      LastHolding(secrets[..|secrets| - 1], area, key)
  }

  /** The last secret of the area counts. */
  lemma {:induction false} AssignedMeans(secrets: seq<AppSecret>, area: string, key: string)
    requires area in AREAS
    ensures AreaOf(AssignAll(Under(secrets, ByNamespace, key)), area) == LastHolding(secrets, area, key)
  {
    if secrets != [] {
      var n, last := |secrets| - 1, secrets[|secrets| - 1];
      AssignedMeans(secrets[..n], area, key);
      var front := Under(secrets[..n], ByNamespace, key);
      assert (front + [last])[..|front|] == front;
      AssignSetsArea(AssignAll(front), last, area);
    }
  }

  lemma {:induction false} SelectMeans<T>(items: seq<Object<T>>, q: Query, o: Object<T>)
    ensures o in Select(items, q) <==> o in items && Matches(o, q)
  {
    if items != [] {
      SelectMeans(items[..|items| - 1], q, o);
      assert items == items[..|items| - 1] + [items[|items| - 1]];
    }
  }

  /** Among the secrets Epinio manages there is one of the area for the application. */
  ghost predicate HasArea(c: Cluster, namespace: string, cr: AppResource, area: string) {
    exists s :: s in c.secrets && Matches(s, Query(namespace, EPINIO_SECRETS, [])) && Holds(s, area, Encode(cr.name, cr.namespace))
  }

  lemma AreaIsThere(c: Cluster, namespace: string, names: seq<string>, cr: AppResource, area: string)
    requires area in AREAS
    ensures AreaOf(DataOf(c, namespace, names, cr), area).Some? <==> HasArea(c, namespace, cr, area)
  {
    var key, q := Encode(cr.name, cr.namespace), Query(namespace, EPINIO_SECRETS, []);
    var secrets := SecretsIn(c, namespace);
    AssignedMeans(secrets, area, key);
    forall s ensures s in secrets <==> s in c.secrets && Matches(s, q) {
      SelectMeans(c.secrets, q, s);
    }
  }

  /** An application is listed as not there exactly when one of its environment, configuration and scaling secrets
      is missing. */
  lemma ThereIffThreeSecrets(lib: Library, c: Cluster, namespace: string, names: seq<string>, cr: AppResource)
    ensures Aggregate(lib, cr, DataOf(c, namespace, names, cr)) == Ok(None) <==>
      !HasArea(c, namespace, cr, "environment") || !HasArea(c, namespace, cr, "configuration") ||
      !HasArea(c, namespace, cr, "scaling")
  {
    AreaIsThere(c, namespace, names, cr, "environment");
    AreaIsThere(c, namespace, names, cr, "configuration");
    AreaIsThere(c, namespace, names, cr, "scaling");
  }

  function LastJob(jobs: seq<Job>, key: string): (r: Option<Job>)
    ensures r.Some? ==> r.value in jobs && KeyOf(r.value, ByPartOf) == key
    ensures r.None? ==> forall j :: j in jobs ==> KeyOf(j, ByPartOf) != key
  {
    if jobs == [] then None
    else if KeyOf(jobs[|jobs| - 1], ByPartOf) == key then Some(jobs[|jobs| - 1])
    else
      assert jobs == jobs[..|jobs| - 1] + [jobs[|jobs| - 1]];
      LastJob(jobs[..|jobs| - 1], key)
  }

  lemma {:induction false} StagingIsLastJob(jobs: seq<Job>, key: string)
    ensures StagingOf(Under(jobs, ByPartOf, key)) ==
      if LastJob(jobs, key).Some? then JobStaging(LastJob(jobs, key).value.body) else NoStaging
  {
    if jobs != [] {
      StagingIsLastJob(jobs[..|jobs| - 1], key);
    }
  }

  /** The job has neither completed nor failed. */
  ghost predicate Unfinished(conditions: seq<JobCondition>) {
    forall i :: 0 <= i < |conditions| ==> !(conditions[i].isTrue && (conditions[i].kind.Complete? || conditions[i].kind.Failure?))
  }

  lemma {:induction false} JobActive(conditions: seq<JobCondition>)
    ensures JobStaging(conditions) == Active <==> Unfinished(conditions)
  {
    if conditions != [] {
      JobActive(conditions[1..]);
      assert forall i :: 0 < i < |conditions| ==> conditions[i] == conditions[1..][i - 1];
    }
  }

  lemma {:induction false} UnderMeans<T>(items: seq<Object<T>>, scope: Scope, key: string)
    ensures Under(items, scope, key) != [] <==> exists o :: o in items && KeyOf(o, scope) == key
  {
    if items != [] {
      UnderMeans(items[..|items| - 1], scope, key);
      assert items == items[..|items| - 1] + [items[|items| - 1]];
    }
  }

  ghost predicate HasPod(c: Cluster, namespace: string, names: seq<string>, key: string) {
    exists p :: p in PodsIn(c, namespace, names) && KeyOf(p, ByPartOf) == key
  }

  /** An application is being staged exactly when its last job is unfinished, and otherwise running exactly when it
      has a pod; then its workload consists of its pods and the routes of its ingresses. */
  lemma StatusMeans(lib: Library, c: Cluster, namespace: string, names: seq<string>, cr: AppResource, app: App)
    requires Aggregate(lib, cr, DataOf(c, namespace, names, cr)) == Ok(Some(app))
    ensures var key := Encode(cr.name, cr.namespace);
      var last := LastJob(JobsIn(c, namespace, names), key);
      && (app.status == InStaging <==> last.Some? && Unfinished(last.value.body))
      && (app.status == Running <==> app.status != InStaging && HasPod(c, namespace, names, key))
    ensures var key := Encode(cr.name, cr.namespace);
      && (app.workload.Some? <==> HasPod(c, namespace, names, key))
      && (app.workload.Some? ==>
          && app.workload.value.pods == Under(PodsIn(c, namespace, names), ByPartOf, key)
          && app.workload.value.routes == RoutesOf(Under(IngressesIn(c, namespace, names), ByPartOf, key))
          && app.workload.value.desired == app.instances)
  {
    var key := Encode(cr.name, cr.namespace);
    var last := LastJob(JobsIn(c, namespace, names), key);
    StagingIsLastJob(JobsIn(c, namespace, names), key);
    if last.Some? {
      JobActive(last.value.body);
    }
    UnderMeans(PodsIn(c, namespace, names), ByPartOf, key);
  }

  lemma AreaIsLast(c: Cluster, namespace: string, names: seq<string>, cr: AppResource, area: string)
    requires area in AREAS
    ensures AreaOf(DataOf(c, namespace, names, cr), area) == LastHolding(SecretsIn(c, namespace), area, Encode(cr.name, cr.namespace))
  {
    AssignedMeans(SecretsIn(c, namespace), area, Encode(cr.name, cr.namespace));
  }

  /** The application is configured by these secrets. */
  ghost predicate ConfiguredBy(lib: Library, app: App, env: Option<AppSecret>, bound: Option<AppSecret>,
      scaling: Option<AppSecret>, services: Option<AppSecret>) {
    && env.Some? && app.environment == env.value.body
    && bound.Some? && app.configurations == Keys(bound)
    && scaling.Some? && Instances(lib, scaling.value.body) == Ok(app.instances)
    && app.services == Keys(services)
  }

  lemma AggregateParts(lib: Library, cr: AppResource, d: AppData, app: App)
    requires Aggregate(lib, cr, d) == Ok(Some(app))
    ensures ConfiguredBy(lib, app, AreaOf(d, "environment"), AreaOf(d, "configuration"), AreaOf(d, "scaling"), AreaOf(d, "service"))
  {
  }

  /** The configuration of a listed application comes from the last secret of each area. */
  lemma ConfigurationMeans(lib: Library, c: Cluster, namespace: string, names: seq<string>, cr: AppResource, app: App)
    requires Aggregate(lib, cr, DataOf(c, namespace, names, cr)) == Ok(Some(app))
    ensures var key, secrets := Encode(cr.name, cr.namespace), SecretsIn(c, namespace);
      ConfiguredBy(lib, app, LastHolding(secrets, "environment", key), LastHolding(secrets, "configuration", key),
                   LastHolding(secrets, "scaling", key), LastHolding(secrets, "service", key))
  {
    AggregateParts(lib, cr, DataOf(c, namespace, names, cr), app);
    AreaIsLast(c, namespace, names, cr, "environment");
    AreaIsLast(c, namespace, names, cr, "configuration");
    AreaIsLast(c, namespace, names, cr, "scaling");
    AreaIsLast(c, namespace, names, cr, "service");
  }
}
