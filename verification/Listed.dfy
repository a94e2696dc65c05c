/**
 What the listings hold, told by the fields of the objects in the cluster: which resources are listed, in which order,
 and what each listed application shows of the secrets, pods, ingresses and jobs that belong to it
 (internal/application/application.go, workload.go, ingresses.go).
 */
module Listed {
  import opened AppKeys
  import opened Enrichment
  import opened Listing
  import opened Picking
  import SecretData
  import opened Strings
  import opened Wrappers

  // ---- The objects that belong to an application

  /** The secrets of one area that Epinio manages for the application. */
  function OfArea(cr: AppResource, area: string): AppSecret -> Option<AppSecret> {
    (s: AppSecret) =>
      if s.namespace == cr.namespace && Get(s.labels, "app.kubernetes.io/managed-by") == "epinio" &&
        Get(s.labels, "epinio.io/area") == area && Get(s.labels, "app.kubernetes.io/name") == cr.name
      then Some(s) else None
  }

  /** The pods, or the ingresses, of the application that are in a namespace, or in any when that is empty. */
  function ComponentOf<T>(cr: AppResource, namespace: string): Object<T> -> Option<Object<T>> {
    (o: Object<T>) =>
      if (namespace == "" || o.namespace == namespace) && Get(o.labels, "app.kubernetes.io/component") == "application" &&
        Get(o.labels, "app.kubernetes.io/name") == cr.name && Get(o.labels, "app.kubernetes.io/part-of") == cr.namespace
      then Some(o) else None
  }

  /** The staging jobs of the application. */
  function JobOf(cr: AppResource): Job -> Option<Job> {
    (o: Job) =>
      if o.namespace == "epinio" && Get(o.labels, "app.kubernetes.io/name") == cr.name &&
        Get(o.labels, "app.kubernetes.io/part-of") == cr.namespace
      then Some(o) else None
  }

  function Last<T>(s: seq<T>): Option<T> {
    if s == [] then None else Some(s[|s| - 1])
  }

  function SecretOf(c: Cluster, cr: AppResource, area: string): Option<AppSecret> {
    Last(Pick(OfArea(cr, area), c.secrets))
  }

  // ---- What is loaded for it

  /** Selecting and then looking under a key comes to one condition on each object. */
  lemma {:induction false} UnderSelectPicks<T>(items: seq<Object<T>>, q: Query, scope: Scope, key: string,
      pick: Object<T> -> Option<Object<T>>)
    requires forall o :: o in items ==> pick(o) == if Matches(o, q) && KeyOf(o, scope) == key then Some(o) else None
    ensures Under(Select(items, q), scope, key) == Pick(pick, items)
  {
    if items != [] {
      var n := |items| - 1;
      assert items[n] in items && forall o :: o in items[..n] ==> o in items;
      UnderSelectPicks(items[..n], q, scope, key, pick);
      SelectUnderNext(items, q, scope, key);
    }
  }

  lemma KeyIs<T>(o: Object<T>, scope: Scope, cr: AppResource)
    requires NUL !in Get(o.labels, NAME_LABEL) && NUL !in cr.name
    ensures KeyOf(o, scope) == Encode(cr.name, cr.namespace) <==>
      Get(o.labels, "app.kubernetes.io/name") == cr.name &&
      cr.namespace == if scope.ByNamespace? then o.namespace else Get(o.labels, "app.kubernetes.io/part-of")
  {
    if KeyOf(o, scope) == Encode(cr.name, cr.namespace) {
      EncodeInjective(Get(o.labels, NAME_LABEL), ScopeOf(o, scope), cr.name, cr.namespace);
    }
  }

  /** The resource is one of the cluster that a listing of the namespace, for these names, loads for. */
  ghost predicate Asked(c: Cluster, namespace: string, names: seq<string>, cr: AppResource) {
    && ProperCluster(c) && cr in c.apps
    && (namespace == "" || cr.namespace == namespace) && (names == [] || cr.name in names)
  }

  lemma ComponentsAre<T>(c: Cluster, items: seq<Object<T>>, namespace: string, names: seq<string>, cr: AppResource)
    requires Asked(c, namespace, names, cr) && NulFreeNames(items)
    ensures Under(Select(items, Query(namespace, APP_COMPONENTS, names)), ByPartOf, Encode(cr.name, cr.namespace)) ==
      Pick(ComponentOf(cr, namespace), items)
  {
    var q := Query(namespace, APP_COMPONENTS, names);
    forall o | o in items
      ensures ComponentOf(cr, namespace)(o) ==
        if Matches(o, q) && KeyOf(o, ByPartOf) == Encode(cr.name, cr.namespace) then Some(o) else None
    {
      KeyIs(o, ByPartOf, cr);
    }
    UnderSelectPicks(items, q, ByPartOf, Encode(cr.name, cr.namespace), ComponentOf(cr, namespace));
  }

  lemma JobsAre(c: Cluster, namespace: string, names: seq<string>, cr: AppResource)
    requires Asked(c, namespace, names, cr)
    ensures Under(JobsIn(c, namespace, names), ByPartOf, Encode(cr.name, cr.namespace)) == Pick(JobOf(cr), c.jobs)
  {
    var q := Query(JOB_NAMESPACE, if namespace == "" then map[] else map[PART_OF_LABEL := namespace], names);
    forall o | o in c.jobs
      ensures JobOf(cr)(o) ==
        if Matches(o, q) && KeyOf(o, ByPartOf) == Encode(cr.name, cr.namespace) then Some(o) else None
    {
      KeyIs(o, ByPartOf, cr);
    }
    UnderSelectPicks(c.jobs, q, ByPartOf, Encode(cr.name, cr.namespace), JobOf(cr));
  }

  lemma {:induction false} LastHoldingPicks(secrets: seq<AppSecret>, q: Query, area: string, key: string,
      pick: AppSecret -> Option<AppSecret>)
    requires forall s :: s in secrets ==> pick(s) == if Matches(s, q) && Holds(s, area, key) then Some(s) else None
    ensures LastHolding(Select(secrets, q), area, key) == Last(Pick(pick, secrets))
  {
    if secrets != [] {
      var n := |secrets| - 1;
      assert secrets[n] in secrets && forall s :: s in secrets[..n] ==> s in secrets;
      LastHoldingPicks(secrets[..n], q, area, key, pick);
      var front := Select(secrets[..n], q);
      assert (front + [secrets[n]])[..|front|] == front;
    }
  }

  lemma AreaSecretIs(c: Cluster, namespace: string, names: seq<string>, cr: AppResource, area: string)
    requires Asked(c, namespace, names, cr) && area in AREAS
    ensures AreaOf(DataOf(c, namespace, names, cr), area) == SecretOf(c, cr, area)
  {
    var key, q := Encode(cr.name, cr.namespace), Query(namespace, EPINIO_SECRETS, []);
    AreaIsLast(c, namespace, names, cr, area);
    forall s | s in c.secrets
      ensures OfArea(cr, area)(s) == if Matches(s, q) && Holds(s, area, key) then Some(s) else None
    {
      KeyIs(s, ByNamespace, cr);
      AreaNamed(s, area);
    }
    LastHoldingPicks(c.secrets, q, area, key, OfArea(cr, area));
  }

  lemma AreaNamed(s: AppSecret, area: string)
    requires area in AREAS
    ensures Get(s.labels, "epinio.io/area") == area <==> AREA_LABEL in s.labels && s.labels[AREA_LABEL] == area
  {
    assert |"scaling"| == 7 && |"configuration"| == 13 && |"environment"| == 11 && |"service"| == 7;
  }

  /** What is loaded for an application is the last secret of each area, its pods, and the routes of its ingresses, in
      the order of the cluster, and how its last job stands. */
  lemma DataMeans(c: Cluster, namespace: string, names: seq<string>, cr: AppResource)
    requires Asked(c, namespace, names, cr)
    ensures var d := DataOf(c, namespace, names, cr);
      && d.env == SecretOf(c, cr, "environment") && d.bound == SecretOf(c, cr, "configuration")
      && d.scaling == SecretOf(c, cr, "scaling") && d.services == SecretOf(c, cr, "service")
      && d.pods == Pick(ComponentOf(cr, namespace), c.pods)
      && d.routes == RoutesOf(Pick(ComponentOf(cr, namespace), c.ingresses))
      && d.staging == StagingOf(Pick(JobOf(cr), c.jobs))
  {
    AreaSecretIs(c, namespace, names, cr, "environment");
    AreaSecretIs(c, namespace, names, cr, "configuration");
    AreaSecretIs(c, namespace, names, cr, "scaling");
    AreaSecretIs(c, namespace, names, cr, "service");
    ComponentsAre(c, c.pods, namespace, names, cr);
    ComponentsAre(c, c.ingresses, namespace, names, cr);
    JobsAre(c, namespace, names, cr);
  }

  // ---- Routes and jobs

  function RoutesIn(): Ingress -> seq<string> {
    (i: Ingress) => IngressRoutes(i.body)
  }

  /** The routes of ingresses are those of each, in order, and those of an ingress are those of its rules, in order. */
  lemma {:induction false} RoutesAreFlat(ingresses: seq<Ingress>)
    ensures RoutesOf(ingresses) == Flat(RoutesIn(), ingresses)
  {
    if ingresses != [] {
      RoutesAreFlat(ingresses[..|ingresses| - 1]);
    }
  }

  lemma {:induction false} RulesAreFlat(rules: seq<Rule>)
    ensures IngressRoutes(rules) == Flat(RuleRoutes, rules)
  {
    if rules != [] {
      RulesAreFlat(rules[..|rules| - 1]);
    }
  }

  /** A rule with an HTTP part has a route for each path: host and path, less one slash at the end. */
  lemma RuleRoutesMean(rule: Rule)
    ensures rule.http.None? ==> RuleRoutes(rule) == []
    ensures rule.http.Some? ==> |RuleRoutes(rule)| == |rule.http.value|
    ensures rule.http.Some? ==> forall k :: 0 <= k < |RuleRoutes(rule)| ==>
      var text, route := rule.host + rule.http.value[k], RuleRoutes(rule)[k];
      if text != "" && text[|text| - 1] == '/' then text == route + "/" else text == route
  {
    if rule.http.Some? {
      forall k | 0 <= k < |RuleRoutes(rule)|
        ensures var text, route := rule.host + rule.http.value[k], RuleRoutes(rule)[k];
          if text != "" && text[|text| - 1] == '/' then text == route + "/" else text == route
      {
        SuffixMeans(rule.host + rule.http.value[k], "/");
      }
    }
  }

  /** This condition of a job is the first by which it has ended, and it has ended so. */
  ghost predicate Ends(conditions: seq<JobCondition>, i: nat, kind: Condition) {
    && i < |conditions| && conditions[i].isTrue && conditions[i].kind == kind
    && forall j :: 0 <= j < i ==> !(conditions[j].isTrue && conditions[j].kind != Other)
  }

  lemma {:induction false} JobStagingMeans(conditions: seq<JobCondition>)
    ensures JobStaging(conditions) != NoStaging
    ensures JobStaging(conditions) == Done <==> exists i :: Ends(conditions, i, Complete)
    ensures JobStaging(conditions) == Failed <==> exists i :: Ends(conditions, i, Failure)
    ensures JobStaging(conditions) == Active <==> forall j :: 0 <= j < |conditions| ==>
      !(conditions[j].isTrue && conditions[j].kind != Other)
  {
    if conditions != [] {
      var rest := conditions[1..];
      JobStagingMeans(rest);
      if conditions[0].isTrue && conditions[0].kind != Other {
        assert Ends(conditions, 0, conditions[0].kind);
      } else {
        forall i: nat, kind | kind != Other ensures Ends(conditions, i, kind) ==> i > 0 && Ends(rest, i - 1, kind) {
          assert Ends(conditions, i, kind) ==> forall j :: 0 <= j < i - 1 ==> rest[j] == conditions[j + 1];
        }
        forall i: nat, kind ensures Ends(rest, i, kind) ==> Ends(conditions, i + 1, kind) {
          assert Ends(rest, i, kind) ==> forall j :: 0 < j < i + 1 ==> conditions[j] == rest[j - 1];
        }
        assert forall j :: 0 < j < |conditions| ==> conditions[j] == rest[j - 1];
      }
    }
  }

  // ---- What a listed application shows

  /** Among the secrets Epinio manages there is one of the area for the application. */
  ghost predicate HasSecret(c: Cluster, cr: AppResource, area: string) {
    exists s :: s in c.secrets && s.namespace == cr.namespace &&
      Get(s.labels, "app.kubernetes.io/managed-by") == "epinio" && Get(s.labels, "epinio.io/area") == area &&
      Get(s.labels, "app.kubernetes.io/name") == cr.name
  }

  /** The application has the three secrets it cannot do without. */
  ghost predicate Equipped(c: Cluster, cr: AppResource) {
    HasSecret(c, cr, "environment") && HasSecret(c, cr, "configuration") && HasSecret(c, cr, "scaling")
  }

  lemma HasSecretMeans(c: Cluster, cr: AppResource, area: string)
    ensures HasSecret(c, cr, area) <==> SecretOf(c, cr, area).Some?
    ensures SecretOf(c, cr, area).Some? ==> OfArea(cr, area)(SecretOf(c, cr, area).value) == SecretOf(c, cr, area)
  {
    var found := Pick(OfArea(cr, area), c.secrets);
    if found != [] {
      PickMembers(OfArea(cr, area), c.secrets, found[|found| - 1]);
    }
    if HasSecret(c, cr, area) {
      var s :| s in c.secrets && OfArea(cr, area)(s) == Some(s);
      PickMembers(OfArea(cr, area), c.secrets, s);
    }
  }

  /** A scaling secret that says nothing, or a negative number, stands for one instance. */
  ghost predicate Wants(lib: Library, data: SecretData.Data, instances: int) {
    if data.Entries? && "desired" in data.entries && data.entries["desired"] != "" then
      var number := lib.parseInt(data.entries["desired"]);
      number.Ok? && instances == if number.value < 0 then 1 else number.value
    else instances == 1
  }

  /** The staging field tells how the last job has ended, if there is one and it has. */
  ghost predicate TellsStaging(job: Option<Job>, staging: Staging) {
    && (staging == NoStaging <==> job.None?)
    && (staging == Done <==> job.Some? && exists i :: Ends(job.value.body, i, Complete))
    && (staging == Failed <==> job.Some? && exists i :: Ends(job.value.body, i, Failure))
  }

  function KeysIn(s: Option<AppSecret>): set<string> {
    if s.Some? && s.value.body.Entries? then s.value.body.entries.Keys else {}
  }

  /** Name, namespace and core are those of the resource; environment, configurations, services and instances those of
      its last secrets; the workload is made of its pods and of the routes of its ingresses, in the order of the cluster. */
  ghost predicate Shows(lib: Library, c: Cluster, namespace: string, cr: AppResource, app: App) {
    && app.name == cr.name && app.namespace == cr.namespace && cr.core == Ok(app.core)
    && SecretOf(c, cr, "environment").Some? && app.environment == SecretOf(c, cr, "environment").value.body
    && app.configurations == KeysIn(SecretOf(c, cr, "configuration"))
    && app.services == KeysIn(SecretOf(c, cr, "service"))
    && SecretOf(c, cr, "scaling").Some? && Wants(lib, SecretOf(c, cr, "scaling").value.body, app.instances)
    && TellsStaging(Last(Pick(JobOf(cr), c.jobs)), app.staging)
    && var pods, ingresses := Pick(ComponentOf(cr, namespace), c.pods), Pick(ComponentOf(cr, namespace), c.ingresses);
    && (pods == [] ==> app.workload == None)
    && (pods != [] ==> app.workload == Some(Workload(pods, Flat(RoutesIn(), ingresses), app.instances)))
    && (app.status == InStaging <==> app.staging == Active)
    && (app.status == Running <==> app.staging != Active && pods != [])
  }

  ghost predicate NoNumber(lib: Library, data: SecretData.Data) {
    data.Entries? && "desired" in data.entries && data.entries["desired"] != "" && lib.parseInt(data.entries["desired"]).Err?
  }

  /** The resource cannot be read, or the number in its last scaling secret cannot. */
  ghost predicate Unreadable(lib: Library, c: Cluster, cr: AppResource) {
    cr.core.Err? || (SecretOf(c, cr, "scaling").Some? && NoNumber(lib, SecretOf(c, cr, "scaling").value.body))
  }

  lemma InstancesMeans(lib: Library, data: SecretData.Data)
    ensures Instances(lib, data).Ok? ==> Wants(lib, data, Instances(lib, data).value)
    ensures Instances(lib, data).Err? <==> NoNumber(lib, data)
  {
  }

  lemma StagingMeans(jobs: seq<Job>)
    ensures TellsStaging(Last(jobs), StagingOf(jobs))
  {
    if jobs != [] {
      JobStagingMeans(jobs[|jobs| - 1].body);
    }
  }

  lemma ShowsFromData(lib: Library, c: Cluster, namespace: string, cr: AppResource, d: AppData, app: App)
    requires Aggregate(lib, cr, d) == Ok(Some(app)) && TellsStaging(Last(Pick(JobOf(cr), c.jobs)), d.staging)
    requires d.env == SecretOf(c, cr, "environment") && d.bound == SecretOf(c, cr, "configuration")
    requires d.scaling == SecretOf(c, cr, "scaling") && d.services == SecretOf(c, cr, "service")
    requires d.pods == Pick(ComponentOf(cr, namespace), c.pods)
    requires d.routes == Flat(RoutesIn(), Pick(ComponentOf(cr, namespace), c.ingresses))
    ensures Shows(lib, c, namespace, cr, app)
  {
    InstancesMeans(lib, d.scaling.value.body);
  }

  /** A resource gives no application when one of the three secrets is missing, an error when it has them but cannot be
      read, and otherwise the application it should. */
  lemma AggregateMeans(lib: Library, c: Cluster, namespace: string, names: seq<string>, cr: AppResource)
    requires Asked(c, namespace, names, cr)
    ensures var r := Aggregate(lib, cr, DataOf(c, namespace, names, cr));
      && (r == Ok(None) <==> !Equipped(c, cr))
      && (r.Err? <==> Equipped(c, cr) && Unreadable(lib, c, cr))
      && (r.Ok? && r.value.Some? ==> Shows(lib, c, namespace, cr, r.value.value))
  {
    var d := DataOf(c, namespace, names, cr);
    DataMeans(c, namespace, names, cr);
    HasSecretMeans(c, cr, "environment");
    HasSecretMeans(c, cr, "configuration");
    HasSecretMeans(c, cr, "scaling");
    if d.scaling.Some? {
      InstancesMeans(lib, d.scaling.value.body);
    }
    var r := Aggregate(lib, cr, d);
    if r.Ok? && r.value.Some? {
      StagingMeans(Pick(JobOf(cr), c.jobs));
      RoutesAreFlat(Pick(ComponentOf(cr, namespace), c.ingresses));
      ShowsFromData(lib, c, namespace, cr, d, r.value.value);
    }
  }

  // ---- What the listings hold

  ghost function Standing(c: Cluster): AppResource -> Option<AppResource> {
    (cr: AppResource) => if Equipped(c, cr) then Some(cr) else None
  }

  /** The applications show the resources that have their three secrets, one each, in order. */
  ghost predicate Shown(lib: Library, c: Cluster, namespace: string, crs: seq<AppResource>, apps: seq<App>) {
    var standing := Pick(Standing(c), crs);
    |apps| == |standing| && forall i :: 0 <= i < |apps| ==> Shows(lib, c, namespace, standing[i], apps[i])
  }

  ghost predicate SomeUnreadable(lib: Library, c: Cluster, crs: seq<AppResource>) {
    exists cr :: cr in crs && Equipped(c, cr) && Unreadable(lib, c, cr)
  }

  /** What has been collected, and one resource more. */
  lemma CollectNext(lib: Library, c: Cluster, namespace: string, names: seq<string>, crs: seq<AppResource>)
    requires crs != []
    ensures var front := Collect(lib, c, namespace, names, crs[..|crs| - 1]);
      var last := Aggregate(lib, crs[|crs| - 1], DataOf(c, namespace, names, crs[|crs| - 1]));
      Collect(lib, c, namespace, names, crs) ==
      if front.Err? || last.Err? then Err else if last.value.None? then front else Ok(front.value + [last.value.value])
  {
    assert Fused(lib, c, namespace, names, crs)[..|crs| - 1] == Fused(lib, c, namespace, names, crs[..|crs| - 1]);
  }

  lemma ShownNext(lib: Library, c: Cluster, namespace: string, crs: seq<AppResource>, apps: seq<App>, last: Option<App>)
    requires crs != [] && Shown(lib, c, namespace, crs[..|crs| - 1], apps)
    requires last.Some? <==> Equipped(c, crs[|crs| - 1])
    requires last.Some? ==> Shows(lib, c, namespace, crs[|crs| - 1], last.value)
    ensures Shown(lib, c, namespace, crs, if last.Some? then apps + [last.value] else apps)
  {
  }

  lemma {:induction false} CollectMeans(lib: Library, c: Cluster, namespace: string, names: seq<string>,
      crs: seq<AppResource>)
    requires forall cr :: cr in crs ==> Asked(c, namespace, names, cr)
    ensures var r := Collect(lib, c, namespace, names, crs);
      (r.Err? <==> SomeUnreadable(lib, c, crs)) && (r.Ok? ==> Shown(lib, c, namespace, crs, r.value))
  {
    if crs != [] {
      var n := |crs| - 1;
      assert crs == crs[..n] + [crs[n]];
      CollectMeans(lib, c, namespace, names, crs[..n]);
      CollectNext(lib, c, namespace, names, crs);
      AggregateMeans(lib, c, namespace, names, crs[n]);
      var front, last := Collect(lib, c, namespace, names, crs[..n]), Aggregate(lib, crs[n], DataOf(c, namespace, names, crs[n]));
      if front.Ok? && last.Ok? {
        ShownNext(lib, c, namespace, crs, front.value, last.value);
      }
    }
  }

  /** The resources of the namespace, or of all when it is empty, whose name contains the text searched for, both in
      lower case. */
  ghost function Sought(lib: Library, namespace: string, search: string): AppResource -> Option<AppResource> {
    (cr: AppResource) =>
      if (namespace == "" || cr.namespace == namespace) &&
        (search == "" || exists i: nat :: OccursAt(lib.lower(cr.name), lib.lower(search), i))
      then Some(cr) else None
  }

  lemma FoundMeans(lib: Library, cr: AppResource, search: string)
    ensures Found(lib, cr, search) <==>
      search == "" || exists i: nat :: OccursAt(lib.lower(cr.name), lib.lower(search), i)
  {
    var lowered := lib.lower(search);
    if lowered == "" {
      assert OccursAt(lib.lower(cr.name), lowered, 0);
    } else {
      ContainsMeans(lib.lower(cr.name), lowered);
    }
  }

  /** The resources sought, in the order of the cluster. */
  lemma {:induction false} MatchingPicks(lib: Library, crs: seq<AppResource>, namespace: string, search: string)
    ensures Matching(lib, crs, namespace, search) == Pick(Sought(lib, namespace, search), crs)
  {
    if crs != [] {
      MatchingPicks(lib, crs[..|crs| - 1], namespace, search);
      FoundMeans(lib, crs[|crs| - 1], search);
    }
  }

  lemma SoughtAreAsked(lib: Library, c: Cluster, namespace: string, search: string)
    requires ProperCluster(c)
    ensures forall cr :: cr in Pick(Sought(lib, namespace, search), c.apps) ==> Asked(c, namespace, [], cr)
  {
    forall cr | cr in Pick(Sought(lib, namespace, search), c.apps) ensures Asked(c, namespace, [], cr) {
      PickMembers(Sought(lib, namespace, search), c.apps, cr);
    }
  }

  /** The list shows the resources of the namespace that have their three secrets, each with its name, in order; it
      fails exactly when one of these cannot be read. */
  lemma ListHolds(lib: Library, c: Cluster, namespace: string)
    requires ProperCluster(c) && All(lib, c, namespace).Returns?
    ensures var r, crs := All(lib, c, namespace).value, Pick(Sought(lib, namespace, ""), c.apps);
      && (r.Err? <==> SomeUnreadable(lib, c, crs))
      && (r.Ok? ==> Shown(lib, c, namespace, crs, r.value))
  {
    MatchingPicks(lib, c.apps, namespace, "");
    SoughtAreAsked(lib, c, namespace, "");
    CollectMeans(lib, c, namespace, [], Pick(Sought(lib, namespace, ""), c.apps));
  }

  /** The part of a list that a page is for: pages count from one, and a page has twenty-five resources when no size is
      given. */
  ghost predicate IsPart(crs: seq<AppResource>, page: Int64, size: Int64, part: seq<AppResource>) {
    var number, length := if page < 1 then 1 else page, if size < 1 then 25 else size;
    IsFrom(crs, (number - 1) * length, length, part)
  }

  /** The part is what the list has from `start` on, `length` at most. */
  ghost predicate IsFrom(crs: seq<AppResource>, start: int, length: int, part: seq<AppResource>) {
    |part| == (if start >= |crs| then 0 else if start + length > |crs| then |crs| - start else length) &&
    forall i :: 0 <= i < |part| ==> 0 <= start + i < |crs| && part[i] == crs[start + i]
  }

  lemma PageOfMeans(crs: seq<AppResource>, start: nat, length: nat)
    ensures IsFrom(crs, start, length, PageOf(crs, start, length))
  {
  }

  lemma SliceMeans(crs: seq<AppResource>, page: Int64, size: Int64)
    requires |crs| <= 0x4000_0000_0000_0000 && Fits(page, size)
    ensures Slice(crs, page, size).Returns? && IsPart(crs, page, size, Slice(crs, page, size).value)
  {
    SliceIsPageIff(crs, page, size);
    PageOfMeans(crs, Before(page, size), PageSize(size));
  }

  lemma PartFrom(crs: seq<AppResource>, page: Int64, size: Int64, part: seq<AppResource>, c: Cluster, namespace: string)
    requires IsPart(crs, page, size, part) && forall cr :: cr in crs ==> Asked(c, namespace, [], cr)
    ensures forall cr :: cr in part ==> Asked(c, namespace, [], cr)
    ensures forall cr :: cr in part ==> Asked(c, namespace, Names(part), cr)
  {
    forall cr | cr in part ensures Asked(c, namespace, [], cr) && Asked(c, namespace, Names(part), cr) {
      var i :| 0 <= i < |part| && part[i] == cr;
      assert Names(part)[i] == cr.name && cr in crs;
    }
  }

  /** The items of a page show the resources of its part that have their three secrets, and the total counts all
      resources sought. */
  ghost predicate HoldsPage(lib: Library, c: Cluster, scope: string, crs: seq<AppResource>, page: Int64, size: Int64,
      r: Result<(seq<App>, nat)>) {
    exists part :: IsPart(crs, page, size, part) &&
      (r.Err? <==> SomeUnreadable(lib, c, part)) &&
      (r.Ok? ==> r.value.1 == |crs| && Shown(lib, c, scope, part, r.value.0))
  }

  /** A page shows the part of the resources sought that its number and size say, and counts all of them. */
  lemma PageHolds(lib: Library, c: Cluster, namespace: string, page: Int64, size: Int64, search: string)
    requires ProperCluster(c) && |c.apps| <= 0x4000_0000_0000_0000 && Fits(page, size)
    requires Page(lib, c, namespace, page, size, search).Returns?
    ensures var crs := Pick(Sought(lib, namespace, search), c.apps);
      HoldsPage(lib, c, namespace, crs, page, size, Page(lib, c, namespace, page, size, search).value)
  {
    var crs := Pick(Sought(lib, namespace, search), c.apps);
    MatchingPicks(lib, c.apps, namespace, search);
    MatchingNoLonger(lib, c.apps, namespace, search);
    SoughtAreAsked(lib, c, namespace, search);
    SliceMeans(crs, page, size);
    var part := Slice(crs, page, size).value;
    PartFrom(crs, page, size, part, c, namespace);
    CollectMeans(lib, c, namespace, Names(part), part);
  }

  /** So does each namespace's page of the bulk listing. */
  lemma BulkHolds(lib: Library, c: Cluster, page: Int64, size: Int64, search: string,
      result: map<string, (seq<App>, nat)>, namespace: string)
    requires ProperCluster(c) && |c.apps| <= 0x4000_0000_0000_0000 && Fits(page, size)
    requires IsBulk(result, lib, c, page, size, search) && namespace in result
    ensures var crs := Pick(Sought(lib, namespace, search), c.apps);
      namespace != "" && crs != [] && HoldsPage(lib, c, "", crs, page, size, Ok(result[namespace]))
  {
    NobodyOutside(lib, c.apps, search);
    var crs := Pick(Sought(lib, namespace, search), c.apps);
    InNamespaceIsMatching(lib, c.apps, namespace, search);
    MatchingPicks(lib, c.apps, namespace, search);
    MatchingNoLonger(lib, c.apps, namespace, search);
    SoughtAreAsked(lib, c, namespace, search);
    SliceMeans(crs, page, size);
    var part := Slice(crs, page, size).value;
    PartFrom(crs, page, size, part, c, namespace);
    CollectMeans(lib, c, "", [], part);
  }

  /** In particular the names and namespaces listed are, in order, those of the resources sought that have their three
      secrets. */
  lemma ShownNames(lib: Library, c: Cluster, namespace: string, crs: seq<AppResource>, apps: seq<App>)
    requires Shown(lib, c, namespace, crs, apps)
    ensures seq(|apps|, i requires 0 <= i < |apps| => (apps[i].name, apps[i].namespace)) == Pick(TitleIfEquipped(c), crs)
  {
    PickTwice(Standing(c), Title(), TitleIfEquipped(c), crs);
    TitlesAre(Pick(Standing(c), crs));
    var standing := Pick(Standing(c), crs);
    assert forall i :: 0 <= i < |apps| ==> Shows(lib, c, namespace, standing[i], apps[i]);
  }

  ghost function TitleIfEquipped(c: Cluster): AppResource -> Option<(string, string)> {
    (cr: AppResource) => if Equipped(c, cr) then Some((cr.name, cr.namespace)) else None
  }

  function Title(): AppResource -> Option<(string, string)> {
    (cr: AppResource) => Some((cr.name, cr.namespace))
  }

  lemma {:induction false} TitlesAre(crs: seq<AppResource>)
    ensures |Pick(Title(), crs)| == |crs|
    ensures forall i :: 0 <= i < |crs| ==> Pick(Title(), crs)[i] == (crs[i].name, crs[i].namespace)
  {
    if crs != [] {
      TitlesAre(crs[..|crs| - 1]);
    }
  }

  // ---- When the listings panic

  /** An ingress of an application in the namespace, or in any, and with one of the names if there are any, has a rule
      without HTTP part. */
  ghost predicate HasHalfRule(c: Cluster, namespace: string, names: seq<string>) {
    exists i, rule :: i in c.ingresses && rule in i.body && rule.http.None? && IsAppIngress(i, namespace, names)
  }

  predicate IsAppIngress(i: Ingress, namespace: string, names: seq<string>) {
    && (namespace == "" || i.namespace == namespace)
    && Get(i.labels, "app.kubernetes.io/component") == "application"
    && (names != [] ==> "app.kubernetes.io/name" in i.labels && i.labels["app.kubernetes.io/name"] in names)
  }

  lemma BrokenIsHalfRule(c: Cluster, namespace: string, names: seq<string>)
    ensures Broken(c, namespace, names) <==> HasHalfRule(c, namespace, names)
  {
    forall i: Ingress ensures Matches(i, Query(namespace, APP_COMPONENTS, names)) <==> IsAppIngress(i, namespace, names) {
      assert |"application"| == 11;
    }
    if i :| i in c.ingresses && Matches(i, Query(namespace, APP_COMPONENTS, names)) && !HasHttp(i.body) {
      var rule :| rule in i.body && rule.http.None?;
    }
  }

  /** The list panics exactly when some ingress in the namespace has such a rule; a page exactly when taking its slice
      panics, or an ingress with the name of one of its applications has such a rule. */
  lemma PanicsMean(lib: Library, c: Cluster, namespace: string, page: Int64, size: Int64, search: string)
    ensures All(lib, c, namespace).Panics? <==> HasHalfRule(c, namespace, [])
    ensures var slice := Slice(Pick(Sought(lib, namespace, search), c.apps), page, size);
      Page(lib, c, namespace, page, size, search).Panics? <==>
      slice.Panics? || (slice.value != [] && HasHalfRule(c, namespace, Names(slice.value)))
  {
    MatchingPicks(lib, c.apps, namespace, search);
    PanicsIff(lib, c, namespace, page, size, search);
    BrokenIsHalfRule(c, namespace, []);
    var slice := Slice(Pick(Sought(lib, namespace, search), c.apps), page, size);
    if slice.Returns? {
      BrokenIsHalfRule(c, namespace, Names(slice.value));
    }
  }

  /** The bulk listing panics exactly when any ingress has such a rule, or slicing some namespace's resources does. */
  lemma BulkPanicsMean(lib: Library, c: Cluster, page: Int64, size: Int64, search: string)
    requires ProperCluster(c)
    ensures BulkPanics(lib, c, page, size, search) <==>
      HasHalfRule(c, "", []) || exists ns :: ns != "" && SliceBreaks(lib, c, ns, page, size, search)
  {
    BrokenMeans(c, "", []);
    BrokenIsHalfRule(c, "", []);
    NobodyOutside(lib, c.apps, search);
    forall ns ensures ns != "" && SliceBreaks(lib, c, ns, page, size, search) <==>
      InNamespace(lib, c.apps, ns, search) != [] && BulkPage(lib, c, ns, page, size, search).Panics?
    {
      if ns != "" {
        InNamespaceIsMatching(lib, c.apps, ns, search);
        MatchingPicks(lib, c.apps, ns, search);
      }
    }
  }

  ghost predicate SliceBreaks(lib: Library, c: Cluster, ns: string, page: Int64, size: Int64, search: string) {
    var crs := Pick(Sought(lib, ns, search), c.apps);
    crs != [] && Slice(crs, page, size).Panics?
  }
}
