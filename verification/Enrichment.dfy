/**
 What is loaded beside the application resources to list applications: secrets, pods, ingresses and staging jobs,
 gathered into a map by application, and the fusion of it all into an application
 (internal/application/application.go, workload.go, ingresses.go).

 A cluster is one snapshot: calls to it succeed.  What the source reads from an application resource without looking
 at anything else is given with it, as its core.
 */
module Enrichment {
  import opened AppKeys
  import opened SecretData
  import opened Strings
  import opened Wrappers

  /** The namespace staging jobs run in. */
  const JOB_NAMESPACE := "epinio"

  datatype Object<T> = Object(namespace: string, labels: map<string, string>, body: T)

  datatype AppResource = AppResource(name: string, namespace: string, core: Result<string>)

  datatype Condition = Complete | Failure | Other

  datatype JobCondition = JobCondition(kind: Condition, isTrue: bool)

  /** A rule of an ingress; the paths of its HTTP part, which can be absent. */
  datatype Rule = Rule(host: string, http: Option<seq<string>>)

  type AppSecret = Object<Data>
  type Pod = Object<string>
  type Ingress = Object<seq<Rule>>
  type Job = Object<seq<JobCondition>>

  datatype Cluster = Cluster(apps: seq<AppResource>, secrets: seq<AppSecret>, pods: seq<Pod>, ingresses: seq<Ingress>,
      jobs: seq<Job>)

  datatype Staging = NoStaging | Active | Done | Failed

  datatype AppData = AppData(
    scaling: Option<AppSecret>, bound: Option<AppSecret>, env: Option<AppSecret>, services: Option<AppSecret>,
    routes: seq<string>, pods: seq<Pod>, staging: Staging)

  const NOTHING := AppData(None, None, None, None, [], [], NoStaging)

  type Auxiliary = map<string, AppData>

  /** The data under a key.  A missing entry and an empty one make no difference to the source. */
  function At(aux: Auxiliary, key: string): AppData {
    if key in aux then aux[key] else NOTHING
  }

  // ---- Selectors

  /** A namespace, or all when empty; labels required; and the application names required, or any when empty. */
  datatype Query = Query(namespace: string, required: map<string, string>, names: seq<string>)

  predicate Matches<T>(o: Object<T>, query: Query) {
    && (query.namespace == "" || o.namespace == query.namespace)
    && (forall k :: k in query.required ==> k in o.labels && o.labels[k] == query.required[k])
    && (query.names != [] ==> NAME_LABEL in o.labels && o.labels[NAME_LABEL] in query.names)
  }

  function Select<T>(items: seq<Object<T>>, query: Query): seq<Object<T>> {
    if items == [] then []
    else
      var last := items[|items| - 1];
      var front := Select(items[..|items| - 1], query);
      if Matches(last, query) then front + [last] else front
  }

  // ---- Keys: secrets go by their namespace, everything else by its part-of label

  datatype Scope = ByNamespace | ByPartOf

  function ScopeOf<T>(o: Object<T>, scope: Scope): string {
    if scope.ByNamespace? then o.namespace else Get(o.labels, PART_OF_LABEL)
  }

  function KeyOf<T>(o: Object<T>, scope: Scope): string {
    Encode(Get(o.labels, NAME_LABEL), ScopeOf(o, scope))
  }

  /** The objects under a key, in order. */
  function Under<T>(items: seq<Object<T>>, scope: Scope, key: string): seq<Object<T>> {
    if items == [] then []
    else
      var last := items[|items| - 1];
      var front := Under(items[..|items| - 1], scope, key);
      if KeyOf(last, scope) == key then front + [last] else front
  }

  // ---- What each kind of object contributes under a key

  /** What one secret adds, depending on its area. */
  function Assign(d: AppData, s: AppSecret): AppData {
    if AREA_LABEL !in s.labels || NAME_LABEL !in s.labels then d
    else if s.labels[AREA_LABEL] == "scaling" then d.(scaling := Some(s))
    else if s.labels[AREA_LABEL] == "configuration" then d.(bound := Some(s))
    else if s.labels[AREA_LABEL] == "environment" then d.(env := Some(s))
    else if s.labels[AREA_LABEL] == "service" then d.(services := Some(s))
    else d
  }

  function AssignAll(secrets: seq<AppSecret>): AppData {
    if secrets == [] then NOTHING else Assign(AssignAll(secrets[..|secrets| - 1]), secrets[|secrets| - 1])
  }

  /** A route as text. */
  function RouteText(host: string, path: string): string {
    TrimSuffix(host + path, "/")
  }

  function RuleRoutes(rule: Rule): seq<string> {
    if rule.http.None? then []
    else
      var paths := rule.http.value;
      seq(|paths|, i requires 0 <= i < |paths| => RouteText(rule.host, paths[i]))
  }

  function IngressRoutes(rules: seq<Rule>): seq<string> {
    if rules == [] then [] else IngressRoutes(rules[..|rules| - 1]) + RuleRoutes(rules[|rules| - 1])
  }

  function RoutesOf(ingresses: seq<Ingress>): seq<string> {
    if ingresses == [] then []
    else RoutesOf(ingresses[..|ingresses| - 1]) + IngressRoutes(ingresses[|ingresses| - 1].body)
  }

  function JobStaging(conditions: seq<JobCondition>): Staging {
    if conditions == [] then Active
    else if conditions[0].isTrue && conditions[0].kind.Failure? then Failed
    else if conditions[0].isTrue && conditions[0].kind.Complete? then Done
    else JobStaging(conditions[1..])
  }

  /** The last job counts. */
  function StagingOf(jobs: seq<Job>): Staging {
    if jobs == [] then NoStaging else JobStaging(jobs[|jobs| - 1].body)
  }

  const EPINIO_SECRETS := map[MANAGED_BY_LABEL := "epinio"]
  const APP_COMPONENTS := map[COMPONENT_LABEL := "application"]

  function SecretsIn(c: Cluster, namespace: string): seq<AppSecret> {
    Select(c.secrets, Query(namespace, EPINIO_SECRETS, []))
  }

  function PodsIn(c: Cluster, namespace: string, names: seq<string>): seq<Pod> {
    Select(c.pods, Query(namespace, APP_COMPONENTS, names))
  }

  function IngressesIn(c: Cluster, namespace: string, names: seq<string>): seq<Ingress> {
    Select(c.ingresses, Query(namespace, APP_COMPONENTS, names))
  }

  function JobsIn(c: Cluster, namespace: string, names: seq<string>): seq<Job> {
    Select(c.jobs, Query(JOB_NAMESPACE, if namespace == "" then map[] else map[PART_OF_LABEL := namespace], names))
  }

  /** Every rule has its HTTP part. */
  predicate HasHttp(rules: seq<Rule>) {
    forall rule :: rule in rules ==> rule.http.Some?
  }

  predicate AllHttp(ingresses: seq<Ingress>) {
    forall i :: i in ingresses ==> HasHttp(i.body)
  }

  /** What is loaded for a key. */
  function DataAt(c: Cluster, namespace: string, names: seq<string>, key: string): AppData {
    AssignAll(Under(SecretsIn(c, namespace), ByNamespace, key)).(
      pods := Under(PodsIn(c, namespace, names), ByPartOf, key),
      routes := RoutesOf(Under(IngressesIn(c, namespace, names), ByPartOf, key)),
      staging := StagingOf(Under(JobsIn(c, namespace, names), ByPartOf, key)))
  }

  // ---- The loading as the source performs it

  lemma UnderNext<T>(items: seq<Object<T>>, i: nat, scope: Scope, key: string)
    requires i < |items|
    ensures Under(items[..i + 1], scope, key) ==
      if KeyOf(items[i], scope) == key then Under(items[..i], scope, key) + [items[i]] else Under(items[..i], scope, key)
  {
    assert items[..i + 1][..i] == items[..i];
  }

  ghost predicate HasSecrets(aux: Auxiliary, secrets: seq<AppSecret>) {
    forall key :: At(aux, key) == AssignAll(Under(secrets, ByNamespace, key))
  }

  lemma HasSecretsNext(aux: Auxiliary, secrets: seq<AppSecret>, i: nat, key: string)
    requires i < |secrets| && HasSecrets(aux, secrets[..i]) && key == KeyOf(secrets[i], ByNamespace)
    ensures HasSecrets(aux[key := Assign(At(aux, key), secrets[i])], secrets[..i + 1])
    ensures AREA_LABEL !in secrets[i].labels || NAME_LABEL !in secrets[i].labels ==> HasSecrets(aux, secrets[..i + 1])
  {
    var next := aux[key := Assign(At(aux, key), secrets[i])];
    forall k ensures At(next, k) == AssignAll(Under(secrets[..i + 1], ByNamespace, k)) {
      UnderNext(secrets, i, ByNamespace, k);
      var front := Under(secrets[..i], ByNamespace, k);
      assert (front + [secrets[i]])[..|front|] == front;
    }
  }

  method MakeAuxiliaryMap(secrets: seq<AppSecret>) returns (aux: Auxiliary)
    ensures HasSecrets(aux, secrets)
  {
    aux := map[];
    for i := 0 to |secrets|
      invariant HasSecrets(aux, secrets[..i])
    {
      var s := secrets[i];
      HasSecretsNext(aux, secrets, i, KeyOf(s, ByNamespace));
      if AREA_LABEL in s.labels && NAME_LABEL in s.labels {
        var key := Encode(s.labels[NAME_LABEL], s.namespace);
        var data := At(aux, key);
        match s.labels[AREA_LABEL] {
          case "scaling" => data := data.(scaling := Some(s));
          case "configuration" => data := data.(bound := Some(s));
          case "environment" => data := data.(env := Some(s));
          case "service" => data := data.(services := Some(s));
          case _ =>
        }
        aux := aux[key := data];
      }
    }
    assert secrets[..|secrets|] == secrets;
  }

  ghost predicate HasPods(r: Auxiliary, aux: Auxiliary, pods: seq<Pod>) {
    forall key :: At(r, key) == At(aux, key).(pods := At(aux, key).pods + Under(pods, ByPartOf, key))
  }

  lemma HasPodsNext(r: Auxiliary, aux: Auxiliary, pods: seq<Pod>, i: nat, key: string)
    requires i < |pods| && HasPods(r, aux, pods[..i]) && key == KeyOf(pods[i], ByPartOf)
    ensures HasPods(r[key := At(r, key).(pods := At(r, key).pods + [pods[i]])], aux, pods[..i + 1])
  {
    forall k ensures Under(pods[..i + 1], ByPartOf, k) ==
      if k == key then Under(pods[..i], ByPartOf, k) + [pods[i]] else Under(pods[..i], ByPartOf, k)
    {
      UnderNext(pods, i, ByPartOf, k);
    }
  }

  method AddApplicationPods(aux: Auxiliary, pods: seq<Pod>) returns (r: Auxiliary)
    ensures HasPods(r, aux, pods)
  {
    r := aux;
    for i := 0 to |pods|
      invariant HasPods(r, aux, pods[..i])
    {
      var key := Encode(Get(pods[i].labels, NAME_LABEL), Get(pods[i].labels, PART_OF_LABEL));
      HasPodsNext(r, aux, pods, i, key);
      var data := At(r, key);
      r := r[key := data.(pods := data.pods + [pods[i]])];
    }
    assert pods[..|pods|] == pods;
  }

  ghost predicate RoutesAdded(r: Auxiliary, aux: Auxiliary, ingresses: seq<Ingress>, key: string) {
    At(r, key) == At(aux, key).(routes := At(aux, key).routes + RoutesOf(Under(ingresses, ByPartOf, key)))
  }

  ghost predicate HasRoutes(r: Auxiliary, aux: Auxiliary, ingresses: seq<Ingress>) {
    forall key :: RoutesAdded(r, aux, ingresses, key)
  }

  lemma RoutesNext(ingresses: seq<Ingress>, i: nat, key: string)
    requires i < |ingresses|
    ensures var before := RoutesOf(Under(ingresses[..i], ByPartOf, key));
      RoutesOf(Under(ingresses[..i + 1], ByPartOf, key)) ==
      if KeyOf(ingresses[i], ByPartOf) == key then before + IngressRoutes(ingresses[i].body) else before
  {
    UnderNext(ingresses, i, ByPartOf, key);
    var front := Under(ingresses[..i], ByPartOf, key);
    assert (front + [ingresses[i]])[..|front|] == front;
  }

  function WithRoutes(aux: Auxiliary, key: string, routes: seq<string>): Auxiliary {
    aux[key := At(aux, key).(routes := At(aux, key).routes + routes)]
  }

  lemma RoutesPut(r: Auxiliary, aux: Auxiliary, at: string, added: seq<string>, key: string, before: seq<string>)
    requires At(r, key) == At(aux, key).(routes := At(aux, key).routes + before)
    ensures At(WithRoutes(r, at, added), key) ==
      At(aux, key).(routes := At(aux, key).routes + if at == key then before + added else before)
  {
    assert At(aux, key).routes + (before + added) == (At(aux, key).routes + before) + added;
  }

  lemma RoutesAddedNext(r: Auxiliary, aux: Auxiliary, ingresses: seq<Ingress>, i: nat, key: string)
    requires i < |ingresses| && RoutesAdded(r, aux, ingresses[..i], key)
    ensures var next := WithRoutes(r, KeyOf(ingresses[i], ByPartOf), IngressRoutes(ingresses[i].body));
      RoutesAdded(next, aux, ingresses[..i + 1], key)
  {
    RoutesNext(ingresses, i, key);
    RoutesPut(r, aux, KeyOf(ingresses[i], ByPartOf), IngressRoutes(ingresses[i].body), key,
              RoutesOf(Under(ingresses[..i], ByPartOf, key)));
  }

  /** The loop over a rule's paths. */
  method ReadPaths(host: string, paths: seq<string>) returns (routes: seq<string>)
    ensures routes == RuleRoutes(Rule(host, Some(paths)))
  {
    routes := [];
    for i := 0 to |paths|
      invariant routes == RuleRoutes(Rule(host, Some(paths)))[..i]
    {
      routes := routes + [RouteText(host, paths[i])];
    }
  }

  lemma IngressRoutesNext(rules: seq<Rule>, i: nat)
    requires i < |rules|
    ensures HasHttp(rules[..i + 1]) <==> HasHttp(rules[..i]) && rules[i].http.Some?
    ensures IngressRoutes(rules[..i + 1]) == IngressRoutes(rules[..i]) + RuleRoutes(rules[i])
  {
    assert rules[..i + 1] == rules[..i] + [rules[i]];
    assert rules[..i + 1][..i] == rules[..i];
  }

  /** FromIngress, with the routes written as text.  It never reports an error, but panics on a rule without HTTP
      part. */
  method FromIngress(rules: seq<Rule>) returns (routes: Attempt<seq<string>>)
    ensures routes == if HasHttp(rules) then Returns(IngressRoutes(rules)) else Panics
    ensures routes.Panics? <==> exists rule :: rule in rules && rule.http.None?
  {
    var found := [];
    for i := 0 to |rules|
      invariant HasHttp(rules[..i]) && found == IngressRoutes(rules[..i])
    {
      IngressRoutesNext(rules, i);
      if rules[i].http.None? {
        assert rules[i] in rules;
        return Panics;
      }
      var read := ReadPaths(rules[i].host, rules[i].http.value);
      found := found + read;
    }
    assert rules[..|rules|] == rules;
    return Returns(found);
  }

  method AddActualApplicationRoutes(aux: Auxiliary, ingresses: seq<Ingress>) returns (r: Attempt<Auxiliary>)
    ensures r.Returns? <==> AllHttp(ingresses)
    ensures r.Returns? ==> HasRoutes(r.value, aux, ingresses)
  {
    var m := aux;
    for i := 0 to |ingresses|
      invariant AllHttp(ingresses[..i])
      invariant HasRoutes(m, aux, ingresses[..i])
    {
      var routes := FromIngress(ingresses[i].body);
      if routes.Panics? {
        assert ingresses[i] in ingresses;
        return Panics;
      }
      var key := Encode(Get(ingresses[i].labels, NAME_LABEL), Get(ingresses[i].labels, PART_OF_LABEL));
      ghost var next, upTo := WithRoutes(m, key, routes.value), ingresses[..i + 1];
      forall k ensures RoutesAdded(next, aux, upTo, k) {
        RoutesAddedNext(m, aux, ingresses, i, k);
      }
      var data := At(m, key);
      m := m[key := data.(routes := data.routes + routes.value)];
    }
    assert ingresses[..|ingresses|] == ingresses;
    return Returns(m);
  }

  method JobStatus(conditions: seq<JobCondition>) returns (status: Staging)
    ensures status == JobStaging(conditions)
  {
    for i := 0 to |conditions|
      invariant JobStaging(conditions) == JobStaging(conditions[i..])
    {
      if conditions[i].isTrue && conditions[i].kind.Failure? {
        return Failed;
      }
      if conditions[i].isTrue && conditions[i].kind.Complete? {
        return Done;
      }
    }
    return Active;
  }

  method StagingStatus(jobs: seq<Job>) returns (statuses: map<string, Staging>)
    ensures forall key :: key in statuses <==> Under(jobs, ByPartOf, key) != []
    ensures forall key :: key in statuses ==> statuses[key] == StagingOf(Under(jobs, ByPartOf, key))
  {
    statuses := map[];
    for i := 0 to |jobs|
      invariant forall key :: key in statuses <==> Under(jobs[..i], ByPartOf, key) != []
      invariant forall key :: key in statuses ==> statuses[key] == StagingOf(Under(jobs[..i], ByPartOf, key))
    {
      forall key { UnderNext(jobs, i, ByPartOf, key); }
      var status := JobStatus(jobs[i].body);
      statuses := statuses[Encode(Get(jobs[i].labels, NAME_LABEL), Get(jobs[i].labels, PART_OF_LABEL)) := status];
    }
    assert jobs[..|jobs|] == jobs;
  }

  method UpdateWithStagingStatus(aux: Auxiliary, statuses: map<string, Staging>) returns (r: Auxiliary)
    ensures forall key :: At(r, key) == if key in statuses then At(aux, key).(staging := statuses[key]) else At(aux, key)
  {
    r := aux;
    var rest := statuses.Keys;
    while rest != {}
      invariant rest <= statuses.Keys
      invariant forall key ::
        At(r, key) == if key in statuses && key !in rest then At(aux, key).(staging := statuses[key]) else At(aux, key)
    {
      var key :| key in rest;
      r := r[key := At(r, key).(staging := statuses[key])];
      rest := rest - {key};
    }
  }

  method LoadEnrichmentData(c: Cluster, namespace: string, names: seq<string>) returns (r: Attempt<Auxiliary>)
    ensures r.Returns? <==> AllHttp(IngressesIn(c, namespace, names))
    ensures r.Returns? ==> forall key :: At(r.value, key) == DataAt(c, namespace, names, key)
  {
    var aux := MakeAuxiliaryMap(SecretsIn(c, namespace));
    var podded := AddApplicationPods(aux, PodsIn(c, namespace, names));
    var routed := AddActualApplicationRoutes(podded, IngressesIn(c, namespace, names));
    if routed.Panics? {
      return Panics;
    }
    var statuses := StagingStatus(JobsIn(c, namespace, names));
    aux := UpdateWithStagingStatus(routed.value, statuses);
    forall key ensures At(aux, key) == DataAt(c, namespace, names, key) {
      SecretsOnly(Under(SecretsIn(c, namespace), ByNamespace, key));
      assert RoutesAdded(routed.value, podded, IngressesIn(c, namespace, names), key);
    }
    return Returns(aux);
  }

  lemma {:induction false} SecretsOnly(secrets: seq<AppSecret>)
    ensures AssignAll(secrets).pods == [] && AssignAll(secrets).routes == [] && AssignAll(secrets).staging == NoStaging
  {
    if secrets != [] {
      SecretsOnly(secrets[..|secrets| - 1]);
    }
  }
}
