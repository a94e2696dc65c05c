/**
 The choice of the git configuration for a repository URL (internal/bridge/git/git.go).

 url.Parse is a parameter.
 */
module GitConfig {
  import opened Sorting
  import opened Strings
  import opened Wrappers

  /** `rest` stands for credentials and settings, which play no part in the choice. */
  datatype Configuration = Configuration(id: string, url: string, userOrg: string, repository: string, rest: string)

  datatype ParsedURL = ParsedURL(scheme: string, host: string, path: string)

  type URLParser = string -> Result<ParsedURL>

  datatype RepoInfo = RepoInfo(url: string, userOrg: string, repository: string)

  // ---- Sorting by identifier

  function ID(c: Configuration): string {
    c.id
  }

  ghost predicate SortedByID(configs: seq<Configuration>) {
    forall i, j :: 0 <= i < j < |configs| ==> !Below(configs[j].id, configs[i].id)
  }

  /** The sorting of NewManager, in place.  sort.Slice promises no order among equal identifiers, so neither does
      this. */
  method SortConfigurations(configs: array<Configuration>)
    modifies configs
    ensures SortedByID(configs[..]) && multiset(configs[..]) == multiset(old(configs[..]))
  {
    ghost var sorted := SortBy(ID, configs[..]);
    SortBySorted(ID, configs[..]);
    SortArrayBy(ID, configs);
    forall i, j | 0 <= i < j < |sorted| ensures !Below(sorted[j].id, sorted[i].id) {
      assert !Below(ID(sorted[j]), ID(sorted[i]));
    }
  }

  // ---- Keys

  /** The key a configuration is filed under. */
  function Key(c: Configuration): string {
    if c.repository != "" then c.url + "/" + c.userOrg + "/" + c.repository
    else if c.userOrg != "" then c.url + "/" + c.userOrg
    else c.url
  }

  function WithKey(configs: seq<Configuration>, key: string): seq<Configuration> {
    if configs == [] then []
    else
      var last := configs[|configs| - 1];
      var front := WithKey(configs[..|configs| - 1], key);
      if Key(last) == key then front + [last] else front
  }

  function First(configs: seq<Configuration>): Option<Configuration> {
    if configs == [] then None else Some(configs[0])
  }

  function InfoOf(u: ParsedURL): RepoInfo {
    var parts := Split(TrimPrefix(u.path, "/"), "/");
    RepoInfo(u.scheme + "://" + u.host, parts[0], if |parts| > 1 then parts[1] else "")
  }

  /** The keys to look for, the most specific first. */
  function Wanted(info: RepoInfo): seq<string> {
    [info.url + "/" + info.userOrg + "/" + info.repository, info.url + "/" + info.userOrg, info.url]
  }

  /** A linear scan: the first configuration with the first key that any configuration has. */
  function Scan(configs: seq<Configuration>, keys: seq<string>): Option<Configuration> {
    if keys == [] then None
    else if First(WithKey(configs, keys[0])).Some? then First(WithKey(configs, keys[0]))
    else Scan(configs, keys[1..])
  }

  // ---- The lookup as the source performs it

  method NewGitRepoInfoFromURL(parse: URLParser, gitURL: string) returns (info: Result<RepoInfo>)
    ensures info == match parse(gitURL) case Err => Err case Ok(u) => Ok(InfoOf(u))
  {
    match parse(gitURL)
    case Err => info := Err;
    case Ok(u) =>
      var parts := Split(TrimPrefix(u.path, "/"), "/");
      var r := RepoInfo(u.scheme + "://" + u.host, parts[0], "");
      if |parts| > 1 {
        r := r.(repository := parts[1]);
      }
      info := Ok(r);
  }

  /** Every key of the map leads to the configurations with that key, in order. */
  ghost predicate Files(available: map<string, seq<Configuration>>, configs: seq<Configuration>) {
    forall key :: if key in available then WithKey(configs, key) == available[key] != [] else WithKey(configs, key) == []
  }

  lemma FilesNext(available: map<string, seq<Configuration>>, configs: seq<Configuration>, i: nat)
    requires i < |configs| && Files(available, configs[..i])
    ensures var c := configs[i];
      Files(available[Key(c) := (if Key(c) in available then available[Key(c)] else []) + [c]], configs[..i + 1])
  {
    assert configs[..i + 1][..i] == configs[..i];
  }

  method KeyFor(c: Configuration) returns (key: string)
    ensures key == Key(c)
  {
    key := c.url;
    if c.userOrg != "" {
      key := c.url + "/" + c.userOrg;
    }
    if c.repository != "" {
      key := c.url + "/" + c.userOrg + "/" + c.repository;
    }
  }

  method FileByKey(configs: seq<Configuration>) returns (available: map<string, seq<Configuration>>)
    ensures Files(available, configs)
  {
    available := map[];
    for i := 0 to |configs|
      invariant Files(available, configs[..i])
    {
      var key := KeyFor(configs[i]);
      var forKey := if key in available then available[key] else [];
      FilesNext(available, configs, i);
      available := available[key := forKey + [configs[i]]];
    }
    assert configs[..|configs|] == configs;
  }

  method FindConfiguration(parse: URLParser, configs: seq<Configuration>,
      gitURL: string) returns (r: Result<Option<Configuration>>)
    ensures r == match parse(gitURL) case Err => Err case Ok(u) => Ok(Scan(configs, Wanted(InfoOf(u))))
  {
    var parsed := NewGitRepoInfoFromURL(parse, gitURL);
    if parsed.Err? {
      return Err;
    }
    var info := parsed.value;
    var available := FileByKey(configs);
    ScanSteps(configs, info);
    var toMatch := info.url + "/" + info.userOrg + "/" + info.repository;
    if toMatch in available {
      return Ok(Some(available[toMatch][0]));
    }
    toMatch := info.url + "/" + info.userOrg;
    if toMatch in available {
      return Ok(Some(available[toMatch][0]));
    }
    if info.url in available {
      return Ok(Some(available[info.url][0]));
    }
    return Ok(None);
  }

  lemma ScanSteps(configs: seq<Configuration>, info: RepoInfo)
    ensures var k := Wanted(info);
      var f0, f1, f2 := First(WithKey(configs, k[0])), First(WithKey(configs, k[1])), First(WithKey(configs, k[2]));
      Scan(configs, k) == if f0.Some? then f0 else if f1.Some? then f1 else f2
  {
    var k := Wanted(info);
    assert Scan(configs, []) == None;
    assert [k[2]][1..] == [] && Scan(configs, [k[2]]) == First(WithKey(configs, k[2]));
    assert k[1..] == [k[1], k[2]] && [k[1], k[2]][1..] == [k[2]];
  }

  // ---- What the keys mean

  function Slashes(s: string): nat {
    if s == "" then 0 else (if s[0] == '/' then 1 else 0) + Slashes(s[1..])
  }

  lemma {:induction false} SlashesConcat(a: string, b: string)
    ensures Slashes(a + b) == Slashes(a) + Slashes(b)
  {
    if a == "" {
      assert a + b == b;
    } else {
      SlashesConcat(a[1..], b);
      assert (a + b)[1..] == a[1..] + b;
    }
  }

  lemma {:induction false} NoSlashes(s: string)
    ensures Slashes(s) == 0 <==> '/' !in s
  {
    if s != "" {
      NoSlashes(s[1..]);
      assert s == [s[0]] + s[1..];
    }
  }

  lemma SlashesJoined(a: string, b: string)
    requires '/' !in b
    ensures Slashes(a + "/" + b) == Slashes(a) + 1
  {
    SlashesConcat(a + "/", b);
    SlashesConcat(a, "/");
    NoSlashes(b);
    assert Slashes("/") == 1 + Slashes("/"[1..]);
  }

  /** What comes after the last slash is determined. */
  lemma LastPartDetermined(a: string, x: string, b: string, y: string)
    requires '/' !in x && '/' !in y && a + "/" + x == b + "/" + y
    ensures a == b && x == y
  {
    var s := a + "/" + x;
    assert s[|a|] == '/' && s[|b|] == '/';
    forall i | |a| < i < |s| ensures s[i] != '/' {
      assert s[i] == x[i - |a| - 1];
    }
    forall i | |b| < i < |s| ensures s[i] != '/' {
      assert s[i] == y[i - |b| - 1];
    }
    assert s[..|a|] == a && s[..|b|] == b && s[|a| + 1..] == x && s[|b| + 1..] == y;
  }

  /** The instance URL is of the form scheme://host, and the other parts are free of slashes. */
  ghost predicate Plain(c: Configuration) {
    Slashes(c.url) == 2 && '/' !in c.userOrg && '/' !in c.repository
  }

  /** How specific the configuration is for the repository: 0 when it does not apply. */
  function Specificity(c: Configuration, info: RepoInfo): nat {
    if c.url != info.url then 0
    else if c.repository != "" then if c.userOrg == info.userOrg && c.repository == info.repository then 3 else 0
    else if c.userOrg != "" then if c.userOrg == info.userOrg then 2 else 0
    else 1
  }

  lemma InfoIsPlain(u: ParsedURL)
    requires '/' !in u.scheme && '/' !in u.host
    ensures Slashes(InfoOf(u).url) == 2 && '/' !in InfoOf(u).userOrg && '/' !in InfoOf(u).repository
  {
    JoinOfSplit(TrimPrefix(u.path, "/"), '/');
    var parts := Split(TrimPrefix(u.path, "/"), "/");
    assert parts[0] in parts && (|parts| > 1 ==> parts[1] in parts);
    var url := u.scheme + "://" + u.host;
    assert url == (u.scheme + ":") + "/" + "" + "/" + u.host;
    SlashesJoined(u.scheme + ":" + "/" + "", u.host);
    SlashesJoined(u.scheme + ":", "");
    NoSlashes(u.scheme + ":");
  }

  /** The first two names of a path, with or without a slash in front, are organisation and repository; what comes
      behind them is ignored. */
  lemma InfoMeans(scheme: string, host: string, names: seq<string>)
    requires names != [] && forall n :: n in names ==> '/' !in n
    ensures var info := RepoInfo(scheme + "://" + host, names[0], if |names| > 1 then names[1] else "");
      && InfoOf(ParsedURL(scheme, host, "/" + Join(names, "/"))) == info
      && (names[0] != "" ==> InfoOf(ParsedURL(scheme, host, Join(names, "/"))) == info)
  {
    SplitOfJoin(names, '/');
    PrefixMeans(Join(names, "/"), "/");
    if names[0] != "" {
      assert names[0] in names && Join(names, "/")[0] == names[0][0];
      assert names[0][0] in names[0];
    }
  }

  /** So for the path of a repository, and for that of an organisation. */
  lemma InfoOfRepository(scheme: string, host: string, org: string, repo: string)
    requires '/' !in org && '/' !in repo
    ensures InfoOf(ParsedURL(scheme, host, "/" + org + "/" + repo)) == RepoInfo(scheme + "://" + host, org, repo)
    ensures InfoOf(ParsedURL(scheme, host, "/" + org)) == RepoInfo(scheme + "://" + host, org, "")
  {
    InfoMeans(scheme, host, [org, repo]);
    InfoMeans(scheme, host, [org]);
    assert "/" + Join([org, repo], "/") == "/" + org + "/" + repo;
  }

  lemma SlashesOfKey(c: Configuration)
    requires Plain(c)
    ensures Slashes(Key(c)) == if c.repository != "" then 4 else if c.userOrg != "" then 3 else 2
  {
    SlashesJoined(c.url, c.userOrg);
    SlashesJoined(c.url + "/" + c.userOrg, c.repository);
  }

  /** A plain configuration has the wanted key number 3 - n exactly when its specificity is n. */
  lemma KeyMeansSpecificity(c: Configuration, info: RepoInfo)
    requires Plain(c) && Slashes(info.url) == 2 && '/' !in info.userOrg && '/' !in info.repository
    ensures Key(c) == Wanted(info)[0] <==> Specificity(c, info) == 3
    ensures Key(c) == Wanted(info)[1] <==> Specificity(c, info) == 2
    ensures Key(c) == Wanted(info)[2] <==> Specificity(c, info) == 1
  {
    SlashesOfKey(c);
    var w := Wanted(info);
    SlashesJoined(info.url, info.userOrg);
    SlashesJoined(info.url + "/" + info.userOrg, info.repository);
    if Key(c) == w[0] {
      LastPartDetermined(c.url + "/" + c.userOrg, c.repository, info.url + "/" + info.userOrg, info.repository);
      LastPartDetermined(c.url, c.userOrg, info.url, info.userOrg);
    }
    if Key(c) == w[1] {
      LastPartDetermined(c.url, c.userOrg, info.url, info.userOrg);
    }
  }

  // ---- The most specific configuration with the smallest identifier

  lemma {:induction false} FirstWithKey(configs: seq<Configuration>, key: string)
    requires SortedByID(configs)
    ensures match First(WithKey(configs, key))
      case None => forall c :: c in configs ==> Key(c) != key
      case Some(f) => f in configs && Key(f) == key && forall c :: c in configs && Key(c) == key ==> !Below(c.id, f.id)
  {
    if configs != [] {
      var n, last := |configs| - 1, configs[|configs| - 1];
      FirstWithKey(configs[..n], key);
      assert configs == configs[..n] + [last];
      BelowIrreflexive(last.id);
      if First(WithKey(configs[..n], key)).Some? {
        var f := First(WithKey(configs[..n], key)).value;
        var k :| 0 <= k < n && configs[k] == f;
        assert !Below(configs[n].id, configs[k].id);
      }
    }
  }

  /** Nothing in the list is more specific than the configuration found, and nothing as specific has a smaller
      identifier; nothing is found only when nothing applies. */
  ghost predicate IsMostSpecific(configs: seq<Configuration>, info: RepoInfo, found: Option<Configuration>) {
    match found
    case None => forall c :: c in configs ==> Specificity(c, info) == 0
    case Some(f) =>
      f in configs && Specificity(f, info) > 0 &&
      forall c :: c in configs ==>
        Specificity(c, info) < Specificity(f, info) || (Specificity(c, info) == Specificity(f, info) && !Below(c.id, f.id))
  }

  /** On the sorted list of plain configurations the lookup finds the most specific one. */
  lemma ScanIsMostSpecific(configs: seq<Configuration>, u: ParsedURL)
    requires SortedByID(configs) && '/' !in u.scheme && '/' !in u.host
    requires forall c :: c in configs ==> Plain(c)
    ensures IsMostSpecific(configs, InfoOf(u), Scan(configs, Wanted(InfoOf(u))))
  {
    var info := InfoOf(u);
    var w := Wanted(info);
    InfoIsPlain(u);
    ScanSteps(configs, info);
    FirstWithKey(configs, w[0]);
    FirstWithKey(configs, w[1]);
    FirstWithKey(configs, w[2]);
    forall c | c in configs ensures forall k :: 0 <= k < 3 ==> (Key(c) == w[k] <==> Specificity(c, info) == 3 - k) {
      KeyMeansSpecificity(c, info);
    }
  }

  /** In particular for the URL of a repository. */
  lemma RepositoryFindsMostSpecific(configs: seq<Configuration>, scheme: string, host: string, org: string, repo: string)
    requires SortedByID(configs) && (forall c :: c in configs ==> Plain(c))
    requires '/' !in scheme && '/' !in host && '/' !in org && '/' !in repo
    ensures var u := ParsedURL(scheme, host, "/" + org + "/" + repo);
      IsMostSpecific(configs, RepoInfo(scheme + "://" + host, org, repo), Scan(configs, Wanted(InfoOf(u))))
  {
    InfoOfRepository(scheme, host, org, repo);
    ScanIsMostSpecific(configs, ParsedURL(scheme, host, "/" + org + "/" + repo));
  }

  /** The result does not depend on the order in which the cluster lists the configurations, if their identifiers
      differ. */
  lemma OrderDoesNotMatter(a: seq<Configuration>, b: seq<Configuration>, keys: seq<string>)
    requires SortedByID(a) && SortedByID(b) && multiset(a) == multiset(b)
    requires forall c, d :: c in a && d in a && c.id == d.id ==> c == d
    ensures Scan(a, keys) == Scan(b, keys)
  {
    assert forall c :: c in a <==> c in multiset(a);
    assert forall c :: c in b <==> c in multiset(b);
    forall key ensures First(WithKey(a, key)) == First(WithKey(b, key)) {
      FirstWithKey(a, key);
      FirstWithKey(b, key);
      var x, y := First(WithKey(a, key)), First(WithKey(b, key));
      if x.Some? && y.Some? {
        BelowTotal(x.value.id, y.value.id);
      }
    }
    ScanByFirst(a, b, keys);
  }

  lemma {:induction false} ScanByFirst(a: seq<Configuration>, b: seq<Configuration>, keys: seq<string>)
    requires forall key :: First(WithKey(a, key)) == First(WithKey(b, key))
    ensures Scan(a, keys) == Scan(b, keys)
  {
    if keys != [] {
      ScanByFirst(a, b, keys[1..]);
    }
  }
}
