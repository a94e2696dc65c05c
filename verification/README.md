# Verified models of Epinio's core

Epinio keeps its state in Kubernetes objects that several API servers and commands change at the same time, and
answers its clients from indexes and lists derived from them. This project models the parts of it where that is
delicate, and proves what they promise. Dafny 4.11 checks everything:

    dafny verify dfyconfig.toml

| File | Models |
|---|---|
| `SecretData.dfy`, `OptimisticUpdate.dfy` | the updaters of the shared secrets: what they change in a loaded copy, and the load, modify, send, retry cycle of any number of concurrent calls |
| `DotProgress.dfy` | the progress indicator's mutex, flag, one-slot channel and goroutines |
| `UrlCache.dfy` | the cache of fetched files, with one lock a URL |
| `HelmLocks.dfy` | the two layers of locks around Helm releases |
| `IgnoreMatcher.dfy`, `Patterns.dfy`, `TarWalk.dfy` | ignore patterns and what they mean by their text, and the directory walk that collects an application's files |
| `AppKeys.dfy`, `Bindings.dfy` | keys made of two names, and the index from configurations and services to applications |
| `Enrichment.dfy`, `Listing.dfy`, `Listed.dfy` | what is loaded beside the applications, the three ways to list them, and what the lists hold by the labels and fields of the cluster's objects |
| `Actions.dfy`, `ActionRegistry.dfy` | actions, the routes they inherit, and the endpoints they allow after start-up |
| `Users.dfy`, `UserUpdate.dfy` | users and the secrets they are kept in, and the check whether to save them again |
| `GitConfig.dfy` | the choice of the git configuration for a repository |
| `Sorting.dfy`, `Strings.dfy`, `Picking.dfy`, `Wrappers.dfy` | sorting, the string functions of the Go library, loops that keep some elements of a list, optional values and results |

Concurrent code is a state machine: a label names a step and who takes it, a run is a list of states joined by
enabled steps, and the theorems speak of every run or every reachable state. Code that changes objects or fills
maps in loops is written as methods, each proved to compute a function of its input or of the old state; what the
source promises is then proved of that function, in terms of the fields, labels and texts it works on.

Some promises hold only under a condition the source does not check. Those are stated with the exact condition, or
with a concrete run or input for which they fail:

- An update of a per-application secret can be lost when the secret does not exist beforehand: the creator's first
  update carries no version (`OptimisticUpdate.NothingLostIffSecretExists`).
- The progress indicator can fall silent for good: when its goroutine sees the cleared flag before the token, the
  token it leaves ends the goroutine of the next Start (`DotProgress.NoDotAfterInactiveExit`).
- A returned cache path can hold part of a body: exactly when closing or removing the unfinished file failed, or it
  was there at first, left by a process that was killed (`UrlCache.ReturnedPathComplete`).
- Actions need not end up with the routes of their whole dependency closures: they do exactly when dependency chains
  that go backwards in the list lead to all of them (`Actions.ClosuresReachedIff`). It is so when dependencies come
  first; in actions.yaml `app` comes before `app_read`, which depends on `chart_read` (`Actions.OrderMatters`).
- A named route can be out of reach after a successful start-up: exactly when no action that is the last with its
  identifier reaches its endpoint (`ActionRegistry.EveryRouteReachable`, `ActionRegistry.RepeatedIDHidesRoute`).
- A namespace listed twice for a user can hide one that a role requires (`UserUpdate.CoversIff`).
- Authenticating a user whose secret has no annotations panics exactly when the user gets a role from the provider,
  from the label of old releases or by default, or lists a namespace twice (`UserUpdate.UpdatePanicsIff`).
- `List` panics on any ingress of the namespace with a rule that has no HTTP part, pages only on those of their own
  applications (`Listing.PanicsIff`, `Listing.StrayIngressPanics`).
- A page number so large that its start does not fit in 64 bits panics or gets another page, unless the start wraps
  to behind the end (`Listing.SliceIsPageIff`).

## Model

| member | source | states |
|---|---|---|
| `SecretData.Secret.DefaultData` | internal/application/configurations.go:266-276 | absent data is replaced by an empty map, or by one instance for the scaling secret, before the closure runs |
| `SecretData.Secret.BoundNamesSet` | internal/application/configurations.go:235-245 | the data afterwards is the old data, or nothing on replacement, with every name as a key without value |
| `SecretData.Secret.BoundNamesUnset` | internal/application/configurations.go:250-256 | exactly the named keys are gone |
| `SecretData.Secret.EnvironmentSet` | internal/application/env.go:67-77 | the assignments override the old data, or replace it |
| `SecretData.Secret.EnvironmentUnset` | internal/application/env.go:84-88 | the one variable is gone, nothing else changes |
| `SecretData.Secret.ScalingSet` | internal/application/scale.go:68-72 | the instance key holds the new number, nothing else changes |
| `SecretData.Secret.UpdateEntries` | internal/configurations/configurations.go:169-191 | removals first, then assignments, which therefore win |
| `SecretData.Secret.Modify` | internal/application/services.go:233-253 | one pass of an updater is the guard against absent data followed by the closure |
| `SecretData.ModifiedAt` | internal/application/scale.go:118-140 | every modification acts on each key by itself, as keep, put or drop; the default for absent data never shows |
| `SecretData.ModifiedIdempotent` | internal/application/configurations.go:261-281 | the same modification twice is the modification once |
| `OptimisticUpdate.NoLostUpdate` | internal/application/configurations.go:261-281 | in every run on an existing secret, whatever the interleaving, failures and lost replies, the data is the fold of the committed operations, in commit order, over the initial data |
| `OptimisticUpdate.AtMostOnce` | internal/application/env.go:94-114 | a call is committed at most once, with its own operation; it is if it reports success, and is not if it reports exhausted conflicts |
| `OptimisticUpdate.AcceptedIsAtomic` | internal/application/services.go:233-253 | an accepted Update has on the stored data the effect of the whole operation done atomically |
| `OptimisticUpdate.CommitsInRealTimeOrder` | internal/application/configurations.go:261-281 | a call that had returned before another began precedes it in the commit order |
| `OptimisticUpdate.RetryBound` | internal/application/configurations.go:264-280 | a call that gives up on conflicts was overtaken by as many foreign writes as it had attempts, all during the call |
| `OptimisticUpdate.CommitsUnderFewWrites` | internal/application/env.go:97-113 | with fewer foreign writes than attempts and no other error the call commits |
| `OptimisticUpdate.RefusedAtMostAttempts` | internal/application/configurations.go:264-280 | over every run, no call is refused more often than it has attempts, and it gives up on conflicts exactly when it has been refused as often |
| `OptimisticUpdate.OutcomeMeans` | internal/application/configurations.go:261-281 | over every run, each of the four outcomes belongs to exactly one kind of last step: accepted, nothing to change, last attempt refused, or a failed request, a lost reply or no secret |
| `OptimisticUpdate.OpIsBegun` | internal/application/configurations.go:235-245 | a call keeps the operation it was begun with |
| `OptimisticUpdate.CommitsAlone` | internal/application/configurations.go:261-281 | at any time a call with an attempt left commits by at most three steps of its own, if nobody disturbs it |
| `OptimisticUpdate.AcceptedOrRefused` | internal/application/env.go:94-114 | a copy with a version is accepted or refused, as the version is the present one or not; any request can fail |
| `OptimisticUpdate.CommitsOnlyUndisturbed` | internal/configurations/configurations.go:169-191 | every call commits on the very version and data of its last load |
| `OptimisticUpdate.OvertakenNeverCommits` | internal/configurations/configurations.go:194-220 | ReplaceConfiguration resends the same copy: once somebody has written since its load it never commits |
| `OptimisticUpdate.CreatorLosesUpdate` | internal/application/secret.go:41-60 | a reachable run on a missing secret in which the creator, whose copy has no version, overwrites a committed update |
| `OptimisticUpdate.NothingLostIffSecretExists` | internal/application/secret.go:28-60 | no run loses an update if and only if the secret exists before the first call |
| `OptimisticUpdate.NothingLostWhenCreatorIsFirst` | internal/application/secret.go:28-60 | on a missing secret nothing is lost in the runs in which a call that has created it is the first to write to it |
| `OptimisticUpdate.LastWriterWins` | internal/application/scale.go:118-140 | each key has the value of the last committed operation that touches it, by that operation alone |
| `OptimisticUpdate.UntouchedKeyKeepsValue` | internal/application/scale.go:118-140 | a key no committed operation touches keeps its initial value |
| `OptimisticUpdate.InvStep` | internal/application/configurations.go:261-281 | every step of every call keeps the invariant: log, versions, loaded copies and conflict counts agree |
| `DotProgress.AccountingKept` | internal/cli/termui/dot_progress.go:51-91 | every step keeps the balance: live goroutines and those that left by the inactive check together match tokens plus an active indicator or pending send |
| `DotProgress.InvStep` | internal/cli/termui/dot_progress.go:51-91 | every step keeps mutual exclusion, the balance and the reachability of a receiver |
| `DotProgress.LiveGoroutinesBounded` | internal/cli/termui/dot_progress.go:51-91 | live goroutines, pending spawns included, never exceed tokens plus one for active or a pending send, so there are never more than two |
| `DotProgress.SendersExclusive` | internal/cli/termui/dot_progress.go:83-91 | at most one Stop is at its send |
| `DotProgress.StopIsUnblocked` | internal/cli/termui/dot_progress.go:51-91 | whenever Stop is blocked on the full channel, at most two goroutine steps that need no mutex enable its send |
| `DotProgress.BlockedStopKeepsReceiver` | internal/cli/termui/dot_progress.go:51-91 | whatever step is taken meanwhile, a receiver stays in reach or the send is possible |
| `DotProgress.NoDeadlock` | internal/cli/termui/dot_progress.go:51-113 | in every reachable state with an unfinished call some step is possible |
| `DotProgress.NoDotAfterStop` | internal/cli/termui/dot_progress.go:51-91 | between a completed Stop and a later dot some Start has activated the indicator |
| `DotProgress.CallsRunThrough` | internal/cli/termui/dot_progress.go:51-113 | over every run, a call that has returned took the steps of a whole Start, a whole Stop, or for ChangeMessage a whole Stop and then a whole Start |
| `DotProgress.ReturnsMean` | internal/cli/termui/dot_progress.go:51-91 | Start returns from an active indicator, or has made it active; Stop returns from an inactive one |
| `DotProgress.DotsRunInOrder` | internal/cli/termui/dot_progress.go:61-80 | over every run, a goroutine takes its steps in the order of its loop, and ends by the channel or the inactive check |
| `DotProgress.ActiveHasDotIffNoInactiveExit` | internal/cli/termui/dot_progress.go:57-80 | an active indicator has more goroutines than tokens exactly when none ever left by the inactive check |
| `DotProgress.CanPrintIffNoInactiveExit` | internal/cli/termui/dot_progress.go:51-91 | from an active indicator some steps lead to another dot exactly when no goroutine has left by the inactive check |
| `DotProgress.NoDotAfterInactiveExit` | internal/cli/termui/dot_progress.go:63-79 | after one goroutine has left by the inactive check no dot is ever printed again |
| `DotProgress.SilentStateReachable` | internal/cli/termui/dot_progress.go:51-91 | such a silent active indicator is reachable |
| `UrlCache.InvStep` | internal/urlcache/urlcache.go:40-177 | every step keeps the invariant on locks, files and fetch counts |
| `UrlCache.LockExclusive` | internal/urlcache/urlcache.go:40-89 | at most one call per URL holds its lock |
| `UrlCache.OneFetchInFlight` | internal/urlcache/urlcache.go:40-177 | at most one fetch per URL is in flight |
| `UrlCache.PartialOnlyUnderLock` | internal/urlcache/urlcache.go:112-177 | a partial file has a writer that holds the lock of the URL, unless it was there at first or closing or removing it failed |
| `UrlCache.ReturnedPathComplete` | internal/urlcache/urlcache.go:40-89 | over every run, a returned cache path holds a complete body if and only if the file was not unfinished at first and no Close or Remove failed for its URL |
| `UrlCache.LeftoversMean` | internal/urlcache/urlcache.go:112-177 | which URLs count as left over: unfinished at first, or closing or removing failed in some step |
| `UrlCache.FetchedAtMostOnce` | internal/urlcache/urlcache.go:40-177 | a URL is fetched successfully at most once, and never when its file was there at first |
| `UrlCache.OutcomeMeans` | internal/urlcache/urlcache.go:40-177 | over every run, a finished call has failed exactly when one of its own steps has: making the directory, request, creating, copying, closing or verifying; it has returned the URL exactly when that was a local file, and the cache path otherwise |
| `UrlCache.UrlIsCalled` | internal/urlcache/urlcache.go:40-50 | a call is for the URL it began with |
| `UrlCache.CompletedAtMostOnce` | internal/urlcache/urlcache.go:112-177 | no two steps of a run complete the file of one URL, and none does when it was there at first |
| `UrlCache.FetchesMean` | internal/urlcache/urlcache.go:112-177 | the number of downloads counted for a URL is that of the steps that completed its file |
| `UrlCache.DirectoryMadeOnce` | internal/urlcache/urlcache.go:91-110 | once a call has made the directory no later one fails to make it |
| `UrlCache.CompleteForever` | internal/urlcache/urlcache.go:40-89 | a complete file stays complete and is not fetched again |
| `UrlCache.NoDeadlock` | internal/urlcache/urlcache.go:40-110 | the URL locks and the lock of the directory are always released: no unfinished call is stuck |
| `UrlCache.LeftoverIsReturned` | internal/urlcache/urlcache.go:131-177 | when removing an unfinished file fails, the next call returns the path of the partial body |
| `UrlCache.EarlierPartialIsReturned` | internal/urlcache/urlcache.go:66-72 | so does the first call of a process that finds the unfinished file of an earlier one |
| `HelmLocks.LoadOrStore` | internal/helm/helm.go:497-511 | the map keeps the first value stored for a key |
| `HelmLocks.InvStep` | internal/helm/client.go:20-39 | every step keeps the invariant: distinct keys have distinct clients and mutexes, holders run |
| `HelmLocks.MapsOnlyGrow` | internal/helm/helm.go:497-511 | what a map holds for a key never changes over a run |
| `HelmLocks.OneClientOneMutex` | internal/helm/helm.go:497-511 | over whole runs one client per namespace and one mutex per release are ever used |
| `HelmLocks.OneOperationInFlight` | internal/helm/client.go:103-138 | at most one install, upgrade, rollback or uninstall is in flight per namespace and release |
| `HelmLocks.WaitsOnlyForSameRelease` | internal/helm/client.go:62-70 | an operation waits only for one on the same release of the same namespace |
| `HelmLocks.FinishesBetween` | internal/helm/client.go:103-138 | over every run, between two operations on one release that get the lock the first of them finishes |
| `HelmLocks.NamespaceIsAsked` | internal/helm/helm.go:497-511 | a thread works in the namespace it asked for |
| `HelmLocks.ReleaseIsAsked` | internal/helm/client.go:62-70 | operation and release are those the thread last began with |
| `IgnoreMatcher.ParsePattern` | helpers/ignore.go:119-153 | a parsed pattern is never empty and has no outer white space |
| `Patterns.ParseOfWritten` | helpers/ignore.go:119-153 | a pattern is parsed back from every way of writing it: white space at both ends, behind the negation mark and before the slash |
| `Patterns.NoPatternIff` | helpers/ignore.go:119-153 | a line has no pattern exactly when it is blank, a comment, or nothing but a negation mark and a slash |
| `Patterns.ParsedPicks` | helpers/ignore.go:79-107 | the patterns are those of the lines that have one, in order |
| `IgnoreMatcher.LoadIgnoreMatcher` | helpers/ignore.go:73-114 | manifest patterns first, then those of the file; an error exactly when the file cannot be opened or read |
| `IgnoreMatcher.PlaceableEarlier` | helpers/ignore.go:403-456 | what can be placed from some position on can be placed from any earlier one |
| `IgnoreMatcher.GreedyPlaces` | helpers/ignore.go:403-456 | backtracking is unnecessary: segments can be placed exactly when the single leftmost pass places them |
| `IgnoreMatcher.MatchSegmentsRecursive` | helpers/ignore.go:403-456 | true exactly when the remaining segments have in-order, non-overlapping positions at or after the index |
| `IgnoreMatcher.MatchLastPart` | helpers/ignore.go:422-431 | the shortcut for a last single part finds a position exactly when there is one |
| `IgnoreMatcher.LastSegment` | helpers/ignore.go:422-431 | the shortcut changes no answer |
| `IgnoreMatcher.PartsFit` | helpers/ignore.go:434-442 | the window loop compares part by part |
| `IgnoreMatcher.MatchWithDoubleStar` | helpers/ignore.go:380-398 | agrees with the placement of the non-empty segments, and with the greedy pass |
| `IgnoreMatcher.MatchPartsAnywhere` | helpers/ignore.go:226-260 | both loops look for a position where all parts fit |
| `IgnoreMatcher.MatchPatternAnywhere` | helpers/ignore.go:335-376 | equality, or some position where all parts fit |
| `IgnoreMatcher.MatchGlobPattern` | helpers/ignore.go:298-332 | the shortcuts for a leading and a trailing double star, and placement otherwise |
| `IgnoreMatcher.MatchesPattern` | helpers/ignore.go:206-261 | directory patterns only match directories; then by leading slash, double star, or parts |
| `IgnoreMatcher.ShouldIgnore` | helpers/ignore.go:162-203 | ignored exactly when the last matching pattern is no negation |
| `IgnoreMatcher.OnePatternMore` | helpers/ignore.go:177-202 | one more pattern decides when it matches and changes nothing when it does not |
| `Patterns.RootedMeans` | helpers/ignore.go:216-293 | behind a leading slash a pattern matches the path, everything below it, and what the glob makes of the path or its first name |
| `Patterns.PlainMeans` | helpers/ignore.go:228-260 | without double stars and leading slash it matches successive names anywhere in the path, each equal or by the glob |
| `Patterns.LeadingStarsMean` | helpers/ignore.go:315-320 | behind a leading double star it matches the whole path or successive names anywhere |
| `Patterns.TrailingStarsMean` | helpers/ignore.go:322-327 | before a trailing double star it matches the path it says and everything below it |
| `Patterns.StarsAlone` | helpers/ignore.go:392-394 | a double star alone matches everything |
| `Patterns.GeneralMeans` | helpers/ignore.go:329-331 | any other pattern with double stars goes by the placement of the parts between them, trimmed of slashes and non-empty |
| `Patterns.TrimSlashesMean` | helpers/ignore.go:386 | trimming takes the slashes off both ends, and nothing else |
| `Patterns.SegmentsOf` | helpers/ignore.go:304-398 | a pattern made of segments with double stars between them is split into just these segments |
| `Patterns.BetweenStarsMeans` | helpers/ignore.go:298-456 | such a pattern matches exactly when the names of its segments have in-order, non-overlapping places in the path |
| `Patterns.TwoSegmentsMean` | helpers/ignore.go:298-456 | with two segments: exactly when the names of the first match somewhere and those of the second somewhere behind them |
| `TarWalk.PassesByPath` | helpers/tar.go:67-91 | the tests on path and base name are tests on the names on the way |
| `TarWalk.DirContributes` | helpers/tar.go:61-108 | a directory that passes contributes what its children do, any other nothing: what SkipDir prunes could not have been collected |
| `TarWalk.Collector.Visit` | helpers/tar.go:61-108 | the callback collects a file exactly when it passes, and skips a directory exactly when that does not |
| `TarWalk.Collector.Walk` | helpers/tar.go:61-108 | the walk below an entry adds exactly what the entry contributes |
| `TarWalk.CollectFiles` | helpers/tar.go:56-108 | the map holds exactly the wanted files, under full paths |
| `TarWalk.TarSources` | helpers/tar.go:43-108 | for every tree exactly the files for which neither they nor a directory on the way is git-excluded or ignored by manifest then file patterns |
| `TarWalk.TarballMeans` | helpers/tar.go:43-108 | for a directory: exactly the files such that no name on the way is that of a git file, no directory on the way and not the file is ignored, and the file is not the ignore file; each under directory, slash and relative path |
| `Actions.MergedRoutes` | internal/auth/action.go:108-129 | merging unites the routes |
| `Actions.MergedMeans` | internal/auth/action.go:108-129 | merging sorts the routes of both, each once, and changes nothing else of the action |
| `Actions.MergeAllSucceeds` | internal/auth/action.go:78-86 | merging fails exactly when a dependency is missing from the map |
| `Actions.MergeAllRoutes` | internal/auth/action.go:78-86 | an action ends up with its own routes and those the map has for its dependencies |
| `Actions.ProcessHolds` | internal/auth/action.go:64-93 | while merging, the map holds for every identifier the last earlier action with it, merged, or else the last of all |
| `Actions.GainsIffReachedBackwards` | internal/auth/action.go:76-90 | the recursion over the list and the chains of dependencies say the same |
| `Actions.RoutesAreReachedBackwards` | internal/auth/action.go:64-93 | for every list, an action ends up with exactly the routes owned along dependency chains that go backwards in the list, except perhaps in their last step |
| `Actions.BetweenDirectAndClosure` | internal/auth/action.go:64-93 | in any order the result lies between the direct dependencies' own routes and the transitive closure |
| `Actions.ClosuresReachedIff` | internal/auth/action.go:64-93 | all actions of a list end up with the routes of their whole closures if and only if whatever a dependency chain leads to is also led to by one going backwards |
| `Actions.RoutesAreClosure` | internal/auth/action.go:64-93 | with dependencies listed first, loading succeeds and every action has the routes of its whole closure |
| `Actions.OtherOrdersCanDo` | internal/auth/action.go:76-90 | a list in another order whose actions have their whole closures, too |
| `Actions.ResolvedSucceeds` | internal/auth/action.go:79-84 | loading succeeds exactly when every dependency names an action of the list |
| `Actions.OrderMatters` | internal/auth/action.go:76-90 | a list in which an action before its dependency misses inherited routes, so that the closures are not reached |
| `ActionRegistry.Merge` | internal/auth/action.go:108-129 | the routes of both, sorted, without duplicates |
| `ActionRegistry.IsAllowed` | internal/auth/action.go:96-105 | true exactly when some endpoint has that verb, and that path behind its base |
| `ActionRegistry.ValidateActionRoutes` | internal/api/v1/router.go:342-349 | true exactly when every named route has been assigned |
| `ActionRegistry.Registry.Load` | internal/auth/action.go:72-74 | later actions overwrite earlier ones with the same identifier |
| `ActionRegistry.Registry.MergeDependencies` | internal/auth/action.go:78-86 | the inner loop merges dependency by dependency, or fails on the first missing one |
| `ActionRegistry.Registry.InitActions` | internal/auth/action.go:64-93 | the map and the returned list are those of the specification, also after a failure |
| `ActionRegistry.Registry.AddEndpoints` | internal/api/v1/router.go:311-327 | the map gets the endpoints; the assigned routes are those of the actions |
| `ActionRegistry.Registry.InitAuth` | internal/api/v1/router.go:299-338 | result and map after start-up |
| `ActionRegistry.Expose` | internal/api/v1/router.go:312-324 | one endpoint a route, in order, and the set of routes |
| `ActionRegistry.AssignedIffListed` | internal/api/v1/router.go:308-327 | merging assigns no route that no action lists, and loses none |
| `ActionRegistry.StartsIffAllListed` | internal/api/v1/router.go:299-349 | start-up succeeds exactly when every dependency is in the list and every named route is listed by some action |
| `ActionRegistry.AllowedAfterStart` | internal/api/v1/router.go:311-327 | afterwards an identifier allows exactly the endpoints its last action had and those of the routes it reaches |
| `ActionRegistry.CallAllowedIff` | internal/api/v1/router.go:299-338 | after start-up a call is allowed exactly when the action reaches a named route with its verb whose path, behind /api/v1 or behind /wapi/v1 for a web socket, is the one called; a route nobody named has neither verb nor path |
| `ActionRegistry.OtherVerbDenied` | internal/auth/action.go:96-105 | a call is denied when no route the action reaches has its verb, whatever their paths |
| `ActionRegistry.ReachableIff` | internal/api/v1/router.go:299-338 | an endpoint can be called if and only if an action that is the last with its identifier reaches a route with it |
| `ActionRegistry.EveryRouteReachable` | internal/api/v1/router.go:299-338 | every named route can be called if and only if for each of them such an action reaches its endpoint |
| `ActionRegistry.ListedByLastSuffices` | internal/api/v1/router.go:299-338 | it is enough that an action that is the last with its identifier lists the route, or that no identifier is repeated |
| `ActionRegistry.RepeatedIDHidesRoute` | internal/api/v1/router.go:299-338 | with a repeated identifier start-up can succeed and a route be out of reach |
| `Users.FindIsFirst` | internal/auth/role.go:76-83 | no role before the one found has the identifier and namespace; nothing is found only if none has |
| `Users.FindByIDAndNamespace` | internal/auth/role.go:76-83 | the scan finds that role |
| `Users.RoleIDs` | internal/auth/role.go:56-68 | identifiers with their namespace, in order |
| `Users.ParseOfFullID` | internal/auth/role.go:178-184 | parsing a written identifier gives identifier and namespace back |
| `Users.LoadRoles` | internal/auth/user.go:183-199 | unknown roles are dropped, known ones get the namespace of the entry |
| `Users.RoleForMeans` | internal/auth/user.go:183-199 | an entry stands for the first role of the catalogue with its identifier and no namespace, bound to the namespace of the entry; what follows a second colon is ignored |
| `Users.RolesForDistributes` | internal/auth/user.go:183-199 | the entries are looked up one by one, in order |
| `Users.RoleEntriesMean` | internal/auth/user.go:180-186 | the entries are what the commas of the annotation separate; a blank annotation has none |
| `Users.LoadLines` | internal/auth/user.go:201-219 | trimmed non-empty lines, in order |
| `Users.NonEmptyPicks` | internal/auth/user.go:201-219 | the names are the lines that are not blank, in order, without the white space around them |
| `Users.LinesMean` | internal/auth/user.go:201-219 | a name is loaded exactly when some line of the text is that name between white space |
| `Users.ProperLineSurvives` | internal/auth/user.go:201-219 | a proper name is loaded again whatever names it was saved with |
| `Users.UserSecret.ToUser` | internal/auth/user.go:165-240 | the user loaded from a secret, field by field: the roles of the annotation, and behind them those of the old label |
| `Users.UserSecret.LoadLegacyRoles` | internal/auth/user.go:222-237 | the role of the label, and admin for every namespace of an old plain user |
| `Users.LegacyRolesMean` | internal/auth/user.go:222-237 | the old label stands for the first role of that name and, for "user", for the admin role in every namespace |
| `Users.UserSecret.Update` | internal/auth/user.go:266-285 | the whole secret after saving a user; it panics exactly when there are no annotations, and then changes nothing |
| `Users.SavedMeans` | internal/auth/user.go:266-285 | saving writes one annotation and three keys, removes the old label and keeps everything else |
| `Users.NewSecretFromUser` | internal/auth/user.go:243-263 | a new secret with the user saved into it |
| `Users.LinesRoundTrip` | internal/auth/user.go:201-219 | a list of names survives saving and loading if and only if every name is non-empty, newline-free and trimmed |
| `Users.EntriesRoundTrip` | internal/auth/user.go:180-186 | role identifiers survive the annotation |
| `Users.RoundTrip` | internal/auth/user.go:165-285 | saving then loading gives name, namespaces and gitconfigs in order and the role identifiers sorted without duplicates |
| `Users.SecondSaveChangesNothing` | internal/auth/user.go:165-285 | saving the loaded user again leaves the secret as it is |
| `Users.OldUserMigrates` | internal/auth/user.go:222-237 | saving a user with the old label moves its roles into the annotation, and loading gives the same roles |
| `UserUpdate.SortStrings` | internal/auth/user.go:325-326 | sorts the array in place |
| `UserUpdate.IsUpdateUserRoleNeeded` | internal/auth/user.go:318-337 | an update is reported exactly when the lists differ as multisets; the result has the actual identifiers, sorted when the lists are equally long |
| `UserUpdate.IsUpdateUserNamespacesNeeded` | internal/auth/user.go:340-363 | an update is reported exactly when the number of namespaces differs from that of own and role namespaces together; all own ones stay, and with an update the result is strictly sorted and holds exactly the own and the role namespaces |
| `UserUpdate.CheckedNamespacesMean` | internal/auth/user.go:340-363 | the same of the specification function |
| `UserUpdate.IsUpdateUserNeeded` | internal/auth/user.go:288-315 | what is reported, and of the result: role identifiers as a multiset, namespaces as above, everything else unchanged |
| `UserUpdate.CheckConverges` | internal/auth/user.go:288-363 | applied to its own result the check reports nothing and changes at most the order of the identifiers |
| `UserUpdate.CoversIff` | internal/auth/user.go:340-363 | the result covers the role namespaces if and only if none is missing or their number is not that of the repetitions in the list |
| `UserUpdate.CoversWithoutRepeats` | internal/auth/user.go:340-363 | without repetitions the result covers every role namespace |
| `UserUpdate.RepeatHidesMissing` | internal/auth/user.go:340-363 | a user whose repeated namespace hides a missing one for good |
| `UserUpdate.OneRoundSettles` | internal/auth/user.go:165-363 | after one round of check, save and load the next check reports nothing |
| `UserUpdate.GetDefaultRole` | internal/auth/role.go:46-53 | the first default role |
| `UserUpdate.DefaultRoleIsFirst` | internal/auth/role.go:46-53 | no role before the default role is one, and there is none only if no role is |
| `UserUpdate.LoggedInMeans` | internal/api/v1/middleware/authentication.go:241-293 | the roles of a provider replace all others, the default role is for those who have none and came without a token, and nothing else changes |
| `UserUpdate.SavedLines` | internal/api/v1/middleware/authentication.go:66-74 | the saved secret still lists every namespace it listed; when the check adds, those of the roles, too |
| `UserUpdate.Authenticate` | internal/api/v1/middleware/authentication.go:66-74 | the middleware on a user's secret: it panics exactly when an update is asked for and there are no annotations; the secret and the user afterwards; the secret lists every namespace it listed before |
| `UserUpdate.UpdatePanicsIff` | internal/api/v1/middleware/authentication.go:66-117 | without annotations the update is asked for, and panics, if and only if the user gets a role from the provider, the old label or by default, or lists a namespace twice |
| `UserUpdate.UnannotatedUserPanics` | internal/auth/user.go:266-272 | a secret with the old label and no annotations for which logging in panics |
| `AppKeys.DecodeOfEncode` | internal/application/configurations.go:180-189 | a pair is recovered from its key if and only if neither name contains NUL |
| `AppKeys.EncodeInjective` | internal/application/services.go:177-186 | keys of different pairs differ |
| `Bindings.MadeSecretIsSelected` | internal/application/secret.go:73-86 | the secrets Epinio makes are selected under their area and no other, with the names they were made for |
| `Bindings.ListPicks` | internal/application/configurations.go:142-158 | the secrets listed are those with the labels of the area in the namespaces asked for, in the order of the cluster |
| `Bindings.EnterBinding` | internal/application/configurations.go:159-167 | one secret adds its application once under each of its names, in whatever order its keys come |
| `Bindings.Invert` | internal/application/configurations.go:159-167 | the index holds exactly the keys with applications, in the order of the secrets |
| `Bindings.BoundAppsNames` | internal/application/configurations.go:142-170 | the index of the secrets listed for a namespace |
| `Bindings.BoundAppsNamesForNamespaces` | internal/application/services.go:104-135 | the index of the secrets listed for some namespaces, empty for none |
| `Bindings.BoundAppsNamesFor` | internal/application/configurations.go:69-99 | each application whose secret has the name, once |
| `Bindings.IndexIsInverse` | internal/application/configurations.go:142-170 | an application is listed under a name and namespace once if it binds it there and never otherwise |
| `Bindings.EntryMeans` | internal/application/configurations.go:142-170 | the entry for a name and namespace lists, in the order of the cluster, the applications of the secrets of the area that belong to the namespace and have the name |
| `Bindings.KeysMean` | internal/application/configurations.go:142-170 | the index has no other keys than those of names bound by listed secrets |
| `Bindings.IndexInvertsCluster` | internal/application/configurations.go:142-170 | over the cluster's secrets: an application is listed once when a secret of the area binds the name for it, and not at all otherwise |
| `Bindings.WithPicks` | internal/application/configurations.go:69-99 | the single-name variant lists the applications of the listed secrets that have the name, in order |
| `Bindings.SingleNameIsLookup` | internal/application/configurations.go:69-99 | the single-name variant is the lookup in the index of the namespace and in that of all |
| `Bindings.ScopedIsRestriction` | internal/application/configurations.go:104-135 | the namespace-scoped variant is the restriction |
| `Bindings.UpdateShowsInBindings` | internal/application/configurations.go:235-256 | a modification of one application's secret changes what that application binds, by put, keep or drop, and nothing else |
| `Bindings.UpdateShowsInIndex` | internal/application/configurations.go:142-170 | an entry of the index built afterwards lists that application once or not at all accordingly, and the others as before |
| `GitConfig.SortConfigurations` | internal/bridge/git/git.go:171-173 | in-place sort by identifier: a sorted permutation |
| `GitConfig.NewGitRepoInfoFromURL` | internal/bridge/git/git.go:361-383 | host, organisation and repository of a parsed URL, or its error |
| `GitConfig.InfoMeans` | internal/bridge/git/git.go:361-383 | the first two names of a path, with or without leading slash, are organisation and repository, whatever follows |
| `GitConfig.InfoOfRepository` | internal/bridge/git/git.go:361-383 | so for the path of a repository and that of an organisation |
| `GitConfig.FileByKey` | internal/bridge/git/git.go:314-330 | every key leads to the configurations with that key, in order |
| `GitConfig.FindConfiguration` | internal/bridge/git/git.go:302-352 | the lookup through the map is a linear scan for the first configuration with the most specific key present |
| `GitConfig.KeyMeansSpecificity` | internal/bridge/git/git.go:316-322 | a key is wanted exactly when the configuration applies to the repository, organisation or host |
| `GitConfig.ScanIsMostSpecific` | internal/bridge/git/git.go:302-352 | the configuration found is the most specific and, among those, has the smallest identifier; none is found only if none applies |
| `GitConfig.RepositoryFindsMostSpecific` | internal/bridge/git/git.go:302-352 | the same for a URL of scheme, host, organisation and repository |
| `GitConfig.OrderDoesNotMatter` | internal/bridge/git/git.go:168-173 | the result does not depend on the order in which the cluster lists the secrets |
| `Enrichment.MakeAuxiliaryMap` | internal/application/application.go:1482-1530 | under every key the last secret of each area |
| `Enrichment.AddApplicationPods` | internal/application/workload.go:118-153 | under every key the pods already there and those listed, in order |
| `Enrichment.FromIngress` | internal/routes/routes.go:86-100 | the routes of all rules in order; a panic exactly when a rule has no HTTP part |
| `Enrichment.AddActualApplicationRoutes` | internal/application/ingresses.go:47-91 | under every key the routes of its ingresses in order; a panic exactly when a rule of one has no HTTP part |
| `Enrichment.JobStatus` | internal/application/application.go:305-316 | the first terminal condition that is true decides |
| `Enrichment.StagingStatus` | internal/application/application.go:268-326 | the last job under a key counts |
| `Enrichment.UpdateWithStagingStatus` | internal/application/application.go:328-338 | every status is put under its key |
| `Enrichment.LoadEnrichmentData` | internal/application/application.go:404-462 | what is loaded under every key for the namespace and names asked for |
| `Listing.Gather` | internal/application/application.go:493-511 | the applications that are there, or the first error |
| `Listing.List` | internal/application/application.go:469-514 | the whole list |
| `Listing.ListPaginated` | internal/application/application.go:519-602 | one page and the total |
| `Listing.SlicePage` | internal/application/application.go:552-567 | the slice of a page in 64-bit arithmetic, or a panic |
| `Listing.SliceIsPageIff` | internal/application/application.go:552-567 | the slice is the page that is meant if and only if its start fits in 64 bits or wraps to behind the end |
| `Listing.FarPagePanics` | internal/application/application.go:558-567 | a page number whose start wraps to a negative number, so that the slice expression panics |
| `Listing.GroupByNamespace` | internal/application/application.go:645-653 | the resources of each namespace that the search finds, in order |
| `Listing.SliceGroups` | internal/application/application.go:655-678 | the page of every group and its size |
| `Listing.ListPaginatedByNamespace` | internal/application/application.go:614-717 | the pages of exactly the namespaces with a match; when it fails and when it panics |
| `Listing.SelectAgrees` | internal/application/application.go:59-68 | two selectors that agree on the objects under a key find the same objects there |
| `Listing.NameScopeAgrees` | internal/application/application.go:404-462 | what is loaded for named applications is what is loaded without names, for each of them |
| `Listing.NamespaceScopeAgrees` | internal/application/application.go:680-690 | what is loaded across namespaces is what is loaded for the application's own |
| `Listing.PageUnscoped` | internal/application/application.go:519-602 | a page loaded for its names alone is the page loaded without |
| `Listing.PagesMakeList` | internal/application/application.go:469-602 | for every page size the pages put together are the list, errors included; the list panics besides on a rule without HTTP part |
| `Listing.PanicsIff` | internal/routes/routes.go:86-100 | the list panics exactly when an ingress of the namespace has a rule without HTTP part, a page exactly when its slice does or an ingress of its own applications has such a rule |
| `Listing.FirstPagesPanicIff` | internal/application/application.go:519-602 | going through the pages panics exactly when an ingress of an application on them has such a rule |
| `Listing.StrayIngressPanics` | internal/application/ingresses.go:54-71 | a cluster whose stray ingress makes the list panic and no page |
| `Listing.BulkPageIsPage` | internal/application/application.go:614-717 | one namespace's share of the bulk listing is the listing of that namespace |
| `Listing.BulkAgreesWithPages` | internal/application/application.go:614-717 | the bulk listing has exactly the namespaces with a match, each with the items and total of its own paged listing |
| `Listing.BulkFailsWithPages` | internal/application/application.go:614-717 | it panics exactly when an ingress has a rule without HTTP part or the page of a namespace with a match panics, and otherwise fails exactly when one of those pages fails |
| `Listing.ThereIffThreeSecrets` | internal/application/application.go:1545-1562 | an application is left out exactly when its environment, configuration or scaling secret is missing |
| `Listing.ConfigurationMeans` | internal/application/application.go:1564-1577 | its configuration comes from the last secret of each area |
| `Listing.StatusMeans` | internal/application/application.go:1651-1671 | staging exactly when its last job is unfinished, otherwise running exactly when it has a pod; its workload is made of its pods and the routes of its ingresses |
| `Listed.DataMeans` | internal/application/application.go:404-462 | what is loaded for an application is, by the labels, the last secret of each area, its pods and the routes of its ingresses in the order of the cluster, and how its last job stands |
| `Listed.RoutesAreFlat` | internal/application/ingresses.go:47-91 | the routes of ingresses are those of each, in order |
| `Listed.RulesAreFlat` | internal/routes/routes.go:86-100 | the routes of an ingress are those of its rules, in order |
| `Listed.RuleRoutesMean` | internal/routes/routes.go:20-100 | a rule has a route for each path: host and path, less one slash at the end |
| `Listed.JobStagingMeans` | internal/application/application.go:305-316 | done or failed as the first true terminal condition is completion or failure, active when there is none |
| `Listed.AggregateMeans` | internal/application/application.go:1541-1671 | a resource gives no application exactly when one of its three secrets is missing, an error exactly when it has them but cannot be read; else an application with its name, namespace and core, its staging, status, configuration and workload |
| `Listed.CollectMeans` | internal/application/application.go:493-511 | of a list of resources: an error exactly when one with its three secrets cannot be read, else one application for each that has them, in order |
| `Listed.MatchingPicks` | internal/application/application.go:532-550 | the resources sought are those of the namespace whose lower-case name contains the lower-case search text, in order |
| `Listed.ListHolds` | internal/application/application.go:469-514 | the list shows the resources of the namespace that have their three secrets, in order, and fails exactly when one of them cannot be read |
| `Listed.PageHolds` | internal/application/application.go:519-602 | a page shows those of its part of the resources sought, and its total counts all of them |
| `Listed.BulkHolds` | internal/application/application.go:614-717 | so does each namespace's page of the bulk listing |
| `Listed.ShownNames` | internal/application/application.go:1617-1625 | names and namespaces listed are, in order, those of the resources with their three secrets |
| `Listed.SliceMeans` | internal/application/application.go:552-567 | a page whose start fits in 64 bits is the stretch of its size that its number says, pages counting from one and twenty-five being the default size |
| `Listed.PanicsMean` | internal/routes/routes.go:86-100 | the list panics exactly when an application ingress of the namespace has a rule without HTTP part; a page exactly when its slice does or one with the name of its applications has |
| `Listed.BulkPanicsMean` | internal/application/application.go:614-717 | the bulk listing panics exactly when any application ingress has such a rule or the slice of some namespace panics |
| `Sorting.SortUniqueIsCanonical` | internal/auth/user.go:365-375 | the sorted listing depends on the set of strings alone and is stable under repetition |
| `Sorting.SameSort` | internal/auth/user.go:325-334 | two lists sort to the same list exactly when they are the same multiset |
| `Sorting.SortedKeys` | internal/auth/action.go:125-126 | whatever order a map gives its keys in, sorting makes the same list |
| `Sorting.UniqueAndSort` | internal/auth/user.go:365-375 | the distinct strings, sorted, by way of a map |

## Left out

- Listing.ListPaginated: an aggregation error stands alone; the partial list that the source returns beside it is not modelled.
- Listing.List: likewise.
- Listing.Gather: likewise.
- Listing.PagesMakeList: for lists of at most 2^62 resources, and pages whose start fits in 64 bits; what happens to others is Listing.SliceIsPageIff.
- Enrichment.LoadEnrichmentData: calls to the cluster succeed, and selectors are predicates on labels: the selector strings, joined with commas, are not parsed back. Pod metrics are left out.
- Listing.ConfigurationMeans: bound names are sets; the source lists them sorted, which depends on the set alone. What the source reads from the application resource by itself is one opaque value.
- Listed.DataMeans: for clusters in which applications have names and namespaces and no name contains NUL, as Kubernetes has them, and so are the theorems that rest on it.
- Listed.PageHolds: for pages whose start fits in 64 bits and at most 2^62 resources, as Listing.PagesMakeList.
- Listed.BulkHolds: likewise.
- UserUpdate.IsUpdateUserNeeded: the roles of the caller's copy of the user share their slice of identifiers with the result, which the source sorts in place; the model returns the sorted list in the result only.
- Users.UserSecret.ToUser: creation time and the name of the secret are left out.
- Users.NewSecretFromUser: likewise, and so are its type and namespace.
- UserUpdate.Authenticate: for a user who has a secret that nobody else changes meanwhile; checking passwords and tokens, and creating users, are left out.
- GitConfig.ScanIsMostSpecific: speaks of configurations whose instance URL is scheme://host; for any others GitConfig.FindConfiguration states the scan by key.
- GitConfig.KeyMeansSpecificity: likewise.
- GitConfig.SortConfigurations: among equal identifiers no order is promised, as by sort.Slice.
- Bindings.BoundAppsNames: one model serves configurations and services, whose code differs in the area label only; failures of the cluster are left out.
- Bindings.BoundAppsNamesFor: likewise.
- Bindings.BoundAppsNamesForNamespaces: likewise.
- IgnoreMatcher.ParsePattern: its contract leaves the flags to Patterns.ParseOfWritten.
- IgnoreMatcher.MatchGlobPattern: follows the shortcuts of the code for patterns that begin with `**/` or end with `/**`, which are not those of gitignore; `filepath.Match` is a parameter, an error counting as no match, and paths use forward slashes.
- TarWalk.TarSources: writing the tarball is left out; a tree stands for the file system and does not change during the walk, and the directory is given in the form filepath.Clean leaves.
- UrlCache.ReturnedPathComplete: distinct URLs have distinct cache files (they are named by a SHA-256 digest), and os.Stat reports a file exactly when it exists.
- DotProgress.NoDotAfterStop: a dot is a step; what the terminal shows is left out, and so is the message. A ChangeMessage below verbosity 1 returns at once and is no call here.
- OptimisticUpdate.NoLostUpdate: for a secret that exists and is not deleted; what happens on a missing one is OptimisticUpdate.CreatorLosesUpdate and OptimisticUpdate.NothingLostIffSecretExists. The number of attempts is a parameter. The same cycle in AuthService.UpdateUser is not modelled again.
- SecretData.Secret.ScalingSet: the number is its decimal text; the conversion is not modelled.
- HelmLocks.OneOperationInFlight: what Helm does under the mutex is left out, as are the client's methods that take none.
- ActionRegistry.Registry.InitAuth: the action list stands for the parsed actions.yaml, and the routes are given as maps.
- BoundApps and ServicesBoundApps (internal/application/configurations.go:32-65, internal/application/services.go:30-63): a shadowed variable makes them dereference a nil pointer on a cache miss, so nothing can be stated of their results.
- UpdateService (internal/services/instances.go) publishes new settings only on an error, so "deployed equals stored" is not a property of it.
- DecodeCerts (helpers/cahash/cahash.go) does not advance behind a parsed certificate, so it need not terminate.
- Log tailing, the self-updater, HTTP handlers, the command line, YAML and JSON encoding, and the clients of Kubernetes, S3, OIDC and registries: not part of this model.
- Route strings, byte formatting, masking, argument parsing and resource names: they would add easy members only.
