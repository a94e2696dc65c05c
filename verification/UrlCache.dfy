/**
 The cache of files fetched from external URLs (internal/urlcache/urlcache.go), as the interleaved steps of any
 number of Get calls.

 Every call brings a mutex of its own along and offers it to the map of mutexes, which keeps the first one
 offered for a URL.  Distinct URLs have distinct cache files, so a file is named by its URL here.  The
 network, the file system and the fetched body appear as the outcome of a step.
 */
module UrlCache {

  type Url = string
  type ThreadId = nat

  datatype FileState = Partial | Complete

  /** What Get returned: the URL itself for a local file, the cache path, or an error. */
  datatype Result = LocalFile | CachePath | Failed

  datatype Pc =
    | Entering
    | Waiting
    | CheckLocal
    | CheckCache
    | WantInit
    | InInit
    | Requesting
    | CreatingFile
    | Copying
    | Closing
    | Discarding
    | Verifying
    | Unlocking(result: Result)
    | Done(result: Result)

  datatype Holder = Nobody | Somebody(t: ThreadId)

  /** `mutex` is the call's own until it has consulted the map. */
  datatype Thread = Thread(url: Url, mutex: ThreadId, pc: Pc)

  /** `fetched` counts the downloads that completed; `leftovers` are the URLs whose file was unfinished at first, or
      where closing or removing an unfinished file failed. */
  datatype State = State(
    table: map<Url, ThreadId>,
    held: map<ThreadId, ThreadId>,
    initHolder: Holder,
    directory: bool,
    files: map<Url, FileState>,
    threads: map<ThreadId, Thread>,
    fetched: map<Url, nat>,
    leftovers: set<Url>)

  datatype Label =
    | Call(t: ThreadId, url: Url)
    | LoadOrStore(t: ThreadId)
    | Lock(t: ThreadId)
    | StatLocal(t: ThreadId, exists_: bool)
    | StatCache(t: ThreadId)
    | InitLock(t: ThreadId)
    | InitDirectory(t: ThreadId, ok: bool)
    | Request(t: ThreadId, ok: bool)
    | CreateFile(t: ThreadId, ok: bool)
    | Copy(t: ThreadId, ok: bool)
    | Close(t: ThreadId, ok: bool)
    | Discard(t: ThreadId, ok: bool)
    | Verify(t: ThreadId, ok: bool)
    | Unlock(t: ThreadId)

  /** At first no call is active.  Files of an earlier process may be there, and unfinished ones among them if it
      was killed while it fetched. */
  predicate IsInit(s: State) {
    && s.table == map[] && s.held == map[] && s.initHolder == Nobody && s.threads == map[] && s.fetched == map[]
    && s.leftovers == set u | u in s.files && s.files[u] == Partial
  }

  predicate At(s: State, t: ThreadId, pc: Pc) {
    t in s.threads && s.threads[t].pc == pc
  }

  predicate Enabled(s: State, l: Label) {
    match l
    case Call(t, url) => t !in s.threads
    case LoadOrStore(t) => At(s, t, Entering)
    case Lock(t) => At(s, t, Waiting) && s.threads[t].mutex !in s.held
    case StatLocal(t, _) => At(s, t, CheckLocal)
    case StatCache(t) => At(s, t, CheckCache)
    case InitLock(t) => At(s, t, WantInit) && s.initHolder == Nobody
    case InitDirectory(t, ok) => At(s, t, InInit) && (s.directory ==> ok)
    case Request(t, _) => At(s, t, Requesting)
    case CreateFile(t, _) => At(s, t, CreatingFile)
    case Copy(t, _) => At(s, t, Copying)
    case Close(t, _) => At(s, t, Closing)
    case Discard(t, _) => At(s, t, Discarding)
    case Verify(t, _) => At(s, t, Verifying)
    case Unlock(t) => t in s.threads && s.threads[t].pc.Unlocking?
  }

  function Fetches(s: State, url: Url): nat {
    if url in s.fetched then s.fetched[url] else 0
  }

  /** The place a call moves to. */
  function NextPc(s: State, l: Label): Pc
    requires Enabled(s, l)
  {
    match l
    case Call(_, _) => Entering
    case LoadOrStore(_) => Waiting
    case Lock(_) => CheckLocal
    case StatLocal(_, local) => if local then Unlocking(LocalFile) else CheckCache
    case StatCache(t) => if s.threads[t].url in s.files then Unlocking(CachePath) else WantInit
    case InitLock(_) => InInit
    case InitDirectory(_, ok) => if ok then Requesting else Unlocking(Failed)
    case Request(_, ok) => if ok then CreatingFile else Unlocking(Failed)
    case CreateFile(_, ok) => if ok then Copying else Unlocking(Failed)
    case Copy(_, ok) => if ok then Closing else Discarding
    case Close(_, ok) => if ok then Verifying else Unlocking(Failed)
    case Discard(_, _) => Unlocking(Failed)
    case Verify(_, ok) => Unlocking(if ok then CachePath else Failed)
    case Unlock(t) => Done(s.threads[t].pc.result)
  }

  function NextTable(s: State, l: Label): map<Url, ThreadId>
    requires Enabled(s, l)
  {
    if l.LoadOrStore? && s.threads[l.t].url !in s.table then s.table[s.threads[l.t].url := s.threads[l.t].mutex]
    else s.table
  }

  function NextThread(s: State, l: Label): Thread
    requires Enabled(s, l)
  {
    if l.Call? then Thread(l.url, l.t, Entering)
    else if l.LoadOrStore? then Thread(s.threads[l.t].url, NextTable(s, l)[s.threads[l.t].url], Waiting)
    else s.threads[l.t].(pc := NextPc(s, l))
  }

  function NextHeld(s: State, l: Label): map<ThreadId, ThreadId>
    requires Enabled(s, l)
  {
    if l.Lock? then s.held[s.threads[l.t].mutex := l.t]
    else if l.Unlock? then s.held - {s.threads[l.t].mutex}
    else s.held
  }

  function NextFiles(s: State, l: Label): map<Url, FileState>
    requires Enabled(s, l)
  {
    if l.CreateFile? && l.ok then s.files[s.threads[l.t].url := Partial]
    else if l.Close? && l.ok then s.files[s.threads[l.t].url := Complete]
    else if l.Discard? && l.ok then s.files - {s.threads[l.t].url}
    else s.files
  }

  function Next(s: State, l: Label): State
    requires Enabled(s, l)
  {
    State(
      NextTable(s, l),
      NextHeld(s, l),
      if l.InitLock? then Somebody(l.t) else if l.InitDirectory? then Nobody else s.initHolder,
      s.directory || (l.InitDirectory? && l.ok),
      NextFiles(s, l),
      s.threads[l.t := NextThread(s, l)],
      if l.Close? && l.ok then s.fetched[s.threads[l.t].url := Fetches(s, s.threads[l.t].url) + 1] else s.fetched,
      if (l.Close? || l.Discard?) && !l.ok then s.leftovers + {s.threads[l.t].url} else s.leftovers)
  }

  // ---- Runs

  predicate Step(s: State, l: Label, s': State) {
    Enabled(s, l) && s' == Next(s, l)
  }

  datatype Run = Run(states: seq<State>, labels: seq<Label>)

  ghost predicate IsRun(r: Run) {
    && |r.states| == |r.labels| + 1
    && IsInit(r.states[0])
    && forall i :: 0 <= i < |r.labels| ==> Step(r.states[i], r.labels[i], r.states[i + 1])
  }

  ghost predicate Reachable(s: State) {
    exists r :: IsRun(r) && r.states[|r.labels|] == s
  }

  // ---- The locks

  predicate HoldsLock(pc: Pc) {
    !pc.Entering? && !pc.Waiting? && !pc.Done?
  }

  /** The call is between creating the cache file and being done with it. */
  predicate Writing(pc: Pc) {
    pc.Copying? || pc.Closing? || pc.Discarding?
  }

  /** The call has missed the cache and may still fetch. */
  predicate Fetching(pc: Pc) {
    pc.WantInit? || pc.InInit? || pc.Requesting? || pc.CreatingFile? || Writing(pc)
  }

  /** Every mutex in the map was brought along by a call for that URL. */
  ghost predicate TableInv(s: State) {
    forall u :: u in s.table ==> s.table[u] in s.threads && s.threads[s.table[u]].url == u && !s.threads[s.table[u]].pc.Entering?
  }

  /** A call that has consulted the map uses the mutex found there. */
  predicate MutexOf(s: State, t: ThreadId)
    requires t in s.threads
  {
    if s.threads[t].pc.Entering? then s.threads[t].mutex == t
    else s.threads[t].url in s.table && s.threads[t].mutex == s.table[s.threads[t].url]
  }

  predicate HeldBy(s: State, m: ThreadId, t: ThreadId) {
    m in s.held && s.held[m] == t
  }

  ghost predicate LockInv(s: State) {
    && (forall t :: t in s.threads ==> MutexOf(s, t))
    && (forall m :: m in s.held ==> IsHolder(s, m))
    && (forall t :: t in s.threads && HoldsLock(s.threads[t].pc) ==> HeldBy(s, s.threads[t].mutex, t))
  }

  ghost predicate InitInv(s: State) {
    forall t :: At(s, t, InInit) <==> s.initHolder == Somebody(t)
  }

  /** What the file of a thread's URL is, by where the thread is. */
  ghost predicate FileOf(s: State, t: Thread) {
    && (Writing(t.pc) ==> t.url in s.files && s.files[t.url] == Partial && t.url !in s.leftovers)
    && (Fetching(t.pc) && !Writing(t.pc) ==> t.url !in s.files)
    && (t.pc.Verifying? || t.pc == Unlocking(CachePath) || t.pc == Done(CachePath) ==>
          t.url in s.files && (s.files[t.url] == Complete || t.url in s.leftovers))
  }

  ghost predicate IsWriter(s: State, t: ThreadId, url: Url) {
    t in s.threads && s.threads[t].url == url && Writing(s.threads[t].pc)
  }

  ghost predicate FileInv(s: State) {
    && (forall u :: u in s.files && s.files[u] == Partial ==> u in s.leftovers || exists t :: IsWriter(s, t, u))
    && (forall u :: u in s.leftovers ==> u in s.files && s.files[u] == Partial)
    && (forall u :: u in s.fetched ==> s.fetched[u] <= 1 && u in s.files && s.files[u] == Complete)
    && (forall t :: t in s.threads ==> FileOf(s, s.threads[t]))
  }

  ghost predicate Inv(s: State) {
    TableInv(s) && LockInv(s) && InitInv(s) && FileInv(s)
  }

  lemma TableKept(s: State, l: Label)
    requires Inv(s) && Enabled(s, l)
    ensures TableInv(Next(s, l))
  {
    var s' := Next(s, l);
    forall u | u in s'.table
      ensures s'.table[u] in s'.threads && s'.threads[s'.table[u]].url == u && !s'.threads[s'.table[u]].pc.Entering?
    {
    }
  }

  lemma MutexOfKept(s: State, l: Label, t: ThreadId)
    requires Inv(s) && Enabled(s, l) && t in Next(s, l).threads
    ensures MutexOf(Next(s, l), t)
  {
    if t != l.t {
      assert MutexOf(s, t);
    } else if !l.Call? {
      assert MutexOf(s, t);
    }
  }

  ghost predicate IsHolder(s: State, m: ThreadId)
    requires m in s.held
  {
    s.held[m] in s.threads && s.threads[s.held[m]].mutex == m && HoldsLock(s.threads[s.held[m]].pc)
  }

  lemma HolderKept(s: State, l: Label, m: ThreadId)
    requires Enabled(s, l) && m in Next(s, l).held
    requires m in s.held ==> IsHolder(s, m)
    ensures IsHolder(Next(s, l), m)
  {
  }

  lemma HeldKept(s: State, l: Label, t: ThreadId)
    requires Enabled(s, l) && t in Next(s, l).threads && HoldsLock(Next(s, l).threads[t].pc)
    requires t in s.threads && HoldsLock(s.threads[t].pc) ==> HeldBy(s, s.threads[t].mutex, t)
    requires l.Unlock? ==> HeldBy(s, s.threads[l.t].mutex, l.t)
    ensures HeldBy(Next(s, l), Next(s, l).threads[t].mutex, t)
  {
  }

  lemma LocksKept(s: State, l: Label)
    requires Inv(s) && Enabled(s, l)
    ensures LockInv(Next(s, l))
  {
    var s' := Next(s, l);
    forall t | t in s'.threads ensures MutexOf(s', t) {
      MutexOfKept(s, l, t);
    }
    forall m | m in s'.held ensures IsHolder(s', m) {
      assert m in s.held ==> IsHolder(s, m);
      HolderKept(s, l, m);
    }
    forall t | t in s'.threads && HoldsLock(s'.threads[t].pc) ensures HeldBy(s', s'.threads[t].mutex, t) {
      assert t in s.threads && HoldsLock(s.threads[t].pc) ==> HeldBy(s, s.threads[t].mutex, t);
      assert l.Unlock? ==> HeldBy(s, s.threads[l.t].mutex, l.t);
      HeldKept(s, l, t);
    }
  }

  lemma InitKept(s: State, l: Label)
    requires InitInv(s) && Enabled(s, l)
    ensures InitInv(Next(s, l))
  {
    var s' := Next(s, l);
    forall t ensures At(s', t, InInit) <==> s'.initHolder == Somebody(t) {
      assert At(s, t, InInit) <==> s.initHolder == Somebody(t);
      assert t == l.t && !l.Call? ==> At(s, t, s.threads[t].pc);
    }
  }

  /** Two calls holding the lock of the same URL are one. */
  lemma LockExclusive(s: State, t: ThreadId, t': ThreadId)
    requires TableInv(s) && LockInv(s) && t in s.threads && t' in s.threads
    requires s.threads[t].url == s.threads[t'].url && HoldsLock(s.threads[t].pc) && HoldsLock(s.threads[t'].pc)
    ensures t == t'
  {
  }

  /** Only the holder of a URL's lock, on its way through a fetch, changes what is known of the URL's file. */
  lemma FileStays(s: State, l: Label, u: Url)
    requires Enabled(s, l)
    requires l.Call? || s.threads[l.t].url != u || !(l.CreateFile? || l.Close? || l.Discard?)
    ensures u in NextFiles(s, l) <==> u in s.files
    ensures u in s.files ==> NextFiles(s, l)[u] == s.files[u]
    ensures u in Next(s, l).leftovers <==> u in s.leftovers
  {
  }

  lemma FileOfOther(s: State, l: Label, t: ThreadId)
    requires Enabled(s, l) && t in s.threads && t != l.t
    requires FileOf(s, s.threads[t]) && (!l.Call? ==> FileOf(s, s.threads[l.t]))
    requires !l.Call? && s.threads[l.t].url == s.threads[t].url && HoldsLock(s.threads[l.t].pc) ==> !HoldsLock(s.threads[t].pc)
    ensures FileOf(Next(s, l), s.threads[t])
  {
    if l.Call? || s.threads[l.t].url != s.threads[t].url || !(l.CreateFile? || l.Close? || l.Discard?) {
      FileStays(s, l, s.threads[t].url);
    }
  }

  lemma FileOfSelf(s: State, l: Label)
    requires Enabled(s, l) && (!l.Call? ==> FileOf(s, s.threads[l.t]))
    requires l.StatCache? && s.threads[l.t].url in s.files && s.files[s.threads[l.t].url] == Partial ==>
      s.threads[l.t].url in s.leftovers
    requires !l.Call? && s.threads[l.t].url in s.leftovers ==> s.threads[l.t].url in s.files
    ensures FileOf(Next(s, l), NextThread(s, l))
  {
  }

  /** A call that finds an unfinished file finds a leftover: nobody else can be writing it. */
  lemma PartialIsLeftover(s: State, t: ThreadId)
    requires Inv(s) && t in s.threads && HoldsLock(s.threads[t].pc) && !Writing(s.threads[t].pc)
    requires s.threads[t].url in s.files && s.files[s.threads[t].url] == Partial
    ensures s.threads[t].url in s.leftovers
  {
    var u := s.threads[t].url;
    if u !in s.leftovers {
      var w :| IsWriter(s, w, u);
      LockExclusive(s, t, w);
    }
  }

  lemma PartialKept(s: State, l: Label, u: Url)
    requires Inv(s) && Enabled(s, l)
    requires u in NextFiles(s, l) && NextFiles(s, l)[u] == Partial
    ensures u in Next(s, l).leftovers || exists t :: IsWriter(Next(s, l), t, u)
  {
    if l.CreateFile? && l.ok && s.threads[l.t].url == u {
      assert IsWriter(Next(s, l), l.t, u);
    } else if u !in s.leftovers {
      assert u in s.files && s.files[u] == Partial;
      var w :| IsWriter(s, w, u);
      WriterKept(s, l, w, u);
    }
  }

  lemma WriterKept(s: State, l: Label, w: ThreadId, u: Url)
    requires Enabled(s, l) && IsWriter(s, w, u) && u in NextFiles(s, l) && NextFiles(s, l)[u] == Partial
    ensures u in Next(s, l).leftovers || IsWriter(Next(s, l), w, u)
  {
  }

  lemma LeftoversKept(s: State, l: Label, u: Url)
    requires Enabled(s, l) && u in Next(s, l).leftovers
    requires u in s.leftovers ==> u in s.files && s.files[u] == Partial
    requires !l.Call? ==> FileOf(s, s.threads[l.t])
    ensures u in NextFiles(s, l) && NextFiles(s, l)[u] == Partial
  {
  }

  lemma FetchedKept(s: State, l: Label, u: Url)
    requires Enabled(s, l) && u in Next(s, l).fetched
    requires u in s.fetched ==> s.fetched[u] <= 1 && u in s.files && s.files[u] == Complete
    requires !l.Call? ==> FileOf(s, s.threads[l.t])
    ensures Next(s, l).fetched[u] <= 1 && u in NextFiles(s, l) && NextFiles(s, l)[u] == Complete
  {
  }

  lemma FilesKept(s: State, l: Label)
    requires Inv(s) && Enabled(s, l)
    ensures FileInv(Next(s, l))
  {
    var s' := Next(s, l);
    assert !l.Call? ==> FileOf(s, s.threads[l.t]);
    forall u | u in s'.files && s'.files[u] == Partial ensures u in s'.leftovers || exists t :: IsWriter(s', t, u) {
      PartialKept(s, l, u);
    }
    forall u | u in s'.leftovers ensures u in s'.files && s'.files[u] == Partial {
      LeftoversKept(s, l, u);
    }
    forall u | u in s'.fetched ensures s'.fetched[u] <= 1 && u in s'.files && s'.files[u] == Complete {
      FetchedKept(s, l, u);
    }
    forall t | t in s'.threads ensures FileOf(s', s'.threads[t]) {
      if t == l.t {
        if l.StatCache? && s.threads[t].url in s.files && s.files[s.threads[t].url] == Partial {
          PartialIsLeftover(s, t);
        }
        FileOfSelf(s, l);
      } else {
        if !l.Call? && s.threads[l.t].url == s.threads[t].url && HoldsLock(s.threads[l.t].pc) && HoldsLock(s.threads[t].pc) {
          LockExclusive(s, t, l.t);
        }
        FileOfOther(s, l, t);
      }
    }
  }

  lemma InvStep(s: State, l: Label)
    requires Inv(s) && Enabled(s, l)
    ensures Inv(Next(s, l))
  {
    TableKept(s, l);
    LocksKept(s, l);
    InitKept(s, l);
    FilesKept(s, l);
  }

  lemma {:induction false} InvAt(r: Run, k: nat)
    requires IsRun(r) && k < |r.states|
    ensures Inv(r.states[k])
  {
    if k > 0 {
      InvAt(r, k - 1);
      assert Step(r.states[k - 1], r.labels[k - 1], r.states[k]);
      InvStep(r.states[k - 1], r.labels[k - 1]);
    }
  }

  lemma ReachableInv(s: State)
    requires Reachable(s)
    ensures Inv(s)
  {
    var r :| IsRun(r) && r.states[|r.labels|] == s;
    InvAt(r, |r.labels|);
  }

  // ---- What every interleaving keeps

  /** At most one call per URL is past the lock, hence at most one fetch of it is in flight. */
  lemma OneFetchInFlight(s: State, t: ThreadId, t': ThreadId)
    requires Reachable(s) && t in s.threads && t' in s.threads && s.threads[t].url == s.threads[t'].url
    requires Fetching(s.threads[t].pc) && Fetching(s.threads[t'].pc)
    ensures t == t'
  {
    ReachableInv(s);
    LockExclusive(s, t, t');
  }

  /** An unfinished cache file has a writer, which holds the lock of that URL, unless it was there at first
      or a failed Close or Remove has left it. */
  lemma PartialOnlyUnderLock(s: State, u: Url)
    requires Reachable(s) && u in s.files && s.files[u] == Partial && u !in s.leftovers
    ensures exists t :: IsWriter(s, t, u) && HeldBy(s, s.threads[t].mutex, t) && u in s.table && s.threads[t].mutex == s.table[u]
  {
    ReachableInv(s);
    var t :| IsWriter(s, t, u);
    assert MutexOf(s, t) && HeldBy(s, s.threads[t].mutex, t);
  }

  /** The file was there at first, unfinished. */
  predicate UnfinishedAtFirst(r: Run, u: Url)
    requires |r.states| > 0
  {
    u in r.states[0].files && r.states[0].files[u] == Partial
  }

  /** In step `k` of the run closing or removing the URL's unfinished file fails. */
  predicate CleanupFails(r: Run, k: nat, u: Url)
    requires |r.states| == |r.labels| + 1 && k < |r.labels|
  {
    var l := r.labels[k];
    (l.Close? || l.Discard?) && !l.ok && l.t in r.states[k].threads && r.states[k].threads[l.t].url == u
  }

  lemma {:induction false} LeftoversMean(r: Run, u: Url, j: nat)
    requires IsRun(r) && j < |r.states|
    ensures u in r.states[j].leftovers <==> UnfinishedAtFirst(r, u) || exists k :: 0 <= k < j && CleanupFails(r, k, u)
  {
    if j > 0 {
      LeftoversMean(r, u, j - 1);
      assert Step(r.states[j - 1], r.labels[j - 1], r.states[j]);
      assert u in r.states[j].leftovers <==> u in r.states[j - 1].leftovers || CleanupFails(r, j - 1, u);
    }
  }

  /** A returned cache path holds a complete body if and only if the file was not unfinished at first and no Close
      or Remove has failed for its URL. */
  lemma ReturnedPathComplete(r: Run, t: ThreadId)
    requires IsRun(r) && At(r.states[|r.labels|], t, Done(CachePath))
    ensures var s := r.states[|r.labels|];
      var u := s.threads[t].url;
      u in s.files &&
      (s.files[u] == Complete <==> !UnfinishedAtFirst(r, u) && forall k :: 0 <= k < |r.labels| ==> !CleanupFails(r, k, u))
  {
    var s := r.states[|r.labels|];
    InvAt(r, |r.labels|);
    assert FileOf(s, s.threads[t]);
    LeftoversMean(r, s.threads[t].url, |r.labels|);
  }

  /** A URL is fetched successfully at most once, and never when its file was there at first. */
  lemma FetchedAtMostOnce(r: Run, u: Url)
    requires IsRun(r)
    ensures var s := r.states[|r.labels|]; Fetches(s, u) <= (if u in r.states[0].files then 0 else 1)
  {
    InvAt(r, |r.labels|);
    if UnfinishedAtFirst(r, u) {
      LeftoversMean(r, u, |r.labels|);
    } else if u in r.states[0].files {
      CompleteForever(r, u, 0, |r.labels|);
    }
  }

  lemma CompleteStays(s: State, l: Label, u: Url)
    requires Enabled(s, l) && (!l.Call? ==> FileOf(s, s.threads[l.t])) && u in s.files && s.files[u] == Complete
    ensures u in NextFiles(s, l) && NextFiles(s, l)[u] == Complete
    ensures Fetches(Next(s, l), u) == Fetches(s, u)
  {
  }

  /** A complete file stays complete, and its URL is not fetched again. */
  lemma {:induction false} CompleteForever(r: Run, u: Url, i: nat, j: nat)
    requires IsRun(r) && i <= j < |r.states| && u in r.states[i].files && r.states[i].files[u] == Complete
    ensures u in r.states[j].files && r.states[j].files[u] == Complete
    ensures Fetches(r.states[j], u) == Fetches(r.states[i], u)
  {
    if i < j {
      CompleteForever(r, u, i, j - 1);
      InvAt(r, j - 1);
      assert Step(r.states[j - 1], r.labels[j - 1], r.states[j]);
      CompleteStays(r.states[j - 1], r.labels[j - 1], u);
    }
  }

  // ---- What a call returns

  /** One of the steps of fetching fails in the call. */
  predicate StepFails(l: Label, t: ThreadId) {
    l.t == t &&
    match l
    case InitDirectory(_, ok) => !ok
    case Request(_, ok) => !ok
    case CreateFile(_, ok) => !ok
    case Copy(_, ok) => !ok
    case Close(_, ok) => !ok
    case Verify(_, ok) => !ok
    case _ => false
  }

  ghost predicate SomeStepFails(labels: seq<Label>, t: ThreadId) {
    exists l :: l in labels && StepFails(l, t)
  }

  /** What the place of a call tells of the steps it has taken. */
  predicate Tells(pc: Pc, failed: bool, local: bool) {
    match pc
    case Discarding => failed && !local
    case Unlocking(result) => (result == Failed <==> failed) && (result == LocalFile <==> local)
    case Done(result) => (result == Failed <==> failed) && (result == LocalFile <==> local)
    case _ => !failed && !local
  }

  lemma TellsNext(s: State, l: Label, failed: bool, local: bool)
    requires Enabled(s, l) && (!l.Call? ==> Tells(s.threads[l.t].pc, failed, local))
    requires l.Call? ==> !failed && !local
    ensures Tells(NextPc(s, l), failed || StepFails(l, l.t), local || l == StatLocal(l.t, true))
  {
  }

  lemma {:induction false} ToldAt(r: Run, t: ThreadId, j: nat)
    requires IsRun(r) && j < |r.states|
    ensures t !in r.states[j].threads ==> forall l :: l in r.labels[..j] ==> l.t != t
    ensures t in r.states[j].threads ==>
      Tells(r.states[j].threads[t].pc, SomeStepFails(r.labels[..j], t), StatLocal(t, true) in r.labels[..j])
  {
    if j > 0 {
      ToldAt(r, t, j - 1);
      var l := r.labels[j - 1];
      assert Step(r.states[j - 1], l, r.states[j]);
      assert r.labels[..j] == r.labels[..j - 1] + [l];
      if l.t == t {
        TellsNext(r.states[j - 1], l, SomeStepFails(r.labels[..j - 1], t), StatLocal(t, true) in r.labels[..j - 1]);
        assert StepFails(l, t) ==> SomeStepFails(r.labels[..j], t);
      }
      assert SomeStepFails(r.labels[..j], t) ==> SomeStepFails(r.labels[..j - 1], t) || StepFails(l, t);
      assert SomeStepFails(r.labels[..j - 1], t) ==> SomeStepFails(r.labels[..j], t);
    }
  }

  /** A call has failed exactly when one of its own steps of fetching has failed, returns a local file exactly when it
      has found one, and otherwise returns the path in the cache. */
  lemma OutcomeMeans(r: Run, t: ThreadId)
    requires IsRun(r) && t in r.states[|r.labels|].threads && r.states[|r.labels|].threads[t].pc.Done?
    ensures var result := r.states[|r.labels|].threads[t].pc.result;
      && (result == Failed <==> exists l :: l in r.labels && StepFails(l, t))
      && (result == LocalFile <==> StatLocal(t, true) in r.labels)
      && (result == CachePath <==> !(exists l :: l in r.labels && StepFails(l, t)) && StatLocal(t, true) !in r.labels)
  {
    ToldAt(r, t, |r.labels|);
    assert r.labels[..|r.labels|] == r.labels;
    assert SomeStepFails(r.labels, t) <==> exists l :: l in r.labels && StepFails(l, t);
  }

  /** A call is for the URL it began with. */
  lemma {:induction false} UrlIsCalled(r: Run, t: ThreadId, j: nat)
    requires IsRun(r) && j < |r.states| && t in r.states[j].threads
    ensures Call(t, r.states[j].threads[t].url) in r.labels[..j]
  {
    if j > 0 {
      var l := r.labels[j - 1];
      assert Step(r.states[j - 1], l, r.states[j]);
      assert r.labels[..j] == r.labels[..j - 1] + [l];
      if l != Call(t, r.states[j].threads[t].url) {
        UrlIsCalled(r, t, j - 1);
      }
    }
  }

  /** In step `k` of the run the URL's file is completed. */
  predicate Completes(r: Run, k: nat, u: Url)
    requires |r.states| == |r.labels| + 1 && k < |r.labels|
  {
    r.labels[k].Close? && r.labels[k].ok && r.labels[k].t in r.states[k].threads && r.states[k].threads[r.labels[k].t].url == u
  }

  /** How often the URL's file is completed in the first `j` steps. */
  ghost function Completions(r: Run, u: Url, j: nat): nat
    requires |r.states| == |r.labels| + 1 && j <= |r.labels|
  {
    if j == 0 then 0 else Completions(r, u, j - 1) + if Completes(r, j - 1, u) then 1 else 0
  }

  lemma {:induction false} FetchesMean(r: Run, u: Url, j: nat)
    requires IsRun(r) && j < |r.states|
    ensures Fetches(r.states[j], u) == Completions(r, u, j)
  {
    if j > 0 {
      FetchesMean(r, u, j - 1);
      assert Step(r.states[j - 1], r.labels[j - 1], r.states[j]);
    }
  }

  /** No two steps of a run complete the file of one URL, and none does when it was there at first. */
  lemma CompletedAtMostOnce(r: Run, u: Url, k: nat)
    requires IsRun(r) && k < |r.labels| && Completes(r, k, u)
    ensures u !in r.states[0].files
    ensures forall i :: 0 <= i < k ==> !Completes(r, i, u)
    ensures u in r.states[k + 1].files && r.states[k + 1].files[u] == Complete
  {
    var s := r.states[k];
    InvAt(r, k);
    assert Step(s, r.labels[k], r.states[k + 1]);
    assert FileOf(s, s.threads[r.labels[k].t]);
    forall i | 0 <= i < k ensures !Completes(r, i, u) {
      if Completes(r, i, u) {
        assert Step(r.states[i], r.labels[i], r.states[i + 1]);
        CompleteForever(r, u, i + 1, k);
      }
    }
    if u in r.states[0].files {
      if UnfinishedAtFirst(r, u) {
        LeftoversMean(r, u, k);
      } else {
        CompleteForever(r, u, 0, k);
      }
    }
  }

  /** No state with an unfinished call is stuck: the lock of a URL and the lock of the directory are always
      taken in that order. */
  lemma NoDeadlock(s: State, t: ThreadId) returns (l: Label)
    requires Reachable(s) && t in s.threads && !s.threads[t].pc.Done?
    ensures Enabled(s, l) && !l.Call?
  {
    ReachableInv(s);
    if s.threads[t].pc.Entering? {
      l := LoadOrStore(t);
    } else if s.threads[t].pc.Waiting? && s.threads[t].mutex !in s.held {
      l := Lock(t);
    } else {
      assert s.threads[t].pc.Waiting? ==> IsHolder(s, s.threads[t].mutex);
      var h := if s.threads[t].pc.Waiting? then s.held[s.threads[t].mutex] else t;
      l := HolderStep(s, h);
    }
  }

  lemma HolderStep(s: State, h: ThreadId) returns (l: Label)
    requires Inv(s) && h in s.threads && HoldsLock(s.threads[h].pc)
    ensures Enabled(s, l) && !l.Call?
  {
    match s.threads[h].pc
    case CheckLocal => l := StatLocal(h, false);
    case CheckCache => l := StatCache(h);
    case WantInit =>
      assert s.initHolder.Somebody? ==> At(s, s.initHolder.t, InInit);
      l := if s.initHolder.Nobody? then InitLock(h) else InitDirectory(s.initHolder.t, true);
    case InInit => l := InitDirectory(h, true);
    case Requesting => l := Request(h, true);
    case CreatingFile => l := CreateFile(h, true);
    case Copying => l := Copy(h, true);
    case Closing => l := Close(h, true);
    case Discarding => l := Discard(h, true);
    case Verifying => l := Verify(h, true);
    case Unlocking(_) => l := Unlock(h);
    case Entering => assert false;
    case Waiting => assert false;
    case Done(_) => assert false;
  }

  /** Every step of a fetch can succeed and can fail, but making the directory, which cannot fail once it is there. */
  lemma BothOutcomes(s: State, t: ThreadId, ok: bool)
    requires t in s.threads
    ensures match s.threads[t].pc
      case CheckLocal => Enabled(s, StatLocal(t, ok))
      case InInit => Enabled(s, InitDirectory(t, true)) && (Enabled(s, InitDirectory(t, false)) <==> !s.directory)
      case Requesting => Enabled(s, Request(t, ok))
      case CreatingFile => Enabled(s, CreateFile(t, ok))
      case Copying => Enabled(s, Copy(t, ok))
      case Closing => Enabled(s, Close(t, ok))
      case Discarding => Enabled(s, Discard(t, ok))
      case Verifying => Enabled(s, Verify(t, ok))
      case _ => true
  {
  }

  lemma {:induction false} DirectoryStays(r: Run, i: nat, j: nat)
    requires IsRun(r) && i < j < |r.states| && r.labels[i].InitDirectory? && r.labels[i].ok
    ensures r.states[j].directory
  {
    assert Step(r.states[j - 1], r.labels[j - 1], r.states[j]);
    if i < j - 1 {
      DirectoryStays(r, i, j - 1);
    }
  }

  /** Once the directory has been made no call fails to make it. */
  lemma DirectoryMadeOnce(r: Run, i: nat, j: nat)
    requires IsRun(r) && i < j < |r.labels| && r.labels[i].InitDirectory? && r.labels[i].ok && r.labels[j].InitDirectory?
    ensures r.labels[j].ok
  {
    DirectoryStays(r, i, j);
    assert Step(r.states[j], r.labels[j], r.states[j + 1]);
  }

  // ---- A leftover is returned as if it were complete

  lemma Extend(s: State, l: Label, s': State)
    requires Reachable(s) && Enabled(s, l) && s' == Next(s, l)
    ensures Reachable(s')
  {
    var r :| IsRun(r) && r.states[|r.labels|] == s;
    var more := Run(r.states + [s'], r.labels + [l]);
    assert Step(s, l, s');
    assert IsRun(more) && more.states[|more.labels|] == s';
  }

  lemma Called(s: State, t: ThreadId, u: Url, m: ThreadId)
    requires Reachable(s) && t !in s.threads && m == if u in s.table then s.table[u] else t
    ensures Reachable(s.(table := s.table[u := m], threads := s.threads[t := Thread(u, m, Waiting)]))
  {
    var s1 := s.(threads := s.threads[t := Thread(u, t, Entering)]);
    assert Reachable(s1) by { Extend(s, Call(t, u), s1); }
    var s2 := s.(table := s.table[u := m], threads := s.threads[t := Thread(u, m, Waiting)]);
    assert s1.threads[t := Thread(u, m, Waiting)] == s2.threads;
    assert NextTable(s1, LoadOrStore(t)) == s2.table;
    Extend(s1, LoadOrStore(t), s2);
  }

  lemma Locked(s: State, t: ThreadId, u: Url, m: ThreadId)
    requires Reachable(s) && t in s.threads && s.threads[t] == Thread(u, m, Waiting) && m !in s.held
    ensures Reachable(s.(held := s.held[m := t], threads := s.threads[t := Thread(u, m, CheckCache)]))
  {
    var s1 := s.(held := s.held[m := t], threads := s.threads[t := Thread(u, m, CheckLocal)]);
    assert Reachable(s1) by { Extend(s, Lock(t), s1); }
    var s2 := s1.(threads := s.threads[t := Thread(u, m, CheckCache)]);
    assert s1.threads[t := Thread(u, m, CheckCache)] == s2.threads;
    Extend(s1, StatLocal(t, false), s2);
  }

  /** A new call takes the lock of its URL and finds that the URL is no local file. */
  lemma ToCheckCache(s: State, t: ThreadId, u: Url, m: ThreadId) returns (s': State)
    requires Reachable(s) && t !in s.threads && m !in s.held
    requires m == if u in s.table then s.table[u] else t
    ensures Reachable(s')
    ensures s' == s.(table := s.table[u := m], held := s.held[m := t], threads := s.threads[t := Thread(u, m, CheckCache)])
  {
    Called(s, t, u, m);
    var s1 := s.(table := s.table[u := m], threads := s.threads[t := Thread(u, m, Waiting)]);
    Locked(s1, t, u, m);
    assert s1.threads[t := Thread(u, m, CheckCache)] == s.threads[t := Thread(u, m, CheckCache)];
    s' := s1.(held := s.held[m := t], threads := s1.threads[t := Thread(u, m, CheckCache)]);
  }

  /** A call gets as far as asking for the file. */
  lemma AfterMiss(u: Url) returns (s: State)
    ensures Reachable(s)
    ensures s == State(map[u := 0], map[0 := 0], Nobody, true, map[], map[0 := Thread(u, 0, Requesting)], map[], {})
  {
    var s0 := State(map[], map[], Nobody, false, map[], map[], map[], {});
    assert IsRun(Run([s0], []));
    var s2 := State(map[u := 0], map[0 := 0], Nobody, false, map[], map[0 := Thread(u, 0, WantInit)], map[], {});
    assert Reachable(s2) by {
      var s1 := ToCheckCache(s0, 0, u, 0);
      Extend(s1, StatCache(0), s2);
    }
    var s3 := s2.(initHolder := Somebody(0), threads := map[0 := Thread(u, 0, InInit)]);
    assert Reachable(s3) by { Extend(s2, InitLock(0), s3); }
    s := s3.(initHolder := Nobody, directory := true, threads := map[0 := Thread(u, 0, Requesting)]);
    Extend(s3, InitDirectory(0, true), s);
  }

  /** It breaks off in the middle of the body. */
  lemma AfterBreak(u: Url) returns (s: State)
    ensures Reachable(s)
    ensures s == State(map[u := 0], map[0 := 0], Nobody, true, map[u := Partial], map[0 := Thread(u, 0, Discarding)], map[], {})
  {
    var s0 := AfterMiss(u);
    var s1 := s0.(threads := map[0 := Thread(u, 0, CreatingFile)]);
    assert Reachable(s1) by { Extend(s0, Request(0, true), s1); }
    var s2 := s1.(files := map[u := Partial], threads := map[0 := Thread(u, 0, Copying)]);
    assert Reachable(s2) by { Extend(s1, CreateFile(0, true), s2); }
    s := s2.(threads := map[0 := Thread(u, 0, Discarding)]);
    Extend(s2, Copy(0, false), s);
  }

  /** It cannot remove the file. */
  lemma AfterLeftover(u: Url) returns (s: State)
    ensures Reachable(s)
    ensures s == State(map[u := 0], map[], Nobody, true, map[u := Partial], map[0 := Thread(u, 0, Done(Failed))], map[], {u})
  {
    var s0 := AfterBreak(u);
    var s1 := s0.(threads := map[0 := Thread(u, 0, Unlocking(Failed))], leftovers := {u});
    assert Reachable(s1) by { Extend(s0, Discard(0, false), s1); }
    s := s1.(held := map[], threads := map[0 := Thread(u, 0, Done(Failed))]);
    Extend(s1, Unlock(0), s);
  }

  /** The next call for the same URL hits the leftover and returns its path. */
  lemma LeftoverIsReturned(u: Url) returns (s: State)
    ensures Reachable(s) && At(s, 1, Done(CachePath)) && s.threads[1].url == u
    ensures s.files == map[u := Partial]
  {
    var s0 := AfterLeftover(u);
    var s1 := ToCheckCache(s0, 1, u, 0);
    var s2 := s1.(threads := s0.threads[1 := Thread(u, 0, Unlocking(CachePath))]);
    assert Reachable(s2) by { Extend(s1, StatCache(1), s2); }
    s := s2.(held := map[], threads := s0.threads[1 := Thread(u, 0, Done(CachePath))]);
    Extend(s2, Unlock(1), s);
  }

  /** So does the first call of a process that finds the unfinished file of one that was killed. */
  lemma EarlierPartialIsReturned(u: Url) returns (s: State)
    ensures Reachable(s) && At(s, 0, Done(CachePath)) && s.threads[0].url == u
    ensures s.files == map[u := Partial]
  {
    var s0 := State(map[], map[], Nobody, true, map[u := Partial], map[], map[], {u});
    assert IsInit(s0) && IsRun(Run([s0], []));
    var s1 := ToCheckCache(s0, 0, u, 0);
    var s2 := s1.(threads := map[0 := Thread(u, 0, Unlocking(CachePath))]);
    assert Reachable(s2) by { Extend(s1, StatCache(0), s2); }
    s := s2.(held := map[], threads := map[0 := Thread(u, 0, Done(CachePath))]);
    Extend(s2, Unlock(0), s);
  }
}
