/**
 The read/modify/write cycle on a shared secret, with any number of concurrent calls
 (internal/application/configurations.go, env.go, services.go, scale.go, secret.go and
 internal/configurations/configurations.go).

 The cluster holds one secret under a version that every write changing it increases.  A call loads the
 secret, modifies its copy and sends it back with the version it loaded; the cluster refuses the copy when
 the version has moved on, and the call starts over, `attempts` times at most.
 */
module OptimisticUpdate {
  import opened SecretData
  import opened Wrappers

  type CallId = nat

  /** What a call asks for.  Replace is ReplaceConfiguration, which sends one and the same copy every time. */
  datatype Op = Modify(mod: Modifier) | Replace(data: map<string, string>)

  datatype Store = Missing | Present(version: nat, data: Data)

  /** The version sent along with an Update.  The copy of a secret the call itself created carries none, and
      an Update without version is unconditional. */
  datatype Base = Version(v: nat) | Unversioned

  /** How a call ended.  OtherError stands for every error that is not a conflict. */
  datatype Outcome = Committed | Unchanged | ConflictLeft | OtherError

  /** `conflicts` counts the attempts refused so far; `seen` is the data the call has loaded. */
  datatype Phase =
    | Loading(conflicts: nat)
    | Creating(conflicts: nat)
    | Sending(conflicts: nat, base: Base, seen: Data)
    | Returned(outcome: Outcome, ended: nat)

  /** A call, with the length of the log and the version of the secret at the time it began. */
  datatype Call = Call(op: Op, began: nat, beganVersion: nat, phase: Phase)

  datatype Author = ByCall(id: CallId) | External

  /** A write the cluster accepted.  `bumped` is false for a write that changed nothing and left the version. */
  datatype Commit = Commit(author: Author, op: Op, bumped: bool)

  datatype State = State(attempts: nat, store: Store, calls: map<CallId, Call>, log: seq<Commit>)

  datatype Label =
    | Begin(id: CallId, op: Op)
    | Get(id: CallId)
    | GetFails(id: CallId)
    | Create(id: CallId)
    | CreateFails(id: CallId, applied: bool)
    | Update(id: CallId, bump: bool)
    | Conflict(id: CallId)
    | UpdateFails(id: CallId)
    | UpdateReplyLost(id: CallId, bump: bool)
    | ExternalWrite(data: map<string, string>, bump: bool)

  function Init(attempts: nat, store: Store): State {
    State(attempts, store, map[], [])
  }

  /** Only the secrets Epinio keeps per application are created on demand. */
  predicate CreatesMissing(op: Op) {
    op.Modify? && !op.mod.Edit?
  }

  /** The whole operation as one atomic step on the data. */
  function Atomic(op: Op, d: Data): Data {
    match op
    case Modify(mod) => Modified(mod, d)
    case Replace(data) => Entries(data)
  }

  /** The cluster accepts the copy call `id` sends. */
  predicate Accepts(s: State, id: CallId, bump: bool) {
    && id in s.calls && s.calls[id].phase.Sending? && s.store.Present?
    && (s.calls[id].phase.base.Unversioned? || s.calls[id].phase.base.v == s.store.version)
    && (bump || Atomic(s.calls[id].op, s.calls[id].phase.seen) == s.store.data)
  }

  predicate Enabled(s: State, l: Label) {
    match l
    case Begin(id, op) => id !in s.calls
    case Get(id) => id in s.calls && s.calls[id].phase.Loading?
    case GetFails(id) => id in s.calls && s.calls[id].phase.Loading?
    case Create(id) => id in s.calls && s.calls[id].phase.Creating? && s.store.Missing?
    case CreateFails(id, applied) => id in s.calls && s.calls[id].phase.Creating? && (applied ==> s.store.Missing?)
    case Update(id, bump) => Accepts(s, id, bump)
    case Conflict(id) =>
      && id in s.calls && s.calls[id].phase.Sending? && s.calls[id].phase.base.Version?
      && s.store.Present? && s.calls[id].phase.base.v != s.store.version
    case UpdateFails(id) => id in s.calls && s.calls[id].phase.Sending?
    case UpdateReplyLost(id, bump) => Accepts(s, id, bump)
    case ExternalWrite(data, bump) => s.store.Present? && (bump || s.store.data == Entries(data))
  }

  function To(s: State, id: CallId, phase: Phase): State
    requires id in s.calls
  {
    s.(calls := s.calls[id := s.calls[id].(phase := phase)])
  }

  function Written(s: State, data: Data, commit: Commit): State
    requires s.store.Present?
  {
    s.(store := Present(s.store.version + (if commit.bumped then 1 else 0), data), log := s.log + [commit])
  }

  function AfterGet(s: State, id: CallId): Phase
    requires Enabled(s, Get(id))
  {
    var c := s.calls[id];
    match s.store
    case Missing => if CreatesMissing(c.op) then Creating(c.phase.conflicts) else Returned(OtherError, |s.log|)
    case Present(v, data) =>
      if c.op.Replace? && data == Entries(c.op.data) then Returned(Unchanged, |s.log|)
      else Sending(c.phase.conflicts, Version(v), data)
  }

  function AfterConflict(s: State, id: CallId): Phase
    requires Enabled(s, Conflict(id))
  {
    var c := s.calls[id];
    if c.phase.conflicts + 1 >= s.attempts then Returned(ConflictLeft, |s.log|)
    else if c.op.Replace? then c.phase.(conflicts := c.phase.conflicts + 1)
    else Loading(c.phase.conflicts + 1)
  }

  function AfterCommit(s: State, id: CallId, bump: bool, outcome: Outcome): State
    requires Accepts(s, id, bump)
  {
    var c := s.calls[id];
    To(Written(s, Atomic(c.op, c.phase.seen), Commit(ByCall(id), c.op, bump)), id, Returned(outcome, |s.log| + 1))
  }

  function Next(s: State, l: Label): State
    requires Enabled(s, l)
  {
    match l
    case Begin(id, op) =>
      s.(calls := s.calls[id := Call(op, |s.log|, if s.store.Present? then s.store.version else 0, Loading(0))])
    case Get(id) => To(s, id, AfterGet(s, id))
    case GetFails(id) => To(s, id, Returned(OtherError, |s.log|))
    case Create(id) => To(s.(store := Present(1, Nil)), id, Sending(s.calls[id].phase.conflicts, Unversioned, Nil))
    case CreateFails(id, applied) =>
      To(if applied then s.(store := Present(1, Nil)) else s, id, Returned(OtherError, |s.log|))
    case Update(id, bump) => AfterCommit(s, id, bump, Committed)
    case Conflict(id) => To(s, id, AfterConflict(s, id))
    case UpdateFails(id) => To(s, id, Returned(OtherError, |s.log|))
    case UpdateReplyLost(id, bump) => AfterCommit(s, id, bump, OtherError)
    case ExternalWrite(data, bump) => Written(s, Entries(data), Commit(External, Replace(data), bump))
  }

  // ---- Runs

  predicate Step(s: State, l: Label, s': State) {
    Enabled(s, l) && s' == Next(s, l)
  }

  datatype Run = Run(states: seq<State>, labels: seq<Label>)

  ghost predicate IsRun(r: Run, init: State) {
    && |r.states| == |r.labels| + 1
    && r.states[0] == init
    && forall i :: 0 <= i < |r.labels| ==> Step(r.states[i], r.labels[i], r.states[i + 1])
  }

  function Last(r: Run): State
    requires |r.states| > 0
  {
    r.states[|r.states| - 1]
  }

  // ---- The history as a sequence of atomic operations

  /** The data after the logged operations, each applied whole to what the one before it left. */
  function Fold(log: seq<Commit>, d: Data): Data {
    if log == [] then d else Atomic(log[|log| - 1].op, Fold(log[..|log| - 1], d))
  }

  /** The number of logged writes that moved the version. */
  function Bumps(log: seq<Commit>): nat {
    if log == [] then 0 else Bumps(log[..|log| - 1]) + (if log[|log| - 1].bumped then 1 else 0)
  }

  /** The number of logged writes not made by call `id`. */
  function Foreign(log: seq<Commit>, id: CallId): nat {
    if log == [] then 0
    else Foreign(log[..|log| - 1], id) + (if log[|log| - 1].author == ByCall(id) then 0 else 1)
  }

  lemma FoldSnoc(log: seq<Commit>, c: Commit, d: Data)
    ensures Fold(log + [c], d) == Atomic(c.op, Fold(log, d))
    ensures Bumps(log + [c]) == Bumps(log) + (if c.bumped then 1 else 0)
  {
    assert (log + [c])[..|log|] == log;
  }

  lemma {:induction false} BumpsConcat(a: seq<Commit>, b: seq<Commit>)
    ensures Bumps(a + b) == Bumps(a) + Bumps(b)
  {
    if b == [] {
      assert a + b == a;
    } else {
      assert (a + b)[..|a + b| - 1] == a + b[..|b| - 1];
      BumpsConcat(a, b[..|b| - 1]);
    }
  }

  lemma {:induction false} BumpsForeign(log: seq<Commit>, id: CallId)
    requires forall i :: 0 <= i < |log| ==> log[i].author != ByCall(id)
    ensures Bumps(log) <= Foreign(log, id)
  {
    if log != [] {
      BumpsForeign(log[..|log| - 1], id);
    }
  }

  // ---- The invariant of runs on an existing secret

  /** A loaded copy is never newer than the store, and at the same version it is the store's data. */
  ghost predicate CopyInv(s: State, c: Call)
    requires s.store.Present?
  {
    && (c.phase.Loading? ==>
      && c.phase.conflicts <= s.store.version - c.beganVersion
      && (c.op.Replace? ==> c.phase.conflicts == 0))
    && (c.phase.Sending? ==>
      && c.phase.base.Version? && c.phase.base.v <= s.store.version
      && (c.phase.base.v == s.store.version ==> c.phase.seen == s.store.data)
      && (c.op.Modify? ==> c.phase.conflicts <= c.phase.base.v - c.beganVersion)
      && (c.op.Replace? && c.phase.conflicts > 0 ==> c.phase.base.v < s.store.version))
  }

  ghost predicate CallInv(s: State, c: Call)
    requires s.store.Present?
  {
    && c.began <= |s.log| && c.beganVersion <= s.store.version
    && !c.phase.Creating?
    && CopyInv(s, c)
    && s.store.version - c.beganVersion == Bumps(s.log[c.began..])
    && (c.phase.Returned? ==>
      && c.began <= c.phase.ended <= |s.log|
      && (c.phase.outcome == ConflictLeft && c.op.Modify? ==> s.attempts <= Bumps(s.log[c.began..c.phase.ended])))
  }

  ghost predicate LoggedAt(calls: map<CallId, Call>, c: Commit, i: nat) {
    c.author.ByCall? ==>
      var id := c.author.id;
      && id in calls && calls[id].op == c.op && calls[id].began <= i
      && calls[id].phase.Returned? && calls[id].phase.ended == i + 1
      && (calls[id].phase.outcome == Committed || calls[id].phase.outcome == OtherError)
  }

  ghost predicate IsLogged(log: seq<Commit>, id: CallId, c: Call) {
    c.phase.Returned? && c.phase.outcome == Committed ==>
      0 < c.phase.ended <= |log| && log[c.phase.ended - 1].author == ByCall(id)
  }

  /** Who is logged, and where: a committed call is logged as its last act, and only then. */
  ghost predicate LogInv(s: State) {
    && (forall i :: 0 <= i < |s.log| ==> LoggedAt(s.calls, s.log[i], i))
    && (forall id :: id in s.calls ==> IsLogged(s.log, id, s.calls[id]))
  }

  ghost predicate Inv(s: State, d: Data) {
    && s.store.Present?
    && s.store.data == Fold(s.log, d)
    && LogInv(s)
    && (forall id :: id in s.calls ==> CallInv(s, s.calls[id]))
  }

  lemma LogSuffixSnoc(log: seq<Commit>, c: Commit, from: nat)
    requires from <= |log|
    ensures Bumps((log + [c])[from..]) == Bumps(log[from..]) + (if c.bumped then 1 else 0)
  {
    assert (log + [c])[from..] == log[from..] + [c];
    BumpsConcat(log[from..], [c]);
    assert [c][..0] == [];
  }

  /** A write keeps what is known of every call. */
  lemma CallInvWritten(s: State, data: Data, commit: Commit, c: Call)
    requires s.store.Present? && CallInv(s, c)
    requires commit.bumped || data == s.store.data
    ensures CallInv(Written(s, data, commit), c)
  {
    LogSuffixSnoc(s.log, commit, c.began);
    if c.phase.Returned? {
      assert (s.log + [commit])[c.began..c.phase.ended] == s.log[c.began..c.phase.ended];
    }
  }

  /** Moving one unfinished call on, without a write. */
  lemma ToKeepsInv(s: State, id: CallId, phase: Phase, d: Data)
    requires Inv(s, d) && id in s.calls && !s.calls[id].phase.Returned?
    requires phase.Returned? ==> phase.outcome != Committed
    requires CallInv(s, s.calls[id].(phase := phase))
    ensures Inv(To(s, id, phase), d)
  {
    var s' := To(s, id, phase);
    forall k | k in s'.calls ensures CallInv(s', s'.calls[k]) {
      assert CallInv(s, s'.calls[k]);
    }
    KeepsLog(s, s');
  }

  lemma WrittenKeepsCalls(s: State, data: Data, commit: Commit)
    requires s.store.Present? && (forall id :: id in s.calls ==> CallInv(s, s.calls[id]))
    requires commit.bumped || data == s.store.data
    ensures var s' := Written(s, data, commit); forall id :: id in s'.calls ==> CallInv(s', s'.calls[id])
  {
    forall id | id in s.calls ensures CallInv(Written(s, data, commit), s.calls[id]) {
      CallInvWritten(s, data, commit, s.calls[id]);
    }
  }

  /** An accepted copy is the whole operation applied to the data it replaces. */
  lemma AcceptedIsAtomic(s: State, id: CallId, bump: bool, d: Data)
    requires Inv(s, d) && Accepts(s, id, bump)
    ensures Atomic(s.calls[id].op, s.calls[id].phase.seen) == Atomic(s.calls[id].op, s.store.data)
  {
    assert CallInv(s, s.calls[id]);
  }

  lemma CommitKeepsLog(s: State, id: CallId, bump: bool, outcome: Outcome, d: Data)
    requires Inv(s, d) && Accepts(s, id, bump)
    requires outcome == Committed || outcome == OtherError
    ensures LogInv(AfterCommit(s, id, bump, outcome))
  {
    var s' := AfterCommit(s, id, bump, outcome);
    assert CallInv(s, s.calls[id]);
    forall i | 0 <= i < |s'.log| ensures LoggedAt(s'.calls, s'.log[i], i) {
      if i < |s.log| {
        assert LoggedAt(s.calls, s.log[i], i);
      }
    }
    forall k | k in s'.calls ensures IsLogged(s'.log, k, s'.calls[k]) {
      if k != id {
        assert IsLogged(s.log, k, s.calls[k]);
      }
    }
  }

  lemma CommitKeepsCalls(s: State, id: CallId, bump: bool, outcome: Outcome, d: Data)
    requires Inv(s, d) && Accepts(s, id, bump)
    requires outcome == Committed || outcome == OtherError
    ensures var s' := AfterCommit(s, id, bump, outcome); forall k :: k in s'.calls ==> CallInv(s', s'.calls[k])
  {
    var c := s.calls[id];
    var data := Atomic(c.op, c.phase.seen);
    var commit := Commit(ByCall(id), c.op, bump);
    WrittenKeepsCalls(s, data, commit);
    var w, s' := Written(s, data, commit), AfterCommit(s, id, bump, outcome);
    forall k | k in s'.calls ensures CallInv(s', s'.calls[k]) {
      assert CallInv(w, w.calls[k]);
    }
  }

  lemma CommitKeepsInv(s: State, id: CallId, bump: bool, outcome: Outcome, d: Data)
    requires Inv(s, d) && Accepts(s, id, bump)
    requires outcome == Committed || outcome == OtherError
    ensures Inv(AfterCommit(s, id, bump, outcome), d)
  {
    AcceptedIsAtomic(s, id, bump, d);
    FoldSnoc(s.log, Commit(ByCall(id), s.calls[id].op, bump), d);
    CommitKeepsLog(s, id, bump, outcome, d);
    CommitKeepsCalls(s, id, bump, outcome, d);
  }

  lemma ExternalKeepsInv(s: State, data: map<string, string>, bump: bool, d: Data)
    requires Inv(s, d) && Enabled(s, ExternalWrite(data, bump))
    ensures Inv(Next(s, ExternalWrite(data, bump)), d)
  {
    var commit := Commit(External, Replace(data), bump);
    FoldSnoc(s.log, commit, d);
    WrittenKeepsCalls(s, Entries(data), commit);
    KeepsLog(s, Next(s, ExternalWrite(data, bump)));
  }

  /** What the log says of calls survives when finished calls stay and only foreign writes are added. */
  lemma KeepsLog(s: State, s': State)
    requires LogInv(s) && s.log <= s'.log
    requires forall i :: |s.log| <= i < |s'.log| ==> s'.log[i].author == External
    requires forall id :: id in s.calls && s.calls[id].phase.Returned? ==> id in s'.calls && s'.calls[id] == s.calls[id]
    requires forall id :: id in s'.calls ==>
      (id in s.calls && s'.calls[id] == s.calls[id]) || !s'.calls[id].phase.Returned? ||
      s'.calls[id].phase.outcome != Committed
    ensures LogInv(s')
  {
    forall i | 0 <= i < |s'.log| ensures LoggedAt(s'.calls, s'.log[i], i) {
      if i < |s.log| {
        assert LoggedAt(s.calls, s.log[i], i);
      }
    }
    forall id | id in s'.calls ensures IsLogged(s'.log, id, s'.calls[id]) {
      if id in s.calls && s'.calls[id] == s.calls[id] {
        assert IsLogged(s.log, id, s.calls[id]);
      }
    }
  }

  lemma BeginKeepsInv(s: State, id: CallId, op: Op, d: Data)
    requires Inv(s, d) && Enabled(s, Begin(id, op))
    ensures Inv(Next(s, Begin(id, op)), d)
  {
    var s' := Next(s, Begin(id, op));
    assert s.log[|s.log|..] == [];
    KeepsLog(s, s');
    forall k | k in s'.calls ensures CallInv(s', s'.calls[k]) {
      if k != id {
        assert CallInv(s, s.calls[k]);
      }
    }
  }

  lemma ConflictKeepsInv(s: State, id: CallId, d: Data)
    requires Inv(s, d) && Enabled(s, Conflict(id))
    ensures Inv(Next(s, Conflict(id)), d)
  {
    var c := s.calls[id];
    assert CallInv(s, c);
    assert s.log[c.began..|s.log|] == s.log[c.began..];
    ToKeepsInv(s, id, AfterConflict(s, id), d);
  }

  lemma InvStep(s: State, l: Label, d: Data)
    requires Inv(s, d) && Enabled(s, l)
    ensures Inv(Next(s, l), d)
  {
    match l
    case Begin(id, op) => BeginKeepsInv(s, id, op, d);
    case Get(id) => assert CallInv(s, s.calls[id]); ToKeepsInv(s, id, AfterGet(s, id), d);
    case GetFails(id) => assert CallInv(s, s.calls[id]); ToKeepsInv(s, id, Returned(OtherError, |s.log|), d);
    case Create(_) =>
    case CreateFails(_, _) =>
    case Update(id, bump) => CommitKeepsInv(s, id, bump, Committed, d);
    case Conflict(id) => ConflictKeepsInv(s, id, d);
    case UpdateFails(id) => assert CallInv(s, s.calls[id]); ToKeepsInv(s, id, Returned(OtherError, |s.log|), d);
    case UpdateReplyLost(id, bump) => CommitKeepsInv(s, id, bump, OtherError, d);
    case ExternalWrite(data, bump) => ExternalKeepsInv(s, data, bump, d);
  }

  lemma {:induction false} InvAt(r: Run, attempts: nat, v: nat, d: Data, k: nat)
    requires IsRun(r, Init(attempts, Present(v, d))) && k < |r.states|
    ensures Inv(r.states[k], d)
  {
    if k > 0 {
      InvAt(r, attempts, v, d, k - 1);
      assert Step(r.states[k - 1], r.labels[k - 1], r.states[k]);
      InvStep(r.states[k - 1], r.labels[k - 1], d);
    }
  }

  // ---- No lost update, and each call at most once

  /** Whatever the interleaving of loads, conflicts, failures, lost replies and foreign writes, the data of an
      existing secret is the fold of the accepted operations, each applied whole, in the order of their commits. */
  lemma NoLostUpdate(r: Run, attempts: nat, v: nat, d: Data)
    requires IsRun(r, Init(attempts, Present(v, d)))
    ensures Last(r).store.Present? && Last(r).store.data == Fold(Last(r).log, d)
  {
    InvAt(r, attempts, v, d, |r.states| - 1);
  }

  /** A call is logged at most once, with its own operation; it is logged if it reported success, and never when
      it reported that nothing changed or that conflicts exhausted its attempts. */
  lemma AtMostOnce(r: Run, attempts: nat, v: nat, d: Data, id: CallId)
    requires IsRun(r, Init(attempts, Present(v, d))) && id in Last(r).calls
    ensures var s := Last(r);
      && (forall i, j :: 0 <= i < |s.log| && 0 <= j < |s.log| && s.log[i].author == s.log[j].author == ByCall(id) ==> i == j)
      && (forall i :: 0 <= i < |s.log| && s.log[i].author == ByCall(id) ==> s.log[i].op == s.calls[id].op)
      && (s.calls[id].phase.Returned? && s.calls[id].phase.outcome == Committed ==>
        exists i :: 0 <= i < |s.log| && s.log[i].author == ByCall(id))
      && (!s.calls[id].phase.Returned? || s.calls[id].phase.outcome == Unchanged || s.calls[id].phase.outcome == ConflictLeft ==>
        forall i :: 0 <= i < |s.log| ==> s.log[i].author != ByCall(id))
  {
    InvAt(r, attempts, v, d, |r.states| - 1);
    var s := Last(r);
    assert forall i :: 0 <= i < |s.log| ==> LoggedAt(s.calls, s.log[i], i);
    assert IsLogged(s.log, id, s.calls[id]);
  }

  /** A call's operation and beginning are fixed, and a call that has returned does not change at all. */
  predicate Continues(c: Call, c': Call) {
    c'.op == c.op && c'.began == c.began && (c.phase.Returned? ==> c' == c)
  }

  lemma CallStaysStep(s: State, l: Label, s': State, id: CallId)
    requires Step(s, l, s') && id in s.calls
    ensures id in s'.calls && Continues(s.calls[id], s'.calls[id])
  {
  }

  lemma {:induction false} CallStays(r: Run, init: State, i: nat, j: nat, id: CallId)
    requires IsRun(r, init) && i <= j < |r.states| && id in r.states[i].calls
    ensures id in r.states[j].calls && Continues(r.states[i].calls[id], r.states[j].calls[id])
  {
    if i < j {
      CallStays(r, init, i, j - 1, id);
      var c := r.states[j - 1].calls[id];
      assert id in r.states[j].calls && Continues(c, r.states[j].calls[id]) by {
        CallStaysStep(r.states[j - 1], r.labels[j - 1], r.states[j], id);
      }
    }
  }

  /** The commit order respects real time: a call that had returned when another one began precedes it in the
      log.  With NoLostUpdate this makes the calls linearizable. */
  lemma CommitsInRealTimeOrder(r: Run, attempts: nat, v: nat, d: Data, b: nat, first: CallId, second: CallId, i: nat,
      j: nat)
    requires IsRun(r, Init(attempts, Present(v, d))) && b < |r.labels|
    requires r.labels[b].Begin? && r.labels[b].id == second
    requires first in r.states[b].calls && r.states[b].calls[first].phase.Returned?
    requires i < |Last(r).log| && j < |Last(r).log|
    requires Last(r).log[i].author == ByCall(first) && Last(r).log[j].author == ByCall(second)
    ensures i < j
  {
    var init, last := Init(attempts, Present(v, d)), |r.states| - 1;
    assert i < |r.states[b].log| by {
      InvAt(r, attempts, v, d, b);
      assert CallInv(r.states[b], r.states[b].calls[first]);
      CallStays(r, init, b, last, first);
      LoggedByCall(r, attempts, v, d, first, i);
    }
    assert |r.states[b].log| <= j by {
      BeginRecordsLog(r.states[b], r.labels[b], r.states[b + 1]);
      CallStays(r, init, b + 1, last, second);
      LoggedByCall(r, attempts, v, d, second, j);
    }
  }

  lemma BeginRecordsLog(s: State, l: Label, s': State)
    requires Step(s, l, s') && l.Begin?
    ensures l.id in s'.calls && s'.calls[l.id].began == |s.log|
  {
  }

  lemma LoggedByCall(r: Run, attempts: nat, v: nat, d: Data, id: CallId, i: nat)
    requires IsRun(r, Init(attempts, Present(v, d))) && i < |Last(r).log| && Last(r).log[i].author == ByCall(id)
    ensures id in Last(r).calls && Last(r).calls[id].phase.Returned?
    ensures Last(r).calls[id].began <= i && Last(r).calls[id].phase.ended == i + 1
  {
    InvAt(r, attempts, v, d, |r.states| - 1);
    assert LoggedAt(Last(r).calls, Last(r).log[i], i);
  }

  // ---- The retry bound

  /** A read/modify/write call that gives up on conflicts has been overtaken by a distinct foreign write for each
      of its attempts, all of them committed between its begin and its return. */
  lemma RetryBound(r: Run, attempts: nat, v: nat, d: Data, id: CallId)
    requires IsRun(r, Init(attempts, Present(v, d))) && id in Last(r).calls
    requires Last(r).calls[id].op.Modify? && Last(r).calls[id].phase.Returned?
    requires Last(r).calls[id].phase.outcome == ConflictLeft
    ensures var s, c := Last(r), Last(r).calls[id];
      c.began <= c.phase.ended <= |s.log| && Foreign(s.log[c.began..c.phase.ended], id) >= attempts
  {
    InvAt(r, attempts, v, d, |r.states| - 1);
    AttemptsConstant(r, Init(attempts, Present(v, d)), |r.states| - 1);
    var s, c := Last(r), Last(r).calls[id];
    assert CallInv(s, c);
    AtMostOnce(r, attempts, v, d, id);
    BumpsForeign(s.log[c.began..c.phase.ended], id);
  }

  /** Hence a call that meets no other error commits whenever fewer foreign writes than its attempts hit the
      secret while it runs. */
  lemma CommitsUnderFewWrites(r: Run, attempts: nat, v: nat, d: Data, id: CallId)
    requires IsRun(r, Init(attempts, Present(v, d))) && id in Last(r).calls
    requires Last(r).calls[id].op.Modify? && Last(r).calls[id].phase.Returned?
    requires Last(r).calls[id].phase.outcome != OtherError
    requires var s, c := Last(r), Last(r).calls[id];
      c.began <= c.phase.ended <= |s.log| ==> Foreign(s.log[c.began..c.phase.ended], id) < attempts
    ensures Last(r).calls[id].phase.outcome == Committed
  {
    if Last(r).calls[id].phase.outcome == ConflictLeft {
      RetryBound(r, attempts, v, d, id);
    }
    ModifyNeverUnchanged(r, Init(attempts, Present(v, d)), |r.states| - 1, id);
  }

  lemma {:induction false} AttemptsConstant(r: Run, init: State, k: nat)
    requires IsRun(r, init) && k < |r.states|
    ensures r.states[k].attempts == init.attempts
  {
    if k > 0 {
      AttemptsConstant(r, init, k - 1);
      assert Step(r.states[k - 1], r.labels[k - 1], r.states[k]);
    }
  }

  lemma {:induction false} ModifyNeverUnchanged(r: Run, init: State, k: nat, id: CallId)
    requires IsRun(r, init) && init.calls == map[] && k < |r.states| && id in r.states[k].calls
    requires r.states[k].calls[id].op.Modify?
    ensures r.states[k].calls[id].phase.Returned? ==> r.states[k].calls[id].phase.outcome != Unchanged
  {
    if k > 0 && id in r.states[k - 1].calls {
      CallStaysStep(r.states[k - 1], r.labels[k - 1], r.states[k], id);
      assert Step(r.states[k - 1], r.labels[k - 1], r.states[k]);
      ModifyNeverUnchanged(r, init, k - 1, id);
    } else if k > 0 {
      assert Step(r.states[k - 1], r.labels[k - 1], r.states[k]);
    }
  }

  // ---- How calls end

  /** How often the call has been refused. */
  function Conflicts(labels: seq<Label>, id: CallId): nat {
    if labels == [] then 0
    else Conflicts(labels[..|labels| - 1], id) + if labels[|labels| - 1] == Conflict(id) then 1 else 0
  }

  /** There is always a first attempt. */
  function Limit(attempts: nat): nat {
    if attempts == 0 then 1 else attempts
  }

  /** The phase agrees with the number of refusals. */
  predicate Counts(attempts: nat, phase: Phase, n: nat) {
    match phase
    case Returned(outcome, _) => n <= Limit(attempts) && (outcome == ConflictLeft <==> n == Limit(attempts))
    case _ => phase.conflicts == n && n < Limit(attempts)
  }

  predicate IsOf(l: Label, id: CallId) {
    !l.ExternalWrite? && l.id == id
  }

  lemma CountsNext(s: State, l: Label, s': State, id: CallId, n: nat)
    requires Step(s, l, s') && id in s'.calls
    requires if id in s.calls then Counts(s.attempts, s.calls[id].phase, n) else n == 0
    ensures Counts(s'.attempts, s'.calls[id].phase, n + if l == Conflict(id) then 1 else 0)
  {
    if !IsOf(l, id) {
      assert id in s.calls && s'.calls[id] == s.calls[id];
    }
  }

  lemma {:induction false} CountedAt(r: Run, init: State, id: CallId, j: nat)
    requires IsRun(r, init) && init.calls == map[] && j < |r.states|
    ensures id !in r.states[j].calls ==> Conflicts(r.labels[..j], id) == 0
    ensures id in r.states[j].calls ==>
      Counts(init.attempts, r.states[j].calls[id].phase, Conflicts(r.labels[..j], id))
  {
    if j > 0 {
      CountedAt(r, init, id, j - 1);
      AttemptsConstant(r, init, j - 1);
      AttemptsConstant(r, init, j);
      assert Step(r.states[j - 1], r.labels[j - 1], r.states[j]);
      assert r.labels[..j][..j - 1] == r.labels[..j - 1];
      if id in r.states[j].calls {
        CountsNext(r.states[j - 1], r.labels[j - 1], r.states[j], id, Conflicts(r.labels[..j - 1], id));
      }
    }
  }

  /** No call is refused more often than it has attempts, and it gives up on conflicts exactly when it has been refused
      as often. */
  lemma RefusedAtMostAttempts(r: Run, init: State, id: CallId)
    requires IsRun(r, init) && init.calls == map[]
    ensures var n, limit := Conflicts(r.labels, id), if init.attempts == 0 then 1 else init.attempts;
      && n <= limit
      && (n == limit <==>
        id in Last(r).calls && Last(r).calls[id].phase.Returned? && Last(r).calls[id].phase.outcome == ConflictLeft)
  {
    CountedAt(r, init, id, |r.labels|);
    assert r.labels[..|r.labels|] == r.labels;
  }

  /** Step `k` of the run ends the call in this way. */
  ghost predicate EndsIn(r: Run, k: nat, id: CallId, outcome: Outcome)
    requires k < |r.labels| && |r.states| == |r.labels| + 1
  {
    && id in r.states[k].calls
    && var l, store, op := r.labels[k], r.states[k].store, r.states[k].calls[id].op;
    match outcome
    case Committed => l.Update? && l.id == id
    case Unchanged => l == Get(id) && store.Present? && op.Replace? && store.data == Entries(op.data)
    case ConflictLeft => l == Conflict(id) && Conflicts(r.labels[..k], id) + 1 >= r.states[0].attempts
    case OtherError =>
      || ((l.GetFails? || l.CreateFails? || l.UpdateFails? || l.UpdateReplyLost?) && l.id == id)
      || (l == Get(id) && store.Missing? && (op.Replace? || op.mod.Edit?))
  }

  predicate HasReturned(s: State, id: CallId, outcome: Outcome) {
    id in s.calls && s.calls[id].phase.Returned? && s.calls[id].phase.outcome == outcome
  }

  lemma EndsStep(r: Run, init: State, k: nat, id: CallId, outcome: Outcome)
    requires IsRun(r, init) && init.calls == map[] && k < |r.labels|
    ensures HasReturned(r.states[k + 1], id, outcome) <==>
      HasReturned(r.states[k], id, outcome) || EndsIn(r, k, id, outcome)
  {
    var s, l := r.states[k], r.labels[k];
    assert Step(s, l, r.states[k + 1]);
    CountedAt(r, init, id, k);
    AttemptsConstant(r, init, k);
    if !IsOf(l, id) {
      assert id in r.states[k + 1].calls <==> id in s.calls;
    }
  }

  ghost predicate EndedIn(r: Run, j: nat, id: CallId, outcome: Outcome)
    requires j <= |r.labels| && |r.states| == |r.labels| + 1
  {
    exists k :: 0 <= k < j && EndsIn(r, k, id, outcome)
  }

  lemma EndedNext(r: Run, j: nat, id: CallId, outcome: Outcome)
    requires 0 < j <= |r.labels| && |r.states| == |r.labels| + 1
    ensures EndedIn(r, j, id, outcome) <==> EndedIn(r, j - 1, id, outcome) || EndsIn(r, j - 1, id, outcome)
  {
  }

  lemma {:induction false} EndedBefore(r: Run, init: State, j: nat, id: CallId, outcome: Outcome)
    requires IsRun(r, init) && init.calls == map[] && j < |r.states|
    ensures HasReturned(r.states[j], id, outcome) <==> EndedIn(r, j, id, outcome)
  {
    if j > 0 {
      EndedBefore(r, init, j - 1, id, outcome);
      EndsStep(r, init, j - 1, id, outcome);
      EndedNext(r, j, id, outcome);
    }
  }

  /** A call has committed exactly when the cluster has accepted its copy and said so; has changed nothing exactly when
      it has found the data it was to put there; has given up on conflicts exactly when its last attempt was refused; and
      has failed exactly when a request of it failed or its reply was lost, or it found no secret and may not create
      one. */
  lemma OutcomeMeans(r: Run, init: State, id: CallId, outcome: Outcome)
    requires IsRun(r, init) && init.calls == map[]
    ensures HasReturned(Last(r), id, outcome) <==> exists k :: 0 <= k < |r.labels| && EndsIn(r, k, id, outcome)
  {
    EndedBefore(r, init, |r.labels|, id, outcome);
  }

  /** A call does what it was begun with. */
  lemma {:induction false} OpIsBegun(r: Run, init: State, j: nat, id: CallId)
    requires IsRun(r, init) && init.calls == map[] && j < |r.states| && id in r.states[j].calls
    ensures Begin(id, r.states[j].calls[id].op) in r.labels[..j]
  {
    if j > 0 {
      var l := r.labels[j - 1];
      assert Step(r.states[j - 1], l, r.states[j]);
      assert r.labels[..j] == r.labels[..j - 1] + [l];
      if l != Begin(id, r.states[j].calls[id].op) {
        CallStaysStep(r.states[j - 1], l, r.states[j], id);
        OpIsBegun(r, init, j - 1, id);
      }
    }
  }

  /** The steps can be taken one after the other and leave the call committed. */
  predicate LeadToCommit(s: State, steps: seq<Label>, id: CallId)
    decreases steps
  {
    if steps == [] then HasReturned(s, id, Committed)
    else Enabled(s, steps[0]) && LeadToCommit(Next(s, steps[0]), steps[1..], id)
  }

  /** At any time a read/modify/write call that has an attempt left commits by its own steps, if nobody disturbs it: it
      sends what it has, or is refused, loads, and sends. */
  lemma CommitsAlone(s: State, id: CallId, d: Data) returns (steps: seq<Label>)
    requires Inv(s, d) && id in s.calls && s.calls[id].op.Modify? && !s.calls[id].phase.Returned?
    requires s.calls[id].phase.Sending? && s.calls[id].phase.base != Version(s.store.version) ==>
      s.calls[id].phase.conflicts + 1 < s.attempts
    ensures |steps| <= 3 && (forall l :: l in steps ==> IsOf(l, id)) && LeadToCommit(s, steps, id)
  {
    var c := s.calls[id];
    assert CallInv(s, c);
    if c.phase.Loading? {
      steps := LoadAndSend(s, id);
    } else if c.phase.base.v == s.store.version {
      steps := SendNow(s, id);
    } else {
      var again := LoadAndSend(Next(s, Conflict(id)), id);
      steps := [Conflict(id)] + again;
      assert steps[1..] == again;
    }
  }

  lemma SendNow(s: State, id: CallId) returns (steps: seq<Label>)
    requires id in s.calls && s.store.Present? && s.calls[id].phase.Sending?
    requires s.calls[id].phase.base == Version(s.store.version)
    ensures steps == [Update(id, true)] && LeadToCommit(s, steps, id)
  {
    steps := [Update(id, true)];
    assert steps[1..] == [];
    assert LeadToCommit(Next(s, Update(id, true)), [], id);
  }

  lemma LoadAndSend(s: State, id: CallId) returns (steps: seq<Label>)
    requires id in s.calls && s.store.Present? && s.calls[id].phase.Loading? && s.calls[id].op.Modify?
    ensures steps == [Get(id), Update(id, true)] && LeadToCommit(s, steps, id)
  {
    var send := SendNow(Next(s, Get(id)), id);
    steps := [Get(id), Update(id, true)];
    assert steps[1..] == send;
  }

  /** A call that sends a copy with a version is accepted or refused, as the version is the present one or not; and any
      request of a call can fail. */
  lemma AcceptedOrRefused(s: State, id: CallId)
    requires id in s.calls && !s.calls[id].phase.Returned?
    ensures var phase := s.calls[id].phase;
      && (phase.Loading? ==> Enabled(s, Get(id)) && Enabled(s, GetFails(id)))
      && (phase.Creating? ==> Enabled(s, CreateFails(id, false)) && (Enabled(s, Create(id)) <==> s.store.Missing?))
      && (phase.Sending? ==> Enabled(s, UpdateFails(id)))
      && (phase.Sending? && phase.base.Version? && s.store.Present? ==>
        && (Enabled(s, Update(id, true)) <==> phase.base.v == s.store.version)
        && (Enabled(s, UpdateReplyLost(id, true)) <==> phase.base.v == s.store.version)
        && (Enabled(s, Conflict(id)) <==> phase.base.v != s.store.version))
      && (phase.Sending? && phase.base.Unversioned? && s.store.Present? ==> Enabled(s, Update(id, true)))
  {
  }

  // ---- What a commit has read

  ghost predicate SendsCopy(s: State, id: CallId, v: nat, seen: Data) {
    && id in s.calls && s.calls[id].phase.Sending?
    && s.calls[id].phase.base == Version(v) && s.calls[id].phase.seen == seen
  }

  /** A copy stems from the step itself, a load, or was there before. */
  lemma CopyOrigin(s: State, l: Label, s': State, id: CallId, v: nat, seen: Data)
    requires Step(s, l, s') && SendsCopy(s', id, v, seen)
    ensures if l == Get(id) then s.store == Present(v, seen) else SendsCopy(s, id, v, seen)
  {
  }

  /** The load a sending call's copy stems from. */
  lemma {:induction false} CopyLoadedAt(r: Run, init: State, k: nat, id: CallId, v: nat, seen: Data) returns (g: nat)
    requires IsRun(r, init) && init.calls == map[] && k < |r.states| && SendsCopy(r.states[k], id, v, seen)
    ensures g < k && r.labels[g] == Get(id) && r.states[g].store == Present(v, seen)
    ensures forall m :: g < m < k ==> r.labels[m] != Get(id)
  {
    g := k - 1;
    CopyOrigin(r.states[g], r.labels[g], r.states[k], id, v, seen);
    if r.labels[g] != Get(id) {
      g := CopyLoadedAt(r, init, k - 1, id, v, seen);
    }
  }

  /** A call commits on the very store it loaded: version and data are those of its last load, so nobody has
      changed the secret since.  ReplaceConfiguration loads only once, before its first attempt. */
  lemma CommitsOnlyUndisturbed(r: Run, attempts: nat, v: nat, d: Data, k: nat, id: CallId) returns (g: nat)
    requires IsRun(r, Init(attempts, Present(v, d))) && k < |r.labels|
    requires (r.labels[k].Update? || r.labels[k].UpdateReplyLost?) && r.labels[k].id == id
    ensures g < k && r.labels[g] == Get(id) && r.states[g].store == r.states[k].store
    ensures forall m :: g < m < k ==> r.labels[m] != Get(id)
  {
    assert Step(r.states[k], r.labels[k], r.states[k + 1]);
    InvAt(r, attempts, v, d, k);
    var c := r.states[k].calls[id];
    assert CallInv(r.states[k], c);
    g := CopyLoadedAt(r, Init(attempts, Present(v, d)), k, id, c.phase.base.v, c.phase.seen);
  }

  /** ReplaceConfiguration after a refusal, or after a foreign write that will refuse it. */
  ghost predicate Overtaken(s: State, id: CallId) {
    && s.store.Present? && id in s.calls && s.calls[id].op.Replace?
    && var p := s.calls[id].phase;
       (p.Sending? && p.base.Version? && p.base.v < s.store.version) || (p.Returned? && p.outcome != Committed)
  }

  lemma OvertakenStep(s: State, l: Label, s': State, id: CallId)
    requires Step(s, l, s') && Overtaken(s, id)
    ensures Overtaken(s', id) && !((l.Update? || l.UpdateReplyLost?) && l.id == id)
  {
  }

  /** Once somebody has written, ReplaceConfiguration never commits: it sends the same copy again until its
      attempts are used up. */
  lemma {:induction false} OvertakenNeverCommits(r: Run, init: State, i: nat, j: nat, id: CallId)
    requires IsRun(r, init) && i <= j < |r.states| && Overtaken(r.states[i], id)
    ensures Overtaken(r.states[j], id)
    ensures j < |r.labels| ==> !((r.labels[j].Update? || r.labels[j].UpdateReplyLost?) && r.labels[j].id == id)
  {
    if i < j {
      OvertakenNeverCommits(r, init, i, j - 1, id);
      OvertakenStep(r.states[j - 1], r.labels[j - 1], r.states[j], id);
    }
    if j < |r.labels| {
      OvertakenStep(r.states[j], r.labels[j], r.states[j + 1], id);
    }
  }

  // ---- Exactly when no update is lost

  ghost predicate Reachable(init: State, s: State) {
    exists r :: IsRun(r, init) && Last(r) == s
  }

  /** The data is the fold of the log over what was there at first. */
  ghost predicate NothingLost(init: State, s: State) {
    s.store.Present? ==>
      s.store.data == Fold(s.log, if init.store.Present? then init.store.data else Nil)
  }

  lemma Extend(init: State, s: State, l: Label, s': State)
    requires Reachable(init, s) && Step(s, l, s')
    ensures Reachable(init, s')
  {
    var r :| IsRun(r, init) && Last(r) == s;
    var more := Run(r.states + [s'], r.labels + [l]);
    assert IsRun(more, init) && Last(more) == s';
  }

  const BIND_A := Modify(Bind(["a"], false))
  const BIND_B := Modify(Bind(["b"], false))

  /** On a missing secret one call creates it and holds a copy without version, another binds "b", and the
      creator's unconditional Update wipes that binding out. */
  lemma CreatorLosesUpdate(attempts: nat) returns (s: State)
    ensures Reachable(Init(attempts, Missing), s) && !NothingLost(Init(attempts, Missing), s)
    ensures |s.log| == 2 && s.log[0].op == BIND_B && s.log[1].op == BIND_A
    ensures s.store == Present(3, Entries(map["a" := ""]))
  {
    var init := Init(attempts, Missing);
    assert IsRun(Run([init], []), init) && Last(Run([init], [])) == init;
    assert Modified(Bind(["a"], false), Nil) == Entries(map["a" := ""]);
    assert Modified(Bind(["b"], false), Nil) == Entries(map["b" := ""]);
    var s4 := CreatedAndBegun(attempts);
    var s5 := s4.(calls := s4.calls[1 := Call(BIND_B, 0, 1, Sending(0, Version(1), Nil))]);
    Extend(init, s4, Get(1), s5);
    var first := Commit(ByCall(1), BIND_B, true);
    var s6 := State(attempts, Present(2, Entries(map["b" := ""])),
                    s5.calls[1 := Call(BIND_B, 0, 1, Returned(Committed, 1))], [first]);
    assert s6.log == s5.log + [first];
    Extend(init, s5, Update(1, true), s6);
    var second := Commit(ByCall(0), BIND_A, true);
    s := State(attempts, Present(3, Entries(map["a" := ""])),
               s6.calls[0 := Call(BIND_A, 0, 0, Returned(Committed, 2))], [first, second]);
    assert s.log == s6.log + [second];
    Extend(init, s6, Update(0, true), s);
    BothBound(first, second);
    assert s.log == [first] + [second];
  }

  lemma BothBound(first: Commit, second: Commit)
    requires first.op == BIND_B && second.op == BIND_A
    ensures var d := Fold([first] + [second], Nil); d.Entries? && "b" in d.entries
  {
    FoldSnoc([], first, Nil);
    FoldSnoc([first], second, Nil);
    assert [] + [first] == [first];
    assert "b" in Marked(["b"]);
  }

  lemma CreatedAndBegun(attempts: nat) returns (s: State)
    requires Reachable(Init(attempts, Missing), Init(attempts, Missing))
    ensures Reachable(Init(attempts, Missing), s)
    ensures s == State(attempts, Present(1, Nil),
                       map[0 := Call(BIND_A, 0, 0, Sending(0, Unversioned, Nil)), 1 := Call(BIND_B, 0, 1, Loading(0))], [])
  {
    var init := Init(attempts, Missing);
    var s1 := State(attempts, Missing, map[0 := Call(BIND_A, 0, 0, Loading(0))], []);
    var s2 := State(attempts, Missing, map[0 := Call(BIND_A, 0, 0, Creating(0))], []);
    var s3 := State(attempts, Present(1, Nil), map[0 := Call(BIND_A, 0, 0, Sending(0, Unversioned, Nil))], []);
    s := s3.(calls := s3.calls[1 := Call(BIND_B, 0, 1, Loading(0))]);
    Extend(init, init, Begin(0, BIND_A), s1);
    Extend(init, s1, Get(0), s2);
    Extend(init, s2, Create(0), s3);
    Extend(init, s3, Begin(1, BIND_B), s);
  }

  /** The updaters lose no update in any run if and only if the secret exists before the first of them. */
  lemma NothingLostIffSecretExists(attempts: nat, store: Store)
    ensures (forall s :: Reachable(Init(attempts, store), s) ==> NothingLost(Init(attempts, store), s)) <==> store.Present?
  {
    if store.Present? {
      forall s | Reachable(Init(attempts, store), s) ensures NothingLost(Init(attempts, store), s) {
        var r :| IsRun(r, Init(attempts, store)) && Last(r) == s;
        NoLostUpdate(r, attempts, store.version, store.data);
      }
    } else {
      var s := CreatorLosesUpdate(attempts);
    }
  }

  // ---- A secret that is created on demand

  /** The copy a sending call has of a secret that was created during the run. */
  predicate FreshCopy(s: State, c: Call) {
    c.phase.Sending? && s.store.Present? ==>
      match c.phase.base
      case Unversioned => c.phase.seen == Nil
      case Version(v) => v <= s.store.version && (v == s.store.version ==> c.phase.seen == s.store.data)
  }

  ghost predicate FreshInv(s: State) {
    && (s.store.Missing? ==> s.log == [] && forall id :: id in s.calls ==> !s.calls[id].phase.Sending?)
    && (s.store.Present? ==> s.store.data == Fold(s.log, Nil))
    && (forall id :: id in s.calls ==> FreshCopy(s, s.calls[id]))
  }

  /** The cluster accepts the copy of a call that has created the secret. */
  predicate CreatorWrites(s: State, l: Label) {
    && (l.Update? || l.UpdateReplyLost?) && l.id in s.calls
    && s.calls[l.id].phase.Sending? && s.calls[l.id].phase.base.Unversioned?
  }

  /** It does so before anybody else has written. */
  predicate CreatorIsFirst(s: State, l: Label) {
    CreatorWrites(s, l) ==> s.log == []
  }

  lemma FreshCopyKept(s: State, l: Label, s': State, id: CallId)
    requires Step(s, l, s') && id in s'.calls
    requires id in s.calls ==> FreshCopy(s, s.calls[id])
    requires id in s.calls && s.calls[id].phase.Sending? ==> s.store.Present?
    ensures FreshCopy(s', s'.calls[id])
  {
  }

  lemma FreshStep(s: State, l: Label, s': State)
    requires FreshInv(s) && Step(s, l, s') && CreatorIsFirst(s, l)
    ensures FreshInv(s')
  {
    forall id | id in s'.calls ensures FreshCopy(s', s'.calls[id]) {
      FreshCopyKept(s, l, s', id);
    }
    if l.Update? || l.UpdateReplyLost? {
      var c := s.calls[l.id];
      assert FreshCopy(s, c) && c.phase.seen == s.store.data;
      FoldSnoc(s.log, Commit(ByCall(l.id), c.op, l.bump), Nil);
    } else if l.ExternalWrite? {
      FoldSnoc(s.log, Commit(External, Replace(l.data), l.bump), Nil);
    }
  }

  lemma {:induction false} FreshAt(r: Run, attempts: nat, k: nat)
    requires IsRun(r, Init(attempts, Missing)) && k < |r.states|
    requires forall i :: 0 <= i < k ==> CreatorIsFirst(r.states[i], r.labels[i])
    ensures FreshInv(r.states[k])
  {
    if k > 0 {
      FreshAt(r, attempts, k - 1);
      FreshStep(r.states[k - 1], r.labels[k - 1], r.states[k]);
    }
  }

  /** On a missing secret nothing is lost either, as long as every call that has created it is the first to write to
      it: the data is the fold of the accepted operations over no data at all. */
  lemma NothingLostWhenCreatorIsFirst(r: Run, attempts: nat)
    requires IsRun(r, Init(attempts, Missing))
    requires forall i :: 0 <= i < |r.labels| ==> CreatorIsFirst(r.states[i], r.labels[i])
    ensures Last(r).store.Present? ==> Last(r).store.data == Fold(Last(r).log, Nil)
    ensures Last(r).store.Missing? ==> Last(r).log == []
  {
    FreshAt(r, attempts, |r.labels|);
  }

  // ---- What the fold says of a single key

  function OpEffect(op: Op, key: string): Effect {
    match op
    case Modify(mod) => EffectOn(mod, key)
    case Replace(data) => if key in data then Put(data[key]) else Drop
  }

  lemma AtomicAt(op: Op, d: Data, key: string)
    ensures At(Atomic(op, d), key) == ApplyEffect(OpEffect(op, key), At(d, key))
  {
    if op.Modify? {
      ModifiedAt(op.mod, d, key);
    }
  }

  lemma {:induction false} Untouched(log: seq<Commit>, d: Data, key: string)
    requires forall i :: 0 <= i < |log| ==> OpEffect(log[i].op, key) == Keep
    ensures At(Fold(log, d), key) == At(d, key)
  {
    if log != [] {
      Untouched(log[..|log| - 1], d, key);
      AtomicAt(log[|log| - 1].op, Fold(log[..|log| - 1], d), key);
    }
  }

  lemma {:induction false} FoldSplit(log: seq<Commit>, d: Data, i: nat)
    requires i <= |log|
    ensures Fold(log, d) == Fold(log[i..], Fold(log[..i], d))
  {
    if i == |log| {
      assert log[..i] == log && log[i..] == [];
    } else {
      FoldSplit(log[..|log| - 1], d, i);
      assert log[..|log| - 1][..i] == log[..i];
      assert log[i..][..|log[i..]| - 1] == log[..|log| - 1][i..];
    }
  }

  /** In every run on an existing secret each key has the value the last committed operation touching it gave
      it, and its first value when none did. */
  lemma LastWriterWins(r: Run, attempts: nat, v: nat, d: Data, key: string, i: nat)
    requires IsRun(r, Init(attempts, Present(v, d))) && i < |Last(r).log|
    requires OpEffect(Last(r).log[i].op, key) != Keep
    requires forall j :: i < j < |Last(r).log| ==> OpEffect(Last(r).log[j].op, key) == Keep
    ensures Last(r).store.Present?
    ensures At(Last(r).store.data, key) == ApplyEffect(OpEffect(Last(r).log[i].op, key), None)
  {
    NoLostUpdate(r, attempts, v, d);
    var log := Last(r).log;
    FoldSplit(log, d, i + 1);
    Untouched(log[i + 1..], Fold(log[..i + 1], d), key);
    assert log[..i + 1] == log[..i] + [log[i]];
    FoldSnoc(log[..i], log[i], d);
    AtomicAt(log[i].op, Fold(log[..i], d), key);
  }

  lemma UntouchedKeyKeepsValue(r: Run, attempts: nat, v: nat, d: Data, key: string)
    requires IsRun(r, Init(attempts, Present(v, d)))
    requires forall j :: 0 <= j < |Last(r).log| ==> OpEffect(Last(r).log[j].op, key) == Keep
    ensures Last(r).store.Present? && At(Last(r).store.data, key) == At(d, key)
  {
    NoLostUpdate(r, attempts, v, d);
    Untouched(Last(r).log, d, key);
  }
}
