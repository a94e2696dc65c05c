/**
 The two layers of locks around Helm releases (internal/helm/helm.go, internal/helm/client.go), as interleaved
 steps of any number of threads.

 A thread looks up the synchronized client of a namespace, offering a new one to the global map, which keeps
 the first one offered.  With its client it then mutates any number of releases, one after the other; every
 operation offers a new mutex to the client's own map and locks the one kept there.
 */
module HelmLocks {

  type Name = string
  type Id = nat

  /** The operations of the client that take the release's mutex. */
  datatype Operation = InstallOrUpgrade | Rollback | Install | Uninstall | UninstallByName | Upgrade

  datatype Pc =
    | LookingUp
    | HasClient
    | AskingMutex(op: Operation, release: Name)
    | WaitingMutex(op: Operation, release: Name)
    | Running(op: Operation, release: Name)

  /** `client` and `mutex` mean nothing before the thread has got them from the maps. */
  datatype Thread = Thread(namespace: Name, client: Id, mutex: Id, pc: Pc)

  /** `unused` is the identity of the next object allocated. */
  datatype State = State(
    clients: map<Name, Id>,
    mutexes: map<(Id, Name), Id>,
    held: map<Id, Id>,
    threads: map<Id, Thread>,
    unused: Id)

  datatype Label =
    | GetClient(t: Id, namespace: Name)
    | LoadOrStoreClient(t: Id)
    | Begin(t: Id, op: Operation, release: Name)
    | LoadOrStoreMutex(t: Id)
    | Lock(t: Id)
    | Finish(t: Id)

  const Init := State(map[], map[], map[], map[], 0)

  predicate Enabled(s: State, l: Label) {
    match l
    case GetClient(t, _) => t !in s.threads
    case LoadOrStoreClient(t) => t in s.threads && s.threads[t].pc.LookingUp?
    case Begin(t, _, _) => t in s.threads && s.threads[t].pc.HasClient?
    case LoadOrStoreMutex(t) => t in s.threads && s.threads[t].pc.AskingMutex?
    case Lock(t) => t in s.threads && s.threads[t].pc.WaitingMutex? && s.threads[t].mutex !in s.held
    case Finish(t) => t in s.threads && s.threads[t].pc.Running?
  }

  /** A map's LoadOrStore: the value kept for the key is the first one stored. */
  function LoadOrStore<K(!new)>(m: map<K, Id>, k: K, offered: Id): (m': map<K, Id>)
    ensures k in m' && m'[k] == (if k in m then m[k] else offered)
    ensures forall j :: j in m' <==> j in m || j == k
    ensures forall j :: j in m ==> m'[j] == m[j]
  {
    if k in m then m else m[k := offered]
  }

  function Next(s: State, l: Label): State
    requires Enabled(s, l)
  {
    match l
    case GetClient(t, namespace) => s.(threads := s.threads[t := Thread(namespace, 0, 0, LookingUp)])
    case LoadOrStoreClient(t) =>
      var th := s.threads[t];
      var clients := LoadOrStore(s.clients, th.namespace, s.unused);
      s.(clients := clients, unused := s.unused + 1,
         threads := s.threads[t := th.(client := clients[th.namespace], pc := HasClient)])
    case Begin(t, op, release) => s.(threads := s.threads[t := s.threads[t].(pc := AskingMutex(op, release))])
    case LoadOrStoreMutex(t) =>
      var th := s.threads[t];
      var key := (th.client, th.pc.release);
      var mutexes := LoadOrStore(s.mutexes, key, s.unused);
      s.(mutexes := mutexes, unused := s.unused + 1,
         threads := s.threads[t := th.(mutex := mutexes[key], pc := WaitingMutex(th.pc.op, th.pc.release))])
    case Lock(t) =>
      var th := s.threads[t];
      s.(held := s.held[th.mutex := t], threads := s.threads[t := th.(pc := Running(th.pc.op, th.pc.release))])
    case Finish(t) =>
      s.(held := s.held - {s.threads[t].mutex}, threads := s.threads[t := s.threads[t].(pc := HasClient)])
  }

  predicate Step(s: State, l: Label, s': State) {
    Enabled(s, l) && s' == Next(s, l)
  }

  datatype Run = Run(states: seq<State>, labels: seq<Label>)

  ghost predicate IsRun(r: Run) {
    && |r.states| == |r.labels| + 1
    && r.states[0] == Init
    && forall i :: 0 <= i < |r.labels| ==> Step(r.states[i], r.labels[i], r.states[i + 1])
  }

  // ---- The invariant

  predicate HasMutex(pc: Pc) {
    pc.WaitingMutex? || pc.Running?
  }

  ghost predicate ThreadInv(s: State, t: Id)
    requires t in s.threads
  {
    var th := s.threads[t];
    && (!th.pc.LookingUp? ==> th.namespace in s.clients && th.client == s.clients[th.namespace])
    && (HasMutex(th.pc) ==> (th.client, th.pc.release) in s.mutexes && th.mutex == s.mutexes[(th.client, th.pc.release)])
    && (th.pc.Running? ==> th.mutex in s.held && s.held[th.mutex] == t)
  }

  ghost predicate IsHolder(s: State, m: Id)
    requires m in s.held
  {
    s.held[m] in s.threads && s.threads[s.held[m]].pc.Running? && s.threads[s.held[m]].mutex == m
  }

  /** Different keys have different values, all of them allocated. */
  ghost predicate Distinct<K(!new)>(m: map<K, Id>, unused: Id) {
    && (forall k :: k in m ==> m[k] < unused)
    && (forall j, k :: j in m && k in m && m[j] == m[k] ==> j == k)
  }

  ghost predicate Inv(s: State) {
    && (forall t :: t in s.threads ==> ThreadInv(s, t))
    && (forall m :: m in s.held ==> IsHolder(s, m))
    && Distinct(s.clients, s.unused) && Distinct(s.mutexes, s.unused)
  }

  lemma ThreadKept(s: State, l: Label, t: Id)
    requires Enabled(s, l) && t in Next(s, l).threads
    requires t in s.threads ==> ThreadInv(s, t)
    requires l.t in s.threads ==> ThreadInv(s, l.t)
    ensures ThreadInv(Next(s, l), t)
  {
  }

  lemma InvStep(s: State, l: Label)
    requires Inv(s) && Enabled(s, l)
    ensures Inv(Next(s, l))
  {
    var s' := Next(s, l);
    forall t | t in s'.threads ensures ThreadInv(s', t) {
      ThreadKept(s, l, t);
    }
    forall m | m in s'.held ensures IsHolder(s', m) {
      assert m in s.held ==> IsHolder(s, m);
    }
  }

  lemma {:induction false} InvAt(r: Run, k: nat)
    requires IsRun(r) && k < |r.states|
    ensures Inv(r.states[k])
  {
    if k > 0 {
      InvAt(r, k - 1);
      assert Step(r.states[k - 1], r.labels[k - 1], r.states[k]);
      InvStep(r.states[k - 1], r.labels[k - 1]);
    }
  }

  // ---- One client, one mutex, one operation

  predicate Stored<K>(m: map<K, Id>, k: K, v: Id) {
    k in m && m[k] == v
  }

  lemma {:induction false} MapsOnlyGrow(r: Run, i: nat, j: nat)
    requires IsRun(r) && i <= j < |r.states|
    ensures forall n :: n in r.states[i].clients ==> Stored(r.states[j].clients, n, r.states[i].clients[n])
    ensures forall k :: k in r.states[i].mutexes ==> Stored(r.states[j].mutexes, k, r.states[i].mutexes[k])
  {
    if i < j {
      MapsOnlyGrow(r, i, j - 1);
      assert Step(r.states[j - 1], r.labels[j - 1], r.states[j]);
    }
  }

  /** Over a whole run, whoever looks up a namespace, at whatever time, works with one and the same client, and
      whoever mutates one of its releases waits on one and the same mutex. */
  lemma OneClientOneMutex(r: Run, i: nat, t: Id, j: nat, u: Id)
    requires IsRun(r) && i <= j < |r.states| && t in r.states[i].threads && u in r.states[j].threads
    requires r.states[i].threads[t].namespace == r.states[j].threads[u].namespace
    requires !r.states[i].threads[t].pc.LookingUp? && !r.states[j].threads[u].pc.LookingUp?
    ensures r.states[i].threads[t].client == r.states[j].threads[u].client
    ensures var pt, pu := r.states[i].threads[t].pc, r.states[j].threads[u].pc;
      HasMutex(pt) && HasMutex(pu) && pt.release == pu.release ==> r.states[i].threads[t].mutex == r.states[j].threads[u].mutex
  {
    InvAt(r, i);
    InvAt(r, j);
    MapsOnlyGrow(r, i, j);
    assert ThreadInv(r.states[i], t) && ThreadInv(r.states[j], u);
  }

  /** At most one install, upgrade, rollback or uninstall is in flight per namespace and release. */
  lemma OneOperationInFlight(r: Run, k: nat, t: Id, u: Id)
    requires IsRun(r) && k < |r.states| && t in r.states[k].threads && u in r.states[k].threads
    requires r.states[k].threads[t].pc.Running? && r.states[k].threads[u].pc.Running?
    requires r.states[k].threads[t].namespace == r.states[k].threads[u].namespace
    requires r.states[k].threads[t].pc.release == r.states[k].threads[u].pc.release
    ensures t == u
  {
    InvAt(r, k);
    assert ThreadInv(r.states[k], t) && ThreadInv(r.states[k], u);
  }

  /** The locks are no coarser than that: an operation waits for another only if both are on the same release
      of the same namespace. */
  lemma WaitsOnlyForSameRelease(r: Run, k: nat, t: Id)
    requires IsRun(r) && k < |r.states| && t in r.states[k].threads
    requires r.states[k].threads[t].pc.WaitingMutex? && !Enabled(r.states[k], Lock(t))
    ensures var s, th := r.states[k], r.states[k].threads[t];
      th.mutex in s.held && s.held[th.mutex] in s.threads
      && var h := s.threads[s.held[th.mutex]];
      h.pc.Running? && h.pc.release == th.pc.release && h.namespace == th.namespace
  {
    InvAt(r, k);
    var s := r.states[k];
    assert ThreadInv(s, t);
    assert IsHolder(s, s.threads[t].mutex);
    assert ThreadInv(s, s.held[s.threads[t].mutex]);
  }

  /** A thread never waits for anything else: wherever it is, it can go on, and with its client it can begin any
      operation on any release. */
  lemma OnlyLocksWait(s: State, t: Id, op: Operation, release: Name)
    requires t in s.threads
    ensures match s.threads[t].pc
      case LookingUp => Enabled(s, LoadOrStoreClient(t))
      case HasClient => Enabled(s, Begin(t, op, release))
      case AskingMutex(_, _) => Enabled(s, LoadOrStoreMutex(t))
      case WaitingMutex(_, _) => Enabled(s, Lock(t)) || s.threads[t].mutex in s.held
      case Running(_, _) => Enabled(s, Finish(t))
  {
  }

  // ---- The same, told by the steps of the run

  /** A thread works in the namespace it asked for. */
  lemma {:induction false} NamespaceIsAsked(r: Run, t: Id, j: nat)
    requires IsRun(r) && j < |r.states| && t in r.states[j].threads
    ensures GetClient(t, r.states[j].threads[t].namespace) in r.labels[..j]
  {
    if j > 0 {
      var l := r.labels[j - 1];
      assert Step(r.states[j - 1], l, r.states[j]);
      assert r.labels[..j] == r.labels[..j - 1] + [l];
      if l != GetClient(t, r.states[j].threads[t].namespace) {
        NamespaceIsAsked(r, t, j - 1);
      }
    }
  }

  predicate AtWork(pc: Pc) {
    pc.AskingMutex? || HasMutex(pc)
  }

  /** The operation and the release are those the thread last began with. */
  lemma {:induction false} ReleaseIsAsked(r: Run, t: Id, j: nat) returns (i: nat)
    requires IsRun(r) && j < |r.states| && t in r.states[j].threads && AtWork(r.states[j].threads[t].pc)
    ensures i < j && r.labels[i] == Begin(t, r.states[j].threads[t].pc.op, r.states[j].threads[t].pc.release)
    ensures forall m :: i < m < j ==> !(r.labels[m].Begin? && r.labels[m].t == t)
  {
    i := j - 1;
    assert Step(r.states[i], r.labels[i], r.states[j]);
    if !(r.labels[i].Begin? && r.labels[i].t == t) {
      i := ReleaseIsAsked(r, t, j - 1);
    }
  }

  /** An operation that has the lock keeps running until its Finish. */
  lemma {:induction false} RunsUntilFinish(r: Run, t: Id, i: nat, j: nat)
    requires IsRun(r) && i < j < |r.states| && r.labels[i] == Lock(t)
    requires forall m :: i < m < j ==> r.labels[m] != Finish(t)
    ensures t in r.states[i].threads && t in r.states[j].threads
    ensures r.states[j].threads[t].namespace == r.states[i].threads[t].namespace
    ensures r.states[i].threads[t].pc.WaitingMutex? && r.states[j].threads[t].pc.Running?
    ensures r.states[j].threads[t].pc.release == r.states[i].threads[t].pc.release
  {
    assert Step(r.states[j - 1], r.labels[j - 1], r.states[j]);
    if i < j - 1 {
      RunsUntilFinish(r, t, i, j - 1);
    }
  }

  lemma LockIsFree(s: State, t: Id, u: Id)
    requires Inv(s) && Enabled(s, Lock(u)) && t in s.threads && s.threads[t].pc.Running?
    ensures s.threads[t].namespace != s.threads[u].namespace || s.threads[t].pc.release != s.threads[u].pc.release
  {
    assert ThreadInv(s, t) && ThreadInv(s, u);
  }

  /** Between two operations on one release that get the lock, the first of them finishes. */
  lemma FinishesBetween(r: Run, t: Id, u: Id, i: nat, j: nat)
    requires IsRun(r) && i < j < |r.labels| && r.labels[i] == Lock(t) && r.labels[j] == Lock(u)
    ensures t in r.states[i].threads && r.states[i].threads[t].pc.WaitingMutex?
    ensures u in r.states[j].threads && r.states[j].threads[u].pc.WaitingMutex?
    ensures var first, second := r.states[i].threads[t], r.states[j].threads[u];
      first.namespace == second.namespace && first.pc.release == second.pc.release ==>
      exists m :: i < m < j && r.labels[m] == Finish(t)
  {
    assert Step(r.states[i], r.labels[i], r.states[i + 1]);
    assert Step(r.states[j], r.labels[j], r.states[j + 1]);
    var first, second := r.states[i].threads[t], r.states[j].threads[u];
    if first.namespace == second.namespace && first.pc.release == second.pc.release {
      InvAt(r, j);
      if forall m :: i < m < j ==> r.labels[m] != Finish(t) {
        RunsUntilFinish(r, t, i, j);
        LockIsFree(r.states[j], t, u);
      }
    }
  }
}
