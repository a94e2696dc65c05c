/**
 The dot progress indicator (internal/cli/termui/dot_progress.go) as a system of interleaved steps.

 Any number of callers invoke Start, Stop and ChangeMessage on one indicator, and every successful Start
 spawns a goroutine printing dots.  They share a mutex, the `active` flag and a channel of capacity one.
 A step is what one thread does between two points where the others can observe it; a label names the
 step and the thread taking it, so a run is a sequence of labels.
 */
module DotProgress {

  type ThreadId = nat

  /** Where a caller is.  `restart` is set inside ChangeMessage, which continues with Start. */
  datatype CallerPc =
    | StartLock
    | StartHeld
    | Spawning
    | StopLock(restart: bool)
    | StopHeld(restart: bool)
    | StopSend(restart: bool)
    | StopDone(restart: bool)

  /** Where a dot goroutine is in its endless loop. */
  datatype DotPc = AtSelect | WantLock | DotHeld | Sleeping

  datatype Mutex = Free | ByCaller(caller: ThreadId) | ByDot(dot: ThreadId)

  /** Callers without an entry are idle.  `inactiveExits` counts the goroutines that returned from the
      `!p.active` check rather than by receiving from the channel. */
  datatype State = State(
    mutex: Mutex,
    active: bool,
    tokens: nat,
    callers: map<ThreadId, CallerPc>,
    dots: map<ThreadId, DotPc>,
    inactiveExits: nat)

  datatype Label =
    | CallStart(c: ThreadId)
    | CallStop(c: ThreadId)
    | CallChange(c: ThreadId)
    | Acquire(c: ThreadId)
    | StartReturn(c: ThreadId)
    | Activate(c: ThreadId)
    | Spawn(c: ThreadId, d: ThreadId)
    | StopIdle(c: ThreadId)
    | Deactivate(c: ThreadId)
    | Send(c: ThreadId)
    | StopReturn(c: ThreadId)
    | TakeToken(d: ThreadId)
    | SelectDefault(d: ThreadId)
    | DotAcquire(d: ThreadId)
    | ExitInactive(d: ThreadId)
    | Print(d: ThreadId)
    | Wake(d: ThreadId)

  const CAPACITY: nat := 1

  const Init := State(Free, false, 0, map[], map[], 0)

  predicate CallerAt(s: State, c: ThreadId, pc: CallerPc) {
    c in s.callers && s.callers[c] == pc
  }

  predicate DotAt(s: State, d: ThreadId, pc: DotPc) {
    d in s.dots && s.dots[d] == pc
  }

  predicate Enabled(s: State, l: Label) {
    match l
    case CallStart(c) => c !in s.callers
    case CallStop(c) => c !in s.callers
    case CallChange(c) => c !in s.callers
    case Acquire(c) => s.mutex.Free? && c in s.callers && (s.callers[c].StartLock? || s.callers[c].StopLock?)
    case StartReturn(c) => CallerAt(s, c, StartHeld) && s.active
    case Activate(c) => CallerAt(s, c, StartHeld) && !s.active
    case Spawn(c, d) => CallerAt(s, c, Spawning) && d !in s.dots
    case StopIdle(c) => c in s.callers && s.callers[c].StopHeld? && !s.active
    case Deactivate(c) => c in s.callers && s.callers[c].StopHeld? && s.active
    case Send(c) => c in s.callers && s.callers[c].StopSend? && s.tokens < CAPACITY
    case StopReturn(c) => c in s.callers && s.callers[c].StopDone?
    case TakeToken(d) => DotAt(s, d, AtSelect) && s.tokens > 0
    case SelectDefault(d) => DotAt(s, d, AtSelect) && s.tokens == 0
    case DotAcquire(d) => DotAt(s, d, WantLock) && s.mutex.Free?
    case ExitInactive(d) => DotAt(s, d, DotHeld) && !s.active
    case Print(d) => DotAt(s, d, DotHeld) && s.active
    case Wake(d) => DotAt(s, d, Sleeping)
  }

  function Next(s: State, l: Label): State
    requires Enabled(s, l)
  {
    match l
    case CallStart(c) => s.(callers := s.callers[c := StartLock])
    case CallStop(c) => s.(callers := s.callers[c := StopLock(false)])
    case CallChange(c) => s.(callers := s.callers[c := StopLock(true)])
    case Acquire(c) =>
      var pc := if s.callers[c].StartLock? then StartHeld else StopHeld(s.callers[c].restart);
      s.(mutex := ByCaller(c), callers := s.callers[c := pc])
    case StartReturn(c) => s.(mutex := Free, callers := s.callers - {c})
    case Activate(c) => s.(mutex := Free, active := true, callers := s.callers[c := Spawning])
    case Spawn(c, d) => s.(callers := s.callers - {c}, dots := s.dots[d := AtSelect])
    case StopIdle(c) => s.(callers := s.callers[c := StopDone(s.callers[c].restart)])
    case Deactivate(c) => s.(active := false, callers := s.callers[c := StopSend(s.callers[c].restart)])
    case Send(c) => s.(tokens := s.tokens + 1, callers := s.callers[c := StopDone(s.callers[c].restart)])
    case StopReturn(c) =>
      s.(mutex := Free, callers := if s.callers[c].restart then s.callers[c := StartLock] else s.callers - {c})
    case TakeToken(d) => s.(tokens := s.tokens - 1, dots := s.dots - {d})
    case SelectDefault(d) => s.(dots := s.dots[d := WantLock])
    case DotAcquire(d) => s.(mutex := ByDot(d), dots := s.dots[d := DotHeld])
    case ExitInactive(d) => s.(mutex := Free, dots := s.dots - {d}, inactiveExits := s.inactiveExits + 1)
    case Print(d) => s.(mutex := Free, dots := s.dots[d := Sleeping])
    case Wake(d) => s.(dots := s.dots[d := AtSelect])
  }

  // ---- Runs

  predicate Step(s: State, l: Label, s': State) {
    Enabled(s, l) && s' == Next(s, l)
  }

  /** An interleaving: the step labelled `labels[i]` leads from `states[i]` to `states[i + 1]`. */
  datatype Run = Run(states: seq<State>, labels: seq<Label>)

  ghost predicate IsRun(r: Run) {
    && |r.states| == |r.labels| + 1
    && r.states[0] == Init
    && forall i :: 0 <= i < |r.labels| ==> Step(r.states[i], r.labels[i], r.states[i + 1])
  }

  ghost predicate Reachable(s: State) {
    exists r :: IsRun(r) && r.states[|r.labels|] == s
  }

  // ---- The invariant

  predicate HoldsMutex(pc: CallerPc) {
    pc.StartHeld? || pc.StopHeld? || pc.StopSend? || pc.StopDone?
  }

  /** A Stop that has cleared `active` and has not yet sent its token. */
  predicate StopPending(s: State) {
    s.mutex.ByCaller? && s.mutex.caller in s.callers && s.callers[s.mutex.caller].StopSend?
  }

  ghost function PendingSpawns(s: State): set<ThreadId> {
    set c | c in s.callers && s.callers[c] == Spawning
  }

  /** The live dot goroutines, counting those about to be spawned. */
  ghost function Live(s: State): nat {
    |PendingSpawns(s)| + |s.dots.Keys|
  }

  /** Some goroutine will reach, or is at, its select. */
  ghost predicate HasReceiver(s: State) {
    (exists c :: CallerAt(s, c, Spawning)) || (exists d :: DotAt(s, d, AtSelect))
  }

  ghost predicate MutexInv(s: State) {
    && (forall c :: c in s.callers && HoldsMutex(s.callers[c]) <==> s.mutex == ByCaller(c))
    && (forall d :: DotAt(s, d, DotHeld) <==> s.mutex == ByDot(d))
    && (forall c :: c in s.callers && (s.callers[c].StopSend? || s.callers[c].StopDone?) ==> !s.active)
  }

  /** The exact accounting of goroutines: every one ever spawned and still owed a token is matched by a
      token, by the active flag or by a Stop about to send, or it has left by the inactive check. */
  ghost predicate Accounting(s: State) {
    Live(s) + s.inactiveExits == s.tokens + (if s.active || StopPending(s) then 1 else 0)
  }

  ghost predicate Inv(s: State) {
    && MutexInv(s)
    && s.tokens <= CAPACITY
    && Accounting(s)
    && (s.tokens > 0 && (s.active || StopPending(s)) ==> HasReceiver(s))
  }

  lemma SpawnsWithout(s: State, s': State, c: ThreadId)
    requires c in s.callers && s'.callers == s.callers - {c}
    ensures PendingSpawns(s') == PendingSpawns(s) - {c}
  {
  }

  lemma SpawnsUpdated(s: State, s': State, c: ThreadId, pc: CallerPc)
    requires s'.callers == s.callers[c := pc]
    ensures pc != Spawning ==> PendingSpawns(s') == PendingSpawns(s) - {c}
    ensures pc == Spawning ==> PendingSpawns(s') == PendingSpawns(s) + {c}
  {
    assert pc != Spawning ==> PendingSpawns(s') == PendingSpawns(s) - {c};
    assert pc == Spawning ==> PendingSpawns(s') == PendingSpawns(s) + {c};
  }

  /** How a step changes the number of live goroutines. */
  function LiveChange(l: Label): int {
    match l
    case Activate(_) => 1
    case TakeToken(_) => -1
    case ExitInactive(_) => -1
    case _ => 0
  }

  predicate IsCallerStep(l: Label) {
    l.CallStart? || l.CallStop? || l.CallChange? || l.Acquire? || l.StartReturn? || l.StopIdle? || l.Deactivate? ||
    l.Send? || l.StopReturn?
  }

  lemma CallerLive(s: State, l: Label)
    requires Enabled(s, l) && IsCallerStep(l)
    ensures Live(Next(s, l)) == Live(s)
  {
    assert PendingSpawns(Next(s, l)) == PendingSpawns(s);
  }

  lemma DotLive(s: State, l: Label)
    requires Enabled(s, l) && !IsCallerStep(l) && !l.Activate? && !l.Spawn?
    ensures Live(Next(s, l)) == Live(s) + LiveChange(l)
  {
    var s' := Next(s, l);
    assert PendingSpawns(s') == PendingSpawns(s);
    assert s'.dots.Keys == if LiveChange(l) == 0 then s.dots.Keys else s.dots.Keys - {l.d};
  }

  lemma ActivateLive(s: State, c: ThreadId)
    requires Enabled(s, Activate(c))
    ensures Live(Next(s, Activate(c))) == Live(s) + 1
  {
    SpawnsUpdated(s, Next(s, Activate(c)), c, Spawning);
  }

  lemma SpawnLive(s: State, c: ThreadId, d: ThreadId)
    requires Enabled(s, Spawn(c, d))
    ensures Live(Next(s, Spawn(c, d))) == Live(s)
  {
    var s' := Next(s, Spawn(c, d));
    var spawns, dots := PendingSpawns(s), s.dots.Keys;
    assert PendingSpawns(s') == spawns - {c} by { SpawnsWithout(s, s', c); }
    assert s'.dots.Keys == dots + {d};
    assert c in spawns && d !in dots;
  }

  lemma LiveStep(s: State, l: Label)
    requires Enabled(s, l)
    ensures Live(Next(s, l)) == Live(s) + LiveChange(l)
  {
    if l.Activate? {
      ActivateLive(s, l.c);
    } else if l.Spawn? {
      SpawnLive(s, l.c, l.d);
    } else if IsCallerStep(l) {
      CallerLive(s, l);
    } else {
      DotLive(s, l);
    }
  }

  lemma AccountingKept(s: State, l: Label)
    requires Inv(s) && Enabled(s, l)
    ensures Accounting(Next(s, l))
  {
    LiveStep(s, l);
  }

  lemma ReceiverKept(s: State, l: Label)
    requires Inv(s) && Enabled(s, l)
    ensures var s' := Next(s, l); s'.tokens > 0 && (s'.active || StopPending(s')) ==> HasReceiver(s')
  {
    var s' := Next(s, l);
    if l.Activate? {
      assert CallerAt(s', l.c, Spawning);
    } else if l.Spawn? {
      assert DotAt(s', l.d, AtSelect);
    } else if s'.tokens > 0 && (s'.active || StopPending(s')) {
      if c :| CallerAt(s, c, Spawning) {
        assert CallerAt(s', c, Spawning);
      } else {
        var d :| DotAt(s, d, AtSelect);
        assert DotAt(s', d, AtSelect);
      }
    }
  }

  lemma CallersMutexKept(s: State, l: Label, c: ThreadId)
    requires MutexInv(s) && Enabled(s, l)
    ensures var s' := Next(s, l); c in s'.callers && HoldsMutex(s'.callers[c]) <==> s'.mutex == ByCaller(c)
  {
  }

  lemma DotsMutexKept(s: State, l: Label, d: ThreadId)
    requires MutexInv(s) && Enabled(s, l)
    ensures var s' := Next(s, l); DotAt(s', d, DotHeld) <==> s'.mutex == ByDot(d)
  {
  }

  lemma StoppersInactiveKept(s: State, l: Label, c: ThreadId)
    requires MutexInv(s) && Enabled(s, l)
    ensures var s' := Next(s, l);
      c in s'.callers && (s'.callers[c].StopSend? || s'.callers[c].StopDone?) ==> !s'.active
  {
    assert c in s.callers && HoldsMutex(s.callers[c]) <==> s.mutex == ByCaller(c);
  }

  lemma MutexKept(s: State, l: Label)
    requires MutexInv(s) && Enabled(s, l)
    ensures MutexInv(Next(s, l))
  {
    var s' := Next(s, l);
    forall c ensures c in s'.callers && HoldsMutex(s'.callers[c]) <==> s'.mutex == ByCaller(c) {
      CallersMutexKept(s, l, c);
    }
    forall c | c in s'.callers && (s'.callers[c].StopSend? || s'.callers[c].StopDone?) ensures !s'.active {
      StoppersInactiveKept(s, l, c);
    }
    forall d ensures DotAt(s', d, DotHeld) <==> s'.mutex == ByDot(d) {
      DotsMutexKept(s, l, d);
    }
  }

  lemma InvStep(s: State, l: Label)
    requires Inv(s) && Enabled(s, l)
    ensures Inv(Next(s, l))
  {
    MutexKept(s, l);
    AccountingKept(s, l);
    ReceiverKept(s, l);
  }

  lemma {:induction false} InvAt(r: Run, k: nat)
    requires IsRun(r) && k <= |r.labels|
    ensures Inv(r.states[k])
  {
    if k == 0 {
      InitInv();
    } else {
      InvAt(r, k - 1);
      assert Step(r.states[k - 1], r.labels[k - 1], r.states[k]);
      InvStep(r.states[k - 1], r.labels[k - 1]);
    }
  }

  lemma InitInv()
    ensures Inv(Init)
  {
    assert PendingSpawns(Init) == {};
  }

  lemma ReachableInv(s: State)
    requires Reachable(s)
    ensures Inv(s)
  {
    var r :| IsRun(r) && r.states[|r.labels|] == s;
    InvAt(r, |r.labels|);
  }

  // ---- Bounds

  /** Live goroutines never exceed the channel's tokens plus one for an active indicator or a pending send,
      hence at most two ever exist. */
  lemma LiveGoroutinesBounded(s: State)
    requires Reachable(s)
    ensures Live(s) <= s.tokens + (if s.active || StopPending(s) then 1 else 0)
    ensures Live(s) <= 2
  {
    ReachableInv(s);
  }

  /** A Stop that holds the mutex is the only one, so one send at most is outstanding. */
  lemma SendersExclusive(s: State, c1: ThreadId, c2: ThreadId)
    requires Reachable(s)
    requires c1 in s.callers && c2 in s.callers && HoldsMutex(s.callers[c1]) && HoldsMutex(s.callers[c2])
    ensures c1 == c2
  {
    ReachableInv(s);
    assert s.mutex == ByCaller(c1) && s.mutex == ByCaller(c2);
  }

  // ---- Stop never deadlocks

  /** The steps of goroutines that do not take the mutex. */
  predicate IsReceiverStep(l: Label) {
    l.Spawn? || l.TakeToken?
  }

  /** The steps can be taken one after the other and leave the send of caller `c` enabled. */
  predicate Frees(s: State, steps: seq<Label>, c: ThreadId)
    decreases steps
  {
    if steps == [] then Enabled(s, Send(c))
    else Enabled(s, steps[0]) && Frees(Next(s, steps[0]), steps[1..], c)
  }

  /** Whenever Stop is blocked on the full channel, at most two steps of a goroutine (its spawn and its receive),
      neither needing the mutex Stop holds, free the slot for the send. */
  lemma StopIsUnblocked(s: State, c: ThreadId) returns (rescue: seq<Label>)
    requires Reachable(s)
    requires c in s.callers && s.callers[c].StopSend?
    ensures |rescue| <= 2 && forall l :: l in rescue ==> IsReceiverStep(l)
    ensures Frees(s, rescue, c)
  {
    ReachableInv(s);
    assert s.mutex == ByCaller(c);
    if Enabled(s, Send(c)) {
      rescue := [];
    } else {
      rescue := Rescue(s, c);
    }
  }

  lemma Rescue(s: State, c: ThreadId) returns (rescue: seq<Label>)
    requires HasReceiver(s) && s.tokens == CAPACITY
    requires c in s.callers && s.callers[c].StopSend?
    ensures 0 < |rescue| <= 2 && forall l :: l in rescue ==> IsReceiverStep(l)
    ensures Frees(s, rescue, c)
  {
    if d :| DotAt(s, d, AtSelect) {
      rescue := [TakeToken(d)];
    } else {
      var p :| CallerAt(s, p, Spawning);
      var d := FreshId(s.dots.Keys);
      rescue := [Spawn(p, d), TakeToken(d)];
    }
  }

  lemma {:induction false} FreshId(used: set<ThreadId>) returns (d: ThreadId)
    ensures d !in used && forall x :: x in used ==> x < d
  {
    d := 0;
    var rest := used;
    while rest != {}
      invariant rest <= used
      invariant forall x :: x in used && x !in rest ==> x < d
    {
      var x :| x in rest;
      rest := rest - {x};
      d := if x < d then d else x + 1;
    }
  }

  /** While a Stop waits to send, every step keeps a receiver in reach until the send is possible: no schedule
      can take the rescue away. */
  lemma BlockedStopKeepsReceiver(s: State, c: ThreadId, l: Label)
    requires Reachable(s)
    requires c in s.callers && s.callers[c].StopSend? && !Enabled(s, Send(c)) && Enabled(s, l)
    ensures CallerAt(Next(s, l), c, s.callers[c]) && Next(s, l).mutex == ByCaller(c)
    ensures Enabled(Next(s, l), Send(c)) || HasReceiver(Next(s, l))
  {
    ReachableInv(s);
    assert s.mutex == ByCaller(c);
    InvStep(s, l);
  }

  /** No reachable state with an unfinished call is stuck: some step other than a new call is possible. */
  lemma NoDeadlock(s: State, c: ThreadId) returns (l: Label)
    requires Reachable(s) && c in s.callers
    ensures Enabled(s, l) && !l.CallStart? && !l.CallStop? && !l.CallChange?
  {
    ReachableInv(s);
    if s.mutex.Free? {
      var d := FreshId(s.dots.Keys);
      l := if s.callers[c] == Spawning then Spawn(c, d) else Acquire(c);
    } else if s.mutex.ByDot? {
      assert DotAt(s, s.mutex.dot, DotHeld);
      l := if s.active then Print(s.mutex.dot) else ExitInactive(s.mutex.dot);
    } else {
      l := HolderStep(s, s.mutex.caller);
    }
  }

  lemma HolderStep(s: State, h: ThreadId) returns (l: Label)
    requires Inv(s) && s.mutex == ByCaller(h)
    ensures Enabled(s, l) && !l.CallStart? && !l.CallStop? && !l.CallChange?
  {
    assert h in s.callers && HoldsMutex(s.callers[h]);
    if s.callers[h].StartHeld? {
      l := if s.active then StartReturn(h) else Activate(h);
    } else if s.callers[h].StopHeld? {
      l := if s.active then Deactivate(h) else StopIdle(h);
    } else if s.callers[h].StopDone? {
      l := StopReturn(h);
    } else if Enabled(s, Send(h)) {
      l := Send(h);
    } else {
      var rescue := Rescue(s, h);
      l := rescue[0];
      assert l in rescue;
    }
  }

  // ---- What a call goes through

  /** A step of the caller in one of its calls. */
  predicate IsMoveOf(l: Label, c: ThreadId) {
    match l
    case CallStart(k) => k == c
    case CallStop(k) => k == c
    case CallChange(k) => k == c
    case Acquire(k) => k == c
    case StartReturn(k) => k == c
    case Activate(k) => k == c
    case Spawn(k, _) => k == c
    case StopIdle(k) => k == c
    case Deactivate(k) => k == c
    case Send(k) => k == c
    case StopReturn(k) => k == c
    case _ => false
  }

  /** The caller's steps since it last began a call. */
  function Moves(labels: seq<Label>, c: ThreadId): seq<Label> {
    if labels == [] then []
    else
      var l := labels[|labels| - 1];
      if !IsMoveOf(l, c) then Moves(labels[..|labels| - 1], c)
      else if l.CallStart? || l.CallStop? || l.CallChange? then [l]
      else Moves(labels[..|labels| - 1], c) + [l]
  }

  /** Stop takes the mutex and returns, after sending to the goroutine if the indicator was active. */
  ghost predicate RanStop(c: ThreadId, first: Label, moves: seq<Label>) {
    || moves == [first, Acquire(c), StopIdle(c), StopReturn(c)]
    || moves == [first, Acquire(c), Deactivate(c), Send(c), StopReturn(c)]
  }

  /** Start takes the mutex and returns, after activating the indicator and spawning a goroutine if it was not. */
  ghost predicate RanStart(c: ThreadId, before: seq<Label>, moves: seq<Label>) {
    || moves == before + [Acquire(c), StartReturn(c)]
    || exists d :: moves == before + [Acquire(c), Activate(c), Spawn(c, d)]
  }

  /** What leads up to a Start: it was called, or ChangeMessage has run through its Stop. */
  ghost predicate BeforeStart(c: ThreadId, moves: seq<Label>) {
    moves == [CallStart(c)] || RanStop(c, CallChange(c), moves)
  }

  ghost predicate RanCall(c: ThreadId, moves: seq<Label>) {
    || RanStop(c, CallStop(c), moves)
    || exists before :: BeforeStart(c, before) && RanStart(c, before, moves)
  }

  /** The caller's place agrees with the steps it has taken. */
  ghost predicate Story(s: State, c: ThreadId, moves: seq<Label>) {
    if c !in s.callers then moves == [] || RanCall(c, moves)
    else
      match s.callers[c]
      case StartLock => BeforeStart(c, moves)
      case StartHeld => exists before :: BeforeStart(c, before) && moves == before + [Acquire(c)]
      case Spawning => exists before :: BeforeStart(c, before) && moves == before + [Acquire(c), Activate(c)]
      case StopLock(restart) => moves == [StopCall(c, restart)]
      case StopHeld(restart) => moves == [StopCall(c, restart), Acquire(c)]
      case StopSend(restart) => moves == [StopCall(c, restart), Acquire(c), Deactivate(c)]
      case StopDone(restart) =>
        || moves == [StopCall(c, restart), Acquire(c), StopIdle(c)]
        || moves == [StopCall(c, restart), Acquire(c), Deactivate(c), Send(c)]
  }

  function StopCall(c: ThreadId, restart: bool): Label {
    if restart then CallChange(c) else CallStop(c)
  }

  lemma StoryOfStart(s: State, l: Label, c: ThreadId, moves: seq<Label>)
    requires Enabled(s, l) && Story(s, c, moves) && IsMoveOf(l, c)
    requires l.StartReturn? || l.Activate? || l.Spawn? || (l.Acquire? && s.callers[c].StartLock?)
    ensures Story(Next(s, l), c, moves + [l])
  {
    if l.StartReturn? {
      var before :| BeforeStart(c, before) && moves == before + [Acquire(c)];
      assert moves + [l] == before + [Acquire(c), StartReturn(c)];
      assert RanStart(c, before, moves + [l]);
    } else if l.Activate? {
      var before :| BeforeStart(c, before) && moves == before + [Acquire(c)];
      assert moves + [l] == before + [Acquire(c), Activate(c)];
    } else if l.Spawn? {
      var before :| BeforeStart(c, before) && moves == before + [Acquire(c), Activate(c)];
      assert moves + [l] == before + [Acquire(c), Activate(c), Spawn(c, l.d)];
      assert RanStart(c, before, moves + [l]);
    }
  }

  lemma StoryOfStop(s: State, l: Label, c: ThreadId, moves: seq<Label>)
    requires Enabled(s, l) && Story(s, c, moves) && IsMoveOf(l, c)
    requires l.StopIdle? || l.Deactivate? || l.Send? || l.StopReturn? || (l.Acquire? && s.callers[c].StopLock?)
    ensures Story(Next(s, l), c, moves + [l])
  {
  }

  lemma StoryStep(s: State, l: Label, c: ThreadId, moves: seq<Label>)
    requires Enabled(s, l) && Story(s, c, moves)
    ensures Story(Next(s, l), c,
      if !IsMoveOf(l, c) then moves else if l.CallStart? || l.CallStop? || l.CallChange? then [l] else moves + [l])
  {
    if !IsMoveOf(l, c) {
      assert c in s.callers <==> c in Next(s, l).callers;
      assert c in s.callers ==> Next(s, l).callers[c] == s.callers[c];
    } else if l.CallStart? || l.CallStop? || l.CallChange? {
    } else if l.StartReturn? || l.Activate? || l.Spawn? || (l.Acquire? && s.callers[c].StartLock?) {
      StoryOfStart(s, l, c, moves);
    } else {
      StoryOfStop(s, l, c, moves);
    }
  }

  lemma {:induction false} StoryAt(r: Run, c: ThreadId, j: nat)
    requires IsRun(r) && j < |r.states|
    ensures Story(r.states[j], c, Moves(r.labels[..j], c))
  {
    if j > 0 {
      StoryAt(r, c, j - 1);
      assert Step(r.states[j - 1], r.labels[j - 1], r.states[j]);
      assert r.labels[..j][..j - 1] == r.labels[..j - 1];
      StoryStep(r.states[j - 1], r.labels[j - 1], c, Moves(r.labels[..j - 1], c));
    }
  }

  /** Every call that has returned has run through: a Stop as Stop does, a Start as Start does, and a ChangeMessage
      through a whole Stop and then a whole Start. */
  lemma CallsRunThrough(r: Run, c: ThreadId)
    requires IsRun(r) && c !in r.states[|r.labels|].callers && Moves(r.labels, c) != []
    ensures var moves := Moves(r.labels, c);
      && (moves[0].CallStop? ==> RanStop(c, CallStop(c), moves))
      && (moves[0].CallStart? ==> RanStart(c, [CallStart(c)], moves))
      && (moves[0].CallChange? ==> exists stop :: RanStop(c, CallChange(c), stop) && RanStart(c, stop, moves))
      && (moves[0].CallStop? || moves[0].CallStart? || moves[0].CallChange?)
  {
    StoryAt(r, c, |r.labels|);
    assert r.labels[..|r.labels|] == r.labels;
  }

  /** Start returns when the indicator is active, and Stop when it is not. */
  lemma ReturnsMean(s: State, l: Label)
    requires Reachable(s) && Enabled(s, l)
    ensures l.StartReturn? ==> s.active
    ensures l.Activate? ==> !s.active && Next(s, l).active
    ensures l.StopReturn? || l.Send? || l.StopIdle? ==> !s.active
  {
    ReachableInv(s);
  }

  // ---- What a goroutine goes through

  predicate Concerns(l: Label, d: ThreadId) {
    match l
    case Spawn(_, k) => k == d
    case TakeToken(k) => k == d
    case SelectDefault(k) => k == d
    case DotAcquire(k) => k == d
    case ExitInactive(k) => k == d
    case Print(k) => k == d
    case Wake(k) => k == d
    case _ => false
  }

  /** In the order of the goroutine's loop: select, lock, check and print, sleep; it ends by receiving or by the check. */
  predicate MayFollow(previous: Label, l: Label) {
    match l
    case Spawn(_, _) => previous.TakeToken? || previous.ExitInactive?
    case TakeToken(_) => previous.Spawn? || previous.Wake?
    case SelectDefault(_) => previous.Spawn? || previous.Wake?
    case DotAcquire(_) => previous.SelectDefault?
    case ExitInactive(_) => previous.DotAcquire?
    case Print(_) => previous.DotAcquire?
    case Wake(_) => previous.Print?
    case _ => false
  }

  /** What a goroutine can do next, by where it is; a new one may take the place of one that has ended. */
  predicate Awaits(s: State, d: ThreadId, l: Label) {
    if d !in s.dots then l.Spawn?
    else
      match s.dots[d]
      case AtSelect => l.TakeToken? || l.SelectDefault?
      case WantLock => l.DotAcquire?
      case DotHeld => l.ExitInactive? || l.Print?
      case Sleeping => l.Wake?
  }

  lemma AwaitsStays(s: State, l: Label, d: ThreadId, next: Label)
    requires Enabled(s, l) && !Concerns(l, d)
    ensures Awaits(Next(s, l), d, next) <==> Awaits(s, d, next)
  {
  }

  lemma {:induction false} AwaitsAfter(r: Run, d: ThreadId, i: nat, j: nat, next: Label)
    requires IsRun(r) && i < j < |r.states| && Concerns(r.labels[i], d)
    requires forall k :: i < k < j ==> !Concerns(r.labels[k], d)
    ensures Concerns(next, d) ==> (Awaits(r.states[j], d, next) <==> MayFollow(r.labels[i], next))
  {
    assert Step(r.states[j - 1], r.labels[j - 1], r.states[j]);
    if i < j - 1 {
      AwaitsAfter(r, d, i, j - 1, next);
      AwaitsStays(r.states[j - 1], r.labels[j - 1], d, next);
    }
  }

  /** A goroutine takes its steps in the order of its loop, and can go on with every step that may follow the last. */
  lemma DotsRunInOrder(r: Run, d: ThreadId, i: nat, j: nat)
    requires IsRun(r) && i < j < |r.labels| && Concerns(r.labels[i], d) && Concerns(r.labels[j], d)
    requires forall k :: i < k < j ==> !Concerns(r.labels[k], d)
    ensures MayFollow(r.labels[i], r.labels[j])
  {
    assert Step(r.states[j], r.labels[j], r.states[j + 1]);
    AwaitsAfter(r, d, i, j, r.labels[j]);
  }

  // ---- No dots after Stop

  lemma {:induction false} InactiveUntilActivate(r: Run, i: nat, j: nat)
    requires IsRun(r) && i <= j <= |r.labels| && !r.states[i].active
    requires forall k :: i <= k < j ==> !r.labels[k].Activate?
    ensures !r.states[j].active
  {
    if i < j {
      InactiveUntilActivate(r, i, j - 1);
      assert Step(r.states[j - 1], r.labels[j - 1], r.states[j]);
    }
  }

  /** In every run, between a completed Stop and a later dot some Start has activated the indicator again. */
  lemma NoDotAfterStop(r: Run, i: nat, j: nat)
    requires IsRun(r)
    requires i < j < |r.labels| && r.labels[i].StopReturn? && r.labels[j].Print?
    ensures exists k :: i < k < j && r.labels[k].Activate?
  {
    InvAt(r, i);
    assert Step(r.states[i], r.labels[i], r.states[i + 1]);
    assert Step(r.states[j], r.labels[j], r.states[j + 1]);
    if forall k :: i < k < j ==> !r.labels[k].Activate? {
      InactiveUntilActivate(r, i + 1, j);
    }
  }

  // ---- What a goroutine leaving by the inactive check costs

  /** An active indicator has more goroutines than tokens to end them exactly when none has ever left by the
      inactive check. */
  lemma ActiveHasDotIffNoInactiveExit(s: State)
    requires Reachable(s) && s.active
    ensures Live(s) > s.tokens <==> s.inactiveExits == 0
    ensures s.tokens == 0 ==> (Live(s) == 1 <==> s.inactiveExits == 0) && (Live(s) == 0 <==> s.inactiveExits > 0)
  {
    ReachableInv(s);
  }

  lemma OnlyReceiversOnceExited(s: State, d: ThreadId)
    requires Inv(s) && s.inactiveExits > 0 && s.active && d in s.dots
    ensures DotAt(s, d, AtSelect)
  {
    assert {d} <= s.dots.Keys;
    assert |s.dots.Keys - {d}| == |s.dots.Keys| - 1;
    assert PendingSpawns(s) == {} && s.dots.Keys - {d} == {};
    assert forall c :: CallerAt(s, c, Spawning) ==> c in PendingSpawns(s);
    assert forall e :: e in s.dots ==> e == d;
  }

  lemma {:induction false} ExitsKept(r: Run, i: nat, j: nat)
    requires IsRun(r) && i <= j <= |r.labels|
    ensures r.states[i].inactiveExits <= r.states[j].inactiveExits
  {
    if i < j {
      ExitsKept(r, i, j - 1);
      assert Step(r.states[j - 1], r.labels[j - 1], r.states[j]);
    }
  }

  /** Once one goroutine has left by the inactive check, no dot is ever printed again: its unread token ends
      every later goroutine at its first select. */
  lemma NoDotAfterInactiveExit(r: Run, i: nat, j: nat)
    requires IsRun(r)
    requires i < j < |r.labels| && r.labels[i].ExitInactive?
    ensures !r.labels[j].Print?
  {
    assert Step(r.states[i], r.labels[i], r.states[i + 1]);
    ExitsKept(r, i + 1, j);
    InvAt(r, j);
    assert Step(r.states[j], r.labels[j], r.states[j + 1]);
    if r.labels[j].Print? {
      OnlyReceiversOnceExited(r.states[j], r.labels[j].d);
    }
  }

  // ---- When another dot can be printed

  /** The steps can be taken one after the other, and the last one prints a dot. */
  ghost predicate Prints(s: State, steps: seq<Label>)
    decreases |steps|
  {
    steps != [] && Enabled(s, steps[0]) &&
    if |steps| == 1 then steps[0].Print? else Prints(Next(s, steps[0]), steps[1..])
  }

  ghost predicate CanPrint(s: State) {
    exists steps :: Prints(s, steps)
  }

  lemma {:induction false} NeverPrintsOnceExited(s: State, steps: seq<Label>)
    requires Inv(s) && s.inactiveExits > 0
    ensures !Prints(s, steps)
    decreases |steps|
  {
    if steps != [] && Enabled(s, steps[0]) {
      if |steps| == 1 {
        if steps[0].Print? {
          OnlyReceiversOnceExited(s, steps[0].d);
        }
      } else {
        InvStep(s, steps[0]);
        NeverPrintsOnceExited(Next(s, steps[0]), steps[1..]);
      }
    }
  }

  lemma StepFirst(s: State, l: Label)
    requires Enabled(s, l) && CanPrint(Next(s, l))
    ensures CanPrint(s)
  {
    var steps :| Prints(Next(s, l), steps);
    assert ([l] + steps)[1..] == steps;
    assert Prints(s, [l] + steps);
  }

  lemma PrintNow(s: State, d: ThreadId)
    requires Enabled(s, Print(d))
    ensures CanPrint(s)
  {
    assert Prints(s, [Print(d)]);
  }

  lemma FromSelect(s: State, d: ThreadId)
    requires s.mutex.Free? && s.active && s.tokens == 0 && DotAt(s, d, AtSelect)
    ensures CanPrint(s)
  {
    var s1 := Next(s, SelectDefault(d));
    FromWantLock(s1, d);
    StepFirst(s, SelectDefault(d));
  }

  lemma FromWantLock(s: State, d: ThreadId)
    requires s.mutex.Free? && s.active && DotAt(s, d, WantLock)
    ensures CanPrint(s)
  {
    PrintNow(Next(s, DotAcquire(d)), d);
    StepFirst(s, DotAcquire(d));
  }

  lemma FromEmpty(s: State)
    requires Inv(s) && s.mutex.Free? && s.active && s.tokens == 0 && s.inactiveExits == 0
    ensures CanPrint(s)
  {
    if d :| d in s.dots {
      assert !DotAt(s, d, DotHeld);
      match s.dots[d]
      case AtSelect => FromSelect(s, d);
      case WantLock => FromWantLock(s, d);
      case Sleeping =>
        FromSelect(Next(s, Wake(d)), d);
        StepFirst(s, Wake(d));
    } else {
      assert s.dots.Keys == {} && PendingSpawns(s) != {};
      var c :| c in PendingSpawns(s);
      FromSelect(Next(s, Spawn(c, 0)), 0);
      StepFirst(s, Spawn(c, 0));
    }
  }

  /** A receiver takes the token, being spawned before if need be. */
  /** What one token less changes, and leaves. */
  ghost predicate OneTokenLess(s: State, s': State) {
    && Inv(s') && s'.tokens == s.tokens - 1
    && s'.mutex == s.mutex && s'.active == s.active && s'.inactiveExits == s.inactiveExits
    && forall c :: c in s.callers && s.callers[c] != Spawning ==> c in s'.callers && s'.callers[c] == s.callers[c]
  }

  lemma TokenTakenAtSelect(s: State, d: ThreadId) returns (s': State)
    requires Inv(s) && DotAt(s, d, AtSelect) && s.tokens > 0
    ensures OneTokenLess(s, s') && (CanPrint(s') ==> CanPrint(s))
  {
    InvStep(s, TakeToken(d));
    s' := Next(s, TakeToken(d));
    if CanPrint(s') {
      StepFirst(s, TakeToken(d));
    }
  }

  lemma TokenTaken(s: State) returns (s': State)
    requires Inv(s) && HasReceiver(s) && s.tokens > 0
    ensures OneTokenLess(s, s') && (CanPrint(s') ==> CanPrint(s))
  {
    if d :| DotAt(s, d, AtSelect) {
      s' := TokenTakenAtSelect(s, d);
    } else {
      var c :| CallerAt(s, c, Spawning);
      var d := FreshId(s.dots.Keys);
      var s1 := Next(s, Spawn(c, d));
      InvStep(s, Spawn(c, d));
      s' := TokenTakenAtSelect(s1, d);
      if CanPrint(s1) {
        StepFirst(s, Spawn(c, d));
      }
    }
  }

  lemma FromFree(s: State)
    requires Inv(s) && s.mutex.Free? && s.active && s.inactiveExits == 0
    ensures CanPrint(s)
  {
    if s.tokens == 0 {
      FromEmpty(s);
    } else {
      var s' := TokenTaken(s);
      FromEmpty(s');
    }
  }

  lemma FromInactive(s: State)
    requires Inv(s) && s.mutex.Free? && !s.active && s.inactiveExits == 0
    ensures CanPrint(s)
  {
    var c := FreshId(s.callers.Keys);
    var s1 := Next(s, CallStart(c));
    InvStep(s, CallStart(c));
    var s2 := Next(s1, Acquire(c));
    InvStep(s1, Acquire(c));
    InvStep(s2, Activate(c));
    FromFree(Next(s2, Activate(c)));
    StepFirst(s2, Activate(c));
    StepFirst(s1, Acquire(c));
    StepFirst(s, CallStart(c));
  }

  lemma FromStopDone(s: State, c: ThreadId)
    requires Inv(s) && c in s.callers && s.callers[c].StopDone? && s.inactiveExits == 0
    ensures CanPrint(s)
  {
    InvStep(s, StopReturn(c));
    FromInactive(Next(s, StopReturn(c)));
    StepFirst(s, StopReturn(c));
  }

  lemma FromStopSend(s: State, c: ThreadId)
    requires Inv(s) && c in s.callers && s.callers[c].StopSend? && s.inactiveExits == 0
    ensures CanPrint(s)
  {
    assert s.mutex == ByCaller(c) && StopPending(s);
    var s1 := s;
    if s.tokens > 0 {
      s1 := TokenTaken(s);
    }
    InvStep(s1, Send(c));
    FromStopDone(Next(s1, Send(c)), c);
    StepFirst(s1, Send(c));
  }

  /** From an active indicator another dot can be printed exactly when no goroutine has left by the inactive check. */
  lemma CanPrintIffNoInactiveExit(s: State)
    requires Reachable(s) && s.active
    ensures CanPrint(s) <==> s.inactiveExits == 0
  {
    ReachableInv(s);
    if s.inactiveExits > 0 {
      forall steps ensures !Prints(s, steps) {
        NeverPrintsOnceExited(s, steps);
      }
    } else if s.mutex.Free? {
      FromFree(s);
    } else if s.mutex.ByDot? {
      assert DotAt(s, s.mutex.dot, DotHeld);
      PrintNow(s, s.mutex.dot);
    } else {
      FromHolder(s, s.mutex.caller);
    }
  }

  lemma FromHolder(s: State, c: ThreadId)
    requires Inv(s) && s.active && s.mutex == ByCaller(c) && s.inactiveExits == 0
    ensures CanPrint(s)
  {
    assert c in s.callers && (s.callers[c].StartHeld? || s.callers[c].StopHeld?);
    var l := if s.callers[c].StartHeld? then StartReturn(c) else Deactivate(c);
    InvStep(s, l);
    if l.StartReturn? {
      FromFree(Next(s, l));
    } else {
      FromStopSend(Next(s, l), c);
    }
    StepFirst(s, l);
  }

  lemma Extend(s: State, l: Label, s': State)
    requires Reachable(s) && Step(s, l, s')
    ensures Reachable(s')
  {
    var r :| IsRun(r) && r.states[|r.labels|] == s;
    var more := Run(r.states + [s'], r.labels + [l]);
    assert IsRun(more) && more.states[|more.labels|] == s';
  }

  lemma StartFrom(tokens: nat, exits: nat, d: ThreadId)
    requires Reachable(State(Free, false, tokens, map[], map[], exits))
    ensures Reachable(State(Free, true, tokens, map[], map[d := AtSelect], exits))
  {
    var s0 := State(Free, false, tokens, map[], map[], exits);
    var s1 := State(Free, false, tokens, map[0 := StartLock], map[], exits);
    var s2 := State(ByCaller(0), false, tokens, map[0 := StartHeld], map[], exits);
    var s3 := State(Free, true, tokens, map[0 := Spawning], map[], exits);
    Extend(s0, CallStart(0), s1);
    Extend(s1, Acquire(0), s2);
    Extend(s2, Activate(0), s3);
    Extend(s3, Spawn(0, d), State(Free, true, tokens, map[], map[d := AtSelect], exits));
  }

  lemma StopFrom(dots: map<ThreadId, DotPc>)
    requires Reachable(State(Free, true, 0, map[], dots, 0))
    ensures Reachable(State(Free, false, 1, map[], dots, 0))
  {
    var s0 := State(Free, true, 0, map[], dots, 0);
    var s1 := State(Free, true, 0, map[0 := StopLock(false)], dots, 0);
    var s2 := State(ByCaller(0), true, 0, map[0 := StopHeld(false)], dots, 0);
    var s3 := State(ByCaller(0), false, 0, map[0 := StopSend(false)], dots, 0);
    var s4 := State(ByCaller(0), false, 1, map[0 := StopDone(false)], dots, 0);
    Extend(s0, CallStop(0), s1);
    Extend(s1, Acquire(0), s2);
    Extend(s2, Deactivate(0), s3);
    Extend(s3, Send(0), s4);
    Extend(s4, StopReturn(0), State(Free, false, 1, map[], dots, 0));
  }

  /** It does happen: a goroutine waiting for the mutex that Stop holds leaves by the check, and the goroutine
      of the next Start reads the stale token.  The indicator is then active with nobody to print. */
  lemma SilentStateReachable() returns (s: State)
    ensures Reachable(s) && s.active && Live(s) == 0
  {
    assert IsRun(Run([Init], []));
    StartFrom(0, 0, 0);
    var waiting := map[0 := WantLock];
    Extend(State(Free, true, 0, map[], map[0 := AtSelect], 0), SelectDefault(0), State(Free, true, 0, map[], waiting, 0));
    StopFrom(waiting);
    var held := State(ByDot(0), false, 1, map[], map[0 := DotHeld], 0);
    Extend(State(Free, false, 1, map[], waiting, 0), DotAcquire(0), held);
    Extend(held, ExitInactive(0), State(Free, false, 1, map[], map[], 1));
    StartFrom(1, 1, 1);
    s := State(Free, true, 0, map[], map[], 1);
    Extend(State(Free, true, 1, map[], map[1 := AtSelect], 1), TakeToken(1), s);
    assert PendingSpawns(s) == {};
  }
}
