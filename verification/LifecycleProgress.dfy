/** A cleanup that has begun can be finished from every reachable state, by the backend, the thread, and a
    thread that is inside the lock. */
module LifecycleProgress {
  import opened Handlers
  import opened ThreadStatus
  import opened Lifecycle
  import opened LifecycleProof

  /** No thread holds the lock; the backend may. */
  predicate LockFree(s: State) {
    forall t :: 0 <= t < |s.threads| ==> !ThreadHolds(s.threads[t].pc)
  }

  /** The address of the thread's context. */
  function Own(s: State, t: nat): Addr
    requires t < |s.threads|
  {
    Addr(t, s.threads[t].gen)
  }

  /** All that a backend step leaves alone in thread `t`. */
  predicate SameThread(a: Thread, b: Thread) {
    a.pc == b.pc && a.gen == b.gen && a.calls == b.calls && a.past == b.past && a.ctx.published == b.ctx.published
  }

  predicate SameThreads(s: State, s': State) {
    |s'.threads| == |s.threads| && forall t :: 0 <= t < |s.threads| ==> SameThread(s.threads[t], s'.threads[t])
  }

  lemma {:induction false} BackendInv(levels: seq<int>, s: State)
    requires Inv(levels, s)
    ensures BackendCan(levels, s) && Inv(levels, BackendStep(levels, s)) && SameThreads(s, BackendStep(levels, s))
  {
    BackendSafe(levels, s);
    BackendFrame(levels, s);
    hide LockOk, ThreadsOk, ListsOk, BackendOk, OutputsOk, CallsOk, BackendCan, Lifecycle.BackendStep, SameThreads;
    StepInv(levels, s, BackendStep(levels, s));
  }

  lemma {:induction false} BackendFrame(levels: seq<int>, s: State)
    requires BackendCan(levels, s)
    ensures SameThreads(s, BackendStep(levels, s))
  {
  }

  /** The place of the backend in its loop: 6 at the lock, down to 2 in the sweep. */
  function Phase(b: BackendPc): nat {
    match b
    case NewLock => 6
    case Move => 5
    case NewUnlock => 4
    case Walk(_) => 3
    case Consume(_, _) => 3
    case ReadTid(_, _, _) => 3
    case Dispatch(_, _, _, _) => 3
    case Sweep(_) => 2
    case StoreDone(_) => 2
    case Unlink(_) => 2
  }

  /** List nodes the backend has before it in this phase. */
  function Nodes(s: State): int {
    match s.backend
    case Move => |s.addList|
    case Walk(i) => 2 * (|s.list| - i)
    case Consume(i, _) => 2 * (|s.list| - i) - 1
    case ReadTid(i, _, _) => 2 * (|s.list| - i) - 1
    case Dispatch(i, _, _, _) => 2 * (|s.list| - i) - 1
    case Sweep(i) => 3 * (|s.list| - i) + 2
    case StoreDone(i) => 3 * (|s.list| - i) + 1
    case Unlink(i) => 3 * (|s.list| - i)
    case _ => 0
  }

  /** Records it has still to take from the node it is at. */
  function Records(s: State): int {
    if (s.backend.Consume? || s.backend.ReadTid? || s.backend.Dispatch?) && s.backend.i < |s.list| && Allocated(s, s.list[s.backend.i])
    then s.backend.snap - CtxAt(s, s.list[s.backend.i]).taken
    else 0
  }

  /** Handlers it has still to offer the record to. */
  function Turns(levels: seq<int>, s: State): int {
    if s.backend.ReadTid? then |levels| + 2 else if s.backend.Dispatch? then |levels| - s.backend.h + 1 else 0
  }

  /** Phase, nodes, records and turns, compared in this order, are less at `s'`. */
  predicate Lower(levels: seq<int>, s: State, s': State) {
    && Nodes(s) >= 0 && Records(s) >= 0 && Turns(levels, s) >= 0
    && (Phase(s'.backend) < Phase(s.backend) ||
        (Phase(s'.backend) == Phase(s.backend) &&
          (Nodes(s') < Nodes(s) ||
            (Nodes(s') == Nodes(s) &&
              (Records(s') < Records(s) || (Records(s') == Records(s) && Turns(levels, s') < Turns(levels, s)))))))
  }

  /** Unless it is at the end of the sweep, or spinning, every backend step goes down. */
  lemma {:induction false} BackendDown(levels: seq<int>, s: State)
    requires Inv(levels, s) && BackendCan(levels, s) && !(s.backend == NewLock && s.locked)
    requires !(s.backend.Sweep? && s.backend.i >= |s.list|)
    ensures Lower(levels, s, BackendStep(levels, s))
  {
    hide LockOk, ThreadsOk, ListsOk, OutputsOk, CallsOk, JustTaken;
  }

  lemma {:induction false} Unlocked(levels: seq<int>, s: State)
    requires Inv(levels, s) && LockFree(s)
    ensures !(s.backend == NewLock && s.locked)
  {
    hide ThreadsOk, ListsOk, BackendOk, OutputsOk, CallsOk;
  }

  /** The context at `a` is among the nodes from `i` on. */
  predicate Ahead(s: State, a: Addr, i: int) {
    exists j :: 0 <= j < |s.list| && i <= j && s.list[j] == a
  }

  /** This pass of the backend will still sweep the node of `a`. */
  predicate SweepComing(s: State, a: Addr) {
    match s.backend
    case NewLock => true
    case Move => true
    case Sweep(i) => Ahead(s, a, i)
    case StoreDone(i) => Ahead(s, a, i)
    case Unlink(i) => Ahead(s, a, i)
    case _ => Ahead(s, a, 0)
  }

  /** This pass will still take every record of the context at `a`. */
  predicate DrainComing(s: State, a: Addr) {
    match s.backend
    case NewLock => true
    case Move => true
    case NewUnlock => Ahead(s, a, 0)
    case Walk(i) => Ahead(s, a, i)
    case Consume(i, snap) => Ahead(s, a, i + 1) || TakesAll(s, a, i, snap)
    case ReadTid(i, snap, _) => Ahead(s, a, i + 1) || TakesAll(s, a, i, snap)
    case Dispatch(i, snap, _, _) => Ahead(s, a, i + 1) || TakesAll(s, a, i, snap)
    case _ => false
  }

  predicate TakesAll(s: State, a: Addr, i: nat, snap: nat) {
    i < |s.list| && s.list[i] == a && Allocated(s, a) && snap == |CtxAt(s, a).published|
  }

  predicate IsDone(s: State, t: nat)
    requires t < |s.threads|
  {
    s.threads[t].ctx.status == DONE
  }

  predicate IsDrained(s: State, t: nat)
    requires t < |s.threads|
  {
    s.threads[t].ctx.taken == |s.threads[t].ctx.published|
  }

  /** An active context is in the backend's list once the add list is empty. */
  lemma {:induction false} InList(levels: seq<int>, s: State, t: nat)
    requires ListsOk(s) && t < |s.threads| && Active(s.threads[t])
    ensures s.addList == [] ==> Ahead(s, Own(s, t), 0)
  {
    hide Distinct;
    if s.addList == [] {
      assert Own(s, t) in s.addList + s.list;
      assert s.addList + s.list == s.list;
    }
  }

  lemma {:induction false} SweepUnlink(levels: seq<int>, s: State, t: nat)
    requires ListsOk(s) && BackendCan(levels, s) && t < |s.threads| && Active(s.threads[t]) && s.backend.Unlink?
    requires SweepComing(s, Own(s, t))
    ensures SweepComing(BackendStep(levels, s), Own(s, t))
  {
    hide Distinct;
    var s', a, i := BackendStep(levels, s), Own(s, t), s.backend.i;
    assert s.list[i] != a;
    var j :| 0 <= j < |s.list| && i <= j && s.list[j] == a;
    assert s'.list[j - 1] == a;
  }

  lemma {:induction false} SweepTurn(levels: seq<int>, s: State, t: nat)
    requires ListsOk(s) && BackendCan(levels, s) && t < |s.threads|
    requires s.threads[t].pc == Spin && s.threads[t].ctx.status == WAIT_REMOVE
    requires s.backend.Sweep? || s.backend.StoreDone?
    requires SweepComing(s, Own(s, t))
    ensures var s' := BackendStep(levels, s);
      t < |s'.threads| && (IsDone(s', t) || SweepComing(s', Own(s, t)))
  {
    hide Distinct;
    var s', a, i := BackendStep(levels, s), Own(s, t), s.backend.i;
    var j :| 0 <= j < |s.list| && i <= j && s.list[j] == a;
    assert s'.list[j] == a;
  }

  lemma {:induction false} SweepLater(levels: seq<int>, s: State, t: nat)
    requires ListsOk(s) && BackendCan(levels, s) && t < |s.threads| && Active(s.threads[t])
    requires !s.backend.Sweep? && !s.backend.StoreDone? && !s.backend.Unlink?
    requires SweepComing(s, Own(s, t))
    ensures SweepComing(BackendStep(levels, s), Own(s, t))
  {
    hide Distinct, ListsOk, ShouldWrite;
    var s', a := BackendStep(levels, s), Own(s, t);
    InList(levels, s, t);
    if s.backend.Move? {
      assert s.addList == [] ==> Ahead(s', a, 0) by {
        if s.addList == [] {
          var j :| 0 <= j < |s.list| && 0 <= j && s.list[j] == a;
          assert s'.list[j] == a;
        }
      }
    } else if Ahead(s, a, 0) {
      var j :| 0 <= j < |s.list| && 0 <= j && s.list[j] == a;
      assert s'.list[j] == a;
    }
  }

  /** A pass that is to sweep a waiting context goes on being so until the context is handed back. */
  lemma {:induction false} SweepKept(levels: seq<int>, s: State, t: nat)
    requires Inv(levels, s) && BackendCan(levels, s) && t < |s.threads|
    requires s.threads[t].pc == Spin && s.threads[t].ctx.status == WAIT_REMOVE
    requires SweepComing(s, Own(s, t))
    ensures var s' := BackendStep(levels, s);
      t < |s'.threads| && (IsDone(s', t) || SweepComing(s', Own(s, t)))
    ensures !(s.backend.Sweep? && s.backend.i >= |s.list|)
  {
    hide LockOk, ThreadsOk, ListsOk, BackendOk, OutputsOk, CallsOk, BackendCan, Lifecycle.BackendStep;
    BackendInv(levels, s);
    if s.backend.Unlink? {
      SweepUnlink(levels, s, t);
    } else if s.backend.Sweep? || s.backend.StoreDone? {
      SweepTurn(levels, s, t);
    } else {
      SweepLater(levels, s, t);
    }
  }

  lemma {:induction false} DrainWalks(levels: seq<int>, s: State, t: nat)
    requires BackendCan(levels, s) && t < |s.threads| && s.threads[t].pc != NoCtx
    requires s.backend.NewUnlock? || s.backend.Walk? || s.backend.Consume? || s.backend.ReadTid? || s.backend.Dispatch?
    requires DrainComing(s, Own(s, t)) && !IsDrained(s, t)
    ensures DrainComing(BackendStep(levels, s), Own(s, t))
  {
    hide ShouldWrite;
    var s', a := BackendStep(levels, s), Own(s, t);
    assert s'.list == s.list;
    assert forall i :: Ahead(s, a, i) ==> Ahead(s', a, i);
    if s.backend.Walk? {
      var i := s.backend.i;
      var j :| 0 <= j < |s.list| && i <= j && s.list[j] == a;
      assert j > i ==> Ahead(s', a, i + 1);
    }
  }

  /** A pass that is to take every record of a context goes on being so until they are taken. */
  lemma {:induction false} DrainKept(levels: seq<int>, s: State, t: nat)
    requires Inv(levels, s) && BackendCan(levels, s) && t < |s.threads| && Active(s.threads[t])
    requires DrainComing(s, Own(s, t)) && !IsDrained(s, t)
    ensures DrainComing(BackendStep(levels, s), Own(s, t))
    ensures !(s.backend.Sweep? && s.backend.i >= |s.list|)
  {
    hide LockOk, ThreadsOk, ListsOk, BackendOk, OutputsOk, CallsOk, ShouldWrite;
    InList(levels, s, t);
    if s.backend.Move? {
      var s', a := BackendStep(levels, s), Own(s, t);
      if s.addList == [] {
        var j :| 0 <= j < |s.list| && 0 <= j && s.list[j] == a;
        assert s'.list[j] == a;
      }
    } else if !s.backend.NewLock? {
      DrainWalks(levels, s, t);
    }
  }

  // ------------------------------------------------------------------- runs

  /** `longer` goes on from `run` by steps of the backend only. */
  ghost predicate BackendOnly(levels: seq<int>, run: seq<State>, longer: seq<State>) {
    && run <= longer && Run(levels, run) && Run(levels, longer)
    && SameThreads(run[|run| - 1], longer[|longer| - 1])
  }

  lemma {:induction false} Extend(levels: seq<int>, run: seq<State>, s': State)
    requires Run(levels, run) && Step(levels, run[|run| - 1], s')
    ensures Run(levels, run + [s']) && (run + [s'])[|run|] == s'
  {
    hide Step, Init;
    var longer := run + [s'];
    forall i | 0 < i < |longer| ensures Step(levels, longer[i - 1], longer[i]) {
      if i < |run| {
        assert Step(levels, run[i - 1], run[i]);
      }
    }
  }

  /** One step of the backend behind a run. */
  lemma {:induction false} BackendTurn(levels: seq<int>, run: seq<State>) returns (longer: seq<State>)
    requires Run(levels, run) && LockFree(run[|run| - 1])
    ensures Inv(levels, run[|run| - 1]) && BackendCan(levels, run[|run| - 1])
    ensures |longer| == |run| + 1 && longer[|run|] == BackendStep(levels, run[|run| - 1])
    ensures BackendOnly(levels, run, longer) && LockFree(longer[|run|])
    ensures !(run[|run| - 1].backend == NewLock && run[|run| - 1].locked)
  {
    hide Run, Step, Inv, BackendCan, Lifecycle.BackendStep;
    RunNonempty(levels, run);
    var s := run[|run| - 1];
    RunInv(levels, run);
    BackendInv(levels, s);
    Unlocked(levels, s);
    BackendIsStep(levels, s);
    Extend(levels, run, BackendStep(levels, s));
    longer := run + [BackendStep(levels, s)];
  }

  lemma {:induction false} RunNonempty(levels: seq<int>, run: seq<State>)
    requires Run(levels, run)
    ensures run != []
  {
  }

  lemma {:induction false} BackendIsStep(levels: seq<int>, s: State)
    requires BackendCan(levels, s)
    ensures Step(levels, s, BackendStep(levels, s))
  {
    hide Lifecycle.BackendStep, BackendCan;
  }

  /** A waiting context is handed back by the backend alone. */
  lemma {:induction false} HandedBackAlone(levels: seq<int>, run: seq<State>, t: nat) returns (longer: seq<State>)
    requires Run(levels, run) && LockFree(run[|run| - 1]) && t < |run[|run| - 1].threads|
    requires run[|run| - 1].threads[t].pc == Spin && Inv(levels, run[|run| - 1])
    ensures BackendOnly(levels, run, longer) && IsDone(longer[|longer| - 1], t)
    decreases
      if SweepComing(run[|run| - 1], Own(run[|run| - 1], t)) then 0 else 1,
      Phase(run[|run| - 1].backend), Nodes(run[|run| - 1]), Records(run[|run| - 1]), Turns(levels, run[|run| - 1])
  {
    hide Run, Inv, BackendCan, Lifecycle.BackendStep, SweepComing, Nodes, Records, Turns, Phase;
    RunNonempty(levels, run);
    var s := run[|run| - 1];
    if IsDone(s, t) {
      longer := run;
    } else {
      var next := BackendTurn(levels, run);
      SpinWaits(levels, s, t);
      SweepGoesOn(levels, s, t);
      RunInv(levels, next);
      if IsDone(next[|run|], t) {
        longer := next;
      } else {
        longer := HandedBackAlone(levels, next, t);
      }
    }
  }

  lemma {:induction false} SpinWaits(levels: seq<int>, s: State, t: nat)
    requires Inv(levels, s) && t < |s.threads| && s.threads[t].pc == Spin && !IsDone(s, t)
    ensures s.threads[t].ctx.status == WAIT_REMOVE
  {
    hide LockOk, ListsOk, BackendOk, OutputsOk, CallsOk;
    assert ThreadOk(s.threads[t], s.addList);
  }

  lemma {:induction false} SweepGoesOn(levels: seq<int>, s: State, t: nat)
    requires Inv(levels, s) && BackendCan(levels, s) && t < |s.threads| && !(s.backend == NewLock && s.locked)
    requires s.threads[t].pc == Spin && s.threads[t].ctx.status == WAIT_REMOVE
    ensures var s', a := BackendStep(levels, s), Own(s, t);
      && t < |s'.threads|
      && (SweepComing(s, a) ==> IsDone(s', t) || SweepComing(s', a))
      && (Lower(levels, s, s') || (!SweepComing(s, a) && SweepComing(s', a)))
  {
    hide Inv, BackendCan, Lower;
    BackendInv(levels, s);
    if SweepComing(s, Own(s, t)) {
      SweepKept(levels, s, t);
    }
    if !(s.backend.Sweep? && s.backend.i >= |s.list|) {
      BackendDown(levels, s);
    }
  }

  lemma {:induction false} DrainGoesOn(levels: seq<int>, s: State, t: nat)
    requires Inv(levels, s) && BackendCan(levels, s) && t < |s.threads| && !(s.backend == NewLock && s.locked)
    requires Active(s.threads[t]) && !IsDrained(s, t)
    ensures var s', a := BackendStep(levels, s), Own(s, t);
      && (DrainComing(s, a) ==> DrainComing(s', a))
      && (Lower(levels, s, s') || (!DrainComing(s, a) && DrainComing(s', a)))
  {
    hide Inv, BackendCan, Lower;
    if DrainComing(s, Own(s, t)) {
      DrainKept(levels, s, t);
    }
    if !(s.backend.Sweep? && s.backend.i >= |s.list|) {
      BackendDown(levels, s);
    }
  }

  lemma {:induction false} JoinActive(levels: seq<int>, s: State, t: nat)
    requires Inv(levels, s) && t < |s.threads| && s.threads[t].pc == Join
    ensures Active(s.threads[t])
  {
    hide LockOk, ListsOk, BackendOk, OutputsOk, CallsOk;
    assert ThreadOk(s.threads[t], s.addList);
  }

  /** The ring of a thread that waits for it to be read is read by the backend alone. */
  lemma {:induction false} DrainedAlone(levels: seq<int>, run: seq<State>, t: nat) returns (longer: seq<State>)
    requires Run(levels, run) && LockFree(run[|run| - 1]) && t < |run[|run| - 1].threads|
    requires run[|run| - 1].threads[t].pc == Join && Inv(levels, run[|run| - 1])
    ensures BackendOnly(levels, run, longer) && IsDrained(longer[|longer| - 1], t)
    decreases
      if DrainComing(run[|run| - 1], Own(run[|run| - 1], t)) then 0 else 1,
      Phase(run[|run| - 1].backend), Nodes(run[|run| - 1]), Records(run[|run| - 1]), Turns(levels, run[|run| - 1])
  {
    hide Run, Inv, BackendCan, Lifecycle.BackendStep, DrainComing, Nodes, Records, Turns, Phase, Active;
    RunNonempty(levels, run);
    var s := run[|run| - 1];
    if IsDrained(s, t) {
      longer := run;
    } else {
      var next := BackendTurn(levels, run);
      JoinActive(levels, s, t);
      DrainGoesOn(levels, s, t);
      RunInv(levels, next);
      longer := DrainedAlone(levels, next, t);
    }
  }

  /** One step of a thread behind a run. */
  lemma {:induction false} ThreadTurn(levels: seq<int>, run: seq<State>, t: nat) returns (longer: seq<State>)
    requires Run(levels, run) && t < |run[|run| - 1].threads|
    ensures Run(levels, longer) && run <= longer && |longer| == |run| + 1
    ensures var s := run[|run| - 1];
      longer[|run|] == Put(s, t, ThreadStep(ViewOf(s, t), Own(s, t)))
  {
    hide Lifecycle.ThreadStep, Init;
    var s := run[|run| - 1];
    var v := ThreadStep(ViewOf(s, t), Own(s, t));
    assert ViewNext(levels, ViewOf(s, t), v, Own(s, t));
    assert ThreadNext(levels, s, Put(s, t, v), t);
    assert Step(levels, s, Put(s, t, v));
    hide Step;
    Extend(levels, run, Put(s, t, v));
    longer := run + [Put(s, t, v)];
  }

  function StepsInside(pc: ThreadPc): nat {
    if pc.InsertRead? then 3 else if pc.InsertLink? then 2 else if pc.InsertUnlock? then 1 else 0
  }

  /** The threads other than `u` are left alone. */
  predicate OnlyMoved(s: State, s': State, u: nat) {
    && |s'.threads| == |s.threads|
    && forall t :: 0 <= t < |s.threads| && t != u ==> s'.threads[t] == s.threads[t]
  }

  /** A thread inside the lock leaves it in at most three steps of its own. */
  lemma {:induction false} LeavesLock(levels: seq<int>, run: seq<State>, u: nat) returns (longer: seq<State>)
    requires Run(levels, run) && u < |run[|run| - 1].threads| && ThreadHolds(run[|run| - 1].threads[u].pc)
    ensures Run(levels, longer) && run <= longer
    ensures LockFree(longer[|longer| - 1]) && OnlyMoved(run[|run| - 1], longer[|longer| - 1], u)
    decreases StepsInside(run[|run| - 1].threads[u].pc)
  {
    hide Run, Inv;
    RunNonempty(levels, run);
    var s := run[|run| - 1];
    longer := ThreadTurn(levels, run, u);
    if ThreadHolds(longer[|run|].threads[u].pc) {
      longer := LeavesLock(levels, longer, u);
    } else {
      RunInv(levels, run);
      NoOtherInside(levels, s, u);
    }
  }

  lemma {:induction false} NoOtherInside(levels: seq<int>, s: State, u: nat)
    requires Inv(levels, s) && u < |s.threads| && ThreadHolds(s.threads[u].pc)
    ensures forall t :: 0 <= t < |s.threads| && t != u ==> !ThreadHolds(s.threads[t].pc)
  {
    hide ThreadsOk, ListsOk, BackendOk, OutputsOk, CallsOk;
  }

  /** If a thread is inside the lock, it leaves it. */
  lemma {:induction false} LockReleased(levels: seq<int>, run: seq<State>) returns (longer: seq<State>, u: nat)
    requires Run(levels, run)
    ensures Run(levels, longer) && run <= longer && LockFree(longer[|longer| - 1])
    ensures OnlyMoved(run[|run| - 1], longer[|longer| - 1], u)
    ensures
      var s := run[|run| - 1];
      (u < |s.threads| && ThreadHolds(s.threads[u].pc)) || longer == run
  {
    var s := run[|run| - 1];
    if w: nat :| 0 <= w < |s.threads| && ThreadHolds(s.threads[w].pc) {
      u := w;
      longer := LeavesLock(levels, run, u);
    } else {
      u, longer := 0, run;
    }
  }

  /** A waiting context is handed back after finitely many steps of the backend and of the thread `u` that is inside
      the lock, if there is one. */
  lemma {:induction false} HandedBackSoon(levels: seq<int>, run: seq<State>, t: nat)
    returns (longer: seq<State>, u: nat)
    requires Run(levels, run) && t < |run[|run| - 1].threads| && run[|run| - 1].threads[t].pc == Spin
    ensures Run(levels, longer) && run <= longer
    ensures
      var s, s' := run[|run| - 1], longer[|longer| - 1];
      && |s'.threads| == |s.threads| && IsDone(s', t) && s'.threads[t].pc == Spin
      && forall v :: 0 <= v < |s.threads| && v != u ==> SameThread(s.threads[v], s'.threads[v])
    ensures u == t || (u < |run[|run| - 1].threads| && ThreadHolds(run[|run| - 1].threads[u].pc))
  {
    hide Run, Inv;
    RunNonempty(levels, run);
    longer, u := LockReleased(levels, run);
    u := if longer == run then t else u;
    RunNonempty(levels, longer);
    RunInv(levels, longer);
    longer := HandedBackAlone(levels, longer, t);
  }

  predicate InCleanup(pc: ThreadPc) {
    pc.Join? || pc.SetWait? || pc.Spin? || pc.Free?
  }

  /** A cleanup that has begun can be finished: every run in which a thread is inside it goes on, by steps of the
      backend, of that thread and of the thread `u` that is inside the lock, if there is one, to one in which it
      has returned. */
  lemma {:induction false} CleanupCompletes(levels: seq<int>, run: seq<State>, t: nat)
    returns (longer: seq<State>, u: nat)
    requires Run(levels, run) && t < |run[|run| - 1].threads| && InCleanup(run[|run| - 1].threads[t].pc)
    ensures Run(levels, longer) && run <= longer
    ensures
      var s, s' := run[|run| - 1], longer[|longer| - 1];
      && |s'.threads| == |s.threads| && s'.threads[t].pc == NoCtx && s'.threads[t].calls == s.threads[t].calls
      && forall v :: 0 <= v < |s.threads| && v != t && v != u ==> SameThread(s.threads[v], s'.threads[v])
    ensures u == t || (u < |run[|run| - 1].threads| && ThreadHolds(run[|run| - 1].threads[u].pc))
  {
    hide Run;
    RunNonempty(levels, run);
    longer, u := LockReleased(levels, run);
    u := if longer == run then t else u;
    RunNonempty(levels, longer);
    longer := CleanupAlone(levels, longer, t);
  }

  function StepsLeft(pc: ThreadPc): nat {
    if pc.Join? then 3 else if pc.SetWait? then 2 else if pc.Spin? then 1 else 0
  }

  lemma {:induction false} CleanupAlone(levels: seq<int>, run: seq<State>, t: nat) returns (longer: seq<State>)
    requires Run(levels, run) && LockFree(run[|run| - 1]) && t < |run[|run| - 1].threads|
    requires InCleanup(run[|run| - 1].threads[t].pc)
    ensures Run(levels, longer) && run <= longer
    ensures
      var s, s' := run[|run| - 1], longer[|longer| - 1];
      && |s'.threads| == |s.threads| && s'.threads[t].pc == NoCtx && s'.threads[t].calls == s.threads[t].calls
      && forall u :: 0 <= u < |s.threads| && u != t ==> SameThread(s.threads[u], s'.threads[u])
    decreases StepsLeft(run[|run| - 1].threads[t].pc)
  {
    hide Run, Inv;
    RunNonempty(levels, run);
    RunInv(levels, run);
    var pc := run[|run| - 1].threads[t].pc;
    longer := run;
    if pc.Join? {
      longer := DrainedAlone(levels, run, t);
    } else if pc.Spin? {
      longer := HandedBackAlone(levels, run, t);
    }
    longer := ThreadTurn(levels, longer, t);
    if !pc.Free? {
      longer := CleanupAlone(levels, longer, t);
    }
  }
}
