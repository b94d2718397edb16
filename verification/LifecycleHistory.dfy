/** The deliveries of a run stated by its history of log calls: which calls a handler gets, and where. */
module LifecycleHistory {
  import opened Handlers
  import opened ThreadStatus
  import opened Lifecycle
  import LifecycleProof
  import LifecycleTheorems

  /** What a step of a run was: a log call of a thread, whose serialization `fits` or gives up, or another. */
  datatype Act = LogCall(tid: nat, call: Call, fits: bool) | Other

  ghost predicate Explains(levels: seq<int>, s: State, act: Act, s': State) {
    match act
    case LogCall(t, call, fits) =>
      t < |s.threads| && s.threads[t].pc == Ready && s' == Put(s, t, Log(levels, ViewOf(s, t), call, fits))
    case Other =>
      || (exists t: nat :: t < |s.threads| && s' == Put(s, t, ThreadStep(ViewOf(s, t), Addr(t, s.threads[t].gen))))
      || (BackendCan(levels, s) && s' == BackendStep(levels, s))
  }

  /** `acts` is a history of the run. */
  ghost predicate History(levels: seq<int>, run: seq<State>, acts: seq<Act>) {
    && |run| == |acts| + 1 && Init(levels, run[0])
    && forall i :: 0 < i < |run| ==> Explains(levels, run[i - 1], acts[i - 1], run[i])
  }

  lemma {:induction false} StepExplained(levels: seq<int>, s: State, s': State)
    ensures Step(levels, s, s') <==> exists act :: Explains(levels, s, act, s')
  {
    hide Lifecycle.Log, Lifecycle.ThreadStep, Lifecycle.BackendStep, BackendCan;
    if Step(levels, s, s') {
      if t: nat :| t < |s.threads| && ThreadNext(levels, s, s', t) {
        var me := Addr(t, s.threads[t].gen);
        var v :| ViewNext(levels, ViewOf(s, t), v, me) && s' == Put(s, t, v);
        if v == ThreadStep(ViewOf(s, t), me) {
          assert Explains(levels, s, Other, s');
        } else {
          var c: Call, fits: bool :| v == Log(levels, ViewOf(s, t), c, fits);
          assert Explains(levels, s, LogCall(t, c, fits), s');
        }
      } else {
        assert Explains(levels, s, Other, s');
      }
    }
    forall act | Explains(levels, s, act, s') ensures Step(levels, s, s') {
      if act.LogCall? {
        assert ThreadNext(levels, s, s', act.tid);
      } else if t: nat :| t < |s.threads| && s' == Put(s, t, ThreadStep(ViewOf(s, t), Addr(t, s.threads[t].gen))) {
        assert ThreadNext(levels, s, s', t);
      }
    }
  }

  /** Exactly the runs have histories. */
  lemma {:induction false} RunsHaveHistories(levels: seq<int>, run: seq<State>)
    ensures Run(levels, run) <==> exists acts :: History(levels, run, acts)
  {
    hide Step, Explains, Init;
    if Run(levels, run) {
      var acts := seq(|run| - 1, i requires 0 <= i < |run| - 1 =>
        assert Step(levels, run[i + 1 - 1], run[i + 1]);
        StepExplained(levels, run[i], run[i + 1]);
        var act :| Explains(levels, run[i], act, run[i + 1]); act);
      assert History(levels, run, acts);
    }
    forall acts | History(levels, run, acts) ensures Run(levels, run) {
      forall i | 0 < i < |run| ensures Step(levels, run[i - 1], run[i]) {
        StepExplained(levels, run[i - 1], run[i]);
      }
    }
  }

  /** A log call of thread `t` that a handler at level `min` is to get. */
  predicate Wanted(min: int, act: Act, t: nat) {
    act.LogCall? && act.tid == t && act.fits && min <= act.call.level
  }

  function WantedCalls(min: int, acts: seq<Act>, t: nat): seq<Call> {
    if acts == [] then []
    else
      var act := acts[|acts| - 1];
      WantedCalls(min, acts[..|acts| - 1], t) + (if Wanted(min, act, t) then [act.call] else [])
  }

  lemma {:induction false} StepWanted(levels: seq<int>, s: State, act: Act, s': State, t: nat, min: int)
    requires Explains(levels, s, act, s') && t < |s.threads| && ContextLevel(levels) <= min
    ensures |s'.threads| == |s.threads|
    ensures Admitted(min, s'.threads[t].calls) ==
              Admitted(min, s.threads[t].calls) + (if Wanted(min, act, t) then [act.call] else [])
  {
    hide Admitted, ContextLevel;
    if act.LogCall? {
      AdmittedPush(min, s.threads[act.tid].calls, act.call);
    }
    assert Admitted(min, s.threads[t].calls) + [] == Admitted(min, s.threads[t].calls);
  }

  /** What the filter admits of a thread's calls is told by the history. */
  lemma {:induction false} AdmittedIsWanted(levels: seq<int>, run: seq<State>, acts: seq<Act>, t: nat, min: int)
    requires History(levels, run, acts) && t < |run[|acts|].threads| && ContextLevel(levels) <= min
    ensures Admitted(min, run[|acts|].threads[t].calls) == WantedCalls(min, acts, t)
  {
    hide Explains, Admitted, ContextLevel, Wanted, Init;
    if acts == [] {
      InitNone(levels, run[0], t, min);
    } else {
      var n := |acts| - 1;
      assert Explains(levels, run[n + 1 - 1], acts[n + 1 - 1], run[n + 1]);
      ThreadsKept(levels, run[n], acts[n], run[n + 1]);
      StepWanted(levels, run[n], acts[n], run[n + 1], t, min);
      AdmittedIsWanted(levels, run[..n + 1], acts[..n], t, min);
    }
  }

  lemma {:induction false} ThreadsKept(levels: seq<int>, s: State, act: Act, s': State)
    requires Explains(levels, s, act, s')
    ensures |s'.threads| == |s.threads|
  {
  }

  lemma {:induction false} InitNone(levels: seq<int>, s: State, t: nat, min: int)
    requires Init(levels, s) && t < |s.threads|
    ensures Admitted(min, s.threads[t].calls) == []
  {
  }

  predicate Ascending(at: seq<nat>) {
    forall i, j :: 0 <= i < j < |at| ==> at[i] < at[j]
  }

  /** `at` lists in order the indices of the calls of thread `t` that a handler at level `min` is to get. */
  predicate CalledAt(min: int, acts: seq<Act>, t: nat, at: seq<nat>) {
    && Ascending(at) && (forall k :: 0 <= k < |at| ==> at[k] < |acts| && Wanted(min, acts[at[k]], t))
    && forall i :: 0 <= i < |acts| && Wanted(min, acts[i], t) ==> i in at
  }

  /** `at` lists in order the indices of what the handler got from thread `t`. */
  predicate GotAt(out: seq<Delivery>, t: nat, at: seq<nat>) {
    && Ascending(at) && (forall k :: 0 <= k < |at| ==> at[k] < |out| && out[at[k]].tid == t)
    && forall j :: 0 <= j < |out| && out[j].tid == t ==> j in at
  }

  lemma {:induction false} WantedIndices(min: int, acts: seq<Act>, t: nat) returns (at: seq<nat>)
    ensures CalledAt(min, acts, t, at) && |at| == |WantedCalls(min, acts, t)|
    ensures forall k :: 0 <= k < |at| ==> WantedCalls(min, acts, t)[k] == acts[at[k]].call
  {
    if acts == [] {
      at := [];
    } else {
      var n := |acts| - 1;
      at := WantedIndices(min, acts[..n], t);
      assert forall k :: 0 <= k < |at| ==> at[k] in at;
      if Wanted(min, acts[n], t) {
        at := at + [n];
      }
    }
  }

  lemma {:induction false} GotIndices(out: seq<Delivery>, t: nat) returns (at: seq<nat>)
    ensures GotAt(out, t, at) && |at| == |LifecycleProof.Of(out, t)|
    ensures forall k :: 0 <= k < |at| ==> LifecycleProof.Of(out, t)[k] == out[at[k]].call
  {
    if out == [] {
      at := [];
    } else {
      var n := |out| - 1;
      at := GotIndices(out[..n], t);
      assert forall k :: 0 <= k < |at| ==> at[k] in at;
      if out[n].tid == t {
        at := at + [n];
      }
    }
  }

  /** At any moment what handler `h` got from thread `t` are the first of the thread's serialized log calls
      at or above the handler's level, in the order of the calls and each once; all of them, once the
      context is handed back. */
  lemma {:induction false} DeliveredIsPrefix(levels: seq<int>, run: seq<State>, acts: seq<Act>, t: nat, h: nat)
    requires History(levels, run, acts) && t < |run[|acts|].threads| && h < |levels|
    ensures var s := run[|acts|];
      var th := s.threads[t];
      && |s.outputs| == |levels|
      && exists called, got ::
        && CalledAt(levels[h], acts, t, called) && GotAt(s.outputs[h], t, got)
        && |got| <= |called| && (th.pc == NoCtx || th.ctx.status == DONE ==> |got| == |called|)
        && forall k :: 0 <= k < |got| ==> s.outputs[h][got[k]].call == acts[called[k]].call
  {
    hide Explains, Admitted, ContextLevel, CalledAt, GotAt, WantedCalls, LifecycleProof.Of, Init, Step;
    RunsHaveHistories(levels, run);
    LifecycleTheorems.OutputsAdmitted(levels, run, t, h);
    LifecycleTheorems.LevelBelow(levels, h);
    AdmittedIsWanted(levels, run, acts, t, levels[h]);
    var called := WantedIndices(levels[h], acts, t);
    var got := GotIndices(run[|acts|].outputs[h], t);
  }

  /** Once a thread's cleanup has returned, handler `h` has got exactly the thread's serialized log calls at
      or above its level, in the order of the calls and each once. */
  lemma {:induction false} CleanupDelivers(levels: seq<int>, run: seq<State>, acts: seq<Act>, t: nat, h: nat)
    requires History(levels, run, acts) && t < |run[|acts|].threads| && h < |levels|
    requires run[|acts|].threads[t].pc == NoCtx
    ensures var s := run[|acts|];
      && |s.outputs| == |levels|
      && exists called, got ::
        && CalledAt(levels[h], acts, t, called) && GotAt(s.outputs[h], t, got) && |got| == |called|
        && forall k :: 0 <= k < |got| ==> s.outputs[h][got[k]].call == acts[called[k]].call
  {
    hide History, CalledAt, GotAt;
    DeliveredIsPrefix(levels, run, acts, t, h);
  }
}
