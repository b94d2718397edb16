/** One log call site and any number of threads going through it (`HACLOG_SERIALIZE`): its primitive is
    generated on first use under a spinlock, with a check before and after taking the lock. */
module CallSite {
  const NULL: nat := 0

  /** Where a thread stands in the macro. `Assign` holds what the generation returned. */
  datatype Pc = Outside | FirstCheck | Lock | SecondCheck | Generate | Assign(result: nat) | Unlock | Serialize

  /** A serialization: by thread `t`, with the primitive `prim`. */
  datatype Use = Use(t: nat, prim: nat)

  /** `primitive` and `locked` are shared. `gens` lists what the generations returned (NULL for a failed
      one), `used` the serializations. */
  datatype State = State(primitive: nat, locked: bool, pcs: seq<Pc>, gens: seq<nat>, used: seq<Use>)

  predicate Init(s: State) {
    && s.primitive == NULL && !s.locked && s.gens == [] && s.used == []
    && forall t :: 0 <= t < |s.pcs| ==> s.pcs[t] == Outside
  }

  function Goto(s: State, t: nat, pc: Pc): State
    requires t < |s.pcs|
  {
    s.(pcs := s.pcs[t := pc])
  }

  /** One step of thread `t`; `g` is what a generation returns. */
  function Act(s: State, t: nat, g: nat): State
    requires t < |s.pcs|
  {
    match s.pcs[t]
    case Outside => Goto(s, t, FirstCheck)
    case FirstCheck => Goto(s, t, if s.primitive == NULL then Lock else Serialize)
    case Lock => if s.locked then s else Goto(s.(locked := true), t, SecondCheck)
    case SecondCheck => Goto(s, t, if s.primitive == NULL then Generate else Unlock)
    case Generate => Goto(s.(gens := s.gens + [g]), t, Assign(g))
    case Assign(result) => Goto(s.(primitive := result), t, Unlock)
    case Unlock => Goto(s.(locked := false), t, Serialize)
    case Serialize => Goto(s.(used := s.used + [Use(t, s.primitive)]), t, Outside)
  }

  ghost predicate Step(s: State, s': State) {
    exists t: nat, g: nat :: t < |s.pcs| && s' == Act(s, t, g)
  }

  ghost predicate Run(run: seq<State>) {
    run != [] && Init(run[0]) && forall i :: 0 < i < |run| ==> Step(run[i - 1], run[i])
  }

  /** The thread is between taking and releasing the lock. */
  predicate Holds(pc: Pc) {
    pc.SecondCheck? || pc.Generate? || pc.Assign? || pc.Unlock?
  }

  predicate Exclusive(s: State) {
    && (forall t, u :: 0 <= t < u < |s.pcs| ==> !(Holds(s.pcs[t]) && Holds(s.pcs[u])))
    && (s.locked <==> exists t :: 0 <= t < |s.pcs| && Holds(s.pcs[t]))
  }

  /** Only the last generation can have succeeded, and then it is the primitive or about to be. */
  predicate OneSuccess(s: State) {
    && (forall i :: 0 <= i < |s.gens| - 1 ==> s.gens[i] == NULL)
    && (s.primitive != NULL ==> s.gens != [] && s.gens[|s.gens| - 1] == s.primitive)
    && (forall t :: 0 <= t < |s.pcs| ==>
          && (s.pcs[t].Generate? || s.pcs[t].Assign? ==> s.primitive == NULL)
          && (s.pcs[t].Assign? ==> s.gens != [] && s.gens[|s.gens| - 1] == s.pcs[t].result))
    && (s.primitive == NULL && s.gens != [] && s.gens[|s.gens| - 1] != NULL ==>
          exists t :: 0 <= t < |s.pcs| && s.pcs[t].Assign?)
  }

  /** A thread past the second check has a primitive, or saw a generation fail. */
  predicate Explained(s: State) {
    && (forall t :: 0 <= t < |s.pcs| && (s.pcs[t].Unlock? || s.pcs[t].Serialize?) ==> s.primitive != NULL || NULL in s.gens)
    && (forall u :: u in s.used ==> if u.prim == NULL then NULL in s.gens else u.prim == s.primitive)
  }

  predicate Inv(s: State) {
    Exclusive(s) && OneSuccess(s) && Explained(s)
  }

  lemma {:induction false} ExclusiveStep(s: State, t: nat, g: nat)
    requires Exclusive(s) && t < |s.pcs|
    ensures Exclusive(Act(s, t, g))
  {
    var s' := Act(s, t, g);
    if s.locked && !Holds(s.pcs[t]) {
      var h :| 0 <= h < |s.pcs| && Holds(s.pcs[h]);
      assert s'.pcs[h] == s.pcs[h];
    } else if Holds(s'.pcs[t]) {
      assert s'.locked;
    }
  }

  lemma {:induction false} OneSuccessStep(s: State, t: nat, g: nat)
    requires Exclusive(s) && OneSuccess(s) && t < |s.pcs|
    ensures OneSuccess(Act(s, t, g))
  {
    var s' := Act(s, t, g);
    assert Holds(s.pcs[t]) ==> forall u :: 0 <= u < |s.pcs| && u != t ==> !Holds(s.pcs[u]);
    if s.pcs[t].Generate? {
      assert s'.pcs[t].Assign?;
    } else if !Holds(s.pcs[t]) && s.primitive == NULL && s.gens != [] && s.gens[|s.gens| - 1] != NULL {
      var u :| 0 <= u < |s.pcs| && s.pcs[u].Assign?;
      assert s'.pcs[u] == s.pcs[u];
    }
  }

  lemma {:induction false} ExplainedStep(s: State, t: nat, g: nat)
    requires Inv(s) && t < |s.pcs|
    ensures Explained(Act(s, t, g))
  {
    var s' := Act(s, t, g);
    match s.pcs[t]
    case Assign(result) =>
      assert s.primitive == NULL && s.gens[|s.gens| - 1] == result;
    case _ =>
  }

  lemma {:induction false} RunInv(run: seq<State>)
    requires Run(run)
    ensures Inv(run[|run| - 1])
  {
    if |run| > 1 {
      var before := run[..|run| - 1];
      RunInv(before);
      var s := run[|run| - 2];
      assert Step(run[|run| - 1 - 1], run[|run| - 1]);
      var t: nat, g: nat :| t < |s.pcs| && run[|run| - 1] == Act(s, t, g);
      ExclusiveStep(s, t, g);
      OneSuccessStep(s, t, g);
      ExplainedStep(s, t, g);
    }
  }

  /** In every run at most one thread is inside the lock, at most one generation succeeds, whoever
      serializes gets that one primitive, and a thread goes without one only after a failed generation. */
  lemma {:induction false} GeneratedOnce(run: seq<State>)
    requires Run(run)
    ensures var s := run[|run| - 1];
      && (forall t, u :: 0 <= t < u < |s.pcs| ==> !(Holds(s.pcs[t]) && Holds(s.pcs[u])))
      && (forall i, j :: 0 <= i < j < |s.gens| ==> s.gens[i] == NULL || s.gens[j] == NULL)
      && (forall u :: u in s.used ==> u.prim in s.gens)
  {
    RunInv(run);
  }

  lemma {:induction false} EarlierFailed(s: State)
    requires OneSuccess(s) && |s.gens| > 1
    ensures NULL in s.gens
  {
    assert s.gens[0] == NULL;
  }

  /** When generation never fails it happens at most once, and every serialization gets its result. */
  lemma {:induction false} OneGeneration(run: seq<State>)
    requires Run(run) && NULL !in run[|run| - 1].gens
    ensures var s := run[|run| - 1];
      |s.gens| <= 1 && forall u :: u in s.used ==> s.gens == [u.prim]
  {
    RunInv(run);
    if |run[|run| - 1].gens| > 1 {
      EarlierFailed(run[|run| - 1]);
    }
  }

  // ------------------------------------------------------------- every pass

  /** How often thread `t` has entered the macro along a run, and how often it has left it. */
  function Begun(run: seq<State>, t: nat): nat
    requires forall i :: 0 <= i < |run| ==> t < |run[i].pcs|
  {
    if |run| < 2 then 0
    else
      var n := |run| - 1;
      Begun(run[..n], t) + (if run[n - 1].pcs[t] == Outside && run[n].pcs[t] != Outside then 1 else 0)
  }

  function Left(run: seq<State>, t: nat): nat
    requires forall i :: 0 <= i < |run| ==> t < |run[i].pcs|
  {
    if |run| < 2 then 0
    else
      var n := |run| - 1;
      Left(run[..n], t) + (if run[n - 1].pcs[t] != Outside && run[n].pcs[t] == Outside then 1 else 0)
  }

  /** The serializations of thread `t`. */
  function Uses(used: seq<Use>, t: nat): nat {
    if used == [] then 0
    else Uses(used[..|used| - 1], t) + (if used[|used| - 1].t == t then 1 else 0)
  }

  lemma {:induction false} UsesPush(used: seq<Use>, u: Use, t: nat)
    ensures Uses(used + [u], t) == Uses(used, t) + (if u.t == t then 1 else 0)
  {
    assert (used + [u])[..|used|] == used;
  }

  lemma {:induction false} SameThreads(run: seq<State>)
    requires Run(run)
    ensures forall i :: 0 <= i < |run| ==> |run[i].pcs| == |run[0].pcs|
  {
    if |run| > 1 {
      SameThreads(run[..|run| - 1]);
      assert Step(run[|run| - 1 - 1], run[|run| - 1]);
    }
  }

  /** Leaving the macro is serializing with the primitive of that moment, and nothing else is. */
  lemma {:induction false} LeavingSerializes(s: State, s': State, t: nat)
    requires Step(s, s') && t < |s.pcs|
    ensures |s'.pcs| == |s.pcs|
    ensures s.pcs[t] != Outside && s'.pcs[t] == Outside ==> s'.used == s.used + [Use(t, s.primitive)]
    ensures !(s.pcs[t] != Outside && s'.pcs[t] == Outside) ==> Uses(s'.used, t) == Uses(s.used, t)
  {
    hide Uses;
    var u: nat, g: nat :| u < |s.pcs| && s' == Act(s, u, g);
    if s.pcs[u] == Serialize {
      UsesPush(s.used, Use(u, s.primitive), t);
    }
  }

  /** Every pass through the macro serializes once: in every run a thread has serialized as often as it has left the
      macro, and has entered it as often, or once more while it is inside. */
  lemma {:induction false} EveryPassSerializes(run: seq<State>, t: nat)
    requires Run(run) && t < |run[0].pcs|
    ensures forall i :: 0 <= i < |run| ==> t < |run[i].pcs|
    ensures
      var s := run[|run| - 1];
      && Left(run, t) == Uses(s.used, t)
      && Begun(run, t) == Uses(s.used, t) + (if s.pcs[t] == Outside then 0 else 1)
  {
    SameThreads(run);
    if |run| > 1 {
      var before, n := run[..|run| - 1], |run| - 1;
      assert Run(before);
      EveryPassSerializes(before, t);
      assert Step(run[n - 1], run[n]);
      LeavingSerializes(run[n - 1], run[n], t);
      UsesPush(run[n - 1].used, Use(t, run[n - 1].primitive), t);
    }
  }

  /** Some thread inside the macro can always move on: a spinning one waits only for a holder, and a
      holder's next step is never a wait. */
  lemma {:induction false} SomeoneAdvances(run: seq<State>, t: nat, g: nat) returns (u: nat)
    requires Run(run)
    requires t < |run[|run| - 1].pcs| && run[|run| - 1].pcs[t] != Outside
    ensures var s := run[|run| - 1];
      u < |s.pcs| && s.pcs[u] != Outside && Act(s, u, g).pcs[u] != s.pcs[u]
  {
    RunInv(run);
    var s := run[|run| - 1];
    if s.pcs[t] == Lock && s.locked {
      u :| 0 <= u < |s.pcs| && Holds(s.pcs[u]);
    } else {
      u := t;
    }
  }
}
