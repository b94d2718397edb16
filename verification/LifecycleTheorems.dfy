/** What the threads and the handlers get out of the protocol, for every run. */
module LifecycleTheorems {
  import opened Handlers
  import opened ThreadStatus
  import opened Lifecycle
  import opened LifecycleProof

  lemma {:induction false} OfferedPublished(th: Thread, pending: bool, addList: seq<Addr>)
    requires ThreadOk(th, addList)
    ensures Offered(th, pending) <= Published(th)
    ensures th.pc == NoCtx || (th.ctx.taken == |th.ctx.published| && !pending) ==> Offered(th, pending) == Published(th)
  {
  }

  /** At any moment a handler has got a prefix of what it should get from a thread; everything, once the
      context is handed back. */
  lemma {:induction false} OutputsAdmitted(levels: seq<int>, run: seq<State>, t: nat, h: nat)
    requires Run(levels, run) && t < |run[|run| - 1].threads| && h < |levels|
    ensures var s := run[|run| - 1];
      var th := s.threads[t];
      && |s.outputs| == |levels|
      && Of(s.outputs[h], t) <= Admitted(levels[h], th.calls)
      && (th.pc == NoCtx || th.ctx.status == DONE ==> Of(s.outputs[h], t) == Admitted(levels[h], th.calls))
  {
    hide LockOk, ListsOk, BackendOk, Of, Admitted, ContextLevel, ShouldWrite, Step, Init;
    RunInv(levels, run);
    var s := run[|run| - 1];
    var th := s.threads[t];
    assert ThreadOk(th, s.addList);
    var p := Pending(s, t, h);
    var offered, published := Offered(th, p), Published(th);
    if th.pc != NoCtx && th.ctx.status == DONE {
      DoneNotPending(levels, s, t, h);
    }
    OfferedPublished(th, p, s.addList);
    assert published[..|offered|] == offered;
    AdmittedPrefix(levels[h], published, |offered|);
    LevelBelow(levels, h);
    AdmittedTwice(ContextLevel(levels), levels[h], th.calls);
  }

  lemma {:induction false} LevelBelow(levels: seq<int>, h: nat)
    requires h < |levels|
    ensures ContextLevel(levels) <= levels[h]
  {
    ContextLevelIsLeast(levels);
  }

  /** No record of a context that was handed back is still on its way to a handler. */
  lemma {:induction false} DoneNotPending(levels: seq<int>, s: State, t: nat, h: nat)
    requires Inv(levels, s) && t < |s.threads| && s.threads[t].pc != NoCtx && s.threads[t].ctx.status == DONE
    ensures s.threads[t].ctx.taken == |s.threads[t].ctx.published| && !Pending(s, t, h)
  {
    hide LockOk, OutputsOk, CallsOk, Distinct, SnapOk, JustTaken;
    assert ThreadOk(s.threads[t], s.addList);
    assert !s.backend.Unlink? ==> forall i :: 0 <= i < |s.list| ==> Attached(s, s.list[i]);
  }

  /** The backend never reaches for a context that is freed or handed back, an index outside its lists, or
      a handler that does not exist. */
  lemma {:induction false} BackendNeverDangles(levels: seq<int>, run: seq<State>)
    requires Run(levels, run)
    ensures var s := run[|run| - 1];
      && BackendCan(levels, s)
      && (Touched(s) >= 0 ==>
            var a := s.list[Touched(s)];
            Allocated(s, a) && CtxAt(s, a).status != DONE)
  {
    RunInv(levels, run);
    BackendSafe(levels, run[|run| - 1]);
  }

  /** Every inserted context that was not handed back is in exactly one of the two lists, exactly once, and
      nothing else is, but for a node about to be unlinked. */
  lemma {:induction false} ExactlyOneList(levels: seq<int>, run: seq<State>, a: Addr)
    requires Run(levels, run)
    ensures var s := run[|run| - 1];
      && (Attached(s, a) ==> multiset(s.addList)[a] + multiset(s.list)[a] == 1)
      && (!Attached(s, a) ==>
            a !in s.addList && (a in s.list ==> s.backend.Unlink? && multiset(s.list)[a] == 1))
  {
    hide LockOk, ThreadsOk, BackendOk, OutputsOk, CallsOk, Step, Init, Attached, HandedBack;
    RunInv(levels, run);
    var s := run[|run| - 1];
    var all := s.addList + s.list;
    DistinctCount(all, a);
    assert multiset(all) == multiset(s.addList) + multiset(s.list);
    AttachedListed(levels, s, a);
  }

  lemma {:induction false} AttachedListed(levels: seq<int>, s: State, a: Addr)
    requires Inv(levels, s)
    ensures Attached(s, a) ==> a in s.addList + s.list
    ensures a in s.addList ==> Attached(s, a)
    ensures a in s.list && !s.backend.Unlink? ==> Attached(s, a)
  {
    hide LockOk, ThreadsOk, BackendOk, OutputsOk, CallsOk, HandedBack, Distinct, Active;
  }

  lemma {:induction false} DistinctCount(l: seq<Addr>, a: Addr)
    requires Distinct(l)
    ensures multiset(l)[a] == if a in l then 1 else 0
  {
    if l != [] {
      var front, z := l[..|l| - 1], l[|l| - 1];
      DistinctCount(front, a);
      assert l == front + [z];
    }
  }

  /** The protocol never locks up: the backend can change the state, or a thread inside the lock can. */
  lemma {:induction false} NeverStuck(levels: seq<int>, run: seq<State>)
    requires Run(levels, run)
    ensures var s := run[|run| - 1];
      && BackendCan(levels, s)
      && (BackendStep(levels, s) != s ||
          exists t: nat :: t < |s.threads| && ThreadHolds(s.threads[t].pc) &&
            ThreadStep(ViewOf(s, t), Addr(t, s.threads[t].gen)) != ViewOf(s, t))
  {
    RunInv(levels, run);
    var s := run[|run| - 1];
    BackendSafe(levels, s);
    if s.backend == NewLock && s.locked {
      var t: nat :| t < |s.threads| && ThreadHolds(s.threads[t].pc);
      assert ThreadStep(ViewOf(s, t), Addr(t, s.threads[t].gen)).th.pc != s.threads[t].pc;
    } else {
      BackendMoves(levels, s);
    }
  }

  lemma {:induction false} BackendMoves(levels: seq<int>, s: State)
    requires BackendCan(levels, s) && !(s.backend == NewLock && s.locked)
    ensures BackendStep(levels, s) != s
  {
    var s' := BackendStep(levels, s);
    if s.backend.Move? && s.addList != [] {
      assert |s'.list| == |s.list| + 1;
    }
  }
}
