/** What every run of the threads and the backend keeps, and what a thread may rely on when its cleanup
    returns. */
module LifecycleProof {
  import opened Handlers
  import opened ThreadStatus
  import opened Lifecycle

  // -------------------------------------------------------------- invariants

  predicate Inserted(pc: ThreadPc) {
    pc.InsertUnlock? || pc.Ready? || pc.Join? || pc.SetWait? || pc.Spin?
  }

  predicate ThreadHolds(pc: ThreadPc) {
    pc.InsertRead? || pc.InsertLink? || pc.InsertUnlock?
  }

  predicate BackendHolds(pc: BackendPc) {
    pc.Move? || pc.NewUnlock?
  }

  predicate LockOk(s: State) {
    && (forall t, u :: 0 <= t < u < |s.threads| ==> !(ThreadHolds(s.threads[t].pc) && ThreadHolds(s.threads[u].pc)))
    && (forall t :: 0 <= t < |s.threads| && ThreadHolds(s.threads[t].pc) ==> s.locked && !BackendHolds(s.backend))
    && (BackendHolds(s.backend) ==> s.locked)
    && (s.locked && !BackendHolds(s.backend) ==> exists t :: 0 <= t < |s.threads| && ThreadHolds(s.threads[t].pc))
  }

  predicate ThreadOk(th: Thread, addList: seq<Addr>) {
    th.pc == NoCtx ||
    (&& th.ctx.taken <= |th.ctx.published|
     && (th.pc.InsertLock? || ThreadHolds(th.pc) ==> th.ctx.published == [])
     && (if th.pc.Free? then th.ctx.status == DONE
         else if th.pc.Spin? then th.ctx.status != NORMAL
         else th.ctx.status == NORMAL)
     && (th.pc.SetWait? || th.pc.Spin? || th.pc.Free? ==> th.ctx.taken == |th.ctx.published|)
     && (th.pc.InsertLink? ==> th.pc.rest == addList))
  }

  predicate ThreadsOk(s: State) {
    forall t :: 0 <= t < |s.threads| ==> ThreadOk(s.threads[t], s.addList)
  }

  /** The thread's context is inserted and not handed back. */
  predicate Active(th: Thread) {
    Inserted(th.pc) && th.ctx.status != DONE
  }

  predicate Attached(s: State, a: Addr) {
    a.tid < |s.threads| && s.threads[a.tid].gen == a.gen && Active(s.threads[a.tid])
  }

  /** The context was given back to its thread, which may have freed it. */
  predicate HandedBack(s: State, a: Addr) {
    && a.tid < |s.threads| && a.gen <= s.threads[a.tid].gen
    && (Allocated(s, a) ==> CtxAt(s, a).status == DONE)
  }

  predicate Distinct(l: seq<Addr>) {
    forall i, j :: 0 <= i < j < |l| ==> l[i] != l[j]
  }

  predicate ListsOk(s: State) {
    && Distinct(s.addList + s.list)
    && (forall i :: 0 <= i < |s.addList| ==> Attached(s, s.addList[i]))
    && (forall i :: 0 <= i < |s.list| ==> if s.backend == Unlink(i) then HandedBack(s, s.list[i]) else Attached(s, s.list[i]))
    && (forall t :: 0 <= t < |s.threads| && Active(s.threads[t]) ==> Addr(t, s.threads[t].gen) in s.addList + s.list)
  }

  /** `call` is the last record taken from the context at `a`. */
  predicate JustTaken(s: State, a: Addr, call: Call) {
    && Allocated(s, a)
    && var ctx := CtxAt(s, a);
    && 0 < ctx.taken <= |ctx.published| && ctx.published[ctx.taken - 1] == call
  }

  predicate SnapOk(s: State, a: Addr, snap: nat) {
    Allocated(s, a) && CtxAt(s, a).taken <= snap <= |CtxAt(s, a).published|
  }

  predicate BackendOk(levels: seq<int>, s: State) {
    match s.backend
    case Walk(i) => i <= |s.list|
    case Consume(i, snap) => i < |s.list| && SnapOk(s, s.list[i], snap)
    case ReadTid(i, snap, call) => i < |s.list| && SnapOk(s, s.list[i], snap) && JustTaken(s, s.list[i], call)
    case Dispatch(i, snap, msg, h) =>
      && i < |s.list| && SnapOk(s, s.list[i], snap) && JustTaken(s, s.list[i], msg.call)
      && msg.tid == s.list[i].tid && h <= |levels|
    case Sweep(i) => i <= |s.list|
    case StoreDone(i) => i < |s.list| && Allocated(s, s.list[i]) && CtxAt(s, s.list[i]).status == WAIT_REMOVE
    case Unlink(i) => i < |s.list|
    case _ => true
  }

  /** The messages of thread `t` among what a handler got. */
  function Of(out: seq<Delivery>, t: nat): seq<Call> {
    if out == [] then []
    else Of(out[..|out| - 1], t) + (if out[|out| - 1].tid == t then [out[|out| - 1].call] else [])
  }

  /** Handler `h` has yet to see the last record taken from thread `t`. */
  predicate Pending(s: State, t: nat, h: nat) {
    match s.backend
    case ReadTid(i, _, _) => i < |s.list| && s.list[i].tid == t
    case Dispatch(_, _, msg, k) => msg.tid == t && k <= h
    case _ => false
  }

  /** The records of a thread that a handler has been offered. */
  function Offered(th: Thread, pending: bool): seq<Call>
    requires th.ctx.taken <= |th.ctx.published| || th.pc == NoCtx
  {
    if th.pc == NoCtx then th.past
    else th.past + th.ctx.published[..if pending && th.ctx.taken > 0 then th.ctx.taken - 1 else th.ctx.taken]
  }

  predicate OutputsOk(levels: seq<int>, s: State)
    requires ThreadsOk(s)
  {
    && |s.outputs| == |levels|
    && forall t: nat, h: nat :: t < |s.threads| && h < |levels| ==>
         Of(s.outputs[h], t) == Admitted(levels[h], Offered(s.threads[t], Pending(s, t, h)))
  }

  /** All the records a thread has published. */
  function Published(th: Thread): seq<Call> {
    if th.pc == NoCtx then th.past else th.past + th.ctx.published
  }

  predicate CallsOk(levels: seq<int>, s: State) {
    forall t :: 0 <= t < |s.threads| ==>
      Published(s.threads[t]) == Admitted(ContextLevel(levels), s.threads[t].calls)
  }

  predicate Inv(levels: seq<int>, s: State) {
    && LockOk(s) && ThreadsOk(s) && ListsOk(s) && BackendOk(levels, s) && OutputsOk(levels, s) && CallsOk(levels, s)
  }

  // ------------------------------------------------------------ thread steps

  lemma {:induction false} LockThread(levels: seq<int>, s: State, s': State, t: nat)
    requires LockOk(s) && t < |s.threads| && ThreadNext(levels, s, s', t)
    ensures LockOk(s')
  {
    if s.locked && !BackendHolds(s.backend) && !ThreadHolds(s.threads[t].pc) {
      var u :| 0 <= u < |s.threads| && ThreadHolds(s.threads[u].pc);
      assert s'.threads[u] == s.threads[u];
    } else if ThreadHolds(s'.threads[t].pc) {
      assert s'.locked;
    }
  }

  lemma {:induction false} ThreadsThread(levels: seq<int>, s: State, s': State, t: nat)
    requires LockOk(s) && ThreadsOk(s) && t < |s.threads| && ThreadNext(levels, s, s', t)
    ensures ThreadsOk(s')
  {
    assert ThreadOk(s.threads[t], s.addList);
    forall u | 0 <= u < |s.threads| ensures ThreadOk(s'.threads[u], s'.addList) {
      assert ThreadOk(s.threads[u], s.addList);
    }
  }

  /** What a thread's step can do to the lists: nothing, enter its context, or allocate another. */
  lemma {:induction false} ViewLists(levels: seq<int>, v: View, v': View, me: Addr)
    requires ThreadOk(v.th, v.addList) && ViewNext(levels, v, v', me)
    ensures
      || (&& v'.addList == v.addList && v'.th.gen == v.th.gen && Active(v'.th) == Active(v.th)
          && (v'.th.pc == NoCtx || (v.th.pc != NoCtx && (v.th.ctx.status == DONE ==> v'.th.ctx.status == DONE))))
      || (&& v'.addList == [me] + v.addList && v'.th.gen == v.th.gen && !Active(v.th) && Active(v'.th)
          && v.th.pc != NoCtx && v.th.ctx.status != DONE)
      || (v'.addList == v.addList && v'.th.gen == v.th.gen + 1 && v.th.pc == NoCtx && !Active(v'.th))
  {
  }

  lemma {:induction false} ListsKept(s: State, s': State, t: nat, v: View)
    requires ListsOk(s) && t < |s.threads| && s' == Put(s, t, v) && v.addList == s.addList
    requires
      var th := s.threads[t];
      || (&& v.th.gen == th.gen && Active(v.th) == Active(th)
          && (v.th.pc == NoCtx || (th.pc != NoCtx && (th.ctx.status == DONE ==> v.th.ctx.status == DONE))))
      || (v.th.gen == th.gen + 1 && th.pc == NoCtx && !Active(v.th))
    ensures ListsOk(s')
  {
    hide Distinct;
    assert s'.threads[t] == v.th;
    assert forall a :: Attached(s, a) ==> Attached(s', a);
    assert forall a :: HandedBack(s, a) ==> HandedBack(s', a);
  }

  lemma {:induction false} ListsEntered(s: State, s': State, t: nat, v: View)
    requires ListsOk(s) && t < |s.threads| && s' == Put(s, t, v)
    requires
      var th := s.threads[t];
      && v.addList == [Addr(t, th.gen)] + s.addList && v.th.gen == th.gen && !Active(th) && Active(v.th)
      && th.pc != NoCtx && th.ctx.status != DONE
    ensures ListsOk(s')
  {
    hide Inserted;
    var me := Addr(t, s.threads[t].gen);
    assert s'.threads[t] == v.th;
    assert s'.addList + s'.list == [me] + (s.addList + s.list);
    assert !Attached(s, me) && !HandedBack(s, me);
    assert me !in s.addList + s.list;
    assert forall a :: Attached(s, a) ==> Attached(s', a);
    assert forall a :: a != me && HandedBack(s, a) ==> HandedBack(s', a);
  }

  lemma {:induction false} ListsThread(levels: seq<int>, s: State, s': State, t: nat)
    requires ThreadsOk(s) && ListsOk(s) && t < |s.threads| && ThreadNext(levels, s, s', t)
    ensures ListsOk(s')
  {
    hide ThreadOk, ViewNext, Lifecycle.ThreadStep, Active, ListsOk;
    var me := Addr(t, s.threads[t].gen);
    var v :| ViewNext(levels, ViewOf(s, t), v, me) && s' == Put(s, t, v);
    ViewLists(levels, ViewOf(s, t), v, me);
    if v.addList == s.addList {
      ListsKept(s, s', t, v);
    } else {
      ListsEntered(s, s', t, v);
    }
  }

  /** An active context stays allocated; its published records grow, the taken ones do not change. */
  lemma {:induction false} ViewActive(levels: seq<int>, v: View, v': View, me: Addr)
    requires ThreadOk(v.th, v.addList) && ViewNext(levels, v, v', me) && Active(v.th)
    ensures v'.th.gen == v.th.gen && Active(v'.th)
    ensures v.th.ctx.published <= v'.th.ctx.published && v'.th.ctx.taken == v.th.ctx.taken
    ensures v.th.ctx.status == WAIT_REMOVE ==> v'.th.ctx.status == WAIT_REMOVE
  {
  }

  lemma {:induction false} BackendThread(levels: seq<int>, s: State, s': State, t: nat)
    requires ThreadsOk(s) && ListsOk(s) && BackendOk(levels, s) && t < |s.threads| && ThreadNext(levels, s, s', t)
    ensures BackendOk(levels, s')
  {
    hide ThreadOk, ViewNext, Lifecycle.ThreadStep, Distinct;
    var me := Addr(t, s.threads[t].gen);
    var v :| ViewNext(levels, ViewOf(s, t), v, me) && s' == Put(s, t, v);
    if Active(s.threads[t]) {
      ViewActive(levels, ViewOf(s, t), v, me);
    }
  }

  /** A step offers no handler anything. */
  lemma {:induction false} ViewOffered(levels: seq<int>, v: View, v': View, me: Addr, pending: bool)
    requires ThreadOk(v.th, v.addList) && ViewNext(levels, v, v', me) && ThreadOk(v'.th, v'.addList)
    requires pending ==> Active(v.th)
    ensures Offered(v'.th, pending) == Offered(v.th, pending)
  {
    if v.th.pc.Free? {
      assert v.th.ctx.published[..v.th.ctx.taken] == v.th.ctx.published;
    }
  }

  lemma {:induction false} OutputsThread(levels: seq<int>, s: State, s': State, t: nat)
    requires ThreadsOk(s) && ThreadsOk(s') && ListsOk(s) && BackendOk(levels, s) && OutputsOk(levels, s)
    requires t < |s.threads| && ThreadNext(levels, s, s', t)
    ensures OutputsOk(levels, s')
  {
    hide ViewNext, Lifecycle.ThreadStep, Distinct, Offered, Of, Admitted, SnapOk, JustTaken;
    var me := Addr(t, s.threads[t].gen);
    var v :| ViewNext(levels, ViewOf(s, t), v, me) && s' == Put(s, t, v);
    assert s'.threads[t] == v.th;
    forall h: nat | h < |levels|
      ensures Offered(s'.threads[t], Pending(s', t, h)) == Offered(s.threads[t], Pending(s, t, h))
    {
      assert Pending(s', t, h) == Pending(s, t, h);
      ViewOffered(levels, ViewOf(s, t), v, me, Pending(s, t, h));
    }
  }

  lemma {:induction false} ViewCalls(levels: seq<int>, v: View, v': View, me: Addr)
    requires ThreadOk(v.th, v.addList) && ViewNext(levels, v, v', me)
    requires Published(v.th) == Admitted(ContextLevel(levels), v.th.calls)
    ensures Published(v'.th) == Admitted(ContextLevel(levels), v'.th.calls)
  {
    hide Admitted, ContextLevel, ShouldWrite;
    if v'.th.calls != v.th.calls {
      var c := v'.th.calls[|v.th.calls|];
      assert v'.th.calls == v.th.calls + [c];
      AdmittedPush(ContextLevel(levels), v.th.calls, c);
    }
  }

  lemma {:induction false} CallsThread(levels: seq<int>, s: State, s': State, t: nat)
    requires ThreadsOk(s) && CallsOk(levels, s) && t < |s.threads| && ThreadNext(levels, s, s', t)
    ensures CallsOk(levels, s')
  {
    hide ThreadOk, ViewNext, Lifecycle.ThreadStep, Published, Admitted, ContextLevel;
    var me := Addr(t, s.threads[t].gen);
    var v :| ViewNext(levels, ViewOf(s, t), v, me) && s' == Put(s, t, v);
    ViewCalls(levels, ViewOf(s, t), v, me);
  }

  // ----------------------------------------------------------- backend steps

  /** The backend can always go on: it never reaches for a freed context, and the one it touches has not
      been given back to its thread. */
  lemma {:induction false} BackendSafe(levels: seq<int>, s: State)
    requires ListsOk(s) && BackendOk(levels, s) && |s.outputs| == |levels|
    ensures BackendCan(levels, s)
    ensures Touched(s) >= 0 ==> Attached(s, s.list[Touched(s)])
  {
    hide Distinct;
  }

  lemma {:induction false} LockBackend(levels: seq<int>, s: State)
    requires LockOk(s) && BackendCan(levels, s)
    ensures LockOk(BackendStep(levels, s))
  {
    var s' := BackendStep(levels, s);
    assert |s'.threads| == |s.threads|;
    assert forall t :: 0 <= t < |s.threads| ==> s'.threads[t].pc == s.threads[t].pc;
  }

  lemma {:induction false} ThreadsBackend(levels: seq<int>, s: State)
    requires LockOk(s) && ThreadsOk(s) && ListsOk(s) && BackendOk(levels, s) && BackendCan(levels, s)
    ensures ThreadsOk(BackendStep(levels, s))
  {
    hide Distinct;
    BackendSafe(levels, s);
    var s' := BackendStep(levels, s);
    forall t | 0 <= t < |s.threads| ensures ThreadOk(s'.threads[t], s'.addList) {
      assert ThreadOk(s.threads[t], s.addList);
    }
  }

  lemma {:induction false} BackendConsumes(levels: seq<int>, s: State)
    requires ThreadsOk(s) && ListsOk(s) && BackendOk(levels, s) && BackendCan(levels, s)
    requires s.backend.Consume? || s.backend.ReadTid? || s.backend.Dispatch?
    ensures BackendOk(levels, BackendStep(levels, s))
  {
    hide Distinct, ListsOk, ThreadOk, ShouldWrite;
  }

  lemma {:induction false} BackendBackend(levels: seq<int>, s: State)
    requires ThreadsOk(s) && ListsOk(s) && BackendOk(levels, s) && BackendCan(levels, s)
    ensures BackendOk(levels, BackendStep(levels, s))
  {
    hide Distinct;
    if s.backend.Consume? || s.backend.ReadTid? || s.backend.Dispatch? {
      BackendConsumes(levels, s);
    } else if s.backend.Walk? {
      BackendSafe(levels, s);
      assert s.backend.i < |s.list| ==> ThreadOk(s.threads[s.list[s.backend.i].tid], s.addList);
    }
  }

  lemma {:induction false} CallsBackend(levels: seq<int>, s: State)
    requires CallsOk(levels, s) && BackendCan(levels, s)
    ensures CallsOk(levels, BackendStep(levels, s))
  {
    hide Admitted, ContextLevel;
    var s' := BackendStep(levels, s);
    assert forall t :: 0 <= t < |s.threads| ==>
      Published(s'.threads[t]) == Published(s.threads[t]) && s'.threads[t].calls == s.threads[t].calls;
  }

  lemma {:induction false} DistinctMoved(a: seq<Addr>, l: seq<Addr>)
    requires a != [] && Distinct(a + l)
    ensures Distinct(a[1..] + ([a[0]] + l))
  {
    var after, before := a[1..] + ([a[0]] + l), a + l;
    assert forall k :: 0 <= k < |after| ==> after[k] == before[if k < |a| - 1 then k + 1 else if k == |a| - 1 then 0 else k];
  }

  lemma {:induction false} Elsewhere(a: seq<Addr>, l: seq<Addr>, i: nat)
    requires i < |l| && Distinct(a + l)
    ensures forall j :: 0 <= j < |a| ==> a[j] != l[i]
    ensures forall j :: 0 <= j < |l| && j != i ==> l[j] != l[i]
  {
    var before := a + l;
    assert forall j :: 0 <= j < |l| ==> before[|a| + j] == l[j];
    assert forall k :: 0 <= k < |a| ==> before[k] == a[k];
  }

  lemma {:induction false} DistinctWithout(a: seq<Addr>, l: seq<Addr>, i: nat)
    requires i < |l| && Distinct(a + l)
    ensures Distinct(a + (l[..i] + l[i + 1..]))
    ensures forall c :: c in a + (l[..i] + l[i + 1..]) <==> c in a + l && c != l[i]
  {
    var after, before := a + (l[..i] + l[i + 1..]), a + l;
    assert forall k :: 0 <= k < |after| ==> after[k] == before[if k < |a| + i then k else k + 1];
    Elsewhere(a, l, i);
    assert l == l[..i] + [l[i]] + l[i + 1..];
  }

  /** A step that changes neither list, nor any thread but for the number of taken records. */
  lemma {:induction false} ListsStay(s: State, s': State)
    requires ListsOk(s) && s'.addList == s.addList && s'.list == s.list && |s'.threads| == |s.threads|
    requires !s.backend.Unlink? && !s'.backend.Unlink?
    requires forall t :: 0 <= t < |s.threads| ==>
      && s'.threads[t].pc == s.threads[t].pc && s'.threads[t].gen == s.threads[t].gen
      && s'.threads[t].ctx.status == s.threads[t].ctx.status
    ensures ListsOk(s')
  {
    hide Distinct, HandedBack;
    assert forall c :: Attached(s, c) <==> Attached(s', c);
  }

  lemma {:induction false} ListsStoreDone(levels: seq<int>, s: State)
    requires ThreadsOk(s) && ListsOk(s) && BackendOk(levels, s) && BackendCan(levels, s)
    requires s.backend.StoreDone?
    ensures ListsOk(BackendStep(levels, s))
  {
    hide Distinct;
    var s' := BackendStep(levels, s);
    var a := s.list[s.backend.i];
    Elsewhere(s.addList, s.list, s.backend.i);
    assert forall c :: Attached(s', c) <==> Attached(s, c) && c != a;
  }

  lemma {:induction false} ListsMove(levels: seq<int>, s: State)
    requires ListsOk(s) && BackendCan(levels, s)
    requires s.backend.Move?
    ensures ListsOk(BackendStep(levels, s))
  {
    var s' := BackendStep(levels, s);
    if s.addList != [] {
      DistinctMoved(s.addList, s.list);
      assert forall c :: Attached(s, c) <==> Attached(s', c);
      assert forall c :: c in s.addList + s.list <==> c in s'.addList + s'.list;
    }
  }

  lemma {:induction false} ListsUnlink(levels: seq<int>, s: State)
    requires ListsOk(s) && BackendCan(levels, s)
    requires s.backend.Unlink?
    ensures ListsOk(BackendStep(levels, s))
  {
    hide Distinct;
    DistinctWithout(s.addList, s.list, s.backend.i);
    var s' := BackendStep(levels, s);
    var a := s.list[s.backend.i];
    assert forall c :: Attached(s, c) <==> Attached(s', c);
    assert HandedBack(s, a) && !Attached(s, a);
  }

  lemma {:induction false} ListsBackend(levels: seq<int>, s: State)
    requires ThreadsOk(s) && ListsOk(s) && BackendOk(levels, s) && BackendCan(levels, s)
    ensures ListsOk(BackendStep(levels, s))
  {
    if s.backend.Move? {
      ListsMove(levels, s);
    } else if s.backend.Unlink? {
      ListsUnlink(levels, s);
    } else if s.backend.StoreDone? {
      ListsStoreDone(levels, s);
    } else {
      ListsStay(s, BackendStep(levels, s));
    }
  }

  lemma {:induction false} OfPush(out: seq<Delivery>, m: Delivery, t: nat)
    ensures Of(out + [m], t) == Of(out, t) + (if m.tid == t then [m.call] else [])
  {
    assert (out + [m])[..|out|] == out;
  }

  lemma {:induction false} QuietFrame(levels: seq<int>, s: State)
    requires BackendCan(levels, s) && (s.backend.Dispatch? ==> s.backend.h == |levels|)
    ensures var s' := BackendStep(levels, s); |s'.threads| == |s.threads| && s'.outputs == s.outputs
  {
  }

  /** Only a handler's turn offers it a record. */
  lemma {:induction false} OutputsQuiet(levels: seq<int>, s: State)
    requires ThreadsOk(s) && ListsOk(s) && BackendOk(levels, s) && OutputsOk(levels, s) && BackendCan(levels, s)
    requires s.backend.Dispatch? ==> s.backend.h == |levels|
    requires ThreadsOk(BackendStep(levels, s))
    ensures OutputsOk(levels, BackendStep(levels, s))
  {
    hide ListsOk, BackendOk, Of, Admitted, Lifecycle.BackendStep, Pending, Offered;
    var s' := BackendStep(levels, s);
    QuietFrame(levels, s);
    forall t: nat, h: nat | t < |s.threads| && h < |levels|
      ensures Offered(s'.threads[t], Pending(s', t, h)) == Offered(s.threads[t], Pending(s, t, h))
    {
      OfferedQuiet(levels, s, t, h);
    }
  }

  lemma {:induction false} OfferedQuiet(levels: seq<int>, s: State, t: nat, h: nat)
    requires ThreadsOk(s) && BackendOk(levels, s) && BackendCan(levels, s)
    requires s.backend.Dispatch? ==> s.backend.h == |levels|
    requires ThreadsOk(BackendStep(levels, s)) && t < |s.threads| && h < |levels|
    ensures
      var s' := BackendStep(levels, s);
      && ThreadOk(s.threads[t], s.addList) && ThreadOk(s'.threads[t], s'.addList)
      && Offered(s'.threads[t], Pending(s', t, h)) == Offered(s.threads[t], Pending(s, t, h))
  {
    var s' := BackendStep(levels, s);
    assert ThreadOk(s.threads[t], s.addList) && ThreadOk(s'.threads[t], s'.addList);
    if !s.backend.Consume? {
      assert Pending(s', t, h) == Pending(s, t, h);
    }
  }

  /** Handler `h`'s turn: it gets the record exactly if its level admits it. */
  lemma {:induction false} OutputsTurn(levels: seq<int>, s: State)
    requires ThreadsOk(s) && BackendOk(levels, s) && OutputsOk(levels, s) && BackendCan(levels, s)
    requires s.backend.Dispatch? && s.backend.h < |levels|
    ensures ThreadsOk(BackendStep(levels, s)) && OutputsOk(levels, BackendStep(levels, s))
  {
    hide SnapOk, JustTaken, Of, Admitted, Offered, Pending;
    var s' := BackendStep(levels, s);
    assert s'.threads == s.threads && s'.addList == s.addList;
    forall t: nat, h: nat | t < |s.threads| && h < |levels|
      ensures Of(s'.outputs[h], t) == Admitted(levels[h], Offered(s'.threads[t], Pending(s', t, h)))
    {
      TurnOf(levels, s, t, h);
    }
  }

  lemma {:induction false} TurnOf(levels: seq<int>, s: State, t: nat, h: nat)
    requires ThreadsOk(s) && BackendOk(levels, s) && OutputsOk(levels, s) && BackendCan(levels, s)
    requires s.backend.Dispatch? && s.backend.h < |levels| && t < |s.threads| && h < |levels|
    ensures
      var s' := BackendStep(levels, s);
      && ThreadOk(s.threads[t], s.addList)
      && Of(s'.outputs[h], t) == Admitted(levels[h], Offered(s.threads[t], Pending(s', t, h)))
  {
    hide SnapOk, Of, Admitted;
    var s' := BackendStep(levels, s);
    var msg, k, th := s.backend.msg, s.backend.h, s.threads[t];
    OfPush(s.outputs[h], msg, t);
    if t == msg.tid && h == k {
      var before, after := Offered(th, true), Offered(th, false);
      assert after == before + [msg.call];
      AdmittedPush(levels[h], before, msg.call);
    } else {
      assert Pending(s', t, h) == Pending(s, t, h);
    }
  }

  lemma {:induction false} OutputsBackend(levels: seq<int>, s: State)
    requires ThreadsOk(s) && ListsOk(s) && BackendOk(levels, s) && OutputsOk(levels, s) && BackendCan(levels, s)
    requires ThreadsOk(BackendStep(levels, s))
    ensures OutputsOk(levels, BackendStep(levels, s))
  {
    if s.backend.Dispatch? && s.backend.h < |levels| {
      OutputsTurn(levels, s);
    } else {
      OutputsQuiet(levels, s);
    }
  }

  // ------------------------------------------------------------------ runs

  lemma {:induction false} InitInv(levels: seq<int>, s: State)
    requires Init(levels, s)
    ensures Inv(levels, s)
  {
  }

  lemma {:induction false} StepInv(levels: seq<int>, s: State, s': State)
    requires Inv(levels, s) && Step(levels, s, s')
    ensures Inv(levels, s')
  {
    hide LockOk, ThreadsOk, ListsOk, BackendOk, OutputsOk, CallsOk, ThreadNext, BackendCan, Lifecycle.BackendStep;
    if BackendCan(levels, s) && s' == BackendStep(levels, s) {
      LockBackend(levels, s);
      ThreadsBackend(levels, s);
      ListsBackend(levels, s);
      BackendBackend(levels, s);
      OutputsBackend(levels, s);
      CallsBackend(levels, s);
    } else {
      var t: nat :| t < |s.threads| && ThreadNext(levels, s, s', t);
      LockThread(levels, s, s', t);
      ThreadsThread(levels, s, s', t);
      ListsThread(levels, s, s', t);
      BackendThread(levels, s, s', t);
      OutputsThread(levels, s, s', t);
      CallsThread(levels, s, s', t);
    }
  }

  lemma {:induction false} RunInv(levels: seq<int>, run: seq<State>)
    requires Run(levels, run)
    ensures Inv(levels, run[|run| - 1])
  {
    hide Inv, Step, Init;
    if |run| == 1 {
      InitInv(levels, run[0]);
    } else {
      RunInv(levels, run[..|run| - 1]);
      assert Step(levels, run[|run| - 1 - 1], run[|run| - 1]);
      StepInv(levels, run[|run| - 2], run[|run| - 1]);
    }
  }
}
