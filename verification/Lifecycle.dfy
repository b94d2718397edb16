/** Thread contexts from `haclog_thread_context_init` to `haclog_thread_context_cleanup`, with the
    backend loop: any number of threads, the context spinlock, the add list, the backend's list, the
    handlers. A ring is seen here through what the ring theorems give: its records are published in
    order, taken in order, and its two indices are equal exactly when every record is taken. */
module Lifecycle {
  import opened Handlers
  import opened ThreadStatus

  /** A thread context: the records published to its ring, and how many the backend has taken. */
  datatype Ctx = Ctx(status: Status, published: seq<Call>, taken: nat)

  /** The address of a context: the `gen`-th one that thread `tid` allocated. */
  datatype Addr = Addr(tid: nat, gen: nat)

  datatype ThreadPc =
    | NoCtx
    | InsertLock | InsertRead | InsertLink(rest: seq<Addr>) | InsertUnlock
    | Ready
    | Join | SetWait | Spin | Free

  /** `gen` counts the contexts the thread has allocated; `ctx` is the last one, allocated unless `pc` is
      NoCtx. Bookkeeping: `calls` lists the log calls the thread made (without those whose serialization
      gave up), `past` the records of its freed contexts. */
  datatype Thread = Thread(pc: ThreadPc, gen: nat, ctx: Ctx, calls: seq<Call>, past: seq<Call>)

  /** A message as a handler gets it. */
  datatype Delivery = Delivery(tid: nat, call: Call)

  /** `i` is the list node the backend stands at, `snap` the loaded writer position. */
  datatype BackendPc =
    | NewLock | Move | NewUnlock
    | Walk(i: nat) | Consume(i: nat, snap: nat) | ReadTid(i: nat, snap: nat, call: Call)
    | Dispatch(i: nat, snap: nat, msg: Delivery, h: nat)
    | Sweep(i: nat) | StoreDone(i: nat) | Unlink(i: nat)

  /** Both lists hold addresses of contexts; a node may outlive its context. */
  datatype State = State(locked: bool, addList: seq<Addr>, list: seq<Addr>,
                         threads: seq<Thread>, backend: BackendPc, outputs: seq<seq<Delivery>>)

  /** No contexts; `levels` are the handlers' levels, fixed before. */
  predicate Init(levels: seq<int>, s: State) {
    && !s.locked && s.addList == [] && s.list == [] && s.backend == NewLock
    && (forall t :: 0 <= t < |s.threads| ==>
          s.threads[t].pc == NoCtx && s.threads[t].calls == [] && s.threads[t].past == [])
    && |s.outputs| == |levels|
    && forall h :: 0 <= h < |levels| ==> s.outputs[h] == []
  }

  // ----------------------------------------------------------------- threads

  /** What thread `t` reads and writes: itself, the lock, the add list. */
  datatype View = View(th: Thread, locked: bool, addList: seq<Addr>)

  function ViewOf(s: State, t: nat): View
    requires t < |s.threads|
  {
    View(s.threads[t], s.locked, s.addList)
  }

  function Put(s: State, t: nat, v: View): State
    requires t < |s.threads|
  {
    s.(threads := s.threads[t := v.th], locked := v.locked, addList := v.addList)
  }

  function Goto(v: View, pc: ThreadPc): View {
    v.(th := v.th.(pc := pc))
  }

  /** A log call with a context: the level filter, then the serialization, which publishes or gives up. */
  function Log(levels: seq<int>, v: View, c: Call, fits: bool): View {
    var logged := v.th.(calls := v.th.calls + [c]);
    if !ShouldWrite(ContextLevel(levels), c.level) then v.(th := logged)
    else if !fits then v
    else v.(th := logged.(ctx := v.th.ctx.(published := v.th.ctx.published + [c])))
  }

  /** The other steps: `haclog_thread_context_init`, `haclog_context_insert_thread_context`,
      `haclog_thread_context_cleanup`. `me` is the address of the thread's context. */
  function ThreadStep(v: View, me: Addr): View {
    var th := v.th;
    match th.pc
    case NoCtx => v.(th := th.(pc := InsertLock, gen := th.gen + 1, ctx := Ctx(NORMAL, [], 0)))
    case InsertLock => if v.locked then v else Goto(v, InsertRead).(locked := true)
    case InsertRead => Goto(v, InsertLink(v.addList))
    case InsertLink(rest) => Goto(v, InsertUnlock).(addList := [me] + rest)
    case InsertUnlock => Goto(v, Ready).(locked := false)
    case Ready => Goto(v, Join)
    case Join => if th.ctx.taken == |th.ctx.published| then Goto(v, SetWait) else v
    case SetWait => v.(th := th.(pc := Spin, ctx := th.ctx.(status := WAIT_REMOVE)))
    case Spin => if th.ctx.status == DONE then Goto(v, Free) else v
    case Free => v.(th := th.(pc := NoCtx, past := th.past + th.ctx.published))
  }

  ghost predicate ViewNext(levels: seq<int>, v: View, v': View, me: Addr) {
    || v' == ThreadStep(v, me)
    || (v.th.pc == Ready && exists c: Call, fits: bool :: v' == Log(levels, v, c, fits))
  }

  ghost predicate ThreadNext(levels: seq<int>, s: State, s': State, t: nat)
    requires t < |s.threads|
  {
    exists v :: ViewNext(levels, ViewOf(s, t), v, Addr(t, s.threads[t].gen)) && s' == Put(s, t, v)
  }

  // ----------------------------------------------------------------- backend

  /** The context at address `a` is allocated. */
  predicate Allocated(s: State, a: Addr) {
    a.tid < |s.threads| && s.threads[a.tid].gen == a.gen && s.threads[a.tid].pc != NoCtx
  }

  function CtxAt(s: State, a: Addr): Ctx
    requires Allocated(s, a)
  {
    s.threads[a.tid].ctx
  }

  function SetCtx(s: State, a: Addr, ctx: Ctx): State
    requires Allocated(s, a)
  {
    s.(threads := s.threads[a.tid := s.threads[a.tid].(ctx := ctx)])
  }

  /** The list node whose context the backend's next step reads or writes, or -1. */
  function Touched(s: State): int {
    match s.backend
    case Walk(i) => if i < |s.list| then i else -1
    case Consume(i, _) => i
    case ReadTid(i, _, _) => i
    case Sweep(i) => if i < |s.list| then i else -1
    case StoreDone(i) => i
    case _ => -1
  }

  /** The backend's next step stays inside its list, the records and the handlers, and the context it
      touches is allocated. */
  predicate BackendCan(levels: seq<int>, s: State) {
    && |s.outputs| == |levels|
    && Touched(s) < |s.list| && (Touched(s) >= 0 ==> Allocated(s, s.list[Touched(s)]))
    && (s.backend.Consume? ==>
          var ctx := CtxAt(s, s.list[s.backend.i]);
          ctx.taken == s.backend.snap || ctx.taken < |ctx.published|)
    && (s.backend.Dispatch? ==> s.backend.h <= |levels|)
    && (s.backend.Unlink? ==> s.backend.i < |s.list|)
  }

  /** `haclog_handle_new_thread_ctx`, `haclog_consume` for every node, `haclog_handle_remove_thread_ctx`,
      and again. A record is released before the handlers get it. */
  function BackendStep(levels: seq<int>, s: State): State
    requires BackendCan(levels, s)
  {
    match s.backend
    case NewLock => if s.locked then s else s.(locked := true, backend := Move)
    case Move =>
      if s.addList == [] then s.(backend := NewUnlock)
      else s.(addList := s.addList[1..], list := [s.addList[0]] + s.list)
    case NewUnlock => s.(locked := false, backend := Walk(0))
    case Walk(i) =>
      if i < |s.list| then s.(backend := Consume(i, |CtxAt(s, s.list[i]).published|)) else s.(backend := Sweep(0))
    case Consume(i, snap) =>
      var ctx := CtxAt(s, s.list[i]);
      if ctx.taken == snap then s.(backend := Walk(i + 1))
      else
        SetCtx(s, s.list[i], ctx.(taken := ctx.taken + 1))
          .(backend := ReadTid(i, snap, ctx.published[ctx.taken]))
    case ReadTid(i, snap, call) => s.(backend := Dispatch(i, snap, Delivery(s.list[i].tid, call), 0))
    case Dispatch(i, snap, msg, h) =>
      if h == |levels| then s.(backend := Consume(i, snap))
      else if ShouldWrite(levels[h], msg.call.level) then
        s.(outputs := s.outputs[h := s.outputs[h] + [msg]], backend := Dispatch(i, snap, msg, h + 1))
      else s.(backend := Dispatch(i, snap, msg, h + 1))
    case Sweep(i) =>
      if i < |s.list| then
        s.(backend := if CtxAt(s, s.list[i]).status == WAIT_REMOVE then StoreDone(i) else Sweep(i + 1))
      else s.(backend := NewLock)
    case StoreDone(i) =>
      SetCtx(s, s.list[i], CtxAt(s, s.list[i]).(status := DONE)).(backend := Unlink(i))
    case Unlink(i) => s.(list := s.list[..i] + s.list[i + 1..], backend := Sweep(i))
  }

  ghost predicate Step(levels: seq<int>, s: State, s': State) {
    || (exists t: nat :: t < |s.threads| && ThreadNext(levels, s, s', t))
    || (BackendCan(levels, s) && s' == BackendStep(levels, s))
  }

  ghost predicate Run(levels: seq<int>, run: seq<State>) {
    && run != [] && Init(levels, run[0])
    && forall i :: 0 < i < |run| ==> Step(levels, run[i - 1], run[i])
  }
}
