/** The two lists of thread contexts on heap nodes (`haclog_context_insert_thread_context`,
    `haclog_handle_new_thread_ctx`, `haclog_handle_remove_thread_ctx`) and the handler table.
    The spinlock is not in this file: each method runs inside it, or alone on the backend's list. */
module ContextList {
  import opened Handlers
  import opened ThreadStatus

  class ThreadContext {
    var status: Status

    constructor ()
      ensures status == NORMAL
    {
      status := NORMAL;
    }
  }

  class Node {
    var next: Node?
    const ctx: ThreadContext?

    constructor (ctx: ThreadContext?)
      ensures this.ctx == ctx && next == null
    {
      this.ctx := ctx;
      this.next := null;
    }
  }

  /** From `n` the links run through exactly the nodes `l` and end. */
  ghost predicate IsList(n: Node?, l: seq<Node>)
    reads l
  {
    if l == [] then n == null else n == l[0] && IsList(l[0].next, l[1..])
  }

  /** A list that ends has no cycle: no node occurs twice. */
  lemma {:induction false} Acyclic(n: Node?, l: seq<Node>)
    requires IsList(n, l)
    ensures forall i, j :: 0 <= i < j < |l| ==> l[i] != l[j]
    decreases |l|
  {
    if l != [] {
      Acyclic(l[0].next, l[1..]);
      forall j | 1 <= j < |l| ensures l[j] != l[0] {
        NotAhead(l, j);
      }
    }
  }

  /** A node further on starts a shorter rest, so it is not the first one. */
  lemma {:induction false} NotAhead(l: seq<Node>, j: nat)
    requires l != [] && IsList(l[0], l) && 1 <= j < |l|
    ensures l[j] != l[0]
  {
    Tail(l[0], l, j);
    if l[j] == l[0] {
      Determined(l[0], l, l[j..]);
    }
  }

  lemma {:induction false} Tail(n: Node?, l: seq<Node>, j: nat)
    requires IsList(n, l) && j < |l|
    ensures IsList(l[j], l[j..])
  {
    if j > 0 {
      Tail(l[0].next, l[1..], j - 1);
      assert l[1..][j - 1..] == l[j..];
    }
  }

  /** The links determine the list. */
  lemma {:induction false} Determined(n: Node?, l: seq<Node>, m: seq<Node>)
    requires IsList(n, l) && IsList(n, m)
    ensures l == m
  {
    if l != [] && m != [] {
      Determined(l[0].next, l[1..], m[1..]);
    }
  }

  function Reverse(l: seq<Node>): seq<Node> {
    if l == [] then [] else Reverse(l[1..]) + [l[0]]
  }

  /** Going along the links from `h`, the nodes `l` come first. */
  ghost predicate Leads(h: Node, l: seq<Node>)
    reads h, if l == [] then [] else l[..|l| - 1]
  {
    l == [] || (Last(h, l[..|l| - 1]).next == l[|l| - 1] && Leads(h, l[..|l| - 1]))
  }

  function Last(h: Node, l: seq<Node>): Node {
    if l == [] then h else l[|l| - 1]
  }

  lemma {:induction false} LeadsTo(h: Node, l: seq<Node>, rest: seq<Node>)
    requires Leads(h, l) && IsList(Last(h, l).next, rest)
    ensures IsList(h.next, l + rest)
  {
    if l == [] {
      assert l + rest == rest;
    } else {
      var front, z := l[..|l| - 1], l[|l| - 1];
      assert ([z] + rest)[1..] == rest;
      LeadsTo(h, front, [z] + rest);
      assert front + ([z] + rest) == l + rest;
    }
  }

  /** The nodes among `l` that were not waiting to be removed when their contexts' statuses were `was`. */
  ghost function Staying(l: seq<Node>, was: seq<Status>): seq<Node>
    requires |l| == |was|
  {
    if l == [] then []
    else Staying(l[..|l| - 1], was[..|l| - 1]) + (if was[|l| - 1] == WAIT_REMOVE then [] else [l[|l| - 1]])
  }

  ghost predicate HaveContexts(l: seq<Node>) {
    forall i :: 0 <= i < |l| ==> l[i].ctx != null
  }

  ghost function Statuses(l: seq<Node>): (st: seq<Status>)
    requires HaveContexts(l)
    reads set n | n in l :: n.ctx
    ensures |st| == |l|
  {
    if l == [] then [] else Statuses(l[..|l| - 1]) + [l[|l| - 1].ctx.status]
  }

  lemma {:induction false} StatusesAt(l: seq<Node>, i: nat)
    requires HaveContexts(l) && i < |l|
    ensures Statuses(l)[i] == l[i].ctx.status
  {
    if i < |l| - 1 {
      StatusesAt(l[..|l| - 1], i);
    }
  }

  ghost predicate NoRepeats(l: seq<Node>) {
    forall i, j :: 0 <= i < j < |l| ==> l[i] != l[j]
  }

  /** Half-way through the removal: of the first `k` of the nodes `all`, those that stay are `kept`, and
      they are what is linked from `head` before the others. */
  ghost predicate Swept(head: Node, all: seq<Node>, was: seq<Status>, k: nat, kept: seq<Node>)
    requires |was| == |all|
    reads head, all, kept
  {
    && k <= |all| && kept == Staying(all[..k], was[..k])
    && Leads(head, kept) && IsList(Last(head, kept).next, all[k..])
    && (forall n :: n in kept ==> n in all[..k]) && NoRepeats(kept)
    && (forall j :: 0 <= j < k && all[j] !in kept ==> all[j].next == null)
  }

  /** The contexts of the first `k` nodes that waited have been handed back; no other status changed. */
  ghost predicate Marked(all: seq<Node>, was: seq<Status>, k: nat)
    requires HaveContexts(all) && |was| == |all|
    reads set n | n in all :: n.ctx
  {
    forall j :: 0 <= j < |all| ==> all[j].ctx.status == if j < k && was[j] == WAIT_REMOVE then DONE else was[j]
  }

  lemma {:induction false} MarkedStart(all: seq<Node>)
    requires HaveContexts(all)
    ensures Marked(all, Statuses(all), 0)
  {
    forall j | 0 <= j < |all| ensures all[j].ctx.status == Statuses(all)[j] {
      StatusesAt(all, j);
    }
  }

  lemma {:induction false} MarkedKeep(all: seq<Node>, was: seq<Status>, k: nat)
    requires HaveContexts(all) && |was| == |all| && k < |all| && Marked(all, was, k)
    ensures was[k] == all[k].ctx.status
    ensures was[k] != WAIT_REMOVE ==> Marked(all, was, k + 1)
  {
  }

  lemma {:induction false} SweptStart(head: Node, all: seq<Node>, was: seq<Status>)
    requires |was| == |all| && IsList(head.next, all)
    ensures Swept(head, all, was, 0, [])
  {
    assert all[0..] == all;
  }

  lemma {:induction false} SweptNode(head: Node, all: seq<Node>, was: seq<Status>, k: nat, kept: seq<Node>)
    requires |was| == |all| && Swept(head, all, was, k, kept)
    ensures Last(head, kept) == head || Last(head, kept) in all
    ensures var node := Last(head, kept).next;
      if node == null then k == |all| else k < |all| && node == all[k]
  {
    assert kept != [] ==> Last(head, kept) in all[..k];
  }

  lemma {:induction false} SweptEnd(head: Node, all: seq<Node>, was: seq<Status>, kept: seq<Node>)
    requires |was| == |all| && Swept(head, all, was, |all|, kept)
    ensures IsList(head.next, kept) && kept == Staying(all, was)
    ensures forall n :: n in kept ==> n in all
    ensures forall n :: n in all && n !in kept ==> n.next == null
  {
    assert all[..|all|] == all && was[..|all|] == was;
    LeadsTo(head, kept, []);
    assert kept + [] == kept;
  }

  lemma {:induction false} SweptKeep(head: Node, all: seq<Node>, was: seq<Status>, k: nat, kept: seq<Node>)
    requires |was| == |all| && NoRepeats(all) && Swept(head, all, was, k, kept)
    requires k < |all| && was[k] != WAIT_REMOVE
    ensures Swept(head, all, was, k + 1, kept + [all[k]])
  {
    assert all[k..][1..] == all[k + 1..];
    assert all[..k + 1] == all[..k] + [all[k]] && all[..k + 1][..k] == all[..k] && was[..k + 1][..k] == was[..k];
    assert (kept + [all[k]])[..|kept|] == kept;
    assert all[k] !in all[..k];
  }

  /** The context: list heads, handlers, level. `adds` and `list` name the nodes of the two lists. */
  class Context {
    const addHead: Node
    const head: Node
    var handlers: seq<int>
    var level: int
    ghost var adds: seq<Node>
    ghost var list: seq<Node>

    /** The heads and the nodes of the two lists are all different, and so are the nodes' contexts. */
    ghost predicate Apart(a: seq<Node>, l: seq<Node>) {
      && addHead != head && addHead !in a + l && head !in a + l
      && (forall n :: n in a ==> n !in l)
      && (forall n :: n in a + l ==> n.ctx != null)
      && (forall m, n :: m in a + l && n in a + l && m != n ==> m.ctx != n.ctx)
    }

    ghost predicate Valid()
      reads this, addHead, head, adds, list
    {
      Apart(adds, list) && IsList(addHead.next, adds) && IsList(head.next, list)
    }

    lemma {:induction false} ApartFacts(a: seq<Node>, l: seq<Node>)
      requires Apart(a, l) && NoRepeats(l)
      ensures addHead != head && addHead !in l && head !in l && head !in a
      ensures forall n :: n in l ==> n !in a
      ensures HaveContexts(l)
      ensures forall i, j :: 0 <= i < j < |l| ==> l[i].ctx != l[j].ctx
    {
    }

    lemma {:induction false} ApartKept(a: seq<Node>, l: seq<Node>, kept: seq<Node>)
      requires Apart(a, l) && forall n :: n in kept ==> n in l
      ensures Apart(a, kept)
    {
    }

    /** The level is that of the handlers. */
    predicate LevelValid()
      reads this
    {
      level == ContextLevel(handlers) && |handlers| <= MAX_HANDLERS
    }

    constructor ()
      ensures Valid() && adds == [] && list == [] && LevelValid() && handlers == []
      ensures fresh(addHead) && fresh(head)
    {
      addHead := new Node(null);
      head := new Node(null);
      handlers, level, adds, list := [], FATAL, [], [];
    }

    /** `haclog_context_add_handler`; `handler` is the handler's level. */
    method AddHandler(handler: int) returns (ok: bool)
      requires LevelValid()
      modifies this`handlers, this`level
      ensures LevelValid()
      ensures ok <==> |old(handlers)| < MAX_HANDLERS
      ensures handlers == if ok then old(handlers) + [handler] else old(handlers)
    {
      if |handlers| == MAX_HANDLERS {
        return false;
      }
      handlers := handlers + [handler];
      assert handlers[..|handlers| - 1] == old(handlers);
      if handler < level {
        level := handler;
      }
      ok := true;
    }

    /** `haclog_context_insert_thread_context` */
    method Insert(ctx: ThreadContext)
      requires Valid()
      requires forall n :: n in adds + list ==> n.ctx != ctx
      modifies this`adds, addHead
      ensures Valid()
      ensures |adds| == |old(adds)| + 1 && adds[1..] == old(adds) && fresh(adds[0]) && adds[0].ctx == ctx
    {
      var node := new Node(ctx);
      node.next := addHead.next;
      addHead.next := node;
      adds := [node] + adds;
    }

    lemma {:induction false} NothingToMove()
      requires Valid()
      ensures addHead.next == null <==> adds == []
    {
    }

    /** One turn of the loop of `haclog_handle_new_thread_ctx`. */
    method MoveFirst()
      requires Valid() && adds != []
      modifies this`adds, this`list, addHead, head, adds[0]
      ensures Valid()
      ensures adds == old(adds[1..]) && list == [old(adds[0])] + old(list)
    {
      var node := addHead.next;
      Acyclic(node, adds);
      assert node !in adds[1..] && node !in list;
      assert addHead !in adds[1..] && addHead !in list && head !in adds[1..] && head !in list;
      addHead.next := node.next;
      node.next := null;
      node.next := head.next;
      head.next := node;
      assert ([node] + list)[1..] == list;
      adds, list := adds[1..], [node] + list;
    }

    /** `haclog_handle_new_thread_ctx`: one by one from the front of the one list to the front of the other. */
    method HandleNew()
      requires Valid()
      modifies this`adds, this`list, addHead, head, adds
      ensures Valid()
      ensures adds == [] && list == Reverse(old(adds)) + old(list)
    {
      hide Reverse, Valid;
      ghost var all, k := adds, 0;
      NothingToMove();
      ReverseNone();
      while addHead.next != null
        invariant Valid() && (addHead.next == null <==> adds == [])
        invariant k <= |all| && adds == all[k..] && list == Reverse(all[..k]) + old(list)
        decreases |adds|
      {
        assert adds[0] == all[k];
        ReverseStep(all, k);
        MoveFirst();
        NothingToMove();
        k := k + 1;
      }
      assert all[..k] == all;
    }

    lemma {:induction false} StayingRemoved(all: seq<Node>, was: seq<Status>, k: nat)
      requires |was| == |all| && k < |all| && was[k] == WAIT_REMOVE
      ensures Staying(all[..k + 1], was[..k + 1]) == Staying(all[..k], was[..k])
    {
      assert all[..k + 1][..k] == all[..k] && was[..k + 1][..k] == was[..k];
    }

    /** Takes `node` out of the backend's list. */
    method Unlink(prev: Node, node: Node, ghost all: seq<Node>, ghost was: seq<Status>, ghost k: nat, ghost kept: seq<Node>)
      requires |was| == |all| && NoRepeats(all) && Swept(head, all, was, k, kept)
      requires head !in all && k < |all| && was[k] == WAIT_REMOVE && node == all[k] && prev == Last(head, kept)
      modifies prev, node
      ensures Swept(head, all, was, k + 1, kept) && prev.next == old(node.next)
    {
      hide Staying;
      assert Staying(all[..k + 1], was[..k + 1]) == kept by {
        StayingRemoved(all, was, k);
      }
      ghost var rest := all[k + 1..];
      assert all[k..][1..] == rest;
      assert all[..k + 1] == all[..k] + [node];
      assert forall n :: n in all[..k] ==> n !in rest && n != node;
      assert node !in rest && prev !in rest && prev != node;
      ghost var front := if kept == [] then [] else kept[..|kept| - 1];
      assert kept != [] ==> prev in all[..k];
      assert kept != [] ==> prev !in front && node !in front && head != prev && head != node;
      prev.next := node.next;
      node.next := null;
      assert Leads(head, kept);
    }

    method HandBack(node: Node, ghost all: seq<Node>, ghost was: seq<Status>, ghost k: nat)
      requires HaveContexts(all) && |was| == |all| && Marked(all, was, k)
      requires forall i, j :: 0 <= i < j < |all| ==> all[i].ctx != all[j].ctx
      requires k < |all| && node == all[k] && was[k] == WAIT_REMOVE
      modifies node.ctx
      ensures Marked(all, was, k + 1)
    {
      node.ctx.status := DONE;
    }

    /** `haclog_handle_remove_thread_ctx`: hands back and unlinks every node whose context waits for it. */
    method HandleRemove()
      requires Valid()
      modifies this`list, head, list, set n | n in list :: n.ctx
      ensures Valid() && adds == old(adds) && HaveContexts(old(list))
      ensures list == Staying(old(list), old(Statuses(list)))
      ensures Marked(old(list), old(Statuses(list)), |old(list)|)
      ensures forall n :: n in old(list) && n !in list ==> n.next == null
    {
      hide Swept, Staying, Statuses, IsList, Leads, Apart, Marked;
      Acyclic(head.next, list);
      ApartFacts(adds, list);
      ghost var all, was, k := list, Statuses(list), 0;
      ghost var kept: seq<Node> := [];
      SweptStart(head, all, was);
      MarkedStart(all);
      var prev := head;
      var node := prev.next;
      SweptNode(head, all, was, k, kept);
      while node != null
        invariant Swept(head, all, was, k, kept) && prev == Last(head, kept) && node == prev.next
        invariant prev == head || prev in all
        invariant if node == null then k == |all| else k < |all| && node == all[k]
        invariant IsList(addHead.next, adds) && Marked(all, was, k)
        decreases |all| - k
      {
        MarkedKeep(all, was, k);
        var status := node.ctx.status;
        if status == WAIT_REMOVE {
          assert node !in adds && prev !in adds && addHead != node && addHead != prev;
          HandBack(node, all, was, k);
          Unlink(prev, node, all, was, k, kept);
          node := prev.next;
        } else {
          SweptKeep(head, all, was, k, kept);
          kept := kept + [node];
          prev := node;
          node := node.next;
        }
        k := k + 1;
        SweptNode(head, all, was, k, kept);
      }
      SweptEnd(head, all, was, kept);
      ApartKept(adds, all, kept);
      list := kept;
    }
  }

  lemma {:induction false} ReversePush(l: seq<Node>, n: Node)
    ensures Reverse(l + [n]) == [n] + Reverse(l)
  {
    if l != [] {
      assert (l + [n])[1..] == l[1..] + [n];
      ReversePush(l[1..], n);
    }
  }

  lemma {:induction false} ReverseStep(l: seq<Node>, k: nat)
    requires k < |l|
    ensures Reverse(l[..k + 1]) == [l[k]] + Reverse(l[..k])
  {
    assert l[..k + 1] == l[..k] + [l[k]];
    ReversePush(l[..k], l[k]);
  }

  lemma {:induction false} ReverseNone()
    ensures Reverse([]) == []
  {
  }

  /** Moving the add list loses and doubles no node: it is reversed. */
  lemma {:induction false} ReverseIs(l: seq<Node>)
    ensures multiset(Reverse(l)) == multiset(l) && |Reverse(l)| == |l|
    ensures forall i :: 0 <= i < |l| ==> Reverse(l)[i] == l[|l| - 1 - i]
  {
    if l != [] {
      ReverseIs(l[1..]);
      assert l == [l[0]] + l[1..];
    }
  }

  /** A removal keeps exactly the nodes that did not wait, each behind those that stay before it. */
  lemma {:induction false} StayingAt(l: seq<Node>, was: seq<Status>, i: nat)
    requires |l| == |was| && NoRepeats(l) && i < |l|
    ensures l[i] in Staying(l, was) <==> was[i] != WAIT_REMOVE
    ensures was[i] != WAIT_REMOVE ==>
      var before := |Staying(l[..i], was[..i])|;
      before < |Staying(l, was)| && Staying(l, was)[before] == l[i]
  {
    var n := |l| - 1;
    StayingAmong(l[..n], was[..n]);
    if i < n {
      StayingAt(l[..n], was[..n], i);
      assert l[..n][..i] == l[..i] && was[..n][..i] == was[..i];
    }
  }

  lemma {:induction false} StayingAmong(l: seq<Node>, was: seq<Status>)
    requires |l| == |was|
    ensures forall n :: n in Staying(l, was) ==> n in l
  {
    if l != [] {
      StayingAmong(l[..|l| - 1], was[..|l| - 1]);
    }
  }
}
