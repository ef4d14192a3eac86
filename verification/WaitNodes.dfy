/** Waiting lists and ready queues as they are kept: nodes on a ring behind a list head. */
module WaitNodes {
  import opened Lists
  import opened WaitList
  import opened RtList

  // The list at head holds the threads of list.
  ghost predicate Holds(l: Links, head: nat, list: seq<nat>) { l.Ring([head] + list) }

  // The node behind place k: that of the thread at place k of the list, or the head.
  lemma {:induction false} StepOn(l: Links, head: nat, list: seq<nat>, k: nat)
    requires Holds(l, head, list) && k <= |list|
    ensures var r := [head] + list;
            && r[k] < |l.next| && l.next[r[k]] == Next(head, list, k) < |l.next|
            && (k < |list| ==> list[k] != head)
  {
    var r := [head] + list;
    assert l.Linked(r, k);
    if k < |list| {
      assert r[k + 1] == list[k] && r[0] == head && l.Linked(r, k + 1);
    } else {
      assert l.Linked(r, 0);
    }
  }

  lemma {:induction false} Onward(l: Links, head: nat, list: seq<nat>, k: nat)
    requires Holds(l, head, list) && k < |list|
    ensures list[k] < |l.next| && l.next[list[k]] == Next(head, list, k + 1) < |l.next|
    ensures k + 1 < |list| ==> list[k + 1] != head
  {
    StepOn(l, head, list, k + 1);
    assert ([head] + list)[k + 1] == list[k];
  }

  ghost function Next(head: nat, list: seq<nat>, k: nat): nat { if k < |list| then list[k] else head }

  // rt_ipc_list_suspend
  method SuspendNode(nodes: Nodes, head: nat, t: nat, prio: seq<nat>, byPriority: bool, ghost list: seq<nat>)
    requires nodes.Valid() && Holds(nodes.Abs(), head, list)
    requires t != head && t !in list && t < nodes.next.Length
    modifies nodes.next, nodes.prev
    ensures Holds(nodes.Abs(), head, Ins(list, PlaceOf(list, prio, t, byPriority), t))
  {
    if byPriority {
      InsertSorted(nodes, head, t, prio, list);
    } else {
      Append(nodes, head, t, list);
    }
  }

  // The search for the first weaker thread; the head if there is none.
  method FindWeaker(nodes: Nodes, head: nat, p: nat, prio: seq<nat>, ghost list: seq<nat>) returns (n: nat)
    requires nodes.Valid() && Holds(nodes.Abs(), head, list)
    ensures n == Next(head, list, Place(list, prio, p))
  {
    StepOn(nodes.Abs(), head, list, 0);
    n := nodes.next[head];
    ghost var k := 0;
    while n != head && Rank(prio, n) <= p
      invariant 0 <= k <= Place(list, prio, p)
      invariant n == Next(head, list, k) < nodes.next.Length && (k < |list| ==> n != head)
      decreases |list| - k
    {
      Onward(nodes.Abs(), head, list, k);
      n, k := nodes.next[n], k + 1;
    }
  }

  method InsertSorted(nodes: Nodes, head: nat, t: nat, prio: seq<nat>, ghost list: seq<nat>)
    requires nodes.Valid() && Holds(nodes.Abs(), head, list)
    requires t != head && t !in list && t < nodes.next.Length
    modifies nodes.next, nodes.prev
    ensures Holds(nodes.Abs(), head, Ins(list, Place(list, prio, Rank(prio, t)), t))
  {
    var n := FindWeaker(nodes, head, Rank(prio, t), prio, list);
    ghost var k := Place(list, prio, Rank(prio, t));
    Before(head, list, k, t);
    nodes.InsertBefore(n, t, [head] + list, if k < |list| then k + 1 else 0);
  }

  // In front of a node is its place, in front of the head the end.
  lemma {:induction false} Before(head: nat, list: seq<nat>, k: nat, t: nat)
    requires k <= |list|
    ensures [head] + Ins(list, k, t) == (if k < |list| then Ins([head] + list, k + 1, t) else [head] + list + [t])
  {
    assert k == |list| ==> Ins(list, k, t) == list + [t];
    assert k < |list| ==> ([head] + list)[..k + 1] == [head] + list[..k] && ([head] + list)[k + 1..] == list[k..];
  }

  // rt_schedule_insert_thread and RT_IPC_FLAG_FIFO: behind all others
  method Append(nodes: Nodes, head: nat, t: nat, ghost list: seq<nat>)
    requires nodes.Valid() && Holds(nodes.Abs(), head, list)
    requires t != head && t !in list && t < nodes.next.Length
    modifies nodes.next, nodes.prev
    ensures Holds(nodes.Abs(), head, Ins(list, |list|, t)) && Ins(list, |list|, t) == list + [t]
  {
    Before(head, list, |list|, t);
    nodes.InsertBefore(head, t, [head] + list, 0);
  }

  // rt_ipc_list_resume: the first thread leaves the list.
  method ResumeFirst(nodes: Nodes, head: nat, ghost list: seq<nat>) returns (t: nat)
    requires nodes.Valid() && Holds(nodes.Abs(), head, list) && list != []
    modifies nodes.next, nodes.prev
    ensures t == list[0] && Holds(nodes.Abs(), head, list[1..]) && nodes.Abs().Ring([t])
  {
    StepOn(nodes.Abs(), head, list, 0);
    t := nodes.next[head];
    Leave(nodes, t, head, list, 0);
    DelAt(list, 0);
    assert list[..0] + list[1..] == list[1..];
  }

  // rt_thread_timeout, rt_schedule_remove_thread: a thread leaves from its place.
  method Leave(nodes: Nodes, t: nat, ghost head: nat, ghost list: seq<nat>, ghost k: nat)
    requires nodes.Valid() && Holds(nodes.Abs(), head, list) && k < |list| && list[k] == t
    modifies nodes.next, nodes.prev
    ensures Holds(nodes.Abs(), head, Del(list, t)) && Distinct(list) && nodes.Abs().Ring([t])
  {
    ghost var r := [head] + list;
    assert r[k + 1] == t && r[1..] == list;
    TailOf(r);
    assert Del(r, t) == [head] + Del(list, t);
    nodes.Remove(t, r, k + 1);
  }
}
