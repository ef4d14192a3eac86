/** The list of threads suspended on a kernel object: rt_ipc_list_suspend. */
module WaitList {
  import opened Lists

  // The priority of thread t; a smaller number is stronger.
  function Rank(prio: seq<nat>, t: nat): nat { if t < |prio| then prio[t] else 0 }

  // What is right of a place k for thread t: with RT_IPC_FLAG_PRIO nobody in front is weaker and
  // everybody behind is; else everybody is in front.
  ghost predicate RightPlace(list: seq<nat>, prio: seq<nat>, t: nat, byPriority: bool, k: nat) {
    && k <= |list|
    && (!byPriority ==> k == |list|)
    && (byPriority && t < |prio| ==>
          && (forall i :: 0 <= i < k && list[i] < |prio| ==> prio[list[i]] <= prio[t])
          && (k < |list| && list[k] < |prio| ==> prio[t] < prio[list[k]]))
  }

  // r is the list with t put in at place k.
  ghost predicate PutIn(list: seq<nat>, k: nat, t: nat, r: seq<nat>) {
    k <= |list| && |r| == |list| + 1 && r[..k] == list[..k] && r[k] == t && r[k + 1..] == list[k..]
  }

  // r is the list with t put in at its right place.
  ghost predicate Joined(list: seq<nat>, prio: seq<nat>, t: nat, byPriority: bool, r: seq<nat>) {
    exists k :: RightPlace(list, prio, t, byPriority, k) && PutIn(list, k, t, r)
  }

  // The first thread of the list, if there is one, is resumed.
  ghost predicate FirstWoken(list: seq<nat>, woken: set<nat>, rest: seq<nat>, now: set<nat>) {
    if list == [] then rest == [] && now == woken else rest == list[1..] && now == woken + {list[0]}
  }

  // The place of a thread of rank p with RT_IPC_FLAG_PRIO: before the first weaker thread.
  function Place(list: seq<nat>, prio: seq<nat>, p: nat): (k: nat)
    ensures k <= |list|
    ensures forall i :: 0 <= i < k ==> Rank(prio, list[i]) <= p
    ensures k < |list| ==> p < Rank(prio, list[k])
  {
    if list == [] || p < Rank(prio, list[0]) then 0 else 1 + Place(list[1..], prio, p)
  }

  // Strongest first.
  ghost predicate ByRank(list: seq<nat>, prio: seq<nat>) {
    forall i, j :: 0 <= i < j < |list| ==> Rank(prio, list[i]) <= Rank(prio, list[j])
  }

  // The list stays ordered, and a thread goes behind the threads of its own rank: among
  // equals, first come is first served.
  lemma {:induction false} PlaceKeepsOrder(list: seq<nat>, prio: seq<nat>, t: nat)
    requires ByRank(list, prio)
    ensures var k := Place(list, prio, Rank(prio, t));
            && ByRank(Ins(list, k, t), prio)
            && forall i :: k <= i < |list| ==> Rank(prio, t) < Rank(prio, list[i])
  {
    var k := Place(list, prio, Rank(prio, t));
    forall i | k <= i < |list|
      ensures Rank(prio, t) < Rank(prio, list[i])
    {
      assert k < i ==> Rank(prio, list[k]) <= Rank(prio, list[i]);
    }
    StaysOrdered(list, prio, t, k);
  }

  lemma {:induction false} StaysOrdered(list: seq<nat>, prio: seq<nat>, t: nat, k: nat)
    requires ByRank(list, prio) && k <= |list|
    requires forall i :: 0 <= i < k ==> Rank(prio, list[i]) <= Rank(prio, t)
    requires forall i :: k <= i < |list| ==> Rank(prio, t) < Rank(prio, list[i])
    ensures ByRank(Ins(list, k, t), prio)
  {
    var r := Ins(list, k, t);
    forall i, j | 0 <= i < j < |r|
      ensures Rank(prio, r[i]) <= Rank(prio, r[j])
    {
      InsAt(list, k, t, i);
      InsAt(list, k, t, j);
    }
  }

  // Where a thread is put into the list.
  function PlaceOf(list: seq<nat>, prio: seq<nat>, t: nat, byPriority: bool): (k: nat)
    ensures RightPlace(list, prio, t, byPriority, k)
  {
    if byPriority then Place(list, prio, Rank(prio, t)) else |list|
  }

  lemma {:induction false} PlacedIn(list: seq<nat>, prio: seq<nat>, t: nat, byPriority: bool)
    ensures Joined(list, prio, t, byPriority, Ins(list, PlaceOf(list, prio, t, byPriority), t))
  {
    var k := PlaceOf(list, prio, t, byPriority);
    assert PutIn(list, k, t, Ins(list, k, t));
  }

  // The search of rt_ipc_list_suspend.
  method Suspend(list: seq<nat>, prio: seq<nat>, t: nat, byPriority: bool) returns (r: seq<nat>)
    ensures r == Ins(list, PlaceOf(list, prio, t, byPriority), t)
    ensures Joined(list, prio, t, byPriority, r)
  {
    PlacedIn(list, prio, t, byPriority);
    if !byPriority {
      return list + [t];
    }
    var n := 0;
    while n != |list| && Rank(prio, list[n]) <= Rank(prio, t)
      invariant 0 <= n <= Place(list, prio, Rank(prio, t))
    {
      n := n + 1;
    }
    r := list[..n] + [t] + list[n..];
  }

  // A thread whose time is up leaves its place, and the others keep their order.
  lemma {:induction false} DelPutIn(list: seq<nat>, t: nat)
    requires Distinct(list) && t in list
    ensures exists k: nat :: k < |list| && PutIn(Del(list, t), k, t, list)
  {
    var k :| 0 <= k < |list| && list[k] == t;
    DelAt(list, k);
    assert PutIn(Del(list, t), k, t, list);
  }

  // Threads suspended until there is one of n things for them, and threads resumed that have not
  // looked again: while some are suspended, as many resumed ones as there are things have yet to
  // look.
  ghost predicate Waits(waiting: seq<nat>, woken: set<nat>, n: nat) {
    Distinct(waiting) && SetOf(waiting) !! woken && (waiting != [] ==> n <= |woken|)
  }

  lemma {:induction false} WakeFirst(waiting: seq<nat>, woken: set<nat>, n: nat)
    requires Waits(waiting, woken, n)
    ensures waiting != [] ==> Waits(waiting[1..], woken + {waiting[0]}, n + 1)
    ensures waiting != [] ==> SetOf(waiting[1..]) == SetOf(waiting) - {waiting[0]}
    ensures waiting != [] ==> waiting[0] in SetOf(waiting)
  {
    if waiting != [] {
      TailOf(waiting);
    }
  }

  // One of the things is taken, by a thread that has looked now.
  lemma {:induction false} OneTaken(waiting: seq<nat>, woken: set<nat>, n: nat, t: nat)
    requires Waits(waiting, woken, n) && n > 0
    ensures Waits(waiting, woken - {t}, n - 1)
  {
  }

  // There is none, and another thread waits.
  lemma {:induction false} OneWaits(waiting: seq<nat>, woken: set<nat>, k: nat, t: nat)
    requires Waits(waiting, woken, 0) && k <= |waiting| && t !in waiting
    ensures Waits(Ins(waiting, k, t), woken - {t}, 0)
  {
    InsDistinct(waiting, k, t);
  }

  lemma {:induction false} OneLeaves(waiting: seq<nat>, woken: set<nat>, n: nat, t: nat)
    requires Waits(waiting, woken, n)
    ensures Waits(Del(waiting, t), woken, n)
  {
    DelDistinct(waiting, t);
  }
}
