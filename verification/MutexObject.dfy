/** rt_mutex_take and rt_mutex_release, on a mutex and the threads it concerns; each is one
    event of MutexState. */
module MutexObject {
  import opened Wrappers
  import opened Lists
  import opened WaitList
  import opened MutexState

  // The fields of the thread control blocks that mutexes use.
  class Threads {
    var priority: seq<nat>             // current_priority
    var blocked: seq<Option<nat>>      // the mutex the thread is suspended on

    constructor (base: seq<nat>)
      ensures priority == base && blocked == seq(|base|, _ => None)
    {
      priority, blocked := base, seq(|base|, _ => None);
    }

    // rt_thread_control with RT_THREAD_CTRL_CHANGE_PRIORITY
    method ChangePriority(t: nat, p: nat)
      requires t < |priority|
      modifies this`priority
      ensures priority == old(priority)[t := p]
    {
      priority := priority[t := p];
    }
  }

  // The fields of a mutex and of the threads.
  datatype Fields = Fields(x: Mutex, prio: seq<nat>, blocked: seq<Option<nat>>) {
    ghost predicate Recursive(f: Fields) { f == this.(x := x.(hold := x.hold + 1)) }

    ghost predicate Acquired(t: nat, f: Fields) {
      t < |prio| && f == this.(x := x.(value := 0, owner := Some(t), original := prio[t], hold := 1))
    }

    // t goes onto the list of waiters, and the owner is as strong as before or as t.
    ghost predicate Waiting(t: nat, m: nat, f: Fields) {
      && x.owner.Some? && x.owner.value < |prio| && t < |prio| && t < |blocked|
      && Joined(x.waiters, f.prio, t, x.byPriority, f.x.waiters)
      && f == this.(x := x.(waiters := f.x.waiters), blocked := blocked[t := Some(m)],
                    prio := prio[x.owner.value := Stronger(prio[x.owner.value], prio[t])])
    }

    ghost predicate StillHeld(f: Fields) { x.hold > 1 && f == this.(x := x.(hold := x.hold - 1)) }

    // Thread t gives the mutex up and gets back the priority it had when it became the owner.
    ghost predicate GivenUp(t: nat, f: Fields) {
      && t < |prio| && x.hold == 1
      && f.prio == prio[t := x.original]
      && if x.waiters == [] then
           f.blocked == blocked && f.x == x.(value := 1, owner := None, original := NO_PRIORITY, hold := 0)
         else
           var w := x.waiters[0];
           && w < |blocked| && w < |f.prio| && f.blocked == blocked[w := None]
           && f.x == x.(owner := Some(w), original := f.prio[w], hold := 1, waiters := x.waiters[1..])
    }
  }

  ghost function Stronger(a: nat, b: nat): (r: nat)
    ensures r <= a && r <= b && (r == a || r == b)
  {
    if b < a then b else a
  }

  lemma {:induction false} WaitingNext(s: State, t: nat, m: nat, p: seq<nat>, ws: seq<nat>)
    requires s.Books() && s.Enabled(Event.Take(t, m, true)) && s.OwnerOf(m).Some? && s.OwnerOf(m) != Some(t)
    requires var o := s.OwnerOf(m).value; p == s.prio[o := Stronger(s.prio[o], s.prio[t])]
    requires var x := s.mutexes[m]; ws == Ins(x.waiters, PlaceOf(x.waiters, p, t, x.byPriority), t)
    ensures s.Inherit(t, m).Enqueue(t, m)
            == State(p, s.blocked[t := Some(m)], s.mutexes[m := s.mutexes[m].(waiters := ws)])
  {
    assert s.Inherit(t, m).prio == p;
  }

  lemma {:induction false} WaitingIs(f: Fields, t: nat, m: nat, p: seq<nat>, ws: seq<nat>)
    requires f.x.owner.Some? && f.x.owner.value < |f.prio| && t < |f.prio| && t < |f.blocked|
    requires p == f.prio[f.x.owner.value := Stronger(f.prio[f.x.owner.value], f.prio[t])]
    requires ws == Ins(f.x.waiters, PlaceOf(f.x.waiters, p, t, f.x.byPriority), t)
    ensures f.Waiting(t, m, Fields(f.x.(waiters := ws), p, f.blocked[t := Some(m)]))
  {
    PlacedIn(f.x.waiters, p, t, f.x.byPriority);
  }

  datatype Outcome = Taken | TimedOut | Suspended

  class MutexObject {
    const id: nat
    const byPriority: bool
    var value: nat
    var owner: Option<nat>
    var original: nat
    var hold: nat
    var waiters: seq<nat>

    ghost function View(): Mutex
      reads this
    {
      Mutex(byPriority, value, owner, original, hold, waiters)
    }

    ghost function At(th: Threads): Fields
      reads this, th
    {
      Fields(View(), th.priority, th.blocked)
    }

    // The mutex and the threads are as in s.
    ghost predicate In(s: State, th: Threads)
      reads this, th
    {
      id < |s.mutexes| && s.mutexes[id] == View() && s.prio == th.priority && s.blocked == th.blocked && s.Books()
    }

    // What s becomes if nothing but this mutex and the threads has changed.
    ghost function Into(s: State, th: Threads): State
      requires id < |s.mutexes|
      reads this, th
    {
      State(th.priority, th.blocked, s.mutexes[id := View()])
    }

    // rt_mutex_init
    constructor (name: nat, flag: bool)
      ensures id == name && View() == Fresh(flag)
    {
      id, byPriority := name, flag;
      value, owner, original, hold, waiters := 1, None, NO_PRIORITY, 0, [];
    }

    // rt_mutex_take by thread t, up to where it has the mutex, gives up, or is suspended
    method Take(t: nat, wait: bool, th: Threads, ghost s: State) returns (r: Outcome)
      requires In(s, th) && s.Enabled(Event.Take(t, id, wait))
      modifies this, th
      ensures Into(s, th) == s.Next(Event.Take(t, id, wait)) && Into(s, th).Books()
      ensures r.Taken? <==> owner == Some(t)
      ensures r.Suspended? <==> t in waiters
      ensures r.TimedOut? <==> old(owner).Some? && old(owner) != Some(t) && !wait
      ensures var f := old(At(th));
              if f.x.owner == Some(t) then f.Recursive(At(th))
              else if f.x.owner.None? then f.Acquired(t, At(th))
              else if wait then f.Waiting(t, id, At(th)) else At(th) == f
    {
      BooksNext(s, Event.Take(t, id, wait));
      assert s.Book(id);
      if owner == Some(t) {
        hold := hold + 1;
        return Taken;
      }
      if value > 0 {
        value := value - 1;
        owner := Some(t);
        original := th.priority[t];
        hold := hold + 1;
        return Taken;
      }
      if !wait {
        return TimedOut;
      }
      Wait(t, th, s);
      return Suspended;
    }

    // The owner inherits the priority of t.
    method Lend(t: nat, th: Threads)
      requires owner.Some? && t < |th.priority| && owner.value < |th.priority|
      modifies th`priority
      ensures var p, o := old(th.priority), owner.value; th.priority == p[o := Stronger(p[o], p[t])]
    {
      if th.priority[t] < th.priority[owner.value] {
        th.ChangePriority(owner.value, th.priority[t]);
      }
    }

    // The owner inherits the priority of t, and t goes onto the list of waiters.
    method Wait(t: nat, th: Threads, ghost s: State)
      requires In(s, th) && s.Enabled(Event.Take(t, id, true)) && value == 0 && owner.Some? && owner != Some(t)
      modifies this`waiters, th
      ensures Into(s, th) == s.Inherit(t, id).Enqueue(t, id) && t in waiters
      ensures old(At(th)).Waiting(t, id, At(th))
    {
      ghost var f := At(th);
      Lend(t, th);
      ghost var k := PlaceOf(waiters, th.priority, t, byPriority);
      InsMembers(waiters, k, t);
      WaitingNext(s, t, id, th.priority, Ins(waiters, k, t));
      WaitingIs(f, t, id, th.priority, Ins(waiters, k, t));
      th.blocked := th.blocked[t := Some(id)];
      waiters := Suspend(waiters, th.priority, t, byPriority);
    }

    // rt_mutex_release by thread t; woke says whether a waiter was resumed
    method Release(t: nat, th: Threads, ghost s: State) returns (ok: bool, woke: bool)
      requires In(s, th) && s.Enabled(Event.Release(t, id))
      modifies this, th
      ensures Into(s, th) == s.Next(Event.Release(t, id)) && Into(s, th).Books()
      ensures ok <==> old(owner) == Some(t)
      ensures woke <==> ok && old(hold) == 1 && old(waiters) != []
      ensures woke ==>
        && owner == Some(old(waiters)[0])
        && old(waiters)[0] < |th.blocked| && th.blocked[old(waiters)[0]].None?
      ensures var f := old(At(th));
              if f.x.owner != Some(t) then At(th) == f
              else f.StillHeld(At(th)) || f.GivenUp(t, At(th))
    {
      BooksNext(s, Event.Release(t, id));
      assert s.Book(id);
      if owner != Some(t) {
        return false, false;
      }
      hold := hold - 1;
      if hold != 0 {
        return true, false;
      }
      if original != th.priority[t] {
        th.ChangePriority(t, original);
      }
      woke := HandOn(th);
      return true, woke;
    }

    // The mutex goes to the first waiter, or becomes available.
    method HandOn(th: Threads) returns (woke: bool)
      requires forall w :: w in waiters ==> w < |th.priority| && w < |th.blocked|
      modifies this, th`blocked
      ensures var ws, b := old(waiters), old(th.blocked);
              if ws == [] then
                && !woke && th.blocked == b
                && View() == old(View()).(value := old(value) + 1, owner := None, original := NO_PRIORITY)
              else woke && ws[0] < |b| && ws[0] < |th.priority| && th.blocked == b[ws[0] := None]
                   && View() == old(View()).(owner := Some(ws[0]), original := th.priority[ws[0]],
                        hold := old(hold) + 1, waiters := ws[1..])
    {
      if waiters != [] {
        var t := waiters[0];
        assert t in waiters;
        owner := Some(t);
        original := th.priority[t];
        hold := hold + 1;
        waiters := waiters[1..];
        th.blocked := th.blocked[t := None];
        return true;
      }
      value := value + 1;
      owner := None;
      original := NO_PRIORITY;
      return false;
    }

    // rt_thread_timeout for a waiter
    method Expire(t: nat, th: Threads, ghost s: State)
      requires In(s, th) && s.Enabled(Event.Expire(t)) && th.blocked[t] == Some(id)
      modifies this`waiters, th`blocked
      ensures Into(s, th) == s.Next(Event.Expire(t)) && Into(s, th).Books()
      ensures th.blocked == old(th.blocked)[t := None]
      ensures exists k: nat :: k < |old(waiters)| && PutIn(waiters, k, t, old(waiters))
    {
      assert s.Book(id);
      DelPutIn(waiters, t);
      BooksNext(s, Event.Expire(t));
      waiters := Del(waiters, t);
      th.blocked := th.blocked[t := None];
    }
  }
}
