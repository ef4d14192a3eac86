/** The timer queue as one value, and what its operations keep. */
module TimerState {
  import opened Lists
  import opened TimerRows

  datatype Timers = Timers(
    tick: int,              // the current tick
    timeout: seq<int>,      // deadlines, by timer
    rows: seq<seq<nat>>,    // the skip list
    top: seq<nat>,          // the first row a pending timer is linked into
    stamp: seq<nat>,        // when it was started
    clock: nat)
  {
    // the pending timers, in the order they will fire
    ghost function Queue(): seq<nat> { Bottom(rows) }

    ghost function Pending(): set<nat> { set t | t in Queue() }

    ghost predicate Inv() {
      && |top| == |stamp| == |timeout|
      && Leveled(rows, top) && Sorted(Queue(), timeout, tick - 1, stamp)
      && (forall t :: t in Queue() ==> t < |stamp| && stamp[t] < clock)
    }

    // No pending deadline has passed.
    ghost predicate NothingOverdue() {
      forall t :: t in Queue() && t < |timeout| ==> 1 <= Key(timeout[t], tick - 1)
    }

    // No pending deadline has come.
    ghost predicate NothingDue() {
      forall t :: t in Queue() ==> t < |timeout| && 2 <= Key(timeout[t], tick - 1)
    }

    // The timers in s come in the order of their deadlines and, among equals, of starting.
    ghost predicate InOrder(s: seq<nat>) {
      forall i, j {:trigger Earlier(s[i], s[j], timeout, tick - 1, stamp)} ::
        0 <= i < j < |s| ==> Earlier(s[i], s[j], timeout, tick - 1, stamp)
    }

    // u is this after timer t was taken off the queue.
    ghost predicate Stopped(u: Timers, t: nat) {
      && u == this.(rows := u.rows)
      && u.Queue() == Del(Queue(), t) && u.Pending() == Pending() - {t}
      && (NothingOverdue() ==> u.NothingOverdue())
    }

    // u is this after timer t, which was not pending, was linked.
    ghost predicate Linked(u: Timers, t: nat) {
      && t < |timeout|
      && u == this.(rows := u.rows, top := u.top)
      && u.Queue() == Ins(Queue(), StopAt(Queue(), timeout, timeout[t]), t)
      && u.Pending() == Pending() + {t}
      && (NothingOverdue() ==> u.NothingOverdue())
    }

    // u is this after timer t was started with deadline d.
    ghost predicate Started(u: Timers, t: nat, d: int) {
      && t < |timeout| == |stamp|
      && u == Restamped(t, d).(rows := u.rows, top := u.top)
      && (var q := Del(Queue(), t); u.Queue() == Ins(q, StopAt(q, u.timeout, d), t))
      && u.Pending() == Pending() + {t}
      && (NothingOverdue() ==> u.NothingOverdue())
    }

    ghost function Restamped(t: nat, d: int): Timers
      requires t < |timeout| == |stamp|
    {
      this.(timeout := timeout[t := d], stamp := stamp[t := clock], clock := clock + 1)
    }
  }

  lemma {:induction false} UnlinkKeeps(v: Timers, t: nat, cut: seq<seq<nat>>)
    requires v.Inv() && t < |v.timeout|
    requires Removed(v.rows, cut, t)
    ensures var u := v.(rows := cut); u.Inv() && v.Stopped(u, t)
  {
    LeveledDel(v.rows, cut, v.top, t);
    DelSorted(v.Queue(), v.timeout, v.tick - 1, v.stamp, t);
    forall x
      ensures x in Del(v.Queue(), t) <==> x in v.Queue() && x != t
    {
      DelMember(v.Queue(), t, x);
    }
  }

  // Off the queue and linked again with a new deadline, a timer is started.
  lemma {:induction false} StartedBy(v: Timers, u: Timers, w: Timers, t: nat, d: int)
    requires t < |u.timeout| && v.Stopped(u, t) && t !in u.Queue() && u.Started(w, t, d)
    ensures v.Started(w, t, d)
  {
    DelAbsent(u.Queue(), t);
  }

  // A timer that is not linked may get a new deadline.
  lemma {:induction false} RestampKeeps(v: Timers, t: nat, d: int)
    requires v.Inv() && t < |v.timeout| && t !in v.Queue()
    ensures v.Restamped(t, d).Inv() && (v.NothingOverdue() ==> v.Restamped(t, d).NothingOverdue())
  {
    var u := v.Restamped(t, d);
    SortedElsewhere(v.Queue(), v.timeout, v.stamp, u.timeout, u.stamp, v.tick - 1);
  }

  lemma {:induction false} QueueSteady(v: Timers, d: int)
    requires v.Inv() && 1 <= Key(d, v.tick - 1) <= HALF
    ensures Steady(v.Queue(), v.timeout, d)
  {
    SortedSteady(v.Queue(), v.timeout, v.tick - 1, v.stamp, d);
  }

  lemma {:induction false} LinkLevels(v: Timers, t: nat, ins: seq<seq<nat>>, h: nat)
    requires v.Inv() && t < |v.timeout| && t !in v.Queue()
    requires 1 <= Key(v.timeout[t], v.tick - 1) <= HALF
    requires Inserted(v.rows, ins, v.timeout, v.timeout[t], h, t)
    ensures var u, d := v.(rows := ins, top := v.top[t := h]), v.timeout[t];
            && Leveled(u.rows, u.top) && u.Queue() == Ins(v.Queue(), StopAt(v.Queue(), v.timeout, d), t)
  {
    var d := v.timeout[t];
    SortedSteady(v.Queue(), v.timeout, v.tick - 1, v.stamp, d);
    LeveledIns(v.rows, ins, v.top, h, v.timeout, d, t);
  }

  // The queue and the flags after a timer was linked.
  lemma {:induction false} LinkQueue(v: Timers, u: Timers, t: nat)
    requires v.Inv() && t < |v.timeout| && t !in v.Queue()
    requires 1 <= Key(v.timeout[t], v.tick - 1) <= HALF && v.stamp[t] < v.clock
    requires forall x :: x in v.Queue() && x < |v.stamp| ==> v.stamp[x] < v.stamp[t]
    requires u.Queue() == Ins(v.Queue(), StopAt(v.Queue(), v.timeout, v.timeout[t]), t)
    requires u == v.(rows := u.rows, top := u.top)
    ensures Sorted(u.Queue(), u.timeout, u.tick - 1, u.stamp)
    ensures u.Pending() == v.Pending() + {t}
    ensures forall x :: x in u.Queue() ==> x < |u.stamp| && u.stamp[x] < u.clock
    ensures v.NothingOverdue() ==> u.NothingOverdue()
  {
    InsSorted(v.Queue(), v.timeout, v.tick - 1, v.stamp, t);
    InsMembers(v.Queue(), StopAt(v.Queue(), v.timeout, v.timeout[t]), t);
  }

  // Linked where the scan of each row stops, a timer is where a linear scan of the queue
  // would put it, and everything is kept.
  lemma {:induction false} LinkKeeps(v: Timers, t: nat, ins: seq<seq<nat>>, h: nat)
    requires v.Inv() && t < |v.timeout| && t !in v.Queue()
    requires 1 <= Key(v.timeout[t], v.tick - 1) <= HALF && v.stamp[t] < v.clock
    requires forall x :: x in v.Queue() && x < |v.stamp| ==> v.stamp[x] < v.stamp[t]
    requires Inserted(v.rows, ins, v.timeout, v.timeout[t], h, t)
    ensures var u := v.(rows := ins, top := v.top[t := h]); u.Inv() && v.Linked(u, t)
  {
    LinkLevels(v, t, ins, h);
    LinkQueue(v, v.(rows := ins, top := v.top[t := h]), t);
  }

  // Linked wherever the search stops.
  ghost function LinkedAt(v: Timers, ins: seq<seq<nat>>, t: nat, h: nat): Timers
    requires t < |v.top|
  {
    v.(rows := ins, top := v.top[t := h])
  }

  // u is v after t was started, unless t was in the queue.
  ghost predicate LinkedRight(v: Timers, u: Timers, t: nat, d: int) {
    (u.Inv() <==> t !in v.Queue()) && (t !in v.Queue() ==> v.Started(u, t, d))
  }

  // A timer that gets a new deadline ahead and is linked where the search stops leaves the queue
  // as it should be if and only if it was not in the queue already.
  lemma {:induction false} LinkExactly(v: Timers, t: nat, d: int, ins: seq<seq<nat>>, pos: seq<nat>, h: nat)
    requires v.Inv() && t < |v.timeout| && 1 <= Key(d, v.tick - 1) <= HALF
    requires InsertedAt(v.rows, ins, pos, h, t)
    requires var w := v.Restamped(t, d);
             Steady(v.Queue(), w.timeout, d) ==> Inserted(v.rows, ins, w.timeout, d, h, t)
    ensures LinkedRight(v, LinkedAt(v.Restamped(t, d), ins, t, h), t, d)
  {
    var w := v.Restamped(t, d);
    if t in v.Queue() {
      LinkedTwice(v.Queue(), pos[|pos| - 1], LinkedAt(w, ins, t, h), t);
    } else {
      RestampKeeps(v, t, d);
      QueueSteady(w, d);
      LinkKeeps(w, t, ins, h);
      DelAbsent(v.Queue(), t);
    }
  }

  // In the queue twice, a timer would have to be earlier than itself.
  lemma {:induction false} LinkedTwice(q: seq<nat>, p: nat, u: Timers, t: nat)
    requires t in q && p <= |q| && u.Queue() == Ins(q, p, t)
    ensures !u.Inv()
  {
    var r := u.Queue();
    var k :| 0 <= k < |q| && q[k] == t;
    var i, j := if k < p then k else p, if k < p then p else k + 1;
    assert r[i] == t == r[j];
    assert u.Inv() ==> Earlier(r[i], r[j], u.timeout, u.tick - 1, u.stamp);
  }
}
