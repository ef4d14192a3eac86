/** The hard timers: rt_timer_start, rt_timer_stop and rt_timer_check over the skip list.
    The fields of the timer control blocks are kept one sequence a field, indexed by
    timer. */
module Timer {
  import opened Lists
  import opened TimerRows
  import opened TimerState
  import opened TimerSweep

  class TimerQueue {
    var tick: int
    var timeout: seq<int>       // timeout_tick
    var init: seq<int>          // init_tick
    var active: seq<bool>       // RT_TIMER_FLAG_ACTIVATED
    var periodic: seq<bool>     // RT_TIMER_FLAG_PERIODIC
    var onFire: seq<seq<Command>>   // what timeout_func calls
    var rows: seq<seq<nat>>     // rt_timer_list, the last row holds every pending timer
    var randomNr: nat
    ghost var top: seq<nat>
    ghost var stamp: seq<nat>
    ghost var clock: nat
    ghost var fired: seq<nat>   // the timers whose timeout functions were called so far

    ghost function St(): Timers
      reads this`tick, this`timeout, this`rows, this`top, this`stamp, this`clock
    {
      Timers(tick, timeout, rows, top, stamp, clock)
    }

    ghost predicate Valid()
      reads this
    {
      && St().Inv() && 0 <= tick < TICKS
      && |init| == |periodic| == |onFire| == |active| == |timeout|
      && (forall t :: 0 <= t < |init| ==> 0 <= init[t] < HALF)
    }

    // No timer is pending yet; there are as many rows as RT_TIMER_SKIP_LIST_LEVEL says.
    constructor (levels: nat, now: int, periods: seq<int>, kinds: seq<bool>, funcs: seq<seq<Command>>)
      requires levels > 0 && 0 <= now < TICKS && |periods| == |kinds| == |funcs|
      requires forall t :: 0 <= t < |periods| ==> 0 <= periods[t] < HALF
      ensures Valid() && St().Pending() == {} && St().NothingDue() && How() == Plan(now, periods, kinds, funcs)
      ensures |rows| == levels && fired == [] && forall t :: 0 <= t < |active| ==> !active[t]
    {
      var n := |periods|;
      tick, init, periodic, onFire := now, periods, kinds, funcs;
      timeout, active := seq(n, _ => 0), seq(n, _ => false);
      rows, randomNr := seq(levels, _ => []), 0;
      top, stamp, clock, fired := seq(n, _ => 0), seq(n, _ => 0), 0, [];
    }

    // rt_timer_start
    method Start(t: nat)
      requires Valid() && t < |timeout|
      modifies this`rows, this`randomNr, this`timeout, this`active, this`top, this`stamp, this`clock
      // it goes where a linear scan of the pending timers would put it
      ensures Valid() && old(St()).Started(St(), t, (tick + init[t]) % TICKS)
      ensures active == old(active)[t := true]
    {
      ghost var v := St();
      Begin(t);
      var d := Deadline(t);
      FinishFrom(t, d, v);
    }

    // Between the critical sections: when the timer will be due if it is started now.
    method Deadline(t: nat) returns (d: int)
      requires Valid() && t < |timeout|
      ensures d == (tick + init[t]) % TICKS && 1 <= Key(d, tick - 1) <= HALF
    {
      NewKey(tick, init[t]);
      d := (tick + init[t]) % TICKS;
    }

    // The first critical section of rt_timer_start.
    method Begin(t: nat)
      requires Valid() && t < |timeout|
      modifies this`rows, this`active
      ensures Valid() && old(St()).Stopped(St(), t) && t !in St().Queue() && active == old(active)[t := false]
    {
      Unlink(t);
      active := active[t := false];
    }

    // The second one. Since the deadline d was computed the tick may have gone on, and timers may
    // have been started and stopped, as long as the deadline still lies ahead. It does what it
    // should if and only if nobody else has started this very timer.
    method Finish(t: nat, d: int)
      requires Valid() && t < |timeout| && 1 <= Key(d, tick - 1) <= HALF
      modifies this`rows, this`randomNr, this`timeout, this`active, this`top, this`stamp, this`clock
      ensures t !in old(St()).Queue() ==> Valid() && old(St()).Started(St(), t, d)
      ensures t in old(St()).Queue() ==> !Valid()
      ensures active == old(active)[t := true]
    {
      ghost var v := St();
      timeout := timeout[t := d];
      stamp, clock := stamp[t := clock], clock + 1;
      Link(t, d, v);
      active := active[t := true];
    }

    // The search and the insertion.
    method Link(t: nat, d: int, ghost v: Timers)
      requires v.Inv() && t < |v.timeout| && 1 <= Key(d, v.tick - 1) <= HALF && St() == v.Restamped(t, d)
      modifies this`rows, this`randomNr, this`top
      ensures St().tick == v.tick && LinkedRight(v, St(), t, d)
    {
      ghost var pos;
      rows, randomNr, pos := Place(rows, timeout, d, t, randomNr, top);
      ghost var h := TopRow(|rows|, randomNr);
      LinkExactly(v, t, d, rows, pos, h);
      top := top[t := h];
      assert St() == LinkedAt(v.Restamped(t, d), rows, t, h);
    }

    // rt_timer_start, with an interrupt between its critical sections that starts the same timer.
    method StartInterrupted(t: nat)
      requires Valid() && t < |timeout|
      modifies this`rows, this`randomNr, this`timeout, this`active, this`top, this`stamp, this`clock
      ensures !Valid()
    {
      Begin(t);
      var d := Deadline(t);
      Start(t);
      assert t in St().Pending();
      Finish(t, d);
    }

    // The second one right behind the first, which began with v.
    method FinishFrom(t: nat, d: int, ghost v: Timers)
      requires Valid() && t < |timeout| && 1 <= Key(d, tick - 1) <= HALF
      requires t !in St().Queue() && v.Stopped(St(), t)
      modifies this`rows, this`randomNr, this`timeout, this`active, this`top, this`stamp, this`clock
      ensures Valid() && v.Started(St(), t, d) && active == old(active)[t := true]
    {
      ghost var u := St();
      Finish(t, d);
      StartedBy(v, u, St(), t, d);
    }

    // _rt_timer_remove
    method Unlink(t: nat)
      requires Valid() && t < |timeout|
      modifies this`rows
      ensures Valid() && old(St()).Stopped(St(), t) && Removed(old(rows), rows, t) && t !in St().Queue()
    {
      ghost var v := St();
      DelMember(v.Queue(), t, t);
      rows := DelRows(rows, t);
      UnlinkKeeps(v, t, rows);
      assert St() == v.(rows := rows);
    }

    // rt_timer_stop: the result says whether the timer was active
    method Stop(t: nat) returns (ok: bool)
      requires Valid() && t < |timeout|
      modifies this`rows, this`active
      ensures Valid() && ok == old(active[t])
      ensures if ok then old(St()).Stopped(St(), t) && Removed(old(rows), rows, t) && active == old(active)[t := false]
              else rows == old(rows) && active == old(active)
    {
      if !active[t] {
        return false;
      }
      Unlink(t);
      active := active[t := false];   // with interrupts enabled again: see StopInterrupted
      return true;
    }

    ghost function Now(): (s: Status)
      reads this`tick, this`timeout, this`rows, this`top, this`stamp, this`clock, this`active
    {
      Status(St().Pending(), timeout, active)
    }

    ghost function How(): Plan
      reads this`tick, this`init, this`periodic, this`onFire
    {
      Plan(tick, init, periodic, onFire)
    }

    // The timers in left are to be fired, and no other pending one is due.
    ghost predicate Ready(left: seq<nat>)
      reads this
    {
      Valid() && DueFront(St(), left) && Waiting(St(), left)
    }

    // One call from within a timeout function; rest are the timers that are still due.
    method Perform(c: Command, ghost left: seq<nat>) returns (ghost rest: seq<nat>)
      requires Ready(left) && c.t < |timeout|
      modifies this`rows, this`randomNr, this`timeout, this`active, this`top, this`stamp, this`clock
      ensures Ready(rest) && Going(Now(), rest) == How().Step(Going(old(Now()), left), c)
    {
      rest := left;
      match c {
        case Start(t) => rest := Restart(t, left);
        case Stop(t) =>
          ghost var v := St();
          var ok := Stop(t);
          if ok {
            StopReady(v, St(), t, left);
            rest := Del(left, t);
          }
      }
    }

    // rt_timer_start: without delay the timer is due, but behind all others that are
    method Restart(t: nat, ghost left: seq<nat>) returns (ghost rest: seq<nat>)
      requires Ready(left) && t < |timeout|
      modifies this`rows, this`randomNr, this`timeout, this`active, this`top, this`stamp, this`clock
      ensures Ready(rest) && Going(Now(), rest) == How().Step(Going(old(Now()), left), Command.Start(t))
    {
      ghost var v, a := St(), active;
      Start(t);
      rest := StartReady(How(), v, St(), t, left);
      StartStep(How(), v, St(), t, left, a);
    }

    // What the timeout function does.
    method Callback(t: nat, ghost left: seq<nat>, ghost r: Going) returns (ghost rest: seq<nat>)
      requires Ready(left) && t < |timeout| && How().Known(onFire[t]) && How().Fits(Now())
      requires r == How().Calls(Going(Now(), left), onFire[t])
      modifies this`rows, this`randomNr, this`timeout, this`active, this`top, this`stamp, this`clock, this`fired
      ensures fired == old(fired) + [t]
      ensures Ready(rest) && Going(Now(), rest) == r
    {
      fired := fired + [t];
      rest := PerformAll(onFire[t], left);
    }

    method PerformAll(cs: seq<Command>, ghost left: seq<nat>) returns (ghost rest: seq<nat>)
      requires Ready(left) && How().Known(cs)
      modifies this`rows, this`randomNr, this`timeout, this`active, this`top, this`stamp, this`clock
      ensures Ready(rest) && Going(Now(), rest) == How().Calls(Going(old(Now()), left), cs)
    {
      ghost var how, g := How(), Going(Now(), left);
      rest := left;
      for i := 0 to |cs|
        invariant Ready(rest) && how.Fits(Now())
        invariant how.Calls(g, cs) == how.Calls(Going(Now(), rest), cs[i..])
      {
        CallsNext(how, Going(Now(), rest), cs, i);
        rest := Perform(cs[i], rest);
      }
      assert cs[|cs|..] == [];
    }

    // What happens to the timer afterwards.
    method Rearm(t: nat, ghost left: seq<nat>) returns (ghost rest: seq<nat>)
      requires Ready(left) && t < |timeout|
      modifies this`rows, this`randomNr, this`timeout, this`active, this`top, this`stamp, this`clock
      ensures Ready(rest) && Going(Now(), rest) == How().Rearm(Going(old(Now()), left), t)
    {
      rest := left;
      if periodic[t] && active[t] {
        rest := Restart(t, left);
      } else {
        active := active[t := false];
      }
    }

    // Take the first pending timer, which is due, off the queue and fire it; r is what its timeout
    // function leads to.
    method FireFirst(t: nat, ghost left: seq<nat>, ghost r: Going) returns (ghost rest: seq<nat>)
      requires Ready(left) && left != [] && left[0] == t && t < |timeout| && How().Known(onFire[t])
      requires How().Fits(Now()) && r == How().Calls(Going(Now().Without(t), left[1..]), onFire[t])
      modifies this`rows, this`randomNr, this`timeout, this`active, this`top, this`stamp, this`clock, this`fired
      ensures fired == old(fired) + [t]
      ensures Ready(rest) && Going(Now(), rest) == How().Rearm(r, t)
    {
      TakeFirst(t, left);
      rest := Fire(t, left[1..], r);
    }

    // Fire a timer that was taken off the queue.
    method Fire(t: nat, ghost left: seq<nat>, ghost r: Going) returns (ghost rest: seq<nat>)
      requires Ready(left) && t < |timeout| && How().Known(onFire[t]) && How().Fits(Now())
      requires r == How().Calls(Going(Now(), left), onFire[t])
      modifies this`rows, this`randomNr, this`timeout, this`active, this`top, this`stamp, this`clock, this`fired
      ensures fired == old(fired) + [t]
      ensures Ready(rest) && Going(Now(), rest) == How().Rearm(r, t)
    {
      rest := Callback(t, left, r);
      rest := Rearm(t, rest);
    }

    method TakeFirst(t: nat, ghost left: seq<nat>)
      requires Ready(left) && left != [] && left[0] == t
      modifies this`rows
      ensures Ready(left[1..]) && t < |timeout| && t !in left[1..] && Now() == old(Now()).Without(t)
    {
      ghost var v := St();
      assert left[0] in left;
      Unlink(t);
      HeadGone(v, St(), t, left);
    }

    // The pending timers that are due now.
    ghost function Dues(): seq<nat>
      reads this`tick, this`timeout, this`rows, this`top, this`stamp, this`clock
    {
      St().Queue()[..StopAt(St().Queue(), timeout, tick)]
    }

    // rt_timer_check is running and will end with end: it has fired done, and the m rounds still to
    // come begin with left.
    ghost predicate Firing(how: Plan, end: (Going, seq<nat>), done: seq<nat>, m: nat, left: seq<nat>)
      reads this
    {
      && Ready(left) && How() == how && how.Fits(Now()) && how.Fine()
      && Comes(how, end, Going(Now(), left), done, m)
    }

    method FireNext(ghost how: Plan, ghost end: (Going, seq<nat>), ghost before: seq<nat>, ghost done: seq<nat>,
          ghost m: nat, ghost left: seq<nat>)
      returns (ghost now: seq<nat>, ghost less: nat, ghost rest: seq<nat>)
      requires Firing(how, end, done, m, left) && fired == before + done && rows[|rows| - 1] != []
      requires var t := rows[|rows| - 1][0]; t < |timeout| && Key(timeout[t], tick - 1) <= 1
      modifies this`rows, this`randomNr, this`timeout, this`active, this`top, this`stamp, this`clock, this`fired
      ensures Firing(how, end, now, less, rest) && fired == before + now && less < m
    {
      var t := rows[|rows| - 1][0];
      LeftFirst(St(), left);
      ghost var r := RoundNext(how, end, Now(), left, done, m);
      now, less := done + [t], m - 1;
      rest := FireFirst(t, left, r);
    }

    // One round of the loop of rt_timer_check.
    method Round(ghost how: Plan, ghost end: (Going, seq<nat>), ghost before: seq<nat>, ghost done: seq<nat>,
          ghost m: nat, ghost left: seq<nat>)
      returns (more: bool, ghost now: seq<nat>, ghost less: nat, ghost rest: seq<nat>)
      requires Firing(how, end, done, m, left) && fired == before + done && rows[|rows| - 1] != []
      modifies this`rows, this`randomNr, this`timeout, this`active, this`top, this`stamp, this`clock, this`fired
      ensures Firing(how, end, now, less, rest) && fired == before + now
      ensures if more then less < m else St().NothingDue()
    {
      var t := rows[|rows| - 1][0];
      now, less, rest := done, m, left;
      HeadDue(St(), t);
      more := Diff(tick, timeout[t]) < HALF;
      if more {
        now, less, rest := FireNext(how, end, before, done, m, left);
      }
    }

    // rt_timer_check
    method Check(ghost n: nat)
      requires Valid() && How().Fine()
      // it fires what is due, one timer after the other, each with what its timeout function does,
      // if after some number of rounds nothing is due any more
      requires How().Fits(Now()) && How().Ends(Going(Now(), Dues()), n)
      modifies this`rows, this`randomNr, this`timeout, this`active, this`top, this`stamp, this`clock, this`fired
      ensures Valid() && How() == old(How())
      ensures old(How()).Fits(old(Now())) && old(fired) <= fired
      ensures (Going(Now(), []), fired[|old(fired)|..]) == old(How()).Sweep(old(Going(Now(), Dues())), n)
      ensures St().NothingDue()
    {
      ghost var how, end := How(), How().Sweep(Going(Now(), Dues()), n);
      DuesReady(St());
      SweepComes(how, Going(Now(), Dues()), [], n);
      assert [] + end.1 == end.1;
      ghost var done, m, left := FireAll(how, end, n, Dues());
      AllFired(St(), left);
    }

    // The loop of rt_timer_check.
    method FireAll(ghost how: Plan, ghost end: (Going, seq<nat>), ghost n: nat, ghost dues: seq<nat>)
      returns (ghost done: seq<nat>, ghost m: nat, ghost left: seq<nat>)
      requires Firing(how, end, [], n, dues)
      modifies this`rows, this`randomNr, this`timeout, this`active, this`top, this`stamp, this`clock, this`fired
      ensures Firing(how, end, done, m, left) && fired == old(fired) + done && (St().Queue() == [] || St().NothingDue())
    {
      ghost var before := fired;
      done, m, left := [], n, dues;
      while rows[|rows| - 1] != []
        invariant Firing(how, end, done, m, left) && fired == before + done
        decreases m
      {
        var more;
        more, done, m, left := Round(how, end, before, done, m, left);
        if !more {
          break;
        }
      }
    }

    // The part of rt_tick_increase that concerns timers: every timer fires in the very tick
    // of its deadline, or in the next one if it was started with no delay at all.
    method Increase(ghost n: nat) returns (ghost due: seq<nat>)
      requires Valid() && How().Fine() && St().NothingOverdue()
      requires How().Fits(Now()) && How().(tick := (tick + 1) % TICKS).Ends(Going(Now(), Coming()), n)
      modifies this
      ensures Valid() && St().NothingOverdue() && St().NothingDue() && due == old(Coming())
      ensures tick == (old(tick) + 1) % TICKS && How() == old(How()).(tick := tick) && How().Fits(old(Now()))
      ensures old(fired) <= fired
      ensures (Going(Now(), []), fired[|old(fired)|..]) == How().Sweep(Going(old(Now()), due), n)
      ensures forall t :: t in SetOf(due) <==>
                && t in old(St().Pending())
                && (Meets(old(timeout), t, tick) || Meets(old(timeout), t, old(tick)))
      ensures old(St()).InOrder(due)
    {
      due := Advance();
      Check(n);
    }

    // What will be due in the next tick.
    ghost function Coming(): seq<nat>
      reads this`tick, this`timeout, this`rows, this`top, this`stamp, this`clock
    {
      St().Queue()[..StopAt(St().Queue(), timeout, (tick + 1) % TICKS)]
    }

    // The tick goes on; due is what is due then.
    method Advance() returns (ghost due: seq<nat>)
      requires Valid() && St().NothingOverdue()
      modifies this`tick
      ensures Valid() && tick == (old(tick) + 1) % TICKS && due == Dues() == old(Coming()) && Now() == old(Now())
      ensures forall t :: t in SetOf(due) <==>
                && t in old(St().Pending())
                && (Meets(timeout, t, tick) || Meets(timeout, t, old(tick)))
      ensures old(St()).InOrder(due) && forall t :: t in due ==> t in old(St().Pending())
    {
      ghost var v := St();
      tick := (tick + 1) % TICKS;
      TickKeeps(v, St());
      due := Dues();
      DuesOnTime(v, St(), due);
      assert forall t :: t in due ==> t in SetOf(due);
    }
  }

  // A timer started now is due at most half the circle from now.
  lemma {:induction false} NewKey(tick: int, init: int)
    requires 0 <= tick < TICKS && 0 <= init < HALF
    ensures Key((tick + init) % TICKS, tick - 1) == init + 1
  {
  }

  // The timers in left are the first pending ones, and they are due.
  ghost predicate DueFront(v: Timers, left: seq<nat>) {
    && left <= v.Queue()
    && forall x :: x in left ==> x < |v.timeout| && Key(v.timeout[x], v.tick - 1) <= 1
  }

  // No pending timer but those in left is due.
  ghost predicate Waiting(v: Timers, left: seq<nat>) {
    forall t :: t in v.Queue() && t !in left ==> t < |v.timeout| && 2 <= Key(v.timeout[t], v.tick - 1)
  }

  lemma {:induction false} DelPrefix(s: seq<nat>, left: seq<nat>, x: nat)
    requires left <= s
    ensures Del(left, x) <= Del(s, x)
  {
    DelConcat(left, s[|left|..], x);
    assert s == left + s[|left|..];
  }

  // A timer that is started goes behind all that are due; it is due itself only without delay.
  lemma {:induction false} StartReady(how: Plan, v: Timers, u: Timers, t: nat, left: seq<nat>)
    returns (rest: seq<nat>)
    requires v.Inv() && 0 <= how.tick == v.tick < TICKS && t < |how.init| && 0 <= how.init[t] < HALF
    requires v.Started(u, t, (how.tick + how.init[t]) % TICKS) && DueFront(v, left) && Waiting(v, left)
    ensures rest == Del(left, t) + how.Back(Command.Start(t)) && DueFront(u, rest) && Waiting(u, rest)
  {
    Remaining(v, u, t, left);
    StartKey(how, u, t);
    rest := Del(left, t) + how.Back(Command.Start(t));
    StartPlaced(u, Del(v.Queue(), t), Del(left, t), t, rest);
  }

  // u has the timers of q and, where the search stops, t; those in l are the first and due.
  lemma {:induction false} StartPlaced(u: Timers, q: seq<nat>, l: seq<nat>, t: nat, rest: seq<nat>)
    requires Distinct(q) && l <= q && t < |u.timeout| && 1 <= Key(u.timeout[t], u.tick - 1) <= HALF
    requires u.Queue() == Ins(q, StopAt(q, u.timeout, u.timeout[t]), t)
    requires rest == l + if Key(u.timeout[t], u.tick - 1) <= 1 then [t] else []
    requires forall x :: x in l ==> x < |u.timeout| && Key(u.timeout[x], u.tick - 1) <= 1
    requires forall x :: x in q && x !in l ==> x < |u.timeout| && 2 <= Key(u.timeout[x], u.tick - 1) <= HALF
    ensures DueFront(u, rest) && Waiting(u, rest)
  {
    StartBehind(u, q, l, u.timeout[t], t);
    if Key(u.timeout[t], u.tick - 1) <= 1 {
      StartNext(u, q, l, u.timeout[t], t);
    } else {
      assert l + [] == l;
    }
    StartFront(u, q, StopAt(q, u.timeout, u.timeout[t]), l, t, rest);
  }

  lemma {:induction false} StartKey(how: Plan, u: Timers, t: nat)
    requires 0 <= how.tick == u.tick < TICKS && t < |how.init| && 0 <= how.init[t] < HALF && t < |u.timeout|
    requires u.timeout[t] == (how.tick + how.init[t]) % TICKS
    ensures 1 <= Key(u.timeout[t], u.tick - 1) <= HALF && (Key(u.timeout[t], u.tick - 1) <= 1 <==> how.AtOnce(t))
  {
    NewKey(how.tick, how.init[t]);
  }

  lemma {:induction false} StartFront(u: Timers, q: seq<nat>, p: nat, l: seq<nat>, t: nat, rest: seq<nat>)
    requires p <= |q| && u.Queue() == Ins(q, p, t) && rest <= u.Queue() && t < |u.timeout|
    requires rest == if Key(u.timeout[t], u.tick - 1) <= 1 then l + [t] else l
    requires forall x :: x in l ==> x < |u.timeout| && Key(u.timeout[x], u.tick - 1) <= 1
    requires forall x :: x in q && x !in l ==> x < |u.timeout| && 2 <= Key(u.timeout[x], u.tick - 1)
    ensures DueFront(u, rest) && Waiting(u, rest)
  {
    InsMembers(q, p, t);
  }

  lemma {:induction false} StartStep(how: Plan, v: Timers, u: Timers, t: nat, left: seq<nat>, a: seq<bool>)
    requires t < |how.init| && how.Fits(Status(v.Pending(), v.timeout, a))
    requires v.Started(u, t, (how.tick + how.init[t]) % TICKS)
    ensures Going(Status(u.Pending(), u.timeout, a[t := true]), Del(left, t) + how.Back(Command.Start(t)))
         == how.Step(Going(Status(v.Pending(), v.timeout, a), left), Command.Start(t))
  {
  }

  // Which of the other timers are due does not change.
  lemma {:induction false} Remaining(v: Timers, u: Timers, t: nat, left: seq<nat>)
    requires v.Inv() && t < |v.timeout| && DueFront(v, left) && Waiting(v, left)
    requires u.tick == v.tick && |u.timeout| == |v.timeout|
    requires forall x :: 0 <= x < |v.timeout| && x != t ==> u.timeout[x] == v.timeout[x]
    ensures var q, l := Del(v.Queue(), t), Del(left, t);
            && l <= q && Distinct(q)
            && (forall x :: x in l ==> x < |u.timeout| && Key(u.timeout[x], u.tick - 1) <= 1)
            && (forall x :: x in q && x !in l ==> x < |u.timeout| && 2 <= Key(u.timeout[x], u.tick - 1) <= HALF)
  {
    forall x
      ensures x in Del(left, t) <==> x in left && x != t
      ensures x in Del(v.Queue(), t) <==> x in v.Queue() && x != t
    {
      DelMember(left, t, x);
      DelMember(v.Queue(), t, x);
    }
    DelPrefix(v.Queue(), left, t);
    QueueKeys(v);
    SortedDistinct(v.Queue(), v.timeout, v.tick - 1, v.stamp);
    DelDistinct(v.Queue(), t);
  }

  lemma {:induction false} QueueKeys(v: Timers)
    requires v.Inv()
    ensures forall x :: x in v.Queue() ==> x < |v.timeout| && Key(v.timeout[x], v.tick - 1) <= HALF
  {
  }

  // Without delay it comes right behind them.
  lemma {:induction false} StartNext(u: Timers, q: seq<nat>, l: seq<nat>, d: int, t: nat)
    requires Distinct(q) && l <= q && Key(d, u.tick - 1) == 1 && |l| <= StopAt(q, u.timeout, d)
    requires u.Queue() == Ins(q, StopAt(q, u.timeout, d), t)
    requires forall x :: x in q && x !in l ==> x < |u.timeout| && 2 <= Key(u.timeout[x], u.tick - 1) <= HALF
    ensures l + [t] <= u.Queue()
  {
    var p := StopAt(q, u.timeout, d);
    if p > |l| {
      StopAtPasses(q, u.timeout, d, |l|);
      assert q[|l|] in q && q[|l|] !in l;
      PassesByKey(u.timeout[q[|l|]], d, u.tick - 1);
    }
    assert q[..|l|] == l;
  }

  lemma {:induction false} StartBehind(u: Timers, q: seq<nat>, l: seq<nat>, d: int, t: nat)
    requires l <= q && 1 <= Key(d, u.tick - 1) <= HALF && u.Queue() == Ins(q, StopAt(q, u.timeout, d), t)
    requires forall x :: x in l ==> x < |u.timeout| && Key(u.timeout[x], u.tick - 1) <= 1
    ensures l <= u.Queue() && |l| <= StopAt(q, u.timeout, d)
  {
    forall i | 0 <= i < |l|
      ensures Passes(Due(u.timeout, q[i]), d)
    {
      assert q[i] == l[i] && l[i] in l;
      PassesByKey(u.timeout[q[i]], d, u.tick - 1);
    }
    StopAtLeast(q, u.timeout, d, |l|);
    assert u.Queue()[..|l|] == q[..|l|];
  }

  lemma {:induction false} StopReady(v: Timers, u: Timers, t: nat, left: seq<nat>)
    requires DueFront(v, left) && Waiting(v, left)
    requires u.tick == v.tick && u.timeout == v.timeout && u.Queue() == Del(v.Queue(), t)
    ensures DueFront(u, Del(left, t)) && Waiting(u, Del(left, t))
  {
    DelPrefix(v.Queue(), left, t);
    forall x
      ensures x in Del(left, t) <==> x in left && x != t
      ensures x in u.Queue() <==> x in v.Queue() && x != t
    {
      DelMember(left, t, x);
      DelMember(v.Queue(), t, x);
    }
  }

  // The first timer off the queue, the others that are due come first.
  lemma {:induction false} HeadGone(v: Timers, u: Timers, t: nat, left: seq<nat>)
    requires v.Inv() && left != [] && DueFront(v, left) && Waiting(v, left) && left[0] == t
    requires u.Queue() == Del(v.Queue(), t) && u.timeout == v.timeout && u.tick == v.tick
    ensures t < |v.timeout| && t !in left[1..] && DueFront(u, left[1..]) && Waiting(u, left[1..])
  {
    assert left[0] in left;
    SortedDistinct(v.Queue(), v.timeout, v.tick - 1, v.stamp);
    DelFirst(v.Queue(), left);
    StopReady(v, u, t, left);
    DelAbsent(left[1..], t);
    assert Del(left, t) == [] + Del(left[1..], t) == left[1..];
  }

  // Due timers are those the scan for the current tick passes.
  lemma {:induction false} DuesAreDue(v: Timers)
    requires v.Inv() && 0 <= v.tick < TICKS
    ensures var n := StopAt(v.Queue(), v.timeout, v.tick);
            && DueFront(v, v.Queue()[..n]) && Distinct(v.Queue())
            && forall i :: n <= i < |v.Queue()| ==> 2 <= Key(v.timeout[v.Queue()[i]], v.tick - 1)
  {
    NewKey(v.tick, 0);
    SortedSteady(v.Queue(), v.timeout, v.tick - 1, v.stamp, v.tick);
    SortedDistinct(v.Queue(), v.timeout, v.tick - 1, v.stamp);
  }

  // The clock goes on: no deadline leaves the window, none is passed by.
  lemma {:induction false} TickKeeps(v: Timers, u: Timers)
    requires v.Inv() && v.NothingOverdue() && 0 <= v.tick < TICKS
    requires u == v.(tick := (v.tick + 1) % TICKS)
    ensures u.Inv()
    ensures forall t :: t in u.Queue() ==>
              t < |u.timeout| && Key(u.timeout[t], u.tick - 1) == Key(v.timeout[t], v.tick - 1) - 1
  {
    SortedLater(v.Queue(), v.timeout, v.tick - 1, v.stamp);
    SortedBase(v.Queue(), v.timeout, v.tick, u.tick - 1, v.stamp);
  }

  // Timer t has its deadline in this tick.
  predicate Meets(at: seq<int>, t: nat, tick: int) { t < |at| && Diff(at[t], tick) == 0 }

  // What is due, told by the distance of the deadline.
  lemma {:induction false} DueByKey(u: Timers, t: nat)
    requires u.Inv() && 0 <= u.tick < TICKS && t in u.Queue()
    ensures t < |u.timeout|
    ensures t in u.Queue()[..StopAt(u.Queue(), u.timeout, u.tick)] <==> Key(u.timeout[t], u.tick - 1) <= 1
  {
    DuesAreDue(u);
    var q, n := u.Queue(), StopAt(u.Queue(), u.timeout, u.tick);
    var i :| 0 <= i < |q| && q[i] == t;
    assert i < n ==> q[..n][i] == t;
  }

  // What is due in the next tick has its deadline now or then.
  lemma {:induction false} DuesOnTime(v: Timers, u: Timers, due: seq<nat>)
    requires v.Inv() && v.NothingOverdue() && 0 <= v.tick < TICKS
    requires u == v.(tick := (v.tick + 1) % TICKS) && u.Inv()
    requires forall t :: t in u.Queue() ==>
              t < |u.timeout| && Key(u.timeout[t], u.tick - 1) == Key(v.timeout[t], v.tick - 1) - 1
    requires due == u.Queue()[..StopAt(u.Queue(), u.timeout, u.tick)]
    ensures forall t :: t in SetOf(due) <==>
              && t in v.Pending()
              && (Meets(v.timeout, t, u.tick) || Meets(v.timeout, t, v.tick))
    ensures v.InOrder(due)
  {
    var q := u.Queue();
    forall t | t in q
      ensures t in due <==> Meets(v.timeout, t, u.tick) || Meets(v.timeout, t, v.tick)
    {
      DueByKey(u, t);
      OnTime(v.timeout[t], v.tick);
    }
    assert forall i :: 0 <= i < |due| ==> due[i] == q[i] && q[i] in q;
  }

  lemma {:induction false} OnTime(x: int, tick: int)
    requires 1 <= Key(x, tick - 1)
    ensures Key(x, tick - 1) <= 2 <==> Diff(x, tick) == 0 || Diff(x, (tick + 1) % TICKS) == 0
  {
  }

  // The test of rt_timer_check on the first pending timer tells whether anything is due.
  lemma {:induction false} HeadDue(v: Timers, t: nat)
    requires v.Inv() && 0 <= v.tick < TICKS && v.Queue() != [] && v.Queue()[0] == t
    ensures t < |v.timeout| && (Diff(v.tick, v.timeout[t]) < HALF <==> Key(v.timeout[t], v.tick - 1) <= 1)
    ensures 2 <= Key(v.timeout[t], v.tick - 1) ==> v.NothingDue()
  {
    var q := v.Queue();
    assert q[0] in q;
    DiffByKey(v.tick, v.timeout[t]);
    forall i | 0 < i < |q|
      ensures q[i] < |v.timeout| && Key(v.timeout[t], v.tick - 1) <= Key(v.timeout[q[i]], v.tick - 1)
    {
      assert Earlier(q[0], q[i], v.timeout, v.tick - 1, v.stamp);
    }
  }

  // Nothing was fired yet: what is due is still to be fired, and nothing else is due.
  lemma {:induction false} DuesReady(v: Timers)
    requires v.Inv() && 0 <= v.tick < TICKS
    ensures var dues := v.Queue()[..StopAt(v.Queue(), v.timeout, v.tick)]; DueFront(v, dues) && Waiting(v, dues)
  {
    DuesAreDue(v);
    var q, n := v.Queue(), StopAt(v.Queue(), v.timeout, v.tick);
    forall j | 0 <= j < n
      ensures q[j] in q[..n]
    {
      assert q[..n][j] == q[j];
    }
    forall t | t in q && t !in q[..n]
      ensures t < |v.timeout| && 2 <= Key(v.timeout[t], v.tick - 1)
    {
      var i :| 0 <= i < |q| && q[i] == t;
    }
  }

  // A first timer that is due is the next one to fire.
  lemma {:induction false} LeftFirst(v: Timers, left: seq<nat>)
    requires DueFront(v, left) && Waiting(v, left) && v.Queue() != []
    requires v.Queue()[0] < |v.timeout| && Key(v.timeout[v.Queue()[0]], v.tick - 1) <= 1
    ensures left != [] && left[0] == v.Queue()[0]
  {
    assert v.Queue()[0] in v.Queue();
    assert v.Queue()[0] in left;
  }

  // What fired so far, and m more rounds from g, end with end.
  ghost predicate Comes(how: Plan, end: (Going, seq<nat>), g: Going, done: seq<nat>, m: nat)
    requires how.Fits(g.s)
    decreases m
  {
    if g.left == [] then end == (g, done) else m > 0 && Comes(how, end, how.Fire(g), done + [g.left[0]], m - 1)
  }

  lemma {:induction false} SweepComes(how: Plan, g: Going, done: seq<nat>, m: nat)
    requires how.Fits(g.s) && how.Ends(g, m)
    ensures Comes(how, (how.Sweep(g, m).0, done + how.Sweep(g, m).1), g, done, m)
    decreases m
  {
    if g.left == [] {
      assert done + [] == done;
    } else {
      SweepOne(how, g, m);
      SweepComes(how, how.Fire(g), done + [g.left[0]], m - 1);
      assert done + how.Sweep(g, m).1 == done + [g.left[0]] + how.Sweep(how.Fire(g), m - 1).1;
    }
  }

  lemma {:induction false} RoundNext(how: Plan, end: (Going, seq<nat>), s: Status, left: seq<nat>, done: seq<nat>,
        m: nat) returns (r: Going)
    requires how.Fits(s) && how.Fine() && left != [] && left[0] < |how.init| && Comes(how, end, Going(s, left), done, m)
    ensures m > 0 && how.Known(how.onFire[left[0]])
    ensures r == how.Calls(Going(s.Without(left[0]), left[1..]), how.onFire[left[0]])
    ensures Comes(how, end, how.Rearm(r, left[0]), done + [left[0]], m - 1)
  {
    r := how.Called(Going(s, left));
  }

  lemma {:induction false} FrontIsDue(v: Timers, left: seq<nat>)
    requires DueFront(v, left) && left != []
    ensures v.Queue() != [] && !v.NothingDue()
  {
    assert left[0] in left && v.Queue()[0] in v.Queue();
  }

  // When the loop ends, everything due was fired.
  lemma {:induction false} AllFired(v: Timers, left: seq<nat>)
    requires DueFront(v, left) && (v.Queue() == [] || v.NothingDue())
    ensures left == [] && v.NothingDue()
  {
    if left != [] {
      FrontIsDue(v, left);
    }
  }

  lemma {:induction false} DiffByKey(tick: int, x: int)
    requires Key(x, tick - 1) <= HALF
    ensures Diff(tick, x) < HALF <==> Key(x, tick - 1) <= 1
  {
    var k := Key(x, tick - 1);
    assert Diff(tick, x) == (1 - k) % TICKS;
  }

  // A timer started in the timer interrupt is due at once exactly if its period is zero.
  lemma {:induction false} DueAtOnce(v: Timers, u: Timers, t: nat, init: int)
    requires v.Inv() && u.Inv() && 0 <= v.tick < TICKS && 0 <= init < HALF
    requires v.Started(u, t, (v.tick + init) % TICKS)
    ensures t in u.Queue()[..StopAt(u.Queue(), u.timeout, u.tick)] <==> init == 0
  {
    NewKey(v.tick, init);
    DuesAreDue(u);
    var q, n := u.Queue(), StopAt(u.Queue(), u.timeout, u.tick);
    assert t in u.Pending();
    var i :| 0 <= i < |q| && q[i] == t;
    assert i < n ==> q[..n][i] == t;
  }

  // So in the first tick of a queue with one timer of period 5.
  method StartedTwice() returns (timers: TimerQueue)
    ensures fresh(timers) && !timers.Valid()
  {
    timers := new TimerQueue(1, 0, [5], [false], [[]]);
    timers.StartInterrupted(0);
  }
}
