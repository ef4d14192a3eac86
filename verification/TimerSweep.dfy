/** What rt_timer_check does, as a function of the timers: it fires those that are due one after
    the other, and the timeout function of each may start and stop any timers. */
module TimerSweep {
  import opened Lists
  import opened TimerRows

  // What a timeout function calls.
  datatype Command = Start(t: nat) | Stop(t: nat)

  // What a run of rt_timer_check changes.
  datatype Status = Status(pending: set<nat>, timeout: seq<int>, active: seq<bool>) {
    function Without(t: nat): Status { this.(pending := pending - {t}) }
  }

  // With the due timers that are still to be fired.
  datatype Going = Going(s: Status, left: seq<nat>)

  // What it does not change.
  datatype Plan = Plan(tick: int, init: seq<int>, periodic: seq<bool>, onFire: seq<seq<Command>>) {
    ghost predicate Fits(s: Status) { |s.timeout| == |s.active| == |init| == |periodic| == |onFire| }

    // The timers that timeout functions start and stop are there.
    ghost predicate Fine() { forall t :: 0 <= t < |onFire| ==> Known(onFire[t]) }

    ghost predicate Known(cs: seq<Command>) { forall i :: 0 <= i < |cs| ==> cs[i].t < |init| }

    function CallsOf(t: nat): seq<Command> { if t < |onFire| then onFire[t] else [] }

    ghost function Do(s: Status, c: Command): (r: Status)
      requires Fits(s)
      ensures Fits(r)
    {
      if c.t >= |init| then s
      else if c.Start? then Status(s.pending + {c.t}, s.timeout[c.t := (tick + init[c.t]) % TICKS],
          s.active[c.t := true])
      else if s.active[c.t] then s.(pending := s.pending - {c.t}, active := s.active[c.t := false])
      else s
    }

    // Without delay, what is started is due, behind all that is due already.
    ghost predicate AtOnce(t: nat) { t < |init| && init[t] <= 0 }

    ghost function Back(c: Command): seq<nat> { if c.Start? && AtOnce(c.t) then [c.t] else [] }

    // Any other timer that is started is no longer due, nor is one that is stopped.
    ghost function Step(g: Going, c: Command): (r: Going)
      requires Fits(g.s)
      ensures Fits(r.s)
    {
      Going(Do(g.s, c),
            if c.t < |init| && (c.Start? || g.s.active[c.t]) then Del(g.left, c.t) + Back(c) else g.left)
    }

    ghost function Calls(g: Going, cs: seq<Command>): (r: Going)
      requires Fits(g.s)
      ensures Fits(r.s)
      decreases |cs|
    {
      if cs == [] then g else Calls(Step(g, cs[0]), cs[1..])
    }

    // Afterwards a timer that is periodic and still active is started again, any other is made
    // inactive.
    ghost predicate Restarts(s: Status, t: nat)
      requires Fits(s)
    {
      t < |init| && periodic[t] && s.active[t]
    }

    ghost function Rearm(g: Going, t: nat): (r: Going)
      requires Fits(g.s)
      ensures Fits(r.s)
    {
      if Restarts(g.s, t) then Step(g, Start(t))
      else if t < |init| then g.(s := g.s.(active := g.s.active[t := false]))
      else g
    }

    // The first due timer is taken off the queue and fired.
    ghost function Called(g: Going): (r: Going)
      requires Fits(g.s) && g.left != []
      ensures Fits(r.s)
    {
      Calls(Going(g.s.Without(g.left[0]), g.left[1..]), CallsOf(g.left[0]))
    }

    ghost function Fire(g: Going): (r: Going)
      requires Fits(g.s) && g.left != []
      ensures Fits(r.s)
    {
      Rearm(Called(g), g.left[0])
    }

    // n rounds of the loop, or as many as there are, and what fired in which order.
    ghost function Sweep(g: Going, n: nat): (r: (Going, seq<nat>))
      requires Fits(g.s)
      ensures Fits(r.0.s)
      decreases n
    {
      if n == 0 || g.left == [] then (g, [])
      else
        var r := Sweep(Fire(g), n - 1);
        (r.0, [g.left[0]] + r.1)
    }

    // After n rounds nothing is left to fire.
    ghost predicate Ends(g: Going, n: nat)
      requires Fits(g.s)
    {
      Sweep(g, n).0.left == []
    }
  }

  // The last call that concerns t stops it.
  ghost predicate EndsStopped(cs: seq<Command>, t: nat) {
    cs != [] && (cs[|cs| - 1] == Stop(t) || (cs[|cs| - 1].t != t && EndsStopped(cs[..|cs| - 1], t)))
  }

  // --- the calls of one timeout function --------------------------------------------------------

  lemma {:induction false} CallsMore(how: Plan, g: Going, cs: seq<Command>, c: Command)
    requires how.Fits(g.s)
    ensures how.Calls(g, cs + [c]) == how.Step(how.Calls(g, cs), c)
    decreases |cs|
  {
    if cs == [] {
      assert ([] + [c])[1..] == [];
    } else {
      assert (cs + [c])[0] == cs[0] && (cs + [c])[1..] == cs[1..] + [c];
      CallsMore(how, how.Step(g, cs[0]), cs[1..], c);
    }
  }

  lemma {:induction false} CallsNext(how: Plan, g: Going, cs: seq<Command>, i: nat)
    requires how.Fits(g.s) && i < |cs|
    ensures how.Calls(g, cs[i..]) == how.Calls(how.Step(g, cs[i]), cs[i + 1..])
  {
    assert cs[i..][0] == cs[i] && cs[i..][1..] == cs[i + 1..];
  }

  // It is inactive if its last call stops it.
  lemma {:induction false} StoppedInactive(how: Plan, g: Going, cs: seq<Command>, t: nat)
    requires how.Fits(g.s) && EndsStopped(cs, t) && t < |how.init|
    ensures !how.Calls(g, cs).s.active[t]
    decreases |cs|
  {
    var most, c := cs[..|cs| - 1], cs[|cs| - 1];
    assert cs == most + [c];
    CallsMore(how, g, most, c);
    if c != Stop(t) {
      StoppedInactive(how, g, most, t);
    }
  }

  lemma {:induction false} StepSub(how: Plan, g: Going, c: Command, x: nat)
    requires how.Fits(g.s)
    ensures x in g.left && x !in how.Step(g, c).left ==> c.t == x
  {
    DelMember(g.left, c.t, x);
  }

  ghost predicate Concerns(cs: seq<Command>, x: nat) { cs != [] && (cs[0].t == x || Concerns(cs[1..], x)) }

  lemma {:induction false} CallsSub(how: Plan, g: Going, cs: seq<Command>, x: nat)
    requires how.Fits(g.s)
    ensures x in g.left && x !in how.Calls(g, cs).left ==> Concerns(cs, x)
    decreases |cs|
  {
    if cs != [] {
      StepSub(how, g, cs[0], x);
      CallsSub(how, how.Step(g, cs[0]), cs[1..], x);
    }
  }

  // One round of the loop.
  lemma {:induction false} SweepOne(how: Plan, g: Going, n: nat)
    requires how.Fits(g.s) && n > 0 && g.left != []
    ensures how.Sweep(g, n).0 == how.Sweep(how.Fire(g), n - 1).0
    ensures how.Sweep(g, n).1 == [g.left[0]] + how.Sweep(how.Fire(g), n - 1).1
  {
  }

  // --- which timers fire ------------------------------------------------------------------------

  // What is due is fired, or still left to be fired, but for the timers that another one, fired
  // before, started or stopped.
  ghost predicate FiresBut(how: Plan, due: seq<nat>, left: seq<nat>, fired: seq<nat>) {
    forall x :: x in due && x !in fired && x !in left ==> exists u :: u in fired && Concerns(how.CallsOf(u), x)
  }

  lemma {:induction false} SweepFires(how: Plan, g: Going, n: nat)
    requires how.Fits(g.s)
    ensures FiresBut(how, g.left, how.Sweep(g, n).0.left, how.Sweep(g, n).1)
    decreases n
  {
    if n > 0 && g.left != [] {
      var h := how.Fire(g);
      SweepOne(how, g, n);
      SweepFires(how, h, n - 1);
      forall x | x in g.left && x != g.left[0]
        ensures x in h.left || Concerns(how.CallsOf(g.left[0]), x)
      {
        FireSub(how, g, x);
      }
      FiresMore(how, g.left, h.left, how.Sweep(h, n - 1).0.left, how.Sweep(h, n - 1).1);
    }
  }

  // A due timer that does not fire now is due afterwards, if the calls do not concern it.
  lemma {:induction false} FireSub(how: Plan, g: Going, x: nat)
    requires how.Fits(g.s) && g.left != [] && x in g.left && x != g.left[0]
    ensures x in how.Fire(g).left || Concerns(how.CallsOf(g.left[0]), x)
  {
    var t := g.left[0];
    assert g.left == [t] + g.left[1..];
    CallsSub(how, Going(g.s.Without(t), g.left[1..]), how.CallsOf(t), x);
    DelMember(how.Called(g).left, t, x);
  }

  lemma {:induction false} FiresMore(how: Plan, due: seq<nat>, rest: seq<nat>, left: seq<nat>, f: seq<nat>)
    requires due != [] && FiresBut(how, rest, left, f)
    requires forall x :: x in due && x != due[0] ==> x in rest || Concerns(how.CallsOf(due[0]), x)
    ensures FiresBut(how, due, left, [due[0]] + f)
  {
    var t := due[0];
    assert t in [t] + f && forall u :: u in f ==> u in [t] + f;
    forall x | x in due && x !in [t] + f && x !in left
      ensures exists u :: u in [t] + f && Concerns(how.CallsOf(u), x)
    {
      if x in rest {
        var u :| u in f && Concerns(how.CallsOf(u), x);
        assert u in [t] + f;
      }
    }
  }

  // They fire in the order they are due in.
  ghost predicate Within(s: seq<nat>, r: seq<nat>)
    decreases |r|
  {
    s == [] || (r != [] && if s[0] == r[0] then Within(s[1..], r[1..]) else Within(s, r[1..]))
  }

  lemma {:induction false} WithinMore(s: seq<nat>, r: seq<nat>, x: nat)
    requires Within(s, r)
    ensures Within(s, [x] + r) && Within([x] + s, [x] + r)
    decreases |r|
  {
    assert ([x] + r)[1..] == r && ([x] + s)[1..] == s;
    if s != [] && s[0] == x {
      if s[0] == r[0] {
        WithinMore(s[1..], r[1..], r[0]);
        assert [r[0]] + r[1..] == r;
      } else {
        WithinTail(s, r[1..]);
        WithinMore(s[1..], r[1..], r[0]);
        assert [r[0]] + r[1..] == r;
      }
    }
  }

  lemma {:induction false} WithinTail(s: seq<nat>, r: seq<nat>)
    requires Within(s, r) && s != []
    ensures Within(s[1..], r)
    decreases |r|
  {
    if s[0] == r[0] {
      WithinMore(s[1..], r[1..], r[0]);
      assert [r[0]] + r[1..] == r;
    } else {
      WithinTail(s, r[1..]);
      WithinMore(s[1..], r[1..], r[0]);
      assert [r[0]] + r[1..] == r;
    }
  }

  lemma {:induction false} WithinTwice(s: seq<nat>, r: seq<nat>, q: seq<nat>)
    requires Within(s, r) && Within(r, q)
    ensures Within(s, q)
    decreases |q|
  {
    if s != [] {
      if r[0] == q[0] {
        if s[0] == r[0] {
          WithinTwice(s[1..], r[1..], q[1..]);
        } else {
          WithinTwice(s, r[1..], q[1..]);
        }
      } else {
        WithinTwice(s, r, q[1..]);
        WithinMore(s, q[1..], q[0]);
        assert [q[0]] + q[1..] == q;
      }
    }
  }

  lemma {:induction false} DelWithin(s: seq<nat>, x: nat)
    ensures Within(Del(s, x), s)
  {
    if s != [] {
      DelWithin(s[1..], x);
      WithinMore(Del(s[1..], x), s[1..], s[0]);
      assert [s[0]] + s[1..] == s && [] + Del(s[1..], x) == Del(s[1..], x);
    }
  }

  lemma {:induction false} WithinSame(s: seq<nat>)
    ensures Within(s, s)
  {
    if s != [] {
      WithinSame(s[1..]);
    }
  }

  lemma {:induction false} WithinAppend(s: seq<nat>, r: seq<nat>, q: seq<nat>)
    requires Within(s, r)
    ensures Within(s + q, r + q)
    decreases |r|
  {
    if r == [] {
      WithinSame(q);
      assert s + q == q && r + q == q;
    } else {
      assert (r + q)[1..] == r[1..] + q && (r + q)[0] == r[0] && [r[0]] + (r[1..] + q) == r + q;
      if s != [] && s[0] == r[0] {
        WithinAppend(s[1..], r[1..], q);
        assert [s[0]] + (s[1..] + q) == s + q;
        WithinMore(s[1..] + q, r[1..] + q, r[0]);
      } else {
        WithinAppend(s, r[1..], q);
        WithinMore(s + q, r[1..] + q, r[0]);
      }
    }
  }

  // The timers that calls put back, in their order, and those that n rounds put back.
  ghost function PutBack(how: Plan, cs: seq<Command>): seq<nat> {
    if cs == [] then [] else how.Back(cs[0]) + PutBack(how, cs[1..])
  }

  ghost function Rearmed(how: Plan, g: Going): seq<nat>
    requires how.Fits(g.s) && g.left != []
  {
    if how.Restarts(how.Called(g).s, g.left[0]) then how.Back(Start(g.left[0])) else []
  }

  ghost function Added(how: Plan, g: Going, n: nat): seq<nat>
    requires how.Fits(g.s)
    decreases n
  {
    if n == 0 || g.left == [] then []
    else PutBack(how, how.CallsOf(g.left[0])) + Rearmed(how, g) + Added(how, how.Fire(g), n - 1)
  }

  lemma {:induction false} StepWithin(how: Plan, g: Going, c: Command)
    requires how.Fits(g.s)
    ensures Within(how.Step(g, c).left, g.left + how.Back(c))
  {
    DelWithin(g.left, c.t);
    WithinAppend(Del(g.left, c.t), g.left, how.Back(c));
    WithinSame(g.left);
    WithinLonger(g.left, g.left, how.Back(c));
  }

  lemma {:induction false} WithinLonger(s: seq<nat>, r: seq<nat>, q: seq<nat>)
    requires Within(s, r)
    ensures Within(s, r + q)
    decreases |r|
  {
    if s != [] {
      assert (r + q)[1..] == r[1..] + q && (r + q)[0] == r[0];
      WithinLonger(if s[0] == r[0] then s[1..] else s, r[1..], q);
    }
  }

  lemma {:induction false} CallsWithin(how: Plan, g: Going, cs: seq<Command>)
    requires how.Fits(g.s)
    ensures Within(how.Calls(g, cs).left, g.left + PutBack(how, cs))
    decreases |cs|
  {
    if cs == [] {
      WithinSame(g.left);
      assert g.left + [] == g.left;
    } else {
      var h, b, p := how.Step(g, cs[0]), how.Back(cs[0]), PutBack(how, cs[1..]);
      StepWithin(how, g, cs[0]);
      CallsWithin(how, h, cs[1..]);
      WithinAppend(h.left, g.left + b, p);
      assert g.left + b + p == g.left + (b + p);
      WithinTwice(how.Calls(g, cs).left, h.left + p, g.left + (b + p));
    }
  }

  lemma {:induction false} FireWithin(how: Plan, g: Going)
    requires how.Fits(g.s) && g.left != []
    ensures Within(how.Fire(g).left, g.left[1..] + (PutBack(how, how.CallsOf(g.left[0])) + Rearmed(how, g)))
  {
    var t, c := g.left[0], how.Called(g).left;
    var p, a := PutBack(how, how.CallsOf(t)), Rearmed(how, g);
    CallsWithin(how, Going(g.s.Without(t), g.left[1..]), how.CallsOf(t));
    RearmWithin(how, g);
    WithinAppend(c, g.left[1..] + p, a);
    assert g.left[1..] + p + a == g.left[1..] + (p + a);
    WithinTwice(how.Fire(g).left, c + a, g.left[1..] + (p + a));
  }

  lemma {:induction false} RearmWithin(how: Plan, g: Going)
    requires how.Fits(g.s) && g.left != []
    ensures Within(how.Fire(g).left, how.Called(g).left + Rearmed(how, g))
  {
    var c := how.Called(g);
    StepWithin(how, c, Start(g.left[0]));
    WithinSame(c.left);
    assert c.left + [] == c.left;
  }

  // What fires, and what is left, comes in the order of the queue: first what was due before, then
  // what was put back, in the order of the calls.
  lemma {:induction false} SweepInOrder(how: Plan, g: Going, n: nat)
    requires how.Fits(g.s)
    ensures Within(how.Sweep(g, n).1 + how.Sweep(g, n).0.left, g.left + Added(how, g, n))
    decreases n
  {
    if n == 0 || g.left == [] {
      OrderNone(how, g, n);
    } else {
      var h := how.Fire(g);
      SweepInOrder(how, h, n - 1);
      OrderFired(how, g, n, how.Sweep(h, n - 1), Added(how, h, n - 1));
    }
  }

  lemma {:induction false} OrderNone(how: Plan, g: Going, n: nat)
    requires how.Fits(g.s) && (n == 0 || g.left == [])
    ensures Within(how.Sweep(g, n).1 + how.Sweep(g, n).0.left, g.left + Added(how, g, n))
  {
    WithinSame(g.left);
    assert [] + g.left == g.left && g.left + [] == g.left;
  }

  lemma {:induction false} OrderFired(how: Plan, g: Going, n: nat, r: (Going, seq<nat>), q: seq<nat>)
    requires how.Fits(g.s) && g.left != [] && n > 0
    requires r == how.Sweep(how.Fire(g), n - 1) && q == Added(how, how.Fire(g), n - 1)
    requires Within(r.1 + r.0.left, how.Fire(g).left + q)
    ensures Within(how.Sweep(g, n).1 + how.Sweep(g, n).0.left, g.left + Added(how, g, n))
  {
    var p := PutBack(how, how.CallsOf(g.left[0])) + Rearmed(how, g);
    FireWithin(how, g);
    SweepOne(how, g, n);
    OrderMore(g.left, p, q, how.Fire(g).left, r.1, r.0.left);
    assert Added(how, g, n) == p + q;
  }

  lemma {:induction false} OrderMore(left: seq<nat>, p: seq<nat>, q: seq<nat>, h: seq<nat>, f: seq<nat>, l: seq<nat>)
    requires left != [] && Within(h, left[1..] + p) && Within(f + l, h + q)
    ensures Within([left[0]] + f + l, left + (p + q))
  {
    WithinAppend(h, left[1..] + p, q);
    WithinTwice(f + l, h + q, left[1..] + p + q);
    WithinMore(f + l, left[1..] + p + q, left[0]);
    assert [left[0]] + (left[1..] + p + q) == left + (p + q);
    assert [left[0]] + (f + l) == [left[0]] + f + l;
  }

  // --- flags ------------------------------------------------------------------------------------

  // An active timer is pending, but for x.
  ghost predicate ActiveBut(s: Status, x: int) {
    |s.active| == |s.timeout| && forall t: nat :: t < |s.active| && s.active[t] && t != x ==> t in s.pending
  }

  ghost predicate ActivePend(s: Status) { ActiveBut(s, -1) }

  lemma {:induction false} CallsActive(how: Plan, g: Going, cs: seq<Command>, x: int)
    requires how.Fits(g.s) && ActiveBut(g.s, x)
    ensures ActiveBut(how.Calls(g, cs).s, x)
    decreases |cs|
  {
    if cs != [] {
      CallsActive(how, how.Step(g, cs[0]), cs[1..], x);
    }
  }

  // Whatever the callbacks do, active timers stay pending.
  lemma {:induction false} SweepActive(how: Plan, g: Going, n: nat)
    requires how.Fits(g.s) && ActivePend(g.s)
    ensures ActivePend(how.Sweep(g, n).0.s)
    decreases n
  {
    if n > 0 && g.left != [] {
      var t := g.left[0];
      CallsActive(how, Going(g.s.Without(t), g.left[1..]), how.CallsOf(t), t);
      SweepActive(how, how.Fire(g), n - 1);
    }
  }

  // --- rt_timer_stop with an interrupt in it ----------------------------------------------------

  // The last call that concerns t starts it.
  ghost predicate EndsStarted(cs: seq<Command>, t: nat) {
    cs != [] && (cs[|cs| - 1] == Start(t) || (cs[|cs| - 1].t != t && EndsStarted(cs[..|cs| - 1], t)))
  }

  lemma {:induction false} StartedPending(how: Plan, g: Going, cs: seq<Command>, t: nat)
    requires how.Fits(g.s) && t < |how.init| && t !in g.s.pending
    ensures var s := how.Calls(g, cs).s;
            && (t in s.pending <==> EndsStarted(cs, t))
            && (t in s.pending ==> s.active[t])
    decreases |cs|
  {
    if cs != [] {
      var most, c := cs[..|cs| - 1], cs[|cs| - 1];
      assert cs == most + [c];
      CallsMore(how, g, most, c);
      StartedPending(how, g, most, t);
    }
  }

  // rt_timer_stop takes an active timer off the queue, enables interrupts, and clears its flag.
  // Whatever calls an interrupt makes in between, afterwards the timer is inactive, and it is
  // not pending, as promised, if and only if the last of them that concerns it is not a start.
  lemma {:induction false} StopInterrupted(how: Plan, g: Going, cs: seq<Command>, t: nat)
    requires how.Fits(g.s) && t < |how.init| && g.s.active[t]
    ensures var s := how.Calls(Going(g.s.Without(t), g.left), cs).s;
            var r := s.(active := s.active[t := false]);
            !r.active[t] && (t !in r.pending <==> !EndsStarted(cs, t))
  {
    StartedPending(how, Going(g.s.Without(t), g.left), cs, t);
  }

  // --- callbacks that concern their own timer only ----------------------------------------------

  ghost predicate Own(cs: seq<Command>, t: nat) { forall i :: 0 <= i < |cs| ==> cs[i].t == t }

  ghost predicate StartsLast(cs: seq<Command>) { cs != [] && cs[|cs| - 1].Start? }

  // A timer with these calls and flags p (periodic) and a (active) was fired: is it active
  // afterwards, is it pending again?
  ghost predicate Stays(cs: seq<Command>, p: bool, a: bool) { p && (StartsLast(cs) || (cs == [] && a)) }

  ghost predicate Again(cs: seq<Command>, p: bool, a: bool) { Stays(cs, p, a) || StartsLast(cs) }

  // From s, calls that concern t, which was neither pending nor due, lead to r.
  ghost predicate OwnCalled(how: Plan, s: Status, cs: seq<Command>, t: nat, r: Status)
    requires how.Fits(s) && t < |how.init|
  {
    && how.Fits(r)
    && r.active == s.active[t := StartsLast(cs) || (cs == [] && s.active[t])]
    && r.pending == (if StartsLast(cs) then s.pending + {t} else s.pending)
    && (forall x :: 0 <= x < |how.init| && x != t ==> r.timeout[x] == s.timeout[x])
    && (StartsLast(cs) ==> r.timeout[t] == (how.tick + how.init[t]) % TICKS)
  }

  lemma {:induction false} OwnCalls(how: Plan, g: Going, cs: seq<Command>, t: nat)
    requires how.Fits(g.s) && Own(cs, t) && t < |how.init| && t !in g.s.pending && t !in g.left
    ensures how.Calls(g, cs).left == g.left + (if StartsLast(cs) then how.Back(Start(t)) else [])
    ensures OwnCalled(how, g.s, cs, t, how.Calls(g, cs).s)
    decreases |cs|
  {
    if cs != [] {
      var most, c := cs[..|cs| - 1], cs[|cs| - 1];
      assert cs == most + [c];
      CallsMore(how, g, most, c);
      OwnCalls(how, g, most, t);
      OwnDel(g.left, how.Back(Start(t)), t);
      OwnLeft(how, g, most, c, t);
      OwnStep(how, g.s, how.Calls(g, most).s, most, c, t);
    }
  }

  lemma {:induction false} OwnDel(left: seq<nat>, back: seq<nat>, t: nat)
    requires t !in left && back in {[], [t]}
    ensures Del(left, t) == left && Del(left + back, t) == left && left + [] == left
  {
    DelAbsent(left, t);
    DelConcat(left, back, t);
    assert Del([t], t) == [] + Del([], t) == [];
    assert left + [] == left;
  }

  lemma {:induction false} OwnLeft(how: Plan, g: Going, most: seq<Command>, c: Command, t: nat)
    requires how.Fits(g.s) && c.t == t < |how.init| && t !in g.left
    requires var h := how.Calls(g, most);
            && h.left == g.left + (if StartsLast(most) then how.Back(Start(t)) else [])
            && (StartsLast(most) ==> h.s.active[t])
    ensures how.Step(how.Calls(g, most), c).left == g.left + (if c.Start? then how.Back(Start(t)) else [])
  {
    OwnDel(g.left, how.Back(Start(t)), t);
  }

  lemma {:induction false} OwnStep(how: Plan, s: Status, r: Status, cs: seq<Command>, c: Command, t: nat)
    requires how.Fits(s) && t < |how.init| && t !in s.pending && OwnCalled(how, s, cs, t, r) && c.t == t
    ensures OwnCalled(how, s, cs + [c], t, how.Do(r, c))
  {
    assert s.pending + {t} - {t} == s.pending;
  }

  // From s0, firing the timers in gone leads to s.
  ghost predicate After(how: Plan, s0: Status, gone: set<nat>, s: Status) {
    how.Fits(s0) && how.Fits(s) && forall t: nat :: AfterAt(how, s0, gone, s, t)
  }

  ghost predicate AfterAt(how: Plan, s0: Status, gone: set<nat>, s: Status, t: nat)
    requires how.Fits(s0) && how.Fits(s)
  {
    && (t in s.pending <==>
        if t in gone then t < |how.init| && Again(how.onFire[t], how.periodic[t], s0.active[t]) else t in s0.pending)
    && (t in s.pending && t < |how.init| ==>
          s.timeout[t] == if t in gone then (how.tick + how.init[t]) % TICKS else s0.timeout[t])
    && (t < |how.init| ==>
          s.active[t] == if t in gone then Stays(how.onFire[t], how.periodic[t], s0.active[t]) else s0.active[t])
  }

  // Its calls are its own, and it is not due again at once.
  ghost predicate Alone(how: Plan, s: Status, t: nat)
    requires how.Fits(s)
  {
    t < |how.init| && Own(how.onFire[t], t) && (Again(how.onFire[t], how.periodic[t], s.active[t]) ==> how.init[t] > 0)
  }

  lemma {:induction false} OwnFire(how: Plan, g: Going, t: nat)
    requires how.Fits(g.s) && g.left != [] && Distinct(g.left) && g.left[0] == t && Alone(how, g.s, t)
    ensures how.Fire(g).left == g.left[1..] && After(how, g.s, {t}, how.Fire(g).s)
  {
    TailOf(g.left);
    assert t !in SetOf(g.left[1..]);
    OwnCalls(how, Going(g.s.Without(t), g.left[1..]), how.onFire[t], t);
    OwnDel(g.left[1..], how.Back(Start(t)), t);
    OwnRearm(how, g.s, how.Called(g), t, g.left[1..]);
  }

  lemma {:induction false} OwnRearm(how: Plan, s: Status, h: Going, t: nat, left: seq<nat>)
    requires how.Fits(s) && Alone(how, s, t) && OwnCalled(how, s.Without(t), how.onFire[t], t, h.s)
    requires t !in left && h.left == left + (if StartsLast(how.onFire[t]) then how.Back(Start(t)) else [])
    ensures how.Rearm(h, t).left == left && After(how, s, {t}, how.Rearm(h, t).s)
  {
    OwnDel(left, [], t);
  }

  lemma {:induction false} AloneStill(how: Plan, s: Status, r: Status, t: nat, x: nat)
    requires how.Fits(s) && Alone(how, s, x) && After(how, s, {t}, r) && x != t
    ensures Alone(how, r, x)
  {
    assert AfterAt(how, s, {t}, r, x);
  }

  lemma {:induction false} AfterTwice(how: Plan, s0: Status, t: nat, s: Status, gone: set<nat>, r: Status)
    requires After(how, s0, {t}, s) && After(how, s, gone, r) && t !in gone
    ensures After(how, s0, {t} + gone, r)
  {
    forall x: nat
      ensures AfterAt(how, s0, {t} + gone, r, x)
    {
      assert AfterAt(how, s0, {t}, s, x) && AfterAt(how, s, gone, r, x);
    }
  }

  lemma {:induction false} OwnRest(how: Plan, s: Status, r: Status, left: seq<nat>)
    requires how.Fits(s) && left != [] && Distinct(left) && (forall t :: t in left ==> Alone(how, s, t))
    requires After(how, s, {left[0]}, r)
    ensures Distinct(left[1..]) && left[0] !in SetOf(left[1..]) && SetOf(left) == {left[0]} + SetOf(left[1..])
    ensures forall t :: t in left[1..] ==> Alone(how, r, t)
  {
    TailOf(left);
    assert left[0] in left && SetOf(left) == {left[0]} + SetOf(left[1..]);
    forall x | x in left[1..]
      ensures Alone(how, r, x)
    {
      assert x in left && x in SetOf(left[1..]);
      AloneStill(how, s, r, left[0], x);
    }
  }

  // Then exactly what is due fires, each timer ends up as its own flags and calls say, and no
  // other changes.
  lemma {:induction false} OwnSweep(how: Plan, g: Going, n: nat)
    requires how.Fits(g.s) && Distinct(g.left) && n >= |g.left| && forall t :: t in g.left ==> Alone(how, g.s, t)
    ensures how.Ends(g, n) && how.Sweep(g, n).1 == g.left
    ensures After(how, g.s, SetOf(g.left), how.Sweep(g, n).0.s)
    decreases n, 1
  {
    if g.left != [] {
      var h := OwnFirst(how, g);
      OwnMore(how, g, n, h);
    }
  }

  // The first one fires, and the others are still so.
  lemma {:induction false} OwnFirst(how: Plan, g: Going) returns (h: Going)
    requires how.Fits(g.s) && g.left != [] && Distinct(g.left) && forall t :: t in g.left ==> Alone(how, g.s, t)
    ensures h == how.Fire(g) && h.left == g.left[1..] && Distinct(h.left)
    ensures g.left[0] in g.left && forall t :: t in h.left ==> Alone(how, h.s, t)
  {
    h := how.Fire(g);
    assert g.left[0] in g.left;
    OwnFire(how, g, g.left[0]);
    OwnRest(how, g.s, h.s, g.left);
  }

  lemma {:induction false} OwnMore(how: Plan, g: Going, n: nat, h: Going)
    requires how.Fits(g.s) && n >= |g.left| && g.left != [] && Distinct(g.left) && Alone(how, g.s, g.left[0])
    requires h == how.Fire(g) && h.left == g.left[1..]
    requires Distinct(h.left) && forall t :: t in h.left ==> Alone(how, h.s, t)
    ensures how.Ends(g, n) && how.Sweep(g, n).1 == g.left
    ensures After(how, g.s, SetOf(g.left), how.Sweep(g, n).0.s)
    decreases n, 0
  {
    assert [g.left[0]] + g.left[1..] == g.left;
    SweepOne(how, g, n);
    OwnFire(how, g, g.left[0]);
    OwnSweep(how, h, n - 1);
    TailOf(g.left);
    AfterTwice(how, g.s, g.left[0], h.s, SetOf(h.left), how.Sweep(h, n - 1).0.s);
    assert SetOf(g.left) == {g.left[0]} + SetOf(h.left);
  }

  // --- pending but inactive ---------------------------------------------------------------------

  // rt_timer_stop does not find it.
  ghost predicate Lost(s: Status, t: nat) { t in s.pending && t < |s.active| && !s.active[t] }

  // A one-shot timer whose timeout function starts it last.
  ghost predicate LostFor(how: Plan, t: nat) {
    t < |how.onFire| && t < |how.periodic| && EndsStarted(how.onFire[t], t) && !how.periodic[t]
  }

  // A timer that has just fired is pending without being active exactly if it is a one-shot timer
  // whose timeout function, whatever else it does, started it last.
  lemma {:induction false} FiredFlags(how: Plan, g: Going)
    requires how.Fits(g.s) && g.left != [] && g.left[0] < |how.init|
    ensures Lost(how.Fire(g).s, g.left[0]) <==> LostFor(how, g.left[0])
  {
    var t := g.left[0];
    StartedPending(how, Going(g.s.Without(t), g.left[1..]), how.onFire[t], t);
  }

  // It is pending again exactly if its function started it last, or if it is periodic, was active and
  // its function left it alone; then it is due as many ticks from now as its period says.
  lemma {:induction false} FiredAgain(how: Plan, g: Going)
    requires how.Fits(g.s) && g.left != [] && g.left[0] < |how.init|
    ensures var t, r := g.left[0], how.Fire(g).s;
            && (t in r.pending <==>
                (EndsStarted(how.onFire[t], t) || (how.periodic[t] && g.s.active[t] && !Concerns(how.onFire[t], t))))
            && (t in r.pending ==> r.timeout[t] == (how.tick + how.init[t]) % TICKS)
            && (r.active[t] <==> how.periodic[t] && t in r.pending)
  {
    var t := g.left[0];
    StartedPending(how, Going(g.s.Without(t), g.left[1..]), how.onFire[t], t);
    CallsOn(how, Going(g.s.Without(t), g.left[1..]), how.onFire[t], t);
  }

  // What calls do to timer t.
  lemma {:induction false} CallsOn(how: Plan, g: Going, cs: seq<Command>, t: nat)
    requires how.Fits(g.s) && t < |how.init| && t !in g.s.pending
    ensures var s := how.Calls(g, cs).s;
            && (s.active[t] <==> EndsStarted(cs, t) || (g.s.active[t] && !Concerns(cs, t)))
            && (t in s.pending ==> s.timeout[t] == (how.tick + how.init[t]) % TICKS)
    decreases |cs|
  {
    if cs != [] {
      var most, c := cs[..|cs| - 1], cs[|cs| - 1];
      assert cs == most + [c];
      CallsMore(how, g, most, c);
      CallsOn(how, g, most, t);
      ConcernsMore(most, c, t);
      StartedPending(how, g, most, t);
      StepOn(how, how.Calls(g, most), c, t);
    }
  }

  lemma {:induction false} StepOn(how: Plan, g: Going, c: Command, t: nat)
    requires how.Fits(g.s) && t < |how.init|
    ensures var s := how.Step(g, c).s;
            && (c.t != t ==> (s.active[t] <==> g.s.active[t]) && (t in s.pending <==> t in g.s.pending)
                             && s.timeout[t] == g.s.timeout[t])
            && (c == Start(t) ==> s.active[t] && s.timeout[t] == (how.tick + how.init[t]) % TICKS)
            && (c == Stop(t) ==> !s.active[t] && (t in s.pending <==> t in g.s.pending && !g.s.active[t])
                                 && s.timeout[t] == g.s.timeout[t])
  {
  }

  lemma {:induction false} ConcernsMore(cs: seq<Command>, c: Command, t: nat)
    ensures Concerns(cs + [c], t) <==> Concerns(cs, t) || c.t == t
    decreases |cs|
  {
    if cs != [] {
      assert (cs + [c])[0] == cs[0] && (cs + [c])[1..] == cs[1..] + [c];
      ConcernsMore(cs[1..], c, t);
    } else {
      assert ([] + [c])[1..] == [];
    }
  }

  // Calls leave it so if and only if none of them starts it.
  lemma {:induction false} LostCalls(how: Plan, g: Going, cs: seq<Command>, t: nat)
    requires how.Fits(g.s) && t < |how.init|
    ensures Lost(how.Calls(g, cs).s, t) <==> Lost(g.s, t) && Start(t) !in cs
    decreases |cs|
  {
    if cs != [] {
      LostCalls(how, how.Step(g, cs[0]), cs[1..], t);
      assert cs == [cs[0]] + cs[1..];
    }
  }

  lemma {:induction false} LostFire(how: Plan, g: Going, t: nat)
    requires how.Fits(g.s) && g.left != [] && g.left[0] != t < |how.init|
    ensures Lost(how.Fire(g).s, t) <==> Lost(g.s, t) && Start(t) !in how.CallsOf(g.left[0])
  {
    LostCalls(how, Going(g.s.Without(g.left[0]), g.left[1..]), how.CallsOf(g.left[0]), t);
  }

  // No timer in f starts t.
  ghost predicate NoneStarts(how: Plan, f: seq<nat>, t: nat) {
    forall i :: 0 <= i < |f| ==> Start(t) !in how.CallsOf(f[i])
  }

  // A timer that does not fire stays so if and only if no timer that fires starts it.
  lemma {:induction false} LostElsewhere(how: Plan, g: Going, n: nat, t: nat)
    requires how.Fits(g.s) && t < |how.init| && t !in how.Sweep(g, n).1
    ensures Lost(how.Sweep(g, n).0.s, t) <==> Lost(g.s, t) && NoneStarts(how, how.Sweep(g, n).1, t)
    decreases n
  {
    if n > 0 && g.left != [] {
      var u, h := g.left[0], how.Fire(g);
      assert how.Sweep(g, n).1 == [u] + how.Sweep(h, n - 1).1;
      LostFire(how, g, t);
      LostElsewhere(how, h, n - 1, t);
      NoneMore(how, u, how.Sweep(h, n - 1).1, t);
    }
  }

  lemma {:induction false} NoneMore(how: Plan, u: nat, f: seq<nat>, t: nat)
    ensures NoneStarts(how, [u] + f, t) <==> Start(t) !in how.CallsOf(u) && NoneStarts(how, f, t)
  {
    var s := [u] + f;
    assert s[0] == u && forall i :: 0 <= i < |f| ==> f[i] == s[i + 1];
  }

  // When it fires for the last time.
  lemma {:induction false} FlagsAtLast(how: Plan, g: Going, n: nat)
    requires how.Fits(g.s) && n > 0 && g.left != [] && g.left[0] < |how.init|
    requires g.left[0] !in how.Sweep(how.Fire(g), n - 1).1
    ensures var t := g.left[0];
            Lost(how.Sweep(how.Fire(g), n - 1).0.s, t) <==>
              LostFor(how, t) && NoneStarts(how, how.Sweep(how.Fire(g), n - 1).1, t)
  {
    FiredFlags(how, g);
    LostElsewhere(how, how.Fire(g), n - 1, g.left[0]);
  }

  // Over a whole run a timer ends up pending but inactive exactly if, when it fired last, it was a
  // one-shot timer whose timeout function started it last, and no timer fired later starts it.
  lemma {:induction false} FlagsOverRun(how: Plan, g: Going, n: nat, t: nat, k: nat)
    requires how.Fits(g.s) && t < |how.init|
    requires var f := how.Sweep(g, n).1; k < |f| && f[k] == t && t !in f[k + 1..]
    ensures Lost(how.Sweep(g, n).0.s, t) <==> LostFor(how, t) && NoneStarts(how, how.Sweep(g, n).1[k + 1..], t)
    decreases n
  {
    SweepOne(how, g, n);
    Behind(how.Sweep(g, n).1, how.Sweep(how.Fire(g), n - 1).1, g.left[0], k);
    if k == 0 {
      FlagsAtLast(how, g, n);
    } else {
      FlagsOverRun(how, how.Fire(g), n - 1, t, k - 1);
    }
  }

  lemma {:induction false} Behind(s: seq<nat>, f: seq<nat>, u: nat, k: nat)
    requires s == [u] + f && k < |s|
    ensures s[k + 1..] == f[k..] && s[k] == (if k == 0 then u else f[k - 1]) && f[0..] == f
  {
  }

  // The two timers of the example below; each starts timer 0 when it fires.
  function Both(): Plan { Plan(10, [5, 5], [false, false], [[Start(0)], [Start(0)]]) }

  lemma {:induction false} FireBoth(g: Going)
    requires Both().Fits(g.s) && g.left != [] && g.left[0] < 2 && 0 !in g.left[1..]
    ensures Both().Fire(g) == Going(Status(g.s.pending - {g.left[0]} + {0}, g.s.timeout[0 := 15],
                                           g.s.active[0 := true][g.left[0] := false]), g.left[1..])
  {
    var t := g.left[0];
    var h := Going(g.s.Without(t), g.left[1..]);
    DelAbsent(h.left, 0);
    assert Both().CallsOf(t) == [Start(0)] && [Start(0)][1..] == [];
    assert h.left + [] == h.left;
    assert Both().Called(g) == Both().Step(h, Start(0));
  }

  // Two one-shot timers are due in tick 10. If timer 0 fires alone it ends up pending but inactive;
  // if timer 1 fires after it, it does not.
  lemma {:induction false} LostOrNot()
    ensures var s := Status({0, 1}, [10, 10], [true, true]);
            && Lost(Both().Sweep(Going(s, [0]), 1).0.s, 0)
            && Both().Sweep(Going(s, [0, 1]), 2).1 == [0, 1] && !Lost(Both().Sweep(Going(s, [0, 1]), 2).0.s, 0)
  {
    var s := Status({0, 1}, [10, 10], [true, true]);
    var g, h := Going(s, [0, 1]), Both().Fire(Going(s, [0, 1]));
    assert [0][1..] == [] && [0, 1][1..] == [1] && [1][1..] == [];
    FireBoth(Going(s, [0]));
    FireBoth(g);
    FireBoth(h);
    assert Both().Sweep(Both().Fire(h), 0).1 == [] && Both().Sweep(h, 1).1 == [1] + [];
    assert Both().Sweep(g, 2).1 == [0] + [1];
  }
}
