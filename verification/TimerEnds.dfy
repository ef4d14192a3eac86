/** When the loop of rt_timer_check ends. A timer that is started without delay is due at once, so
    that the loop has to fire it before it ends. */
module TimerEnds {
  import opened Lists
  import opened TimerSweep

  // --- never --------------------------------------------------------------------------------------

  ghost predicate Unstopped(how: Plan, t: nat) {
    forall u :: 0 <= u < |how.onFire| ==> Stop(t) !in how.onFire[u]
  }

  lemma {:induction false} StaysDue(how: Plan, g: Going, cs: seq<Command>, t: nat)
    requires how.Fits(g.s) && how.AtOnce(t) && g.s.active[t] && Stop(t) !in cs
    ensures how.Calls(g, cs).s.active[t] && (t in g.left ==> t in how.Calls(g, cs).left)
    decreases |cs|
  {
    if cs != [] {
      assert cs[0] in cs;
      DelMember(g.left, cs[0].t, t);
      StaysDue(how, how.Step(g, cs[0]), cs[1..], t);
    }
  }

  lemma {:induction false} FireStays(how: Plan, g: Going, t: nat)
    requires how.Fits(g.s) && t in g.left && how.AtOnce(t) && how.periodic[t] && g.s.active[t] && Unstopped(how, t)
    ensures t in how.Fire(g).left && how.Fire(g).s.active[t]
  {
    var u := g.left[0];
    assert g.left == [u] + g.left[1..];
    StaysDue(how, Going(g.s.Without(u), g.left[1..]), how.CallsOf(u), t);
    DelMember(how.Called(g).left, u, t);
  }

  // A periodic timer without delay that nobody stops is due after any number of rounds.
  lemma {:induction false} Endless(how: Plan, g: Going, n: nat, t: nat)
    requires how.Fits(g.s) && t in g.left && how.AtOnce(t) && how.periodic[t] && g.s.active[t] && Unstopped(how, t)
    ensures t in how.Sweep(g, n).0.left
    decreases n
  {
    if n > 0 {
      FireStays(how, g, t);
      Endless(how, how.Fire(g), n - 1, t);
      SweepOne(how, g, n);
    }
  }

  // --- always, without circles --------------------------------------------------------------------

  // What a timeout function starts without delay is ranked lower than its own timer, and no timer
  // starts itself again so.
  ghost predicate RankedAt(how: Plan, rank: map<nat, nat>, u: nat)
    requires u in rank
  {
    && u < |how.init| == |how.periodic|
    && (forall i :: 0 <= i < |how.CallsOf(u)| ==> Lower(how, rank, how.CallsOf(u)[i], rank[u]))
    && (how.periodic[u] && how.AtOnce(u) ==> EndsStopped(how.CallsOf(u), u))
  }

  ghost predicate Lower(how: Plan, rank: map<nat, nat>, c: Command, r: nat) {
    how.Back(c) != [] ==> c.t in rank && rank[c.t] < r
  }

  ghost predicate Ranked(how: Plan, rank: map<nat, nat>) { forall u :: u in rank ==> RankedAt(how, rank, u) }

  ghost predicate Under(s: seq<nat>, rank: map<nat, nat>, r: nat) {
    forall i :: 0 <= i < |s| ==> s[i] in rank && rank[s[i]] <= r
  }

  ghost predicate Is(rank: map<nat, nat>, x: nat, r: nat) { x in rank && rank[x] == r }

  // How many timers in s have rank r, and how many come before the first of them.
  ghost function Count(s: seq<nat>, rank: map<nat, nat>, r: nat): nat {
    if s == [] then 0 else (if Is(rank, s[0], r) then 1 else 0) + Count(s[1..], rank, r)
  }

  ghost function Ahead(s: seq<nat>, rank: map<nat, nat>, r: nat): nat {
    if Count(s, rank, r) == 0 || Is(rank, s[0], r) then 0 else 1 + Ahead(s[1..], rank, r)
  }

  // a is no further from its end than b.
  ghost predicate NoFurther(a: seq<nat>, b: seq<nat>, rank: map<nat, nat>, r: nat) {
    || Count(a, rank, r) < Count(b, rank, r)
    || (Count(a, rank, r) == Count(b, rank, r) && Ahead(a, rank, r) <= Ahead(b, rank, r))
  }

  lemma {:induction false} DelNoFurther(s: seq<nat>, x: nat, rank: map<nat, nat>, r: nat)
    ensures NoFurther(Del(s, x), s, rank, r)
  {
    if s != [] {
      DelNoFurther(s[1..], x, rank, r);
      if s[0] == x {
        assert Del(s, x) == [] + Del(s[1..], x) == Del(s[1..], x);
      } else {
        assert Del(s, x) == [s[0]] + Del(s[1..], x) && Del(s, x)[1..] == Del(s[1..], x);
      }
    }
  }

  lemma {:induction false} AppendSame(s: seq<nat>, y: nat, rank: map<nat, nat>, r: nat)
    requires !Is(rank, y, r)
    ensures Count(s + [y], rank, r) == Count(s, rank, r) && Ahead(s + [y], rank, r) == Ahead(s, rank, r)
  {
    if s == [] {
      assert [] + [y] == [y] && [y][1..] == [];
    } else {
      assert (s + [y])[1..] == s[1..] + [y];
      AppendSame(s[1..], y, rank, r);
    }
  }

  // A call brings the queue no further from its end, if it puts back nothing of that rank.
  lemma {:induction false} StepNoFurther(how: Plan, g: Going, c: Command, rank: map<nat, nat>, r: nat)
    requires how.Fits(g.s) && Lower(how, rank, c, r) && Under(g.left, rank, r)
    ensures NoFurther(how.Step(g, c).left, g.left, rank, r) && Under(how.Step(g, c).left, rank, r)
  {
    DelNoFurther(g.left, c.t, rank, r);
    forall i | 0 <= i < |Del(g.left, c.t)|
      ensures Del(g.left, c.t)[i] in g.left
    {
      DelMember(g.left, c.t, Del(g.left, c.t)[i]);
    }
    if how.Back(c) != [] {
      AppendSame(Del(g.left, c.t), c.t, rank, r);
    }
    assert Del(g.left, c.t) + [] == Del(g.left, c.t);
  }

  lemma {:induction false} CallsNoFurther(how: Plan, g: Going, cs: seq<Command>, rank: map<nat, nat>, r: nat)
    requires how.Fits(g.s) && Under(g.left, rank, r) && forall i :: 0 <= i < |cs| ==> Lower(how, rank, cs[i], r)
    ensures NoFurther(how.Calls(g, cs).left, g.left, rank, r) && Under(how.Calls(g, cs).left, rank, r)
    decreases |cs|
  {
    if cs != [] {
      StepNoFurther(how, g, cs[0], rank, r);
      CallsNoFurther(how, how.Step(g, cs[0]), cs[1..], rank, r);
    }
  }

  // One timer fewer is left, or they move up by one.
  ghost predicate Nearer(a: seq<nat>, b: seq<nat>, rank: map<nat, nat>, r: nat) {
    || Count(a, rank, r) < Count(b, rank, r)
    || (Count(a, rank, r) == Count(b, rank, r) && (Count(b, rank, r) > 0 ==> Ahead(a, rank, r) < Ahead(b, rank, r)))
  }

  lemma {:induction false} FireNearer(how: Plan, g: Going, rank: map<nat, nat>, r: nat)
    requires how.Fits(g.s) && g.left != [] && Ranked(how, rank) && Under(g.left, rank, r)
    ensures Under(how.Fire(g).left, rank, r) && Nearer(how.Fire(g).left, g.left, rank, r)
  {
    var t := g.left[0];
    assert t in rank && RankedAt(how, rank, t);
    var g1 := Going(g.s.Without(t), g.left[1..]);
    CallsNoFurther(how, g1, how.CallsOf(t), rank, r);
    if how.periodic[t] && how.AtOnce(t) {
      StoppedInactive(how, g1, how.CallsOf(t), t);
    } else if how.Restarts(how.Called(g).s, t) {
      StepNoFurther(how, how.Called(g), Start(t), rank, r);
    }
    assert NoFurther(how.Fire(g).left, g.left[1..], rank, r);
  }

  // If no circle of timers start each other without delay, the loop ends: each rank in turn dies out.
  lemma {:induction false} RankedEnds(how: Plan, g: Going, rank: map<nat, nat>, r: nat) returns (n: nat)
    requires how.Fits(g.s) && Ranked(how, rank) && Under(g.left, rank, r)
    ensures how.Ends(g, n)
    decreases r, Count(g.left, rank, r), Ahead(g.left, rank, r)
  {
    if g.left == [] {
      n := 0;
    } else if Count(g.left, rank, r) == 0 {
      NoneLeft(g.left, rank, r);
      n := RankedEnds(how, g, rank, r - 1);
    } else {
      FireNearer(how, g, rank, r);
      n := RankedEnds(how, how.Fire(g), rank, r);
      SweepOne(how, g, n + 1);
      n := n + 1;
    }
  }

  lemma {:induction false} NoneLeft(s: seq<nat>, rank: map<nat, nat>, r: nat)
    requires Under(s, rank, r) && Count(s, rank, r) == 0 && s != []
    ensures r > 0 && Under(s, rank, r - 1)
  {
    if |s| > 1 {
      NoneLeft(s[1..], rank, r);
      forall i | 0 <= i < |s|
        ensures s[i] in rank && rank[s[i]] <= r - 1
      {
        if i > 0 {
          assert s[i] == s[1..][i - 1];
        }
      }
    }
  }

  // If t fires, it is not due again at once, nor does it make any other timer so.
  ghost predicate Later(how: Plan, t: nat) {
    && t < |how.init| == |how.periodic| == |how.onFire|
    && (forall i :: 0 <= i < |how.onFire[t]| ==> how.Back(how.onFire[t][i]) == [])
    && (how.periodic[t] && how.AtOnce(t) ==> EndsStopped(how.onFire[t], t))
  }

  // In particular, it ends if that is so of all due timers.
  lemma {:induction false} LaterEnds(how: Plan, g: Going) returns (n: nat)
    requires how.Fits(g.s) && forall i :: 0 <= i < |g.left| ==> Later(how, g.left[i])
    ensures how.Ends(g, n)
  {
    var rank: map<nat, nat> := map t | t in g.left :: 0;
    forall u | u in rank
      ensures RankedAt(how, rank, u)
    {
      assert Later(how, u);
    }
    n := RankedEnds(how, g, rank, 0);
  }
}
