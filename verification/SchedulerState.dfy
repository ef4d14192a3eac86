/** The ready queues, the ready group and the running thread. Threads are named by numbers; a
    smaller priority is stronger. */
module SchedulerState {
  import opened Lists

  const PRIORITIES := 32      // RT_THREAD_PRIORITY_MAX

  datatype Stat = Init | Ready | Suspend | Running

  datatype Event =
    | Launch                               // rt_system_scheduler_start
    | Startup(t: nat)                      // rt_thread_startup
    | Suspension(t: nat)                   // rt_thread_suspend
    | Resumption(t: nat)                   // rt_thread_resume, rt_thread_timeout
    | Reprioritize(t: nat, p: nat)         // rt_thread_control
    | Yield                                // rt_thread_yield: just rt_schedule
    | SliceEnd                             // rt_tick_increase when the time slice is used up
    | Lock                                 // rt_enter_critical
    | Unlock                               // rt_exit_critical

  // The first member of g from p on.
  function First(g: set<nat>, p: nat): (r: nat)
    requires p <= PRIORITIES
    ensures p <= r <= PRIORITIES && (r < PRIORITIES ==> r in g) && forall q :: p <= q < r ==> q !in g
    decreases PRIORITIES - p
  {
    if p == PRIORITIES || p in g then p else First(g, p + 1)
  }

  datatype State = State(
    group: set<nat>,             // rt_thread_ready_priority_group, as the places of its one bits
    table: seq<seq<nat>>,        // rt_thread_priority_table
    init: seq<nat>,              // init_priority
    prio: seq<nat>,              // current_priority
    stat: seq<Stat>,
    yielded: seq<bool>,           // RT_THREAD_STAT_YIELD
    current: nat,                // rt_current_thread; RT_NULL is the number of no thread
    locks: nat)                  // rt_scheduler_lock_nest
  {
    ghost predicate Sized() {
      && |table| == PRIORITIES && |stat| == |init| == |prio| == |yielded| && current <= |prio|
      && (forall t :: 0 <= t < |prio| ==> prio[t] < PRIORITIES && init[t] < PRIORITIES)
      && (forall p :: p in group ==> p < PRIORITIES)
    }

    ghost predicate Launched() { current < |prio| }

    // Queue p holds the ready threads of priority p, each once, and bit p says whether there
    // are any.
    ghost predicate QueueOk(p: nat)
      requires p < |table|
    {
      && Distinct(table[p]) && (p in group <==> table[p] != [])
      && forall t :: t in table[p] ==> t < |prio| == |stat| && prio[t] == p && stat[t] == Ready
    }

    ghost predicate Ok() {
      && Sized()
      && (forall p :: 0 <= p < PRIORITIES ==> QueueOk(p))
      && (forall t :: 0 <= t < |stat| && stat[t] == Ready ==> t in table[prio[t]])
      && (forall t :: 0 <= t < |stat| && stat[t] == Running ==> t == current)
      && (Launched() ==> stat[current] in {Running, Suspend})
    }

    // rt_schedule_insert_thread
    ghost function Insert(t: nat): State
      requires Sized() && t < |prio|
    {
      if t == current then this.(stat := stat[t := Running])
      else
        var p := prio[t];
        this.(stat := stat[t := Ready], table := table[p := table[p] + [t]], group := group + {p})
    }

    // rt_schedule_remove_thread
    ghost function Remove(t: nat): State
      requires Sized() && t < |prio|
    {
      var p := prio[t];
      var q := Del(table[p], t);
      this.(table := table[p := q], group := if q == [] then group - {p} else group)
    }

    // There is a first thread in the queue that the group says is the strongest.
    ghost predicate Pickable() {
      Sized() && var p := First(group, 0); p < PRIORITIES ==> table[p] != [] && table[p][0] < |prio|
    }

    // rt_schedule
    ghost function Scheduled(): State
      requires Pickable() && Launched()
    {
      var p := First(group, 0);
      if locks > 0 || p == PRIORITIES then this
      else if stat[current] == Running && (prio[current] < p || (prio[current] == p && !yielded[current])) then this
      else Switched(p)
    }

    // The first thread of queue p becomes the running one.
    ghost function Switched(p: nat): State
      requires Sized() && Launched() && p < PRIORITIES && table[p] != [] && table[p][0] < |prio|
    {
      var to, s := table[p][0], HandedOff(table[p][0]);
      s.Remove(to).(stat := s.stat[to := Running])
    }

    // The running thread is put back into its queue.
    ghost function HandedOff(to: nat): State
      requires Sized() && Launched() && to < |prio|
    {
      if stat[current] == Running then this.(current := to, yielded := yielded[current := false]).Insert(current)
      else this.(current := to)
    }

    // At the start the first thread of queue p just leaves it; it has no flags.
    ghost function Begun(p: nat): State
      requires Sized() && p < PRIORITIES && table[p] != [] && table[p][0] < |prio|
    {
      var to := table[p][0];
      this.(current := to).Remove(to).(stat := stat[to := Running], yielded := yielded[to := false])
    }

    ghost predicate Enabled(e: Event) {
      match e
      case Launch => !Launched() && group != {}
      case Startup(t) => t < |stat| && stat[t] == Init
      case Suspension(t) => t < |stat|
      case Resumption(t) => t < |stat|
      case Reprioritize(t, p) => t < |stat| && p < PRIORITIES
      case Yield => Launched()
      case SliceEnd => Launched()
      case _ => true
    }

    ghost function Next(e: Event): State
      requires Ok() && Enabled(e)
    {
      FirstReady(this);
      match e
      case Launch => Begun(First(group, 0))
      case Startup(t) =>
        this.(prio := prio[t := init[t]], stat := stat[t := Suspend], yielded := yielded[t := false]).Insert(t)
      case Suspension(t) =>
        if stat[t] == Ready || stat[t] == Running then var s := Remove(t); s.(stat := s.stat[t := Suspend]) else this
      case Resumption(t) => if stat[t] == Suspend then Insert(t) else this
      case Reprioritize(t, p) =>
        if stat[t] == Ready then Remove(t).(prio := prio[t := p]).Insert(t) else this.(prio := prio[t := p])
      case Yield => Scheduled()
      case SliceEnd => this.(yielded := yielded[current := true]).Scheduled()
      case Lock => this.(locks := locks + 1)
      case Unlock =>
        if locks > 1 then this.(locks := locks - 1)
        else if Launched() then this.(locks := 0).Scheduled()
        else this.(locks := 0)
    }

    // No ready thread is stronger than the running one.
    ghost predicate Strongest() {
      && current < |prio| && current < |stat| && stat[current] == Running
      && forall t :: 0 <= t < |stat| && t < |prio| && stat[t] == Ready ==> prio[current] <= prio[t]
    }
  }

  // --- the ready queues over every run ------------------------------------------------------------

  lemma {:induction false} InsertOk(s: State, t: nat)
    requires s.Ok() && t < |s.prio| && s.stat[t] in {Init, Suspend}
    ensures s.Insert(t).Ok()
  {
    var u, p := s.Insert(t), s.prio[t];
    assert s.QueueOk(p);
    if t != s.current {
      InsDistinct(s.table[p], |s.table[p]|, t);
      assert Ins(s.table[p], |s.table[p]|, t) == s.table[p] + [t];
    }
    forall q | 0 <= q < PRIORITIES
      ensures u.QueueOk(q)
    {
      assert s.QueueOk(q);
    }
  }

  // Off its queue, a thread that was ready is neither ready nor in any queue.
  lemma {:induction false} RemoveOk(s: State, t: nat, st: Stat)
    requires s.Ok() && t < |s.prio| && s.stat[t] in {Ready, Running} && st in {Init, Suspend}
               && (t == s.current ==> st == Suspend)
    ensures var u := s.Remove(t).(stat := s.stat[t := st]); u.Ok()
    ensures forall q :: 0 <= q < PRIORITIES ==> t !in s.Remove(t).table[q]
  {
    var u, p := s.Remove(t).(stat := s.stat[t := st]), s.prio[t];
    assert s.QueueOk(p);
    DelDistinct(s.table[p], t);
    forall x
      ensures x in Del(s.table[p], t) <==> x in s.table[p] && x != t
    {
      DelMember(s.table[p], t, x);
    }
    forall q | 0 <= q < PRIORITIES
      ensures u.QueueOk(q) && t !in u.table[q]
    {
      assert s.QueueOk(q);
    }
  }

  // First finds the strongest queue that is not empty.
  lemma {:induction false} FirstReady(s: State)
    requires s.Ok()
    ensures var p := First(s.group, 0);
            && (forall t :: 0 <= t < |s.prio| && s.stat[t] == Ready ==> p <= s.prio[t])
            && (p < PRIORITIES ==> s.table[p] != [] && s.table[p][0] < |s.prio|)
            && (p < PRIORITIES ==> s.stat[s.table[p][0]] == Ready && s.prio[s.table[p][0]] == p)
  {
    var p := First(s.group, 0);
    forall t | 0 <= t < |s.prio| && s.stat[t] == Ready
      ensures p <= s.prio[t]
    {
      assert s.QueueOk(s.prio[t]);
    }
    if p < PRIORITIES {
      assert s.QueueOk(p) && s.table[p][0] in s.table[p];
    }
  }

  lemma {:induction false} SwitchOk(s: State, p: nat)
    requires s.Ok() && s.Launched() && p < PRIORITIES && s.table[p] != [] && s.table[p][0] < |s.prio|
    requires s.stat[s.table[p][0]] == Ready && s.prio[s.table[p][0]] == p
    ensures s.Switched(p).Ok() && s.Switched(p).Launched()
    ensures Handed(s, p, s.Switched(p))
  {
    var to, v := s.table[p][0], s.HandedOff(s.table[p][0]);
    HandOff(s, to);
    FirstOut(v, p, to);
    SwitchIs(s, v, v.Remove(to).(stat := v.stat[to := Running]), p);
  }

  // The processor went from the current thread to the first of queue p.
  ghost predicate Handed(s: State, p: nat, u: State)
    requires s.Sized() && s.Launched() && p < PRIORITIES && s.table[p] != [] && s.table[p][0] < |s.prio|
    requires u.Sized()
  {
    var q := s.table[p];
    && u.prio == s.prio && u.current == q[0] && u.stat[q[0]] == Running && u.locks == s.locks
    && u.table == (if s.stat[s.current] == Running
                   then var t1 := s.table[s.prio[s.current] := s.table[s.prio[s.current]] + [s.current]];
                        t1[p := t1[p][1..]]
                   else s.table[p := q[1..]])
    && u.yielded == (if s.stat[s.current] == Running then s.yielded[s.current := false] else s.yielded)
    && |u.stat| == |s.stat| && forall t :: 0 <= t < |s.prio| && t != q[0] && t != s.current ==> u.stat[t] == s.stat[t]
  }

  lemma {:induction false} SwitchIs(s: State, v: State, u: State, p: nat)
    requires s.Sized() && s.Launched() && p < PRIORITIES && s.table[p] != [] && s.table[p][0] < |s.prio|
    requires v == s.HandedOff(s.table[p][0]) && u.Sized() && s.table[p][0] != s.current
    requires u == v.(table := v.table[p := v.table[p][1..]], group := u.group, stat := v.stat[s.table[p][0] := Running])
    ensures Handed(s, p, u)
  {
  }

  // The running thread joins its queue, while the thread to run next still is in its own.
  lemma {:induction false} HandOff(s: State, to: nat)
    requires s.Ok() && s.Launched() && to < |s.prio| && s.stat[to] == Ready
    ensures Between(s.HandedOff(to))
  {
    var from, v := s.current, s.HandedOff(to);
    var p := s.prio[from];
    assert s.QueueOk(p);
    InsDistinct(s.table[p], |s.table[p]|, from);
    assert Ins(s.table[p], |s.table[p]|, from) == s.table[p] + [from];
    forall q | 0 <= q < PRIORITIES
      ensures v.QueueOk(q)
    {
      assert s.QueueOk(q);
    }
  }

  // Ok, except that the running thread is still in its queue.
  ghost predicate Between(v: State) {
    && v.Sized() && v.Launched() && v.stat[v.current] == Ready
    && (forall p :: 0 <= p < PRIORITIES ==> v.QueueOk(p))
    && (forall t :: 0 <= t < |v.stat| && v.stat[t] == Ready ==> t in v.table[v.prio[t]])
    && (forall t :: 0 <= t < |v.stat| ==> v.stat[t] != Running)
  }

  // The first thread of queue p has left it.
  lemma {:induction false} QueueWithout(v: State, u: State, p: nat, k: nat)
    requires p < |v.table| && k < |v.table| && v.QueueOk(p) && v.QueueOk(k) && v.table[p] != []
    requires u.table == v.table[p := v.table[p][1..]] && u.prio == v.prio
    requires v.table[p][0] < |v.stat| && u.stat == v.stat[v.table[p][0] := Running]
    requires u.group == if v.table[p][1..] == [] then v.group - {p} else v.group
    ensures u.QueueOk(k)
  {
    var q := v.table[p];
    TailOf(q);
    forall t | t in q[1..]
      ensures t in q && t != q[0]
    {
      assert t in SetOf(q[1..]);
    }
  }

  lemma {:induction false} FirstOut(v: State, p: nat, to: nat)
    requires Between(v) && to == v.current && p == v.prio[to] && v.table[p] != [] && v.table[p][0] == to
    ensures v.Remove(to).(stat := v.stat[to := Running]).Ok() && v.Remove(to).table == v.table[p := v.table[p][1..]]
  {
    var q := v.table[p];
    assert v.QueueOk(p);
    DelAt(q, 0);
    TailOf(q);
    assert Del(q, to) == q[1..];
    var u := v.Remove(to).(stat := v.stat[to := Running]);
    forall k | 0 <= k < PRIORITIES
      ensures u.QueueOk(k)
    {
      assert v.QueueOk(k);
      QueueWithout(v, u, p, k);
    }
    forall t | 0 <= t < |u.stat| && u.stat[t] == Ready
      ensures t in u.table[u.prio[t]]
    {
      assert q == [q[0]] + q[1..];
    }
  }

  lemma {:induction false} ScheduleOk(s: State)
    requires s.Ok() && s.Launched()
    ensures s.Pickable() && s.Scheduled().Ok() && s.Scheduled().Launched()
  {
    FirstReady(s);
    if First(s.group, 0) < PRIORITIES {
      SwitchOk(s, First(s.group, 0));
    }
  }

  lemma {:induction false} ReprioritizeOk(s: State, t: nat, p: nat)
    requires s.Ok() && t < |s.prio| && p < PRIORITIES
    ensures s.Next(Reprioritize(t, p)).Ok()
  {
    var u := s.Next(Reprioritize(t, p));
    if s.stat[t] == Ready {
      RemoveOk(s, t, Suspend);
      var v := s.Remove(t).(stat := s.stat[t := Suspend]);
      PrioOk(v, t, p);
      InsertOk(v.(prio := s.prio[t := p]), t);
      assert u == v.(prio := s.prio[t := p]).Insert(t);
    } else {
      PrioOk(s, t, p);
    }
  }

  // The priority of a thread that is in no queue may change.
  lemma {:induction false} PrioOk(s: State, t: nat, p: nat)
    requires s.Ok() && t < |s.prio| && p < PRIORITIES && s.stat[t] != Ready
    ensures s.(prio := s.prio[t := p]).Ok()
  {
    var u := s.(prio := s.prio[t := p]);
    forall q | 0 <= q < PRIORITIES
      ensures u.QueueOk(q)
    {
      assert s.QueueOk(q);
    }
  }

  lemma {:induction false} SuspendOk(s: State, t: nat)
    requires s.Ok() && t < |s.prio|
    ensures s.Next(Suspension(t)).Ok()
  {
    if s.stat[t] == Ready || s.stat[t] == Running {
      RemoveOk(s, t, Suspend);
    }
  }

  lemma {:induction false} StartupOk(s: State, t: nat)
    requires s.Ok() && s.Enabled(Startup(t))
    ensures s.Next(Startup(t)).Ok()
  {
    PrioOk(s, t, s.init[t]);
    var u := s.(prio := s.prio[t := s.init[t]]);
    var v := u.(stat := s.stat[t := Suspend], yielded := s.yielded[t := false]);
    StatOk(u, v);
    InsertOk(v, t);
  }

  // The strongest thread that was started begins to run.
  lemma {:induction false} LaunchOk(s: State)
    requires s.Ok() && s.Enabled(Launch)
    ensures s.Next(Launch).Ok() && s.Next(Launch).Launched() && s.Next(Launch).Strongest()
  {
    FirstReady(s);
    var p := First(s.group, 0);
    GroupFirst(s.group);
    var v := s.(current := s.table[p][0], yielded := s.yielded[s.table[p][0] := false]);
    assert Between(v) by {
      forall q | 0 <= q < PRIORITIES
        ensures v.QueueOk(q)
      {
        assert s.QueueOk(q);
      }
    }
    FirstOut(v, p, v.current);
  }

  lemma {:induction false} GroupFirst(g: set<nat>)
    requires g != {} && forall p :: p in g ==> p < PRIORITIES
    ensures First(g, 0) < PRIORITIES
  {
    var p :| p in g;
  }

  lemma {:induction false} OkNext(s: State, e: Event)
    requires s.Ok() && s.Enabled(e)
    ensures s.Next(e).Ok()
  {
    match e
    case Launch => LaunchOk(s);
    case Startup(t) => StartupOk(s, t);
    case Suspension(t) => SuspendOk(s, t);
    case Resumption(t) =>
      if s.stat[t] == Suspend { InsertOk(s, t); }
    case Reprioritize(t, p) => ReprioritizeOk(s, t, p);
    case Yield => ScheduleOk(s);
    case SliceEnd =>
      StatOk(s, s.(yielded := s.yielded[s.current := true]));
      ScheduleOk(s.(yielded := s.yielded[s.current := true]));
    case Lock => StatOk(s, s.(locks := s.locks + 1));
    case Unlock =>
      StatOk(s, s.(locks := if s.locks <= 1 then 0 else s.locks - 1));
      if s.locks <= 1 && s.Launched() { ScheduleOk(s.(locks := 0)); }
  }

  // Nothing that the queues depend on changes.
  lemma {:induction false} StatOk(s: State, u: State)
    requires s.Ok() && u == s.(stat := u.stat, yielded := u.yielded, locks := u.locks)
    requires |u.stat| == |s.stat| == |u.yielded|
    requires forall t :: 0 <= t < |s.stat| ==> u.stat[t] == s.stat[t] || (s.stat[t] == Init && u.stat[t] == Suspend)
    ensures u.Ok()
  {
    forall p | 0 <= p < PRIORITIES
      ensures u.QueueOk(p)
    {
      assert s.QueueOk(p);
    }
  }

  // After rt_system_scheduler_init no thread is started yet, and none runs.
  ghost predicate Fresh(s: State) {
    && s.Sized() && !s.Launched() && s.group == {} && s.locks == 0
    && (forall p :: 0 <= p < PRIORITIES ==> s.table[p] == [])
    && (forall t :: 0 <= t < |s.stat| ==> s.stat[t] == Init && !s.yielded[t] && s.prio[t] == s.init[t])
  }

  lemma {:induction false} FreshOk(s: State)
    requires Fresh(s)
    ensures s.Ok()
  {
    forall p | 0 <= p < PRIORITIES
      ensures s.QueueOk(p)
    {
      assert s.table[p] == [];
    }
  }

  ghost predicate Run(s: State, es: seq<Event>)
    requires s.Ok()
    decreases |es|
  {
    es == [] || (s.Enabled(es[0]) && (OkNext(s, es[0]); Run(s.Next(es[0]), es[1..])))
  }

  ghost function After(s: State, es: seq<Event>): (u: State)
    requires s.Ok() && Run(s, es)
    ensures u.Ok()
    decreases |es|
  {
    if es == [] then s
    else
      OkNext(s, es[0]);
      After(s.Next(es[0]), es[1..])
  }

  // In every state that is reached from there the queues are right, and a thread runs, or has
  // just been suspended, if and only if the scheduler was started.
  lemma {:induction false} Reached(s: State, es: seq<Event>)
    requires Fresh(s) && (FreshOk(s); Run(s, es))
    ensures var u := (FreshOk(s); After(s, es));
            && u.Ok() && (u.Launched() <==> Launch in es)
            && (Launch in es ==> u.stat[u.current] in {Running, Suspend})
  {
    FreshOk(s);
    LaunchedOnce(s, es);
  }

  lemma {:induction false} LaunchedOnce(s: State, es: seq<Event>)
    requires s.Ok() && Run(s, es)
    ensures After(s, es).Launched() <==> s.Launched() || Launch in es
    decreases |es|
  {
    if es != [] {
      OkNext(s, es[0]);
      LaunchedNext(s, es[0]);
      LaunchedOnce(s.Next(es[0]), es[1..]);
      assert es == [es[0]] + es[1..];
    }
  }

  lemma {:induction false} LaunchedNext(s: State, e: Event)
    requires s.Ok() && s.Enabled(e)
    ensures s.Next(e).Launched() <==> s.Launched() || e == Launch
  {
    match e
    case Launch => LaunchOk(s);
    case Yield => ScheduleOk(s);
    case SliceEnd =>
      StatOk(s, s.(yielded := s.yielded[s.current := true]));
      ScheduleOk(s.(yielded := s.yielded[s.current := true]));
    case Unlock =>
      StatOk(s, s.(locks := 0));
      if s.Launched() { ScheduleOk(s.(locks := 0)); }
    case _ =>
  }

  // --- strict priority ----------------------------------------------------------------------------

  // After a schedule that is not locked out no ready thread is stronger than the running one,
  // unless there was nothing to run at all.
  lemma {:induction false} StrongestRuns(s: State)
    requires s.Ok() && s.Launched() && s.locks == 0 && (s.stat[s.current] == Running || s.group != {})
    ensures s.Pickable() && s.Scheduled().Strongest()
  {
    FirstReady(s);
    var p := First(s.group, 0);
    if p < PRIORITIES {
      SwitchStrongest(s, p);
    }
  }

  // The first of the strongest ready threads is not weaker than the one it takes over from, if
  // that is still ready.
  lemma {:induction false} SwitchStrongest(s: State, p: nat)
    requires s.Ok() && s.Launched() && p < PRIORITIES && s.table[p] != [] && s.table[p][0] < |s.prio|
    requires s.stat[s.table[p][0]] == Ready && s.prio[s.table[p][0]] == p
    requires forall t :: 0 <= t < |s.prio| && s.stat[t] == Ready ==> p <= s.prio[t]
    ensures s.stat[s.current] == Running && p <= s.prio[s.current] ==> s.Switched(p).Strongest()
    ensures s.stat[s.current] != Running ==> s.Switched(p).Strongest()
  {
    SwitchOk(s, p);
  }

  // A schedule takes the processor from a running thread if and only if a stronger thread is
  // ready, or an equal one is and the running thread has used up its time slice.
  // So rt_thread_yield on its own does not pass the processor on to an equal thread.
  lemma {:induction false} SwitchesExactly(s: State)
    requires s.Ok() && s.Launched() && s.locks == 0 && s.stat[s.current] == Running
    ensures s.Pickable()
    ensures s.Scheduled().current != s.current <==>
            exists t :: 0 <= t < |s.prio| && s.stat[t] == Ready &&
                        (s.prio[t] < s.prio[s.current] || (s.prio[t] == s.prio[s.current] && s.yielded[s.current]))
    ensures s.Scheduled().current == s.current ==> s.Scheduled() == s
  {
    FirstReady(s);
    var p := First(s.group, 0);
    if p < PRIORITIES {
      SwitchOk(s, p);
      assert s.stat[s.table[p][0]] == Ready;
    }
  }

  // --- round robin --------------------------------------------------------------------------------

  // The running thread and the ready threads of its priority, in the order they will run.
  ghost function Ring(s: State): seq<nat>
    requires s.Sized() && s.Launched()
  {
    [s.current] + s.table[s.prio[s.current]]
  }

  // The running thread is at the end of its time slice; only its peers are ready besides
  // weaker threads.
  ghost predicate Rotating(s: State) { s.Ok() && s.locks == 0 && s.Strongest() }

  lemma {:induction false} OneTurn(s: State)
    requires Rotating(s)
    ensures var u := s.Next(SliceEnd);
            && Rotating(u) && u.prio == s.prio && u.prio[u.current] == s.prio[s.current]
            && Ring(u) == Ring(s)[1..] + Ring(s)[..1]
            && forall p :: 0 <= p < PRIORITIES && p != s.prio[s.current] ==> u.table[p] == s.table[p]
  {
    var c, v := s.current, s.(yielded := s.yielded[s.current := true]);
    OkNext(s, SliceEnd);
    StatOk(s, v);
    StrongestRuns(v);
    TurnIs(s, v);
    if s.table[s.prio[c]] != [] {
      assert s.QueueOk(s.prio[c]) && s.table[s.prio[c]][0] in s.table[s.prio[c]];
      SwitchOk(v, s.prio[c]);
    }
  }

  // The slice goes on to the next peer, if there is one.
  lemma {:induction false} TurnIs(s: State, v: State)
    requires Rotating(s) && v == s.(yielded := s.yielded[s.current := true]) && v.Ok()
    ensures var p := s.prio[s.current];
            if s.table[p] == [] then s.Next(SliceEnd) == v
            else s.table[p][0] < |s.prio| && s.Next(SliceEnd) == v.Switched(p)
  {
    FirstReady(v);
    assert s.QueueOk(s.prio[s.current]);
    if s.table[s.prio[s.current]] != [] {
      assert s.table[s.prio[s.current]][0] in s.table[s.prio[s.current]];
    }
  }

  // n time slices in a row, and who runs after each.
  ghost function Turns(s: State, n: nat): State
    requires Rotating(s)
    decreases n
  {
    if n == 0 then s
    else
      OneTurn(s);
      Turns(s.Next(SliceEnd), n - 1)
  }

  ghost function Visits(s: State, n: nat): seq<nat>
    requires Rotating(s)
    decreases n
  {
    if n == 0 then []
    else
      OneTurn(s);
      [s.Next(SliceEnd).current] + Visits(s.Next(SliceEnd), n - 1)
  }

  lemma {:induction false} TurnsRotate(s: State, n: nat)
    requires Rotating(s) && n <= |Ring(s)|
    ensures var u := Turns(s, n);
            && Rotating(u) && u.prio == s.prio && u.prio[u.current] == s.prio[s.current]
            && Ring(u) == Ring(s)[n..] + Ring(s)[..n]
            && (forall p :: 0 <= p < PRIORITIES && p != s.prio[s.current] ==> u.table[p] == s.table[p])
            && Visits(s, n) == (Ring(s)[1..] + Ring(s)[..1])[..n]
    decreases n
  {
    if n > 0 {
      var r, u := Ring(s), s.Next(SliceEnd);
      OneTurn(s);
      TurnsRotate(u, n - 1);
      Rotated(r, n);
      assert u.current == (r[1..] + r[..1])[0] by {
        assert Ring(u)[0] == u.current;
      }
    }
  }

  lemma Rotated(r: seq<nat>, n: nat)
    requires 0 < n <= |r|
    ensures var r1 := r[1..] + r[..1];
            && r1[n - 1..] + r1[..n - 1] == r[n..] + r[..n]
            && [r1[0]] + (r1[1..] + r1[..1])[..n - 1] == r1[..n]
  {
  }

  // With k ready peers and nobody stronger, k + 1 time slices run each of the k + 1 threads
  // once, in the order of the queue, and leave the queues as they were.
  lemma {:induction false} RoundRobin(s: State)
    requires Rotating(s)
    ensures var q := s.table[s.prio[s.current]];
            var u := Turns(s, |q| + 1);
            && Visits(s, |q| + 1) == q + [s.current]
            && u.current == s.current && u.table == s.table
  {
    var r := Ring(s);
    TurnsRotate(s, |r|);
    assert r[|r|..] + r[..|r|] == r && (r[1..] + r[..1])[..|r|] == s.table[s.prio[s.current]] + [s.current];
    var u := Turns(s, |r|);
    assert Ring(u)[1..] == u.table[u.prio[u.current]] && Ring(u)[0] == u.current;
    assert r[1..] == s.table[s.prio[s.current]];
  }
}
