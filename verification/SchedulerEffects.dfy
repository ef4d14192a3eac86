/** What each operation of the scheduler does to the threads and the ready queues, said of the state
    before and the state after, and what follows for the thread that runs next. */
module SchedulerEffects {
  import opened Lists
  import opened SchedulerState
  import opened WaitList

  type Table = seq<seq<nat>>

  // Thread t is in no queue of rest; the others are where they were in table, in the same order.
  ghost predicate Without(table: Table, t: nat, rest: Table) {
    && |table| == |rest|
    && forall p :: 0 <= p < |rest| ==>
         && t !in rest[p]
         && if t in table[p] then exists k: nat :: k < |table[p]| && PutIn(rest[p], k, t, table[p])
            else rest[p] == table[p]
  }

  // Thread t is ready and the last of its queue.
  ghost predicate Last(u: State, t: nat) {
    && t < |u.prio| && t < |u.stat| && u.stat[t] == Ready && u.prio[t] in u.group && u.prio[t] < |u.table|
    && u.table[u.prio[t]] != [] && u.table[u.prio[t]][|u.table[u.prio[t]]| - 1] == t
  }

  // The queues without the last thread of queue p.
  ghost function Shorter(table: Table, p: nat): Table
    requires p < |table| && table[p] != []
  {
    table[p := table[p][..|table[p]| - 1]]
  }

  // rt_thread_resume
  ghost predicate Resumed(s: State, t: nat, u: State) {
    && t < |s.stat|
    && if s.stat[t] != Suspend then u == s
       else if t == s.current then u == s.(stat := s.stat[t := Running])
       else
         && u == s.(stat := s.stat[t := Ready], table := u.table, group := u.group)
         && Last(u, t) && Shorter(u.table, u.prio[t]) == s.table
         && forall p :: p in u.group <==> p in s.group || p == u.prio[t]
  }

  // rt_thread_startup
  ghost predicate Started(s: State, t: nat, u: State) {
    && t < |s.stat| && t < |s.init| && t < |s.prio| && t < |s.yielded|
    && u == s.(stat := s.stat[t := Ready], prio := s.prio[t := s.init[t]], yielded := s.yielded[t := false],
               table := u.table, group := u.group)
    && Last(u, t) && Shorter(u.table, u.prio[t]) == s.table
    && forall p :: p in u.group <==> p in s.group || p == u.prio[t]
  }

  // rt_thread_suspend
  ghost predicate Suspended(s: State, t: nat, u: State) {
    && t < |s.stat|
    && if s.stat[t] !in {Ready, Running} then u == s
       else
         && u == s.(stat := s.stat[t := Suspend], table := u.table, group := u.group)
         && Without(s.table, t, u.table)
         && forall p :: 0 <= p < |u.table| ==> (p in u.group <==> u.table[p] != [])
  }

  // rt_thread_control: a ready thread goes to the end of the queue of its new priority.
  ghost predicate Reprioritized(s: State, t: nat, p: nat, u: State) {
    && t < |s.stat| && t < |s.prio|
    && if s.stat[t] != Ready then u == s.(prio := s.prio[t := p])
       else
         && u == s.(prio := s.prio[t := p], table := u.table, group := u.group)
         && Last(u, t) && Without(s.table, t, Shorter(u.table, p))
         && forall q :: 0 <= q < |u.table| ==> (q in u.group <==> u.table[q] != [])
  }

  // Is ready thread t to take over from the running thread?
  ghost predicate Preempts(s: State, t: nat) {
    && t < |s.stat| && t < |s.prio| && s.stat[t] == Ready
    && (s.current < |s.stat| && s.current < |s.prio| && s.current < |s.yielded| && s.stat[s.current] == Running ==>
          s.prio[t] < s.prio[s.current] || (s.prio[t] == s.prio[s.current] && s.yielded[s.current]))
  }

  // Thread t is the first of the strongest threads that are ready.
  ghost predicate Foremost(s: State, t: nat) {
    && t < |s.stat| && t < |s.prio| && s.stat[t] == Ready && s.prio[t] < |s.table|
    && s.table[s.prio[t]] != [] && s.table[s.prio[t]][0] == t
    && forall r :: 0 <= r < |s.stat| && r < |s.prio| && s.stat[r] == Ready ==> s.prio[t] <= s.prio[r]
  }

  // rt_schedule: the processor goes to the foremost thread, if any is to take over, and the thread it
  // is taken from becomes the last of its own queue.
  ghost predicate Elected(s: State, u: State) {
    if s.locks > 0 || forall t :: 0 <= t < |s.stat| ==> !Preempts(s, t) then u == s
    else
      var from, to := s.current, u.current;
      && Preempts(s, to) && Foremost(s, to) && from < |s.stat| && from < |s.prio| && from < |s.yielded|
      && (forall p :: 0 <= p < |u.table| ==> (p in u.group <==> u.table[p] != []))
      && if s.stat[from] == Running then
           && u == s.(current := to, stat := s.stat[from := Ready][to := Running],
                      yielded := s.yielded[from := false], table := u.table, group := u.group)
           && u.prio[from] < |u.table| && u.table[u.prio[from]] != []
           && u.table[u.prio[from]][|u.table[u.prio[from]]| - 1] == from
           && Without(s.table, to, Shorter(u.table, u.prio[from]))
         else
           && u == s.(current := to, stat := s.stat[to := Running], table := u.table, group := u.group)
           && Without(s.table, to, u.table)
  }

  ghost predicate Effect(s: State, e: Event, u: State) {
    match e
    case Launch =>
      && Foremost(s, u.current) && u.current < |s.yielded|
      && u == s.(current := u.current, stat := s.stat[u.current := Running],
                 yielded := s.yielded[u.current := false], table := u.table, group := u.group)
      && Without(s.table, u.current, u.table)
      && forall p :: 0 <= p < |u.table| ==> (p in u.group <==> u.table[p] != [])
    case Startup(t) => Started(s, t, u)
    case Suspension(t) => Suspended(s, t, u)
    case Resumption(t) => Resumed(s, t, u)
    case Reprioritize(t, p) => Reprioritized(s, t, p, u)
    case Yield => Elected(s, u)
    case SliceEnd => s.current < |s.yielded| && Elected(s.(yielded := s.yielded[s.current := true]), u)
    case Lock => u == s.(locks := s.locks + 1)
    case Unlock =>
      if s.locks > 1 then u == s.(locks := s.locks - 1)
      else if s.Launched() then Elected(s.(locks := 0), u)
      else u == s.(locks := 0)
  }

  lemma {:induction false} EffectNext(s: State, e: Event)
    requires s.Ok() && s.Enabled(e)
    ensures Effect(s, e, s.Next(e))
  {
    match e
    case Launch => LaunchIs(s);
    case Startup(t) => StartupIs(s, t);
    case Suspension(t) => SuspensionIs(s, t);
    case Resumption(t) => ResumptionIs(s, t);
    case Reprioritize(t, p) => ReprioritizeIs(s, t, p);
    case Yield => ElectedIs(s);
    case SliceEnd =>
      StatOk(s, s.(yielded := s.yielded[s.current := true]));
      ElectedIs(s.(yielded := s.yielded[s.current := true]));
    case Lock =>
    case Unlock =>
      StatOk(s, s.(locks := if s.locks <= 1 then 0 else s.locks - 1));
      if s.locks <= 1 && s.Launched() { ElectedIs(s.(locks := 0)); }
  }

  lemma {:induction false} InsertedIs(s: State, t: nat)
    requires s.Sized() && t < |s.prio| && t != s.current
    ensures var u := s.Insert(t);
            && u == s.(stat := s.stat[t := Ready], table := u.table, group := u.group)
            && Last(u, t) && Shorter(u.table, u.prio[t]) == s.table
            && forall p :: p in u.group <==> p in s.group || p == u.prio[t]
  {
    var q := s.table[s.prio[t]];
    assert (q + [t])[..|q + [t]| - 1] == q;
    assert s.table[s.prio[t] := q] == s.table;
  }

  lemma {:induction false} ResumptionIs(s: State, t: nat)
    requires s.Ok() && s.Enabled(Resumption(t))
    ensures Resumed(s, t, s.Next(Resumption(t)))
  {
    if s.stat[t] == Suspend && t != s.current {
      InsertedIs(s, t);
    }
  }

  lemma {:induction false} StartupIs(s: State, t: nat)
    requires s.Ok() && s.Enabled(Startup(t))
    ensures Started(s, t, s.Next(Startup(t)))
  {
    PrioOk(s, t, s.init[t]);
    var u := s.(prio := s.prio[t := s.init[t]]);
    var v := u.(stat := s.stat[t := Suspend], yielded := s.yielded[t := false]);
    StatOk(u, v);
    InsertedIs(v, t);
    assert s.stat[t := Suspend][t := Ready] == s.stat[t := Ready];
  }

  // A thread that is not ready is in no queue; a ready one is in that of its priority only.
  lemma {:induction false} RemovedIs(s: State, t: nat)
    requires s.Ok() && t < |s.prio|
    ensures Without(s.table, t, s.Remove(t).table)
    ensures forall p :: 0 <= p < PRIORITIES ==> (p in s.Remove(t).group <==> s.Remove(t).table[p] != [])
  {
    var u := s.Remove(t);
    forall p | 0 <= p < |u.table|
      ensures t !in u.table[p] && (p in u.group <==> u.table[p] != [])
      ensures if t in s.table[p] then exists k: nat :: k < |s.table[p]| && PutIn(u.table[p], k, t, s.table[p])
              else u.table[p] == s.table[p]
    {
      assert s.QueueOk(p);
      DelMember(s.table[p], t, t);
      if t in s.table[p] {
        DelPutIn(s.table[p], t);
      } else {
        DelAbsent(s.table[p], t);
      }
    }
  }

  lemma {:induction false} SuspensionIs(s: State, t: nat)
    requires s.Ok() && s.Enabled(Suspension(t))
    ensures Suspended(s, t, s.Next(Suspension(t)))
  {
    RemovedIs(s, t);
  }

  lemma {:induction false} ReprioritizeIs(s: State, t: nat, p: nat)
    requires s.Ok() && s.Enabled(Reprioritize(t, p))
    ensures Reprioritized(s, t, p, s.Next(Reprioritize(t, p)))
  {
    if s.stat[t] == Ready {
      RemovedIs(s, t);
      var v := s.Remove(t).(prio := s.prio[t := p]);
      InsertedIs(v, t);
      assert s.stat[t := Ready] == s.stat;
    }
  }

  lemma {:induction false} LaunchIs(s: State)
    requires s.Ok() && s.Enabled(Launch)
    ensures Effect(s, Launch, s.Next(Launch))
  {
    FirstReady(s);
    GroupFirst(s.group);
    var to := s.table[First(s.group, 0)][0];
    RemovedIs(s, to);
    assert s.(current := to).Remove(to).table == s.Remove(to).table;
  }

  lemma {:induction false} ElectedIs(s: State)
    requires s.Ok() && s.Launched()
    ensures s.Pickable() && Elected(s, s.Scheduled())
  {
    FirstReady(s);
    var p := First(s.group, 0);
    if p < PRIORITIES && s.locks == 0 && Preempts(s, s.table[p][0]) {
      SwitchOk(s, p);
      TakenOver(s, p, s.Switched(p));
    } else {
      assert forall t :: 0 <= t < |s.stat| && Preempts(s, t) ==> s.locks > 0;
    }
  }

  lemma {:induction false} TakenOver(s: State, p: nat, u: State)
    requires s.Ok() && s.Launched() && p < PRIORITIES && s.table[p] != [] && s.table[p][0] < |s.prio|
    requires s.stat[s.table[p][0]] == Ready && s.prio[s.table[p][0]] == p
    requires u == s.Switched(p) && u.Ok() && Handed(s, p, u)
    requires forall r :: 0 <= r < |s.stat| && r < |s.prio| && s.stat[r] == Ready ==> p <= s.prio[r]
    requires Preempts(s, s.table[p][0]) && s.locks == 0
    ensures Elected(s, u)
  {
    var to, from := s.table[p][0], s.current;
    assert Foremost(s, to);
    forall q | 0 <= q < |u.table|
      ensures q in u.group <==> u.table[q] != []
    {
      assert u.QueueOk(q);
    }
    FirstGone(s, p);
    if s.stat[from] == Running {
      BehindFrom(s.table, s.prio[from], p, from);
    }
  }

  lemma {:induction false} BehindFrom(table: Table, f: nat, p: nat, from: nat)
    requires f < |table| && p < |table| && table[p] != []
    ensures var t1 := table[f := table[f] + [from]];
            var u := t1[p := t1[p][1..]];
            && u[f] != [] && u[f][|u[f]| - 1] == from && Shorter(u, f) == table[p := table[p][1..]]
  {
    var t1 := table[f := table[f] + [from]];
    var u := t1[p := t1[p][1..]];
    var q := if f == p then table[f][1..] else table[f];
    assert u[f] == q + [from] && (q + [from])[..|q + [from]| - 1] == q;
    assert Shorter(u, f) == u[f := q];
    assert table[f := table[f]] == table;
  }

  lemma {:induction false} FirstGone(s: State, p: nat)
    requires s.Ok() && p < PRIORITIES && s.table[p] != []
    ensures Without(s.table, s.table[p][0], s.table[p := s.table[p][1..]])
  {
    var to, rest := s.table[p][0], s.table[p := s.table[p][1..]];
    assert s.QueueOk(p);
    forall q | 0 <= q < |rest|
      ensures to !in rest[q]
      ensures if to in s.table[q] then exists k: nat :: k < |s.table[q]| && PutIn(rest[q], k, to, s.table[q])
              else rest[q] == s.table[q]
    {
      assert s.QueueOk(q);
      assert s.table[p][0] in s.table[p];
      if q == p {
        assert PutIn(rest[p], 0, to, s.table[p]);
      }
    }
  }

  // --- a resumed thread gets the processor --------------------------------------------------------

  // Thread t is ready and stronger than all other ready threads and the running one.
  ghost predicate Urgent(s: State, t: nat) {
    && s.Sized() && s.Launched() && t < |s.stat| && t != s.current && s.stat[t] == Ready
    && forall r :: 0 <= r < |s.stat| && r != t && s.stat[r] in {Ready, Running} ==> s.prio[t] < s.prio[r]
  }

  // The event is not about t and lets no thread that is as strong compete with it.
  ghost predicate Minor(s: State, e: Event, t: nat)
    requires s.Sized() && s.Enabled(e) && t < |s.prio|
  {
    match e
    case Startup(x) => x != t && s.prio[t] < s.init[x]
    case Suspension(x) => x != t
    case Resumption(x) => x != t && s.prio[t] < s.prio[x]
    case Reprioritize(x, p) => x != t && s.prio[t] < p
    case _ => true
  }

  // The event calls rt_schedule while the scheduler is not locked.
  ghost predicate Schedules(s: State, e: Event) {
    ((e.Yield? || e.SliceEnd?) && s.locks == 0) || (e.Unlock? && s.locks <= 1)
  }

  // A thread resumed is urgent if it is stronger than those that are ready or running.
  lemma {:induction false} ResumedUrgent(s: State, t: nat)
    requires s.Ok() && s.Launched() && t < |s.stat| && t != s.current && s.stat[t] == Suspend
    requires forall r :: 0 <= r < |s.stat| && s.stat[r] in {Ready, Running} ==> s.prio[t] < s.prio[r]
    ensures Urgent(s.Next(Resumption(t)), t)
  {
    OkNext(s, Resumption(t));
    EffectNext(s, Resumption(t));
  }

  lemma {:induction false} UrgentNext(s: State, e: Event, t: nat)
    requires s.Ok() && s.Enabled(e) && Urgent(s, t) && Minor(s, e, t)
    ensures var u := s.Next(e);
            if Schedules(s, e) then u.current == t && t < |u.stat| && u.stat[t] == Running else Urgent(u, t)
  {
    var u := s.Next(e);
    OkNext(s, e);
    EffectNext(s, e);
    if Schedules(s, e) {
      UrgentScheduled(s, e, u, t);
    } else {
      MinorEffect(s, e, u, t);
    }
  }

  lemma {:induction false} UrgentScheduled(s: State, e: Event, u: State, t: nat)
    requires Urgent(s, t) && Effect(s, e, u) && Schedules(s, e)
    ensures u.current == t && t < |u.stat| && u.stat[t] == Running
  {
    match e
    case Yield => UrgentElected(s, u, t);
    case SliceEnd => UrgentElected(s.(yielded := s.yielded[s.current := true]), u, t);
    case Unlock => UrgentElected(s.(locks := 0), u, t);
  }

  // What an event that does not schedule does to the threads.
  lemma {:induction false} MinorEffect(s: State, e: Event, u: State, t: nat)
    requires s.Sized() && u.Sized() && s.Enabled(e) && Urgent(s, t) && Minor(s, e, t)
    requires Effect(s, e, u) && !Schedules(s, e)
    ensures Urgent(u, t)
  {
    match e
    case Launch =>
    case Startup(x) => OneChanged(s, u, t, x);
    case Suspension(x) => OneChanged(s, u, t, x);
    case Resumption(x) => OneChanged(s, u, t, x);
    case Reprioritize(x, p) => OneChanged(s, u, t, x);
    case Yield => UrgentElected(s, u, t);
    case SliceEnd => UrgentElected(s.(yielded := s.yielded[s.current := true]), u, t);
    case Lock =>
    case Unlock =>
  }

  lemma {:induction false} OneChanged(s: State, u: State, t: nat, x: nat)
    requires Urgent(s, t) && u.Sized() && x != t && x < |s.stat|
    requires u.current == s.current && |u.stat| == |s.stat| && |u.prio| == |s.prio|
    requires u.stat == s.stat[x := u.stat[x]] && u.prio == s.prio[x := u.prio[x]]
    requires u.stat[x] in {Ready, Running} ==> s.prio[t] < u.prio[x]
    ensures Urgent(u, t)
  {
  }

  lemma {:induction false} UrgentElected(s: State, u: State, t: nat)
    requires Urgent(s, t) && Elected(s, u)
    ensures if s.locks == 0 then u.current == t && t < |u.stat| && u.stat[t] == Running else u == s
  {
    assert Preempts(s, t);
  }

  // After the first event of es that schedules, t is running.
  ghost predicate RunsNext(s: State, es: seq<Event>, t: nat)
    requires s.Ok() && Run(s, es)
    decreases |es|
  {
    es == [] ||
    (OkNext(s, es[0]);
     var u := s.Next(es[0]);
     if Schedules(s, es[0]) then u.current == t && t < |u.stat| && u.stat[t] == Running else RunsNext(u, es[1..], t))
  }

  ghost predicate AllMinor(s: State, es: seq<Event>, t: nat)
    requires s.Ok() && Run(s, es)
    decreases |es|
  {
    es == [] ||
    (OkNext(s, es[0]);
     t < |s.prio| && Minor(s, es[0], t) && (Schedules(s, es[0]) || AllMinor(s.Next(es[0]), es[1..], t)))
  }

  // So in every run a resumed thread that is stronger than all others is the one that runs after the
  // next schedule that is not locked out, however long that is put off.
  lemma {:induction false} ResumedRuns(s: State, es: seq<Event>, t: nat)
    requires s.Ok() && s.Launched() && t < |s.stat| && t != s.current && s.stat[t] == Suspend
    requires forall r :: 0 <= r < |s.stat| && s.stat[r] in {Ready, Running} ==> s.prio[t] < s.prio[r]
    requires var v := s.Next(Resumption(t)); v.Ok() && Run(v, es) && AllMinor(v, es, t)
    ensures RunsNext(s.Next(Resumption(t)), es, t)
  {
    ResumedUrgent(s, t);
    UrgentRuns(s.Next(Resumption(t)), es, t);
  }

  lemma {:induction false} UrgentRuns(s: State, es: seq<Event>, t: nat)
    requires s.Ok() && Urgent(s, t) && Run(s, es) && AllMinor(s, es, t)
    ensures RunsNext(s, es, t)
    decreases |es|
  {
    if es != [] {
      OkNext(s, es[0]);
      UrgentNext(s, es[0], t);
      if !Schedules(s, es[0]) {
        UrgentRuns(s.Next(es[0]), es[1..], t);
      }
    }
  }
}
