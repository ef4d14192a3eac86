/** rt_schedule and the operations around it, on the ready group word and the priority table;
    each is one event of SchedulerState. */
module Scheduler {
  import opened Lists
  import opened SchedulerEffects
  import opened SchedulerState
  import opened ReadyBits

  class Scheduler {
    var group: nat                  // rt_thread_ready_priority_group
    var table: seq<seq<nat>>        // rt_thread_priority_table
    var init: seq<nat>
    var prio: seq<nat>
    var stat: seq<Stat>
    var yielded: seq<bool>
    var current: nat                // rt_current_thread; RT_NULL is the number of no thread
    var lockNest: nat               // rt_scheduler_lock_nest

    ghost function Abs(): State
      reads this
    {
      State(Group(group), table, init, prio, stat, yielded, current, lockNest)
    }

    ghost predicate Sized()
      reads this
    {
      group < WORD && Abs().Sized()
    }

    ghost predicate Valid()
      reads this
    {
      group < WORD && Abs().Ok()
    }

    // rt_system_scheduler_init, for threads that were created with the priorities prios
    constructor (prios: seq<nat>)
      requires forall t :: 0 <= t < |prios| ==> prios[t] < PRIORITIES
      ensures Valid() && Fresh(Abs()) && init == prios
    {
      var n := |prios|;
      init, prio, stat, yielded := prios, prios, seq(n, _ => Init), seq(n, _ => false);
      group, current, lockNest := 0, n, 0;
      table := [];
      new;
      for offset := 0 to PRIORITIES
        invariant table == seq(offset, _ => [])
        modifies this`table
      {
        table := table + [[]];
      }
      FfsFindsFirst(group);
      FreshOk(Abs());
    }

    // rt_system_scheduler_start
    method Launch()
      requires Valid() && !Abs().Launched() && group != 0
      modifies this`stat, this`table, this`group, this`yielded, this`current
      ensures Valid() && old(Abs()).Enabled(Event.Launch) && Abs() == old(Abs()).Next(Event.Launch)
      ensures Abs().Launched() && Abs().Strongest()
      ensures Effect(old(Abs()), Event.Launch, Abs())
    {
      FfsFindsFirst(group);
      LaunchOk(Abs());
      LaunchIs(Abs());
      var to, p := Highest();
      current := to;
      Remove(to);
      stat, yielded := stat[to := Running], yielded[to := false];
    }

    // rt_schedule_insert_thread
    method Insert(t: nat)
      requires Sized() && t < |prio|
      modifies this`stat, this`table, this`group
      ensures Sized() && Abs() == old(Abs()).Insert(t)
    {
      if t == current {
        stat := stat[t := Running];
        return;
      }
      GroupSet(group, prio[t]);
      stat := stat[t := Ready];
      table := table[prio[t] := table[prio[t]] + [t]];
      group := SetBit(group, prio[t]);
    }

    // rt_schedule_remove_thread
    method Remove(t: nat)
      requires Sized() && t < |prio|
      modifies this`table, this`group
      ensures Sized() && Abs() == old(Abs()).Remove(t)
    {
      GroupSet(group, prio[t]);
      table := table[prio[t] := Del(table[prio[t]], t)];
      if table[prio[t]] == [] {
        group := ClearBit(group, prio[t]);
      }
    }

    // _get_highest_priority_thread
    method Highest() returns (t: nat, p: nat)
      requires Valid() && group != 0
      ensures p == First(Abs().group, 0) < PRIORITIES && table[p] != [] && t == table[p][0] < |prio|
    {
      FirstReady(Abs());
      FfsFindsFirst(group);
      p := Ffs(group) - 1;
      t := table[p][0];
    }

    // rt_schedule
    method Schedule()
      requires Valid() && Abs().Launched()
      modifies this`stat, this`table, this`group, this`yielded, this`current
      ensures Valid() && old(Abs()).Pickable() && Abs() == old(Abs()).Scheduled()
      ensures Elected(old(Abs()), Abs())
    {
      ElectedIs(Abs());
      ScheduleOk(Abs());
      FfsFindsFirst(group);
      if lockNest == 0 && group != 0 {
        var to, p := Highest();
        if stat[current] == Running && (prio[current] < p || (prio[current] == p && !yielded[current])) {
          Stay();
        } else {
          SwitchTo(to, p);
        }
      }
    }

    // The running thread goes on.
    method Stay()
      requires Valid() && Abs().Launched() && stat[current] == Running
      modifies this`stat, this`table, this`group
      ensures Abs() == old(Abs()) && Sized()
    {
      CurrentApart(Abs());
      Remove(current);
      stat := stat[current := Running];
    }

    // Thread to, the first of queue p, becomes the running one.
    method SwitchTo(to: nat, p: nat)
      requires Sized() && Abs().Launched() && p < PRIORITIES && table[p] != [] && to == table[p][0] < |prio|
      modifies this`stat, this`table, this`group, this`yielded, this`current
      ensures Sized() && Abs() == old(Abs()).Switched(p)
    {
      var from := current;
      current := to;
      if stat[from] == Running {
        yielded := yielded[from := false];
        Insert(from);
      }
      Remove(to);
      stat := stat[to := Running];
    }

    // rt_thread_suspend
    method Suspend(t: nat) returns (ok: bool)
      requires Valid() && t < |stat|
      modifies this`stat, this`table, this`group
      ensures Valid() && Abs() == old(Abs()).Next(Suspension(t))
      ensures ok <==> old(stat)[t] in {Ready, Running}
      ensures Suspended(old(Abs()), t, Abs())
    {
      SuspensionIs(Abs(), t);
      OkNext(Abs(), Suspension(t));
      if stat[t] != Ready && stat[t] != Running {
        return false;
      }
      Remove(t);
      stat := stat[t := Stat.Suspend];
      return true;
    }

    // rt_thread_resume; rt_thread_timeout does the same
    method Resume(t: nat) returns (ok: bool)
      requires Valid() && t < |stat|
      modifies this`stat, this`table, this`group
      ensures Valid() && Abs() == old(Abs()).Next(Resumption(t))
      ensures ok <==> old(stat)[t] == Stat.Suspend
      ensures Resumed(old(Abs()), t, Abs())
    {
      ResumptionIs(Abs(), t);
      OkNext(Abs(), Resumption(t));
      if stat[t] != Stat.Suspend {
        return false;
      }
      Insert(t);
      return true;
    }

    // rt_thread_startup up to its own call of rt_schedule
    method Start(t: nat)
      requires Valid() && t < |stat| && stat[t] == Init
      modifies this`stat, this`table, this`group, this`prio, this`yielded
      ensures Valid() && Abs() == old(Abs()).Next(Startup(t))
      ensures Started(old(Abs()), t, Abs())
    {
      StartupIs(Abs(), t);
      OkNext(Abs(), Startup(t));
      prio := prio[t := init[t]];
      stat, yielded := stat[t := Stat.Suspend], yielded[t := false];
      Insert(t);
    }

    // rt_thread_control with RT_THREAD_CTRL_CHANGE_PRIORITY
    method ChangePriority(t: nat, p: nat)
      requires Valid() && t < |stat| && p < PRIORITIES
      modifies this`stat, this`table, this`group, this`prio
      ensures Valid() && Abs() == old(Abs()).Next(Reprioritize(t, p))
      ensures Reprioritized(old(Abs()), t, p, Abs())
    {
      ReprioritizeIs(Abs(), t, p);
      OkNext(Abs(), Reprioritize(t, p));
      if stat[t] == Ready {
        Remove(t);
        prio := prio[t := p];
        Insert(t);
      } else {
        prio := prio[t := p];
      }
    }

    // The end of a time slice in rt_tick_increase.
    method EndSlice()
      requires Valid() && Abs().Launched()
      modifies this`stat, this`table, this`group, this`yielded, this`current
      ensures Valid() && Abs() == old(Abs()).Next(SliceEnd)
      ensures Elected(old(Abs().(yielded := yielded[current := true])), Abs())
    {
      StatOk(Abs(), Abs().(yielded := yielded[current := true]));
      yielded := yielded[current := true];
      Schedule();
    }

    // rt_enter_critical
    method EnterCritical()
      requires Valid()
      modifies this`lockNest
      ensures Valid() && Abs() == old(Abs()).Next(Lock)
      ensures Abs() == old(Abs().(locks := lockNest + 1))
    {
      OkNext(Abs(), Lock);
      lockNest := lockNest + 1;
    }

    // rt_exit_critical
    method ExitCritical()
      requires Valid()
      modifies this`stat, this`table, this`group, this`yielded, this`current, this`lockNest
      ensures Valid() && Abs() == old(Abs()).Next(Unlock)
      ensures if old(lockNest) > 1 then Abs() == old(Abs().(locks := lockNest - 1))
              else if old(Abs()).Launched() then Elected(old(Abs().(locks := 0)), Abs())
              else Abs() == old(Abs().(locks := 0))
    {
      var nest := lockNest - 1;
      StatOk(Abs(), Abs().(locks := if nest <= 0 then 0 else nest));
      if nest <= 0 {
        lockNest := 0;
        if current < |prio| {
          Schedule();
        }
      } else {
        lockNest := nest;
      }
    }
  }

  // The running thread is in no queue.
  lemma {:induction false} CurrentApart(s: State)
    requires s.Ok() && s.Launched() && s.stat[s.current] == Running
    ensures s.Remove(s.current) == s && s.stat[s.current := Running] == s.stat
  {
    var p := s.prio[s.current];
    assert s.QueueOk(p);
    DelAbsent(s.table[p], s.current);
    assert s.table[p := s.table[p]] == s.table;
  }
}
