/** rt_sem_take and rt_sem_release, each a critical section, in any interleaving. */
module Semaphore {
  import opened Lists
  import opened WaitList
  import opened WaitTurn

  datatype Event =
    | Take(t: nat, wait: bool)
    | Release
    | Expire(t: nat)             // rt_thread_timeout for a suspended thread

  datatype State = State(byPriority: bool, prio: seq<nat>, value: nat, waiters: seq<nat>) {
    ghost predicate Enabled(e: Event) {
      match e
      case Take(t, _) => t !in waiters
      case Release => true
      case Expire(t) => t in waiters
    }

    ghost function Next(e: Event): State {
      match e
      case Take(t, wait) =>
        if value > 0 then this.(value := value - 1)
        else if wait then this.(waiters := Ins(waiters, PlaceOf(waiters, prio, t, byPriority), t))
        else this
      case Release => if waiters == [] then this.(value := value + 1) else this.(waiters := waiters[1..])
      case Expire(t) => this.(waiters := Del(waiters, t))
    }

    // Threads wait only if there is nothing to take.
    ghost predicate Ok() { Distinct(waiters) && (waiters != [] ==> value == 0) }

    // Does the event give the semaphore to a thread, at once or by resuming it?
    ghost predicate Gives(e: Event) { (e.Take? && value > 0) || (e.Release? && waiters != []) }
  }

  lemma {:induction false} OkNext(s: State, e: Event)
    requires s.Ok() && s.Enabled(e)
    ensures s.Next(e).Ok()
  {
    match e
    case Take(t, wait) => InsDistinct(s.waiters, PlaceOf(s.waiters, s.prio, t, s.byPriority), t);
    case Release =>
      if s.waiters != [] { TailOf(s.waiters); }
    case Expire(t) => DelDistinct(s.waiters, t);
  }

  ghost predicate Run(s: State, es: seq<Event>)
    decreases |es|
  {
    es == [] || (s.Enabled(es[0]) && Run(s.Next(es[0]), es[1..]))
  }

  ghost function After(s: State, es: seq<Event>): State
    requires Run(s, es)
    decreases |es|
  {
    if es == [] then s else After(s.Next(es[0]), es[1..])
  }

  // How often the semaphore was released, and how often a thread got it.
  ghost function Releases(es: seq<Event>): nat {
    if es == [] then 0 else (if es[0].Release? then 1 else 0) + Releases(es[1..])
  }

  ghost function Takes(s: State, es: seq<Event>): nat
    requires Run(s, es)
    decreases |es|
  {
    if es == [] then 0 else (if s.Gives(es[0]) then 1 else 0) + Takes(s.Next(es[0]), es[1..])
  }

  // Over any run, value and successful takes make up the initial value and the releases.
  lemma {:induction false} Conserved(s: State, es: seq<Event>)
    requires s.Ok() && Run(s, es)
    ensures After(s, es).value + Takes(s, es) == s.value + Releases(es) && After(s, es).Ok()
    decreases |es|
  {
    if es != [] {
      OkNext(s, es[0]);
      Conserved(s.Next(es[0]), es[1..]);
    }
  }

  // --- whose turn it is ---------------------------------------------------------------------------

  // Who leaves the list, unless its time is up, is resumed.
  ghost function ChangeOf(s: State, e: Event): Change {
    var gone := SetOf(s.waiters) - SetOf(s.Next(e).waiters);
    Change(s.waiters, if e.Expire? then gone - {e.t} else gone, s.Next(e).waiters)
  }

  lemma {:induction false} TurnNext(s: State, e: Event)
    requires s.Ok() && s.Enabled(e)
    ensures Fair(ChangeOf(s, e))
    ensures ChangeOf(s, e).resumed == if e.Release? && s.waiters != [] then {s.waiters[0]} else {}
  {
    NobodyLeaves(s.waiters);
    match e
    case Take(t, wait) =>
      InsDistinct(s.waiters, PlaceOf(s.waiters, s.prio, t, s.byPriority), t);
      OneJoins(s.waiters, PlaceOf(s.waiters, s.prio, t, s.byPriority), t);
    case Release =>
      if s.waiters != [] {
        TailOf(s.waiters);
        FirstResumed(s.waiters);
      }
    case Expire(t) =>
      DelDistinct(s.waiters, t);
      OneGivesUp(s.waiters, t);
  }

  ghost function Changes(s: State, es: seq<Event>): (h: seq<Change>)
    requires Run(s, es)
    ensures |h| == |es| && (es != [] ==> h[0] == ChangeOf(s, es[0]))
    decreases |es|
  {
    if es == [] then [] else [ChangeOf(s, es[0])] + Changes(s.Next(es[0]), es[1..])
  }

  lemma {:induction false} IsHistory(s: State, es: seq<Event>)
    requires s.Ok() && Run(s, es)
    ensures History(Changes(s, es))
    decreases |es|
  {
    if es != [] {
      OkNext(s, es[0]);
      TurnNext(s, es[0]);
      IsHistory(s.Next(es[0]), es[1..]);
      HistoryMore(ChangeOf(s, es[0]), Changes(s.Next(es[0]), es[1..]));
    }
  }

  lemma {:induction false} LeavesInRun(s: State, es: seq<Event>, j: nat, x: nat)
    requires Run(s, es) && j < |es| && es[j] != Expire(x)
    ensures var c := Changes(s, es)[j]; x in c.before ==> x in c.after || x in c.resumed
    decreases |es|
  {
    if j > 0 {
      LeavesInRun(s.Next(es[0]), es[1..], j - 1, x);
    }
  }

  // In every run: if y waits up to the release that resumes it, and x stood in front of it at the
  // beginning, then x was resumed before, unless its time was up.
  lemma {:induction false} InTurn(s: State, es: seq<Event>, x: nat, y: nat, i: nat)
    requires s.Ok() && Run(s, es) && i < |es| && Ahead(s.waiters, x, y)
    requires forall j :: 0 <= j < i ==> es[j] != Expire(x)
    requires y in Changes(s, es)[i].resumed && forall j :: 0 <= j <= i ==> y in Changes(s, es)[j].before
    ensures exists j :: 0 <= j < i && x in Changes(s, es)[j].resumed
  {
    IsHistory(s, es);
    forall j | 0 <= j < i
      ensures var c := Changes(s, es)[j]; x in c.before ==> x in c.after || x in c.resumed
    {
      LeavesInRun(s, es, j, x);
    }
    NoOvertaking(Changes(s, es), x, y, i);
  }

  datatype Outcome = Taken | TimedOut | Suspended

  class SemaphoreObject {
    const byPriority: bool
    var value: nat
    var waiters: seq<nat>

    ghost function In(prio: seq<nat>): State
      reads this
    {
      State(byPriority, prio, value, waiters)
    }

    constructor (initial: nat, flag: bool)
      ensures byPriority == flag && value == initial && waiters == []
    {
      byPriority, value, waiters := flag, initial, [];
    }

    method Take(t: nat, wait: bool, prio: seq<nat>) returns (r: Outcome)
      requires In(prio).Ok() && t !in waiters
      modifies this
      ensures In(prio) == old(In(prio)).Next(Event.Take(t, wait)) && In(prio).Ok()
      ensures r == if old(value) > 0 then Taken else if wait then Suspended else TimedOut
      ensures value == if old(value) > 0 then old(value) - 1 else old(value)
      ensures if r.Suspended? then Joined(old(waiters), prio, t, byPriority, waiters) else waiters == old(waiters)
    {
      OkNext(In(prio), Event.Take(t, wait));
      if value > 0 {
        value := value - 1;
        return Taken;
      }
      if !wait {
        return TimedOut;
      }
      waiters := Suspend(waiters, prio, t, byPriority);
      return Suspended;
    }

    // The result is the thread that was resumed with the semaphore, if any.
    method Release(prio: seq<nat>) returns (woken: seq<nat>)
      requires In(prio).Ok()
      modifies this
      ensures In(prio) == old(In(prio)).Next(Event.Release) && In(prio).Ok()
      ensures if old(waiters) == [] then woken == [] && waiters == [] && value == old(value) + 1
              else woken == [old(waiters)[0]] && waiters == old(waiters)[1..] && value == old(value)
    {
      OkNext(In(prio), Event.Release);
      if waiters != [] {
        woken := [waiters[0]];
        waiters := waiters[1..];
      } else {
        woken := [];
        value := value + 1;
      }
    }
  }
}
