/** Whose turn it is at a message queue: receivers are resumed when a message is linked, senders
    when a slot is freed, always the one in front. */
module MessageQueueTurns {
  import opened Lists
  import opened MessageQueueState
  import opened WaitTurn

  // The two waiting lists of the queue.
  datatype Side = Receiving | Sending {
    ghost function List(s: State): seq<nat> { if Receiving? then s.receivers else s.senders }

    ghost function Woken(s: State): set<nat> { if Receiving? then s.wokenR else s.wokenS }

    // A message is linked, or a slot comes free.
    ghost predicate Serves(e: Event) { if Receiving? then e.LinkTail? || e.LinkHead? else e.Return? }

    ghost predicate GivesUp(e: Event, t: nat) {
      e == Reset || e == if Receiving? then ReceiverTimeout(t) else SenderTimeout(t)
    }
  }

  ghost function ChangeOf(side: Side, s: State, e: Event): Change
    requires s.Enabled(e)
  {
    Change(side.List(s), side.Woken(s.Next(e)) - side.Woken(s), side.List(s.Next(e)))
  }

  // Each message linked resumes the first suspended receiver, each slot freed the first suspended
  // sender; nothing else resumes any.
  lemma {:induction false} ResumedIs(side: Side, s: State, e: Event)
    requires s.Inv() && s.Enabled(e)
    ensures ChangeOf(side, s, e).resumed ==
            if side.Serves(e) && side.List(s) != [] then {side.List(s)[0]} else {}
  {
    if s.receivers != [] {
      assert s.receivers[0] in SetOf(s.receivers);
    }
    if s.senders != [] {
      assert s.senders[0] in SetOf(s.senders);
    }
  }

  // A thread leaves the list by being resumed, when its time is up, or in a reset.
  lemma {:induction false} LeavesHow(side: Side, s: State, e: Event, x: nat)
    requires s.Inv() && s.Enabled(e) && x in side.List(s)
    ensures x in side.List(s.Next(e)) || x in ChangeOf(side, s, e).resumed || side.GivesUp(e, x)
  {
    ResumedIs(side, s, e);
    var l := side.List(s);
    assert l == [l[0]] + l[1..];
    match e
    case AwaitMsg(t, k) => InsMembers(s.receivers, k, t);
    case AwaitSlot(t, k) => InsMembers(s.senders, k, t);
    case ReceiverTimeout(t) => DelMember(s.receivers, t, x);
    case SenderTimeout(t) => DelMember(s.senders, t, x);
    case _ =>
  }

  lemma {:induction false} IsFair(side: Side, s: State, e: Event)
    requires s.Inv() && s.Enabled(e)
    ensures Fair(ChangeOf(side, s, e))
  {
    ResumedIs(side, s, e);
    NobodyLeaves(side.List(s));
    match e
    case AwaitMsg(t, k) => OneJoins(s.receivers, k, t);
    case AwaitSlot(t, k) => OneJoins(s.senders, k, t);
    case ReceiverTimeout(t) => OneGivesUp(s.receivers, t);
    case SenderTimeout(t) => OneGivesUp(s.senders, t);
    case Reset => AllLetGo(side.List(s));
    case _ =>
      if side.List(s) != [] {
        FirstResumed(side.List(s));
      }
  }

  ghost function Changes(side: Side, s: State, es: seq<Event>): (h: seq<Change>)
    requires Run(s, es)
    ensures |h| == |es| && (es != [] ==> h[0] == ChangeOf(side, s, es[0]))
    decreases |es|
  {
    if es == [] then [] else [ChangeOf(side, s, es[0])] + Changes(side, s.Next(es[0]), es[1..])
  }

  lemma {:induction false} IsHistory(side: Side, s: State, es: seq<Event>)
    requires s.Inv() && Run(s, es)
    ensures History(Changes(side, s, es))
    decreases |es|
  {
    if es != [] {
      InvNext(s, es[0]);
      IsFair(side, s, es[0]);
      IsHistory(side, s.Next(es[0]), es[1..]);
      HistoryMore(ChangeOf(side, s, es[0]), Changes(side, s.Next(es[0]), es[1..]));
    }
  }

  lemma {:induction false} LeavesInRun(side: Side, s: State, es: seq<Event>, j: nat, x: nat)
    requires s.Inv() && Run(s, es) && j < |es| && !side.GivesUp(es[j], x)
    ensures var c := Changes(side, s, es)[j]; x in c.before ==> x in c.after || x in c.resumed
    decreases |es|
  {
    if j > 0 {
      InvNext(s, es[0]);
      LeavesInRun(side, s.Next(es[0]), es[1..], j - 1, x);
    } else if x in side.List(s) {
      LeavesHow(side, s, es[0], x);
    }
  }

  // In every run: if y waits up to event i, which resumes it, and x stood in front of it at the
  // beginning, then x was resumed before, unless its time was up or the queue was reset.
  lemma {:induction false} InTurn(side: Side, s: State, es: seq<Event>, x: nat, y: nat, i: nat)
    requires s.Inv() && Run(s, es) && i < |es| && Ahead(side.List(s), x, y)
    requires y in Changes(side, s, es)[i].resumed && forall j :: 0 <= j <= i ==> y in Changes(side, s, es)[j].before
    requires forall j :: 0 <= j < i ==> !side.GivesUp(es[j], x)
    ensures exists j :: 0 <= j < i && x in Changes(side, s, es)[j].resumed
  {
    IsHistory(side, s, es);
    forall j | 0 <= j < i
      ensures var c := Changes(side, s, es)[j]; x in c.before ==> x in c.after || x in c.resumed
    {
      LeavesInRun(side, s, es, j, x);
    }
    NoOvertaking(Changes(side, s, es), x, y, i);
  }
}
