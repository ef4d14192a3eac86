/** rt_mailbox: a ring buffer of words, with threads that wait for a mail or for room. Sending
    and receiving are one critical section each. */
module MailBox {
  import opened Lists
  import opened WaitList
  import opened WaitTurn

  datatype BoxEvent =
    | Post(t: nat, v: int)               // rt_mb_send_wait finds room
    | AwaitRoom(t: nat, k: nat)
    | LeaveRoom(t: nat)
    | Fetch(t: nat)                      // rt_mb_recv finds a mail
    | AwaitMail(t: nat, k: nat)
    | LeaveMail(t: nat)
    | PosterTimeout(t: nat)
    | FetcherTimeout(t: nat)
    | Clear                              // rt_mb_control with RT_IPC_CMD_RESET

  datatype BoxState = BoxState(
    size: nat,
    mails: seq<int>,
    receivers: seq<nat>,
    senders: seq<nat>,
    wokenR: set<nat>,         // resumed without error, not yet looked again
    wokenS: set<nat>)
  {
    ghost predicate Enabled(e: BoxEvent) {
      match e
      case Post(t, v) => |mails| < size && t !in senders
      case AwaitRoom(t, k) => |mails| == size && t !in senders && k <= |senders|
      case LeaveRoom(t) => |mails| == size && t !in senders
      case Fetch(t) => mails != [] && t !in receivers
      case AwaitMail(t, k) => mails == [] && t !in receivers && k <= |receivers|
      case LeaveMail(t) => mails == [] && t !in receivers
      case PosterTimeout(t) => t in senders
      case FetcherTimeout(t) => t in receivers
      case Clear => true
    }

    ghost function Next(e: BoxEvent): BoxState
      requires Enabled(e)
    {
      match e
      case Post(t, v) => this.(mails := mails + [v], wokenS := wokenS - {t}).WakeReceiver()
      case AwaitRoom(t, k) => this.(senders := Ins(senders, k, t), wokenS := wokenS - {t})
      case LeaveRoom(t) => this.(wokenS := wokenS - {t})
      case Fetch(t) => this.(mails := mails[1..], wokenR := wokenR - {t}).WakeSender()
      case AwaitMail(t, k) => this.(receivers := Ins(receivers, k, t), wokenR := wokenR - {t})
      case LeaveMail(t) => this.(wokenR := wokenR - {t})
      case PosterTimeout(t) => this.(senders := Del(senders, t))
      case FetcherTimeout(t) => this.(receivers := Del(receivers, t))
      case Clear => this.(mails := [], receivers := [], senders := [])
    }

    ghost function WakeReceiver(): BoxState {
      if receivers == [] then this else this.(receivers := receivers[1..], wokenR := wokenR + {receivers[0]})
    }

    ghost function WakeSender(): BoxState {
      if senders == [] then this else this.(senders := senders[1..], wokenS := wokenS + {senders[0]})
    }

    // No wake-up is lost, on either side.
    ghost predicate Inv() {
      |mails| <= size && Waits(receivers, wokenR, |mails|) && Waits(senders, wokenS, size - |mails|)
    }
  }

  lemma {:induction false} BoxNext(s: BoxState, e: BoxEvent)
    requires s.Inv() && s.Enabled(e)
    ensures s.Next(e).Inv()
  {
    match e
    case Post(t, v) => WakeFirst(s.receivers, s.wokenR, |s.mails|);
    case AwaitRoom(t, k) => InsDistinct(s.senders, k, t);
    case LeaveRoom(t) =>
    case Fetch(t) => WakeFirst(s.senders, s.wokenS, s.size - |s.mails|);
    case AwaitMail(t, k) => InsDistinct(s.receivers, k, t);
    case LeaveMail(t) =>
    case PosterTimeout(t) => DelDistinct(s.senders, t);
    case FetcherTimeout(t) => DelDistinct(s.receivers, t);
    case Clear => assert SetOf([]) == {};
  }

  ghost predicate BoxRun(s: BoxState, es: seq<BoxEvent>)
    decreases |es|
  {
    es == [] || (s.Enabled(es[0]) && BoxRun(s.Next(es[0]), es[1..]))
  }

  ghost function BoxAfter(s: BoxState, es: seq<BoxEvent>): BoxState
    requires BoxRun(s, es)
    decreases |es|
  {
    if es == [] then s else BoxAfter(s.Next(es[0]), es[1..])
  }

  // What an event posts, and which mails leave: fetched by a thread, or lost in a reset.
  ghost function Posts(e: BoxEvent): seq<int> { if e.Post? then [e.v] else [] }

  datatype Exit = Taken(v: int) | Lost(v: int)

  ghost function Exits(s: BoxState, e: BoxEvent): (r: seq<Exit>)
    ensures |r| == if e.Fetch? && s.mails != [] then 1 else if e.Clear? then |s.mails| else 0
  {
    if e.Fetch? && s.mails != [] then [Taken(s.mails[0])]
    else if e.Clear? then seq(|s.mails|, i requires 0 <= i < |s.mails| => Lost(s.mails[i]))
    else []
  }

  ghost function Values(r: seq<Exit>): (v: seq<int>)
    ensures |v| == |r| && forall i :: 0 <= i < |r| ==> v[i] == r[i].v
  {
    seq(|r|, i requires 0 <= i < |r| => r[i].v)
  }

  ghost function Posted(es: seq<BoxEvent>): seq<int> { if es == [] then [] else Posts(es[0]) + Posted(es[1..]) }

  ghost function Left(s: BoxState, es: seq<BoxEvent>): seq<Exit>
    requires BoxRun(s, es)
    decreases |es|
  {
    if es == [] then [] else Exits(s, es[0]) + Left(s.Next(es[0]), es[1..])
  }

  lemma {:induction false} MailsNext(s: BoxState, e: BoxEvent)
    requires s.Enabled(e)
    ensures s.mails + Posts(e) == Values(Exits(s, e)) + s.Next(e).mails
  {
  }

  // Over any run and any interleaving, mails leave in the order they were posted in, none twice and
  // none from nowhere.
  lemma {:induction false} InOrder(s: BoxState, es: seq<BoxEvent>)
    requires BoxRun(s, es)
    ensures s.mails + Posted(es) == Values(Left(s, es)) + BoxAfter(s, es).mails
    decreases |es|
  {
    if es == [] {
      assert s.mails + [] == Values([]) + s.mails;
    } else {
      var e, u := es[0], s.Next(es[0]);
      MailsNext(s, e);
      InOrder(u, es[1..]);
      OneEvent(s.mails, Posts(e), Values(Exits(s, e)), u.mails, Posted(es[1..]), Values(Left(u, es[1..])),
          BoxAfter(u, es[1..]).mails);
      assert Values(Left(s, es)) == Values(Exits(s, e)) + Values(Left(u, es[1..]));
    }
  }

  // And only a reset loses any.
  lemma {:induction false} NoneLost(s: BoxState, es: seq<BoxEvent>)
    requires BoxRun(s, es) && Clear !in es
    ensures forall i :: 0 <= i < |Left(s, es)| ==> Left(s, es)[i].Taken?
    decreases |es|
  {
    if es != [] {
      assert es == [es[0]] + es[1..];
      NoneLost(s.Next(es[0]), es[1..]);
    }
  }

  lemma OneEvent(m: seq<int>, p: seq<int>, f: seq<int>, m': seq<int>, ps: seq<int>, fs: seq<int>, last: seq<int>)
    requires m + p == f + m' && m' + ps == fs + last
    ensures m + (p + ps) == (f + fs) + last
  {
    assert m + (p + ps) == (m + p) + ps && (f + m') + ps == f + (m' + ps) && f + (fs + last) == (f + fs) + last;
  }

  // And no thread is left waiting for what is there.
  lemma {:induction false} BoxRuns(s: BoxState, es: seq<BoxEvent>)
    requires s.Inv() && BoxRun(s, es)
    ensures var u := BoxAfter(s, es);
            && u.Inv() && (u.receivers != [] && u.wokenR == {} ==> u.mails == [])
            && (u.senders != [] && u.wokenS == {} ==> |u.mails| == u.size)
    decreases |es|
  {
    if es != [] {
      BoxNext(s, es[0]);
      BoxRuns(s.Next(es[0]), es[1..]);
    }
  }

  // Each mail posted resumes the first suspended receiver, and each mail fetched the first suspended
  // sender; those who go on waiting keep their order.
  lemma {:induction false} ReceiversTurn(s: BoxState, e: BoxEvent)
    requires s.Inv() && s.Enabled(e)
    ensures var woken := s.Next(e).wokenR - s.wokenR;
            && Fair(Change(s.receivers, woken, s.Next(e).receivers))
            && woken == if e.Post? && s.receivers != [] then {s.receivers[0]} else {}
  {
    NobodyLeaves(s.receivers);
    match e
    case Post(t, v) =>
      if s.receivers != [] {
        assert s.receivers[0] in SetOf(s.receivers);
        FirstResumed(s.receivers);
      }
    case AwaitMail(t, k) => OneJoins(s.receivers, k, t);
    case FetcherTimeout(t) => OneGivesUp(s.receivers, t);
    case Clear => AllLetGo(s.receivers);
    case _ =>
  }

  lemma {:induction false} SendersTurn(s: BoxState, e: BoxEvent)
    requires s.Inv() && s.Enabled(e)
    ensures var woken := s.Next(e).wokenS - s.wokenS;
            && Fair(Change(s.senders, woken, s.Next(e).senders))
            && woken == if e.Fetch? && s.senders != [] then {s.senders[0]} else {}
  {
    NobodyLeaves(s.senders);
    match e
    case Fetch(t) =>
      if s.senders != [] {
        assert s.senders[0] in SetOf(s.senders);
        FirstResumed(s.senders);
      }
    case AwaitRoom(t, k) => OneJoins(s.senders, k, t);
    case PosterTimeout(t) => OneGivesUp(s.senders, t);
    case Clear => AllLetGo(s.senders);
    case _ =>
  }

  // --- the ring buffer ----------------------------------------------------------------------------

  // The n words of pool from place from on, around its end.
  ghost function Window(pool: seq<int>, from: nat, n: nat): (r: seq<int>)
    requires |pool| > 0 && from < |pool| && n <= |pool|
    ensures |r| == n && forall i :: 0 <= i < n ==> r[i] == pool[Around(from + i, |pool|)]
  {
    seq(n, i requires 0 <= i < n => pool[Around(from + i, |pool|)])
  }

  function Around(i: nat, size: nat): nat { if i < size then i else if i - size < size then i - size else 0 }

  lemma {:induction false} WindowPost(pool: seq<int>, from: nat, n: nat, v: int)
    requires from < |pool| && n < |pool|
    ensures Window(pool[Around(from + n, |pool|) := v], from, n + 1) == Window(pool, from, n) + [v]
  {
  }

  lemma {:induction false} WindowFetch(pool: seq<int>, from: nat, n: nat)
    requires from < |pool| && 0 < n <= |pool|
    ensures Window(pool, from, n)[0] == pool[from]
    ensures Window(pool, Around(from + 1, |pool|), n - 1) == Window(pool, from, n)[1..]
  {
  }

  datatype Outcome = Done(v: int) | Refused | Suspended

  class Box {
    const byPriority: bool
    const pool: array<int>
    var inOffset: nat
    var outOffset: nat
    var entry: nat
    var receivers: seq<nat>
    var senders: seq<nat>
    ghost var wokenR: set<nat>
    ghost var wokenS: set<nat>

    ghost predicate Ring()
      reads this
    {
      && 0 < pool.Length && outOffset < pool.Length && entry <= pool.Length
      && inOffset == Around(outOffset + entry, pool.Length)
    }

    ghost function Abs(): BoxState
      requires Ring()
      reads this, pool
    {
      BoxState(pool.Length, Window(pool[..], outOffset, entry), receivers, senders, wokenR, wokenS)
    }

    ghost predicate Valid()
      reads this, pool
    {
      Ring() && Abs().Inv()
    }

    // rt_mb_init
    constructor (words: array<int>, priority: bool)
      requires words.Length > 0
      ensures Valid() && Abs() == BoxState(words.Length, [], [], [], {}, {}) && pool == words && byPriority == priority
    {
      byPriority, pool, inOffset, outOffset, entry := priority, words, 0, 0, 0;
      receivers, senders, wokenR, wokenS := [], [], {}, {};
      new;
      assert SetOf(receivers) == {};
    }

    // The critical section of rt_mb_send_wait, on entry or after a wake-up.
    method Send(t: nat, v: int, wait: bool, prio: seq<nat>) returns (r: Outcome)
      requires Valid() && t !in senders
      modifies this, pool
      ensures Valid()
      ensures var s, k := old(Abs()), PlaceOf(old(senders), prio, t, byPriority);
              if |s.mails| < s.size then r == Done(v) && Abs() == s.Next(Post(t, v))
              else if wait then r == Suspended && Abs() == s.Next(AwaitRoom(t, k))
              else r == Refused && Abs() == s.Next(LeaveRoom(t))
      ensures Abs().mails == old(Abs()).mails + if r.Done? then [v] else []
      ensures r.Done? ==> FirstWoken(old(receivers), old(wokenR), receivers, wokenR)
      ensures r.Suspended? ==> Joined(old(senders), prio, t, byPriority, senders)
    {
      ghost var s := Abs();
      if entry == pool.Length {
        if !wait {
          BoxNext(s, LeaveRoom(t));
          wokenS := wokenS - {t};
          return Refused;
        }
        WaitForRoom(t, prio);
        return Suspended;
      }
      BoxNext(s, Post(t, v));
      PutWord(v);
      wokenS := wokenS - {t};
      if receivers != [] {
        wokenR := wokenR + {receivers[0]};
        receivers := receivers[1..];
      }
      return Done(v);
    }

    method WaitForRoom(t: nat, prio: seq<nat>)
      requires Valid() && t !in senders && entry == pool.Length
      modifies this`senders, this`wokenS
      ensures Valid() && Abs() == old(Abs()).Next(AwaitRoom(t, PlaceOf(old(senders), prio, t, byPriority)))
      ensures Joined(old(senders), prio, t, byPriority, senders)
    {
      ghost var s, e := Abs(), AwaitRoom(t, PlaceOf(senders, prio, t, byPriority));
      senders := Suspend(senders, prio, t, byPriority);
      wokenS := wokenS - {t};
      assert Abs() == s.Next(e);
      BoxNext(s, e);
    }

    method PutWord(v: int)
      requires Ring() && entry < pool.Length
      modifies this`inOffset, this`entry, pool
      ensures Ring() && Window(pool[..], outOffset, entry) == old(Window(pool[..], outOffset, entry)) + [v]
    {
      WindowPost(pool[..], outOffset, entry, v);
      pool[inOffset] := v;
      assert pool[..] == old(pool[..])[old(inOffset) := v];
      inOffset := inOffset + 1;
      if inOffset >= pool.Length {
        inOffset := 0;
      }
      entry := entry + 1;
    }

    // rt_mb_control with RT_IPC_CMD_RESET: all suspended threads are resumed, with an error.
    method Reset()
      requires Valid()
      modifies this
      ensures Valid() && Abs() == old(Abs()).Next(Clear)
      ensures Abs().mails == [] && receivers == [] && senders == []
    {
      BoxNext(Abs(), Clear);
      receivers, senders := [], [];
      entry, inOffset, outOffset := 0, 0, 0;
    }

    // The critical section of rt_mb_recv.
    method Receive(t: nat, wait: bool, prio: seq<nat>) returns (r: Outcome)
      requires Valid() && t !in receivers
      modifies this
      ensures Valid()
      ensures var s, k := old(Abs()), PlaceOf(old(receivers), prio, t, byPriority);
              if s.mails != [] then r == Done(s.mails[0]) && Abs() == s.Next(Fetch(t))
              else if wait then r == Suspended && Abs() == s.Next(AwaitMail(t, k))
              else r == Refused && Abs() == s.Next(LeaveMail(t))
      ensures old(Abs()).mails == (if r.Done? then [r.v] else []) + Abs().mails
      ensures r.Done? ==> FirstWoken(old(senders), old(wokenS), senders, wokenS)
      ensures r.Suspended? ==> Joined(old(receivers), prio, t, byPriority, receivers)
    {
      ghost var s := Abs();
      if entry == 0 {
        if !wait {
          BoxNext(s, LeaveMail(t));
          wokenR := wokenR - {t};
          return Refused;
        }
        WaitForMail(t, prio);
        return Suspended;
      }
      BoxNext(s, Fetch(t));
      var v := GetWord();
      wokenR := wokenR - {t};
      if senders != [] {
        wokenS := wokenS + {senders[0]};
        senders := senders[1..];
      }
      return Done(v);
    }

    method WaitForMail(t: nat, prio: seq<nat>)
      requires Valid() && t !in receivers && entry == 0
      modifies this`receivers, this`wokenR
      ensures Valid() && Abs() == old(Abs()).Next(AwaitMail(t, PlaceOf(old(receivers), prio, t, byPriority)))
      ensures Joined(old(receivers), prio, t, byPriority, receivers)
    {
      ghost var s, e := Abs(), AwaitMail(t, PlaceOf(receivers, prio, t, byPriority));
      receivers := Suspend(receivers, prio, t, byPriority);
      wokenR := wokenR - {t};
      assert Abs() == s.Next(e);
      BoxNext(s, e);
    }

    method GetWord() returns (v: int)
      requires Ring() && entry > 0
      modifies this`outOffset, this`entry
      ensures Ring() && [v] + Window(pool[..], outOffset, entry) == old(Window(pool[..], outOffset, entry))
    {
      WindowFetch(pool[..], outOffset, entry);
      v := pool[outOffset];
      outOffset := outOffset + 1;
      if outOffset >= pool.Length {
        outOffset := 0;
      }
      entry := entry - 1;
    }
  }
}
