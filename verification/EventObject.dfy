/** rt_event_send and rt_event_recv, on an event and the threads it concerns; each is one event
    of EventState. */
module EventObject {
  import opened Lists
  import opened WaitList
  import opened EventState

  // The fields of the thread control blocks that events use.
  class Threads {
    var info: seq<Info>           // event_set and event_info
    var received: seq<Bits>       // what rt_event_recv returns to a resumed thread
    var priority: seq<nat>
  }

  datatype Outcome = Received(got: Bits) | TimedOut | Suspended | Invalid

  class EventObject {
    const byPriority: bool
    var bits: Bits
    var waiters: seq<nat>

    ghost function In(th: Threads): State
      reads this, th
    {
      State(byPriority, bits, waiters, th.info, th.priority)
    }

    constructor (flag: bool)
      ensures byPriority == flag && bits == {} && waiters == []
    {
      byPriority, bits, waiters := flag, {}, [];
    }

    // rt_event_send; woken are the threads it resumed
    method Send(sent: Bits, th: Threads) returns (ok: bool, ghost woken: seq<nat>)
      requires In(th).Ok() && In(th).Quiet() && |th.received| == |th.info|
      modifies this, th`received
      ensures ok <==> sent != {}
      ensures !ok ==> In(th) == old(In(th)) && woken == [] && th.received == old(th.received)
      ensures ok ==> In(th) == old(In(th)).Next(Event.Send(sent)) && In(th).Ok() && In(th).Quiet()
      ensures ok ==> woken == old(Scan(bits + sent, waiters, th.info)).woken
                     && Delivered(woken, old(Scan(bits + sent, waiters, th.info)).got, th.received)
      ensures |th.received| == |th.info| && forall t :: 0 <= t < |th.info| && t !in woken ==>
                th.received[t] == old(th.received)[t]
    {
      if sent == {} {
        return false, [];
      }
      OkNext(In(th), Event.Send(sent));
      QuietNext(In(th), Event.Send(sent));
      bits := bits + sent;
      woken := WakeFiring(th);
      return true, woken;
    }

    // rt_event_recv by thread t, up to where it has the event, gives up, or is suspended
    method Recv(t: nat, want: Bits, all: bool, clear: bool, wait: bool, th: Threads) returns (r: Outcome)
      requires In(th).Ok() && In(th).Quiet() && t < |th.info| && t !in waiters
      modifies this, th`info
      ensures r.Invalid? <==> want == {}
      ensures r.Invalid? ==> In(th) == old(In(th))
      ensures want != {} ==> In(th) == old(In(th)).Next(Event.Recv(t, want, all, clear, wait))
      ensures want != {} ==> In(th).Ok() && In(th).Quiet()
      ensures r.Received? ==> r.got == want * old(bits)
      ensures bits == if r.Received? && clear then old(bits) - want else old(bits)
      ensures if r.Suspended? then
                && th.info == old(th.info)[t := Info(want, all, clear)]
                && Joined(old(waiters), th.priority, t, byPriority, waiters)
              else th.info == old(th.info) && waiters == old(waiters)
      ensures r.Received? <==> want != {} && (if all then want <= old(bits) else want * old(bits) != {})
      ensures r.Suspended? <==> t in waiters
    {
      if want == {} {
        return Invalid;
      }
      OkNext(In(th), Event.Recv(t, want, all, clear, wait));
      QuietNext(In(th), Event.Recv(t, want, all, clear, wait));
      var satisfied := if all then bits * want == want else bits * want != {};
      if satisfied {
        r := Received(bits * want);
        if clear {
          bits := bits - want;
        }
      } else if !wait {
        r := TimedOut;
      } else {
        th.info := th.info[t := Info(want, all, clear)];
        InsMembers(waiters, PlaceOf(waiters, th.priority, t, byPriority), t);
        waiters := Suspend(waiters, th.priority, t, byPriority);
        r := Suspended;
      }
    }

    // rt_thread_timeout for a suspended thread, and rt_event_control
    method Expire(t: nat, th: Threads)
      requires In(th).Ok() && In(th).Quiet() && t in waiters
      modifies this`waiters
      ensures In(th) == old(In(th)).Next(Event.Expire(t)) && In(th).Ok() && In(th).Quiet()
      ensures exists k: nat :: k < |old(waiters)| && PutIn(waiters, k, t, old(waiters))
    {
      DelPutIn(waiters, t);
      OkNext(In(th), Event.Expire(t));
      QuietNext(In(th), Event.Expire(t));
      waiters := Del(waiters, t);
    }

    method ResetAll(th: Threads)
      requires In(th).Ok()
      modifies this`waiters, this`bits
      ensures In(th) == old(In(th)).Next(Reset) && In(th).Ok() && In(th).Quiet() && waiters == [] && bits == {}
    {
      waiters := [];
      bits := {};
    }

    // The search through the list of suspended threads.
    method WakeFiring(th: Threads) returns (ghost woken: seq<nat>)
      requires In(th).Ok() && |th.received| == |th.info|
      modifies this, th`received
      ensures var r := old(Scan(bits, waiters, th.info));
              bits == r.bits && waiters == r.left && woken == r.woken && Delivered(r.woken, r.got, th.received)
      ensures |th.received| == |th.info| && forall t :: 0 <= t < |th.info| && t !in woken ==>
                th.received[t] == old(th.received)[t]
    {
      ghost var got, kept, rest, all := [], [], waiters, Scan(bits, waiters, th.info);
      ScanParts(bits, waiters, th.info);
      woken := [];
      var n := 0;
      while n != |waiters|
        invariant n == |kept| && waiters == kept + rest
        invariant Going(bits, kept, rest, woken, got, th.info, all)
        invariant |th.received| == |th.info| && Delivered(woken, got, th.received)
        invariant forall t :: 0 <= t < |th.info| && t !in woken ==> th.received[t] == old(th.received)[t]
        decreases |waiters| - n
      {
        var t := waiters[n];
        assert rest[0] == t;
        GoOn(bits, kept, rest, woken, got, th.info, all);
        rest := rest[1..];
        if th.info[t].Fires(bits) {
          var w := th.info[t];
          th.received := th.received[t := w.Got(bits)];
          woken, got := woken + [t], got + [w.Got(bits)];
          bits := w.Leaves(bits);
          waiters := waiters[..n] + waiters[n + 1..];
        } else {
          n := n + 1;
          kept := kept + [t];
        }
      }
    }
  }

  // So far the scan has left kept behind and resumed woken, with got; rest is still to come.
  ghost predicate Going(b: Bits, kept: seq<nat>, rest: seq<nat>, woken: seq<nat>, got: seq<Bits>, info: seq<Info>,
        all: Scanned) {
    && (forall t :: t in rest ==> t < |info|)
    && Join(Scanned(b, kept, woken, got), Scan(b, rest, info)) == all && Distinct(all.woken)
  }

  lemma {:induction false} GoOn(b: Bits, kept: seq<nat>, rest: seq<nat>, woken: seq<nat>, got: seq<Bits>,
        info: seq<Info>, all: Scanned)
    requires Going(b, kept, rest, woken, got, info, all) && rest != []
    ensures rest[0] < |info|
    ensures var t := rest[0];
            if info[t].Fires(b) then t !in woken && Going(info[t].Leaves(b), kept, rest[1..], woken + [t],
                got + [info[t].Got(b)], info, all)
            else Going(b, kept + [t], rest[1..], woken, got, info, all)
  {
    var t := rest[0];
    assert t in rest && forall x :: x in rest[1..] ==> x in rest;
    if info[t].Fires(b) {
      var r := Scan(info[t].Leaves(b), rest[1..], info);
      assert woken + ([t] + r.woken) == (woken + [t]) + r.woken;
      assert got + ([info[t].Got(b)] + r.got) == (got + [info[t].Got(b)]) + r.got;
      NotYet(woken, t, r.woken);
    } else {
      var r := Scan(b, rest[1..], info);
      assert kept + ([t] + r.left) == (kept + [t]) + r.left;
    }
  }

  // The threads in woken received the bits in got.
  ghost predicate Delivered(woken: seq<nat>, got: seq<Bits>, received: seq<Bits>) {
    |woken| == |got| && forall i :: 0 <= i < |woken| ==> woken[i] < |received| && received[woken[i]] == got[i]
  }

  lemma NotYet(woken: seq<nat>, t: nat, later: seq<nat>)
    requires Distinct(woken + ([t] + later))
    ensures t !in woken
  {
    var all := woken + ([t] + later);
    assert all[|woken|] == t && forall i :: 0 <= i < |woken| ==> all[i] == woken[i];
  }
}
