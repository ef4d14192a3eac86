/** Event sets: threads wait until all (RT_EVENT_FLAG_AND) or any (RT_EVENT_FLAG_OR) of the
    bits they name are set, and may take those bits away (RT_EVENT_FLAG_CLEAR). */
module EventState {
  import opened Lists
  import opened WaitList

  // An event set, as the set of the places of its one bits.
  type Bits = set<nat>

  // What a thread waits for: event_set and event_info.
  datatype Info = Info(want: Bits, all: bool, clear: bool) {
    predicate Fires(b: Bits) { if all then b * want == want else b * want != {} }

    // The bits that satisfied it.
    function Got(b: Bits): Bits { if all then want else want * b }

    // The bits left in b.
    function Leaves(b: Bits): Bits { if clear then b - Got(b) else b }
  }

  // Bit by bit: with RT_EVENT_FLAG_AND each bit that is wanted must be set, with RT_EVENT_FLAG_OR one of
  // them; the thread receives those that are set, and takes them away with RT_EVENT_FLAG_CLEAR only.
  lemma {:induction false} BitByBit(w: Info, b: Bits)
    ensures w.all ==> (w.Fires(b) <==> forall x :: x in w.want ==> x in b)
    ensures !w.all ==> (w.Fires(b) <==> exists x :: x in w.want && x in b)
    ensures w.Fires(b) ==> forall x :: x in w.Got(b) <==> x in w.want && x in b
    ensures w.Fires(b) ==> forall x :: x in w.Leaves(b) <==> x in b && !(w.clear && x in w.want)
  {
    assert w.all && (forall x :: x in w.want ==> x in b) ==> b * w.want == w.want;
    assert w.all && b * w.want == w.want ==> forall x :: x in w.want ==> x in b * w.want;
    if b * w.want != {} {
      var x :| x in b * w.want;
      assert x in w.want && x in b;
    }
    if x :| x in w.want && x in b {
      assert x in b * w.want;
    }
  }

  // The outcome of a scan: the event set, the threads still suspended, those resumed with the
  // bits they received, all in the order of the list.
  datatype Scanned = Scanned(bits: Bits, left: seq<nat>, woken: seq<nat>, got: seq<Bits>)

  // Go through the list from its head, with what each thread leaves for the next.
  function Scan(b: Bits, list: seq<nat>, info: seq<Info>): (r: Scanned)
    requires forall t :: t in list ==> t < |info|
    ensures |r.woken| == |r.got|
    decreases |list|
  {
    if list == [] then Scanned(b, [], [], [])
    else
      assert list[0] in list && forall t :: t in list[1..] ==> t in list;
      var t := list[0];
      if info[t].Fires(b) then
        var r := Scan(info[t].Leaves(b), list[1..], info);
        r.(woken := [t] + r.woken, got := [info[t].Got(b)] + r.got)
      else
        var r := Scan(b, list[1..], info);
        r.(left := [t] + r.left)
  }

  datatype Event =
    | Send(sent: Bits)
    | Recv(t: nat, want: Bits, all: bool, clear: bool, wait: bool)
    | Expire(t: nat)
    | Reset

  datatype State = State(
    byPriority: bool,
    bits: Bits,               // event->set
    waiters: seq<nat>,        // parent.suspend_thread
    info: seq<Info>,          // event_set and event_info of each thread
    prio: seq<nat>)
  {
    ghost predicate Ok() { Distinct(waiters) && forall t :: t in waiters ==> t < |info| }

    ghost predicate Enabled(e: Event) {
      match e
      case Send(sent) => sent != {}
      case Recv(t, want, _, _, _) => t < |info| && t !in waiters && want != {}
      case Expire(t) => t in waiters
      case Reset => true
    }

    ghost function Next(e: Event): State
      requires Ok() && Enabled(e)
    {
      match e
      case Send(sent) => var r := Scan(bits + sent, waiters, info); this.(bits := r.bits, waiters := r.left)
      case Recv(t, want, all, clear, wait) =>
        var w := Info(want, all, clear);
        if w.Fires(bits) then this.(bits := w.Leaves(bits))
        else if wait then this.(info := info[t := w], waiters := Ins(waiters, PlaceOf(waiters, prio, t, byPriority), t))
        else this
      case Expire(t) => this.(waiters := Del(waiters, t))
      case Reset => this.(bits := {}, waiters := [])
    }

    // No suspended thread could be satisfied by the event set.
    ghost predicate Quiet() {
      forall t :: t in waiters && t < |info| ==> !info[t].Fires(bits)
    }
  }

  // A scan only takes bits away, and afterwards nobody it left behind could be satisfied.
  lemma {:induction false} ScanQuiet(b: Bits, list: seq<nat>, info: seq<Info>)
    requires forall t :: t in list ==> t < |info|
    ensures var r := Scan(b, list, info);
            && r.bits <= b
            && forall t :: t in r.left ==> t in list && !info[t].Fires(r.bits)
    decreases |list|
  {
    if list != [] {
      var t, r := list[0], Scan(b, list, info);
      assert t in list && forall x :: x in list[1..] ==> x in list;
      if info[t].Fires(b) {
        ScanQuiet(info[t].Leaves(b), list[1..], info);
      } else {
        ScanQuiet(b, list[1..], info);
      }
    }
  }

  // --- what one scan does -----------------------------------------------------------------------

  function Join(a: Scanned, b: Scanned): Scanned {
    Scanned(b.bits, a.left + b.left, a.woken + b.woken, a.got + b.got)
  }

  // A scan of two lists in a row: the second starts from what the first leaves.
  lemma {:induction false} ScanJoin(b: Bits, l1: seq<nat>, l2: seq<nat>, info: seq<Info>)
    requires (forall t :: t in l1 ==> t < |info|) && (forall t :: t in l2 ==> t < |info|)
    ensures Scan(b, l1 + l2, info) == Join(Scan(b, l1, info), Scan(Scan(b, l1, info).bits, l2, info))
    decreases |l1|
  {
    if l1 == [] {
      assert l1 + l2 == l2;
    } else {
      var t := l1[0];
      assert t in l1 && forall x :: x in l1[1..] ==> x in l1;
      assert (l1 + l2)[0] == t && (l1 + l2)[1..] == l1[1..] + l2;
      ScanJoin(if info[t].Fires(b) then info[t].Leaves(b) else b, l1[1..], l2, info);
    }
  }

  lemma {:induction false} ScanParts(b: Bits, list: seq<nat>, info: seq<Info>)
    requires Distinct(list) && forall t :: t in list ==> t < |info|
    ensures var r := Scan(b, list, info);
            && Distinct(r.left) && Distinct(r.woken)
            && SetOf(r.left) + SetOf(r.woken) == SetOf(list) && SetOf(r.left) !! SetOf(r.woken)
    decreases |list|
  {
    if list == [] {
      assert SetOf(list) == {};
    } else {
      var t := list[0];
      assert t in list && forall x :: x in list[1..] ==> x in list;
      TailOf(list);
      var r := Scan(if info[t].Fires(b) then info[t].Leaves(b) else b, list[1..], info);
      ScanParts(if info[t].Fires(b) then info[t].Leaves(b) else b, list[1..], info);
      assert t !in SetOf(r.left) && t !in SetOf(r.woken);
      InsDistinct(r.woken, 0, t);
      InsDistinct(r.left, 0, t);
      assert Ins(r.woken, 0, t) == [t] + r.woken && Ins(r.left, 0, t) == [t] + r.left;
    }
  }

  // The thread in place i is resumed exactly if what the threads before it left satisfies it,
  // and then it receives just that.
  lemma {:induction false} WokenExactly(b: Bits, list: seq<nat>, info: seq<Info>, i: nat)
    requires Distinct(list) && (forall t :: t in list ==> t < |info|) && i < |list|
    ensures forall t :: t in list[..i] ==> t < |info|
    ensures list[i] < |info|
    ensures var r, before := Scan(b, list, info), Scan(b, list[..i], info);
            && (list[i] in r.woken <==> info[list[i]].Fires(before.bits))
            && (list[i] in r.woken ==> |before.got| < |r.got| && r.woken[|before.woken|] == list[i]
                                       && r.got[|before.got|] == info[list[i]].Got(before.bits))
  {
    var l1, l2 := list[..i], list[i..];
    assert list == l1 + l2 && list[i] in list;
    assert (forall t :: t in l1 ==> t in list) && (forall t :: t in l2 ==> t in list);
    ScanJoin(b, l1, l2, info);
    ScanParts(b, list, info);
    var c := Scan(b, l1, info).bits;
    var r, r1, r2 := Scan(b, list, info), Scan(b, l1, info), Scan(c, l2, info);
    assert l2[0] == list[i];
    if info[list[i]].Fires(c) {
      assert r2.woken[0] == list[i] && r.woken[|r1.woken|] == list[i];
    } else {
      assert r2.left[0] == list[i] && r.left[|r1.left|] == list[i];
      assert list[i] in SetOf(r.left);
    }
  }

  // The bits that threads with RT_EVENT_FLAG_CLEAR took.
  function Taken(woken: seq<nat>, got: seq<Bits>, info: seq<Info>): Bits
    requires |woken| == |got|
  {
    if woken == [] then {}
    else (if woken[0] < |info| && info[woken[0]].clear then got[0] else {}) + Taken(woken[1..], got[1..], info)
  }

  // Bits are conserved: those that were set are either still set or were taken, each by one
  // thread only.
  lemma {:induction false} BitsConserved(b: Bits, list: seq<nat>, info: seq<Info>)
    requires forall t :: t in list ==> t < |info|
    ensures var r := Scan(b, list, info);
            && Taken(r.woken, r.got, info) !! r.bits
            && Taken(r.woken, r.got, info) + r.bits == b
    decreases |list|
  {
    if list != [] {
      var t, r := list[0], Scan(b, list, info);
      assert t in list && forall x :: x in list[1..] ==> x in list;
      if info[t].Fires(b) {
        var c := info[t].Leaves(b);
        var rest := Scan(c, list[1..], info);
        BitsConserved(c, list[1..], info);
        assert r.woken[1..] == rest.woken && r.got[1..] == rest.got;
      } else {
        BitsConserved(b, list[1..], info);
      }
    }
  }

  // No two threads take the same bit.
  lemma {:induction false} TakenOnce(b: Bits, list: seq<nat>, info: seq<Info>, i: nat, j: nat)
    requires forall t :: t in list ==> t < |info|
    requires i < j < |Scan(b, list, info).woken| && Scan(b, list, info).woken[i] < |info|
               && info[Scan(b, list, info).woken[i]].clear
    ensures Scan(b, list, info).got[i] !! Scan(b, list, info).got[j]
    decreases |list|
  {
    var t, r := list[0], Scan(b, list, info);
    assert t in list && forall x :: x in list[1..] ==> x in list;
    if !info[t].Fires(b) {
      TakenOnce(b, list[1..], info, i, j);
    } else if i > 0 {
      TakenOnce(info[t].Leaves(b), list[1..], info, i - 1, j - 1);
    } else {
      GotBelow(info[t].Leaves(b), list[1..], info, j - 1);
    }
  }

  // What a resumed thread receives was set, and satisfies it.
  lemma {:induction false} GotBelow(b: Bits, list: seq<nat>, info: seq<Info>, j: nat)
    requires forall t :: t in list ==> t < |info|
    requires j < |Scan(b, list, info).woken|
    ensures var r := Scan(b, list, info);
            && r.got[j] <= b && r.woken[j] < |info| && r.got[j] <= info[r.woken[j]].want
            && (if info[r.woken[j]].all then r.got[j] == info[r.woken[j]].want else r.got[j] != {})
    decreases |list|
  {
    var t, r := list[0], Scan(b, list, info);
    assert t in list && forall x :: x in list[1..] ==> x in list;
    if !info[t].Fires(b) {
      GotBelow(b, list[1..], info, j);
    } else if j > 0 {
      GotBelow(info[t].Leaves(b), list[1..], info, j - 1);
    }
  }

  // --- runs -------------------------------------------------------------------------------------

  lemma {:induction false} OkNext(s: State, e: Event)
    requires s.Ok() && s.Enabled(e)
    ensures s.Next(e).Ok()
  {
    match e
    case Send(sent) =>
      ScanParts(s.bits + sent, s.waiters, s.info);
      ScanQuiet(s.bits + sent, s.waiters, s.info);
    case Recv(t, want, all, clear, wait) =>
      var k := PlaceOf(s.waiters, s.prio, t, s.byPriority);
      InsDistinct(s.waiters, k, t);
      InsMembers(s.waiters, k, t);
    case Expire(t) =>
      DelDistinct(s.waiters, t);
      assert forall x :: x in Del(s.waiters, t) ==> x in SetOf(Del(s.waiters, t));
    case Reset =>
  }

  lemma {:induction false} QuietNext(s: State, e: Event)
    requires s.Ok() && s.Quiet() && s.Enabled(e)
    ensures s.Next(e).Quiet()
  {
    match e
    case Send(sent) => ScanQuiet(s.bits + sent, s.waiters, s.info);
    case Recv(t, want, all, clear, wait) => InsMembers(s.waiters, PlaceOf(s.waiters, s.prio, t, s.byPriority), t);
    case Expire(t) =>
      forall x
        ensures x in Del(s.waiters, t) <==> x in s.waiters && x != t
      {
        DelMember(s.waiters, t, x);
      }
    case Reset =>
  }

  ghost predicate Run(s: State, es: seq<Event>)
    requires s.Ok()
    decreases |es|
  {
    es == [] || (s.Enabled(es[0]) && (OkNext(s, es[0]); Run(s.Next(es[0]), es[1..])))
  }

  ghost function After(s: State, es: seq<Event>): State
    requires s.Ok() && Run(s, es)
    decreases |es|
  {
    if es == [] then s
    else
      OkNext(s, es[0]);
      After(s.Next(es[0]), es[1..])
  }

  // In every reachable state the event set satisfies no suspended thread.
  lemma {:induction false} QuietRun(s: State, es: seq<Event>)
    requires s.Ok() && s.Quiet() && Run(s, es)
    ensures After(s, es).Ok() && After(s, es).Quiet()
    decreases |es|
  {
    if es != [] {
      OkNext(s, es[0]);
      QuietNext(s, es[0]);
      QuietRun(s.Next(es[0]), es[1..]);
    }
  }

  // What a thread that is not in the list waits for does not matter.
  lemma {:induction false} ScanElsewhere(b: Bits, list: seq<nat>, info: seq<Info>, t: nat, w: Info)
    requires (forall x :: x in list ==> x < |info|) && t !in list && t < |info|
    ensures Scan(b, list, info[t := w]) == Scan(b, list, info)
    decreases |list|
  {
    if list != [] {
      assert list[0] in list && forall x :: x in list[1..] ==> x in list;
      ScanElsewhere(if info[list[0]].Fires(b) then info[list[0]].Leaves(b) else b, list[1..], info, t, w);
    }
  }

  // Threads that are resumed do not move the place at the end.
  lemma {:induction false} PlaceStill(list: seq<nat>, left: seq<nat>, prio: seq<nat>, t: nat, byPriority: bool)
    requires PlaceOf(list, prio, t, byPriority) == |list| && forall x :: x in left ==> x in list
    ensures PlaceOf(left, prio, t, byPriority) == |left|
  {
    if byPriority {
      forall i | 0 <= i < |left|
        ensures Rank(prio, left[i]) <= Rank(prio, t)
      {
        assert left[i] in list;
      }
    }
  }

  // For a thread that goes in front of another the order does matter: waiting first, it gets the
  // bit; if the bit is sent first, the other one does.
  lemma {:induction false} OrderMatters()
    ensures var w := Info({0}, false, true);
            var s := State(true, {}, [0], [w, w], [5, 3]);
            var recv := Recv(1, {0}, false, true, true);
            && s.Ok() && s.Enabled(recv) && s.Next(recv).Ok() && s.Next(Send({0})).Ok()
            && s.Next(recv).Next(Send({0})).waiters == [0]
            && s.Next(Send({0})).Enabled(recv) && s.Next(Send({0})).Next(recv).waiters == [1]
  {
    var w := Info({0}, false, true);
    var s := State(true, {}, [0], [w, w], [5, 3]);
    var recv := Recv(1, {0}, false, true, true);
    assert Ins([0], 0, 1) == [1, 0] && Ins([], 0, 1) == [1];
    ScanFirst(w, [1, 0]);
    ScanFirst(w, [0]);
    assert [1, 0][1..] == [0] && [0][1..] == [] && {} + {0} == {0};
    assert !w.Fires({});
    OkNext(s, recv);
    OkNext(s, Send({0}));
  }

  // One bit, and only threads that take it away: the first one gets it.
  lemma {:induction false} ScanFirst(w: Info, list: seq<nat>)
    requires w == Info({0}, false, true) && list != [] && forall t :: t in list ==> t < 2
    ensures Scan({0}, list, [w, w]) == Scanned({}, list[1..], [list[0]], [{0}])
  {
    assert list[0] in list && forall t :: t in list[1..] ==> t in list;
    var b: Bits := {0};
    assert b * b == b && b - b == {};
    ScanNone({}, list[1..], [w, w]);
  }

  lemma {:induction false} ScanNone(b: Bits, list: seq<nat>, info: seq<Info>)
    requires forall t :: t in list ==> t < |info| && !info[t].Fires(b)
    ensures Scan(b, list, info) == Scanned(b, list, [], [])
  {
    if list != [] {
      assert list[0] in list && forall t :: t in list[1..] ==> t in list;
      ScanNone(b, list[1..], info);
    }
  }

  // A thread that goes to the end of the list, whoever waits there already, gets the same, and
  // leaves the same, whether it waits first and the bits are sent then, or the other way round.
  lemma {:induction false} BeforeOrAfter(s: State, t: nat, w: Info, sent: Bits)
    requires s.Ok() && t < |s.info| && t !in s.waiters && sent != {} && w.want != {} && !w.Fires(s.bits)
    requires PlaceOf(s.waiters, s.prio, t, s.byPriority) == |s.waiters|
    ensures var recv := Recv(t, w.want, w.all, w.clear, true);
            && s.Next(recv).Ok() && s.Next(Send(sent)).Ok() && s.Next(Send(sent)).Enabled(recv)
            && s.Next(recv).Next(Send(sent)).bits == s.Next(Send(sent)).Next(recv).bits
            && s.Next(recv).Next(Send(sent)).waiters == s.Next(Send(sent)).Next(recv).waiters
    // what the scan hands it is what it would receive at once
    ensures (forall x :: x in s.waiters + [t] ==> x < |s.info|)
    ensures var b, r := s.Next(Send(sent)).bits, Scan(s.bits + sent, s.waiters + [t], s.info[t := w]);
            r.got == Scan(s.bits + sent, s.waiters, s.info).got + (if w.Fires(b) then [w.Got(b)] else [])
  {
    var recv := Recv(t, w.want, w.all, w.clear, true);
    OkNext(s, recv);
    OkNext(s, Send(sent));
    var info, first := s.info[t := w], Scan(s.bits + sent, s.waiters, s.info);
    assert Ins(s.waiters, |s.waiters|, t) == s.waiters + [t];
    ScanElsewhere(s.bits + sent, s.waiters, s.info, t, w);
    ScanJoin(s.bits + sent, s.waiters, [t], info);
    ScanOne(first.bits, t, info);
    ScanQuiet(s.bits + sent, s.waiters, s.info);
    PlaceStill(s.waiters, first.left, s.prio, t, s.byPriority);
    assert Ins(first.left, |first.left|, t) == first.left + [t] && first.left + [] == first.left;
  }

  lemma {:induction false} ScanOne(b: Bits, t: nat, info: seq<Info>)
    requires t < |info|
    ensures Scan(b, [t], info) ==
            if info[t].Fires(b) then Scanned(info[t].Leaves(b), [], [t], [info[t].Got(b)]) else Scanned(b, [t], [], [])
  {
    assert [t][1..] == [];
  }
}
