/** A message queue as a state that its critical sections change one at a time, in any
    interleaving of the threads that send and receive. Slots of the message pool and threads
    are named by numbers. */
module MessageQueueState {
  import opened Lists
  import opened WaitList

  type Message = seq<int>

  // A slot that is on no list is in the hands of one thread, outside any critical section:
  // a sender fills it, a receiver copies it out. msg is the message it should hold.
  datatype Hand =
    | ToFill(slot: nat)
    | Filled(slot: nat, msg: Message)
    | ToDrain(slot: nat, msg: Message)
    | Drained(slot: nat)

  datatype Event =
    | TakeSlot(t: nat)               // a sender takes the first free slot
    | AwaitSlot(t: nat, k: nat)      // there is none: it suspends itself, in place k
    | LeaveSlot(t: nat)              // there is none and its time is up
    | Fill(t: nat, buf: Message)     // it copies its message into the slot
    | LinkTail(t: nat)               // rt_mq_send_wait links the slot
    | LinkHead(t: nat)               // rt_mq_urgent links the slot
    | TakeMsg(t: nat)                // a receiver takes the first message
    | AwaitMsg(t: nat, k: nat)
    | LeaveMsg(t: nat)
    | Drain(t: nat)                  // it copies the message out of the slot
    | Return(t: nat)                 // it puts the slot on the free list
    | SenderTimeout(t: nat)          // rt_thread_timeout for a suspended thread
    | ReceiverTimeout(t: nat)
    | Reset                          // rt_mq_control

  datatype State = State(
    size: nat,                // mq->msg_size
    free: seq<nat>,           // msg_queue_free
    queue: seq<nat>,          // msg_queue_head to msg_queue_tail
    entry: nat,
    hands: map<nat, Hand>,
    data: seq<Message>,       // the bytes of the slots
    receivers: seq<nat>,      // parent.suspend_thread
    senders: seq<nat>,        // suspend_sender_thread
    wokenR: set<nat>,         // receivers resumed without error that have not looked again
    wokenS: set<nat>)         // senders likewise
  {
    predicate Idle(t: nat) {
      t !in hands && t !in receivers && t !in senders && t !in wokenR && t !in wokenS
    }

    // The messages in the queue, first to last.
    ghost function Contents(): seq<Message>
      requires forall i :: 0 <= i < |queue| ==> queue[i] < |data|
    {
      Held(queue, data)
    }

    // May the event happen?
    ghost predicate Enabled(e: Event) {
      match e
      case TakeSlot(t) => free != [] && (Idle(t) || t in wokenS)
      case AwaitSlot(t, k) => free == [] && (Idle(t) || t in wokenS) && k <= |senders|
      case LeaveSlot(t) => free == [] && t in wokenS
      case Fill(t, buf) => t in hands && hands[t].ToFill? && hands[t].slot < |data| && 0 < |buf| <= size
      case LinkTail(t) => t in hands && hands[t].Filled?
      case LinkHead(t) => t in hands && hands[t].Filled?
      case TakeMsg(t) => entry > 0 && (Idle(t) || t in wokenR) && queue != [] && queue[0] < |data|
      case AwaitMsg(t, k) => entry == 0 && (Idle(t) || t in wokenR) && k <= |receivers|
      case LeaveMsg(t) => entry == 0 && t in wokenR
      case Drain(t) => t in hands && hands[t].ToDrain?
      case Return(t) => t in hands && hands[t].Drained?
      case SenderTimeout(t) => t in senders
      case ReceiverTimeout(t) => t in receivers
      case Reset => true
    }

    // Resume the first suspended receiver, if there is one.
    ghost function WakeReceiver(): State {
      if receivers == [] then this
      else this.(receivers := receivers[1..], wokenR := wokenR + {receivers[0]})
    }

    ghost function WakeSender(): State {
      if senders == [] then this
      else this.(senders := senders[1..], wokenS := wokenS + {senders[0]})
    }

    // Fewer bytes than the slot has room for leave the rest of it as it was.
    ghost function Filling(slot: nat, buf: Message): Message
      requires slot < |data|
    {
      if |buf| <= |data[slot]| then buf + data[slot][|buf|..] else buf
    }

    ghost function Next(e: Event): State
      requires Enabled(e)
    {
      match e
      case TakeSlot(t) => this.(free := free[1..], hands := hands[t := ToFill(free[0])], wokenS := wokenS - {t})
      case AwaitSlot(t, k) => this.(senders := Ins(senders, k, t), wokenS := wokenS - {t})
      case LeaveSlot(t) => this.(wokenS := wokenS - {t})
      case Fill(t, buf) =>
        var slot, m := hands[t].slot, Filling(hands[t].slot, buf);
        this.(data := data[slot := m], hands := hands[t := Filled(slot, m)])
      case LinkTail(t) => this.(queue := queue + [hands[t].slot], entry := entry + 1,
          hands := hands - {t}).WakeReceiver()
      case LinkHead(t) => this.(queue := [hands[t].slot] + queue, entry := entry + 1,
          hands := hands - {t}).WakeReceiver()
      case TakeMsg(t) =>
        this.(queue := queue[1..], entry := entry - 1, hands := hands[t := ToDrain(queue[0], data[queue[0]])],
            wokenR := wokenR - {t})
      case AwaitMsg(t, k) => this.(receivers := Ins(receivers, k, t), wokenR := wokenR - {t})
      case LeaveMsg(t) => this.(wokenR := wokenR - {t})
      case Drain(t) => this.(hands := hands[t := Drained(hands[t].slot)])
      case Return(t) => this.(free := [hands[t].slot] + free, hands := hands - {t}).WakeSender()
      case SenderTimeout(t) => this.(senders := Del(senders, t))
      case ReceiverTimeout(t) => this.(receivers := Del(receivers, t))
      case Reset => this.(free := Reversed(queue) + free, queue := [], entry := 0, receivers := [], senders := [])
    }

    // Each slot is in exactly one place: the free list, the queue, or one thread's hands.
    ghost predicate SlotsOnce() { Once(free, queue, hands, |data|) }

    // Each thread does one thing at a time.
    ghost predicate OneRole() {
      Apart(hands.Keys, SetOf(receivers), SetOf(senders), wokenR, wokenS)
    }

    // What the slots in hands hold.
    ghost predicate HandsHold() {
      && (forall i :: 0 <= i < |data| ==> |data[i]| == size)
      && forall t :: t in hands ==>
           && hands[t].slot < |data|
           && (hands[t].Filled? || hands[t].ToDrain? ==> data[hands[t].slot] == hands[t].msg)
    }

    // No wake-up is lost: while receivers are suspended, as many resumed ones as there are
    // messages have yet to look, and likewise for senders and free slots.
    ghost predicate Wakes() {
      && Waits(receivers, wokenR, entry)
      && Waits(senders, wokenS, |free|)
    }

    ghost predicate Inv() {
      entry == |queue| && SlotsOnce() && HandsHold() && OneRole() && Wakes()
    }
  }

  // What the slots of q hold.
  ghost function Held(q: seq<nat>, data: seq<Message>): (r: seq<Message>)
    requires forall i :: 0 <= i < |q| ==> q[i] < |data|
    ensures |r| == |q| && forall i :: 0 <= i < |r| ==> r[i] == data[q[i]]
  {
    seq(|q|, i requires 0 <= i < |q| => data[q[i]])
  }

  function Reversed(s: seq<nat>): (r: seq<nat>) {
    if s == [] then [] else Reversed(s[1..]) + [s[0]]
  }

  // No slot is in two threads' hands.
  ghost predicate Single(hands: map<nat, Hand>) {
    forall t, u :: t in hands && u in hands && t != u ==> hands[t].slot != hands[u].slot
  }

  ghost function InHands(hands: map<nat, Hand>): set<nat> { set t | t in hands :: hands[t].slot }

  ghost predicate Once(free: seq<nat>, queue: seq<nat>, hands: map<nat, Hand>, n: nat) {
    && Distinct(free) && Distinct(queue) && Single(hands)
    && Parts(SetOf(free), SetOf(queue), InHands(hands), n)
  }

  ghost predicate Apart(a: set<nat>, b: set<nat>, c: set<nat>, d: set<nat>, e: set<nat>) {
    a !! b && a !! c && a !! d && a !! e && b !! c && b !! d && b !! e && c !! d && c !! e && d !! e
  }

  ghost predicate Parts(f: set<nat>, q: set<nat>, h: set<nat>, n: nat) {
    f !! q && f !! h && q !! h && f + q + h == Range(n)
  }

  // --- wake-ups -------------------------------------------------------------------------------

  lemma {:induction false} WaitsNext(s: State, e: Event)
    requires s.Inv() && s.Enabled(e)
    ensures s.Next(e).Wakes()
  {
    match e
    case TakeSlot(t) => OneTaken(s.senders, s.wokenS, |s.free|, t);
    case AwaitSlot(t, k) =>
      NotBoth(s, t);
      OneWaits(s.senders, s.wokenS, k, t);
    case LeaveSlot(t) =>
    case Fill(t, buf) =>
    case LinkTail(t) => WakeFirst(s.receivers, s.wokenR, s.entry);
    case LinkHead(t) => WakeFirst(s.receivers, s.wokenR, s.entry);
    case TakeMsg(t) => OneTaken(s.receivers, s.wokenR, s.entry, t);
    case AwaitMsg(t, k) =>
      NotBoth(s, t);
      OneWaits(s.receivers, s.wokenR, k, t);
    case LeaveMsg(t) =>
    case Drain(t) =>
    case Return(t) => WakeFirst(s.senders, s.wokenS, |s.free|);
    case SenderTimeout(t) => OneLeaves(s.senders, s.wokenS, |s.free|, t);
    case ReceiverTimeout(t) => OneLeaves(s.receivers, s.wokenR, s.entry, t);
    case Reset =>
  }

  // A resumed thread does not wait.
  lemma {:induction false} NotBoth(s: State, t: nat)
    requires s.OneRole()
    ensures t in s.wokenS ==> t !in s.senders
    ensures t in s.wokenR ==> t !in s.receivers
  {
    assert t in s.senders <==> t in SetOf(s.senders);
    assert t in s.receivers <==> t in SetOf(s.receivers);
  }

  // --- one thing at a time --------------------------------------------------------------------

  // One thread changes roles, others may only leave theirs.
  lemma {:induction false} ApartStill(a: set<nat>, b: set<nat>, c: set<nat>, d: set<nat>, e: set<nat>, t: nat,
                                      a': set<nat>, b': set<nat>, c': set<nat>, d': set<nat>, e': set<nat>)
    requires Apart(a, b, c, d, e)
    requires a' <= a + {t} && b' <= b + {t} && c' <= c + {t} && d' <= d + {t} && e' <= e + {t}
    requires t !in a' + b' + c' + d' || t !in a' + b' + c' + e' || t !in a' + b' + d' + e' || t !in a' + c' + d' + e'
               || t !in b' + c' + d' + e'
    ensures Apart(a', b', c', d', e')
  {
    forall x | x != t
      ensures (x in a' ==> x in a) && (x in b' ==> x in b) && (x in c' ==> x in c) && (x in d' ==> x in d)
                && (x in e' ==> x in e)
    {
    }
    assert forall x :: x in a' ==> x !in b' && x !in c' && x !in d' && x !in e';
    assert forall x :: x in b' ==> x !in c' && x !in d' && x !in e';
    assert forall x :: x in c' ==> x !in d' && x !in e';
    assert forall x :: x in d' ==> x !in e';
  }

  lemma {:induction false} RolesMove(s: State, u: State, t: nat)
    requires s.OneRole()
    requires u.hands.Keys <= s.hands.Keys + {t} && SetOf(u.receivers) <= SetOf(s.receivers) + {t}
    requires SetOf(u.senders) <= SetOf(s.senders) + {t} && u.wokenR <= s.wokenR + {t} && u.wokenS <= s.wokenS + {t}
    requires var a, b, c, d, e := u.hands.Keys, SetOf(u.receivers), SetOf(u.senders), u.wokenR, u.wokenS;
             t !in a + b + c + d || t !in a + b + c + e || t !in a + b + d + e || t !in a + c + d + e
                 || t !in b + c + d + e
    ensures u.OneRole()
  {
    ApartStill(s.hands.Keys, SetOf(s.receivers), SetOf(s.senders), s.wokenR, s.wokenS, t,
               u.hands.Keys, SetOf(u.receivers), SetOf(u.senders), u.wokenR, u.wokenS);
  }

  lemma {:induction false} RolesNext(s: State, e: Event)
    requires s.Inv() && s.Enabled(e)
    ensures s.Next(e).OneRole()
  {
    var u := s.Next(e);
    match e
    case AwaitSlot(t, k) => RolesAwait(s, e);
    case AwaitMsg(t, k) => RolesAwait(s, e);
    case SenderTimeout(t) => RolesExpire(s, e);
    case ReceiverTimeout(t) => RolesExpire(s, e);
    case Fill(t, buf) => Rekeyed(s.hands, t, u.hands[t]);
    case Drain(t) => Rekeyed(s.hands, t, u.hands[t]);
    case LinkTail(t) => RolesWake(s, u, t);
    case LinkHead(t) => RolesWake(s, u, t);
    case Return(t) => RolesWake(s, u, t);
    case _ => RolesTurn(s, e);
  }

  // A thread finds a slot or a message, or gives up, or all that wait are let go.
  lemma {:induction false} RolesTurn(s: State, e: Event)
    requires s.Inv() && s.Enabled(e)
    requires e.TakeSlot? || e.LeaveSlot? || e.TakeMsg? || e.LeaveMsg? || e.Reset?
    ensures s.Next(e).OneRole()
  {
    var u := s.Next(e);
    RolesMove(s, u, if e.Reset? then 0 else e.t);
  }

  // A thread joins a waiting list.
  lemma {:induction false} RolesAwait(s: State, e: Event)
    requires s.Inv() && s.Enabled(e)
    requires e.AwaitSlot? || e.AwaitMsg?
    ensures s.Next(e).OneRole()
  {
    InsDistinct(if e.AwaitSlot? then s.senders else s.receivers, e.k, e.t);
    RolesMove(s, s.Next(e), e.t);
  }

  // A thread leaves one.
  lemma {:induction false} RolesExpire(s: State, e: Event)
    requires s.Inv() && s.Enabled(e)
    requires e.SenderTimeout? || e.ReceiverTimeout?
    ensures s.Next(e).OneRole()
  {
    DelDistinct(if e.SenderTimeout? then s.senders else s.receivers, e.t);
    RolesMove(s, s.Next(e), e.t);
  }

  // A slot was put back, and the first thread suspended for that resumed.
  lemma {:induction false} RolesWake(s: State, u: State, t: nat)
    requires s.Inv() && u.hands == s.hands - {t}
    requires var v := s.(hands := u.hands, queue := u.queue, free := u.free, entry := u.entry);
             u == v.WakeReceiver() || u == v.WakeSender()
    ensures u.OneRole()
  {
    WakeFirst(s.receivers, s.wokenR, s.entry);
    WakeFirst(s.senders, s.wokenS, |s.free|);
    RolesMove(s, u, if u.receivers != s.receivers then s.receivers[0]
                    else if u.senders != s.senders then s.senders[0] else t);
  }

  lemma Rekeyed(hands: map<nat, Hand>, t: nat, h: Hand)
    requires t in hands
    ensures hands[t := h].Keys == hands.Keys
  {
  }

  // --- slots ----------------------------------------------------------------------------------

  // A slot goes into the hands of a thread that has none.
  lemma {:induction false} Grasp(hands: map<nat, Hand>, t: nat, h: Hand)
    requires Single(hands) && t !in hands && h.slot !in InHands(hands)
    ensures Single(hands[t := h]) && InHands(hands[t := h]) == InHands(hands) + {h.slot}
  {
    var m := hands[t := h];
    assert forall u :: u in hands ==> m[u] == hands[u] && hands[u].slot in InHands(hands);
    forall x
      ensures x in InHands(m) <==> x in InHands(hands) || x == h.slot
    {
      assert m[t].slot == h.slot;
    }
  }

  // The thread does something with it.
  lemma {:induction false} Handle(hands: map<nat, Hand>, t: nat, h: Hand)
    requires Single(hands) && t in hands && h.slot == hands[t].slot
    ensures Single(hands[t := h]) && InHands(hands[t := h]) == InHands(hands)
  {
    var m := hands[t := h];
    assert forall u :: u in m <==> u in hands;
    assert forall u :: u in hands ==> m[u].slot == hands[u].slot;
  }

  lemma {:induction false} Release(hands: map<nat, Hand>, t: nat)
    requires Single(hands) && t in hands
    ensures Single(hands - {t}) && InHands(hands - {t}) == InHands(hands) - {hands[t].slot}
              && hands[t].slot in InHands(hands)
  {
    var m := hands - {t};
    forall x
      ensures x in InHands(m) <==> x in InHands(hands) && x != hands[t].slot
    {
      if x in InHands(hands) && x != hands[t].slot {
        var u :| u in hands && hands[u].slot == x;
        assert u in m && m[u].slot == x;
      }
    }
  }

  lemma {:induction false} FreeTaken(free: seq<nat>, queue: seq<nat>, hands: map<nat, Hand>, n: nat, t: nat, h: Hand)
    requires Once(free, queue, hands, n) && free != [] && t !in hands && h.slot == free[0]
    ensures Once(free[1..], queue, hands[t := h], n)
  {
    TailOf(free);
    Grasp(hands, t, h);
  }

  lemma {:induction false} QueueTaken(free: seq<nat>, queue: seq<nat>, hands: map<nat, Hand>, n: nat, t: nat, h: Hand)
    requires Once(free, queue, hands, n) && queue != [] && t !in hands && h.slot == queue[0]
    ensures Once(free, queue[1..], hands[t := h], n)
  {
    TailOf(queue);
    Grasp(hands, t, h);
  }

  lemma {:induction false} Linked(free: seq<nat>, queue: seq<nat>, hands: map<nat, Hand>, n: nat, t: nat)
    requires Once(free, queue, hands, n) && t in hands
    ensures Once(free, queue + [hands[t].slot], hands - {t}, n)
    ensures Once(free, [hands[t].slot] + queue, hands - {t}, n)
    ensures Once([hands[t].slot] + free, queue, hands - {t}, n)
  {
    Release(hands, t);
    Append(queue, hands[t].slot);
    Append(free, hands[t].slot);
  }

  lemma {:induction false} Emptied(free: seq<nat>, queue: seq<nat>, hands: map<nat, Hand>, n: nat)
    requires Once(free, queue, hands, n)
    ensures Once(Reversed(queue) + free, [], hands, n)
  {
    ReversedDistinct(queue);
    JoinDistinct(Reversed(queue), free);
    assert SetOf([]) == {};
  }

  lemma {:induction false} SlotsNext(s: State, e: Event)
    requires s.Inv() && s.Enabled(e)
    ensures s.Next(e).SlotsOnce() && s.Next(e).entry == |s.Next(e).queue|
  {
    match e
    case TakeSlot(t) => FreeTaken(s.free, s.queue, s.hands, |s.data|, t, ToFill(s.free[0]));
    case AwaitSlot(t, k) =>
    case LeaveSlot(t) =>
    case Fill(t, buf) => Handle(s.hands, t, s.Next(e).hands[t]);
    case LinkTail(t) => Linked(s.free, s.queue, s.hands, |s.data|, t);
    case LinkHead(t) => Linked(s.free, s.queue, s.hands, |s.data|, t);
    case TakeMsg(t) => QueueTaken(s.free, s.queue, s.hands, |s.data|, t, s.Next(e).hands[t]);
    case AwaitMsg(t, k) =>
    case LeaveMsg(t) =>
    case Drain(t) => Handle(s.hands, t, Drained(s.hands[t].slot));
    case Return(t) => Linked(s.free, s.queue, s.hands, |s.data|, t);
    case SenderTimeout(t) =>
    case ReceiverTimeout(t) =>
    case Reset => Emptied(s.free, s.queue, s.hands, |s.data|);
  }

  lemma {:induction false} ReversedDistinct(s: seq<nat>)
    requires Distinct(s)
    ensures Distinct(Reversed(s)) && SetOf(Reversed(s)) == SetOf(s)
  {
    if s == [] {
    } else {
      TailOf(s);
      ReversedDistinct(s[1..]);
      Append(Reversed(s[1..]), s[0]);
    }
  }

  lemma {:induction false} JoinDistinct(s: seq<nat>, r: seq<nat>)
    requires Distinct(s) && Distinct(r) && SetOf(s) !! SetOf(r)
    ensures Distinct(s + r) && SetOf(s + r) == SetOf(s) + SetOf(r)
  {
    forall i, j | 0 <= i < |s| && 0 <= j < |r|
      ensures s[i] != r[j]
    {
      assert s[i] in SetOf(s) && r[j] in SetOf(r);
    }
  }

  // --- what the slots hold --------------------------------------------------------------------

  lemma {:induction false} HandsNext(s: State, e: Event)
    requires s.Inv() && s.Enabled(e)
    ensures s.Next(e).HandsHold()
  {
    var u := s.Next(e);
    match e
    case TakeSlot(t) => InRange(|s.data|, s.free[0]);
      assert s.free[0] in SetOf(s.free);
    case Fill(t, buf) =>
    case TakeMsg(t) =>
    case _ =>
  }

  // --- runs -----------------------------------------------------------------------------------

  // The slots, the last one first.
  function AllSlots(n: nat): seq<nat> { if n == 0 then [] else [n - 1] + AllSlots(n - 1) }

  lemma {:induction false} AllOnce(n: nat)
    ensures Distinct(AllSlots(n)) && SetOf(AllSlots(n)) == Range(n)
  {
    if n == 0 {
      assert SetOf([]) == {};
    } else {
      var r := AllSlots(n - 1);
      AllOnce(n - 1);
      InRange(n - 1, n - 1);
      Append(r, n - 1);
      assert AllSlots(n) == [n - 1] + r && Range(n) == Range(n - 1) + {n - 1};
    }
  }

  // rt_mq_init: every slot is free.
  ghost predicate Init(s: State) {
    && s.free == AllSlots(|s.data|) && s.queue == [] && s.entry == 0 && s.hands == map[]
    && s.receivers == [] && s.senders == [] && s.wokenR == {} && s.wokenS == {}
    && forall i :: 0 <= i < |s.data| ==> |s.data[i]| == s.size
  }

  ghost predicate Run(s: State, es: seq<Event>)
    decreases |es|
  {
    es == [] || (s.Enabled(es[0]) && Run(s.Next(es[0]), es[1..]))
  }

  ghost function After(s: State, es: seq<Event>): State
    requires Run(s, es)
    decreases |es|
  {
    if es == [] then s else After(s.Next(es[0]), es[1..])
  }

  lemma {:induction false} InvInit(s: State)
    requires Init(s)
    ensures s.Inv()
  {
    AllOnce(|s.data|);
    assert SetOf([]) == {} && InHands(map[]) == {};
  }

  lemma {:induction false} InvNext(s: State, e: Event)
    requires s.Inv() && s.Enabled(e)
    ensures s.Next(e).Inv()
  {
    SlotsNext(s, e);
    HandsNext(s, e);
    RolesNext(s, e);
    WaitsNext(s, e);
  }

  // Whatever the interleaving, the invariant holds in every state of a run.
  lemma {:induction false} InvRun(s: State, es: seq<Event>)
    requires s.Inv() && Run(s, es)
    ensures After(s, es).Inv()
    decreases |es|
  {
    if es != [] {
      InvNext(s, es[0]);
      InvRun(s.Next(es[0]), es[1..]);
    }
  }

  // No slot is lost: those that are neither free nor queued are in as many threads' hands.
  lemma {:induction false} SlotCount(s: State)
    requires s.Inv()
    ensures |s.free| + s.entry + |s.hands| == |s.data|
  {
    Length(s.free);
    Length(s.queue);
    RangeSize(|s.data|);
    HandsSize(s.hands);
    var f, q, h := SetOf(s.free), SetOf(s.queue), InHands(s.hands);
    assert |f + q| == |f| + |q| && |(f + q) + h| == |f + q| + |h|;
  }

  lemma {:induction false} HandsSize(hands: map<nat, Hand>)
    requires Single(hands)
    ensures |InHands(hands)| == |hands|
    decreases |hands|
  {
    if hands == map[] {
      assert InHands(hands) == {};
    } else {
      var t :| t in hands;
      Release(hands, t);
      HandsSize(hands - {t});
      assert hands.Keys == (hands - {t}).Keys + {t};
    }
  }

  // --- the queue as a deque of messages ---------------------------------------------------------

  ghost predicate Listed(s: State) { forall i :: 0 <= i < |s.queue| ==> s.queue[i] < |s.data| }

  lemma {:induction false} InvListed(s: State)
    requires s.Inv()
    ensures Listed(s)
    ensures forall t, i :: t in s.hands && 0 <= i < |s.queue| ==> s.queue[i] != s.hands[t].slot
  {
    forall i | 0 <= i < |s.queue|
      ensures s.queue[i] < |s.data| && s.queue[i] in SetOf(s.queue)
    {
      assert s.queue[i] in SetOf(s.queue);
      InRange(|s.data|, s.queue[i]);
    }
    forall t | t in s.hands
      ensures s.hands[t].slot in InHands(s.hands)
    {
    }
  }

  // What each event does to the messages in the queue, d: only linking, taking and resetting
  // change them, and what is linked or taken is the message, not just the slot.
  ghost function Dequeued(d: seq<Message>, s: State, e: Event): seq<Message> {
    match e
    case LinkTail(t) => if t in s.hands && s.hands[t].Filled? then d + [s.hands[t].msg] else d
    case LinkHead(t) => if t in s.hands && s.hands[t].Filled? then [s.hands[t].msg] + d else d
    case TakeMsg(t) => if d != [] then d[1..] else d
    case Reset => []
    case _ => d
  }

  lemma {:induction false} DequeNext(s: State, e: Event)
    requires s.Inv() && s.Enabled(e)
    ensures Listed(s) && Listed(s.Next(e)) && s.Next(e).Contents() == Dequeued(s.Contents(), s, e)
    ensures e.TakeMsg? ==> s.Contents() != [] && s.Next(e).hands[e.t] == ToDrain(s.queue[0], s.Contents()[0])
  {
    InvListed(s);
    InvNext(s, e);
    InvListed(s.Next(e));
    QueueNext(s, e);
  }

  ghost predicate Within(q: seq<nat>, n: nat) { forall i :: 0 <= i < |q| ==> q[i] < n }

  lemma HeldLinked(q: seq<nat>, data: seq<Message>, x: nat)
    requires Within(q, |data|) && x < |data|
    ensures Held(q + [x], data) == Held(q, data) + [data[x]]
    ensures Held([x] + q, data) == [data[x]] + Held(q, data)
  {
  }

  lemma HeldTaken(q: seq<nat>, data: seq<Message>)
    requires Within(q, |data|) && q != []
    ensures Held(q[1..], data) == Held(q, data)[1..]
  {
  }

  // Filling a slot that is not queued does not change what is queued.
  lemma HeldFilled(q: seq<nat>, data: seq<Message>, x: nat, m: Message)
    requires Within(q, |data|) && x < |data| && forall i :: 0 <= i < |q| ==> q[i] != x
    ensures Held(q, data[x := m]) == Held(q, data)
  {
  }

  lemma {:induction false} QueueNext(s: State, e: Event)
    requires s.Enabled(e) && Listed(s) && Listed(s.Next(e)) && s.HandsHold()
    requires forall t, i :: t in s.hands && 0 <= i < |s.queue| ==> s.queue[i] != s.hands[t].slot
    ensures s.Next(e).Contents() == Dequeued(s.Contents(), s, e)
  {
    match e
    case LinkTail(t) => HeldLinked(s.queue, s.data, s.hands[t].slot);
    case LinkHead(t) => HeldLinked(s.queue, s.data, s.hands[t].slot);
    case Fill(t, buf) => HeldFilled(s.queue, s.data, s.hands[t].slot, s.Filling(s.hands[t].slot, buf));
    case TakeMsg(t) => HeldTaken(s.queue, s.data);
    case _ =>
  }

  // What was linked and what was taken, in order, and what a reset threw away.
  datatype Log = Log(sent: seq<Message>, got: seq<Message>, lost: multiset<Message>)

  ghost function Record(l: Log, s: State, e: Event): Log
    requires Listed(s)
  {
    match e
    case LinkTail(t) => if t in s.hands && s.hands[t].Filled? then l.(sent := l.sent + [s.hands[t].msg]) else l
    case LinkHead(t) => if t in s.hands && s.hands[t].Filled? then l.(sent := l.sent + [s.hands[t].msg]) else l
    case TakeMsg(t) => if s.queue != [] then l.(got := l.got + [s.Contents()[0]]) else l
    case Reset => l.(lost := l.lost + multiset(s.Contents()))
    case _ => l
  }

  ghost function LogOf(l: Log, s: State, es: seq<Event>): Log
    requires s.Inv() && Run(s, es)
    decreases |es|
  {
    if es == [] then l
    else
      InvListed(s);
      InvNext(s, es[0]);
      LogOf(Record(l, s, es[0]), s.Next(es[0]), es[1..])
  }

  // Every message that was linked was taken once, or is still in the queue, or was thrown away
  // by a reset; none appears from nowhere.
  ghost predicate Balanced(l: Log, d: seq<Message>) {
    multiset(l.sent) == multiset(l.got) + l.lost + multiset(d)
  }

  lemma {:induction false} BalancedNext(l: Log, s: State, e: Event)
    requires Listed(s) && Balanced(l, s.Contents())
    ensures Balanced(Record(l, s, e), Dequeued(s.Contents(), s, e))
  {
    match e
    case LinkTail(t) =>
      if t in s.hands && s.hands[t].Filled? { SendBalanced(l, s.Contents(), s.hands[t].msg); }
    case LinkHead(t) =>
      if t in s.hands && s.hands[t].Filled? { SendBalanced(l, s.Contents(), s.hands[t].msg); }
    case TakeMsg(t) =>
      if s.queue != [] { GetBalanced(l, s.Contents()); }
    case _ =>
  }

  lemma SendBalanced(l: Log, d: seq<Message>, m: Message)
    requires Balanced(l, d)
    ensures Balanced(l.(sent := l.sent + [m]), d + [m]) && Balanced(l.(sent := l.sent + [m]), [m] + d)
  {
  }

  lemma GetBalanced(l: Log, d: seq<Message>)
    requires Balanced(l, d) && d != []
    ensures Balanced(l.(got := l.got + [d[0]]), d[1..])
  {
    assert d == [d[0]] + d[1..];
  }

  lemma {:induction false} DeliveredOnce(l: Log, s: State, es: seq<Event>)
    requires s.Inv() && Run(s, es) && Listed(s) && Balanced(l, s.Contents())
    ensures Listed(After(s, es)) && Balanced(LogOf(l, s, es), After(s, es).Contents())
    decreases |es|
  {
    if es != [] {
      InvNext(s, es[0]);
      DequeNext(s, es[0]);
      BalancedNext(l, s, es[0]);
      DeliveredOnce(Record(l, s, es[0]), s.Next(es[0]), es[1..]);
    }
  }

  // While no urgent message is linked and nothing is reset, messages are taken in the order
  // they were linked in.
  ghost predicate Ordered(l: Log, d: seq<Message>) { l.sent == l.got + d }

  lemma {:induction false} OrderedNext(l: Log, s: State, e: Event)
    requires Listed(s) && Ordered(l, s.Contents()) && !e.LinkHead? && !e.Reset?
    ensures Ordered(Record(l, s, e), Dequeued(s.Contents(), s, e))
  {
    var d := s.Contents();
    assert d != [] ==> d == [d[0]] + d[1..];
  }

  lemma {:induction false} FirstInFirstOut(l: Log, s: State, es: seq<Event>)
    requires s.Inv() && Run(s, es) && Listed(s) && Ordered(l, s.Contents())
    requires forall i :: 0 <= i < |es| ==> !es[i].LinkHead? && !es[i].Reset?
    ensures Listed(After(s, es)) && Ordered(LogOf(l, s, es), After(s, es).Contents())
    decreases |es|
  {
    if es != [] {
      InvNext(s, es[0]);
      DequeNext(s, es[0]);
      OrderedNext(l, s, es[0]);
      FirstInFirstOut(Record(l, s, es[0]), s.Next(es[0]), es[1..]);
    }
  }

  // An urgent message that nothing overtakes is the next one taken.
  lemma {:induction false} UrgentNext(s: State, t: nat, u: nat)
    requires s.Inv() && s.Enabled(LinkHead(t)) && s.Next(LinkHead(t)).Enabled(TakeMsg(u))
    ensures var w := s.Next(LinkHead(t)).Next(TakeMsg(u));
            u in w.hands && w.hands[u] == ToDrain(s.hands[t].slot, s.hands[t].msg)
    ensures Listed(s) && Listed(s.Next(LinkHead(t)).Next(TakeMsg(u)))
              && s.Next(LinkHead(t)).Next(TakeMsg(u)).Contents() == s.Contents()
  {
    DequeNext(s, LinkHead(t));
    InvNext(s, LinkHead(t));
    DequeNext(s.Next(LinkHead(t)), TakeMsg(u));
  }

  // Outside the critical sections no other thread touches a slot in hands: what a receiver
  // copies out, however late, is the message it took.
  lemma {:induction false} Untouched(s: State, es: seq<Event>, t: nat)
    requires s.Inv() && Run(s, es) && t in s.hands && (s.hands[t].ToDrain? || s.hands[t].Filled?)
    requires forall i :: 0 <= i < |es| ==> es[i].Reset? || es[i].t != t
    ensures var u := After(s, es);
            t in u.hands && u.hands[t] == s.hands[t] && u.hands[t].slot < |u.data|
                && u.data[u.hands[t].slot] == s.hands[t].msg
    decreases |es|
  {
    if es != [] {
      InvNext(s, es[0]);
      KeepsHold(s, es[0], t);
      Untouched(s.Next(es[0]), es[1..], t);
    }
  }

  lemma {:induction false} KeepsHold(s: State, e: Event, t: nat)
    requires s.Enabled(e) && t in s.hands && (e.Reset? || e.t != t)
    ensures t in s.Next(e).hands && s.Next(e).hands[t] == s.hands[t]
  {
  }

  // A resumed receiver that finds no message left lets none wait: if receivers stay suspended
  // and none is on its way, there is nothing to receive.
  lemma {:induction false} NoLostWakeUp(s: State, es: seq<Event>)
    requires s.Inv() && Run(s, es)
    ensures var u := After(s, es);
            && (u.receivers != [] && u.wokenR == {} ==> u.queue == [])
            && (u.senders != [] && u.wokenS == {} ==> u.free == [])
  {
    InvRun(s, es);
  }
}
