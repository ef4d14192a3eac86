/** rt_messagequeue: the message pool threaded with next fields into a free list and a queue.
    Each method is one critical section, or the copying between two of them; what it does is
    one event of MessageQueueState. */
module MessageQueue {
  import opened LinkedList
  import opened Lists
  import opened MessageQueueState
  import opened WaitList

  // How entering rt_mq_send_wait or rt_mq_recv, or coming back to it, ends.
  datatype Entered = Took(slot: nat) | Refused | Suspended

  // The two lists as they are kept.
  datatype Links = Links(free: int, head: int, tail: int, next: seq<int>, frees: seq<nat>, queue: seq<nat>) {
    ghost predicate Ok() {
      && Walk(free, frees, next) && Walk(head, queue, next)
      && tail == (if queue == [] then NULL else queue[|queue| - 1])
      && Distinct(queue) && Distinct(frees) && SetOf(frees) !! SetOf(queue)
    }

    // x is a slot on neither list.
    ghost predicate Off(x: nat) { x < |next| && x !in SetOf(frees) && x !in SetOf(queue) }

    ghost function FreeTaken(): Links
      requires Ok() && frees != []
    {
      this.(free := next[frees[0]], frees := frees[1..])
    }

    ghost function FreePut(x: nat): Links
      requires x < |next|
    {
      this.(free := x, next := next[x := free], frees := [x] + frees)
    }

    ghost function HeadTaken(): Links
      requires Ok() && queue != []
    {
      this.(head := next[queue[0]], tail := if tail == queue[0] then NULL else tail, queue := queue[1..])
    }

    ghost function Before(x: nat): Links
      requires x < |next|
    {
      this.(head := x, tail := if tail == NULL then x else tail, next := next[x := head], queue := [x] + queue)
    }

    ghost function Behind(x: nat): Links
      requires x < |next|
    {
      var n := next[x := NULL];
      this.(head := if head == NULL then x else head, tail := x,
            next := if 0 <= tail < |n| then n[tail := x] else n, queue := queue + [x])
    }
  }

  lemma {:induction false} OffLists(l: Links, x: nat)
    requires l.Ok() && l.Off(x)
    ensures l.FreePut(x).Ok() && l.Before(x).Ok() && l.Behind(x).Ok()
  {
    Append(l.frees, x);
    Append(l.queue, x);
    WalkPush(l.free, l.frees, l.next, x);
    WalkApart(l.head, l.queue, l.next, x, l.free);
    WalkPush(l.head, l.queue, l.next, x);
    WalkApart(l.free, l.frees, l.next, x, l.head);
    BehindOk(l, x);
  }

  lemma {:induction false} BehindOk(l: Links, x: nat)
    requires l.Ok() && l.Off(x) && Distinct(l.queue + [x]) && SetOf(l.queue + [x]) == SetOf(l.queue) + {x}
    ensures l.Behind(x).Ok()
  {
    var n := l.next[x := NULL];
    WalkApart(l.free, l.frees, l.next, x, NULL);
    WalkApart(l.head, l.queue, l.next, x, NULL);
    WalkAppend(l.head, l.queue, n, x, l.tail);
    if l.queue != [] {
      assert l.tail in SetOf(l.queue);
      WalkApart(l.free, l.frees, n, l.tail, x);
    }
  }

  lemma {:induction false} OnLists(l: Links)
    requires l.Ok()
    ensures l.frees != [] ==> l.frees[0] < |l.next| && l.FreeTaken().Ok() && l.FreeTaken().Off(l.frees[0])
    ensures l.queue != [] ==> l.queue[0] < |l.next| && l.HeadTaken().Ok() && l.HeadTaken().Off(l.queue[0])
  {
    if l.frees != [] {
      WalkOn(l.free, l.frees, l.next);
      TailOf(l.frees);
    }
    if l.queue != [] {
      WalkOn(l.head, l.queue, l.next);
      TailOf(l.queue);
      OnlyOne(l.queue);
    }
  }

  // One more slot goes onto the free list of a new pool.
  lemma {:induction false} SlotAdded(free: int, next: seq<int>, x: nat)
    requires x < |next| && Walk(free, AllSlots(x), next)
    ensures [x] + AllSlots(x) == AllSlots(x + 1) && Walk(x, AllSlots(x + 1), next[x := free])
  {
    AllOnce(x);
    InRange(x, x);
    WalkPush(free, AllSlots(x), next, x);
  }

  lemma {:induction false} SlotsLinked(l: Links)
    requires l.head == l.tail == NULL && l.queue == []
    requires l.frees == AllSlots(|l.next|) && Walk(l.free, l.frees, l.next)
    ensures l.Ok()
  {
    AllOnce(|l.next|);
    assert SetOf(l.queue) == {};
  }

  class Queue {
    const byPriority: bool
    const next: array<int>
    const data: array<Message>
    const msgSize: nat
    var free: int           // msg_queue_free
    var head: int           // msg_queue_head
    var tail: int           // msg_queue_tail
    var entry: nat
    var receivers: seq<nat>
    var senders: seq<nat>
    ghost var frees: seq<nat>
    ghost var queue: seq<nat>
    ghost var hands: map<nat, Hand>
    ghost var wokenR: set<nat>
    ghost var wokenS: set<nat>

    ghost function Abs(): State
      reads this, data
    {
      State(msgSize, frees, queue, entry, hands, data[..], receivers, senders, wokenR, wokenS)
    }

    // rt_mq_init, on a pool given as its link fields and its message fields
    constructor (links: array<int>, pool: array<Message>, size: nat, priority: bool)
      requires links.Length == pool.Length && forall i :: 0 <= i < pool.Length ==> |pool[i]| == size
      modifies links
      ensures Valid() && Init(Abs()) && data == pool && next == links && msgSize == size && byPriority == priority
    {
      byPriority, msgSize, entry := priority, size, 0;
      next, data := links, pool;
      free, head, tail := NULL, NULL, NULL;
      receivers, senders := [], [];
      frees, queue, hands, wokenR, wokenS := [], [], map[], {}, {};
      new;
      ghost var s := Abs().(free := AllSlots(next.Length));
      InvInit(s);
      LinkFree();
      assert Abs() == s;
    }

    // The free list of a new message pool.
    method LinkFree()
      requires free == head == tail == NULL && frees == queue == []
      modifies next, this`free, this`frees
      ensures Lists().Ok() && frees == AllSlots(next.Length)
    {
      for temp := 0 to next.Length
        invariant Walk(free, frees, next[..]) && frees == AllSlots(temp)
      {
        ghost var n := next[..];
        SlotAdded(free, n, temp);
        next[temp] := free;
        assert next[..] == n[temp := free];
        free, frees := temp, [temp] + frees;
      }
      SlotsLinked(Lists());
    }

    ghost function Lists(): Links
      reads this`free, this`head, this`tail, this`frees, this`queue, next
    {
      Links(free, head, tail, next[..], frees, queue)
    }

    ghost predicate Valid()
      reads this, next, data
    {
      next.Length == data.Length && Lists().Ok() && Abs().Inv()
    }

    // --- rt_mq_send_wait and rt_mq_urgent -----------------------------------------------------

    method TakeFree(t: nat) returns (msg: nat)
      requires Valid() && free != NULL && (Abs().Idle(t) || t in wokenS)
      modifies this`free, this`frees, this`hands, this`wokenS
      ensures Valid() && msg == old(free) && old(frees) == [msg] + frees && hands == old(hands)[t := ToFill(msg)]
      ensures old(Abs()).Enabled(TakeSlot(t)) && Abs() == old(Abs()).Next(TakeSlot(t))
    {
      ghost var s := Abs();
      msg := PopFree();
      hands, wokenS := hands[t := ToFill(msg)], wokenS - {t};
      Stepped(s, TakeSlot(t), Abs());
    }

    method PopFree() returns (msg: nat)
      requires Lists().Ok() && free != NULL
      modifies this`free, this`frees
      ensures old(frees) != [] && msg == old(frees)[0] && Lists().Ok() && frees == old(frees)[1..]
    {
      ghost var l := Lists();
      OnLists(l);
      msg := free;
      free := next[msg];
      frees := frees[1..];
      assert Lists() == l.FreeTaken();
    }

    method AwaitFree(t: nat, prio: seq<nat>)
      requires Valid() && free == NULL && (Abs().Idle(t) || t in wokenS)
      modifies this`senders, this`wokenS
      ensures Valid() && Joined(old(senders), prio, t, byPriority, senders)
      ensures var e := AwaitSlot(t, PlaceOf(old(senders), prio, t, byPriority));
              old(Abs()).Enabled(e) && Abs() == old(Abs()).Next(e)
    {
      ghost var s := Abs();
      InvNext(s, AwaitSlot(t, PlaceOf(senders, prio, t, byPriority)));
      senders := Suspend(senders, prio, t, byPriority);
      wokenS := wokenS - {t};
    }

    // The first critical section, on entry or after a wake-up.
    method SendEnter(t: nat, wait: bool, prio: seq<nat>) returns (r: Entered)
      requires Valid() && (Abs().Idle(t) || t in wokenS)
      modifies this`free, this`frees, this`hands, this`senders, this`wokenS
      ensures Valid()
      ensures r == (if old(free) != NULL then Took(old(free)) else if wait then Suspended else Refused)
      ensures var s, k := old(Abs()), PlaceOf(old(senders), prio, t, byPriority);
              match r
              case Took(_) => s.Enabled(TakeSlot(t)) && Abs() == s.Next(TakeSlot(t))
              case Suspended => s.Enabled(AwaitSlot(t, k)) && Abs() == s.Next(AwaitSlot(t, k))
              case Refused => if t in old(wokenS) then s.Enabled(LeaveSlot(t)) && Abs() == s.Next(LeaveSlot(t))
                  else Abs() == s
      ensures match r
              case Took(slot) => old(frees) == [slot] + frees && hands == old(hands)[t := ToFill(slot)]
              case Suspended => frees == [] && Joined(old(senders), prio, t, byPriority, senders)
              case Refused => frees == [] && senders == old(senders) && hands == old(hands)
    {
      if free != NULL {
        var msg := TakeFree(t);
        return Took(msg);
      }
      if wait {
        AwaitFree(t, prio);
        return Suspended;
      }
      if t in wokenS {
        InvNext(Abs(), LeaveSlot(t));
        wokenS := wokenS - {t};
      }
      return Refused;
    }

    // Between the critical sections: the message is copied into the slot.
    method CopyIn(t: nat, msg: nat, buffer: Message)
      requires Valid() && t in hands && hands[t] == ToFill(msg) && 0 < |buffer| <= msgSize
      modifies data, this`hands
      ensures Valid() && old(Abs()).Enabled(Fill(t, buffer)) && Abs() == old(Abs()).Next(Fill(t, buffer))
      ensures hands[t].Filled? && |hands[t].msg| == msgSize && buffer <= hands[t].msg
    {
      ghost var s := Abs();
      InvNext(s, Fill(t, buffer));
      data[msg] := buffer + data[msg][|buffer|..];
      hands := hands[t := Filled(msg, data[msg])];
      assert Abs() == s.Next(Fill(t, buffer));
    }

    // The second critical section of rt_mq_send_wait; its result says whether a suspended
    // receiver was resumed.
    method Link(t: nat, msg: nat) returns (woke: bool)
      requires Valid() && t in hands && hands[t].Filled? && hands[t].slot == msg
      modifies next, this`head, this`tail, this`queue, this`entry, this`hands, this`receivers, this`wokenR
      ensures Valid() && old(Abs()).Enabled(LinkTail(t)) && Abs() == old(Abs()).Next(LinkTail(t))
      ensures queue == old(queue) + [msg] && entry == old(entry) + 1 && hands == old(hands) - {t}
      ensures woke == (old(receivers) != [])
      ensures FirstWoken(old(receivers), old(wokenR), receivers, wokenR)
    {
      ghost var s := Abs();
      HandSlot(s, t);
      PutBehind(msg);
      woke := Announce(t);
      TailLinked(s, t, Abs());
    }

    method PutBehind(msg: nat)
      requires Lists().Ok() && Lists().Off(msg)
      modifies next, this`head, this`tail, this`queue
      ensures Lists().Ok() && queue == old(queue) + [msg]
    {
      ghost var l := Lists();
      OffLists(l, msg);
      next[msg] := NULL;
      if tail != NULL {
        next[tail] := msg;
      }
      tail := msg;
      if head == NULL {
        head := msg;
      }
      queue := queue + [msg];
      assert Lists() == l.Behind(msg);
    }

    // The second critical section of rt_mq_urgent.
    method LinkFirst(t: nat, msg: nat) returns (woke: bool)
      requires Valid() && t in hands && hands[t].Filled? && hands[t].slot == msg
      modifies next, this`head, this`tail, this`queue, this`entry, this`hands, this`receivers, this`wokenR
      ensures Valid() && old(Abs()).Enabled(LinkHead(t)) && Abs() == old(Abs()).Next(LinkHead(t))
      ensures queue == [msg] + old(queue) && entry == old(entry) + 1 && hands == old(hands) - {t}
      ensures woke == (old(receivers) != [])
      ensures FirstWoken(old(receivers), old(wokenR), receivers, wokenR)
    {
      ghost var s := Abs();
      HandSlot(s, t);
      PutBefore(msg);
      woke := Announce(t);
      HeadLinked(s, t, Abs());
    }

    method PutBefore(msg: nat)
      requires Lists().Ok() && Lists().Off(msg)
      modifies next, this`head, this`tail, this`queue
      ensures Lists().Ok() && queue == [msg] + old(queue)
    {
      ghost var l := Lists();
      OffLists(l, msg);
      next[msg] := head;
      head := msg;
      if tail == NULL {
        tail := msg;
      }
      queue := [msg] + queue;
      assert Lists() == l.Before(msg);
    }

    // Count the message and resume the first suspended receiver, if there is one.
    method Announce(ghost t: nat) returns (woke: bool)
      modifies this`entry, this`hands, this`receivers, this`wokenR
      ensures Abs() == old(Abs().(entry := entry + 1, hands := hands - {t}).WakeReceiver())
      ensures entry == old(entry) + 1 && hands == old(hands) - {t}
      ensures woke == (old(receivers) != [])
      ensures FirstWoken(old(receivers), old(wokenR), receivers, wokenR)
    {
      entry := entry + 1;
      hands := hands - {t};
      woke := receivers != [];
      if woke {
        wokenR := wokenR + {receivers[0]};
        receivers := receivers[1..];
      }
    }

    // --- rt_mq_recv -----------------------------------------------------------------------------

    method Unlink(t: nat) returns (msg: nat)
      requires Valid() && entry > 0 && (Abs().Idle(t) || t in wokenR)
      modifies this`head, this`tail, this`queue, this`entry, this`hands, this`wokenR
      ensures Valid() && msg == old(head) && old(queue) == [msg] + queue && msg < data.Length
      ensures hands == old(hands)[t := ToDrain(msg, data[msg])]
      ensures old(Abs()).Enabled(TakeMsg(t)) && Abs() == old(Abs()).Next(TakeMsg(t))
    {
      ghost var s := Abs();
      FirstQueued(s);
      msg := PopHead();
      Grasp(t, msg);
      FirstTaken(s, t, Abs());
    }

    // Count the message out; it is in the hands of the receiver now.
    method Grasp(ghost t: nat, msg: nat)
      requires entry > 0 && msg < data.Length
      modifies this`entry, this`hands, this`wokenR
      ensures Abs() == old(Abs().(entry := entry - 1, hands := hands[t := ToDrain(msg, data[msg])],
                                  wokenR := wokenR - {t}))
    {
      entry := entry - 1;
      hands, wokenR := hands[t := ToDrain(msg, data[msg])], wokenR - {t};
    }

    method PopHead() returns (msg: nat)
      requires Lists().Ok() && queue != []
      modifies this`head, this`tail, this`queue
      ensures msg == old(queue)[0] == old(head) && Lists().Ok() && queue == old(queue)[1..] && Lists().Off(msg)
    {
      ghost var l := Lists();
      OnLists(l);
      msg := head;
      head := next[msg];
      if tail == msg {
        tail := NULL;
      }
      queue := queue[1..];
      assert Lists() == l.HeadTaken();
    }

    method AwaitEntry(t: nat, prio: seq<nat>)
      requires Valid() && entry == 0 && (Abs().Idle(t) || t in wokenR)
      modifies this`receivers, this`wokenR
      ensures Valid() && Joined(old(receivers), prio, t, byPriority, receivers)
      ensures var e := AwaitMsg(t, PlaceOf(old(receivers), prio, t, byPriority));
              old(Abs()).Enabled(e) && Abs() == old(Abs()).Next(e)
    {
      InvNext(Abs(), AwaitMsg(t, PlaceOf(receivers, prio, t, byPriority)));
      receivers := Suspend(receivers, prio, t, byPriority);
      wokenR := wokenR - {t};
    }

    // The first critical section, on entry or after a wake-up.
    method RecvEnter(t: nat, wait: bool, prio: seq<nat>) returns (r: Entered)
      requires Valid() && (Abs().Idle(t) || t in wokenR)
      modifies this`head, this`tail, this`queue, this`entry, this`hands, this`receivers, this`wokenR
      ensures Valid()
      ensures r == (if old(entry) > 0 then Took(old(head)) else if wait then Suspended else Refused)
      ensures var s, k := old(Abs()), PlaceOf(old(receivers), prio, t, byPriority);
              match r
              case Took(_) => s.Enabled(TakeMsg(t)) && Abs() == s.Next(TakeMsg(t))
              case Suspended => s.Enabled(AwaitMsg(t, k)) && Abs() == s.Next(AwaitMsg(t, k))
              case Refused => if t in old(wokenR) then s.Enabled(LeaveMsg(t)) && Abs() == s.Next(LeaveMsg(t))
                  else Abs() == s
      ensures match r
              case Took(slot) => old(queue) == [slot] + queue && slot < data.Length
                  && hands == old(hands)[t := ToDrain(slot, data[slot])]
              case Suspended => entry == 0 && Joined(old(receivers), prio, t, byPriority, receivers)
              case Refused => entry == 0 && receivers == old(receivers) && hands == old(hands)
    {
      if entry > 0 {
        var msg := Unlink(t);
        return Took(msg);
      }
      if wait {
        AwaitEntry(t, prio);
        return Suspended;
      }
      if t in wokenR {
        InvNext(Abs(), LeaveMsg(t));
        wokenR := wokenR - {t};
      }
      return Refused;
    }

    // Between the critical sections: the message is copied out.
    method CopyOut(t: nat, msg: nat, size: nat) returns (buffer: Message)
      requires Valid() && t in hands && hands[t].ToDrain? && hands[t].slot == msg
      modifies this`hands
      ensures Valid() && old(Abs()).Enabled(Drain(t)) && Abs() == old(Abs()).Next(Drain(t))
      ensures buffer <= old(hands[t].msg) && |buffer| == (if size > msgSize then msgSize else size)
    {
      ghost var s := Abs();
      InvNext(s, Drain(t));
      buffer := data[msg][..if size > msgSize then msgSize else size];
      hands := hands[t := Drained(msg)];
    }

    // The second critical section; its result says whether a suspended sender was resumed.
    method Release(t: nat, msg: nat) returns (woke: bool)
      requires Valid() && t in hands && hands[t] == Drained(msg)
      modifies next, this`free, this`frees, this`hands, this`senders, this`wokenS
      ensures Valid() && old(Abs()).Enabled(Return(t)) && Abs() == old(Abs()).Next(Return(t))
      ensures frees == [msg] + old(frees) && hands == old(hands) - {t}
      ensures woke == (old(senders) != [])
      ensures FirstWoken(old(senders), old(wokenS), senders, wokenS)
    {
      ghost var s := Abs();
      HandSlot(s, t);
      PushFree(msg);
      woke := WakeFirstSender(t);
      SlotReturned(s, t, Abs());
    }

    method PushFree(msg: nat)
      requires Lists().Ok() && Lists().Off(msg)
      modifies next, this`free, this`frees
      ensures Lists().Ok() && frees == [msg] + old(frees)
    {
      ghost var l := Lists();
      OffLists(l, msg);
      next[msg] := free;
      free := msg;
      frees := [msg] + frees;
      assert Lists() == l.FreePut(msg);
    }

    // Resume the first suspended sender, if there is one.
    method WakeFirstSender(ghost t: nat) returns (woke: bool)
      modifies this`hands, this`senders, this`wokenS
      ensures Abs() == old(Abs().(hands := hands - {t}).WakeSender()) && woke == (old(senders) != [])
      ensures hands == old(hands) - {t}
      ensures FirstWoken(old(senders), old(wokenS), senders, wokenS)
    {
      hands := hands - {t};
      woke := senders != [];
      if woke {
        wokenS := wokenS + {senders[0]};
        senders := senders[1..];
      }
    }

    // --- rt_thread_timeout for a suspended thread, rt_mq_control --------------------------------

    method SenderExpires(t: nat)
      requires Valid() && t in senders
      modifies this`senders
      ensures Valid() && Abs() == old(Abs()).Next(SenderTimeout(t))
      ensures exists k: nat :: k < |old(senders)| && PutIn(senders, k, t, old(senders))
    {
      DelPutIn(senders, t);
      InvNext(Abs(), SenderTimeout(t));
      senders := Del(senders, t);
    }

    method ReceiverExpires(t: nat)
      requires Valid() && t in receivers
      modifies this`receivers
      ensures Valid() && Abs() == old(Abs()).Next(ReceiverTimeout(t))
      ensures exists k: nat :: k < |old(receivers)| && PutIn(receivers, k, t, old(receivers))
    {
      DelPutIn(receivers, t);
      InvNext(Abs(), ReceiverTimeout(t));
      receivers := Del(receivers, t);
    }

    method ResetAll()
      requires Valid()
      modifies next, this`free, this`frees, this`head, this`tail, this`queue, this`entry, this`receivers, this`senders
      ensures Valid() && Abs() == old(Abs()).Next(Reset)
      ensures entry == 0 && queue == [] && receivers == [] && senders == []
    {
      ghost var s := Abs();
      receivers, senders := [], [];
      entry := 0;
      FreeAll();
      Stepped(s, Reset, Abs());
    }

    // Release all messages in the queue.
    method FreeAll()
      requires Lists().Ok()
      modifies next, this`free, this`frees, this`head, this`tail, this`queue
      ensures Lists().Ok() && Abs() == old(Abs()).(free := Reversed(old(queue)) + old(frees), queue := [])
    {
      FreedIs(queue, frees);
      while head != NULL
        invariant Lists().Ok() && Freed(queue, frees) == Freed(old(queue), old(frees))
        decreases queue
      {
        var msg := PopHead();
        PushFree(msg);
      }
    }
  }

  // The free list after the queue q was put onto it, slot by slot.
  ghost function Freed(q: seq<nat>, free: seq<nat>): seq<nat> {
    if q == [] then free else Freed(q[1..], [q[0]] + free)
  }

  lemma {:induction false} FreedIs(q: seq<nat>, free: seq<nat>)
    ensures Freed(q, free) == Reversed(q) + free
    decreases |q|
  {
    if q != [] {
      FreedIs(q[1..], [q[0]] + free);
      assert Reversed(q[1..]) + ([q[0]] + free) == (Reversed(q[1..]) + [q[0]]) + free;
    } else {
      assert Reversed(q) + free == free;
    }
  }

  lemma {:induction false} FirstQueued(s: State)
    requires s.Inv() && s.entry > 0
    ensures s.queue != [] && s.queue[0] < |s.data|
  {
    InvListed(s);
  }

  lemma {:induction false} FirstTaken(s: State, t: nat, u: State)
    requires s.Inv() && s.entry > 0 && (s.Idle(t) || t in s.wokenR) && s.queue != [] && s.queue[0] < |s.data|
    requires u == s.(queue := s.queue[1..], entry := s.entry - 1,
               hands := s.hands[t := ToDrain(s.queue[0], s.data[s.queue[0]])],
                     wokenR := s.wokenR - {t})
    ensures s.Enabled(TakeMsg(t)) && u == s.Next(TakeMsg(t)) && u.Inv()
  {
    InvNext(s, TakeMsg(t));
  }

  lemma {:induction false} TailLinked(s: State, t: nat, u: State)
    requires s.Inv() && t in s.hands && s.hands[t].Filled?
    requires u == s.(queue := s.queue + [s.hands[t].slot], entry := s.entry + 1,
                     hands := s.hands - {t}).WakeReceiver()
    ensures s.Enabled(LinkTail(t)) && u == s.Next(LinkTail(t)) && u.Inv()
  {
    InvNext(s, LinkTail(t));
  }

  lemma {:induction false} HeadLinked(s: State, t: nat, u: State)
    requires s.Inv() && t in s.hands && s.hands[t].Filled?
    requires u == s.(queue := [s.hands[t].slot] + s.queue, entry := s.entry + 1,
                     hands := s.hands - {t}).WakeReceiver()
    ensures s.Enabled(LinkHead(t)) && u == s.Next(LinkHead(t)) && u.Inv()
  {
    InvNext(s, LinkHead(t));
  }

  lemma {:induction false} SlotReturned(s: State, t: nat, u: State)
    requires s.Inv() && t in s.hands && s.hands[t].Drained?
    requires u == s.(free := [s.hands[t].slot] + s.free, hands := s.hands - {t}).WakeSender()
    ensures s.Enabled(Return(t)) && u == s.Next(Return(t)) && u.Inv()
  {
    InvNext(s, Return(t));
  }

  lemma {:induction false} Stepped(s: State, e: Event, u: State)
    requires s.Inv() && s.Enabled(e) && u == s.Next(e)
    ensures u.Inv()
  {
    InvNext(s, e);
  }

  lemma {:induction false} OnlyOne(q: seq<nat>)
    requires Distinct(q) && q != []
    ensures q[|q| - 1] == q[0] <==> |q| == 1
    ensures |q| > 1 ==> q[1..][|q[1..]| - 1] == q[|q| - 1]
  {
  }

  // A slot in hands is a slot, and on neither list.
  lemma {:induction false} HandSlot(s: State, t: nat)
    requires s.Inv() && t in s.hands
    ensures s.hands[t].slot < |s.data| && s.hands[t].slot !in SetOf(s.free) && s.hands[t].slot !in SetOf(s.queue)
  {
    assert s.hands[t].slot in InHands(s.hands);
  }
}
