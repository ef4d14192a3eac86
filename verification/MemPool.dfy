/** rt_mempool: blocks of one size, threaded into a free list by their first words, and the
    threads that wait for one. */
module MemPool {
  import opened Lists
  import opened LinkedList
  import opened WaitList
  import opened WaitTurn

  datatype PoolEvent =
    | Alloc(t: nat)          // rt_mp_alloc finds a free block
    | Await(t: nat)          // it finds none and suspends the thread, in front of the others
    | Leave(t: nat)          // it finds none and the time is up
    | Release(b: nat)        // rt_mp_free
    | Expire(t: nat)         // rt_thread_timeout

  datatype PoolState = PoolState(
    total: nat,              // block_total_count
    free: seq<nat>,          // block_list
    count: nat,              // block_free_count
    held: set<nat>,          // the blocks handed out
    waiters: seq<nat>,       // suspend_thread
    woken: set<nat>)         // threads resumed without error that have not looked again
  {
    ghost predicate Free(t: nat) { t !in waiters && t !in woken }

    ghost predicate Enabled(e: PoolEvent) {
      match e
      case Alloc(t) => count > 0 && free != [] && (Free(t) || t in woken)
      case Await(t) => count == 0 && (Free(t) || t in woken)
      case Leave(t) => count == 0 && (Free(t) || t in woken)
      case Release(b) => b in held
      case Expire(t) => t in waiters
    }

    ghost function Next(e: PoolEvent): PoolState
      requires Enabled(e)
    {
      match e
      case Alloc(t) => this.(free := free[1..], count := count - 1, held := held + {free[0]}, woken := woken - {t})
      case Await(t) => this.(waiters := [t] + waiters, woken := woken - {t})
      case Leave(t) => this.(woken := woken - {t})
      case Release(b) => this.(free := [b] + free, count := count + 1, held := held - {b}).Wake()
      case Expire(t) => this.(waiters := Del(waiters, t))
    }

    ghost function Wake(): PoolState {
      if waiters == [] then this else this.(waiters := waiters[1..], woken := woken + {waiters[0]})
    }

    // Each block is free or handed out, and counted; no wake-up is lost.
    ghost predicate Inv() {
      && count == |free| && Distinct(free) && SetOf(free) !! held && SetOf(free) + held == Range(total)
      && Waits(waiters, woken, count)
    }
  }

  lemma {:induction false} PoolNext(s: PoolState, e: PoolEvent)
    requires s.Inv() && s.Enabled(e)
    ensures s.Next(e).Inv()
  {
    match e
    case Alloc(t) => TailOf(s.free);
    case Await(t) => Append(s.waiters, t);
    case Leave(t) =>
    case Release(b) =>
      Append(s.free, b);
      WakeFirst(s.waiters, s.woken, s.count);
    case Expire(t) => DelDistinct(s.waiters, t);
  }

  ghost predicate PoolRun(s: PoolState, es: seq<PoolEvent>)
    decreases |es|
  {
    es == [] || (s.Enabled(es[0]) && PoolRun(s.Next(es[0]), es[1..]))
  }

  ghost function PoolAfter(s: PoolState, es: seq<PoolEvent>): PoolState
    requires PoolRun(s, es)
    decreases |es|
  {
    if es == [] then s else PoolAfter(s.Next(es[0]), es[1..])
  }

  // In every reachable state the free blocks and those handed out are all blocks, each once,
  // and while threads wait, as many resumed ones as there are free blocks have yet to look.
  lemma {:induction false} PoolRuns(s: PoolState, es: seq<PoolEvent>)
    requires s.Inv() && PoolRun(s, es)
    ensures var u := PoolAfter(s, es); u.Inv() && |u.held| + u.count == u.total == s.total
    ensures var u := PoolAfter(s, es); u.waiters != [] && u.woken == {} ==> u.count == 0
    decreases |es|
  {
    if es == [] {
      Length(s.free);
      RangeSize(s.total);
      assert |SetOf(s.free) + s.held| == |SetOf(s.free)| + |s.held|;
    } else {
      PoolNext(s, es[0]);
      PoolRuns(s.Next(es[0]), es[1..]);
    }
  }

  // Each block freed resumes the thread in front, and those who go on waiting keep their order.
  lemma {:induction false} TurnNext(s: PoolState, e: PoolEvent)
    requires s.Inv() && s.Enabled(e)
    ensures var woken := s.Next(e).woken - s.woken;
            && Fair(Change(s.waiters, woken, s.Next(e).waiters))
            && woken == if e.Release? && s.waiters != [] then {s.waiters[0]} else {}
  {
    NobodyLeaves(s.waiters);
    match e
    case Await(t) =>
      OneJoins(s.waiters, 0, t);
      assert Ins(s.waiters, 0, t) == [t] + s.waiters;
    case Release(b) =>
      if s.waiters != [] {
        assert s.waiters[0] in SetOf(s.waiters);
        FirstResumed(s.waiters);
      }
    case Expire(t) => OneGivesUp(s.waiters, t);
    case _ =>
  }

  // But a thread that begins to wait goes in front of all others: the last to come is served first.
  lemma {:induction false} LastFirst(s: PoolState, t: nat, y: nat)
    requires s.Enabled(Await(t)) && y in s.waiters
    ensures Ahead(s.Next(Await(t)).waiters, t, y)
  {
    var i :| 0 <= i < |s.waiters| && s.waiters[i] == y;
    var w := [t] + s.waiters;
    assert w[0] == t && w[i + 1] == y;
  }

  // What the first word of a block handed out points to: its pool.
  const POOL := -2

  // The first words of the free blocks lead from h through all of them; those of the blocks
  // handed out name their pool.
  ghost predicate Threaded(h: int, free: seq<nat>, held: set<nat>, words: seq<int>) {
    Walk(h, free, words) && forall b :: b in held ==> b < |words| && words[b] == POOL
  }

  class Pool {
    const words: array<int>        // the first words of the blocks
    var list: int                  // block_list
    var count: nat                 // block_free_count
    var waiters: seq<nat>
    ghost var free: seq<nat>
    ghost var held: set<nat>
    ghost var woken: set<nat>

    ghost function Abs(): PoolState
      reads this
    {
      PoolState(words.Length, free, count, held, waiters, woken)
    }

    ghost predicate Valid()
      reads this, words
    {
      Abs().Inv() && Threaded(list, free, held, words[..])
    }

    // rt_mp_init, on the first words of n > 0 blocks
    constructor (blocks: array<int>)
      requires blocks.Length > 0
      modifies blocks
      ensures Valid() && words == blocks && held == {} && waiters == [] && woken == {}
    {
      words, list, count, waiters := blocks, 0, blocks.Length, [];
      free, held, woken := Upto(blocks.Length), {}, {};
      new;
      LinkAll(blocks);
      UptoIs(blocks.Length);
      assert SetOf(waiters) == {};
    }

    // initialize free block list
    static method LinkAll(blocks: array<int>)
      requires blocks.Length > 0
      modifies blocks
      ensures Walk(0, Upto(blocks.Length), blocks[..])
    {
      for offset := 0 to blocks.Length
        invariant forall k :: 0 <= k < offset ==> blocks[k] == k + 1
      {
        blocks[offset] := offset + 1;
      }
      blocks[blocks.Length - 1] := NULL;
    }

    // The critical section of rt_mp_alloc, on entry or after a wake-up.
    method Enter(t: nat, wait: bool) returns (b: int, suspended: bool)
      requires Valid() && (Abs().Free(t) || t in woken)
      modifies this, words
      ensures Valid()
      ensures var s := old(Abs());
              if s.count > 0 then s.Enabled(Alloc(t)) && b == s.free[0] && !suspended && Abs() == s.Next(Alloc(t))
              else b == NULL && suspended == wait
                   && (if wait then s.Enabled(Await(t)) && Abs() == s.Next(Await(t))
                       else s.Enabled(Leave(t)) && Abs() == s.Next(Leave(t)))
      ensures if suspended then waiters == [t] + old(waiters) else waiters == old(waiters)
      ensures old(count) > 0 ==> [b] + free == old(free) && held == old(held) + {b}
    {
      ghost var s := Abs();
      if count == 0 {
        if wait {
          PoolNext(s, Await(t));
          waiters, woken := [t] + waiters, woken - {t};
          return NULL, true;
        }
        PoolNext(s, Leave(t));
        woken := woken - {t};
        return NULL, false;
      }
      b := Take(t);
      return b, false;
    }

    method Take(t: nat) returns (b: nat)
      requires Valid() && count > 0 && (Abs().Free(t) || t in woken)
      modifies this, words
      ensures waiters == old(waiters) && [b] + free == old(free) && held == old(held) + {b}
      ensures Valid() && old(Abs()).Enabled(Alloc(t)) && b == old(free)[0] && Abs() == old(Abs()).Next(Alloc(t))
    {
      ghost var s := Abs();
      PoolNext(s, Alloc(t));
      FirstOff(list, free, held, words[..]);
      count := count - 1;
      b := PopFirst();
      free, held, woken := free[1..], held + {b}, woken - {t};
      assert Abs() == s.Next(Alloc(t));
    }

    // The first block comes off the list, and its first word says that it belongs to this pool.
    method PopFirst() returns (b: nat)
      requires 0 <= list < words.Length
      modifies this`list, words
      ensures b == old(list) && list == old(words[list]) && words[..] == old(words[..])[b := POOL]
    {
      b := list;
      list := words[b];
      words[b] := POOL;
    }

    // rt_mp_free: the first word of the block says that it belongs to this pool
    method Give(b: nat) returns (woke: bool)
      requires Valid() && b in held
      modifies this, words
      ensures Valid() && Abs() == old(Abs()).Next(Release(b)) && woke == (old(waiters) != [])
      ensures FirstWoken(old(waiters), old(woken), waiters, woken)
      ensures free == [b] + old(free) && held == old(held) - {b} && count == old(count) + 1
    {
      ghost var s := Abs();
      PoolNext(s, Release(b));
      FirstOn(list, free, held, words[..], b);
      count := count + 1;
      PushFirst(b);
      free, held := [b] + free, held - {b};
      woke := waiters != [];
      if woke {
        waiters, woken := waiters[1..], woken + {waiters[0]};
      }
      assert Abs() == s.Next(Release(b));
    }

    method PushFirst(b: nat)
      requires b < words.Length
      modifies this`list, words
      ensures list == b && words[..] == old(words[..])[b := old(list)]
    {
      words[b] := list;
      list := b;
    }
  }

  lemma {:induction false} FirstOff(h: int, s: seq<nat>, held: set<nat>, next: seq<int>)
    requires Threaded(h, s, held, next) && s != [] && Distinct(s)
    ensures h == s[0] && s[0] < |next| && Threaded(next[h], s[1..], held + {s[0]}, next[h := POOL])
  {
    WalkOn(h, s, next);
    TailOf(s);
    WalkApart(next[h], s[1..], next, h, POOL);
  }

  lemma {:induction false} FirstOn(h: int, s: seq<nat>, held: set<nat>, next: seq<int>, b: nat)
    requires Threaded(h, s, held, next) && b in held && SetOf(s) !! held
    ensures b < |next| && Threaded(b, [b] + s, held - {b}, next[b := h])
  {
    WalkPush(h, s, next, b);
  }

  function Upto(n: nat): (s: seq<nat>)
    ensures |s| == n && forall i :: 0 <= i < n ==> s[i] == i
  {
    seq(n, i => i)
  }

  lemma {:induction false} UptoIs(n: nat)
    ensures Distinct(Upto(n)) && SetOf(Upto(n)) == Range(n)
  {
    forall x: nat
      ensures x in SetOf(Upto(n)) <==> x in Range(n)
    {
      InRange(n, x);
      if x < n {
        assert Upto(n)[x] == x;
      }
    }
  }
}
