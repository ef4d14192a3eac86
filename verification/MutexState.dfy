/** Mutexes with priority inheritance. Threads and mutexes are named by numbers; a smaller
    priority is stronger. */
module MutexState {
  import opened Wrappers
  import opened Lists
  import opened WaitList

  const NO_PRIORITY := 0xff

  datatype Mutex = Mutex(
    byPriority: bool,          // RT_IPC_FLAG_PRIO
    value: nat,
    owner: Option<nat>,
    original: nat,             // original_priority
    hold: nat,
    waiters: seq<nat>)         // parent.suspend_thread
  {
    ghost predicate Ok() {
      && value <= 1 && (value == 1 <==> owner.None?) && (owner.None? <==> hold == 0)
      && (waiters != [] ==> owner.Some?)
    }
  }

  datatype Event =
    | Take(t: nat, m: nat, wait: bool)     // rt_mutex_take; wait says whether the time is not 0
    | Release(t: nat, m: nat)              // rt_mutex_release
    | Expire(t: nat)                       // rt_thread_timeout for a thread waiting for a mutex

  datatype State = State(
    prio: seq<nat>,                   // current_priority
    blocked: seq<Option<nat>>,        // the mutex a thread is suspended on
    mutexes: seq<Mutex>)
  {
    ghost predicate Enabled(e: Event) {
      && e.t < |prio| && e.t < |blocked|
      && match e
         case Take(t, m, _) => m < |mutexes| && blocked[t].None? && (OwnerOf(m).Some? ==> OwnerOf(m).value < |prio|)
         case Release(t, m) =>
           m < |mutexes| && blocked[t].None? && forall w :: w in mutexes[m].waiters ==> w < |prio| && w < |blocked|
         case Expire(t) => blocked[t].Some? && blocked[t].value < |mutexes|
    }

    ghost function OwnerOf(m: nat): Option<nat>
      requires m < |mutexes|
    {
      mutexes[m].owner
    }

    ghost function Next(e: Event): State
      requires Enabled(e)
    {
      match e
      case Take(t, m, wait) => Taken(t, m, wait)
      case Release(t, m) => if OwnerOf(m) == Some(t) then Released(t, m) else this
      case Expire(t) =>
        var m := blocked[t].value;
        this.(blocked := blocked[t := None],
              mutexes := mutexes[m := mutexes[m].(waiters := Del(mutexes[m].waiters, t))])
    }

    ghost function Taken(t: nat, m: nat, wait: bool): State
      requires Enabled(Take(t, m, wait))
    {
      var x := mutexes[m];
      if x.owner == Some(t) then this.(mutexes := mutexes[m := x.(hold := x.hold + 1)])
      else if x.value > 0 then
        this.(mutexes := mutexes[m := x.(value := x.value - 1, owner := Some(t), original := prio[t],
            hold := x.hold + 1)])
      else if wait then Inherit(t, m).Enqueue(t, m)
      else this
    }

    // The owner of m gets the priority of t, if that is stronger.
    ghost function Inherit(t: nat, m: nat): State
      requires t < |prio| && m < |mutexes|
    {
      match OwnerOf(m)
      case None => this
      case Some(o) => if o < |prio| && prio[t] < prio[o] then this.(prio := prio[o := prio[t]]) else this
    }

    ghost function Enqueue(t: nat, m: nat): State
      requires t < |blocked| && m < |mutexes|
    {
      var x := mutexes[m];
      var k := PlaceOf(x.waiters, prio, t, x.byPriority);
      this.(blocked := blocked[t := Some(m)], mutexes := mutexes[m := x.(waiters := Ins(x.waiters, k, t))])
    }

    // The owner t releases m once.
    ghost function Released(t: nat, m: nat): State
      requires Enabled(Release(t, m)) && OwnerOf(m) == Some(t)
    {
      var x := mutexes[m];
      if x.hold != 1 then this.(mutexes := mutexes[m := x.(hold := if x.hold > 0 then x.hold - 1 else 0)])
      else this.(prio := prio[t := x.original]).HandOver(m)
    }

    // m goes to the first waiter, or becomes available.
    ghost function HandOver(m: nat): State
      requires m < |mutexes| && forall w :: w in mutexes[m].waiters ==> w < |prio| && w < |blocked|
    {
      var x := mutexes[m];
      if x.waiters == [] then
        this.(mutexes := mutexes[m := x.(value := x.value + 1, owner := None, original := NO_PRIORITY, hold := 0)])
      else
        assert x.waiters[0] in x.waiters;
        var w := x.waiters[0];
        this.(blocked := blocked[w := None],
              mutexes := mutexes[m := x.(owner := Some(w), original := prio[w], hold := 1, waiters := x.waiters[1..])])
    }

    // --- bookkeeping --------------------------------------------------------------------------

    // m and the threads that own it or wait for it.
    ghost predicate Book(m: nat)
      requires m < |mutexes|
    {
      var x := mutexes[m];
      && x.Ok() && Distinct(x.waiters)
      && (x.owner.Some? ==> x.owner.value < |prio| == |blocked| && x.owner.value !in x.waiters)
      && (forall t :: t in x.waiters ==> t < |prio| == |blocked| && blocked[t] == Some(m))
    }

    ghost predicate Books() {
      && |prio| == |blocked|
      && (forall m :: 0 <= m < |mutexes| ==> Book(m))
      && (forall t :: 0 <= t < |blocked| && blocked[t].Some? ==>
            blocked[t].value < |mutexes| && t in mutexes[blocked[t].value].waiters)
    }

    // --- priority inheritance -----------------------------------------------------------------

    // The owner of m is at least as strong as each thread that waits for m.
    ghost predicate Protected(m: nat)
      requires m < |mutexes|
    {
      forall w :: w in mutexes[m].waiters && w < |prio| && OwnerOf(m).Some? && OwnerOf(m).value < |prio| ==>
                    prio[OwnerOf(m).value] <= prio[w]
    }

    ghost predicate NoInversion() { forall m :: 0 <= m < |mutexes| ==> Protected(m) }

    // The condition under which an event keeps the owners strong enough.
    ghost predicate Keeps(e: Event)
      requires Enabled(e)
    {
      match e
      case Take(t, m, wait) => wait ==> BoostReaches(t, m)
      case Release(t, m) => OwnerOf(m) == Some(t) && mutexes[m].hold == 1 ==> OthersAllow(t, m) && StrongestFirst(m)
      case Expire(t) => true
    }

    // If the owner of m is itself suspended, on another mutex, then the owner of that one is
    // already as strong as t: a boost goes one step only.
    ghost predicate BoostReaches(t: nat, m: nat)
      requires t < |prio| && m < |mutexes|
    {
      match OwnerOf(m)
      case None => true
      case Some(o) =>
        o != t && o < |blocked| && blocked[o].Some? && blocked[o].value < |mutexes|
            && OwnerOf(blocked[o].value).Some? ==>
          OwnerOf(blocked[o].value).value < |prio| && prio[OwnerOf(blocked[o].value).value] <= prio[t]
    }

    // The priority t goes back to is strong enough for the other mutexes it owns.
    ghost predicate OthersAllow(t: nat, m: nat)
      requires m < |mutexes|
    {
      forall k, w :: 0 <= k < |mutexes| && k != m && OwnerOf(k) == Some(t) && w in mutexes[k].waiters && w < |prio| ==>
                       mutexes[m].original <= prio[w]
    }

    ghost predicate StrongestFirst(m: nat)
      requires m < |mutexes|
    {
      var ws := mutexes[m].waiters;
      forall w :: w in ws && w < |prio| && ws[0] < |prio| ==> prio[ws[0]] <= prio[w]
    }
  }

  // --- bookkeeping over every run ---------------------------------------------------------------

  // Only mutex m and the waiting of thread t change.
  lemma {:induction false} BooksOne(s: State, u: State, m: nat, t: nat)
    requires s.Books() && m < |s.mutexes| && t < |s.blocked| && |u.prio| == |s.prio|
    requires |u.mutexes| == |s.mutexes| && u.mutexes == s.mutexes[m := u.mutexes[m]]
    requires |u.blocked| == |s.blocked| && u.blocked == s.blocked[t := u.blocked[t]]
    requires s.blocked[t] in {None, Some(m)} && u.blocked[t] in {None, Some(m)}
    requires u.mutexes[m].Ok() && Distinct(u.mutexes[m].waiters)
    requires u.mutexes[m].owner.Some? ==>
      && u.mutexes[m].owner.value < |u.prio|
      && u.mutexes[m].owner.value !in u.mutexes[m].waiters
    requires forall x :: x in u.mutexes[m].waiters <==> if x == t then u.blocked[t] == Some(m)
               else x in s.mutexes[m].waiters
    ensures u.Books()
  {
    forall k | 0 <= k < |u.mutexes|
      ensures u.Book(k)
    {
      assert s.Book(k) && s.Book(m);
    }
  }

  lemma {:induction false} TakenBooks(s: State, t: nat, m: nat, wait: bool)
    requires s.Books() && s.Enabled(Take(t, m, wait))
    ensures s.Taken(t, m, wait).Books()
  {
    assert s.Book(m);
    var x := s.mutexes[m];
    if x.owner != Some(t) && x.value == 0 && wait {
      var v := s.Inherit(t, m);
      InsDistinct(x.waiters, PlaceOf(x.waiters, v.prio, t, x.byPriority), t);
      InsMembers(x.waiters, PlaceOf(x.waiters, v.prio, t, x.byPriority), t);
    }
    BooksOne(s, s.Taken(t, m, wait), m, t);
  }

  lemma {:induction false} HandOverBooks(s: State, u: State, t: nat, m: nat)
    requires s.Books() && s.Enabled(Release(t, m)) && s.OwnerOf(m) == Some(t)
    requires u == s.(prio := s.prio[t := s.mutexes[m].original])
    ensures u.HandOver(m).Books()
  {
    assert s.Book(m);
    var x := s.mutexes[m];
    if x.waiters == [] {
      BooksOne(s, u.HandOver(m), m, t);
    } else {
      TailOf(x.waiters);
      assert x.waiters[0] in x.waiters;
      BooksOne(s, u.HandOver(m), m, x.waiters[0]);
    }
  }

  lemma {:induction false} BooksNext(s: State, e: Event)
    requires s.Books() && s.Enabled(e)
    ensures s.Next(e).Books()
  {
    match e
    case Take(t, m, wait) => TakenBooks(s, t, m, wait);
    case Release(t, m) =>
      assert s.Book(m);
      if s.OwnerOf(m) == Some(t) {
        if s.mutexes[m].hold == 1 {
          HandOverBooks(s, s.(prio := s.prio[t := s.mutexes[m].original]), t, m);
        } else {
          BooksOne(s, s.Next(e), m, t);
        }
      }
    case Expire(t) =>
      var m := s.blocked[t].value;
      assert s.Book(m);
      DelDistinct(s.mutexes[m].waiters, t);
      forall x
        ensures x in Del(s.mutexes[m].waiters, t) <==> x in s.mutexes[m].waiters && x != t
      {
        DelMember(s.mutexes[m].waiters, t, x);
      }
      BooksOne(s, s.Next(e), m, t);
  }

  // --- priority inheritance, exactly --------------------------------------------------------------

  lemma {:induction false} WaitKeeps(s: State, t: nat, m: nat)
    requires s.Books() && s.NoInversion() && s.Enabled(Take(t, m, true))
    requires s.OwnerOf(m).Some? && s.OwnerOf(m) != Some(t)
    ensures s.Taken(t, m, true).NoInversion() <==> s.BoostReaches(t, m)
  {
    var u, o := s.Taken(t, m, true), s.OwnerOf(m).value;
    assert s.Book(m) && s.Protected(m);
    var v := s.Inherit(t, m);
    InsMembers(s.mutexes[m].waiters, PlaceOf(s.mutexes[m].waiters, v.prio, t, s.mutexes[m].byPriority), t);
    assert u.prio == v.prio && u.prio == s.prio[o := Least(s.prio[o], s.prio[t])];
    forall k | 0 <= k < |s.mutexes| && s.blocked[o] != Some(k)
      ensures u.Protected(k)
    {
      assert s.Book(k) && s.Protected(k);
    }
    if s.blocked[o].Some? {
      var k := s.blocked[o].value;
      assert s.Book(k) && s.Protected(k) && o in s.mutexes[k].waiters && k != m && u.mutexes[k] == s.mutexes[k];
      assert u.Protected(k) <==> s.prio[s.OwnerOf(k).value] <= s.prio[t];
    }
  }

  function Least(a: nat, b: nat): nat { if b < a then b else a }

  lemma {:induction false} HandOverKeeps(s: State, t: nat, m: nat)
    requires s.Books() && s.NoInversion() && s.Enabled(Release(t, m)) && s.OwnerOf(m) == Some(t)
               && s.mutexes[m].hold == 1
    ensures s.Released(t, m).NoInversion() <==> s.OthersAllow(t, m) && s.StrongestFirst(m)
  {
    var u, ws := s.Released(t, m), s.mutexes[m].waiters;
    assert s.Book(m) && s.Protected(m);
    HandOverBooks(s, s.(prio := s.prio[t := s.mutexes[m].original]), t, m);
    forall k | 0 <= k < |s.mutexes| && k != m
      ensures u.Protected(k) <==>
              (s.OwnerOf(k) == Some(t) ==>
                 forall w :: w in s.mutexes[k].waiters && w < |s.prio| ==> s.mutexes[m].original <= s.prio[w])
    {
      assert s.Book(k) && s.Protected(k) && u.mutexes[k] == s.mutexes[k];
    }
    if ws != [] {
      assert ws[0] in ws && ws == [ws[0]] + ws[1..];
      assert u.Protected(m) <==> s.StrongestFirst(m);
    }
  }

  // An event keeps every owner at least as strong as its waiters if and only if the condition
  // Keeps holds, which speaks of the state before it.
  lemma {:induction false} InversionExactly(s: State, e: Event)
    requires s.Books() && s.NoInversion() && s.Enabled(e)
    ensures s.Next(e).NoInversion() <==> s.Keeps(e)
  {
    match e
    case Take(t, m, wait) =>
      assert s.Book(m) && s.Protected(m);
      if s.OwnerOf(m).Some? && s.OwnerOf(m) != Some(t) && wait {
        WaitKeeps(s, t, m);
      } else {
        OneMutex(s, s.Next(e), m);
      }
    case Release(t, m) =>
      assert s.Protected(m);
      if s.OwnerOf(m) == Some(t) && s.mutexes[m].hold == 1 {
        HandOverKeeps(s, t, m);
      } else {
        OneMutex(s, s.Next(e), m);
      }
    case Expire(t) =>
      var m := s.blocked[t].value;
      assert s.Protected(m);
      forall x
        ensures x in Del(s.mutexes[m].waiters, t) <==> x in s.mutexes[m].waiters && x != t
      {
        DelMember(s.mutexes[m].waiters, t, x);
      }
      OneMutex(s, s.Next(e), m);
  }

  lemma {:induction false} OneMutex(s: State, u: State, m: nat)
    requires s.NoInversion() && m < |s.mutexes| && |u.mutexes| == |s.mutexes| && u.prio == s.prio
    requires u.mutexes == s.mutexes[m := u.mutexes[m]] && u.Protected(m)
    ensures u.NoInversion()
  {
    forall k | 0 <= k < |u.mutexes|
      ensures u.Protected(k)
    {
      assert s.Protected(k);
    }
  }

  // --- giving a priority back, exactly ---------------------------------------------------------------

  // base are the priorities the threads have of their own. What a mutex will restore is its
  // owner's own priority, and a thread that owns no mutex runs at its own.
  ghost predicate Originals(s: State, base: seq<nat>) {
    && |base| == |s.prio|
    && (forall m :: 0 <= m < |s.mutexes| ==> RestoresBase(s, base, m))
    && (forall t :: 0 <= t < |base| ==> FreeRunning(s, base, t))
  }

  ghost predicate RestoresBase(s: State, base: seq<nat>, m: nat)
    requires m < |s.mutexes|
  {
    s.OwnerOf(m).Some? && s.OwnerOf(m).value < |base| ==> s.mutexes[m].original == base[s.OwnerOf(m).value]
  }

  // A mutex goes to a thread that runs at its own priority.
  ghost predicate Unboosted(s: State, base: seq<nat>, e: Event)
    requires s.Enabled(e) && |base| == |s.prio|
  {
    match e
    case Take(t, m, _) => s.OwnerOf(m).None? ==> s.prio[t] == base[t]
    case Release(t, m) =>
      s.OwnerOf(m) == Some(t) && s.mutexes[m].hold == 1 && s.mutexes[m].waiters != [] ==>
        var w := s.mutexes[m].waiters[0]; w < |s.prio| && s.prio[w] == base[w]
    case Expire(_) => true
  }

  // Owners change at m at most, and priorities at o at most.
  lemma {:induction false} OriginalsElsewhere(s: State, u: State, base: seq<nat>, m: nat, o: nat)
    requires Originals(s, base) && m < |s.mutexes| && |u.mutexes| == |s.mutexes|
               && u.mutexes == s.mutexes[m := u.mutexes[m]]
    requires o < |s.prio| == |u.prio| && u.prio == s.prio[o := u.prio[o]]
    requires FreeRunning(u, base, o) && RestoresBase(u, base, m)
    requires s.OwnerOf(m).Some? && s.OwnerOf(m) != Some(o) ==> u.OwnerOf(m) == s.OwnerOf(m)
    ensures Originals(u, base)
  {
    forall k | 0 <= k < |u.mutexes|
      ensures RestoresBase(u, base, k)
    {
      assert RestoresBase(s, base, k);
    }
    forall t | 0 <= t < |base|
      ensures FreeRunning(u, base, t)
    {
      assert FreeRunning(s, base, t);
      if t != o && OwnsNothing(u, t) {
        OwnedNothing(s, u, m, t);
      }
    }
  }

  lemma {:induction false} OwnedNothing(s: State, u: State, m: nat, t: nat)
    requires m < |s.mutexes| == |u.mutexes| && u.mutexes == s.mutexes[m := u.mutexes[m]]
    requires OwnsNothing(u, t) && (s.OwnerOf(m) == Some(t) ==> u.OwnerOf(m) == Some(t))
    ensures OwnsNothing(s, t)
  {
    assert u.mutexes[m].owner != Some(t);
    forall k | 0 <= k < |s.mutexes|
      ensures s.mutexes[k].owner != Some(t)
    {
      assert u.mutexes[k].owner != Some(t);
    }
  }

  // Every event keeps that if and only if the mutex it hands out, if any, goes to a thread that
  // runs at its own priority.
  lemma {:induction false} OriginalsExactly(s: State, base: seq<nat>, e: Event)
    requires s.Books() && Originals(s, base) && s.Enabled(e)
    ensures Originals(s.Next(e), base) <==> Unboosted(s, base, e)
  {
    var u := s.Next(e);
    match e
    case Take(t, m, wait) =>
      assert s.Book(m) && RestoresBase(s, base, m);
      if s.OwnerOf(m).None? {
        assert !OwnsNothing(u, t) by {
          assert u.mutexes[m].owner == Some(t);
        }
        assert RestoresBase(u, base, m) <==> s.prio[t] == base[t];
        if s.prio[t] == base[t] {
          OriginalsElsewhere(s, u, base, m, t);
        }
      } else {
        assert !OwnsNothing(u, s.OwnerOf(m).value) by {
          assert u.mutexes[m].owner == s.OwnerOf(m);
        }
        OriginalsElsewhere(s, u, base, m, s.OwnerOf(m).value);
      }
    case Release(t, m) =>
      assert s.Book(m) && RestoresBase(s, base, m);
      if s.OwnerOf(m) == Some(t) {
        if s.mutexes[m].hold == 1 && s.mutexes[m].waiters != [] {
          assert s.mutexes[m].waiters[0] in s.mutexes[m].waiters;
          assert RestoresBase(u, base, m) <==> Unboosted(s, base, e);
          if Unboosted(s, base, e) {
            OriginalsElsewhere(s, u, base, m, t);
          }
        } else {
          assert s.mutexes[m].hold != 1 ==> u.mutexes[m].owner == Some(t);
          OriginalsElsewhere(s, u, base, m, t);
        }
      }
    case Expire(t) =>
      var m := s.blocked[t].value;
      assert RestoresBase(s, base, m) && FreeRunning(s, base, t);
      if OwnsNothing(u, t) {
        OwnedNothing(s, u, m, t);
      }
      OriginalsElsewhere(s, u, base, m, t);
  }

  // Thread t is no stronger than it is of its own, or one that waits for it is as strong.
  ghost predicate Warranted(s: State, base: seq<nat>, t: nat)
    requires t < |s.prio| == |base|
  {
    base[t] <= s.prio[t] || exists k, w :: Presses(s, k, w, t, s.prio[t])
  }

  // Thread w, of priority p at least, waits for mutex k, which t owns.
  ghost predicate Presses(s: State, k: nat, w: nat, t: nat, p: nat) {
    k < |s.mutexes| && s.OwnerOf(k) == Some(t) && w in s.mutexes[k].waiters && w < |s.prio| && s.prio[w] <= p
  }

  ghost predicate AllWarranted(s: State, base: seq<nat>) {
    |base| == |s.prio| && forall t :: 0 <= t < |base| ==> Warranted(s, base, t)
  }

  // What the event leaves of a boost is still called for.
  ghost predicate LeavesWarranted(s: State, base: seq<nat>, e: Event)
    requires s.Enabled(e) && |base| == |s.prio|
  {
    match e
    case Take(_, _, _) => true
    case Release(t, m) =>
      s.OwnerOf(m) == Some(t) && s.mutexes[m].hold == 1 ==>
        base[t] <= s.mutexes[m].original || exists k, w :: k != m && Presses(s, k, w, t, s.mutexes[m].original)
    case Expire(t) =>
      s.OwnerOf(s.blocked[t].value).Some? && s.OwnerOf(s.blocked[t].value).value < |s.prio| ==>
        var o := s.OwnerOf(s.blocked[t].value).value;
        base[o] <= s.prio[o] || exists k, w :: w != t && Presses(s, k, w, o, s.prio[o])
  }

  lemma {:induction false} WaitPresses(s: State, u: State, t: nat, m: nat, k: nat, w: nat, x: nat, p: nat)
    requires s.Books() && s.Enabled(Take(t, m, true)) && s.OwnerOf(m).Some? && s.OwnerOf(m) != Some(t)
               && u == s.Taken(t, m, true)
    requires Presses(s, k, w, x, p)
    ensures Presses(u, k, w, x, p)
  {
    assert s.Book(m) && s.Book(k);
    var v := s.Inherit(t, m);
    InsMembers(s.mutexes[m].waiters, PlaceOf(s.mutexes[m].waiters, v.prio, t, s.mutexes[m].byPriority), t);
  }

  lemma {:induction false} TakeWarranted(s: State, base: seq<nat>, t: nat, m: nat, wait: bool)
    requires s.Books() && AllWarranted(s, base) && s.Enabled(Take(t, m, wait))
    ensures AllWarranted(s.Taken(t, m, wait), base)
  {
    var u := s.Taken(t, m, wait);
    assert s.Book(m);
    forall x | 0 <= x < |base|
      ensures Warranted(u, base, x)
    {
      assert Warranted(s, base, x);
      if s.OwnerOf(m).Some? && s.OwnerOf(m) != Some(t) && wait {
        var v := s.Inherit(t, m);
        InsMembers(s.mutexes[m].waiters, PlaceOf(s.mutexes[m].waiters, v.prio, t, s.mutexes[m].byPriority), t);
        if u.prio[x] != s.prio[x] {
          assert Presses(u, m, t, x, u.prio[x]);
        } else if s.prio[x] < base[x] {
          var k, w :| Presses(s, k, w, x, s.prio[x]);
          WaitPresses(s, u, t, m, k, w, x, s.prio[x]);
        }
      } else if s.prio[x] < base[x] {
        var k, w :| Presses(s, k, w, x, s.prio[x]);
        assert Presses(u, k, w, x, s.prio[x]);
      }
    }
  }

  lemma {:induction false} ReleasePresses(s: State, t: nat, m: nat, k: nat, w: nat, x: nat, p: nat)
    requires s.Books() && s.Enabled(Release(t, m)) && s.OwnerOf(m) == Some(t) && s.mutexes[m].hold == 1
    requires k != m
    ensures Presses(s.Released(t, m), k, w, x, p) <==> Presses(s, k, w, x, p)
  {
    assert s.Book(m);
    if k < |s.mutexes| {
      assert s.Book(k);
    }
  }

  lemma {:induction false} ReleaseWarranted(s: State, base: seq<nat>, t: nat, m: nat)
    requires s.Books() && AllWarranted(s, base) && s.Enabled(Release(t, m)) && s.OwnerOf(m) == Some(t)
               && s.mutexes[m].hold == 1
    ensures AllWarranted(s.Released(t, m), base) <==> LeavesWarranted(s, base, Release(t, m))
  {
    var u := s.Released(t, m);
    assert s.Book(m);
    forall x | 0 <= x < |base| && x != t
      ensures Warranted(u, base, x)
    {
      assert Warranted(s, base, x);
      if s.prio[x] < base[x] {
        var k, w :| Presses(s, k, w, x, s.prio[x]);
        ReleasePresses(s, t, m, k, w, x, s.prio[x]);
      }
    }
    assert AllWarranted(u, base) <==> Warranted(u, base, t);
    assert u.mutexes[m].owner != Some(t) && u.prio[t] == s.mutexes[m].original;
    forall k, w
      ensures Presses(u, k, w, t, u.prio[t]) <==> k != m && Presses(s, k, w, t, s.mutexes[m].original)
    {
      if k != m {
        ReleasePresses(s, t, m, k, w, t, s.mutexes[m].original);
      }
    }
  }

  lemma {:induction false} ExpirePresses(s: State, t: nat, k: nat, w: nat, x: nat, p: nat)
    requires s.Books() && s.Enabled(Expire(t))
    ensures Presses(s.Next(Expire(t)), k, w, x, p) <==> w != t && Presses(s, k, w, x, p)
  {
    var m := s.blocked[t].value;
    assert s.Book(m);
    DelMember(s.mutexes[m].waiters, t, w);
    if k < |s.mutexes| {
      assert s.Book(k);
    }
  }

  lemma {:induction false} ExpireWarranted(s: State, base: seq<nat>, t: nat)
    requires s.Books() && AllWarranted(s, base) && s.Enabled(Expire(t))
    ensures AllWarranted(s.Next(Expire(t)), base) <==> LeavesWarranted(s, base, Expire(t))
  {
    var u, m := s.Next(Expire(t)), s.blocked[t].value;
    assert s.Book(m);
    var o := s.OwnerOf(m).value;
    forall x | 0 <= x < |base| && x != o
      ensures Warranted(u, base, x)
    {
      assert Warranted(s, base, x);
      if s.prio[x] < base[x] {
        var k, w :| Presses(s, k, w, x, s.prio[x]);
        assert s.Book(k);
        ExpirePresses(s, t, k, w, x, s.prio[x]);
      }
    }
    forall k, w
      ensures Presses(u, k, w, o, s.prio[o]) <==> w != t && Presses(s, k, w, o, s.prio[o])
    {
      ExpirePresses(s, t, k, w, o, s.prio[o]);
    }
    assert AllWarranted(u, base) <==> Warranted(u, base, o);
  }

  // No boost outlasts its cause, but in two cases: a last release restores a priority that was
  // boosted when the mutex was taken, or a waiter gives up whose priority the owner was given.
  lemma {:induction false} WarrantedExactly(s: State, base: seq<nat>, e: Event)
    requires s.Books() && AllWarranted(s, base) && s.Enabled(e)
    ensures AllWarranted(s.Next(e), base) <==> LeavesWarranted(s, base, e)
  {
    match e
    case Take(t, m, wait) => TakeWarranted(s, base, t, m, wait);
    case Release(t, m) =>
      if s.OwnerOf(m) == Some(t) && s.mutexes[m].hold == 1 {
        ReleaseWarranted(s, base, t, m);
      } else {
        SameWarranted(s, s.Next(e), base, m);
      }
    case Expire(t) => ExpireWarranted(s, base, t);
  }

  // A hold count changes, no more.
  lemma {:induction false} SameWarranted(s: State, u: State, base: seq<nat>, m: nat)
    requires AllWarranted(s, base) && m < |s.mutexes| == |u.mutexes| && u.prio == s.prio
    requires u.mutexes == s.mutexes || u.mutexes == s.mutexes[m := s.mutexes[m].(hold := u.mutexes[m].hold)]
    ensures AllWarranted(u, base)
  {
    forall x | 0 <= x < |base|
      ensures Warranted(u, base, x)
    {
      assert Warranted(s, base, x);
      if s.prio[x] < base[x] {
        var k, w :| Presses(s, k, w, x, s.prio[x]);
        assert Presses(u, k, w, x, s.prio[x]);
      }
    }
  }

  // --- one mutex a thread, waiters by priority ------------------------------------------------------

  // base are the priorities the threads have of their own. Here no thread takes a second mutex,
  // so that none that waits owns one.
  ghost predicate Disciplined(s: State, base: seq<nat>) {
    && |base| == |s.prio|
    && (forall m :: 0 <= m < |s.mutexes| ==> Fair(s, m) && OwnedAlone(s, base, m))
    && (forall t :: 0 <= t < |base| ==> FreeRunning(s, base, t))
  }

  // The waiters of m are in the order of their priorities.
  ghost predicate Fair(s: State, m: nat)
    requires m < |s.mutexes|
  {
    s.mutexes[m].byPriority && ByRank(s.mutexes[m].waiters, s.prio)
  }

  ghost predicate OwnedAlone(s: State, base: seq<nat>, m: nat)
    requires m < |s.mutexes|
  {
    match s.OwnerOf(m)
    case None => true
    case Some(o) =>
      && o < |base| && o < |s.prio| && o < |s.blocked| && s.blocked[o].None?
      && s.mutexes[m].original == base[o] && s.prio[o] <= base[o]
      && forall k :: 0 <= k < |s.mutexes| && k != m ==> s.mutexes[k].owner != Some(o)
  }

  ghost predicate OwnsNothing(s: State, t: nat) { forall m :: 0 <= m < |s.mutexes| ==> s.mutexes[m].owner != Some(t) }

  // A thread that owns no mutex runs at its own priority.
  ghost predicate FreeRunning(s: State, base: seq<nat>, t: nat) {
    OwnsNothing(s, t) && t < |base| && t < |s.prio| ==> s.prio[t] == base[t]
  }

  // The discipline: a thread that owns a mutex takes no other.
  ghost predicate Permitted(s: State, e: Event) {
    e.Take? ==> forall k :: 0 <= k < |s.mutexes| && k != e.m ==> s.mutexes[k].owner != Some(e.t)
  }

  // Under the discipline the condition for priority inheritance always holds.
  lemma {:induction false} DisciplineKeeps(s: State, base: seq<nat>, e: Event)
    requires s.Books() && Disciplined(s, base) && s.Enabled(e) && Permitted(s, e)
    ensures s.Keeps(e)
  {
    match e
    case Take(t, m, wait) =>
      assert OwnedAlone(s, base, m) && s.Book(m);
    case Release(t, m) =>
      assert OwnedAlone(s, base, m) && Fair(s, m) && s.Book(m);
    case Expire(t) =>
  }

  // The priority of a thread that does not wait changes: the lists stay in order.
  lemma {:induction false} FairStill(s: State, u: State, k: nat, o: nat)
    requires s.Books() && k < |s.mutexes| && Fair(s, k) && k < |u.mutexes|
    requires u.mutexes[k].byPriority && u.mutexes[k].waiters == s.mutexes[k].waiters
    requires o < |s.prio| && s.blocked[o].None? && |u.prio| == |s.prio| && u.prio == s.prio[o := u.prio[o]]
    ensures Fair(u, k)
  {
    var ws := s.mutexes[k].waiters;
    assert s.Book(k);
    forall i | 0 <= i < |ws|
      ensures Rank(u.prio, ws[i]) == Rank(s.prio, ws[i])
    {
      assert ws[i] in ws;
    }
  }

  lemma {:induction false} AvailableDisciplined(s: State, base: seq<nat>, t: nat, m: nat, wait: bool)
    requires s.Books() && Disciplined(s, base) && s.Enabled(Take(t, m, wait)) && Permitted(s, Take(t, m, wait))
    requires s.OwnerOf(m).None? || s.OwnerOf(m) == Some(t) || !wait
    ensures Disciplined(s.Taken(t, m, wait), base)
  {
    var u := s.Taken(t, m, wait);
    assert s.Book(m) && FreeRunning(s, base, t);
    forall k | 0 <= k < |u.mutexes|
      ensures Fair(u, k) && OwnedAlone(u, base, k)
    {
      assert Fair(s, k) && OwnedAlone(s, base, k) && OwnedAlone(s, base, m);
    }
    forall x | 0 <= x < |base|
      ensures FreeRunning(u, base, x)
    {
      assert FreeRunning(s, base, x);
      if OwnsNothing(u, x) {
        assert forall k :: 0 <= k < |s.mutexes| ==>
                               s.mutexes[k].owner.None? || u.mutexes[k].owner == s.mutexes[k].owner;
        assert OwnsNothing(s, x);
      }
    }
  }

  lemma {:induction false} WaitDisciplined(s: State, base: seq<nat>, t: nat, m: nat)
    requires s.Books() && Disciplined(s, base) && s.Enabled(Take(t, m, true)) && Permitted(s, Take(t, m, true))
    requires s.OwnerOf(m).Some? && s.OwnerOf(m) != Some(t)
    ensures Disciplined(s.Taken(t, m, true), base)
  {
    var u, v, o, ws := s.Taken(t, m, true), s.Inherit(t, m), s.OwnerOf(m).value, s.mutexes[m].waiters;
    assert s.Book(m) && OwnedAlone(s, base, m) && Fair(s, m);
    FairStill(s, v, m, o);
    PlaceKeepsOrder(ws, v.prio, t);
    forall k | 0 <= k < |u.mutexes|
      ensures Fair(u, k) && OwnedAlone(u, base, k)
    {
      assert Fair(s, k) && OwnedAlone(s, base, k);
      if k != m {
        FairStill(s, u, k, o);
      }
    }
    SameOwners(s, u, base, o);
  }

  // Nobody takes or gives back a mutex; only the priority of an owner changes.
  lemma {:induction false} SameOwners(s: State, u: State, base: seq<nat>, o: nat)
    requires |u.mutexes| == |s.mutexes| && forall k :: 0 <= k < |s.mutexes| ==> u.mutexes[k].owner == s.mutexes[k].owner
    requires forall x :: 0 <= x < |base| ==> FreeRunning(s, base, x)
    requires o < |s.prio| == |u.prio| && u.prio == s.prio[o := u.prio[o]] && (u.prio == s.prio || !OwnsNothing(s, o))
    ensures forall x :: 0 <= x < |base| ==> FreeRunning(u, base, x)
  {
    forall x | 0 <= x < |base|
      ensures FreeRunning(u, base, x)
    {
      assert FreeRunning(s, base, x);
      assert OwnsNothing(u, x) ==> OwnsNothing(s, x);
    }
  }

  lemma {:induction false} ReleaseDisciplined(s: State, base: seq<nat>, t: nat, m: nat)
    requires s.Books() && Disciplined(s, base) && s.Enabled(Release(t, m)) && s.OwnerOf(m) == Some(t)
               && s.mutexes[m].hold == 1
    ensures Disciplined(s.Released(t, m), base)
  {
    var u, ws := s.Released(t, m), s.mutexes[m].waiters;
    assert s.Book(m) && OwnedAlone(s, base, m) && Fair(s, m);
    if ws != [] {
      assert ws[0] in ws;
      WaiterOwnsNothing(s, base, ws[0]);
      assert FreeRunning(s, base, ws[0]);
    }
    forall k | 0 <= k < |u.mutexes|
      ensures Fair(u, k) && OwnedAlone(u, base, k)
    {
      assert Fair(s, k) && OwnedAlone(s, base, k);
      if k != m {
        FairStill(s, u, k, t);
      } else {
        FairStill(s, s.(prio := u.prio), m, t);
        assert forall i {:trigger ws[1..][i]} :: 0 <= i < |ws| - 1 ==> ws[1..][i] == ws[i + 1];
      }
    }
    forall x | 0 <= x < |base|
      ensures FreeRunning(u, base, x)
    {
      assert FreeRunning(s, base, x);
      if x != t && OwnsNothing(u, x) {
        assert forall k :: 0 <= k < |s.mutexes| && k != m ==> u.mutexes[k].owner == s.mutexes[k].owner;
        assert OwnsNothing(s, x);
      }
    }
  }

  lemma {:induction false} WaiterOwnsNothing(s: State, base: seq<nat>, w: nat)
    requires Disciplined(s, base) && w < |s.blocked| && s.blocked[w].Some?
    ensures OwnsNothing(s, w)
  {
    forall m | 0 <= m < |s.mutexes|
      ensures s.mutexes[m].owner != Some(w)
    {
      assert OwnedAlone(s, base, m);
    }
  }

  lemma {:induction false} ExpireDisciplined(s: State, base: seq<nat>, t: nat)
    requires s.Books() && Disciplined(s, base) && s.Enabled(Expire(t))
    ensures Disciplined(s.Next(Expire(t)), base)
  {
    var u, m := s.Next(Expire(t)), s.blocked[t].value;
    assert s.Book(m) && Fair(s, m);
    DelByRank(s.mutexes[m].waiters, s.prio, t);
    forall k | 0 <= k < |u.mutexes|
      ensures Fair(u, k) && OwnedAlone(u, base, k)
    {
      assert Fair(s, k) && OwnedAlone(s, base, k);
    }
    SameOwners(s, u, base, t);
  }

  lemma {:induction false} DelByRank(list: seq<nat>, prio: seq<nat>, t: nat)
    requires ByRank(list, prio) && Distinct(list)
    ensures ByRank(Del(list, t), prio)
  {
    if t in list {
      var k :| 0 <= k < |list| && list[k] == t;
      DelAt(list, k);
      var r := Del(list, t);
      assert forall i :: 0 <= i < |r| ==> r[i] == list[if i < k then i else i + 1];
    } else {
      DelAbsent(list, t);
    }
  }

  lemma {:induction false} DisciplineNext(s: State, base: seq<nat>, e: Event)
    requires s.Books() && Disciplined(s, base) && s.Enabled(e) && Permitted(s, e)
    ensures Disciplined(s.Next(e), base)
  {
    match e
    case Take(t, m, wait) =>
      assert s.Book(m);
      if s.OwnerOf(m).Some? && s.OwnerOf(m) != Some(t) && wait {
        WaitDisciplined(s, base, t, m);
      } else {
        AvailableDisciplined(s, base, t, m, wait);
      }
    case Release(t, m) =>
      assert s.Book(m);
      if s.OwnerOf(m) == Some(t) {
        if s.mutexes[m].hold == 1 {
          ReleaseDisciplined(s, base, t, m);
        } else {
          HeldDisciplined(s, base, t, m);
        }
      }
    case Expire(t) => ExpireDisciplined(s, base, t);
  }

  lemma {:induction false} HeldDisciplined(s: State, base: seq<nat>, t: nat, m: nat)
    requires s.Books() && Disciplined(s, base) && s.Enabled(Release(t, m)) && s.OwnerOf(m) == Some(t)
               && s.mutexes[m].hold > 1
    ensures Disciplined(s.Released(t, m), base)
  {
    var u := s.Released(t, m);
    forall k | 0 <= k < |u.mutexes|
      ensures Fair(u, k) && OwnedAlone(u, base, k)
    {
      assert Fair(s, k) && OwnedAlone(s, base, k);
    }
    SameOwners(s, u, base, t);
  }

  // --- runs -------------------------------------------------------------------------------------

  ghost predicate Init(s: State) {
    && |s.blocked| == |s.prio|
    && (forall t :: 0 <= t < |s.blocked| ==> s.blocked[t].None?)
    && (forall m :: 0 <= m < |s.mutexes| ==>
          s.mutexes[m] == Mutex(s.mutexes[m].byPriority, 1, None, NO_PRIORITY, 0, []))
  }

  ghost predicate Run(s: State, es: seq<Event>)
    decreases |es|
  {
    es == [] || (s.Enabled(es[0]) && Run(s.Next(es[0]), es[1..]))
  }

  ghost predicate PermittedRun(s: State, es: seq<Event>)
    requires Run(s, es)
    decreases |es|
  {
    es == [] || (Permitted(s, es[0]) && PermittedRun(s.Next(es[0]), es[1..]))
  }

  ghost function After(s: State, es: seq<Event>): State
    requires Run(s, es)
    decreases |es|
  {
    if es == [] then s else After(s.Next(es[0]), es[1..])
  }

  // Whatever the threads do, value 1, no owner and hold 0 coincide, waiters imply an owner, and
  // every suspended thread is in the list of exactly the mutex it waits for.
  lemma {:induction false} BooksRun(s: State, es: seq<Event>)
    requires s.Books() && Run(s, es)
    ensures After(s, es).Books()
    decreases |es|
  {
    if es != [] {
      BooksNext(s, es[0]);
      BooksRun(s.Next(es[0]), es[1..]);
    }
  }

  // With waiters in priority order and one mutex a thread at most, no thread that owns a mutex
  // is weaker than one that waits for it, and each thread that owns none has its own priority
  // back.
  lemma {:induction false} InheritanceRun(s: State, base: seq<nat>, es: seq<Event>)
    requires s.Books() && Disciplined(s, base) && s.NoInversion() && Run(s, es) && PermittedRun(s, es)
    ensures var u := After(s, es); u.Books() && Disciplined(u, base) && u.NoInversion()
    decreases |es|
  {
    if es != [] {
      BooksNext(s, es[0]);
      DisciplineNext(s, base, es[0]);
      DisciplineKeeps(s, base, es[0]);
      InversionExactly(s, es[0]);
      InheritanceRun(s.Next(es[0]), base, es[1..]);
    }
  }

  // In every state of the run what a mutex will restore is right, and no event hands one to a
  // boosted thread.
  ghost predicate OriginalsRun(s: State, base: seq<nat>, es: seq<Event>)
    requires Run(s, es)
    decreases |es|
  {
    Originals(s, base) && (es == [] || OriginalsRun(s.Next(es[0]), base, es[1..]))
  }

  ghost predicate UnboostedRun(s: State, base: seq<nat>, es: seq<Event>)
    requires Run(s, es)
    decreases |es|
  {
    es == [] || (|base| == |s.prio| && Unboosted(s, base, es[0]) && UnboostedRun(s.Next(es[0]), base, es[1..]))
  }

  // In every state of the run no boost outlasts its cause, and every event leaves it so.
  ghost predicate WarrantedRun(s: State, base: seq<nat>, es: seq<Event>)
    requires Run(s, es)
    decreases |es|
  {
    AllWarranted(s, base) && (es == [] || WarrantedRun(s.Next(es[0]), base, es[1..]))
  }

  ghost predicate LeavesRun(s: State, base: seq<nat>, es: seq<Event>)
    requires Run(s, es)
    decreases |es|
  {
    es == [] || (|base| == |s.prio| && LeavesWarranted(s, base, es[0]) && LeavesRun(s.Next(es[0]), base, es[1..]))
  }

  // Over a whole run priorities are given back if and only if no mutex was handed to a boosted
  // thread.
  lemma {:induction false} GivenBackExactly(s: State, base: seq<nat>, es: seq<Event>)
    requires s.Books() && Originals(s, base) && Run(s, es)
    ensures OriginalsRun(s, base, es) <==> UnboostedRun(s, base, es)
    decreases |es|
  {
    if es != [] {
      BooksNext(s, es[0]);
      OriginalsExactly(s, base, es[0]);
      if Unboosted(s, base, es[0]) {
        GivenBackExactly(s.Next(es[0]), base, es[1..]);
      }
    }
  }

  lemma {:induction false} WarrantedRunExactly(s: State, base: seq<nat>, es: seq<Event>)
    requires s.Books() && AllWarranted(s, base) && Run(s, es)
    ensures WarrantedRun(s, base, es) <==> LeavesRun(s, base, es)
    decreases |es|
  {
    if es != [] {
      BooksNext(s, es[0]);
      WarrantedExactly(s, base, es[0]);
      if LeavesWarranted(s, base, es[0]) {
        WarrantedRunExactly(s.Next(es[0]), base, es[1..]);
      }
    }
  }

  lemma {:induction false} InitHolds(s: State)
    requires Init(s)
    ensures s.Books() && s.NoInversion() && Originals(s, s.prio) && AllWarranted(s, s.prio)
    ensures (forall m :: 0 <= m < |s.mutexes| ==> s.mutexes[m].byPriority) ==> Disciplined(s, s.prio)
  {
    forall m | 0 <= m < |s.mutexes|
      ensures s.Book(m)
    {
    }
  }

  // --- what goes wrong without the conditions -------------------------------------------------------

  function Fresh(byPriority: bool): Mutex { Mutex(byPriority, 1, None, NO_PRIORITY, 0, []) }

  // What an event does, spelled out: m was free, or t waits behind the place k, or t gives it back.
  lemma {:induction false} StepFree(s: State, t: nat, m: nat, u: State)
    requires s.Enabled(Take(t, m, true)) && s.mutexes[m].value == 1 && s.mutexes[m].owner.None?
               && s.mutexes[m].hold == 0
    requires u.prio == s.prio && u.blocked == s.blocked
    requires u.mutexes == s.mutexes[m := Mutex(s.mutexes[m].byPriority, 0, Some(t), s.prio[t], 1, s.mutexes[m].waiters)]
    ensures Leads(s, Take(t, m, true), u)
  {
  }

  lemma {:induction false} StepWait(s: State, t: nat, m: nat, o: nat, u: State)
    requires s.Enabled(Take(t, m, true)) && s.mutexes[m].value == 0 && s.OwnerOf(m) == Some(o) && o != t
    requires s.prio[t] < s.prio[o] && u.prio == s.prio[o := s.prio[t]] && u.blocked == s.blocked[t := Some(m)]
    requires !s.mutexes[m].byPriority || s.mutexes[m].waiters == []
    requires u.mutexes == s.mutexes[m := s.mutexes[m].(waiters := s.mutexes[m].waiters + [t])]
    ensures Leads(s, Take(t, m, true), u)
  {
    var ws := s.mutexes[m].waiters;
    assert Ins(ws, |ws|, t) == ws + [t];
  }

  lemma {:induction false} StepRelease(s: State, t: nat, m: nat, u: State)
    requires s.Enabled(Release(t, m)) && s.OwnerOf(m) == Some(t) && s.mutexes[m].hold == 1 && t < |u.prio|
    requires u.prio == s.prio[t := s.mutexes[m].original] && u == s.(prio := u.prio).HandOver(m)
    ensures Leads(s, Release(t, m), u)
  {
  }

  ghost predicate Leads(s: State, e: Event, u: State) { s.Enabled(e) && s.Next(e) == u }

  lemma {:induction false} FourSteps(s: State, a: Event, s1: State, b: Event, s2: State, c: Event, s3: State,
        d: Event, s4: State)
    requires Leads(s, a, s1) && Leads(s1, b, s2) && Leads(s2, c, s3) && Leads(s3, d, s4)
    ensures Run(s, [a, b, c, d]) && After(s, [a, b, c, d]) == s4
  {
    assert [a, b, c, d][1..] == [b, c, d] && [b, c, d][1..] == [c, d] && [c, d][1..] == [d] && [d][1..] == [];
    assert Run(s4, []) && After(s4, []) == s4;
    assert Run(s3, [d]) && After(s3, [d]) == s4;
    assert Run(s2, [c, d]) && After(s2, [c, d]) == s4;
    assert Run(s1, [b, c, d]) && After(s1, [b, c, d]) == s4;
  }

  function Owned(byPriority: bool, o: nat, original: nat, waiters: seq<nat>): Mutex {
    Mutex(byPriority, 0, Some(o), original, 1, waiters)
  }

  // First come, first served: the mutex goes to the weaker waiter, which the stronger one then
  // waits for.
  lemma {:induction false} FifoInverts()
    ensures exists s, es :: Init(s) && Run(s, es) && !After(s, es).NoInversion()
  {
    var s := State([9, 8, 7], [None, None, None], [Fresh(false)]);
    var s1 := State([9, 8, 7], [None, None, None], [Owned(false, 0, 9, [])]);
    var s2 := State([8, 8, 7], [None, Some(0), None], [Owned(false, 0, 9, [1])]);
    var s3 := State([7, 8, 7], [None, Some(0), Some(0)], [Owned(false, 0, 9, [1, 2])]);
    var s4 := State([9, 8, 7], [None, None, Some(0)], [Owned(false, 1, 8, [2])]);
    FifoSteps(s, s1, s2, s3, s4);
    FourSteps(s, Take(0, 0, true), s1, Take(1, 0, true), s2, Take(2, 0, true), s3, Release(0, 0), s4);
    assert 2 in s4.mutexes[0].waiters && !s4.Protected(0);
  }

  lemma {:induction false} FifoSteps(s: State, s1: State, s2: State, s3: State, s4: State)
    requires s == State([9, 8, 7], [None, None, None], [Fresh(false)])
    requires s1 == State([9, 8, 7], [None, None, None], [Owned(false, 0, 9, [])])
    requires s2 == State([8, 8, 7], [None, Some(0), None], [Owned(false, 0, 9, [1])])
    requires s3 == State([7, 8, 7], [None, Some(0), Some(0)], [Owned(false, 0, 9, [1, 2])])
    requires s4 == State([9, 8, 7], [None, None, Some(0)], [Owned(false, 1, 8, [2])])
    ensures Leads(s, Take(0, 0, true), s1) && Leads(s1, Take(1, 0, true), s2)
    ensures Leads(s2, Take(2, 0, true), s3) && Leads(s3, Release(0, 0), s4)
  {
    StepFree(s, 0, 0, s1);
    assert [] + [1] == [1];
    StepWait(s1, 1, 0, 0, s2);
    FifoHandOver(s2, s3, s4);
  }

  lemma {:induction false} FifoHandOver(s2: State, s3: State, s4: State)
    requires s2 == State([8, 8, 7], [None, Some(0), None], [Owned(false, 0, 9, [1])])
    requires s3 == State([7, 8, 7], [None, Some(0), Some(0)], [Owned(false, 0, 9, [1, 2])])
    requires s4 == State([9, 8, 7], [None, None, Some(0)], [Owned(false, 1, 8, [2])])
    ensures Leads(s2, Take(2, 0, true), s3) && Leads(s3, Release(0, 0), s4)
  {
    assert [1] + [2] == [1, 2] && [1, 2][1..] == [2];
    StepWait(s2, 2, 0, 0, s3);
    StepRelease(s3, 0, 0, s4);
  }

  // A second mutex: giving it back drops the priority that the first one still needs.
  lemma {:induction false} NestedInverts()
    ensures exists s, es :: Init(s) && Run(s, es) && !After(s, es).NoInversion()
                            && forall m :: 0 <= m < |s.mutexes| ==> s.mutexes[m].byPriority
  {
    var s := State([9, 7], [None, None], [Fresh(true), Fresh(true)]);
    var s1 := State([9, 7], [None, None], [Owned(true, 0, 9, []), Fresh(true)]);
    var s2 := State([9, 7], [None, None], [Owned(true, 0, 9, []), Owned(true, 0, 9, [])]);
    var s3 := State([7, 7], [None, Some(0)], [Owned(true, 0, 9, [1]), Owned(true, 0, 9, [])]);
    var s4 := State([9, 7], [None, Some(0)], [Owned(true, 0, 9, [1]), Fresh(true)]);
    NestedSteps(s, s1, s2, s3, s4);
    FourSteps(s, Take(0, 0, true), s1, Take(0, 1, true), s2, Take(1, 0, true), s3, Release(0, 1), s4);
    assert 1 in s4.mutexes[0].waiters && !s4.Protected(0);
  }

  lemma {:induction false} NestedSteps(s: State, s1: State, s2: State, s3: State, s4: State)
    requires s == State([9, 7], [None, None], [Fresh(true), Fresh(true)])
    requires s1 == State([9, 7], [None, None], [Owned(true, 0, 9, []), Fresh(true)])
    requires s2 == State([9, 7], [None, None], [Owned(true, 0, 9, []), Owned(true, 0, 9, [])])
    requires s3 == State([7, 7], [None, Some(0)], [Owned(true, 0, 9, [1]), Owned(true, 0, 9, [])])
    requires s4 == State([9, 7], [None, Some(0)], [Owned(true, 0, 9, [1]), Fresh(true)])
    ensures Leads(s, Take(0, 0, true), s1) && Leads(s1, Take(0, 1, true), s2)
    ensures Leads(s2, Take(1, 0, true), s3) && Leads(s3, Release(0, 1), s4)
  {
    assert [] + [1] == [1];
    StepFree(s, 0, 0, s1);
    StepFree(s1, 0, 1, s2);
    StepWait(s2, 1, 0, 0, s3);
    StepRelease(s3, 0, 1, s4);
  }

  // A second mutex taken while boosted: after giving both back, the thread keeps the boost.
  lemma {:induction false} NestedKeepsBoost()
    ensures exists s, es :: Init(s) && Run(s, es) && OwnsNothing(After(s, es), 0) && s.prio == [9, 7]
              && After(s, es).prio == [7, 7]
  {
    var s := State([9, 7], [None, None], [Fresh(true), Fresh(true)]);
    var s1 := State([9, 7], [None, None], [Owned(true, 0, 9, []), Fresh(true)]);
    var s2 := State([7, 7], [None, Some(0)], [Owned(true, 0, 9, [1]), Fresh(true)]);
    var s3 := State([7, 7], [None, Some(0)], [Owned(true, 0, 9, [1]), Owned(true, 0, 7, [])]);
    var s4 := State([9, 7], [None, None], [Owned(true, 1, 7, []), Owned(true, 0, 7, [])]);
    var s5 := State([7, 7], [None, None], [Owned(true, 1, 7, []), Fresh(true)]);
    BoostStart(s, s1);
    BoostSteps(s1, s2, s3, s4, s5);
    FourSteps(s1, Take(1, 0, true), s2, Take(0, 1, true), s3, Release(0, 0), s4, Release(0, 1), s5);
    var es := [Take(1, 0, true), Take(0, 1, true), Release(0, 0), Release(0, 1)];
    OneMore(s, Take(0, 0, true), s1, es);
    assert OwnsNothing(s5, 0);
  }

  lemma BoostStart(s: State, s1: State)
    requires s == State([9, 7], [None, None], [Fresh(true), Fresh(true)])
    requires s1 == State([9, 7], [None, None], [Owned(true, 0, 9, []), Fresh(true)])
    ensures Init(s) && Leads(s, Take(0, 0, true), s1)
  {
    StepFree(s, 0, 0, s1);
  }

  lemma OneMore(s: State, e: Event, u: State, es: seq<Event>)
    requires Leads(s, e, u) && Run(u, es)
    ensures Run(s, [e] + es) && After(s, [e] + es) == After(u, es)
  {
    assert ([e] + es)[1..] == es;
  }

  lemma {:induction false} BoostSteps(s1: State, s2: State, s3: State, s4: State, s5: State)
    requires s1 == State([9, 7], [None, None], [Owned(true, 0, 9, []), Fresh(true)])
    requires s2 == State([7, 7], [None, Some(0)], [Owned(true, 0, 9, [1]), Fresh(true)])
    requires s3 == State([7, 7], [None, Some(0)], [Owned(true, 0, 9, [1]), Owned(true, 0, 7, [])])
    requires s4 == State([9, 7], [None, None], [Owned(true, 1, 7, []), Owned(true, 0, 7, [])])
    requires s5 == State([7, 7], [None, None], [Owned(true, 1, 7, []), Fresh(true)])
    ensures Leads(s1, Take(1, 0, true), s2) && Leads(s2, Take(0, 1, true), s3)
    ensures Leads(s3, Release(0, 0), s4) && Leads(s4, Release(0, 1), s5)
  {
    assert [] + [1] == [1] && [1][1..] == [];
    StepWait(s1, 1, 0, 0, s2);
    StepFree(s2, 0, 1, s3);
    StepRelease(s3, 0, 0, s4);
    StepRelease(s4, 0, 1, s5);
  }

  // A waiter gives up: the owner of a single mutex keeps the priority it was given.
  lemma {:induction false} ExpiryKeepsBoost()
    ensures exists s, es :: Init(s) && Run(s, es) && s.prio == [9, 7] && |s.mutexes| == 1
                            && |After(s, es).prio| == 2 && !Warranted(After(s, es), s.prio, 0)
  {
    var s := State([9, 7], [None, None], [Fresh(true)]);
    var s1 := State([9, 7], [None, None], [Owned(true, 0, 9, [])]);
    var s2 := State([7, 7], [None, Some(0)], [Owned(true, 0, 9, [1])]);
    var s3 := State([7, 7], [None, None], [Owned(true, 0, 9, [])]);
    ExpirySteps(s, s1, s2, s3);
    ThreeSteps(s, Take(0, 0, true), s1, Take(1, 0, true), s2, Expire(1), s3);
    Unwarranted(s3, s.prio);
  }

  lemma {:induction false} Unwarranted(s: State, base: seq<nat>)
    requires s == State([7, 7], [None, None], [Owned(true, 0, 9, [])]) && base == [9, 7]
    ensures !Warranted(s, base, 0)
  {
  }

  lemma {:induction false} ThreeSteps(s: State, e1: Event, s1: State, e2: Event, s2: State, e3: Event, s3: State)
    requires Leads(s, e1, s1) && Leads(s1, e2, s2) && Leads(s2, e3, s3)
    ensures var es := [e1] + ([e2] + ([e3] + [])); Run(s, es) && After(s, es) == s3
  {
    OneMore(s2, e3, s3, []);
    OneMore(s1, e2, s2, [e3] + []);
    OneMore(s, e1, s1, [e2] + ([e3] + []));
  }

  lemma {:induction false} ExpirySteps(s: State, s1: State, s2: State, s3: State)
    requires s == State([9, 7], [None, None], [Fresh(true)])
    requires s1 == State([9, 7], [None, None], [Owned(true, 0, 9, [])])
    requires s2 == State([7, 7], [None, Some(0)], [Owned(true, 0, 9, [1])])
    requires s3 == State([7, 7], [None, None], [Owned(true, 0, 9, [])])
    ensures Leads(s, Take(0, 0, true), s1) && Leads(s1, Take(1, 0, true), s2) && Leads(s2, Expire(1), s3)
  {
    assert [] + [1] == [1] && Del([1], 1) == [];
    StepFree(s, 0, 0, s1);
    StepWait(s1, 1, 0, 0, s2);
  }
}
