/** How long a thread owns a mutex: from the take that gets it to the release that matches this
    take, counted from what the threads do. */
module MutexHold {
  import opened Wrappers
  import opened Lists
  import opened MutexState
  import opened WaitList
  import opened WaitTurn

  // How often thread t takes m in es, or is to release it.
  ghost function Takes(es: seq<Event>, t: nat, m: nat): nat {
    if es == [] then 0 else (if es[0].Take? && es[0].t == t && es[0].m == m then 1 else 0) + Takes(es[1..], t, m)
  }

  ghost function Releases(es: seq<Event>, t: nat, m: nat): nat {
    if es == [] then 0 else (if es[0] == Release(t, m) then 1 else 0) + Releases(es[1..], t, m)
  }

  // After h takes, no beginning of es releases m as often as t has taken it.
  ghost predicate Unmatched(h: int, es: seq<Event>, t: nat, m: nat) {
    forall k :: 0 <= k <= |es| ==> Releases(es[..k], t, m) < h + Takes(es[..k], t, m)
  }

  // Thread t is the owner of m in every state of the run.
  ghost predicate OwnsAll(s: State, es: seq<Event>, t: nat, m: nat)
    requires Run(s, es)
    decreases |es|
  {
    m < |s.mutexes| && s.OwnerOf(m) == Some(t) && (es == [] || OwnsAll(s.Next(es[0]), es[1..], t, m))
  }

  // One event: the owner changes only when the count of takes and releases comes to 0.
  lemma {:induction false} OwnedNext(s: State, e: Event, t: nat, m: nat)
    requires s.Books() && s.Enabled(e) && m < |s.mutexes| && s.OwnerOf(m) == Some(t)
    ensures var u, h := s.Next(e), s.mutexes[m].hold + Takes([e], t, m) - Releases([e], t, m);
            && |u.mutexes| == |s.mutexes|
            && (if h >= 1 then u.OwnerOf(m) == Some(t) && u.mutexes[m].hold == h else u.OwnerOf(m) != Some(t))
  {
    assert s.Book(m);
    assert [e][1..] == [];
    match e
    case Take(x, k, wait) => assert s.Book(k);
    case Release(x, k) =>
      assert s.Book(k);
      if k == m && x == t && s.mutexes[m].hold == 1 && s.mutexes[m].waiters != [] {
        assert s.mutexes[m].waiters[0] in s.mutexes[m].waiters;
      }
    case Expire(x) =>
  }

  lemma {:induction false} CountFirst(es: seq<Event>, k: nat, t: nat, m: nat)
    requires 0 < k <= |es|
    ensures es[..k][0] == es[0] && es[..k][1..] == es[1..][..k - 1]
    ensures Takes(es[..k], t, m) == Takes([es[0]], t, m) + Takes(es[1..][..k - 1], t, m)
    ensures Releases(es[..k], t, m) == Releases([es[0]], t, m) + Releases(es[1..][..k - 1], t, m)
  {
    assert [es[0]][1..] == [];
    assert es[..k][1..] == es[1..][..k - 1];
  }

  // What is unmatched from h on is so from the count after the first event on.
  lemma {:induction false} UnmatchedNext(h: int, es: seq<Event>, t: nat, m: nat)
    requires es != []
    ensures Unmatched(h, es, t, m) <==>
            0 < h && Unmatched(h + Takes([es[0]], t, m) - Releases([es[0]], t, m), es[1..], t, m)
  {
    var g := h + Takes([es[0]], t, m) - Releases([es[0]], t, m);
    assert es[..0] == [];
    if Unmatched(h, es, t, m) {
      assert Releases(es[..0], t, m) < h + Takes(es[..0], t, m);
      forall k | 0 <= k <= |es[1..]|
        ensures Releases(es[1..][..k], t, m) < g + Takes(es[1..][..k], t, m)
      {
        CountFirst(es, k + 1, t, m);
        assert Releases(es[..k + 1], t, m) < h + Takes(es[..k + 1], t, m);
      }
    }
    if 0 < h && Unmatched(g, es[1..], t, m) {
      forall k | 0 <= k <= |es|
        ensures Releases(es[..k], t, m) < h + Takes(es[..k], t, m)
      {
        if k > 0 {
          CountFirst(es, k, t, m);
        }
      }
    }
  }

  lemma {:induction false} UnmatchedStart(h: int, es: seq<Event>, t: nat, m: nat)
    ensures Unmatched(h, es, t, m) ==> h >= 1
    ensures es == [] ==> (Unmatched(h, es, t, m) <==> h >= 1)
  {
    assert es[..0] == [];
    assert Unmatched(h, es, t, m) ==> Releases(es[..0], t, m) < h + Takes(es[..0], t, m);
  }

  // Over every run a thread stays the owner if and only if it has not yet released the mutex as
  // often as it has taken it, and hold is the difference.
  lemma {:induction false} OwnedExactly(s: State, es: seq<Event>, t: nat, m: nat)
    requires s.Books() && Run(s, es) && m < |s.mutexes| && s.OwnerOf(m) == Some(t)
    ensures OwnsAll(s, es, t, m) <==> Unmatched(s.mutexes[m].hold, es, t, m)
    ensures OwnsAll(s, es, t, m) ==>
            var u := After(s, es);
            m < |u.mutexes| && u.mutexes[m].hold == s.mutexes[m].hold + Takes(es, t, m) - Releases(es, t, m)
    decreases |es|
  {
    var h := s.mutexes[m].hold;
    assert s.Book(m);
    UnmatchedStart(h, es, t, m);
    if es != [] {
      OwnedNext(s, es[0], t, m);
      BooksNext(s, es[0]);
      UnmatchedNext(h, es, t, m);
      UnmatchedStart(h + Takes([es[0]], t, m) - Releases([es[0]], t, m), es[1..], t, m);
      if s.Next(es[0]).OwnerOf(m) == Some(t) {
        OwnedExactly(s.Next(es[0]), es[1..], t, m);
      }
      CountFirst(es, |es|, t, m);
      assert es[..|es|] == es && es[1..][..|es| - 1] == es[1..];
    }
  }

  // A thread becomes the owner by taking a free mutex, or as the first waiter when the owner gives it
  // up, and then holds it once.
  lemma {:induction false} GainedOnce(s: State, e: Event, t: nat, m: nat)
    requires s.Books() && s.Enabled(e) && m < |s.mutexes| && s.OwnerOf(m) != Some(t)
    ensures |s.Next(e).mutexes| == |s.mutexes|
    ensures s.Next(e).OwnerOf(m) == Some(t) <==>
      || (e.Take? && e.t == t && e.m == m && s.OwnerOf(m).None?)
      || (e.Release? && e.m == m && s.OwnerOf(m) == Some(e.t) && s.mutexes[m].hold == 1
          && s.mutexes[m].waiters != [] && s.mutexes[m].waiters[0] == t)
    ensures s.Next(e).OwnerOf(m) == Some(t) ==> s.Next(e).mutexes[m].hold == 1
  {
    assert s.Book(m);
    match e
    case Take(x, k, wait) => assert s.Book(k);
    case Release(x, k) => assert s.Book(k);
    case Expire(x) =>
  }

  // The mutex goes to the waiter in front, and the others keep their order. A waiter leaves the list
  // only as the new owner or when its time is up.
  ghost predicate InTurn(e: Event, x: Mutex, y: Mutex) {
    var owners := if y.owner.Some? then {y.owner.value} else {};
    && WaitTurn.Fair(Change(x.waiters, owners, y.waiters))
    && forall w :: w in x.waiters && e != Expire(w) ==> w in y.waiters || w in owners
  }

  lemma {:induction false} TurnNext(s: State, e: Event, m: nat)
    requires s.Books() && s.Enabled(e) && m < |s.mutexes|
    ensures |s.Next(e).mutexes| == |s.mutexes| && InTurn(e, s.mutexes[m], s.Next(e).mutexes[m])
  {
    assert s.Book(m);
    match e
    case Take(t, k, wait) => TurnTaken(s, t, k, wait, m);
    case Release(t, k) => TurnReleased(s, t, k, m);
    case Expire(t) =>
      var ws := s.mutexes[m].waiters;
      NobodyLeaves(ws);
      OneGivesUp(ws, t);
      forall x
        ensures x in Del(ws, t) <==> x in ws && x != t
      {
        DelMember(ws, t, x);
      }
  }

  lemma {:induction false} TurnTaken(s: State, t: nat, k: nat, wait: bool, m: nat)
    requires s.Books() && s.Enabled(Take(t, k, wait)) && m < |s.mutexes|
    ensures |s.Taken(t, k, wait).mutexes| == |s.mutexes|
    ensures InTurn(Take(t, k, wait), s.mutexes[m], s.Taken(t, k, wait).mutexes[m])
  {
    assert s.Book(m) && s.Book(k);
    var ws := s.mutexes[m].waiters;
    NobodyLeaves(ws);
    if k == m && s.OwnerOf(k).Some? && s.OwnerOf(k) != Some(t) && wait {
      var p := PlaceOf(ws, s.Inherit(t, m).prio, t, s.mutexes[m].byPriority);
      InsMembers(ws, p, t);
      OneJoins(ws, p, t);
    }
  }

  lemma {:induction false} TurnReleased(s: State, t: nat, k: nat, m: nat)
    requires s.Books() && s.Enabled(Release(t, k)) && m < |s.mutexes|
    ensures var u := s.Next(Release(t, k));
            |u.mutexes| == |s.mutexes| && InTurn(Release(t, k), s.mutexes[m], u.mutexes[m])
  {
    assert s.Book(m) && s.Book(k);
    var ws := s.mutexes[m].waiters;
    NobodyLeaves(ws);
    if k == m && ws != [] {
      FirstResumed(ws);
      assert ws == [ws[0]] + ws[1..] && ws[0] in ws;
    }
  }

  // So from the event that makes t the owner, no other thread gets the mutex before the release that
  // matches that take, and with this release t is its owner no longer.
  lemma {:induction false} UntilMatched(s: State, e: Event, es: seq<Event>, t: nat, m: nat)
    requires s.Books() && s.Enabled(e) && m < |s.mutexes| && s.OwnerOf(m) != Some(t)
    requires m < |s.Next(e).mutexes| && s.Next(e).OwnerOf(m) == Some(t) && Run(s.Next(e), es)
    ensures OwnsAll(s.Next(e), es, t, m) <==>
            forall k :: 0 <= k <= |es| ==> Releases(es[..k], t, m) <= Takes(es[..k], t, m)
  {
    GainedOnce(s, e, t, m);
    BooksNext(s, e);
    OwnedExactly(s.Next(e), es, t, m);
    assert Unmatched(1, es, t, m) <==>
           forall k :: 0 <= k <= |es| ==> Releases(es[..k], t, m) <= Takes(es[..k], t, m);
  }
}
