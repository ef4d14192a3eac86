/** Whose turn it is: over a whole history of a waiting list nobody is resumed before a thread that
    stands in front of it. */
module WaitTurn {
  import opened Lists

  // What one event does to a waiting list, and which threads it resumes.
  datatype Change = Change(before: seq<nat>, resumed: set<nat>, after: seq<nat>)

  ghost predicate Ahead(list: seq<nat>, x: nat, y: nat) {
    exists i, j :: 0 <= i < j < |list| && list[i] == x && list[j] == y
  }

  // Whoever is resumed leaves from the front, and those who go on waiting keep their order.
  ghost predicate Fair(c: Change) {
    && Distinct(c.before)
    && (forall y :: y in c.resumed && y in c.before ==> c.before[0] == y && y !in c.after)
    && (forall x, y :: Ahead(c.before, x, y) && x in c.after && y in c.after ==> Ahead(c.after, x, y))
  }

  // Each change begins where the one before ended.
  ghost predicate History(h: seq<Change>) {
    && (forall i :: 0 <= i < |h| ==> Fair(h[i]))
    && (forall i, j :: 0 <= i && j == i + 1 && j < |h| ==> h[i].after == h[j].before)
  }

  lemma {:induction false} HistoryMore(c: Change, h: seq<Change>)
    requires Fair(c) && History(h) && (h != [] ==> c.after == h[0].before)
    ensures History([c] + h)
  {
    forall i, j | 0 <= i && j == i + 1 && j < |[c] + h|
      ensures ([c] + h)[i].after == ([c] + h)[j].before
    {
      if i > 0 {
        assert h[i - 1].after == h[j - 1].before;
      }
    }
  }

  // If y is resumed while it has waited all along, and x stood in front of it at the beginning and
  // did not give up, then x was resumed before.
  lemma {:induction false} NoOvertaking(h: seq<Change>, x: nat, y: nat, i: nat)
    requires History(h) && i < |h| && Ahead(h[0].before, x, y)
    requires y in h[i].resumed && forall j :: 0 <= j <= i ==> y in h[j].before
    requires forall j :: 0 <= j < i && x in h[j].before && x !in h[j].after ==> x in h[j].resumed
    ensures exists j :: 0 <= j < i && x in h[j].resumed
  {
    FrontFirst(h[i].before, x, y);
    if forall j :: 0 <= j < i ==> x !in h[j].resumed {
      StillBehind(h, x, y, i);
    }
  }

  lemma {:induction false} FrontFirst(list: seq<nat>, x: nat, y: nat)
    requires Distinct(list) && list != []
    ensures Ahead(list, x, y) ==> list[0] != y
  {
  }

  lemma {:induction false} StillBehind(h: seq<Change>, x: nat, y: nat, i: nat)
    requires History(h) && i < |h| && Ahead(h[0].before, x, y)
    requires forall j :: 0 <= j <= i ==> y in h[j].before
    requires forall j :: 0 <= j < i && x in h[j].before ==> x in h[j].after
    ensures Ahead(h[i].before, x, y)
  {
    if i > 0 {
      StillBehind(h, x, y, i - 1);
      assert x in h[i - 1].before && h[i - 1].after == h[i].before;
    }
  }

  // --- the ways a list changes --------------------------------------------------------------------

  lemma {:induction false} NobodyLeaves(list: seq<nat>)
    requires Distinct(list)
    ensures Fair(Change(list, {}, list))
  {
  }

  lemma {:induction false} OneJoins(list: seq<nat>, k: nat, t: nat)
    requires Distinct(list) && k <= |list|
    ensures Fair(Change(list, {}, Ins(list, k, t)))
  {
    var r := Ins(list, k, t);
    forall x, y | Ahead(list, x, y)
      ensures Ahead(r, x, y)
    {
      var i, j :| 0 <= i < j < |list| && list[i] == x && list[j] == y;
      assert r[if i < k then i else i + 1] == x && r[if j < k then j else j + 1] == y;
    }
  }

  lemma {:induction false} OneGivesUp(list: seq<nat>, t: nat)
    requires Distinct(list)
    ensures Fair(Change(list, {}, Del(list, t)))
  {
    DelMember(list, t, t);
    if t in list {
      var k :| 0 <= k < |list| && list[k] == t;
      DelAt(list, k);
      forall x, y | Ahead(list, x, y) && x in Del(list, t) && y in Del(list, t)
        ensures Ahead(Del(list, t), x, y)
      {
        AheadWithout(list, k, x, y);
      }
    } else {
      DelAbsent(list, t);
    }
  }

  lemma {:induction false} AheadWithout(list: seq<nat>, k: nat, x: nat, y: nat)
    requires k < |list| && Ahead(list, x, y) && x != list[k] && y != list[k]
    ensures Ahead(list[..k] + list[k + 1..], x, y)
  {
    var r := list[..k] + list[k + 1..];
    var i, j :| 0 <= i < j < |list| && list[i] == x && list[j] == y;
    assert r[if i < k then i else i - 1] == x && r[if j < k then j else j - 1] == y;
  }

  lemma {:induction false} FirstResumed(list: seq<nat>)
    requires Distinct(list) && list != []
    ensures Fair(Change(list, {list[0]}, list[1..]))
  {
    var r := list[1..];
    forall x, y | Ahead(list, x, y) && x in r && y in r
      ensures Ahead(r, x, y)
    {
      var i, j :| 0 <= i < j < |list| && list[i] == x && list[j] == y;
      assert r[i - 1] == x && r[j - 1] == y;
    }
  }

  lemma {:induction false} AllLetGo(list: seq<nat>)
    requires Distinct(list)
    ensures Fair(Change(list, {}, []))
  {
  }
}
