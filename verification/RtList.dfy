/** rt_list: nodes linked in a ring both ways. All waiting lists, ready queues and timer rows
    are such rings; a ring that begins with its list head stands for the sequence of the
    others. Nodes are named by numbers. */
module RtList {
  import opened Lists

  // The node behind place i of the ring r.
  function Succ(r: seq<nat>, i: nat): nat
    requires i < |r|
  {
    r[if i + 1 < |r| then i + 1 else 0]
  }

  datatype Links = Links(next: seq<nat>, prev: seq<nat>) {
    // The node at place i and the one behind it point to each other.
    ghost predicate Linked(r: seq<nat>, i: nat)
      requires i < |r|
    {
      var x, y := r[i], Succ(r, i);
      x < |next| && y < |prev| && next[x] == y && prev[y] == x
    }

    ghost predicate Ring(r: seq<nat>) {
      |next| == |prev| && r != [] && Distinct(r) && forall i {:trigger Linked(r, i)} :: 0 <= i < |r| ==> Linked(r, i)
    }

    // n comes between x and y; the links are set in this order.
    ghost function Between(x: nat, n: nat, y: nat): Links
      requires x < |next| == |prev| && n < |next| && y < |next|
    {
      Links(next[n := y][x := n], prev[y := n][n := x])
    }

    // What is between x and y is left out and points to itself.
    ghost function Bridged(x: nat, n: nat, y: nat): Links
      requires x < |next| == |prev| && n < |next| && y < |next|
    {
      Links(next[x := y][n := n], prev[y := x][n := n])
    }
  }

  lemma {:induction false} InsertRing(l: Links, r: seq<nat>, i: nat, n: nat)
    requires l.Ring(r) && i < |r| && n !in r && n < |l.next|
    ensures l.Linked(r, i) && l.Between(r[i], n, Succ(r, i)).Ring(Ins(r, i + 1, n))
  {
    assert l.Linked(r, i);
    var u, s := l.Between(r[i], n, Succ(r, i)), Ins(r, i + 1, n);
    InsDistinct(r, i + 1, n);
    forall k | 0 <= k < |s|
      ensures u.Linked(s, k)
    {
      if k < i {
        assert l.Linked(r, k) && s[k] == r[k] && Succ(s, k) == r[k + 1];
      } else if k > i + 1 {
        assert l.Linked(r, k - 1) && s[k] == r[k - 1] && Succ(s, k) == Succ(r, k - 1);
      }
    }
  }

  // In a ring no two nodes have the same next one, and none is its own but a node alone.
  lemma {:induction false} OnePrevious(l: Links, s: seq<nat>, i: nat, j: nat)
    requires l.Ring(s) && i < |s| && j < |s| && s[i] < |l.next| && s[j] < |l.next|
    requires l.next[s[i]] == l.next[s[j]]
    ensures i == j && (l.next[s[i]] == s[i] ==> |s| == 1)
  {
    assert l.Linked(s, i) && l.Linked(s, j);
    assert Succ(s, i) == s[if i + 1 < |s| then i + 1 else 0];
  }

  // Inserting a node that is not the list head behind another one gives a ring of them all if and
  // only if the node was not in the ring already.
  lemma {:induction false} InsertExactly(l: Links, r: seq<nat>, i: nat, n: nat)
    requires l.Ring(r) && i < |r| && n < |l.next| && n != r[0]
    ensures l.Linked(r, i)
    ensures (exists s :: l.Between(r[i], n, Succ(r, i)).Ring(s) && SetOf(s) == SetOf(r) + {n}) <==> n !in r
  {
    assert l.Linked(r, i);
    var u := l.Between(r[i], n, Succ(r, i));
    if n in r {
      var k :| 0 < k < |r| && r[k] == n;
      assert l.Linked(r, k);
      forall s
        ensures !(u.Ring(s) && SetOf(s) == SetOf(r) + {n})
      {
        InsertedTwice(l, r, i, k, s);
      }
    } else {
      InsertRing(l, r, i, n);
      InsDistinct(r, i + 1, n);
    }
  }

  lemma {:induction false} InsertedTwice(l: Links, r: seq<nat>, i: nat, k: nat, s: seq<nat>)
    requires l.Ring(r) && i < |r| && 0 < k < |r| && r[k] < |l.next| && l.Linked(r, i)
    ensures !(l.Between(r[i], r[k], Succ(r, i)).Ring(s) && SetOf(s) == SetOf(r) + {r[k]})
  {
    var u, n := l.Between(r[i], r[k], Succ(r, i)), r[k];
    assert l.Linked(r, k - 1) && l.Linked(r, k);
    if u.Ring(s) && SetOf(s) == SetOf(r) + {n} {
      assert r[k - 1] in SetOf(s) && r[i] in SetOf(s) && n in SetOf(s);
      var a :| 0 <= a < |s| && s[a] == r[k - 1];
      var b :| 0 <= b < |s| && s[b] == r[i];
      var c :| 0 <= c < |s| && s[c] == n;
      if i == k || i == k - 1 {
        OnePrevious(u, s, c, c);
      } else {
        OnePrevious(u, s, a, b);
      }
    }
  }

  lemma {:induction false} RemoveRing(l: Links, r: seq<nat>, i: nat)
    requires l.Ring(r) && 0 < i < |r|
    ensures l.Linked(r, i) && l.Linked(r, i - 1)
    ensures var u := l.Bridged(r[i - 1], r[i], Succ(r, i)); u.Ring(Del(r, r[i])) && u.Ring([r[i]])
  {
    assert l.Linked(r, i) && l.Linked(r, i - 1);
    var u, s := l.Bridged(r[i - 1], r[i], Succ(r, i)), Del(r, r[i]);
    DelAt(r, i);
    DelDistinct(r, r[i]);
    forall k | 0 <= k < |s|
      ensures u.Linked(s, k)
    {
      var j := if k < i then k else k + 1;
      assert l.Linked(r, j) && s[k] == r[j];
      assert Succ(s, k) == if k == i - 1 then Succ(r, i) else Succ(r, j);
    }
    assert u.Linked([r[i]], 0);
  }

  class Nodes {
    const next: array<nat>
    const prev: array<nat>

    ghost function Abs(): Links
      reads next, prev
    {
      Links(next[..], prev[..])
    }

    // Two different arrays
    ghost predicate Valid() { next != prev && next.Length == prev.Length }

    constructor (n: nat)
      ensures Valid() && next.Length == n && fresh(next) && fresh(prev)
    {
      next, prev := new nat[n], new nat[n];
    }

    // rt_list_init
    method Init(l: nat)
      requires Valid() && l < next.Length
      modifies next, prev
      ensures Abs().Ring([l])
    {
      next[l], prev[l] := l, l;
      assert Abs().Linked([l], 0);
    }

    // rt_list_insert_after: n comes right behind l
    method InsertAfter(l: nat, n: nat, ghost r: seq<nat>, ghost i: nat)
      requires Valid() && Abs().Ring(r) && i < |r| && l == r[i] && n !in r && n < next.Length
      modifies next, prev
      ensures Abs().Ring(Ins(r, i + 1, n))
    {
      InsertRing(Abs(), r, i, n);
      ghost var u := Abs().Between(l, n, Succ(r, i));
      prev[next[l]] := n;
      next[n] := next[l];
      next[l] := n;
      prev[n] := l;
      assert Abs().next == u.next && Abs().prev == u.prev;
    }

    // rt_list_insert_before: n comes right in front of l; in front of the list head is the end
    // of the list
    method InsertBefore(l: nat, n: nat, ghost r: seq<nat>, ghost i: nat)
      requires Valid() && Abs().Ring(r) && i < |r| && l == r[i] && n !in r && n < next.Length
      modifies next, prev
      ensures Abs().Ring(if i == 0 then r + [n] else Ins(r, i, n))
    {
      ghost var j := if i == 0 then |r| - 1 else i - 1;
      InsertRing(Abs(), r, j, n);
      assert Ins(r, |r|, n) == r + [n] && Succ(r, j) == l;
      ghost var u := Abs().Between(r[j], n, l);
      next[prev[l]] := n;
      prev[n] := prev[l];
      prev[l] := n;
      next[n] := l;
      assert Abs().next == u.next && Abs().prev == u.prev;
    }

    // rt_list_remove: the others stay a ring, and n is one of its own
    method Remove(n: nat, ghost r: seq<nat>, ghost i: nat)
      requires Valid() && Abs().Ring(r) && 0 < i < |r| && n == r[i]
      modifies next, prev
      ensures Abs().Ring(Del(r, n)) && Abs().Ring([n])
    {
      RemoveRing(Abs(), r, i);
      ghost var u := Abs().Bridged(r[i - 1], n, Succ(r, i));
      prev[next[n]] := prev[n];
      next[prev[n]] := next[n];
      next[n], prev[n] := n, n;
      assert Abs().next == u.next && Abs().prev == u.prev;
    }

    // A node that is in no list may be removed again.
    method RemoveAlone(n: nat)
      requires Valid() && Abs().Ring([n])
      modifies next, prev
      ensures Abs() == old(Abs())
    {
      assert Abs().Linked([n], 0);
      prev[next[n]] := prev[n];
      next[prev[n]] := next[n];
      next[n], prev[n] := n, n;
      assert Abs().next == old(Abs()).next && Abs().prev == old(Abs()).prev;
    }
  }
}
