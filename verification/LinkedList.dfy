/** Singly linked lists of numbered cells: the next fields, one sequence for all cells. */
module LinkedList {
  import opened Lists

  const NULL := -1

  function At(s: seq<nat>, i: nat): int { if i < |s| then s[i] else NULL }

  // The list s starts at h and goes on along next.
  ghost predicate Walk(h: int, s: seq<nat>, next: seq<int>) {
    && h == At(s, 0)
    && forall i {:trigger s[i]} :: 0 <= i < |s| ==> s[i] < |next| && next[s[i]] == At(s, i + 1)
  }

  lemma {:induction false} WalkOn(h: int, s: seq<nat>, next: seq<int>)
    requires Walk(h, s, next) && s != []
    ensures h == s[0] && s[0] < |next| && Walk(next[s[0]], s[1..], next)
  {
    assert forall i {:trigger s[1..][i]} :: 0 <= i < |s[1..]| ==> s[1..][i] == s[i + 1];
  }

  lemma {:induction false} WalkPush(h: int, s: seq<nat>, next: seq<int>, x: nat)
    requires Walk(h, s, next) && x !in SetOf(s) && x < |next|
    ensures Walk(x, [x] + s, next[x := h])
  {
    assert forall i :: 0 <= i < |s| ==> s[i] in SetOf(s);
  }

  lemma {:induction false} WalkApart(h: int, s: seq<nat>, next: seq<int>, x: nat, v: int)
    requires Walk(h, s, next) && x !in SetOf(s) && x < |next|
    ensures Walk(h, s, next[x := v])
  {
    assert forall i :: 0 <= i < |s| ==> s[i] in SetOf(s);
  }

  lemma {:induction false} WalkAppend(h: int, s: seq<nat>, next: seq<int>, x: nat, tail: int)
    requires Walk(h, s, next) && Distinct(s) && x !in SetOf(s) && x < |next| && next[x] == NULL
    requires tail == if s == [] then NULL else s[|s| - 1]
    ensures Walk(if s == [] then x else h, s + [x], if s == [] then next else next[tail := x])
  {
    assert forall i :: 0 <= i < |s| ==> s[i] in SetOf(s);
  }
}
