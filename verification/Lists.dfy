/** Sequences of numbers without repetitions: lists of threads, timers and slots. */
module Lists {
  ghost predicate Distinct(s: seq<nat>) { forall i, j :: 0 <= i < j < |s| ==> s[i] != s[j] }

  ghost function SetOf(s: seq<nat>): set<nat> { set x | x in s }

  ghost function Range(n: nat): set<nat> { if n == 0 then {} else Range(n - 1) + {n - 1} }

  function Del(s: seq<nat>, x: nat): seq<nat> {
    if s == [] then [] else (if s[0] == x then [] else [s[0]]) + Del(s[1..], x)
  }

  function Ins(s: seq<nat>, p: nat, x: nat): seq<nat>
    requires p <= |s|
  {
    s[..p] + [x] + s[p..]
  }

  lemma {:induction false} DelMember(s: seq<nat>, x: nat, u: nat)
    ensures u in Del(s, x) <==> u in s && u != x
  {
    if s != [] {
      DelMember(s[1..], x, u);
      assert s == [s[0]] + s[1..];
    }
  }

  // What Del does to a row: x is gone, the others stay in order.
  lemma {:induction false} DelAbsent(s: seq<nat>, x: nat)
    requires x !in s
    ensures Del(s, x) == s
  {
    if s != [] {
      assert s[0] in s && x !in s[1..];
      DelAbsent(s[1..], x);
    }
  }

  lemma {:induction false} DelAt(s: seq<nat>, k: nat)
    requires k < |s| && Distinct(s)
    ensures Del(s, s[k]) == s[..k] + s[k + 1..]
  {
    if k == 0 {
      DelAbsent(s[1..], s[0]);
    } else {
      DelAt(s[1..], k - 1);
      assert s[0] != s[k] && s[1..][k - 1] == s[k];
      assert s[..k] == [s[0]] + s[1..][..k - 1] && s[k + 1..] == s[1..][k..];
    }
  }

  lemma {:induction false} InsAt(s: seq<nat>, p: nat, x: nat, i: nat)
    requires p <= |s| && i <= |s|
    ensures Ins(s, p, x)[i] == if i < p then s[i] else if i == p then x else s[i - 1]
  {
  }

  lemma {:induction false} InsMembers(s: seq<nat>, p: nat, x: nat)
    requires p <= |s|
    ensures forall u :: u in Ins(s, p, x) <==> u == x || u in s
  {
    assert s == s[..p] + s[p..];
  }

  lemma {:induction false} TailOf(s: seq<nat>)
    requires s != [] && Distinct(s)
    ensures Distinct(s[1..]) && SetOf(s[1..]) == SetOf(s) - {s[0]} && s[0] in SetOf(s)
  {
    assert s == [s[0]] + s[1..];
    forall i | 0 <= i < |s[1..]|
      ensures s[1..][i] != s[0]
    {
      assert s[1..][i] == s[i + 1];
    }
  }

  lemma {:induction false} InsDistinct(s: seq<nat>, p: nat, x: nat)
    requires p <= |s| && Distinct(s) && x !in s
    ensures Distinct(Ins(s, p, x)) && SetOf(Ins(s, p, x)) == SetOf(s) + {x}
  {
    var r := Ins(s, p, x);
    InsMembers(s, p, x);
    forall i, j | 0 <= i < j < |r|
      ensures r[i] != r[j]
    {
      InsAt(s, p, x, i);
      InsAt(s, p, x, j);
    }
  }

  lemma {:induction false} DelDistinct(s: seq<nat>, x: nat)
    requires Distinct(s)
    ensures Distinct(Del(s, x)) && SetOf(Del(s, x)) == SetOf(s) - {x}
    ensures |Del(s, x)| == if x in s then |s| - 1 else |s|
  {
    forall y
      ensures y in Del(s, x) <==> y in s && y != x
    {
      DelMember(s, x, y);
    }
    if x in s {
      var k :| 0 <= k < |s| && s[k] == x;
      DelAt(s, k);
    } else {
      DelAbsent(s, x);
    }
  }

  lemma {:induction false} Length(s: seq<nat>)
    requires Distinct(s)
    ensures |SetOf(s)| == |s|
  {
    if s == [] {
      assert SetOf(s) == {};
    } else {
      TailOf(s);
      Length(s[1..]);
    }
  }

  lemma {:induction false} InRange(n: nat, x: nat)
    ensures x in Range(n) <==> x < n
  {
    if n > 0 {
      InRange(n - 1, x);
    }
  }

  lemma {:induction false} RangeSize(n: nat)
    ensures |Range(n)| == n
  {
    if n > 0 {
      RangeSize(n - 1);
      InRange(n - 1, n - 1);
    }
  }

  lemma {:induction false} Append(s: seq<nat>, x: nat)
    requires Distinct(s) && x !in SetOf(s)
    ensures Distinct(s + [x]) && SetOf(s + [x]) == SetOf(s) + {x}
    ensures Distinct([x] + s) && SetOf([x] + s) == SetOf(s) + {x}
  {
    InsDistinct(s, |s|, x);
    InsDistinct(s, 0, x);
    assert Ins(s, |s|, x) == s + [x] && Ins(s, 0, x) == [x] + s;
  }
}
