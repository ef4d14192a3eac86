/** Lists of runs of free pages, as values: what the page list of the slab allocator stands for. */
module PageRuns {
  // n pages from page at on
  datatype Run = Run(at: nat, n: nat) {
    function End(): nat { at + n }
  }

  ghost function Pages(a: nat, n: nat): (r: set<nat>)
    ensures forall x :: x in r <==> a <= x < a + n
  {
    if n == 0 then {} else Pages(a, n - 1) + {a + n - 1}
  }

  // The pages of all runs.
  ghost function Free(rs: seq<Run>): set<nat> {
    if rs == [] then {} else Pages(rs[0].at, rs[0].n) + Free(rs[1..])
  }

  // Sorted, none empty, no two adjacent.
  ghost predicate Well(rs: seq<Run>) {
    && (forall i {:trigger rs[i].n} :: 0 <= i < |rs| ==> rs[i].n > 0)
    && (forall i, j {:trigger rs[i].End(), rs[j].at} :: 0 <= i < j < |rs| ==> rs[i].End() < rs[j].at)
  }

  lemma {:induction false} FreeIs(rs: seq<Run>, x: nat)
    ensures x in Free(rs) <==> exists i :: 0 <= i < |rs| && rs[i].at <= x < rs[i].End()
  {
    if rs != [] {
      FreeIs(rs[1..], x);
      if x in Free(rs[1..]) {
        var i :| 0 <= i < |rs[1..]| && rs[1..][i].at <= x < rs[1..][i].End();
        assert rs[i + 1] == rs[1..][i];
      }
      if exists i :: 0 < i < |rs| && rs[i].at <= x < rs[i].End() {
        var i :| 0 < i < |rs| && rs[i].at <= x < rs[i].End();
        assert rs[1..][i - 1] == rs[i];
      }
    }
  }

  lemma {:induction false} FreeJoin(a: seq<Run>, b: seq<Run>)
    ensures Free(a + b) == Free(a) + Free(b)
  {
    if a == [] {
      assert a + b == b;
    } else {
      assert (a + b)[1..] == a[1..] + b;
      FreeJoin(a[1..], b);
    }
  }

  lemma {:induction false} FreeOne(r: Run)
    ensures Free([r]) == Pages(r.at, r.n)
  {
    assert [r][1..] == [] && Free([]) == {};
  }

  // The page behind a run is not free.
  lemma {:induction false} EndNotFree(rs: seq<Run>, i: nat)
    requires Well(rs) && i < |rs|
    ensures rs[i].End() !in Free(rs)
  {
    var e := rs[i].End();
    FreeIs(rs, e);
    forall j | 0 <= j < |rs|
      ensures !(rs[j].at <= e < rs[j].End())
    {
      if j < i {
        assert rs[j].End() < rs[i].at;
      } else if i < j {
        assert rs[i].End() < rs[j].at;
      }
    }
  }

  // A stretch of consecutive free pages lies in one run: neighbours are never both listed.
  lemma {:induction false} InOneRun(rs: seq<Run>, a: nat, n: nat) returns (i: nat)
    requires Well(rs) && n > 0 && Pages(a, n) <= Free(rs)
    ensures i < |rs| && rs[i].at <= a && a + n <= rs[i].End()
  {
    assert a in Pages(a, n);
    FreeIs(rs, a);
    i :| 0 <= i < |rs| && rs[i].at <= a < rs[i].End();
    EndNotFree(rs, i);
    assert rs[i].End() !in Pages(a, n);
  }

  // The runs are determined by the pages they hold.
  lemma {:induction false} Canonical(rs: seq<Run>, qs: seq<Run>)
    requires Well(rs) && Well(qs) && Free(rs) == Free(qs)
    ensures rs == qs
  {
    if rs == [] || qs == [] {
      if rs != [] { NotEmpty(rs); }
      if qs != [] { NotEmpty(qs); }
    } else {
      FirstsMeet(rs, qs);
      FirstsMeet(qs, rs);
      assert rs[0] == qs[0];
      TailFree(rs);
      TailFree(qs);
      Canonical(rs[1..], qs[1..]);
    }
  }

  lemma NotEmpty(rs: seq<Run>)
    requires Well(rs) && rs != []
    ensures Free(rs) != {}
  {
    assert rs[0].at in Pages(rs[0].at, rs[0].n);
  }

  lemma {:induction false} FirstsMeet(rs: seq<Run>, qs: seq<Run>)
    requires Well(rs) && Well(qs) && Free(rs) == Free(qs) && rs != [] && qs != []
    ensures qs[0].at <= rs[0].at && (rs[0].at == qs[0].at ==> rs[0].n <= qs[0].n)
  {
    assert Pages(rs[0].at, rs[0].n) <= Free(qs);
    var i := InOneRun(qs, rs[0].at, rs[0].n);
    assert i > 0 ==> qs[0].End() < qs[i].at;
  }

  lemma {:induction false} TailFree(rs: seq<Run>)
    requires Well(rs) && rs != []
    ensures Well(rs[1..]) && Free(rs[1..]) == Free(rs) - Pages(rs[0].at, rs[0].n)
  {
    var r := rs[1..];
    assert forall i {:trigger r[i]} :: 0 <= i < |r| ==> r[i] == rs[i + 1];
    forall x | x in Free(r)
      ensures x !in Pages(rs[0].at, rs[0].n)
    {
      FreeIs(r, x);
      var i :| 0 <= i < |r| && r[i].at <= x < r[i].End();
      assert rs[0].End() < rs[i + 1].at;
    }
  }

  // --- taking pages -----------------------------------------------------------------------------

  // The first run of at least n pages.
  function FirstFit(rs: seq<Run>, n: nat): (i: nat)
    ensures i <= |rs| && (i < |rs| ==> rs[i].n >= n) && forall j :: 0 <= j < i ==> rs[j].n < n
  {
    if rs == [] || rs[0].n >= n then 0 else 1 + FirstFit(rs[1..], n)
  }

  // Its first n pages are taken.
  function Taken(rs: seq<Run>, i: nat, n: nat): seq<Run>
    requires i < |rs| && n <= rs[i].n
  {
    if rs[i].n > n then rs[..i] + [Run(rs[i].at + n, rs[i].n - n)] + rs[i + 1..] else rs[..i] + rs[i + 1..]
  }

  // ms takes the place of the runs from lo to hi.
  function Spliced(rs: seq<Run>, lo: nat, hi: nat, ms: seq<Run>): seq<Run>
    requires lo <= hi <= |rs|
  {
    rs[..lo] + ms + rs[hi..]
  }

  lemma {:induction false} SplicedWell(rs: seq<Run>, lo: nat, hi: nat, m: Run)
    requires Well(rs) && lo <= hi <= |rs| && m.n > 0
    requires forall i :: 0 <= i < lo ==> rs[i].End() < m.at
    requires forall i :: hi <= i < |rs| ==> m.End() < rs[i].at
    ensures Well(Spliced(rs, lo, hi, [m]))
  {
    var g := Spliced(rs, lo, hi, [m]);
    forall i | 0 <= i < |g|
      ensures g[i] == if i < lo then rs[i] else if i == lo then m else rs[i - lo - 1 + hi]
    {
    }
  }

  lemma {:induction false} FreeThree(a: seq<Run>, b: seq<Run>, c: seq<Run>)
    ensures Free(a + b + c) == Free(a) + Free(b) + Free(c)
  {
    FreeJoin(a, b);
    FreeJoin(a + b, c);
  }

  lemma {:induction false} SplicedFree(rs: seq<Run>, lo: nat, hi: nat, ms: seq<Run>)
    requires lo <= hi <= |rs|
    ensures Free(Spliced(rs, lo, hi, ms)) == Free(rs[..lo]) + Free(ms) + Free(rs[hi..])
    ensures Free(rs) == Free(rs[..lo]) + Free(rs[lo..hi]) + Free(rs[hi..])
  {
    FreeThree(rs[..lo], ms, rs[hi..]);
    FreeThree(rs[..lo], rs[lo..hi], rs[hi..]);
    assert rs == rs[..lo] + rs[lo..hi] + rs[hi..];
  }

  lemma {:induction false} DroppedWell(rs: seq<Run>, i: nat)
    requires Well(rs) && i < |rs|
    ensures Well(rs[..i] + rs[i + 1..])
  {
    var t := rs[..i] + rs[i + 1..];
    forall k | 0 <= k < |t|
      ensures t[k] == rs[if k < i then k else k + 1]
    {
    }
  }

  lemma {:induction false} TakenWell(rs: seq<Run>, i: nat, n: nat)
    requires Well(rs) && i < |rs| && 0 < n <= rs[i].n
    ensures Well(Taken(rs, i, n))
  {
    if rs[i].n > n {
      var m := Run(rs[i].at + n, rs[i].n - n);
      assert m.End() == rs[i].End();
      forall k | 0 <= k < i
        ensures rs[k].End() < m.at
      {
        assert rs[k].End() < rs[i].at;
      }
      forall k | i + 1 <= k < |rs|
        ensures m.End() < rs[k].at
      {
        assert rs[i].End() < rs[k].at;
      }
      SplicedWell(rs, i, i + 1, m);
    } else {
      DroppedWell(rs, i);
    }
  }

  lemma {:induction false} TakenFree(rs: seq<Run>, i: nat, n: nat)
    requires Well(rs) && i < |rs| && 0 < n <= rs[i].n
    ensures Free(Taken(rs, i, n)) == Free(rs) - Pages(rs[i].at, n) && Pages(rs[i].at, n) <= Free(rs)
  {
    var rest := Run(rs[i].at + n, rs[i].n - n);
    var ms := if rs[i].n > n then [rest] else [];
    assert rs[i..i + 1] == [rs[i]];
    SplicedFree(rs, i, i + 1, ms);
    FreeOne(rs[i]);
    FreeOne(rest);
    OthersApart(rs, i);
    assert Taken(rs, i, n) == Spliced(rs, i, i + 1, ms);
    assert Pages(rs[i].at, rs[i].n) == Pages(rs[i].at, n) + Pages(rest.at, rest.n);
  }

  lemma {:induction false} OthersApart(rs: seq<Run>, i: nat)
    requires Well(rs) && i < |rs|
    ensures Free(rs[..i]) !! Pages(rs[i].at, rs[i].n) && Free(rs[i + 1..]) !! Pages(rs[i].at, rs[i].n)
  {
    forall x | x in Free(rs[..i]) + Free(rs[i + 1..])
      ensures x !in Pages(rs[i].at, rs[i].n)
    {
      FreeIs(rs[..i], x);
      FreeIs(rs[i + 1..], x);
      if x in Free(rs[..i]) {
        var j :| 0 <= j < |rs[..i]| && rs[..i][j].at <= x < rs[..i][j].End();
        assert rs[..i][j] == rs[j] && rs[j].End() < rs[i].at;
      } else {
        var j :| 0 <= j < |rs[i + 1..]| && rs[i + 1..][j].at <= x < rs[i + 1..][j].End();
        assert rs[i + 1..][j] == rs[i + 1 + j] && rs[i].End() < rs[i + 1 + j].at;
      }
    }
  }

  // n consecutive pages from a on are free, and no n consecutive pages from further down are.
  ghost predicate Lowest(free: set<nat>, a: nat, n: nat) {
    Pages(a, n) <= free && forall b: nat {:trigger Pages(b, n)} :: b < a ==> !(Pages(b, n) <= free)
  }

  lemma {:induction false} NotBefore(rs: seq<Run>, n: nat, a: nat)
    requires Well(rs) && n > 0 && Pages(a, n) <= Free(rs)
    ensures FirstFit(rs, n) < |rs| && rs[FirstFit(rs, n)].at <= a
  {
    var i := FirstFit(rs, n);
    var j := InOneRun(rs, a, n);
    assert i < j ==> rs[i].End() < rs[j].at;
  }

  // First fit finds the lowest place there is, if and only if there is one.
  lemma {:induction false} FitIsLowest(rs: seq<Run>, n: nat)
    requires Well(rs) && n > 0
    ensures var i := FirstFit(rs, n);
            if i < |rs| then Lowest(Free(rs), rs[i].at, n) else forall a {:trigger Pages(a, n)} ::
                !(Pages(a, n) <= Free(rs))
  {
    var i := FirstFit(rs, n);
    if i < |rs| {
      TakenFree(rs, i, n);
    }
    forall a: nat {:trigger Pages(a, n)} | Pages(a, n) <= Free(rs)
      ensures i < |rs| && rs[i].at <= a
    {
      NotBefore(rs, n, a);
    }
  }

  // --- giving pages back --------------------------------------------------------------------------

  // How many runs begin below page a.
  function Below(rs: seq<Run>, a: nat): (k: nat)
    ensures k <= |rs|
  {
    if rs == [] || rs[0].at > a then 0 else 1 + Below(rs[1..], a)
  }

  // Which runs the n pages from a on are adjacent to, and the run they make together.
  function Joins(rs: seq<Run>, a: nat, n: nat): (r: (nat, nat, Run))
    ensures r.0 <= r.1 <= |rs|
  {
    var k := Below(rs, a);
    var left := k > 0 && rs[k - 1].End() == a;
    var right := k < |rs| && rs[k].at == a + n;
    (if left then k - 1 else k, if right then k + 1 else k,
     Run(if left then rs[k - 1].at else a, (if left then rs[k - 1].n else 0) + n + (if right then rs[k].n else 0)))
  }

  // The run of n pages from a on joins the list, and its neighbours.
  function Given(rs: seq<Run>, a: nat, n: nat): seq<Run> {
    var (lo, hi, m) := Joins(rs, a, n);
    Spliced(rs, lo, hi, [m])
  }

  lemma {:induction false} BelowSplits(rs: seq<Run>, a: nat)
    requires Well(rs)
    ensures forall i :: 0 <= i < |rs| ==> (i < Below(rs, a) <==> rs[i].at <= a)
  {
    if rs != [] && rs[0].at <= a {
      TailFree(rs);
      BelowSplits(rs[1..], a);
      assert forall i :: 0 < i < |rs| ==> rs[i] == rs[1..][i - 1];
    } else {
      assert forall i :: 0 < i < |rs| ==> rs[0].End() < rs[i].at;
    }
  }

  // Given pages that are not free: the runs below end before them, the others begin behind them.
  lemma {:induction false} GivenBetween(rs: seq<Run>, a: nat, n: nat)
    requires Well(rs) && n > 0 && Pages(a, n) !! Free(rs)
    ensures var k := Below(rs, a);
            && (forall i :: 0 <= i < k ==> rs[i].End() <= a)
            && (forall i :: k <= i < |rs| ==> a + n <= rs[i].at)
  {
    BelowSplits(rs, a);
    forall i | 0 <= i < |rs|
      ensures if i < Below(rs, a) then rs[i].End() <= a else a + n <= rs[i].at
    {
      FreeIs(rs, a);
      FreeIs(rs, rs[i].at);
      assert a in Pages(a, n);
      assert rs[i].at in Free(rs);
      assert rs[i].at !in Pages(a, n);
    }
  }

  lemma {:induction false} GivenWell(rs: seq<Run>, a: nat, n: nat)
    requires Well(rs) && n > 0 && Pages(a, n) !! Free(rs)
    ensures Well(Given(rs, a, n))
  {
    var (lo, hi, m) := Joins(rs, a, n);
    var k := Below(rs, a);
    GivenBetween(rs, a, n);
    forall i | 0 <= i < lo
      ensures rs[i].End() < m.at
    {
      if i < k - 1 {
        assert rs[i].End() < rs[k - 1].at;
      }
    }
    forall i | hi <= i < |rs|
      ensures m.End() < rs[i].at
    {
      if k < i {
        assert rs[k].End() < rs[i].at;
      }
    }
    SplicedWell(rs, lo, hi, m);
  }

  lemma {:induction false} GivenFree(rs: seq<Run>, a: nat, n: nat)
    requires Well(rs) && n > 0 && Pages(a, n) !! Free(rs)
    ensures Free(Given(rs, a, n)) == Free(rs) + Pages(a, n)
  {
    var (lo, hi, m) := Joins(rs, a, n);
    SplicedFree(rs, lo, hi, [m]);
    FreeOne(m);
    Merged(rs, lo, hi, a, n, m);
  }

  lemma {:induction false} Merged(rs: seq<Run>, lo: nat, hi: nat, a: nat, n: nat, m: Run)
    requires lo <= hi <= |rs| && hi <= lo + 2
    requires hi == lo ==> m == Run(a, n)
    requires hi == lo + 1 ==>
      || (rs[lo].End() == a && m == Run(rs[lo].at, rs[lo].n + n))
      || (rs[lo].at == a + n && m == Run(a, n + rs[lo].n))
    requires hi == lo + 2 ==>
      && rs[lo].End() == a && a + n == rs[lo + 1].at
      && m == Run(rs[lo].at, rs[lo].n + n + rs[lo + 1].n)
    ensures Pages(m.at, m.n) == Free(rs[lo..hi]) + Pages(a, n)
  {
    if hi == lo {
      assert rs[lo..hi] == [];
    } else if hi == lo + 1 {
      assert rs[lo..hi] == [rs[lo]];
      FreeOne(rs[lo]);
    } else {
      assert rs[lo..hi] == [rs[lo]] + [rs[lo + 1]];
      FreeJoin([rs[lo]], [rs[lo + 1]]);
      FreeOne(rs[lo]);
      FreeOne(rs[lo + 1]);
    }
  }

  // Giving back what was taken restores the list itself, not just the set of free pages.
  lemma {:induction false} TakeGive(rs: seq<Run>, n: nat)
    requires Well(rs) && n > 0 && FirstFit(rs, n) < |rs|
    ensures var i := FirstFit(rs, n); Given(Taken(rs, i, n), rs[i].at, n) == rs
  {
    var i := FirstFit(rs, n);
    var t, a := Taken(rs, i, n), rs[i].at;
    TakenWell(rs, i, n);
    TakenFree(rs, i, n);
    GivenWell(t, a, n);
    GivenFree(t, a, n);
    assert Free(Given(t, a, n)) == Free(rs);
    Canonical(Given(t, a, n), rs);
  }
}
