/** The rows of the timer skip list, as pure values. Timers are named by numbers. A row is
    the bottom row without the timers that are too low for it: top[t] is the first row
    timer t is linked into. */
module TimerRows {
  import opened Division
  import opened Lists

  const TICKS := 0x1_0000_0000
  const HALF := 0x7fff_ffff       // RT_TICK_MAX / 2

  // the wrap-around difference of two ticks
  function Diff(a: int, b: int): (d: int)
    ensures 0 <= d < TICKS
  {
    (a - b) % TICKS
  }

  // Does the search for deadline d go past a timer with deadline x?
  predicate Passes(x: int, d: int) { Diff(x, d) == 0 || Diff(x, d) >= HALF }

  // the deadline of timer t
  function Due(at: seq<int>, t: nat): int { if t < |at| then at[t] else 0 }

  // Where a linear scan for deadline d stops.
  ghost function StopAt(s: seq<nat>, at: seq<int>, d: int): (p: nat)
    ensures p <= |s|
  {
    if s == [] || !Passes(Due(at, s[0]), d) then 0 else 1 + StopAt(s[1..], at, d)
  }

  // Once the scan would stop, it stops at every later timer too.
  ghost predicate Steady(s: seq<nat>, at: seq<int>, d: int) {
    forall i, j :: 0 <= i < j < |s| && Passes(Due(at, s[j]), d) ==> Passes(Due(at, s[i]), d)
  }

  ghost function Filter(s: seq<nat>, top: seq<nat>, l: int): seq<nat> {
    if s == [] then []
    else (if s[0] < |top| && top[s[0]] <= l then [s[0]] else []) + Filter(s[1..], top, l)
  }

  lemma {:induction false} StopAtSplits(s: seq<nat>, at: seq<int>, d: int)
    requires Steady(s, at, d)
    ensures forall i :: 0 <= i < |s| ==> (Passes(Due(at, s[i]), d) <==> i < StopAt(s, at, d))
  {
    if s != [] && Passes(Due(at, s[0]), d) {
      StopAtSplits(s[1..], at, d);
      forall i | 0 < i < |s|
        ensures Passes(Due(at, s[i]), d) <==> i < StopAt(s, at, d)
      {
        assert s[i] == s[1..][i - 1];
      }
    }
  }

  lemma {:induction false} StopAtLeast(s: seq<nat>, at: seq<int>, d: int, n: nat)
    requires n <= |s| && forall i :: 0 <= i < n ==> Passes(Due(at, s[i]), d)
    ensures n <= StopAt(s, at, d)
  {
    if n > 0 {
      StopAtLeast(s[1..], at, d, n - 1);
    }
  }

  lemma {:induction false} StopAtPasses(s: seq<nat>, at: seq<int>, d: int, i: nat)
    requires i < StopAt(s, at, d)
    ensures Passes(Due(at, s[i]), d)
  {
    if i > 0 {
      StopAtPasses(s[1..], at, d, i - 1);
    }
  }

  // Deleting behind the first n elements leaves them alone.
  lemma {:induction false} DelBehind(s: seq<nat>, x: nat, n: nat)
    requires n <= |s| && x !in s[..n]
    ensures n <= |Del(s, x)| && Del(s, x)[..n] == s[..n]
  {
    if n > 0 {
      assert s[0] == s[..n][0] && s[1..][..n - 1] == s[..n][1..];
      assert forall u :: u in s[1..][..n - 1] ==> u in s[..n];
      DelBehind(s[1..], x, n - 1);
      assert s[0] != x;
      assert Del(s, x) == [s[0]] + Del(s[1..], x);
      assert Del(s, x)[..n] == [s[0]] + Del(s[1..], x)[..n - 1];
    }
  }

  lemma {:induction false} FilterMember(s: seq<nat>, top: seq<nat>, l: int, x: nat)
    ensures x in Filter(s, top, l) <==> x in s && x < |top| && top[x] <= l
  {
    if s != [] {
      FilterMember(s[1..], top, l, x);
      assert s == [s[0]] + s[1..];
    }
  }

  lemma {:induction false} FilterSub(s: seq<nat>, top: seq<nat>, l: int)
    ensures forall i :: 0 <= i < |Filter(s, top, l)| ==> Filter(s, top, l)[i] in s
  {
    forall i | 0 <= i < |Filter(s, top, l)|
      ensures Filter(s, top, l)[i] in s
    {
      FilterMember(s, top, l, Filter(s, top, l)[i]);
    }
  }

  lemma {:induction false} FilterConcat(s: seq<nat>, r: seq<nat>, top: seq<nat>, l: int)
    ensures Filter(s + r, top, l) == Filter(s, top, l) + Filter(r, top, l)
  {
    if s == [] {
      assert s + r == r;
    } else {
      assert (s + r)[1..] == s[1..] + r;
      FilterConcat(s[1..], r, top, l);
    }
  }

  // A row none of whose timers changes height stays the row it is.
  lemma {:induction false} FilterSame(s: seq<nat>, top: seq<nat>, up: seq<nat>, l: int)
    requires |up| == |top| && forall t :: t in s && t < |top| ==> up[t] == top[t]
    ensures Filter(s, up, l) == Filter(s, top, l)
  {
    if s != [] {
      assert forall t :: t in s[1..] ==> t in s;
      FilterSame(s[1..], top, up, l);
    }
  }

  lemma {:induction false} FilterOne(x: nat, top: seq<nat>, l: int)
    ensures Filter([x], top, l) == if x < |top| && top[x] <= l then [x] else []
  {
    assert Filter([x], top, l) == (if x < |top| && top[x] <= l then [x] else []) + Filter([], top, l);
  }

  lemma {:induction false} FilterDel(s: seq<nat>, top: seq<nat>, l: int, x: nat)
    ensures Filter(Del(s, x), top, l) == Del(Filter(s, top, l), x)
  {
    if s != [] {
      FilterDel(s[1..], top, l, x);
      var head := if s[0] < |top| && top[s[0]] <= l then [s[0]] else [];
      DelConcat(head, Filter(s[1..], top, l), x);
      DelOne(s[0], x);
      if s[0] != x {
        FilterConcat([s[0]], Del(s[1..], x), top, l);
        FilterOne(s[0], top, l);
        assert Del(s, x) == [s[0]] + Del(s[1..], x);
      } else {
        assert Del(s, x) == Del(s[1..], x);
        assert Del(head, x) == [];
      }
    }
  }

  lemma {:induction false} DelOne(y: nat, x: nat)
    ensures Del([y], x) == if y == x then [] else [y]
  {
    assert Del([y], x) == (if y == x then [] else [y]) + Del([], x);
  }

  lemma {:induction false} DelConcat(s: seq<nat>, r: seq<nat>, x: nat)
    ensures Del(s + r, x) == Del(s, x) + Del(r, x)
  {
    if s == [] {
      assert s + r == r;
    } else {
      assert (s + r)[1..] == s[1..] + r;
      DelConcat(s[1..], r, x);
    }
  }

  // Deleting the first element of a row.
  lemma {:induction false} DelFirst(s: seq<nat>, left: seq<nat>)
    requires Distinct(s) && left != [] && left <= s
    ensures left[0] !in Del(s, left[0]) && left[0] !in left[1..] && left[1..] <= Del(s, left[0])
  {
    assert s[0] == left[0];
    DelAbsent(s[1..], s[0]);
    assert Del(s, s[0]) == s[1..];
    assert forall i :: 0 <= i < |left[1..]| ==> left[1..][i] == s[i + 1];
  }

  // The linear scan of a row stops right behind the timers that the scan of the bottom
  // row passes and that are high enough for the row.
  lemma {:induction false} StopAtFilter(s: seq<nat>, at: seq<int>, d: int, top: seq<nat>, l: int)
    requires Steady(s, at, d)
    ensures StopAt(Filter(s, top, l), at, d) == |Filter(s[..StopAt(s, at, d)], top, l)|
  {
    if s != [] {
      var p := StopAt(s, at, d);
      if p > 0 {
        StopAtFilter(s[1..], at, d, top, l);
        assert s[..p][1..] == s[1..][..p - 1];
        assert Filter(s, top, l)[|Filter(s, top, l)| - |Filter(s[1..], top, l)|..] == Filter(s[1..], top, l);
      } else {
        StopAtSplits(s, at, d);
        forall t | t in Filter(s, top, l)
          ensures !Passes(Due(at, t), d)
        {
          FilterMember(s, top, l, t);
        }
        var f := Filter(s, top, l);
        assert f != [] ==> f[0] in f;
      }
    }
  }

  // Inserting into the bottom row where its scan stops is inserting into every row x is
  // high enough for where that row's own scan stops.
  lemma {:induction false} FilterIns(s: seq<nat>, at: seq<int>, d: int, top: seq<nat>, l: int, x: nat)
    requires Steady(s, at, d) && x < |top|
    ensures Filter(Ins(s, StopAt(s, at, d), x), top, l) ==
            if top[x] <= l then Ins(Filter(s, top, l), StopAt(Filter(s, top, l), at, d), x) else Filter(s, top, l)
  {
    var p := StopAt(s, at, d);
    StopAtFilter(s, at, d, top, l);
    assert s == s[..p] + s[p..];
    FilterConcat(s[..p], s[p..], top, l);
    FilterConcat(s[..p] + [x], s[p..], top, l);
    FilterConcat(s[..p], [x], top, l);
    FilterOne(x, top, l);
    InsSplit(Filter(s[..p], top, l), Filter(s[p..], top, l), x);
    assert Filter(s[..p], top, l) + [] == Filter(s[..p], top, l);
  }

  lemma InsSplit(a: seq<nat>, b: seq<nat>, x: nat)
    ensures Ins(a + b, |a|, x) == (a + [x]) + b
  {
  }

  // Every row splits where its own scan stops.
  lemma {:induction false} RowSplits(s: seq<nat>, at: seq<int>, d: int, top: seq<nat>, l: int)
    requires Steady(s, at, d)
    ensures var f := Filter(s, top, l);
            forall i :: 0 <= i < |f| ==> (Passes(Due(at, f[i]), d) <==> i < StopAt(f, at, d))
  {
    var p, f := StopAt(s, at, d), Filter(s, top, l);
    StopAtFilter(s, at, d, top, l);
    StopAtSplits(s, at, d);
    assert s == s[..p] + s[p..];
    FilterConcat(s[..p], s[p..], top, l);
    var g, h := Filter(s[..p], top, l), Filter(s[p..], top, l);
    forall i | 0 <= i < |f|
      ensures Passes(Due(at, f[i]), d) <==> i < |g|
    {
      if i < |g| {
        assert f[i] == g[i] && g[i] in g;
        FilterMember(s[..p], top, l, g[i]);
        var j :| 0 <= j < p && s[j] == g[i];
      } else {
        assert f[i] == h[i - |g|] && h[i - |g|] in h;
        FilterMember(s[p..], top, l, f[i]);
        var j :| 0 <= j < |s[p..]| && s[p..][j] == f[i];
        assert s[p + j] == f[i];
      }
    }
  }

  // The place behind x in the row s: where the search goes on one row further down.
  function Behind(s: seq<nat>, x: nat): (p: nat)
    requires x in s
    ensures 0 < p <= |s| && s[p - 1] == x
  {
    if s[0] == x then 1 else 1 + Behind(s[1..], x)
  }

  // Stepping down from a timer the scan has passed never goes past the stop below.
  lemma {:induction false} StepDown(s: seq<nat>, at: seq<int>, d: int, top: seq<nat>, l: int, p: nat)
    requires Steady(s, at, d) && 0 < p <= StopAt(Filter(s, top, l), at, d)
    ensures var x := Filter(s, top, l)[p - 1];
            x in Filter(s, top, l + 1) && Behind(Filter(s, top, l + 1), x) <= StopAt(Filter(s, top, l + 1), at, d)
  {
    var f, g := Filter(s, top, l), Filter(s, top, l + 1);
    assert f[p - 1] in f;
    FilterMember(s, top, l, f[p - 1]);
    FilterMember(s, top, l + 1, f[p - 1]);
    RowSplits(s, at, d, top, l);
    RowSplits(s, at, d, top, l + 1);
  }

  // --- deadlines on a circle of ticks -----------------------------------------------------

  // how far a deadline lies behind the tick base
  function Key(x: int, base: int): int { Diff(x, base) }

  // While no deadline is more than half the circle behind base, wrap-around differences
  // order deadlines by their distance from base.
  lemma {:induction false} PassesByKey(x: int, d: int, base: int)
    requires Key(x, base) <= HALF && 1 <= Key(d, base) <= HALF
    ensures Passes(x, d) <==> Key(x, base) <= Key(d, base)
  {
    var a, c := Key(x, base), Key(d, base);
    assert Diff(x, d) == (a - c) % TICKS;
  }

  // s is sorted by deadline, and among equal deadlines by the order of starting.
  ghost predicate Sorted(s: seq<nat>, at: seq<int>, base: int, stamp: seq<nat>) {
    && (forall i :: 0 <= i < |s| ==> s[i] < |at| == |stamp| && Key(at[s[i]], base) <= HALF)
    && (forall i, j {:trigger Earlier(s[i], s[j], at, base, stamp)} ::
          0 <= i < j < |s| ==> Earlier(s[i], s[j], at, base, stamp))
  }

  ghost predicate Earlier(t: nat, u: nat, at: seq<int>, base: int, stamp: seq<nat>) {
    && t < |at| == |stamp| && u < |at|
    && (Key(at[t], base) < Key(at[u], base) || (Key(at[t], base) == Key(at[u], base) && stamp[t] < stamp[u]))
  }

  lemma {:induction false} SortedSteady(s: seq<nat>, at: seq<int>, base: int, stamp: seq<nat>, d: int)
    requires Sorted(s, at, base, stamp) && 1 <= Key(d, base) <= HALF
    ensures Steady(s, at, d)
    ensures forall i :: 0 <= i < |s| ==> (i < StopAt(s, at, d) <==> Key(at[s[i]], base) <= Key(d, base))
  {
    forall i | 0 <= i < |s|
      ensures Passes(Due(at, s[i]), d) <==> Key(at[s[i]], base) <= Key(d, base)
    {
      PassesByKey(at[s[i]], d, base);
    }
    forall i, j | 0 <= i < j < |s| && Passes(Due(at, s[j]), d)
      ensures Passes(Due(at, s[i]), d)
    {
      assert Earlier(s[i], s[j], at, base, stamp);
    }
    StopAtSplits(s, at, d);
  }

  // Inserting a newly started timer where the scan stops keeps the row sorted.
  lemma {:induction false} InsSorted(s: seq<nat>, at: seq<int>, base: int, stamp: seq<nat>, x: nat)
    requires Sorted(s, at, base, stamp) && x < |at| == |stamp| && 1 <= Key(at[x], base) <= HALF
    requires forall t :: t in s ==> t < |stamp| && stamp[t] < stamp[x]
    ensures Sorted(Ins(s, StopAt(s, at, at[x]), x), at, base, stamp)
  {
    var p := StopAt(s, at, at[x]);
    var r := Ins(s, p, x);
    SortedSteady(s, at, base, stamp, at[x]);
    forall i, j | 0 <= i < j < |r|
      ensures Earlier(r[i], r[j], at, base, stamp)
    {
      var u, v := if i < p then i else i - 1, if j < p then j else j - 1;
      if i == p {
        assert r[j] == s[v];
      } else if j == p {
        assert r[i] == s[u] && s[u] in s;
      } else {
        assert r[i] == s[u] && r[j] == s[v] && Earlier(s[u], s[v], at, base, stamp);
      }
    }
  }

  lemma {:induction false} SortedDistinct(s: seq<nat>, at: seq<int>, base: int, stamp: seq<nat>)
    requires Sorted(s, at, base, stamp)
    ensures Distinct(s)
    ensures s != [] ==> Sorted(s[1..], at, base, stamp)
  {
    forall i, j | 0 <= i < j < |s|
      ensures s[i] != s[j]
    {
      assert Earlier(s[i], s[j], at, base, stamp);
    }
    if s != [] {
      forall i, j | 0 <= i < j < |s[1..]|
        ensures Earlier(s[1..][i], s[1..][j], at, base, stamp)
      {
        assert Earlier(s[i + 1], s[j + 1], at, base, stamp);
      }
    }
  }

  // There is only one such row: the skip list is the sorted list.
  lemma {:induction false} SortedUnique(s: seq<nat>, r: seq<nat>, at: seq<int>, base: int, stamp: seq<nat>)
    requires Sorted(s, at, base, stamp) && Sorted(r, at, base, stamp)
    requires forall t :: t in s <==> t in r
    ensures s == r
  {
    assert (forall i :: 0 <= i < |s| ==> s[i] in r) && (forall i :: 0 <= i < |r| ==> r[i] in s);
    if s != [] && r != [] {
      var i :| 0 <= i < |r| && r[i] == s[0];
      var j :| 0 <= j < |s| && s[j] == r[0];
      assert (i > 0 ==> Earlier(r[0], r[i], at, base, stamp)) && (j > 0 ==> Earlier(s[0], s[j], at, base, stamp));
      assert s[0] == r[0];
      SortedDistinct(s, at, base, stamp);
      SortedDistinct(r, at, base, stamp);
      forall t
        ensures t in s[1..] <==> t in r[1..]
      {
        assert t in s[1..] ==> t in s && t != s[0];
        assert t in r[1..] ==> t in r && t != r[0];
      }
      SortedUnique(s[1..], r[1..], at, base, stamp);
    }
  }

  // A changed stamp or deadline of a timer that is not in the row does not matter.
  lemma {:induction false} SortedElsewhere(s: seq<nat>, at: seq<int>, stamp: seq<nat>, ax: seq<int>, sx: seq<nat>,
        base: int)
    requires Sorted(s, at, base, stamp) && |ax| == |at| == |sx|
    requires forall t :: t in s && t < |at| ==> ax[t] == at[t] && sx[t] == stamp[t]
    ensures Sorted(s, ax, base, sx)
  {
    forall i, j | 0 <= i < j < |s|
      ensures Earlier(s[i], s[j], ax, base, sx)
    {
      assert Earlier(s[i], s[j], at, base, stamp) && s[i] in s && s[j] in s;
    }
    forall i | 0 <= i < |s|
      ensures s[i] < |ax| && Key(ax[s[i]], base) <= HALF
    {
      assert s[i] in s;
    }
  }

  lemma {:induction false} DelSorted(s: seq<nat>, at: seq<int>, base: int, stamp: seq<nat>, x: nat)
    requires Sorted(s, at, base, stamp)
    ensures Sorted(Del(s, x), at, base, stamp)
  {
    if x in s {
      var k :| 0 <= k < |s| && s[k] == x;
      forall i, j | 0 <= i < j < |s|
        ensures s[i] != s[j]
      {
        assert Earlier(s[i], s[j], at, base, stamp);
      }
      DelAt(s, k);
      forall i, j | 0 <= i < j < |Del(s, x)|
        ensures Earlier(Del(s, x)[i], Del(s, x)[j], at, base, stamp)
      {
        assert Earlier(s[if i < k then i else i + 1], s[if j < k then j else j + 1], at, base, stamp);
      }
    } else {
      DelAbsent(s, x);
    }
  }

  // When the clock moves on, deadlines that have not passed keep their order.
  lemma {:induction false} SortedLater(s: seq<nat>, at: seq<int>, base: int, stamp: seq<nat>)
    requires Sorted(s, at, base, stamp) && forall t :: t in s && t < |at| ==> 1 <= Key(at[t], base)
    ensures Sorted(s, at, base + 1, stamp)
    ensures forall t :: t in s ==> t < |at| && Key(at[t], base + 1) == Key(at[t], base) - 1
  {
    forall t | t in s
      ensures t < |at| && Key(at[t], base) <= HALF && Key(at[t], base + 1) == Key(at[t], base) - 1
    {
      KeyLater(at[t], base);
    }
    forall i, j | 0 <= i < j < |s|
      ensures Earlier(s[i], s[j], at, base + 1, stamp)
    {
      assert Earlier(s[i], s[j], at, base, stamp) && s[i] in s && s[j] in s;
    }
    forall i | 0 <= i < |s|
      ensures Key(at[s[i]], base + 1) <= HALF
    {
      assert s[i] in s;
    }
  }

  lemma KeyBase(x: int, base: int, base': int)
    requires base % TICKS == base' % TICKS
    ensures Key(x, base') == Key(x, base)
  {
  }

  // The base only matters modulo the circle.
  lemma {:induction false} SortedBase(s: seq<nat>, at: seq<int>, base: int, base': int, stamp: seq<nat>)
    requires Sorted(s, at, base, stamp) && base % TICKS == base' % TICKS
    ensures Sorted(s, at, base', stamp)
    ensures forall t :: t in s ==> t < |at| && Key(at[t], base') == Key(at[t], base)
  {
    forall x
      ensures Key(x, base') == Key(x, base)
    {
      KeyBase(x, base, base');
    }
    forall i, j | 0 <= i < j < |s|
      ensures Earlier(s[i], s[j], at, base', stamp)
    {
      assert Earlier(s[i], s[j], at, base, stamp);
    }
  }

  lemma {:induction false} KeyLater(x: int, base: int)
    requires 1 <= Key(x, base)
    ensures Key(x, base + 1) == Key(x, base) - 1
  {
  }

  // --- the rows together --------------------------------------------------------------------

  ghost function Bottom(rows: seq<seq<nat>>): seq<nat> {
    if rows == [] then [] else rows[|rows| - 1]
  }

  ghost predicate RowIs(rows: seq<seq<nat>>, top: seq<nat>, l: int) {
    0 <= l < |rows| ==> rows[l] == Filter(Bottom(rows), top, l)
  }

  // Each row is the bottom row without the timers too low for it.
  ghost predicate Leveled(rows: seq<seq<nat>>, top: seq<nat>) {
    && rows != []
    && (forall t :: t in Bottom(rows) ==> t < |top| && top[t] < |rows|)
    && (forall l :: RowIs(rows, top, l))
  }

  // cut is rows after timer t was unlinked from every row.
  ghost predicate Removed(rows: seq<seq<nat>>, cut: seq<seq<nat>>, t: nat) {
    |cut| == |rows| && forall l :: 0 <= l < |rows| ==> cut[l] == Del(rows[l], t)
  }

  // ins is rows after timer t was linked into row h and the rows below, at the places pos.
  ghost predicate InsertedAt(rows: seq<seq<nat>>, ins: seq<seq<nat>>, pos: seq<nat>, h: nat, t: nat) {
    && |ins| == |pos| == |rows| && h < |rows|
    && forall l :: 0 <= l < |rows| ==>
         pos[l] <= |rows[l]| && ins[l] == if h <= l then Ins(rows[l], pos[l], t) else rows[l]
  }

  // ins is rows after timer t was linked into row h and the rows below, in each where the
  // scan for deadline d stops.
  ghost predicate Inserted(rows: seq<seq<nat>>, ins: seq<seq<nat>>, at: seq<int>, d: int, h: nat, t: nat) {
    && |ins| == |rows| && h < |rows|
    && forall l :: 0 <= l < |rows| ==> ins[l] == if h <= l then Ins(rows[l], StopAt(rows[l], at, d), t) else rows[l]
  }

  // Unlinking a timer from every row.
  method DelRows(rows: seq<seq<nat>>, t: nat) returns (cut: seq<seq<nat>>)
    ensures Removed(rows, cut, t)
  {
    cut := rows;
    for i := 0 to |rows|
      invariant |cut| == |rows|
      invariant forall l :: 0 <= l < |rows| ==> cut[l] == if l < i then Del(rows[l], t) else rows[l]
    {
      cut := cut[i := Del(cut[i], t)];
    }
  }

  lemma {:induction false} LeveledDel(rows: seq<seq<nat>>, cut: seq<seq<nat>>, top: seq<nat>, t: nat)
    requires Leveled(rows, top)
    requires Removed(rows, cut, t)
    ensures Leveled(cut, top) && Bottom(cut) == Del(Bottom(rows), t)
  {
    var q := Bottom(rows);
    forall l
      ensures RowIs(cut, top, l)
    {
      assert RowIs(rows, top, l);
      FilterDel(q, top, l, t);
    }
    forall u | u in Del(q, t)
      ensures u in q
    {
      DelMember(q, t, u);
    }
  }

  // The scan of one row, from a place it has not yet gone past.
  method ScanRow(row: seq<nat>, at: seq<int>, d: int, start: nat) returns (p: nat)
    requires (forall i :: 0 <= i < |row| ==> row[i] < |at|) && start <= |row|
    ensures start <= p <= |row| && forall i :: start <= i < p ==> Passes(at[row[i]], d)
    ensures p < |row| ==> !Passes(at[row[p]], d)
  {
    p := start;
    while p != |row| && Passes(at[row[p]], d)
      invariant start <= p <= |row| && forall i :: start <= i < p ==> Passes(at[row[i]], d)
    {
      p := p + 1;
    }
  }

  // If the timers passed are the first ones, it stops where a scan of the whole row would.
  lemma {:induction false} ScanStops(row: seq<nat>, at: seq<int>, d: int, start: nat, p: nat)
    requires start <= p <= |row| && start <= StopAt(row, at, d)
    requires forall i :: 0 <= i < |row| ==> row[i] < |at| && (Passes(at[row[i]], d) <==> i < StopAt(row, at, d))
    requires forall i :: start <= i < p ==> Passes(at[row[i]], d)
    requires p < |row| ==> !Passes(at[row[p]], d)
    ensures p == StopAt(row, at, d)
  {
    var q := StopAt(row, at, d);
    assert p < |row| ==> (Passes(at[row[p]], d) <==> p < q);
    assert q < |row| ==> (Passes(at[row[q]], d) <==> q < q);
  }

  // What is in a row is in the row below.
  lemma {:induction false} RowBelow(rows: seq<seq<nat>>, top: seq<nat>, l: nat)
    requires Leveled(rows, top) && l + 1 < |rows|
    ensures forall i :: 0 <= i < |rows[l]| ==> rows[l][i] in rows[l + 1]
  {
    assert RowIs(rows, top, l) && RowIs(rows, top, l + 1);
    forall i | 0 <= i < |rows[l]|
      ensures rows[l][i] in rows[l + 1]
    {
      assert rows[l][i] in Filter(Bottom(rows), top, l);
      FilterMember(Bottom(rows), top, l, rows[l][i]);
      FilterMember(Bottom(rows), top, l + 1, rows[l][i]);
    }
  }

  lemma {:induction false} RowBounds(rows: seq<seq<nat>>, top: seq<nat>, l: nat)
    requires Leveled(rows, top) && l < |rows|
    ensures forall i :: 0 <= i < |rows[l]| ==> rows[l][i] < |top|
  {
    assert RowIs(rows, top, l);
    FilterSub(Bottom(rows), top, l);
    forall i | 0 <= i < |rows[l]|
      ensures rows[l][i] < |top|
    {
      assert Filter(Bottom(rows), top, l)[i] in Bottom(rows);
    }
  }

  lemma {:induction false} RowScans(rows: seq<seq<nat>>, at: seq<int>, d: int, top: seq<nat>, l: nat)
    requires Leveled(rows, top) && |at| == |top| && Steady(Bottom(rows), at, d) && l < |rows|
    ensures forall i :: 0 <= i < |rows[l]| ==> rows[l][i] < |at|
    ensures forall i :: 0 <= i < |rows[l]| ==> (Passes(at[rows[l][i]], d) <==> i < StopAt(rows[l], at, d))
  {
    assert RowIs(rows, top, l);
    RowSplits(Bottom(rows), at, d, top, l);
    FilterSub(Bottom(rows), top, l);
    forall i | 0 <= i < |rows[l]|
      ensures rows[l][i] < |at| && (Passes(at[rows[l][i]], d) <==> i < StopAt(rows[l], at, d))
    {
      assert Filter(Bottom(rows), top, l)[i] in Bottom(rows);
      assert Passes(Due(at, Filter(Bottom(rows), top, l)[i]), d) <==> i < StopAt(rows[l], at, d);
    }
  }

  lemma {:induction false} RowDown(rows: seq<seq<nat>>, at: seq<int>, d: int, top: seq<nat>, l: nat, p: nat)
    requires Leveled(rows, top) && |at| == |top| && Steady(Bottom(rows), at, d) && l + 1 < |rows|
    requires 0 < p <= StopAt(rows[l], at, d)
    ensures rows[l][p - 1] in rows[l + 1] && Behind(rows[l + 1], rows[l][p - 1]) <= StopAt(rows[l + 1], at, d)
  {
    assert RowIs(rows, top, l) && RowIs(rows, top, l + 1);
    StepDown(Bottom(rows), at, d, top, l, p);
  }

  // The search has come to place p of row l; if the bottom row is in order, that is not behind
  // where a scan of the row stops.
  ghost predicate Reached(rows: seq<seq<nat>>, at: seq<int>, d: int, l: nat, p: nat) {
    l < |rows| ==> p <= |rows[l]| && (Steady(Bottom(rows), at, d) ==> p <= StopAt(rows[l], at, d))
  }

  // It has stopped at the places pos; if the bottom row is in order, a scan of each row alone
  // stops there.
  ghost predicate Stopped(rows: seq<seq<nat>>, at: seq<int>, d: int, pos: seq<nat>) {
    && |pos| <= |rows|
    && (forall l :: 0 <= l < |pos| ==> pos[l] <= |rows[l]|)
    && (Steady(Bottom(rows), at, d) ==> forall l :: 0 <= l < |pos| ==> pos[l] == StopAt(rows[l], at, d))
  }

  // The search: row by row, going on in each where the row above left off.
  method SearchRows(rows: seq<seq<nat>>, at: seq<int>, d: int, ghost top: seq<nat>) returns (pos: seq<nat>)
    requires Leveled(rows, top) && |at| == |top|
    ensures |pos| == |rows| && Stopped(rows, at, d, pos)
  {
    pos := [];
    var start: nat := 0;
    for l := 0 to |rows|
      invariant |pos| == l && Stopped(rows, at, d, pos) && Reached(rows, at, d, l, start)
    {
      RowBounds(rows, top, l);
      var p := ScanRow(rows[l], at, d, start);
      RowDone(rows, at, d, top, l, start, p);
      StoppedMore(rows, at, d, pos, p);
      pos := pos + [p];
      if l != |rows| - 1 {
        if p == 0 {
          start := 0;
        } else {
          start := Behind(rows[l + 1], rows[l][p - 1]);
        }
      }
    }
  }

  lemma {:induction false} StoppedMore(rows: seq<seq<nat>>, at: seq<int>, d: int, pos: seq<nat>, p: nat)
    requires |pos| < |rows| && Stopped(rows, at, d, pos) && p <= |rows[|pos|]|
    requires Steady(Bottom(rows), at, d) ==> p == StopAt(rows[|pos|], at, d)
    ensures Stopped(rows, at, d, pos + [p])
  {
  }

  // Where the scan of row l has stopped, and where the one of the next row begins.
  lemma {:induction false} RowDone(rows: seq<seq<nat>>, at: seq<int>, d: int, top: seq<nat>, l: nat, start: nat, p: nat)
    requires Leveled(rows, top) && |at| == |top| && l < |rows| && Reached(rows, at, d, l, start)
    requires start <= p <= |rows[l]|
    requires forall i :: 0 <= i < |rows[l]| ==> rows[l][i] < |at|
    requires forall i :: start <= i < p ==> Passes(at[rows[l][i]], d)
    requires p < |rows[l]| ==> !Passes(at[rows[l][p]], d)
    ensures Steady(Bottom(rows), at, d) ==> p == StopAt(rows[l], at, d)
    ensures Reached(rows, at, d, l + 1, 0)
    ensures 0 < p && l + 1 < |rows| ==>
      && rows[l][p - 1] in rows[l + 1]
      && Reached(rows, at, d, l + 1, Behind(rows[l + 1], rows[l][p - 1]))
  {
    if l + 1 < |rows| {
      RowBelow(rows, top, l);
    }
    if Steady(Bottom(rows), at, d) {
      RowScans(rows, at, d, top, l);
      ScanStops(rows[l], at, d, start, p);
      if 0 < p && l + 1 < |rows| {
        RowDown(rows, at, d, top, l, p);
      }
    }
  }

  const MASK := 4       // RT_TIMER_SKIP_LIST_MASK + 1: the counter is tested two bits at a time

  // The first of n rows a timer is linked into, by the insertion counter: one row further up
  // for each pair of zero bits.
  function TopRow(n: nat, counter: nat): (h: nat)
    requires n > 0
    ensures h < n
  {
    if n > 1 && counter % MASK == 0 then TopRow(n - 1, counter / MASK) else n - 1
  }

  ghost function Power(k: nat): (p: nat)
    ensures p > 0
  {
    if k == 0 then 1 else MASK * Power(k - 1)
  }

  // A timer is linked into k rows above the last one if and only if the counter can be divided by that
  // power of 4, but not by the next one, unless there are no more rows.
  lemma {:induction false} TopRowExactly(n: nat, counter: nat, k: nat)
    requires k < n
    ensures TopRow(n, counter) == n - 1 - k <==>
            counter % Power(k) == 0 && (k < n - 1 ==> counter % Power(k + 1) != 0)
  {
    if k > 0 {
      QuarterMultiple(counter, Power(k - 1));
      QuarterMultiple(counter, Power(k));
      TopRowExactly(n - 1, counter / MASK, k - 1);
    } else {
      assert Power(1) == MASK;
    }
  }

  lemma {:induction false} QuarterMultiple(c: nat, p: nat)
    requires p > 0
    ensures c % (MASK * p) == 0 <==> c % MASK == 0 && c / MASK % p == 0
  {
    if c % (MASK * p) == 0 {
      var k := c / (MASK * p);
      assert c == MASK * p * k == MASK * (p * k);
      DivOf(MASK, p * k, 0);
      DivOf(p, k, 0);
    }
    if c % MASK == 0 && c / MASK % p == 0 {
      var k := c / MASK / p;
      assert c == MASK * (p * k) == MASK * p * k;
      DivOf(MASK * p, k, 0);
    }
  }

  // Link a timer into the last row, and into the rows above as far as the counter says.
  method InsRows(rows: seq<seq<nat>>, pos: seq<nat>, t: nat, counter: nat) returns (ins: seq<seq<nat>>)
    requires |pos| == |rows| > 0 && forall l :: 0 <= l < |rows| ==> pos[l] <= |rows[l]|
    ensures InsertedAt(rows, ins, pos, TopRow(|rows|, counter), t)
  {
    var tst := counter;
    var last := |rows| - 1;
    ins := rows[last := Ins(rows[last], pos[last], t)];
    var lvl := 2;
    while lvl <= last + 1 && tst % MASK == 0
      invariant 2 <= lvl <= last + 2 && |ins| == |rows| && tst >= 0
      invariant TopRow(|rows|, counter) == TopRow(last + 3 - lvl, tst)
      invariant forall l :: 0 <= l < |rows| ==> ins[l] == if last + 2 - lvl <= l then Ins(rows[l], pos[l], t)
                  else rows[l]
      decreases last + 2 - lvl
    {
      var l := last + 1 - lvl;
      ins := ins[l := Ins(ins[l], pos[l], t)];
      tst := tst / MASK;
      lvl := lvl + 1;
    }
  }

  // The search and the insertion together; the counter is advanced in between.
  method Place(rows: seq<seq<nat>>, at: seq<int>, d: int, t: nat, randomNr: nat, ghost top: seq<nat>)
    returns (ins: seq<seq<nat>>, counter: nat, ghost pos: seq<nat>)
    requires Leveled(rows, top) && |at| == |top|
    ensures counter == (randomNr + 1) % TICKS && InsertedAt(rows, ins, pos, TopRow(|rows|, counter), t)
    ensures Steady(Bottom(rows), at, d) ==> Inserted(rows, ins, at, d, TopRow(|rows|, counter), t)
  {
    var places := SearchRows(rows, at, d, top);
    counter, pos := (randomNr + 1) % TICKS, places;
    ins := InsRows(rows, places, t, counter);
  }

  // Linked where every row's scan stops, the timer leaves the rows leveled.
  lemma {:induction false} LeveledIns(rows: seq<seq<nat>>, ins: seq<seq<nat>>, top: seq<nat>, h: nat, at: seq<int>,
        d: int, t: nat)
    requires Leveled(rows, top) && t < |top| && t !in Bottom(rows) && Steady(Bottom(rows), at, d)
    requires Inserted(rows, ins, at, d, h, t)
    ensures Leveled(ins, top[t := h]) && Bottom(ins) == Ins(Bottom(rows), StopAt(Bottom(rows), at, d), t)
  {
    var q, last, up := Bottom(rows), |rows| - 1, top[t := h];
    assert Bottom(ins) == ins[last] == Ins(q, StopAt(q, at, d), t);
    forall l
      ensures RowIs(ins, up, l)
    {
      if 0 <= l < |rows| {
        assert RowIs(rows, top, l);
        InsRow(q, rows[l], ins[l], top, h, at, d, l, t);
      }
    }
    InsHeights(q, StopAt(q, at, d), top, h, t, |rows|);
  }

  lemma {:induction false} InsHeights(q: seq<nat>, p: nat, top: seq<nat>, h: nat, t: nat, n: nat)
    requires t < |top| && h < n && p <= |q| && forall u :: u in q ==> u < |top| && top[u] < n
    ensures forall u :: u in Ins(q, p, t) ==> u < |top| && top[t := h][u] < n
  {
    InsMembers(q, p, t);
  }

  lemma {:induction false} InsRow(q: seq<nat>, row: seq<nat>, ins: seq<nat>, top: seq<nat>, h: nat, at: seq<int>,
        d: int, l: nat, t: nat)
    requires t < |top| && t !in q && Steady(q, at, d) && row == Filter(q, top, l)
    requires ins == if h <= l then Ins(row, StopAt(row, at, d), t) else row
    ensures ins == Filter(Ins(q, StopAt(q, at, d), t), top[t := h], l)
  {
    FilterSame(q, top, top[t := h], l);
    FilterIns(q, at, d, top[t := h], l, t);
  }
}
