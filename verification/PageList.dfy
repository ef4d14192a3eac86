/** rt_page_alloc and rt_page_free: the list of runs of free pages, kept in the first page of
    each run. Pages are named by numbers. */
module PageList {
  import opened PageRuns

  const NULL := -1

  function At(rs: seq<Run>, i: nat): int { if i < |rs| then rs[i].at else NULL }

  // The list as it is kept: rt_page_list and the headers.
  datatype Links = Links(list: int, next: seq<int>, page: seq<nat>) {
    // It is the list rs.
    ghost predicate Walk(rs: seq<Run>) {
      |next| == |page| && list == At(rs, 0) && forall i {:trigger Entry(rs, i)} :: 0 <= i < |rs| ==> Entry(rs, i)
    }

    // The header of the run at place i says how long it is and where the next one is.
    ghost predicate Entry(rs: seq<Run>, i: nat)
      requires i < |rs|
    {
      rs[i].at < |next| == |page| && next[rs[i].at] == At(rs, i + 1) && page[rs[i].at] == rs[i].n
    }

    // Putting pages back at header b, which prev leads to, makes the list rs.
    ghost predicate Gives(b: int, prev: int, a: nat, n: nat, rs: seq<Run>)
      requires NULL <= b < |next| == |page| && a < |next|
    {
      if b == NULL then Header(a, n, b).Link(prev, a).Walk(rs)
      else if b + page[b] == a then
        if b + page[b] + n == next[b] then
          0 <= next[b] < |next| && Header(b, page[b] + n + page[next[b]], next[next[b]]).Walk(rs)
        else Header(b, page[b] + n, next[b]).Walk(rs)
      else if b == a + n then Header(a, page[b] + n, next[b]).Link(prev, a).Walk(rs)
      else Header(a, n, b).Link(prev, a).Walk(rs)
    }

    // u has the header of page a that this has.
    ghost predicate Same(u: Links, a: nat) {
      a < |next| == |page| == |u.next| == |u.page| && u.next[a] == next[a] && u.page[a] == page[a]
    }

    // The link that leads on from prev, or from rt_page_list, is set.
    ghost function Link(prev: int, v: int): Links {
      if 0 <= prev < |next| then this.(next := next[prev := v]) else this.(list := v)
    }

    // The header of page a is filled in.
    ghost function Header(a: nat, n: nat, to: int): Links
      requires a < |next| == |page|
    {
      this.(next := next[a := to], page := page[a := n])
    }
  }

  // What leads to place i of the list.
  function Before(rs: seq<Run>, i: nat): int
    requires i <= |rs|
  {
    if i == 0 then NULL else rs[i - 1].at
  }

  // What the link before place lo leads to.
  ghost predicate Leads(u: Links, rs: seq<Run>, lo: nat, to: int)
    requires lo <= |rs|
  {
    if lo == 0 then u.list == to
    else var b := rs[lo - 1]; b.at < |u.next| == |u.page| && u.next[b.at] == to && u.page[b.at] == b.n
  }

  // The headers before place lo and from place hi on are as they were; the link before place
  // lo leads to ms and from there to place hi.
  lemma {:induction false} Relink(l: Links, u: Links, rs: seq<Run>, lo: nat, hi: nat, ms: seq<Run>)
    requires l.Walk(rs) && lo <= hi <= |rs| && |ms| <= 1 && |u.next| == |u.page|
    requires forall i :: (0 <= i < lo - 1 || hi <= i < |rs|) ==> l.Same(u, rs[i].at)
    requires lo > 0 ==> u.list == l.list
    requires Leads(u, rs, lo, if ms == [] then At(rs, hi) else ms[0].at)
    requires ms != [] ==> ms[0].at < |u.next| && u.next[ms[0].at] == At(rs, hi) && u.page[ms[0].at] == ms[0].n
    ensures u.Walk(Spliced(rs, lo, hi, ms))
  {
    var s := Spliced(rs, lo, hi, ms);
    var m := lo + |ms|;
    forall i | 0 <= i < |s|
      ensures u.Entry(s, i)
    {
      SplicedAt(rs, lo, hi, ms, i);
      SplicedAt(rs, lo, hi, ms, i + 1);
      if i < lo {
        assert l.Entry(rs, i);
      } else if i >= m {
        assert l.Entry(rs, i - m + hi);
      }
    }
    SplicedAt(rs, lo, hi, ms, 0);
  }

  lemma {:induction false} SplicedAt(rs: seq<Run>, lo: nat, hi: nat, ms: seq<Run>, i: nat)
    requires lo <= hi <= |rs|
    ensures var s, m := Spliced(rs, lo, hi, ms), lo + |ms|;
            && |s| == m + |rs| - hi
            && (i < lo ==> s[i] == rs[i]) && (lo <= i < m ==> s[i] == ms[i - lo])
            && (m <= i < |s| ==> s[i] == rs[i - m + hi]) && (m <= i ==> At(s, i) == At(rs, i - m + hi))
  {
  }

  // No other header lies in a run, or right behind it.
  lemma {:induction false} Apart(rs: seq<Run>, i: nat, j: nat)
    requires Well(rs) && i < |rs| && j < |rs| && i != j
    ensures !(rs[i].at <= rs[j].at <= rs[i].End())
  {
    if j < i {
      assert rs[j].End() < rs[i].at;
    } else {
      assert rs[i].End() < rs[j].at;
    }
  }

  // Only the header of page x and the link to place lo are written.
  lemma {:induction false} OthersSame(l: Links, u: Links, rs: seq<Run>, lo: nat, hi: nat, x: nat)
    requires l.Walk(rs) && Well(rs) && lo <= hi <= |rs|
    requires forall a :: 0 <= a < |l.next| && a != x && a != Before(rs, lo) ==> l.Same(u, a)
    requires forall j :: (0 <= j < lo || hi <= j < |rs|) ==> rs[j].at != x
    ensures forall j :: (0 <= j < lo - 1 || hi <= j < |rs|) ==> l.Same(u, rs[j].at)
    ensures lo > 0 ==> l.Entry(rs, lo - 1)
  {
    forall j | 0 <= j < lo - 1 || hi <= j < |rs|
      ensures l.Same(u, rs[j].at)
    {
      assert l.Entry(rs, j);
      if lo > 0 {
        Apart(rs, lo - 1, j);
      }
    }
    assert lo > 0 ==> l.Entry(rs, lo - 1);
  }

  // The first pages of the run at place i are taken: a header further up takes its place.
  lemma {:induction false} SplitWalks(l: Links, rs: seq<Run>, i: nat, n: nat)
    requires l.Walk(rs) && Well(rs) && i < |rs| && n < rs[i].n && rs[i].End() <= |l.next|
    ensures l.Entry(rs, i)
    ensures var b, r := rs[i].at, Run(rs[i].at + n, rs[i].n - n);
            l.Header(r.at, r.n, l.next[b]).Link(Before(rs, i), r.at).Walk(Spliced(rs, i, i + 1, [r]))
  {
    assert l.Entry(rs, i);
    var b, r := rs[i].at, Run(rs[i].at + n, rs[i].n - n);
    var u := l.Header(r.at, r.n, l.next[b]).Link(Before(rs, i), r.at);
    forall j | 0 <= j < i || i + 1 <= j < |rs|
      ensures rs[j].at != r.at
    {
      Apart(rs, i, j);
    }
    OthersSame(l, u, rs, i, i + 1, r.at);
    Relink(l, u, rs, i, i + 1, [r]);
  }

  lemma {:induction false} DropWalks(l: Links, rs: seq<Run>, i: nat)
    requires l.Walk(rs) && Well(rs) && i < |rs|
    ensures l.Entry(rs, i) && l.Link(Before(rs, i), l.next[rs[i].at]).Walk(Spliced(rs, i, i + 1, []))
  {
    assert l.Entry(rs, i);
    var u := l.Link(Before(rs, i), l.next[rs[i].at]);
    forall j | 0 <= j < i || i + 1 <= j < |rs|
      ensures rs[j].at != rs[i].at
    {
      Apart(rs, i, j);
    }
    OthersSame(l, u, rs, i, i + 1, rs[i].at);
    Relink(l, u, rs, i, i + 1, []);
  }

  // A header at page a, in front of place i or instead of it.
  lemma {:induction false} PutWalks(l: Links, rs: seq<Run>, i: nat, hi: nat, r: Run)
    requires l.Walk(rs) && Well(rs) && i <= hi <= |rs| && r.at < |l.next|
    requires forall j :: 0 <= j < |rs| ==> rs[j].at != r.at
    ensures l.Header(r.at, r.n, At(rs, hi)).Link(Before(rs, i), r.at).Walk(Spliced(rs, i, hi, [r]))
  {
    var u := l.Header(r.at, r.n, At(rs, hi)).Link(Before(rs, i), r.at);
    OthersSame(l, u, rs, i, hi, r.at);
    Relink(l, u, rs, i, hi, [r]);
  }

  // The run at place i gets longer and reaches up to place hi.
  lemma {:induction false} GrowWalks(l: Links, rs: seq<Run>, i: nat, hi: nat, n: nat)
    requires l.Walk(rs) && Well(rs) && i < hi <= |rs|
    ensures l.Entry(rs, i) && l.Header(rs[i].at, n, At(rs, hi)).Walk(Spliced(rs, i, hi, [Run(rs[i].at, n)]))
  {
    assert l.Entry(rs, i);
    var r := Run(rs[i].at, n);
    var u := l.Header(r.at, n, At(rs, hi));
    forall j | 0 <= j < |rs| && j != i
      ensures rs[j].at != r.at
    {
      Apart(rs, i, j);
    }
    OthersSame(l, u, rs, i, hi, r.at);
    assert i > 0 ==> l.Same(u, rs[i - 1].at);
    Relink(l, u, rs, i, hi, [r]);
  }

  class PageList {
    const next: array<int>         // rt_page_head.next
    const page: array<nat>         // rt_page_head.page
    var list: int                  // rt_page_list
    ghost var runs: seq<Run>

    ghost function Lists(): Links
      reads this`list, next, page
    {
      Links(list, next[..], page[..])
    }

    ghost predicate Valid()
      reads this, next, page
    {
      && Well(runs) && Lists().Walk(runs)
      && forall i :: 0 <= i < |runs| ==> runs[i].End() <= next.Length
    }

    // rt_page_init
    constructor (links: array<int>, counts: array<nat>, n: nat)
      requires 0 < n <= links.Length == counts.Length
      modifies links, counts
      ensures Valid() && next == links && page == counts && Free(runs) == Pages(0, n)
    {
      next, page, list, runs := links, counts, 0, [Run(0, n)];
      new;
      page[0], next[0] := n, NULL;
      FreeOne(Run(0, n));
    }

    // *prev = v
    method SetLink(prev: int, v: int)
      requires NULL <= prev < next.Length
      modifies this`list, next
      ensures Lists() == old(Lists()).Link(prev, v)
    {
      if prev == NULL {
        list := v;
      } else {
        next[prev] := v;
      }
    }

    // rt_page_alloc
    method Alloc(npages: nat) returns (b: int)
      requires Valid()
      modifies this`list, this`runs, next, page
      ensures Valid()
      // it returns the lowest place where there are npages free pages, and takes just these
      ensures npages > 0 && b != NULL ==> b >= 0 && Lowest(old(Free(runs)), b, npages)
                                          && Free(runs) == old(Free(runs)) - Pages(b, npages)
      // and fails exactly if there are not that many together
      ensures npages == 0 ==> b == NULL
      ensures b == NULL ==> runs == old(runs) && (npages > 0 ==> forall a {:trigger Pages(a, npages)} ::
                !(Pages(a, npages) <= Free(runs)))
    {
      if npages == 0 {
        return NULL;
      }
      FitIsLowest(runs, npages);
      var prev;
      b, prev := FindFit(npages);
      if b != NULL {
        ghost var i := FirstFit(runs, npages);
        TakenFree(runs, i, npages);
        TakeAt(b, prev, npages, i);
      }
    }

    // The search through the list.
    method FindFit(npages: nat) returns (b: int, prev: int)
      requires Valid() && npages > 0
      ensures b == At(runs, FirstFit(runs, npages))
      ensures var i := FirstFit(runs, npages); prev == Before(runs, i)
    {
      b, prev := list, NULL;
      ghost var i := 0;
      assert runs != [] ==> Lists().Entry(runs, 0);
      while b != NULL && page[b] < npages
        invariant 0 <= i <= FirstFit(runs, npages) && b == At(runs, i) && prev == Before(runs, i)
        invariant b != NULL ==> 0 <= b < page.Length && i < |runs| && Lists().Entry(runs, i)
        decreases |runs| - i
      {
        assert i + 1 < |runs| ==> Lists().Entry(runs, i + 1);
        prev := b;
        b := next[b];
        i := i + 1;
      }
    }

    // Take npages pages at place i of the list, which is header b.
    method TakeAt(b: nat, prev: int, npages: nat, ghost i: nat)
      requires Valid() && i < |runs| && b == runs[i].at && 0 < npages <= runs[i].n && prev == Before(runs, i)
      modifies this`list, this`runs, next, page
      ensures Valid() && runs == Taken(old(runs), i, npages)
    {
      ghost var rs, to := runs, Taken(runs, i, npages);
      TakenWell(rs, i, npages);
      TakenWithin(rs, i, npages, next.Length);
      TakenWalks(Lists(), rs, i, npages);
      Cut(b, prev, npages, to);
      runs := to;
    }

    method Cut(b: nat, prev: int, npages: nat, ghost rs: seq<Run>)
      requires b < next.Length == page.Length && NULL <= prev < next.Length && npages <= page[b]
      requires page[b] > npages ==>
                 && b + npages < next.Length
                 && Lists().Header(b + npages, page[b] - npages, next[b]).Link(prev, b + npages).Walk(rs)
      requires page[b] == npages ==> Lists().Link(prev, next[b]).Walk(rs)
      modifies this`list, next, page
      ensures Lists().Walk(rs)
    {
      if page[b] > npages {
        var n := b + npages;
        PutHeader(prev, n, page[b] - npages, next[b]);
      } else {
        SetLink(prev, next[b]);
      }
    }

    method SetHeader(a: nat, n: nat, to: int)
      requires a < next.Length == page.Length
      modifies next, page
      ensures Lists() == old(Lists()).Header(a, n, to)
    {
      next[a] := to;
      page[a] := n;
    }

    // A new header that the list is led to.
    method PutHeader(prev: int, a: nat, n: nat, to: int)
      requires a < next.Length == page.Length && NULL <= prev < next.Length
      modifies this`list, next, page
      ensures Lists() == old(Lists()).Header(a, n, to).Link(prev, a)
    {
      SetHeader(a, n, to);
      SetLink(prev, a);
    }

    // rt_page_free
    method Release(a: nat, npages: nat)
      requires Valid() && npages > 0 && a + npages <= next.Length && Pages(a, npages) !! Free(runs)
      modifies this`list, this`runs, next, page
      // the pages are free again, and joined with their neighbours
      ensures Valid() && Free(runs) == old(Free(runs)) + Pages(a, npages)
      ensures runs == Given(old(runs), a, npages)
    {
      ghost var rs, to := runs, Given(runs, a, npages);
      MayGive(rs, a, npages, next.Length);
      GivenFree(rs, a, npages);
      var b, prev := FindPlace(a, npages);
      GivenWalks(Lists(), rs, a, npages);
      Put(b, prev, a, npages, to);
      runs := to;
    }

    // What is done where the search stopped.
    method Put(b: int, prev: int, a: nat, npages: nat, ghost rs: seq<Run>)
      requires NULL <= b < next.Length == page.Length && NULL <= prev < next.Length && a < next.Length
      requires Lists().Gives(b, prev, a, npages, rs)
      modifies this`list, next, page
      ensures Lists().Walk(rs)
    {
      if b == NULL {
        PutHeader(prev, a, npages, b);
      } else if b + page[b] == a {
        var n, to := page[b] + npages, next[b];
        if b + n == to {
          n, to := n + page[to], next[to];
        }
        SetHeader(b, n, to);
      } else if b == a + npages {
        PutHeader(prev, a, page[b] + npages, next[b]);
      } else {
        PutHeader(prev, a, npages, b);
      }
    }

    // The search through the list.
    method FindPlace(a: nat, npages: nat) returns (b: int, prev: int)
      requires Valid() && npages > 0 && Pages(a, npages) !! Free(runs)
      ensures var i := PlaceFor(runs, a, 0);
              && i <= |runs| && b == At(runs, i) && prev == Before(runs, i)
              && (b != NULL ==> i < |runs| && 0 <= b < page.Length && Lists().Entry(runs, i))
    {
      b, prev := list, NULL;
      ghost var i := 0;
      assert runs != [] ==> Lists().Entry(runs, 0);
      while b != NULL
        invariant 0 <= i <= |runs| && b == At(runs, i) && prev == Before(runs, i)
        invariant PlaceFor(runs, a, 0) == PlaceFor(runs, a, i)
        invariant b != NULL ==> 0 <= b < page.Length && i < |runs| && Lists().Entry(runs, i)
        decreases |runs| - i
      {
        if b + page[b] == a || b == a + npages || b > a + npages {
          RunApart(runs, a, npages, i);
          break;
        }
        RunApart(runs, a, npages, i);
        assert i + 1 < |runs| ==> Lists().Entry(runs, i + 1);
        prev, b, i := b, next[b], i + 1;
      }
    }
  }

  // Where the search of rt_page_free stops: at the first run, from place i on, that ends at page a
  // or begins above it.
  ghost function PlaceFor(rs: seq<Run>, a: nat, i: nat): (p: nat)
    requires i <= |rs|
    ensures i <= p <= |rs|
    decreases |rs| - i
  {
    if i == |rs| || rs[i].End() == a || rs[i].at > a then i else PlaceFor(rs, a, i + 1)
  }

  lemma {:induction false} PlaceIs(rs: seq<Run>, a: nat, i: nat)
    requires Well(rs) && i <= Below(rs, a) && (i > 0 ==> rs[i - 1].End() != a)
    ensures var p, k := PlaceFor(rs, a, i), Below(rs, a);
            && p <= k && (p > 0 ==> rs[p - 1].End() != a)
            && (if p < |rs| && rs[p].End() == a then p + 1 == k else p == k)
    decreases |rs| - i
  {
    if i < |rs| {
      BelowAt(rs, a, i);
      if rs[i].End() == a {
        RunBefore(rs, a, i);
      } else if rs[i].at <= a {
        PlaceIs(rs, a, i + 1);
      }
    }
  }

  lemma {:induction false} BelowAt(rs: seq<Run>, a: nat, i: nat)
    requires Well(rs) && i < |rs|
    ensures i < Below(rs, a) <==> rs[i].at <= a
  {
    BelowSplits(rs, a);
  }

  // A run that ends at page a is the last one below it.
  lemma {:induction false} RunBefore(rs: seq<Run>, a: nat, i: nat)
    requires Well(rs) && i < |rs| && rs[i].End() == a
    ensures Below(rs, a) == i + 1 && (i > 0 ==> rs[i - 1].End() != a)
  {
    assert rs[i].n > 0;
    BelowAt(rs, a, i);
    if i + 1 < |rs| {
      assert rs[i].End() < rs[i + 1].at;
      BelowAt(rs, a, i + 1);
    }
    if i > 0 {
      assert rs[i - 1].End() < rs[i].at;
    }
  }

  // A run of free pages and pages that are not free do not overlap.
  lemma {:induction false} RunApart(rs: seq<Run>, a: nat, n: nat, i: nat)
    requires Well(rs) && n > 0 && Pages(a, n) !! Free(rs) && i < |rs|
    ensures rs[i].End() <= a || a + n <= rs[i].at
  {
    GivenBetween(rs, a, n);
  }

  lemma {:induction false} GivenLeft(rs: seq<Run>, a: nat, n: nat, i: nat)
    requires Well(rs) && i < |rs| && rs[i].End() == a && i == PlaceFor(rs, a, 0)
    ensures var right := i + 1 < |rs| && rs[i + 1].at == a + n;
            Given(rs, a, n) == Spliced(rs, i, if right then i + 2 else i + 1,
                                       [Run(rs[i].at, rs[i].n + n + (if right then rs[i + 1].n else 0))])
  {
    PlaceIs(rs, a, 0);
  }

  lemma {:induction false} GivenRight(rs: seq<Run>, a: nat, n: nat, i: nat)
    requires Well(rs) && n > 0 && i < |rs| && rs[i].at == a + n && i == PlaceFor(rs, a, 0) && Pages(a, n) !! Free(rs)
    ensures Given(rs, a, n) == Spliced(rs, i, i + 1, [Run(a, n + rs[i].n)])
    ensures forall j :: 0 <= j < |rs| ==> rs[j].at != a
  {
    PlaceIs(rs, a, 0);
    NotHeader(rs, a, n);
  }

  lemma {:induction false} GivenNew(rs: seq<Run>, a: nat, n: nat, i: nat)
    requires Well(rs) && n > 0 && i <= |rs| && i == PlaceFor(rs, a, 0) && Pages(a, n) !! Free(rs)
    requires i < |rs| ==> rs[i].End() != a && rs[i].at != a + n
    ensures Given(rs, a, n) == Spliced(rs, i, i, [Run(a, n)])
    ensures forall j :: 0 <= j < |rs| ==> rs[j].at != a
  {
    PlaceIs(rs, a, 0);
    NotHeader(rs, a, n);
  }

  lemma {:induction false} TakenWalks(l: Links, rs: seq<Run>, i: nat, n: nat)
    requires l.Walk(rs) && Well(rs) && i < |rs| && 0 < n <= rs[i].n && rs[i].End() <= |l.next|
    ensures l.Entry(rs, i) && (i > 0 ==> l.Entry(rs, i - 1))
    ensures var b := rs[i].at;
            && b < |l.next| == |l.page| && n <= l.page[b] && Before(rs, i) < |l.next|
            && (l.page[b] > n ==>
                  && b + n < |l.next|
                  && l.Header(b + n, l.page[b] - n, l.next[b]).Link(Before(rs, i), b + n).Walk(Taken(rs, i, n)))
            && (l.page[b] == n ==> l.Link(Before(rs, i), l.next[b]).Walk(Taken(rs, i, n)))
  {
    assert l.Entry(rs, i) && (i > 0 ==> l.Entry(rs, i - 1));
    if n < rs[i].n {
      SplitWalks(l, rs, i, n);
    } else {
      DropWalks(l, rs, i);
      assert Spliced(rs, i, i + 1, []) == Taken(rs, i, n);
    }
  }

  lemma {:induction false} GivenWalks(l: Links, rs: seq<Run>, a: nat, n: nat)
    requires l.Walk(rs) && Well(rs) && n > 0 && a < |l.next| && Pages(a, n) !! Free(rs)
    ensures var i := PlaceFor(rs, a, 0);
            && NULL <= At(rs, i) < |l.next| == |l.page| && Before(rs, i) < |l.next|
            && l.Gives(At(rs, i), Before(rs, i), a, n, Given(rs, a, n))
  {
    var i := PlaceFor(rs, a, 0);
    assert (i < |rs| ==> l.Entry(rs, i)) && (i > 0 ==> l.Entry(rs, i - 1));
    if i < |rs| && rs[i].End() == a {
      LeftWalks(l, rs, a, n, i);
    } else if i < |rs| && rs[i].at == a + n {
      RightWalks(l, rs, a, n, i);
    } else {
      NewWalks(l, rs, a, n, i);
    }
  }

  lemma {:induction false} RightWalks(l: Links, rs: seq<Run>, a: nat, n: nat, i: nat)
    requires l.Walk(rs) && Well(rs) && n > 0 && a < |l.next| && Pages(a, n) !! Free(rs)
    requires i < |rs| && rs[i].at == a + n && i == PlaceFor(rs, a, 0) && rs[i].at < |l.next|
    ensures l.Gives(rs[i].at, Before(rs, i), a, n, Given(rs, a, n))
  {
    assert l.Entry(rs, i);
    GivenRight(rs, a, n, i);
    PutWalks(l, rs, i, i + 1, Run(a, n + rs[i].n));
  }

  lemma {:induction false} NewWalks(l: Links, rs: seq<Run>, a: nat, n: nat, i: nat)
    requires l.Walk(rs) && Well(rs) && n > 0 && a < |l.next| && Pages(a, n) !! Free(rs)
    requires i <= |rs| && (i < |rs| ==> rs[i].End() != a && rs[i].at != a + n) && i == PlaceFor(rs, a, 0)
               && At(rs, i) < |l.next|
    ensures l.Gives(At(rs, i), Before(rs, i), a, n, Given(rs, a, n))
  {
    assert i < |rs| ==> l.Entry(rs, i);
    GivenNew(rs, a, n, i);
    PutWalks(l, rs, i, i, Run(a, n));
  }

  lemma {:induction false} LeftWalks(l: Links, rs: seq<Run>, a: nat, n: nat, i: nat)
    requires l.Walk(rs) && Well(rs) && n > 0 && a < |l.next| && i < |rs| && rs[i].End() == a && i == PlaceFor(rs, a, 0)
    ensures l.Entry(rs, i) && rs[i].at < |l.next| && l.Gives(rs[i].at, Before(rs, i), a, n, Given(rs, a, n))
  {
    GivenLeft(rs, a, n, i);
    assert l.Entry(rs, i) && rs[i].at + l.page[rs[i].at] == a;
    if i + 1 < |rs| && rs[i + 1].at == a + n {
      LeftJoins(l, rs, a, n, i);
    } else {
      GrowWalks(l, rs, i, i + 1, rs[i].n + n);
    }
  }

  // The run in front reaches the one behind.
  lemma {:induction false} LeftJoins(l: Links, rs: seq<Run>, a: nat, n: nat, i: nat)
    requires l.Walk(rs) && Well(rs) && n > 0 && a < |l.next| && i + 1 < |rs| && rs[i].End() == a
               && rs[i + 1].at == a + n
    requires Given(rs, a, n) == Spliced(rs, i, i + 2, [Run(rs[i].at, rs[i].n + n + rs[i + 1].n)])
    ensures l.Entry(rs, i) && rs[i].at < |l.next| && l.Gives(rs[i].at, Before(rs, i), a, n, Given(rs, a, n))
  {
    assert l.Entry(rs, i) && l.Entry(rs, i + 1);
    GrowWalks(l, rs, i, i + 2, rs[i].n + n + rs[i + 1].n);
  }

  lemma {:induction false} MayGive(rs: seq<Run>, a: nat, n: nat, end: nat)
    requires Well(rs) && n > 0 && a + n <= end && Pages(a, n) !! Free(rs)
    requires forall k :: 0 <= k < |rs| ==> rs[k].End() <= end
    ensures Well(Given(rs, a, n)) && forall k :: 0 <= k < |Given(rs, a, n)| ==> Given(rs, a, n)[k].End() <= end
  {
    GivenWell(rs, a, n);
    GivenWithin(rs, a, n, end);
  }

  // A page that is not free has no header.
  lemma {:induction false} NotHeader(rs: seq<Run>, a: nat, n: nat)
    requires Well(rs) && n > 0 && Pages(a, n) !! Free(rs)
    ensures forall j :: 0 <= j < |rs| ==> rs[j].at != a
  {
    assert a in Pages(a, n);
    FreeIs(rs, a);
  }

  lemma {:induction false} GivenWithin(rs: seq<Run>, a: nat, n: nat, end: nat)
    requires a + n <= end && forall k :: 0 <= k < |rs| ==> rs[k].End() <= end
    ensures forall k :: 0 <= k < |Given(rs, a, n)| ==> Given(rs, a, n)[k].End() <= end
  {
    var (lo, hi, m) := Joins(rs, a, n);
    forall k | 0 <= k < |Given(rs, a, n)|
      ensures Given(rs, a, n)[k].End() <= end
    {
      SplicedAt(rs, lo, hi, [m], k);
    }
  }

  lemma {:induction false} TakenWithin(rs: seq<Run>, i: nat, n: nat, end: nat)
    requires i < |rs| && 0 < n <= rs[i].n && forall k :: 0 <= k < |rs| ==> rs[k].End() <= end
    ensures forall k :: 0 <= k < |Taken(rs, i, n)| ==> Taken(rs, i, n)[k].End() <= end
    ensures rs[i].n == n ==> Taken(rs, i, n) == Spliced(rs, i, i + 1, [])
  {
    assert rs[i].n == n ==> rs[..i] + [] + rs[i + 1..] == rs[..i] + rs[i + 1..];
  }
}
