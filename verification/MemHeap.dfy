/** Memory heap objects: an address-ordered ring of blocks, and a second ring through the
    free ones. The list header of the free ring sits at offset 0 of the model's memory,
    the pool behind it. */
module MemHeap {
  import opened Wrappers
  import opened Align
  import opened MemCopy
  import opened HeapChain
  import opened FreeRing

  const POOL := 6                 // where the pool starts
  const MIN_ALLOC := 3            // RT_MEMHEAP_MINIALLOC, in words
  const MAGIC := 0x1ea0_1ea0      // RT_MEMHEAP_MAGIC
  const USED := 0x1ea0_1ea1       // the same with RT_MEMHEAP_USED

  // magic, pool_ptr, next, prev, next_free, prev_free. The block ring is closed, and what
  // is summed is the payload of the free blocks.
  function PoolShape(hi: int): Shape {
    Shape(RHDR, 2, 3, MAGIC, USED, POOL, hi, hi, POOL, true, MAGIC, RHDR)
  }

  // --- the two rings in one memory -----------------------------------------------------

  // x is a next_free or prev_free word of a header in s, or of the list header.
  ghost predicate RingWord(s: set<int>, x: int) {
    x == NF || x == PF || x - NF in s || x - PF in s
  }

  // c differs from a in such words at most.
  ghost predicate RingWrites(a: seq<int>, c: seq<int>, s: set<int>) {
    |c| == |a| && forall x :: 0 <= x < |a| && !RingWord(s, x) ==> c[x] == a[x]
  }

  lemma {:induction false} RingWritesSame(hi: int, a: seq<int>, c: seq<int>, s: set<int>)
    requires Chain(PoolShape(hi), a, s) && RingWrites(a, c, s)
    ensures SameHeaders(PoolShape(hi), a, c, s)
  {
    var sh := PoolShape(hi);
    forall b | b in s
      ensures SameHeader(sh, a, c, b)
    {
      forall y | y in s
        ensures y == b || y + RHDR <= b || b + RHDR <= y
      {
        if y < b { Apart(sh, a, s, y, b); } else if b < y { Apart(sh, a, s, b, y); }
      }
    }
  }

  // What one step on the free ring leaves as it was.
  ghost predicate Aside(hi: int, a: seq<int>, c: seq<int>, s: set<int>) {
    var sh := PoolShape(hi);
    && Unnoticed(sh, a, s, c, s) && SameHeaders(sh, a, c, s)
    && Sum(sh, c, s, POOL) == Sum(sh, a, s, POOL)
    && (Coalesced(sh, a, s) ==> Coalesced(sh, c, s))
    && (forall b :: FreeAt(sh, c, s, b) <==> FreeAt(sh, a, s, b))
  }

  lemma {:induction false} RingWritesKeep(hi: int, a: seq<int>, c: seq<int>, s: set<int>, q: int, w: int)
    requires Chain(PoolShape(hi), a, s) && RingWrites(a, c, s) && Live(PoolShape(hi), a, s, q, w)
    ensures Kept(a, c, q, w)
  {
    var sh := PoolShape(hi);
    assert Link(sh, a, s, q - RHDR);
    forall x | q <= x < q + w
      ensures c[x] == a[x]
    {
      if x - NF in s { PayloadClear(sh, a, s, q - RHDR, x - NF, x); }
      if x - PF in s { PayloadClear(sh, a, s, q - RHDR, x - PF, x); }
    }
  }

  lemma {:induction false} RingWritesAside(hi: int, a: seq<int>, c: seq<int>, s: set<int>)
    requires Chain(PoolShape(hi), a, s) && RingWrites(a, c, s)
    ensures Aside(hi, a, c, s)
  {
    var sh := PoolShape(hi);
    RingWritesSame(hi, a, c, s);
    forall q, w | Live(sh, a, s, q, w)
      ensures Kept(a, c, q, w)
    {
      RingWritesKeep(hi, a, c, s, q, w);
    }
    SameUnnoticed(sh, a, c, s);
    SameSum(sh, a, c, s, POOL);
    SameCoalesced(sh, a, c, s, 0);
    forall b
      ensures FreeAt(sh, c, s, b) <==> FreeAt(sh, a, s, b)
    {
      SameFree(sh, a, c, s, b);
    }
  }

  // Every block on the ring starts at a header.
  ghost predicate Inside(g: seq<int>, s: set<int>) {
    forall b :: OnRing(g, b) ==> b in s
  }

  // The ring words of headers survive writes to their other words.
  lemma {:induction false} RingKept(a: seq<int>, c: seq<int>, g: seq<int>, s: set<int>)
    requires Ring(a, g) && Inside(g, s) && |c| == |a|
    requires SameHop(a, c, 0) && forall y :: y in s ==> SameHop(a, c, y)
    ensures Ring(c, g)
  {
    forall y | y in g
      ensures SameHop(a, c, y)
    {
      assert y == 0 || OnRing(g, y);
    }
    RingSame(a, c, g);
  }

  lemma {:induction false} SplitRing(hi: int, a: seq<int>, c: seq<int>, s: set<int>, p: int, p2: int, g: seq<int>)
    requires Chain(PoolShape(hi), a, s) && Block(PoolShape(hi), s, p) && SplitWrites(PoolShape(hi), a, c, s, p, p2)
    requires Ring(a, g) && Inside(g, s)
    ensures Ring(c, g) && Inside(g, s + {p2})
  {
    var sh := PoolShape(hi);
    var next := a[p + sh.nx];
    forall y | y in s
      ensures SameHop(a, c, y)
    {
      if y < p { Apart(sh, a, s, y, p); } else if p < y { Apart(sh, a, s, p, y); }
      if y < next { Apart(sh, a, s, y, next); } else if next < y { Apart(sh, a, s, next, y); }
    }
    RingKept(a, c, g, s);
  }

  lemma {:induction false} MergeRing(hi: int, a: seq<int>, c: seq<int>, s: set<int>, p: int, g: seq<int>)
    requires Chain(PoolShape(hi), a, s) && Block(PoolShape(hi), s, p) && MergeWrites(PoolShape(hi), a, c, s, p)
    requires Ring(a, g) && Inside(g, s) && !OnRing(g, a[p + 2])
    ensures Ring(c, g) && Inside(g, s - {a[p + 2]})
  {
    var sh := PoolShape(hi);
    var far := a[a[p + sh.nx] + sh.nx];
    forall y | y in s
      ensures SameHop(a, c, y)
    {
      if y < p { Apart(sh, a, s, y, p); } else if p < y { Apart(sh, a, s, p, y); }
      if y < far { Apart(sh, a, s, y, far); } else if far < y { Apart(sh, a, s, far, y); }
    }
    RingKept(a, c, g, s);
  }

  lemma {:induction false} MarkRing(hi: int, a: seq<int>, s: set<int>, p: int, v: int, g: seq<int>)
    requires Chain(PoolShape(hi), a, s) && Block(PoolShape(hi), s, p)
    requires Ring(a, g) && Inside(g, s)
    ensures 0 <= p < |a| && Ring(a[p := v], g)
  {
    var sh := PoolShape(hi);
    assert Link(sh, a, s, p);
    forall y | y in s
      ensures SameHop(a, a[p := v], y)
    {
      if y < p { Apart(sh, a, s, y, p); } else if p < y { Apart(sh, a, s, p, y); }
    }
    RingKept(a, a[p := v], g, s);
  }

  lemma {:induction false} UnlinkedAside(hi: int, a: seq<int>, c: seq<int>, s: set<int>, g: seq<int>, k: int)
    requires Chain(PoolShape(hi), a, s) && Ring(a, g) && Inside(g, s) && UnlinkWrites(a, c, g, k)
    ensures Aside(hi, a, c, s) && Ring(c, Without(g, k)) && Inside(Without(g, k), s)
    ensures forall b :: OnRing(Without(g, k), b) <==> OnRing(g, b) && b != g[k]
  {
    assert forall i :: 0 < i < |g| - 1 ==> OnRing(g, g[i]);
    RingWritesAside(hi, a, c, s);
    Unlinked(a, c, g, k);
    forall b
      ensures OnRing(Without(g, k), b) <==> OnRing(g, b) && b != g[k]
    {
      WithoutMembers(g, k, b);
    }
  }

  lemma {:induction false} PushedAside(hi: int, a: seq<int>, c: seq<int>, s: set<int>, g: seq<int>, x: int)
    requires Chain(PoolShape(hi), a, s) && Ring(a, g) && Inside(g, s) && PushWrites(a, c, g, x)
    requires Block(PoolShape(hi), s, x) && !OnRing(g, x)
    ensures Aside(hi, a, c, s) && Ring(c, Push(g, x)) && Inside(Push(g, x), s)
    ensures forall b :: OnRing(Push(g, x), b) <==> OnRing(g, b) || b == x
  {
    assert forall i :: 0 < i < |g| - 1 ==> OnRing(g, g[i]);
    RingWritesAside(hi, a, c, s);
    forall i | 0 < i < |g| - 1
      ensures Clear(g[i], x)
    {
      if g[i] < x { Apart(PoolShape(hi), a, s, g[i], x); } else { Apart(PoolShape(hi), a, s, x, g[i]); }
    }
    Pushed(a, c, g, x);
    forall b
      ensures OnRing(Push(g, x), b) <==> b == x || OnRing(g, b)
    {
      PushMembers(g, x, b);
    }
  }

  // The owner of a used block may write its payload.
  lemma {:induction false} WriteRings(hi: int, a: seq<int>, c: seq<int>, s: set<int>, p: int, g: seq<int>)
    requires Chain(PoolShape(hi), a, s) && Block(PoolShape(hi), s, p) && PayloadWrites(PoolShape(hi), a, c, s, p)
    requires Ring(a, g) && Inside(g, s) && a[p] == USED
    ensures Ring(c, g) && Noticed(PoolShape(hi), a, s, c, s, p + RHDR, Payload(PoolShape(hi), a, p))
    ensures Sum(PoolShape(hi), c, s, POOL) == Sum(PoolShape(hi), a, s, POOL)
    ensures Coalesced(PoolShape(hi), a, s) ==> Coalesced(PoolShape(hi), c, s)
    ensures forall b :: FreeAt(PoolShape(hi), c, s, b) <==> FreeAt(PoolShape(hi), a, s, b)
  {
    var sh := PoolShape(hi);
    WriteSame(sh, a, c, s, p);
    WriteNoticed(sh, a, c, s, p);
    SameSum(sh, a, c, s, POOL);
    SameCoalesced(sh, a, c, s, 0);
    forall b
      ensures FreeAt(sh, c, s, b) <==> FreeAt(sh, a, s, b)
    {
      SameFree(sh, a, c, s, b);
    }
    forall y | y in s
      ensures SameHop(a, c, y)
    {
      if y < p { Apart(sh, a, s, y, p); } else if p < y { Apart(sh, a, s, p, y); }
    }
    RingKept(a, c, g, s);
  }

  // A heap gives out no more than is free: a block that fits is refused only if it is all
  // the free memory there is, and fits without remainder.
  lemma {:induction false} FreeIsSummed(hi: int, a: seq<int>, s: set<int>, b: int, c: int)
    requires Chain(PoolShape(hi), a, s) && FreeAt(PoolShape(hi), a, s, b) && c in s && c <= b
    ensures 0 <= Payload(PoolShape(hi), a, b) <= Sum(PoolShape(hi), a, s, c)
    decreases hi - c
  {
    var sh := PoolShape(hi);
    assert Link(sh, a, s, c) && Link(sh, a, s, b);
    if c < b {
      assert Ordered(sh, a, s, c, b);
      FreeIsSummed(hi, a, s, b, a[c + 2]);
    } else {
      SumPositive(hi, a, s, a[c + 2]);
    }
  }

  lemma {:induction false} SumPositive(hi: int, a: seq<int>, s: set<int>, c: int)
    requires Chain(PoolShape(hi), a, s) && c in s
    ensures 0 <= Sum(PoolShape(hi), a, s, c)
    decreases hi - c
  {
    if c != hi {
      assert Link(PoolShape(hi), a, s, c);
      SumPositive(hi, a, s, a[c + 2]);
    }
  }

  lemma {:induction false} RefusedOnlyIfAll(hi: int, a: seq<int>, s: set<int>, b: int, n: int)
    requires Chain(PoolShape(hi), a, s) && FreeAt(PoolShape(hi), a, s, b) && Payload(PoolShape(hi), a, b) >= n
    ensures n >= Sum(PoolShape(hi), a, s, POOL) <==>
            Payload(PoolShape(hi), a, b) == n == Sum(PoolShape(hi), a, s, POOL)
  {
    FreeIsSummed(hi, a, s, b, POOL);
  }

  // --- joining a freed block with its neighbours ----------------------------------------

  // Every free block but p has a used one behind it.
  ghost predicate Lonely(sh: Shape, a: seq<int>, s: set<int>, p: int) {
    forall b {:trigger FreeAt(sh, a, s, b)} ::
      FreeAt(sh, a, s, b) && b != p ==> Link(sh, a, s, b) && a[a[b + sh.nx]] == sh.used
  }

  // With a used block in front, a freed block is the only one free next to another.
  lemma {:induction false} LonelyBehindUsed(sh: Shape, a: seq<int>, s: set<int>, p: int, mem: int)
    requires Chain(sh, a, s) && CoalescedBut(sh, a, s, mem) && Block(sh, s, p) && Block(sh, s, mem)
    requires Link(sh, a, s, p) && a[p + sh.nx] == mem && a[p] == sh.used
    ensures Lonely(sh, a, s, mem)
  {
    forall b | FreeAt(sh, a, s, b) && b != mem
      ensures Link(sh, a, s, b) && a[a[b + sh.nx]] == sh.used
    {
      assert Ordered(sh, a, s, b, p) && Ordered(sh, a, s, p, b);
    }
  }

  // So it is if it starts the pool.
  lemma {:induction false} LonelyFirst(sh: Shape, a: seq<int>, s: set<int>)
    requires Chain(sh, a, s) && CoalescedBut(sh, a, s, sh.lo)
    ensures Lonely(sh, a, s, sh.lo)
  {
    forall b | FreeAt(sh, a, s, b) && b != sh.lo
      ensures Link(sh, a, s, b) && a[a[b + sh.nx]] == sh.used
    {
      assert Link(sh, a, s, b);
    }
  }

  // Joined with the free block p in front of it, that one is.
  lemma {:induction false} LonelyJoined(sh: Shape, a: seq<int>, c: seq<int>, s: set<int>, p: int)
    requires Chain(sh, a, s) && FreeAt(sh, a, s, p) && MergeWrites(sh, a, c, s, p)
    requires CoalescedBut(sh, a, s, a[p + sh.nx])
    ensures Chain(sh, c, s - {a[p + sh.nx]}) && Lonely(sh, c, s - {a[p + sh.nx]}, p)
  {
    var mem, t := a[p + sh.nx], s - {a[p + sh.nx]};
    MergeChain(sh, a, c, s, p);
    forall b | FreeAt(sh, c, t, b) && b != p
      ensures Link(sh, c, t, b) && c[c[b + sh.nx]] == sh.used
    {
      MergeLink(sh, a, c, s, p, b);
      assert FreeAt(sh, a, s, b) && Link(sh, a, s, b);
      assert Ordered(sh, a, s, b, p) && Ordered(sh, a, s, p, b);
      MergeFlag(sh, a, c, s, p, c[b + sh.nx]);
    }
  }

  // Joined with the free block behind it, nothing free is left next to another.
  lemma {:induction false} CoalescedJoined(sh: Shape, a: seq<int>, c: seq<int>, s: set<int>, p: int)
    requires Chain(sh, a, s) && Block(sh, s, p) && MergeWrites(sh, a, c, s, p) && Lonely(sh, a, s, p)
    ensures Chain(sh, c, s - {a[p + sh.nx]}) && Coalesced(sh, c, s - {a[p + sh.nx]})
  {
    var t := s - {a[p + sh.nx]};
    MergeChain(sh, a, c, s, p);
    assert FreeAt(sh, a, s, a[p + sh.nx]);
    forall b | FreeAt(sh, c, t, b)
      ensures Link(sh, c, t, b) && c[c[b + sh.nx]] == sh.used
    {
      MergeLink(sh, a, c, s, p, b);
      assert FreeAt(sh, a, s, b) && Link(sh, a, s, b);
      assert Ordered(sh, a, s, b, p) && Ordered(sh, a, s, p, b);
      MergeFlag(sh, a, c, s, p, c[b + sh.nx]);
    }
  }

  // Joining the block at p, free or used, with the free block behind it: everything at once.
  lemma {:induction false} JoinedRight(hi: int, a: seq<int>, c: seq<int>, s: set<int>, p: int)
    requires Chain(PoolShape(hi), a, s) && Block(PoolShape(hi), s, p) && MergeWrites(PoolShape(hi), a, c, s, p)
    requires Lonely(PoolShape(hi), a, s, p)
    ensures var sh, d, t := PoolShape(hi), a[p + 2], s - {a[p + 2]};
            && Chain(sh, c, t) && Coalesced(sh, c, t) && Link(sh, c, t, p) && c[p] == a[p]
            && c[p + 2] == a[d + 2] && c[c[p + 2]] == USED
            && (a[p] == MAGIC ==> Unnoticed(sh, a, s, c, t))
            && (a[p] == USED ==> Noticed(sh, a, s, c, t, p + RHDR, Payload(sh, c, p))
                                 && Kept(a, c, p + RHDR, Payload(sh, a, p)))
            && Sum(sh, c, t, POOL) == Sum(sh, a, s, POOL) + (if a[p] == MAGIC then RHDR else -Payload(sh, a, d))
            && (forall b :: FreeAt(sh, c, t, b) <==> FreeAt(sh, a, s, b) && b != d)
  {
    var sh := PoolShape(hi);
    CoalescedJoined(sh, a, c, s, p);
    MergeLink(sh, a, c, s, p, p);
    assert FreeAt(sh, a, s, a[p + 2]);
    MergeFlag(sh, a, c, s, p, c[p + 2]);
    MergeSum(sh, a, c, s, p, POOL);
    if a[p] == MAGIC {
      MergeUnnoticed(sh, a, c, s, p);
    } else {
      MergeNoticed(sh, a, c, s, p);
    }
    forall b
      ensures FreeAt(sh, c, s - {a[p + 2]}, b) <==> FreeAt(sh, a, s, b) && b != a[p + 2]
    {
      MergeFree(sh, a, c, s, p, b);
    }
  }

  // Joining a freed block with the free block in front of it.
  lemma {:induction false} JoinedLeft(hi: int, a: seq<int>, c: seq<int>, s: set<int>, p: int)
    requires Chain(PoolShape(hi), a, s) && FreeAt(PoolShape(hi), a, s, p) && MergeWrites(PoolShape(hi), a, c, s, p)
    requires CoalescedBut(PoolShape(hi), a, s, a[p + 2])
    ensures var sh, d, t := PoolShape(hi), a[p + 2], s - {a[p + 2]};
            && Lonely(sh, c, t, p) && Unnoticed(sh, a, s, c, t)
            && Sum(sh, c, t, POOL) == Sum(sh, a, s, POOL) + RHDR
            && (forall b :: FreeAt(sh, c, t, b) <==> FreeAt(sh, a, s, b) && b != d)
  {
    LonelyJoined(PoolShape(hi), a, c, s, p);
    Merged(PoolShape(hi), a, c, s, p);
  }

  lemma {:induction false} LonelyAside(hi: int, a: seq<int>, c: seq<int>, s: set<int>, p: int)
    requires Aside(hi, a, c, s) && Lonely(PoolShape(hi), a, s, p)
    ensures Lonely(PoolShape(hi), c, s, p)
  {
    var sh := PoolShape(hi);
    forall b | FreeAt(sh, c, s, b) && b != p
      ensures Link(sh, c, s, b) && c[c[b + sh.nx]] == sh.used
    {
      assert FreeAt(sh, a, s, b) && Link(sh, a, s, b);
      assert SameHeader(sh, a, c, b) && SameHeader(sh, a, c, a[b + sh.nx]);
    }
  }

  // A step on the free ring, then the join.
  lemma {:induction false} JoinedAside(hi: int, a: seq<int>, b: seq<int>, c: seq<int>, s: set<int>, p: int)
    requires Aside(hi, a, b, s) && Block(PoolShape(hi), s, p) && Link(PoolShape(hi), a, s, p)
    requires MergeWrites(PoolShape(hi), b, c, s, p) && Lonely(PoolShape(hi), a, s, p)
    ensures var sh, d, t := PoolShape(hi), a[p + 2], s - {a[p + 2]};
            && Chain(sh, c, t) && Coalesced(sh, c, t) && Link(sh, c, t, p) && c[p] == a[p]
            && 0 <= d < |a| - 2 && c[p + 2] == a[d + 2] && c[c[p + 2]] == USED
            && (a[p] == MAGIC ==> Unnoticed(sh, a, s, c, t))
            && (a[p] == USED ==> Noticed(sh, a, s, c, t, p + RHDR, Payload(sh, c, p))
                                 && Kept(a, c, p + RHDR, Payload(sh, a, p)))
            && Sum(sh, c, t, POOL) == Sum(sh, a, s, POOL) + (if a[p] == MAGIC then RHDR else -Payload(sh, a, d))
            && (forall y :: FreeAt(sh, c, t, y) <==> FreeAt(sh, a, s, y) && y != d)
  {
    var sh := PoolShape(hi);
    assert SameHeader(sh, a, b, p) && SameHeader(sh, a, b, a[p + 2]);
    LonelyAside(hi, a, b, s, p);
    JoinedRight(hi, b, c, s, p);
    if a[p] == MAGIC {
      UnnoticedTwice(sh, a, s, b, s, c, s - {a[p + 2]});
    } else {
      NoticedAfter(sh, a, s, b, s, c, s - {a[p + 2]}, p + RHDR, Payload(sh, c, p));
      assert Live(sh, a, s, p + RHDR, Payload(sh, a, p));
    }
  }

  // Nothing free is left next to another if the one exception has a used block behind it.
  lemma {:induction false} LonelyCoalesced(sh: Shape, a: seq<int>, s: set<int>, p: int)
    requires Chain(sh, a, s) && Lonely(sh, a, s, p) && Link(sh, a, s, p) && a[a[p + sh.nx]] == sh.used
    ensures Coalesced(sh, a, s)
  {
  }

  // the words rt_memheap_alloc sets out to find
  function Request(bytes: nat): int { Max(Words(bytes), MIN_ALLOC) }

  // g[k] is the first block of the walk g that can hold n words, or the list header if
  // there is none.
  ghost predicate FirstOnRing(hi: int, a: seq<int>, g: seq<int>, n: int, k: int) {
    && 0 < k < |g| && (forall i :: 0 < i < k ==> Payload(PoolShape(hi), a, g[i]) < n)
    && (if k == |g| - 1 then g[k] == 0 else g[k] != 0 && Payload(PoolShape(hi), a, g[k]) >= n)
  }

  // g[k] is the first block of the walk that holds so many bytes, or the list header.
  ghost predicate FirstHolding(hi: int, a: seq<int>, g: seq<int>, bytes: int, k: int) {
    && 0 < k < |g| && (forall i :: 0 < i < k ==> 4 * Payload(PoolShape(hi), a, g[i]) < bytes)
    && (if k == |g| - 1 then g[k] == 0 else g[k] != 0 && bytes <= 4 * Payload(PoolShape(hi), a, g[k]))
  }

  lemma {:induction false} FirstInBytes(hi: int, a: seq<int>, g: seq<int>, bytes: nat, k: int)
    ensures FirstOnRing(hi, a, g, Request(bytes), k) <==> FirstHolding(hi, a, g, Max(bytes, 4 * MIN_ALLOC), k)
  {
    forall i | 0 <= i < |g|
      ensures Request(bytes) <= Payload(PoolShape(hi), a, g[i]) <==>
                Max(bytes, 4 * MIN_ALLOC) <= 4 * Payload(PoolShape(hi), a, g[i])
    {
      WordsHold(bytes, MIN_ALLOC, Payload(PoolShape(hi), a, g[i]));
    }
  }

  // What is so in words, in bytes: w words of which n or more are asked for.
  lemma WordsNear(bytes: nat, w: int)
    ensures Request(bytes) <= w <==> Max(bytes, 4 * MIN_ALLOC) <= 4 * w
    ensures w < Request(bytes) + RHDR + MIN_ALLOC ==> 4 * w < Max(bytes, 4 * MIN_ALLOC) + 4 * (RHDR + MIN_ALLOC)
    ensures w <= Request(bytes) ==> 4 * w < Max(bytes, 4 * MIN_ALLOC) + 4
    ensures w <= Request(bytes) + RHDR + MIN_ALLOC ==>
              4 * w < Max(bytes, 4 * MIN_ALLOC) + 4 * (RHDR + MIN_ALLOC) + 4
  {
  }

  // The rings rt_memheap_init sets up.
  lemma {:induction false} FreshRings(hi: int, a: seq<int>)
    requires POOL + RHDR <= hi && |a| == hi + RHDR
    requires a[NF] == POOL && a[PF] == POOL
    requires a[POOL] == MAGIC && a[POOL + 2] == hi && a[POOL + 3] == hi && a[POOL + NF] == 0 && a[POOL + PF] == 0
    requires a[hi] == USED && a[hi + 2] == POOL && a[hi + 3] == POOL
    ensures Chain(PoolShape(hi), a, {POOL, hi}) && Coalesced(PoolShape(hi), a, {POOL, hi})
    ensures Ring(a, [0, POOL, 0]) && Sum(PoolShape(hi), a, {POOL, hi}, POOL) == hi - POOL - RHDR
    ensures forall b :: OnRing([0, POOL, 0], b) <==> FreeAt(PoolShape(hi), a, {POOL, hi}, b)
  {
    var sh, s := PoolShape(hi), {POOL, hi};
    assert Link(sh, a, s, POOL);
    assert Sum(sh, a, s, POOL) == Weight(sh, a, POOL) + Sum(sh, a, s, hi);
  }

  // A fresh heap of ten free words, all of which are asked for: refused, though they are there.
  lemma {:induction false} AllRefused()
    ensures var a := [0, 0, 0, 0, POOL, POOL, MAGIC, 0, 22, 22, 0, 0, 0, 0, 0, 0, 0, 0, 0, 0, 0, 0, USED, 0, POOL,
              POOL, -1, -1];
            && Chain(PoolShape(22), a, {POOL, 22}) && Ring(a, [0, POOL, 0])
                 && FreeAt(PoolShape(22), a, {POOL, 22}, POOL)
            && Payload(PoolShape(22), a, POOL) == 10 == Sum(PoolShape(22), a, {POOL, 22}, POOL)
  {
    FreshRings(22, [0, 0, 0, 0, POOL, POOL, MAGIC, 0, 22, 22, 0, 0, 0, 0, 0, 0, 0, 0, 0, 0, 0, 0, USED, 0, POOL, POOL,
        -1, -1]);
  }

  // --- the heap object -------------------------------------------------------------------

  const NULL := -1

  class Pool {
    const hi: int               // the tail block
    const mem: array<int>
    var available: int          // available_size
    var maxUsed: int            // max_used_size
    ghost var heads: set<int>   // where blocks start
    ghost var ring: seq<int>    // the walk through the free blocks

    ghost function Sh(): Shape { PoolShape(hi) }

    function PoolSize(): int { hi + RHDR - POOL }

    // Both rings are sound.
    ghost predicate Linked()
      reads this, mem
    {
      Chain(Sh(), mem[..], heads) && Ring(mem[..], ring) && Inside(ring, heads)
    }

    // The free ring holds exactly the free blocks.
    ghost predicate Members()
      reads this, mem
    {
      forall b :: OnRing(ring, b) <==> FreeAt(Sh(), mem[..], heads, b)
    }

    ghost predicate Valid()
      reads this, mem
    {
      && Linked() && Members() && Coalesced(Sh(), mem[..], heads)
      && available == Sum(Sh(), mem[..], heads, POOL)
      && PoolSize() - available <= maxUsed
    }

    constructor (words: nat)
      requires words >= 2 * RHDR
      ensures Valid() && fresh(mem)
      ensures PoolSize() == words && heads == {POOL, hi} && ring == [0, POOL, 0]
      ensures available == words - 2 * RHDR && maxUsed == words - available
    {
      hi := POOL + words - RHDR;
      mem := new int[POOL + words];
      available, maxUsed := words - 2 * RHDR, 2 * RHDR;
      heads, ring := {POOL, POOL + words - RHDR}, [0, POOL, 0];
      new;
      LayOut();
      FreshRings(hi, mem[..]);
    }

    // The list header, the first block and the tail.
    method LayOut()
      requires POOL + RHDR <= hi && mem.Length == hi + RHDR
      modifies mem
      ensures mem[NF] == POOL && mem[PF] == POOL
      ensures mem[POOL] == MAGIC && mem[POOL + 2] == hi && mem[POOL + 3] == hi && mem[POOL + NF] == 0
                && mem[POOL + PF] == 0
      ensures mem[hi] == USED && mem[hi + 2] == POOL && mem[hi + 3] == POOL
    {
      mem[NF], mem[PF] := 0, 0;
      mem[POOL], mem[POOL + 1], mem[POOL + 2], mem[POOL + 3] := MAGIC, 0, hi, hi;
      mem[POOL + NF], mem[POOL + PF] := mem[NF], 0;
      mem[mem[NF] + PF] := POOL;
      mem[NF] := POOL;
      mem[hi], mem[hi + 1], mem[hi + 2], mem[hi + 3], mem[hi + NF], mem[hi + PF] := USED, 0, POOL, POOL, NULL, NULL;
    }

    // Take the free block at x out of the free ring.
    method Unlink(x: int, ghost k: int, clear: bool)
      requires Linked() && 0 < k < |ring| - 1 && ring[k] == x
      modifies this`ring, mem
      ensures Linked() && ring == Without(old(ring), k)
      ensures forall b :: OnRing(ring, b) <==> OnRing(old(ring), b) && b != x
      ensures Aside(hi, old(mem[..]), mem[..], heads)
    {
      ghost var a := mem[..];
      assert Hop(a, ring[k - 1], ring[k]) && Hop(a, ring[k], ring[k + 1]);
      assert OnRing(ring, x) && (k > 1 ==> OnRing(ring, ring[k - 1])) && (k < |ring| - 2 ==> OnRing(ring, ring[k + 1]));
      mem[mem[x + NF] + PF] := mem[x + PF];
      mem[mem[x + PF] + NF] := mem[x + NF];
      if clear {
        mem[x + NF], mem[x + PF] := NULL, NULL;
      }
      UnlinkedAside(hi, a, mem[..], heads, ring, k);
      ring := Without(ring, k);
    }

    // Put the block at x in front of the free ring.
    method LinkFront(x: int)
      requires Linked() && Block(Sh(), heads, x) && !OnRing(ring, x)
      modifies this`ring, mem
      ensures Linked() && ring == Push(old(ring), x)
      ensures forall b :: OnRing(ring, b) <==> OnRing(old(ring), b) || b == x
      ensures Aside(hi, old(mem[..]), mem[..], heads)
    {
      ghost var a := mem[..];
      assert Link(Sh(), a, heads, x) && Hop(a, ring[0], ring[1]);
      assert ring[1] == 0 || OnRing(ring, ring[1]);
      if ring[1] > x { Apart(Sh(), a, heads, x, ring[1]); } else if ring[1] != 0 { Apart(Sh(), a, heads, ring[1], x); }
      mem[x + NF] := mem[NF];
      mem[x + PF] := 0;
      mem[mem[NF] + PF] := x;
      mem[NF] := x;
      PushedAside(hi, a, mem[..], heads, ring, x);
      ring := Push(ring, x);
    }

    // Cut the block at p at p2, in the block ring.
    method Cut(p: int, p2: int)
      requires Linked() && Block(Sh(), heads, p) && Link(Sh(), mem[..], heads, p)
      requires p + RHDR <= p2 && p2 + RHDR <= mem[p + 2]
      modifies this`heads, mem
      ensures SplitWrites(Sh(), old(mem[..]), mem[..], old(heads), p, p2)
      ensures heads == old(heads) + {p2} && Linked()
    {
      ghost var a := mem[..];
      mem[p2], mem[p2 + 1] := MAGIC, 0;
      mem[p2 + 3], mem[p2 + 2] := p, mem[p + 2];
      mem[mem[p + 2] + 3] := p2;
      mem[p + 2] := p2;
      SplitChain(Sh(), a, mem[..], heads, p, p2);
      SplitRing(hi, a, mem[..], heads, p, p2, ring);
      heads := heads + {p2};
    }

    // Join the block at p with the block behind it, in the block ring.
    method Join(p: int)
      requires Linked() && Block(Sh(), heads, p) && Link(Sh(), mem[..], heads, p)
      requires FreeAt(Sh(), mem[..], heads, mem[p + 2]) && !OnRing(ring, mem[p + 2])
      modifies this`heads, mem
      ensures MergeWrites(Sh(), old(mem[..]), mem[..], old(heads), p)
      ensures heads == old(heads) - {old(mem[p + 2])} && Linked()
    {
      ghost var a := mem[..];
      var next := mem[p + 2];
      assert Link(Sh(), a, heads, next);
      mem[mem[next + 2] + 3] := p;
      mem[p + 2] := mem[next + 2];
      MergeChain(Sh(), a, mem[..], heads, p);
      MergeRing(hi, a, mem[..], heads, p, ring);
      heads := heads - {next};
    }

    // Set the magic word of the block at p.
    method Mark(p: int, v: int)
      requires Linked() && Block(Sh(), heads, p) && (v == USED || v == MAGIC)
      modifies mem
      ensures 0 <= p < mem.Length && mem[..] == old(mem[..])[p := v] && Linked()
    {
      ghost var a := mem[..];
      assert Link(Sh(), a, heads, p);
      MarkChain(Sh(), a, heads, p, v);
      MarkRing(hi, a, heads, p, v, ring);
      mem[p] := v;
      assert mem[..] == a[p := v];
    }

    twostate predicate Untouched()
      reads this, mem
    {
      && heads == old(heads) && ring == old(ring) && mem[..] == old(mem[..])
      && available == old(available) && maxUsed == old(maxUsed)
    }

    // The live payloads are the old ones, but that the one at q is now w words long
    // (or gone, if w is negative); the words of every other one are unchanged.
    twostate predicate OnlyChanged(q: int, w: int)
      reads this, mem
    {
      Noticed(Sh(), old(mem[..]), old(heads), mem[..], heads, q, w)
    }

    ghost predicate LiveAt(q: int, w: int)
      reads this, mem
    {
      Live(Sh(), mem[..], heads, q, w)
    }

    // number of words at q, if a payload starts there
    ghost function SizeAt(q: int): int
      reads this, mem
    {
      Payload(Sh(), mem[..], q - RHDR)
    }

    // The search loop of rt_memheap_alloc, along the free ring.
    method FindFit(n: int) returns (p: int, ghost k: int)
      requires Valid() && n > 0
      ensures FirstOnRing(hi, mem[..], ring, n, k) && p == ring[k]
      ensures if p != 0 then FreeAt(Sh(), mem[..], heads, p) && Payload(Sh(), mem[..], p) >= n
              else forall b :: FreeAt(Sh(), mem[..], heads, b) ==> Payload(Sh(), mem[..], b) < n
    {
      var freeSize := 0;
      p, k := mem[NF], 1;
      assert Hop(mem[..], ring[0], ring[1]);
      while p != 0 && freeSize < n
        invariant 0 < k < |ring| && p == ring[k]
        invariant forall i :: 0 < i < k ==> Payload(Sh(), mem[..], ring[i]) < n
        invariant freeSize >= n ==> p != 0 && Payload(Sh(), mem[..], p) >= n
        decreases |ring| - k, if freeSize < n then 1 else 0
      {
        assert OnRing(ring, p);
        assert Link(Sh(), mem[..], heads, p);
        freeSize := mem[p + 2] - p - RHDR;
        if freeSize < n {
          assert Hop(mem[..], ring[k], ring[k + 1]);
          p, k := mem[p + NF], k + 1;
        }
      }
    }

    // Cut the free block at p, off the free ring, at p2, and take its front part.
    method Carve(p: int, p2: int)
      requires Linked() && Coalesced(Sh(), mem[..], heads) && FreeAt(Sh(), mem[..], heads, p)
      requires Link(Sh(), mem[..], heads, p) && p + RHDR <= p2 && p2 + RHDR <= mem[p + 2]
      modifies this`heads, mem
      ensures Linked() && Coalesced(Sh(), mem[..], heads) && Block(Sh(), heads, p2) && p2 !in old(heads)
      ensures OnlyChanged(p + RHDR, p2 - p - RHDR)
      ensures Sum(Sh(), mem[..], heads, POOL) == old(Sum(Sh(), mem[..], heads, POOL)) - (p2 - p)
      ensures forall b :: FreeAt(Sh(), mem[..], heads, b) <==>
                          b == p2 || (b != p && FreeAt(Sh(), old(mem[..]), old(heads), b))
    {
      ghost var a, s := mem[..], heads;
      Cut(p, p2);
      ghost var c := mem[..];
      Mark(p, USED);
      assert Ordered(Sh(), a, s, p, p2);
      Carved(Sh(), a, c, s, p, p2);
    }

    // The part of rt_memheap_alloc that splits the block it found.
    method AllocCut(p: int, ghost k: int, n: int)
      requires Linked() && Members() && Coalesced(Sh(), mem[..], heads)
      requires 0 < k < |ring| - 1 && ring[k] == p && Link(Sh(), mem[..], heads, p)
      requires 0 < n && n + RHDR <= SizeAt(p + RHDR)
      modifies this`heads, this`ring, mem
      ensures Linked() && Members() && Coalesced(Sh(), mem[..], heads)
      ensures OnlyChanged(p + RHDR, n)
      ensures Sum(Sh(), mem[..], heads, POOL) == old(Sum(Sh(), mem[..], heads, POOL)) - (n + RHDR)
      ensures ring == Push(Without(old(ring), k), p + RHDR + n)
    {
      ghost var a, s := mem[..], heads;
      assert OnRing(ring, p);
      Unlink(p, k, true);
      ghost var b := mem[..];
      assert SameHeader(Sh(), a, b, p);
      Carve(p, p + RHDR + n);
      ghost var c, t := mem[..], heads;
      NoticedAfter(Sh(), a, s, b, s, c, t, p + RHDR, n);
      LinkFront(p + RHDR + n);
      NoticedBefore(Sh(), a, s, c, t, mem[..], t, p + RHDR, n);
    }

    // The part that takes the block as it is.
    method AllocWhole(p: int, ghost k: int)
      requires Linked() && Members() && Coalesced(Sh(), mem[..], heads)
      requires 0 < k < |ring| - 1 && ring[k] == p
      modifies this`ring, mem
      ensures Linked() && Members() && Coalesced(Sh(), mem[..], heads)
      ensures OnlyChanged(p + RHDR, old(SizeAt(p + RHDR)))
      ensures Sum(Sh(), mem[..], heads, POOL) == old(Sum(Sh(), mem[..], heads, POOL) - SizeAt(p + RHDR))
      ensures ring == Without(old(ring), k)
    {
      ghost var a := mem[..];
      assert OnRing(ring, p) && Link(Sh(), a, heads, p);
      Unlink(p, k, true);
      ghost var b := mem[..];
      assert SameHeader(Sh(), a, b, p);
      Taken(Sh(), b, heads, p);
      Mark(p, USED);
      NoticedAfter(Sh(), a, heads, b, heads, mem[..], heads, p + RHDR, Payload(Sh(), a, p));
    }

    // So much is not free, or not in one block.
    ghost predicate Refuses(n: int)
      reads this, mem
    {
      n >= available || forall b :: FreeAt(Sh(), mem[..], heads, b) ==> Payload(Sh(), mem[..], b) < n
    }

    ghost predicate RefusesBytes(bytes: nat)
      reads this, mem
    {
      || 4 * (available - 1) < Max(bytes, 4 * MIN_ALLOC)
      || forall b :: FreeAt(Sh(), mem[..], heads, b) ==> 4 * Payload(Sh(), mem[..], b) < Max(bytes, 4 * MIN_ALLOC)
    }

    lemma RefusedInBytes(bytes: nat)
      ensures Refuses(Request(bytes)) <==> RefusesBytes(bytes)
    {
      WordsNear(bytes, available - 1);
      forall b
        ensures Payload(Sh(), mem[..], b) < Request(bytes) <==>
                4 * Payload(Sh(), mem[..], b) < Max(bytes, 4 * MIN_ALLOC)
      {
        WordsNear(bytes, Payload(Sh(), mem[..], b));
      }
    }

    // The payload at q has room for so many bytes, and is not much larger; if its block was cut, it
    // is only what alignment and the smallest size ask for.
    twostate predicate Holds(q: int, bytes: nat)
      reads this, mem
    {
      && bytes <= 4 * SizeAt(q) < Max(bytes, 4 * MIN_ALLOC) + 4 * (RHDR + MIN_ALLOC)
      && (SizeAt(q) < old(SizeAt(q)) ==> 4 * SizeAt(q) < Max(bytes, 4 * MIN_ALLOC) + 4)
    }

    // What it costs to serve n words from a free block of w words.
    function Cost(w: int, n: int): int { if w >= n + RHDR + MIN_ALLOC then n + RHDR else w }

    // The payload at q was handed out to serve n words.
    twostate predicate Granted(q: int, n: int)
      reads this, mem
    {
      && LiveAt(q, SizeAt(q)) && n <= SizeAt(q) < n + RHDR + MIN_ALLOC
      && OnlyChanged(q, SizeAt(q))
      && SizeAt(q) == (if old(SizeAt(q)) >= n + RHDR + MIN_ALLOC then n else old(SizeAt(q)))
      && available == old(available - Cost(SizeAt(q), n))
    }

    // Take the block the search found.
    method Grant(p: int, ghost k: int, n: int)
      requires Valid() && 0 < k < |ring| - 1 && ring[k] == p && 0 < n <= SizeAt(p + RHDR)
      modifies this, mem
      ensures Valid() && maxUsed == Max(old(maxUsed), PoolSize() - available)
      ensures Granted(p + RHDR, n)
    {
      assert OnRing(ring, p) && Link(Sh(), mem[..], heads, p);
      var freeSize := mem[p + 2] - p - RHDR;
      if freeSize >= n + RHDR + MIN_ALLOC {
        AllocCut(p, k, n);
        assert LiveAt(p + RHDR, n);
        available := available - n - RHDR;
      } else {
        AllocWhole(p, k);
        assert LiveAt(p + RHDR, freeSize);
        available := available - freeSize;
      }
      if PoolSize() - available > maxUsed {
        maxUsed := PoolSize() - available;
      }
    }

    // rt_memheap_alloc
    method Alloc(bytes: nat) returns (r: Option<int>, ghost k: int)
      requires Valid()
      modifies this, mem
      ensures Valid() && maxUsed == Max(old(maxUsed), PoolSize() - available)
      ensures r.None? ==> Untouched()
      ensures r.None? <==> old(Refuses(Request(bytes)))
      // otherwise it takes the first block of the free ring that is large enough
      ensures r.Some? ==> FirstOnRing(hi, old(mem[..]), old(ring), Request(bytes), k)
                          && r.value == old(ring)[k] + RHDR
      ensures r.Some? ==> Granted(r.value, Request(bytes))
      // in bytes: what is refused, which block serves, and how much is handed out
      ensures r.None? <==> old(RefusesBytes(bytes))
      ensures r.Some? ==> FirstHolding(hi, old(mem[..]), old(ring), Max(bytes, 4 * MIN_ALLOC), k)
      ensures r.Some? ==> Holds(r.value, bytes)
    {
      ghost var a, g := mem[..], ring;
      RefusedInBytes(bytes);
      r, k := AllocWords(Request(bytes));
      if r.Some? {
        FirstInBytes(hi, a, g, bytes, k);
        WordsNear(bytes, SizeAt(r.value));
      }
    }

    method AllocWords(n: int) returns (r: Option<int>, ghost k: int)
      requires Valid() && n > 0
      modifies this, mem
      ensures Valid() && maxUsed == Max(old(maxUsed), PoolSize() - available)
      ensures r.None? ==> Untouched()
      ensures r.None? <==> old(Refuses(n))
      ensures r.Some? ==> FirstOnRing(hi, old(mem[..]), old(ring), n, k) && r.value == old(ring)[k] + RHDR
      ensures r.Some? ==> Granted(r.value, n)
    {
      k := 1;
      if n >= available {
        return None, k;
      }
      var p;
      p, k := FindFit(n);
      if p == 0 {
        return None, k;
      }
      assert OnRing(ring, p);
      Grant(p, k, n);
      return Some(p + RHDR), k;
    }

    // Members, but that the block at h, if free, is on the ring only if on says so.
    ghost predicate MembersBut(h: int, on: bool)
      reads this, mem
    {
      forall b :: OnRing(ring, b) <==> FreeAt(Sh(), mem[..], heads, b) && (b == h ==> on)
    }

    // Join the block at p with the free block behind it, in both rings.
    method JoinRight(p: int, ghost on: bool)
      requires Linked() && Block(Sh(), heads, p) && Link(Sh(), mem[..], heads, p)
      requires Lonely(Sh(), mem[..], heads, p) && FreeAt(Sh(), mem[..], heads, mem[p + 2])
      requires MembersBut(p, on)
      modifies this`heads, this`ring, mem
      ensures Linked() && Coalesced(Sh(), mem[..], heads) && MembersBut(p, on)
      ensures Dropped(old(ring), old(mem[p + 2]), ring)
      ensures Block(Sh(), heads, p) && Link(Sh(), mem[..], heads, p) && mem[p] == old(mem[p])
      ensures mem[p + 2] == old(mem[mem[p + 2] + 2]) && mem[mem[p + 2]] == USED
      ensures old(mem[p]) == MAGIC ==> Unnoticed(Sh(), old(mem[..]), old(heads), mem[..], heads)
      ensures old(mem[p]) == USED ==> OnlyChanged(p + RHDR, SizeAt(p + RHDR))
                                      && Kept(old(mem[..]), mem[..], p + RHDR, old(SizeAt(p + RHDR)))
      ensures Sum(Sh(), mem[..], heads, POOL) == old(Sum(Sh(), mem[..], heads, POOL))
              + (if old(mem[p]) == MAGIC then RHDR else -old(SizeAt(mem[p + 2] + RHDR)))
    {
      ghost var a, s := mem[..], heads;
      var next := mem[p + 2];
      assert OnRing(ring, next) && Link(Sh(), a, s, next);
      ghost var b := UnlinkAndJoin(p, next);
      JoinedAside(hi, a, b, mem[..], s, p);
    }

    method UnlinkAndJoin(p: int, next: int) returns (ghost b: seq<int>)
      requires Linked() && Block(Sh(), heads, p) && Link(Sh(), mem[..], heads, p) && next == mem[p + 2]
      requires FreeAt(Sh(), mem[..], heads, next) && OnRing(ring, next) && Link(Sh(), mem[..], heads, next)
      modifies this`heads, this`ring, mem
      ensures Linked() && forall x :: OnRing(ring, x) <==> old(OnRing(ring, x)) && x != next
      ensures Dropped(old(ring), next, ring)
      ensures Aside(hi, old(mem[..]), b, old(heads)) && MergeWrites(Sh(), b, mem[..], old(heads), p)
      ensures Link(Sh(), b, old(heads), p) && Link(Sh(), b, old(heads), next)
      ensures heads == old(heads) - {next} && b[p + 2] == next
    {
      ghost var a, s := mem[..], heads;
      ghost var k :| 0 <= k < |ring| && ring[k] == next;
      assert DroppedAt(ring, next, Without(ring, k), k);
      Unlink(next, k, false);
      b := mem[..];
      assert SameHeader(Sh(), a, b, p) && SameHeader(Sh(), a, b, next);
      assert Link(Sh(), b, s, p) && Link(Sh(), b, s, next);
      Join(p);
    }

    ghost predicate FreeHeader(b: int)
      reads mem
    {
      0 <= b < mem.Length && mem[b] == MAGIC
    }

    // The block behind the one at p if it is free, else 0.
    ghost function FreeBehind(p: int): int
      reads mem
    {
      if 0 <= p && p + 2 < mem.Length && FreeHeader(mem[p + 2]) then mem[p + 2] else 0
    }

    // The block at p if there is no free one in front of it, else 0.
    ghost function ToInsert(p: int): int
      reads mem
    {
      if 0 <= p && p + 3 < mem.Length && FreeHeader(mem[p + 3]) then 0 else p
    }

    // Join the freed block at p with a free one in front of it; h is the block it is in now.
    method JoinLeft(p: int) returns (h: int)
      requires Linked() && FreeAt(Sh(), mem[..], heads, p) && CoalescedBut(Sh(), mem[..], heads, p)
      requires MembersBut(p, false)
      modifies this`heads, mem
      ensures Linked() && FreeAt(Sh(), mem[..], heads, h) && Lonely(Sh(), mem[..], heads, h)
      ensures MembersBut(h, h != p) && ring == old(ring)
      ensures FreeBehind(h) == old(FreeBehind(p)) && (if h == p then p else 0) == old(ToInsert(p))
      ensures Unnoticed(Sh(), old(mem[..]), old(heads), mem[..], heads)
      ensures Sum(Sh(), mem[..], heads, POOL) == old(Sum(Sh(), mem[..], heads, POOL)) + (if h == p then 0 else RHDR)
    {
      ghost var a, s := mem[..], heads;
      assert Link(Sh(), a, s, p);
      if p != POOL {
        Predecessor(Sh(), a, s, p, POOL);
        assert Link(Sh(), a, s, a[p + 3]);
      }
      var prev := mem[p + 3];
      if mem[prev] != MAGIC {
        UnnoticedStill(Sh(), a, s);
        if p == POOL {
          LonelyFirst(Sh(), a, s);
        } else {
          LonelyBehindUsed(Sh(), a, s, prev, p);
        }
        return p;
      }
      Join(prev);
      JoinedLeft(hi, a, mem[..], s, prev);
      return prev;
    }

    // The joins of rt_memheap_free, and the insertion in the free ring.
    method Settle(p: int)
      requires Linked() && FreeAt(Sh(), mem[..], heads, p) && CoalescedBut(Sh(), mem[..], heads, p)
      requires MembersBut(p, false) && available == Sum(Sh(), mem[..], heads, POOL)
      modifies this`heads, this`ring, this`available, mem
      ensures Linked() && Members() && Coalesced(Sh(), mem[..], heads)
      ensures available == Sum(Sh(), mem[..], heads, POOL) >= old(available)
      ensures Unnoticed(Sh(), old(mem[..]), old(heads), mem[..], heads)
      ensures Reordered(old(ring), old(FreeBehind(p)), old(ToInsert(p)), ring)
    {
      ghost var a, s := mem[..], heads;
      var h := JoinLeft(p);
      if h != p {
        available := available + RHDR;
      }
      SettleRight(h, h == p, a, s);
    }

    // The second half: join the block at h with a free one behind it, and put it in front
    // of the free ring if it is not on it.
    method SettleRight(h: int, insert: bool, ghost a: seq<int>, ghost s: set<int>)
      requires Linked() && FreeAt(Sh(), mem[..], heads, h) && Lonely(Sh(), mem[..], heads, h)
      requires MembersBut(h, !insert) && available == Sum(Sh(), mem[..], heads, POOL)
      requires Unnoticed(Sh(), a, s, mem[..], heads)
      modifies this`heads, this`ring, this`available, mem
      ensures Linked() && Members() && Coalesced(Sh(), mem[..], heads)
      ensures available == Sum(Sh(), mem[..], heads, POOL) >= old(available)
      ensures Unnoticed(Sh(), a, s, mem[..], heads)
      ensures Reordered(old(ring), old(FreeBehind(h)), if insert then h else 0, ring)
    {
      ghost var b, t := mem[..], heads;
      assert Link(Sh(), b, t, h);
      assert mem[h + 2] != hi ==> Link(Sh(), b, t, mem[h + 2]);
      if mem[mem[h + 2]] == MAGIC {
        available := available + RHDR;
        JoinRight(h, !insert);
        UnnoticedTwice(Sh(), a, s, b, t, mem[..], heads);
      } else {
        LonelyCoalesced(Sh(), b, t, h);
      }
      ghost var g := ring;
      if insert {
        ghost var c := mem[..];
        LinkFront(h);
        UnnoticedTwice(Sh(), a, s, c, heads, mem[..], heads);
      }
      assert ReorderedBy(old(ring), old(FreeBehind(h)), if insert then h else 0, ring, g);
    }

    // Mark the block at p as available, and count it.
    method Release(p: int)
      requires Valid() && LiveAt(p + RHDR, SizeAt(p + RHDR)) && Link(Sh(), mem[..], heads, p)
      modifies this`available, mem
      ensures Linked() && FreeAt(Sh(), mem[..], heads, p) && CoalescedBut(Sh(), mem[..], heads, p)
      ensures MembersBut(p, false) && available == Sum(Sh(), mem[..], heads, POOL) >= old(available)
      ensures Noticed(Sh(), old(mem[..]), heads, mem[..], heads, p + RHDR, -1)
      ensures FreeBehind(p) == old(FreeBehind(p)) && ToInsert(p) == old(ToInsert(p))
    {
      if p != POOL {
        Predecessor(Sh(), mem[..], heads, p, POOL);
      }
      Freed(Sh(), mem[..], heads, p);
      Mark(p, MAGIC);
      available := available + (mem[p + 2] - p - RHDR);
    }

    // rt_memheap_free
    method Free(ptr: Option<int>)
      requires Valid() && (ptr.Some? ==> LiveAt(ptr.value, SizeAt(ptr.value)))
      modifies this`heads, this`ring, this`available, mem
      ensures Valid() && available >= old(available)
      ensures ptr.None? ==> Untouched()
      ensures ptr.Some? ==> OnlyChanged(ptr.value, -1)
      // a free block behind leaves the free ring; the one that is free now goes to its front, unless it
      // has become part of a free one in front of it
      ensures ptr.Some? ==>
                Reordered(old(ring), old(FreeBehind(ptr.value - RHDR)), old(ToInsert(ptr.value - RHDR)), ring)
    {
      if ptr.None? {
        return;
      }
      var p := ptr.value - RHDR;
      ghost var a, s := mem[..], heads;
      assert Link(Sh(), a, s, p);
      Release(p);
      ghost var b := mem[..];
      Settle(p);
      NoticedBefore(Sh(), a, s, b, s, mem[..], heads, ptr.value, -1);
    }

    // The part of rt_memheap_realloc that gives back the tail of a block.
    method Shrink(p: int, n: int)
      requires Valid() && LiveAt(p + RHDR, SizeAt(p + RHDR)) && 0 < n && n + RHDR <= SizeAt(p + RHDR)
      modifies this`heads, this`ring, this`available, mem
      ensures Valid() && available >= old(available)
      ensures OnlyChanged(p + RHDR, n) && Kept(old(mem[..]), mem[..], p + RHDR, n)
    {
      ghost var a, s := mem[..], heads;
      assert Link(Sh(), a, s, p);
      var p2 := p + RHDR + n;
      assert Ordered(Sh(), a, s, p, p2);
      Cut(p, p2);
      ghost var c, t := mem[..], heads;
      WasCut(Sh(), a, c, s, p, p2);
      assert Link(Sh(), c, t, p) && Live(Sh(), c, t, p + RHDR, n);
      LonelyBehindUsed(Sh(), c, t, p, p2);
      UnnoticedStill(Sh(), c, t);
      available := available + (mem[p2 + 2] - p2 - RHDR);
      SettleRight(p2, true, c, t);
      NoticedBefore(Sh(), a, s, c, t, mem[..], heads, p + RHDR, n);
    }

    // Does the free block behind the payload at q leave room to grow it to n words?
    ghost predicate Grows(q: int, n: int)
      reads this, mem
    {
      && 0 <= q - RHDR + 2 < mem.Length && FreeAt(Sh(), mem[..], heads, mem[q - RHDR + 2])
      && SizeAt(mem[q - RHDR + 2] + RHDR) + SizeAt(q) > n + MIN_ALLOC
    }

    // The part of rt_memheap_realloc that grows a block in place.
    method Grow(p: int, n: int)
      requires Valid() && LiveAt(p + RHDR, SizeAt(p + RHDR)) && n > SizeAt(p + RHDR) && Grows(p + RHDR, n)
      modifies this, mem
      ensures Valid() && maxUsed == Max(old(maxUsed), PoolSize() - available)
      ensures available == old(available - (n - SizeAt(p + RHDR)))
      ensures OnlyChanged(p + RHDR, n) && Kept(old(mem[..]), mem[..], p + RHDR, old(SizeAt(p + RHDR)))
    {
      var oldSize := mem[p + 2] - p - RHDR;
      available := available - (n - oldSize);
      if PoolSize() - available > maxUsed {
        maxUsed := PoolSize() - available;
      }
      GrowBlock(p, n);
    }

    method GrowBlock(p: int, n: int)
      requires Linked() && Members() && Coalesced(Sh(), mem[..], heads)
      requires LiveAt(p + RHDR, SizeAt(p + RHDR)) && n > SizeAt(p + RHDR) && Grows(p + RHDR, n)
      modifies this`heads, this`ring, mem
      ensures Linked() && Members() && Coalesced(Sh(), mem[..], heads)
      ensures OnlyChanged(p + RHDR, n) && Kept(old(mem[..]), mem[..], p + RHDR, old(SizeAt(p + RHDR)))
      ensures Sum(Sh(), mem[..], heads, POOL) == old(Sum(Sh(), mem[..], heads, POOL) + SizeAt(p + RHDR)) - n
    {
      ghost var a, s := mem[..], heads;
      assert Link(Sh(), a, s, p) && Link(Sh(), a, s, mem[p + 2]);
      JoinRight(p, false);
      ghost var b, t := mem[..], heads;
      GrowTail(p, n);
      NoticedNoticed(Sh(), a, s, b, t, mem[..], heads, p + RHDR, Payload(Sh(), b, p), n);
    }

    // Cut the grown block at p behind n words, and put the rest on the free ring.
    method GrowTail(p: int, n: int)
      requires Linked() && Members() && Coalesced(Sh(), mem[..], heads)
      requires LiveAt(p + RHDR, SizeAt(p + RHDR)) && 0 < n && n + RHDR <= SizeAt(p + RHDR)
      requires Link(Sh(), mem[..], heads, p) && mem[mem[p + 2]] == USED
      modifies this`heads, this`ring, mem
      ensures Linked() && Members() && Coalesced(Sh(), mem[..], heads)
      ensures OnlyChanged(p + RHDR, n) && Kept(old(mem[..]), mem[..], p + RHDR, n)
      ensures Sum(Sh(), mem[..], heads, POOL) == old(Sum(Sh(), mem[..], heads, POOL) + SizeAt(p + RHDR) - n - RHDR)
      ensures ring == Push(old(ring), p + RHDR + n)
    {
      ghost var a, s := mem[..], heads;
      var p2 := p + RHDR + n;
      assert Ordered(Sh(), a, s, p, p2);
      Cut(p, p2);
      ghost var c, t := mem[..], heads;
      WasCut(Sh(), a, c, s, p, p2);
      assert Link(Sh(), c, t, p) && Live(Sh(), c, t, p + RHDR, n) && Link(Sh(), c, t, p2);
      LonelyBehindUsed(Sh(), c, t, p, p2);
      SplitFlag(Sh(), a, c, s, p, p2, a[p + 2]);
      LonelyCoalesced(Sh(), c, t, p2);
      LinkFront(p2);
      NoticedBefore(Sh(), a, s, c, t, mem[..], heads, p + RHDR, n);
    }

    // Fill the start of the live payload at dst from outside of it.
    method Fill(dst: int, src: int, count: int)
      requires Valid() && LiveAt(dst, SizeAt(dst)) && 0 <= count <= SizeAt(dst)
      requires 0 <= dst && dst + count <= mem.Length && 0 <= src && src + count <= mem.Length
      requires src + count <= dst || dst + SizeAt(dst) <= src
      modifies mem
      ensures Valid() && SizeAt(dst) == old(SizeAt(dst)) && OnlyChanged(dst, SizeAt(dst))
      ensures forall x :: dst <= x < dst + count ==> mem[x] == old(mem[src + (x - dst)])
    {
      ghost var c := mem[..];
      assert Link(Sh(), c, heads, dst - RHDR);
      CopyWords(mem, dst, src, count);
      WriteRings(hi, c, mem[..], heads, dst - RHDR, ring);
    }

    // Start the payload at r, new since the memory was a, with the words of the one at q.
    method FillFrom(q: int, w: int, r: int, n: int, ghost a: seq<int>, ghost s: set<int>)
      requires Valid() && LiveAt(q, w) && LiveAt(r, SizeAt(r)) && q != r && 0 <= n <= SizeAt(r)
      requires Noticed(Sh(), a, s, mem[..], heads, r, SizeAt(r)) && Kept(a, mem[..], q, w)
      modifies mem
      ensures Valid() && SizeAt(r) == old(SizeAt(r)) && LiveAt(q, w) && LiveAt(r, SizeAt(r))
      ensures Noticed(Sh(), a, s, mem[..], heads, r, SizeAt(r)) && Starts(mem[..], r, n, a, q, w)
    {
      ghost var c, v := mem[..], SizeAt(r);
      assert Link(Sh(), c, heads, q - RHDR) && Link(Sh(), c, heads, r - RHDR);
      LiveDisjoint(Sh(), c, heads, q, w, r, v);
      Fill(r, q, if w < n then w else n);
      StillLive(Sh(), c, heads, mem[..], heads, r, v, q, w);
      NoticedNoticed(Sh(), a, s, c, heads, mem[..], heads, r, v, v);
      assert LiveAt(r, v);
    }

    // Allocate n words next to the payload at q.
    method AllocBeside(q: int, w: int, n: int) returns (r: Option<int>)
      requires Valid() && LiveAt(q, w) && n >= MIN_ALLOC
      modifies this, mem
      ensures Valid() && maxUsed == Max(old(maxUsed), PoolSize() - available)
      ensures r.None? ==> Untouched()
      ensures r.Some? ==> r.value != q && LiveAt(q, w) && Granted(r.value, n) && Kept(old(mem[..]), mem[..], q, w)
      ensures r.None? <==> old(Refuses(n))
    {
      ghost var a, s := mem[..], heads;
      ghost var k;
      r, k := Alloc(4 * n);
      if r.Some? {
        assert OnRing(old(ring), r.value - RHDR);
        StillLive(Sh(), a, s, mem[..], heads, r.value, SizeAt(r.value), q, w);
      }
    }

    // The same, and start them with its words.
    method Duplicate(q: int, w: int, n: int) returns (r: Option<int>)
      requires Valid() && LiveAt(q, w) && n >= MIN_ALLOC
      modifies this, mem
      ensures Valid() && maxUsed == Max(old(maxUsed), PoolSize() - available)
      ensures r.None? ==> Untouched()
      ensures r.Some? ==> r.value != q && LiveAt(q, w) && Granted(r.value, n)
      ensures r.Some? ==> Starts(mem[..], r.value, n, old(mem[..]), q, w)
      ensures r.None? <==> old(Refuses(n))
    {
      ghost var a, s := mem[..], heads;
      r := AllocBeside(q, w, n);
      if r.Some? {
        FillFrom(q, w, r.value, n, a, s);
      }
    }

    // Free the payload at q after it was copied to r, which is new since the memory was a.
    method FreeCopied(q: int, w: int, r: int, n: int, ghost a: seq<int>, ghost s: set<int>)
      requires Valid() && LiveAt(q, w) && LiveAt(r, SizeAt(r)) && q != r && n <= SizeAt(r)
      requires Noticed(Sh(), a, s, mem[..], heads, r, SizeAt(r)) && Starts(mem[..], r, n, a, q, w)
      modifies this`heads, this`ring, this`available, mem
      ensures Valid() && SizeAt(r) == old(SizeAt(r))
      ensures Moved(Sh(), a, s, mem[..], heads, q, r, SizeAt(r)) && Starts(mem[..], r, n, a, q, w)
    {
      ghost var c, t, v := mem[..], heads, SizeAt(r);
      Free(Some(q));
      NoticedMoved(Sh(), a, s, c, t, mem[..], heads, q, w, r, v, n);
    }

    // The part of rt_memheap_realloc that moves a payload of w words to a new place.
    method Relocate(q: int, w: int, n: int) returns (r: Option<int>)
      requires Valid() && LiveAt(q, w) && n >= MIN_ALLOC
      modifies this, mem
      ensures Valid()
      ensures r.None? ==> Untouched()
      ensures r.Some? ==> MovedTo(q, w, r.value, n)
      ensures r.None? <==> old(Refuses(n))
    {
      ghost var a, s := mem[..], heads;
      r := Duplicate(q, w, n);
      if r.Some? {
        FreeCopied(q, w, r.value, n, a, s);
      }
    }

    // The w words at q now live at r, where there is room for n words, and start with
    // the words they had; nobody else noticed. In between, both were allocated.
    twostate predicate MovedTo(q: int, w: int, r: int, n: int)
      reads this, mem
    {
      && r != q && n <= SizeAt(r) < n + RHDR + MIN_ALLOC && (SizeAt(r) < old(SizeAt(r)) ==> SizeAt(r) == n)
      && maxUsed == Max(old(maxUsed), PoolSize() - old(available - Cost(SizeAt(r), n)))
      && Moved(Sh(), old(mem[..]), old(heads), mem[..], heads, q, r, SizeAt(r))
      && Starts(mem[..], r, n, old(mem[..]), q, w)
    }

    // The payload at q has at least n words, keeps the first n or all it had, and nobody
    // else noticed.
    twostate predicate Resized(q: int, n: int)
      reads this, mem
    {
      && n <= SizeAt(q) && OnlyChanged(q, SizeAt(q)) && maxUsed == Max(old(maxUsed), PoolSize() - available)
      && Kept(old(mem[..]), mem[..], q, if n < old(SizeAt(q)) then n else old(SizeAt(q)))
    }

    method ReallocLive(q: int, n: int) returns (r: Option<int>)
      requires Valid() && LiveAt(q, SizeAt(q)) && n >= MIN_ALLOC
      modifies this, mem
      ensures Valid()
      ensures r.None? ==> Untouched()
      // it stays where it is if it need not grow, or can grow in place
      ensures r == Some(q) <==> n <= old(SizeAt(q)) || old(Grows(q, n))
      ensures r.None? <==> n > old(SizeAt(q)) && !old(Grows(q, n)) && old(Refuses(n))
      ensures r == Some(q) ==> Resized(q, n)
      ensures r == Some(q) && n != SizeAt(q) ==> n <= SizeAt(q) == old(SizeAt(q)) <= n + RHDR + MIN_ALLOC
      ensures r.Some? && r != Some(q) ==> MovedTo(q, old(SizeAt(q)), r.value, n)
    {
      assert Link(Sh(), mem[..], heads, q - RHDR);
      var oldSize := mem[q - RHDR + 2] - (q - RHDR) - RHDR;
      if n > oldSize {
        r := GrowOrMove(q, n);
      } else {
        ShrinkOrStay(q, n);
        r := Some(q);
      }
    }

    // The block is too small.
    method GrowOrMove(q: int, n: int) returns (r: Option<int>)
      requires Valid() && LiveAt(q, SizeAt(q)) && n >= MIN_ALLOC && n > SizeAt(q)
      modifies this, mem
      ensures Valid()
      ensures r.None? ==> Untouched()
      ensures r == Some(q) <==> old(Grows(q, n))
      ensures r.None? <==> !old(Grows(q, n)) && old(Refuses(n))
      ensures r == Some(q) ==> Resized(q, n) && SizeAt(q) == n
      ensures r.Some? && r != Some(q) ==> MovedTo(q, old(SizeAt(q)), r.value, n)
    {
      var p := q - RHDR;
      assert Link(Sh(), mem[..], heads, p);
      var oldSize, next := mem[p + 2] - p - RHDR, mem[p + 2];
      assert next != hi ==> Link(Sh(), mem[..], heads, next);
      if mem[next] == MAGIC && (mem[next + 2] - next - RHDR) + oldSize > n + MIN_ALLOC {
        Grow(p, n);
        assert LiveAt(q, n);
        return Some(q);
      }
      r := Relocate(q, oldSize, n);
    }

    // The block is large enough; what is more than enough is given back.
    method ShrinkOrStay(q: int, n: int)
      requires Valid() && LiveAt(q, SizeAt(q)) && MIN_ALLOC <= n <= SizeAt(q)
      modifies this, mem
      ensures Valid() && Resized(q, n)
      ensures n != SizeAt(q) ==> n <= SizeAt(q) == old(SizeAt(q)) <= n + RHDR + MIN_ALLOC
    {
      var p := q - RHDR;
      assert Link(Sh(), mem[..], heads, p);
      var oldSize := mem[p + 2] - p - RHDR;
      if n + RHDR + MIN_ALLOC >= oldSize {
        NoticedStill(Sh(), mem[..], heads, q, oldSize);
        return;
      }
      Shrink(p, n);
      assert LiveAt(q, n);
    }

    // The same, in bytes.
    ghost predicate GrowsBytes(q: int, bytes: nat)
      reads this, mem
    {
      && 0 <= q - RHDR + 2 < mem.Length && FreeAt(Sh(), mem[..], heads, mem[q - RHDR + 2])
      && Max(bytes, 4 * MIN_ALLOC) <= 4 * (SizeAt(mem[q - RHDR + 2] + RHDR) + SizeAt(q) - MIN_ALLOC - 1)
    }

    lemma GrowsInBytes(q: int, bytes: nat)
      ensures Grows(q, Request(bytes)) <==> GrowsBytes(q, bytes)
    {
      if 0 <= q - RHDR + 2 < mem.Length {
        WordsNear(bytes, SizeAt(mem[q - RHDR + 2] + RHDR) + SizeAt(q) - MIN_ALLOC - 1);
      }
    }

    // The payload at q stays where it is for so many bytes: it has room, or can grow.
    ghost predicate Stays(q: int, bytes: nat)
      reads this, mem
    {
      Max(bytes, 4 * MIN_ALLOC) <= 4 * SizeAt(q) || GrowsBytes(q, bytes)
    }

    // Then it has room for the bytes: just that, or what it had if that is not enough more for
    // another block.
    twostate predicate Left(q: int, bytes: nat)
      reads this, mem
    {
      && bytes <= 4 * SizeAt(q) < Max(bytes, 4 * MIN_ALLOC) + 4 * (RHDR + MIN_ALLOC) + 4
      && (SizeAt(q) != old(SizeAt(q)) ==> 4 * SizeAt(q) < Max(bytes, 4 * MIN_ALLOC) + 4)
    }

    method ReallocBlock(q: int, bytes: nat) returns (r: Option<int>)
      requires Valid() && LiveAt(q, SizeAt(q))
      modifies this, mem
      ensures Valid()
      ensures r.None? ==> Untouched()
      ensures r.None? <==> !old(Stays(q, bytes)) && old(RefusesBytes(bytes))
      ensures r == Some(q) <==> old(Stays(q, bytes))
      ensures r == Some(q) ==> Left(q, bytes) && Resized(q, Request(bytes))
      ensures r.Some? && r != Some(q) ==> MovedTo(q, old(SizeAt(q)), r.value, Request(bytes)) && Holds(r.value, bytes)
    {
      RefusedInBytes(bytes);
      GrowsInBytes(q, bytes);
      WordsNear(bytes, SizeAt(q));
      r := ReallocLive(q, Request(bytes));
      if r.Some? {
        WordsNear(bytes, SizeAt(r.value));
      }
    }

    // rt_memheap_alloc for a size that was aligned already
    method AllocAligned(bytes: nat) returns (r: Option<int>)
      requires Valid()
      modifies this, mem
      ensures Valid() && maxUsed == Max(old(maxUsed), PoolSize() - available)
      ensures r.None? ==> Untouched()
      ensures r.None? <==> old(RefusesBytes(bytes))
      ensures r.Some? ==> Granted(r.value, Request(bytes)) && Holds(r.value, bytes)
    {
      RefusedInBytes(bytes);
      ghost var k;
      r, k := Alloc(4 * Request(bytes));
      if r.Some? {
        WordsNear(bytes, SizeAt(r.value));
      }
    }

    // rt_memheap_realloc
    method Realloc(ptr: Option<int>, bytes: nat) returns (r: Option<int>)
      requires Valid() && (ptr.Some? ==> LiveAt(ptr.value, SizeAt(ptr.value)))
      modifies this, mem
      ensures Valid()
      // nothing asked for: the block is freed
      ensures bytes == 0 ==> r.None? && maxUsed == old(maxUsed) && if ptr.Some? then OnlyChanged(ptr.value, -1)
                else Untouched()
      // no place to move to: nothing happens
      ensures r.None? && bytes != 0 ==> Untouched()
      ensures bytes != 0 ==> (r.None? <==> old(RefusesBytes(bytes)) && (ptr.Some? ==> !old(Stays(ptr.value, bytes))))
      // there was no block: it is allocated
      ensures r.Some? && ptr.None? ==>
        && Granted(r.value, Request(bytes)) && Holds(r.value, bytes)
        && maxUsed == Max(old(maxUsed), PoolSize() - available)
      // the block stays, and may lose its tail or grow, or moves with its contents
      ensures bytes != 0 && ptr.Some? ==> (r == ptr <==> old(Stays(ptr.value, bytes)))
      ensures r.Some? && r == ptr ==> Left(r.value, bytes) && Resized(r.value, Request(bytes))
      ensures r.Some? && ptr.Some? && r != ptr ==>
                MovedTo(ptr.value, old(SizeAt(ptr.value)), r.value, Request(bytes)) && Holds(r.value, bytes)
    {
      if bytes == 0 {
        Free(ptr);
        return None;
      }
      if ptr.None? {
        r := AllocAligned(bytes);
        return;
      }
      r := ReallocBlock(ptr.value, bytes);
    }
  }
}
