/** An arena tiled by blocks, each behind a header that holds a flag and the offsets of
    its neighbours, as a pure value: the words a, and the set s of the offsets at which
    headers start. The system heap and the memory heap objects lay their headers out
    differently; a Shape says how. Offsets and sizes count words of RT_ALIGN_SIZE bytes. */
module HeapChain {
  datatype Shape = Shape(
    hdr: int,       // words of a header
    nx: int,        // where in the header the next offset is
    pv: int,        // where the prev offset is
    free: int,      // flag word of a free block
    used: int,      // flag word of a used block
    lo: int,        // the first header
    hi: int,        // the last header: a sentinel, always used
    back: int,      // what the prev word of the first header holds
    wrap: int,      // what the next word of the sentinel holds
    exact: bool,    // is the prev word of the sentinel kept up to date?
    counted: int,   // the flag of the blocks whose size is summed
    over: int)      // what of their extent is not counted
  {
    ghost predicate Ok() {
      && 0 < nx < hdr && 0 < pv < hdr && nx != pv && free != used
      && 0 <= lo && lo + hdr <= hi
    }
  }

  // One block: a flag, a next offset that is a header again, and a way back.
  ghost predicate Link(sh: Shape, a: seq<int>, s: set<int>, b: int) {
    && sh.Ok() && sh.lo <= b < sh.hi && |a| == sh.hi + sh.hdr
    && (a[b] == sh.free || a[b] == sh.used)
    && b + sh.hdr <= a[b + sh.nx] <= sh.hi && a[b + sh.nx] in s
    && (a[b + sh.nx] != sh.hi || sh.exact ==> a[a[b + sh.nx] + sh.pv] == b)
  }

  // No header starts inside the block at b.
  ghost predicate Ordered(sh: Shape, a: seq<int>, s: set<int>, b: int, c: int) {
    sh.Ok() && b in s && c in s && 0 <= b < c < |a| - sh.nx ==> a[b + sh.nx] <= c
  }

  // The blocks tile the arena: each one ends where the next header starts.
  ghost predicate Chain(sh: Shape, a: seq<int>, s: set<int>) {
    && sh.Ok() && |a| == sh.hi + sh.hdr && sh.lo in s && sh.hi in s
    && a[sh.lo + sh.pv] == sh.back && a[sh.hi] == sh.used && a[sh.hi + sh.nx] == sh.wrap
    && (forall b :: b in s ==> sh.lo <= b <= sh.hi)
    && (forall b {:trigger Link(sh, a, s, b)} :: b in s && b != sh.hi ==> Link(sh, a, s, b))
    && (forall b, c {:trigger Ordered(sh, a, s, b, c)} :: Ordered(sh, a, s, b, c))
  }

  ghost predicate Block(sh: Shape, s: set<int>, b: int) { b in s && b != sh.hi }

  ghost predicate FreeAt(sh: Shape, a: seq<int>, s: set<int>, b: int) {
    Block(sh, s, b) && 0 <= b < |a| && a[b] == sh.free
  }

  // number of payload words of the block at b
  ghost function Payload(sh: Shape, a: seq<int>, b: int): int {
    if 0 <= b + sh.nx < |a| then a[b + sh.nx] - b - sh.hdr else 0
  }

  // No block is free together with the one behind it.
  ghost predicate Coalesced(sh: Shape, a: seq<int>, s: set<int>) {
    forall b {:trigger FreeAt(sh, a, s, b)} ::
      FreeAt(sh, a, s, b) ==> Link(sh, a, s, b) && a[a[b + sh.nx]] == sh.used
  }

  // Every free block has a used one behind it, but for p and the block before p.
  ghost predicate CoalescedBut(sh: Shape, a: seq<int>, s: set<int>, p: int) {
    forall b {:trigger FreeAt(sh, a, s, b)} ::
      FreeAt(sh, a, s, b) && b != p ==> Link(sh, a, s, b) && (a[a[b + sh.nx]] == sh.used || a[b + sh.nx] == p)
  }

  // q is the address of a live payload of w words
  ghost predicate Live(sh: Shape, a: seq<int>, s: set<int>, q: int, w: int) {
    && Block(sh, s, q - sh.hdr) && 0 <= q - sh.hdr < |a|
    && a[q - sh.hdr] == sh.used && w == Payload(sh, a, q - sh.hdr)
  }

  // What the block at b adds to the sum its heap keeps.
  ghost function Weight(sh: Shape, a: seq<int>, b: int): int {
    if 0 <= b < |a| && 0 <= b + sh.nx < |a| && a[b] == sh.counted then a[b + sh.nx] - b - sh.over else 0
  }

  // The sum over the blocks from b on.
  ghost function Sum(sh: Shape, a: seq<int>, s: set<int>, b: int): int
    requires Chain(sh, a, s) && b in s
    decreases sh.hi - b
  {
    if b == sh.hi then 0
    else assert Link(sh, a, s, b); Weight(sh, a, b) + Sum(sh, a, s, a[b + sh.nx])
  }

  // The words of the w words at q are the same in a and c.
  ghost predicate Kept(a: seq<int>, c: seq<int>, q: int, w: int) {
    && |c| == |a| && 0 <= q && 0 <= w && q + w <= |a|
    && (forall x :: q <= x < q + w ==> c[x] == a[x])
  }

  // In c the n words at r start with the w words a holds at q, as far as both go.
  ghost predicate Starts(c: seq<int>, r: int, n: int, a: seq<int>, q: int, w: int) {
    && 0 <= r && r + n <= |c| && 0 <= q && q + w <= |a|
    && (forall x :: r <= x < r + n && x < r + w ==> c[x] == a[q + (x - r)])
  }

  // A change of the arena that no owner of memory can notice.
  ghost predicate Unnoticed(sh: Shape, a: seq<int>, s: set<int>, c: seq<int>, t: set<int>) {
    && Chain(sh, a, s) && Chain(sh, c, t)
    && (forall q, w :: Live(sh, c, t, q, w) <==> Live(sh, a, s, q, w))
    && (forall q, w :: Live(sh, a, s, q, w) ==> Kept(a, c, q, w))
  }

  // A change that the owner of the payload at q alone notices: it now has w words, or is
  // gone if w is negative.
  ghost predicate Noticed(sh: Shape, a: seq<int>, s: set<int>, c: seq<int>, t: set<int>, q: int, w: int) {
    && Chain(sh, a, s) && Chain(sh, c, t)
    && (forall r, v :: Live(sh, c, t, r, v) <==> if r == q then 0 <= v == w else Live(sh, a, s, r, v))
    && (forall r, v :: r != q && Live(sh, a, s, r, v) ==> Kept(a, c, r, v))
  }

  // The payload at q moved to r, where it has w words: nobody else notices.
  ghost predicate Moved(sh: Shape, a: seq<int>, s: set<int>, c: seq<int>, t: set<int>, q: int, r: int, w: int) {
    && Chain(sh, a, s) && Chain(sh, c, t)
    && (forall o, v :: Live(sh, c, t, o, v) <==>
                       if o == r then 0 <= v == w else o != q && Live(sh, a, s, o, v))
    && (forall o, v :: o != q && o != r && Live(sh, a, s, o, v) ==> Kept(a, c, o, v))
  }

  // What is counted does not matter to the tiling.
  lemma {:induction false} CountedFree(sh: Shape, a: seq<int>, s: set<int>)
    requires Chain(sh, a, s)
    ensures Chain(sh.(counted := sh.free), a, s)
  {
    var g := sh.(counted := sh.free);
    forall c | c in s && c != sh.hi
      ensures Link(g, a, s, c)
    {
      assert Link(sh, a, s, c);
    }
    forall c, d
      ensures Ordered(g, a, s, c, d)
    {
      assert Ordered(sh, a, s, c, d);
    }
  }

  // The blocks under counted flag and the others together make up the whole arena,
  // whatever happened before.
  lemma {:induction false} Conservation(sh: Shape, a: seq<int>, s: set<int>, b: int)
    requires Chain(sh, a, s) && b in s && sh.over == 0
    requires sh.counted == sh.used
    ensures Chain(sh.(counted := sh.free), a, s)
    ensures Sum(sh, a, s, b) + Sum(sh.(counted := sh.free), a, s, b) == sh.hi - b
    decreases sh.hi - b
  {
    CountedFree(sh, a, s);
    if b != sh.hi {
      assert Link(sh, a, s, b) && Link(sh.(counted := sh.free), a, s, b);
      Conservation(sh, a, s, a[b + sh.nx]);
    }
  }

  // Two live payloads never overlap: a whole header lies between them.
  lemma {:induction false} LiveDisjoint(sh: Shape, a: seq<int>, s: set<int>, q: int, w: int, r: int, v: int)
    requires Chain(sh, a, s) && Live(sh, a, s, q, w) && Live(sh, a, s, r, v) && q != r
    ensures q + w + sh.hdr <= r || r + v + sh.hdr <= q
    ensures 0 <= w && sh.lo + sh.hdr <= q && q + w <= sh.hi
  {
    assert Link(sh, a, s, q - sh.hdr) && Link(sh, a, s, r - sh.hdr);
    assert Ordered(sh, a, s, q - sh.hdr, r - sh.hdr) && Ordered(sh, a, s, r - sh.hdr, q - sh.hdr);
  }

  // Different headers are different words.
  lemma {:induction false} Apart(sh: Shape, a: seq<int>, s: set<int>, b: int, c: int)
    requires Chain(sh, a, s) && b in s && c in s && b < c
    ensures 0 <= b && b + sh.hdr <= c < |a| && b + sh.hdr <= a[b + sh.nx] <= c
  {
    assert Link(sh, a, s, b) && Ordered(sh, a, s, b, c);
  }

  // Every block but the first has one that ends where it starts, and points back to it.
  lemma {:induction false} Predecessor(sh: Shape, a: seq<int>, s: set<int>, b: int, from: int)
    requires Chain(sh, a, s) && b in s && from in s && from < b && (b != sh.hi || sh.exact)
    ensures var p := a[b + sh.pv]; p in s && sh.lo <= p < b && a[p + sh.nx] == b
    decreases b - from
  {
    assert Link(sh, a, s, from);
    assert Ordered(sh, a, s, from, b);
    if a[from + sh.nx] != b {
      Predecessor(sh, a, s, b, a[from + sh.nx]);
    }
  }

  // No header word lies inside a block's payload.
  lemma {:induction false} PayloadClear(sh: Shape, a: seq<int>, s: set<int>, b: int, c: int, x: int)
    requires Chain(sh, a, s) && Block(sh, s, b) && c in s
    requires b + sh.hdr <= x < a[b + sh.nx]
    ensures !(c <= x < c + sh.hdr)
  {
    if c < b {
      Apart(sh, a, s, c, b);
    } else if b < c {
      Apart(sh, a, s, b, c);
    }
  }

  // --- cutting a block in two -----------------------------------------------------

  // c is a after the header writes that cut the block at p at the offset p2.
  ghost predicate SplitWrites(sh: Shape, a: seq<int>, c: seq<int>, s: set<int>, p: int, p2: int) {
    && Link(sh, a, s, p) && |c| == |a|
    && p + sh.hdr <= p2 && p2 + sh.hdr <= a[p + sh.nx]
    && c[p2] == sh.free && c[p2 + sh.nx] == a[p + sh.nx] && c[p2 + sh.pv] == p && c[p + sh.nx] == p2
    && (a[p + sh.nx] != sh.hi || sh.exact ==> c[a[p + sh.nx] + sh.pv] == p2)
    && (forall x :: 0 <= x < |a| && !(p2 <= x < p2 + sh.hdr) && x != p + sh.nx && x != a[p + sh.nx] + sh.pv
          ==> c[x] == a[x])
  }

  lemma {:induction false} SplitLink(sh: Shape, a: seq<int>, c: seq<int>, s: set<int>, p: int, p2: int, b: int)
    requires Chain(sh, a, s) && Block(sh, s, p) && Block(sh, s, b) && SplitWrites(sh, a, c, s, p, p2)
    ensures Link(sh, c, s + {p2}, b) && c[b] == a[b]
    ensures b != p ==> c[b + sh.nx] == a[b + sh.nx]
  {
    assert Link(sh, a, s, b);
    var next := a[p + sh.nx];
    if b < p {
      Apart(sh, a, s, b, p);
    } else if p < b {
      Apart(sh, a, s, p, b);
      if next < b {
        Apart(sh, a, s, next, b);
      }
      Apart(sh, a, s, b, a[b + sh.nx]);
    }
  }

  lemma {:induction false} SplitOrder(sh: Shape, a: seq<int>, c: seq<int>, s: set<int>, p: int, p2: int, b: int, d: int)
    requires Chain(sh, a, s) && Block(sh, s, p) && SplitWrites(sh, a, c, s, p, p2)
    ensures Ordered(sh, c, s + {p2}, b, d)
  {
    if b in s + {p2} && d in s + {p2} && 0 <= b < d < |c| - sh.nx {
      assert Ordered(sh, a, s, b, d) && Ordered(sh, a, s, p, d) && Ordered(sh, a, s, b, p) && Ordered(sh, a, s, p, b);
      if b in s && b != sh.hi {
        SplitLink(sh, a, c, s, p, p2, b);
      }
    }
  }

  lemma {:induction false} SplitEnds(sh: Shape, a: seq<int>, c: seq<int>, s: set<int>, p: int, p2: int)
    requires Chain(sh, a, s) && Block(sh, s, p) && SplitWrites(sh, a, c, s, p, p2)
    ensures c[sh.lo + sh.pv] == sh.back && c[sh.hi] == sh.used && c[sh.hi + sh.nx] == sh.wrap
  {
    var next := a[p + sh.nx];
    if next != sh.hi { Apart(sh, a, s, next, sh.hi); }
    if p != sh.lo { Apart(sh, a, s, sh.lo, p); }
  }

  lemma {:induction false} SplitChain(sh: Shape, a: seq<int>, c: seq<int>, s: set<int>, p: int, p2: int)
    requires Chain(sh, a, s) && Block(sh, s, p) && SplitWrites(sh, a, c, s, p, p2)
    ensures Chain(sh, c, s + {p2})
  {
    var t := s + {p2};
    SplitEnds(sh, a, c, s, p, p2);
    forall b | b in t && b != sh.hi
      ensures Link(sh, c, t, b)
    {
      if b != p2 { SplitLink(sh, a, c, s, p, p2, b); }
    }
    forall b, d
      ensures Ordered(sh, c, t, b, d)
    {
      SplitOrder(sh, a, c, s, p, p2, b, d);
    }
  }

  // The cut changes the sum by what the two parts weigh more than the whole did.
  lemma {:induction false} SplitSum(sh: Shape, a: seq<int>, c: seq<int>, s: set<int>, p: int, p2: int, b: int)
    requires Chain(sh, a, s) && Block(sh, s, p) && SplitWrites(sh, a, c, s, p, p2) && b in s
    ensures Chain(sh, c, s + {p2})
    ensures Sum(sh, c, s + {p2}, b) == Sum(sh, a, s, b)
         + (if b <= p then Weight(sh, c, p) + Weight(sh, c, p2) - Weight(sh, a, p) else 0)
    decreases sh.hi - b
  {
    SplitChain(sh, a, c, s, p, p2);
    if b != sh.hi {
      assert Link(sh, a, s, b);
      SplitSum(sh, a, c, s, p, p2, a[b + sh.nx]);
      SplitLink(sh, a, c, s, p, p2, b);
      assert Ordered(sh, a, s, b, p);
      if b == p {
        assert Sum(sh, c, s + {p2}, p2) == Weight(sh, c, p2) + Sum(sh, c, s + {p2}, c[p2 + sh.nx]);
      }
    }
  }

  // Only the live payload of the cut block itself can change.
  lemma {:induction false} SplitLive(sh: Shape, a: seq<int>, c: seq<int>, s: set<int>, p: int, p2: int, q: int, w: int)
    requires Chain(sh, a, s) && Block(sh, s, p) && SplitWrites(sh, a, c, s, p, p2)
    ensures Live(sh, c, s + {p2}, q, w) <==>
            if a[p] == sh.used && q == p + sh.hdr then w == p2 - p - sh.hdr else Live(sh, a, s, q, w)
  {
    if Block(sh, s, q - sh.hdr) {
      SplitLink(sh, a, c, s, p, p2, q - sh.hdr);
    } else if q - sh.hdr == p2 {
      assert c[p2] == sh.free;
    }
  }

  // The writes of a cut stay off every payload but the part behind p2.
  lemma {:induction false} SplitKeeps(sh: Shape, a: seq<int>, c: seq<int>, s: set<int>, p: int, p2: int, b: int)
    requires Chain(sh, a, s) && Block(sh, s, p) && Block(sh, s, b) && SplitWrites(sh, a, c, s, p, p2)
    ensures Kept(a, c, b + sh.hdr, if b == p then p2 - p - sh.hdr else Payload(sh, a, b))
  {
    assert Link(sh, a, s, b);
    forall x | b + sh.hdr <= x < (if b == p then p2 else a[b + sh.nx])
      ensures c[x] == a[x]
    {
      if b != p {
        PayloadClear(sh, a, s, b, p, x);
        PayloadClear(sh, a, s, b, a[p + sh.nx], x);
        assert Ordered(sh, a, s, p, b) && Ordered(sh, a, s, b, p);
      }
    }
  }

  lemma {:induction false} SplitFree(sh: Shape, a: seq<int>, c: seq<int>, s: set<int>, p: int, p2: int, b: int)
    requires Chain(sh, a, s) && Block(sh, s, p) && SplitWrites(sh, a, c, s, p, p2)
    ensures FreeAt(sh, c, s + {p2}, b) <==> b == p2 || FreeAt(sh, a, s, b)
  {
    if Block(sh, s, b) {
      assert Ordered(sh, a, s, p, b);
      SplitLink(sh, a, c, s, p, p2, b);
    }
  }

  lemma {:induction false} SplitFlag(sh: Shape, a: seq<int>, c: seq<int>, s: set<int>, p: int, p2: int, b: int)
    requires Chain(sh, a, s) && Block(sh, s, p) && SplitWrites(sh, a, c, s, p, p2) && b in s
    ensures c[b] == a[b]
  {
    if b != sh.hi {
      SplitLink(sh, a, c, s, p, p2, b);
    } else {
      SplitEnds(sh, a, c, s, p, p2);
    }
  }

  // Cutting a free block is not noticed by anyone.
  lemma {:induction false} SplitUnnoticed(sh: Shape, a: seq<int>, c: seq<int>, s: set<int>, p: int, p2: int)
    requires Chain(sh, a, s) && FreeAt(sh, a, s, p) && SplitWrites(sh, a, c, s, p, p2)
    ensures Unnoticed(sh, a, s, c, s + {p2})
  {
    SplitChain(sh, a, c, s, p, p2);
    forall q, w
      ensures Live(sh, c, s + {p2}, q, w) <==> Live(sh, a, s, q, w)
    {
      SplitLive(sh, a, c, s, p, p2, q, w);
    }
    forall q, w | Live(sh, a, s, q, w)
      ensures Kept(a, c, q, w)
    {
      SplitKeeps(sh, a, c, s, p, p2, q - sh.hdr);
    }
  }

  // Cutting a used block is noticed by its owner, who keeps the words in front of the cut.
  lemma {:induction false} SplitNoticed(sh: Shape, a: seq<int>, c: seq<int>, s: set<int>, p: int, p2: int)
    requires Chain(sh, a, s) && Block(sh, s, p) && a[p] == sh.used && SplitWrites(sh, a, c, s, p, p2)
    ensures Noticed(sh, a, s, c, s + {p2}, p + sh.hdr, p2 - p - sh.hdr)
    ensures Kept(a, c, p + sh.hdr, p2 - p - sh.hdr)
  {
    SplitChain(sh, a, c, s, p, p2);
    forall q, w
      ensures Live(sh, c, s + {p2}, q, w) <==>
              if q == p + sh.hdr then 0 <= w == p2 - p - sh.hdr else Live(sh, a, s, q, w)
    {
      SplitLive(sh, a, c, s, p, p2, q, w);
    }
    forall q, w | q != p + sh.hdr && Live(sh, a, s, q, w)
      ensures Kept(a, c, q, w)
    {
      SplitKeeps(sh, a, c, s, p, p2, q - sh.hdr);
    }
    SplitKeeps(sh, a, c, s, p, p2, p);
  }

  // The remainder of an allocation lies between the taken block and a used one.
  lemma {:induction false} CarveCoalesced(sh: Shape, a: seq<int>, c: seq<int>, s: set<int>, p: int, p2: int)
    requires Chain(sh, a, s) && Coalesced(sh, a, s) && FreeAt(sh, a, s, p) && SplitWrites(sh, a, c, s, p, p2)
    ensures Chain(sh, c, s + {p2}) && CoalescedBut(sh, c, s + {p2}, p)
  {
    assert Link(sh, a, s, p) && a[a[p + sh.nx]] == sh.used;
    SplitChain(sh, a, c, s, p, p2);
    forall b | FreeAt(sh, c, s + {p2}, b) && b != p
      ensures Link(sh, c, s + {p2}, b) && (c[c[b + sh.nx]] == sh.used || c[b + sh.nx] == p)
    {
      SplitFree(sh, a, c, s, p, p2, b);
      if b != p2 {
        SplitLink(sh, a, c, s, p, p2, b);
        assert Link(sh, a, s, b);
      }
      SplitFlag(sh, a, c, s, p, p2, c[b + sh.nx]);
    }
  }

  // Cutting a used block leaves free neighbours around the tail only.
  lemma {:induction false} CutCoalesced(sh: Shape, a: seq<int>, c: seq<int>, s: set<int>, p: int, p2: int)
    requires Chain(sh, a, s) && Coalesced(sh, a, s) && Block(sh, s, p) && a[p] == sh.used
    requires SplitWrites(sh, a, c, s, p, p2)
    ensures Chain(sh, c, s + {p2}) && CoalescedBut(sh, c, s + {p2}, p2)
  {
    SplitChain(sh, a, c, s, p, p2);
    forall b | FreeAt(sh, c, s + {p2}, b) && b != p2
      ensures Link(sh, c, s + {p2}, b) && (c[c[b + sh.nx]] == sh.used || c[b + sh.nx] == p2)
    {
      SplitLink(sh, a, c, s, p, p2, b);
      assert FreeAt(sh, a, s, b) && Link(sh, a, s, b);
      SplitFlag(sh, a, c, s, p, p2, c[b + sh.nx]);
    }
  }

  // --- joining a block with the free block behind it ---------------------------------

  ghost predicate MergeWrites(sh: Shape, a: seq<int>, c: seq<int>, s: set<int>, p: int) {
    && Link(sh, a, s, p) && Link(sh, a, s, a[p + sh.nx]) && |c| == |a|
    && a[a[p + sh.nx]] == sh.free
    && var far := a[a[p + sh.nx] + sh.nx];
    && c[p + sh.nx] == far
    && (far != sh.hi || sh.exact ==> c[far + sh.pv] == p)
    && (forall x :: 0 <= x < |a| && x != p + sh.nx && x != far + sh.pv ==> c[x] == a[x])
  }

  lemma {:induction false} MergeLink(sh: Shape, a: seq<int>, c: seq<int>, s: set<int>, p: int, b: int)
    requires Chain(sh, a, s) && Block(sh, s, p) && MergeWrites(sh, a, c, s, p)
    requires Block(sh, s, b) && b != a[p + sh.nx]
    ensures Link(sh, c, s - {a[p + sh.nx]}, b) && c[b] == a[b]
    ensures b != p ==> c[b + sh.nx] == a[b + sh.nx]
  {
    assert Link(sh, a, s, b);
    if b < p {
      Apart(sh, a, s, b, p);
    } else if p < b {
      MergeBehind(sh, a, c, s, p, b);
    }
  }

  // A header behind the joined blocks: only its way back may be written.
  lemma {:induction false} MergeBehind(sh: Shape, a: seq<int>, c: seq<int>, s: set<int>, p: int, b: int)
    requires Chain(sh, a, s) && Block(sh, s, p) && MergeWrites(sh, a, c, s, p)
    requires Block(sh, s, b) && p < b && b != a[p + sh.nx]
    ensures Link(sh, c, s - {a[p + sh.nx]}, b) && c[b] == a[b] && c[b + sh.nx] == a[b + sh.nx]
  {
    var next := a[p + sh.nx];
    var far := a[next + sh.nx];
    assert Link(sh, a, s, b);
    Apart(sh, a, s, p, b);
    Apart(sh, a, s, next, b);
    if far < b { Apart(sh, a, s, far, b); }
  }

  lemma {:induction false} MergeOrder(sh: Shape, a: seq<int>, c: seq<int>, s: set<int>, p: int, b: int, d: int)
    requires Chain(sh, a, s) && Block(sh, s, p) && MergeWrites(sh, a, c, s, p)
    ensures Ordered(sh, c, s - {a[p + sh.nx]}, b, d)
  {
    if b in s && d in s && b != a[p + sh.nx] && d != a[p + sh.nx] && b < d {
      MergeLink(sh, a, c, s, p, b);
      assert Ordered(sh, a, s, b, d) && Ordered(sh, a, s, a[p + sh.nx], d);
    }
  }

  lemma {:induction false} MergeEnds(sh: Shape, a: seq<int>, c: seq<int>, s: set<int>, p: int)
    requires Chain(sh, a, s) && Block(sh, s, p) && MergeWrites(sh, a, c, s, p)
    ensures c[sh.lo + sh.pv] == sh.back && c[sh.hi] == sh.used && c[sh.hi + sh.nx] == sh.wrap
  {
    var far := a[a[p + sh.nx] + sh.nx];
    if p != sh.lo { Apart(sh, a, s, sh.lo, p); }
    if far != sh.hi { Apart(sh, a, s, far, sh.hi); }
  }

  lemma {:induction false} MergeChain(sh: Shape, a: seq<int>, c: seq<int>, s: set<int>, p: int)
    requires Chain(sh, a, s) && Block(sh, s, p) && MergeWrites(sh, a, c, s, p)
    ensures Chain(sh, c, s - {a[p + sh.nx]})
  {
    var t := s - {a[p + sh.nx]};
    MergeEnds(sh, a, c, s, p);
    forall b | b in t && b != sh.hi
      ensures Link(sh, c, t, b)
    {
      MergeLink(sh, a, c, s, p, b);
    }
    forall b, d
      ensures Ordered(sh, c, t, b, d)
    {
      MergeOrder(sh, a, c, s, p, b, d);
    }
  }

  // The sum from a header whose next is not the end begins with two weights.
  lemma {:induction false} SumTwo(sh: Shape, a: seq<int>, s: set<int>, p: int)
    requires Chain(sh, a, s) && Block(sh, s, p) && a[p + sh.nx] != sh.hi
    ensures var next := a[p + sh.nx];
            && Block(sh, s, next) && Link(sh, a, s, p) && Link(sh, a, s, next)
            && Sum(sh, a, s, p) == Weight(sh, a, p) + Weight(sh, a, next) + Sum(sh, a, s, a[next + sh.nx])
  {
    var next := a[p + sh.nx];
    assert Link(sh, a, s, p) && Link(sh, a, s, next);
    assert Sum(sh, a, s, next) == Weight(sh, a, next) + Sum(sh, a, s, a[next + sh.nx]);
  }

  // Any other header but the two leads to one that stays.
  lemma {:induction false} MergeNext(sh: Shape, a: seq<int>, s: set<int>, p: int, b: int)
    requires Chain(sh, a, s) && Block(sh, s, p) && Block(sh, s, b) && b != p
    ensures Link(sh, a, s, b) && a[b + sh.nx] in s && a[b + sh.nx] != a[p + sh.nx] && (b < p <==> a[b + sh.nx] <= p)
  {
    assert Link(sh, a, s, b) && Link(sh, a, s, p) && Ordered(sh, a, s, b, p) && Ordered(sh, a, s, p, b);
  }

  lemma {:induction false} SumOne(sh: Shape, a: seq<int>, c: seq<int>, s: set<int>, t: set<int>, b: int)
    requires Chain(sh, a, s) && Chain(sh, c, t) && Block(sh, s, b) && Block(sh, t, b)
    requires Link(sh, a, s, b) && Link(sh, c, t, b) && c[b] == a[b] && c[b + sh.nx] == a[b + sh.nx]
    ensures Sum(sh, c, t, b) - Sum(sh, c, t, c[b + sh.nx]) == Sum(sh, a, s, b) - Sum(sh, a, s, a[b + sh.nx])
  {
  }

  // The joined block is followed by what followed the second of the two.
  lemma {:induction false} MergeSumHere(sh: Shape, a: seq<int>, c: seq<int>, s: set<int>, p: int)
    requires Chain(sh, a, s) && Block(sh, s, p) && MergeWrites(sh, a, c, s, p) && Chain(sh, c, s - {a[p + sh.nx]})
    requires var far := a[a[p + sh.nx] + sh.nx];
             far in s && far != a[p + sh.nx] && Sum(sh, c, s - {a[p + sh.nx]}, far) == Sum(sh, a, s, far)
    ensures Sum(sh, c, s - {a[p + sh.nx]}, p) == Sum(sh, a, s, p)
         + Weight(sh, c, p) - Weight(sh, a, p) - Weight(sh, a, a[p + sh.nx])
  {
    SumTwo(sh, a, s, p);
    assert Link(sh, c, s - {a[p + sh.nx]}, p);
  }

  // Joining changes the sum by what the whole weighs more than the two parts did.
  lemma {:induction false} MergeSum(sh: Shape, a: seq<int>, c: seq<int>, s: set<int>, p: int, b: int)
    requires Chain(sh, a, s) && Block(sh, s, p) && MergeWrites(sh, a, c, s, p)
    requires b in s && b != a[p + sh.nx]
    ensures Chain(sh, c, s - {a[p + sh.nx]})
    ensures Sum(sh, c, s - {a[p + sh.nx]}, b) == Sum(sh, a, s, b)
         + (if b <= p then Weight(sh, c, p) - Weight(sh, a, p) - Weight(sh, a, a[p + sh.nx]) else 0)
    decreases sh.hi - b
  {
    MergeChain(sh, a, c, s, p);
    if b == p {
      assert Link(sh, a, s, p) && Link(sh, a, s, a[p + sh.nx]);
      MergeSum(sh, a, c, s, p, a[a[p + sh.nx] + sh.nx]);
      MergeSumHere(sh, a, c, s, p);
    } else if b != sh.hi {
      MergeLink(sh, a, c, s, p, b);
      MergeNext(sh, a, s, p, b);
      MergeSum(sh, a, c, s, p, a[b + sh.nx]);
      SumOne(sh, a, c, s, s - {a[p + sh.nx]}, b);
    }
  }

  lemma {:induction false} MergeLive(sh: Shape, a: seq<int>, c: seq<int>, s: set<int>, p: int, q: int, w: int)
    requires Chain(sh, a, s) && Block(sh, s, p) && MergeWrites(sh, a, c, s, p)
    ensures Live(sh, c, s - {a[p + sh.nx]}, q, w) <==>
            if a[p] == sh.used && q == p + sh.hdr then w == Payload(sh, c, p) else Live(sh, a, s, q, w)
  {
    var b := q - sh.hdr;
    if Block(sh, s, b) && b != a[p + sh.nx] {
      MergeLink(sh, a, c, s, p, b);
      assert Link(sh, a, s, b);
    }
  }

  lemma {:induction false} MergeKeeps(sh: Shape, a: seq<int>, c: seq<int>, s: set<int>, p: int, b: int)
    requires Chain(sh, a, s) && Block(sh, s, p) && Block(sh, s, b) && MergeWrites(sh, a, c, s, p)
    ensures Kept(a, c, b + sh.hdr, Payload(sh, a, b))
  {
    assert Link(sh, a, s, b);
    forall x | b + sh.hdr <= x < a[b + sh.nx]
      ensures c[x] == a[x]
    {
      PayloadClear(sh, a, s, b, p, x);
      PayloadClear(sh, a, s, b, a[a[p + sh.nx] + sh.nx], x);
    }
  }

  lemma {:induction false} MergeFlag(sh: Shape, a: seq<int>, c: seq<int>, s: set<int>, p: int, b: int)
    requires Chain(sh, a, s) && Block(sh, s, p) && MergeWrites(sh, a, c, s, p) && b in s && b != a[p + sh.nx]
    ensures c[b] == a[b]
  {
    if b != sh.hi {
      MergeLink(sh, a, c, s, p, b);
    } else {
      MergeEnds(sh, a, c, s, p);
    }
  }

  lemma {:induction false} MergeFree(sh: Shape, a: seq<int>, c: seq<int>, s: set<int>, p: int, b: int)
    requires Chain(sh, a, s) && Block(sh, s, p) && MergeWrites(sh, a, c, s, p)
    ensures FreeAt(sh, c, s - {a[p + sh.nx]}, b) <==> FreeAt(sh, a, s, b) && b != a[p + sh.nx]
  {
    if Block(sh, s, b) && b != a[p + sh.nx] {
      MergeFlag(sh, a, c, s, p, b);
    }
  }

  lemma {:induction false} MergeCoalesced(sh: Shape, a: seq<int>, c: seq<int>, s: set<int>, p: int)
    requires Chain(sh, a, s) && Block(sh, s, p) && MergeWrites(sh, a, c, s, p) && CoalescedBut(sh, a, s, p)
    ensures Chain(sh, c, s - {a[p + sh.nx]}) && CoalescedBut(sh, c, s - {a[p + sh.nx]}, p)
    ensures Link(sh, c, s - {a[p + sh.nx]}, p) && c[c[p + sh.nx]] == sh.used
  {
    var t := s - {a[p + sh.nx]};
    MergeChain(sh, a, c, s, p);
    assert FreeAt(sh, a, s, a[p + sh.nx]);
    assert a[a[a[p + sh.nx] + sh.nx]] == sh.used;
    MergeLink(sh, a, c, s, p, p);
    MergeFlag(sh, a, c, s, p, c[p + sh.nx]);
    forall b | FreeAt(sh, c, t, b) && b != p
      ensures Link(sh, c, t, b) && (c[c[b + sh.nx]] == sh.used || c[b + sh.nx] == p)
    {
      MergeLink(sh, a, c, s, p, b);
      assert FreeAt(sh, a, s, b) && Link(sh, a, s, b);
      MergeFlag(sh, a, c, s, p, c[b + sh.nx]);
    }
  }

  // Joining a freed block to the free block before it leaves no two free neighbours.
  lemma {:induction false} MergedBack(sh: Shape, a: seq<int>, c: seq<int>, s: set<int>, p: int)
    requires Chain(sh, a, s) && Block(sh, s, p) && MergeWrites(sh, a, c, s, p)
    requires CoalescedBut(sh, a, s, a[p + sh.nx]) && a[a[a[p + sh.nx] + sh.nx]] == sh.used
    ensures Chain(sh, c, s - {a[p + sh.nx]}) && Coalesced(sh, c, s - {a[p + sh.nx]})
  {
    var mem, t := a[p + sh.nx], s - {a[p + sh.nx]};
    MergeChain(sh, a, c, s, p);
    forall b | FreeAt(sh, c, t, b)
      ensures Link(sh, c, t, b) && c[c[b + sh.nx]] == sh.used
    {
      MergeLink(sh, a, c, s, p, b);
      assert FreeAt(sh, a, s, b) && Link(sh, a, s, b);
      assert Link(sh, a, s, mem) && b != mem;
      assert Ordered(sh, a, s, b, p) && Ordered(sh, a, s, p, b);
      assert b != p ==> a[b + sh.nx] != mem;
      MergeFlag(sh, a, c, s, p, c[b + sh.nx]);
    }
  }

  // Joining two free blocks is not noticed by anyone.
  lemma {:induction false} MergeUnnoticed(sh: Shape, a: seq<int>, c: seq<int>, s: set<int>, p: int)
    requires Chain(sh, a, s) && FreeAt(sh, a, s, p) && MergeWrites(sh, a, c, s, p)
    ensures Unnoticed(sh, a, s, c, s - {a[p + sh.nx]})
  {
    MergeChain(sh, a, c, s, p);
    forall q, w
      ensures Live(sh, c, s - {a[p + sh.nx]}, q, w) <==> Live(sh, a, s, q, w)
    {
      MergeLive(sh, a, c, s, p, q, w);
    }
    forall q, w | Live(sh, a, s, q, w)
      ensures Kept(a, c, q, w)
    {
      MergeKeeps(sh, a, c, s, p, q - sh.hdr);
    }
  }

  // Joining a used block with the free block behind it: its owner gets more room.
  lemma {:induction false} MergeNoticed(sh: Shape, a: seq<int>, c: seq<int>, s: set<int>, p: int)
    requires Chain(sh, a, s) && Block(sh, s, p) && a[p] == sh.used && MergeWrites(sh, a, c, s, p)
    ensures Noticed(sh, a, s, c, s - {a[p + sh.nx]}, p + sh.hdr, Payload(sh, c, p))
    ensures Kept(a, c, p + sh.hdr, Payload(sh, a, p))
  {
    MergeChain(sh, a, c, s, p);
    MergeKeeps(sh, a, c, s, p, p);
    forall q, w
      ensures Live(sh, c, s - {a[p + sh.nx]}, q, w) <==>
              if q == p + sh.hdr then 0 <= w == Payload(sh, c, p) else Live(sh, a, s, q, w)
    {
      MergeLive(sh, a, c, s, p, q, w);
    }
    forall q, w | q != p + sh.hdr && Live(sh, a, s, q, w)
      ensures Kept(a, c, q, w)
    {
      MergeKeeps(sh, a, c, s, p, q - sh.hdr);
    }
  }

  // --- flipping the used flag -------------------------------------------------------

  lemma {:induction false} MarkLink(sh: Shape, a: seq<int>, s: set<int>, p: int, v: int, b: int)
    requires Chain(sh, a, s) && Block(sh, s, p) && Block(sh, s, b) && (v == sh.used || v == sh.free)
    ensures 0 <= p < |a| && Link(sh, a[p := v], s, b) && a[p := v][b + sh.nx] == a[b + sh.nx]
    ensures b != p ==> a[p := v][b] == a[b]
  {
    assert Link(sh, a, s, b) && Link(sh, a, s, p);
    if b < p { Apart(sh, a, s, b, p); } else if p < b { Apart(sh, a, s, p, b); }
    var d := a[b + sh.nx];
    if d < p { Apart(sh, a, s, d, p); } else if p < d { Apart(sh, a, s, p, d); }
  }

  lemma {:induction false} MarkOrder(sh: Shape, a: seq<int>, s: set<int>, p: int, v: int, b: int, d: int)
    requires Chain(sh, a, s) && Block(sh, s, p) && (v == sh.used || v == sh.free)
    ensures 0 <= p < |a| && Ordered(sh, a[p := v], s, b, d)
  {
    assert Ordered(sh, a, s, b, d) && Link(sh, a, s, p);
    if b in s && b != sh.hi { MarkLink(sh, a, s, p, v, b); }
  }

  lemma {:induction false} MarkChain(sh: Shape, a: seq<int>, s: set<int>, p: int, v: int)
    requires Chain(sh, a, s) && Block(sh, s, p) && (v == sh.used || v == sh.free)
    ensures 0 <= p < |a| && Chain(sh, a[p := v], s)
  {
    var c := a[p := v];
    assert Link(sh, a, s, p);
    forall b | b in s && b != sh.hi
      ensures Link(sh, c, s, b) && c[b + sh.nx] == a[b + sh.nx]
    {
      MarkLink(sh, a, s, p, v, b);
    }
    forall b, d
      ensures Ordered(sh, c, s, b, d)
    {
      MarkOrder(sh, a, s, p, v, b, d);
    }
    if p != sh.lo { Apart(sh, a, s, sh.lo, p); }
  }

  // Flipping the flag of a block changes the sum by its own weight.
  lemma {:induction false} MarkSum(sh: Shape, a: seq<int>, s: set<int>, p: int, v: int, b: int)
    requires Chain(sh, a, s) && Block(sh, s, p) && (v == sh.used || v == sh.free) && b in s
    ensures 0 <= p < |a| && Chain(sh, a[p := v], s)
    ensures Sum(sh, a[p := v], s, b) == Sum(sh, a, s, b)
         + (if b <= p then Weight(sh, a[p := v], p) - Weight(sh, a, p) else 0)
    decreases sh.hi - b
  {
    MarkChain(sh, a, s, p, v);
    assert Link(sh, a, s, p);
    if b != sh.hi {
      assert Link(sh, a, s, b);
      MarkLink(sh, a, s, p, v, b);
      MarkSum(sh, a, s, p, v, a[b + sh.nx]);
      assert Ordered(sh, a, s, b, p);
    }
  }

  lemma {:induction false} MarkLive(sh: Shape, a: seq<int>, s: set<int>, p: int, v: int, q: int, w: int)
    requires Chain(sh, a, s) && Block(sh, s, p) && (v == sh.used || v == sh.free)
    ensures 0 <= p < |a|
    ensures Live(sh, a[p := v], s, q, w) <==>
            if q == p + sh.hdr then v == sh.used && w == Payload(sh, a, p) else Live(sh, a, s, q, w)
  {
    assert Link(sh, a, s, p);
    if Block(sh, s, q - sh.hdr) {
      MarkLink(sh, a, s, p, v, q - sh.hdr);
    }
  }

  // Taking the block at p or giving it back is noticed by its owner alone.
  lemma {:induction false} MarkNoticed(sh: Shape, a: seq<int>, s: set<int>, p: int, v: int)
    requires Chain(sh, a, s) && Block(sh, s, p) && (v == sh.used || v == sh.free)
    ensures 0 <= p < |a|
    ensures Noticed(sh, a, s, a[p := v], s, p + sh.hdr, if v == sh.used then Payload(sh, a, p) else -1)
  {
    var c := a[p := v];
    MarkChain(sh, a, s, p, v);
    forall r, w
      ensures Live(sh, c, s, r, w) <==>
              if r == p + sh.hdr then 0 <= w == (if v == sh.used then Payload(sh, a, p) else -1)
                  else Live(sh, a, s, r, w)
    {
      MarkLive(sh, a, s, p, v, r, w);
      assert Link(sh, a, s, p);
    }
    forall r, w | r != p + sh.hdr && Live(sh, a, s, r, w)
      ensures Kept(a, c, r, w)
    {
      assert Link(sh, a, s, r - sh.hdr);
      if r <= p < r + w {
        PayloadClear(sh, a, s, r - sh.hdr, p, p);
      }
    }
  }

  lemma {:induction false} MarkFree(sh: Shape, a: seq<int>, s: set<int>, p: int, v: int, b: int)
    requires Chain(sh, a, s) && Block(sh, s, p) && (v == sh.used || v == sh.free)
    ensures 0 <= p < |a|
    ensures FreeAt(sh, a[p := v], s, b) <==> if b == p then v == sh.free else FreeAt(sh, a, s, b)
  {
    assert 0 <= b < |a| && b != p ==> a[p := v][b] == a[b];
  }

  // Taking a free block keeps the rest coalesced.
  lemma {:induction false} TakeCoalesced(sh: Shape, a: seq<int>, s: set<int>, p: int)
    requires Chain(sh, a, s) && CoalescedBut(sh, a, s, p) && FreeAt(sh, a, s, p)
    ensures Chain(sh, a[p := sh.used], s) && Coalesced(sh, a[p := sh.used], s)
  {
    var d := a[p := sh.used];
    MarkChain(sh, a, s, p, sh.used);
    forall b | FreeAt(sh, d, s, b)
      ensures Link(sh, d, s, b) && d[d[b + sh.nx]] == sh.used
    {
      MarkLink(sh, a, s, p, sh.used, b);
      assert FreeAt(sh, a, s, b);
    }
  }

  // Freeing a block leaves free neighbours around it only.
  lemma {:induction false} FreeCoalesced(sh: Shape, a: seq<int>, s: set<int>, p: int)
    requires Chain(sh, a, s) && Coalesced(sh, a, s) && Block(sh, s, p)
    ensures 0 <= p < |a| && Chain(sh, a[p := sh.free], s) && CoalescedBut(sh, a[p := sh.free], s, p)
  {
    var d := a[p := sh.free];
    MarkChain(sh, a, s, p, sh.free);
    forall b | FreeAt(sh, d, s, b) && b != p
      ensures Link(sh, d, s, b) && (d[d[b + sh.nx]] == sh.used || d[b + sh.nx] == p)
    {
      MarkLink(sh, a, s, p, sh.free, b);
      assert FreeAt(sh, a, s, b);
    }
  }

  // Cutting the free block at p and taking the front part: everything at once.
  lemma {:induction false} Carved(sh: Shape, a: seq<int>, c: seq<int>, s: set<int>, p: int, p2: int)
    requires Chain(sh, a, s) && Coalesced(sh, a, s) && FreeAt(sh, a, s, p) && SplitWrites(sh, a, c, s, p, p2)
    ensures var d, t := c[p := sh.used], s + {p2};
            && Noticed(sh, a, s, d, t, p + sh.hdr, p2 - p - sh.hdr) && Coalesced(sh, d, t)
            && Sum(sh, d, t, sh.lo) == Sum(sh, a, s, sh.lo) + Weight(sh, d, p) + Weight(sh, d, p2) - Weight(sh, a, p)
            && forall b :: FreeAt(sh, d, t, b) <==> b == p2 || (b != p && FreeAt(sh, a, s, b))
  {
    var t := s + {p2};
    SplitUnnoticed(sh, a, c, s, p, p2);
    CarveCoalesced(sh, a, c, s, p, p2);
    TakeCoalesced(sh, c, t, p);
    MarkNoticed(sh, c, t, p, sh.used);
    NoticedAfter(sh, a, s, c, t, c[p := sh.used], t, p + sh.hdr, p2 - p - sh.hdr);
    SplitSum(sh, a, c, s, p, p2, sh.lo);
    MarkSum(sh, c, t, p, sh.used, sh.lo);
    forall b
      ensures FreeAt(sh, c[p := sh.used], t, b) <==> b == p2 || (b != p && FreeAt(sh, a, s, b))
    {
      SplitFree(sh, a, c, s, p, p2, b);
      MarkFree(sh, c, t, p, sh.used, b);
    }
  }

  // Taking the free block at p as a whole.
  lemma {:induction false} Taken(sh: Shape, a: seq<int>, s: set<int>, p: int)
    requires Chain(sh, a, s) && Coalesced(sh, a, s) && FreeAt(sh, a, s, p)
    ensures var d := a[p := sh.used];
            && Noticed(sh, a, s, d, s, p + sh.hdr, Payload(sh, a, p)) && Coalesced(sh, d, s)
            && Sum(sh, d, s, sh.lo) == Sum(sh, a, s, sh.lo) + Weight(sh, d, p) - Weight(sh, a, p)
            && forall b :: FreeAt(sh, d, s, b) <==> b != p && FreeAt(sh, a, s, b)
  {
    TakeCoalesced(sh, a, s, p);
    MarkNoticed(sh, a, s, p, sh.used);
    MarkSum(sh, a, s, p, sh.used, sh.lo);
    forall b
      ensures FreeAt(sh, a[p := sh.used], s, b) <==> b != p && FreeAt(sh, a, s, b)
    {
      MarkFree(sh, a, s, p, sh.used, b);
    }
  }

  // Freeing the used block at p, before it is joined with anything.
  lemma {:induction false} Freed(sh: Shape, a: seq<int>, s: set<int>, p: int)
    requires Chain(sh, a, s) && Coalesced(sh, a, s) && Block(sh, s, p) && 0 <= p < |a| && a[p] == sh.used
    ensures var d := a[p := sh.free];
            && Noticed(sh, a, s, d, s, p + sh.hdr, -1) && CoalescedBut(sh, d, s, p)
            && Sum(sh, d, s, sh.lo) == Sum(sh, a, s, sh.lo) + Weight(sh, d, p) - Weight(sh, a, p)
            && forall b :: FreeAt(sh, d, s, b) <==> b == p || FreeAt(sh, a, s, b)
  {
    FreeCoalesced(sh, a, s, p);
    MarkNoticed(sh, a, s, p, sh.free);
    MarkSum(sh, a, s, p, sh.free, sh.lo);
    forall b
      ensures FreeAt(sh, a[p := sh.free], s, b) <==> b == p || FreeAt(sh, a, s, b)
    {
      MarkFree(sh, a, s, p, sh.free, b);
    }
  }

  // Cutting the used block at p: everything at once.
  lemma {:induction false} WasCut(sh: Shape, a: seq<int>, c: seq<int>, s: set<int>, p: int, p2: int)
    requires Chain(sh, a, s) && Coalesced(sh, a, s) && Block(sh, s, p) && a[p] == sh.used
    requires SplitWrites(sh, a, c, s, p, p2)
    ensures var t := s + {p2};
            && Noticed(sh, a, s, c, t, p + sh.hdr, p2 - p - sh.hdr) && CoalescedBut(sh, c, t, p2)
            && Kept(a, c, p + sh.hdr, p2 - p - sh.hdr)
            && Sum(sh, c, t, sh.lo) == Sum(sh, a, s, sh.lo) + Weight(sh, c, p) + Weight(sh, c, p2) - Weight(sh, a, p)
            && c[p] == sh.used
            && forall b :: FreeAt(sh, c, t, b) <==> b == p2 || FreeAt(sh, a, s, b)
  {
    SplitNoticed(sh, a, c, s, p, p2);
    CutCoalesced(sh, a, c, s, p, p2);
    SplitSum(sh, a, c, s, p, p2, sh.lo);
    SplitFlag(sh, a, c, s, p, p2, p);
    forall b
      ensures FreeAt(sh, c, s + {p2}, b) <==> b == p2 || FreeAt(sh, a, s, b)
    {
      SplitFree(sh, a, c, s, p, p2, b);
    }
  }

  // Joining the free block at p with the free block behind it: everything at once.
  lemma {:induction false} Merged(sh: Shape, a: seq<int>, c: seq<int>, s: set<int>, p: int)
    requires Chain(sh, a, s) && FreeAt(sh, a, s, p) && MergeWrites(sh, a, c, s, p)
    ensures var d, t := a[p + sh.nx], s - {a[p + sh.nx]};
            && Unnoticed(sh, a, s, c, t)
            && Sum(sh, c, t, sh.lo) == Sum(sh, a, s, sh.lo) + Weight(sh, c, p) - Weight(sh, a, p) - Weight(sh, a, d)
            && forall b :: FreeAt(sh, c, t, b) <==> FreeAt(sh, a, s, b) && b != d
  {
    MergeUnnoticed(sh, a, c, s, p);
    MergeSum(sh, a, c, s, p, sh.lo);
    forall b
      ensures FreeAt(sh, c, s - {a[p + sh.nx]}, b) <==> FreeAt(sh, a, s, b) && b != a[p + sh.nx]
    {
      MergeFree(sh, a, c, s, p, b);
    }
  }

  // --- changes that leave every header as it is -----------------------------------------

  // c agrees with a on the flag, next and prev words of every header.
  ghost predicate SameHeaders(sh: Shape, a: seq<int>, c: seq<int>, s: set<int>) {
    && sh.Ok() && |c| == |a|
    && (forall b {:trigger SameHeader(sh, a, c, b)} :: b in s ==> SameHeader(sh, a, c, b))
  }

  ghost predicate SameHeader(sh: Shape, a: seq<int>, c: seq<int>, b: int) {
    && 0 <= b < |a| == |c| && 0 <= b + sh.nx < |a| && 0 <= b + sh.pv < |a|
    && c[b] == a[b] && c[b + sh.nx] == a[b + sh.nx] && c[b + sh.pv] == a[b + sh.pv]
  }

  lemma {:induction false} SameChain(sh: Shape, a: seq<int>, c: seq<int>, s: set<int>)
    requires Chain(sh, a, s) && SameHeaders(sh, a, c, s)
    ensures Chain(sh, c, s)
  {
    assert SameHeader(sh, a, c, sh.lo) && SameHeader(sh, a, c, sh.hi);
    forall b | b in s && b != sh.hi
      ensures Link(sh, c, s, b)
    {
      assert Link(sh, a, s, b) && SameHeader(sh, a, c, b) && SameHeader(sh, a, c, a[b + sh.nx]);
    }
    forall b, d
      ensures Ordered(sh, c, s, b, d)
    {
      assert Ordered(sh, a, s, b, d);
      assert b in s ==> SameHeader(sh, a, c, b);
    }
  }

  lemma {:induction false} SameFree(sh: Shape, a: seq<int>, c: seq<int>, s: set<int>, b: int)
    requires Chain(sh, a, s) && SameHeaders(sh, a, c, s)
    ensures FreeAt(sh, c, s, b) <==> FreeAt(sh, a, s, b)
  {
    assert b in s ==> SameHeader(sh, a, c, b);
  }

  lemma {:induction false} SameSum(sh: Shape, a: seq<int>, c: seq<int>, s: set<int>, b: int)
    requires Chain(sh, a, s) && SameHeaders(sh, a, c, s) && b in s
    ensures Chain(sh, c, s) && Sum(sh, c, s, b) == Sum(sh, a, s, b)
    decreases sh.hi - b
  {
    SameChain(sh, a, c, s);
    if b != sh.hi {
      assert Link(sh, a, s, b) && SameHeader(sh, a, c, b);
      SameSum(sh, a, c, s, a[b + sh.nx]);
    }
  }

  lemma {:induction false} SameCoalesced(sh: Shape, a: seq<int>, c: seq<int>, s: set<int>, p: int)
    requires Chain(sh, a, s) && SameHeaders(sh, a, c, s)
    ensures Coalesced(sh, a, s) ==> Coalesced(sh, c, s)
    ensures CoalescedBut(sh, a, s, p) ==> CoalescedBut(sh, c, s, p)
  {
    SameChain(sh, a, c, s);
    forall b | FreeAt(sh, c, s, b)
      ensures FreeAt(sh, a, s, b) && Link(sh, c, s, b) && Link(sh, a, s, b)
      ensures c[b + sh.nx] == a[b + sh.nx] && c[c[b + sh.nx]] == a[a[b + sh.nx]]
    {
      SameFree(sh, a, c, s, b);
      assert Link(sh, a, s, b) && SameHeader(sh, a, c, b) && SameHeader(sh, a, c, a[b + sh.nx]);
    }
  }

  // If, besides, no live payload changes, nobody notices.
  lemma {:induction false} SameUnnoticed(sh: Shape, a: seq<int>, c: seq<int>, s: set<int>)
    requires Chain(sh, a, s) && SameHeaders(sh, a, c, s)
    requires forall q, w :: Live(sh, a, s, q, w) ==> Kept(a, c, q, w)
    ensures Unnoticed(sh, a, s, c, s)
  {
    SameChain(sh, a, c, s);
    forall q, w
      ensures Live(sh, c, s, q, w) <==> Live(sh, a, s, q, w)
    {
      assert q - sh.hdr in s ==> SameHeader(sh, a, c, q - sh.hdr);
    }
  }

  // c differs from a inside the payload of the block at p at most.
  ghost predicate PayloadWrites(sh: Shape, a: seq<int>, c: seq<int>, s: set<int>, p: int) {
    && Link(sh, a, s, p) && |c| == |a|
    && (forall x :: 0 <= x < |a| && !(p + sh.hdr <= x < a[p + sh.nx]) ==> c[x] == a[x])
  }

  lemma {:induction false} WriteSame(sh: Shape, a: seq<int>, c: seq<int>, s: set<int>, p: int)
    requires Chain(sh, a, s) && Block(sh, s, p) && PayloadWrites(sh, a, c, s, p)
    ensures SameHeaders(sh, a, c, s)
  {
    forall b | b in s
      ensures SameHeader(sh, a, c, b)
    {
      if b < p { Apart(sh, a, s, b, p); } else if p < b { Apart(sh, a, s, p, b); }
    }
  }

  // The owner of a block may write its payload: nobody else notices.
  lemma {:induction false} WriteNoticed(sh: Shape, a: seq<int>, c: seq<int>, s: set<int>, p: int)
    requires Chain(sh, a, s) && Block(sh, s, p) && PayloadWrites(sh, a, c, s, p) && a[p] == sh.used
    ensures Noticed(sh, a, s, c, s, p + sh.hdr, Payload(sh, a, p))
  {
    WriteSame(sh, a, c, s, p);
    SameChain(sh, a, c, s);
    forall q, w
      ensures Live(sh, c, s, q, w) <==> if q == p + sh.hdr then 0 <= w == Payload(sh, a, p) else Live(sh, a, s, q, w)
    {
      assert q - sh.hdr in s ==> SameHeader(sh, a, c, q - sh.hdr);
    }
    forall q, w | q != p + sh.hdr && Live(sh, a, s, q, w)
      ensures Kept(a, c, q, w)
    {
      LiveDisjoint(sh, a, s, q, w, p + sh.hdr, Payload(sh, a, p));
    }
  }

  // --- one change after another ------------------------------------------------------

  lemma {:induction false} UnnoticedStill(sh: Shape, a: seq<int>, s: set<int>)
    requires Chain(sh, a, s)
    ensures Unnoticed(sh, a, s, a, s)
  {
    forall q, w | Live(sh, a, s, q, w)
      ensures Kept(a, a, q, w)
    {
      assert Link(sh, a, s, q - sh.hdr);
    }
  }

  lemma {:induction false} NoticedStill(sh: Shape, a: seq<int>, s: set<int>, q: int, w: int)
    requires Chain(sh, a, s) && Live(sh, a, s, q, w)
    ensures Noticed(sh, a, s, a, s, q, w) && Kept(a, a, q, w)
  {
    UnnoticedStill(sh, a, s);
  }

  lemma {:induction false} UnnoticedTwice(sh: Shape, a: seq<int>, s: set<int>, c: seq<int>, t: set<int>, d: seq<int>,
        u: set<int>)
    requires Unnoticed(sh, a, s, c, t) && Unnoticed(sh, c, t, d, u)
    ensures Unnoticed(sh, a, s, d, u)
  {
  }

  lemma {:induction false} NoticedAfter(sh: Shape, a: seq<int>, s: set<int>, c: seq<int>, t: set<int>, d: seq<int>,
        u: set<int>, q: int, w: int)
    requires Unnoticed(sh, a, s, c, t) && Noticed(sh, c, t, d, u, q, w)
    ensures Noticed(sh, a, s, d, u, q, w)
  {
  }

  lemma {:induction false} NoticedBefore(sh: Shape, a: seq<int>, s: set<int>, c: seq<int>, t: set<int>, d: seq<int>,
        u: set<int>, q: int, w: int)
    requires Noticed(sh, a, s, c, t, q, w) && Unnoticed(sh, c, t, d, u)
    ensures Noticed(sh, a, s, d, u, q, w)
  {
  }

  lemma {:induction false} NoticedNoticed(sh: Shape, a: seq<int>, s: set<int>, c: seq<int>, t: set<int>, d: seq<int>,
        u: set<int>, q: int, w: int, v: int)
    requires Noticed(sh, a, s, c, t, q, w) && Noticed(sh, c, t, d, u, q, v)
    ensures Noticed(sh, a, s, d, u, q, v)
  {
  }

  // A live payload somewhere else than the change is still there, with its words.
  lemma {:induction false} StillLive(sh: Shape, a: seq<int>, s: set<int>, c: seq<int>, t: set<int>, r: int, v: int,
        q: int, w: int)
    requires Noticed(sh, a, s, c, t, r, v) && Live(sh, a, s, q, w) && q != r
    ensures Live(sh, c, t, q, w) && Kept(a, c, q, w)
  {
  }

  // Allocating at r, copying from q, and then freeing q moves q to r.
  lemma {:induction false} NoticedMoved(sh: Shape, a: seq<int>, s: set<int>, c: seq<int>, t: set<int>, d: seq<int>,
        u: set<int>, q: int, w: int, r: int, v: int, n: int)
    requires Noticed(sh, a, s, c, t, r, v) && Noticed(sh, c, t, d, u, q, -1) && q != r
    requires Live(sh, c, t, r, v) && n <= v && Starts(c, r, n, a, q, w)
    ensures Moved(sh, a, s, d, u, q, r, v) && Live(sh, d, u, r, v) && Starts(d, r, n, a, q, w)
  {
    StillLive(sh, c, t, d, u, q, -1, r, v);
  }
}
