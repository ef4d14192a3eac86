/** How rt_malloc of the slab allocator aligns what it hands out for a request of a power of 2. */
module SlabAlignment {
  import opened Division
  import opened PageRuns
  import opened SizeClass
  import opened SlabZone
  import opened SlabState

  // In a heap that starts at page h of the memory, the address r is a multiple of size.
  ghost predicate AlignedAt(size: nat, h: nat, r: nat)
    requires size > 0
  {
    (h * PAGE + r) % size == 0
  }

  // Wherever the heap starts, that holds of r if and only if it does of the beginning of page a.
  ghost predicate AlignedLike(size: nat, a: nat, r: nat)
    requires size > 0
  {
    forall h: nat :: AlignedAt(size, h, r) <==> AlignedAt(size, h, a * PAGE)
  }

  // r is in the block that starts at page a.
  ghost predicate InBlock(s: State, a: nat, r: nat) {
    exists i, len :: Holds(s, a, i, r, len)
  }

  // The object at r is aligned to size exactly if its block is, and always if size is at most a
  // page.
  ghost predicate Aligned(s: State, size: nat, r: nat)
    requires size > 0
  {
    && (exists a :: InBlock(s, a, r) && AlignedLike(size, a, r))
    && (size <= PAGE ==> forall h: nat :: AlignedAt(size, h, r))
  }

  lemma {:induction false} PageMultiple(size: nat)
    requires PowerOf2(size) && size >= PAGE
    ensures PAGE * (size / PAGE) == size && PowerOf2(size / PAGE)
    decreases size
  {
    if size > PAGE {
      assert PowerOf2(size / 2);
      if size / 2 < PAGE {
        Halves(size / 2, PAGE);
      }
      PageMultiple(size / 2);
      var k := size / 2 / PAGE;
      assert size == PAGE * (2 * k);
      DivOf(PAGE, 2 * k, 0);
      assert size / PAGE == 2 * k && 2 * k / 2 == k;
    } else {
      assert PowerOf2(1);
    }
  }

  // A request for a power of 2 gets just that, or 8 bytes if it is less.
  lemma {:induction false} PowerFits(size: nat, zi: nat, len: nat)
    requires PowerOf2(size) && Fits(size, zi, len)
    ensures len == size || (size < 8 && len == 8)
  {
    if size < 8 {
      assert Chunk(0) == 8;
    } else {
      var z := ClassOf(size);
      ChunkFits(z);
      FitsUnique(size, zi, z, len, size);
    }
  }

  // The class whose chunks are as large as the power of 2.
  lemma {:induction false} ClassOf(size: nat) returns (z: nat)
    requires PowerOf2(size) && 8 <= size && exists zi :: 0 <= zi < CLASSES && size <= Chunk(zi)
    ensures z < CLASSES && Chunk(z) == size
  {
    var zi: nat :| zi < CLASSES && size <= Chunk(zi);
    assert size < 0x8000 by {
      if zi < 71 {
        ChunksGrow(zi, 71);
      }
    }
    PowersBelow(size);
    z := if size == 8 then 0 else if size == 16 then 1 else if size == 32 then 3 else if size == 64 then 7
      else if size == 128 then 15 else if size == 256 then 23 else if size == 512 then 31 else if size == 1024 then 39
      else if size == 2048 then 47 else if size == 4096 then 55 else if size == 8192 then 63 else 71;
  }

  lemma {:induction false} PowersBelow(size: nat)
    requires PowerOf2(size) && 8 <= size < 0x8000
    ensures size in {8, 16, 32, 64, 128, 256, 512, 1024, 2048, 4096, 8192, 16384}
  {
    assert PowerOf2(size / 2) && PowerOf2(size / 2 / 2) && PowerOf2(size / 2 / 2 / 2);
    Halves(size / 2 / 2 / 2, PAGE);
  }

  // A chunk of size bytes is aligned to size exactly if its zone is.
  lemma {:induction false} ChunkAligned(s: State, a: nat, i: nat, r: nat, size: nat)
    requires s.Inv() && PowerOf2(size) && a in s.blocks && s.blocks[a].Small?
    requires r == s.blocks[a].z.Addr(a, i) && s.blocks[a].z.chunk == size
    ensures AlignedLike(size, a, r)
  {
    var z := s.blocks[a].z;
    assert s.ZoneOk(a);
    forall h: nat
      ensures AlignedAt(size, h, r) <==> AlignedAt(size, h, a * PAGE)
    {
      AlignedExactly(z, h + a, i);
      assert z.Addr(h + a, i) == h * PAGE + r && (h + a) * PAGE == h * PAGE + a * PAGE;
    }
  }

  // A power of 2 up to a page divides the page size, so that it aligns every page.
  lemma {:induction false} PagesAligned(size: nat, a: nat)
    requires PowerOf2(size) && size <= PAGE
    ensures forall h: nat :: AlignedAt(size, h, a * PAGE)
  {
    forall h: nat
      ensures AlignedAt(size, h, a * PAGE)
    {
      PageAligned(h + a, size);
      assert (h + a) * PAGE == h * PAGE + a * PAGE;
    }
  }

  // Whatever is aligned to 8 is aligned to less.
  lemma {:induction false} Coarser(size: nat, h: nat, r: nat)
    requires PowerOf2(size) && size < 8 && AlignedAt(8, h, r)
    ensures AlignedAt(size, h, r)
  {
    Halves(size, 8);
    Eighth(h * PAGE + r, size);
  }

  lemma {:induction false} Eighth(n: nat, size: nat)
    requires n % 8 == 0 && size in {1, 2, 4}
    ensures n % size == 0
  {
    if size == 4 {
      assert n % 4 == 0;
    } else if size == 2 {
      assert n % 2 == 0;
    }
  }

  // What rt_malloc hands out for a power of 2 is aligned as its block is.
  lemma {:induction false} ObjectAligned(s: State, a: nat, i: nat, r: nat, len: nat, size: nat)
    requires s.Inv() && Holds(s, a, i, r, len) && PowerOf2(size)
    requires len == size || (size < 8 && len == 8) || s.blocks[a].Large?
    ensures AlignedLike(size, a, r) && Aligned(s, size, r)
  {
    assert InBlock(s, a, r);
    if size <= PAGE {
      PagesAligned(size, a);
    }
    if s.blocks[a].Small? {
      if len == size {
        ChunkAligned(s, a, i, r, size);
      } else {
        assert PowerOf2(1) && PowerOf2(2) && PowerOf2(8);
        ChunkAligned(s, a, i, r, 8);
        PagesAligned(8, a);
        forall h: nat
          ensures AlignedAt(size, h, r)
        {
          assert AlignedAt(8, h, a * PAGE);
          Coarser(size, h, r);
        }
      }
    }
  }

  // --- told before the call -----------------------------------------------------------------------

  // A chunk of class zi comes from block a: the first zone of the class with free chunks, the first
  // spare zone, or the lowest pages that make a zone.
  ghost predicate Offering(s: State, zi: nat, a: nat)
    requires zi < |s.arrays|
  {
    if s.arrays[zi] != [] then a == s.arrays[zi][0]
    else if s.spare != [] then a == s.spare[0]
    else Lowest(s.free, a, s.cnt)
  }

  // A request for size bytes comes from block a: the lowest pages, or a chunk.
  ghost predicate Serves(s: State, limit: nat, size: nat, a: nat) {
    if size >= limit then Lowest(s.free, a, RoundUp(size, PAGE) / PAGE)
    else exists zi, len {:trigger Fits(size, zi, len)} :: Fits(size, zi, len) && zi < |s.arrays| && Offering(s, zi, a)
  }

  // The address r is aligned as that block is.
  ghost predicate Foretold(s: State, limit: nat, size: nat, r: nat)
    requires size > 0
  {
    exists a :: Serves(s, limit, size, a) && AlignedLike(size, a, r)
  }

  // The chunk at r was taken from the block that offers it.
  ghost predicate Served(s: State, u: State, zi: nat, r: nat, len: nat) {
    zi < |s.arrays| && exists a :: Offering(s, zi, a) && From(u, a, r, len)
  }

  lemma {:induction false} LargeForetold(s: State, limit: nat, size: nat, r: nat)
    requires size >= limit && size > 0 && r % PAGE == 0 && Lowest(s.free, r / PAGE, RoundUp(size, PAGE) / PAGE)
    ensures Foretold(s, limit, size, r)
  {
    assert r == r / PAGE * PAGE;
    assert Serves(s, limit, size, r / PAGE) && AlignedLike(size, r / PAGE, r);
  }

  lemma {:induction false} SmallForetold(s: State, u: State, limit: nat, size: nat, zi: nat, len: nat, r: nat)
    requires u.Inv() && PowerOf2(size) && size < limit && Fits(size, zi, len) && Served(s, u, zi, r, len)
    ensures Foretold(s, limit, size, r)
  {
    var a :| Offering(s, zi, a) && From(u, a, r, len);
    var i :| Holds(u, a, i, r, len);
    PowerFits(size, zi, len);
    ObjectAligned(u, a, i, r, len, size);
    assert Serves(s, limit, size, a);
  }

  // That is one block at most.
  lemma {:induction false} ServesOnce(s: State, limit: nat, size: nat, a: nat, b: nat)
    requires size > 0 && Serves(s, limit, size, a) && Serves(s, limit, size, b)
    ensures a == b
  {
    if size < limit {
      var zi, len :| Fits(size, zi, len) && zi < |s.arrays| && Offering(s, zi, a);
      var zi', len' :| Fits(size, zi', len') && zi' < |s.arrays| && Offering(s, zi', b);
      FitsUnique(size, zi, zi', len, len');
    }
  }

  // --- where the promise fails --------------------------------------------------------------------

  // The pages of the page table of a heap of n pages.
  function TablePages(n: nat): nat { RoundUp(4 * n, PAGE) / PAGE }

  // A heap twice as large as the request: its first free page is not aligned to size.
  function HeapFor(size: nat): nat { 2 * (size / PAGE) }

  // Behind the page table there is room for the request.
  lemma {:induction false} HeapHasRoom(size: nat)
    requires PowerOf2(size) && size > PAGE
    ensures var n := HeapFor(size);
            && 0 < TablePages(n) < size / PAGE
            && Pages(TablePages(n), size / PAGE) <= Pages(0, n) - Pages(0, TablePages(n))
    ensures size >= 0x4000 || (size == 0x2000 && HeapFor(size) <= 0x4000)
  {
    PageMultiple(size);
    var k := size / PAGE;
    var t := (8 * k + PAGE - 1) / PAGE;
    DivOf(PAGE, t, 0);
    assert RoundUp(4 * HeapFor(size), PAGE) == PAGE * t && TablePages(HeapFor(size)) == t;
  }

  // For each power of 2 above the page size the lowest pages of that heap, large enough for the
  // request, do not begin at a multiple of it.
  lemma {:induction false} LowestMisaligned(size: nat, r: nat)
    requires PowerOf2(size) && size > PAGE
    requires var n := HeapFor(size);
             Lowest(Pages(0, n) - Pages(0, TablePages(n)), r, size / PAGE)
    ensures r == TablePages(HeapFor(size)) && 0 < r * PAGE < size && r * PAGE % size != 0
  {
    PageMultiple(size);
    HeapHasRoom(size);
    var k, t := size / PAGE, TablePages(HeapFor(size));
    assert r >= t by {
      assert r in Pages(r, k);
    }
    DivOf(size, 0, r * PAGE);
  }

  // Whole pages need no rounding.
  lemma {:induction false} PowerRound(size: nat)
    requires PowerOf2(size) && size >= PAGE
    ensures RoundUp(size, PAGE) == size
  {
    PageMultiple(size);
    DivOf(PAGE, size / PAGE, PAGE - 1);
  }
}
