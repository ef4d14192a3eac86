/** rt_malloc and rt_free of the slab allocator, on top of its page list. */
module Slab {
  import opened Lists
  import opened PageRuns
  import opened SizeClass
  import opened SlabZone
  import opened SlabState
  import opened SlabAlignment
  import opened SlabPages
  import PageList

  const NULL := -1

  class Slab {
    const pages: PageList.PageList
    const cnt: nat                     // zone_page_cnt
    const limit: nat                   // zone_limit
    var blocks: map<nat, Block>        // what the zone headers and the first pages say
    var arrays: seq<seq<nat>>          // zone_array
    var spare: seq<nat>                // zone_free
    var spareCnt: nat                  // zone_free_cnt
    var usage: seq<Use>                // memusage

    ghost function Abs(): State
      reads this, pages
    {
      State(cnt, Free(pages.runs), blocks, arrays, spare, usage)
    }

    ghost predicate Valid()
      reads this, pages, pages.next, pages.page
    {
      && pages.Valid() && pages.next.Length == |usage| && spareCnt == |spare|
      && cnt * PAGE >= 0x8000 && 4 * limit <= cnt * PAGE && (limit == 8192 || limit == LIMIT)
      && Abs().Inv()
    }

    // rt_system_heap_init, for n pages from heap_start on; the page table takes the first ones
    constructor (links: array<int>, counts: array<nat>, n: nat)
      requires 0 < n == links.Length == counts.Length
      modifies links, counts
      ensures Valid() && forall x, len :: !Object(Abs(), x, len)
      ensures Abs().free == Pages(0, n) - Pages(0, TablePages(n))
      ensures Settled(Abs()) && forall p: nat :: Accounted(Abs(), p) <==> TablePages(n) <= p < n
      ensures n <= 0x4000 ==> limit == 8192
      ensures fresh(pages) && pages.next == links && pages.page == counts
    {
      var list := new PageList.PageList(links, counts, n);
      var size := ZoneSize(n * PAGE);
      var top := ZoneLimit(size);
      pages, cnt, limit := list, size / PAGE, top;
      blocks, arrays, spare, spareCnt := map[], seq(CLASSES, _ => []), [], 0;
      usage := seq(n, _ => FreePage);
      RoundsUp(4 * n, PAGE);
      var m := RoundUp(4 * n, PAGE) / PAGE;
      var table := list.Alloc(m);
      TableFits(n, m, table);
      new;
      NothingYet(Abs());
    }

    // zone_size: the zones grow with the heap, between 32 and 128 kilobytes
    static method ZoneSize(limsize: nat) returns (size: nat)
      ensures size in {0x8000, 0x1_0000, 0x2_0000}
      ensures size < 0x2_0000 ==> 2 * size >= limsize / 1024
      ensures size > 0x8000 ==> size < limsize / 1024
    {
      size := 0x8000;
      while size < 0x2_0000 && 2 * size < limsize / 1024
        invariant size in {0x8000, 0x1_0000, 0x2_0000} && (size > 0x8000 ==> size < limsize / 1024)
        decreases 0x2_0000 - size
      {
        size := 2 * size;
      }
    }

    static method ZoneLimit(size: nat) returns (limit: nat)
      requires size in {0x8000, 0x1_0000, 0x2_0000}
      ensures size / PAGE * PAGE == size && 4 * limit <= size
      ensures limit == if size == 0x8000 then 8192 else LIMIT
    {
      limit := if size / 4 > LIMIT then LIMIT else size / 4;
    }

    // How many consecutive free pages a request takes at most.
    function Need(size: nat): nat { if size >= limit then RoundUp(size, PAGE) / PAGE else cnt }

    // There are no n consecutive free pages.
    ghost predicate NoRoom(n: nat)
      reads pages
    {
      forall a {:trigger Pages(a, n)} :: !(Pages(a, n) <= Free(pages.runs))
    }

    // A request for size bytes gets len: whole pages, or the smallest chunk they fit into.
    ghost predicate Room(size: nat, len: nat) {
      if size >= limit then len == RoundUp(size, PAGE) else exists zi :: Fits(size, zi, len)
    }

    ghost predicate ServedByClass(s: State, u: State, size: nat, r: nat) {
      exists zi: nat, len: nat :: Fits(size, zi, len) && Served(s, u, zi, r, len)
    }

    // rt_malloc
    method Malloc(size: nat) returns (r: int)
      requires Valid()
      modifies this, pages, pages.next, pages.page
      ensures Valid() && Keeps(old(Abs()), Abs())
      // only the object returned is handed out
      ensures r >= 0 ==> size > 0 && exists len :: len >= size && Room(size, len) && Gains(old(Abs()), Abs(), r, len)
      ensures r < 0 ==> Abs() == old(Abs()) && (size > 0 ==> NoRoom(Need(size)))
      // large requests get the lowest pages
      ensures r >= 0 && size >= limit ==> r % PAGE == 0 && Lowest(old(Abs()).free, r / PAGE, RoundUp(size, PAGE) / PAGE)
      // others a chunk of the first zone of their class that has any free, else of the first spare zone,
      // else of the lowest pages that are a zone
      ensures r >= 0 && size < limit ==> ServedByClass(old(Abs()), Abs(), size, r)
      // a request for a power of 2 is aligned as its block is, and surely up to a page
      ensures r >= 0 && PowerOf2(size) ==> Aligned(Abs(), size, r)
      // and which block that is, can be told before the call
      ensures r >= 0 && PowerOf2(size) ==> Foretold(old(Abs()), limit, size, r)
    {
      if size == 0 {
        return NULL;
      }
      if size >= limit {
        RoundsUp(size, PAGE);
        r := MallocLarge(size);
        assert Room(size, RoundUp(size, PAGE));
        if r >= 0 {
          LargeAligned(Abs(), r, size);
          LargeForetold(old(Abs()), limit, size, r);
        }
        return;
      }
      var zi, chunk := ZoneIndex(size);
      ChunkLimit(size, zi, chunk, limit);
      assert Room(size, chunk);
      if arrays[zi] != [] {
        r := FromArray(zi);
      } else {
        r := FromNewZone(zi, chunk);
      }
      assert r >= 0 ==> Fits(size, zi, chunk) && Served(old(Abs()), Abs(), zi, r, chunk);
      if r >= 0 && PowerOf2(size) {
        SmallAligned(Abs(), r, size, zi, chunk);
        SmallForetold(old(Abs()), Abs(), limit, size, zi, chunk, r);
      }
    }

    method MallocLarge(size: nat) returns (r: int)
      requires Valid() && size > 0
      modifies this`blocks, this`usage, pages, pages.next, pages.page
      ensures Valid() && Keeps(old(Abs()), Abs())
      ensures r >= 0 ==> Gains(old(Abs()), Abs(), r, RoundUp(size, PAGE))
      ensures r >= 0 ==> r % PAGE == 0 && Lowest(old(Abs()).free, r / PAGE, RoundUp(size, PAGE) / PAGE)
      ensures r < 0 ==> Abs() == old(Abs()) && NoRoom(RoundUp(size, PAGE) / PAGE)
    {
      ghost var s := Abs();
      RoundsUp(size, PAGE);
      var n := RoundUp(size, PAGE) / PAGE;
      ghost var rs := pages.runs;
      var a := pages.Alloc(n);
      if a == NULL {
        return NULL;
      }
      LargeTaken(s, rs, a, n);
      blocks := blocks[a := Large(n)];
      usage := usage[a := LargePage(n)];
      assert Abs() == s.TakeLarge(a, n);
      return a * PAGE;
    }

    // A chunk of the first zone of array zi.
    method FromArray(zi: nat) returns (r: nat)
      requires Valid() && zi < CLASSES && arrays[zi] != []
      modifies this`blocks, this`arrays
      ensures Valid() && Gains(old(Abs()), Abs(), r, Chunk(zi)) && Served(old(Abs()), Abs(), zi, r, Chunk(zi))
      ensures Keeps(old(Abs()), Abs())
    {
      TakeChunkKeeps(Abs(), zi);
      TakeChunkOk(Abs(), zi);
      TakeChunkGains(Abs(), zi);
      r := TakeFrom(arrays[zi][0], zi);
    }

    method TakeFrom(a: nat, zi: nat) returns (r: nat)
      requires zi < |arrays| && arrays[zi] != [] && a == arrays[zi][0] && a in blocks && blocks[a].Small?
      requires var z := blocks[a].z; z.nfree > 0 && (z.uindex + 1 == z.nmax ==> z.freed != [])
      modifies this`blocks, this`arrays
      ensures Abs() == old(Abs()).TakeChunk(zi) && r == old(blocks)[a].z.Addr(a, old(blocks[a].z.Taken().1))
    {
      var z := blocks[a].z;
      z := z.(nfree := z.nfree - 1);
      if z.nfree == 0 {
        arrays := arrays[zi := arrays[zi][1..]];
      }
      var i;
      if z.uindex + 1 != z.nmax {
        z := z.(uindex := z.uindex + 1);
        i := z.uindex;
      } else {
        i := z.freed[0];
        z := z.(freed := z.freed[1..]);
      }
      blocks := blocks[a := Small(z)];
      r := z.Addr(a, i);
    }

    // The first chunk of a new zone.
    method FromNewZone(zi: nat, chunk: nat) returns (r: int)
      requires Valid() && zi < CLASSES && chunk == Chunk(zi) && 8 <= chunk && 4 * chunk <= cnt * PAGE
      requires arrays[zi] == []
      modifies this, pages, pages.next, pages.page
      ensures Valid() && Keeps(old(Abs()), Abs())
      ensures r >= 0 ==> Gains(old(Abs()), Abs(), r, chunk) && Served(old(Abs()), Abs(), zi, r, chunk)
      ensures r < 0 ==> Abs() == old(Abs()) && NoRoom(cnt)
    {
      FreshOk(zi, chunk, cnt * PAGE);
      var z := Fresh(zi, chunk, cnt * PAGE);
      if spare != [] {
        r := FromSpare(zi, z);
      } else {
        r := FromPages(zi, z);
      }
    }

    // New pages are set up as z.
    method FromPages(zi: nat, z: Zone) returns (r: int)
      requires Valid() && zi < CLASSES && arrays[zi] == [] && spare == []
      requires z.Ok(cnt * PAGE) && z.Live() == {0} && OfClass(z, zi) && z.nfree > 0
      modifies this`blocks, this`arrays, this`usage, pages, pages.next, pages.page
      ensures Valid() && Keeps(old(Abs()), Abs())
      ensures r >= 0 ==> Gains(old(Abs()), Abs(), r, z.chunk) && Served(old(Abs()), Abs(), zi, r, z.chunk)
      ensures r < 0 ==> Abs() == old(Abs()) && NoRoom(cnt)
    {
      ghost var s := Abs();
      ghost var rs := pages.runs;
      var a := pages.Alloc(cnt);
      if a == NULL {
        return NULL;
      }
      ZoneTaken(s, rs, a, zi, z);
      Mark(a, true);
      blocks := blocks[a := Small(z)];
      arrays := arrays[zi := [a] + arrays[zi]];
      assert Abs() == s.TakePages(zi, z, a);
      return z.Addr(a, 0);
    }

    // The first spare zone is set up as z.
    method FromSpare(zi: nat, z: Zone) returns (r: nat)
      requires Valid() && zi < CLASSES && arrays[zi] == [] && spare != []
      requires z.Ok(cnt * PAGE) && z.Live() == {0} && OfClass(z, zi) && z.nfree > 0
      modifies this`blocks, this`arrays, this`spare, this`spareCnt
      ensures Valid() && Gains(old(Abs()), Abs(), r, z.chunk) && Served(old(Abs()), Abs(), zi, r, z.chunk)
      ensures Keeps(old(Abs()), Abs())
    {
      ghost var s := Abs();
      var a := spare[0];
      SpareTaken(s, zi, z);
      spare, spareCnt := spare[1..], spareCnt - 1;
      blocks := blocks[a := Small(z)];
      arrays := arrays[zi := [a] + arrays[zi]];
      assert Abs() == s.TakeSpare(zi, z);
      return z.Addr(a, 0);
    }

    // rt_free
    method Release(ptr: nat)
      requires Valid() && exists len :: Object(Abs(), ptr, len)
      modifies this, pages, pages.next, pages.page
      // the object at ptr, and nothing else, is no longer handed out
      ensures Valid() && Loses(old(Abs()), Abs(), ptr) && Keeps(old(Abs()), Abs())
    {
      ghost var len :| Object(Abs(), ptr, len);
      ghost var a, i :| Holds(Abs(), a, i, ptr, len);
      FindsBlock(Abs(), a, i, ptr, len);
      ReleaseFrom(ptr, a, i);
    }

    // The page table tells what it is that begins at ptr: whole pages or a chunk.
    method ReleaseFrom(ptr: nat, ghost a: nat, ghost i: nat)
      requires Valid() && LeadsTo(Abs(), ptr / PAGE, a) && exists len :: Holds(Abs(), a, i, ptr, len)
      modifies this, pages, pages.next, pages.page
      ensures Valid() && Loses(old(Abs()), Abs(), ptr) && Keeps(old(Abs()), Abs())
    {
      var page := ptr / PAGE;
      match usage[page]
      case LargePage(n) => ReleaseLarge(page, n);
      case SmallPage(off) => ReleaseChunk(page - off, ptr, i);
      case FreePage =>
    }

    method ReleaseLarge(a: nat, n: nat)
      requires Valid() && a in blocks && blocks[a] == Large(n)
      modifies this`blocks, this`usage, pages, pages.next, pages.page
      ensures Valid() && Loses(old(Abs()), Abs(), a * PAGE) && Keeps(old(Abs()), Abs())
    {
      ghost var s := Abs();
      GiveLargeOk(s, a);
      GiveLargeLoses(s, a);
      GiveLargeKeeps(s, a);
      assert s.Placed(a);
      usage := usage[a := LargePage(0)];
      blocks := blocks - {a};
      pages.Release(a, n);
      assert Abs() == s.GiveLarge(a);
    }

    method ReleaseChunk(a: nat, ptr: nat, ghost j: nat)
      requires Valid() && a in blocks && blocks[a].Small? && j in blocks[a].z.Live() && ptr == blocks[a].z.Addr(a, j)
      modifies this, pages, pages.next, pages.page
      ensures Valid() && Loses(old(Abs()), Abs(), ptr) && Keeps(old(Abs()), Abs())
    {
      ghost var s := Abs();
      ChunkGiven(s, a, j);
      PutBack(a, ptr, j);
      PutZoneAway(a);
    }

    // The chunk goes onto the free list of its zone, and the zone, if it had none, into its array.
    method PutBack(a: nat, ptr: nat, ghost j: nat)
      requires a in blocks && blocks[a].Small? && ptr == blocks[a].z.Addr(a, j)
      requires blocks[a].z.zi < |arrays| && blocks[a].z.chunk > 0
      modifies this`blocks, this`arrays
      ensures Abs() == old(Abs()).GiveChunk(a, j)
    {
      var z := blocks[a].z;
      ChunkAt(z, a, j);
      var i := (ptr - a * PAGE - z.base) / z.chunk;
      z := z.(freed := [i] + z.freed);
      if z.nfree == 0 {
        arrays := arrays[z.zi := [a] + arrays[z.zi]];
      }
      z := z.(nfree := z.nfree + 1);
      blocks := blocks[a := Small(z)];
    }

    // A zone that is all free is put away, if it is not the only one of its class.
    method PutZoneAway(a: nat)
      requires Valid() && Offers(Abs(), a)
      modifies this, pages, pages.next, pages.page
      ensures Valid() && blocks.Keys <= old(blocks).Keys && old(blocks[a].z.zi) < CLASSES && a + cnt <= |old(usage)|
      ensures Abs() == old(Abs()).PutAway(a)
    {
      ghost var s := Abs();
      PutAwayOk(s, a);
      assert s.Placed(a);
      var z := blocks[a].z;
      if z.nfree == z.nmax && |arrays[z.zi]| > 1 {
        arrays := arrays[z.zi := Del(arrays[z.zi], a)];
        if spareCnt + 1 <= SPARES {
          blocks := blocks[a := Spare];
          spare, spareCnt := [a] + spare, spareCnt + 1;
        } else {
          blocks := blocks - {a};
          Mark(a, false);
          pages.Release(a, cnt);
        }
        assert Abs() == s.PutAway(a);
      }
    }

    // Set the page table for a zone at page a.
    method Mark(a: nat, small: bool)
      requires a + cnt <= |usage|
      modifies this`usage
      ensures usage == Marked(old(usage), a, cnt, small)
    {
      for off := 0 to cnt
        invariant |usage| == |old(usage)|
        invariant forall p :: 0 <= p < |usage| ==>
                                usage[p] == if a <= p < a + off then (if small then SmallPage(p - a) else FreePage)
                                    else old(usage)[p]
      {
        usage := usage[a + off := if small then SmallPage(off) else FreePage];
      }
    }
  }

  // The page table finds room at the very beginning of the heap.
  lemma {:induction false} TableFits(n: nat, m: nat, table: int)
    requires 0 < m <= n
    requires table != NULL ==> table >= 0 && Lowest(Pages(0, n), table, m)
    requires table == NULL ==> forall a {:trigger Pages(a, m)} :: !(Pages(a, m) <= Pages(0, n))
    ensures table == 0
  {
    assert Pages(0, m) <= Pages(0, n);
  }

  // Pages found by the page allocator are in the heap.
  lemma {:induction false} Inside(rs: seq<Run>, a: nat, n: nat, end: nat)
    requires Well(rs) && n > 0 && Pages(a, n) <= Free(rs) && forall i :: 0 <= i < |rs| ==> rs[i].End() <= end
    ensures a + n <= end
  {
    var i := InOneRun(rs, a, n);
  }

  // A request below the limit is served by chunks of at most the limit.
  lemma {:induction false} ChunkLimit(size: nat, zi: nat, chunk: nat, limit: nat)
    requires Fits(size, zi, chunk) && size < limit && limit in {8192, LIMIT}
    ensures 8 <= chunk <= limit
  {
    if zi > 63 {
      assert Chunk(63) < size;
    }
    assert Chunk(0) == 8;
    if zi > 0 {
      ChunksGrow(0, zi);
    }
    if zi < 63 {
      ChunksGrow(zi, 63);
    }
    if zi < 71 {
      ChunksGrow(zi, 71);
    }
  }

  lemma {:induction false} LargeTaken(s: State, rs: seq<Run>, a: nat, n: nat)
    requires s.Inv() && n > 0 && Well(rs) && Free(rs) == s.free && Pages(a, n) <= s.free
    requires forall i :: 0 <= i < |rs| ==> rs[i].End() <= |s.usage|
    ensures a < |s.usage| && s.TakeLarge(a, n).Inv() && Gains(s, s.TakeLarge(a, n), a * PAGE, n * PAGE)
    ensures Keeps(s, s.TakeLarge(a, n))
  {
    Inside(rs, a, n, |s.usage|);
    TakeLargeOk(s, a, n);
    TakeLargeGains(s, a, n);
    TakeLargeKeeps(s, a, n);
  }

  lemma {:induction false} ChunkGiven(s: State, a: nat, i: nat)
    requires s.Inv() && a in s.blocks && s.blocks[a].Small? && i in s.blocks[a].z.Live()
    ensures s.blocks[a].z.zi < CLASSES && s.blocks[a].z.chunk > 0
    ensures var v := s.GiveChunk(a, i);
            && v.Inv() && Offers(v, a) && v.blocks[a].z.zi < CLASSES && a + v.cnt <= |v.usage|
            && Keeps(s, v.PutAway(a)) && Loses(s, v.PutAway(a), s.blocks[a].z.Addr(a, i))
  {
    assert s.ZoneOk(a);
    GiveChunkOk(s, a, i);
    GiveChunkLoses(s, a, i);
    GiveChunkKeeps(s, a, i);
    PutAwaySame(s.GiveChunk(a, i), a);
    LosesMore(s, s.GiveChunk(a, i), s.GiveChunk(a, i).PutAway(a), s.blocks[a].z.Addr(a, i));
  }

  lemma {:induction false} LosesMore(s: State, v: State, u: State, addr: nat)
    requires Loses(s, v, addr) && forall x, n :: Object(u, x, n) <==> Object(v, x, n)
    ensures Loses(s, u, addr)
  {
  }

  lemma {:induction false} SpareTaken(s: State, zi: nat, z: Zone)
    requires s.Inv() && zi < CLASSES && s.arrays[zi] == [] && s.spare != []
    requires z.Ok(s.cnt * PAGE) && z.Live() == {0} && OfClass(z, zi) && z.nfree > 0
    ensures s.spare[0] in s.blocks && s.TakeSpare(zi, z).Inv() && Keeps(s, s.TakeSpare(zi, z))
    ensures var r := z.Addr(s.spare[0], 0);
            Gains(s, s.TakeSpare(zi, z), r, z.chunk) && Served(s, s.TakeSpare(zi, z), zi, r, z.chunk)
  {
    assert s.spare[0] in s.spare;
    TakeSpareOk(s, zi, z);
    TakeSpareKeeps(s, zi, z);
    NewZoneGains(s, s.TakeSpare(zi, z), s.spare[0], z);
  }

  lemma {:induction false} ZoneTaken(s: State, rs: seq<Run>, a: nat, zi: nat, z: Zone)
    requires s.Inv() && s.cnt > 0 && Well(rs) && Free(rs) == s.free && Lowest(s.free, a, s.cnt)
    requires forall i :: 0 <= i < |rs| ==> rs[i].End() <= |s.usage|
    requires zi < CLASSES && z.Ok(s.cnt * PAGE) && z.Live() == {0} && OfClass(z, zi) && z.nfree > 0
    ensures a + s.cnt <= |s.usage| && s.TakePages(zi, z, a).Inv() && Keeps(s, s.TakePages(zi, z, a))
    ensures Gains(s, s.TakePages(zi, z, a), z.Addr(a, 0), z.chunk)
    ensures s.arrays[zi] == [] && s.spare == [] ==> Served(s, s.TakePages(zi, z, a), zi, z.Addr(a, 0), z.chunk)
  {
    Inside(rs, a, s.cnt, |s.usage|);
    TakePagesOk(s, zi, z, a);
    TakePagesKeeps(s, zi, z, a);
    NewZoneGains(s, s.TakePages(zi, z, a), a, z);
    assert s.arrays[zi] == [] && s.spare == [] ==> Offering(s, zi, a);
  }

  lemma {:induction false} LargeAligned(s: State, r: nat, size: nat)
    requires s.Inv() && Object(s, r, RoundUp(size, PAGE)) && size >= PAGE
    ensures PowerOf2(size) ==> Aligned(s, size, r)
  {
    if PowerOf2(size) {
      PowerRound(size);
      ObjectIsAligned(s, r, size, size);
    }
  }

  lemma {:induction false} ObjectIsAligned(s: State, r: nat, len: nat, size: nat)
    requires s.Inv() && Object(s, r, len) && PowerOf2(size) && (len == size || (size < 8 && len == 8))
    ensures Aligned(s, size, r)
  {
    var a, i :| Holds(s, a, i, r, len);
    ObjectAligned(s, a, i, r, len, size);
  }

  lemma {:induction false} SmallAligned(s: State, r: nat, size: nat, zi: nat, chunk: nat)
    requires s.Inv() && Object(s, r, chunk) && Fits(size, zi, chunk)
    ensures PowerOf2(size) ==> Aligned(s, size, r)
  {
    if PowerOf2(size) {
      PowerFits(size, zi, chunk);
      ObjectIsAligned(s, r, chunk, size);
    }
  }

  // For every power of 2 above the page size there is a heap whose very first rt_malloc of it,
  // if there is room, is misaligned, wherever a multiple of that size the heap starts.
  method FirstCallMisaligned(size: nat) returns (r: int)
    requires PowerOf2(size) && size > PAGE
    ensures r >= 0 && r % size != 0
  {
    var n := HeapFor(size);
    HeapHasRoom(size);
    PowerRound(size);
    var links, counts := new int[n], new nat[n];
    var heap := new Slab(links, counts, n);
    r := heap.Malloc(size);
    LowestMisaligned(size, r / PAGE);
    assert r == r / PAGE * PAGE;
  }
}
