/** One zone of the slab allocator: the chunks it hands out and takes back, and where they are.
    Addresses count bytes from heap_start. */
module SlabZone {
  import opened Division
  import opened Lists
  import opened SizeClass

  const PAGE := 4096        // RT_MM_PAGE_SIZE
  const HEADER := 36        // sizeof(slab_zone)

  datatype Zone = Zone(
    zi: nat,                  // z_zoneindex
    base: nat,                // z_baseptr, from the beginning of the zone
    chunk: nat,               // z_chunksize
    nmax: nat,                // z_nmax
    uindex: nat,              // z_uindex
    freed: seq<nat>,          // z_freechunk
    nfree: nat)               // z_nfree
  {
    // The chunks that are handed out: those taken so far but not those given back.
    ghost function Live(): set<nat> { Range(uindex + 1) - SetOf(freed) }

    ghost predicate Ok(size: nat) {
      && chunk > 0 && uindex < nmax && HEADER <= base && base + nmax * chunk <= size
      && Distinct(freed) && SetOf(freed) <= Range(uindex + 1)
      && nfree == |freed| + nmax - 1 - uindex
    }

    // Take a chunk: one never used before if there is one, else the one given back last.
    ghost function Taken(): (Zone, nat)
      requires nfree > 0 && (uindex + 1 == nmax ==> freed != [])
    {
      if uindex + 1 != nmax then (this.(uindex := uindex + 1, nfree := nfree - 1), uindex + 1)
      else (this.(freed := freed[1..], nfree := nfree - 1), freed[0])
    }

    ghost function Given(i: nat): Zone { this.(freed := [i] + freed, nfree := nfree + 1) }

    // The address of chunk i of a zone that begins at a page.
    function Addr(page: nat, i: nat): nat { page * PAGE + base + i * chunk }
  }

  // No chunk is handed out that is handed out already.
  lemma {:induction false} TakenOk(z: Zone, size: nat)
    requires z.Ok(size) && z.nfree > 0
    ensures z.uindex + 1 == z.nmax ==> z.freed != []
    ensures var (u, i) := z.Taken(); u.Ok(size) && i < z.nmax && i !in z.Live() && u.Live() == z.Live() + {i}
  {
    InRange(z.uindex + 1, z.uindex + 1);
    InRange(z.uindex + 2, z.uindex + 1);
    if z.uindex + 1 == z.nmax {
      TailOf(z.freed);
      InRange(z.uindex + 1, z.freed[0]);
    }
  }

  // A chunk that was never used is taken before any that was given back, and of those the last one first.
  lemma {:induction false} TakenFirst(z: Zone, i: nat)
    requires z.uindex + 1 <= z.nmax
    ensures z.nfree > 0 && z.uindex + 1 != z.nmax ==>
              z.Taken().1 !in Range(z.uindex + 1) && z.Taken().0.freed == z.freed
    ensures z.uindex + 1 == z.nmax ==> z.Given(i).Taken() == (z, i)
  {
    InRange(z.uindex + 1, z.uindex + 1);
  }

  lemma {:induction false} GivenOk(z: Zone, size: nat, i: nat)
    requires z.Ok(size) && i in z.Live()
    ensures z.Given(i).Ok(size) && z.Given(i).Live() == z.Live() - {i}
  {
    InsDistinct(z.freed, 0, i);
    assert Ins(z.freed, 0, i) == [i] + z.freed;
  }

  // What is free and what is handed out make up the zone: it is all free exactly if z_nfree
  // says so.
  lemma {:induction false} AllCounted(z: Zone, size: nat)
    requires z.Ok(size)
    ensures |z.Live()| + z.nfree == z.nmax
    ensures z.nfree == z.nmax <==> z.Live() == {}
  {
    RangeSize(z.uindex + 1);
    Length(z.freed);
    assert Range(z.uindex + 1) == z.Live() + SetOf(z.freed);
    assert |z.Live() + SetOf(z.freed)| == |z.Live()| + |SetOf(z.freed)|;
  }

  // --- a new zone -------------------------------------------------------------------------------

  predicate PowerOf2(n: nat) { n == 1 || (n > 1 && n % 2 == 0 && PowerOf2(n / 2)) }

  // The chunks begin behind the header, at a multiple of their size if that is a power of 2.
  function Base(chunk: nat): nat
    requires chunk > 0
  {
    RoundUp(HEADER, if PowerOf2(chunk) then chunk else 8)
  }

  // Its first chunk is handed out at once.
  function Fresh(zi: nat, chunk: nat, size: nat): Zone
    requires chunk > 0 && Base(chunk) + chunk <= size
  {
    var n := (size - Base(chunk)) / chunk;
    Zone(zi, Base(chunk), chunk, n, 0, [], if n > 0 then n - 1 else 0)
  }

  // z is set up for the chunks of class zi.
  ghost predicate OfClass(z: Zone, zi: nat) {
    zi < CLASSES && z.zi == zi && z.chunk == Chunk(zi) && z.chunk > 0 && z.base == Base(z.chunk)
  }

  // A chunk of at most a quarter of the zone leaves room for three at least.
  lemma {:induction false} FreshOk(zi: nat, chunk: nat, size: nat)
    requires 8 <= chunk && 4 * chunk <= size && size >= 0x8000
    ensures Base(chunk) + chunk <= size
    ensures var z := Fresh(zi, chunk, size); z.Ok(size) && z.Live() == {0} && z.nfree >= 2
    // as many chunks as there is room for
    ensures var z := Fresh(zi, chunk, size); z.base + (z.nmax + 1) * chunk > size
  {
    BaseSmall(chunk);
    Quotient(size - Base(chunk), chunk);
    assert SetOf([]) == {} && Range(1) == Range(0) + {0};
  }

  // No lower place behind the header is aligned so.
  lemma {:induction false} BaseIsLowest(chunk: nat, x: nat)
    requires chunk > 0
    ensures var m := if PowerOf2(chunk) then chunk else 8;
            Base(chunk) % m == 0 && HEADER <= Base(chunk) && (HEADER <= x && x % m == 0 ==> Base(chunk) <= x)
  {
    var m := if PowerOf2(chunk) then chunk else 8;
    RoundsUp(HEADER, m);
    RoundUpLowest(HEADER, m, x);
  }

  lemma {:induction false} BaseSmall(chunk: nat)
    requires chunk >= 8
    ensures HEADER <= Base(chunk) && (Base(chunk) <= chunk || Base(chunk) < 72)
  {
    var m := if PowerOf2(chunk) then chunk else 8;
    RoundsUp(HEADER, m);
    var q := Base(chunk) / m;
    if m >= HEADER {
      if q > 1 { Times(m, q, 1); }
    }
  }

  lemma {:induction false} Quotient(room: nat, chunk: nat)
    requires chunk > 0 && room >= 3 * chunk
    ensures room / chunk >= 3 && room / chunk * chunk <= room < (room / chunk + 1) * chunk
  {
    var q := room / chunk;
    assert room == chunk * q + room % chunk;
    if q < 3 { Times(chunk, 3, q); }
  }

  // --- where the chunks are ---------------------------------------------------------------------

  lemma {:induction false} ChunkInside(z: Zone, size: nat, page: nat, i: nat)
    requires z.Ok(size) && i < z.nmax
    ensures page * PAGE + HEADER <= z.Addr(page, i) && z.Addr(page, i) + z.chunk <= page * PAGE + size
  {
    if i + 1 < z.nmax { Times(z.chunk, z.nmax, i); }
  }

  // The page table entry of the page a chunk lies in counts the pages from the beginning of the
  // zone, and so leads back to it.
  lemma {:induction false} ChunkPage(z: Zone, cnt: nat, page: nat, i: nat)
    requires z.Ok(cnt * PAGE) && i < z.nmax
    ensures page <= z.Addr(page, i) / PAGE < page + cnt
  {
    ChunkInside(z, cnt * PAGE, page, i);
  }

  // Different chunks do not overlap.
  lemma {:induction false} ChunksApart(z: Zone, page: nat, i: nat, j: nat)
    requires i < j
    ensures z.Addr(page, i) + z.chunk <= z.Addr(page, j)
  {
    Times(z.chunk, j, i);
  }

  // The address of a chunk gives its number.
  lemma {:induction false} ChunkAt(z: Zone, page: nat, i: nat)
    requires z.chunk > 0
    ensures (z.Addr(page, i) - page * PAGE - z.base) / z.chunk == i
  {
    DivOf(z.chunk, i, 0);
  }

  // Chunks whose size is a power of 2 are aligned to that size exactly if the zone is.
  lemma {:induction false} AlignedExactly(z: Zone, page: nat, i: nat)
    requires PowerOf2(z.chunk) && z.base == Base(z.chunk)
    ensures z.Addr(page, i) % z.chunk == 0 <==> page * PAGE % z.chunk == 0
  {
    RoundsUp(HEADER, z.chunk);
    OnGrid(z.base, z.chunk, i);
    ModShift(page * PAGE, z.chunk, z.base / z.chunk + i);
  }

  lemma {:induction false} OnGrid(base: nat, m: nat, i: nat)
    requires m > 0 && base / m * m == base
    ensures base + i * m == m * (base / m + i)
  {
    var q := base / m;
    assert base == m * q && i * m == m * i;
    assert m * (q + i) == m * q + m * i;
  }

  lemma {:induction false} ModShift(p: nat, m: nat, k: nat)
    requires m > 0
    ensures (p + m * k) % m == p % m
  {
    var q, r := p / m, p % m;
    assert p == m * q + r;
    assert p + m * k == m * (q + k) + r;
    DivOf(m, q + k, r);
  }

  lemma {:induction false} PageAligned(page: nat, m: nat)
    requires PowerOf2(m) && m <= PAGE
    ensures page * PAGE % m == 0
  {
    PowersOfPage(m);
    var k := PAGE / m;
    assert page * PAGE == m * (k * page);
    DivOf(m, k * page, 0);
  }

  lemma {:induction false} PowersOfPage(m: nat)
    requires PowerOf2(m) && m <= PAGE
    ensures m * (PAGE / m) == PAGE
  {
    assert m in {1, 2, 4, 8, 16, 32, 64, 128, 256, 512, 1024, 2048, 4096} by {
      Halves(m, 4096);
    }
  }

  lemma {:induction false} Halves(m: nat, top: nat)
    requires PowerOf2(m) && m <= top && top in {1, 2, 4, 8, 16, 32, 64, 128, 256, 512, 1024, 2048, 4096}
    ensures m in {1, 2, 4, 8, 16, 32, 64, 128, 256, 512, 1024, 2048, 4096}
  {
    if m > 1 {
      Halves(m / 2, top / 2);
    }
  }
}
