/** zoneindex: the size classes of the slab allocator. */
module SizeClass {
  import opened Division

  const CLASSES := 72       // NZONES
  const LIMIT := 16384      // ZALLOC_ZONE_LIMIT

  // n rounded up to a multiple of m, a power of two
  function RoundUp(n: nat, m: nat): nat
    requires m > 0
  {
    (n + m - 1) / m * m
  }

  lemma {:induction false} RoundsUp(n: nat, m: nat)
    requires m > 0
    ensures RoundUp(n, m) / m * m == RoundUp(n, m) && n <= RoundUp(n, m) < n + m
  {
    var q := (n + m - 1) / m;
    assert n + m - 1 == m * q + (n + m - 1) % m && q * m == m * q + 0;
    DivOf(m, q, 0);
  }

  // No smaller multiple is enough.
  lemma {:induction false} RoundUpLowest(n: nat, m: nat, x: nat)
    requires m > 0
    ensures RoundUp(n, m) % m == 0 && (n <= x && x % m == 0 ==> RoundUp(n, m) <= x)
  {
    RoundsUp(n, m);
    var q, k := RoundUp(n, m) / m, x / m;
    DivOf(m, q, 0);
    assert x == m * k + x % m;
    if k < q {
      Times(m, q, k);
    } else if q < k {
      Times(m, k, q);
    }
  }

  // The chunk size of each class: sixteen of multiples of 8, then eight to each doubling.
  function Chunk(zi: nat): nat {
    if zi < 16 then (zi + 1) * 8
    else if zi < 24 then (zi - 7) * 16
    else if zi < 32 then (zi - 15) * 32
    else if zi < 40 then (zi - 23) * 64
    else if zi < 48 then (zi - 31) * 128
    else if zi < 56 then (zi - 39) * 256
    else if zi < 64 then (zi - 47) * 512
    else (zi - 55) * 1024
  }

  // zi is the class of the smallest chunks that n bytes fit into, and size their size.
  predicate Fits(n: nat, zi: int, size: nat) {
    0 <= zi < CLASSES && size == Chunk(zi) && n <= size && forall z: nat :: z < zi ==> Chunk(z) < n
  }

  lemma {:induction false} ChunksGrow(z: nat, y: nat)
    requires z < y < CLASSES
    ensures Chunk(z) < Chunk(y)
  {
    if z + 1 < y {
      ChunksGrow(z, y - 1);
    }
  }

  // The class below is too small.
  lemma {:induction false} FitsBy(n: nat, zi: nat)
    requires zi < CLASSES && n <= Chunk(zi) && (zi > 0 ==> Chunk(zi - 1) < n)
    ensures Fits(n, zi, Chunk(zi))
  {
    forall z: nat | z < zi
      ensures Chunk(z) < n
    {
      if z < zi - 1 {
        ChunksGrow(z, zi - 1);
      }
    }
  }

  // Index and chunk size determine each other.
  lemma {:induction false} FitsUnique(n: nat, z: nat, y: nat, s: nat, r: nat)
    requires n > 0 && Fits(n, z, s) && Fits(n, y, r)
    ensures z == y && s == r
  {
  }

  // One row of the table: a request of that size is rounded up to a multiple of m.
  predicate Row(bytes: nat, m: nat, off: int) {
    || (m == 8 && off == -1 && 0 < bytes < 128)
    || (m == 16 && off == 7 && 128 <= bytes < 256)
    || (m == 32 && off == 15 && 256 <= bytes < 512)
    || (m == 64 && off == 23 && 512 <= bytes < 1024)
    || (m == 128 && off == 31 && 1024 <= bytes < 2048)
    || (m == 256 && off == 39 && 2048 <= bytes < 4096)
    || (m == 512 && off == 47 && 4096 <= bytes < 8192)
    || (m == 1024 && off == 55 && 8192 <= bytes < LIMIT)
  }

  // The class it falls into; less than one eighth of it is wasted, but for the smallest ones.
  lemma {:induction false} InRow(bytes: nat, m: nat, off: int)
    requires Row(bytes, m, off)
    ensures var n := RoundUp(bytes, m); Fits(bytes, n / m + off, n) && (n - bytes < 8 || (n - bytes) * 8 < bytes)
  {
    RoundsUp(bytes, m);
    var q := RoundUp(bytes, m) / m;
    RowChunk(bytes, m, off, q);
    FitsBy(bytes, q + off);
  }

  lemma {:induction false} RowChunk(bytes: nat, m: nat, off: int, q: nat)
    requires Row(bytes, m, off) && bytes <= q * m < bytes + m
    ensures 0 <= q + off < CLASSES && Chunk(q + off) == q * m && (q + off > 0 ==> Chunk(q + off - 1) < bytes)
  {
  }

  // The result is the class and the rounded size; at the limit and above it is zero, and size
  // stays as it is.
  method ZoneIndex(bytes: nat) returns (zi: int, n: nat)
    requires 0 < bytes
    ensures bytes < LIMIT ==> Fits(bytes, zi, n)
    ensures bytes >= LIMIT ==> zi == 0 && n == bytes
    ensures bytes < LIMIT ==> n - bytes < 8 || (n - bytes) * 8 < bytes
  {
    n := bytes;
    if n < 128 {
      InRow(bytes, 8, -1);
      n := RoundUp(n, 8);
      zi := n / 8 - 1;
    } else if n < 256 {
      InRow(bytes, 16, 7);
      n := RoundUp(n, 16);
      zi := n / 16 + 7;
    } else if n < 8192 {
      if n < 512 {
        InRow(bytes, 32, 15);
        n := RoundUp(n, 32);
        zi := n / 32 + 15;
      } else if n < 1024 {
        InRow(bytes, 64, 23);
        n := RoundUp(n, 64);
        zi := n / 64 + 23;
      } else if n < 2048 {
        InRow(bytes, 128, 31);
        n := RoundUp(n, 128);
        zi := n / 128 + 31;
      } else if n < 4096 {
        InRow(bytes, 256, 39);
        n := RoundUp(n, 256);
        zi := n / 256 + 39;
      } else {
        InRow(bytes, 512, 47);
        n := RoundUp(n, 512);
        zi := n / 512 + 47;
      }
    } else if n < 16384 {
      InRow(bytes, 1024, 55);
      n := RoundUp(n, 1024);
      zi := n / 1024 + 55;
    } else {
      return 0, n;
    }
  }

  // Asked for a whole chunk, the allocator finds the class of that chunk.
  lemma {:induction false} ChunkFits(zi: nat)
    requires zi < CLASSES
    ensures Fits(Chunk(zi), zi, Chunk(zi))
  {
    if zi > 0 {
      ChunksGrow(zi - 1, zi);
    }
    FitsBy(Chunk(zi), zi);
  }
}
