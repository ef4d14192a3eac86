/** The slab allocator: zones of equal chunks, spare zones and large allocations, all in pages
    that are not free, and the page table that leads from an address to what holds it. */
module SlabState {
  import opened Lists
  import opened PageRuns
  import opened SizeClass
  import opened SlabZone

  const SPARES := 2         // ZONE_RELEASE_THRESH

  // What a stretch of pages is used for.
  datatype Block = Small(z: Zone) | Spare | Large(n: nat)

  // memusage
  datatype Use = FreePage | SmallPage(off: nat) | LargePage(n: nat)

  datatype State = State(
    cnt: nat,                     // zone_page_cnt
    free: set<nat>,               // the pages on rt_page_list
    blocks: map<nat, Block>,      // by first page
    arrays: seq<seq<nat>>,        // zone_array
    spare: seq<nat>,              // zone_free
    usage: seq<Use>)
  {
    ghost function Size(a: nat): nat
      requires a in blocks
    {
      if blocks[a].Large? then blocks[a].n else cnt
    }

    // The pages of a block are in the heap, not free, and in no other block.
    ghost predicate Placed(a: nat)
      requires a in blocks
    {
      && Size(a) > 0 && a + Size(a) <= |usage| && Pages(a, Size(a)) !! free
      && forall b :: b in blocks && b != a ==> a + Size(a) <= b || b + Size(b) <= a
    }

    // The page table leads back to it.
    ghost predicate Listed(a: nat)
      requires a in blocks
    {
      && a + Size(a) <= |usage| && Size(a) > 0
      && if blocks[a].Large? then usage[a] == LargePage(blocks[a].n)
         else forall p :: a <= p < a + cnt ==> usage[p] == SmallPage(p - a)
    }

    ghost predicate ZoneOk(a: nat)
      requires a in blocks
    {
      blocks[a].Small? ==> var z := blocks[a].z; z.Ok(cnt * PAGE) && OfClass(z, z.zi)
    }

    // Zone array zi holds the zones of its class that have free chunks, each once.
    ghost predicate ArrayOk(zi: nat)
      requires zi < |arrays|
    {
      && Distinct(arrays[zi])
      && forall a ::
           a in arrays[zi] <==> a in blocks && blocks[a].Small? && blocks[a].z.zi == zi && blocks[a].z.nfree > 0
    }

    ghost predicate SpareOk() {
      Distinct(spare) && |spare| <= SPARES && forall a :: a in spare <==> a in blocks && blocks[a].Spare?
    }

    ghost predicate Inv() {
      && cnt > 0 && |arrays| == CLASSES && SpareOk()
      && (forall a :: a in blocks ==> Placed(a))
      && (forall a :: a in blocks ==> Listed(a))
      && (forall a :: a in blocks ==> ZoneOk(a))
      && (forall zi :: 0 <= zi < CLASSES ==> ArrayOk(zi))
    }

    // --- rt_malloc ----------------------------------------------------------------------------

    // A large allocation of n pages, which the page allocator found at page a.
    ghost function TakeLarge(a: nat, n: nat): State
      requires a < |usage|
    {
      this.(free := free - Pages(a, n), blocks := blocks[a := Large(n)], usage := usage[a := LargePage(n)])
    }

    // A chunk of the first zone of array zi.
    ghost function TakeChunk(zi: nat): State
      requires zi < |arrays| && arrays[zi] != [] && arrays[zi][0] in blocks && blocks[arrays[zi][0]].Small?
      requires var z := blocks[arrays[zi][0]].z; z.nfree > 0 && (z.uindex + 1 == z.nmax ==> z.freed != [])
    {
      var a := arrays[zi][0];
      var u := blocks[a].z.Taken().0;
      this.(blocks := blocks[a := Small(u)], arrays := if u.nfree == 0 then arrays[zi := arrays[zi][1..]] else arrays)
    }

    // Zone a, from the spare zones, becomes a zone of class zi.
    ghost function TakeSpare(zi: nat, z: Zone): State
      requires zi < |arrays| && spare != []
    {
      var a := spare[0];
      this.(blocks := blocks[a := Small(z)], arrays := arrays[zi := [a] + arrays[zi]], spare := spare[1..])
    }

    // The same with pages the page allocator found at page a.
    ghost function TakePages(zi: nat, z: Zone, a: nat): State
      requires zi < |arrays| && a + cnt <= |usage|
    {
      this.(free := free - Pages(a, cnt), blocks := blocks[a := Small(z)], arrays := arrays[zi := [a] + arrays[zi]],
            usage := Marked(usage, a, cnt, true))
    }

    // --- rt_free ------------------------------------------------------------------------------

    ghost function GiveLarge(a: nat): State
      requires a in blocks && blocks[a].Large? && a < |usage|
    {
      this.(free := free + Pages(a, blocks[a].n), blocks := blocks - {a}, usage := usage[a := LargePage(0)])
    }

    // Chunk i of zone a is given back.
    ghost function GiveChunk(a: nat, i: nat): State
      requires a in blocks && blocks[a].Small? && blocks[a].z.zi < |arrays|
    {
      var z := blocks[a].z;
      this.(blocks := blocks[a := Small(z.Given(i))],
            arrays := if z.nfree == 0 then arrays[z.zi := [a] + arrays[z.zi]] else arrays)
    }

    // Zone a, all of whose chunks are free, is put away, unless it is the only one of its class
    // with free chunks.
    ghost function PutAway(a: nat): State
      requires a in blocks && blocks[a].Small? && blocks[a].z.zi < |arrays| && a + cnt <= |usage|
    {
      var z := blocks[a].z;
      if z.nfree != z.nmax || |arrays[z.zi]| <= 1 then this
      else
        var rest := arrays[z.zi := Del(arrays[z.zi], a)];
        if |spare| < SPARES then this.(blocks := blocks[a := Spare], arrays := rest, spare := [a] + spare)
        else this.(blocks := blocks - {a}, arrays := rest, free := free + Pages(a, cnt),
            usage := Marked(usage, a, cnt, false))
    }
  }

  // The page table with n entries from page a on set.
  ghost function Marked(usage: seq<Use>, a: nat, n: nat, small: bool): seq<Use> {
    seq(|usage|, p requires 0 <= p < |usage| => if a <= p < a + n then (if small then SmallPage(p - a) else FreePage)
        else usage[p])
  }

  // --- pages and page table -----------------------------------------------------------------------

  // A block of free pages is added.
  lemma {:induction false} Added(s: State, u: State, a: nat)
    requires s.Inv() && u.cnt == s.cnt && a in u.blocks && u.blocks == s.blocks[a := u.blocks[a]]
    requires u.Size(a) > 0 && a + u.Size(a) <= |s.usage| == |u.usage| && Pages(a, u.Size(a)) <= s.free
    requires u.free == s.free - Pages(a, u.Size(a))
    requires forall p :: 0 <= p < |s.usage| && !(a <= p < a + u.Size(a)) ==> u.usage[p] == s.usage[p]
    requires u.Listed(a)
    ensures a !in s.blocks
    ensures forall b :: b in u.blocks ==> u.Placed(b)
    ensures forall b :: b in u.blocks ==> u.Listed(b)
  {
    assert a in Pages(a, u.Size(a));
    forall b | b in s.blocks
      ensures b != a && (a + u.Size(a) <= b || b + s.Size(b) <= a)
    {
      assert s.Placed(b);
      assert b in Pages(b, s.Size(b)) && a !in Pages(b, s.Size(b));
      assert b !in Pages(a, u.Size(a));
    }
    forall b | b in u.blocks
      ensures u.Placed(b) && u.Listed(b)
    {
      if b != a {
        assert s.Placed(b) && s.Listed(b);
      }
    }
  }

  // A block is given up.
  lemma {:induction false} Removed(s: State, u: State, a: nat)
    requires s.Inv() && u.cnt == s.cnt && a in s.blocks && u.blocks == s.blocks - {a}
    requires u.free == s.free + Pages(a, s.Size(a)) && |u.usage| == |s.usage|
    requires forall p :: 0 <= p < |s.usage| && !(a <= p < a + s.Size(a)) ==> u.usage[p] == s.usage[p]
    ensures forall b :: b in u.blocks ==> u.Placed(b)
    ensures forall b :: b in u.blocks ==> u.Listed(b)
  {
    forall b | b in u.blocks
      ensures u.Placed(b) && u.Listed(b)
    {
      OtherStays(s, u, a, b);
    }
  }

  lemma {:induction false} OtherStays(s: State, u: State, a: nat, b: nat)
    requires s.Inv() && u.cnt == s.cnt && a in s.blocks && u.blocks == s.blocks - {a} && b in u.blocks
    requires u.free == s.free + Pages(a, s.Size(a)) && |u.usage| == |s.usage|
    requires forall p :: 0 <= p < |s.usage| && !(a <= p < a + s.Size(a)) ==> u.usage[p] == s.usage[p]
    ensures u.Placed(b) && u.Listed(b)
  {
    assert s.Placed(a) && s.Placed(b) && s.Listed(b);
    assert Pages(b, s.Size(b)) !! Pages(a, s.Size(a));
  }

  // A zone becomes another zone, or spare, or the other way round.
  lemma {:induction false} Replaced(s: State, u: State, a: nat)
    requires s.Inv() && u.cnt == s.cnt && a in s.blocks && !s.blocks[a].Large? && u.free == s.free && u.usage == s.usage
    requires a in u.blocks && u.blocks == s.blocks[a := u.blocks[a]] && !u.blocks[a].Large?
    ensures forall b :: b in u.blocks ==> u.Placed(b)
    ensures forall b :: b in u.blocks ==> u.Listed(b)
  {
    forall b | b in u.blocks
      ensures u.Placed(b) && u.Listed(b)
    {
      assert s.Placed(b) && s.Listed(b);
    }
  }

  // --- the lists of zones -------------------------------------------------------------------------

  // u is s but for what block a is.
  ghost predicate ButFor(s: State, u: State, a: nat) {
    forall b: nat {:trigger b in u.blocks} {:trigger b in s.blocks} ::
      b != a ==> (b in u.blocks <==> b in s.blocks) && (b in u.blocks ==> u.blocks[b] == s.blocks[b])
  }

  ghost predicate Offers(s: State, a: nat) { a in s.blocks && s.blocks[a].Small? && s.blocks[a].z.nfree > 0 }

  lemma {:induction false} OneArray(s: State, u: State, a: nat, zi: nat)
    requires s.Inv() && |u.arrays| == CLASSES && zi < CLASSES && ButFor(s, u, a)
    requires a in s.blocks && s.blocks[a].Small? ==> s.blocks[a].z.zi == zi
    requires a in u.blocks && u.blocks[a].Small? ==> u.blocks[a].z.zi == zi
    requires u.arrays == s.arrays[zi := u.arrays[zi]] && Distinct(u.arrays[zi])
    requires forall b :: b in u.arrays[zi] <==> if b == a then Offers(u, a) else b in s.arrays[zi]
    ensures forall k :: 0 <= k < CLASSES ==> u.ArrayOk(k)
  {
    forall k | 0 <= k < CLASSES
      ensures u.ArrayOk(k)
    {
      assert s.ArrayOk(k) && s.ArrayOk(zi);
    }
  }

  // The spare zones and the zones themselves, when only block a changes.
  lemma {:induction false} OneBlock(s: State, u: State, a: nat)
    requires s.Inv() && u.cnt == s.cnt && ButFor(s, u, a)
    requires u.spare == s.spare && !(a in s.blocks && s.blocks[a].Spare?) && !(a in u.blocks && u.blocks[a].Spare?)
    requires a in u.blocks ==> u.ZoneOk(a)
    ensures u.SpareOk() && forall b :: b in u.blocks ==> u.ZoneOk(b)
  {
    forall b | b in u.blocks
      ensures u.ZoneOk(b)
    {
      if b != a {
        assert s.ZoneOk(b);
      }
    }
  }

  // A block that is no zone comes or goes.
  lemma {:induction false} NoZone(s: State, u: State, a: nat)
    requires s.Inv() && u.cnt == s.cnt && ButFor(s, u, a) && u.arrays == s.arrays && u.spare == s.spare
    requires (a in s.blocks ==> s.blocks[a].Large?) && (a in u.blocks ==> u.blocks[a].Large?)
    ensures u.SpareOk() && (forall b :: b in u.blocks ==> u.ZoneOk(b)) && forall k :: 0 <= k < CLASSES ==> u.ArrayOk(k)
  {
    OneBlock(s, u, a);
    assert s.ArrayOk(0);
    OneArray(s, u, a, 0);
  }

  // --- every operation keeps the invariant --------------------------------------------------------

  lemma {:induction false} TakeLargeOk(s: State, a: nat, n: nat)
    requires s.Inv() && n > 0 && a + n <= |s.usage| && Pages(a, n) <= s.free
    ensures a !in s.blocks && s.TakeLarge(a, n).Inv()
  {
    var u := s.TakeLarge(a, n);
    Added(s, u, a);
    NoZone(s, u, a);
  }

  lemma {:induction false} GiveLargeOk(s: State, a: nat)
    requires s.Inv() && a in s.blocks && s.blocks[a].Large?
    ensures a < |s.usage| && s.GiveLarge(a).Inv()
  {
    assert s.Placed(a);
    var u := s.GiveLarge(a);
    Removed(s, u, a);
    NoZone(s, u, a);
  }

  // The first zone of an array has a chunk to hand out.
  lemma {:induction false} Offered(s: State, zi: nat)
    requires s.Inv() && zi < CLASSES && s.arrays[zi] != []
    ensures var a := s.arrays[zi][0];
            && Offers(s, a) && s.blocks[a].z.zi == zi && s.blocks[a].z.chunk == Chunk(zi)
                 && s.blocks[a].z.Ok(s.cnt * PAGE)
            && (s.blocks[a].z.uindex + 1 == s.blocks[a].z.nmax ==> s.blocks[a].z.freed != [])
  {
    var a := s.arrays[zi][0];
    assert s.ArrayOk(zi) && a in s.arrays[zi] && s.ZoneOk(a);
    TakenOk(s.blocks[a].z, s.cnt * PAGE);
  }

  lemma {:induction false} TakeChunkOk(s: State, zi: nat)
    requires s.Inv() && zi < CLASSES && s.arrays[zi] != []
    ensures var a := s.arrays[zi][0];
            && Offers(s, a) && (s.blocks[a].z.uindex + 1 == s.blocks[a].z.nmax ==> s.blocks[a].z.freed != [])
            && s.TakeChunk(zi).Inv()
  {
    Offered(s, zi);
    var a := s.arrays[zi][0];
    var u := s.TakeChunk(zi);
    TakenOk(s.blocks[a].z, s.cnt * PAGE);
    Replaced(s, u, a);
    OneBlock(s, u, a);
    assert s.ArrayOk(zi);
    FirstOnly(s.arrays[zi]);
    OneArray(s, u, a, zi);
  }

  lemma {:induction false} FirstOnly(l: seq<nat>)
    requires Distinct(l) && l != []
    ensures Distinct(l[1..]) && forall b :: b in l[1..] <==> b in l && b != l[0]
  {
    TailOf(l);
    forall b
      ensures b in l[1..] <==> b in l && b != l[0]
    {
      assert b in SetOf(l[1..]) <==> b in SetOf(l) - {l[0]};
    }
  }

  lemma {:induction false} InFront(l: seq<nat>, a: nat)
    requires Distinct(l) && a !in l
    ensures Distinct([a] + l) && forall b :: b in [a] + l <==> b == a || b in l
  {
  }

  // A zone just set up, with the spare zones as they are or without the first.
  lemma {:induction false} NewZone(s: State, u: State, a: nat, zi: nat, z: Zone)
    requires s.Inv() && u.cnt == s.cnt && zi < CLASSES && z.Ok(s.cnt * PAGE) && OfClass(z, zi) && z.nfree > 0
    requires (a in s.blocks ==> s.blocks[a].Spare?) && u.blocks == s.blocks[a := Small(z)]
    requires u.arrays == s.arrays[zi := [a] + s.arrays[zi]]
    ensures (forall b :: b in u.blocks ==> u.ZoneOk(b)) && forall k :: 0 <= k < CLASSES ==> u.ArrayOk(k)
  {
    assert s.ArrayOk(zi);
    assert a !in s.arrays[zi];
    InFront(s.arrays[zi], a);
    OneArray(s, u, a, zi);
    forall b | b in u.blocks
      ensures u.ZoneOk(b)
    {
      if b != a {
        assert s.ZoneOk(b);
      }
    }
  }

  lemma {:induction false} TakeSpareOk(s: State, zi: nat, z: Zone)
    requires s.Inv() && zi < CLASSES && s.spare != [] && z.Ok(s.cnt * PAGE) && OfClass(z, zi) && z.nfree > 0
    ensures s.TakeSpare(zi, z).Inv()
  {
    var u, a := s.TakeSpare(zi, z), s.spare[0];
    assert a in s.spare;
    Replaced(s, u, a);
    NewZone(s, u, a, zi, z);
    FirstOnly(s.spare);
  }

  lemma {:induction false} TakePagesOk(s: State, zi: nat, z: Zone, a: nat)
    requires s.Inv() && zi < CLASSES && a + s.cnt <= |s.usage| && Pages(a, s.cnt) <= s.free
    requires z.Ok(s.cnt * PAGE) && OfClass(z, zi) && z.nfree > 0
    ensures a !in s.blocks && s.TakePages(zi, z, a).Inv()
  {
    var u := s.TakePages(zi, z, a);
    Added(s, u, a);
    NewZone(s, u, a, zi, z);
    assert u.SpareOk();
  }

  lemma {:induction false} GiveChunkOk(s: State, a: nat, i: nat)
    requires s.Inv() && a in s.blocks && s.blocks[a].Small? && i in s.blocks[a].z.Live()
    ensures s.blocks[a].z.zi < CLASSES && s.GiveChunk(a, i).Inv() && Offers(s.GiveChunk(a, i), a)
  {
    assert s.ZoneOk(a);
    var u, zi := s.GiveChunk(a, i), s.blocks[a].z.zi;
    GivenOk(s.blocks[a].z, s.cnt * PAGE, i);
    Replaced(s, u, a);
    OneBlock(s, u, a);
    assert s.ArrayOk(zi);
    if s.blocks[a].z.nfree == 0 {
      InFront(s.arrays[zi], a);
    }
    OneArray(s, u, a, zi);
  }

  // A zone leaves its array, for the spare zones or for good.
  lemma {:induction false} Leaves(s: State, u: State, a: nat)
    requires s.Inv() && u.cnt == s.cnt && Offers(s, a) && s.blocks[a].z.zi < CLASSES && ButFor(s, u, a)
    requires a in u.blocks ==> u.blocks[a].Spare?
    requires u.arrays == s.arrays[s.blocks[a].z.zi := Del(s.arrays[s.blocks[a].z.zi], a)]
    ensures (forall b :: b in u.blocks ==> u.ZoneOk(b)) && forall k :: 0 <= k < CLASSES ==> u.ArrayOk(k)
  {
    var l := s.arrays[s.blocks[a].z.zi];
    assert s.ArrayOk(s.blocks[a].z.zi);
    DelDistinct(l, a);
    forall b
      ensures b in Del(l, a) <==> b in l && b != a
    {
      DelMember(l, a, b);
    }
    OneArray(s, u, a, s.blocks[a].z.zi);
    forall b | b in u.blocks
      ensures u.ZoneOk(b)
    {
      assert b != a ==> s.ZoneOk(b);
    }
  }

  lemma {:induction false} PutAwayOk(s: State, a: nat)
    requires s.Inv() && Offers(s, a)
    ensures s.blocks[a].z.zi < CLASSES && a + s.cnt <= |s.usage| && s.PutAway(a).Inv()
  {
    assert s.ZoneOk(a) && s.Placed(a);
    var u, z := s.PutAway(a), s.blocks[a].z;
    if z.nfree == z.nmax && |s.arrays[z.zi]| > 1 {
      Leaves(s, u, a);
      if |s.spare| < SPARES {
        Replaced(s, u, a);
        InFront(s.spare, a);
      } else {
        Removed(s, u, a);
      }
    }
  }

  // --- what is allocated ----------------------------------------------------------------------------

  // Chunk i of block a, or a large block for i = 0, is handed out: len bytes at address addr.
  ghost predicate Holds(s: State, a: nat, i: nat, addr: nat, len: nat) {
    && a in s.blocks
    && match s.blocks[a] {
         case Small(z) => i in z.Live() && addr == z.Addr(a, i) && len == z.chunk
         case Large(n) => i == 0 && addr == a * PAGE && len == n * PAGE
         case Spare => false
       }
  }

  ghost predicate Object(s: State, addr: nat, len: nat) { exists a, i :: Holds(s, a, i, addr, len) }

  lemma {:induction false} HoldsInside(s: State, a: nat, i: nat, addr: nat, len: nat)
    requires s.Inv() && Holds(s, a, i, addr, len)
    ensures a * PAGE <= addr && addr + len <= (a + s.Size(a)) * PAGE && len > 0
  {
    assert s.ZoneOk(a) && s.Placed(a);
    if s.blocks[a].Small? {
      var z := s.blocks[a].z;
      InRange(z.uindex + 1, i);
      ChunkInside(z, s.cnt * PAGE, a, i);
    }
  }

  // Nothing that is handed out overlaps anything else that is.
  lemma {:induction false} ObjectsApart(s: State, a: nat, i: nat, x: nat, n: nat, b: nat, j: nat, y: nat, m: nat)
    requires s.Inv() && Holds(s, a, i, x, n) && Holds(s, b, j, y, m) && (a != b || i != j)
    ensures x + n <= y || y + m <= x
  {
    HoldsInside(s, a, i, x, n);
    HoldsInside(s, b, j, y, m);
    if a != b {
      assert s.Placed(a);
    } else {
      var z := s.blocks[a].z;
      if i < j {
        ChunksApart(z, a, i, j);
      } else {
        ChunksApart(z, a, j, i);
      }
    }
  }

  // No two objects have the same address.
  lemma {:induction false} OneAt(s: State, a: nat, i: nat, b: nat, j: nat, x: nat, n: nat, m: nat)
    requires s.Inv() && Holds(s, a, i, x, n) && Holds(s, b, j, x, m)
    ensures a == b && i == j && n == m
  {
    HoldsInside(s, a, i, x, n);
    HoldsInside(s, b, j, x, m);
    if a != b || i != j {
      ObjectsApart(s, a, i, x, n, b, j, x, m);
    }
  }

  // The entry of page p in the page table leads to block a.
  ghost predicate LeadsTo(s: State, p: nat, a: nat) {
    && a <= p < |s.usage| && a in s.blocks
    && (s.blocks[a].Small? ==> s.usage[p] == SmallPage(p - a))
    && (s.blocks[a].Large? ==> p == a && s.usage[p] == LargePage(s.blocks[a].n))
  }

  // The page table leads from the address of an object back to its block.
  lemma {:induction false} FindsBlock(s: State, a: nat, i: nat, addr: nat, len: nat)
    requires s.Inv() && Holds(s, a, i, addr, len)
    ensures LeadsTo(s, addr / PAGE, a)
  {
    assert s.Listed(a) && s.ZoneOk(a) && s.Placed(a);
    if s.blocks[a].Small? {
      var z := s.blocks[a].z;
      InRange(z.uindex + 1, i);
      ChunkPage(z, s.cnt, a, i);
    }
  }

  // At the beginning nothing is handed out.
  lemma {:induction false} NothingYet(s: State)
    requires s.cnt > 0 && s.blocks == map[] && s.spare == []
    requires |s.arrays| == CLASSES && forall zi :: 0 <= zi < CLASSES ==> s.arrays[zi] == []
    ensures s.Inv() && forall x, len :: !Object(s, x, len)
  {
    forall zi | 0 <= zi < CLASSES
      ensures s.ArrayOk(zi)
    {
      assert s.arrays[zi] == [];
    }
  }

  // u holds what s holds, and in addition len bytes at addr.
  ghost predicate Gains(s: State, u: State, addr: nat, len: nat) {
    forall x, n :: Object(u, x, n) <==> Object(s, x, n) || (x == addr && n == len)
  }

  // u holds what s holds, but for what is at addr.
  ghost predicate Loses(s: State, u: State, addr: nat) {
    forall x, n :: Object(u, x, n) <==> Object(s, x, n) && x != addr
  }

  // One more chunk, or block, is handed out; the others are as they were.
  lemma {:induction false} GainsOne(s: State, u: State, a: nat, i: nat, addr: nat, len: nat)
    requires Holds(u, a, i, addr, len)
    requires forall b, j, x, n {:trigger Holds(s, b, j, x, n)} :: Holds(s, b, j, x, n) ==> Holds(u, b, j, x, n)
    requires forall b, j, x, n {:trigger Holds(u, b, j, x, n)} :: Holds(u, b, j, x, n) ==>
               Holds(s, b, j, x, n) || (x == addr && n == len)
    ensures Gains(s, u, addr, len)
  {
    forall x, n
      ensures Object(u, x, n) <==> Object(s, x, n) || (x == addr && n == len)
    {
      if Object(s, x, n) {
        var b, j :| Holds(s, b, j, x, n);
        assert Holds(u, b, j, x, n);
      }
    }
  }

  lemma {:induction false} LosesOne(s: State, u: State, a: nat, i: nat, addr: nat, len: nat)
    requires s.Inv() && Holds(s, a, i, addr, len)
    requires forall b, j, x, n {:trigger Holds(u, b, j, x, n)} :: Holds(u, b, j, x, n) ==>
               Holds(s, b, j, x, n) && !(b == a && j == i)
    requires forall b, j, x, n {:trigger Holds(s, b, j, x, n)} :: Holds(s, b, j, x, n) && !(b == a && j == i) ==>
               Holds(u, b, j, x, n)
    ensures Loses(s, u, addr)
  {
    forall x, n
      ensures Object(u, x, n) <==> Object(s, x, n) && x != addr
    {
      if Object(u, x, n) {
        var b, j :| Holds(u, b, j, x, n);
        assert Holds(s, b, j, x, n);
        if x == addr {
          OneAt(s, a, i, b, j, x, len, n);
        }
      }
      if Object(s, x, n) && x != addr {
        var b, j :| Holds(s, b, j, x, n);
        assert Holds(u, b, j, x, n);
      }
    }
  }

  // The len bytes at addr are in block a.
  ghost predicate From(s: State, a: nat, addr: nat, len: nat) { exists i :: Holds(s, a, i, addr, len) }

  lemma {:induction false} TakeLargeGains(s: State, a: nat, n: nat)
    requires a !in s.blocks && a < |s.usage|
    ensures Gains(s, s.TakeLarge(a, n), a * PAGE, n * PAGE)
  {
    GainsOne(s, s.TakeLarge(a, n), a, 0, a * PAGE, n * PAGE);
  }

  lemma {:induction false} TakeChunkGains(s: State, zi: nat)
    requires s.Inv() && zi < CLASSES && s.arrays[zi] != []
    ensures var a := s.arrays[zi][0];
            && Offers(s, a) && s.blocks[a].z.zi == zi && (s.blocks[a].z.uindex + 1 == s.blocks[a].z.nmax ==>
                 s.blocks[a].z.freed != [])
            && Gains(s, s.TakeChunk(zi), s.blocks[a].z.Addr(a, s.blocks[a].z.Taken().1), Chunk(zi))
            && From(s.TakeChunk(zi), a, s.blocks[a].z.Addr(a, s.blocks[a].z.Taken().1), Chunk(zi))
  {
    Offered(s, zi);
    var a := s.arrays[zi][0];
    var z := s.blocks[a].z;
    TakenOk(z, s.cnt * PAGE);
    ChunkGains(s, s.TakeChunk(zi), a, z, z.Taken().0, z.Taken().1);
  }

  // Zone a has chunk k handed out in addition.
  lemma {:induction false} ChunkGains(s: State, u: State, a: nat, z: Zone, z': Zone, k: nat)
    requires a in s.blocks && s.blocks[a] == Small(z) && u.blocks == s.blocks[a := Small(z')]
    requires z'.chunk == z.chunk && z'.base == z.base && z'.Live() == z.Live() + {k}
    ensures Gains(s, u, z.Addr(a, k), z.chunk) && From(u, a, z.Addr(a, k), z.chunk)
  {
    assert Holds(u, a, k, z.Addr(a, k), z.chunk);
    GainsOne(s, u, a, k, z.Addr(a, k), z.chunk);
  }

  // A zone just set up hands out its first chunk.
  lemma {:induction false} NewZoneGains(s: State, u: State, a: nat, z: Zone)
    requires (a in s.blocks ==> s.blocks[a].Spare?) && u.blocks == s.blocks[a := Small(z)] && z.Live() == {0}
    ensures Gains(s, u, z.Addr(a, 0), z.chunk) && From(u, a, z.Addr(a, 0), z.chunk)
  {
    assert Holds(u, a, 0, z.Addr(a, 0), z.chunk);
    GainsOne(s, u, a, 0, z.Addr(a, 0), z.chunk);
  }

  lemma {:induction false} GiveLargeLoses(s: State, a: nat)
    requires s.Inv() && a in s.blocks && s.blocks[a].Large? && a < |s.usage|
    ensures Loses(s, s.GiveLarge(a), a * PAGE)
  {
    LosesOne(s, s.GiveLarge(a), a, 0, a * PAGE, s.blocks[a].n * PAGE);
  }

  lemma {:induction false} GiveChunkLoses(s: State, a: nat, i: nat)
    requires s.Inv() && a in s.blocks && s.blocks[a].Small? && i in s.blocks[a].z.Live()
    ensures s.blocks[a].z.zi < CLASSES && Loses(s, s.GiveChunk(a, i), s.blocks[a].z.Addr(a, i))
  {
    var z := s.blocks[a].z;
    assert s.ZoneOk(a);
    GivenOk(z, s.cnt * PAGE, i);
    LosesOne(s, s.GiveChunk(a, i), a, i, z.Addr(a, i), z.chunk);
  }

  // Putting a zone away takes nothing from anybody: all its chunks are free.
  lemma {:induction false} PutAwaySame(s: State, a: nat)
    requires s.Inv() && Offers(s, a)
    ensures s.blocks[a].z.zi < CLASSES && a + s.cnt <= |s.usage|
    ensures forall x, n :: Object(s.PutAway(a), x, n) <==> Object(s, x, n)
  {
    assert s.ZoneOk(a) && s.Placed(a);
    forall x, n
      ensures Object(s.PutAway(a), x, n) <==> Object(s, x, n)
    {
      if Object(s, x, n) {
        var b, j :| Holds(s, b, j, x, n);
        PutAwayHolds(s, a, b, j, x, n);
      }
      if Object(s.PutAway(a), x, n) {
        var b, j :| Holds(s.PutAway(a), b, j, x, n);
        PutAwayHolds(s, a, b, j, x, n);
      }
    }
  }

  lemma {:induction false} PutAwayHolds(s: State, a: nat, b: nat, j: nat, x: nat, n: nat)
    requires s.Inv() && Offers(s, a) && s.blocks[a].z.zi < CLASSES && a + s.cnt <= |s.usage|
    ensures Holds(s.PutAway(a), b, j, x, n) <==> Holds(s, b, j, x, n)
  {
    if b == a {
      assert s.ZoneOk(a);
      AllCounted(s.blocks[a].z, s.cnt * PAGE);
    }
  }
}
