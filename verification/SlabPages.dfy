/** No page of the slab heap is lost, and no zone is kept for nothing. */
module SlabPages {
  import opened Lists
  import opened PageRuns
  import opened SizeClass
  import opened SlabZone
  import opened SlabState

  // --- every page is free or in a block ----------------------------------------------------------

  ghost predicate Within(s: State, p: nat) { exists a :: a in s.blocks && a <= p < a + s.Size(a) }

  ghost predicate Accounted(s: State, p: nat) { p in s.free || Within(s, p) }

  // No page disappears and none comes from nowhere.
  ghost predicate SamePages(s: State, u: State) { forall p: nat :: Accounted(s, p) <==> Accounted(u, p) }

  // Free pages become block a.
  lemma {:induction false} PagesTaken(s: State, u: State, a: nat)
    requires u.cnt == s.cnt && a !in s.blocks && a in u.blocks && u.blocks == s.blocks[a := u.blocks[a]]
    requires Pages(a, u.Size(a)) <= s.free && u.free == s.free - Pages(a, u.Size(a))
    ensures SamePages(s, u)
  {
    forall p: nat
      ensures Accounted(s, p) <==> Accounted(u, p)
    {
      if Within(s, p) {
        var b :| b in s.blocks && b <= p < b + s.Size(b);
        assert b in u.blocks && u.Size(b) == s.Size(b);
      }
      if Within(u, p) {
        var b :| b in u.blocks && b <= p < b + u.Size(b);
        assert b != a ==> b in s.blocks && u.Size(b) == s.Size(b);
        assert b == a ==> p in Pages(a, u.Size(a));
      }
      if p in Pages(a, u.Size(a)) {
        assert a in u.blocks && a <= p < a + u.Size(a);
      }
    }
  }

  // Block a becomes free pages.
  lemma {:induction false} PagesGiven(s: State, u: State, a: nat)
    requires u.cnt == s.cnt && a in s.blocks && u.blocks == s.blocks - {a}
    requires u.free == s.free + Pages(a, s.Size(a))
    ensures SamePages(s, u)
  {
    forall p: nat
      ensures Accounted(s, p) <==> Accounted(u, p)
    {
      if Within(s, p) {
        var b :| b in s.blocks && b <= p < b + s.Size(b);
        assert b != a ==> b in u.blocks && u.Size(b) == s.Size(b);
      }
      if Within(u, p) {
        var b :| b in u.blocks && b <= p < b + u.Size(b);
        assert b in s.blocks && u.Size(b) == s.Size(b);
      }
      if p in Pages(a, s.Size(a)) {
        assert a in s.blocks && a <= p < a + s.Size(a);
      }
    }
  }

  // Block a is used for something else.
  lemma {:induction false} PagesStay(s: State, u: State, a: nat)
    requires u.cnt == s.cnt && a in s.blocks && a in u.blocks && u.blocks == s.blocks[a := u.blocks[a]]
    requires u.free == s.free && u.Size(a) == s.Size(a)
    ensures SamePages(s, u)
  {
    forall p: nat
      ensures Accounted(s, p) <==> Accounted(u, p)
    {
      if Within(s, p) {
        var b :| b in s.blocks && b <= p < b + s.Size(b);
        assert b in u.blocks && u.Size(b) == s.Size(b);
      }
      if Within(u, p) {
        var b :| b in u.blocks && b <= p < b + u.Size(b);
        assert b in s.blocks && u.Size(b) == s.Size(b);
      }
    }
  }

  // --- zones that are all free -------------------------------------------------------------------

  ghost predicate Idle(s: State, a: nat) { a in s.blocks && s.blocks[a].Small? && s.blocks[a].z.Live() == {} }

  ghost predicate Twins(s: State, a: nat, b: nat) {
    a != b && Idle(s, a) && Idle(s, b) && s.blocks[a].z.zi == s.blocks[b].z.zi
  }

  // No two zones of a class are all free.
  ghost predicate Settled(s: State) { forall a, b :: !Twins(s, a, b) }

  ghost predicate SettledBut(s: State, a: nat) { forall b, c :: Twins(s, b, c) ==> b == a || c == a }

  // No other zone has become all free.
  lemma {:induction false} StaysSettled(s: State, u: State, a: nat)
    requires Settled(s) && ButFor(s, u, a)
    ensures SettledBut(u, a) && (!Idle(u, a) ==> Settled(u))
  {
    forall b, c | Twins(u, b, c)
      ensures b == a || c == a
    {
      assert b != a && c != a ==> Twins(s, b, c);
    }
    if !Idle(u, a) {
      forall b, c
        ensures !Twins(u, b, c)
      {
        assert Twins(u, b, c) ==> b == a || c == a;
      }
    }
  }

  // Zone a is all free, and another zone of its class has free chunks.
  ghost predicate Spared(s: State, a: nat) {
    Idle(s, a) && exists b :: b != a && Offers(s, b) && s.blocks[b].z.zi == s.blocks[a].z.zi
  }

  // A zone is put away exactly if it is all free and not the only one of its class with free chunks: it
  // becomes spare, or, if there are enough of those, its pages become free.
  ghost predicate PutAwayRight(s: State, a: nat, u: State) {
    if !Spared(s, a) then u == s
    else
      && (forall k :: 0 <= k < |u.arrays| ==> a !in u.arrays[k])
      && if |s.spare| < SPARES then
           u.blocks == s.blocks[a := Spare] && u.spare == [a] + s.spare && u.free == s.free && u.usage == s.usage
         else
           u.blocks == s.blocks - {a} && u.spare == s.spare && u.free == s.free + Pages(a, s.cnt)
  }

  lemma {:induction false} SparedIs(s: State, a: nat)
    requires s.Inv() && Offers(s, a)
    ensures var z := s.blocks[a].z; z.zi < CLASSES && (Spared(s, a) <==> z.nfree == z.nmax && |s.arrays[z.zi]| > 1)
  {
    var z := s.blocks[a].z;
    assert s.ZoneOk(a);
    var l := s.arrays[z.zi];
    assert s.ArrayOk(z.zi);
    AllCounted(z, s.cnt * PAGE);
    assert a in l;
    if |l| > 1 {
      var b := if l[0] == a then l[1] else l[0];
      assert b in l && b != a;
    }
    if b :| b != a && Offers(s, b) && s.blocks[b].z.zi == z.zi {
      assert b in l;
    }
  }

  lemma {:induction false} PutAwayIs(s: State, a: nat)
    requires s.Inv() && Offers(s, a)
    ensures s.blocks[a].z.zi < CLASSES && a + s.cnt <= |s.usage| && PutAwayRight(s, a, s.PutAway(a))
  {
    PutAwayOk(s, a);
    SparedIs(s, a);
    var u := s.PutAway(a);
    if Spared(s, a) {
      forall k | 0 <= k < |u.arrays|
        ensures a !in u.arrays[k]
      {
        assert u.ArrayOk(k);
      }
    }
  }

  lemma {:induction false} PutAwaySettles(s: State, a: nat)
    requires s.Inv() && Offers(s, a) && SettledBut(s, a)
    ensures s.blocks[a].z.zi < CLASSES && a + s.cnt <= |s.usage|
    ensures Settled(s.PutAway(a))
  {
    PutAwayIs(s, a);
    SparedIs(s, a);
    var u := s.PutAway(a);
    forall b, c
      ensures !Twins(u, b, c)
    {
      if Twins(u, b, c) {
        assert Twins(s, b, c);
        var d := if b == a then c else b;
        assert s.ZoneOk(d);
        AllCounted(s.blocks[d].z, s.cnt * PAGE);
        assert Offers(s, d);
      }
    }
  }

  lemma {:induction false} PutAwayPages(s: State, a: nat)
    requires s.Inv() && Offers(s, a)
    ensures s.blocks[a].z.zi < CLASSES && a + s.cnt <= |s.usage| && SamePages(s, s.PutAway(a))
  {
    PutAwayIs(s, a);
    var u := s.PutAway(a);
    if Spared(s, a) {
      if a in u.blocks {
        PagesStay(s, u, a);
      } else {
        PagesGiven(s, u, a);
      }
    }
  }

  // --- every operation ----------------------------------------------------------------------------

  // No page is lost, and if no class had two zones all of whose chunks are free, none has.
  ghost predicate Keeps(s: State, u: State) { SamePages(s, u) && (Settled(s) ==> Settled(u)) }

  lemma {:induction false} TakeLargeKeeps(s: State, a: nat, n: nat)
    requires s.Inv() && n > 0 && a + n <= |s.usage| && Pages(a, n) <= s.free && a !in s.blocks
    ensures Keeps(s, s.TakeLarge(a, n))
  {
    PagesTaken(s, s.TakeLarge(a, n), a);
    if Settled(s) {
      StaysSettled(s, s.TakeLarge(a, n), a);
    }
  }

  lemma {:induction false} GiveLargeKeeps(s: State, a: nat)
    requires s.Inv() && a in s.blocks && s.blocks[a].Large? && a < |s.usage|
    ensures Keeps(s, s.GiveLarge(a))
  {
    PagesGiven(s, s.GiveLarge(a), a);
    if Settled(s) {
      StaysSettled(s, s.GiveLarge(a), a);
    }
  }

  lemma {:induction false} TakeChunkKeeps(s: State, zi: nat)
    requires s.Inv() && zi < CLASSES && s.arrays[zi] != []
    ensures var a := s.arrays[zi][0];
            && Offers(s, a) && (s.blocks[a].z.uindex + 1 == s.blocks[a].z.nmax ==> s.blocks[a].z.freed != [])
            && Keeps(s, s.TakeChunk(zi))
  {
    Offered(s, zi);
    var a, u := s.arrays[zi][0], s.TakeChunk(zi);
    TakenOk(s.blocks[a].z, s.cnt * PAGE);
    PagesStay(s, u, a);
    assert s.blocks[a].z.Taken().1 in u.blocks[a].z.Live();
    if Settled(s) {
      StaysSettled(s, u, a);
    }
  }

  // A zone whose first chunk is handed out.
  lemma {:induction false} NewZoneSettles(s: State, u: State, a: nat, z: Zone)
    requires u.blocks == s.blocks[a := Small(z)] && z.Live() == {0} && Settled(s)
    ensures Settled(u)
  {
    assert 0 in u.blocks[a].z.Live();
    StaysSettled(s, u, a);
  }

  lemma {:induction false} TakeSpareKeeps(s: State, zi: nat, z: Zone)
    requires s.Inv() && zi < CLASSES && s.spare != [] && z.Live() == {0}
    ensures Keeps(s, s.TakeSpare(zi, z))
  {
    assert s.spare[0] in s.spare;
    PagesStay(s, s.TakeSpare(zi, z), s.spare[0]);
    if Settled(s) {
      NewZoneSettles(s, s.TakeSpare(zi, z), s.spare[0], z);
    }
  }

  lemma {:induction false} TakePagesKeeps(s: State, zi: nat, z: Zone, a: nat)
    requires s.Inv() && zi < CLASSES && a + s.cnt <= |s.usage| && Pages(a, s.cnt) <= s.free && a !in s.blocks
    requires z.Live() == {0}
    ensures Keeps(s, s.TakePages(zi, z, a))
  {
    PagesTaken(s, s.TakePages(zi, z, a), a);
    if Settled(s) {
      NewZoneSettles(s, s.TakePages(zi, z, a), a, z);
    }
  }

  // A chunk is given back to zone a, and the zone put away if it is right to do so.
  lemma {:induction false} GiveChunkKeeps(s: State, a: nat, i: nat)
    requires s.Inv() && a in s.blocks && s.blocks[a].Small? && i in s.blocks[a].z.Live()
    ensures s.blocks[a].z.zi < CLASSES
    ensures var v := s.GiveChunk(a, i);
            v.Inv() && Offers(v, a) && v.blocks[a].z.zi < CLASSES && a + v.cnt <= |v.usage| && Keeps(s, v.PutAway(a))
  {
    GiveChunkOk(s, a, i);
    var v := s.GiveChunk(a, i);
    PagesStay(s, v, a);
    PutAwayOk(v, a);
    PutAwayPages(v, a);
    SamePagesMore(s, v, v.PutAway(a));
    if Settled(s) {
      StaysSettled(s, v, a);
      PutAwaySettles(v, a);
    }
  }

  lemma {:induction false} SamePagesMore(s: State, v: State, u: State)
    requires SamePages(s, v) && SamePages(v, u)
    ensures SamePages(s, u)
  {
    forall p: nat
      ensures Accounted(s, p) <==> Accounted(u, p)
    {
      assert Accounted(s, p) <==> Accounted(v, p);
    }
  }
}
