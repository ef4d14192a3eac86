/** The ring that threads the free blocks of a memory heap object: words NF and PF of a
    block's header hold the offsets of the next and the previous free block. The ring
    starts and ends at the list header, which sits at offset 0 in front of the pool. */
module FreeRing {
  const RHDR := 6     // words of a header
  const NF := 4       // next_free
  const PF := 5       // prev_free

  ghost predicate Clear(x: int, y: int) { x + RHDR <= y || y + RHDR <= x }

  // g is the walk along the ring, from the list header back to itself.
  ghost predicate Walk(g: seq<int>) {
    && |g| >= 2 && g[0] == 0 && g[|g| - 1] == 0
    && (forall i :: 0 < i < |g| - 1 ==> RHDR <= g[i])
    && (forall i, j :: 0 < i < j < |g| - 1 ==> Clear(g[i], g[j]))
  }

  ghost predicate Hop(a: seq<int>, x: int, y: int) {
    && 0 <= x && x + RHDR <= |a| && 0 <= y && y + RHDR <= |a|
    && a[x + NF] == y && a[y + PF] == x
  }

  ghost predicate Ring(a: seq<int>, g: seq<int>) {
    Walk(g) && forall i, j {:trigger Hop(a, g[i], g[j])} :: 0 <= i && j == i + 1 && j < |g| ==> Hop(a, g[i], g[j])
  }

  ghost predicate OnRing(g: seq<int>, b: int) { b != 0 && b in g }

  // The ring words of the header at y are the same in a and c.
  ghost predicate SameHop(a: seq<int>, c: seq<int>, y: int) {
    |c| == |a| && (0 <= y && y + RHDR <= |a| ==> c[y + NF] == a[y + NF] && c[y + PF] == a[y + PF])
  }

  lemma {:induction false} RingSame(a: seq<int>, c: seq<int>, g: seq<int>)
    requires Ring(a, g) && |c| == |a|
    requires forall y :: y in g ==> SameHop(a, c, y)
    ensures Ring(c, g)
  {
    forall i, j | 0 <= i && j == i + 1 && j < |g|
      ensures Hop(c, g[i], g[j])
    {
      assert Hop(a, g[i], g[j]);
      assert g[i] in g && g[j] in g;
    }
  }

  // c is a after the block at g[k] was taken out of the ring.
  ghost predicate UnlinkWrites(a: seq<int>, c: seq<int>, g: seq<int>, k: int) {
    && 0 < k < |g| - 1 && |c| == |a|
    && 0 <= g[k - 1] + NF < |a| && 0 <= g[k + 1] + PF < |a|
    && c[g[k - 1] + NF] == g[k + 1] && c[g[k + 1] + PF] == g[k - 1]
    && (forall x :: 0 <= x < |a| && x != g[k - 1] + NF && x != g[k + 1] + PF && x != g[k] + NF && x != g[k] + PF
          ==> c[x] == a[x])
  }

  ghost function Without(g: seq<int>, k: int): seq<int>
    requires 0 <= k < |g|
  {
    g[..k] + g[k + 1..]
  }

  lemma {:induction false} UnlinkHop(a: seq<int>, c: seq<int>, g: seq<int>, k: int, i: int)
    requires Ring(a, g) && UnlinkWrites(a, c, g, k) && 0 <= i < |g| - 1 && i != k - 1 && i != k
    ensures Hop(c, g[i], g[i + 1])
  {
    assert Hop(a, g[i], g[i + 1]);
  }

  lemma {:induction false} Unlinked(a: seq<int>, c: seq<int>, g: seq<int>, k: int)
    requires Ring(a, g) && UnlinkWrites(a, c, g, k)
    ensures Ring(c, Without(g, k))
  {
    var h := Without(g, k);
    forall i, j | 0 <= i && j == i + 1 && j < |h|
      ensures Hop(c, h[i], h[j])
    {
      if i == k - 1 {
        assert Hop(a, g[k - 1], g[k]) && Hop(a, g[k], g[k + 1]);
      } else {
        UnlinkHop(a, c, g, k, if i < k then i else i + 1);
      }
    }
  }

  lemma {:induction false} WithoutMembers(g: seq<int>, k: int, b: int)
    requires Walk(g) && 0 < k < |g| - 1
    ensures OnRing(Without(g, k), b) <==> OnRing(g, b) && b != g[k]
  {
    var h := Without(g, k);
    if OnRing(g, b) && b != g[k] {
      var i :| 0 <= i < |g| && g[i] == b;
      assert h[if i < k then i else i - 1] == b;
    }
    if OnRing(h, b) {
      var i :| 0 <= i < |h| && h[i] == b;
      assert g[if i < k then i else i + 1] == b;
    }
  }

  // c is a after the block at x was put in front of the ring.
  ghost predicate PushWrites(a: seq<int>, c: seq<int>, g: seq<int>, x: int) {
    && |g| >= 2 && |c| == |a| && RHDR <= x && x + RHDR <= |a| && 0 <= g[1] && g[1] + RHDR <= |a|
    && c[x + NF] == g[1] && c[x + PF] == 0 && c[g[1] + PF] == x && c[NF] == x
    && (forall y :: 0 <= y < |a| && y != x + NF && y != x + PF && y != g[1] + PF && y != NF ==> c[y] == a[y])
  }

  ghost function Push(g: seq<int>, x: int): seq<int>
    requires |g| >= 2
  {
    [0, x] + g[1..]
  }

  lemma {:induction false} Pushed(a: seq<int>, c: seq<int>, g: seq<int>, x: int)
    requires Ring(a, g) && PushWrites(a, c, g, x)
    requires forall i :: 0 < i < |g| - 1 ==> Clear(g[i], x)
    ensures Ring(c, Push(g, x))
  {
    var h := Push(g, x);
    forall i, j | 0 <= i && j == i + 1 && j < |h|
      ensures Hop(c, h[i], h[j])
    {
      if i > 1 {
        assert Hop(a, g[i - 1], g[i]);
        assert h[i] == g[i - 1] && h[j] == g[i];
      }
    }
  }

  lemma {:induction false} PushMembers(g: seq<int>, x: int, b: int)
    requires |g| >= 2 && g[0] == 0 && x != 0
    ensures OnRing(Push(g, x), b) <==> b == x || OnRing(g, b)
  {
    assert g == [g[0]] + g[1..];
  }

  // h is the ring g without the block at x, the others in their order.
  ghost predicate Dropped(g: seq<int>, x: int, h: seq<int>) { exists k :: DroppedAt(g, x, h, k) }

  ghost predicate DroppedAt(g: seq<int>, x: int, h: seq<int>, k: int) {
    0 < k < |g| - 1 && g[k] == x && h == Without(g, k)
  }

  // r is the ring g without the block at right, if there is one, and with the block at front, if there
  // is one, in front of the others.
  ghost predicate Reordered(g: seq<int>, right: int, front: int, r: seq<int>) {
    exists h :: ReorderedBy(g, right, front, r, h)
  }

  ghost predicate ReorderedBy(g: seq<int>, right: int, front: int, r: seq<int>, h: seq<int>) {
    && |h| >= 2 && (if right == 0 then h == g else Dropped(g, right, h))
    && r == if front == 0 then h else Push(h, front)
  }
}
