/** The system heap: first-fit allocation in one arena, with a header of three
    words in front of every block. Headers and payloads share the array, so a
    misplaced header write would show up as a changed payload. */
module SmallMem {
  import opened Wrappers
  import opened Align
  import opened MemCopy
  import opened HeapChain

  const HDR := 3              // SIZEOF_STRUCT_MEM, in words
  const MIN_WORDS := 3        // MIN_SIZE_ALIGNED
  const FREE := 0x1ea0        // HEAP_MAGIC half-word, used flag clear
  const USED := 0x1_1ea0      // the same with the used flag set

  // A heap of n words: magic and flag, next, prev. The prev word of the sentinel is not
  // kept up to date, and never read. What is summed is the extent of the used blocks.
  function MemShape(n: nat): Shape {
    Shape(HDR, 1, 2, FREE, USED, 0, n + HDR, 0, n + HDR, false, USED, 0)
  }

  // The block at b is free, at or above from, can hold w words, and passes the strict
  // bound of the search loop.
  ghost predicate Candidate(n: nat, a: seq<int>, s: set<int>, from: int, b: int, w: int) {
    FreeAt(MemShape(n), a, s, b) && from <= b < n - w && Payload(MemShape(n), a, b) >= w
  }

  // r is the lowest candidate, or there is none.
  ghost predicate LowestFit(n: nat, a: seq<int>, s: set<int>, from: int, w: int, r: Option<int>) {
    match r
    case None => forall b :: !Candidate(n, a, s, from, b, w)
    case Some(p) => Candidate(n, a, s, from, p, w) && forall b :: Candidate(n, a, s, from, b, w) ==> p <= b
  }

  // What the strict bound leaves out: of the free blocks that can hold w words, exactly
  // the one that ends the arena and fits without remainder.
  lemma {:induction false} StrictBoundMissesExactTail(n: nat, a: seq<int>, s: set<int>, b: int, w: nat)
    requires Chain(MemShape(n), a, s) && FreeAt(MemShape(n), a, s, b) && Payload(MemShape(n), a, b) >= w
    ensures b + w < n <==> !(a[b + 1] == n + HDR && Payload(MemShape(n), a, b) == w)
  {
    assert Link(MemShape(n), a, s, b);
    if a[b + 1] != n + HDR {
      Apart(MemShape(n), a, s, a[b + 1], n + HDR);
    }
  }

  // So while the hint is at or below every free block, an allocation fails exactly when
  // the only free block that could hold it, if any, is that tail.
  lemma {:induction false} FailsOnlyOnExactTail(n: nat, a: seq<int>, s: set<int>, from: int, w: nat)
    requires Chain(MemShape(n), a, s) && forall b :: FreeAt(MemShape(n), a, s, b) ==> from <= b
    ensures LowestFit(n, a, s, from, w, None) <==>
            forall b :: FreeAt(MemShape(n), a, s, b) && Payload(MemShape(n), a, b) >= w ==>
              b + 1 < |a| && a[b + 1] == n + HDR && Payload(MemShape(n), a, b) == w
  {
    forall b | FreeAt(MemShape(n), a, s, b)
      ensures !Candidate(n, a, s, from, b, w) <==>
              (Payload(MemShape(n), a, b) >= w ==>
                 b + 1 < |a| && a[b + 1] == n + HDR && Payload(MemShape(n), a, b) == w)
    {
      assert Link(MemShape(n), a, s, b);
      if Payload(MemShape(n), a, b) >= w {
        StrictBoundMissesExactTail(n, a, s, b, w);
      }
    }
  }

  // A fresh heap of ten words, all of which are asked for: refused, though nine would do.
  lemma {:induction false} ExactTailRefused()
    ensures var a := [FREE, 13, 0, 0, 0, 0, 0, 0, 0, 0, 0, 0, 0, USED, 13, 13];
            && Chain(MemShape(10), a, {0, 13}) && FreeAt(MemShape(10), a, {0, 13}, 0)
                 && Payload(MemShape(10), a, 0) == 10
            && LowestFit(10, a, {0, 13}, 0, 10, None) && LowestFit(10, a, {0, 13}, 0, 9, Some(0))
  {
    var a := [FREE, 13, 0, 0, 0, 0, 0, 0, 0, 0, 0, 0, 0, USED, 13, 13];
    assert Link(MemShape(10), a, {0, 13}, 0);
  }

  // A full heap of one block whose owner gives back a tail. Nothing was free, so the hint
  // is at the end and stays there: the six free words at 4 are found from the start of
  // the arena, but not from the hint.
  lemma {:induction false} StrandedTail()
    ensures var a := [USED, 13, 0, 0, 0, 0, 0, 0, 0, 0, 0, 0, 0, USED, 13, 13];
            var c := [USED, 4, 0, 0, FREE, 13, 0, 0, 0, 0, 0, 0, 0, USED, 13, 13];
            && Chain(MemShape(10), a, {0, 13}) && SplitWrites(MemShape(10), a, c, {0, 13}, 0, 4)
            && FreeAt(MemShape(10), c, {0, 4, 13}, 4) && Payload(MemShape(10), c, 4) == 6
            && LowestFit(10, c, {0, 4, 13}, 0, 3, Some(4))
            && LowestFit(10, c, {0, 4, 13}, 13, 3, None)
  {
    var a := [USED, 13, 0, 0, 0, 0, 0, 0, 0, 0, 0, 0, 0, USED, 13, 13];
    assert Link(MemShape(10), a, {0, 13}, 0);
  }

  // The prev word of a block names itself, for the first one, or the block in front.
  lemma {:induction false} FrontOf(n: nat, a: seq<int>, s: set<int>, b: int)
    requires Chain(MemShape(n), a, s) && Block(MemShape(n), s, b)
    ensures 0 <= b < |a| - 2
    ensures b == 0 ==> a[b + 2] == 0
    ensures b != 0 ==> Block(MemShape(n), s, a[b + 2]) && 0 <= a[b + 2] < b
    ensures b != 0 ==> Link(MemShape(n), a, s, a[b + 2]) && a[a[b + 2] + 1] == b
  {
    if b != 0 {
      Predecessor(MemShape(n), a, s, b, 0);
      assert Link(MemShape(n), a, s, a[b + 2]);
    }
  }

  // Words were written to the payload of the used block at p.
  lemma {:induction false} Written(n: nat, a: seq<int>, c: seq<int>, s: set<int>, p: int)
    requires Chain(MemShape(n), a, s) && Block(MemShape(n), s, p) && PayloadWrites(MemShape(n), a, c, s, p)
    requires a[p] == USED && Coalesced(MemShape(n), a, s)
    ensures Chain(MemShape(n), c, s) && Coalesced(MemShape(n), c, s)
    ensures Sum(MemShape(n), c, s, 0) == Sum(MemShape(n), a, s, 0)
    ensures forall b :: FreeAt(MemShape(n), c, s, b) <==> FreeAt(MemShape(n), a, s, b)
    ensures Noticed(MemShape(n), a, s, c, s, p + HDR, Payload(MemShape(n), a, p))
  {
    WriteSame(MemShape(n), a, c, s, p);
    SameCoalesced(MemShape(n), a, c, s, 0);
    SameSum(MemShape(n), a, c, s, 0);
    forall b
      ensures FreeAt(MemShape(n), c, s, b) <==> FreeAt(MemShape(n), a, s, b)
    {
      SameFree(MemShape(n), a, c, s, b);
    }
    WriteNoticed(MemShape(n), a, c, s, p);
  }

  // the words rt_malloc sets out to find
  function Request(bytes: nat): int { Max(Words(bytes), MIN_WORDS) }

  function Header(r: Option<int>): Option<int> {
    if r.None? then None else Some(r.value - HDR)
  }

  // The block at b is free, at or above from, holds so many bytes and passes the strict bound.
  ghost predicate Serving(n: nat, a: seq<int>, s: set<int>, from: int, b: int, bytes: int) {
    FreeAt(MemShape(n), a, s, b) && from <= b && bytes <= 4 * (n - b - 1) && bytes <= 4 * Payload(MemShape(n), a, b)
  }

  // r is the lowest such block, or there is none; no block is smaller than MIN_SIZE bytes.
  ghost predicate LowestServing(n: nat, a: seq<int>, s: set<int>, from: int, bytes: nat, r: Option<int>) {
    var least := Max(bytes, 4 * MIN_WORDS);
    match r
    case None => forall b :: !Serving(n, a, s, from, b, least)
    case Some(p) => Serving(n, a, s, from, p, least) && forall b :: Serving(n, a, s, from, b, least) ==> p <= b
  }

  lemma {:induction false} FitInBytes(n: nat, a: seq<int>, s: set<int>, from: int, bytes: nat, r: Option<int>)
    ensures LowestFit(n, a, s, from, Request(bytes), r) <==> LowestServing(n, a, s, from, bytes, r)
  {
    forall b
      ensures Candidate(n, a, s, from, b, Request(bytes)) <==>
                Serving(n, a, s, from, b, Max(bytes, 4 * MIN_WORDS))
    {
      WordsHold(bytes, MIN_WORDS, n - b - 1);
      WordsHold(bytes, MIN_WORDS, Payload(MemShape(n), a, b));
    }
  }

  // What stays in words is what stays in bytes.
  lemma WordsKeep(bytes: nat, w: int)
    ensures Words(bytes) == w <==> 4 * (w - 1) < bytes <= 4 * w
    ensures Words(bytes) + HDR + MIN_WORDS < w <==> bytes <= 4 * (w - HDR - MIN_WORDS - 1)
  {
  }

  lemma WordsNear(bytes: nat, w: int)
    ensures Request(bytes) <= w ==> bytes <= 4 * w
    ensures w < Request(bytes) + HDR + MIN_WORDS ==> 4 * w < Max(bytes, 4 * MIN_WORDS) + 4 * (HDR + MIN_WORDS)
    ensures w == Request(bytes) ==> 4 * w < Max(bytes, 4 * MIN_WORDS) + 4
  {
  }

  class Heap {
    const size: nat           // mem_size_aligned
    const arena: array<int>
    var lfree: int
    var usedMem: int
    var maxMem: int
    ghost var heads: set<int>

    ghost function Sh(): Shape { MemShape(size) }

    ghost predicate Chained()
      reads this, arena
    {
      Chain(Sh(), arena[..], heads)
    }

    // lfree is some free block, or the end
    ghost predicate HintOk()
      reads this, arena
    {
      lfree == size + HDR || FreeAt(Sh(), arena[..], heads, lfree)
    }

    // lfree is at or below every free block
    ghost predicate HintLowest()
      reads this, arena
    {
      forall b :: FreeAt(Sh(), arena[..], heads, b) ==> lfree <= b
    }

    ghost predicate Valid()
      reads this, arena
    {
      && Chained() && Coalesced(Sh(), arena[..], heads) && HintOk()
      && usedMem == Sum(Sh(), arena[..], heads, 0) <= maxMem
    }

    ghost predicate LiveAt(q: int, w: int)
      reads this, arena
    {
      Live(Sh(), arena[..], heads, q, w)
    }

    constructor (words: nat)
      requires words >= 2 * HDR
      ensures Valid() && HintLowest() && fresh(arena)
      ensures size == words - 2 * HDR && heads == {0, size + HDR}
      ensures FreeAt(Sh(), arena[..], heads, 0) && Payload(Sh(), arena[..], 0) == size
      ensures usedMem == maxMem == 0 && lfree == 0
    {
      size := words - 2 * HDR;
      arena := new int[words];
      lfree, usedMem, maxMem := 0, 0, 0;
      heads := {0, words - HDR};
      new;
      arena[0], arena[1], arena[2] := FREE, size + HDR, 0;
      var end := arena[1];
      arena[end], arena[end + 1], arena[end + 2] := USED, end, end;
      assert Link(Sh(), arena[..], heads, 0);
    }

    // Cut the block at p at p2: what lies behind becomes a free block of its own.
    method Split(p: int, p2: int)
      requires Chained() && Block(Sh(), heads, p)
      requires p + HDR <= p2 && p2 + HDR <= arena[p + 1]
      modifies this`heads, arena
      ensures SplitWrites(Sh(), old(arena[..]), arena[..], old(heads), p, p2)
      ensures heads == old(heads) + {p2} && Chained()
    {
      ghost var a := arena[..];
      assert Link(Sh(), a, heads, p);
      var next := arena[p + 1];
      arena[p2], arena[p2 + 1], arena[p2 + 2] := FREE, next, p;
      arena[p + 1] := p2;
      if next != size + HDR {
        arena[next + 2] := p2;
      }
      SplitChain(Sh(), a, arena[..], heads, p, p2);
      heads := heads + {p2};
    }

    twostate predicate SameTotal()
      requires old(Chained()) && Chained()
      reads this, arena
    {
      Sum(Sh(), arena[..], heads, 0) == old(Sum(Sh(), arena[..], heads, 0))
    }

    // Join the free block at p with the free block behind it.
    method Join(p: int)
      requires Chained() && FreeAt(Sh(), arena[..], heads, p) && FreeAt(Sh(), arena[..], heads, arena[p + 1])
      modifies this`heads, arena
      ensures MergeWrites(Sh(), old(arena[..]), arena[..], old(heads), p)
      ensures heads == old(heads) - {old(arena[p + 1])}
      ensures Unnoticed(Sh(), old(arena[..]), old(heads), arena[..], heads) && SameTotal()
      ensures forall b :: FreeAt(Sh(), arena[..], heads, b) <==>
                          FreeAt(Sh(), old(arena[..]), old(heads), b) && b != old(arena[p + 1])
    {
      ghost var a := arena[..];
      assert Link(Sh(), a, heads, p) && Link(Sh(), a, heads, a[p + 1]);
      var next := arena[p + 1];
      arena[p + 1] := arena[next + 1];
      arena[arena[next + 1] + 2] := p;
      Merged(Sh(), a, arena[..], heads, p);
      heads := heads - {next};
    }

    // First half of plug_holes: join the free block at mem with a free one behind it.
    method PlugForward(mem: int)
      requires Chained() && FreeAt(Sh(), arena[..], heads, mem) && HintOk()
      requires CoalescedBut(Sh(), arena[..], heads, mem)
      modifies this`heads, this`lfree, arena
      ensures Unnoticed(Sh(), old(arena[..]), old(heads), arena[..], heads) && SameTotal()
      ensures CoalescedBut(Sh(), arena[..], heads, mem) && HintOk()
      ensures FreeAt(Sh(), arena[..], heads, mem)
      ensures Link(Sh(), arena[..], heads, mem) && arena[arena[mem + 1]] == USED
      ensures forall b :: FreeAt(Sh(), arena[..], heads, b) ==> FreeAt(Sh(), old(arena[..]), old(heads), b)
      ensures lfree == if old(FreeAt(Sh(), arena[..], heads, arena[mem + 1])) && old(lfree == arena[mem + 1])
                       then mem else old(lfree)
      ensures old(HintLowest()) ==> HintLowest()
      ensures forall x :: 0 <= x <= mem || x == mem + 2 ==> arena[x] == old(arena[x])
    {
      ghost var a, s := arena[..], heads;
      UnnoticedStill(Sh(), a, s);
      assert Link(Sh(), a, heads, mem);
      var next := arena[mem + 1];
      assert next != size + HDR ==> Link(Sh(), a, heads, next);
      if mem != next && arena[next] == FREE && next != size + HDR {
        if lfree == next {
          lfree := mem;
        }
        Join(mem);
        MergeCoalesced(Sh(), a, arena[..], s, mem);
      }
    }

    // The block behind p, itself in front of a used one, is joined with p.
    method JoinBack(p: int)
      requires Chained() && FreeAt(Sh(), arena[..], heads, p) && Link(Sh(), arena[..], heads, p)
      requires FreeAt(Sh(), arena[..], heads, arena[p + 1]) && Link(Sh(), arena[..], heads, arena[p + 1])
      requires CoalescedBut(Sh(), arena[..], heads, arena[p + 1]) && arena[arena[arena[p + 1] + 1]] == USED
      modifies this`heads, arena
      ensures Unnoticed(Sh(), old(arena[..]), old(heads), arena[..], heads) && SameTotal()
      ensures Coalesced(Sh(), arena[..], heads)
      ensures forall b :: FreeAt(Sh(), arena[..], heads, b) <==>
                          FreeAt(Sh(), old(arena[..]), old(heads), b) && b != old(arena[p + 1])
    {
      ghost var a, s := arena[..], heads;
      Join(p);
      MergedBack(Sh(), a, arena[..], s, p);
    }

    // Second half of plug_holes: join it with a free block in front of it.
    method PlugBackward(mem: int)
      requires Chained() && FreeAt(Sh(), arena[..], heads, mem) && HintOk()
      requires CoalescedBut(Sh(), arena[..], heads, mem)
      requires Link(Sh(), arena[..], heads, mem) && arena[arena[mem + 1]] == USED
      modifies this`heads, this`lfree, arena
      ensures Unnoticed(Sh(), old(arena[..]), old(heads), arena[..], heads) && SameTotal()
      ensures Coalesced(Sh(), arena[..], heads) && HintOk()
      ensures forall b :: FreeAt(Sh(), arena[..], heads, b) ==> FreeAt(Sh(), old(arena[..]), old(heads), b)
      ensures old(HintLowest()) ==> HintLowest()
      ensures lfree != old(lfree) ==> old(lfree) == mem && lfree == old(arena[mem + 2]) < mem
                                      && old(arena[arena[mem + 2]]) == FREE
      ensures old(0 <= arena[mem + 2] < mem && arena[arena[mem + 2]] == USED) ==> FreeAt(Sh(), arena[..], heads, mem)
    {
      ghost var a, s := arena[..], heads;
      UnnoticedStill(Sh(), a, s);
      FrontOf(size, a, s, mem);
      var prev := arena[mem + 2];
      if prev != mem && arena[prev] == FREE {
        if lfree == mem {
          lfree := prev;
        }
        JoinBack(prev);
      }
    }

    // Join the free block at mem with its free neighbours, behind and in front.
    method PlugHoles(mem: int)
      requires Chained() && FreeAt(Sh(), arena[..], heads, mem) && HintOk()
      requires CoalescedBut(Sh(), arena[..], heads, mem)
      modifies this`heads, this`lfree, arena
      ensures Unnoticed(Sh(), old(arena[..]), old(heads), arena[..], heads) && SameTotal()
      ensures Coalesced(Sh(), arena[..], heads) && HintOk()
      ensures forall b :: FreeAt(Sh(), arena[..], heads, b) ==> FreeAt(Sh(), old(arena[..]), old(heads), b)
      ensures old(HintLowest()) ==> HintLowest()
      ensures old(0 <= arena[mem + 2] < mem && arena[arena[mem + 2]] == USED) ==>
                && FreeAt(Sh(), arena[..], heads, mem)
                && lfree == if old(FreeAt(Sh(), arena[..], heads, arena[mem + 1])) && old(lfree == arena[mem + 1])
                            then mem else old(lfree)
    {
      ghost var a, s := arena[..], heads;
      PlugForward(mem);
      ghost var c, t := arena[..], heads;
      PlugBackward(mem);
      UnnoticedTwice(Sh(), a, s, c, t, arena[..], heads);
    }

    ghost predicate Allocated(q: int)
      reads this, arena
    {
      Block(Sh(), heads, q - HDR) && 0 <= q - HDR < arena.Length && arena[q - HDR] == USED
    }

    // number of words at q, if a payload starts there
    ghost function SizeAt(q: int): int
      reads this, arena
    {
      if 0 <= q - HDR < arena.Length - 1 then Payload(Sh(), arena[..], q - HDR) else 0
    }

    // The live payloads are the old ones, but that the one at q is now w words long
    // (or gone, if w is negative); the words of every other one are unchanged.
    twostate predicate OnlyChanged(q: int, w: int)
      reads this, arena
    {
      Noticed(Sh(), old(arena[..]), old(heads), arena[..], heads, q, w)
    }

    // Clear the used flag of the block at mem, and let the hint and the count follow.
    method MarkFree(mem: int)
      requires Valid() && Allocated(mem + HDR)
      modifies this`lfree, this`usedMem, arena
      ensures Chained() && FreeAt(Sh(), arena[..], heads, mem) && HintOk()
      ensures CoalescedBut(Sh(), arena[..], heads, mem)
      ensures OnlyChanged(mem + HDR, -1)
      ensures usedMem == Sum(Sh(), arena[..], heads, 0) == old(usedMem - (arena[mem + 1] - mem)) <= maxMem
      ensures old(HintLowest()) ==> HintLowest()
    {
      ghost var a := arena[..];
      assert Link(Sh(), a, heads, mem);
      Freed(Sh(), a, heads, mem);
      arena[mem] := FREE;
      assert arena[..] == a[mem := FREE];
      if mem < lfree {
        lfree := mem;
      }
      usedMem := usedMem - (arena[mem + 1] - mem);
    }

    // rt_free
    method Free(rmem: Option<int>)
      requires Valid() && (rmem.Some? ==> Allocated(rmem.value))
      modifies this`heads, this`lfree, this`usedMem, arena
      ensures Valid()
      ensures old(HintLowest()) ==> HintLowest()
      ensures rmem.None? ==> Untouched()
      ensures rmem.Some? ==> OnlyChanged(rmem.value, -1)
      ensures rmem.Some? ==> usedMem == old(usedMem - (arena[rmem.value - HDR + 1] - (rmem.value - HDR)))
    {
      if rmem.None? {
        return;
      }
      ghost var a, s := arena[..], heads;
      MarkFree(rmem.value - HDR);
      ghost var c := arena[..];
      PlugHoles(rmem.value - HDR);
      NoticedBefore(Sh(), a, s, c, s, arena[..], heads, rmem.value, -1);
    }

    // The search loop of rt_malloc: the lowest candidate.
    method FirstFit(n: int) returns (r: Option<int>)
      requires Valid() && 0 <= n <= size
      ensures LowestFit(size, arena[..], heads, lfree, n, r)
    {
      var ptr := lfree;
      while ptr < size - n
        invariant ptr in heads && lfree <= ptr <= size + HDR
        invariant forall b :: Candidate(size, arena[..], heads, lfree, b, n) ==> ptr <= b
        decreases size + HDR - ptr
      {
        assert Link(Sh(), arena[..], heads, ptr);
        if arena[ptr] == FREE && arena[ptr + 1] - (ptr + HDR) >= n {
          return Some(ptr);
        }
        forall b | Candidate(size, arena[..], heads, lfree, b, n)
          ensures arena[ptr + 1] <= b
        {
          assert b != ptr && Ordered(Sh(), arena[..], heads, ptr, b);
        }
        ptr := arena[ptr + 1];
      }
      return None;
    }

    // Does rt_malloc cut the block at ptr to serve n words?
    ghost predicate Cuts(ptr: int, n: int)
      requires 0 <= ptr < arena.Length - 1
      reads arena
    {
      arena[ptr + 1] - (ptr + HDR) >= n + HDR + MIN_WORDS
    }

    // Take the free block at ptr, cutting off what is more than n words if a block of
    // its own can live there.
    method Take(ptr: int, n: int)
      requires Valid() && FreeAt(Sh(), arena[..], heads, ptr) && n > 0
      requires Link(Sh(), arena[..], heads, ptr) && Payload(Sh(), arena[..], ptr) >= n
      modifies this`heads, this`usedMem, this`maxMem, arena
      ensures Chained() && Coalesced(Sh(), arena[..], heads)
      ensures Link(Sh(), arena[..], heads, ptr) && arena[ptr] == USED && ptr in heads
      ensures Payload(Sh(), arena[..], ptr) == if old(Cuts(ptr, n)) then n else old(Payload(Sh(), arena[..], ptr))
      ensures OnlyChanged(ptr + HDR, Payload(Sh(), arena[..], ptr))
      ensures usedMem == Sum(Sh(), arena[..], heads, 0) == old(usedMem) + HDR + Payload(Sh(), arena[..], ptr)
      ensures maxMem == Max(old(maxMem), usedMem)
      ensures forall b :: FreeAt(Sh(), arena[..], heads, b) <==>
                (b == ptr + HDR + n && old(Cuts(ptr, n))) || (b != ptr && FreeAt(Sh(), old(arena[..]), old(heads), b))
    {
      if arena[ptr + 1] - (ptr + HDR) >= n + HDR + MIN_WORDS {
        TakeCut(ptr, n);
        usedMem := usedMem + (n + HDR);
      } else {
        TakeWhole(ptr);
        usedMem := usedMem + (arena[ptr + 1] - ptr);
      }
      if maxMem < usedMem {
        maxMem := usedMem;
      }
    }

    method TakeCut(ptr: int, n: int)
      requires Chained() && Coalesced(Sh(), arena[..], heads) && FreeAt(Sh(), arena[..], heads, ptr) && n >= 0
      requires Link(Sh(), arena[..], heads, ptr) && Payload(Sh(), arena[..], ptr) >= n + HDR
      modifies this`heads, arena
      ensures Chained() && Coalesced(Sh(), arena[..], heads)
      ensures Link(Sh(), arena[..], heads, ptr) && arena[ptr] == USED && arena[ptr + 1] == ptr + HDR + n
      ensures ptr in heads
      ensures OnlyChanged(ptr + HDR, n)
      ensures Sum(Sh(), arena[..], heads, 0) == old(Sum(Sh(), arena[..], heads, 0)) + HDR + n
      ensures forall b :: FreeAt(Sh(), arena[..], heads, b) <==>
                b == ptr + HDR + n || (b != ptr && FreeAt(Sh(), old(arena[..]), old(heads), b))
    {
      ghost var a, s := arena[..], heads;
      ghost var p2 := ptr + HDR + n;
      Split(ptr, ptr + HDR + n);
      ghost var c := arena[..];
      arena[ptr] := USED;
      assert arena[..] == c[ptr := USED];
      Carved(Sh(), a, c, s, ptr, p2);
    }

    method TakeWhole(ptr: int)
      requires Chained() && Coalesced(Sh(), arena[..], heads) && FreeAt(Sh(), arena[..], heads, ptr)
      modifies arena
      ensures Chained() && Coalesced(Sh(), arena[..], heads)
      ensures Link(Sh(), arena[..], heads, ptr) && arena[..] == old(arena[..])[ptr := USED]
      ensures OnlyChanged(ptr + HDR, Payload(Sh(), arena[..], ptr))
      ensures Sum(Sh(), arena[..], heads, 0) == old(Sum(Sh(), arena[..], heads, 0)) + arena[ptr + 1] - ptr
      ensures forall b :: FreeAt(Sh(), arena[..], heads, b) <==>
                b != ptr && FreeAt(Sh(), old(arena[..]), heads, b)
    {
      ghost var a := arena[..];
      Taken(Sh(), a, heads, ptr);
      arena[ptr] := USED;
      assert arena[..] == a[ptr := USED];
    }

    // Move lfree on to the next free block, if the one it named was taken.
    method AdvanceHint()
      requires Chained() && lfree in heads
      requires lfree != size + HDR ==> lfree + 1 < arena.Length
      modifies this`lfree
      ensures HintOk()
      ensures old(HintLowest()) ==> HintLowest()
    {
      while arena[lfree] == USED && lfree != size + HDR
        invariant lfree in heads && 0 <= lfree <= size + HDR
        invariant old(HintLowest()) ==> HintLowest()
        decreases size + HDR - lfree
      {
        assert Link(Sh(), arena[..], heads, lfree);
        forall b | old(HintLowest()) && FreeAt(Sh(), arena[..], heads, b)
          ensures arena[lfree + 1] <= b
        {
          assert Ordered(Sh(), arena[..], heads, lfree, b);
        }
        lfree := arena[lfree + 1];
      }
      assert lfree != size + HDR ==> Link(Sh(), arena[..], heads, lfree);
    }

    twostate predicate Untouched()
      reads this, arena
    {
      && heads == old(heads) && arena[..] == old(arena[..])
      && lfree == old(lfree) && usedMem == old(usedMem) && maxMem == old(maxMem)
    }

    // The block in front of q was handed out to serve n words.
    twostate predicate Granted(q: int, n: int)
      reads this, arena
    {
      && old(FreeAt(Sh(), arena[..], heads, q - HDR) && Link(Sh(), arena[..], heads, q - HDR))
      && Link(Sh(), arena[..], heads, q - HDR) && Allocated(q)
      && n <= Payload(Sh(), arena[..], q - HDR) < n + HDR + MIN_WORDS
      && Payload(Sh(), arena[..], q - HDR) == (if old(Cuts(q - HDR, n)) then n
           else old(Payload(Sh(), arena[..], q - HDR)))
      && (forall b :: FreeAt(Sh(), arena[..], heads, b) <==>
            (b == q + n && old(Cuts(q - HDR, n))) || (b != q - HDR && FreeAt(Sh(), old(arena[..]), old(heads), b)))
      && OnlyChanged(q, Payload(Sh(), arena[..], q - HDR))
      && usedMem == old(usedMem) + HDR + Payload(Sh(), arena[..], q - HDR)
      && maxMem == Max(old(maxMem), usedMem)
    }

    // The payload at q has room for so many bytes, and is not much larger; if its block was cut, it
    // is only what alignment and MIN_SIZE ask for.
    twostate predicate Holds(q: int, bytes: nat)
      reads this, arena
    {
      && bytes <= 4 * SizeAt(q) < Max(bytes, 4 * MIN_WORDS) + 4 * (HDR + MIN_WORDS)
      && (SizeAt(q) < old(SizeAt(q)) ==> 4 * SizeAt(q) < Max(bytes, 4 * MIN_WORDS) + 4)
    }

    // Take the block the search found, and move the hint if it named that block.
    method Grant(ptr: int, n: int)
      requires Valid() && FreeAt(Sh(), arena[..], heads, ptr) && n > 0
      requires Link(Sh(), arena[..], heads, ptr) && Payload(Sh(), arena[..], ptr) >= n
      modifies this, arena
      ensures Valid()
      ensures old(HintLowest()) ==> HintLowest()
      ensures Granted(ptr + HDR, n)
    {
      Take(ptr, n);
      if ptr == lfree {
        AdvanceHint();
      }
    }

    // rt_malloc
    method Malloc(bytes: nat) returns (r: Option<int>)
      requires Valid()
      // below this the loop bound wraps around
      requires Words(bytes) <= size ==> MIN_WORDS <= size
      modifies this, arena
      ensures Valid()
      ensures old(HintLowest()) ==> HintLowest()
      ensures bytes == 0 || Words(bytes) > size ==> r.None?
      ensures bytes != 0 && Words(bytes) <= size ==>
                LowestFit(size, old(arena[..]), old(heads), old(lfree), Request(bytes), Header(r))
      ensures r.None? ==> Untouched()
      ensures r.Some? ==> Granted(r.value, Request(bytes))
      // in bytes: what is refused, which block serves, and how much is handed out
      ensures bytes == 0 || bytes > 4 * size ==> r.None?
      ensures 0 < bytes <= 4 * size ==>
                LowestServing(size, old(arena[..]), old(heads), old(lfree), bytes, Header(r))
      ensures r.Some? ==> Holds(r.value, bytes)
    {
      WordsHold(bytes, 0, size);
      if bytes == 0 || Words(bytes) > size {
        return None;
      }
      ghost var a, s, l := arena[..], heads, lfree;
      r := Serve(Request(bytes));
      FitInBytes(size, a, s, l, bytes, Header(r));
    }

    // The search for n words, and what is found handed out.
    method Serve(n: int) returns (r: Option<int>)
      requires Valid() && 0 < n <= size
      modifies this, arena
      ensures Valid()
      ensures old(HintLowest()) ==> HintLowest()
      ensures LowestFit(size, old(arena[..]), old(heads), old(lfree), n, Header(r))
      ensures if r.None? then Untouched() else Granted(r.value, n)
    {
      var found := FirstFit(n);
      if found.None? {
        return None;
      }
      assert Link(Sh(), arena[..], heads, found.value);
      Grant(found.value, n);
      return Some(found.value + HDR);
    }

    // Where the hint goes when the block at p is cut at p2: only a hint at the free block
    // behind follows.
    ghost function HintAfterCut(p: int, p2: int): int
      requires Link(Sh(), arena[..], heads, p)
      reads this, arena
    {
      if FreeAt(Sh(), arena[..], heads, arena[p + 1]) && lfree == arena[p + 1] then p2 else lfree
    }

    // Cut the used block at p behind n words; the tail becomes a free block.
    method Cut(p: int, n: int)
      requires Valid() && Allocated(p + HDR) && Link(Sh(), arena[..], heads, p)
      requires 0 < n && n + 2 * HDR <= arena[p + 1] - p
      modifies this`heads, this`usedMem, arena
      ensures Chained() && HintOk() && CoalescedBut(Sh(), arena[..], heads, p + HDR + n)
      ensures arena[p] == USED && arena[p + HDR + n + 2] == p && arena[p + HDR + n + 1] == old(arena[p + 1])
      ensures OnlyChanged(p + HDR, n)
      ensures Kept(old(arena[..]), arena[..], p + HDR, n)
      ensures usedMem == Sum(Sh(), arena[..], heads, 0) == old(usedMem - (arena[p + 1] - p - HDR - n)) <= maxMem
      ensures forall b :: FreeAt(Sh(), arena[..], heads, b) <==>
                b == p + HDR + n || FreeAt(Sh(), old(arena[..]), old(heads), b)
    {
      usedMem := usedMem - (arena[p + 1] - p - HDR - n);
      CutOff(p, n);
    }

    method CutOff(p: int, n: int)
      requires Chained() && HintOk() && Coalesced(Sh(), arena[..], heads) && Block(Sh(), heads, p) && arena[p] == USED
      requires Link(Sh(), arena[..], heads, p) && 0 < n && p + n + 2 * HDR <= arena[p + 1]
      modifies this`heads, arena
      ensures Chained() && HintOk() && CoalescedBut(Sh(), arena[..], heads, p + HDR + n)
      ensures arena[p] == USED && arena[p + HDR + n + 2] == p && arena[p + HDR + n + 1] == old(arena[p + 1])
      ensures OnlyChanged(p + HDR, n)
      ensures Kept(old(arena[..]), arena[..], p + HDR, n)
      ensures Sum(Sh(), arena[..], heads, 0) == old(Sum(Sh(), arena[..], heads, 0) - (arena[p + 1] - p - HDR - n))
      ensures forall b :: FreeAt(Sh(), arena[..], heads, b) <==>
                b == p + HDR + n || FreeAt(Sh(), old(arena[..]), old(heads), b)
    {
      ghost var a, s := arena[..], heads;
      Split(p, p + HDR + n);
      WasCut(Sh(), a, arena[..], s, p, p + HDR + n);
    }

    // The part of rt_realloc that gives back the tail of a block.
    method Shrink(p: int, n: int)
      requires Valid() && Allocated(p + HDR) && Link(Sh(), arena[..], heads, p)
      requires 0 < n && n + 2 * HDR <= arena[p + 1] - p
      modifies this`heads, this`lfree, this`usedMem, arena
      ensures Valid()
      ensures OnlyChanged(p + HDR, n)
      ensures Kept(old(arena[..]), arena[..], p + HDR, n)
      ensures usedMem == old(usedMem - (arena[p + 1] - p - HDR - n))
      ensures lfree == old(HintAfterCut(p, p + HDR + n))
      ensures FreeAt(Sh(), arena[..], heads, p + HDR + n)
      ensures forall b :: FreeAt(Sh(), arena[..], heads, b) ==>
                b == p + HDR + n || FreeAt(Sh(), old(arena[..]), old(heads), b)
    {
      ghost var a, s := arena[..], heads;
      Cut(p, n);
      ghost var c, t := arena[..], heads;
      assert Live(Sh(), c, t, p + HDR, n);
      PlugHoles(p + HDR + n);
      assert Kept(c, arena[..], p + HDR, n);
      NoticedBefore(Sh(), a, s, c, t, arena[..], heads, p + HDR, n);
    }

    // Fill the start of the live payload at dst from elsewhere in the arena.
    method Fill(dst: int, src: int, count: int)
      requires Valid() && Allocated(dst) && Link(Sh(), arena[..], heads, dst - HDR)
      requires 0 <= count <= Payload(Sh(), arena[..], dst - HDR)
      requires 0 <= src && src + count <= arena.Length
      requires src + count <= dst || arena[dst - HDR + 1] <= src
      modifies arena
      ensures Valid()
      ensures old(HintLowest()) ==> HintLowest()
      ensures OnlyChanged(dst, old(Payload(Sh(), arena[..], dst - HDR)))
      ensures forall x :: dst <= x < dst + count ==> arena[x] == old(arena[src + (x - dst)])
      ensures forall x :: 0 <= x < arena.Length && !(dst <= x < dst + count) ==> arena[x] == old(arena[x])
    {
      ghost var a := arena[..];
      CopyWords(arena, dst, src, count);
      Written(size, a, arena[..], heads, dst - HDR);
    }

    // Start the live payload at r, new since the arena was a, with the words of q.
    method FillFrom(q: int, w: int, r: int, n: int, ghost a: seq<int>, ghost s: set<int>)
      requires Valid() && LiveAt(q, w) && LiveAt(r, SizeAt(r)) && q != r && 0 <= n <= SizeAt(r)
      requires Noticed(Sh(), a, s, arena[..], heads, r, SizeAt(r)) && Kept(a, arena[..], q, w)
      modifies arena
      ensures Valid() && SizeAt(r) == old(SizeAt(r))
      ensures old(HintLowest()) ==> HintLowest()
      ensures LiveAt(q, w) && LiveAt(r, SizeAt(r))
      ensures Noticed(Sh(), a, s, arena[..], heads, r, SizeAt(r)) && Starts(arena[..], r, n, a, q, w)
    {
      ghost var c, v := arena[..], SizeAt(r);
      assert Link(Sh(), c, heads, q - HDR) && Link(Sh(), c, heads, r - HDR);
      LiveDisjoint(Sh(), c, heads, q, w, r, v);
      Fill(r, q, if w < n then w else n);
      StillLive(Sh(), c, heads, arena[..], heads, r, v, q, w);
      NoticedNoticed(Sh(), a, s, c, heads, arena[..], heads, r, v, v);
      assert LiveAt(r, v);
    }

    // The payload at q is what a request for n words gets.
    twostate predicate Near(q: int, n: int)
      reads this, arena
    {
      && SizeAt(q) < Max(n, MIN_WORDS) + HDR + MIN_WORDS
      && (SizeAt(q) < old(SizeAt(q)) ==> SizeAt(q) == Max(n, MIN_WORDS))
    }

    // Allocate n words next to the payload at q.
    method MallocBeside(q: int, w: int, n: int) returns (r: Option<int>)
      requires Valid() && LiveAt(q, w) && 0 < n <= size && MIN_WORDS <= size
      modifies this, arena
      ensures Valid()
      ensures old(HintLowest()) ==> HintLowest()
      ensures LowestFit(size, old(arena[..]), old(heads), old(lfree), Max(n, MIN_WORDS), Header(r))
      ensures r.None? ==> Untouched()
      ensures r.Some? ==> r.value != q && LiveAt(q, w) && LiveAt(r.value, SizeAt(r.value)) && n <= SizeAt(r.value)
      ensures r.Some? ==> OnlyChanged(r.value, SizeAt(r.value)) && usedMem == old(usedMem) + HDR + SizeAt(r.value)
                          && maxMem == Max(old(maxMem), usedMem)
      ensures r.Some? ==> Kept(old(arena[..]), arena[..], q, w) && Near(r.value, n)
    {
      ghost var a, s := arena[..], heads;
      r := Malloc(4 * n);
      if r.Some? {
        assert a[q - HDR] == USED && a[r.value - HDR] == FREE;
        StillLive(Sh(), a, s, arena[..], heads, r.value, Payload(Sh(), arena[..], r.value - HDR), q, w);
      }
    }

    // Allocate n words and start them with the words of the payload at q.
    method Duplicate(q: int, w: int, n: int) returns (r: Option<int>)
      requires Valid() && LiveAt(q, w) && 0 < n <= size && MIN_WORDS <= size
      modifies this, arena
      ensures Valid()
      ensures old(HintLowest()) ==> HintLowest()
      ensures LowestFit(size, old(arena[..]), old(heads), old(lfree), Max(n, MIN_WORDS), Header(r))
      ensures r.None? ==> Untouched()
      ensures r.Some? ==> r.value != q && LiveAt(q, w) && Started(q, w, r.value, n)
    {
      ghost var a, s := arena[..], heads;
      r := MallocBeside(q, w, n);
      if r.Some? {
        FillFrom(q, w, r.value, n, a, s);
      }
    }

    // There is a new payload at r of at least n words, and it starts with words of q.
    twostate predicate Started(q: int, w: int, r: int, n: int)
      reads this, arena
    {
      && LiveAt(r, SizeAt(r)) && n <= SizeAt(r) && Near(r, n)
      && OnlyChanged(r, SizeAt(r)) && Starts(arena[..], r, n, old(arena[..]), q, w)
      && usedMem == old(usedMem) + HDR + SizeAt(r) && maxMem == Max(old(maxMem), usedMem)
    }

    // Free the payload at q after it was copied to r, which is new since the arena was a.
    method FreeCopied(q: int, w: int, r: int, n: int, ghost a: seq<int>, ghost s: set<int>)
      requires Valid() && LiveAt(q, w) && LiveAt(r, SizeAt(r)) && q != r && n <= SizeAt(r)
      requires Noticed(Sh(), a, s, arena[..], heads, r, SizeAt(r)) && Starts(arena[..], r, n, a, q, w)
      modifies this`heads, this`lfree, this`usedMem, arena
      ensures Valid() && SizeAt(r) == old(SizeAt(r)) && usedMem == old(usedMem) - HDR - w
      ensures old(HintLowest()) ==> HintLowest()
      ensures Moved(Sh(), a, s, arena[..], heads, q, r, SizeAt(r)) && Starts(arena[..], r, n, a, q, w)
    {
      ghost var c, t, v := arena[..], heads, SizeAt(r);
      Free(Some(q));
      NoticedMoved(Sh(), a, s, c, t, arena[..], heads, q, w, r, v, n);
    }

    // The part of rt_realloc that moves a payload of w words to a new place for n words.
    method Relocate(q: int, w: int, n: int) returns (r: Option<int>)
      requires Valid() && LiveAt(q, w) && 0 < n <= size && MIN_WORDS <= size
      modifies this, arena
      ensures Valid()
      ensures old(HintLowest()) ==> HintLowest()
      ensures LowestFit(size, old(arena[..]), old(heads), old(lfree), Max(n, MIN_WORDS), Header(r))
      ensures r.None? ==> Untouched()
      ensures r.Some? ==> MovedTo(q, w, r.value, n)
    {
      ghost var a, s := arena[..], heads;
      r := Duplicate(q, w, n);
      if r.Some? {
        FreeCopied(q, w, r.value, n, a, s);
      }
    }

    // The w words at q now live at r, where there is room for n words, and start with
    // the words they had; nobody else noticed. In between, both were allocated.
    twostate predicate MovedTo(q: int, w: int, r: int, n: int)
      reads this, arena
    {
      && r != q && n <= SizeAt(r) && Near(r, n)
      && Moved(Sh(), old(arena[..]), old(heads), arena[..], heads, q, r, SizeAt(r))
      && Starts(arena[..], r, n, old(arena[..]), q, w)
      && usedMem == old(usedMem) + SizeAt(r) - w && maxMem == Max(old(maxMem), old(usedMem) + HDR + SizeAt(r))
    }

    // rt_malloc for a size that was aligned already
    method MallocAligned(bytes: nat) returns (r: Option<int>)
      requires Valid() && 0 < bytes && Words(bytes) <= size && MIN_WORDS <= size
      modifies this, arena
      ensures Valid()
      ensures old(HintLowest()) ==> HintLowest()
      ensures LowestServing(size, old(arena[..]), old(heads), old(lfree), bytes, Header(r))
      ensures if r.None? then Untouched() else Granted(r.value, Request(bytes)) && Holds(r.value, bytes)
    {
      ghost var a, s, l := arena[..], heads, lfree;
      assert Request(4 * Words(bytes)) == Request(bytes);
      r := Malloc(4 * Words(bytes));
      FitInBytes(size, a, s, l, bytes, Header(r));
      if r.Some? {
        WordsNear(bytes, SizeAt(r.value));
      }
    }

    // rt_realloc for a payload in the heap
    method ReallocBlock(q: int, bytes: nat) returns (r: Option<int>)
      requires Valid() && Allocated(q)
      requires 0 < bytes && Words(bytes) <= size && MIN_WORDS <= size
      modifies this, arena
      ensures Valid()
      ensures r.None? ==> Untouched()
      ensures if old(Keeps(q, bytes)) then r == Some(q) && Left(q, bytes)
              else r != Some(q) && LowestServing(size, old(arena[..]), old(heads), old(lfree), bytes, Header(r))
      ensures r == Some(q) ==> Resized(q, SizeAt(q)) && (SizeAt(q) < old(SizeAt(q)) ==> GaveBack(q, SizeAt(q)))
      ensures r.Some? && r != Some(q) ==> MovedTo(q, old(SizeAt(q)), r.value, Words(bytes)) && Holds(r.value, bytes)
      ensures old(HintLowest()) ==> (HintLowest() <==> !old(Strands(q, Words(bytes))))
    {
      ghost var a, s, l := arena[..], heads, lfree;
      WordsKeep(bytes, SizeAt(q));
      assert Link(Sh(), arena[..], heads, q - HDR);
      r := ReallocLive(q, Words(bytes));
      FitInBytes(size, a, s, l, bytes, Header(r));
      if r.Some? {
        WordsNear(bytes, SizeAt(r.value));
      }
    }

    // rt_realloc
    method Realloc(rmem: Option<int>, bytes: nat) returns (r: Option<int>)
      requires Valid()
      requires rmem.Some? && (0 <= rmem.value < size + HDR || bytes == 0) ==> Allocated(rmem.value)
      requires Words(bytes) <= size ==> MIN_WORDS <= size
      modifies this, arena
      ensures Valid()
      // too much, or no place to move to: nothing happens
      ensures bytes > 4 * size ==> r.None?
      ensures r.None? && bytes != 0 ==> Untouched()
      // nor does it to an address that is not in the heap
      ensures 0 < bytes <= 4 * size && rmem.Some? && !(0 <= rmem.value < size + HDR) ==> r == rmem && Untouched()
      // nothing asked for: the block is freed
      ensures bytes == 0 ==> r.None? && maxMem == old(maxMem) && if rmem.Some? then OnlyChanged(rmem.value, -1)
                else Untouched()
      // the block stays, and may lose its tail, or there is a place for a new one
      ensures 0 < bytes <= 4 * size && rmem.Some? && 0 <= rmem.value < size + HDR ==>
                if old(Keeps(rmem.value, bytes)) then r == rmem && Left(r.value, bytes)
                else LowestServing(size, old(arena[..]), old(heads), old(lfree), bytes, Header(r))
      ensures r.Some? && r == rmem && 0 <= r.value < size + HDR ==> Resized(r.value, SizeAt(r.value))
      // what it loses is free, and the hint follows in one case only
      ensures r.Some? && r == rmem && 0 <= r.value < size + HDR && SizeAt(r.value) < old(SizeAt(r.value)) ==>
                GaveBack(r.value, SizeAt(r.value))
      // the block moves with its contents
      ensures r.Some? && rmem.Some? && r != rmem ==>
                MovedTo(rmem.value, old(SizeAt(rmem.value)), r.value, Words(bytes)) && Holds(r.value, bytes)
      // there was none: it is allocated
      ensures r.Some? && rmem.None? ==> Granted(r.value, Request(bytes)) && Holds(r.value, bytes)
      ensures 0 < bytes <= 4 * size && rmem.None? ==>
                LowestServing(size, old(arena[..]), old(heads), old(lfree), bytes, Header(r))
      // the hint stays lowest, but for one way of shrinking a block
      ensures old(HintLowest()) ==>
                (HintLowest() <==> !(0 < bytes <= 4 * size && rmem.Some? && old(Strands(rmem.value, Words(bytes)))))
    {
      var n := Words(bytes);
      WordsHold(bytes, 0, size);
      if n > size {
        return None;
      } else if n == 0 {
        Free(rmem);
        return None;
      }
      if rmem.None? {
        r := MallocAligned(bytes);
        return;
      }
      if rmem.value < 0 || rmem.value >= size + HDR {
        return rmem;
      }
      r := ReallocBlock(rmem.value, bytes);
    }

    // Does the payload at q stay where it is: does it have just enough room, or so much more that
    // there is place for another block?
    ghost predicate Keeps(q: int, bytes: nat)
      reads this, arena
    {
      var w := SizeAt(q);
      4 * (w - 1) < bytes <= 4 * w || bytes <= 4 * (w - HDR - MIN_WORDS - 1)
    }

    // Then it has room for the bytes and no word more.
    ghost predicate Left(q: int, bytes: nat)
      reads this, arena
    {
      bytes <= 4 * SizeAt(q) < bytes + 4
    }

    // The block of the payload at q has at least n words, keeps the first n, and nobody
    // else noticed.
    twostate predicate Resized(q: int, n: int)
      reads this, arena
    {
      && n <= SizeAt(q) && OnlyChanged(q, SizeAt(q)) && maxMem == old(maxMem) && Kept(old(arena[..]), arena[..], q, n)
    }

    // Does rt_realloc serve n words by cutting the block of q?
    ghost predicate Shrinks(q: int, n: int)
      reads this, arena
    {
      n + HDR + MIN_WORDS < SizeAt(q)
    }

    // Will the tail cut off lie below lfree? It does unless lfree is in front of the
    // block, or names the free block right behind it.
    ghost predicate Strands(q: int, n: int)
      reads this, arena
    {
      && Link(Sh(), arena[..], heads, q - HDR) && Shrinks(q, n) && lfree > q
      && !(lfree == arena[q - HDR + 1] && FreeAt(Sh(), arena[..], heads, lfree))
    }

    // The tail behind the n words at q is free; only a hint at the free block behind it follows.
    twostate predicate GaveBack(q: int, n: int)
      reads this, arena
    {
      && old(Link(Sh(), arena[..], heads, q - HDR)) && lfree == old(HintAfterCut(q - HDR, q + n))
      && FreeAt(Sh(), arena[..], heads, q + n)
      && forall b :: FreeAt(Sh(), arena[..], heads, b) ==> b == q + n || FreeAt(Sh(), old(arena[..]), old(heads), b)
    }

    method ReallocLive(q: int, n: int) returns (r: Option<int>)
      requires Valid() && Allocated(q) && Link(Sh(), arena[..], heads, q - HDR)
      requires 0 < n <= size && MIN_WORDS <= size
      modifies this, arena
      ensures Valid()
      ensures r.None? ==> Untouched()
      ensures r == Some(q) <==> n == old(SizeAt(q)) || old(Shrinks(q, n))
      ensures r == Some(q) ==> Resized(q, n) && SizeAt(q) == n
      ensures old(Shrinks(q, n)) ==> GaveBack(q, n)
      ensures r != Some(q) ==>
                LowestFit(size, old(arena[..]), old(heads), old(lfree), Max(n, MIN_WORDS), Header(r))
      ensures old(HintLowest()) ==> (HintLowest() <==> !old(Strands(q, n)))
      ensures r.Some? && r != Some(q) ==> MovedTo(q, old(SizeAt(q)), r.value, n)
    {
      var mem := q - HDR;
      assert Link(Sh(), arena[..], heads, mem);
      var w := arena[mem + 1] - mem - HDR;
      assert LiveAt(q, w);
      if w == n {
        NoticedStill(Sh(), arena[..], heads, q, w);
        return Some(q);
      }
      if n + HDR + MIN_WORDS < w {
        assert lfree in heads && Ordered(Sh(), arena[..], heads, mem, lfree) && lfree != mem;
        Shrink(mem, n);
        assert LiveAt(q, n);
        return Some(q);
      }
      r := Relocate(q, w, n);
    }
  }

  // A free block behind which no live payload is reaches up to the end.
  lemma {:induction false} FreeToEnd(n: nat, a: seq<int>, s: set<int>, b: int)
    requires Chain(MemShape(n), a, s) && Coalesced(MemShape(n), a, s) && FreeAt(MemShape(n), a, s, b)
    requires forall q, w :: Live(MemShape(n), a, s, q, w) ==> q < b
    ensures Payload(MemShape(n), a, b) == n - b
  {
    var c := a[b + 1];
    assert Link(MemShape(n), a, s, b);
    if c != n + HDR {
      assert Link(MemShape(n), a, s, c);
      assert Live(MemShape(n), a, s, c + HDR, Payload(MemShape(n), a, c));
    }
  }

  lemma {:induction false} StillAlone(n: nat, a: seq<int>, s: set<int>, c: seq<int>, t: set<int>, p: int, v: int)
    requires Noticed(MemShape(n), a, s, c, t, p, v)
    requires forall q, w :: Live(MemShape(n), a, s, q, w) ==> q == p
    ensures forall q, w :: Live(MemShape(n), c, t, q, w) ==> q == p
  {
    forall q, w | Live(MemShape(n), c, t, q, w)
      ensures q == p
    {
      assert q != p ==> Live(MemShape(n), a, s, q, w);
    }
  }

  // A fresh heap of ten words, one payload of nine of them, which takes them all.
  method FullHeap() returns (heap: Heap)
    ensures fresh(heap) && fresh(heap.arena) && heap.size == 10 && heap.Valid() && heap.lfree == 13
    ensures heap.Allocated(3) && heap.SizeAt(3) == 10
    ensures forall q, w :: Live(MemShape(10), heap.arena[..], heap.heads, q, w) ==> q == 3
    ensures forall b :: !FreeAt(heap.Sh(), heap.arena[..], heap.heads, b)
  {
    heap := new Heap(16);
    assert Candidate(10, heap.arena[..], heap.heads, 0, 0, 9);
    assert forall q, w :: !heap.LiveAt(q, w);
    var r := heap.Malloc(36);
  }

  // Shrinking it to one word leaves six free below the hint, and the next rt_malloc of one word
  // is refused, which a search from the start of the arena would not have done.
  method StrandedByRealloc() returns (heap: Heap, r: Option<int>)
    ensures heap.Valid() && r.None? && LowestFit(10, heap.arena[..], heap.heads, 0, Request(4), Some(4))
  {
    heap := FullHeap();
    ghost var a, s := heap.arena[..], heap.heads;
    var q := heap.Realloc(Some(3), 4);
    StillAlone(10, a, s, heap.arena[..], heap.heads, 3, heap.SizeAt(3));
    FreeToEnd(10, heap.arena[..], heap.heads, 4);
    r := heap.Malloc(4);
  }
}
