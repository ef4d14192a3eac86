/** The ready group as a 32-bit word: setting and clearing the bit of a priority, and __rt_ffs,
    which finds the lowest one bit by a table of bytes. */
module ReadyBits {
  import opened Division
  import opened SchedulerState

  const WORD := 0x1_0000_0000

  // Bit i of v.
  predicate Bit(v: nat, i: nat) { if i == 0 then v % 2 == 1 else Bit(v / 2, i - 1) }

  // v | 1 << i and v & ~(1 << i)
  function SetBit(v: nat, i: nat): nat {
    if i == 0 then v / 2 * 2 + 1 else SetBit(v / 2, i - 1) * 2 + v % 2
  }

  function ClearBit(v: nat, i: nat): nat {
    if i == 0 then v / 2 * 2 else ClearBit(v / 2, i - 1) * 2 + v % 2
  }

  lemma {:induction false} SetBitIs(v: nat, i: nat, j: nat)
    ensures Bit(SetBit(v, i), j) <==> i == j || Bit(v, j)
  {
    if i > 0 && j > 0 {
      SetBitIs(v / 2, i - 1, j - 1);
    }
  }

  lemma {:induction false} ClearBitIs(v: nat, i: nat, j: nat)
    ensures Bit(ClearBit(v, i), j) <==> i != j && Bit(v, j)
  {
    if i > 0 && j > 0 {
      ClearBitIs(v / 2, i - 1, j - 1);
    }
  }

  // Both stay within k bits.
  lemma {:induction false} BitsFit(v: nat, i: nat, k: nat)
    requires i < k && v < Pow2(k)
    ensures SetBit(v, i) < Pow2(k) && ClearBit(v, i) < Pow2(k)
  {
    if i > 0 {
      BitsFit(v / 2, i - 1, k - 1);
    }
  }

  function Pow2(k: nat): nat { if k == 0 then 1 else 2 * Pow2(k - 1) }

  // The place of the lowest one bit.
  function Low(v: nat): nat
    requires v > 0
  {
    if v % 2 == 1 then 0 else 1 + Low(v / 2)
  }

  lemma {:induction false} LowIs(v: nat)
    requires v > 0
    ensures Bit(v, Low(v)) && forall j :: 0 <= j < Low(v) ==> !Bit(v, j)
  {
    if v % 2 == 0 {
      LowIs(v / 2);
      forall j | 0 <= j < Low(v)
        ensures !Bit(v, j)
      {
        if j > 0 {
          assert !Bit(v / 2, j - 1);
        }
      }
    }
  }

  lemma {:induction false} LowBelow(v: nat, k: nat)
    requires 0 < v < Pow2(k)
    ensures Low(v) < k
  {
    if v % 2 == 0 {
      LowBelow(v / 2, k - 1);
    }
  }

  // The sixteen rows of __lowest_bit_bitmap differ in their first entries only.
  const ROW: seq<nat> := [0, 0, 1, 0, 2, 0, 1, 0, 3, 0, 1, 0, 2, 0, 1, 0]
  const FIRSTS: seq<nat> := [0, 4, 5, 4, 6, 4, 5, 4, 7, 4, 5, 4, 6, 4, 5, 4]

  function LowestBit(b: nat): nat
    requires b < 256
  {
    if b % 16 == 0 then FIRSTS[b / 16] else ROW[b % 16]
  }

  lemma {:induction false} TableIs(b: nat)
    requires 0 < b < 256
    ensures LowestBit(b) == Low(b)
  {
    if b % 16 == 0 {
      NibbleUp(b / 16);
      Nibble(b / 16);
      assert FIRSTS[b / 16] == 4 + ROW[b / 16];
    } else {
      LowMod(b, 16);
      Nibble(b % 16);
    }
  }

  lemma {:induction false} Nibble(b: nat)
    requires 0 < b < 16
    ensures ROW[b] == Low(b)
  {
    assert Low(1) == 0;
    assert b >= 2 && b % 2 == 0 ==> Low(b) == 1 + Low(b / 2);
    assert b >= 4 && b % 4 == 0 ==> Low(b / 2) == 1 + Low(b / 4);
    assert b == 8 ==> Low(b / 4) == 1 + Low(b / 8);
  }

  lemma LowDouble(a: nat)
    requires a > 0
    ensures Low(2 * a) == 1 + Low(a)
  {
  }

  lemma {:induction false} NibbleUp(a: nat)
    requires a > 0
    ensures Low(16 * a) == 4 + Low(a)
  {
    LowDouble(8 * a);
    LowDouble(4 * a);
    LowDouble(2 * a);
    LowDouble(a);
  }

  // Bits above the lowest one bit do not matter.
  lemma {:induction false} LowMod(v: nat, m: nat)
    requires m in {2, 4, 8, 16, 32, 64, 128, 256} && v % m != 0
    ensures Low(v) == Low(v % m)
    decreases m
  {
    if v % 2 == 0 {
      HalfDown(v, m / 2);
      LowMod(v / 2, m / 2);
    } else {
      Odd(v, m);
    }
  }

  lemma {:induction false} HalfDown(v: nat, m: nat)
    requires v % 2 == 0 && m > 0
    ensures v % (2 * m) / 2 == v / 2 % m && v % (2 * m) % 2 == 0
  {
    var n := 2 * m;
    var q, r := v / n, v % n;
    assert v == n * q + r && n * q == 2 * (m * q);
    assert v / 2 == m * q + r / 2;
    DivOf(m, q, r / 2);
  }

  lemma Odd(v: nat, m: nat)
    requires v % 2 == 1 && m in {2, 4, 8, 16, 32, 64, 128, 256}
    ensures v % m % 2 == 1
  {
  }

  // __rt_ffs
  function Ffs(v: nat): nat
    requires v < WORD
  {
    if v == 0 then 0
    else if v % 256 != 0 then LowestBit(v % 256) + 1
    else if v / 256 % 256 != 0 then LowestBit(v / 256 % 256) + 9
    else if v / 0x1_0000 % 256 != 0 then LowestBit(v / 0x1_0000 % 256) + 17
    else LowestBit(v / 0x100_0000 % 256) + 25
  }

  // By bytes or bit by bit, the place found is the same.
  lemma {:induction false} FfsIsLow(v: nat)
    requires 0 < v < WORD
    ensures Ffs(v) == Low(v) + 1
  {
    if v % 256 != 0 {
      LowMod(v, 256);
      TableIs(v % 256);
    } else {
      var u := v / 256;
      assert v == 256 * u;
      ByteUp(u);
      if u % 256 != 0 {
        LowMod(u, 256);
        TableIs(u % 256);
      } else {
        var w := u / 256;
        assert u == 256 * w;
        ByteUp(w);
        FfsHigh(v, w);
      }
    }
  }

  lemma {:induction false} FfsHigh(v: nat, w: nat)
    requires 0 < v < WORD && v == 0x1_0000 * w
    ensures v % 256 == 0 && v / 256 % 256 == 0 && Ffs(v) == Low(w) + 17
  {
    HighParts(v, w);
    if w % 256 != 0 {
      LowMod(w, 256);
      TableIs(w % 256);
    } else {
      ByteUp(w / 256);
      TableIs(w / 256);
    }
  }

  lemma HighParts(v: nat, w: nat)
    requires 0 < v < WORD && v == 0x1_0000 * w
    ensures v % 256 == 0 && v / 256 == 256 * w && v / 256 % 256 == 0 && v / 0x1_0000 == w
    ensures w % 256 == 0 ==> w == 256 * (w / 256) && 0 < w / 256 < 256 && v / 0x100_0000 % 256 == w / 256
  {
    if w % 256 == 0 {
      var u := w / 256;
      assert w == 256 * u && v == 0x100_0000 * u && u < 256;
      assert v / 0x100_0000 == u;
    }
  }

  lemma {:induction false} ByteUp(a: nat)
    requires a > 0
    ensures Low(256 * a) == 8 + Low(a)
  {
    NibbleUp(a);
    NibbleUp(16 * a);
  }

  // The priorities whose bits are set.
  ghost function Group(v: nat): set<nat> { set p: nat | p < PRIORITIES && Bit(v, p) }

  // __rt_ffs finds the strongest priority of the group, one too high, and 0 if it is empty.
  lemma {:induction false} FfsFindsFirst(v: nat)
    requires v < WORD
    ensures v == 0 <==> Group(v) == {}
    ensures v > 0 ==> First(Group(v), 0) == Ffs(v) - 1 < PRIORITIES
  {
    if v > 0 {
      FfsIsLow(v);
      LowIs(v);
      Pow2Word();
      LowBelow(v, 32);
      assert Low(v) in Group(v);
    } else {
      forall p: nat | p < PRIORITIES
        ensures !Bit(0, p)
      {
        NoBits(p);
      }
    }
  }

  lemma {:induction false} NoBits(i: nat)
    ensures !Bit(0, i)
  {
    if i > 0 {
      NoBits(i - 1);
    }
  }

  lemma Pow2Word()
    ensures Pow2(32) == WORD
  {
    assert Pow2(8) == 256 && Pow2(16) == 0x1_0000;
    assert Pow2(24) == 0x100_0000;
  }

  lemma {:induction false} GroupSet(v: nat, p: nat)
    requires v < WORD && p < PRIORITIES
    ensures SetBit(v, p) < WORD && Group(SetBit(v, p)) == Group(v) + {p}
    ensures ClearBit(v, p) < WORD && Group(ClearBit(v, p)) == Group(v) - {p}
  {
    Pow2Word();
    BitsFit(v, p, 32);
    forall q: nat | q < PRIORITIES
      ensures (Bit(SetBit(v, p), q) <==> p == q || Bit(v, q)) && (Bit(ClearBit(v, p), q) <==> p != q && Bit(v, q))
    {
      SetBitIs(v, p, q);
      ClearBitIs(v, p, q);
    }
  }
}
