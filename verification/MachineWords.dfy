/**
  Unsigned machine words as naturals, with the C operators the transport and the
  codec use on them written out: truncation, left shift, bitwise or, bitwise and.
  Each operator is characterised bit by bit.
 */
module MachineWords {

  const TWO_16 := 0x1_0000
  const TWO_32 := 0x1_0000_0000

  type U8 = x: int | 0 <= x < 0x100
  type U16 = x: int | 0 <= x < 0x1_0000
  type U32 = x: int | 0 <= x < 0x1_0000_0000

  function Pow2(n: nat): (p: nat)
    ensures p >= 1
  {
    if n == 0 then 1 else 2 * Pow2(n - 1)
  }

  /** Bit `k` of `x`, counting from the least significant bit. */
  predicate Bit(x: nat, k: nat)
    decreases k
  {
    if k == 0 then x % 2 == 1 else Bit(x / 2, k - 1)
  }

  function Or(x: nat, y: nat): nat {
    if x == 0 && y == 0 then 0
    else 2 * Or(x / 2, y / 2) + (if x % 2 == 1 || y % 2 == 1 then 1 else 0)
  }

  function And(x: nat, y: nat): nat {
    if x == 0 && y == 0 then 0
    else 2 * And(x / 2, y / 2) + (if x % 2 == 1 && y % 2 == 1 then 1 else 0)
  }

  /** `x << d` on a 32-bit word: what is shifted past bit 31 is lost. */
  function ShiftLeft32(x: U32, d: nat): U32
    decreases d
  {
    if d == 0 then x else ShiftLeft32((2 * x) % TWO_32, d - 1)
  }

  /** `uint16_t` subtraction, wrapping below zero. */
  function Sub16(a: U16, b: U16): U16 {
    if a >= b then a - b else a - b + TWO_16
  }

  /** `static_cast<int16_t>` of a 16-bit word: its two's complement reading. */
  function Signed16(u: U16): int {
    if u >= 0x8000 then u - TWO_16 else u
  }

  lemma {:induction false} OrBit(x: nat, y: nat, k: nat)
    ensures Bit(Or(x, y), k) <==> Bit(x, k) || Bit(y, k)
    decreases k, x + y
  {
    if x == 0 && y == 0 {
      ZeroHasNoBit(k);
    } else if k > 0 {
      OrBit(x / 2, y / 2, k - 1);
    }
  }

  lemma {:induction false} AndBit(x: nat, y: nat, k: nat)
    ensures Bit(And(x, y), k) <==> Bit(x, k) && Bit(y, k)
    decreases k, x + y
  {
    if x == 0 && y == 0 {
      ZeroHasNoBit(k);
    } else if k > 0 {
      AndBit(x / 2, y / 2, k - 1);
    }
  }

  lemma {:induction false} ZeroHasNoBit(k: nat)
    ensures !Bit(0, k)
    decreases k
  {
    if k > 0 { ZeroHasNoBit(k - 1); }
  }

  /** A non-zero word has a set bit, so a zero test is a test of every bit. */
  lemma {:induction false} NonZeroHasBit(x: nat, n: nat) returns (k: nat)
    requires 0 < x < Pow2(n)
    ensures k < n && Bit(x, k)
    decreases n
  {
    if x % 2 == 1 {
      k := 0;
    } else {
      var j := NonZeroHasBit(x / 2, n - 1);
      k := j + 1;
    }
  }

  lemma {:induction false} OrBounded(x: nat, y: nat, n: nat)
    requires x < Pow2(n) && y < Pow2(n)
    ensures Or(x, y) < Pow2(n)
    decreases n
  {
    if n > 0 && (x != 0 || y != 0) { OrBounded(x / 2, y / 2, n - 1); }
  }

  lemma {:induction false} Pow2Bit(j: nat, k: nat)
    ensures Bit(Pow2(j), k) <==> j == k
    decreases k
  {
    if k == 0 {
    } else if j == 0 {
      ZeroHasNoBit(k - 1);
    } else {
      Pow2Bit(j - 1, k - 1);
    }
  }

  lemma {:induction false} AddHighBit(x: nat, n: nat, k: nat)
    requires k < n
    ensures Bit(x + Pow2(n), k) <==> Bit(x, k)
    decreases k
  {
    if k > 0 {
      assert (x + Pow2(n)) / 2 == x / 2 + Pow2(n - 1);
      AddHighBit(x / 2, n - 1, k - 1);
    }
  }

  lemma Pow2At32()
    ensures Pow2(31) == 0x8000_0000 && Pow2(32) == TWO_32
  {
    assert Pow2(4) == 16;
    assert Pow2(8) == 256;
    assert Pow2(12) == 4096;
    assert Pow2(16) == 65536;
    assert Pow2(20) == 1048576;
    assert Pow2(24) == 16777216;
    assert Pow2(28) == 268435456;
    assert Pow2(32) == TWO_32;
  }

  lemma AddTopBit(x: nat, k: nat)
    requires k < 31
    ensures Bit(x + 0x8000_0000, k) <==> Bit(x, k)
  {
    Pow2At32();
    AddHighBit(x, 31, k);
  }

  lemma DoubleBit(x: U32, k: nat)
    requires k < 32
    ensures Bit((2 * x) % TWO_32, k) <==> k >= 1 && Bit(x, k - 1)
  {
    var y := if x >= 0x8000_0000 then x - 0x8000_0000 else x;
    assert (2 * x) % TWO_32 == 2 * y;
    assert 2 * y / 2 == y;
    if k > 0 && y != x { AddTopBit(y, k - 1); }
  }

  /** Shifting left by `d` moves bit `k - d` to bit `k` and clears the low `d` bits. */
  lemma {:induction false} ShiftLeftBit(x: U32, d: nat, k: nat)
    requires k < 32
    ensures Bit(ShiftLeft32(x, d), k) <==> k >= d && Bit(x, k - d)
    decreases d
  {
    if d > 0 {
      var y := (2 * x) % TWO_32;
      ShiftLeftBit(y, d - 1, k);
      if k >= d - 1 { DoubleBit(x, k - (d - 1)); }
    }
  }

  lemma Pow2IsWord(k: nat)
    requires k < 32
    ensures Pow2(k) < TWO_32
  {
    Pow2At32();
    Pow2Monotone(k, 31);
  }

  lemma ShiftOne(k: nat)
    requires k < 32
    ensures ShiftLeft32(1, k) == Pow2(k) < TWO_32
  {
    Pow2IsWord(k);
    ShiftPow2(0, k);
  }

  lemma {:induction false} ShiftPow2(j: nat, d: nat)
    requires Pow2(j + d) < TWO_32
    ensures Pow2(j) < TWO_32 && ShiftLeft32(Pow2(j), d) == Pow2(j + d)
    decreases d
  {
    Pow2Monotone(j, j + d);
    if d > 0 {
      Pow2Monotone(j + 1, j + d);
      ShiftPow2(j + 1, d - 1);
    }
  }

  lemma {:induction false} Pow2Monotone(i: nat, j: nat)
    requires i <= j
    ensures Pow2(i) <= Pow2(j)
    decreases j
  {
    if i < j { Pow2Monotone(i, j - 1); }
  }

  /** The C idiom `(word & (1u << k)) != 0u` tests bit `k`. */
  lemma MaskTestsBit(x: U32, k: nat)
    requires k < 32
    ensures And(x, ShiftLeft32(1, k)) != 0 <==> Bit(x, k)
  {
    ShiftOne(k);
    AndBit(x, Pow2(k), k);
    Pow2Bit(k, k);
    ZeroHasNoBit(k);
    var a := And(x, Pow2(k));
    if a != 0 {
      Pow2At32();
      AndBounded(x, Pow2(k), 32);
      var j := NonZeroHasBit(a, 32);
      AndBit(x, Pow2(k), j);
      Pow2Bit(k, j);
    }
  }

  lemma {:induction false} AndBounded(x: nat, y: nat, n: nat)
    requires x < Pow2(n) && y < Pow2(n)
    ensures And(x, y) < Pow2(n)
    decreases n
  {
    if n > 0 && (x != 0 || y != 0) { AndBounded(x / 2, y / 2, n - 1); }
  }

  /** `word | (1u << k)` is again a word, and sets bit `k` alone. */
  lemma SetBit(x: U32, k: nat, j: nat)
    requires k < 32
    ensures Or(x, ShiftLeft32(1, k)) < TWO_32
    ensures Bit(Or(x, ShiftLeft32(1, k)), j) <==> j == k || Bit(x, j)
  {
    ShiftOne(k);
    Pow2At32();
    OrBounded(x, Pow2(k), 32);
    OrBit(x, Pow2(k), j);
    Pow2Bit(k, j);
  }
}
