/** The 32-bit bin maps `smallmap` and `treemap`, and the bit tricks that search them
    (src/mm/malloc.c:2922-2986).  A map word is an `unsigned int`, written here as its value
    0 <= x < 2^32; the bitwise operators are defined digit by digit on that value, and unsigned
    negation and left shift wrap at 2^32. */
module Bits {

  function Pow2(n: nat): (r: nat)
    ensures r > 0
  {
    if n == 0 then 1 else 2 * Pow2(n - 1)
  }

  const WORD_RANGE := 0x1_0000_0000

  /** Bit i of x. */
  predicate Bit(x: nat, i: nat) {
    if i == 0 then x % 2 == 1 else Bit(x / 2, i - 1)
  }

  function And(x: nat, y: nat): (r: nat)
    ensures r <= x && r <= y
  {
    if x == 0 || y == 0 then 0 else 2 * And(x / 2, y / 2) + (if x % 2 == 1 && y % 2 == 1 then 1 else 0)
  }

  function Or(x: nat, y: nat): (r: nat)
    ensures r >= x && r >= y
    decreases x + y
  {
    if x == 0 then y else if y == 0 then x
    else 2 * Or(x / 2, y / 2) + (if x % 2 == 1 || y % 2 == 1 then 1 else 0)
  }

  function Not32(x: nat): nat
    requires x < WORD_RANGE
  {
    WORD_RANGE - 1 - x
  }

  function Neg32(x: nat): nat
    requires x < WORD_RANGE
  {
    (WORD_RANGE - x) % WORD_RANGE
  }

  /** x << n: n doublings, each losing the bit shifted out. */
  function Shl32(x: nat, n: nat): (r: nat)
    requires x < WORD_RANGE
    ensures r < WORD_RANGE
    decreases n
  {
    if n == 0 then x else Shl32((2 * x) % WORD_RANGE, n - 1)
  }

  /** x >> n: n halvings. */
  function Shr(x: nat, n: nat): nat {
    if n == 0 then x else Shr(x / 2, n - 1)
  }

  // ----- the macros -----

  function Idx2Bit(i: nat): nat { Pow2(i) }

  function Mark(m: nat, i: nat): nat { Or(m, Idx2Bit(i)) }

  function Clear(m: nat, i: nat): nat
    requires i < 32
  {
    Pow2Bound(i, 32);
    And(m, Not32(Idx2Bit(i)))
  }

  predicate IsMarked(m: nat, i: nat) { And(m, Idx2Bit(i)) != 0 }

  function LeastBit(x: nat): nat
    requires x < WORD_RANGE
  {
    And(x, Neg32(x))
  }

  function LeftBits(x: nat): nat
    requires x < WORD_RANGE
  {
    Or(Shl32(x, 1), Neg32(Shl32(x, 1)))
  }

  // ----- powers of two -----

  lemma {:induction false} Pow2Bound(i: nat, n: nat)
    requires i < n
    ensures 2 * Pow2(i) <= Pow2(n)
    ensures n == 32 ==> Pow2(i) < WORD_RANGE
  {
    if i + 1 < n { Pow2Bound(i, n - 1); }
    if n == 32 { Pow2Of32(); }
  }

  lemma Pow2Of32()
    ensures Pow2(8) == 0x100 && Pow2(16) == 0x10000 && Pow2(32) == WORD_RANGE
  {
    assert Pow2(4) == 16;
    assert Pow2(8) == 0x100;
    assert Pow2(12) == 0x1000;
    assert Pow2(16) == 0x10000;
    assert Pow2(20) == 0x100000;
    assert Pow2(24) == 0x1000000;
    assert Pow2(28) == 0x10000000;
  }

  lemma {:induction false} Pow2Add(a: nat, b: nat)
    ensures Pow2(a + b) == Pow2(a) * Pow2(b)
  {
    if a > 0 { Pow2Add(a - 1, b); }
  }

  // ----- the operators, bit by bit -----

  lemma {:induction false} BitOfZero(i: nat)
    ensures !Bit(0, i)
  {
    if i > 0 { BitOfZero(i - 1); }
  }

  lemma {:induction false} BitAnd(x: nat, y: nat, i: nat)
    ensures Bit(And(x, y), i) <==> Bit(x, i) && Bit(y, i)
  {
    BitOfZero(i);
    if x != 0 && y != 0 && i > 0 { BitAnd(x / 2, y / 2, i - 1); }
  }

  lemma {:induction false} BitOr(x: nat, y: nat, i: nat)
    ensures Bit(Or(x, y), i) <==> Bit(x, i) || Bit(y, i)
  {
    BitOfZero(i);
    if x != 0 && y != 0 && i > 0 { BitOr(x / 2, y / 2, i - 1); }
  }

  lemma {:induction false} BitPow2(k: nat, i: nat)
    ensures Bit(Pow2(k), i) <==> i == k
  {
    if k == 0 {
      if i > 0 { BitOfZero(i - 1); }
    } else if i > 0 {
      BitPow2(k - 1, i - 1);
    }
  }

  lemma {:induction false} BitNot(x: nat, n: nat, i: nat)
    requires x < Pow2(n) && i < n
    ensures Bit(Pow2(n) - 1 - x, i) <==> !Bit(x, i)
  {
    if i > 0 {
      assert (Pow2(n) - 1 - x) / 2 == Pow2(n - 1) - 1 - x / 2;
      BitNot(x / 2, n - 1, i - 1);
    }
  }

  lemma {:induction false} BitShr(x: nat, n: nat, i: nat)
    ensures Bit(Shr(x, n), i) <==> Bit(x, n + i)
  {
    if n > 0 { BitShr(x / 2, n - 1, i); }
  }

  /** A right shift is the quotient by the power of two. */
  lemma {:induction false} ShrIsDiv(x: nat, n: nat)
    ensures Shr(x, n) == x / Pow2(n)
  {
    if n > 0 {
      ShrIsDiv(x / 2, n - 1);
      DivDiv(x, Pow2(n - 1));
    }
  }

  lemma DivDiv(x: nat, d: nat)
    requires d > 0
    ensures x / (2 * d) == (x / 2) / d
  {
    var q := (x / 2) / d;
    var r := (x / 2) % d;
    assert x == 2 * (q * d + r) + x % 2;
    assert 2 * (q * d) == q * (2 * d);
    DivUnique(x, 2 * d, q, 2 * r + x % 2);
  }

  lemma DivUnique(x: int, d: int, q: int, r: int)
    requires d > 0 && x == q * d + r && 0 <= r < d
    ensures x / d == q && x % d == r
  {
    var q2, r2 := x / d, x % d;
    assert (q - q2) * d == r2 - r;
    if q > q2 {
      MulMono(1, q - q2, d);
    } else if q < q2 {
      MulMono(q - q2, -1, d);
    }
  }

  lemma MulMono(a: int, b: int, d: int)
    requires a <= b && d >= 0
    ensures a * d <= b * d
  {
  }

  /** A word that has no bit below 32 on is zero. */
  lemma {:induction false} NoBitIsZero(x: nat, n: nat) returns (i: nat)
    requires 0 < x < Pow2(n)
    ensures i < n && Bit(x, i)
  {
    if x % 2 == 1 { i := 0; } else { i := NoBitIsZero(x / 2, n - 1); i := i + 1; }
  }

  /** Two's complement: negation of 2^k turns on exactly the bits from k up. */
  lemma {:induction false} BitNegPow2(k: nat, n: nat, i: nat)
    requires k < n && i < n
    ensures Pow2(k) <= Pow2(n)
    ensures Bit(Pow2(n) - Pow2(k), i) <==> i >= k
  {
    Pow2Bound(k, n);
    if k == 0 {
      BitNot(0, n, i);
      BitOfZero(i);
    } else if i > 0 {
      assert (Pow2(n) - Pow2(k)) / 2 == Pow2(n - 1) - Pow2(k - 1);
      BitNegPow2(k - 1, n - 1, i - 1);
    }
  }

  lemma {:induction false} AndNot(x: nat, n: nat)
    requires x < Pow2(n)
    ensures And(x, Pow2(n) - 1 - x) == 0
  {
    if n > 0 && x != 0 && Pow2(n) - 1 - x != 0 {
      assert (Pow2(n) - 1 - x) / 2 == Pow2(n - 1) - 1 - x / 2;
      AndNot(x / 2, n - 1);
    }
  }

  /** x & -x is the power of two at the lowest bit of x. */
  lemma {:induction false} LeastBitIsLowest(x: nat, n: nat) returns (k: nat)
    requires 0 < x < Pow2(n)
    ensures k < n && And(x, Pow2(n) - x) == Pow2(k)
    ensures Bit(x, k) && forall j: nat | j < k :: !Bit(x, j)
  {
    if x % 2 == 1 {
      assert (Pow2(n) - x) / 2 == Pow2(n - 1) - 1 - x / 2;
      AndNot(x / 2, n - 1);
      k := 0;
    } else {
      assert (Pow2(n) - x) / 2 == Pow2(n - 1) - x / 2;
      k := LeastBitIsLowest(x / 2, n - 1);
      k := k + 1;
      forall j: nat | j < k ensures !Bit(x, j) {
        if j > 0 { assert !Bit(x / 2, j - 1); }
      }
    }
  }

  lemma {:induction false} OnesShr(j: nat, n: nat)
    ensures Shr(Pow2(j) - 1, n) == if n <= j then Pow2(j - n) - 1 else 0
  {
    if n > 0 {
      if j > 0 {
        assert (Pow2(j) - 1) / 2 == Pow2(j - 1) - 1;
        OnesShr(j - 1, n - 1);
      } else {
        OnesShr(0, n - 1);
      }
    }
  }

  lemma {:induction false} AndOnes(m: nat, b: nat)
    ensures And(Pow2(m) - 1, Pow2(b)) == if m > b then Pow2(b) else 0
  {
    if m > 0 {
      assert (Pow2(m) - 1) / 2 == Pow2(m - 1) - 1;
      if b > 0 { AndOnes(m - 1, b - 1); }
    }
  }

  /** One step of compute_bit2idx on a run of j ones. */
  lemma Bit2IdxStep(j: nat, shift: nat, b: nat)
    ensures And(Shr(Pow2(j) - 1, shift), Pow2(b)) == if j > shift + b then Pow2(b) else 0
  {
    OnesShr(j, shift);
    if shift <= j { AndOnes(j - shift, b); }
  }

  function StepDown(j: nat, shift: nat, b: nat): nat {
    if j > shift + b && j >= Pow2(b) then j - Pow2(b) else j
  }

  /** After a step the run of ones is shorter by the amount added to the index. */
  lemma Bit2IdxStepDown(j: nat, shift: nat, b: nat, w: nat)
    requires w == Pow2(b) && shift + b + 1 >= w
    ensures And(Shr(Pow2(j) - 1, shift), w) == j - StepDown(j, shift, b)
    ensures Shr(Pow2(j) - 1, j - StepDown(j, shift, b)) == Pow2(StepDown(j, shift, b)) - 1
  {
    Bit2IdxStep(j, shift, b);
    OnesShr(j, j - StepDown(j, shift, b));
  }

  /** One line of compute_bit2idx, `K = Y >> shift & w; Y >>= K`, on a run of j ones. */
  method Bit2IdxLine(y: nat, shift: nat, w: nat, ghost j: nat, ghost b: nat) returns (k: nat, y': nat)
    requires y == Pow2(j) - 1 && w == Pow2(b) && shift + b + 1 >= w
    ensures k == j - StepDown(j, shift, b) && y' == Pow2(j - k) - 1
  {
    k := And(Shr(y, shift), w);
    Bit2IdxStepDown(j, shift, b, w);
    y' := Shr(y, k);
  }

  /** compute_bit2idx, the branch-free form: each line removes half of the remaining span of
      the run of ones X - 1, so a single bit is mapped back to its index. */
  method ComputeBit2Idx(x: nat, ghost bit: nat) returns (i: nat)
    requires bit < 32 && x == Pow2(bit)
    ensures i == bit
  {
    assert Pow2(4) == 16 && Pow2(3) == 8 && Pow2(2) == 4 && Pow2(1) == 2;
    var y := x - 1;
    var n, k;
    n, y := Bit2IdxLine(y, 12, 16, bit, 4);
    k, y := Bit2IdxLine(y, 5, 8, bit - n, 3);
    n := n + k;
    k, y := Bit2IdxLine(y, 2, 4, bit - n, 2);
    n := n + k;
    k, y := Bit2IdxLine(y, 1, 2, bit - n, 1);
    n := n + k;
    k, y := Bit2IdxLine(y, 1, 1, bit - n, 0);
    n := n + k;
    assert bit - n <= 1;
    i := n + y;
  }

  // ----- what the searches find -----

  lemma MarkBits(m: nat, i: nat, j: nat)
    ensures Bit(Mark(m, i), j) <==> Bit(m, j) || j == i
  {
    BitOr(m, Idx2Bit(i), j);
    BitPow2(i, j);
  }

  lemma ClearBits(m: nat, i: nat, j: nat)
    requires i < 32 && j < 32
    ensures Bit(Clear(m, i), j) <==> Bit(m, j) && j != i
  {
    Pow2Of32();
    Pow2Bound(i, 32);
    BitAnd(m, Not32(Idx2Bit(i)), j);
    BitNot(Idx2Bit(i), 32, j);
    BitPow2(i, j);
  }

  lemma {:induction false} OrBound(x: nat, y: nat, n: nat)
    requires x < Pow2(n) && y < Pow2(n)
    ensures Or(x, y) < Pow2(n)
  {
    if x != 0 && y != 0 { OrBound(x / 2, y / 2, n - 1); }
  }

  /** The test macro reads the bit. */
  lemma {:induction false} IsMarkedBit(m: nat, i: nat)
    ensures IsMarked(m, i) <==> Bit(m, i)
  {
    if m == 0 {
      BitOfZero(i);
    } else if i > 0 {
      IsMarkedBit(m / 2, i - 1);
    }
  }

  lemma LeastBitOf(x: nat, n: nat) returns (k: nat)
    requires 0 < x < WORD_RANGE && Pow2(n) == WORD_RANGE
    ensures k < n && LeastBit(x) == Pow2(k)
    ensures Bit(x, k) && forall j: nat | j < k :: !Bit(x, j)
  {
    k := LeastBitIsLowest(x, n);
  }

  /** least_bit and compute_bit2idx together find the lowest marked bin of a map. */
  method LowestMarked(map32: nat) returns (i: nat)
    requires 0 < map32 < WORD_RANGE
    ensures i < 32 && Bit(map32, i) && forall j: nat | j < i :: !Bit(map32, j)
  {
    Pow2Of32();
    ghost var k := LeastBitOf(map32, 32);
    var leastbit := LeastBit(map32);
    i := ComputeBit2Idx(leastbit, k);
  }

  lemma LeftBitsOf(i: nat, j: nat, n: nat, s: nat)
    requires i < n && j < n && Pow2(n) == WORD_RANGE
    requires s == if i + 1 < n then Pow2(i + 1) else 0
    ensures Pow2(i) < WORD_RANGE && Shl32(Pow2(i), 1) == s
    ensures s < WORD_RANGE && Or(s, Neg32(s)) < WORD_RANGE
    ensures Bit(Or(s, Neg32(s)), j) <==> j > i
  {
    Pow2Bound(i, n);
    if i + 1 < n { Pow2Bound(i + 1, n); }
    assert Pow2(1) == 2;
    OrBound(s, Neg32(s), n);
    BitOr(s, Neg32(s), j);
    if i + 1 < n {
      BitPow2(i + 1, j);
      BitNegPow2(i + 1, n, j);
    } else {
      BitOfZero(j);
    }
  }

  /** left_bits of bin i's bit is the mask of the bins strictly above i. */
  lemma LeftBitsOfBit(i: nat, j: nat)
    requires i < 32 && j < 32
    ensures Idx2Bit(i) < WORD_RANGE && LeftBits(Idx2Bit(i)) < WORD_RANGE
    ensures Bit(LeftBits(Idx2Bit(i)), j) <==> j > i
  {
    Pow2Of32();
    LeftBitsOf(i, j, 32, if i < 31 then Pow2(i + 1) else 0);
  }
}
