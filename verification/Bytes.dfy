/** Bytes of the word memory, little-endian as on AArch64, with memset and memcpy. */
module Bytes {
  import opened Bits
  import opened Memory

  /** Byte j of the word w. */
  function Byte(w: int, j: nat): int { w / Pow2(8 * j) % 256 }

  function ByteAt(mem: Mem, a: int): int { Byte(Rd(mem, a - a % 8), a % 8) }

  /** The word with the low k bytes of `low` and the other bytes of `high`. */
  function Spliced(high: int, low: int, k: nat): int { high - high % Pow2(8 * k) + low % Pow2(8 * k) }

  lemma SplicedParts(high: int, low: int, p: int)
    requires p > 0
    ensures var w := high - high % p + low % p; w % p == low % p && w / p == high / p
  {
    var w := high - high % p + low % p;
    var q := high / p;
    assert w == q * p + low % p by { assert high == q * p + high % p; }
    DivUnique(w, p, q, low % p);
  }

  /** A low byte only depends on the remainder. */
  lemma LowByte(w: int, j: nat, k: nat)
    requires j < k
    ensures Byte(w, j) == Byte(w % Pow2(8 * k), j)
  {
    var d, u := Pow2(8 * j), Pow2(8 * (k - j));
    Pow2Add(8 * j, 8 * (k - j));
    assert Pow2(8 * k) == d * u;
    Pow2Add(8, 8 * (k - j) - 8);
    assert Pow2(8) == 256 by { Pow2Of32(); }
    QuotientMod(w, d, u, Pow2(8 * (k - j) - 8));
  }

  lemma QuotientMod(w: int, d: int, u: int, v: int)
    requires d > 0 && v > 0 && u == 256 * v
    ensures w / d % 256 == w % (d * u) / d % 256
  {
    var r := w % (d * u);
    var q := w / (d * u);
    assert d * u > 0;
    assert w == q * (d * u) + r;
    var s, t := r / d, r % d;
    assert r == s * d + t;
    assert q * (d * u) == (q * u) * d;
    assert w == (q * u + s) * d + t;
    DivUnique(w, d, q * u + s, t);
    assert q * u == (q * v) * 256;
    ModShift(q * v, s);
  }

  lemma ModShift(a: int, s: int)
    ensures (a * 256 + s) % 256 == s % 256
  {
  }

  /** A high byte only depends on the quotient. */
  lemma HighByte(w: int, w': int, j: nat, k: nat)
    requires j >= k && w / Pow2(8 * k) == w' / Pow2(8 * k)
    ensures Byte(w, j) == Byte(w', j)
  {
    var d, u := Pow2(8 * k), Pow2(8 * (j - k));
    Pow2Add(8 * k, 8 * (j - k));
    assert Pow2(8 * j) == d * u;
    DivTwice(w, d, u);
    DivTwice(w', d, u);
  }

  lemma DivTwice(w: int, d: int, u: int)
    requires d > 0 && u > 0
    ensures d * u > 0 && w / (d * u) == w / d / u
  {
    var q := w / d / u;
    var r := w / d % u;
    var t := w % d;
    assert w / d == q * u + r;
    assert w == (q * u + r) * d + t;
    assert (q * u + r) * d + t == q * (d * u) + (r * d + t);
    MulMono(r, u - 1, d);
    assert (u - 1) * d == d * u - d;
    MulMono(0, r, d);
    DivUnique(w, d * u, q, r * d + t);
  }

  lemma SplicedBytes(high: int, low: int, k: nat, j: nat)
    ensures Byte(Spliced(high, low, k), j) == if j < k then Byte(low, j) else Byte(high, j)
  {
    var w := Spliced(high, low, k);
    SplicedParts(high, low, Pow2(8 * k));
    if j < k {
      LowByte(w, j, k);
      LowByte(low, j, k);
    } else {
      HighByte(w, high, j, k);
    }
  }

  /** The word with byte j replaced by v. */
  function WithByte(w: int, j: nat, v: int): int { Spliced(Spliced(w, v * Pow2(8 * j), j + 1), w, j) }

  lemma ByteReplaced(w: int, j: nat, v: int, i: nat)
    requires 0 <= v < 256
    ensures Byte(WithByte(w, j, v), i) == if i == j then v else Byte(w, i)
  {
    hide Spliced;
    SplicedBytes(Spliced(w, v * Pow2(8 * j), j + 1), w, j, i);
    SplicedBytes(w, v * Pow2(8 * j), j + 1, i);
    if i == j { DivUnique(v * Pow2(8 * j), Pow2(8 * j), v, 0); }
  }

  /** Only words that hold one of the n bytes from a on differ. */
  ghost predicate OnlyBlock(mem: Mem, mem': Mem, a: int, n: int) {
    forall w {:trigger Rd(mem', w)} :: !(a <= w < a + n && (w - a) % 8 == 0) ==> Rd(mem', w) == Rd(mem, w)
  }

  /** The i-th byte of a block. */
  function BlockAt(mem: Mem, a: int, i: int): int { ByteAt(mem, a + i) }

  /** The r-th word of a block. */
  function Word(a: int, r: int): int { a + 8 * r }

  /** Where byte a + i lies, for an aligned block. */
  lemma BlockByte(mem: Mem, a: int, i: int)
    requires a % 8 == 0 && i >= 0
    ensures BlockAt(mem, a, i) == Byte(Rd(mem, Word(a, i / 8)), i % 8)
  {
    assert (a + i) % 8 == i % 8 && a + i - (a + i) % 8 == a + (i - i % 8);
  }

  /** A byte of a word that did not change. */
  lemma SameByte(mem: Mem, mem': Mem, a: int, i: int)
    requires a % 8 == 0 && i >= 0 && Rd(mem', Word(a, i / 8)) == Rd(mem, Word(a, i / 8))
    ensures BlockAt(mem', a, i) == BlockAt(mem, a, i)
  {
    hide BlockAt, Byte, Word;
    BlockByte(mem, a, i);
    BlockByte(mem', a, i);
  }

  /** The words of mem' hold the first n bytes of values v(0), v(1), ... and then what was there. */
  ghost predicate BlockWords(mem: Mem, mem': Mem, a: int, n: int, v: int -> int) {
    && (forall r {:trigger Word(a, r)} :: 0 <= r < n / 8 ==> Rd(mem', Word(a, r)) == v(r))
    && (n % 8 != 0 ==> Rd(mem', Word(a, n / 8)) == Spliced(Rd(mem, Word(a, n / 8)), v(n / 8), n % 8))
    && OnlyBlock(mem, mem', a, n)
  }

  lemma BlockBytes(mem: Mem, mem': Mem, a: int, n: int, v: int -> int, i: int)
    requires a % 8 == 0 && n >= 0 && i >= 0 && BlockWords(mem, mem', a, n, v)
    ensures BlockAt(mem', a, i) == if i < n then Byte(v(i / 8), i % 8) else BlockAt(mem, a, i)
  {
    hide Byte, Spliced;
    BlockByte(mem', a, i);
    BlockByte(mem, a, i);
    var r := i / 8;
    if r < n / 8 {
      assert Rd(mem', Word(a, r)) == v(r);
    } else if r == n / 8 && n % 8 != 0 {
      SplicedBytes(Rd(mem, Word(a, r)), v(r), n % 8, i % 8);
    } else {
      assert Rd(mem', Word(a, r)) == Rd(mem, Word(a, r));
    }
  }

  lemma OneMoreWord(mem: Mem, mem1: Mem, a: int, n: int, n': int, x: int, v: int)
    requires OnlyBlock(mem, mem1, a, n) && n <= n' && a <= x < a + n' && (x - a) % 8 == 0
    ensures OnlyBlock(mem, mem1[x := v], a, n')
  {
    var mem2 := mem1[x := v];
    forall w {:trigger Rd(mem2, w)} | !(a <= w < a + n'
        && (w - a) % 8 == 0) ensures Rd(mem2, w) == Rd(mem, w) { assert Rd(mem1, w) == Rd(mem, w); }
  }

  lemma ZeroByte(j: nat)
    ensures Byte(0, j) == 0
  {
    DivUnique(0, Pow2(8 * j), 0, 0);
  }

  /** memset(a, 0, n). */
  method MemSetZero(mem: Mem, a: int, n: int) returns (mem': Mem)
    requires a % 8 == 0 && n >= 0
    ensures OnlyBlock(mem, mem', a, n)
    ensures forall i {:trigger BlockAt(mem', a, i)} :: i >= 0 ==>
        BlockAt(mem', a, i) == if i < n then 0 else BlockAt(mem, a, i)
  {
    mem' := mem;
    for k := 0 to n / 8
      invariant OnlyBlock(mem, mem', a, 8 * k)
      invariant forall r {:trigger Word(a, r)} :: 0 <= r < k ==> Rd(mem', Word(a, r)) == 0
    {
      OneMoreWord(mem, mem', a, 8 * k, 8 * (k + 1), Word(a, k), 0);
      mem' := mem'[Word(a, k) := 0];
    }
    if n % 8 != 0 {
      assert Rd(mem', Word(a, n / 8)) == Rd(mem, Word(a, n / 8));
      OneMoreWord(mem, mem', a, 8 * (n / 8), n, Word(a, n / 8), Spliced(Rd(mem', Word(a, n / 8)), 0, n % 8));
      mem' := mem'[Word(a, n / 8) := Spliced(Rd(mem', Word(a, n / 8)), 0, n % 8)];
    }
    assert BlockWords(mem, mem', a, n, r => 0);
    forall i {:trigger BlockAt(mem', a, i)} | i >= 0 ensures BlockAt(mem', a, i) == if i < n then 0
        else BlockAt(mem, a, i) {
      BlockBytes(mem, mem', a, n, r => 0, i);
      ZeroByte(i % 8);
    }
  }

  /** memcpy(a, b, n) for blocks that do not overlap. */
  method MemCopy(mem: Mem, a: int, b: int, n: int) returns (mem': Mem)
    requires a % 8 == 0 && b % 8 == 0 && n >= 0 && (a + n <= b || b + n + 7 <= a)
    ensures OnlyBlock(mem, mem', a, n)
    ensures forall i {:trigger BlockAt(mem', a, i)} :: i >= 0 ==>
        BlockAt(mem', a, i) == if i < n then BlockAt(mem, b, i) else BlockAt(mem, a, i)
  {
    hide Byte, Spliced;
    mem' := mem;
    for k := 0 to n / 8
      invariant OnlyBlock(mem, mem', a, 8 * k)
      invariant forall r {:trigger Word(a, r)} :: 0 <= r < k ==> Rd(mem', Word(a, r)) == Rd(mem, Word(b, r))
    {
      assert Rd(mem', Word(b, k)) == Rd(mem, Word(b, k));
      OneMoreWord(mem, mem', a, 8 * k, 8 * (k + 1), Word(a, k), Rd(mem', Word(b, k)));
      mem' := mem'[Word(a, k) := Rd(mem', Word(b, k))];
    }
    if n % 8 != 0 {
      assert Rd(mem', Word(a, n / 8)) == Rd(mem, Word(a, n / 8)) && Rd(mem', Word(b, n / 8)) == Rd(mem, Word(b, n / 8));
      OneMoreWord(mem, mem', a, 8 * (n / 8), n, Word(a, n / 8),
          Spliced(Rd(mem', Word(a, n / 8)), Rd(mem', Word(b, n / 8)), n % 8));
      mem' := mem'[Word(a, n / 8) := Spliced(Rd(mem', Word(a, n / 8)), Rd(mem', Word(b, n / 8)), n % 8)];
    }
    var v := r => Rd(mem, Word(b, r));
    assert BlockWords(mem, mem', a, n, v);
    forall i {:trigger BlockAt(mem', a, i)} | i >= 0 ensures BlockAt(mem', a, i) == if i < n then BlockAt(mem, b, i)
        else BlockAt(mem, a, i) {
      BlockBytes(mem, mem', a, n, v, i);
      BlockByte(mem, b, i);
    }
  }
}
