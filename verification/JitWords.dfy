/** Tagged machine words: a 47-bit integer travels in the low bits under a 17-bit tag. */
module JitWords {
  import opened Bytecode

  const TWO46 := 0x4000_0000_0000
  const TWO47 := 0x8000_0000_0000
  const TWO17 := 0x2_0000

  /** The tag of small integers, and the mask of the bits under it. */
  const TOP17_INT := 0x1_FFF4
  const TAG_INT := 0xFFFA_0000_0000_0000
  const PAYLOAD := 0x7FFF_FFFF_FFFF

  /** The integers that need no heap object. */
  predicate Inline(n: int) { -TWO46 <= n < TWO46 }

  /** The low 47 bits as a signed number. */
  function Narrow(w: int): (n: int)
    ensures Inline(n)
    ensures Inline(w) ==> n == w
  {
    (w + TWO46) % TWO47 - TWO46
  }

  /** Words are kept as signed 64-bit numbers. */
  predicate IsWord(w: int) { -TWO63 <= w < TWO63 }

  predicate TaggedInt(w: int) { Unsigned(w) / TWO47 == TOP17_INT }

  function ShiftLeft(x: int, n: nat): int { Wrap(x * Pow2(n)) }

  function ShiftRight(x: int, n: nat): int { x / Pow2(n) }

  function ShiftRightLogical(x: int, n: nat): int { Unsigned(x) / Pow2(n) }

  /** What boxing computes: mask, then tag. */
  function Boxed(x: int): int {
    Wrap(BitOr(Unsigned(Wrap(BitAnd(Unsigned(x), Unsigned(PAYLOAD)))), Unsigned(Wrap(TAG_INT))))
  }

  // ---------------------------------------------------------------- bits

  lemma Pow2Add(m: nat, n: nat)
    ensures Pow2(m + n) == Pow2(m) * Pow2(n)
  {
    if m > 0 { Pow2Add(m - 1, n); }
  }

  lemma PowSmall()
    ensures Pow2(1) == 2 && Pow2(4) == 16
  {
    assert Pow2(2) == 4;
    Pow2Add(2, 2);
  }

  lemma Powers()
    ensures Pow2(17) == TWO17 && Pow2(47) == TWO47
  {
    hide Pow2;
    PowSmall();
    Pow2Add(4, 4);
    Pow2Add(8, 8);
    Pow2Add(16, 1);
    Pow2Add(16, 16);
    Pow2Add(15, 1);
    Pow2Add(32, 15);
  }

  lemma {:induction false} AndMask(x: nat, n: nat)
    ensures BitAnd(x, Pow2(n) - 1) == x % Pow2(n)
  {
    if n == 0 {
    } else if x == 0 {
    } else {
      var p := Pow2(n - 1);
      AndMask(x / 2, n - 1);
      assert (Pow2(n) - 1) / 2 == p - 1 && (Pow2(n) - 1) % 2 == 1;
      HalveMod(x, p);
    }
  }

  lemma HalveMod(x: nat, p: nat)
    requires p > 0
    ensures x % (2 * p) == 2 * (x / 2 % p) + x % 2
  {
    var q, r := x / 2 / p, x / 2 % p;
    assert x / 2 == p * q + r;
    assert x == 2 * p * q + (2 * r + x % 2);
    ModUnique(x, 2 * p, q, 2 * r + x % 2);
  }

  lemma ModUnique(x: int, m: nat, q: int, r: nat)
    requires r < m && x == m * q + r
    ensures x % m == r && x / m == q
  {
    var d := x / m - q;
    assert x == m * (x / m) + x % m;
    assert m * d == r - x % m by { assert m * (x / m - q) == m * (x / m) - m * q; }
    Multiples(m, d);
  }

  lemma Multiples(m: nat, d: int)
    ensures (d >= 1 ==> m * d >= m) && (d <= -1 ==> m * d + m <= 0)
  {
  }

  /** Numbers without common bits are added by "or". */
  lemma {:induction false} OrDisjoint(x: nat, n: nat, y: nat)
    requires x < Pow2(n)
    ensures BitOr(x, y * Pow2(n)) == x + y * Pow2(n)
  {
    if x == 0 {
    } else if y == 0 {
    } else if n > 0 {
      var z := y * Pow2(n);
      assert z == 2 * (y * Pow2(n - 1));
      assert z / 2 == y * Pow2(n - 1) && z % 2 == 0;
      OrDisjoint(x / 2, n - 1, y);
    }
  }

  function High(x: nat, n: nat): nat { if n == 0 then x else High(x / 2, n - 1) }

  lemma {:induction false} HighIs(x: nat, n: nat)
    ensures High(x, n) == x / Pow2(n)
  {
    if n > 0 {
      HighIs(x / 2, n - 1);
      DivDiv(x, Pow2(n - 1));
    }
  }

  lemma {:induction false} XorHigh(x: nat, y: nat, n: nat)
    ensures High(BitXor(x, y), n) == BitXor(High(x, n), High(y, n))
  {
    hide High;
    HighEnds(x, n); HighEnds(y, n); HighEnds(BitXor(x, y), n);
    if n == 0 {
    } else if x == 0 {
    } else if y == 0 {
      XorZero(High(x, n));
    } else {
      XorHigh(x / 2, y / 2, n - 1);
      HighHalf(x, n); HighHalf(y, n); HighHalf(BitXor(x, y), n);
      assert BitXor(x, y) / 2 == BitXor(x / 2, y / 2);
    }
  }

  lemma XorZero(x: nat)
    ensures BitXor(x, 0) == x
  {
  }

  lemma {:induction false} HighEnds(x: nat, n: nat)
    ensures High(x, 0) == x && High(0, n) == 0
  {
    if n > 0 { HighEnds(x, n - 1); }
  }

  lemma HighHalf(x: nat, n: nat)
    requires n > 0
    ensures High(x, n) == High(x / 2, n - 1)
  {
  }

  lemma DivDiv(x: nat, p: nat)
    requires p > 0
    ensures x / (2 * p) == x / 2 / p
  {
    var q, r := x / 2 / p, x / 2 % p;
    assert x / 2 == p * q + r;
    assert x == 2 * p * q + (2 * r + x % 2);
    ModUnique(x, 2 * p, q, 2 * r + x % 2);
  }

  /** Exclusive or is negative for operands of different signs. */
  lemma XorSign(a: int, b: int)
    requires IsWord(a) && IsWord(b)
    ensures Wrap(BitXor(Unsigned(a), Unsigned(b))) < 0 <==> ((a < 0) != (b < 0))
  {
    hide High, BitXor;
    SmallXor();
    var x, y := Unsigned(a), Unsigned(b);
    var z := BitXor(x, y);
    Pow63();
    XorHigh(x, y, 63);
    HighIs(x, 63); HighIs(y, 63); HighIs(z, 63);
    assert x / TWO63 == if a < 0 then 1 else 0;
    assert y / TWO63 == if b < 0 then 1 else 0;
    assert z / TWO63 == if (a < 0) != (b < 0) then 1 else 0;
  }

  lemma SmallXor()
    ensures BitXor(1, 1) == 0 && BitXor(1, 0) == 1 && BitXor(0, 1) == 1 && BitXor(0, 0) == 0
  {
  }

  lemma Pow63()
    ensures Pow2(63) == TWO63
  {
    hide Pow2;
    Powers();
    PowSmall();
    Pow2Add(4, 4);
    Pow2Add(8, 8);
    Pow2Add(47, 16);
  }

  // ---------------------------------------------------------------- boxing

  /** Shifting up and down by 17 extends the sign of the low 47 bits. */
  lemma ShiftsNarrow(x: int)
    ensures ShiftRight(ShiftLeft(x, 17), 17) == Narrow(x)
  {
    Powers();
    var q, r := (x + TWO46) / TWO47, (x + TWO46) % TWO47;
    assert x + TWO46 == TWO47 * q + r;
    assert x * TWO17 + TWO63 == TWO64 * q + r * TWO17;
    ModUnique(x * TWO17 + TWO63, TWO64, q, r * TWO17);
    assert ShiftLeft(x, 17) == r * TWO17 - TWO63 == (r - TWO46) * TWO17;
    ModUnique((r - TWO46) * TWO17, TWO17, r - TWO46, 0);
  }

  lemma MaskedIs(x: int)
    ensures BitAnd(Unsigned(x), PAYLOAD) == x % TWO47
  {
    hide BitAnd;
    Powers();
    AndMask(Unsigned(x), 47);
    var q, r := x / TWO64, x % TWO64;
    ModUnique(x, TWO47, q * TWO17 + r / TWO47, r % TWO47);
  }

  lemma BoxedIs(x: int)
    ensures Boxed(x) == TAG_INT - TWO64 + x % TWO47
  {
    hide BitAnd, BitOr;
    Powers();
    MaskedIs(x);
    OrDisjoint(x % TWO47, 47, TOP17_INT);
    assert TOP17_INT * TWO47 == TAG_INT;
  }

  /** A boxed integer is tagged, and unboxing gives back its low bits: all of it, if it is inline. */
  lemma BoxUnbox(x: int)
    ensures IsWord(Boxed(x)) && TaggedInt(Boxed(x)) && Narrow(Boxed(x)) == Narrow(x)
    ensures Inline(x) ==> Narrow(Boxed(x)) == x
  {
    hide Boxed;
    BoxedIs(x);
    BoxedTagged(x % TWO47);
    NarrowShifted(x, TAG_INT - TWO64 + x % TWO47, TOP17_INT - TWO17 - x / TWO47);
  }

  lemma BoxedTagged(r: nat)
    requires r < TWO47
    ensures Unsigned(TAG_INT - TWO64 + r) == TAG_INT + r && (TAG_INT + r) / TWO47 == TOP17_INT
  {
    ModUnique(TAG_INT + r, TWO47, TOP17_INT, r);
    ModUnique(TAG_INT - TWO64 + r, TWO64, -1, TAG_INT + r);
  }

  /** What differs by a multiple of 2^47 has the same low bits. */
  lemma NarrowShifted(x: int, y: int, q: int)
    requires y == x + TWO47 * q
    ensures Narrow(y) == Narrow(x)
  {
    var a, r := (x + TWO46) / TWO47, (x + TWO46) % TWO47;
    ModUnique(y + TWO46, TWO47, a + q, r);
  }

  /** The remainder the code computes from the truncating one is the floored one. */
  lemma FlooredRemainder(x: int, k: int)
    requires k != 0 && Inline(x) && FitsImmediate(k)
    ensures var m := TruncMod(x, k);
      var r := if m != 0 && Wrap(BitXor(Unsigned(m), Unsigned(k))) < 0 then Wrap(m + k) else m;
      IntOp(Mod, x, k) == Val(Int(r)) && Inline(r)
  {
    var m := TruncMod(x, k);
    assert -32768 <= m <= 32768 && (m == 0 || (m < 0) == (x < 0));
    XorSign(m, k);
  }
}
