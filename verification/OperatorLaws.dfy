/** What the operators compute on 64-bit integers, said without their definitions: bit by bit, and by the
 laws of division and shifts.  The trees, the stack machine and compiled loops share these operators. */
module OperatorLaws {
  import opened Bytecode
  import opened JitWords

  // ---------------------------------------------------------------- bits

  /** Bit `k`; a negative number continues with ones. */
  predicate Bit(x: int, k: nat) { x / Pow2(k) % 2 == 1 }

  lemma HalfDiv(x: int, p: nat)
    requires p > 0
    ensures x / (2 * p) == x / 2 / p
  {
    var q, r := x / 2 / p, x / 2 % p;
    assert x / 2 == p * q + r;
    assert x == 2 * p * q + (2 * r + x % 2);
    ModUnique(x, 2 * p, q, 2 * r + x % 2);
  }

  lemma BitStep(x: int, k: nat)
    ensures Bit(x, 0) <==> x % 2 == 1
    ensures Bit(x, k + 1) <==> Bit(x / 2, k)
  {
    HalfDiv(x, Pow2(k));
  }

  lemma {:induction false} NoBits(k: nat)
    ensures !Bit(0, k)
  {
    if k > 0 { BitStep(0, k - 1); NoBits(k - 1); }
  }

  lemma {:induction false} OrBits(x: nat, y: nat, k: nat)
    ensures Bit(BitOr(x, y), k) <==> Bit(x, k) || Bit(y, k)
    decreases k
  {
    hide Bit;
    NoBits(k);
    if x != 0 && y != 0 {
      var z := BitOr(x, y);
      if k == 0 {
        BitStep(x, 0); BitStep(y, 0); BitStep(z, 0);
      } else {
        BitStep(x, k - 1); BitStep(y, k - 1); BitStep(z, k - 1);
        assert z / 2 == BitOr(x / 2, y / 2);
        OrBits(x / 2, y / 2, k - 1);
      }
    }
  }

  lemma {:induction false} AndBits(x: nat, y: nat, k: nat)
    ensures Bit(BitAnd(x, y), k) <==> Bit(x, k) && Bit(y, k)
    decreases k
  {
    hide Bit;
    NoBits(k);
    if x != 0 && y != 0 {
      var z := BitAnd(x, y);
      if k == 0 {
        BitStep(x, 0); BitStep(y, 0); BitStep(z, 0);
      } else {
        BitStep(x, k - 1); BitStep(y, k - 1); BitStep(z, k - 1);
        assert z / 2 == BitAnd(x / 2, y / 2);
        AndBits(x / 2, y / 2, k - 1);
      }
    }
  }

  lemma {:induction false} XorBits(x: nat, y: nat, k: nat)
    ensures Bit(BitXor(x, y), k) <==> Bit(x, k) != Bit(y, k)
    decreases k
  {
    hide Bit, BitXor;
    NoBits(k);
    XorStep(x, y);
    if x != 0 && y != 0 {
      var z := BitXor(x, y);
      if k == 0 {
        BitStep(x, 0); BitStep(y, 0); BitStep(z, 0);
      } else {
        BitStep(x, k - 1); BitStep(y, k - 1); BitStep(z, k - 1);
        XorBits(x / 2, y / 2, k - 1);
      }
    }
  }

  lemma XorStep(x: nat, y: nat)
    ensures BitXor(0, y) == y && BitXor(x, 0) == x
    ensures x != 0 && y != 0 ==> BitXor(x, y) / 2 == BitXor(x / 2, y / 2)
    ensures x != 0 && y != 0 ==> (BitXor(x, y) % 2 == 1 <==> (x % 2 == 1) != (y % 2 == 1))
  {
    hide BitXor;
    XorZero(x, y);
    if x != 0 && y != 0 {
      XorIs(x, y);
      Halves(BitXor(x / 2, y / 2), (x + y) % 2);
      Parity(x, y);
    }
  }

  lemma XorZero(x: nat, y: nat)
    ensures BitXor(0, y) == y && BitXor(x, 0) == x
  {
  }

  lemma XorIs(x: nat, y: nat)
    requires x != 0 && y != 0
    ensures BitXor(x, y) == 2 * BitXor(x / 2, y / 2) + (x + y) % 2
  {
  }

  lemma Halves(h: nat, b: nat)
    requires b < 2
    ensures (2 * h + b) / 2 == h && (2 * h + b) % 2 == b
  {
  }

  lemma Parity(x: nat, y: nat)
    ensures (x + y) % 2 == 1 <==> (x % 2 == 1) != (y % 2 == 1)
  {
  }

  /** Numbers with the same `n` bits and no others are equal. */
  lemma {:induction false} SameBits(x: nat, y: nat, n: nat)
    requires x < Pow2(n) && y < Pow2(n) && forall k: nat :: k < n ==> (Bit(x, k) <==> Bit(y, k))
    ensures x == y
    decreases n
  {
    hide Bit;
    if n > 0 {
      BitStep(x, 0); BitStep(y, 0);
      assert Bit(x, 0) <==> Bit(y, 0);
      forall k: nat | k < n - 1 ensures Bit(x / 2, k) <==> Bit(y / 2, k) {
        BitStep(x, k); BitStep(y, k);
        assert Bit(x, k + 1) <==> Bit(y, k + 1);
      }
      SameBits(x / 2, y / 2, n - 1);
    }
  }

  lemma {:induction false} OperationsFit(x: nat, y: nat, n: nat)
    requires x < Pow2(n) && y < Pow2(n)
    ensures BitOr(x, y) < Pow2(n) && BitAnd(x, y) < Pow2(n) && BitXor(x, y) < Pow2(n)
    decreases n
  {
    hide BitOr, BitAnd, BitXor;
    OrBound(x, y); AndBound(x, y); XorBound(x, y);
    if n > 0 { OperationsFit(x / 2, y / 2, n - 1); }
  }

  lemma OrBound(x: nat, y: nat)
    ensures BitOr(0, 0) == 0 && BitOr(x, y) <= 2 * BitOr(x / 2, y / 2) + 1
  {
  }

  lemma AndBound(x: nat, y: nat)
    ensures BitAnd(0, 0) == 0 && BitAnd(x, y) <= 2 * BitAnd(x / 2, y / 2) + 1
  {
    if x != 0 && y != 0 { assert x % 2 == 0 || x % 2 == 1; }
  }

  lemma XorBound(x: nat, y: nat)
    ensures BitXor(0, 0) == 0 && BitXor(x, y) <= 2 * BitXor(x / 2, y / 2) + 1
  {
  }

  // ---------------------------------------------------------------- words

  /** The lower bits do not depend on multiples of a higher power. */
  lemma {:induction false} LowerBits(x: int, q: int, n: nat, k: nat)
    requires k < n
    ensures Bit(x + q * Pow2(n), k) <==> Bit(x, k)
    decreases k
  {
    hide Bit;
    var y, p := x + q * Pow2(n), Pow2(n - 1);
    assert y == x + 2 * (q * p) by { Twice(q, p); }
    assert y / 2 == x / 2 + q * p && y % 2 == x % 2;
    if k == 0 {
      BitStep(x, 0); BitStep(y, 0);
    } else {
      BitStep(x, k - 1); BitStep(y, k - 1);
      LowerBits(x / 2, q, n - 1, k - 1);
    }
  }

  lemma Twice(q: int, p: int)
    ensures q * (2 * p) == 2 * (q * p)
  {
  }

  lemma Pow64()
    ensures Pow2(64) == TWO64
  {
    hide Pow2;
    Pow63();
    PowSmall();
    Pow2Add(63, 1);
  }

  /** Wrapping keeps the lower 64 bits, and nothing else: it changes a number by a multiple of 2^64. */
  lemma WrapIs(n: int)
    ensures IsWord(Wrap(n)) && (n - Wrap(n)) % TWO64 == 0
    ensures forall k: nat :: k < 64 ==> (Bit(Wrap(n), k) <==> Bit(n, k))
  {
    hide Bit;
    var q := (n + TWO63) / TWO64;
    assert n == Wrap(n) + q * TWO64;
    ModUnique(n - Wrap(n), TWO64, q, 0);
    Pow64();
    forall k: nat | k < 64 ensures Bit(Wrap(n), k) <==> Bit(n, k) { LowerBits(Wrap(n), q, 64, k); }
  }

  lemma UnsignedIs(n: int)
    ensures Unsigned(n) < Pow2(64)
    ensures forall k: nat :: k < 64 ==> (Bit(Unsigned(n), k) <==> Bit(n, k))
  {
    hide Bit;
    Pow64();
    var q := n / TWO64;
    assert n == Unsigned(n) + q * TWO64;
    forall k: nat | k < 64 ensures Bit(Unsigned(n), k) <==> Bit(n, k) { LowerBits(Unsigned(n), q, 64, k); }
  }

  /** A word is determined by its 64 bits. */
  lemma WordsByBits(a: int, b: int)
    requires IsWord(a) && IsWord(b) && forall k: nat :: k < 64 ==> (Bit(a, k) <==> Bit(b, k))
    ensures a == b
  {
    hide Bit;
    UnsignedIs(a); UnsignedIs(b);
    SameBits(Unsigned(a), Unsigned(b), 64);
  }

  /** The value is an integer of 64 bits. */
  predicate IsInt(r: EvalResult) { r.Val? && r.value.Int? && IsWord(r.value.n) }

  /** `|`, `&` and `^` on words, negative ones included. */
  lemma BitwiseOperators(a: int, b: int)
    requires IsWord(a) && IsWord(b)
    ensures var r := Apply(Bor, Int(a), Int(b));
      IsInt(r) && forall k: nat :: k < 64 ==> (Bit(r.value.n, k) <==> Bit(a, k) || Bit(b, k))
    ensures var r := Apply(Band, Int(a), Int(b));
      IsInt(r) && forall k: nat :: k < 64 ==> (Bit(r.value.n, k) <==> Bit(a, k) && Bit(b, k))
    ensures var r := Apply(Bxor, Int(a), Int(b));
      IsInt(r) && forall k: nat :: k < 64 ==> (Bit(r.value.n, k) <==> Bit(a, k) != Bit(b, k))
  {
    hide Apply, Bit, Wrap, Unsigned, BitOr, BitAnd, BitXor;
    var x, y := Unsigned(a), Unsigned(b);
    UnsignedIs(a); UnsignedIs(b);
    WrapIs(BitOr(x, y)); WrapIs(BitAnd(x, y)); WrapIs(BitXor(x, y));
    BitwiseApply(a, b);
    forall k: nat | k < 64 ensures Bit(Wrap(BitOr(x, y)), k) <==> Bit(a, k) || Bit(b, k) { OrBits(x, y, k); }
    forall k: nat | k < 64 ensures Bit(Wrap(BitAnd(x, y)), k) <==> Bit(a, k) && Bit(b, k) { AndBits(x, y, k); }
    forall k: nat | k < 64 ensures Bit(Wrap(BitXor(x, y)), k) <==> Bit(a, k) != Bit(b, k) { XorBits(x, y, k); }
  }

  lemma BitwiseApply(a: int, b: int)
    ensures Apply(Bor, Int(a), Int(b)) == Val(Int(Wrap(BitOr(Unsigned(a), Unsigned(b)))))
    ensures Apply(Band, Int(a), Int(b)) == Val(Int(Wrap(BitAnd(Unsigned(a), Unsigned(b)))))
    ensures Apply(Bxor, Int(a), Int(b)) == Val(Int(Wrap(BitXor(Unsigned(a), Unsigned(b)))))
  {
    hide Wrap, Unsigned, BitOr, BitAnd, BitXor;
  }

  /** `~` turns every bit over. */
  lemma ComplementOperator(a: int)
    requires IsWord(a)
    ensures var r := ApplyPrefix(Tilde, Int(a)); IsInt(r) && forall k: nat :: Bit(r.value.n, k) != Bit(a, k)
  {
    hide Bit;
    forall k: nat ensures Bit(-a - 1, k) != Bit(a, k) { TurnedBits(a, k); }
  }

  lemma {:induction false} TurnedBits(a: int, k: nat)
    ensures Bit(-a - 1, k) != Bit(a, k)
    decreases k
  {
    hide Bit;
    var v := -a - 1;
    if k == 0 {
      BitStep(a, 0); BitStep(v, 0);
    } else {
      BitStep(a, k - 1); BitStep(v, k - 1);
      assert v / 2 == -(a / 2) - 1;
      TurnedBits(a / 2, k - 1);
    }
  }

  // ---------------------------------------------------------------- shifts

  lemma {:induction false} ShiftedBits(a: int, s: nat, k: nat)
    ensures Bit(a * Pow2(s), k) <==> k >= s && Bit(a, k - s)
    decreases k
  {
    hide Bit;
    if s == 0 {
      assert a * Pow2(0) == a;
    } else {
      var y := a * Pow2(s);
      Twice(a, Pow2(s - 1));
      assert y == 2 * (a * Pow2(s - 1));
      if k == 0 {
        BitStep(y, 0);
      } else {
        BitStep(y, k - 1);
        ShiftedBits(a, s - 1, k - 1);
      }
    }
  }

  lemma {:induction false} DroppedBits(a: int, s: nat, k: nat)
    ensures Bit(a / Pow2(s), k) <==> Bit(a, k + s)
    decreases s
  {
    hide Bit;
    if s > 0 {
      HalfDiv(a, Pow2(s - 1));
      BitStep(a, k + s - 1);
      DroppedBits(a / 2, s - 1, k);
    }
  }

  /** `<<` moves bits up, those above the 64th are lost; `>>` moves them down, rounding towards minus
      infinity.  Distances outside 0 to 63 are errors. */
  lemma ShiftOperators(a: int, s: int)
    requires IsWord(a)
    ensures !(0 <= s <= 63) ==> Apply(Shl, Int(a), Int(s)) == Apply(Shr, Int(a), Int(s)) == Raise
    ensures 0 <= s <= 63 ==>
      var r := Apply(Shl, Int(a), Int(s));
      IsInt(r) && forall k: nat :: k < 64 ==> (Bit(r.value.n, k) <==> k >= s && Bit(a, k - s))
    ensures 0 <= s <= 63 ==>
      var r := Apply(Shr, Int(a), Int(s));
      && IsInt(r) && r.value.n * Pow2(s) <= a < (r.value.n + 1) * Pow2(s)
      && forall k: nat :: Bit(r.value.n, k) <==> Bit(a, k + s)
  {
    hide Bit, Wrap;
    if 0 <= s <= 63 {
      var up, down := Wrap(a * Pow2(s)), a / Pow2(s);
      WrapIs(a * Pow2(s));
      forall k: nat | k < 64 ensures Bit(up, k) <==> k >= s && Bit(a, k - s) { ShiftedBits(a, s, k); }
      forall k: nat ensures Bit(down, k) <==> Bit(a, k + s) { DroppedBits(a, s, k); }
      DownBounds(a, Pow2(s));
    }
  }

  lemma DownBounds(a: int, p: nat)
    requires p > 0 && IsWord(a)
    ensures IsWord(a / p) && a / p * p <= a < (a / p + 1) * p
  {
    var q, r := a / p, a % p;
    assert a == p * q + r && 0 <= r < p;
    assert q * p == p * q && (q + 1) * p == p * q + p;
    Nearer(a, p, q);
  }

  /** A floored quotient is no further from zero than the dividend, and half of it at most if the divisor
      is not one. */
  lemma Nearer(a: int, p: nat, q: int)
    requires p > 0 && q * p <= a < q * p + p
    ensures (q > 0 ==> q <= a) && (q < 0 ==> q >= a) && (p >= 2 && q > 0 ==> 2 * q <= a)
  {
    if q > 0 {
      Larger(q, p);
    } else if q < 0 {
      Larger(-q - 1, p);
      assert (-q - 1) * p == -(q * p) - p;
    }
  }

  lemma Larger(x: nat, p: nat)
    requires p > 0
    ensures x * p >= x && (p >= 2 ==> x * p >= 2 * x)
  {
  }

  // ---------------------------------------------------------------- arithmetic

  /** `+`, `-`, `*` and the sign are exact up to a multiple of 2^64, and exact where the result fits. */
  lemma ArithmeticOperators(a: int, b: int)
    ensures Wraps(Apply(Add, Int(a), Int(b)), a + b) && Wraps(Apply(Sub, Int(a), Int(b)), a - b)
    ensures Wraps(Apply(Mul, Int(a), Int(b)), a * b) && Wraps(ApplyPrefix(Minus, Int(a)), -a)
  {
    hide Wrap, Bit;
    WrapIs(a + b); WrapIs(a - b); WrapIs(a * b); WrapIs(-a);
  }

  /** The word that differs from `n` by a multiple of 2^64. */
  ghost predicate Wraps(r: EvalResult, n: int) {
    && IsInt(r) && (n - r.value.n) % TWO64 == 0
    && (IsWord(n) ==> r.value.n == n)
  }

  lemma TruncParts(a: int, b: int)
    requires b != 0
    ensures var q, m := TruncDiv(a, b), TruncMod(a, b);
      && a == q * b + m && (m == 0 || (m < 0) == (a < 0)) && Small(m, b)
  {
    var p := if b < 0 then -b else b;
    var c := if a < 0 then -a else a;
    assert c == p * (c / p) + c % p;
    SignsOut(p, c / p);
  }

  lemma SignsOut(p: int, q: int)
    ensures q * p == p * q && (-q) * p == -(p * q) && q * (-p) == -(p * q) && (-q) * (-p) == p * q
  {
  }

  /** The size of a quotient. */
  lemma QuotientFits(a: int, b: int, q: int, r: int)
    requires IsWord(a) && b != 0 && b != -1 && a == q * b + r
    requires Small(r, b) && (r == 0 || (r < 0) == (b < 0))
    ensures IsWord(q)
  {
    if b > 0 {
      Nearer(a, b, q);
    } else {
      SignsOut(-b, q);
      assert q * b == -(q * -b);
      Nearer(-a, -b, q);
    }
  }

  predicate Small(r: int, b: int) { (if r < 0 then -r else r) < if b < 0 then -b else b }

  /** Quotient and remainder of a floored division. */
  ghost predicate Divides(a: int, b: int, quotient: EvalResult, remainder: EvalResult) {
    && IsInt(quotient) && IsInt(remainder)
    && var q, r := quotient.value.n, remainder.value.n;
       && a == Wrap(q * b + r) && (!(a == -TWO63 && b == -1) ==> a == q * b + r)
       && Small(r, b) && (r == 0 || (r < 0) == (b < 0))
  }

  /** `//` and `%` belong together: the remainder has the divisor's sign and is smaller, and quotient
      times divisor plus remainder is the dividend, wrapped for the one quotient that does not fit. */
  lemma DivisionOperators(a: int, b: int)
    requires IsWord(a) && IsWord(b)
    ensures b == 0 ==> Apply(FloorDiv, Int(a), Int(b)) == Apply(Mod, Int(a), Int(b)) == Raise
    ensures b != 0 ==> Divides(a, b, Apply(FloorDiv, Int(a), Int(b)), Apply(Mod, Int(a), Int(b)))
  {
    hide Wrap, TruncDiv, TruncMod;
    if b == -1 {
      NegatedTwice(a);
    } else if b != 0 {
      TruncParts(a, b);
      Floored(a, b);
    }
  }

  lemma NegatedTwice(a: int)
    requires IsWord(a)
    ensures IsWord(Wrap(-a)) && Wrap(Wrap(-a) * -1 + 0) == a && (a != -TWO63 ==> a == Wrap(-a) * -1 + 0)
  {
  }

  lemma Floored(a: int, b: int)
    requires IsWord(a) && IsWord(b) && b != 0 && b != -1
    ensures Divides(a, b, Apply(FloorDiv, Int(a), Int(b)), Apply(Mod, Int(a), Int(b)))
  {
    hide Wrap, TruncDiv, TruncMod;
    TruncParts(a, b);
    var t, m := TruncDiv(a, b), TruncMod(a, b);
    var mend := m != 0 && (a < 0) != (b < 0);
    var q, r := if mend then t - 1 else t, if mend then m + b else m;
    OneLess(t, b);
    QuotientFits(a, b, q, r);
  }

  lemma OneLess(t: int, b: int)
    ensures (t - 1) * b == t * b - b
  {
  }

  // ---------------------------------------------------------------- tests

  /** Of two integers one is smaller or they are equal; the other comparisons say the opposite of these
      three. */
  lemma ComparisonOperators(a: int, b: int)
    ensures Apply(Lt, Int(a), Int(b)) == Val(Bool(b - a > 0))
    ensures Apply(Gt, Int(a), Int(b)) == Apply(Lt, Int(b), Int(a))
    ensures Apply(Eq, Int(a), Int(b)) == Val(Bool(a - b == 0))
    ensures Opposite(Apply(Ge, Int(a), Int(b)), Apply(Lt, Int(a), Int(b)))
    ensures Opposite(Apply(Le, Int(a), Int(b)), Apply(Gt, Int(a), Int(b)))
    ensures Opposite(Apply(Ne, Int(a), Int(b)), Apply(Eq, Int(a), Int(b)))
  {
  }

  predicate Opposite(r: EvalResult, s: EvalResult) {
    r.Val? && s.Val? && r.value.Bool? && s.value.Bool? && r.value.b != s.value.b
  }

  /** What counts as false: zero, `false` and `null`; `not` says which it is. */
  lemma WhatIsFalse(v: Value)
    ensures !Truthy(v) <==> v in {Int(0), Bool(false), Null}
    ensures ApplyPrefix(Not, v) == Val(Bool(v in {Int(0), Bool(false), Null}))
  {
  }

  // ---------------------------------------------------------------- operands that are no integers

  /** Anything can be compared for equality, and values of different kinds are never equal; all else
      needs integers. */
  lemma OtherOperands(op: BinOp, a: Value, b: Value)
    requires !a.IsText() && !b.IsText() && !(a.Int? && b.Int?)
    ensures op == Eq || op == Ne ==> Apply(op, a, b) == Val(Bool((op == Eq) == (a == b)))
    ensures op != Eq && op != Ne ==> Apply(op, a, b) == Raise
    ensures a.Int? != b.Int? || a.Bool? != b.Bool? ==> Apply(Eq, a, b) == Val(Bool(false))
    ensures !a.Int? ==> ApplyPrefix(Minus, a) == ApplyPrefix(Tilde, a) == Raise
  {
  }
}
